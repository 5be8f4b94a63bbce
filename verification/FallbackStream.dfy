/**
 The fallback configuration source: the priority walk over its sub-sources and
 the merged watch stream that races their sub-streams, parks one delivery at a
 time and re-reads the effective value. A call may be dropped at any of its
 awaits. What the sources answer at each walk, and what each sub-stream still
 has to deliver, are inputs.
 */
module FallbackStream {
  import opened Collections
  import opened Wrappers
  import opened Utf8

  type Bytes = seq<byte>

  /** One sub-source's answer to one load. */
  datatype Answer = Found(data: Bytes) | Absent | Broken(text: string)

  datatype ConfigError = Failed(text: string) | Unresolved(key: string)

  // --- The priority walk --------------------------------------------------------

  /** The answer of the first source that has one: absences and failures are passed over. */
  function FirstFound(answers: seq<Answer>): Option<Bytes> {
    if answers == [] then None
    else if answers[0].Found? then Some(answers[0].data)
    else FirstFound(answers[1..])
  }

  function Failures(answers: seq<Answer>): seq<string> {
    if answers == [] then []
    else (if answers[0].Broken? then [answers[0].text] else []) + Failures(answers[1..])
  }

  function JoinText(parts: seq<string>, sep: string): string {
    if parts == [] then []
    else if |parts| == 1 then parts[0]
    else parts[0] + sep + JoinText(parts[1..], sep)
  }

  ghost predicate Wins(answers: seq<Answer>, i: nat, data: Bytes) {
    && i < |answers| && answers[i] == Found(data)
    && forall j | 0 <= j < i :: !answers[j].Found?
  }

  /** The walk's answer is the highest-priority one, and there is none exactly when no source has any. */
  lemma {:induction false} FirstFoundIff(answers: seq<Answer>, data: Bytes)
    ensures FirstFound(answers) == Some(data) <==> exists i :: Wins(answers, i, data)
    ensures FirstFound(answers).None? <==> forall i | 0 <= i < |answers| :: !answers[i].Found?
  {
    if answers != [] {
      var rest := answers[1..];
      FirstFoundIff(rest, data);
      if answers[0].Found? {
        assert Wins(answers, 0, answers[0].data);
      } else {
        forall i: nat | Wins(rest, i, data) ensures Wins(answers, i + 1, data) {
        }
        forall i: nat | Wins(answers, i, data) ensures i > 0 && Wins(rest, i - 1, data) {
        }
        assert forall i | 0 <= i < |answers| :: i == 0 || answers[i] == rest[i - 1];
      }
    }
  }

  lemma {:induction false} NoFailuresIff(answers: seq<Answer>)
    ensures Failures(answers) == [] <==> forall i | 0 <= i < |answers| :: !answers[i].Broken?
  {
    if answers != [] {
      NoFailuresIff(answers[1..]);
      assert forall i | 0 < i < |answers| :: answers[i] == answers[1..][i - 1];
    }
  }

  lemma FailuresStep(done: seq<string>, answers: seq<Answer>, k: nat)
    requires k < |answers| && done + Failures(answers[k..]) == Failures(answers)
    ensures (if answers[k].Broken? then done + [answers[k].text] else done) + Failures(answers[k + 1..])
         == Failures(answers)
  {
    var rest := answers[k..];
    assert rest[0] == answers[k] && rest[1..] == answers[k + 1..];
    Assoc(done, if rest[0].Broken? then [rest[0].text] else [], Failures(rest[1..]));
    assert done + [] == done;
  }

  lemma NoMoreFailures(done: seq<string>, answers: seq<Answer>)
    requires answers == []
    ensures done + Failures(answers) == done
  {
  }

  /** The failures are the texts of the sources that broke, each once, in their order. */
  lemma {:induction false} FailuresAre(a: seq<Answer>, b: seq<Answer>, answer: Answer)
    ensures Failures([answer]) == if answer.Broken? then [answer.text] else []
    ensures Failures(a + b) == Failures(a) + Failures(b)
  {
    assert [answer][1..] == [];
    if a == [] {
      assert a + b == b;
    } else {
      FailuresAre(a[1..], b, answer);
      assert (a + b)[1..] == a[1..] + b;
      Assoc(if a[0].Broken? then [a[0].text] else [], Failures(a[1..]), Failures(b));
    }
  }

  /** One text stands for itself; between two groups of texts stands one separator. */
  lemma {:induction false} JoinedAre(a: seq<string>, b: seq<string>, text: string, sep: string)
    requires a != [] && b != []
    ensures JoinText([text], sep) == text
    ensures JoinText(a + b, sep) == JoinText(a, sep) + sep + JoinText(b, sep)
  {
    if |a| > 1 {
      JoinedAre(a[1..], b, text, sep);
      assert (a + b)[1..] == a[1..] + b;
    } else {
      assert (a + b)[1..] == b;
    }
  }

  /** First answer wins; without one, the joined failures come before "unresolved". */
  method Load(answers: seq<Answer>, key: string) returns (r: Result<Bytes, ConfigError>)
    ensures r == match FirstFound(answers)
                 case Some(data) => Ok(data)
                 case None => if exists i | 0 <= i < |answers| :: answers[i].Broken?
                              then Err(Failed(JoinText(Failures(answers), "; ")))
                              else Err(Unresolved(key))
  {
    hide JoinText, Failures;
    var failures: seq<string> := [];
    var k := 0;
    NoFailuresIff(answers);
    assert answers[0..] == answers;
    while k < |answers|
      invariant 0 <= k <= |answers| && FirstFound(answers) == FirstFound(answers[k..])
      invariant failures + Failures(answers[k..]) == Failures(answers)
    {
      assert answers[k..][1..] == answers[k + 1..];
      FailuresStep(failures, answers, k);
      match answers[k] {
        case Found(data) => return Ok(data);
        case Absent =>
        case Broken(text) => failures := failures + [text];
      }
      k := k + 1;
    }
    NoMoreFailures(failures, answers[k..]);
    if failures != [] {
      return Err(Failed(JoinText(failures, "; ")));
    }
    r := Err(Unresolved(key));
  }

  /** The walk of the merged stream: errors are passed over like absences. */
  method LoadThrough(answers: seq<Answer>) returns (r: Option<Bytes>)
    ensures r == FirstFound(answers)
  {
    var k := 0;
    while k < |answers|
      invariant 0 <= k <= |answers| && FirstFound(answers) == FirstFound(answers[k..])
    {
      if answers[k].Found? {
        return Some(answers[k].data);
      }
      assert answers[k..][1..] == answers[k + 1..];
      k := k + 1;
    }
    r := None;
  }

  // --- The merged stream --------------------------------------------------------

  /** A sub-stream with the deliveries it still has to make before it ends. */
  datatype Slot = Slot(script: seq<Bytes>, parked: Option<Bytes>, ended: bool)

  /** What one sub-source offers a watch. */
  datatype Offer = Watch(script: seq<Bytes>) | NotWatchable | WatchFails(text: string)

  function Offered(offer: Offer): seq<Slot> {
    if offer.Watch? then [Slot(offer.script, None, false)] else []
  }

  function Watched(offers: seq<Offer>): seq<Slot> {
    if offers == [] then [] else Offered(offers[0]) + Watched(offers[1..])
  }

  lemma NoneWatched(offers: seq<Offer>)
    ensures offers == [] ==> Watched(offers) == []
  {
  }

  lemma WatchedStep(done: seq<Slot>, offers: seq<Offer>, k: nat)
    requires k < |offers| && done + Watched(offers[k..]) == Watched(offers)
    ensures done + Offered(offers[k]) + Watched(offers[k + 1..]) == Watched(offers)
  {
    hide Offered;
    var rest := offers[k..];
    assert rest[0] == offers[k] && rest[1..] == offers[k + 1..];
    Assoc(done, Offered(rest[0]), Watched(rest[1..]));
  }

  /** The slots are live, unparked streams of the watchable sources, each once, in their order. */
  lemma {:induction false} WatchedAre(a: seq<Offer>, b: seq<Offer>, offer: Offer)
    ensures Watched([offer]) == if offer.Watch? then [Slot(offer.script, None, false)] else []
    ensures Watched(a + b) == Watched(a) + Watched(b)
  {
    assert [offer][1..] == [];
    if a == [] {
      assert a + b == b;
    } else {
      WatchedAre(a[1..], b, offer);
      assert (a + b)[1..] == a[1..] + b;
      Assoc(Offered(a[0]), Watched(a[1..]), Watched(b));
    }
  }

  /** Collects the watchable sub-sources in order; the first real failure propagates, none at all is a failure. */
  method WatchValue(offers: seq<Offer>) returns (r: Result<seq<Slot>, ConfigError>)
    ensures r.Ok? <==> Watched(offers) != [] && forall i | 0 <= i < |offers| :: !offers[i].WatchFails?
    ensures r.Ok? ==> r.value == Watched(offers)
    ensures Watched(offers) == [] && (forall i | 0 <= i < |offers| :: !offers[i].WatchFails?) ==>
              r == Err(Failed("fallback: none of the sub-sources offers value watching"))
    ensures forall i | 0 <= i < |offers| && offers[i].WatchFails?
                       && (forall j | 0 <= j < i :: !offers[j].WatchFails?) ::
              r == Err(Failed(offers[i].text))
  {
    hide Watched;
    var slots: seq<Slot> := [];
    var k := 0;
    assert offers[0..] == offers;
    while k < |offers|
      invariant 0 <= k <= |offers| && slots + Watched(offers[k..]) == Watched(offers)
      invariant forall i | 0 <= i < k :: !offers[i].WatchFails?
    {
      WatchedStep(slots, offers, k);
      match offers[k] {
        case Watch(script) => slots := slots + [Slot(script, None, false)];
        case NotWatchable =>
        case WatchFails(text) => return Err(Failed(text));
      }
      k := k + 1;
    }
    NoneWatched(offers[k..]);
    if slots == [] {
      return Err(Failed("fallback: none of the sub-sources offers value watching"));
    }
    r := Ok(slots);
  }

  /** What a call to next does, in order. An abandoned walk is one the call was dropped in. */
  datatype Event =
    | Delivered(sub: nat, value: Bytes)
    | SubEnded(sub: nat)
    | Reread(walk: nat, answer: Option<Bytes>)
    | Abandoned(walk: nat)

  predicate IsWalk(e: Event) {
    e.Reread? || e.Abandoned?
  }

  /** How a call ends: with a value, with the end of the stream, or dropped by its caller. */
  datatype Outcome = Yielded(value: Bytes) | Finished | Dropped

  ghost predicate AnyParked(slots: seq<Slot>) {
    exists i | 0 <= i < |slots| :: slots[i].parked.Some?
  }

  ghost predicate AllEnded(slots: seq<Slot>) {
    forall i | 0 <= i < |slots| :: slots[i].ended
  }

  ghost predicate Sound(slots: seq<Slot>) {
    forall i | 0 <= i < |slots| :: slots[i].ended ==> slots[i].script == []
  }

  /**
   Whether something waits for a re-read after these events; None when they are
   out of order: deliveries and ends happen only with nothing waiting, walks
   only with something waiting.
   */
  function Waiting(events: seq<Event>, waiting: bool): Option<bool> {
    if events == [] then Some(waiting)
    else
      match Waiting(events[..|events| - 1], waiting)
      case None => None
      case Some(now) =>
        var last := events[|events| - 1];
        if now != IsWalk(last) then None else Some(last.Delivered?)
  }

  function Walks(events: seq<Event>): nat {
    if events == [] then 0
    else Walks(events[..|events| - 1]) + if IsWalk(events[|events| - 1]) then 1 else 0
  }

  function Deliveries(events: seq<Event>): nat {
    if events == [] then 0
    else Deliveries(events[..|events| - 1]) + if events[|events| - 1].Delivered? then 1 else 0
  }

  function ValuesOf(events: seq<Event>, sub: nat): seq<Bytes> {
    if events == [] then []
    else
      var last := events[|events| - 1];
      ValuesOf(events[..|events| - 1], sub) + if last.Delivered? && last.sub == sub then [last.value] else []
  }

  /** The values handed to the caller: the answers of the walks that had one. */
  function Yields(events: seq<Event>): seq<Bytes> {
    if events == [] then []
    else
      var last := events[|events| - 1];
      Yields(events[..|events| - 1]) + if last.Reread? && last.answer.Some? then [last.answer.value] else []
  }

  /** Walks are numbered from start, and each answered as the sources then did. */
  ghost predicate Truthful(world: nat -> seq<Answer>, events: seq<Event>, start: nat) {
    forall k | 0 <= k < |events| ::
      match events[k]
      case Reread(walk, answer) => walk == start + Walks(events[..k]) && answer == FirstFound(world(walk))
      case Abandoned(walk) => walk == start + Walks(events[..k])
      case _ => true
  }

  lemma AppendEvent(events: seq<Event>, e: Event)
    ensures (events + [e])[..|events|] == events
  {
  }

  // --- Sequencing ---------------------------------------------------------------

  lemma {:induction false} WaitingConcat(a: seq<Event>, b: seq<Event>, waiting: bool)
    ensures Waiting(a + b, waiting) ==
      match Waiting(a, waiting) case None => None case Some(now) => Waiting(b, now)
    ensures Walks(a + b) == Walks(a) + Walks(b)
    decreases |b|
  {
    if b == [] {
      assert a + b == a;
    } else {
      assert (a + b)[..|a + b| - 1] == a + b[..|b| - 1];
      WaitingConcat(a, b[..|b| - 1], waiting);
    }
  }

  lemma {:induction false} YieldsConcat(a: seq<Event>, b: seq<Event>, sub: nat)
    ensures Yields(a + b) == Yields(a) + Yields(b)
    ensures ValuesOf(a + b, sub) == ValuesOf(a, sub) + ValuesOf(b, sub)
    decreases |b|
  {
    if b == [] {
      assert a + b == a;
    } else {
      assert (a + b)[..|a + b| - 1] == a + b[..|b| - 1];
      YieldsConcat(a, b[..|b| - 1], sub);
    }
  }

  lemma TruthfulConcat(world: nat -> seq<Answer>, a: seq<Event>, b: seq<Event>, start: nat)
    requires Truthful(world, a, start) && Truthful(world, b, start + Walks(a))
    ensures Truthful(world, a + b, start)
  {
    var ab := a + b;
    forall k | 0 <= k < |ab|
      ensures match ab[k]
              case Reread(walk, answer) => walk == start + Walks(ab[..k]) && answer == FirstFound(world(walk))
              case Abandoned(walk) => walk == start + Walks(ab[..k])
              case _ => true
    {
      if k < |a| {
        assert ab[..k] == a[..k] && ab[k] == a[k];
      } else {
        assert ab[..k] == a + b[..k - |a|] && ab[k] == b[k - |a|];
        WaitingConcat(a, b[..k - |a|], false);
      }
    }
  }

  /**
   Events in order that leave nothing waiting: each delivery is followed at once
   by its one walk and each walk follows one delivery, so there are as many walks
   as deliveries; a walk more if something was waiting before.
   */
  lemma {:induction false} OneWalkPerDelivery(events: seq<Event>, waiting: bool)
    requires Waiting(events, waiting).Some?
    ensures Deliveries(events) + (if waiting then 1 else 0)
            == Walks(events) + if Waiting(events, waiting).value then 1 else 0
    ensures forall k | 0 <= k < |events| - 1 && events[k].Delivered? :: IsWalk(events[k + 1])
    ensures events != [] ==> Waiting(events, waiting).value == events[|events| - 1].Delivered?
    ensures forall k | 0 < k < |events| && IsWalk(events[k]) :: events[k - 1].Delivered?
    ensures events != [] && IsWalk(events[0]) ==> waiting
  {
    if events != [] {
      var before := events[..|events| - 1];
      OneWalkPerDelivery(before, waiting);
      assert forall k | 0 <= k < |before| :: events[k] == before[k];
      if before != [] {
        WaitingIsLast(before, waiting);
      }
      forall k | 0 < k < |events| && IsWalk(events[k]) ensures events[k - 1].Delivered? {
        assert k < |before| ==> IsWalk(before[k]);
        assert events[k - 1] == before[k - 1];
      }
    }
  }

  lemma WaitingIsLast(events: seq<Event>, waiting: bool)
    requires events != [] && Waiting(events, waiting).Some?
    ensures Waiting(events, waiting) == Some(events[|events| - 1].Delivered?)
  {
  }

  // --- The awaits a call can take -----------------------------------------------

  function Remaining(slots: seq<Slot>): nat {
    if slots == [] then 0
    else (if slots[0].ended then 0 else 2 * |slots[0].script| + 1) + Remaining(slots[1..])
  }

  /** The most awaits a call can complete before it returns. */
  ghost function Budget(slots: seq<Slot>): nat {
    Remaining(slots) + if AnyParked(slots) then 1 else 0
  }

  lemma {:induction false} RemainingUpdate(slots: seq<Slot>, i: nat, s: Slot)
    requires i < |slots|
    ensures Remaining(slots[i := s]) == Remaining(slots) - Remaining([slots[i]]) + Remaining([s])
    ensures Remaining(slots) >= Remaining([slots[i]])
  {
    if i > 0 {
      assert slots[i := s][1..] == slots[1..][i - 1 := s];
      RemainingUpdate(slots[1..], i - 1, s);
    } else {
      assert slots[0 := s][1..] == slots[1..];
    }
  }

  lemma RemainingOne(s: Slot)
    ensures Remaining([s]) == if s.ended then 0 else 2 * |s.script| + 1
  {
    assert [s][1..] == [];
  }

  function Cleared(slots: seq<Slot>): (r: seq<Slot>)
    ensures |r| == |slots| && forall i | 0 <= i < |slots| :: r[i] == slots[i].(parked := None)
  {
    seq(|slots|, i requires 0 <= i < |slots| => slots[i].(parked := None))
  }

  lemma {:induction false} ClearedRemaining(slots: seq<Slot>)
    ensures Remaining(Cleared(slots)) == Remaining(slots)
  {
    if slots != [] {
      assert Cleared(slots)[1..] == Cleared(slots[1..]);
      ClearedRemaining(slots[1..]);
    }
  }

  // --- Steps --------------------------------------------------------------------

  /** From some slots and walk number, these events lead to those. */
  ghost predicate Advances(world: nat -> seq<Answer>, from: seq<Slot>, start: nat,
                           did: seq<Event>, to: seq<Slot>, end: nat) {
    && |from| == |to| && Sound(to)
    && Waiting(did, AnyParked(from)) == Some(AnyParked(to))
    && Truthful(world, did, start) && end == start + Walks(did)
    && forall i: nat | i < |from| :: Consumed(from, did, to, i)
  }

  /** A sub-stream's values are delivered in order, none skipped. */
  ghost predicate Consumed(from: seq<Slot>, did: seq<Event>, to: seq<Slot>, i: nat)
    requires i < |from| == |to|
  {
    from[i].script == ValuesOf(did, i) + to[i].script
  }

  lemma AdvancesTrans(world: nat -> seq<Answer>, a: seq<Slot>, m: nat, ab: seq<Event>, b: seq<Slot>, n: nat,
                      bc: seq<Event>, c: seq<Slot>, p: nat)
    requires Advances(world, a, m, ab, b, n) && Advances(world, b, n, bc, c, p)
    ensures Advances(world, a, m, ab + bc, c, p)
  {
    hide Waiting, Truthful, Walks, ValuesOf, AnyParked, Sound;
    WaitingConcat(ab, bc, AnyParked(a));
    TruthfulConcat(world, ab, bc, m);
    forall i: nat | i < |a| ensures Consumed(a, ab + bc, c, i) {
      YieldsConcat(ab, bc, i);
      assert Consumed(a, ab, b, i) && Consumed(b, bc, c, i);
    }
  }

  lemma AdvancesNot(world: nat -> seq<Answer>, a: seq<Slot>, m: nat)
    requires Sound(a)
    ensures Advances(world, a, m, [], a, m)
  {
    assert forall i: nat | i < |a| :: Consumed(a, [], a, i);
  }

  lemma OneEvent(e: Event, waiting: bool, sub: nat)
    ensures Waiting([e], waiting) == if waiting != IsWalk(e) then None else Some(e.Delivered?)
    ensures Walks([e]) == if IsWalk(e) then 1 else 0
    ensures Yields([e]) == if e.Reread? && e.answer.Some? then [e.answer.value] else []
    ensures ValuesOf([e], sub) == if e.Delivered? && e.sub == sub then [e.value] else []
  {
    assert [e][..0] == [];
  }

  function Deliver(slots: seq<Slot>, i: nat): seq<Slot>
    requires i < |slots| && slots[i].script != []
  {
    slots[i := slots[i].(script := slots[i].script[1..], parked := Some(slots[i].script[0]))]
  }

  function End(slots: seq<Slot>, i: nat): seq<Slot>
    requires i < |slots|
  {
    slots[i := slots[i].(ended := true)]
  }

  lemma DeliverBudget(slots: seq<Slot>, i: nat)
    requires !AnyParked(slots) && i < |slots| && !slots[i].ended && slots[i].script != []
    ensures Budget(Deliver(slots, i)) == Budget(slots) - 1 && AnyParked(Deliver(slots, i))
  {
    hide Remaining;
    var after := Deliver(slots, i);
    assert after[i].parked.Some?;
    RemainingUpdate(slots, i, after[i]);
    RemainingOne(slots[i]);
    RemainingOne(after[i]);
  }

  lemma DeliverAdvances(world: nat -> seq<Answer>, slots: seq<Slot>, i: nat, walks: nat)
    requires Sound(slots) && !AnyParked(slots) && i < |slots| && !slots[i].ended && slots[i].script != []
    ensures Advances(world, slots, walks, [Delivered(i, slots[i].script[0])], Deliver(slots, i), walks)
    ensures Sound(Deliver(slots, i))
  {
    hide Waiting, Walks, ValuesOf, AnyParked;
    var e, after := Delivered(i, slots[i].script[0]), Deliver(slots, i);
    OneEvent(e, false, i);
    DeliverBudget(slots, i);
    forall k: nat | k < |slots| ensures Consumed(slots, [e], after, k) {
      OneEvent(e, false, k);
    }
  }

  lemma EndBudget(slots: seq<Slot>, i: nat)
    requires !AnyParked(slots) && i < |slots| && !slots[i].ended && slots[i].script == []
    ensures Budget(End(slots, i)) == Budget(slots) - 1 && !AnyParked(End(slots, i))
  {
    hide Remaining;
    var after := End(slots, i);
    RemainingUpdate(slots, i, after[i]);
    RemainingOne(slots[i]);
    RemainingOne(after[i]);
  }

  lemma EndAdvances(world: nat -> seq<Answer>, slots: seq<Slot>, i: nat, walks: nat)
    requires Sound(slots) && !AnyParked(slots) && i < |slots| && !slots[i].ended && slots[i].script == []
    ensures Advances(world, slots, walks, [SubEnded(i)], End(slots, i), walks) && Sound(End(slots, i))
  {
    hide Waiting, Walks, ValuesOf, AnyParked;
    OneEvent(SubEnded(i), false, i);
    EndBudget(slots, i);
    forall k: nat | k < |slots| ensures Consumed(slots, [SubEnded(i)], End(slots, i), k) {
      OneEvent(SubEnded(i), false, k);
    }
  }

  /** The sub-streams that still race. */
  function Live(slots: seq<Slot>): (live: set<nat>)
    ensures live == {} <==> AllEnded(slots)
    ensures forall i | i in live :: i < |slots| && !slots[i].ended
  {
    var live := set i: nat | i < |slots| && !slots[i].ended;
    assert forall i: nat | i < |slots| && !slots[i].ended :: i in live;
    live
  }

  lemma LiveWithout(slots: seq<Slot>, i: nat)
    requires i < |slots|
    ensures Live(End(slots, i)) == Live(slots) - {i}
  {
  }

  /** A walk clears every parked delivery, and reads once for all of them. */
  lemma WalkAdvances(world: nat -> seq<Answer>, slots: seq<Slot>, e: Event, walks: nat)
    requires Sound(slots) && AnyParked(slots)
    requires e == Reread(walks, FirstFound(world(walks))) || e == Abandoned(walks)
    ensures Advances(world, slots, walks, [e], Cleared(slots), walks + 1)
    ensures Budget(Cleared(slots)) == Budget(slots) - 1 && !AnyParked(Cleared(slots))
  {
    hide Waiting, ValuesOf;
    OneEvent(e, true, 0);
    ClearedRemaining(slots);
    assert [e][..0] == [];
    forall k: nat | k < |slots| ensures Consumed(slots, [e], Cleared(slots), k) {
      OneEvent(e, true, k);
    }
  }

  lemma BudgetPositive(slots: seq<Slot>)
    requires AnyParked(slots) || !AllEnded(slots)
    ensures Budget(slots) > 0
  {
    if !AllEnded(slots) {
      var i: nat :| i < |slots| && !slots[i].ended;
      RemainingUpdate(slots, i, slots[i]);
      RemainingOne(slots[i]);
    }
  }

  ghost predicate NothingYielded(did: seq<Event>) {
    && Yields(did) == []
    && forall k | 0 <= k < |did| :: !did[k].Abandoned?
  }

  lemma NothingAtAll()
    ensures NothingYielded([])
  {
  }

  lemma NothingTwice(a: seq<Event>, b: seq<Event>)
    requires NothingYielded(a) && NothingYielded(b)
    ensures NothingYielded(a + b)
  {
    YieldsConcat(a, b, 0);
  }

  lemma AppendYield(did: seq<Event>, e: Event)
    requires NothingYielded(did)
    ensures Yields(did + [e]) == if e.Reread? && e.answer.Some? then [e.answer.value] else []
    ensures e.Reread? && e.answer.None? ==> NothingYielded(did + [e])
  {
    AppendEvent(did, e);
  }

  lemma StillNothing(did: seq<Event>, e: Event)
    requires NothingYielded(did) && !e.Abandoned? && (e.Reread? ==> e.answer.None?)
    ensures NothingYielded(did + [e])
  {
    AppendEvent(did, e);
  }

  /** One call: how long its caller waited, its outcome, what it did, and the state it left. */
  datatype Call = Call(awaits: nat, outcome: Outcome, did: seq<Event>, slots: seq<Slot>, walks: nat) {

    /** What a call made in a given state may do. */
    ghost predicate From(world: nat -> seq<Answer>, from: seq<Slot>, start: nat) {
      && Advances(world, from, start, did, slots, walks) && !AnyParked(slots)
      && Returns(from)
      && (forall k | 0 <= k < |did| && did[k].Abandoned? :: outcome.Dropped? && k == |did| - 1)
      && Budget(slots) <= Budget(from) && (outcome.Yielded? ==> Budget(slots) < Budget(from))
      && (outcome.Dropped? ==> awaits < Budget(from))
    }

    /** A value is the last walk's answer; the end comes exactly when all sub-streams ended and nothing is parked. */
    ghost predicate Returns(from: seq<Slot>) {
      && Yields(did) == (if outcome.Yielded? then [outcome.value] else [])
      && (outcome.Yielded? ==> walks > 0 && did != [] && did[|did| - 1] == Reread(walks - 1, Some(outcome.value)))
      && (outcome.Finished? ==> AllEnded(slots))
      && (AllEnded(from) && !AnyParked(from) ==> outcome.Finished? && did == [])
    }
  }

  // --- Runs of calls ------------------------------------------------------------

  ghost predicate Run(world: nat -> seq<Answer>, from: seq<Slot>, start: nat, calls: seq<Call>)
    decreases |calls|
  {
    calls == [] || (calls[0].From(world, from, start) && Run(world, calls[0].slots, calls[0].walks, calls[1..]))
  }

  function EventsOf(calls: seq<Call>): seq<Event> {
    if calls == [] then [] else calls[0].did + EventsOf(calls[1..])
  }

  function ValuesYielded(calls: seq<Call>): seq<Bytes> {
    if calls == [] then []
    else (if calls[0].outcome.Yielded? then [calls[0].outcome.value] else []) + ValuesYielded(calls[1..])
  }

  /** The calls of a run together are one advance, and its callers got the answers of its answered walks. */
  lemma {:induction false} RunAdvances(world: nat -> seq<Answer>, from: seq<Slot>, start: nat, calls: seq<Call>)
    requires Run(world, from, start, calls) && calls != []
    ensures var last := calls[|calls| - 1];
            Advances(world, from, start, EventsOf(calls), last.slots, last.walks) && !AnyParked(last.slots)
    ensures Yields(EventsOf(calls)) == ValuesYielded(calls)
    decreases |calls|
  {
    hide Advances, Yields, Budget;
    var c, rest := calls[0], calls[1..];
    if rest == [] {
      assert c.did + EventsOf(rest) == c.did;
    } else {
      var last := rest[|rest| - 1];
      RunAdvances(world, c.slots, c.walks, rest);
      AdvancesTrans(world, from, start, c.did, c.slots, c.walks, EventsOf(rest), last.slots, last.walks);
      YieldsConcat(c.did, EventsOf(rest), 0);
    }
  }

  /**
   Conservation over any run of calls, dropped ones included: as many walks as
   deliveries (one more for what was parked at the start), each right after its
   delivery, and per sub-stream exactly the values it made are accounted for.
   */
  lemma EveryDeliveryIsReread(world: nat -> seq<Answer>, from: seq<Slot>, start: nat, calls: seq<Call>)
    requires Run(world, from, start, calls) && calls != []
    ensures var events, last := EventsOf(calls), calls[|calls| - 1];
            && Deliveries(events) + (if AnyParked(from) then 1 else 0) == Walks(events) == last.walks - start
            && (forall k | 0 <= k < |events| && events[k].Delivered? :: k + 1 < |events| && IsWalk(events[k + 1]))
            && (last.outcome.Finished? ==> forall i: nat | i < |from| :: from[i].script == ValuesOf(events, i))
  {
    hide Waiting, Walks, Deliveries, Truthful, ValuesOf, Run, EventsOf;
    var events, last := EventsOf(calls), calls[|calls| - 1];
    RunAdvances(world, from, start, calls);
    OneWalkPerDelivery(events, AnyParked(from));
    if last.outcome.Finished? {
      LastCall(world, from, start, calls);
      forall i: nat | i < |from| ensures from[i].script == ValuesOf(events, i) {
        assert Consumed(from, events, last.slots, i);
        assert ValuesOf(events, i) + [] == ValuesOf(events, i);
      }
    }
  }

  lemma {:induction false} LastCall(world: nat -> seq<Answer>, from: seq<Slot>, start: nat, calls: seq<Call>)
    requires Run(world, from, start, calls) && calls != []
    ensures calls[|calls| - 1].outcome.Finished? ==> AllEnded(calls[|calls| - 1].slots)
    decreases |calls|
  {
    if |calls| > 1 {
      LastCall(world, calls[0].slots, calls[0].walks, calls[1..]);
    }
  }

  /** Calls waited out: none is dropped, nothing is abandoned, and the stream ends within its budget of calls. */
  lemma {:induction false} PatientRunEnds(world: nat -> seq<Answer>, from: seq<Slot>, start: nat, calls: seq<Call>)
    requires Run(world, from, start, calls)
    requires forall k | 0 <= k < |calls| :: calls[k].awaits >= Budget(from)
    ensures forall k | 0 <= k < |calls| :: !calls[k].outcome.Dropped?
    ensures forall k | 0 <= k < |EventsOf(calls)| :: !EventsOf(calls)[k].Abandoned?
    ensures |calls| > Budget(from) ==> exists k | 0 <= k < |calls| :: calls[k].outcome.Finished?
    decreases |calls|
  {
    hide Budget, Advances;
    if calls != [] {
      var c, rest := calls[0], calls[1..];
      assert forall k | 0 <= k < |rest| :: rest[k] == calls[k + 1];
      PatientRunEnds(world, c.slots, c.walks, rest);
      if |calls| > Budget(from) && !c.outcome.Finished? {
        var k :| 0 <= k < |rest| && rest[k].outcome.Finished?;
        assert calls[k + 1].outcome.Finished?;
      }
    }
  }

  class ValueStream {
    var slots: seq<Slot>
    var walks: nat

    ghost predicate Valid()
      reads this
    {
      Sound(slots)
    }

    constructor (watched: seq<Slot>)
      requires forall i | 0 <= i < |watched| :: !watched[i].ended
      ensures Valid() && slots == watched && walks == 0
    {
      slots, walks := watched, 0;
    }

    /**
     One round: the live sub-streams race, in an order nobody controls, until one
     delivers, all have ended, or the wait is dropped.
     */
    method Race(world: nat -> seq<Answer>, awaits: nat) returns (left: nat, dropped: bool, ghost did: seq<Event>)
      requires Valid() && !AnyParked(slots) && !AllEnded(slots)
      modifies this`slots
      ensures Valid() && Advances(world, old(slots), walks, did, slots, walks)
      ensures NothingYielded(did) && left <= awaits && Budget(slots) + (awaits - left) == Budget(old(slots))
      ensures if dropped then left == 0 && !AnyParked(slots) && !AllEnded(slots)
              else left < awaits && (AnyParked(slots) || AllEnded(slots))
    {
      hide Advances, Budget, NothingYielded, Sound, AnyParked, AllEnded, Live, Deliver, End;
      left, dropped, did := awaits, false, [];
      var racing := Live(slots);
      AdvancesNot(world, slots, walks);
      NothingAtAll();
      while racing != {}
        invariant Valid() && !AnyParked(slots)
        invariant racing == Live(slots)
        invariant Advances(world, old(slots), walks, did, slots, walks) && NothingYielded(did)
        invariant left <= awaits && Budget(slots) + (awaits - left) == Budget(old(slots))
        invariant racing == {} ==> left < awaits
        decreases |racing|
      {
        if left == 0 {
          return left, true, did;
        }
        var i :| i in racing;
        left := left - 1;
        if slots[i].script != [] {
          ghost var e := Delivered(i, slots[i].script[0]);
          DeliverAdvances(world, slots, i, walks);
          DeliverBudget(slots, i);
          AdvancesTrans(world, old(slots), walks, did, slots, walks, [e], Deliver(slots, i), walks);
          StillNothing(did, e);
          did := did + [e];
          slots := Deliver(slots, i);
          return;
        }
        EndAdvances(world, slots, i, walks);
        EndBudget(slots, i);
        LiveWithout(slots, i);
        AdvancesTrans(world, old(slots), walks, did, slots, walks, [SubEnded(i)], End(slots, i), walks);
        StillNothing(did, SubEnded(i));
        did := did + [SubEnded(i)];
        slots := End(slots, i);
        racing := racing - {i};
      }
    }

    /** One call: coalesce what is parked into one walk, or race; until a walk has an answer or all have ended. */
    method Next(world: nat -> seq<Answer>, awaits: nat) returns (r: Outcome, ghost did: seq<Event>)
      requires Valid()
      modifies this
      ensures Valid() && Call(awaits, r, did, slots, walks).From(world, old(slots), old(walks))
    {
      hide Advances, Budget, Yields;
      did := [];
      ghost var from, start := slots, walks;
      var left: nat := awaits;
      AdvancesNot(world, slots, walks);
      NothingAtAll();
      while true
        invariant Valid()
        invariant Advances(world, from, start, did, slots, walks) && NothingYielded(did)
        invariant left <= awaits && Budget(slots) + (awaits - left) <= Budget(from)
        invariant AllEnded(from) && !AnyParked(from) ==> did == [] && slots == from
        decreases Budget(slots)
      {
        if exists i | 0 <= i < |slots| :: slots[i].parked.Some? {
          ghost var before, n := slots, walks;
          BudgetPositive(slots);
          slots := Cleared(slots);
          walks := walks + 1;
          if left == 0 {
            WalkAdvances(world, before, Abandoned(n), n);
            AdvancesTrans(world, from, start, did, before, n, [Abandoned(n)], slots, walks);
            AppendYield(did, Abandoned(n));
            did := did + [Abandoned(n)];
            return Dropped, did;
          }
          left := left - 1;
          var answer := LoadThrough(world(walks - 1));
          ghost var e := Reread(n, answer);
          WalkAdvances(world, before, e, n);
          AdvancesTrans(world, from, start, did, before, n, [e], slots, walks);
          AppendYield(did, e);
          did := did + [e];
          if answer.Some? {
            return Yielded(answer.value), did;
          }
          continue;
        }
        if forall i | 0 <= i < |slots| :: slots[i].ended {
          return Finished, did;
        }
        ghost var before := slots;
        BudgetPositive(slots);
        var rest, dropped; ghost var raced;
        rest, dropped, raced := Race(world, left);
        AdvancesTrans(world, from, start, did, before, walks, raced, slots, walks);
        NothingTwice(did, raced);
        did := did + raced;
        if dropped {
          BudgetPositive(slots);
          return Dropped, did;
        }
        left := rest;
      }
    }
  }
}
