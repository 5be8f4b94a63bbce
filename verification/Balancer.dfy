/**
 The Kafka publisher's least-loaded balancer. A publish looks at the partitions'
 counters one by one for the fewest bytes, then adds its payload to that counter;
 several publishers interleave these steps. Counters are 64-bit and wrap.
 */
module Balancer {
  import opened Collections
  import opened Wrappers

  /** The leftmost of the smallest counters. */
  ghost predicate IsLeast(bytes: seq<nat>, k: nat) {
    && k < |bytes|
    && (forall j | 0 <= j < |bytes| :: bytes[k] <= bytes[j])
    && forall j | 0 <= j < k :: bytes[k] < bytes[j]
  }

  function Add(bytes: seq<nat>, k: nat, length: nat): seq<nat>
    requires k < |bytes|
  {
    bytes[k := (bytes[k] + length) % U64]
  }

  class PartitionState {
    const partitions: seq<int>
    var bytes: seq<nat>

    ghost predicate Valid()
      reads this
    {
      |bytes| == |partitions| && |bytes| > 0 && forall k | 0 <= k < |bytes| :: bytes[k] < U64
    }

    /** The partitions found in the metadata; a topic without any is refused before this. */
    constructor (ids: seq<int>)
      requires ids != []
      ensures Valid() && partitions == ids && forall k | 0 <= k < |bytes| :: bytes[k] == 0
    {
      partitions := ids;
      bytes := seq(|ids|, _ => 0);
    }

    method LeastLoaded() returns (lowest: nat)
      requires Valid()
      ensures IsLeast(bytes, lowest)
    {
      lowest := 0;
      var lowestBytes := bytes[0];
      var index := 1;
      while index < |bytes|
        invariant 1 <= index <= |bytes| && lowest < index && lowestBytes == bytes[lowest]
        invariant forall j | 0 <= j < index :: bytes[lowest] <= bytes[j]
        invariant forall j | 0 <= j < lowest :: bytes[lowest] < bytes[j]
      {
        var candidate := bytes[index];
        if candidate < lowestBytes {
          lowest := index;
          lowestBytes := candidate;
        }
        index := index + 1;
      }
    }

    /** One publish with no other in between: the partition the record goes to, its bytes counted there. */
    method Publish(length: nat) returns (partition: int, ghost choice: nat)
      requires Valid() && length < U64
      modifies this`bytes
      ensures Valid() && IsLeast(old(bytes), choice) && partition == partitions[choice]
      ensures bytes == Add(old(bytes), choice, length)
      ensures bytes[choice] == (old(bytes)[choice] + length) % 0x1_0000_0000_0000_0000
    {
      var k := LeastLoaded();
      choice := k;
      bytes := bytes[k := (bytes[k] + length) % U64];
      partition := partitions[k];
    }
  }

  // --- Runs of interleaved publishers -------------------------------------------

  /** A publish between its first look at a counter and its own addition: how far the scan is, and its choice so far. */
  datatype Progress = Idle | Scanning(length: nat, index: nat, lowest: nat, lowestBytes: nat)

  datatype State = State(bytes: seq<nat>, work: seq<Progress>)

  /** A publisher starts a publish by looking at the first counter, looks at the next, or adds to the one it chose. */
  datatype Event = Begin(publisher: nat, length: nat) | Look(publisher: nat) | Count(publisher: nat)

  ghost predicate Enabled(s: State, e: Event) {
    && e.publisher < |s.work| && |s.bytes| > 0
    && var p := s.work[e.publisher];
       match e
       case Begin(_, _) => p.Idle?
       case Look(_) => p.Scanning? && p.index < |s.bytes|
       case Count(_) => p.Scanning? && p.index == |s.bytes| && p.lowest < |s.bytes|
  }

  ghost function Next(s: State, e: Event): State
    requires Enabled(s, e)
  {
    var w := e.publisher;
    var p := s.work[w];
    match e
    case Begin(_, length) => s.(work := s.work[w := Scanning(length, 1, 0, s.bytes[0])])
    case Look(_) =>
      var candidate := s.bytes[p.index];
      s.(work := s.work[w := if candidate < p.lowestBytes then Scanning(p.length, p.index + 1, p.index, candidate)
                             else p.(index := p.index + 1)])
    case Count(_) => State(Add(s.bytes, p.lowest, p.length), s.work[w := Idle])
  }

  ghost predicate Run(s: State, events: seq<Event>, to: State)
    decreases |events|
  {
    if events == [] then to == s else Enabled(s, events[0]) && Run(Next(s, events[0]), events[1..], to)
  }

  function Sum(bytes: seq<nat>): nat {
    if bytes == [] then 0 else bytes[0] + Sum(bytes[1..])
  }

  /** The bytes of publishes under way. */
  function InHand(work: seq<Progress>): nat {
    if work == [] then 0
    else (if work[0].Scanning? then work[0].length else 0) + InHand(work[1..])
  }

  function Published(events: seq<Event>): nat {
    if events == [] then 0
    else (if events[0].Begin? then events[0].length else 0) + Published(events[1..])
  }

  ghost predicate PayloadsWithin(events: seq<Event>, largest: nat) {
    forall k | 0 <= k < |events| && events[k].Begin? :: events[k].length <= largest
  }

  lemma {:induction false} SumUpdate(bytes: seq<nat>, k: nat, b: nat)
    requires k < |bytes|
    ensures Sum(bytes[k := b]) == Sum(bytes) - bytes[k] + b && bytes[k] <= Sum(bytes)
  {
    if k == 0 {
      assert bytes[0 := b][1..] == bytes[1..];
    } else {
      assert bytes[k := b][1..] == bytes[1..][k - 1 := b];
      SumUpdate(bytes[1..], k - 1, b);
    }
  }

  function Held(p: Progress): nat {
    if p.Scanning? then p.length else 0
  }

  lemma {:induction false} InHandUpdate(work: seq<Progress>, w: nat, p: Progress)
    requires w < |work|
    ensures InHand(work[w := p]) == InHand(work) - Held(work[w]) + Held(p) && Held(work[w]) <= InHand(work)
  {
    if w == 0 {
      assert work[0 := p][1..] == work[1..];
    } else {
      assert work[w := p][1..] == work[1..][w - 1 := p];
      InHandUpdate(work[1..], w - 1, p);
    }
  }

  /** No step loses or invents bytes, as long as no counter wraps. */
  lemma BytesAreKept(s: State, e: Event)
    requires Enabled(s, e) && Sum(s.bytes) + InHand(s.work) < U64
    ensures Sum(Next(s, e).bytes) + InHand(Next(s, e).work)
         == Sum(s.bytes) + InHand(s.work) + if e.Begin? then e.length else 0
    ensures e.Count? ==> var p := s.work[e.publisher];
              Next(s, e).bytes == s.bytes[p.lowest := s.bytes[p.lowest] + p.length]
  {
    hide Sum, InHand;
    InHandUpdate(s.work, e.publisher, Next(s, e).work[e.publisher]);
    if e.Count? {
      var p := s.work[e.publisher];
      SumUpdate(s.bytes, p.lowest, s.bytes[p.lowest] + p.length);
    }
  }

  // --- What the counters remember -------------------------------------------------

  /**
   When things happened, for the proof only: each publisher's last addition to each
   partition, its present scan's start and its look at the present choice; and for each
   partition the latest look behind an addition to it, with the bytes it saw.
   */
  datatype History = History(now: nat, added: seq<seq<nat>>, startAt: seq<nat>, lookedAt: seq<nat>,
                             anchorAt: seq<nat>, anchor: seq<nat>)

  ghost predicate Shaped(s: State, h: History) {
    && |h.added| == |h.startAt| == |h.lookedAt| == |s.work| && |h.anchorAt| == |h.anchor| == |s.bytes|
    && (forall w | 0 <= w < |h.added| :: |h.added[w]| == |s.bytes|)
    && forall w | 0 <= w < |s.work| && s.work[w].Scanning? ::
         s.work[w].lowest < s.work[w].index <= |s.bytes|
  }

  function Noted(added: seq<seq<nat>>, w: nat, p: nat, now: nat): (more: seq<seq<nat>>)
    requires w < |added| && p < |added[w]|
    ensures |more| == |added| && |more[w]| == |added[w]|
  {
    var row: seq<nat> := added[w][p := now];
    added[w := row]
  }

  ghost function NextHistory(s: State, h: History, e: Event): History
    requires Shaped(s, h) && Enabled(s, e)
  {
    var w, t := e.publisher, h.(now := h.now + 1);
    match e
    case Begin(_, _) => t.(startAt := h.startAt[w := h.now], lookedAt := h.lookedAt[w := h.now])
    case Look(_) =>
      if s.bytes[s.work[w].index] < s.work[w].lowestBytes then t.(lookedAt := h.lookedAt[w := h.now]) else t
    case Count(_) =>
      var p, u := s.work[w], t.(added := Noted(h.added, w, s.work[w].lowest, h.now));
      if h.lookedAt[w] > h.anchorAt[p.lowest]
      then u.(anchorAt := h.anchorAt[p.lowest := h.lookedAt[w]], anchor := h.anchor[p.lowest := p.lowestBytes])
      else u
  }

  /** How many publishers added to the partition after that time. */
  function Since(added: seq<seq<nat>>, p: nat, time: nat): (n: nat)
    requires forall w | 0 <= w < |added| :: p < |added[w]|
    ensures n <= |added|
  {
    if added == [] then 0 else (if added[0][p] > time then 1 else 0) + Since(added[1..], p, time)
  }

  lemma {:induction false} SinceUpdate(added: seq<seq<nat>>, w: nat, row: seq<nat>, p: nat, time: nat)
    requires w < |added| && p < |row| && forall k | 0 <= k < |added| :: p < |added[k]|
    ensures Since(added[w := row], p, time)
         == Since(added, p, time) - (if added[w][p] > time then 1 else 0) + (if row[p] > time then 1 else 0)
  {
    if w == 0 {
      assert added[0 := row][1..] == added[1..];
    } else {
      assert added[w := row][1..] == added[1..][w - 1 := row];
      SinceUpdate(added[1..], w - 1, row, p, time);
    }
  }

  /** The partition grew by at most one largest payload per publisher since it held that many bytes. */
  ghost predicate GrewLittle(bytes: seq<nat>, added: seq<seq<nat>>, p: nat, time: nat, held: nat, largest: nat)
    requires p < |bytes| && forall w | 0 <= w < |added| :: p < |added[w]|
  {
    bytes[p] <= held + Since(added, p, time) * largest
  }

  /** Everything noted lies in the past, and a publisher's additions before its present scan. */
  ghost predicate Ordered(s: State, h: History)
    requires Shaped(s, h)
  {
    && (forall w, p | 0 <= w < |h.added| && 0 <= p < |s.bytes| :: h.added[w][p] < h.now)
    && (forall w | 0 <= w < |s.work| :: h.startAt[w] <= h.lookedAt[w] < h.now)
    && (forall w, p | 0 <= w < |s.work| && s.work[w].Scanning? && 0 <= p < |s.bytes| :: h.added[w][p] <= h.startAt[w])
    && forall p | 0 <= p < |s.bytes| :: h.anchorAt[p] < h.now
  }

  /** No counter is below what an addition's scan saw, and each is little above it. */
  ghost predicate Anchored(s: State, h: History, largest: nat)
    requires Shaped(s, h)
  {
    && (forall p, q | 0 <= p < |s.bytes| && 0 <= q < |s.bytes| :: h.anchor[p] <= s.bytes[q])
    && forall p: nat | p < |s.bytes| :: GrewLittle(s.bytes, h.added, p, h.anchorAt[p], h.anchor[p], largest)
  }

  ghost predicate ScanSound(s: State, h: History, w: nat, largest: nat)
    requires Shaped(s, h) && w < |s.work|
  {
    var p := s.work[w];
    p.Scanning? ==>
      && p.length <= largest
      && (forall q | 0 <= q < p.index :: p.lowestBytes <= s.bytes[q])
      && (h.lookedAt[w] > h.anchorAt[p.lowest] ==>
            GrewLittle(s.bytes, h.added, p.lowest, h.lookedAt[w], p.lowestBytes, largest))
  }

  ghost predicate Fair(s: State, h: History, largest: nat) {
    && Shaped(s, h) && Ordered(s, h) && Anchored(s, h, largest)
    && forall w: nat | w < |s.work| :: ScanSound(s, h, w, largest)
  }

  lemma LookKeepsOrder(s: State, h: History, e: Event, largest: nat)
    requires Fair(s, h, largest) && Enabled(s, e) && !e.Count?
    ensures Shaped(Next(s, e), NextHistory(s, h, e)) && Ordered(Next(s, e), NextHistory(s, h, e))
    ensures Anchored(Next(s, e), NextHistory(s, h, e), largest)
  {
    hide GrewLittle, ScanSound;
    var h' := NextHistory(s, h, e);
    assert h'.added == h.added && h'.anchorAt == h.anchorAt && h'.anchor == h.anchor && Next(s, e).bytes == s.bytes;
  }

  lemma NoGrowth(bytes: seq<nat>, added: seq<seq<nat>>, p: nat, time: nat, largest: nat)
    requires p < |bytes| && forall w | 0 <= w < |added| :: p < |added[w]|
    ensures GrewLittle(bytes, added, p, time, bytes[p], largest)
  {
    AtMost(0, Since(added, p, time), largest);
  }

  lemma LookKeepsScan(s: State, h: History, e: Event, largest: nat, w: nat)
    requires Fair(s, h, largest) && Enabled(s, e) && !e.Count? && (e.Begin? ==> e.length <= largest) && w < |s.work|
    requires Shaped(Next(s, e), NextHistory(s, h, e))
    ensures ScanSound(Next(s, e), NextHistory(s, h, e), w, largest)
  {
    hide GrewLittle, Anchored, Ordered, Since;
    assert ScanSound(s, h, w, largest);
    if e.publisher == w && Next(s, e).work[w].Scanning? {
      NoGrowth(s.bytes, h.added, Next(s, e).work[w].lowest, h.now, largest);
    }
  }

  lemma LookKeepsFair(s: State, h: History, e: Event, largest: nat)
    requires Fair(s, h, largest) && Enabled(s, e) && !e.Count? && (e.Begin? ==> e.length <= largest)
    ensures Fair(Next(s, e), NextHistory(s, h, e), largest)
  {
    hide Ordered, Anchored, ScanSound;
    LookKeepsOrder(s, h, e, largest);
    forall w: nat | w < |s.work| ensures ScanSound(Next(s, e), NextHistory(s, h, e), w, largest) {
      LookKeepsScan(s, h, e, largest, w);
    }
  }

  lemma OneMore(n: nat, largest: nat)
    ensures (n + 1) * largest == n * largest + largest
  {
  }

  /** An addition of one more payload by a publisher that had not added since. */
  lemma GrowsByOne(bytes: seq<nat>, added: seq<seq<nat>>, p: nat, time: nat, held: nat, largest: nat,
                   w: nat, now: nat, length: nat)
    requires p < |bytes| && w < |added| && forall k | 0 <= k < |added| :: p < |added[k]|
    requires GrewLittle(bytes, added, p, time, held, largest) && added[w][p] <= time < now && length <= largest
    ensures GrewLittle(bytes[p := bytes[p] + length], Noted(added, w, p, now), p, time, held, largest)
  {
    SinceUpdate(added, w, Noted(added, w, p, now)[w], p, time);
    OneMore(Since(added, p, time), largest);
  }

  /** Elsewhere an addition changes nothing. */
  lemma GrowsElsewhere(bytes: seq<nat>, added: seq<seq<nat>>, p: nat, q: nat, time: nat, held: nat, largest: nat,
                       w: nat, now: nat, b: nat)
    requires p < |bytes| && q < |bytes| && p != q && w < |added|
    requires forall k | 0 <= k < |added| :: p < |added[k]| && q < |added[k]|
    requires GrewLittle(bytes, added, q, time, held, largest)
    ensures GrewLittle(bytes[p := b], Noted(added, w, p, now), q, time, held, largest)
  {
    SinceUpdate(added, w, Noted(added, w, p, now)[w], q, time);
  }

  lemma CountAnchors(s: State, h: History, e: Event, largest: nat)
    requires Fair(s, h, largest) && Enabled(s, e) && e.Count?
    requires Sum(s.bytes) + InHand(s.work) < U64
    ensures Shaped(Next(s, e), NextHistory(s, h, e)) && Anchored(Next(s, e), NextHistory(s, h, e), largest)
  {
    hide Since, Sum, InHand, Add, GrewLittle;
    BytesAreKept(s, e);
    var w := e.publisher;
    var p, s', h' := s.work[w], Next(s, e), NextHistory(s, h, e);
    assert ScanSound(s, h, w, largest);
    forall q: nat | q < |s.bytes| ensures GrewLittle(s'.bytes, h'.added, q, h'.anchorAt[q], h'.anchor[q], largest) {
      assert GrewLittle(s.bytes, h.added, q, h.anchorAt[q], h.anchor[q], largest);
      if q == p.lowest {
        GrowsByOne(s.bytes, h.added, q, h'.anchorAt[q], h'.anchor[q], largest, w, h.now, p.length);
      } else {
        GrowsElsewhere(s.bytes, h.added, p.lowest, q, h.anchorAt[q], h.anchor[q], largest, w, h.now,
                       s.bytes[p.lowest] + p.length);
      }
    }
  }

  lemma CountKeepsScan(s: State, h: History, e: Event, largest: nat, v: nat)
    requires Fair(s, h, largest) && Enabled(s, e) && e.Count? && v < |s.work|
    requires Sum(s.bytes) + InHand(s.work) < U64
    requires Shaped(Next(s, e), NextHistory(s, h, e))
    ensures ScanSound(Next(s, e), NextHistory(s, h, e), v, largest)
  {
    hide Since, Sum, InHand, Add, GrewLittle;
    BytesAreKept(s, e);
    var w := e.publisher;
    var p, s', h' := s.work[w], Next(s, e), NextHistory(s, h, e);
    assert ScanSound(s, h, v, largest) && ScanSound(s, h, w, largest);
    if s'.work[v].Scanning? && h'.lookedAt[v] > h'.anchorAt[s'.work[v].lowest] {
      var o := s.work[v];
      if o.lowest == p.lowest {
        GrowsByOne(s.bytes, h.added, o.lowest, h.lookedAt[v], o.lowestBytes, largest, w, h.now, p.length);
      } else {
        GrowsElsewhere(s.bytes, h.added, p.lowest, o.lowest, h.lookedAt[v], o.lowestBytes, largest, w, h.now,
                       s.bytes[p.lowest] + p.length);
      }
    }
  }

  lemma CountKeepsFair(s: State, h: History, e: Event, largest: nat)
    requires Fair(s, h, largest) && Enabled(s, e) && e.Count?
    requires Sum(s.bytes) + InHand(s.work) < U64
    ensures Fair(Next(s, e), NextHistory(s, h, e), largest)
  {
    CountAnchors(s, h, e, largest);
    forall v: nat | v < |s.work| ensures ScanSound(Next(s, e), NextHistory(s, h, e), v, largest) {
      CountKeepsScan(s, h, e, largest, v);
    }
    hide Anchored, ScanSound, Add;
  }

  /** However the publishers' looks and additions interleave, the counters stay fair and no byte is lost. */
  lemma {:induction false} RunsAreFair(s: State, h: History, events: seq<Event>, to: State, largest: nat)
      returns (after: History)
    requires Fair(s, h, largest) && Run(s, events, to) && PayloadsWithin(events, largest)
    requires Sum(s.bytes) + InHand(s.work) + Published(events) < U64
    ensures Fair(to, after, largest) && |to.work| == |s.work| && |to.bytes| == |s.bytes|
    ensures Sum(to.bytes) + InHand(to.work) == Sum(s.bytes) + InHand(s.work) + Published(events)
    decreases |events|
  {
    hide Fair, InHand, Sum;
    after := h;
    if events != [] {
      var e, rest := events[0], events[1..];
      assert forall k | 0 <= k < |rest| :: rest[k] == events[k + 1];
      BytesAreKept(s, e);
      FairIsShaped(s, h, largest);
      if e.Count? {
        CountKeepsFair(s, h, e, largest);
      } else {
        LookKeepsFair(s, h, e, largest);
      }
      after := RunsAreFair(Next(s, e), NextHistory(s, h, e), rest, to, largest);
    }
  }

  lemma FairIsShaped(s: State, h: History, largest: nat)
    requires Fair(s, h, largest)
    ensures Shaped(s, h)
  {
  }

  lemma {:induction false} NothingInHand(work: seq<Progress>)
    requires forall w | 0 <= w < |work| :: work[w].Idle?
    ensures InHand(work) == 0
  {
    if work != [] {
      NothingInHand(work[1..]);
    }
  }

  lemma {:induction false} ZeroSum(bytes: seq<nat>)
    requires forall k | 0 <= k < |bytes| :: bytes[k] == 0
    ensures Sum(bytes) == 0
  {
    if bytes != [] {
      ZeroSum(bytes[1..]);
    }
  }

  lemma FreshIsFair(s: State, largest: nat) returns (h: History)
    requires forall k | 0 <= k < |s.bytes| :: s.bytes[k] == 0
    requires forall w | 0 <= w < |s.work| :: s.work[w].Idle?
    ensures Fair(s, h, largest)
  {
    var zeros, idle := seq(|s.bytes|, _ => 0), seq(|s.work|, _ => 0);
    h := History(1, seq(|s.work|, _ => zeros), idle, idle, zeros, zeros);
  }

  lemma SpreadOf(s: State, h: History, largest: nat, p: nat, q: nat)
    requires Fair(s, h, largest) && p < |s.bytes| && q < |s.bytes|
    ensures s.bytes[p] <= s.bytes[q] + |s.work| * largest
  {
    var n := Since(h.added, p, h.anchorAt[p]);
    assert GrewLittle(s.bytes, h.added, p, h.anchorAt[p], h.anchor[p], largest);
    AtMost(n, |s.work|, largest);
  }

  lemma AtMost(n: nat, publishers: nat, largest: nat)
    requires n <= publishers
    ensures n * largest <= publishers * largest
  {
  }

  /**
   From empty counters, with so many publishers whose looks and additions interleave in
   any way: no two partitions are further apart than one largest payload per publisher,
   and counted bytes and bytes in hand add up to all that was published.
   */
  lemma SpreadIsBounded(start: State, events: seq<Event>, to: State, largest: nat)
    requires forall k | 0 <= k < |start.bytes| :: start.bytes[k] == 0
    requires forall w | 0 <= w < |start.work| :: start.work[w].Idle?
    requires Run(start, events, to) && PayloadsWithin(events, largest) && Published(events) < 0x1_0000_0000_0000_0000
    ensures Sum(to.bytes) + InHand(to.work) == Published(events)
    ensures forall p: nat, q: nat | p < |to.bytes| && q < |to.bytes| ::
              to.bytes[p] <= to.bytes[q] + |start.work| * largest
  {
    hide Run, Fair, Sum, InHand;
    ZeroSum(start.bytes);
    NothingInHand(start.work);
    var h := FreshIsFair(start, largest);
    var after := RunsAreFair(start, h, events, to, largest);
    forall p: nat, q: nat | p < |to.bytes| && q < |to.bytes|
      ensures to.bytes[p] <= to.bytes[q] + |start.work| * largest
    {
      SpreadOf(to, after, largest, p, q);
    }
  }

  lemma {:induction false} RunAppend(s: State, events: seq<Event>, mid: State, e: Event)
    requires Run(s, events, mid) && Enabled(mid, e)
    ensures Run(s, events + [e], Next(mid, e))
    decreases |events|
  {
    if events == [] {
      assert ([] + [e])[1..] == [];
    } else {
      assert (events + [e])[1..] == events[1..] + [e];
      RunAppend(Next(s, events[0]), events[1..], mid, e);
    }
  }

  function Looks(n: nat): seq<Event> {
    if n == 0 then [] else Looks(n - 1) + [Look(0)]
  }

  /** A scan nothing interrupts has, after so many looks, the leftmost minimum of what it saw. */
  lemma {:induction false} ScanChooses(bytes: seq<nat>, length: nat, k: nat) returns (low: nat)
    requires 1 <= k <= |bytes|
    ensures IsLeast(bytes[..k], low)
    ensures Run(State(bytes, [Idle]), [Begin(0, length)] + Looks(k - 1),
                State(bytes, [Scanning(length, k, low, bytes[low])]))
  {
    var start := State(bytes, [Idle]);
    if k == 1 {
      low := 0;
      assert [Begin(0, length)] + Looks(0) == [Begin(0, length)] && [Begin(0, length)][1..] == [];
      assert Next(start, Begin(0, length)) == State(bytes, [Scanning(length, 1, 0, bytes[0])]);
    } else {
      var before := ScanChooses(bytes, length, k - 1);
      var mid := State(bytes, [Scanning(length, k - 1, before, bytes[before])]);
      low := if bytes[k - 1] < bytes[before] then k - 1 else before;
      assert Next(mid, Look(0)) == State(bytes, [Scanning(length, k, low, bytes[low])]);
      RunAppend(start, [Begin(0, length)] + Looks(k - 2), mid, Look(0));
      assert [Begin(0, length)] + Looks(k - 2) + [Look(0)] == [Begin(0, length)] + Looks(k - 1);
      assert forall j | 0 <= j < k - 1 :: bytes[..k - 1][j] == bytes[..k][j];
    }
  }

  /** One publish of the class is an uninterrupted scan and its addition. */
  lemma PublishIsScan(bytes: seq<nat>, choice: nat, length: nat)
    requires IsLeast(bytes, choice)
    ensures Run(State(bytes, [Idle]), [Begin(0, length)] + Looks(|bytes| - 1) + [Count(0)],
                State(Add(bytes, choice, length), [Idle]))
  {
    var low := ScanChooses(bytes, length, |bytes|);
    assert bytes[..|bytes|] == bytes;
    var mid := State(bytes, [Scanning(length, |bytes|, low, bytes[low])]);
    RunAppend(State(bytes, [Idle]), [Begin(0, length)] + Looks(|bytes| - 1), mid, Count(0));
    assert Next(mid, Count(0)) == State(Add(bytes, choice, length), [Idle]);
  }

  // --- The bound is met -----------------------------------------------------------

  /** The first i publishers are this far, the others that far. */
  function Split(n: nat, i: nat, done: Progress, todo: Progress): (work: seq<Progress>)
    ensures |work| == n
  {
    seq(n, w => if w < i then done else todo)
  }

  /** All publishers but the first i have scanned the first k counters and found them empty. */
  function Round(partitions: nat, n: nat, length: nat, k: nat, i: nat): State {
    var done := Scanning(length, k + 1, 0, 0);
    State(seq(partitions, _ => 0), Split(n, i, done, if k == 0 then Idle else Scanning(length, k, 0, 0)))
  }

  /** The first i publishers have added their payloads to the first partition. */
  function Counted(partitions: nat, n: nat, length: nat, i: nat): State
    requires partitions > 0
  {
    State(seq(partitions, _ => 0)[0 := i * length], Split(n, i, Idle, Scanning(length, partitions, 0, 0)))
  }

  function StepOf(k: nat, w: nat, length: nat): Event {
    if k == 0 then Begin(w, length) else Look(w)
  }

  lemma RoundStep(partitions: nat, n: nat, length: nat, k: nat, i: nat)
    requires k < partitions && i < n
    ensures Enabled(Round(partitions, n, length, k, i), StepOf(k, i, length))
    ensures Next(Round(partitions, n, length, k, i), StepOf(k, i, length)) == Round(partitions, n, length, k, i + 1)
  {
    var done := Scanning(length, k + 1, 0, 0);
    var todo := if k == 0 then Idle else Scanning(length, k, 0, 0);
    assert Split(n, i, done, todo)[i := done] == Split(n, i + 1, done, todo);
  }

  /** One look by every publisher after the other. */
  lemma {:induction false} RoundRuns(start: State, partitions: nat, n: nat, length: nat, k: nat, i: nat,
                                     before: seq<Event>)
      returns (events: seq<Event>)
    requires k < partitions && i <= n && Run(start, before, Round(partitions, n, length, k, 0))
    ensures Run(start, before + events, Round(partitions, n, length, k, i))
    ensures forall e | e in events && e.Begin? :: e.length == length
  {
    hide Next, Enabled, Run, Round;
    if i == 0 {
      events := [];
      assert before + [] == before;
    } else {
      var most := RoundRuns(start, partitions, n, length, k, i - 1, before);
      RoundStep(partitions, n, length, k, i - 1);
      RunAppend(start, before + most, Round(partitions, n, length, k, i - 1), StepOf(k, i - 1, length));
      events := most + [StepOf(k, i - 1, length)];
      assert before + most + [StepOf(k, i - 1, length)] == before + events;
    }
  }

  lemma RoundsMeet(partitions: nat, n: nat, length: nat, k: nat)
    ensures Round(partitions, n, length, k, n) == Round(partitions, n, length, k + 1, 0)
  {
    assert Round(partitions, n, length, k, n).work == Round(partitions, n, length, k + 1, 0).work;
  }

  /** Every publisher scans all counters before any adds. */
  lemma {:induction false} AllScan(start: State, partitions: nat, n: nat, length: nat, k: nat)
      returns (events: seq<Event>)
    requires k <= partitions && start == Round(partitions, n, length, 0, 0)
    ensures Run(start, events, Round(partitions, n, length, k, 0))
    ensures forall e | e in events && e.Begin? :: e.length == length
  {
    hide Next, Round, Run;
    if k == 0 {
      NoSteps(start);
      events := [];
    } else {
      var before := AllScan(start, partitions, n, length, k - 1);
      var round := RoundRuns(start, partitions, n, length, k - 1, n, before);
      RoundsMeet(partitions, n, length, k - 1);
      events := before + round;
    }
  }

  lemma CountStep(partitions: nat, n: nat, length: nat, i: nat)
    requires partitions > 0 && i < n && (i + 1) * length < U64
    ensures Enabled(Counted(partitions, n, length, i), Count(i))
    ensures Next(Counted(partitions, n, length, i), Count(i)) == Counted(partitions, n, length, i + 1)
  {
    var todo := Scanning(length, partitions, 0, 0);
    assert Split(n, i, Idle, todo)[i := Idle] == Split(n, i + 1, Idle, todo);
    assert i * length + length == (i + 1) * length;
  }

  lemma {:induction false} AllCount(start: State, partitions: nat, n: nat, length: nat, i: nat, before: seq<Event>)
      returns (events: seq<Event>)
    requires partitions > 0 && i <= n && n * length < U64 && Run(start, before, Counted(partitions, n, length, 0))
    ensures Run(start, before + events, Counted(partitions, n, length, i))
    ensures forall e | e in events && e.Begin? :: e.length == length
  {
    hide Next, Enabled, Run, Counted;
    if i == 0 {
      events := [];
      assert before + [] == before;
    } else {
      var most := AllCount(start, partitions, n, length, i - 1, before);
      AtMost(i, n, length);
      CountStep(partitions, n, length, i - 1);
      RunAppend(start, before + most, Counted(partitions, n, length, i - 1), Count(i - 1));
      events := most + [Count(i - 1)];
      assert before + most + [Count(i - 1)] == before + events;
    }
  }

  /**
   The spread bound is met, for any number of publishers and of partitions above one: if all
   publishers scan before any adds, all choose the first partition and the second stays empty.
   */
  lemma BoundIsMet(partitions: nat, publishers: nat, largest: nat) returns (events: seq<Event>, to: State)
    requires partitions > 1 && publishers * largest < 0x1_0000_0000_0000_0000
    ensures Run(State(seq(partitions, _ => 0), seq(publishers, _ => Idle)), events, to)
    ensures PayloadsWithin(events, largest)
    ensures |to.bytes| == partitions && to.bytes[0] == to.bytes[1] + publishers * largest
  {
    hide Next, Run;
    var start := Round(partitions, publishers, largest, 0, 0);
    assert start.work == seq(publishers, _ => Idle);
    var scans := AllScan(start, partitions, publishers, largest, partitions);
    assert Round(partitions, publishers, largest, partitions, 0) == Counted(partitions, publishers, largest, 0);
    var counts := AllCount(start, partitions, publishers, largest, publishers, scans);
    events, to := scans + counts, Counted(partitions, publishers, largest, publishers);
    forall k | 0 <= k < |events| && events[k].Begin? ensures events[k].length <= largest {
      assert events[k] in scans || events[k] in counts;
    }
  }

  lemma NoSteps(s: State)
    ensures Run(s, [], s)
  {
  }
}
