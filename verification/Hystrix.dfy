/**
 The Hystrix-style breaker: a bucket ring feeding an error-rate trip, a sleep window,
 and a single half-open trial. State observation moves the machine too.
 */
module Hystrix {
  import opened RingRuns
  import opened RingWindow

  datatype Phase = Closed | Open | HalfOpen

  datatype Options = Options(shape: Shape, errorThreshold: real, requestVolume: nat, sleepWindow: nat)

  datatype State = State(ring: Ring, phase: Phase, openedAt: nat, halfOpenIn: bool, closed: bool)

  predicate Sound(o: Options, s: State) {
    Fits(o.shape, s.ring)
  }

  /** A mark reads the clock for the rotation, for the bucket, and once more if it trips. */
  datatype Event =
    | Allow(now: nat)
    | MarkResult(rotatedAt: nat, markedAt: nat, trippedAt: nat, failed: bool)
    | Query(now: nat)
    | Close

  function Start(o: Options): State {
    State(Ring(seq(o.shape.n, _ => EMPTY), o.shape.start), Closed, o.shape.start, false, false)
  }

  predicate SleptFor(o: Options, s: State, now: nat) {
    Since(now, s.openedAt) >= o.sleepWindow
  }

  /** The window's totals reach the volume and the error rate that trip the breaker. */
  predicate Trips(o: Options, totals: Bucket) {
    totals.requests >= o.requestVolume && totals.requests > 0
    && totals.errors as real / totals.requests as real >= o.errorThreshold
  }

  function Evaluated(o: Options, s: State, now: nat): State {
    if s.phase == Closed && Trips(o, Sum(s.ring.buckets)) then s.(phase := Open, openedAt := now) else s
  }

  predicate Admits(o: Options, s: State, now: nat) {
    && !s.closed
    && match s.phase
       case Closed => true
       case Open => SleptFor(o, s, now)
       case HalfOpen => !s.halfOpenIn
  }

  function Next(o: Options, s: State, e: Event): (s': State)
    requires Sound(o, s)
    ensures Sound(o, s')
  {
    match e
    case Allow(now) =>
      if s.closed then s
      else
        var r := s.(ring := Rotated(o.shape, s.ring, now));
        if Admits(o, s, now) && s.phase != Closed then r.(phase := HalfOpen, halfOpenIn := true) else r
    case MarkResult(rotatedAt, markedAt, trippedAt, failed) =>
      var ring := Rotated(o.shape, s.ring, rotatedAt);
      if s.phase == HalfOpen then
        if failed then s.(ring := ring, phase := Open, openedAt := markedAt, halfOpenIn := false)
        else s.(ring := Reset(o.shape, ring), phase := Closed, halfOpenIn := false)
      else Evaluated(o, s.(ring := Marked(o.shape, ring, markedAt, failed)), trippedAt)
    case Query(now) => if s.phase == Open && SleptFor(o, s, now) then s.(phase := HalfOpen) else s
    case Close => s.(closed := true)
  }

  // --- The breaker in place -----------------------------------------------------------

  class HystrixBreaker {
    const options: Options
    const ring: RingBuffer
    var phase: Phase
    var openedAt: nat
    var halfOpenIn: bool
    var closed: bool

    ghost predicate Valid()
      reads this, ring
    {
      ring.Valid() && ring.shape == options.shape
    }

    ghost function View(): (s: State)
      requires Valid()
      reads this, ring, ring.slots
      ensures Sound(options, s)
    {
      State(ring.View(), phase, openedAt, halfOpenIn, closed)
    }

    constructor (options: Options)
      requires Usable(options.shape)
      ensures Valid() && this.options == options && fresh(ring) && fresh(ring.slots)
      ensures View() == Start(options)
    {
      this.options := options;
      ring := new RingBuffer(options.shape);
      phase, openedAt, halfOpenIn, closed := Closed, options.shape.start, false, false;
    }

    method Allow(now: nat) returns (admitted: bool)
      requires Valid()
      modifies this, ring, ring.slots
      ensures Valid() && View() == Next(options, old(View()), Event.Allow(now))
      ensures admitted == Admits(options, old(View()), now)
    {
      if closed {
        return false;
      }
      ring.Rotate(now);
      match phase {
        case Open =>
          if Since(now, openedAt) < options.sleepWindow {
            return false;
          }
          phase := HalfOpen;
          halfOpenIn := true;
        case HalfOpen =>
          if halfOpenIn {
            return false;
          }
          halfOpenIn := true;
        case Closed =>
      }
      return true;
    }

    method MarkSuccess(rotatedAt: nat, markedAt: nat, trippedAt: nat)
      requires Valid()
      modifies this, ring, ring.slots
      ensures Valid() && View() == Next(options, old(View()), MarkResult(rotatedAt, markedAt, trippedAt, false))
    {
      ring.Rotate(rotatedAt);
      if phase == HalfOpen {
        phase := Closed;
        halfOpenIn := false;
        ring.Fill();
        return;
      }
      ring.Mark(markedAt, false);
      Evaluate(trippedAt);
    }

    method MarkFailure(rotatedAt: nat, markedAt: nat, trippedAt: nat)
      requires Valid()
      modifies this, ring, ring.slots
      ensures Valid() && View() == Next(options, old(View()), MarkResult(rotatedAt, markedAt, trippedAt, true))
    {
      ring.Rotate(rotatedAt);
      if phase == HalfOpen {
        phase := Open;
        openedAt := markedAt;
        halfOpenIn := false;
        return;
      }
      ring.Mark(markedAt, true);
      Evaluate(trippedAt);
    }

    method Evaluate(now: nat)
      requires Valid()
      modifies this
      ensures Valid() && View() == Evaluated(options, old(View()), now)
    {
      if phase != Closed {
        return;
      }
      var totals := ring.Totals();
      if totals.requests < options.requestVolume || totals.requests == 0 {
        return;
      }
      if totals.errors as real / totals.requests as real >= options.errorThreshold {
        phase := Open;
        openedAt := now;
      }
    }

    method CurrentState(now: nat) returns (observed: Phase)
      requires Valid()
      modifies this
      ensures Valid() && View() == Next(options, old(View()), Query(now)) && observed == phase
    {
      if phase == Open && Since(now, openedAt) >= options.sleepWindow {
        phase := HalfOpen;
      }
      return phase;
    }

    method CloseBreaker()
      requires Valid()
      modifies this
      ensures Valid() && View() == Next(options, old(View()), Close)
    {
      closed := true;
    }
  }

  // --- Runs ---------------------------------------------------------------------------

  function Run(o: Options, s: State, events: seq<Event>): (s': State)
    requires Sound(o, s)
    ensures Sound(o, s')
  {
    if events == [] then s else Next(o, Run(o, s, events[..|events| - 1]), events[|events| - 1])
  }

  ghost predicate TrialOnlyInHalfOpen(s: State) {
    s.halfOpenIn ==> s.phase == HalfOpen
  }

  lemma {:induction false} RunTrialOnlyInHalfOpen(o: Options, events: seq<Event>)
    requires Usable(o.shape)
    ensures TrialOnlyInHalfOpen(Run(o, Start(o), events))
  {
    if events != [] {
      RunTrialOnlyInHalfOpen(o, events[..|events| - 1]);
    }
  }

  /** An observation, if it is one, less than the sleep window after the opening. */
  predicate Before(e: Event, openedAt: nat, sleepWindow: nat) {
    match e
    case Allow(now) => sleepWindow > 0 && now < openedAt + sleepWindow
    case Query(now) => sleepWindow > 0 && now < openedAt + sleepWindow
    case _ => true
  }

  lemma StaysOpen(o: Options, s: State, e: Event)
    requires Sound(o, s) && s.phase == Open && Before(e, s.openedAt, o.sleepWindow)
    ensures var s' := Next(o, s, e); s'.phase == Open && s'.openedAt == s.openedAt
    ensures e.Allow? ==> !Admits(o, s, e.now)
  {
    hide Rotated, Marked, Reset, Sum;
  }

  /** Within the sleep window a tripped breaker stays open and admits nothing, whatever interleaves. */
  lemma {:induction false} SleepingRejects(o: Options, s: State, events: seq<Event>)
    requires Sound(o, s) && s.phase == Open
    requires forall i | 0 <= i < |events| :: Before(events[i], s.openedAt, o.sleepWindow)
    ensures var s' := Run(o, s, events); s'.phase == Open && s'.openedAt == s.openedAt
    ensures forall i | 0 <= i < |events| && events[i].Allow? :: !Admits(o, Run(o, s, events[..i]), events[i].now)
  {
    hide Next, Before, Admits;
    if events != [] {
      var n := |events| - 1;
      SleepingRejects(o, s, events[..n]);
      StaysOpen(o, Run(o, s, events[..n]), events[n]);
      forall i | 0 <= i < |events| && events[i].Allow?
        ensures !Admits(o, Run(o, s, events[..i]), events[i].now)
      {
        assert i < n ==> events[..n][..i] == events[..i];
      }
    }
  }

  /** The instant a mark opens the breaker at: the mark's own in half-open, else the one read on tripping. */
  function OpenedBy(s: State, e: Event): nat
    requires e.MarkResult?
  {
    if s.phase == HalfOpen then e.markedAt else e.trippedAt
  }

  /** A breaker opens only by a mark, and for the sleep window from then on nothing is admitted. */
  lemma TripStartsSleep(o: Options, s: State, e: Event, events: seq<Event>)
    requires Sound(o, s) && s.phase != Open && Next(o, s, e).phase == Open
    requires e.MarkResult? ==> forall i | 0 <= i < |events| :: Before(events[i], OpenedBy(s, e), o.sleepWindow)
    ensures e.MarkResult? && Next(o, s, e).openedAt == OpenedBy(s, e)
    ensures Run(o, Next(o, s, e), events).phase == Open
    ensures forall i | 0 <= i < |events| && events[i].Allow? ::
              !Admits(o, Run(o, Next(o, s, e), events[..i]), events[i].now)
  {
    hide Run, Rotated, Marked, Reset, Sum, Trips, Before;
    assert e.MarkResult? && Next(o, s, e).openedAt == OpenedBy(s, e);
    SleepingRejects(o, Next(o, s, e), events);
  }

  /** The trial decides: its failure opens the breaker anew at the mark, its success closes it on an empty window. */
  lemma TrialDecides(o: Options, s: State, e: Event)
    requires Sound(o, s) && s.phase == HalfOpen && e.MarkResult?
    ensures var t := Next(o, s, e);
            && !t.halfOpenIn
            && (e.failed ==> t.phase == Open && t.openedAt == e.markedAt)
            && (!e.failed ==> t.phase == Closed && Sum(t.ring.buckets) == EMPTY)
  {
    hide Rotated, Sum;
    SumOfEmpty(o.shape.n);
  }

  /** Whoever reads the state of an open breaker sees it half-open exactly from the sleep window's end on. */
  lemma ReadingShowsSleep(o: Options, s: State, now: nat)
    requires Sound(o, s) && s.phase == Open
    ensures Next(o, s, Query(now)).phase == HalfOpen <==> o.sleepWindow == 0 || now >= s.openedAt + o.sleepWindow
    ensures Next(o, s, Query(now)).phase == Open <==> o.sleepWindow > 0 && now < s.openedAt + o.sleepWindow
  {
  }

  function Admitted(o: Options, s: State, events: seq<Event>): nat
    requires Sound(o, s)
  {
    if events == [] then 0
    else
      var n := |events| - 1;
      Admitted(o, s, events[..n])
      + if events[n].Allow? && Admits(o, Run(o, s, events[..n]), events[n].now) then 1 else 0
  }

  /** From the trip on, at most one request is let through before its outcome is marked. */
  lemma {:induction false} OneTrialAtATime(o: Options, s: State, events: seq<Event>)
    requires Sound(o, s) && s.phase == Open
    requires forall i | 0 <= i < |events| :: !events[i].MarkResult?
    ensures var s' := Run(o, s, events);
            && s'.phase != Closed
            && Admitted(o, s, events) <= 1
            && (Admitted(o, s, events) == 1 ==> s'.phase == HalfOpen && s'.halfOpenIn)
  {
    if events != [] {
      OneTrialAtATime(o, s, events[..|events| - 1]);
    }
  }

  lemma {:induction false} RunConcat(o: Options, s: State, a: seq<Event>, b: seq<Event>)
    requires Sound(o, s)
    ensures Run(o, s, a + b) == Run(o, Run(o, s, a), b)
    ensures Admitted(o, s, a + b) == Admitted(o, s, a) + Admitted(o, Run(o, s, a), b)
    decreases |b|
  {
    hide Next, Admits;
    if b == [] {
      assert a + b == a;
    } else {
      var n := |b| - 1;
      assert (a + b)[..|a + b| - 1] == a + b[..n];
      RunConcat(o, s, a, b[..n]);
    }
  }

  lemma {:induction false} SleepAdmitsNone(o: Options, s: State, events: seq<Event>)
    requires Sound(o, s) && s.phase == Open
    requires forall i | 0 <= i < |events| :: Before(events[i], s.openedAt, o.sleepWindow)
    ensures Admitted(o, s, events) == 0
  {
    hide Next, Before, Admits;
    if events != [] {
      var n := |events| - 1;
      SleepAdmitsNone(o, s, events[..n]);
      SleepingRejects(o, s, events);
    }
  }

  lemma {:induction false} StaysUsable(o: Options, s: State, events: seq<Event>)
    requires Sound(o, s) && !s.closed && forall i | 0 <= i < |events| :: !events[i].Close?
    ensures !Run(o, s, events).closed
  {
    if events != [] {
      StaysUsable(o, s, events[..|events| - 1]);
    }
  }

  lemma TrialIsOut(o: Options, s: State, now: nat)
    requires Sound(o, s) && s.phase == Open && !s.closed && Since(now, s.openedAt) >= o.sleepWindow
    ensures Admitted(o, s, [Allow(now)]) == 1
    ensures Run(o, s, [Allow(now)]).phase == HalfOpen && Run(o, s, [Allow(now)]).halfOpenIn
  {
    hide Rotated;
    assert [Allow(now)][..0] == [];
  }

  /** While a trial is out nothing else is admitted. */
  lemma {:induction false} TrialBlocksOthers(o: Options, s: State, events: seq<Event>)
    requires Sound(o, s) && s.phase == HalfOpen && s.halfOpenIn
    requires forall i | 0 <= i < |events| :: !events[i].MarkResult?
    ensures var s' := Run(o, s, events);
            s'.phase == HalfOpen && s'.halfOpenIn && Admitted(o, s, events) == 0
  {
    hide Rotated;
    if events != [] {
      TrialBlocksOthers(o, s, events[..|events| - 1]);
    }
  }

  /**
   Recovery is tried, exactly once: asleep, then asked after the sleep window, then asked
   on without a mark, an open breaker that was not shut down admits one request in all.
   */
  lemma OneTrialAfterSleep(o: Options, s: State, asleep: seq<Event>, now: nat, later: seq<Event>)
    requires Sound(o, s) && s.phase == Open && !s.closed
    requires forall i | 0 <= i < |asleep| :: Before(asleep[i], s.openedAt, o.sleepWindow) && !asleep[i].Close?
    requires now >= s.openedAt + o.sleepWindow
    requires forall i | 0 <= i < |later| :: !later[i].MarkResult?
    ensures Admitted(o, s, asleep + [Allow(now)] + later) == 1
    ensures Admits(o, Run(o, s, asleep), now)
  {
    hide Next, Before, Run, Admitted;
    var slept := Run(o, s, asleep);
    SleepingRejects(o, s, asleep);
    SleepAdmitsNone(o, s, asleep);
    StaysUsable(o, s, asleep);
    TrialIsOut(o, slept, now);
    RunConcat(o, s, asleep, [Allow(now)]);
    RunConcat(o, s, asleep + [Allow(now)], later);
    TrialBlocksOthers(o, Run(o, slept, [Allow(now)]), later);
  }

  /** An open breaker closes only when a trial in half-open succeeded on the way. */
  lemma {:induction false} ClosesOnlyThroughTrial(o: Options, s: State, events: seq<Event>)
    requires Sound(o, s) && s.phase == Open && Run(o, s, events).phase == Closed
    ensures exists i | 0 <= i < |events| :: RecoversAt(o, s, events, i)
  {
    var n := |events| - 1;
    var before := Run(o, s, events[..n]);
    if before.phase == Closed {
      ClosesOnlyThroughTrial(o, s, events[..n]);
      var i :| 0 <= i < n && RecoversAt(o, s, events[..n], i);
      assert events[..n][..i] == events[..i];
      assert RecoversAt(o, s, events, i);
    } else {
      assert RecoversAt(o, s, events, n);
    }
  }

  ghost predicate RecoversAt(o: Options, s: State, events: seq<Event>, i: nat)
    requires Sound(o, s)
  {
    i < |events| && Run(o, s, events[..i]).phase == HalfOpen && events[i].MarkResult? && !events[i].failed
  }

  /** Once close has been called every request is rejected, whatever comes after. */
  lemma {:induction false} CloseIsFinal(o: Options, s: State, events: seq<Event>, i: nat, now: nat)
    requires Sound(o, s) && i < |events| && events[i].Close?
    ensures Run(o, s, events).closed && !Admits(o, Run(o, s, events), now)
  {
    if i < |events| - 1 {
      CloseIsFinal(o, s, events[..|events| - 1], i, now);
    }
  }

  // --- The window behind the trip -------------------------------------------------------

  /** What a call does to the ring. */
  function OpsOf(s: State, e: Event): seq<Op> {
    match e
    case Allow(now) => if s.closed then [] else [RotateAt(now)]
    case MarkResult(rotatedAt, markedAt, _, failed) =>
      if s.phase != HalfOpen then [RotateAt(rotatedAt), MarkAt(markedAt, failed)]
      else if failed then [RotateAt(rotatedAt)]
      else [RotateAt(rotatedAt), ResetAt(rotatedAt)]
    case _ => []
  }

  function RunOps(o: Options, events: seq<Event>): seq<Op>
    requires Usable(o.shape)
  {
    if events == [] then []
    else
      var n := |events| - 1;
      RunOps(o, events[..n]) + OpsOf(Run(o, Start(o), events[..n]), events[n])
  }

  lemma RingAppend(c: Shape, ops: seq<Op>, op: Op)
    requires Usable(c)
    ensures RingAfter(c, ops + [op]) == Done(c, RingAfter(c, ops), op)
  {
    hide Done;
    assert (ops + [op])[..|ops|] == ops;
  }

  lemma NextRing(o: Options, s: State, e: Event, ops: seq<Op>)
    requires Sound(o, s) && s.ring == RingAfter(o.shape, ops)
    ensures Next(o, s, e).ring == RingAfter(o.shape, ops + OpsOf(s, e))
  {
    hide Rotated, Marked, Reset, Sum, RingAfter;
    var did := OpsOf(s, e);
    if did == [] {
      assert ops + did == ops;
    } else {
      RingAppend(o.shape, ops, did[0]);
      if |did| == 1 {
        assert did == [did[0]];
      } else {
        RingAppend(o.shape, ops + [did[0]], did[1]);
        assert ops + did == ops + [did[0]] + [did[1]];
      }
    }
  }

  /** The breaker's ring is the ring of its operations. */
  lemma {:induction false} RingOfRun(o: Options, events: seq<Event>)
    requires Usable(o.shape)
    ensures Run(o, Start(o), events).ring == RingAfter(o.shape, RunOps(o, events))
  {
    hide Next, OpsOf;
    if events != [] {
      var n := |events| - 1;
      RingOfRun(o, events[..n]);
      NextRing(o, Run(o, Start(o), events[..n]), events[n], RunOps(o, events[..n]));
    }
  }

  lemma MarkTrips(o: Options, s: State, e: Event)
    requires Sound(o, s) && s.phase == Closed && e.MarkResult?
    ensures OpsOf(s, e) == [RotateAt(e.rotatedAt), MarkAt(e.markedAt, e.failed)]
    ensures Next(o, s, e).phase == Open <==> Trips(o, Sum(Next(o, s, e).ring.buckets))
  {
    hide Rotated, Marked, Sum, Trips;
  }

  /**
   Of the marks of the last n periods as of p there are some, at least as many as the volume, and
   the failures among them are at least the threshold's share.
   */
  ghost predicate WindowTrips(o: Options, marks: seq<Mark>, p: nat) {
    var all, failed := |InWindow(marks, p - o.shape.n + 1, p)|, |FailedInWindow(marks, p - o.shape.n + 1, p)|;
    all > 0 && all >= o.requestVolume && failed as real >= o.errorThreshold * all as real
  }

  lemma RateIsShare(f: real, n: real, t: real)
    requires n > 0.0
    ensures f / n >= t <==> f >= t * n
  {
    var q := f / n;
    assert q * n == f;
    assert q >= t ==> q * n >= t * n;
    assert q < t ==> q * n < t * n;
  }

  lemma TripsIff(o: Options, marks: seq<Mark>, p: nat)
    ensures Trips(o, Count(marks, p - o.shape.n + 1, p)) <==> WindowTrips(o, marks, p)
  {
    hide Count, InWindow, FailedInWindow;
    CountIsSize(marks, p - o.shape.n + 1, p);
    var totals := Count(marks, p - o.shape.n + 1, p);
    if totals.requests > 0 {
      RateIsShare(totals.errors as real, totals.requests as real, o.errorThreshold);
    }
  }

  /**
   In a harmless run, on the grid or not, a closed breaker trips on a mark exactly when
   the outcomes since the last recovery within the last n bucket periods reach volume
   and rate.
   */
  lemma TripsOnWindow(o: Options, events: seq<Event>, e: Event)
    requires Usable(o.shape) && e.MarkResult? && Run(o, Start(o), events).phase == Closed
    requires Timely(o.shape, RunOps(o, events + [e])) && AllHarmless(o.shape, RunOps(o, events + [e]))
    ensures var p := Period(o.shape, e.markedAt);
            Run(o, Start(o), events + [e]).phase == Open
            <==> WindowTrips(o, MarksAfter(o.shape, RunOps(o, events + [e])), p)
  {
    hide Trips, WindowTrips, Sum, Count, Next, AllHarmless, MarksAfter, RingAfter, Period, OpsOf;
    var longer, s := events + [e], Run(o, Start(o), events);
    assert longer[..|events|] == events;
    RingOfRun(o, longer);
    MarkTrips(o, s, e);
    var ops := RunOps(o, longer);
    assert ops[|ops| - 1] == MarkAt(e.markedAt, e.failed);
    TotalsOfRun(o.shape, ops);
    TripsIff(o, MarksAfter(o.shape, ops), Period(o.shape, e.markedAt));
  }

  /** On the grid every run is harmless, so the breaker trips on the window, for any gaps between calls. */
  lemma TripsOnGrid(o: Options, events: seq<Event>, e: Event)
    requires Usable(o.shape) && e.MarkResult? && Run(o, Start(o), events).phase == Closed
    requires Timely(o.shape, RunOps(o, events + [e])) && OnGrid(o.shape, RunOps(o, events + [e]))
    ensures var p := Period(o.shape, e.markedAt);
            Run(o, Start(o), events + [e]).phase == Open
            <==> WindowTrips(o, MarksAfter(o.shape, RunOps(o, events + [e])), p)
  {
    hide WindowTrips, Run, RunOps, OnGrid, AllHarmless, MarksAfter, Period;
    GridRunIsHarmless(o.shape, RunOps(o, events + [e]));
    TripsOnWindow(o, events, e);
  }

  /** Without a failure in the window no mark trips a breaker of positive threshold. */
  lemma SuccessesNeverTrip(o: Options, events: seq<Event>, e: Event)
    requires Usable(o.shape) && e.MarkResult? && Run(o, Start(o), events).phase == Closed && o.errorThreshold > 0.0
    requires Timely(o.shape, RunOps(o, events + [e])) && AllHarmless(o.shape, RunOps(o, events + [e]))
    requires var p, marks := Period(o.shape, e.markedAt), MarksAfter(o.shape, RunOps(o, events + [e]));
             forall i | 0 <= i < |marks| && marks[i].failed :: !(p - o.shape.n < marks[i].period <= p)
    ensures Run(o, Start(o), events + [e]).phase != Open
  {
    hide Run, RunOps, AllHarmless, MarksAfter, Period;
    var p, marks := Period(o.shape, e.markedAt), MarksAfter(o.shape, RunOps(o, events + [e]));
    TripsOnWindow(o, events, e);
    assert FailedInWindow(marks, p - o.shape.n + 1, p) == {};
    var all := |InWindow(marks, p - o.shape.n + 1, p)|;
    assert all > 0 ==> o.errorThreshold * all as real > 0.0;
  }

  /** With a full share of failures one always does, from the volume on. */
  lemma FailuresTrip(o: Options, events: seq<Event>, e: Event)
    requires Usable(o.shape) && e.MarkResult? && Run(o, Start(o), events).phase == Closed && o.errorThreshold <= 1.0
    requires Timely(o.shape, RunOps(o, events + [e])) && AllHarmless(o.shape, RunOps(o, events + [e]))
    requires var p, marks := Period(o.shape, e.markedAt), MarksAfter(o.shape, RunOps(o, events + [e]));
             && |InWindow(marks, p - o.shape.n + 1, p)| >= o.requestVolume
             && |InWindow(marks, p - o.shape.n + 1, p)| > 0
             && forall i | 0 <= i < |marks| && p - o.shape.n < marks[i].period <= p :: marks[i].failed
    ensures Run(o, Start(o), events + [e]).phase == Open
  {
    hide Run, RunOps, AllHarmless, MarksAfter, Period;
    var p, marks := Period(o.shape, e.markedAt), MarksAfter(o.shape, RunOps(o, events + [e]));
    TripsOnWindow(o, events, e);
    assert FailedInWindow(marks, p - o.shape.n + 1, p) == InWindow(marks, p - o.shape.n + 1, p);
    var all := |InWindow(marks, p - o.shape.n + 1, p)|;
    assert o.errorThreshold * all as real <= 1.0 * all as real;
  }

  lemma MarkedSums(c: Shape, r: Ring, now: nat, failed: bool)
    requires Fits(c, r)
    ensures Sum(Marked(c, r, now, failed).buckets)
         == Bucket(Sum(r.buckets).requests + 1, Sum(r.buckets).errors + if failed then 1 else 0)
  {
    hide Index, Sum;
    SumUpdate(r.buckets, Index(c, now), One(failed));
  }

  lemma RateGrows(f: nat, n: nat, t: real)
    requires n > 0 && f as real / n as real >= t
    ensures (f + 1) as real / n as real >= t
  {
    RateIsShare(f as real, n as real, t);
    RateIsShare((f + 1) as real, n as real, t);
  }

  /** In every state: where a success trips the breaker, a failure marked instead trips it too. */
  lemma FailureTripsToo(o: Options, s: State, e: Event)
    requires Sound(o, s) && s.phase == Closed && e.MarkResult? && !e.failed
    ensures Next(o, s, e).phase == Open ==> Next(o, s, e.(failed := true)).phase == Open
  {
    hide Rotated, Marked, Sum;
    var ring := Rotated(o.shape, s.ring, e.rotatedAt);
    MarkedSums(o.shape, ring, e.markedAt, false);
    MarkedSums(o.shape, ring, e.markedAt, true);
    if Next(o, s, e).phase == Open {
      RateGrows(Sum(ring.buckets).errors, Sum(ring.buckets).requests + 1, o.errorThreshold);
    }
  }

  /**
   Seen from the breaker: with prompt marks, the totals its calls leave are the window's
   at every step of a run if and only if every step is harmless.
   */
  lemma WindowIff(o: Options, events: seq<Event>)
    requires Usable(o.shape) && Timely(o.shape, RunOps(o, events)) && Prompt(o.shape, RunOps(o, events))
    ensures Run(o, Start(o), events).ring == RingAfter(o.shape, RunOps(o, events))
    ensures (forall i | 0 <= i < |RunOps(o, events)| :: TotalsAt(o.shape, RunOps(o, events), i))
            <==> AllHarmless(o.shape, RunOps(o, events))
  {
    RingOfRun(o, events);
    RunTotalsIff(o.shape, RunOps(o, events));
  }
}
