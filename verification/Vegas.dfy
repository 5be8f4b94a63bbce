/**
 The Vegas-style breaker: a smoothed round-trip time compared with the smallest one
 seen. Round-trip times are nanoseconds; reals stand for the floating-point numbers.
 */
module Vegas {
  import opened Collections

  datatype Phase = Closed | Open | HalfOpen

  datatype Options = Options(alpha: real, beta: real, warmup: nat, minRtt: nat, maxRtt: nat)

  datatype State = State(base: nat, current: nat, samples: nat, phase: Phase)

  const START: State := State(0, 0, 0, Closed)

  predicate Plausible(o: Options, rtt: nat) {
    o.minRtt <= rtt <= o.maxRtt
  }

  /** Seven parts of the previous value, one of the new, rounded down. */
  function Smooth(current: nat, rtt: nat): nat {
    (7 * current + rtt) / 8
  }

  /** The weights 0.875 and 0.125 with the cast to u64 are that rounding. */
  lemma WeightsAreEighths(current: nat, rtt: nat)
    ensures (current as real * 0.875 + rtt as real * 0.125).Floor == Smooth(current, rtt)
  {
    var sum := 7 * current + rtt;
    assert current as real * 0.875 + rtt as real * 0.125 == sum as real / 8.0;
    assert sum == 8 * (sum / 8) + sum % 8;
    var rest := sum % 8;
    assert sum as real / 8.0 == (sum / 8) as real + rest as real / 8.0;
    assert 0.0 <= rest as real / 8.0 < 1.0;
  }

  function Sampled(o: Options, s: State, rtt: nat): State {
    if !Plausible(o, rtt) then s
    else s.(samples := s.samples + 1,
            current := if s.current == 0 then rtt else Smooth(s.current, rtt),
            base := if s.base == 0 || rtt < s.base then rtt else s.base)
  }

  function Inflation(s: State): real
    requires s.base > 0
  {
    (s.current as real - s.base as real) / s.base as real
  }

  function Evaluated(o: Options, s: State): State {
    if s.samples < o.warmup || s.base == 0 then s
    else
      match s.phase
      case Closed => if Inflation(s) > o.alpha then s.(phase := Open) else s
      case Open => if Inflation(s) < o.beta then s.(phase := HalfOpen) else s
      case HalfOpen =>
        if Inflation(s) < o.beta then s.(phase := Closed)
        else if Inflation(s) > o.alpha then s.(phase := Open)
        else s
  }

  datatype Event = Latency(rtt: nat) | Failure

  /** A half-open trial's latency closes first, its failure re-opens; everything else is a sample. */
  function Next(o: Options, s: State, e: Event): State {
    match e
    case Latency(rtt) => Evaluated(o, Sampled(o, if s.phase == HalfOpen then s.(phase := Closed) else s, rtt))
    case Failure =>
      if s.phase == HalfOpen then s.(phase := Open) else Evaluated(o, Sampled(o, s, o.maxRtt))
  }

  class VegasBreaker {
    const options: Options
    var base: nat
    var current: nat
    var samples: nat
    var phase: Phase
    var closed: bool

    ghost function View(): State
      reads this
    {
      State(base, current, samples, phase)
    }

    constructor (options: Options)
      ensures this.options == options && View() == START && !closed
    {
      this.options := options;
      base, current, samples, phase, closed := 0, 0, 0, Closed, false;
    }

    method RecordLatency(rtt: nat)
      modifies this
      ensures View() == Next(options, old(View()), Latency(rtt % 0x1_0000_0000_0000_0000)) && closed == old(closed)
    {
      if phase == HalfOpen {
        phase := Closed;
      }
      UpdateRtt(rtt);
      assert phase != HalfOpen;
      Evaluate();
    }

    method MarkFailure()
      requires options.maxRtt < U64
      modifies this
      ensures View() == Next(options, old(View()), Failure) && closed == old(closed)
    {
      if phase == HalfOpen {
        phase := Open;
        return;
      }
      UpdateRtt(options.maxRtt);
      assert phase != HalfOpen;
      Evaluate();
    }

    method UpdateRtt(rtt: nat)
      modifies this
      ensures View() == Sampled(options, old(View()), rtt % U64) && closed == old(closed)
    {
      var nanos := rtt % U64;
      if nanos < options.minRtt || nanos > options.maxRtt {
        return;
      }
      samples := samples + 1;
      if current == 0 {
        current := nanos;
      } else {
        WeightsAreEighths(current, nanos);
        current := (current as real * 0.875 + nanos as real * 0.125).Floor;
      }
      if base == 0 || nanos < base {
        base := nanos;
      }
    }

    method Evaluate()
      modifies this
      ensures View() == Evaluated(options, old(View())) && closed == old(closed)
    {
      if samples < options.warmup || base == 0 {
        return;
      }
      var inflation := (current as real - base as real) / base as real;
      match phase {
        case Closed =>
          if inflation > options.alpha {
            phase := Open;
          }
        case Open =>
          if inflation < options.beta {
            phase := HalfOpen;
          }
        case HalfOpen =>
          if inflation < options.beta {
            phase := Closed;
          } else if inflation > options.alpha {
            phase := Open;
          }
      }
    }

    /** After this every request is rejected, for good. */
    method Close()
      modifies this
      ensures closed && View() == old(View())
    {
      closed := true;
    }

    method Allow() returns (admitted: bool)
      ensures admitted <==> !closed && phase != Open
    {
      return !(closed || phase == Open);
    }
  }

  /** Half-open lasts for one event: the evaluation never starts from it. */
  lemma HalfOpenIsLeftAtOnce(o: Options, s: State, e: Event)
    requires s.phase == HalfOpen
    ensures Next(o, s, e).phase != HalfOpen
    ensures e.Failure? ==> Next(o, s, e) == s.(phase := Open)
  {
  }

  // --- Sample histories -----------------------------------------------------------------

  function Run(o: Options, events: seq<Event>): State {
    if events == [] then START else Next(o, Run(o, events[..|events| - 1]), events[|events| - 1])
  }

  /** The round-trip time an event contributes, if it passes the outlier filter. */
  function Accepted(o: Options, s: State, e: Event): seq<nat> {
    var rtt := match e case Latency(r) => r case Failure => o.maxRtt;
    if Plausible(o, rtt) && !(e.Failure? && s.phase == HalfOpen) then [rtt] else []
  }

  function Samples(o: Options, events: seq<Event>): seq<nat> {
    if events == [] then []
    else
      var n := |events| - 1;
      Samples(o, events[..n]) + Accepted(o, Run(o, events[..n]), events[n])
  }

  ghost predicate IsMinimum(m: nat, samples: seq<nat>) {
    m in samples && forall x | x in samples :: m <= x
  }

  ghost predicate AtMostMaximum(m: nat, samples: seq<nat>) {
    exists x :: x in samples && m <= x
  }

  /** The baseline is the smallest accepted sample; there is none before the first. */
  ghost predicate BaseIsMinimum(o: Options, events: seq<Event>) {
    if Samples(o, events) == [] then Run(o, events).base == 0 else IsMinimum(Run(o, events).base, Samples(o, events))
  }

  lemma SmoothBetween(current: nat, rtt: nat)
    ensures current <= rtt ==> current <= Smooth(current, rtt) <= rtt
    ensures rtt <= current ==> rtt <= Smooth(current, rtt) <= current
  {
  }

  lemma MinimumOf(known: seq<nat>, m: nat, x: nat)
    requires IsMinimum(m, known)
    ensures IsMinimum(if x < m then x else m, known + [x])
  {
  }

  /** The round-trip fields after an event: one sample folded in, or none. */
  lemma NextFolds(o: Options, s: State, e: Event)
    ensures var s', accepted := Next(o, s, e), Accepted(o, s, e);
            var t := if accepted == [] then s else Sampled(o, s, accepted[0]);
            s'.base == t.base && s'.current == t.current && s'.samples == t.samples
    ensures Accepted(o, s, e) != [] ==>
              Accepted(o, s, e) == [Accepted(o, s, e)[0]] && Plausible(o, Accepted(o, s, e)[0])
  {
    hide Smooth, Inflation;
  }

  ghost predicate Between(s: State, samples: seq<nat>) {
    && s.samples == |samples|
    && if samples == [] then s.base == s.current == 0
       else IsMinimum(s.base, samples) && 0 < s.base <= s.current && AtMostMaximum(s.current, samples)
  }

  lemma SampleBetween(o: Options, s: State, samples: seq<nat>, rtt: nat)
    requires Between(s, samples) && Plausible(o, rtt) && rtt > 0
    ensures Between(Sampled(o, s, rtt), samples + [rtt])
  {
    hide Smooth;
    SmoothBetween(s.current, rtt);
    assert rtt in samples + [rtt];
    if samples == [] {
      assert samples + [rtt] == [rtt];
      assert IsMinimum(rtt, [rtt]);
    } else {
      MinimumOf(samples, s.base, rtt);
      var x :| x in samples && s.current <= x;
      assert x in samples + [rtt];
    }
  }

  /** With a positive smallest plausible time: base is the minimum, base <= current <= maximum. */
  lemma {:induction false} SmoothedBetweenExtremes(o: Options, events: seq<Event>)
    requires o.minRtt > 0
    ensures Between(Run(o, events), Samples(o, events))
  {
    hide Between, Next, Accepted, Sampled;
    if events == [] {
      assert Between(START, []) by { NothingBetween(); }
    } else {
      var n := |events| - 1;
      var s, samples := Run(o, events[..n]), Samples(o, events[..n]);
      SmoothedBetweenExtremes(o, events[..n]);
      NextFolds(o, s, events[n]);
      var accepted := Accepted(o, s, events[n]);
      if accepted != [] {
        SampleBetween(o, s, samples, accepted[0]);
        SameFields(Sampled(o, s, accepted[0]), Run(o, events), samples + accepted);
      } else {
        assert samples + [] == samples;
        SameFields(s, Run(o, events), samples);
      }
    }
  }

  /** A time outside the plausible range changes no round-trip field; one inside counts as one more sample. */
  lemma FilterIff(o: Options, s: State, rtt: nat)
    ensures var t := Next(o, s, Latency(rtt));
            if rtt < o.minRtt || rtt > o.maxRtt
            then t.base == s.base && t.current == s.current && t.samples == s.samples
            else t.samples == s.samples + 1
  {
    hide Smooth;
    NextFolds(o, s, Latency(rtt));
  }

  lemma NothingBetween()
    ensures Between(START, [])
  {
  }

  lemma SameFields(s: State, t: State, samples: seq<nat>)
    requires Between(s, samples) && s.base == t.base && s.current == t.current && s.samples == t.samples
    ensures Between(t, samples)
  {
  }

  lemma {:induction false} ZeroOnly(o: Options, events: seq<Event>)
    requires o.minRtt == 0 && o.maxRtt == 0
    ensures Run(o, events).base == 0 && forall x | x in Samples(o, events) :: x == 0
  {
    if events != [] {
      ZeroOnly(o, events[..|events| - 1]);
    }
  }

  /**
   The baseline is the minimum on every history exactly when no zero sample can be
   accepted, or nothing else can: a zero baseline reads as none, and the next sample
   replaces it.
   */
  lemma BaseIsMinimumIff(o: Options)
    ensures (forall events :: BaseIsMinimum(o, events)) <==> o.minRtt > 0 || o.maxRtt == 0
  {
    if o.minRtt > 0 {
      forall events ensures BaseIsMinimum(o, events) {
        SmoothedBetweenExtremes(o, events);
      }
    } else if o.maxRtt == 0 {
      forall events ensures BaseIsMinimum(o, events) {
        ZeroOnly(o, events);
        var samples := Samples(o, events);
        assert samples != [] ==> samples[0] in samples;
      }
    } else {
      ZeroThenOne(o);
    }
  }

  lemma ZeroThenOne(o: Options)
    requires o.minRtt == 0 < o.maxRtt
    ensures !BaseIsMinimum(o, [Latency(0), Latency(1)])
  {
    var events := [Latency(0), Latency(1)];
    assert events[..1] == [Latency(0)] && events[..1][..0] == [];
    NextFolds(o, START, Latency(0));
    NextFolds(o, Run(o, events[..1]), Latency(1));
    hide Next, Smooth;
    assert Run(o, events[..1]).base == 0 && Samples(o, events[..1]) == [0];
    assert Run(o, events).base == 1;
    assert Samples(o, events) == [0, 1];
    assert 0 in Samples(o, events);
    assert !IsMinimum(1, Samples(o, events));
  }

  // --- Repeated failures ------------------------------------------------------------------

  function Fails(o: Options, s: State, n: nat): State {
    if n == 0 then s else Next(o, Fails(o, s, n - 1), Failure)
  }

  function Power(b: nat, n: nat): nat {
    if n == 0 then 1 else b * Power(b, n - 1)
  }

  function SmoothToward(current: nat, target: nat, n: nat): nat {
    if n == 0 then current else Smooth(SmoothToward(current, target, n - 1), target)
  }

  lemma OneGap(current: nat, target: nat)
    requires current <= target
    ensures Smooth(current, target) <= target
    ensures 8 * (target - Smooth(current, target) - 7) <= 7 * (target - current - 7)
  {
  }

  lemma ScaleGap(p: nat, q: nat, after: int, before: int, g: int)
    requires 8 * after <= 7 * before && p * before <= q * g
    ensures (8 * p) * after <= (7 * q) * g
  {
    assert p * (8 * after) <= p * (7 * before);
    assert (8 * p) * after == p * (8 * after) && p * (7 * before) == 7 * (p * before);
    assert (7 * q) * g == 7 * (q * g);
  }

  /** The excess of the gap over 7 shrinks by an eighth at least with every maximal sample. */
  lemma {:induction false} GapShrinks(current: nat, target: nat, n: nat)
    requires current <= target
    ensures SmoothToward(current, target, n) <= target
    ensures Power(8, n) * (target - SmoothToward(current, target, n) - 7) <= Power(7, n) * (target - current - 7)
  {
    hide Smooth;
    if n > 0 {
      GapShrinks(current, target, n - 1);
      var c := SmoothToward(current, target, n - 1);
      OneGap(c, target);
      ScaleGap(Power(8, n - 1), Power(7, n - 1), target - Smooth(c, target) - 7, target - c - 7, target - current - 7);
    }
  }

  /** Inflation compared with a threshold is the smoothed time compared with (1 + threshold) times the base. */
  lemma InflationIff(s: State, threshold: real)
    requires s.base > 0
    ensures Inflation(s) > threshold <==> s.current as real > (1.0 + threshold) * s.base as real
    ensures Inflation(s) < threshold <==> s.current as real < (1.0 + threshold) * s.base as real
  {
    var b := s.base as real;
    var x := s.current as real - b;
    var q := x / b;
    assert q * b == x;
    assert (1.0 + threshold) * b == b + threshold * b;
    assert q > threshold ==> q * b > threshold * b;
    assert q < threshold ==> q * b < threshold * b;
    assert q == threshold ==> q * b == threshold * b;
  }

  /** Warmed up, with a baseline, and the smoothed time past (1 + threshold) times it. */
  predicate Inflated(o: Options, s: State) {
    s.samples >= o.warmup && s.base > 0 && s.current as real > (1.0 + o.alpha) * s.base as real
  }

  predicate Recovered(o: Options, s: State) {
    s.samples >= o.warmup && s.base > 0 && s.current as real < (1.0 + o.beta) * s.base as real
  }

  lemma EvaluatedIff(o: Options, t: State)
    requires t.phase != HalfOpen
    ensures Evaluated(o, t) == t.(phase := if t.phase == Closed then if Inflated(o, t) then Open else Closed
                                           else if Recovered(o, t) then HalfOpen else Open)
    ensures forall phase :: Inflated(o, t.(phase := phase)) == Inflated(o, t)
    ensures forall phase :: Recovered(o, t.(phase := phase)) == Recovered(o, t)
  {
    hide Inflation;
    if t.base > 0 {
      InflationIff(t, o.alpha);
      InflationIff(t, o.beta);
    }
  }

  /**
   The moves of the breaker, on the state after the event: from closed or half-open a
   latency opens it exactly when inflated, else it is closed; an open breaker turns
   half-open exactly when recovered and never closes at once.
   */
  lemma MovesIff(o: Options, s: State, e: Event)
    ensures e.Latency? && s.phase != Open ==>
              Next(o, s, e).phase == if Inflated(o, Next(o, s, e)) then Open else Closed
    ensures e.Failure? && s.phase == Closed ==>
              Next(o, s, e).phase == if Inflated(o, Next(o, s, e)) then Open else Closed
    ensures s.phase == Open ==>
              Next(o, s, e).phase == if Recovered(o, Next(o, s, e)) then HalfOpen else Open
  {
    hide Smooth, Inflation, Inflated, Recovered, Evaluated;
    var rtt := match e case Latency(r) => r case Failure => o.maxRtt;
    var t := Sampled(o, if e.Latency? && s.phase == HalfOpen then s.(phase := Closed) else s, rtt);
    if t.phase != HalfOpen {
      EvaluatedIff(o, t);
    }
  }

  function Remaining(o: Options, s: State): nat {
    if s.samples < o.warmup then o.warmup - s.samples else 0
  }

  lemma FailureStep(o: Options, s: State)
    requires s.phase == Closed && 0 < s.base <= s.current <= o.maxRtt && o.minRtt <= o.maxRtt
    ensures var s1 := Next(o, s, Failure);
            && s1.phase in {Closed, Open} && s1.base == s.base && s1.samples == s.samples + 1
            && s1.current == Smooth(s.current, o.maxRtt)
            && (s1.phase == Open <==>
                  s1.samples >= o.warmup && s1.current as real > (1.0 + o.alpha) * s1.base as real)
  {
    InflationIff(Sampled(o, s, o.maxRtt), o.alpha);
    hide Smooth, Inflation;
  }

  // --- How far failures alone carry the smoothed time ---------------------------------------

  /** What the smoothed time rises to: 7 ns below the target, rounding keeps it from coming closer. */
  function Ceiling(current: nat, target: nat): int {
    if current >= target - 7 then current else target - 7
  }

  lemma {:induction false} NeverPastCeiling(current: nat, target: nat, n: nat)
    requires current <= target
    ensures current <= SmoothToward(current, target, n) <= Ceiling(current, target) <= target
  {
    if n > 0 {
      NeverPastCeiling(current, target, n - 1);
      hide SmoothToward;
      SmoothBetween(SmoothToward(current, target, n - 1), target);
    }
  }

  lemma LessThanOne(p: nat, g: int, bound: int)
    requires p * g <= bound < p
    ensures g <= 0
  {
    assert g >= 1 ==> p * g >= p * 1;
  }

  /** It gets there: after n maximal samples, as soon as 7^n times what it lacks is below 8^n. */
  lemma ReachesCeiling(current: nat, target: nat, n: nat)
    requires current <= target && Power(7, n) * (target - current - 7) < Power(8, n)
    ensures SmoothToward(current, target, n) == Ceiling(current, target)
  {
    hide Power, SmoothToward;
    NeverPastCeiling(current, target, n);
    GapShrinks(current, target, n);
    LessThanOne(Power(8, n), target - SmoothToward(current, target, n) - 7, Power(7, n) * (target - current - 7));
  }

  /** Six eighths-steps more than halve: 2 * 7^6 <= 8^6. */
  lemma {:induction false} SixHalve(k: nat)
    ensures Power(7, 6 * k) * Power(2, k) <= Power(8, 6 * k)
  {
    if k > 0 {
      SixHalve(k - 1);
      SixMore(7, 6 * (k - 1));
      SixMore(8, 6 * (k - 1));
      hide Power;
      var p, q, r := Power(7, 6 * (k - 1)), Power(2, k - 1), Power(8, 6 * (k - 1));
      assert 6 * k == 6 * (k - 1) + 6;
      assert Power(2, k) == 2 * q by { Doubled(k); }
      assert (117649 * p) * (2 * q) == 235298 * (p * q);
    }
  }

  lemma Doubled(k: nat)
    requires k > 0
    ensures Power(2, k) == 2 * Power(2, k - 1)
  {
  }

  lemma SixMore(b: nat, n: nat)
    requires b in {7, 8}
    ensures Power(b, n + 6) == (if b == 7 then 117649 else 262144) * Power(b, n)
  {
    assert Power(b, n + 2) == b * Power(b, n + 1) == b * b * Power(b, n);
    assert Power(b, n + 4) == b * Power(b, n + 3) == b * b * Power(b, n + 2);
    assert Power(b, n + 6) == b * Power(b, n + 5) == b * b * Power(b, n + 4);
  }

  /** Enough samples stay enough. */
  lemma {:induction false} EnoughStays(g: int, n: nat, m: nat)
    requires n <= m && Power(7, n) * g < Power(8, n)
    ensures Power(7, m) * g < Power(8, m)
  {
    if n < m {
      EnoughStays(g, n, m - 1);
      hide Power;
      var p, q := Power(7, m - 1), Power(8, m - 1);
      assert Power(7, m) == 7 * p && Power(8, m) == 8 * q by { OneMore(m); }
      assert (7 * p) * g == 7 * (p * g);
    }
  }

  lemma OneMore(m: nat)
    requires m > 0
    ensures Power(7, m) == 7 * Power(7, m - 1) && Power(8, m) == 8 * Power(8, m - 1)
  {
  }

  /** A gap below 2^k is closed, but for 7 ns, by 6k maximal samples. */
  lemma EnoughSamples(g: int, k: nat, n: nat)
    requires g < Power(2, k) && n >= 6 * k
    ensures Power(7, n) * g < Power(8, n)
  {
    SixHalve(k);
    PowerPositive(7, 6 * k);
    var p, q := Power(7, 6 * k), Power(2, k);
    hide Power;
    assert p * g < p * q by { StrictlyScaled(p, g, q); }
    EnoughStays(g, 6 * k, n);
  }

  lemma {:induction false} StrictlyScaled(p: nat, a: int, b: int)
    requires p > 0 && a < b
    ensures p * a < p * b
  {
    if p > 1 {
      StrictlyScaled(p - 1, a, b);
      assert p * a == (p - 1) * a + a && p * b == (p - 1) * b + b;
    }
  }

  lemma {:induction false} PowerPositive(b: nat, n: nat)
    requires b > 0
    ensures Power(b, n) > 0
  {
    if n > 0 {
      PowerPositive(b, n - 1);
    }
  }

  /** A closed breaker meeting failures opens at some point, or folds every one of them in. */
  lemma {:induction false} OpensOrFolds(o: Options, s: State, n: nat) returns (k: nat)
    requires s.phase == Closed && 0 < s.base <= s.current <= o.maxRtt && o.minRtt <= o.maxRtt
    ensures k <= n
    ensures k > 0 ==> Fails(o, s, k).phase == Open
    ensures k > 0 ==>
              s.samples + k >= o.warmup && (1.0 + o.alpha) * s.base as real < Ceiling(s.current, o.maxRtt) as real
    ensures k == 0 ==>
              Fails(o, s, n) == State(s.base, SmoothToward(s.current, o.maxRtt, n), s.samples + n, Closed)
  {
    hide Next, Inflation, Smooth;
    if n == 0 {
      return 0;
    }
    k := OpensOrFolds(o, s, n - 1);
    if k == 0 {
      var t := Fails(o, s, n - 1);
      NeverPastCeiling(s.current, o.maxRtt, n - 1);
      NeverPastCeiling(s.current, o.maxRtt, n);
      FailureStep(o, t);
      if Next(o, t, Failure).phase == Open {
        k := n;
      }
    }
  }

  /** The first failures to open it number at most n, as soon as 7^n times the gap beyond 7 ns is below 8^n. */
  lemma FailuresOpen(o: Options, s: State, n: nat) returns (k: nat)
    requires s.phase == Closed && 0 < s.base <= s.current <= o.maxRtt && o.minRtt <= o.maxRtt
    requires (1.0 + o.alpha) * s.base as real < Ceiling(s.current, o.maxRtt) as real
    requires n >= 1 && s.samples + n >= o.warmup && Power(7, n) * (o.maxRtt - s.current - 7) < Power(8, n)
    ensures 1 <= k <= n && Fails(o, s, k).phase == Open
  {
    hide Next, Power, Smooth, Inflation;
    k := OpensOrFolds(o, s, n - 1);
    if k == 0 {
      var t := Fails(o, s, n - 1);
      NeverPastCeiling(s.current, o.maxRtt, n - 1);
      ReachesCeiling(s.current, o.maxRtt, n);
      FailureStep(o, t);
      k := n;
    }
  }

  function Max(a: nat, b: nat): nat {
    if a < b then b else a
  }

  /**
   In terms of sizes: six failures per bit of the gap are enough, once the warmup is over; at
   the default maximum of 30 s that is 210.
   */
  lemma FailuresPerBit(o: Options, s: State, bits: nat) returns (k: nat)
    requires s.phase == Closed && 0 < s.base <= s.current <= o.maxRtt && o.minRtt <= o.maxRtt
    requires (1.0 + o.alpha) * s.base as real < Ceiling(s.current, o.maxRtt) as real
    requires o.maxRtt - s.current - 7 < Power(2, bits)
    ensures 1 <= k <= Max(Max(6 * bits, Remaining(o, s)), 1) && Fails(o, s, k).phase == Open
  {
    var n := Max(Max(6 * bits, Remaining(o, s)), 1);
    EnoughSamples(o.maxRtt - s.current - 7, bits, n);
    hide Power, Next;
    k := FailuresOpen(o, s, n);
  }

  lemma {:induction false} PowerExceeds(g: nat)
    ensures g < Power(2, g)
  {
    if g > 0 {
      PowerExceeds(g - 1);
    }
  }

  ghost predicate OpensByFailures(o: Options, s: State) {
    exists n: nat :: Fails(o, s, n).phase == Open
  }

  /**
   Failures alone open a closed breaker exactly when (1 + alpha) times the baseline lies below
   what the smoothed time can rise to: 7 ns below the maximum, or where it already is.
   */
  lemma FailuresOpenIff(o: Options, s: State)
    requires s.phase == Closed && 0 < s.base <= s.current <= o.maxRtt && o.minRtt <= o.maxRtt
    ensures OpensByFailures(o, s) <==> (1.0 + o.alpha) * s.base as real < Ceiling(s.current, o.maxRtt) as real
  {
    hide Next, Power;
    if (1.0 + o.alpha) * s.base as real < Ceiling(s.current, o.maxRtt) as real {
      PowerExceeds(o.maxRtt - s.current);
      var k := FailuresPerBit(o, s, o.maxRtt - s.current);
      assert Fails(o, s, k).phase == Open;
    }
    forall n: nat | Fails(o, s, n).phase == Open
      ensures (1.0 + o.alpha) * s.base as real < Ceiling(s.current, o.maxRtt) as real
    {
      var k := OpensOrFolds(o, s, n);
    }
  }
}
