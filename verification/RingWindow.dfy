/**
 The bucket ring shared by the Hystrix and SRE breakers: marks counted per bucket
 period in n reused slots, rotated lazily at each observation. Instants and the
 bucket width are nanoseconds.
 */
module RingWindow {

  datatype Bucket = Bucket(requests: nat, errors: nat)

  const EMPTY: Bucket := Bucket(0, 0)

  function Plus(a: Bucket, b: Bucket): Bucket {
    Bucket(a.requests + b.requests, a.errors + b.errors)
  }

  function One(failed: bool): Bucket {
    Bucket(1, if failed then 1 else 0)
  }

  /** The ring's fixed shape: construction instant, bucket width, number of slots. */
  datatype Shape = Shape(start: nat, width: nat, n: nat)

  predicate Usable(c: Shape) {
    c.width > 0 && c.n > 0
  }

  datatype Ring = Ring(buckets: seq<Bucket>, lastRotate: nat)

  predicate Fits(c: Shape, r: Ring) {
    Usable(c) && |r.buckets| == c.n
  }

  /** duration_since: zero when the instants are the other way round. */
  function Since(now: nat, earlier: nat): nat {
    if now < earlier then 0 else now - earlier
  }

  function Period(c: Shape, now: nat): nat
    requires Usable(c)
  {
    Since(now, c.start) / c.width
  }

  function Index(c: Shape, now: nat): (i: nat)
    requires Usable(c)
    ensures i < c.n
  {
    Slot(Period(c, now), c.n)
  }

  /** The slot a bucket period uses; periods before the start are counted downwards. */
  function Slot(q: int, n: nat): (k: nat)
    requires n > 0
    ensures k < n
  {
    q % n
  }

  /** How many slots k lies behind the current one on the ring. */
  function Behind(n: nat, current: int, k: int): (d: nat)
    requires n > 0
    ensures d < n
  {
    (current - k) % n
  }

  function Steps(c: Shape, last: nat, now: nat): nat
    requires Usable(c)
  {
    Since(now, last) / c.width
  }

  /** Slot k is one of the last steps slots, going back from the current one. */
  predicate Cleared(n: nat, current: nat, steps: nat, k: nat)
    requires n > 0
  {
    Behind(n, current, k) < steps
  }

  function Rotated(c: Shape, r: Ring, now: nat): (r': Ring)
    requires Fits(c, r)
    ensures Fits(c, r')
  {
    var steps := Steps(c, r.lastRotate, now);
    if steps == 0 then r
    else Ring(seq(c.n, k requires 0 <= k < c.n =>
                if Cleared(c.n, Index(c, now), steps, k) then EMPTY else r.buckets[k]), now)
  }

  function Marked(c: Shape, r: Ring, now: nat, failed: bool): (r': Ring)
    requires Fits(c, r)
    ensures Fits(c, r')
  {
    var i := Index(c, now);
    r.(buckets := r.buckets[i := Plus(r.buckets[i], One(failed))])
  }

  function Reset(c: Shape, r: Ring): (r': Ring)
    requires Fits(c, r)
    ensures Fits(c, r')
  {
    r.(buckets := seq(c.n, _ => EMPTY))
  }

  function Sum(buckets: seq<Bucket>): Bucket {
    if buckets == [] then EMPTY else Plus(Sum(buckets[..|buckets| - 1]), buckets[|buckets| - 1])
  }

  // --- The slots in place -----------------------------------------------------------

  lemma MulGrows(n: int, d: int)
    requires n > 0
    ensures d >= 1 ==> n * d >= n
    ensures d <= -1 ==> n * d <= -n
  {
  }

  lemma ModIs(a: int, n: int, q: int, r: int)
    requires 0 <= r < n && a == n * q + r
    ensures a % n == r && a / n == q
  {
    var d := a / n - q;
    assert a == n * (a / n) + a % n;
    assert n * d == n * (a / n) - n * q;
    MulGrows(n, d);
  }

  lemma BehindIs(n: nat, current: nat, k: nat)
    requires current < n && k < n
    ensures Behind(n, current, k) == if k <= current then current - k else current - k + n
  {
    if k <= current {
      ModIs(current - k, n, 0, current - k);
    } else {
      ModIs(current - k, n, -1, current - k + n);
    }
  }

  /** The slot an offset of the rotation loop clears, in both breakers' spelling. */
  lemma SlotOfOffset(n: nat, current: nat, steps: nat, offset: nat)
    requires current < n && 0 < steps < n && offset < steps
    ensures Slot(current + n - steps + offset + 1 + n, n) == Slot(current + n - steps + offset + 1, n)
    ensures Behind(n, current, Slot(current + n - steps + offset + 1 + n, n)) == steps - offset - 1
  {
    var d := steps - offset - 1;
    var idx := if current >= d then current - d else current - d + n;
    ModIs(current + n - d + n, n, if current >= d then 2 else 1, idx);
    ModIs(current + n - d, n, if current >= d then 1 else 0, idx);
    BehindIs(n, current, idx);
  }

  lemma BehindInjective(n: nat, current: nat, a: nat, b: nat)
    requires current < n && a < n && b < n && Behind(n, current, a) == Behind(n, current, b)
    ensures a == b
  {
    BehindIs(n, current, a);
    BehindIs(n, current, b);
  }

  class RingBuffer {
    const shape: Shape
    const slots: array<Bucket>
    var lastRotate: nat

    ghost predicate Valid()
      reads this
    {
      Usable(shape) && slots.Length == shape.n
    }

    ghost function View(): (r: Ring)
      requires Valid()
      reads this, slots
      ensures Fits(shape, r)
    {
      Ring(slots[..], lastRotate)
    }

    constructor (shape: Shape)
      requires Usable(shape)
      ensures Valid() && this.shape == shape && fresh(slots)
      ensures View() == Ring(seq(shape.n, _ => EMPTY), shape.start)
    {
      this.shape := shape;
      slots := new Bucket[shape.n](_ => EMPTY);
      lastRotate := shape.start;
    }

    method Fill()
      requires Valid()
      modifies slots
      ensures View() == Reset(shape, old(View()))
    {
      for k := 0 to slots.Length
        invariant forall m | 0 <= m < k :: slots[m] == EMPTY
      {
        slots[k] := EMPTY;
      }
      assert slots[..] == seq(shape.n, _ => EMPTY);
    }

    method Rotate(now: nat)
      requires Valid()
      modifies this, slots
      ensures Valid() && View() == Rotated(shape, old(View()), now)
    {
      var steps := Since(now, lastRotate) / shape.width;
      if steps == 0 {
        return;
      }
      if steps >= slots.Length {
        Fill();
      } else {
        ClearLast(now, steps);
      }
      lastRotate := now;
      assert slots[..] == Rotated(shape, old(View()), now).buckets;
    }

    method ClearLast(now: nat, steps: nat)
      requires Valid() && 0 < steps < shape.n
      modifies slots
      ensures forall k: nat | k < shape.n ::
        slots[k] == if Behind(shape.n, Index(shape, now), k) < steps then EMPTY else old(slots[k])
    {
      hide Slot, Behind, Index;
      ghost var was := slots[..];
      var n := slots.Length;
      ghost var current := Index(shape, now);
      for offset := 0 to steps
        invariant forall k: nat | k < n ::
          slots[k] == if steps - offset <= Behind(n, current, k) < steps then EMPTY else was[k]
      {
        SlotOfOffset(n, current, steps, offset);
        var idx := Slot(Index(shape, now) + n - steps + offset + 1 + n, n);
        slots[idx] := EMPTY;
        forall k: nat | k < n && Behind(n, current, k) == steps - offset - 1 ensures k == idx {
          BehindInjective(n, current, k, idx);
        }
      }
    }

    method Mark(now: nat, failed: bool)
      requires Valid()
      modifies slots
      ensures View() == Marked(shape, old(View()), now, failed)
    {
      var i := Index(shape, now);
      slots[i] := Plus(slots[i], One(failed));
    }

    method Totals() returns (totals: Bucket)
      requires Valid()
      ensures totals == Sum(slots[..])
    {
      totals := EMPTY;
      for k := 0 to slots.Length
        invariant totals == Sum(slots[..k])
      {
        totals := Plus(totals, slots[k]);
        assert slots[..k + 1][..k] == slots[..k];
      }
      assert slots[..slots.Length] == slots[..];
    }
  }

  // --- What the ring counts -----------------------------------------------------------

  /** A mark as it happened: its bucket period and whether it was a failure. */
  datatype Mark = Mark(period: nat, failed: bool)

  /** What a mark adds to the count of periods lo..hi. */
  function Weight(m: Mark, lo: int, hi: int): Bucket {
    if lo <= m.period <= hi then One(m.failed) else EMPTY
  }

  /** The marks of periods lo..hi. */
  function Count(marks: seq<Mark>, lo: int, hi: int): Bucket {
    if marks == [] then EMPTY
    else Plus(Count(marks[..|marks| - 1], lo, hi), Weight(marks[|marks| - 1], lo, hi))
  }

  /** The marks of periods lo..hi, and the failures among them, by their places in the run. */
  function InWindow(marks: seq<Mark>, lo: int, hi: int): set<nat> {
    set i: nat | i < |marks| && lo <= marks[i].period <= hi
  }

  function FailedInWindow(marks: seq<Mark>, lo: int, hi: int): set<nat> {
    set i: nat | i < |marks| && lo <= marks[i].period <= hi && marks[i].failed
  }

  lemma InWindowStep(marks: seq<Mark>, lo: int, hi: int)
    requires marks != []
    ensures var n := |marks| - 1;
            var here := lo <= marks[n].period <= hi;
            && InWindow(marks, lo, hi) == InWindow(marks[..n], lo, hi) + (if here then {n} else {})
            && FailedInWindow(marks, lo, hi)
               == FailedInWindow(marks[..n], lo, hi) + (if here && marks[n].failed then {n} else {})
            && n !in InWindow(marks[..n], lo, hi) && n !in FailedInWindow(marks[..n], lo, hi)
  {
  }

  /** Counting is counting: one request for each mark of these periods, one error for each failure. */
  lemma {:induction false} CountIsSize(marks: seq<Mark>, lo: int, hi: int)
    ensures Count(marks, lo, hi) == Bucket(|InWindow(marks, lo, hi)|, |FailedInWindow(marks, lo, hi)|)
  {
    if marks == [] {
      assert InWindow(marks, lo, hi) == {} && FailedInWindow(marks, lo, hi) == {};
    } else {
      CountIsSize(marks[..|marks| - 1], lo, hi);
      InWindowStep(marks, lo, hi);
      hide InWindow, FailedInWindow;
    }
  }

  /** As of period p the slots hold exactly the marks of the last n periods. */
  ghost predicate Exact(buckets: seq<Bucket>, marks: seq<Mark>, p: nat) {
    && |buckets| > 0
    && (forall i | 0 <= i < |marks| :: marks[i].period <= p)
    && (forall q: int | p - |buckets| < q <= p :: Holds(buckets, marks, q))
  }

  ghost predicate Holds(buckets: seq<Bucket>, marks: seq<Mark>, q: int)
    requires |buckets| > 0
  {
    buckets[Slot(q, |buckets|)] == Count(marks, q, q)
  }

  /** The period within the last n as of p that uses slot k. */
  function PeriodOf(p: nat, n: nat, k: nat): (q: int)
    requires k < n
    ensures p - n < q <= p && Slot(q, n) == k
  {
    var d := Behind(n, p, k);
    assert p - k == n * ((p - k) / n) + d;
    ModIs(p - d, n, (p - k) / n, k);
    p - d
  }

  lemma SlotMultiple(q: int, n: nat) returns (m: int)
    requires n > 0
    ensures q == n * m + Slot(q, n)
  {
    m := q / n;
  }

  lemma SameSlotSamePeriod(p: nat, n: nat, a: int, b: int)
    requires n > 0 && p - n < a <= p && p - n < b <= p && Slot(a, n) == Slot(b, n)
    ensures a == b
  {
    hide Slot;
    var x := SlotMultiple(a, n);
    var y := SlotMultiple(b, n);
    assert a - b == n * (x - y) by {
      assert n * x - n * y == n * (x - y);
    }
    MulGrows(n, x - y);
  }

  lemma BehindDifference(p: nat, q: int, n: nat)
    requires n > 0 && p - n < q <= p
    ensures Behind(n, Slot(p, n), Slot(q, n)) == p - q
  {
    hide Slot;
    var x := SlotMultiple(p, n);
    var y := SlotMultiple(q, n);
    assert n * (y - x) == n * y - n * x;
    ModIs(Slot(p, n) - Slot(q, n), n, y - x, p - q);
  }

  lemma {:induction false} SumUpdate(b: seq<Bucket>, k: nat, x: Bucket)
    requires k < |b|
    ensures Sum(b[k := Plus(b[k], x)]) == Plus(Sum(b), x)
  {
    var n := |b| - 1;
    var b' := b[k := Plus(b[k], x)];
    if k < n {
      SumUpdate(b[..n], k, x);
      assert b'[..n] == b[..n][k := Plus(b[k], x)];
    } else {
      assert b'[..n] == b[..n];
    }
  }

  lemma {:induction false} SumOfEmpty(n: nat)
    ensures Sum(seq(n, _ => EMPTY)) == EMPTY
  {
    if n > 0 {
      SumOfEmpty(n - 1);
      assert seq(n, _ => EMPTY)[..n - 1] == seq(n - 1, _ => EMPTY);
    }
  }

  function Spread(marks: seq<Mark>, p: nat, n: nat): seq<Bucket> {
    seq(n, k requires 0 <= k < n => Count(marks, PeriodOf(p, n, k), PeriodOf(p, n, k)))
  }

  lemma CountLast(init: seq<Mark>, m: Mark, lo: int, hi: int)
    ensures Count(init + [m], lo, hi) == Plus(Count(init, lo, hi), Weight(m, lo, hi))
  {
    assert (init + [m])[..|init|] == init;
  }

  lemma SpreadStep(init: seq<Mark>, m: Mark, p: nat, n: nat)
    requires n > 0
    ensures Sum(Spread(init + [m], p, n)) == Plus(Sum(Spread(init, p, n)), Weight(m, p - n + 1, p))
  {
    hide PeriodOf, Slot, Count, Sum;
    var before, after := Spread(init, p, n), Spread(init + [m], p, n);
    forall k: nat | k < n
      ensures after[k] == if PeriodOf(p, n, k) == m.period then Plus(before[k], One(m.failed)) else before[k]
    {
      CountLast(init, m, PeriodOf(p, n, k), PeriodOf(p, n, k));
    }
    if p - n < m.period <= p {
      var k := Slot(m.period, n);
      forall x: nat | x < n ensures PeriodOf(p, n, x) == m.period <==> x == k {
        SameSlotSamePeriod(p, n, m.period, PeriodOf(p, n, k));
      }
      SumUpdate(before, k, One(m.failed));
      assert after == before[k := Plus(before[k], One(m.failed))];
    } else {
      assert after == before;
    }
  }

  lemma {:induction false} SpreadSum(marks: seq<Mark>, p: nat, n: nat)
    requires n > 0
    ensures Sum(Spread(marks, p, n)) == Count(marks, p - n + 1, p)
  {
    hide Weight, Plus;
    if marks == [] {
      SumOfEmpty(n);
      assert Spread(marks, p, n) == seq(n, _ => EMPTY);
    } else {
      var init, m := marks[..|marks| - 1], marks[|marks| - 1];
      SpreadSum(init, p, n);
      SpreadStep(init, m, p, n);
      assert init + [m] == marks;
    }
  }

  /** The totals of an exact ring are the marks of the last n bucket periods. */
  lemma TotalsAreWindow(buckets: seq<Bucket>, marks: seq<Mark>, p: nat)
    requires Exact(buckets, marks, p)
    ensures Sum(buckets) == Count(marks, p - |buckets| + 1, p)
  {
    var n := |buckets|;
    forall k: nat | k < n ensures buckets[k] == Spread(marks, p, n)[k] {
      assert Holds(buckets, marks, PeriodOf(p, n, k));
    }
    assert buckets == Spread(marks, p, n);
    SpreadSum(marks, p, n);
  }

  lemma {:induction false} CountNone(marks: seq<Mark>, lo: int, hi: int)
    requires forall i | 0 <= i < |marks| :: !(lo <= marks[i].period <= hi)
    ensures Count(marks, lo, hi) == EMPTY
  {
    if marks != [] {
      CountNone(marks[..|marks| - 1], lo, hi);
      assert Weight(marks[|marks| - 1], lo, hi) == EMPTY;
    }
  }

  /** Whole bucket widths counted between two instants, against period boundaries crossed. */
  predicate Aligned(c: Shape, last: nat, now: nat)
    requires Usable(c)
  {
    var entered := Period(c, now) - Period(c, last);
    entered >= 0 && (Steps(c, last, now) == entered || (Steps(c, last, now) >= c.n && entered >= c.n))
  }

  /** Steps and boundaries agree exactly when now is no earlier within its period than last was. */
  lemma AlignedIffOffset(c: Shape, last: nat, now: nat)
    requires Usable(c) && c.start <= last <= now
    ensures Steps(c, last, now) == Period(c, now) - Period(c, last)
            <==> (last - c.start) % c.width <= (now - c.start) % c.width
    ensures Steps(c, last, now) in {Period(c, now) - Period(c, last), Period(c, now) - Period(c, last) - 1}
  {
    var w := c.width;
    var a, b := last - c.start, now - c.start;
    var d := b / w - a / w;
    assert a == w * (a / w) + a % w && b == w * (b / w) + b % w;
    assert b - a == w * d + (b % w - a % w) by {
      assert w * (b / w) - w * (a / w) == w * d;
    }
    if a % w <= b % w {
      ModIs(b - a, w, d, b % w - a % w);
    } else {
      assert w * (d - 1) == w * d - w;
      ModIs(b - a, w, d - 1, w + b % w - a % w);
    }
  }

  /** Instants that are whole bucket widths after the start are always aligned. */
  lemma GridIsAligned(c: Shape, last: nat, now: nat)
    requires Usable(c) && c.start <= last <= now
    requires (last - c.start) % c.width == 0 && (now - c.start) % c.width == 0
    ensures Aligned(c, last, now)
  {
    AlignedIffOffset(c, last, now);
  }

  /** A slot of the new window is cleared exactly when fewer steps back than were taken. */
  lemma ClearedIff(c: Shape, steps: nat, now: nat, q: int)
    requires Usable(c) && Period(c, now) - c.n < q <= Period(c, now)
    ensures Cleared(c.n, Index(c, now), steps, Slot(q, c.n)) <==> Period(c, now) - q < steps
  {
    hide Slot, Behind;
    BehindDifference(Period(c, now), q, c.n);
  }

  lemma PreviousLap(q: int, n: nat)
    requires n > 0
    ensures Slot(q - n, n) == Slot(q, n)
  {
    var m := SlotMultiple(q, n);
    assert n * (m - 1) == n * m - n;
    ModIs(q - n, n, m - 1, Slot(q, n));
  }

  const TWO_SLOTS: Shape := Shape(0, 10, 2)

  lemma OneStepOfTwo(a: Bucket, b: Bucket, last: nat, now: nat)
    requires now >= last && (now - last) / 10 == 1
    ensures Rotated(TWO_SLOTS, Ring([a, b], last), now)
            == Ring(if (now / 10) % 2 == 0 then [EMPTY, b] else [a, EMPTY], now)
  {
    var r' := Rotated(TWO_SLOTS, Ring([a, b], last), now);
    var current := Index(TWO_SLOTS, now);
    BehindIs(2, current, 0);
    BehindIs(2, current, 1);
    assert r'.buckets == [r'.buckets[0], r'.buckets[1]];
  }

  /**
   Two slots of ten nanoseconds, observed at 19 and then at 30: whatever period 0 counted
   is still in the ring in period 3, when the window is periods 2 and 3.
   */
  lemma StaleExample(counted: Bucket)
    ensures Rotated(TWO_SLOTS, Rotated(TWO_SLOTS, Ring([counted, EMPTY], 0), 19), 30) == Ring([counted, EMPTY], 30)
    ensures Period(TWO_SLOTS, 9) == 0 && Period(TWO_SLOTS, 30) == 3
  {
    OneStepOfTwo(counted, EMPTY, 0, 19);
    OneStepOfTwo(counted, EMPTY, 19, 30);
  }

  /**
   Rotated at 19, marked at 21, rotated at 29: the rotation at 21 does nothing, and the
   one at 29 empties the slot that period 2, still running, was counting in.
   */
  lemma DroppedExample(counted: Bucket)
    ensures Rotated(TWO_SLOTS, Ring([EMPTY, EMPTY], 19), 21) == Ring([EMPTY, EMPTY], 19)
    ensures Index(TWO_SLOTS, 21) == 0 && Period(TWO_SLOTS, 21) == Period(TWO_SLOTS, 29) == 2
    ensures Rotated(TWO_SLOTS, Ring([counted, EMPTY], 19), 29) == Ring([EMPTY, EMPTY], 29)
  {
    OneStepOfTwo(counted, EMPTY, 19, 29);
  }
}
