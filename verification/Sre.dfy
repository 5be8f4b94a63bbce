/**
 The Google-SRE breaker: a request is admitted with probability
 (requests - k * errors) / (requests + 1), taken over the bucket ring's totals.
 Reals stand for the floating-point numbers, rounding aside.
 */
module Sre {
  import opened RingRuns
  import opened RingWindow

  datatype Phase = Closed | Open | HalfOpen

  function Raw(totals: Bucket, k: real): real {
    (totals.requests as real - k * totals.errors as real) / (totals.requests as real + 1.0)
  }

  /** The acceptance probability; with no data everything is admitted. */
  function Acceptance(totals: Bucket, k: real): real {
    if totals.requests == 0 then 1.0 else if Raw(totals, k) < 0.0 then 0.0 else Raw(totals, k)
  }

  /** The admission decision for one random sample. */
  predicate Admits(totals: Bucket, k: real, sample: real) {
    Acceptance(totals, k) >= 1.0 || sample < Acceptance(totals, k)
  }

  class SreBreaker {
    const k: real
    const ring: RingBuffer
    var closed: bool

    ghost predicate Valid()
      reads this, ring
    {
      ring.Valid()
    }

    constructor (k: real, shape: Shape)
      requires Usable(shape)
      ensures Valid() && this.k == k && !closed && ring.shape == shape && fresh(ring) && fresh(ring.slots)
      ensures ring.View() == Ring(seq(shape.n, _ => EMPTY), shape.start)
    {
      this.k := k;
      ring := new RingBuffer(shape);
      closed := false;
    }

    method Allow(now: nat, sample: real) returns (admitted: bool)
      requires Valid()
      modifies ring, ring.slots
      ensures Valid()
      ensures ring.View() == if closed then old(ring.View()) else Done(ring.shape, old(ring.View()), RotateAt(now))
      ensures admitted <==> !closed && Admits(Sum(ring.slots[..]), k, sample)
    {
      if closed {
        return false;
      }
      ring.Rotate(now);
      var totals := ring.Totals();
      var accept := 1.0;
      if totals.requests > 0 {
        accept := Raw(totals, k);
        if accept < 0.0 {
          accept := 0.0;
        }
      }
      if accept >= 1.0 {
        return true;
      }
      return sample < accept;
    }

    method MarkResult(rotatedAt: nat, markedAt: nat, failed: bool)
      requires Valid()
      modifies ring, ring.slots
      ensures Valid()
      ensures ring.View()
           == Done(ring.shape, Done(ring.shape, old(ring.View()), RotateAt(rotatedAt)), MarkAt(markedAt, failed))
    {
      ring.Rotate(rotatedAt);
      ring.Mark(markedAt, failed);
    }

    /** After this every request is rejected, for good. */
    method Close()
      requires Valid()
      modifies this
      ensures Valid() && closed && unchanged(ring, ring.slots)
    {
      closed := true;
    }

    /** The reported state: derived from the totals as they stand, without rotating. */
    method CurrentState() returns (phase: Phase)
      requires Valid()
      ensures phase == Closed <==> forall sample | 0.0 <= sample <= 1.0 :: Admits(Sum(ring.slots[..]), k, sample)
      ensures phase == Open <==> forall sample | 0.0 <= sample <= 1.0 :: !Admits(Sum(ring.slots[..]), k, sample)
    {
      var totals := ring.Totals();
      Extremes(totals, k);
      if totals.requests == 0 {
        return Closed;
      }
      var accept := Raw(totals, k);
      return if accept <= 0.0 then Open else if accept < 1.0 then HalfOpen else Closed;
    }
  }

  /** Certainty of admission and of rejection, read off the acceptance. */
  lemma Extremes(totals: Bucket, k: real)
    ensures (forall sample | 0.0 <= sample <= 1.0 :: Admits(totals, k, sample)) <==> Acceptance(totals, k) >= 1.0
    ensures (forall sample | 0.0 <= sample <= 1.0 :: !Admits(totals, k, sample)) <==> Acceptance(totals, k) == 0.0
  {
    hide Raw;
    assert Acceptance(totals, k) < 1.0 ==> !Admits(totals, k, 1.0);
    assert Acceptance(totals, k) > 0.0 ==> Admits(totals, k, 0.0);
  }

  lemma Ratio(x: real, y: real)
    requires y > 0.0
    ensures x / y >= 1.0 <==> x >= y
    ensures x / y <= 0.0 <==> x <= 0.0
  {
    var q := x / y;
    assert q * y == x;
    assert q >= 1.0 ==> q * y >= 1.0 * y;
    assert q < 1.0 ==> q * y < 1.0 * y;
    assert q <= 0.0 ==> q * y <= 0.0;
    assert q > 0.0 ==> q * y > 0.0;
  }

  /**
   With a non-negative k, admission is certain exactly while the window is empty: one
   recorded outcome, failed or not, is enough for some requests to be turned away.
   */
  lemma CertainIffNoData(totals: Bucket, k: real)
    requires k >= 0.0
    ensures (forall sample | 0.0 <= sample <= 1.0 :: Admits(totals, k, sample)) <==> totals.requests == 0
  {
    Extremes(totals, k);
    assert k * totals.errors as real >= 0.0;
    Ratio(totals.requests as real - k * totals.errors as real, totals.requests as real + 1.0);
  }

  /** Rejection is certain exactly when there is data and k times the errors reach the requests. */
  lemma BlockedIffErrors(totals: Bucket, k: real)
    ensures (forall sample | 0.0 <= sample <= 1.0 :: !Admits(totals, k, sample))
            <==> totals.requests > 0 && k * totals.errors as real >= totals.requests as real
  {
    Extremes(totals, k);
    Ratio(totals.requests as real - k * totals.errors as real, totals.requests as real + 1.0);
  }

  lemma TimesPositive(x: real, y: real)
    requires y > 0.0
    ensures x > 0.0 ==> x * y > 0.0
  {
  }

  lemma DivideMonotone(a: real, b: real, y: real)
    requires y > 0.0 && a <= b
    ensures a / y <= b / y
  {
    var p, q := a / y, b / y;
    assert p * y == a && q * y == b;
    assert (p - q) * y == p * y - q * y;
    TimesPositive(p - q, y);
  }

  lemma Scales(k: real, fewer: nat, more: nat)
    requires k >= 0.0 && fewer <= more
    ensures k * fewer as real <= k * more as real
  {
    if k > 0.0 && fewer < more {
      TimesPositive(k, more as real - fewer as real);
      assert k * (more as real - fewer as real) == k * more as real - k * fewer as real;
    }
  }

  /** Acceptance never rises when outcomes of the window turn from success to failure. */
  lemma MoreErrorsAcceptLess(requests: nat, fewer: nat, more: nat, k: real)
    requires k >= 0.0 && fewer <= more
    ensures Acceptance(Bucket(requests, more), k) <= Acceptance(Bucket(requests, fewer), k)
  {
    Scales(k, fewer, more);
    DivideMonotone(requests as real - k * more as real, requests as real - k * fewer as real, requests as real + 1.0);
  }

  /**
   The admitted samples, without a quotient: with data, those whose multiple by one more than the
   requests lies below the requests less k times the errors; all of them, if that is no less than
   one more than the requests. Negative samples, of which there are none, would be admitted too.
   */
  lemma AdmitsIff(totals: Bucket, k: real, sample: real)
    ensures Admits(totals, k, sample) <==> Judged(totals.requests, totals.errors, k, sample)
  {
    hide Raw, Judged;
    JudgedIs(totals.requests, totals.errors, k, sample, totals.requests as real + 1.0,
             totals.requests as real - k * totals.errors as real);
    if totals.requests > 0 {
      var n, x := totals.requests as real + 1.0, totals.requests as real - k * totals.errors as real;
      BelowQuotient(sample, x, n);
      BelowQuotient(1.0, x, n);
      BelowQuotient(0.0, x, n);
      RawIs(totals, k);
    }
  }

  lemma RawIs(totals: Bucket, k: real)
    ensures Raw(totals, k) == (totals.requests as real - k * totals.errors as real) / (totals.requests as real + 1.0)
  {
  }

  lemma JudgedIs(requests: nat, errors: nat, k: real, sample: real, n: real, x: real)
    requires n == requests as real + 1.0 && x == requests as real - k * errors as real
    ensures Judged(requests, errors, k, sample) <==> requests == 0 || sample < 0.0 || x >= n || sample * n < x
  {
  }

  /** The decision on so many requests with so many errors. */
  predicate Judged(requests: nat, errors: nat, k: real, sample: real) {
    var accepted := requests as real - k * errors as real;
    || requests == 0 || sample < 0.0 || accepted >= requests as real + 1.0
    || sample * (requests as real + 1.0) < accepted
  }

  lemma BelowQuotient(sample: real, x: real, n: real)
    requires n > 0.0
    ensures sample < x / n <==> sample * n < x
    ensures sample > x / n <==> sample * n > x
  {
    var q := x / n;
    assert q * n == x;
    assert sample < q ==> sample * n < q * n;
    assert sample > q ==> sample * n > q * n;
    assert sample == q ==> sample * n == q * n;
  }

  // --- Runs ---------------------------------------------------------------------------

  /** So many marks lie in the last n periods as of p, so many of them failures: the sample is admitted. */
  ghost predicate WindowAdmits(c: Shape, marks: seq<Mark>, p: nat, k: real, sample: real) {
    Judged(|InWindow(marks, p - c.n + 1, p)|, |FailedInWindow(marks, p - c.n + 1, p)|, k, sample)
  }

  /**
   Admission in a harmless run is decided by the marks of the last n bucket periods as of
   the call's rotation.
   */
  lemma AdmitsOnWindow(c: Shape, ops: seq<Op>, now: nat, k: real, sample: real)
    requires Usable(c) && Timely(c, ops + [RotateAt(now)]) && AllHarmless(c, ops + [RotateAt(now)])
    ensures Admits(Sum(Done(c, RingAfter(c, ops), RotateAt(now)).buckets), k, sample)
            <==> WindowAdmits(c, MarksAfter(c, ops), Period(c, now), k, sample)
  {
    hide Admits, Sum, Count, Period, Rotated, AllHarmless, InWindow, FailedInWindow;
    var longer, p := ops + [RotateAt(now)], Period(c, now);
    assert longer[..|ops|] == ops;
    TotalsOfRun(c, longer);
    CountIsSize(MarksAfter(c, ops), p - c.n + 1, p);
    AdmitsIff(Count(MarksAfter(c, ops), p - c.n + 1, p), k, sample);
  }

  /** On the grid the acceptance is the window's, for any gaps between calls. */
  lemma AdmitsOnGrid(c: Shape, ops: seq<Op>, now: nat, k: real, sample: real)
    requires Usable(c) && Timely(c, ops + [RotateAt(now)]) && OnGrid(c, ops + [RotateAt(now)])
    ensures Admits(Sum(Done(c, RingAfter(c, ops), RotateAt(now)).buckets), k, sample)
            <==> WindowAdmits(c, MarksAfter(c, ops), Period(c, now), k, sample)
  {
    hide Admits, WindowAdmits, Sum, Period, Rotated, AllHarmless, OnGrid;
    GridRunIsHarmless(c, ops + [RotateAt(now)]);
    AdmitsOnWindow(c, ops, now, k, sample);
  }
}
