/**
 What the bucket ring counts over whole runs of rotations, marks and resets, at any
 instants: exactly when its slots are a sliding window.
 */
module RingRuns {
  import opened RingWindow

  // --- What is in the ring --------------------------------------------------------

  predicate NoMark(marks: seq<Mark>, lo: int, hi: int) {
    forall i | 0 <= i < |marks| :: !(lo < marks[i].period <= hi)
  }

  predicate Past(marks: seq<Mark>, p: nat) {
    forall i | 0 <= i < |marks| :: marks[i].period <= p
  }

  predicate InSlot(m: Mark, n: nat, k: nat, after: int)
    requires n > 0
  {
    Slot(m.period, n) == k && m.period > after
  }

  /** The marks of later periods than that which share slot k. */
  function Kept(marks: seq<Mark>, n: nat, k: nat, after: int): Bucket
    requires n > 0
  {
    if marks == [] then EMPTY
    else
      var m := marks[|marks| - 1];
      Plus(Kept(marks[..|marks| - 1], n, k, after), if InSlot(m, n, k, after) then One(m.failed) else EMPTY)
  }

  /** The slots hold every mark of the last n periods as of the last rotation, and of any period since. */
  ghost predicate Tracks(c: Shape, r: Ring, marks: seq<Mark>) {
    && Fits(c, r)
    && forall k: nat | k < c.n :: Tracked(c, r, marks, k)
  }

  ghost predicate Tracked(c: Shape, r: Ring, marks: seq<Mark>, k: nat)
    requires Fits(c, r) && k < c.n
  {
    r.buckets[k] == Kept(marks, c.n, k, Period(c, r.lastRotate) - c.n)
  }

  lemma TracksFits(c: Shape, r: Ring, marks: seq<Mark>)
    requires Tracks(c, r, marks)
    ensures Fits(c, r)
  {
  }

  /** No mark of another period shares the slot with period q. */
  ghost predicate Alone(marks: seq<Mark>, n: nat, after: int, q: int)
    requires n > 0
  {
    forall i | 0 <= i < |marks| && InSlot(marks[i], n, Slot(q, n), after) :: marks[i].period == q
  }

  lemma {:induction false} KeptIffAlone(marks: seq<Mark>, n: nat, after: int, q: int)
    requires n > 0 && after < q
    ensures Kept(marks, n, Slot(q, n), after).requests >= Count(marks, q, q).requests
    ensures Kept(marks, n, Slot(q, n), after).requests == Count(marks, q, q).requests <==> Alone(marks, n, after, q)
    ensures Alone(marks, n, after, q) ==> Kept(marks, n, Slot(q, n), after) == Count(marks, q, q)
  {
    hide Slot;
    if marks != [] {
      var init, m := marks[..|marks| - 1], marks[|marks| - 1];
      KeptIffAlone(init, n, after, q);
      assert forall i | 0 <= i < |init| :: init[i] == marks[i];
      assert Alone(marks, n, after, q) <==>
        Alone(init, n, after, q) && (InSlot(m, n, Slot(q, n), after) ==> m.period == q);
    }
  }

  lemma {:induction false} CountEmptyIff(marks: seq<Mark>, q: int)
    ensures Count(marks, q, q).requests == 0 <==> NoMark(marks, q - 1, q)
    ensures Count(marks, q, q).errors <= Count(marks, q, q).requests
  {
    hide NoMark;
    if marks == [] {
      NothingMarked(q - 1, q);
    } else {
      CountEmptyIff(marks[..|marks| - 1], q);
      LastUnmarked(marks, q - 1, q);
    }
  }

  lemma NothingMarked(lo: int, hi: int)
    ensures NoMark([], lo, hi)
  {
  }

  lemma LastUnmarked(marks: seq<Mark>, lo: int, hi: int)
    requires marks != []
    ensures NoMark(marks, lo, hi) <==>
      NoMark(marks[..|marks| - 1], lo, hi) && !(lo < marks[|marks| - 1].period <= hi)
  {
    var init := marks[..|marks| - 1];
    assert forall i | 0 <= i < |init| :: init[i] == marks[i];
  }

  // --- One rotation -----------------------------------------------------------------

  function Min(a: nat, b: nat): nat {
    if a < b then a else b
  }

  /**
   What a rotation must find to leave a sliding window: no mark yet in the periods whose
   slots it clears, and none that has left the window in a slot it does not clear.
   */
  predicate Harmless(c: Shape, last: nat, marks: seq<Mark>, now: nat)
    requires Usable(c)
  {
    var p, s := Period(c, now), Steps(c, last, now);
    && NoMark(marks, p - Min(s, c.n), p)
    && (s < c.n ==> NoMark(marks, Period(c, last) - c.n, p - s - c.n))
  }

  /** One slot after a rotation: cleared, it is right if its period has no mark; kept, if its period is alone in it. */
  lemma RotatedSlot(c: Shape, r: Ring, marks: seq<Mark>, now: nat, q: int)
    requires Tracks(c, r, marks) && c.start <= r.lastRotate <= now
    requires Period(c, now) - c.n < q <= Period(c, now)
    ensures var s, b := Steps(c, r.lastRotate, now), Rotated(c, r, now).buckets[Slot(q, c.n)];
            if Period(c, now) - q < s
            then b == EMPTY && (b == Count(marks, q, q) <==> NoMark(marks, q - 1, q))
            else b == Kept(marks, c.n, Slot(q, c.n), Period(c, r.lastRotate) - c.n)
  {
    hide Period, Slot, Cleared, Count, Kept, NoMark, Index;
    ClearedIff(c, Steps(c, r.lastRotate, now), now, q);
    assert Tracked(c, r, marks, Slot(q, c.n));
    CountEmptyIff(marks, q);
  }

  lemma StepsBehind(c: Shape, last: nat, now: nat)
    requires Usable(c) && c.start <= last <= now
    ensures Period(c, last) <= Period(c, now)
    ensures Steps(c, last, now) in {Period(c, now) - Period(c, last), Period(c, now) - Period(c, last) - 1}
  {
    AlignedIffOffset(c, last, now);
    hide Period;
  }

  /** In a kept slot a period is alone exactly if the period a lap before it, when still remembered, has no mark. */
  lemma AloneIffLapEmpty(marks: seq<Mark>, n: nat, after: int, p: nat, kept: int, q: int)
    requires n > 0 && Past(marks, p) && p - n < q <= kept <= p && after < q
    requires NoMark(marks, after, kept - n)
    ensures Alone(marks, n, after, q)
  {
    hide Slot;
    forall i | 0 <= i < |marks| && InSlot(marks[i], n, Slot(q, n), after) ensures marks[i].period == q {
      var x := marks[i].period;
      if x > p - n {
        SameSlotSamePeriod(p, n, x, q);
      } else {
        PreviousLap(x + n, n);
        SameSlotSamePeriod(p, n, x + n, q);
      }
    }
  }

  lemma NotAlone(marks: seq<Mark>, n: nat, after: int, i: nat)
    requires n > 0 && i < |marks| && marks[i].period > after
    ensures !Alone(marks, n, after, marks[i].period + n)
  {
    hide Slot;
    PreviousLap(marks[i].period + n, n);
    assert InSlot(marks[i], n, Slot(marks[i].period + n, n), after);
  }

  lemma HarmlessIsExact(c: Shape, r: Ring, marks: seq<Mark>, now: nat)
    requires Tracks(c, r, marks) && c.start <= r.lastRotate <= now && Past(marks, Period(c, now))
    requires Harmless(c, r.lastRotate, marks, now)
    ensures Exact(Rotated(c, r, now).buckets, marks, Period(c, now))
  {
    hide Period, Steps, Slot, Kept, Count, Rotated;
    var p, s, n, after := Period(c, now), Steps(c, r.lastRotate, now), c.n, Period(c, r.lastRotate) - c.n;
    StepsBehind(c, r.lastRotate, now);
    forall q: int | p - n < q <= p ensures Holds(Rotated(c, r, now).buckets, marks, q) {
      RotatedSlot(c, r, marks, now, q);
      if p - q >= s {
        AloneIffLapEmpty(marks, n, after, p, p - s, q);
        KeptIffAlone(marks, n, after, q);
      }
    }
  }

  /** Clearing the slot of a period that already has a mark loses the mark. */
  lemma DroppedMark(c: Shape, r: Ring, marks: seq<Mark>, now: nat, i: nat)
    requires Tracks(c, r, marks) && c.start <= r.lastRotate <= now && i < |marks|
    requires Period(c, now) - Min(Steps(c, r.lastRotate, now), c.n) < marks[i].period <= Period(c, now)
    ensures !Holds(Rotated(c, r, now).buckets, marks, marks[i].period)
  {
    hide Period, Steps, Slot, Kept, Count, Rotated;
    RotatedSlot(c, r, marks, now, marks[i].period);
  }

  /** A kept slot that holds a mark from the lap before counts it for the new period. */
  lemma StaleMark(c: Shape, r: Ring, marks: seq<Mark>, now: nat, i: nat)
    requires Tracks(c, r, marks) && c.start <= r.lastRotate <= now && i < |marks|
    requires Steps(c, r.lastRotate, now) < c.n
    requires Period(c, r.lastRotate) - c.n < marks[i].period <= Period(c, now) - Steps(c, r.lastRotate, now) - c.n
    ensures Period(c, now) - c.n < marks[i].period + c.n <= Period(c, now)
    ensures !Holds(Rotated(c, r, now).buckets, marks, marks[i].period + c.n)
  {
    hide Period, Steps, Slot, Kept, Count, Rotated;
    var n, q, after := c.n, marks[i].period + c.n, Period(c, r.lastRotate) - c.n;
    StepsBehind(c, r.lastRotate, now);
    RotatedSlot(c, r, marks, now, q);
    KeptIffAlone(marks, n, after, q);
    NotAlone(marks, n, after, i);
  }

  /** Whether rotating leaves every slot with the marks of its period among the last n. */
  lemma RotatedExactIff(c: Shape, r: Ring, marks: seq<Mark>, now: nat)
    requires Tracks(c, r, marks) && c.start <= r.lastRotate <= now && Past(marks, Period(c, now))
    ensures Exact(Rotated(c, r, now).buckets, marks, Period(c, now)) <==> Harmless(c, r.lastRotate, marks, now)
  {
    TracksFits(c, r, marks);
    hide Period, Steps, Holds, Rotated, Tracks;
    if Harmless(c, r.lastRotate, marks, now) {
      HarmlessIsExact(c, r, marks, now);
    } else if !NoMark(marks, Period(c, now) - Min(Steps(c, r.lastRotate, now), c.n), Period(c, now)) {
      var i: nat :|
        i < |marks| && Period(c, now) - Min(Steps(c, r.lastRotate, now), c.n) < marks[i].period <= Period(c, now);
      DroppedMark(c, r, marks, now, i);
    } else {
      var i: nat :| i < |marks| &&
        Period(c, r.lastRotate) - c.n < marks[i].period <= Period(c, now) - Steps(c, r.lastRotate, now) - c.n;
      StaleMark(c, r, marks, now, i);
    }
  }

  // --- What the totals show of it -------------------------------------------------------

  lemma {:induction false} SumAtMost(a: seq<Bucket>, b: seq<Bucket>)
    requires |a| == |b| && forall k | 0 <= k < |a| :: a[k].requests <= b[k].requests
    ensures Sum(a).requests <= Sum(b).requests
    ensures Sum(a).requests == Sum(b).requests ==> forall k | 0 <= k < |a| :: a[k].requests == b[k].requests
  {
    if a != [] {
      SumAtMost(a[..|a| - 1], b[..|b| - 1]);
      assert forall k | 0 <= k < |a| - 1 :: a[..|a| - 1][k] == a[k] && b[..|b| - 1][k] == b[k];
    }
  }

  lemma SlotRequests(c: Shape, r: Ring, marks: seq<Mark>, now: nat, q: int)
    requires Tracks(c, r, marks) && c.start <= r.lastRotate <= now && Past(marks, Period(c, now))
    requires Period(c, now) - c.n < q <= Period(c, now)
    ensures var b := Rotated(c, r, now).buckets;
            b[Slot(q, c.n)].requests == Count(marks, q, q).requests ==> Holds(b, marks, q)
    ensures var s, p := Steps(c, r.lastRotate, now), Period(c, now);
            var b, w := Rotated(c, r, now).buckets[Slot(q, c.n)].requests, Count(marks, q, q).requests;
            && (s == p - Period(c, r.lastRotate) || s >= c.n ==> b <= w)
            && (s != p - Period(c, r.lastRotate) && s < c.n && Past(marks, Period(c, r.lastRotate) + 1) ==> b >= w)
  {
    hide Period, Steps, Slot, Kept, Count, Rotated;
    var p, s, n, after := Period(c, now), Steps(c, r.lastRotate, now), c.n, Period(c, r.lastRotate) - c.n;
    StepsBehind(c, r.lastRotate, now);
    RotatedSlot(c, r, marks, now, q);
    CountEmptyIff(marks, q);
    if p - q >= s {
      KeptIffAlone(marks, n, after, q);
      if s == p - Period(c, r.lastRotate) {
        AloneIffLapEmpty(marks, n, after, p, p - s, q);
      }
    }
  }

  lemma HoldsEverywhere(b: seq<Bucket>, marks: seq<Mark>, p: nat)
    requires |b| > 0 && Past(marks, p) && forall k: nat | k < |b| :: Holds(b, marks, PeriodOf(p, |b|, k))
    ensures Exact(b, marks, p)
  {
    hide Slot, Holds;
    forall q: int | p - |b| < q <= p ensures Holds(b, marks, q) {
      SameSlotSamePeriod(p, |b|, q, PeriodOf(p, |b|, Slot(q, |b|)));
    }
  }

  /** One slot of a rotated ring against the slot of a window. */
  ghost predicate Compared(b: seq<Bucket>, marks: seq<Mark>, p: nat, k: nat, atMost: bool)
    requires k < |b|
  {
    var q := PeriodOf(p, |b|, k);
    var w := Count(marks, q, q).requests;
    && (b[k].requests == w ==> Holds(b, marks, q))
    && if atMost then b[k].requests <= w else b[k].requests >= w
  }

  lemma TotalsTell(b: seq<Bucket>, marks: seq<Mark>, p: nat, atMost: bool)
    requires |b| > 0 && Past(marks, p) && forall k: nat | k < |b| :: Compared(b, marks, p, k, atMost)
    ensures Sum(b) == Count(marks, p - |b| + 1, p) <==> Exact(b, marks, p)
  {
    hide PeriodOf, Count, Holds, Sum, Exact;
    if Exact(b, marks, p) {
      TotalsAreWindow(b, marks, p);
    }
    var w := Spread(marks, p, |b|);
    SpreadSum(marks, p, |b|);
    if Sum(b) == Sum(w) {
      assert forall k: nat | k < |b| ::
          Compared(b, marks, p, k, atMost) && w[k] == Count(marks, PeriodOf(p, |b|, k), PeriodOf(p, |b|, k));
      if atMost {
        SumAtMost(b, w);
      } else {
        SumAtMost(w, b);
      }
      HoldsEverywhere(b, marks, p);
    }
  }

  /**
   The totals show it: if no mark is more than a period ahead of the last rotation, the
   totals after a rotation are those of the window if and only if the rotation is harmless.
   */
  lemma RotatedTotalsIff(c: Shape, r: Ring, marks: seq<Mark>, now: nat)
    requires Tracks(c, r, marks) && c.start <= r.lastRotate <= now
    requires Past(marks, Period(c, now)) && Past(marks, Period(c, r.lastRotate) + 1)
    ensures Sum(Rotated(c, r, now).buckets) == Count(marks, Period(c, now) - c.n + 1, Period(c, now))
            <==> Harmless(c, r.lastRotate, marks, now)
  {
    TracksFits(c, r, marks);
    hide Period, Steps, Slot, Count, Rotated, Tracks, Harmless, Sum, Exact, Holds;
    var p, s, n := Period(c, now), Steps(c, r.lastRotate, now), c.n;
    var b, atMost := Rotated(c, r, now).buckets, s == p - Period(c, r.lastRotate) || s >= n;
    RotatedExactIff(c, r, marks, now);
    forall k: nat | k < n ensures Compared(b, marks, p, k, atMost) {
      SlotRequests(c, r, marks, now, PeriodOf(p, n, k));
    }
    TotalsTell(b, marks, p, atMost);
  }

  /** An exact ring tracks its marks. */
  lemma ExactTracks(c: Shape, r: Ring, marks: seq<Mark>)
    requires Fits(c, r) && Exact(r.buckets, marks, Period(c, r.lastRotate))
    ensures Tracks(c, r, marks)
  {
    hide Period, Slot, Count, Kept;
    var p, n, after := Period(c, r.lastRotate), c.n, Period(c, r.lastRotate) - c.n;
    forall k: nat | k < n ensures Tracked(c, r, marks, k) {
      var q := PeriodOf(p, n, k);
      assert Holds(r.buckets, marks, q);
      AloneIffLapEmpty(marks, n, after, p, p, q);
      KeptIffAlone(marks, n, after, q);
    }
  }

  /** A harmless rotation keeps the ring tracking. */
  lemma RotatedTracks(c: Shape, r: Ring, marks: seq<Mark>, now: nat)
    requires Tracks(c, r, marks) && c.start <= r.lastRotate <= now && Past(marks, Period(c, now))
    requires Harmless(c, r.lastRotate, marks, now)
    ensures Tracks(c, Rotated(c, r, now), marks)
  {
    RotatedExactIff(c, r, marks, now);
    hide Exact, Tracks, Period, Harmless, Cleared, Index;
    if Steps(c, r.lastRotate, now) > 0 {
      ExactTracks(c, Rotated(c, r, now), marks);
    }
  }

  // --- Marks and resets ---------------------------------------------------------------

  /** A mark is tracked wherever it falls. */
  lemma MarkedTracks(c: Shape, r: Ring, marks: seq<Mark>, now: nat, failed: bool)
    requires Tracks(c, r, marks) && c.start <= r.lastRotate <= now
    ensures Tracks(c, Marked(c, r, now, failed), marks + [Mark(Period(c, now), failed)])
  {
    StepsBehind(c, r.lastRotate, now);
    hide Period, Slot;
    var more := marks + [Mark(Period(c, now), failed)];
    assert more[..|marks|] == marks;
    forall k: nat | k < c.n ensures Tracked(c, Marked(c, r, now, failed), more, k) {
      assert Tracked(c, r, marks, k);
    }
  }

  /** A tracking ring is the window as of period p exactly when none of its marks has left it by then. */
  lemma TracksExactIff(c: Shape, r: Ring, marks: seq<Mark>, p: nat)
    requires Tracks(c, r, marks) && Period(c, r.lastRotate) <= p && Past(marks, p)
    ensures Exact(r.buckets, marks, p) <==> NoMark(marks, Period(c, r.lastRotate) - c.n, p - c.n)
  {
    hide Period, Slot, Kept, Count;
    var n, after := c.n, Period(c, r.lastRotate) - c.n;
    if NoMark(marks, after, p - n) {
      forall q: int | p - n < q <= p ensures Holds(r.buckets, marks, q) {
        assert Tracked(c, r, marks, Slot(q, n));
        AloneIffLapEmpty(marks, n, after, p, p, q);
        KeptIffAlone(marks, n, after, q);
      }
    }
    if Exact(r.buckets, marks, p) {
      forall i: nat | i < |marks| && after < marks[i].period <= p - n ensures false {
        var q := PeriodOf(p, n, Slot(marks[i].period, n));
        assert Holds(r.buckets, marks, q);
        assert InSlot(marks[i], n, Slot(q, n), after) && Tracked(c, r, marks, Slot(q, n));
        KeptIffAlone(marks, n, after, q);
      }
    }
  }

  lemma ResetTracks(c: Shape, r: Ring)
    requires Fits(c, r)
    ensures Tracks(c, Reset(c, r), [])
  {
  }

  // --- Runs -----------------------------------------------------------------------------

  /** What a breaker does to its ring: rotate, mark, or start over after a recovery. */
  datatype Op = RotateAt(now: nat) | MarkAt(now: nat, failed: bool) | ResetAt(now: nat)

  function Done(c: Shape, r: Ring, op: Op): (r': Ring)
    requires Fits(c, r)
    ensures Fits(c, r')
  {
    match op
    case RotateAt(now) => Rotated(c, r, now)
    case MarkAt(now, failed) => Marked(c, r, now, failed)
    case ResetAt(_) => Reset(c, r)
  }

  /** The ring after a run from construction. */
  function RingAfter(c: Shape, ops: seq<Op>): (r: Ring)
    requires Usable(c)
    ensures Fits(c, r)
  {
    if ops == [] then Ring(seq(c.n, _ => EMPTY), c.start)
    else Done(c, RingAfter(c, ops[..|ops| - 1]), ops[|ops| - 1])
  }

  /** The marks of a run since its last reset. */
  function MarksAfter(c: Shape, ops: seq<Op>): seq<Mark>
    requires Usable(c)
  {
    if ops == [] then []
    else
      var marks := MarksAfter(c, ops[..|ops| - 1]);
      match ops[|ops| - 1]
      case RotateAt(_) => marks
      case MarkAt(now, failed) => marks + [Mark(Period(c, now), failed)]
      case ResetAt(_) => []
  }

  /** The clock does not run backwards. */
  ghost predicate Timely(c: Shape, ops: seq<Op>) {
    && (forall i | 0 <= i < |ops| :: c.start <= ops[i].now)
    && forall i, j | 0 <= i <= j < |ops| :: ops[i].now <= ops[j].now
  }

  /** After its i-th step the slots are exactly the marks of the last n periods as of that step's instant. */
  ghost predicate ExactAt(c: Shape, ops: seq<Op>, i: nat)
    requires Usable(c) && i < |ops|
  {
    Exact(RingAfter(c, ops[..i + 1]).buckets, MarksAfter(c, ops[..i + 1]), Period(c, ops[i].now))
  }

  /** The condition on the i-th step: clocks and marks only. */
  ghost predicate HarmlessAt(c: Shape, ops: seq<Op>, i: nat)
    requires Usable(c) && i < |ops|
  {
    var last, marks := RingAfter(c, ops[..i]).lastRotate, MarksAfter(c, ops[..i]);
    match ops[i]
    case RotateAt(now) => Harmless(c, last, marks, now)
    case MarkAt(now, _) => NoMark(marks, Period(c, last) - c.n, Period(c, now) - c.n)
    case ResetAt(_) => true
  }

  lemma TimelyPrefix(c: Shape, ops: seq<Op>, n: nat)
    requires Timely(c, ops) && n <= |ops|
    ensures Timely(c, ops[..n])
  {
  }

  lemma {:induction false} RunIsPast(c: Shape, ops: seq<Op>, now: nat)
    requires Usable(c) && Timely(c, ops) && c.start <= now && (ops != [] ==> ops[|ops| - 1].now <= now)
    ensures c.start <= RingAfter(c, ops).lastRotate <= now && Past(MarksAfter(c, ops), Period(c, now))
  {
    if ops != [] {
      var n := |ops| - 1;
      assert n > 0 ==> ops[n - 1].now <= ops[n].now;
      TimelyPrefix(c, ops, n);
      RunIsPast(c, ops[..n], ops[n].now);
      StepsBehind(c, ops[n].now, now);
      hide Period, Cleared, Index;
    }
  }

  lemma LastStep(c: Shape, ops: seq<Op>)
    requires Usable(c) && Timely(c, ops) && ops != []
    requires Tracks(c, RingAfter(c, ops[..|ops| - 1]), MarksAfter(c, ops[..|ops| - 1]))
    ensures ExactAt(c, ops, |ops| - 1) <==> HarmlessAt(c, ops, |ops| - 1)
    ensures HarmlessAt(c, ops, |ops| - 1) ==> Tracks(c, RingAfter(c, ops), MarksAfter(c, ops))
  {
    hide Exact, Tracks, Period, Harmless, Rotated, Marked, Reset;
    var n := |ops| - 1;
    var before, marks, now := RingAfter(c, ops[..n]), MarksAfter(c, ops[..n]), ops[n].now;
    assert ops[..n + 1] == ops;
    assert n > 0 ==> ops[n - 1].now <= ops[n].now;
    TimelyPrefix(c, ops, n);
    RunIsPast(c, ops[..n], now);
    RunIsPast(c, ops, now);
    StepsBehind(c, before.lastRotate, now);
    match ops[n]
    case RotateAt(_) =>
      RotatedExactIff(c, before, marks, now);
      if Harmless(c, before.lastRotate, marks, now) {
        RotatedTracks(c, before, marks, now);
      }
    case MarkAt(_, failed) =>
      MarkedTracks(c, before, marks, now, failed);
      MarkedExactIff(c, before, marks, now, failed);
    case ResetAt(_) =>
      ResetTracks(c, before);
      NothingIsExact(c, before, Period(c, now));
  }

  lemma MarkedExactIff(c: Shape, r: Ring, marks: seq<Mark>, now: nat, failed: bool)
    requires Tracks(c, r, marks) && c.start <= r.lastRotate <= now && Past(marks, Period(c, now))
    ensures Exact(Marked(c, r, now, failed).buckets, marks + [Mark(Period(c, now), failed)], Period(c, now))
            <==> NoMark(marks, Period(c, r.lastRotate) - c.n, Period(c, now) - c.n)
  {
    MarkedTracks(c, r, marks, now, failed);
    StepsBehind(c, r.lastRotate, now);
    hide Exact, Tracks, Period, Slot;
    var more := marks + [Mark(Period(c, now), failed)];
    TracksExactIff(c, Marked(c, r, now, failed), more, Period(c, now));
    assert forall i | 0 <= i < |marks| :: more[i] == marks[i];
  }

  lemma NothingIsExact(c: Shape, r: Ring, p: nat)
    requires Fits(c, r)
    ensures Exact(Reset(c, r).buckets, [], p)
  {
    forall q: int | p - c.n < q <= p ensures Holds(Reset(c, r).buckets, [], q) {
      assert Count([], q, q) == EMPTY;
    }
  }

  lemma StartTracks(c: Shape)
    requires Usable(c)
    ensures Tracks(c, RingAfter(c, []), MarksAfter(c, []))
  {
  }

  ghost predicate AllHarmless(c: Shape, ops: seq<Op>)
    requires Usable(c)
  {
    forall i | 0 <= i < |ops| :: HarmlessAt(c, ops, i)
  }

  ghost predicate AllExact(c: Shape, ops: seq<Op>)
    requires Usable(c)
  {
    forall i | 0 <= i < |ops| :: ExactAt(c, ops, i)
  }

  /**
   Over every run the slots are a sliding window after each of its steps if and only if
   each step is harmless.
   */
  lemma {:induction false} RunExactIff(c: Shape, ops: seq<Op>)
    requires Usable(c) && Timely(c, ops)
    ensures AllExact(c, ops) <==> AllHarmless(c, ops)
    ensures AllHarmless(c, ops) ==> Tracks(c, RingAfter(c, ops), MarksAfter(c, ops))
  {
    hide Tracks, ExactAt, HarmlessAt;
    if ops == [] {
      StartTracks(c);
    } else {
      var n := |ops| - 1;
      var init := ops[..n];
      TimelyPrefix(c, ops, n);
      RunExactIff(c, init);
      forall i | 0 <= i < n
        ensures ExactAt(c, init, i) == ExactAt(c, ops, i) && HarmlessAt(c, init, i) == HarmlessAt(c, ops, i)
      {
        StepOfPrefix(c, ops, n, i);
      }
      assert AllHarmless(c, ops) <==> AllHarmless(c, init) && HarmlessAt(c, ops, n);
      assert AllExact(c, ops) <==> AllExact(c, init) && ExactAt(c, ops, n);
      if AllHarmless(c, init) {
        LastStep(c, ops);
      }
    }
  }

  lemma StepOfPrefix(c: Shape, ops: seq<Op>, n: nat, i: nat)
    requires Usable(c) && i < n <= |ops|
    ensures ExactAt(c, ops[..n], i) == ExactAt(c, ops, i) && HarmlessAt(c, ops[..n], i) == HarmlessAt(c, ops, i)
  {
    hide Exact, Harmless, RingAfter, MarksAfter, NoMark;
    assert ops[..n][..i] == ops[..i] && ops[..n][..i + 1] == ops[..i + 1];
  }

  /** In a harmless run the totals after any step are the marks of the last n periods as of its instant. */
  lemma TotalsOfRun(c: Shape, ops: seq<Op>)
    requires Usable(c) && Timely(c, ops) && AllHarmless(c, ops) && ops != []
    ensures var p := Period(c, ops[|ops| - 1].now);
            Sum(RingAfter(c, ops).buckets) == Count(MarksAfter(c, ops), p - c.n + 1, p)
  {
    hide Exact, AllHarmless, Sum, Count, Period, RingAfter, MarksAfter;
    RunExactIff(c, ops);
    assert ExactAt(c, ops, |ops| - 1);
    assert ops[..|ops|] == ops;
    TotalsAreWindow(RingAfter(c, ops).buckets, MarksAfter(c, ops), Period(c, ops[|ops| - 1].now));
  }

  // --- Runs by their totals -----------------------------------------------------------------

  /** Each mark follows a rotation in the same period, as when the two clock reads of a mark are close. */
  ghost predicate Prompt(c: Shape, ops: seq<Op>)
    requires Usable(c)
  {
    forall i | 0 <= i < |ops| && ops[i].MarkAt? ::
      i > 0 && ops[i - 1].RotateAt? && Period(c, ops[i].now) == Period(c, ops[i - 1].now)
  }

  ghost predicate TotalsAt(c: Shape, ops: seq<Op>, i: nat)
    requires Usable(c) && i < |ops|
  {
    var p := Period(c, ops[i].now);
    Sum(RingAfter(c, ops[..i + 1]).buckets) == Count(MarksAfter(c, ops[..i + 1]), p - c.n + 1, p)
  }

  lemma PromptPrefix(c: Shape, ops: seq<Op>, n: nat)
    requires Usable(c) && Prompt(c, ops) && n <= |ops|
    ensures Prompt(c, ops[..n])
  {
    hide Period;
  }

  /** The period of a rotation is at most one ahead of the rotation instant it leaves. */
  lemma OneAhead(c: Shape, r: Ring, now: nat)
    requires Fits(c, r) && c.start <= r.lastRotate <= now
    ensures Period(c, r.lastRotate) <= Period(c, Rotated(c, r, now).lastRotate)
    ensures Period(c, now) <= Period(c, Rotated(c, r, now).lastRotate) + 1
  {
    StepsBehind(c, r.lastRotate, now);
    LastOfRotated(c, r, now);
    hide Period, Rotated;
  }

  lemma {:induction false} PromptMarksAhead(c: Shape, ops: seq<Op>)
    requires Usable(c) && Timely(c, ops) && Prompt(c, ops)
    ensures Past(MarksAfter(c, ops), Period(c, RingAfter(c, ops).lastRotate) + 1)
    decreases |ops|
  {
    hide Rotated, Marked, Period, Steps;
    if ops != [] {
      var n := |ops| - 1;
      var init := ops[..n];
      TimelyPrefix(c, ops, n);
      PromptPrefix(c, ops, n);
      PromptMarksAhead(c, init);
      RunIsPast(c, init, ops[n].now) by { assert n > 0 ==> ops[n - 1].now <= ops[n].now; }
      if ops[n].RotateAt? {
        OneAhead(c, RingAfter(c, init), ops[n].now);
      } else if ops[n].MarkAt? {
        var before := ops[..n - 1];
        assert init[..n - 1] == before && init[n - 1] == ops[n - 1];
        TimelyPrefix(c, ops, n - 1);
        RunIsPast(c, before, ops[n - 1].now) by { assert n > 1 ==> ops[n - 2].now <= ops[n - 1].now; }
        OneAhead(c, RingAfter(c, before), ops[n - 1].now);
        MarkedLast(c, RingAfter(c, init), ops[n].now, ops[n].failed);
      }
    }
  }

  lemma MarkedLast(c: Shape, r: Ring, now: nat, failed: bool)
    requires Fits(c, r)
    ensures Marked(c, r, now, failed).lastRotate == r.lastRotate
  {
  }

  lemma PromptMarkIsHarmless(c: Shape, ops: seq<Op>, i: nat)
    requires Usable(c) && Timely(c, ops) && Prompt(c, ops)
    requires 0 < i < |ops| && ops[i].MarkAt? && HarmlessAt(c, ops, i - 1)
    ensures HarmlessAt(c, ops, i)
  {
    hide Rotated, Period;
    var before := ops[..i - 1];
    assert ops[..i][..i - 1] == before && ops[..i][i - 1] == ops[i - 1];
    LastOfRotated(c, RingAfter(c, before), ops[i - 1].now);
  }

  /** The last step of a run harmless so far. */
  lemma LastTotals(c: Shape, ops: seq<Op>)
    requires Usable(c) && Timely(c, ops) && Prompt(c, ops) && ops != [] && AllHarmless(c, ops[..|ops| - 1])
    ensures TotalsAt(c, ops, |ops| - 1) <==> HarmlessAt(c, ops, |ops| - 1)
  {
    hide Rotated, Period, Sum, Count, Exact, Harmless, Tracks;
    var n := |ops| - 1;
    var init := ops[..n];
    assert ops[..n + 1] == ops;
    TimelyPrefix(c, ops, n);
    PromptPrefix(c, ops, n);
    RunExactIff(c, init);
    LastStep(c, ops);
    RunIsPast(c, init, ops[n].now) by { assert n > 0 ==> ops[n - 1].now <= ops[n].now; }
    PromptMarksAhead(c, init);
    match ops[n]
    case RotateAt(now) => RotatedTotalsIff(c, RingAfter(c, init), MarksAfter(c, init), now);
    case MarkAt(_, _) =>
      StepOfPrefix(c, ops, n, n - 1);
      PromptMarkIsHarmless(c, ops, n);
      TotalsAreWindow(RingAfter(c, ops).buckets, MarksAfter(c, ops), Period(c, ops[n].now));
    case ResetAt(now) =>
      TotalsAreWindow(RingAfter(c, ops).buckets, MarksAfter(c, ops), Period(c, now));
  }

  /**
   Over every run with prompt marks, the totals are the marks of the last n periods after
   each of its steps if and only if each step is harmless.
   */
  lemma {:induction false} RunTotalsIff(c: Shape, ops: seq<Op>)
    requires Usable(c) && Timely(c, ops) && Prompt(c, ops)
    ensures (forall i | 0 <= i < |ops| :: TotalsAt(c, ops, i)) <==> AllHarmless(c, ops)
  {
    hide TotalsAt, HarmlessAt;
    if ops != [] {
      var n := |ops| - 1;
      var init := ops[..n];
      TimelyPrefix(c, ops, n);
      PromptPrefix(c, ops, n);
      RunTotalsIff(c, init);
      forall i | 0 <= i < n
        ensures TotalsAt(c, init, i) == TotalsAt(c, ops, i) && HarmlessAt(c, init, i) == HarmlessAt(c, ops, i)
      {
        StepOfPrefix(c, ops, n, i);
        TotalsOfPrefix(c, ops, n, i);
      }
      assert AllHarmless(c, ops) <==> AllHarmless(c, init) && HarmlessAt(c, ops, n);
      if AllHarmless(c, init) {
        LastTotals(c, ops);
      }
    }
  }

  lemma TotalsOfPrefix(c: Shape, ops: seq<Op>, n: nat, i: nat)
    requires Usable(c) && i < n <= |ops|
    ensures TotalsAt(c, ops[..n], i) == TotalsAt(c, ops, i)
  {
    hide Sum, Count, RingAfter, MarksAfter;
    assert ops[..n][..i + 1] == ops[..i + 1];
  }

  // --- Instants on the grid ---------------------------------------------------------------

  /** Rotations that cross as many boundaries as they take steps, or clear everything; marks in the rotated period. */
  ghost predicate AlignedOps(c: Shape, ops: seq<Op>)
    requires Usable(c)
  {
    forall i | 0 <= i < |ops| :: AlignedAt(c, ops, i)
  }

  ghost predicate AlignedAt(c: Shape, ops: seq<Op>, i: nat)
    requires Usable(c) && i < |ops|
  {
    var last := RingAfter(c, ops[..i]).lastRotate;
    match ops[i]
    case RotateAt(now) => Aligned(c, last, now)
    case MarkAt(now, _) => Period(c, now) == Period(c, last)
    case ResetAt(_) => true
  }

  lemma AlignedIsHarmless(c: Shape, last: nat, marks: seq<Mark>, now: nat)
    requires Usable(c) && Aligned(c, last, now) && Past(marks, Period(c, last))
    ensures Harmless(c, last, marks, now)
  {
    hide Period, Steps;
  }

  lemma {:induction false} AlignedStaysPast(c: Shape, ops: seq<Op>)
    requires Usable(c) && AlignedOps(c, ops)
    ensures Past(MarksAfter(c, ops), Period(c, RingAfter(c, ops).lastRotate))
  {
    if ops != [] {
      var n := |ops| - 1;
      var init := ops[..n];
      forall i | 0 <= i < n ensures AlignedAt(c, init, i) {
        assert AlignedAt(c, ops, i) && init[..i] == ops[..i];
      }
      AlignedStaysPast(c, init);
      assert AlignedAt(c, ops, n);
      hide Period, Cleared, Index;
    }
  }

  /** Aligned runs are harmless, for any gaps. */
  lemma AlignedRunIsHarmless(c: Shape, ops: seq<Op>)
    requires Usable(c) && AlignedOps(c, ops)
    ensures AllHarmless(c, ops)
  {
    forall i | 0 <= i < |ops| ensures HarmlessAt(c, ops, i) {
      forall j | 0 <= j < i ensures AlignedAt(c, ops[..i], j) {
        assert AlignedAt(c, ops, j) && ops[..i][..j] == ops[..j];
      }
      AlignedStaysPast(c, ops[..i]);
      assert AlignedAt(c, ops, i);
      hide Harmless, Period, RingAfter, MarksAfter, Aligned;
      if ops[i].RotateAt? {
        AlignedIsHarmless(c, RingAfter(c, ops[..i]).lastRotate, MarksAfter(c, ops[..i]), ops[i].now);
      }
    }
  }

  /** An instant a whole number of bucket widths after the start. */
  predicate WholeWidths(c: Shape, now: nat)
    requires Usable(c) && c.start <= now
  {
    (now - c.start) % c.width == 0
  }

  /** Rotations on whole bucket widths after the start, and prompt marks. */
  ghost predicate OnGrid(c: Shape, ops: seq<Op>)
    requires Usable(c) && Timely(c, ops)
  {
    Prompt(c, ops) && forall i | 0 <= i < |ops| && ops[i].RotateAt? :: WholeWidths(c, ops[i].now)
  }

  lemma {:induction false} LastRotateOnGrid(c: Shape, ops: seq<Op>)
    requires Usable(c) && Timely(c, ops)
    requires forall i | 0 <= i < |ops| && ops[i].RotateAt? :: WholeWidths(c, ops[i].now)
    ensures c.start <= RingAfter(c, ops).lastRotate && WholeWidths(c, RingAfter(c, ops).lastRotate)
  {
    if ops != [] {
      var n := |ops| - 1;
      TimelyPrefix(c, ops, n);
      assert forall i | 0 <= i < n :: ops[..n][i] == ops[i];
      LastRotateOnGrid(c, ops[..n]);
      LastOfRotated(c, RingAfter(c, ops[..n]), ops[n].now);
      hide Rotated, WholeWidths, Steps;
    }
  }

  lemma LastOfRotated(c: Shape, r: Ring, now: nat)
    requires Fits(c, r)
    ensures Rotated(c, r, now).lastRotate == if Steps(c, r.lastRotate, now) == 0 then r.lastRotate else now
  {
  }

  lemma RotatedPeriod(c: Shape, r: Ring, now: nat)
    requires Fits(c, r) && c.start <= r.lastRotate <= now && WholeWidths(c, r.lastRotate) && WholeWidths(c, now)
    ensures Period(c, Rotated(c, r, now).lastRotate) == Period(c, now)
  {
    AlignedIffOffset(c, r.lastRotate, now);
    hide Period, Cleared, Index;
  }

  /** Runs on the grid are harmless: there the ring is a sliding window, for any gaps between calls. */
  lemma GridRunIsHarmless(c: Shape, ops: seq<Op>)
    requires Usable(c) && Timely(c, ops) && OnGrid(c, ops)
    ensures AllHarmless(c, ops)
  {
    forall i | 0 <= i < |ops| ensures AlignedAt(c, ops, i) {
      GridStepIsAligned(c, ops, i);
    }
    AlignedRunIsHarmless(c, ops);
  }

  lemma GridStepIsAligned(c: Shape, ops: seq<Op>, i: nat)
    requires Usable(c) && Timely(c, ops) && OnGrid(c, ops) && i < |ops|
    ensures AlignedAt(c, ops, i)
  {
    hide Period, Aligned, Rotated;
    var now := ops[i].now;
    TimelyPrefix(c, ops, i);
    LastRotateOnGrid(c, ops[..i]);
    RunIsPast(c, ops[..i], now);
    if ops[i].RotateAt? {
      GridIsAligned(c, RingAfter(c, ops[..i]).lastRotate, now);
    } else if ops[i].MarkAt? {
      var before := ops[..i - 1];
      assert ops[..i][..i - 1] == before && ops[..i][i - 1] == ops[i - 1];
      TimelyPrefix(c, ops, i - 1);
      LastRotateOnGrid(c, before);
      RunIsPast(c, before, ops[i - 1].now);
      RotatedPeriod(c, RingAfter(c, before), ops[i - 1].now);
    }
  }

  // --- Off the grid -------------------------------------------------------------------------

  const THREE_SLOTS: Shape := Shape(0, 10, 3)

  lemma FirstTwoSteps(failed: bool)
    ensures var ops := [RotateAt(19), MarkAt(21, failed)];
            && Timely(THREE_SLOTS, ops) && AllHarmless(THREE_SLOTS, ops)
            && RingAfter(THREE_SLOTS, ops).lastRotate == 19 && MarksAfter(THREE_SLOTS, ops) == [Mark(2, failed)]
  {
    hide Rotated, Marked;
    var c, first, ops := THREE_SLOTS, [RotateAt(19)], [RotateAt(19), MarkAt(21, failed)];
    assert first[..0] == [] && ops[..0] == [] && ops[..1] == first;
    LastOfRotated(c, RingAfter(c, []), 19);
    assert RingAfter(c, first) == Rotated(c, RingAfter(c, []), 19);
    assert Steps(c, 0, 19) == 1 && RingAfter(c, first).lastRotate == 19;
    assert MarksAfter(c, first) == [] && Period(c, 21) == 2;
    MarkedLast(c, RingAfter(c, first), 21, failed);
  }

  /**
   Before the ring has gone round once, misaligned calls already lose marks: rotated at
   19, marked at 21 and rotated at 29, a ring of three slots of ten has not the mark of
   its running period in its totals.
   */
  lemma EarlyDropExample(failed: bool)
    ensures var ops := [RotateAt(19), MarkAt(21, failed), RotateAt(29)];
            && Timely(THREE_SLOTS, ops) && !AllExact(THREE_SLOTS, ops)
            && MarksAfter(THREE_SLOTS, ops) == [Mark(2, failed)] && Period(THREE_SLOTS, 29) == 2
            && Sum(RingAfter(THREE_SLOTS, ops).buckets) != Count([Mark(2, failed)], 0, 2)
  {
    hide Rotated, Sum, Count;
    var c, two := THREE_SLOTS, [RotateAt(19), MarkAt(21, failed)];
    var ops := [RotateAt(19), MarkAt(21, failed), RotateAt(29)];
    FirstTwoSteps(failed);
    assert ops[..2] == two;
    RunExactIff(c, two);
    RunExactIff(c, ops);
    assert Steps(c, 19, 29) == 1 && Period(c, 19) == 1 && Period(c, 29) == 2;
    assert [Mark(2, failed)][0].period == 2 && !NoMark([Mark(2, failed)], 1, 2);
    assert !Harmless(c, 19, [Mark(2, failed)], 29);
    assert !HarmlessAt(c, ops, 2);
    RotatedTotalsIff(c, RingAfter(c, two), [Mark(2, failed)], 29);
  }
}
