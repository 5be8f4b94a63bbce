/**
 What every run of the job queue says about a single row: whose it is, which claims
 may take it, when it is due, what an outcome leaves in it, and when it may go.
 */
module JobRows {
  import opened Wrappers
  import opened JobTable
  import opened JobQueue
  import opened JobRuns

  // --- Rows stay as they were pushed --------------------------------------------

  /** The push that inserted the task's present row, or its last one. */
  ghost function Pushed(start: int, events: seq<Event>, id: TaskId): (push: Option<Event>)
    requires IsRun(start, events)
    ensures push.Some? ==> push.value.Push?
  {
    if events == [] then None
    else
      var n := |events| - 1;
      if Creates(Run(start, events[..n]).value, events[n], id) then Some(events[n])
      else Pushed(start, events[..n], id)
  }

  ghost predicate AsPushed(s: State, push: Option<Event>, id: TaskId)
    requires push.Some? ==> push.value.Push?
  {
    id in s.table ==>
      && push.Some? && s.table[id].queue == push.value.queue && s.table[id].payload == push.value.payload
      && s.table[id].maxAttempts == push.value.maxAttempts
  }

  /** A row that a step does not insert keeps its queue, payload and budget. */
  lemma IdentityKept(s: State, e: Event, id: TaskId)
    requires Inv(s) && Enabled(s, e) && id in Next(s, e).table && !Creates(s, e, id)
    ensures id in s.table
    ensures var was, row := s.table[id], Next(s, e).table[id];
            row.queue == was.queue && row.payload == was.payload && row.maxAttempts == was.maxAttempts
  {
    hide Inv, ClaimSelection, Locked, Decide, PickFits;
  }

  lemma CreatedAsPushed(s: State, e: Event, id: TaskId)
    requires Inv(s) && Enabled(s, e) && Creates(s, e, id)
    ensures AsPushed(Next(s, e), Some(e), id)
  {
    hide Inv;
  }

  /** In every run a row has the queue, the payload and the budget it was pushed with. */
  lemma {:induction false} RowsStayAsPushed(start: int, events: seq<Event>, id: TaskId)
    requires IsRun(start, events)
    ensures AsPushed(Run(start, events).value, Pushed(start, events, id), id)
  {
    hide Next, Inv, Enabled, Creates;
    if events != [] {
      var n := |events| - 1;
      var s := Run(start, events[..n]).value;
      RowsStayAsPushed(start, events[..n], id);
      if Creates(s, events[n], id) {
        CreatedAsPushed(s, events[n], id);
      } else if id in Next(s, events[n]).table {
        IdentityKept(s, events[n], id);
      }
    }
  }

  // --- Claims take their own rows -----------------------------------------------

  /** A row a claim has locked is one of its queue, pending, and was due when the claim began. */
  ghost predicate OwnRow(s: State, txn: nat, id: TaskId)
    requires txn in s.claims
  {
    && id in s.table && s.table[id].status == Pending
    && s.table[id].queue == s.claims[txn].queue && s.table[id].runAt <= s.claims[txn].began
  }

  ghost predicate ClaimsOwn(s: State) {
    forall txn, id | LockedBy(s, txn, id) :: OwnRow(s, txn, id)
  }

  lemma SelectedIsOwn(s: State, e: Event, id: TaskId)
    requires Inv(s) && Enabled(s, e) && e.BeginClaim? && id in e.ids
    ensures OwnRow(Next(s, e), e.txn, id)
  {
    hide Inv, Locked;
    var k :| 0 <= k < |e.ids| && e.ids[k] == id;
    assert Claimable(s.table, e.queue, s.now, Locked(s), e.ids[k]);
  }

  lemma LockedRowKept(s: State, e: Event, txn: nat, id: TaskId)
    requires Inv(s) && Enabled(s, e) && LockedBy(s, txn, id) && LockedBy(Next(s, e), txn, id)
    ensures id in s.table && id in Next(s, e).table
    ensures Next(s, e).table[id] == s.table[id] && Next(s, e).claims[txn] == s.claims[txn]
  {
    hide AcksSound, ClaimSelection, Decide, PickFits;
    assert id in Locked(s);
    assert e.CommitClaim? ==> !LockedBy(s, e.txn, id);
  }

  lemma OwnKept(s: State, e: Event)
    requires Inv(s) && Enabled(s, e) && ClaimsOwn(s)
    ensures ClaimsOwn(Next(s, e))
  {
    forall txn, id | LockedBy(Next(s, e), txn, id) ensures OwnRow(Next(s, e), txn, id) {
      if e.BeginClaim? && txn == e.txn {
        SelectedIsOwn(s, e, id);
      } else {
        assert LockedBy(s, txn, id) && OwnRow(s, txn, id);
        hide Inv, Enabled, Next;
        LockedRowKept(s, e, txn, id);
      }
    }
  }

  lemma {:induction false} RunClaimsOwn(start: int, events: seq<Event>)
    requires IsRun(start, events)
    ensures ClaimsOwn(Run(start, events).value)
  {
    if events != [] {
      var n := |events| - 1;
      RunClaimsOwn(start, events[..n]);
      hide Next, Inv, Enabled, ClaimsOwn;
      OwnKept(Run(start, events[..n]).value, events[n]);
    }
  }

  /**
   In every run a claim takes pending rows of its own queue, the one they were pushed to, that were
   due when it began; each is delivered under that queue and budget, with the next attempt's number.
   */
  lemma ClaimsTakeOwnRows(start: int, events: seq<Event>, j: nat, id: TaskId) returns (d: nat)
    requires IsRun(start, events) && j < |events| && ClaimsTask(At(start, events, j), events[j], id)
    requires IsRun(start, events[..j])
    ensures var s, push := At(start, events, j), Pushed(start, events[..j], id);
            && OwnRow(s, events[j].txn, id)
            && push.Some? && push.value.queue == s.claims[events[j].txn].queue
            && |s.deliveries| <= d < |At(start, events, j + 1).deliveries|
            && At(start, events, j + 1).deliveries[d]
               == Delivery(id, push.value.queue, s.table[id].attempts + 1, push.value.maxAttempts, InFlight)
  {
    hide Run, Inv;
    AtStep(start, events, j);
    RunClaimsOwn(start, events[..j]);
    RowsStayAsPushed(start, events[..j], id);
    var s, e := At(start, events, j), events[j];
    assert OwnRow(s, e.txn, id);
    var k :| 0 <= k < |s.claims[e.txn].ids| && s.claims[e.txn].ids[k] == id;
    hide Next;
    DeliveredNext(s, e, k);
    d := |s.deliveries| + k;
  }

  lemma DeliveredNext(s: State, e: Event, k: nat)
    requires Inv(s) && Enabled(s, e) && e.CommitClaim? && k < |s.claims[e.txn].ids|
    ensures var c := s.claims[e.txn];
            && c.ids[k] in s.table && |s.deliveries| + k < |Next(s, e).deliveries|
            && Next(s, e).deliveries[|s.deliveries| + k]
               == Delivery(c.ids[k], c.queue, s.table[c.ids[k]].attempts + 1, s.table[c.ids[k]].maxAttempts, InFlight)
  {
    assert LockedBy(s, e.txn, s.claims[e.txn].ids[k]);
  }

  /**
   A claim that takes fewer than ten rows leaves no row of its queue that is pending, due and not
   held by an open claim; and it takes the rows in the order of their due times, then ids.
   */
  lemma ClaimMissesNothing(s: State, e: Event)
    requires Inv(s) && Enabled(s, e) && e.BeginClaim?
    ensures forall j, k | 0 <= j < k < |e.ids| ::
              && e.ids[j] in s.table && e.ids[k] in s.table
              && (s.table[e.ids[j]].runAt < s.table[e.ids[k]].runAt
                  || (s.table[e.ids[j]].runAt == s.table[e.ids[k]].runAt && e.ids[j] < e.ids[k]))
    ensures forall id | && id in s.table && id !in e.ids
                        && s.table[id].queue == e.queue && s.table[id].status == Pending && s.table[id].runAt <= s.now
                        && (forall txn | txn in s.claims :: id !in s.claims[txn].ids) ::
              |e.ids| == 10 && forall k | 0 <= k < 10 ::
                s.table[e.ids[k]].runAt < s.table[id].runAt
                || (s.table[e.ids[k]].runAt == s.table[id].runAt && e.ids[k] < id)
  {
    hide Inv;
    var locked := Locked(s);
    forall id | id in locked ensures exists txn :: txn in s.claims && id in s.claims[txn].ids {
    }
    hide Locked;
    assert forall k | 0 <= k < |e.ids| :: Claimable(s.table, e.queue, s.now, locked, e.ids[k]);
    assert forall j, k | 0 <= j < k < |e.ids| :: Precedes(s.table, e.ids[j], e.ids[k]);
    forall id | && id in s.table && id !in e.ids
                && s.table[id].queue == e.queue && s.table[id].status == Pending && s.table[id].runAt <= s.now
                && (forall txn | txn in s.claims :: id !in s.claims[txn].ids)
      ensures |e.ids| == 10 && forall k | 0 <= k < 10 :: Precedes(s.table, e.ids[k], id)
    {
      assert Claimable(s.table, e.queue, s.now, locked, id);
    }
  }

  // --- Queues do not touch each other -------------------------------------------

  /** The queue a step works on, if it works on one. */
  function QueueOf(s: State, e: Event): Option<string> {
    match e
    case Push(_, queue, _, _, _) => Some(queue)
    case CommitClaim(txn) => if txn in s.claims then Some(s.claims[txn].queue) else None
    case Refresh(_, queue, _) => Some(queue)
    case Sweep(queue) => Some(queue)
    case WriteAcks(queue, _, _) => Some(queue)
    case Reschedule(_, queue, _) => Some(queue)
    case Vacuum(queue, _) => Some(queue)
    case _ => None
  }

  lemma OtherRowsKept(s: State, e: Event, id: TaskId)
    requires Inv(s) && Enabled(s, e) && ClaimsOwn(s) && id in s.table
    requires QueueOf(s, e) != Some(s.table[id].queue)
    ensures id in Next(s, e).table && Next(s, e).table[id] == s.table[id]
  {
    hide AcksSound, ClaimSelection, Locked, Decide, PickFits;
    assert e.CommitClaim? ==> !LockedBy(s, e.txn, id);
  }

  /** In every run a step changes rows of the queue it works on and of no other. */
  lemma QueuesAreSeparate(start: int, events: seq<Event>, j: nat, id: TaskId)
    requires IsRun(start, events) && j < |events| && id in At(start, events, j).table
    requires QueueOf(At(start, events, j), events[j]) != Some(At(start, events, j).table[id].queue)
    ensures id in At(start, events, j + 1).table
    ensures At(start, events, j + 1).table[id] == At(start, events, j).table[id]
  {
    hide Run, Inv, Next, Enabled, QueueOf;
    AtStep(start, events, j);
    RunPrefix(start, events, j);
    RunClaimsOwn(start, events[..j]);
    OtherRowsKept(At(start, events, j), events[j], id);
  }

  // --- Due times ----------------------------------------------------------------

  /** The due time as the steps set it: by a push, a reschedule, or a landing verdict that re-queues. */
  ghost function DueAfter(s: State, due: Option<int>, e: Event, id: TaskId): Option<int> {
    if Creates(s, e, id) then Some(e.runAt)
    else if e.Reschedule? && e.id == id && id in s.table && s.table[id].queue == e.queue then Some(s.now + e.wait)
    else if AckLands(s, e, id) && IsDecided(s, e.pick[id]) && s.deliveries[e.pick[id]].phase.verdict.runAt.Some? then
      s.deliveries[e.pick[id]].phase.verdict.runAt
    else due
  }

  ghost function DueTime(start: int, events: seq<Event>, id: TaskId): Option<int>
    requires IsRun(start, events)
  {
    if events == [] then None
    else
      var n := |events| - 1;
      DueAfter(Run(start, events[..n]).value, DueTime(start, events[..n], id), events[n], id)
  }

  ghost predicate DueAt(s: State, due: Option<int>, id: TaskId) {
    id in s.table ==> due == Some(s.table[id].runAt)
  }

  lemma DueKept(s: State, due: Option<int>, e: Event, id: TaskId)
    requires Inv(s) && Enabled(s, e) && DueAt(s, due, id)
    ensures DueAt(Next(s, e), DueAfter(s, due, e, id), id)
  {
    hide LocksSound, AcksSound, ClaimSelection, Locked, Decide, Settle;
    assert e.Reschedule? && e.id != id && id in s.table ==> Next(s, e).table[id] == s.table[id];
  }

  lemma {:induction false} RunDueAt(start: int, events: seq<Event>, id: TaskId)
    requires IsRun(start, events)
    ensures DueAt(Run(start, events).value, DueTime(start, events, id), id)
  {
    hide Next, Inv, Enabled, DueAfter;
    if events != [] {
      var n := |events| - 1;
      RunDueAt(start, events[..n], id);
      DueKept(Run(start, events[..n]).value, DueTime(start, events[..n], id), events[n], id);
    }
  }

  /** In every run no claim takes a task before the due time last set for it. */
  lemma ClaimsWaitUntilDue(start: int, events: seq<Event>, j: nat, id: TaskId)
    requires IsRun(start, events) && j < |events| && IsRun(start, events[..j])
    requires events[j].BeginClaim? && id in events[j].ids
    ensures var due := DueTime(start, events[..j], id);
            due.Some? && due.value <= At(start, events, j).now
  {
    hide Run, Inv, Next, Enabled, DueTime;
    AtStep(start, events, j);
    RunDueAt(start, events[..j], id);
    ClaimIsDue(At(start, events, j), events[j], id);
  }

  lemma RescheduledDue(s: State, e: Event, id: TaskId)
    requires Inv(s) && Enabled(s, e) && e.Reschedule? && e.id == id && id in s.table && s.table[id].queue == e.queue
    ensures var row := Next(s, e).table;
            id in row && row[id].status == Pending && row[id].runAt == s.now + e.wait && row[id].lockBy.None?
  {
    hide Inv, Locked;
  }

  /** A rescheduled task is pending again and not claimed before its wait is over, unless something sets it anew. */
  lemma RescheduleIsWaited(start: int, events: seq<Event>, k: nat, j: nat, id: TaskId)
    requires IsRun(start, events) && k < j < |events|
    requires events[k].Reschedule? && events[k].id == id
    requires id in At(start, events, k).table && At(start, events, k).table[id].queue == events[k].queue
    requires forall m | k < m < j ::
               var s, e := At(start, events, m), events[m];
               !Creates(s, e, id) && !Revives(s, e, id) && !AckLands(s, e, id)
    ensures id in At(start, events, k + 1).table && At(start, events, k + 1).table[id].status == Pending
    ensures events[j].BeginClaim? && id in events[j].ids ==>
              At(start, events, j).now >= At(start, events, k).now + events[k].wait
  {
    hide Run, At, Inv, Enabled, Next, Creates, Revives, AckLands;
    AtStep(start, events, k);
    AtStep(start, events, j);
    RescheduledDue(At(start, events, k), events[k], id);
    if events[j].BeginClaim? && id in events[j].ids {
      ClaimIsDue(At(start, events, j), events[j], id);
      DueTimeStays(start, events, k + 1, j, id);
    }
  }

  // --- What an outcome leaves ---------------------------------------------------

  lemma LandedRow(s: State, e: Event, id: TaskId)
    requires Inv(s) && Enabled(s, e) && AckLands(s, e, id) && IsDecided(s, e.pick[id])
    ensures id in s.table && id in Next(s, e).table
    ensures var was, row, v := s.table[id], Next(s, e).table[id], s.deliveries[e.pick[id]].phase.verdict;
            && row.status == v.status && row.lastError == v.lastError && row.lockBy.None? && row.lockAt.None?
            && row.runAt == (if v.runAt.Some? then v.runAt.value else was.runAt)
            && row.doneAt == (if v.status == Done || v.status == Killed then Some(s.now) else None)
  {
    hide Inv, PickFits, Settle;
  }

  lemma AckDecides(s: State, d: nat, outcome: Outcome)
    requires Inv(s) && Enabled(s, Ack(d, outcome))
    ensures d < |s.deliveries| && s.deliveries[d].attempt >= 1
    ensures var was, ds := s.deliveries[d], Next(s, Ack(d, outcome)).deliveries;
            && d < |ds| && ds[d].id == was.id
            && ds[d].phase == Decided(Decide(outcome, was.attempt, was.maxAttempts, s.now))
  {
    hide LocksSound, Decide;
    assert DeliverySound(s.deliveries[d]);
  }

  /** The row an acknowledged outcome leaves, when its write comes. */
  ghost predicate Shows(row: Row, outcome: Outcome, attempt: int, maxAttempts: int, decided: int, written: int) {
    && row.lockBy.None? && row.lockAt.None?
    && match outcome
       case Success => row.status == Done && row.lastError.None? && row.doneAt == Some(written)
       case Abort(error) => row.status == Killed && row.lastError == Some(error) && row.doneAt == Some(written)
       case Failure(error) =>
         && row.lastError == Some(error)
         && if attempt >= maxAttempts then row.status == Killed && row.doneAt == Some(written)
            else row.status == Pending && row.doneAt.None? && attempt >= 1
                 && row.runAt == decided + Min(ShiftLeft(attempt - 1), 3600) * 1_000_000
  }

  /** In every run the row shows the outcome whose acknowledgement landed on it, whenever it was written. */
  lemma OutcomeReachesRow(start: int, events: seq<Event>, i: nat, k: nat, id: TaskId, d: nat, outcome: Outcome)
    requires IsRun(start, events) && i < k < |events|
    requires events[i] == Ack(d, outcome) && d < |At(start, events, i).deliveries|
    requires AckLands(At(start, events, k), events[k], id) && events[k].pick[id] == d
    ensures id in At(start, events, k + 1).table
    ensures var was := At(start, events, i).deliveries[d];
            Shows(At(start, events, k + 1).table[id], outcome, was.attempt, was.maxAttempts,
                  At(start, events, i).now, At(start, events, k).now)
  {
    hide Run, At, Inv, Enabled, Next, AckLands, Decide;
    AtStep(start, events, i);
    AtStep(start, events, k);
    AckDecides(At(start, events, i), d, outcome);
    var was := At(start, events, i).deliveries[d];
    RequeueNeedsBudget(outcome, was.attempt, was.maxAttempts, At(start, events, i).now);
    VerdictStays(start, events, i + 1, k, d);
    PickIsDecided(At(start, events, k), events[k], id);
    LandedRow(At(start, events, k), events[k], id);
  }

  // --- Vacuuming ----------------------------------------------------------------

  /** When an acknowledgement last landed on the task's row. */
  ghost function LandedAt(start: int, events: seq<Event>, id: TaskId): Option<int>
    requires IsRun(start, events)
  {
    if events == [] then None
    else
      var n := |events| - 1;
      if AckLands(Run(start, events[..n]).value, events[n], id) then Some(Run(start, events[..n]).value.now)
      else LandedAt(start, events[..n], id)
  }

  ghost predicate DoneWhenLanded(s: State, at: Option<int>, id: TaskId) {
    id in s.table && s.table[id].status in {Done, Killed} ==> at.Some? && s.table[id].doneAt == at
  }

  lemma DoneKept(s: State, at: Option<int>, e: Event, id: TaskId)
    requires Inv(s) && Enabled(s, e) && DoneWhenLanded(s, at, id)
    ensures DoneWhenLanded(Next(s, e), if AckLands(s, e, id) then Some(s.now) else at, id)
  {
    hide LocksSound, AcksSound, ClaimSelection, Locked, Decide, Settle;
    assert e.Reschedule? && e.id != id && id in s.table ==> Next(s, e).table[id] == s.table[id];
  }

  lemma {:induction false} RunDoneWhenLanded(start: int, events: seq<Event>, id: TaskId)
    requires IsRun(start, events)
    ensures DoneWhenLanded(Run(start, events).value, LandedAt(start, events, id), id)
  {
    hide Next, Inv, Enabled, AckLands;
    if events != [] {
      var n := |events| - 1;
      RunDoneWhenLanded(start, events[..n], id);
      DoneKept(Run(start, events[..n]).value, LandedAt(start, events[..n], id), events[n], id);
    }
  }

  /** In every run a vacuum takes a row exactly if it was finished in that queue, longer ago than the retention. */
  lemma VacuumsAfterRetention(start: int, events: seq<Event>, queue: string, retention: nat, id: TaskId)
    requires IsRun(start, events) && id in Run(start, events).value.table
    ensures var s := Run(start, events).value;
            id !in Next(s, Vacuum(queue, retention)).table <==>
              && s.table[id].queue == queue && (s.table[id].status == Done || s.table[id].status == Killed)
              && LandedAt(start, events, id).Some? && LandedAt(start, events, id).value + retention < s.now
  {
    hide Run, Inv, Next, LandedAt;
    RunDoneWhenLanded(start, events, id);
    VacuumNext(Run(start, events).value, queue, retention, id);
  }

  lemma VacuumNext(s: State, queue: string, retention: nat, id: TaskId)
    requires Inv(s) && id in s.table
    ensures id !in Next(s, Vacuum(queue, retention)).table <==> Expired(s.table[id], queue, s.now - retention)
  {
    hide Inv, Expired;
  }
}
