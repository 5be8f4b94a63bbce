/**
 Theorems over every run of the job queue: the retry budget, exclusive delivery,
 and what a sweep implies about the worker that held the task.
 */
module JobRuns {
  import opened Collections
  import opened Wrappers
  import opened JobTable
  import opened JobQueue

  /** The state after a sequence of events from an empty table, if each was enabled. */
  ghost function Run(start: int, events: seq<Event>): (s: Option<State>)
    ensures s.Some? ==> Inv(s.value)
  {
    if events == [] then Some(Start(start))
    else
      var n := |events| - 1;
      match Run(start, events[..n])
      case None => None
      case Some(before) =>
        if Enabled(before, events[n]) then
          InvPreserved(before, events[n]);
          Some(Next(before, events[n]))
        else None
  }

  ghost predicate IsRun(start: int, events: seq<Event>) {
    Run(start, events).Some?
  }

  ghost function At(start: int, events: seq<Event>, n: nat): State
    requires IsRun(start, events) && n <= |events|
  {
    RunPrefix(start, events, n);
    Run(start, events[..n]).value
  }

  lemma {:induction false} RunPrefix(start: int, events: seq<Event>, n: nat)
    requires IsRun(start, events) && n <= |events|
    ensures IsRun(start, events[..n])
    decreases |events|
  {
    if n < |events| {
      var init := events[..|events| - 1];
      RunPrefix(start, init, n);
      assert init[..n] == events[..n];
    } else {
      assert events[..n] == events;
    }
  }

  lemma AtStep(start: int, events: seq<Event>, n: nat)
    requires IsRun(start, events) && n < |events|
    ensures Inv(At(start, events, n)) && Enabled(At(start, events, n), events[n])
    ensures At(start, events, n + 1) == Next(At(start, events, n), events[n])
  {
    RunPrefix(start, events, n + 1);
    assert events[..n + 1][..n] == events[..n];
  }

  // --- The retry budget ---------------------------------------------------------

  /** What a run did to one task; sinceCreated restarts at each insertion of it. */
  datatype Tally = Tally(
    claims: nat, sinceCreated: nat, created: nat, allowance: nat, sweeps: nat, reschedules: nat, requeues: nat)

  ghost function Count(t: Tally, s: State, e: Event, id: TaskId): Tally {
    if ClaimsTask(s, e, id) then t.(claims := t.claims + 1, sinceCreated := t.sinceCreated + 1)
    else if Creates(s, e, id) then
      t.(created := t.created + 1, allowance := t.allowance + Budget(e.maxAttempts), sinceCreated := 0)
    else if Orphans(s, e, id) then t.(sweeps := t.sweeps + 1)
    else if Revives(s, e, id) then t.(reschedules := t.reschedules + 1)
    else if Requeues(s, e, id) then t.(requeues := t.requeues + 1)
    else t
  }

  ghost function TallyOf(start: int, events: seq<Event>, id: TaskId): Tally
    requires IsRun(start, events)
  {
    if events == [] then Tally(0, 0, 0, 0, 0, 0, 0)
    else
      var n := |events| - 1;
      Count(TallyOf(start, events[..n], id), Run(start, events[..n]).value, events[n], id)
  }

  /** Deliveries of the task whose failure may still be retried. */
  ghost function Retriable(ds: seq<Delivery>, id: TaskId): set<nat> {
    set i: nat | i < |ds| && ds[i].id == id && ds[i].attempt < Budget(ds[i].maxAttempts)
  }

  ghost function SettledRetriable(ds: seq<Delivery>, id: TaskId): set<nat> {
    set i: nat | i < |ds| && i in Retriable(ds, id) && ds[i].phase.Settled?
  }

  /** Retriable deliveries the task's present row can still produce. */
  ghost function Future(t: Table, id: TaskId): nat {
    if id in t && t[id].attempts < Budget(t[id].maxAttempts) - 1
    then Budget(t[id].maxAttempts) - 1 - t[id].attempts
    else 0
  }

  ghost predicate Balanced(s: State, t: Tally, id: TaskId) {
    && t.claims + (if IsPending(s, id) then 1 else 0) <= t.created + t.requeues + t.sweeps + t.reschedules
    && t.requeues <= |SettledRetriable(s.deliveries, id)|
    && |Retriable(s.deliveries, id)| + Future(s.table, id) + t.created <= t.allowance
    && (id in s.table ==> s.table[id].attempts == t.sinceCreated)
  }

  lemma DeliveredAt(ds: seq<Delivery>, t: Table, c: Claim, id: TaskId, i: nat)
    requires forall x | x in c.ids :: x in t
    ensures var more := ds + Deliver(t, c);
            && (i < |ds| ==> (i in Retriable(more, id) <==> i in Retriable(ds, id)))
            && (i < |ds| ==> (i in SettledRetriable(more, id) <==> i in SettledRetriable(ds, id)))
            && (|ds| <= i < |more| ==> i !in SettledRetriable(more, id))
            && (|ds| <= i < |more| ==> (i in Retriable(more, id) <==>
                  c.ids[i - |ds|] == id && t[id].attempts + 1 < Budget(t[id].maxAttempts)))
  {
    hide Budget;
    assert |ds| <= i < |ds + Deliver(t, c)| ==> c.ids[i - |ds|] in c.ids;
  }

  lemma RetriableAfterDeliver(ds: seq<Delivery>, t: Table, c: Claim, id: TaskId)
    requires Distinct(c.ids) && forall x | x in c.ids :: x in t
    ensures var more := ds + Deliver(t, c);
            && SettledRetriable(more, id) == SettledRetriable(ds, id)
            && |Retriable(more, id)| == |Retriable(ds, id)|
                 + if id in c.ids && t[id].attempts + 1 < Budget(t[id].maxAttempts) then 1 else 0
  {
    hide Budget, Deliver;
    var more := ds + Deliver(t, c);
    var before, after := Retriable(ds, id), Retriable(more, id);
    var again := id in c.ids && t[id].attempts + 1 < Budget(t[id].maxAttempts);
    var extra := if again then {|ds| + IndexIn(c.ids, id)} else {};
    forall i: nat
      ensures i in after <==> i in before + extra
      ensures i in SettledRetriable(more, id) <==> i in SettledRetriable(ds, id)
    {
      DeliveredAt(ds, t, c, id, i);
    }
    assert after == before + extra;
  }

  ghost function IndexIn(ids: seq<TaskId>, id: TaskId): (k: nat)
    requires id in ids
    ensures k < |ids| && ids[k] == id
  {
    var k :| 0 <= k < |ids| && ids[k] == id;
    k
  }

  lemma SettleKeepsRetriable(ds: seq<Delivery>, batch: set<nat>, id: TaskId)
    ensures Retriable(Settle(ds, batch), id) == Retriable(ds, id)
    ensures SettledRetriable(ds, id) <= SettledRetriable(Settle(ds, batch), id)
    ensures |SettledRetriable(ds, id)| <= |SettledRetriable(Settle(ds, batch), id)|
  {
    hide Budget;
    assert Retriable(Settle(ds, batch), id) == Retriable(ds, id);
    SubsetSize(SettledRetriable(ds, id), SettledRetriable(Settle(ds, batch), id));
  }

  lemma SettledOneMore(ds: seq<Delivery>, batch: set<nat>, id: TaskId, i: nat)
    requires i in batch && i in Retriable(ds, id) && !ds[i].phase.Settled?
    ensures |SettledRetriable(ds, id)| + 1 <= |SettledRetriable(Settle(ds, batch), id)|
  {
    var before, after := SettledRetriable(ds, id), SettledRetriable(Settle(ds, batch), id);
    SettleKeepsRetriable(ds, batch, id);
    assert i in after && i !in before;
    SubsetSize(before + {i}, after);
  }

  lemma BalanceCommit(s: State, t: Tally, e: Event, id: TaskId)
    requires Inv(s) && Enabled(s, e) && Balanced(s, t, id) && e.CommitClaim?
    ensures Balanced(Next(s, e), Count(t, s, e, id), id)
  {
    PendingChanges(s, e, id);
    assert forall x | x in s.claims[e.txn].ids :: LockedBy(s, e.txn, x);
    RetriableAfterDeliver(s.deliveries, s.table, s.claims[e.txn], id);
  }

  lemma RequeuedIsRetriable(ds: seq<Delivery>, id: TaskId, i: nat)
    requires i < |ds| && ds[i].id == id && ds[i].attempt < Budget(ds[i].maxAttempts)
    ensures i in Retriable(ds, id)
  {
  }

  lemma AckKeepsAttempts(s: State, e: Event, id: TaskId)
    requires Inv(s) && Enabled(s, e) && e.WriteAcks?
    ensures var after := Next(s, e);
            && after.deliveries == Settle(s.deliveries, e.batch)
            && (id in after.table <==> id in s.table)
            && (id in s.table ==> after.table[id].attempts == s.table[id].attempts)
            && (id in s.table ==> after.table[id].maxAttempts == s.table[id].maxAttempts)
    ensures forall i | i in e.batch :: IsDecided(s, i)
    ensures Requeues(s, e, id) ==> e.pick[id] in e.batch && s.deliveries[e.pick[id]].id == id
  {
    hide LocksSound, AcksSound;
  }

  lemma BalanceWrite(s: State, t: Tally, e: Event, id: TaskId)
    requires Inv(s) && Enabled(s, e) && Balanced(s, t, id) && e.WriteAcks?
    ensures Balanced(Next(s, e), Count(t, s, e, id), id)
  {
    hide LocksSound, Retriable, SettledRetriable, Budget, PickFits, Settle, IsPending;
    PendingChanges(s, e, id);
    AckKeepsAttempts(s, e, id);
    SettleKeepsRetriable(s.deliveries, e.batch, id);
    if Requeues(s, e, id) {
      var i := e.pick[id];
      assert DeliverySound(s.deliveries[i]);
      RequeuedIsRetriable(s.deliveries, id, i);
      SettledOneMore(s.deliveries, e.batch, id, i);
    }
  }

  lemma BalancePhases(s: State, t: Tally, e: Event, id: TaskId)
    requires Inv(s) && Enabled(s, e) && Balanced(s, t, id) && (e.LoseAcks? || e.Ack?)
    ensures Balanced(Next(s, e), Count(t, s, e, id), id)
  {
    hide LocksSound, AcksSound, ClaimSelection, Decide, Budget;
    if e.LoseAcks? {
      SettleKeepsRetriable(s.deliveries, e.batch, id);
    } else {
      var ds := Next(s, e).deliveries;
      assert Retriable(ds, id) == Retriable(s.deliveries, id);
      assert SettledRetriable(ds, id) == SettledRetriable(s.deliveries, id);
    }
  }

  lemma BalanceRows(s: State, t: Tally, e: Event, id: TaskId)
    requires Inv(s) && Enabled(s, e) && Balanced(s, t, id)
    requires e.Push? || e.Refresh? || e.Sweep? || e.Reschedule? || e.Vacuum?
    ensures Balanced(Next(s, e), Count(t, s, e, id), id)
  {
    PendingChanges(s, e, id);
    assert Next(s, e).deliveries == s.deliveries;
    var t' := Next(s, e).table;
    assert Future(t', id) <= Future(s.table, id) + if Creates(s, e, id) then Budget(e.maxAttempts) - 1 else 0;
  }

  lemma BalanceKept(s: State, t: Tally, e: Event, id: TaskId)
    requires Inv(s) && Enabled(s, e) && Balanced(s, t, id)
    ensures Balanced(Next(s, e), Count(t, s, e, id), id)
  {
    match e
    case CommitClaim(_) => BalanceCommit(s, t, e, id);
    case WriteAcks(_, _, _) => BalanceWrite(s, t, e, id);
    case LoseAcks(_) => BalancePhases(s, t, e, id);
    case Ack(_, _) => BalancePhases(s, t, e, id);
    case Tick(_) =>
    case BeginClaim(_, _, _, _, _) =>
    case AbortClaim(_) =>
    case _ => BalanceRows(s, t, e, id);
  }

  lemma {:induction false} RunBalanced(start: int, events: seq<Event>, id: TaskId)
    requires IsRun(start, events)
    ensures Balanced(Run(start, events).value, TallyOf(start, events, id), id)
  {
    if events == [] {
      assert Retriable([], id) == {};
    } else {
      var n := |events| - 1;
      RunBalanced(start, events[..n], id);
      BalanceKept(Run(start, events[..n]).value, TallyOf(start, events[..n], id), events[n], id);
    }
  }

  /**
   In every run, stale acknowledgements included, a task is claimed at most as often as
   the attempt budgets it was pushed with, plus its orphan sweeps, plus its reschedules.
   */
  lemma RetryBudget(start: int, events: seq<Event>, id: TaskId)
    requires IsRun(start, events)
    ensures var t := TallyOf(start, events, id);
            t.claims <= t.allowance + t.sweeps + t.reschedules
  {
    RunBalanced(start, events, id);
    var s := Run(start, events).value;
    SubsetSize(SettledRetriable(s.deliveries, id), Retriable(s.deliveries, id));
  }

  /** The attempts column counts the claims of the task since its row was inserted. */
  lemma AttemptsCountClaims(start: int, events: seq<Event>, id: TaskId)
    requires IsRun(start, events) && id in Run(start, events).value.table
    ensures Run(start, events).value.table[id].attempts == TallyOf(start, events, id).sinceCreated
  {
    RunBalanced(start, events, id);
  }

  // --- Exclusive delivery ---------------------------------------------------------

  lemma {:induction false} StaysClaimed(start: int, events: seq<Event>, i: nat, j: nat, id: TaskId)
    requires IsRun(start, events) && i < j <= |events|
    requires ClaimsTask(At(start, events, i), events[i], id)
    requires forall k | i < k < j :: !Repools(At(start, events, k), events[k], id)
    ensures !IsPending(At(start, events, j), id)
    decreases j
  {
    hide Next, Enabled, Inv, ClaimsTask, Repools, IsPending, Run;
    AtStep(start, events, j - 1);
    PendingChanges(At(start, events, j - 1), events[j - 1], id);
    if i < j - 1 {
      StaysClaimed(start, events, i, j - 1, id);
    }
  }

  /** Between two claims of one task some step returned it to the pool. */
  lemma ClaimsAreSeparated(start: int, events: seq<Event>, i: nat, j: nat, id: TaskId)
    requires IsRun(start, events) && i < j < |events|
    requires ClaimsTask(At(start, events, i), events[i], id)
    requires ClaimsTask(At(start, events, j), events[j], id)
    ensures exists k | i < k < j :: Repools(At(start, events, k), events[k], id)
  {
    AtStep(start, events, j);
    PendingChanges(At(start, events, j), events[j], id);
    if forall k | i < k < j :: !Repools(At(start, events, k), events[k], id) {
      StaysClaimed(start, events, i, j, id);
    }
  }

  /** Who last stamped the task's lock, when the stamping statement was issued, and its keep-alive. */
  datatype Hold = Hold(worker: string, at: int, keepAlive: nat)

  ghost predicate Renews(s: State, e: Event, id: TaskId) {
    e.Refresh? && id in s.table && s.table[id].queue == e.queue && s.table[id].status == Running
    && s.table[id].lockBy == Some(e.worker)
  }

  ghost function Restamp(s: State, hold: Option<Hold>, e: Event, id: TaskId): Option<Hold>
    requires Enabled(s, e)
  {
    if ClaimsTask(s, e, id) then
      var c := s.claims[e.txn];
      Some(Hold(c.worker, c.began, c.keepAlive))
    else if Renews(s, e, id) then Some(Hold(e.worker, s.now, e.keepAlive))
    else hold
  }

  ghost function Stamp(start: int, events: seq<Event>, id: TaskId): Option<Hold>
    requires IsRun(start, events)
  {
    if events == [] then None
    else
      var n := |events| - 1;
      Restamp(Run(start, events[..n]).value, Stamp(start, events[..n], id), events[n], id)
  }

  /** A running row's lock names the last worker that claimed or refreshed it, five keep-alives ahead. */
  ghost predicate LockIsStamp(s: State, hold: Option<Hold>, id: TaskId) {
    id in s.table && s.table[id].status == Running ==>
      && hold.Some?
      && s.table[id].lockBy == Some(hold.value.worker)
      && s.table[id].lockAt == Some(hold.value.at + 5 * hold.value.keepAlive)
  }

  lemma AckKeepsLock(s: State, hold: Option<Hold>, e: Event, id: TaskId)
    requires Inv(s) && Enabled(s, e) && LockIsStamp(s, hold, id) && e.WriteAcks?
    ensures LockIsStamp(Next(s, e), hold, id)
  {
    hide LocksSound;
    assert id in e.pick ==> IsDecided(s, e.pick[id]) && DeliverySound(s.deliveries[e.pick[id]]);
  }

  lemma ClaimKeepsLock(s: State, hold: Option<Hold>, e: Event, id: TaskId)
    requires Inv(s) && Enabled(s, e) && LockIsStamp(s, hold, id) && e.CommitClaim?
    ensures LockIsStamp(Next(s, e), Restamp(s, hold, e, id), id)
  {
    hide AcksSound, Deliver;
  }

  lemma RowsKeepLock(s: State, hold: Option<Hold>, e: Event, id: TaskId)
    requires Inv(s) && Enabled(s, e) && LockIsStamp(s, hold, id) && !e.WriteAcks? && !e.CommitClaim?
    ensures LockIsStamp(Next(s, e), Restamp(s, hold, e, id), id)
  {
    hide Inv, ClaimSelection, Locked, Settle, Decide;
    assert e.Reschedule? && e.id != id && id in s.table ==> Next(s, e).table[id] == s.table[id];
  }

  lemma LockKept(s: State, hold: Option<Hold>, e: Event, id: TaskId)
    requires Inv(s) && Enabled(s, e) && LockIsStamp(s, hold, id)
    ensures LockIsStamp(Next(s, e), Restamp(s, hold, e, id), id)
  {
    hide Inv, Next, LockIsStamp;
    if e.WriteAcks? {
      AckKeepsLock(s, hold, e, id);
    } else if e.CommitClaim? {
      ClaimKeepsLock(s, hold, e, id);
    } else {
      RowsKeepLock(s, hold, e, id);
    }
  }

  lemma {:induction false} RunLockIsStamp(start: int, events: seq<Event>, id: TaskId)
    requires IsRun(start, events)
    ensures LockIsStamp(Run(start, events).value, Stamp(start, events, id), id)
  {
    if events != [] {
      var n := |events| - 1;
      RunLockIsStamp(start, events[..n], id);
      LockKept(Run(start, events[..n]).value, Stamp(start, events[..n], id), events[n], id);
    }
  }

  /** A sweep takes a task exactly when over five keep-alives passed since its holder's last claim or refresh. */
  lemma SweepMeansExpired(start: int, events: seq<Event>, queue: string, id: TaskId)
    requires IsRun(start, events)
    ensures var s := Run(start, events).value;
            Orphans(s, Sweep(queue), id) <==>
              && id in s.table && s.table[id].queue == queue && s.table[id].status == Running
              && var hold := Stamp(start, events, id);
                 hold.Some? && s.now > hold.value.at + 5 * hold.value.keepAlive
  {
    RunLockIsStamp(start, events, id);
  }

  /** Every sweep after event i finds the task's last stamp no more than five keep-alives old. */
  ghost predicate RefreshedInTime(start: int, events: seq<Event>, i: nat, j: nat, id: TaskId)
    requires IsRun(start, events) && i <= j <= |events|
  {
    forall k | i <= k < j && events[k].Sweep? :: InTime(start, events, k, id)
  }

  ghost predicate InTime(start: int, events: seq<Event>, k: nat, id: TaskId)
    requires IsRun(start, events) && k < |events|
  {
    RunPrefix(start, events, k);
    var hold := Stamp(start, events[..k], id);
    hold.Some? ==> At(start, events, k).now <= hold.value.at + 5 * hold.value.keepAlive
  }

  /** A running row leaves its holder only by a sweep, a landing acknowledgement or a reschedule. */
  lemma HolderKept(s: State, e: Event, id: TaskId)
    requires Inv(s) && Enabled(s, e)
    requires id in s.table && s.table[id].status == Running
    requires !Orphans(s, e, id) && !AckLands(s, e, id) && !Revives(s, e, id)
    ensures !ClaimsTask(s, e, id)
    ensures var after := Next(s, e).table;
            && id in after && after[id].status == Running
            && after[id].lockBy == s.table[id].lockBy && after[id].attempts == s.table[id].attempts
  {
    PendingChanges(s, e, id);
    if e.Reschedule? && e.id != id {
      assert Next(s, e).table[id] == s.table[id];
    }
  }

  /**
   A worker whose refreshes come in time keeps its task to itself: until an
   acknowledgement lands or someone reschedules it, no other claim happens and the
   row stays its own.
   */
  lemma {:induction false} RefreshingHolderIsAlone(start: int, events: seq<Event>, i: nat, j: nat, id: TaskId)
    requires IsRun(start, events) && i <= j <= |events|
    requires id in At(start, events, i).table && At(start, events, i).table[id].status == Running
    requires RefreshedInTime(start, events, i, j, id)
    requires forall k | i <= k < j ::
               !AckLands(At(start, events, k), events[k], id) && !Revives(At(start, events, k), events[k], id)
    ensures forall k | i <= k < j :: !ClaimsTask(At(start, events, k), events[k], id)
    ensures var before, after := At(start, events, i).table, At(start, events, j).table;
            && id in after && after[id].status == Running
            && after[id].lockBy == before[id].lockBy && after[id].attempts == before[id].attempts
    decreases j
  {
    hide Next, Enabled, Inv, ClaimsTask, AckLands, Revives, Orphans, InTime, Run;
    if i < j {
      var n := j - 1;
      RefreshingHolderIsAlone(start, events, i, n, id);
      AtStep(start, events, n);
      NotSwept(start, events, i, j, n, id);
      HolderKept(At(start, events, n), events[n], id);
    }
  }

  lemma NotSwept(start: int, events: seq<Event>, i: nat, j: nat, n: nat, id: TaskId)
    requires IsRun(start, events) && i <= n < j <= |events| && RefreshedInTime(start, events, i, j, id)
    ensures !Orphans(At(start, events, n), events[n], id)
  {
    RunPrefix(start, events, n);
    if events[n].Sweep? {
      assert InTime(start, events, n, id);
      SweepMeansExpired(start, events[..n], events[n].queue, id);
    }
  }

  // --- Retries wait, finished rows are stamped --------------------------------------

  /** A decided delivery keeps its verdict until it is written or lost. */
  lemma VerdictKept(s: State, e: Event, d: nat)
    requires Inv(s) && Enabled(s, e) && d < |s.deliveries| && !s.deliveries[d].phase.InFlight?
    ensures var ds := Next(s, e).deliveries;
            d < |ds| && ds[d].id == s.deliveries[d].id && ds[d].phase in {s.deliveries[d].phase, Settled}
  {
    hide Inv, ClaimSelection, Locked, Decide, Acked, PickFits;
  }

  lemma {:induction false} VerdictStays(start: int, events: seq<Event>, i: nat, k: nat, d: nat)
    requires IsRun(start, events) && i <= k <= |events|
    requires d < |At(start, events, i).deliveries| && !At(start, events, i).deliveries[d].phase.InFlight?
    ensures var was, ds := At(start, events, i).deliveries[d], At(start, events, k).deliveries;
            d < |ds| && ds[d].id == was.id && ds[d].phase in {was.phase, Settled}
    decreases k
  {
    hide Next, Enabled, Inv, Run;
    if i < k {
      VerdictStays(start, events, i, k - 1, d);
      AtStep(start, events, k - 1);
      VerdictKept(At(start, events, k - 1), events[k - 1], d);
    }
  }

  /** A row's due time changes only by insertion, reschedule or a landing acknowledgement. */
  lemma DueTimeKept(s: State, e: Event, id: TaskId)
    requires Inv(s) && Enabled(s, e) && id in Next(s, e).table
    requires !Creates(s, e, id) && !Revives(s, e, id) && !AckLands(s, e, id)
    ensures id in s.table && Next(s, e).table[id].runAt == s.table[id].runAt
  {
    hide Inv, ClaimSelection, Locked, Decide, PickFits;
  }

  lemma {:induction false} DueTimeStays(start: int, events: seq<Event>, k: nat, j: nat, id: TaskId)
    requires IsRun(start, events) && k <= j <= |events| && id in At(start, events, j).table
    requires forall m | k <= m < j ::
               var s, e := At(start, events, m), events[m];
                !Creates(s, e, id) && !Revives(s, e, id) && !AckLands(s, e, id)
    ensures id in At(start, events, k).table
    ensures At(start, events, j).table[id].runAt == At(start, events, k).table[id].runAt
    decreases j
  {
    hide Next, Enabled, Inv, Run, Creates, Revives, AckLands;
    if k < j {
      AtStep(start, events, j - 1);
      DueTimeKept(At(start, events, j - 1), events[j - 1], id);
      DueTimeStays(start, events, k, j - 1, id);
    }
  }

  lemma LandedDueTime(s: State, e: Event, id: TaskId)
    requires Inv(s) && Enabled(s, e) && AckLands(s, e, id) && IsDecided(s, e.pick[id])
    ensures id in Next(s, e).table
    ensures var v := s.deliveries[e.pick[id]].phase.verdict;
            v.runAt.Some? ==> Next(s, e).table[id].runAt == v.runAt.value
  {
    hide Inv, PickFits, Settle;
  }

  lemma FailureDecides(s: State, d: nat, error: string)
    requires Inv(s) && Enabled(s, Ack(d, Failure(error)))
    requires 0 <= s.deliveries[d].attempt < Budget(s.deliveries[d].maxAttempts)
    ensures var ds := Next(s, Ack(d, Failure(error))).deliveries;
            && d < |ds| && ds[d].id == s.deliveries[d].id && ds[d].phase.Decided?
            && ds[d].phase.verdict.runAt == Some(s.now + RetryBackoff(s.deliveries[d].attempt) * SECOND)
  {
    hide Inv, RetryBackoff, Budget;
  }

  lemma PickIsDecided(s: State, e: Event, id: TaskId)
    requires Inv(s) && Enabled(s, e) && AckLands(s, e, id)
    ensures IsDecided(s, e.pick[id])
  {
    hide Inv;
  }

  lemma ClaimIsDue(s: State, e: Event, id: TaskId)
    requires Inv(s) && Enabled(s, e) && e.BeginClaim? && id in e.ids
    ensures id in s.table && s.table[id].runAt <= s.now
  {
    hide Inv, Locked;
    var c :| 0 <= c < |e.ids| && e.ids[c] == id;
  }

  /**
   A failed delivery's task is not claimed again before its backoff is over, however
   long the acknowledgement took to be written, unless someone reschedules it.
   */
  lemma BackoffIsWaited(start: int, events: seq<Event>, i: nat, k: nat, j: nat, id: TaskId, d: nat, error: string)
    requires IsRun(start, events) && i < k < j < |events|
    requires events[i] == Ack(d, Failure(error)) && d < |At(start, events, i).deliveries|
    requires var del := At(start, events, i).deliveries[d];
             del.id == id && 0 <= del.attempt < Budget(del.maxAttempts)
    requires AckLands(At(start, events, k), events[k], id) && events[k].pick[id] == d
    requires forall m | k < m < j ::
               var s, e := At(start, events, m), events[m];
                !Creates(s, e, id) && !Revives(s, e, id) && !AckLands(s, e, id)
    requires events[j].BeginClaim? && id in events[j].ids
    ensures var s := At(start, events, i);
            At(start, events, j).now >= s.now + RetryBackoff(s.deliveries[d].attempt) * SECOND
  {
    hide Run, At, Inv, Enabled, Next, Creates, Revives, AckLands, RetryBackoff, Budget;
    AtStep(start, events, i);
    AtStep(start, events, k);
    AtStep(start, events, j);
    FailureDecides(At(start, events, i), d, error);
    VerdictStays(start, events, i + 1, k, d);
    PickIsDecided(At(start, events, k), events[k], id);
    LandedDueTime(At(start, events, k), events[k], id);
    ClaimIsDue(At(start, events, j), events[j], id);
    DueTimeStays(start, events, k + 1, j, id);
  }

  ghost predicate Stamped(s: State, id: TaskId) {
    id in s.table && s.table[id].status in {Done, Killed} ==>
      s.table[id].doneAt.Some? && s.table[id].doneAt.value <= s.now
  }

  lemma StampKept(s: State, e: Event, id: TaskId)
    requires Inv(s) && Enabled(s, e) && Stamped(s, id)
    ensures Stamped(Next(s, e), id)
  {
    hide LocksSound, AcksSound, ClaimSelection, Locked, Decide, Settle, PickFits;
    assert e.Reschedule? && e.id != id && id in s.table ==> Next(s, e).table[id] == s.table[id];
  }

  /** In every run a finished row has its finishing time, so vacuuming with no retention after it removes it. */
  lemma {:induction false} FinishedRowsAreStamped(start: int, events: seq<Event>, id: TaskId)
    requires IsRun(start, events)
    ensures Stamped(Run(start, events).value, id)
    ensures var s := Run(start, events).value;
            id in s.table ==>
              (id !in Vacuumed(s.table, s.table[id].queue, s.now + 1) <==> s.table[id].status in {Done, Killed})
  {
    hide Inv, Next, Enabled;
    if events != [] {
      var n := |events| - 1;
      FinishedRowsAreStamped(start, events[..n], id);
      StampKept(Run(start, events[..n]).value, events[n], id);
    }
  }

  // --- Stale acknowledgements -------------------------------------------------------

  lemma RunAppend(start: int, events: seq<Event>, e: Event)
    requires IsRun(start, events) && Enabled(Run(start, events).value, e)
    ensures IsRun(start, events + [e])
    ensures Run(start, events + [e]).value == Next(Run(start, events).value, e)
  {
    assert (events + [e])[..|events|] == events;
  }

  ghost predicate StaleAckLands(start: int, events: seq<Event>, i: nat, id: TaskId) {
    && IsRun(start, events) && |events| > 0
    && IsRun(start, events[..|events| - 1])
    && var s, e := Run(start, events[..|events| - 1]).value, events[|events| - 1];
       && AckLands(s, e, id) && e.pick[id] == i && i < |s.deliveries|
       && s.deliveries[i].attempt < s.table[id].attempts
  }

  /**
   The acknowledgement of an expired, swept and re-claimed delivery ends the later
   one: the write filters on the status alone.
   */
  lemma StaleAckExample() returns (events: seq<Event>)
    ensures StaleAckLands(0, events, 0, 1)
    ensures var s := Run(0, events).value;
            && 1 in s.table && s.table[1].status == Done
            && |s.deliveries| == 2 && s.deliveries[1].phase == InFlight
  {
    hide Run;
    var before := SweptAndReclaimed();
    var s := Run(0, before).value;
    var ack, write := Ack(0, Success), WriteAcks("q", {0}, map[1 := 0]);
    RunAppend(0, before, ack);
    var acked := before + [ack];
    assert IsDecided(Run(0, acked).value, 0);
    RunAppend(0, acked, write);
    events := acked + [write];
    assert events[..|events| - 1] == acked;
  }

  lemma SweptAndReclaimed() returns (events: seq<Event>)
    ensures IsRun(0, events)
    ensures var s := Run(0, events).value;
            && 1 in s.table && s.table[1].status == Running && s.table[1].queue == "q" && s.table[1].attempts == 2
            && s.deliveries == [Delivery(1, "q", 1, 3, InFlight), Delivery(1, "q", 2, 3, InFlight)]
  {
    hide Run;
    var first := ClaimedOnce();
    var s1 := Run(0, first).value;
    RunAppend(0, first, Tick(6));
    var late := first + [Tick(6)];
    RunAppend(0, late, Sweep("q"));
    var swept := late + [Sweep("q")];
    var s2 := Run(0, swept).value;
    assert s2.table.Keys == {1};
    var s3;
    events, s3 := ClaimOnly(0, swept, 1, "b", 1);
  }

  lemma ClaimedOnce() returns (events: seq<Event>)
    ensures IsRun(0, events)
    ensures var s := Run(0, events).value;
            && s.now == 0 && s.claims == map[]
            && s.table == map[1 := Row("q", "job", Running, 1, 3, 0, Some(5), Some("a"), None, None)]
            && s.deliveries == [Delivery(1, "q", 1, 3, InFlight)]
  {
    var push := Push(1, "q", "job", 3, 0);
    RunAppend(0, [], push);
    var s1 := Run(0, [] + [push]).value;
    assert s1.table == map[1 := Row("q", "job", Pending, 0, 3, 0, None, None, None, None)];
    var s2;
    events, s2 := ClaimOnly(0, [] + [push], 0, "a", 1);
  }

  lemma OnlyClaimable(t: Table, id: TaskId, now: int)
    requires t.Keys == {id} && Due(t[id], t[id].queue, now)
    ensures ClaimSelection(t, t[id].queue, now, {}, [id])
  {
  }

  /** Extends a run over a one-row table by an uncontended claim of its due row. */
  lemma ClaimOnly(start: int, events: seq<Event>, txn: nat, worker: string, id: TaskId)
    returns (longer: seq<Event>, s': State)
    requires IsRun(start, events)
    requires var s := Run(start, events).value;
             s.claims == map[] && s.table.Keys == {id} && Due(s.table[id], s.table[id].queue, s.now)
             && s.table[id].attempts < I32_MAX
    ensures IsRun(start, longer) && s' == Run(start, longer).value && s'.claims == map[]
    ensures var s := Run(start, events).value;
            && s'.now == s.now
            && s'.table == map[id := ClaimRow(s.table[id], worker, s.now + 5)]
            && s'.deliveries == s.deliveries
                 + [Delivery(id, s.table[id].queue, s.table[id].attempts + 1, s.table[id].maxAttempts, InFlight)]
  {
    hide Run, ClaimSelection;
    var s := Run(start, events).value;
    var e := BeginClaim(txn, worker, s.table[id].queue, 1, [id]);
    assert Locked(s) == {};
    OnlyClaimable(s.table, id, s.now);
    RunAppend(start, events, e);
    RunAppend(start, events + [e], CommitClaim(txn));
    longer := events + [e] + [CommitClaim(txn)];
    s' := Run(start, longer).value;
    assert s'.table == map[id := ClaimRow(s.table[id], worker, s.now + 5)];
    assert s'.claims == map[];
  }
}
