/**
 The job queue as a step system: workers claim rows in two steps (lock with SKIP
 LOCKED, then commit), keep their locks alive, sweep expired ones, acknowledge
 deliveries through a batched channel, and reschedule or vacuum rows, in any
 interleaving. The theorems hold for every run from an empty table.
 */
module JobQueue {
  import opened Wrappers
  import opened JobTable

  /** An acknowledgement is decided once, then written or lost with its batch. */
  datatype Phase = InFlight | Decided(verdict: Verdict) | Settled

  datatype Delivery = Delivery(id: TaskId, queue: string, attempt: int, maxAttempts: int, phase: Phase)

  /** A claim statement between taking its row locks and committing. */
  datatype Claim = Claim(worker: string, queue: string, began: int, keepAlive: nat, ids: seq<TaskId>)

  datatype State = State(now: int, table: Table, claims: map<nat, Claim>, deliveries: seq<Delivery>)

  datatype Event =
    | Tick(elapsed: nat)
    | Push(id: TaskId, queue: string, payload: string, maxAttempts: int, runAt: int)
    | BeginClaim(txn: nat, worker: string, queue: string, keepAlive: nat, ids: seq<TaskId>)
    | CommitClaim(txn: nat)
    | AbortClaim(txn: nat)
    | Refresh(worker: string, queue: string, keepAlive: nat)
    | Sweep(queue: string)
    | Ack(delivery: nat, outcome: Outcome)
    | WriteAcks(queue: string, batch: set<nat>, pick: map<TaskId, nat>)
    | LoseAcks(batch: set<nat>)
    | Reschedule(id: TaskId, queue: string, wait: nat)
    | Vacuum(queue: string, retention: nat)

  function Start(now: int): State {
    State(now, map[], map[], [])
  }

  ghost predicate LockedBy(s: State, txn: nat, id: TaskId) {
    txn in s.claims && id in s.claims[txn].ids
  }

  function Locked(s: State): set<TaskId> {
    set txn, id | txn in s.claims && id in s.claims[txn].ids :: id
  }

  predicate IsDecided(s: State, i: nat) {
    i < |s.deliveries| && s.deliveries[i].phase.Decided?
  }

  /** One decided delivery of the batch for each task the batch mentions. */
  predicate PickFits(s: State, batch: set<nat>, pick: map<TaskId, nat>) {
    && (forall i | i in batch && IsDecided(s, i) :: s.deliveries[i].id in pick)
    && (forall id | id in pick :: pick[id] in batch && IsDecided(s, pick[id]) && s.deliveries[pick[id]].id == id)
  }

  ghost predicate Enabled(s: State, e: Event) {
    match e
    case BeginClaim(txn, _, queue, _, ids) =>
      txn !in s.claims && ClaimSelection(s.table, queue, s.now, Locked(s), ids)
    case CommitClaim(txn) =>
      // The attempts column is a 32-bit integer: at its maximum the statement fails.
      txn in s.claims && forall id | id in s.claims[txn].ids && id in s.table :: s.table[id].attempts < I32_MAX
    case AbortClaim(txn) => txn in s.claims
    case Ack(i, _) => i < |s.deliveries| && s.deliveries[i].phase.InFlight?
    case WriteAcks(queue, batch, pick) =>
      && 0 < |batch| <= BUFFER_SIZE
      && (forall i | i in batch :: IsDecided(s, i) && s.deliveries[i].queue == queue)
      && PickFits(s, batch, pick)
    case LoseAcks(batch) => forall i | i in batch :: IsDecided(s, i)
    case Reschedule(id, _, _) => id !in Locked(s) // otherwise it waits for the row lock
    case _ => true
  }

  function Deliver(t: Table, c: Claim): (ds: seq<Delivery>)
    requires forall id | id in c.ids :: id in t
    ensures |ds| == |c.ids|
  {
    seq(|c.ids|, k requires 0 <= k < |c.ids| =>
      Delivery(c.ids[k], c.queue, t[c.ids[k]].attempts + 1, t[c.ids[k]].maxAttempts, InFlight))
  }

  function Settle(ds: seq<Delivery>, batch: set<nat>): (r: seq<Delivery>)
    ensures |r| == |ds|
  {
    seq(|ds|, i requires 0 <= i < |ds| => if i in batch then ds[i].(phase := Settled) else ds[i])
  }

  function Verdicts(s: State, pick: map<TaskId, nat>): map<TaskId, Verdict> {
    map id | id in pick && IsDecided(s, pick[id]) :: s.deliveries[pick[id]].phase.verdict
  }

  /** Locked rows exist, are pending, and belong to one claim each. */
  ghost predicate LocksSound(s: State) {
    && (forall txn, id | LockedBy(s, txn, id) :: id in s.table && s.table[id].status == Pending)
    && (forall t1, t2, id | LockedBy(s, t1, id) && LockedBy(s, t2, id) :: t1 == t2)
    && (forall txn | txn in s.claims :: Distinct(s.claims[txn].ids))
  }

  ghost predicate Distinct(ids: seq<TaskId>) {
    forall j, k | 0 <= j < k < |ids| :: ids[j] != ids[k]
  }

  /** Attempts are counted from zero; only attempts under budget may be re-queued. */
  ghost predicate AcksSound(s: State) {
    && (forall id | id in s.table :: s.table[id].attempts >= 0)
    && (forall i | 0 <= i < |s.deliveries| :: DeliverySound(s.deliveries[i]))
  }

  ghost predicate DeliverySound(d: Delivery) {
    && d.attempt >= 1
    && (d.phase.Decided? ==>
          && d.phase.verdict.status != Running
          && (d.phase.verdict.status == Pending ==> d.attempt < Budget(d.maxAttempts)))
  }

  ghost predicate Inv(s: State) {
    LocksSound(s) && AcksSound(s)
  }

  ghost function Next(s: State, e: Event): State
    requires Inv(s) && Enabled(s, e)
  {
    match e
    case Tick(elapsed) => s.(now := s.now + elapsed)
    case Push(id, queue, payload, maxAttempts, runAt) =>
      s.(table := Inserted(s.table, id, queue, payload, maxAttempts, runAt))
    case BeginClaim(txn, worker, queue, keepAlive, ids) =>
      s.(claims := s.claims[txn := Claim(worker, queue, s.now, keepAlive, ids)])
    case CommitClaim(txn) =>
      var c := s.claims[txn];
      assert forall id | id in c.ids :: LockedBy(s, txn, id);
      s.(table := Claimed(s.table, c.ids, c.worker, c.began + 5 * c.keepAlive),
         claims := s.claims - {txn},
         deliveries := s.deliveries + Deliver(s.table, c))
    case AbortClaim(txn) => s.(claims := s.claims - {txn})
    case Refresh(worker, queue, keepAlive) =>
      s.(table := Refreshed(s.table, queue, worker, s.now + 5 * keepAlive))
    case Sweep(queue) => s.(table := Swept(s.table, queue, s.now))
    case Ack(i, outcome) =>
      var d := s.deliveries[i];
      s.(deliveries := s.deliveries[i := d.(phase := Decided(Decide(outcome, d.attempt, d.maxAttempts, s.now)))])
    case WriteAcks(queue, batch, pick) =>
      s.(table := Acked(s.table, queue, Verdicts(s, pick), s.now),
         deliveries := Settle(s.deliveries, batch))
    case LoseAcks(batch) => s.(deliveries := Settle(s.deliveries, batch))
    case Reschedule(id, queue, wait) => s.(table := Rescheduled(s.table, id, queue, s.now + wait))
    case Vacuum(queue, retention) => s.(table := Vacuumed(s.table, queue, s.now - retention))
  }

  // --- What one event does to one task ------------------------------------------

  ghost predicate ClaimsTask(s: State, e: Event, id: TaskId) {
    e.CommitClaim? && LockedBy(s, e.txn, id)
  }

  ghost predicate Creates(s: State, e: Event, id: TaskId) {
    e.Push? && e.id == id && id !in s.table
  }

  ghost predicate Orphans(s: State, e: Event, id: TaskId) {
    e.Sweep? && id in s.table && Orphaned(s.table[id], e.queue, s.now)
  }

  ghost predicate Revives(s: State, e: Event, id: TaskId) {
    e.Reschedule? && e.id == id && InQueue(s.table, e.queue, id)
  }

  /** An acknowledgement of some delivery of the task reaches its running row. */
  ghost predicate AckLands(s: State, e: Event, id: TaskId) {
    e.WriteAcks? && id in e.pick && StillRunning(s.table, e.queue, id)
  }

  ghost predicate Requeues(s: State, e: Event, id: TaskId) {
    AckLands(s, e, id) && IsDecided(s, e.pick[id]) && s.deliveries[e.pick[id]].phase.verdict.status == Pending
  }

  ghost predicate Repools(s: State, e: Event, id: TaskId) {
    Creates(s, e, id) || Orphans(s, e, id) || Revives(s, e, id) || Requeues(s, e, id)
  }

  ghost predicate IsPending(s: State, id: TaskId) {
    id in s.table && s.table[id].status == Pending
  }

  /** The claimable status of a task changes only by claims, repooling steps, and in no other way. */
  lemma PendingChanges(s: State, e: Event, id: TaskId)
    requires Inv(s) && Enabled(s, e)
    ensures ClaimsTask(s, e, id) ==> IsPending(s, id) && !IsPending(Next(s, e), id)
    ensures Repools(s, e, id) ==> IsPending(Next(s, e), id)
    ensures !ClaimsTask(s, e, id) && !Repools(s, e, id) ==> IsPending(Next(s, e), id) == IsPending(s, id)
  {
    if e.WriteAcks? {
      AckChanges(s, e, id);
    } else {
      hide AcksSound;
      assert e.Reschedule? && e.id != id && id in s.table ==> Next(s, e).table[id] == s.table[id];
    }
  }

  lemma AckChanges(s: State, e: Event, id: TaskId)
    requires Inv(s) && Enabled(s, e) && e.WriteAcks?
    ensures Requeues(s, e, id) ==> IsPending(Next(s, e), id)
    ensures !Requeues(s, e, id) ==> IsPending(Next(s, e), id) == IsPending(s, id)
  {
    hide LocksSound;
    assert id in e.pick ==> IsDecided(s, e.pick[id]);
  }

  lemma LockPreserved(s: State, e: Event)
    requires Inv(s) && Enabled(s, e)
    ensures LocksSound(Next(s, e))
  {
    var s' := Next(s, e);
    forall txn, id | LockedBy(s', txn, id) ensures id in s'.table && s'.table[id].status == Pending {
      if LockedBy(s, txn, id) {
        assert id in Locked(s) && IsPending(s, id);
        assert !ClaimsTask(s, e, id);
        PendingChanges(s, e, id);
      }
    }
    assert forall id | e.BeginClaim? && id in e.ids :: Claimable(s.table, e.queue, s.now, Locked(s), id);
    forall t1, t2, id | LockedBy(s', t1, id) && LockedBy(s', t2, id) ensures t1 == t2 {
      if LockedBy(s, t1, id) || LockedBy(s, t2, id) {
        assert id in Locked(s);
        assert e.BeginClaim? ==> id !in e.ids;
        assert LockedBy(s, t1, id) && LockedBy(s, t2, id);
      }
    }
    forall txn | txn in s'.claims ensures Distinct(s'.claims[txn].ids) {
      if e.BeginClaim? && txn == e.txn {
        forall j, k | 0 <= j < k < |e.ids| ensures e.ids[j] != e.ids[k] {
          assert Precedes(s.table, e.ids[j], e.ids[k]);
        }
      }
    }
  }

  lemma AcksPreserved(s: State, e: Event)
    requires Inv(s) && Enabled(s, e)
    ensures AcksSound(Next(s, e))
  {
    var s' := Next(s, e);
    forall i | 0 <= i < |s'.deliveries| ensures DeliverySound(s'.deliveries[i]) {
      if i < |s.deliveries| {
        assert DeliverySound(s.deliveries[i]);
      } else {
        var k := i - |s.deliveries|;
        var id := s.claims[e.txn].ids[k];
        assert LockedBy(s, e.txn, id);
        assert s.table[id].attempts >= 0;
      }
    }
  }

  lemma InvPreserved(s: State, e: Event)
    requires Inv(s) && Enabled(s, e)
    ensures Inv(Next(s, e))
  {
    LockPreserved(s, e);
    AcksPreserved(s, e);
  }

  /** Overlapping claims never hold one row: what SKIP LOCKED buys. */
  lemma OverlappingClaimsAreDisjoint(s: State, t1: nat, t2: nat)
    requires Inv(s) && t1 in s.claims && t2 in s.claims && t1 != t2
    ensures forall id :: !(id in s.claims[t1].ids && id in s.claims[t2].ids)
  {
    forall id | id in s.claims[t1].ids && id in s.claims[t2].ids ensures false {
      assert LockedBy(s, t1, id) && LockedBy(s, t2, id);
    }
  }

  /**
   Acknowledging returns a task to the pool exactly from a failed delivery below the budget, due
   after its backoff; every other failure kills it, and the row's error text is the outcome's.
   */
  lemma RequeueNeedsBudget(outcome: Outcome, attempt: nat, maxAttempts: int, now: int)
    requires attempt >= 1
    ensures var v := Decide(outcome, attempt, maxAttempts, now);
            && (v.status == Pending <==> outcome.Failure? && attempt < maxAttempts)
            && (v.status == Done <==> outcome.Success?) && v.status != Running
            && (v.runAt.Some? <==> v.status == Pending)
            && (v.runAt.Some? ==>
                  && v.runAt.value == now + Min(ShiftLeft(attempt - 1), 3600) * 1_000_000
                  && now + 1_000_000 <= v.runAt.value <= now + 3600 * 1_000_000)
            && v.lastError == if outcome.Success? then None else Some(outcome.error)
  {
    BackoffDoublesToAnHour(attempt, attempt);
    ShiftLeftGrows(0, attempt - 1);
  }

  /**
   A batch write leaves a task's row as it was exactly when the row is not running in
   that queue at that moment; whose delivery is acknowledged plays no part.
   */
  lemma AckDroppedIffNotRunning(s: State, e: Event, id: TaskId)
    requires Inv(s) && Enabled(s, e) && e.WriteAcks? && id in e.pick && id in s.table
    ensures Next(s, e).table[id] == s.table[id] <==> s.table[id].queue != e.queue || s.table[id].status != Running
  {
    assert IsDecided(s, e.pick[id]);
    assert DeliverySound(s.deliveries[e.pick[id]]);
  }
}
