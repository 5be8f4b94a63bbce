/**
 The jobs table behind the Postgres task-queue storage: its rows, the SQL
 statements that update them, the retry backoff and the acknowledgement rule.
 Times are microseconds on one clock.
 */
module JobTable {
  import opened Wrappers

  /** A ULID. Its text order, which the claim query sorts by, is its numeric order. */
  type TaskId = nat

  const BUFFER_SIZE: nat := 10
  const DEFAULT_MAX_ATTEMPTS: int := 10
  const I32_MAX: int := 0x7fff_ffff
  const SECOND: int := 1_000_000

  datatype Status = Pending | Running | Done | Killed

  datatype Row = Row(
    queue: string,
    payload: string,
    status: Status,
    attempts: int,
    maxAttempts: int,
    runAt: int,
    lockAt: Option<int>,
    lockBy: Option<string>,
    doneAt: Option<int>,
    lastError: Option<string>)

  type Table = map<TaskId, Row>

  /** An explicit attempt budget wins; the default context inherits the storage setting. */
  function ResolveMaxAttempts(context: int, configured: int): int {
    if context == DEFAULT_MAX_ATTEMPTS then configured else context
  }

  /** The budget as the acknowledgement reads it: at least one attempt. */
  function Budget(maxAttempts: int): (budget: nat)
    ensures budget >= 1 && budget >= maxAttempts
  {
    if maxAttempts < 1 then 1 else maxAttempts
  }

  // --- Acknowledgements -------------------------------------------------------

  datatype Outcome = Success | Abort(error: string) | Failure(error: string)

  datatype Verdict = Verdict(status: Status, runAt: Option<int>, lastError: Option<string>)

  function ShiftLeft(shift: nat): nat {
    if shift == 0 then 1 else 2 * ShiftLeft(shift - 1)
  }

  function Min(a: int, b: int): int {
    if a < b then a else b
  }

  /** Seconds before a failed task becomes visible again. */
  function RetryBackoff(attempt: nat): nat {
    var shift := Min((if attempt < 1 then 1 else attempt) - 1, 16);
    Min(ShiftLeft(shift), 3600)
  }

  lemma {:induction false} ShiftLeftGrows(a: nat, b: nat)
    requires a <= b
    ensures ShiftLeft(a) <= ShiftLeft(b)
  {
    if a < b {
      ShiftLeftGrows(a, b - 1);
    }
  }

  /**
   The shift cap never shows: the wait is exactly 2^(attempt-1) seconds capped at
   one hour, it reaches the cap from attempt 13 on, and it never decreases.
   */
  lemma BackoffDoublesToAnHour(attempt: nat, later: nat)
    requires 1 <= attempt <= later
    ensures RetryBackoff(attempt) == Min(ShiftLeft(attempt - 1), 3600)
    ensures RetryBackoff(attempt) == 3600 <==> attempt >= 13
    ensures RetryBackoff(attempt) <= RetryBackoff(later)
    ensures RetryBackoff(0) == 1
  {
    assert ShiftLeft(11) == 2048 && ShiftLeft(12) == 4096;
    ShiftLeftGrows(Min(attempt - 1, 16), Min(later - 1, 16));
    if attempt >= 13 {
      ShiftLeftGrows(12, attempt - 1);
      ShiftLeftGrows(12, Min(attempt - 1, 16));
    } else {
      ShiftLeftGrows(attempt - 1, 11);
    }
  }

  /** What the storage records when a run of a task ends. */
  function Decide(outcome: Outcome, attempt: nat, maxAttempts: int, now: int): Verdict {
    match outcome
    case Success => Verdict(Done, None, None)
    case Abort(error) => Verdict(Killed, None, Some(error))
    case Failure(error) =>
      if attempt >= Budget(maxAttempts) then Verdict(Killed, None, Some(error))
      else Verdict(Pending, Some(now + RetryBackoff(attempt) * SECOND), Some(error))
  }

  // --- The statements ---------------------------------------------------------

  /** INSERT ... ON CONFLICT DO NOTHING, for both push and schedule. */
  function Inserted(t: Table, id: TaskId, queue: string, payload: string, maxAttempts: int, runAt: int): Table {
    if id in t then t
    else t[id := Row(queue, payload, Pending, 0, maxAttempts, runAt, None, None, None, None)]
  }

  predicate Due(r: Row, queue: string, now: int) {
    r.queue == queue && r.status == Pending && r.runAt <= now
  }

  /** The claim order: due time, then task id. */
  predicate Precedes(t: Table, a: TaskId, b: TaskId)
    requires a in t && b in t
  {
    t[a].runAt < t[b].runAt || (t[a].runAt == t[b].runAt && a < b)
  }

  predicate Claimable(t: Table, queue: string, now: int, locked: set<TaskId>, id: TaskId) {
    id in t && Due(t[id], queue, now) && id !in locked
  }

  /** ids is what SELECT ... ORDER BY run_at, task_id LIMIT 10 FOR UPDATE SKIP LOCKED locks. */
  ghost predicate ClaimSelection(t: Table, queue: string, now: int, locked: set<TaskId>, ids: seq<TaskId>) {
    && |ids| <= BUFFER_SIZE
    && (forall k | 0 <= k < |ids| :: Claimable(t, queue, now, locked, ids[k]))
    && (forall j, k | 0 <= j < k < |ids| :: Precedes(t, ids[j], ids[k]))
    && (forall id | Claimable(t, queue, now, locked, id) && id !in ids ::
          |ids| == BUFFER_SIZE && forall k | 0 <= k < |ids| :: Precedes(t, ids[k], id))
  }

  function ClaimRow(r: Row, worker: string, deadline: int): Row {
    r.(status := Running, lockBy := Some(worker), lockAt := Some(deadline), attempts := r.attempts + 1)
  }

  function Claimed(t: Table, ids: seq<TaskId>, worker: string, deadline: int): Table {
    map id | id in t :: if id in ids then ClaimRow(t[id], worker, deadline) else t[id]
  }

  predicate HeldBy(r: Row, queue: string, worker: string) {
    r.queue == queue && r.status == Running && r.lockBy == Some(worker)
  }

  function Refreshed(t: Table, queue: string, worker: string, deadline: int): Table {
    map id | id in t :: if HeldBy(t[id], queue, worker) then t[id].(lockAt := Some(deadline)) else t[id]
  }

  predicate Orphaned(r: Row, queue: string, now: int) {
    r.queue == queue && r.status == Running && r.lockAt.Some? && r.lockAt.value < now
  }

  function Swept(t: Table, queue: string, now: int): Table {
    map id | id in t ::
      if Orphaned(t[id], queue, now) then
        t[id].(status := Pending, lockBy := None, lockAt := None,
               lastError := if t[id].lastError.Some? then t[id].lastError else Some("abandoned: lock expired"))
      else t[id]
  }

  function AckRow(r: Row, v: Verdict, now: int): Row {
    r.(status := v.status,
       runAt := if v.runAt.Some? then v.runAt.value else r.runAt,
       lastError := v.lastError,
       lockBy := None,
       lockAt := None,
       doneAt := if v.status in {Done, Killed} then Some(now) else None)
  }

  predicate StillRunning(t: Table, queue: string, id: TaskId) {
    id in t && t[id].queue == queue && t[id].status == Running
  }

  function Acked(t: Table, queue: string, verdicts: map<TaskId, Verdict>, now: int): Table {
    map id | id in t ::
      if id in verdicts && StillRunning(t, queue, id) then AckRow(t[id], verdicts[id], now) else t[id]
  }

  predicate InQueue(t: Table, queue: string, id: TaskId) {
    id in t && t[id].queue == queue
  }

  function Rescheduled(t: Table, id: TaskId, queue: string, runAt: int): Table {
    if InQueue(t, queue, id)
    then t[id := t[id].(status := Pending, runAt := runAt, lockBy := None, lockAt := None)]
    else t
  }

  predicate Expired(r: Row, queue: string, cutoff: int) {
    r.queue == queue && r.status in {Done, Killed} && r.doneAt.Some? && r.doneAt.value < cutoff
  }

  function Vacuumed(t: Table, queue: string, cutoff: int): Table {
    map id | id in t && !Expired(t[id], queue, cutoff) :: t[id]
  }

  // --- The table, updated in place --------------------------------------------

  /** The storage's statements against its one table. */
  class PostgresStorage {
    var rows: Table
    const queue: string
    const configuredAttempts: int
    const keepAlive: nat
    const retention: nat

    constructor (queue: string, configuredAttempts: int, keepAlive: nat, retention: nat, rows: Table)
      ensures this.queue == queue && this.configuredAttempts == configuredAttempts
      ensures this.keepAlive == keepAlive && this.retention == retention && this.rows == rows
    {
      this.queue, this.configuredAttempts, this.keepAlive := queue, configuredAttempts, keepAlive;
      this.retention, this.rows := retention, rows;
    }

    method PushRequest(id: TaskId, payload: string, context: int, runAt: int)
      modifies this`rows
      ensures rows == Inserted(old(rows), id, queue, payload, ResolveMaxAttempts(context, configuredAttempts), runAt)
      ensures id !in old(rows) && context != 10 ==> id in rows && rows[id].maxAttempts == context
      ensures id !in old(rows) && context == 10 ==> id in rows && rows[id].maxAttempts == configuredAttempts
    {
      if id !in rows {
        var budget := ResolveMaxAttempts(context, configuredAttempts);
        rows := rows[id := Row(queue, payload, Pending, 0, budget, runAt, None, None, None, None)];
      }
    }

    /**
     The claim's subselect: up to ten unlocked rows of the queue that are pending and due, earliest
     due time first, then the smaller id; a row that qualifies is left out only behind ten others.
     */
    method LockDue(now: int, locked: set<TaskId>) returns (ids: seq<TaskId>)
      ensures ClaimSelection(rows, queue, now, locked, ids)
      ensures |ids| <= 10
      ensures forall k | 0 <= k < |ids| ::
                && ids[k] in rows && ids[k] !in locked
                && rows[ids[k]].queue == queue && rows[ids[k]].status == Pending && rows[ids[k]].runAt <= now
      ensures forall j, k | 0 <= j < k < |ids| ::
                rows[ids[j]].runAt < rows[ids[k]].runAt
                || (rows[ids[j]].runAt == rows[ids[k]].runAt && ids[j] < ids[k])
      ensures forall id | id in rows && id !in locked && id !in ids
                          && rows[id].queue == queue && rows[id].status == Pending && rows[id].runAt <= now ::
                && |ids| == 10
                && forall k | 0 <= k < 10 ::
                     rows[ids[k]].runAt < rows[id].runAt
                     || (rows[ids[k]].runAt == rows[id].runAt && ids[k] < id)
    {
      ids := [];
      var rest := set id | id in rows && Claimable(rows, queue, now, locked, id);
      while |ids| < BUFFER_SIZE && rest != {}
        invariant |ids| <= BUFFER_SIZE
        invariant forall id :: Claimable(rows, queue, now, locked, id) <==> id in rest || id in ids
        invariant forall k | 0 <= k < |ids| :: ids[k] !in rest
        invariant forall j, k | 0 <= j < k < |ids| :: Precedes(rows, ids[j], ids[k])
        invariant forall k, id | 0 <= k < |ids| && id in rest :: Precedes(rows, ids[k], id)
        decreases rest
      {
        var first := Earliest(rest);
        rest := rest - {first};
        ids := ids + [first];
      }
    }

    method Earliest(ids: set<TaskId>) returns (first: TaskId)
      requires ids != {} && forall id | id in ids :: id in rows
      ensures first in ids
      ensures forall id | id in ids && id != first :: Precedes(rows, first, id)
    {
      first :| first in ids;
      var rest := ids - {first};
      while rest != {}
        invariant first in ids && rest <= ids
        invariant forall id | id in ids - rest && id != first :: Precedes(rows, first, id)
        decreases rest
      {
        var id :| id in rest;
        if id != first && !Precedes(rows, first, id) {
          first := id;
        }
        assert ids - (rest - {id}) == (ids - rest) + {id};
        rest := rest - {id};
      }
    }

    /** The claim's UPDATE on the locked rows; the deadline was computed before the statement ran. */
    method CommitClaim(ids: seq<TaskId>, worker: string, began: int) returns (ok: bool)
      requires forall j, k | 0 <= j < k < |ids| :: ids[j] != ids[k]
      requires forall k | 0 <= k < |ids| :: ids[k] in rows
      modifies this`rows
      ensures ok <==> forall id | id in ids :: old(rows)[id].attempts < 2_147_483_647
      ensures rows == if ok then Claimed(old(rows), ids, worker, began + 5 * keepAlive) else old(rows)
    {
      // The attempts column is a 32-bit integer: one row at its maximum fails the statement.
      ok := forall id | id in ids :: rows[id].attempts < I32_MAX;
      if !ok {
        return;
      }
      for n := 0 to |ids|
        invariant rows == Claimed(old(rows), ids[..n], worker, began + 5 * keepAlive)
      {
        var id := ids[n];
        assert id !in ids[..n];
        rows := rows[id := ClaimRow(rows[id], worker, began + 5 * keepAlive)];
        assert ids[..n + 1] == ids[..n] + [id];
      }
      assert ids[..|ids|] == ids;
    }

    /** The keep-alive beat: this worker's running rows, and no others, are locked for five beats from now. */
    method RefreshLocks(worker: string, now: int)
      modifies this`rows
      ensures rows == Refreshed(old(rows), queue, worker, now + 5 * keepAlive)
      ensures forall id | id in old(rows) ::
                var r := old(rows)[id];
                && id in rows
                && rows[id] == if r.queue == queue && r.status == Running && r.lockBy == Some(worker)
                               then r.(lockAt := Some(now + 5 * keepAlive)) else r
    {
      var rest := rows.Keys;
      while rest != {}
        invariant rest <= rows.Keys == old(rows).Keys
        invariant forall id | id in rows ::
                    rows[id] == if id in rest then old(rows)[id]
                                else Refreshed(old(rows), queue, worker, now + 5 * keepAlive)[id]
        decreases rest
      {
        var id :| id in rest;
        var r := rows[id];
        if r.queue == queue && r.status == Running && r.lockBy == Some(worker) {
          rows := rows[id := r.(lockAt := Some(now + 5 * keepAlive))];
        }
        rest := rest - {id};
      }
    }

    /** Afterwards no running row of the queue has an expired lock: those that had are pending and unlocked. */
    method SweepOrphans(now: int)
      modifies this`rows
      ensures rows == Swept(old(rows), queue, now)
      ensures forall id | id in rows && rows[id].queue == queue && rows[id].status == Running ::
                rows[id].lockAt.None? || rows[id].lockAt.value >= now
      ensures forall id | id in old(rows) ::
                var r := old(rows)[id];
                && id in rows
                && if r.queue == queue && r.status == Running && r.lockAt.Some? && r.lockAt.value < now
                   then rows[id] == r.(status := Pending, lockBy := None, lockAt := None,
                                       lastError := if r.lastError.Some? then r.lastError
                                                    else Some("abandoned: lock expired"))
                   else rows[id] == r
    {
      var rest := rows.Keys;
      while rest != {}
        invariant rest <= rows.Keys == old(rows).Keys
        invariant forall id | id in rows ::
                    rows[id] == if id in rest then old(rows)[id] else Swept(old(rows), queue, now)[id]
        decreases rest
      {
        var id :| id in rest;
        var r := rows[id];
        if r.queue == queue && r.status == Running && r.lockAt.Some? && r.lockAt.value < now {
          var error := if r.lastError.Some? then r.lastError else Some("abandoned: lock expired");
          rows := rows[id := r.(status := Pending, lockBy := None, lockAt := None, lastError := error)];
        }
        rest := rest - {id};
      }
    }

    /**
     Writes a batch of verdicts. Two acknowledgements of one task in one batch leave
     one of them in effect; Postgres does not say which, this body takes the earlier.
     */
    method WriteAcks(acks: seq<(TaskId, Verdict)>, now: int) returns (applied: map<TaskId, Verdict>)
      modifies this`rows
      ensures rows == Acked(old(rows), queue, applied, now)
      ensures forall a | a in acks :: a.0 in applied
      ensures forall id | id in applied :: (id, applied[id]) in acks
    {
      applied := map[];
      for n := 0 to |acks|
        invariant forall k | 0 <= k < n :: acks[k].0 in applied
        invariant forall id | id in applied :: (id, applied[id]) in acks[..n]
      {
        if acks[n].0 !in applied {
          applied := applied[acks[n].0 := acks[n].1];
        }
        assert acks[..n + 1] == acks[..n] + [acks[n]];
        assert (acks[n].0, acks[n].1) == acks[n];
      }
      rows := Acked(rows, queue, applied, now);
    }

    method Reschedule(id: TaskId, now: int, wait: nat)
      modifies this`rows
      ensures rows == Rescheduled(old(rows), id, queue, now + wait)
    {
      if id in rows && rows[id].queue == queue {
        rows := rows[id := rows[id].(status := Pending, runAt := now + wait, lockBy := None, lockAt := None)];
      }
    }

    method Vacuum(now: int) returns (removed: nat)
      modifies this`rows
      ensures rows == Vacuumed(old(rows), queue, now - retention)
      ensures removed == |old(rows)| - |rows|
    {
      var kept := Vacuumed(rows, queue, now - retention);
      assert kept.Keys <= rows.Keys;
      SmallerMap(kept, rows);
      removed := |rows| - |kept|;
      rows := kept;
    }
  }

  lemma SmallerMap<K, V>(small: map<K, V>, large: map<K, V>)
    requires small.Keys <= large.Keys
    ensures |small| <= |large|
  {
    assert large.Keys == small.Keys + (large.Keys - small.Keys);
    assert |large.Keys| == |small.Keys| + |large.Keys - small.Keys|;
    assert |small| == |small.Keys| && |large| == |large.Keys|;
  }

  lemma NotInPrefix(t: Table, queue: string, now: int, locked: set<TaskId>, a: seq<TaskId>, n: nat)
    requires ClaimSelection(t, queue, now, locked, a) && n < |a|
    ensures a[n] !in a[..n]
  {
    forall k | 0 <= k < n ensures a[k] != a[n] {
      assert Precedes(t, a[k], a[n]);
    }
  }

  lemma NoLater(t: Table, queue: string, now: int, locked: set<TaskId>, a: seq<TaskId>, b: seq<TaskId>, n: nat)
    requires ClaimSelection(t, queue, now, locked, a) && ClaimSelection(t, queue, now, locked, b)
    requires n < |a| && n < |b| && a[..n] == b[..n]
    ensures b[n] == a[n] || Precedes(t, b[n], a[n])
  {
    NotInPrefix(t, queue, now, locked, a, n);
    assert forall k | 0 <= k < n :: b[k] in b[..n];
    if a[n] in b {
      var k :| 0 <= k < |b| && b[k] == a[n];
      assert n < k ==> Precedes(t, b[n], b[k]);
    }
  }

  /** The claim locks one definite list of rows. */
  lemma {:induction false} SelectionIsUnique(
      t: Table, queue: string, now: int, locked: set<TaskId>, a: seq<TaskId>, b: seq<TaskId>, n: nat)
    requires ClaimSelection(t, queue, now, locked, a) && ClaimSelection(t, queue, now, locked, b)
    requires n <= |a| && n <= |b| && a[..n] == b[..n]
    ensures a == b
    decreases |a| - n
  {
    if n < |a| && n < |b| {
      NoLater(t, queue, now, locked, a, b, n);
      NoLater(t, queue, now, locked, b, a, n);
      assert a[..n + 1] == a[..n] + [a[n]] && b[..n + 1] == b[..n] + [b[n]];
      SelectionIsUnique(t, queue, now, locked, a, b, n + 1);
    } else if n < |a| {
      assert b == b[..n];
      NotInPrefix(t, queue, now, locked, a, n);
    } else if n < |b| {
      assert a == a[..n];
      NotInPrefix(t, queue, now, locked, b, n);
    } else {
      assert a == a[..n] && b == b[..n];
    }
  }
}
