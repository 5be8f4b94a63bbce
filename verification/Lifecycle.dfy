/**
 The application lifecycle: servers run until something triggers the shutdown,
 then a bounded drain, the before hooks, the bounded stops and the after hooks.
 How long everything takes and how it ends are inputs; futures that end at the
 same instant are taken in any order.
 */
module Lifecycle {
  import opened Wrappers

  datatype ServerError = Cancelled | Timeout | Failed(message: string) | Panicked(message: string)

  /** How a start or stop future ends: well, with an error, or by a caught panic. */
  datatype Raw = Done | Erred(error: ServerError) | Panic(message: string)

  /** When the start future ends, if ever; how long the stop takes, if it ends at all; and how both end. */
  datatype Server = Server(startEnds: Option<nat>, startResult: Raw, stopTakes: Option<nat>, stopResult: Raw)

  datatype Config = Config(servers: seq<Server>, timeout: nat, before: seq<Option<nat>>, after: seq<Option<nat>>)

  // --- The outcome --------------------------------------------------------------

  function Collapse(r: Raw): Option<ServerError> {
    match r
    case Done => None
    case Erred(e) => Some(e)
    case Panic(message) => Some(Panicked(message))
  }

  /** A stop's record: running over its budget is a timeout, whatever it would have returned. */
  function StopRecord(s: Server, timeout: nat): Option<ServerError> {
    if s.stopTakes.Some? && s.stopTakes.value <= timeout then Collapse(s.stopResult) else Some(Timeout)
  }

  function FirstError(records: seq<Option<ServerError>>): Option<ServerError> {
    if records == [] then None
    else if records[0].Some? then records[0]
    else FirstError(records[1..])
  }

  predicate IsReal(e: Option<ServerError>) {
    e.Some? && e.value != Cancelled
  }

  /** The first error that is not a cooperative cancellation. */
  function FirstReal(records: seq<Option<ServerError>>): Option<ServerError> {
    if records == [] then None
    else if IsReal(records[0]) then records[0]
    else FirstReal(records[1..])
  }

  /** What run reports, given the start and stop records in the order they came. */
  function Outcome(starts: seq<Option<ServerError>>, stops: seq<Option<ServerError>>): Option<ServerError> {
    if IsReal(FirstError(starts)) then FirstError(starts)
    else if IsReal(FirstError(stops)) then FirstError(stops)
    else None
  }

  /** What run's documentation promises. */
  function Promised(starts: seq<Option<ServerError>>, stops: seq<Option<ServerError>>): Option<ServerError> {
    if FirstReal(starts).Some? then FirstReal(starts) else FirstReal(stops)
  }

  /** A cancellation came first, and the real error after it was not recorded. */
  predicate Hidden(records: seq<Option<ServerError>>) {
    FirstError(records) == Some(Cancelled) && FirstReal(records).Some?
  }

  lemma {:induction false} FirstIsReal(records: seq<Option<ServerError>>)
    ensures IsReal(FirstError(records)) ==> FirstReal(records) == FirstError(records)
    ensures FirstReal(records).Some? ==> IsReal(FirstReal(records))
    ensures FirstError(records).None? ==> FirstReal(records).None?
  {
    if records != [] {
      FirstIsReal(records[1..]);
    }
  }

  ghost predicate IsFirst(records: seq<Option<ServerError>>, k: nat, e: ServerError) {
    k < |records| && records[k] == Some(e) && forall j | 0 <= j < k :: records[j].None?
  }

  ghost predicate IsFirstReal(records: seq<Option<ServerError>>, k: nat, e: ServerError) {
    && k < |records| && records[k] == Some(e) && e != Cancelled
    && forall j | 0 <= j < k :: records[j].None? || records[j] == Some(Cancelled)
  }

  /** The first error has only successes before it, the first real one only successes and cancellations. */
  lemma {:induction false} FirstErrorIff(records: seq<Option<ServerError>>, e: ServerError)
    ensures FirstError(records) == Some(e) <==> exists k: nat :: IsFirst(records, k, e)
    ensures FirstReal(records) == Some(e) <==> exists k: nat :: IsFirstReal(records, k, e)
  {
    if records != [] {
      var rest := records[1..];
      FirstErrorIff(rest, e);
      forall k: nat | IsFirst(rest, k, e) && records[0].None? ensures IsFirst(records, k + 1, e) {
      }
      forall k: nat | IsFirst(records, k, e) && k > 0 ensures IsFirst(rest, k - 1, e) && records[0].None? {
      }
      forall k: nat | IsFirstReal(rest, k, e) && !IsReal(records[0]) ensures IsFirstReal(records, k + 1, e) {
      }
      forall k: nat | IsFirstReal(records, k, e) && k > 0 ensures IsFirstReal(rest, k - 1, e) && !IsReal(records[0]) {
      }
      assert records[0] == Some(e) ==> IsFirst(records, 0, e);
      assert records[0] == Some(e) && e != Cancelled ==> IsFirstReal(records, 0, e);
    }
  }

  /**
   The promise is kept exactly when no cancellation hides a real error that counts;
   a hidden start error is still reported if the first stop error happens to be the same.
   */
  lemma OutcomeAsPromisedIff(starts: seq<Option<ServerError>>, stops: seq<Option<ServerError>>)
    ensures Outcome(starts, stops) == Promised(starts, stops) <==>
      if Hidden(starts) then FirstError(stops) == FirstReal(starts)
      else FirstReal(starts).Some? || !Hidden(stops)
  {
    FirstIsReal(starts);
    FirstIsReal(stops);
  }

  /** A failure is hidden exactly when both phases' first errors, if any, are cancellations, and one hides it. */
  lemma SilentFailureIff(starts: seq<Option<ServerError>>, stops: seq<Option<ServerError>>)
    ensures Outcome(starts, stops).None? && Promised(starts, stops).Some? <==>
      !IsReal(FirstError(starts)) && !IsReal(FirstError(stops)) && (Hidden(starts) || Hidden(stops))
  {
    FirstIsReal(starts);
    FirstIsReal(stops);
  }

  // --- The order futures end in -------------------------------------------------

  function Starts(servers: seq<Server>): (at: seq<Option<nat>>)
    ensures |at| == |servers| && forall i | 0 <= i < |at| :: at[i] == servers[i].startEnds
  {
    seq(|servers|, i requires 0 <= i < |servers| => servers[i].startEnds)
  }

  function Bounded(d: Option<nat>, timeout: nat): nat {
    if d.Some? && d.value <= timeout then d.value else timeout
  }

  function Stops(servers: seq<Server>, timeout: nat): (at: seq<Option<nat>>)
    ensures |at| == |servers|
    ensures forall i | 0 <= i < |at| ::
              at[i] == match servers[i].stopTakes
                       case Some(d) => Some(if d <= timeout then d else timeout)
                       case None => Some(timeout)
  {
    seq(|servers|, i requires 0 <= i < |servers| => Some(Bounded(servers[i].stopTakes, timeout)))
  }

  ghost predicate EndsBy(at: seq<Option<nat>>, i: nat, limit: nat) {
    i < |at| && at[i].Some? && at[i].value <= limit
  }

  predicate NoLater(at: seq<Option<nat>>, i: nat, j: nat) {
    i < |at| && j < |at| && at[i].Some? && at[j].Some? && at[i].value <= at[j].value
  }

  /** Exactly the futures that end by the limit, each once, the earlier ones first. */
  ghost predicate InOrder(order: seq<nat>, at: seq<Option<nat>>, limit: nat) {
    && (forall i: nat :: i in order <==> EndsBy(at, i, limit))
    && forall j, k | 0 <= j < k < |order| :: order[j] != order[k] && NoLater(at, order[j], order[k])
  }

  /** The same while some futures are still pending. */
  ghost predicate Taken(order: seq<nat>, pending: set<nat>, at: seq<Option<nat>>, limit: nat) {
    && (forall i: nat :: i in pending ==> i < |at|)
    && (forall i: nat | i in order :: EndsBy(at, i, limit) && i !in pending)
    && (forall i: nat | i < |at| :: i in order || i in pending)
    && (forall j, k | 0 <= j < k < |order| :: order[j] != order[k] && NoLater(at, order[j], order[k]))
    && forall i: nat, j: nat | i in order && j in pending && at[j].Some? :: NoLater(at, i, j)
  }

  lemma TakeNext(order: seq<nat>, pending: set<nat>, at: seq<Option<nat>>, limit: nat, i: nat)
    requires Taken(order, pending, at, limit) && IsNext(at, pending, i) && at[i].value <= limit
    ensures Taken(order + [i], pending - {i}, at, limit)
  {
    var more := order + [i];
    forall j, k | 0 <= j < k < |more| ensures more[j] != more[k] && NoLater(at, more[j], more[k]) {
      assert more[j] == order[j] && order[j] in order;
      assert k < |order| ==> more[k] == order[k];
    }
  }

  lemma AllTaken(order: seq<nat>, pending: set<nat>, at: seq<Option<nat>>, limit: nat)
    requires Taken(order, pending, at, limit) && forall i | i in pending :: !EndsBy(at, i, limit)
    ensures InOrder(order, at, limit)
  {
  }

  /** A pending future that ends, and no pending one before it. */
  predicate IsNext(at: seq<Option<nat>>, pending: set<nat>, i: nat) {
    && i in pending && i < |at| && at[i].Some?
    && forall j: nat | j in pending && j < |at| && at[j].Some? :: NoLater(at, i, j)
  }

  lemma {:induction false} SomeIsNext(at: seq<Option<nat>>, pending: set<nat>)
    requires exists i | i in pending :: i < |at| && at[i].Some?
    ensures exists i: nat :: IsNext(at, pending, i)
    decreases |pending|
  {
    var i :| i in pending && i < |at| && at[i].Some?;
    var rest := pending - {i};
    if exists j | j in rest :: j < |at| && at[j].Some? {
      SomeIsNext(at, rest);
      var j: nat :| IsNext(at, rest, j);
      assert IsNext(at, pending, if at[i].value <= at[j].value then i else j);
    } else {
      assert forall j: nat | j in pending && j < |at| && at[j].Some? :: j == i || j in rest;
      assert IsNext(at, pending, i);
    }
  }

  function StartRecords(servers: seq<Server>, order: seq<nat>): (r: seq<Option<ServerError>>)
    requires forall k | 0 <= k < |order| :: order[k] < |servers|
    ensures |r| == |order|
  {
    seq(|order|, k requires 0 <= k < |order| => Collapse(servers[order[k]].startResult))
  }

  function StopRecords(servers: seq<Server>, timeout: nat, order: seq<nat>): (r: seq<Option<ServerError>>)
    requires forall k | 0 <= k < |order| :: order[k] < |servers|
    ensures |r| == |order|
  {
    seq(|order|, k requires 0 <= k < |order| => StopRecord(servers[order[k]], timeout))
  }

  lemma {:induction false} FirstOfAppend(records: seq<Option<ServerError>>, r: Option<ServerError>)
    ensures FirstError(records + [r]) == if FirstError(records).Some? then FirstError(records) else r
  {
    if records == [] {
      assert ([r])[1..] == [];
    } else {
      assert (records + [r])[1..] == records[1..] + [r];
      FirstOfAppend(records[1..], r);
    }
  }

  // --- The phases ---------------------------------------------------------------

  datatype Event =
    | Signalled
    | BeforeHook(hook: nat)
    | StopCalled(server: nat)
    | StopEnded(server: nat)
    | AfterHook(hook: nat)
    | Published

  function Hooks(before: bool, n: nat): seq<Event> {
    seq(n, (k: nat) => if before then BeforeHook(k) else AfterHook(k))
  }

  function StopCalls(n: nat): seq<Event> { seq(n, (k: nat) => StopCalled(k)) }

  function StopEnds(order: seq<nat>): seq<Event> { seq(|order|, k requires 0 <= k < |order| => StopEnded(order[k])) }

  /** A whole shutdown, given the order the stops ended in. */
  function Shutdown(c: Config, stopOrder: seq<nat>): seq<Event> {
    [Signalled] + Hooks(true, |c.before|) + StopCalls(|c.servers|) + StopEnds(stopOrder)
      + Hooks(false, |c.after|) + [Published]
  }

  function HookTime(hooks: seq<Option<nat>>, timeout: nat): nat {
    if hooks == [] then 0 else HookTime(hooks[..|hooks| - 1], timeout) + Bounded(hooks[|hooks| - 1], timeout)
  }

  /** When the shutdown starts: at the signal, or as soon as a server's start ends. */
  ghost predicate IsTrigger(servers: seq<Server>, signalAt: Option<nat>, t: nat) {
    && (signalAt == Some(t) || exists i | 0 <= i < |servers| :: servers[i].startEnds == Some(t))
    && (signalAt.Some? ==> t <= signalAt.value)
    && forall i | 0 <= i < |servers| && servers[i].startEnds.Some? :: t <= servers[i].startEnds.value
  }

  /** The latest of some ends, or the start if nothing ended after it. */
  ghost predicate IsLatest(at: seq<Option<nat>>, start: nat, t: nat) {
    && start <= t
    && (forall i | 0 <= i < |at| && at[i].Some? :: at[i].value <= t)
    && (t == start || exists i | 0 <= i < |at| :: at[i] == Some(t))
  }

  /** When the drain ends: with the last start, or at its deadline if some start has not ended by then. */
  ghost predicate IsDrainEnd(at: seq<Option<nat>>, trigger: nat, deadline: nat, t: nat) {
    if forall i: nat | i < |at| :: EndsBy(at, i, deadline) then IsLatest(at, trigger, t) else t == deadline
  }

  /** What has ended when the clock shows this, during a drain or the stops. */
  ghost predicate ClockIs(order: seq<nat>, at: seq<Option<nat>>, start: nat, limit: nat, clock: nat) {
    && start <= clock <= limit
    && (forall i: nat | i in order && i < |at| && at[i].Some? :: at[i].value <= clock)
    && (clock == start || exists i: nat :: i in order && i < |at| && at[i] == Some(clock))
  }

  lemma ClockMoves(order: seq<nat>, at: seq<Option<nat>>, start: nat, limit: nat, clock: nat, i: nat)
    requires ClockIs(order, at, start, limit, clock) && EndsBy(at, i, limit)
    ensures ClockIs(order + [i], at, start, limit, if clock < at[i].value then at[i].value else clock)
  {
    var more := order + [i];
    assert i in more;
    forall j: nat | j in order ensures j in more {
    }
    assert forall j: nat | j in more :: j in order || j == i;
  }

  lemma ClockEnds(order: seq<nat>, at: seq<Option<nat>>, start: nat, limit: nat, clock: nat)
    requires ClockIs(order, at, start, limit, clock) && InOrder(order, at, limit)
    requires forall i: nat | i < |at| :: EndsBy(at, i, limit)
    ensures IsLatest(at, start, clock)
  {
    forall i: nat | i < |at| ensures at[i].Some? && at[i].value <= clock {
      assert EndsBy(at, i, limit) && i in order;
    }
  }

  function Everyone(n: nat): (all: set<nat>)
    ensures forall i: nat :: i in all <==> i < n
  {
    if n == 0 then {} else Everyone(n - 1) + {n - 1}
  }

  lemma NothingTaken(at: seq<Option<nat>>, limit: nat)
    ensures Taken([], Everyone(|at|), at, limit)
  {
  }

  lemma TakenIndices(order: seq<nat>, pending: set<nat>, at: seq<Option<nat>>, limit: nat)
    requires Taken(order, pending, at, limit)
    ensures forall k | 0 <= k < |order| :: order[k] < |at|
    ensures forall i | i in pending :: i < |at|
  {
    assert forall k | 0 <= k < |order| :: order[k] in order;
  }

  /** The deadline came with some futures pending, none of which ends by then. */
  lemma LeftPending(order: seq<nat>, pending: set<nat>, at: seq<Option<nat>>, limit: nat)
    requires Taken(order, pending, at, limit) && pending != {}
    requires forall i | i in pending :: !EndsBy(at, i, limit)
    ensures InOrder(order, at, limit)
    ensures exists i: nat | i < |at| :: !EndsBy(at, i, limit)
  {
    AllTaken(order, pending, at, limit);
    var i :| i in pending;
    assert i < |at|;
  }

  lemma NonePending(order: seq<nat>, at: seq<Option<nat>>, limit: nat)
    requires Taken(order, {}, at, limit)
    ensures InOrder(order, at, limit) && forall i: nat | i < |at| :: EndsBy(at, i, limit)
  {
    AllTaken(order, {}, at, limit);
  }

  /** The records up to here, and when the last of them came. */
  ghost predicate Recorded(
      servers: seq<Server>, order: seq<nat>, pending: set<nat>, limit: nat, first: Option<ServerError>) {
    && Taken(order, pending, Starts(servers), limit)
    && (forall k | 0 <= k < |order| :: order[k] < |servers|)
    && first == FirstError(StartRecords(servers, order))
  }

  lemma RecordNext(
      servers: seq<Server>, order: seq<nat>, pending: set<nat>, limit: nat, first: Option<ServerError>, i: nat)
    requires Recorded(servers, order, pending, limit, first)
    requires IsNext(Starts(servers), pending, i) && Starts(servers)[i].value <= limit
    ensures Recorded(servers, order + [i], pending - {i}, limit,
                     if first.Some? then first else Collapse(servers[i].startResult))
  {
    hide Taken;
    var r := Collapse(servers[i].startResult);
    TakeNext(order, pending, Starts(servers), limit, i);
    TakenIndices(order + [i], pending - {i}, Starts(servers), limit);
    FirstOfAppend(StartRecords(servers, order), r);
    assert StartRecords(servers, order + [i]) == StartRecords(servers, order) + [r];
  }

  lemma NothingRecorded(servers: seq<Server>, limit: nat)
    ensures Recorded(servers, [], Everyone(|servers|), limit, None)
  {
    NothingTaken(Starts(servers), limit);
  }

  /** Servers run until something triggers the shutdown; a start ending at the signal's very instant is recorded. */
  method AwaitTrigger(servers: seq<Server>, timeout: nat, signalAt: Option<nat>)
    returns (first: Option<ServerError>, clock: nat, pending: set<nat>, ghost order: seq<nat>)
    requires signalAt.Some? || exists i | 0 <= i < |servers| :: servers[i].startEnds.Some?
    ensures IsTrigger(servers, signalAt, clock)
    ensures Recorded(servers, order, pending, clock + timeout, first)
    ensures ClockIs(order, Starts(servers), clock, clock + timeout, clock)
  {
    hide Recorded, Everyone;
    var at := Starts(servers);
    pending := Everyone(|servers|);
    if exists i | i in pending :: at[i].Some? && (signalAt.Some? ==> at[i].value <= signalAt.value) {
      SomeIsNext(at, pending);
      var i: nat :| i in pending && IsNext(at, pending, i);
      clock := at[i].value;
      first := Collapse(servers[i].startResult);
      assert forall j: nat | j < |servers| :: j in pending;
      NothingRecorded(servers, clock + timeout);
      RecordNext(servers, [], pending, clock + timeout, None, i);
      order, pending := [] + [i], pending - {i};
    } else {
      assert forall j: nat | j < |servers| :: j in pending;
      first, clock, order := None, signalAt.value, [];
      NothingRecorded(servers, clock + timeout);
    }
  }

  /** Starts that end by the deadline are recorded in the order they end, the others are dropped. */
  method Drain(servers: seq<Server>, timeout: nat, trigger: nat, recorded: Option<ServerError>, running: set<nat>,
               ghost before: seq<nat>)
    returns (first: Option<ServerError>, clock: nat, ghost order: seq<nat>)
    requires Recorded(servers, before, running, trigger + timeout, recorded)
    requires ClockIs(before, Starts(servers), trigger, trigger + timeout, trigger)
    ensures InOrder(order, Starts(servers), trigger + timeout)
    ensures forall k | 0 <= k < |order| :: order[k] < |servers|
    ensures IsDrainEnd(Starts(servers), trigger, trigger + timeout, clock) && trigger <= clock <= trigger + timeout
    ensures first == FirstError(StartRecords(servers, order))
  {
    hide InOrder, IsLatest, Taken, FirstError;
    var at, deadline := Starts(servers), trigger + timeout;
    var pending := running;
    first, clock, order := recorded, trigger, before;
    while pending != {}
      invariant Recorded(servers, order, pending, deadline, first) && ClockIs(order, at, trigger, deadline, clock)
      decreases |pending|
    {
      TakenIndices(order, pending, at, deadline);
      if exists i | i in pending :: at[i].Some? && at[i].value <= deadline {
        SomeIsNext(at, pending);
        var i: nat :| i in pending && IsNext(at, pending, i);
        RecordNext(servers, order, pending, deadline, first, i);
        ClockMoves(order, at, trigger, deadline, clock, i);
        if first.None? {
          first := Collapse(servers[i].startResult);
        }
        clock := if clock < at[i].value then at[i].value else clock;
        order, pending := order + [i], pending - {i};
      } else {
        LeftPending(order, pending, at, deadline);
        clock := deadline;
        return;
      }
    }
    NonePending(order, at, deadline);
    ClockEnds(order, at, trigger, deadline, clock);
  }

  lemma {:induction false} HookTimeBound(hooks: seq<Option<nat>>, timeout: nat)
    ensures HookTime(hooks, timeout) <= |hooks| * timeout
  {
    if hooks != [] {
      HookTimeBound(hooks[..|hooks| - 1], timeout);
    }
  }

  /** One hook takes what it takes, at most the budget; hooks run one after the other. */
  lemma {:induction false} HookTimesAdd(a: seq<Option<nat>>, b: seq<Option<nat>>, hook: Option<nat>, timeout: nat)
    ensures HookTime(a + b, timeout) == HookTime(a, timeout) + HookTime(b, timeout)
    ensures HookTime([hook], timeout) == match hook
                                         case Some(d) => if d <= timeout then d else timeout
                                         case None => timeout
    decreases |b|
  {
    assert [hook][..0] == [];
    if b == [] {
      assert a + b == a;
    } else {
      assert (a + b)[..|a + b| - 1] == a + b[..|b| - 1];
      HookTimesAdd(a, b[..|b| - 1], hook, timeout);
    }
  }

  /** The stops that have ended, and the first error among them. */
  ghost predicate Stopped(c: Config, order: seq<nat>, pending: set<nat>, first: Option<ServerError>) {
    && Taken(order, pending, Stops(c.servers, c.timeout), c.timeout)
    && (forall k | 0 <= k < |order| :: order[k] < |c.servers|)
    && first == FirstError(StopRecords(c.servers, c.timeout, order))
  }

  lemma StopNext(c: Config, order: seq<nat>, pending: set<nat>, first: Option<ServerError>, i: nat)
    requires Stopped(c, order, pending, first) && IsNext(Stops(c.servers, c.timeout), pending, i)
    ensures Stopped(c, order + [i], pending - {i}, if first.Some? then first else StopRecord(c.servers[i], c.timeout))
  {
    hide Taken;
    var at, r := Stops(c.servers, c.timeout), StopRecord(c.servers[i], c.timeout);
    TakeNext(order, pending, at, c.timeout, i);
    TakenIndices(order + [i], pending - {i}, at, c.timeout);
    FirstOfAppend(StopRecords(c.servers, c.timeout, order), r);
    assert StopRecords(c.servers, c.timeout, order + [i]) == StopRecords(c.servers, c.timeout, order) + [r];
  }

  lemma StopsPending(c: Config, order: seq<nat>, pending: set<nat>, first: Option<ServerError>)
    requires Stopped(c, order, pending, first)
    ensures forall i | i in pending :: i < |c.servers|
  {
    TakenIndices(order, pending, Stops(c.servers, c.timeout), c.timeout);
  }

  lemma OneMoreEnd(order: seq<nat>, i: nat)
    ensures StopEnds(order + [i]) == StopEnds(order) + [StopEnded(i)]
  {
  }

  lemma NoStopYet(at: seq<Option<nat>>, timeout: nat)
    ensures ClockIs([], at, 0, timeout, 0) && StopEnds([]) == []
  {
  }

  lemma ClockWithin(order: seq<nat>, at: seq<Option<nat>>, start: nat, limit: nat, clock: nat)
    requires ClockIs(order, at, start, limit, clock)
    ensures start <= clock <= limit
  {
  }

  lemma NextIsPending(at: seq<Option<nat>>, pending: set<nat>)
    ensures forall i: nat | IsNext(at, pending, i) :: i in pending && i < |at| && at[i].Some?
  {
  }

  lemma StopsEnd(c: Config, order: seq<nat>, first: Option<ServerError>)
    requires Stopped(c, order, {}, first)
    ensures InOrder(order, Stops(c.servers, c.timeout), c.timeout)
    ensures forall k | 0 <= k < |order| :: order[k] < |c.servers|
    ensures first == FirstError(StopRecords(c.servers, c.timeout, order))
    ensures forall i: nat | i < |c.servers| :: EndsBy(Stops(c.servers, c.timeout), i, c.timeout)
  {
    NonePending(order, Stops(c.servers, c.timeout), c.timeout);
  }

  class App {
    const c: Config
    var outcome: Option<Option<ServerError>>
    var done: bool
    var log: seq<Event>

    constructor (config: Config)
      ensures c == config && outcome == None && !done && log == []
    {
      c, outcome, done, log := config, None, false, [];
    }

    /** Hooks run one after the other, each cut off at a fresh budget; their results are ignored. */
    method RunHooks(before: bool, hooks: seq<Option<nat>>, start: nat) returns (clock: nat)
      modifies this`log
      ensures log == old(log) + Hooks(before, |hooks|)
      ensures clock == start + HookTime(hooks, c.timeout)
    {
      clock := start;
      var k: nat := 0;
      while k < |hooks|
        invariant k <= |hooks| && log == old(log) + Hooks(before, k)
        invariant clock == start + HookTime(hooks[..k], c.timeout)
      {
        assert hooks[..k + 1][..k] == hooks[..k];
        assert Hooks(before, k + 1) == Hooks(before, k) + [if before then BeforeHook(k) else AfterHook(k)];
        log := log + [if before then BeforeHook(k) else AfterHook(k)];
        clock := clock + Bounded(hooks[k], c.timeout);
        k := k + 1;
      }
      assert hooks[..|hooks|] == hooks;
    }

    method CallStops()
      modifies this`log
      ensures log == old(log) + StopCalls(|c.servers|)
    {
      var k: nat := 0;
      while k < |c.servers|
        invariant k <= |c.servers| && log == old(log) + StopCalls(k)
      {
        assert StopCalls(k + 1) == StopCalls(k) + [StopCalled(k)];
        log := log + [StopCalled(k)];
        k := k + 1;
      }
    }

    /** The called stops run at once under the same budget, and the first error to come back is kept. */
    method AwaitStops(start: nat) returns (first: Option<ServerError>, clock: nat, ghost order: seq<nat>)
      modifies this`log
      ensures InOrder(order, Stops(c.servers, c.timeout), c.timeout)
      ensures forall k | 0 <= k < |order| :: order[k] < |c.servers|
      ensures first == FirstError(StopRecords(c.servers, c.timeout, order))
      ensures log == old(log) + StopEnds(order)
      ensures start <= clock && IsLatest(Stops(c.servers, c.timeout), 0, clock - start) && clock - start <= c.timeout
    {
      hide InOrder, IsLatest, Taken, FirstError, IsNext, Stopped, StopRecord, ClockIs, Everyone, StopRecords, StopEnds;
      var at := Stops(c.servers, c.timeout);
      var pending := Everyone(|c.servers|);
      var took: nat := 0;
      first, order := None, [];
      NoRecord(c);
      NoStopYet(at, c.timeout);
      while pending != {}
        invariant Stopped(c, order, pending, first) && ClockIs(order, at, 0, c.timeout, took)
        invariant log == old(log) + StopEnds(order)
        decreases |pending|
      {
        StopsPending(c, order, pending, first);
        var some :| some in pending;
        assert at[some].Some?;
        SomeIsNext(at, pending);
        NextIsPending(at, pending);
        var i: nat :| i in pending && IsNext(at, pending, i);
        StopNext(c, order, pending, first, i);
        ClockMoves(order, at, 0, c.timeout, took, i);
        if first.None? {
          first := StopRecord(c.servers[i], c.timeout);
        }
        took := if took < at[i].value then at[i].value else took;
        OneMoreEnd(order, i);
        log := log + [StopEnded(i)];
        order, pending := order + [i], pending - {i};
      }
      StopsEnd(c, order, first);
      ClockEnds(order, at, 0, c.timeout, took);
      ClockWithin(order, at, 0, c.timeout, took);
      clock := start + took;
    }

    /**
     The whole lifecycle. It ends at a time fixed by the drain, the hooks and the
     slowest stop, within two budgets and one more per hook of its trigger.
     */
    method Run(signalAt: Option<nat>)
      returns (r: Option<ServerError>, finished: nat, ghost trigger: nat, ghost drained: nat, ghost stopTime: nat,
               ghost startOrder: seq<nat>, ghost stopOrder: seq<nat>)
      requires signalAt.Some? || exists i | 0 <= i < |c.servers| :: c.servers[i].startEnds.Some?
      modifies this
      ensures IsTrigger(c.servers, signalAt, trigger)
      ensures InOrder(startOrder, Starts(c.servers), trigger + c.timeout)
      ensures InOrder(stopOrder, Stops(c.servers, c.timeout), c.timeout)
      ensures forall k | 0 <= k < |startOrder| :: startOrder[k] < |c.servers|
      ensures forall k | 0 <= k < |stopOrder| :: stopOrder[k] < |c.servers|
      ensures r == Outcome(StartRecords(c.servers, startOrder), StopRecords(c.servers, c.timeout, stopOrder))
      ensures outcome == (if old(outcome).None? then Some(r) else old(outcome)) && done
      ensures log == old(log) + Shutdown(c, stopOrder)
      ensures IsDrainEnd(Starts(c.servers), trigger, trigger + c.timeout, drained)
      ensures IsLatest(Stops(c.servers, c.timeout), 0, stopTime)
      ensures finished == drained + HookTime(c.before, c.timeout) + stopTime + HookTime(c.after, c.timeout)
      ensures trigger <= finished <= trigger + (2 + |c.before| + |c.after|) * c.timeout
    {
      hide InOrder, IsLatest, IsTrigger, Recorded, HookTime, EndsBy, FirstError, Starts, Stops, StartRecords;
      hide StopRecords, Hooks, StopCalls, StopEnds, Everyone, IsDrainEnd, ClockIs;
      var firstStart, clock, pending; ghost var order;
      firstStart, clock, pending, order := AwaitTrigger(c.servers, c.timeout, signalAt);
      trigger := clock;
      log := log + [Signalled];
      firstStart, clock, startOrder := Drain(c.servers, c.timeout, clock, firstStart, pending, order);
      drained := clock;
      clock := RunHooks(true, c.before, clock);
      var firstStop;
      ghost var stopsFrom := clock;
      CallStops();
      firstStop, clock, stopOrder := AwaitStops(clock);
      stopTime := clock - stopsFrom;
      clock := RunHooks(false, c.after, clock);
      r := None;
      if firstStart.Some? && firstStart.value != Cancelled {
        r := firstStart;
      }
      if r.None? && firstStop.Some? && firstStop.value != Cancelled {
        r := firstStop;
      }
      if outcome.None? {
        outcome := Some(r);
      }
      done := true;
      log := log + [Published];
      finished := clock;
      HookTimeBound(c.before, c.timeout);
      HookTimeBound(c.after, c.timeout);
      assert (2 + |c.before| + |c.after|) * c.timeout == 2 * c.timeout + |c.before| * c.timeout + |c.after| * c.timeout;
    }
  }

  lemma NoRecord(c: Config)
    ensures Stopped(c, [], Everyone(|c.servers|), None)
  {
    NothingTaken(Stops(c.servers, c.timeout), c.timeout);
  }

  // --- What a run reports -------------------------------------------------------

  /** The error a future that ended this way stands for; running over is a timeout. */
  function ErrorOf(r: Raw): (e: ServerError)
    requires r.Panic? || r.Erred?
  {
    match r case Panic(message) => Panicked(message) case Erred(error) => error
  }

  lemma FirstAt(records: seq<Option<ServerError>>, k: nat, e: ServerError)
    requires IsFirst(records, k, e)
    ensures FirstError(records) == Some(e)
  {
    FirstErrorIff(records, e);
  }

  /** A start that fails, or panics, after starts that all ended well: the run reports its error. */
  lemma FailedStartIsReported(c: Config, startOrder: seq<nat>, stopOrder: seq<nat>, k: nat)
    requires forall i | 0 <= i < |startOrder| :: startOrder[i] < |c.servers|
    requires forall i | 0 <= i < |stopOrder| :: stopOrder[i] < |c.servers|
    requires k < |startOrder| && !c.servers[startOrder[k]].startResult.Done?
    requires ErrorOf(c.servers[startOrder[k]].startResult) != Cancelled
    requires forall i | 0 <= i < k :: c.servers[startOrder[i]].startResult.Done?
    ensures Outcome(StartRecords(c.servers, startOrder), StopRecords(c.servers, c.timeout, stopOrder))
         == Some(ErrorOf(c.servers[startOrder[k]].startResult))
  {
    hide FirstError;
    FirstAt(StartRecords(c.servers, startOrder), k, ErrorOf(c.servers[startOrder[k]].startResult));
  }

  predicate StopsInTime(s: Server, timeout: nat) {
    s.stopTakes.Some? && s.stopTakes.value <= timeout
  }

  /**
   All recorded starts well, and the first stop to end badly runs over its budget, fails or panics:
   the run reports a timeout, or its error.
   */
  lemma FailedStopIsReported(c: Config, startOrder: seq<nat>, stopOrder: seq<nat>, k: nat)
    requires forall i | 0 <= i < |startOrder| :: startOrder[i] < |c.servers|
    requires forall i | 0 <= i < |stopOrder| :: stopOrder[i] < |c.servers|
    requires forall i | 0 <= i < |startOrder| :: c.servers[startOrder[i]].startResult.Done?
    requires k < |stopOrder|
    requires forall i | 0 <= i < k ::
               StopsInTime(c.servers[stopOrder[i]], c.timeout) && c.servers[stopOrder[i]].stopResult.Done?
    ensures var s := c.servers[stopOrder[k]];
            var r := Outcome(StartRecords(c.servers, startOrder), StopRecords(c.servers, c.timeout, stopOrder));
            && (!StopsInTime(s, c.timeout) ==> r == Some(Timeout))
            && (StopsInTime(s, c.timeout) && !s.stopResult.Done? && ErrorOf(s.stopResult) != Cancelled ==>
                  r == Some(ErrorOf(s.stopResult)))
  {
    hide FirstError;
    var s := c.servers[stopOrder[k]];
    var starts, stops := StartRecords(c.servers, startOrder), StopRecords(c.servers, c.timeout, stopOrder);
    AllWell(starts);
    if !StopsInTime(s, c.timeout) {
      FirstAt(stops, k, Timeout);
    } else if !s.stopResult.Done? {
      FirstAt(stops, k, ErrorOf(s.stopResult));
    }
  }

  lemma AllWell(records: seq<Option<ServerError>>)
    requires forall k | 0 <= k < |records| :: records[k].None?
    ensures FirstError(records).None?
  {
    if FirstError(records).Some? {
      FirstErrorIff(records, FirstError(records).value);
    }
  }

  // --- What a shutdown's order means --------------------------------------------

  /** Where a step of the shutdown stands. */
  function Phase(e: Event): nat {
    match e
    case Signalled => 0
    case BeforeHook(_) => 1
    case StopCalled(_) => 2
    case StopEnded(_) => 3
    case AfterHook(_) => 4
    case Published => 5
  }

  /** No step stands before a step of an earlier phase, and none is past this phase. */
  ghost predicate Ordered(events: seq<Event>, last: nat) {
    && (forall j, k | 0 <= j < k < |events| :: Phase(events[j]) <= Phase(events[k]))
    && forall k | 0 <= k < |events| :: Phase(events[k]) <= last
  }

  lemma NextPhase(events: seq<Event>, last: nat, more: seq<Event>, phase: nat)
    requires Ordered(events, last) && last <= phase && forall k | 0 <= k < |more| :: Phase(more[k]) == phase
    ensures Ordered(events + more, phase)
  {
  }

  lemma PhasesInOrder(c: Config, stopOrder: seq<nat>)
    ensures Ordered(Shutdown(c, stopOrder), 5)
  {
    hide Ordered;
    var started := [Signalled];
    var hooked := started + Hooks(true, |c.before|);
    var called := hooked + StopCalls(|c.servers|);
    var stopped := called + StopEnds(stopOrder);
    EmptyIsOrdered();
    assert [] + started == started;
    NextPhase([], 0, started, 0);
    NextPhase(started, 0, Hooks(true, |c.before|), 1);
    NextPhase(hooked, 1, StopCalls(|c.servers|), 2);
    NextPhase(called, 2, StopEnds(stopOrder), 3);
    NextPhase(stopped, 3, Hooks(false, |c.after|), 4);
    NextPhase(stopped + Hooks(false, |c.after|), 4, [Published], 5);
  }

  lemma EmptyIsOrdered()
    ensures Ordered([], 0)
  {
  }

  function Count(events: seq<Event>, e: Event): nat {
    multiset(events)[e]
  }

  lemma CountConcat(a: seq<Event>, b: seq<Event>, e: Event)
    ensures Count(a + b, e) == Count(a, e) + Count(b, e)
  {
  }

  lemma CountOnce(events: seq<Event>, e: Event, at: nat)
    requires at < |events| && events[at] == e && forall k | 0 <= k < |events| && events[k] == e :: k == at
    ensures Count(events, e) == 1
  {
    var head, tail := events[..at], events[at + 1..];
    assert events == head + [e] + tail;
    assert e !in head && e !in tail;
  }

  lemma CountNone(events: seq<Event>, phase: nat, e: Event)
    requires (forall k | 0 <= k < |events| :: Phase(events[k]) == phase) && Phase(e) != phase
    ensures Count(events, e) == 0
  {
    assert e !in events;
  }

  lemma CountPhases(c: Config, stopOrder: seq<nat>, e: Event)
    ensures Phase(e) == 2 ==> Count(Shutdown(c, stopOrder), e) == Count(StopCalls(|c.servers|), e)
    ensures Phase(e) == 3 ==> Count(Shutdown(c, stopOrder), e) == Count(StopEnds(stopOrder), e)
  {
    hide Count;
    if Phase(e) in {2, 3} {
      var hooked := [Signalled] + Hooks(true, |c.before|);
      var called := hooked + StopCalls(|c.servers|);
      var stopped := called + StopEnds(stopOrder);
      var after := stopped + Hooks(false, |c.after|);
      CountConcat([Signalled], Hooks(true, |c.before|), e);
      CountConcat(hooked, StopCalls(|c.servers|), e);
      CountConcat(called, StopEnds(stopOrder), e);
      CountConcat(stopped, Hooks(false, |c.after|), e);
      CountConcat(after, [Published], e);
      CountNone([Signalled], 0, e);
      CountNone(Hooks(true, |c.before|), 1, e);
      CountNone(Hooks(false, |c.after|), 4, e);
      CountNone([Published], 5, e);
      if Phase(e) == 2 { CountNone(StopEnds(stopOrder), 3, e); } else { CountNone(StopCalls(|c.servers|), 2, e); }
    }
  }

  /** Step by step: the signal, the before hooks, the calls, the ends, the after hooks, the report. */
  lemma ShutdownSteps(c: Config, stopOrder: seq<nat>)
    ensures var steps, b, n, m, a := Shutdown(c, stopOrder), |c.before|, |c.servers|, |stopOrder|, |c.after|;
            && |steps| == 1 + b + n + m + a + 1
            && steps[0] == Signalled && steps[1 + b + n + m + a] == Published
            && (forall k | 0 <= k < b :: steps[1 + k] == BeforeHook(k))
            && (forall k | 0 <= k < n :: steps[1 + b + k] == StopCalled(k))
            && (forall k | 0 <= k < m :: steps[1 + b + n + k] == StopEnded(stopOrder[k]))
            && (forall k | 0 <= k < a :: steps[1 + b + n + m + k] == AfterHook(k))
  {
  }

  /**
   Each server's stop is called exactly once and ends exactly once: after every
   before hook, before any after hook, and all are called before one has ended.
   */
  lemma EachStopOnce(c: Config, stopOrder: seq<nat>, i: nat)
    requires i < |c.servers| && InOrder(stopOrder, Stops(c.servers, c.timeout), c.timeout)
    ensures Count(Shutdown(c, stopOrder), StopCalled(i)) == 1 && Count(Shutdown(c, stopOrder), StopEnded(i)) == 1
    ensures forall j, k | 0 <= j < k < |Shutdown(c, stopOrder)| ::
              Phase(Shutdown(c, stopOrder)[j]) <= Phase(Shutdown(c, stopOrder)[k])
  {
    hide Count, Shutdown;
    CountPhases(c, stopOrder, StopCalled(i));
    CountPhases(c, stopOrder, StopEnded(i));
    CountOnce(StopCalls(|c.servers|), StopCalled(i), i);
    assert EndsBy(Stops(c.servers, c.timeout), i, c.timeout);
    var at :| 0 <= at < |stopOrder| && stopOrder[at] == i;
    CountOnce(StopEnds(stopOrder), StopEnded(i), at);
    PhasesInOrder(c, stopOrder);
  }

  /** A well-behaved server's cancellation comes first, another's failure after it: success is reported. */
  lemma CancelledHidesFailure(message: string, timeout: nat, signal: nat)
    requires timeout > 1
    ensures var servers := [Server(Some(signal), Erred(Cancelled), Some(0), Done),
                            Server(Some(signal + 1), Erred(Failed(message)), Some(0), Done)];
            && IsTrigger(servers, Some(signal), signal)
            && InOrder([0, 1], Starts(servers), signal + timeout)
            && Outcome(StartRecords(servers, [0, 1]), StopRecords(servers, timeout, [0, 1])).None?
            && Promised(StartRecords(servers, [0, 1]), StopRecords(servers, timeout, [0, 1])) == Some(Failed(message))
  {
    var servers := [Server(Some(signal), Erred(Cancelled), Some(0), Done),
                    Server(Some(signal + 1), Erred(Failed(message)), Some(0), Done)];
    var starts, stops := StartRecords(servers, [0, 1]), StopRecords(servers, timeout, [0, 1]);
    assert starts == [Some(Cancelled), Some(Failed(message))];
    assert starts[1..] == [Some(Failed(message))];
    assert stops == [None, None];
    var last := stops[1..];
    assert last == [None] && last[1..] == [];
    assert FirstError(last).None?;
    assert FirstError(stops).None? && FirstError(starts) == Some(Cancelled);
    assert FirstReal(starts) == FirstReal(starts[1..]) == Some(Failed(message));
  }
}
