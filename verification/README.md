# RushWind: models and proofs of its algorithms

RushWind is a workspace of adapter crates around a few self-contained algorithms
and protocols. This project models those algorithms in Dafny and proves what they
are for. One module stands for one component:

- `JobTable`, `JobQueue`, `JobRuns`, `JobRows`: the Postgres task queue. `JobTable` has the
  rows and the SQL statements, updated in place by the class `PostgresStorage`.
  `JobQueue` is a step system over that table in which claims take row locks,
  skipping locked ones, and commit later, while refreshes, sweeps, batched
  acknowledgements, lost batches, reschedules, vacuums and the clock interleave
  freely. `JobRuns` holds the theorems about every run from an empty table, and
  `JobRows` those about single rows: queue, due time, outcome and retention.
- `RouteShadow`: the route generator's shadow analysis, against a first-match router
  and against a router that prefers static segments.
- `GoDuration`, `DurationLaws`: the form binder's duration parser, against a grammar
  stated by rendering terms; and what durations mean in plain text.
- `FormBinder`, `FormEffects`, `FormKeys`: the form binder's message populate and the
  generator's leaf plan for it, over finite schemas; what bindings do to a message; then
  keys against the plan, what any key can change, and what a failed one leaves.
- `FallbackStream`: the fallback configuration source and its merged watch stream.
- `Rbac`: role resolution by a shared-visited depth-first search, and the filters.
- `RingWindow`, `RingRuns`: the bucket ring two circuit breakers share, updated in place,
  and its runs against the marks made: when it is a sliding window.
- `Hystrix`, `Sre`, `Vegas`: the three circuit breakers.
- `LocalCache`: the in-process cache with expiry and eviction, against an unbounded map.
- `StompFrame`: the STOMP frame codec.
- `Lifecycle`: the application orchestrator's run.
- `Balancer`: the Kafka publisher's least-loaded partition choice.
- `Wrappers`, `Collections`, `Splitting`, `Utf8`, `Decimal`: result types, facts about
  sets and sequences, separators, UTF-8 text (RFC 3629 section 4) and decimal numerals,
  used by the others.

Objects whose methods update fields are classes, loops stay loops, and every such
method is proved against a function or a predicate of the old state; the lemmas
about those functions and about whole runs are the results.

## Assumptions

- One clock that does not run backwards. An operation that reads it once has one
  instant. A mark of the Hystrix breaker has three: its rotation's, its own, and the one
  read on tripping. A cache operation has one per key: the reads of one key's expiry,
  sweep and stamp are not told apart. Claims compute their deadline when they begin and
  commit later. Times are integers (microseconds, or nanoseconds).
- SQL statements are atomic, except a claim, which holds its row locks from one step
  to another. A reschedule of a locked row waits. A failed or lost batch of
  acknowledgements changes nothing. When a batch holds two verdicts for one task,
  the database applies one of them, not said which.
- Randomness, completion orders and what remote parties answer are inputs or free
  choices, so every theorem holds for all of them.
- Reals stand for floating-point numbers. Counters of the ring are unbounded;
  the duration parser's u64 arithmetic, the attempts column's 32 bits, the content
  length's 64 bits, the round-trip times' cast to u64 and the balancer's wrap are
  modelled.
- A sub-stream whose wait is dropped keeps its delivery, as its contract says, and
  each race round completes one sub-stream at a time.
- Setting or entering a member of a oneof clears the other members of it in that
  message, as the reflection library does. The parser of single values is any
  function, except that messages outside the well-known list are refused.
- Turning a STOMP head into text leaves valid UTF-8 unchanged and keeps a leading ASCII
  byte; what it does to other bytes is left open.
- The mounted router picks the path first, over the patterns of all verbs, static
  segments before variables from the left, and then the verb among the routes there.

## Where the code and its documentation differ

The models follow the code; each difference is proved with its exact condition.

- A stale acknowledgement is not dropped when the task was claimed again
  (`JobQueue.AckDroppedIffNotRunning`, `JobRuns.StaleAckExample`).
- Skipping shadowed routes does not make a static-first router replicate the
  first-match reference: two concrete routes suffice, of one verb
  (`RouteShadow.RoutersCanDiffer`) or of two (`RouteShadow.RoutersCanDifferAcrossVerbs`).
  It does exactly when every overlap inverted by a pattern of any verb is covered
  (`RouteShadow.RoutersAgreeIff`).
- Two keys for members of one oneof are no error when the second lies below a message
  member; the first is lost (`FormEffects.DoubleSetSlips`). The check looks at the leaf's
  own message only (`FormEffects.OneofRefusedIff`).
- Off the bucket grid the ring is no sliding window. A run keeps one if and only if at
  every step no mark lies in what the rotation clears and no older one in what it keeps
  (`RingRuns.RunExactIff`); its totals show it under the same condition
  (`RingRuns.RunTotalsIff`). Three inputs that fail: `RingWindow.StaleExample`,
  `RingWindow.DroppedExample`, `RingRuns.EarlyDropExample`.
- The SRE breaker turns requests away before any error (`Sre.CertainIffNoData`), and K = 1
  does block, at an error rate of one (`Sre.BlockedIffErrors`).
- With zero plausible, the Vegas baseline is not the minimum (`Vegas.BaseIsMinimumIff`).
- A recorded cancellation hides a later real error from the lifecycle's outcome
  (`Lifecycle.OutcomeAsPromisedIff`, `Lifecycle.CancelledHidesFailure`).
- STOMP heads may be 65537 bytes long (`StompFrame.RoundTripIff`). The byte after a body
  is looked at exactly when the body's length is not stated
  (`StompFrame.TerminatorIgnoredIff`, `StompFrame.WrongTerminatorIff`). A line feed
  between frames is not skipped: no frame ever comes back behind one
  (`StompFrame.NoFrameSurvivesLineFeed`).
- A merged stream's call dropped during its re-read has taken its delivery without a
  read (`FallbackStream.EveryDeliveryIsReread` counts such walks); within one call no
  second delivery is ever parked beside the first.

## Model

| member | source | states |
|---|---|---|
| JobTable.PostgresStorage.PushRequest | crates/rushwind-apalis-postgres/src/lib.rs:712-778 | Push and schedule insert a pending row with zero attempts and its due time, budgeted by the caller's number, or by the storage's setting where that is the default ten; a row of the same id stays. |
| JobTable.PostgresStorage.LockDue | crates/rushwind-apalis-postgres/src/lib.rs:435-439 | The claim's subselect locks at most ten rows, all of the queue, pending, due and unlocked, by due time, then id; any such row left out comes after all of them, and only when ten were taken. |
| JobTable.SelectionIsUnique | crates/rushwind-apalis-postgres/src/lib.rs:435-444 | That description fixes the list of locked rows completely. |
| JobTable.PostgresStorage.CommitClaim | crates/rushwind-apalis-postgres/src/lib.rs:426-444 | Exactly the locked rows become running, stamped with the worker and a deadline five keep-alives after the statement was issued, attempts plus one; one row at the 32-bit maximum fails the whole statement. |
| JobTable.PostgresStorage.RefreshLocks | crates/rushwind-apalis-postgres/src/lib.rs:491-507 | The row loop: every row running under this worker in the queue has its deadline five keep-alives from now, and every other row is as it was. |
| JobTable.PostgresStorage.SweepOrphans | crates/rushwind-apalis-postgres/src/lib.rs:513-526 | The row loop: afterwards no running row of the queue is past its deadline; those that were are pending and unlocked with their attempts and an error text, an earlier one if there was any; every other row is as it was. |
| JobTable.PostgresStorage.WriteAcks | crates/rushwind-apalis-postgres/src/lib.rs:531-578 | Each task of the batch gets one of its verdicts, only where its row is running in this queue. |
| JobTable.PostgresStorage.Reschedule | crates/rushwind-apalis-postgres/src/lib.rs:832-853 | The row becomes pending and unlocked at the new time whatever its status was; its finishing time stays. |
| JobTable.PostgresStorage.Vacuum | crates/rushwind-apalis-postgres/src/lib.rs:859-873 | Removes exactly the finished rows older than the retention and counts them. |
| JobTable.BackoffDoublesToAnHour | crates/rushwind-apalis-postgres/src/lib.rs:594-599 | The wait is exactly 2^(attempt-1) seconds capped at an hour, reaches the cap at attempt 13, never decreases, and the cap on the shift never shows. |
| JobQueue.RequeueNeedsBudget | crates/rushwind-apalis-postgres/src/lib.rs:609-618 | An outcome returns a task to the pool exactly when it failed without abort below the attempt budget, due after two to the attempts less one seconds, capped at an hour; every other failure kills it; the error text is the outcome's. |
| JobQueue.InvPreserved | crates/rushwind-apalis-postgres/src/lib.rs:429-444 | Every step keeps: locked rows are pending and locked by one open claim each, attempts are non-negative, and only deliveries below the budget may decide to re-queue. |
| JobQueue.OverlappingClaimsAreDisjoint | crates/rushwind-apalis-postgres/src/lib.rs:434-440 | Two claims open at the same time never hold one row: what SKIP LOCKED is there for. |
| JobQueue.PendingChanges | crates/rushwind-apalis-postgres/src/lib.rs:429-853 | A task enters the pending pool only by insertion, sweep, reschedule or a re-queueing acknowledgement, and leaves it only by a claim. |
| JobQueue.AckDroppedIffNotRunning | crates/rushwind-apalis-postgres/src/lib.rs:528-570 | A batch write leaves a row untouched exactly when the row is of another queue or not running; whose delivery it acknowledges plays no part. |
| JobRuns.RetryBudget | crates/rushwind-apalis-postgres/src/lib.rs:429-444 | In every run, stale acknowledgements included, a task is claimed at most (the budgets it was inserted with) + (its orphan sweeps) + (its reschedules) times. |
| JobRuns.AttemptsCountClaims | crates/rushwind-apalis-postgres/src/lib.rs:433-443 | In every run the attempts column equals the number of claims since the row was inserted. |
| JobRuns.ClaimsAreSeparated | crates/rushwind-apalis-postgres/src/lib.rs:429-444 | Between two claims of one task some step returned it to the pool. |
| JobRuns.SweepMeansExpired | crates/rushwind-apalis-postgres/src/lib.rs:509-526 | A sweep takes a task exactly when it is running and more than five keep-alives passed since its holder's last claim or refresh. |
| JobRuns.RefreshingHolderIsAlone | crates/rushwind-apalis-postgres/src/lib.rs:489-526 | Between two points of a run with refreshes in time, no landing acknowledgement and no reschedule, nobody else claims the task and its holder and attempts stay. |
| JobRuns.BackoffIsWaited | crates/rushwind-apalis-postgres/src/lib.rs:609-618 | In every run, after a failed delivery's acknowledgement has landed the task is not claimed before the failure plus its backoff, however late the write was, unless it is rescheduled or acknowledged again. |
| JobRuns.FinishedRowsAreStamped | crates/rushwind-apalis-postgres/src/lib.rs:554-570 | In every run a done or killed row has a finishing time no later than now, so vacuum can tell it, and vacuum takes no other row. |
| JobRows.RowsStayAsPushed | crates/rushwind-apalis-postgres/src/lib.rs:712-778 | In every run a row has the queue, payload and budget of the push that inserted it. |
| JobRows.ClaimsTakeOwnRows | crates/rushwind-apalis-postgres/src/lib.rs:426-444 | In every run a claim takes pending rows of its own queue, the one they were pushed to, that were due when it began, and delivers each under that queue and budget with the next attempt's number. |
| JobRows.ClaimMissesNothing | crates/rushwind-apalis-postgres/src/lib.rs:435-439 | A claim of fewer than ten rows leaves no row of its queue that is pending, due and held by no open claim; it takes rows by due time, then id. |
| JobRows.QueuesAreSeparate | crates/rushwind-apalis-postgres/src/lib.rs:426-873 | In every run a step changes rows of the queue it works on and of no other. |
| JobRows.RunDueAt | crates/rushwind-apalis-postgres/src/lib.rs:426-853 | In every run a row's due time is the one last set for it: by its push, a reschedule, or a landed verdict that re-queues. |
| JobRows.ClaimsWaitUntilDue | crates/rushwind-apalis-postgres/src/lib.rs:436 | In every run no claim takes a task before the due time last set for it. |
| JobRows.RescheduleIsWaited | crates/rushwind-apalis-postgres/src/lib.rs:832-853 | A rescheduled task is pending again, and not claimed before its wait is over unless something sets it anew. |
| JobRows.OutcomeReachesRow | crates/rushwind-apalis-postgres/src/lib.rs:531-618 | In every run the row a landed acknowledgement leaves shows its outcome: status, error text, due time, finishing time and no lock, whenever it was written. |
| JobRows.VacuumsAfterRetention | crates/rushwind-apalis-postgres/src/lib.rs:859-873 | In every run a vacuum takes a row exactly if it was finished in that queue, by an acknowledgement that landed longer ago than the retention. |
| JobRuns.StaleAckExample | crates/rushwind-apalis-postgres/src/lib.rs:528-570 | A concrete run in which the acknowledgement of an expired, swept and re-claimed delivery finishes the later one, which the comment on the code says is dropped. |
| RouteShadow.ShadowFlags | crates/rushwind-gen-http/src/lib.rs:311-326 | The nested loops flag a route exactly when an earlier route of its method subsumes it. |
| RouteShadow.LiteralPattern | crates/rushwind-gen-http/src/lib.rs:294-300 | A pattern without a brace answers its own path and no other. |
| RouteShadow.VariablePattern | crates/rushwind-gen-http/src/lib.rs:294-300 | A variable at the end of a literal path takes any text without a slash there, and nothing else. |
| RouteShadow.SubsumesIsInclusion | crates/rushwind-gen-http/src/lib.rs:294-300 | A pattern that matches another pattern matches every path the other one matches. |
| RouteShadow.ShadowRemovalIsExact | crates/rushwind-gen-http/src/lib.rs:302-326 | For every route list and request, first match over the mounted routes is first match over all routes. |
| RouteShadow.ShadowedIffUnreachable | crates/rushwind-gen-http/src/lib.rs:302-326 | A route is flagged exactly when it is the first match of no request at all. |
| RouteShadow.MountedAreOrdered | crates/rushwind-gen-http/src/lib.rs:302-326 | Two mounted patterns on one path, of any verbs, are ordered by which is the more static or share their place in the router; at one place no two have the same verb. |
| RouteShadow.StaticFirstIsUnique | crates/rushwind-gen-http/src/lib.rs:1129-1132 | The path-first, static-first router has at most one answer among the mounted routes. |
| RouteShadow.StaticFirstIsPathThenVerb | crates/rushwind-gen-http/src/lib.rs:1129-1132 | Its answer is exactly what its two steps give: the most static mounted pattern on the path over all verbs, then the route of the request's verb at that place. |
| RouteShadow.RoutersAgreeIff | crates/rushwind-gen-http/src/lib.rs:302-310 | The mounted router answers every request like the first-match reference exactly when, wherever a mounted pattern of any verb is more static than a mounted route on the paths they share, an earlier route of that route's verb answers there instead. |
| RouteShadow.RoutersCanDiffer | crates/rushwind-gen-http/src/lib.rs:302-310 | Two concrete unflagged routes of one verb on which the two routers differ. |
| RouteShadow.RoutersCanDifferAcrossVerbs | crates/rushwind-gen-http/src/lib.rs:1129-1132 | Two concrete unflagged routes of different verbs on which they differ: the router finds the path of the other verb. |
| RouteShadow.ComparableMostSpecific | crates/rushwind-gen-http/src/lib.rs:302-326 | If overlapping patterns of one verb are comparable, the first match is the unique most specific mounted route of its verb, and the mounted router answers with it exactly when no mounted pattern of another verb on the path is more static. |
| GoDuration.ParseDuration | crates/rushwind-http-binding/src/binder.rs:394-494 | Accepts exactly the texts that denote a value, and returns that value split into seconds and nanoseconds of agreeing signs, nanoseconds under a second, the whole within 2^63-1. |
| GoDuration.AcceptedIff | crates/rushwind-http-binding/src/binder.rs:391-486 | Besides zero, the accepted texts are exactly the non-empty lists of terms written out whose total is at most 2^63-1, and the value is that total with the sign. |
| GoDuration.ScanSound | crates/rushwind-http-binding/src/binder.rs:414-449 | What the scan reads is a list of well-formed terms that renders back to the text. |
| GoDuration.ScanComplete | crates/rushwind-http-binding/src/binder.rs:414-449 | Every list of well-formed terms, written out, is scanned back to itself: the reading is unambiguous. |
| GoDuration.FractionIsClose | crates/rushwind-http-binding/src/binder.rs:455-472 | A fraction is at most its exact value, less than 9 ns below it for hours, 6 for minutes, 1 otherwise, and always under one unit: the clamp never acts. |
| GoDuration.Additive | crates/rushwind-http-binding/src/binder.rs:414-486 | Two accepted unsigned texts written one after the other denote the sum, unless it exceeds 2^63-1. |
| GoDuration.SignsNegate | crates/rushwind-http-binding/src/binder.rs:398-403 | A leading minus negates the value and a leading plus changes nothing, on refused texts too. |
| GoDuration.SecondSignRefused | crates/rushwind-http-binding/src/binder.rs:398-403 | A text with two signs is refused. |
| GoDuration.ReadTerm | crates/rushwind-http-binding/src/binder.rs:414-449 | One pass of the loop finds the scanned term; every slice it takes is at character boundaries of the UTF-8 text. |
| GoDuration.FractionNanos | crates/rushwind-http-binding/src/binder.rs:455-467 | The digit loop computes the fraction in u64 without wrapping, stopping early when the scale runs out. |
| GoDuration.AddTerm | crates/rushwind-http-binding/src/binder.rs:450-476 | The checked arithmetic fails exactly when the new total exceeds u64. |
| GoDuration.ParseTerms | crates/rushwind-http-binding/src/binder.rs:410-486 | The term loop fails exactly on ill-formed texts and on totals over 2^63-1, wherever the overflow happens. |
| DurationLaws.UnitsAreWorth | crates/rushwind-http-binding/src/binder.rs:436-450 | A whole number of ns, us in three spellings, ms, s, m or h is that many times 1, 10^3, 10^6, 10^9, 60 and 3600 times 10^9 nanoseconds, with a minus its negative, or is refused past 2^63-1. |
| DurationLaws.UnitsConvert | crates/rushwind-http-binding/src/binder.rs:436-450 | So many of a larger unit are as many times more of a smaller one. |
| DurationLaws.HoursMinutesSeconds | crates/rushwind-http-binding/src/binder.rs:445-447 | n hours, 60n minutes and 3600n seconds are the same duration, overflow included. |
| DurationLaws.OtherUnitsRefused | crates/rushwind-http-binding/src/binder.rs:448-449 | A number with any other unit text, or none, is refused, a lone zero excepted. |
| DurationLaws.SecondsAreExact | crates/rushwind-http-binding/src/binder.rs:455-472 | Up to nine decimal places of a second are exact to the nanosecond. |
| DurationLaws.ZeroAlone | crates/rushwind-http-binding/src/binder.rs:396-409 | Zero needs no unit, signed or not; nothing, or a sign alone, is refused. |
| FormBinder.DynamicMessage.BindForm | crates/rushwind-http-binding/src/binder.rs:38-47 | Keys are bound in order and the first error stops; the message is left as the steps done so far made it, also on failure. |
| FormBinder.LeafWalker.Walk | crates/rushwind-gen-http/src/lib.rs:504-551 | The push-and-pop walk appends exactly one entry per leaf path, under its JSON and proto path, and restores its path. |
| FormBinder.LeafPathsIff | crates/rushwind-gen-http/src/lib.rs:504-551 | The walked paths are exactly those to fields that are not traversed message members. |
| FormKeys.LeafPathsDistinct | crates/rushwind-gen-http/src/lib.rs:504-551 | The walk lists no path twice. |
| FormKeys.PlannedKeysDiffer | crates/rushwind-gen-http/src/lib.rs:533-548 | Of any two entries of the walker's list the proto keys differ, and the JSON keys do, as soon as the names in them hold no dots. |
| FormKeys.ProtoNamesAreClear | crates/rushwind-http-binding/src/binder.rs:193-196 | No leaf's proto names are captured by another field, so its proto key always leads to it. |
| FormBinder.ResolvesIff | crates/rushwind-http-binding/src/binder.rs:193-196 | A field is found by its proto or JSON name exactly when no other field has that segment as its proto name. |
| FormBinder.FollowsIff | crates/rushwind-http-binding/src/binder.rs:49-88 | Any spelling of a planned leaf path, mixed freely per segment, is resolved to exactly that leaf if and only if no segment is another field's proto name. |
| FormBinder.LeafKeyBinds | crates/rushwind-http-binding/src/binder.rs:38-116 | The dotted key of such a spelling binds at that leaf and nowhere else. |
| FormBinder.LeafKeysDiffer | crates/rushwind-http-binding/src/binder.rs:193-196 | However its segments mix proto and JSON names, a key that leads to a leaf leads to no other: two such keys are equal only for the same leaf in the same spelling. |
| FormBinder.UnsupportedIff | crates/rushwind-gen-http/src/lib.rs:507-531 | The plan, by the generator's list, calls a non-map leaf unsupported exactly when the binder, by its own, refuses every value for it. |
| FormBinder.ListsAgree | crates/rushwind-http-binding/src/binder.rs:308-388 | The generator's list of well-known messages and the arms of the binder's message parser name the same fourteen messages. |
| FormEffects.StoreWrites | crates/rushwind-http-binding/src/binder.rs:90-145 | Binding at a leaf fails exactly as its innermost message says, in the code's order; otherwise singular fields hold the parsed value (empty values change nothing) and lists all earlier items followed by the new ones. |
| FormEffects.StoreKeeps | crates/rushwind-http-binding/src/binder.rs:82-116 | A successful binding changes no other path, except that members of a oneof it displaces are cleared. |
| FormEffects.BindKeepsTyped | crates/rushwind-http-binding/src/binder.rs:82-88 | Whatever keys are bound, even with errors, traversed members always hold messages, so a planned descent never meets anything else. |
| FormEffects.BindLeaf | crates/rushwind-http-binding/src/binder.rs:38-145 | After any earlier keys, binding a planned leaf by its key: it fails exactly if a sibling in its oneof is set, a singular field gets several values, or one is refused; otherwise a list keeps its items and is followed by what each value parses to in order, a singular field holds what its one value parses to, and other leaves stay but for displaced ones. |
| FormEffects.ParsedAsPlanned | crates/rushwind-http-binding/src/binder.rs:234-290 | The binder parses exactly what the generator plans to bind, as the kind it plans. |
| FormKeys.PlannedKeyBinds | crates/rushwind-gen-http/src/lib.rs:533-548 | The plan's proto key of a leaf binds at that leaf. |
| FormKeys.PlannedRepeatedIff | crates/rushwind-gen-http/src/lib.rs:543-545 | A leaf is planned as repeated exactly if several values are not too many for the binder. |
| FormKeys.PlannedOneofIff | crates/rushwind-gen-http/src/lib.rs:546 | A leaf is planned with a oneof exactly if the binder can find that oneof taken. |
| FormKeys.PlannedMapIff | crates/rushwind-gen-http/src/lib.rs:507-509 | A map's planned key and value kinds are both supported exactly if the binder can bind an entry of it. |
| FormKeys.KeyOnlyEnters | crates/rushwind-http-binding/src/binder.rs:49-116 | Any key at all, in any message: if it fails, or leads neither to a planned leaf nor below a map or well-known leaf, the message is exactly as it was but for the members on its way being entered. |
| FormKeys.BindsAtOne | crates/rushwind-http-binding/src/binder.rs:49-116 | A key binds at one planned leaf at most. |
| FormKeys.FailureOnlyEnters | crates/rushwind-http-binding/src/binder.rs:82-116 | A failed binding at a leaf leaves exactly what entering its way leaves: members allocated, their oneof siblings cleared, the innermost message alone. |
| FormKeys.EnteringKeeps | crates/rushwind-http-binding/src/binder.rs:82-88 | Entering members changes no value elsewhere or below, except that it clears the oneof siblings the way displaces. |
| FormKeys.FailureKeepsLeaves | crates/rushwind-http-binding/src/binder.rs:38-145 | After any earlier keys, a failed key leaves every planned leaf its value, the failed one included, except those in a oneof sibling of a member on its way. |
| FormEffects.OneofRefusedIff | crates/rushwind-http-binding/src/binder.rs:90-100 | The double-set error is raised exactly when the leaf's own message has another field of the leaf's oneof set. |
| FormEffects.OuterOneofIsCleared | crates/rushwind-http-binding/src/binder.rs:82-100 | Below a message member of a oneof there is no such check: the binding succeeds and the member set before is lost. |
| FormEffects.DoubleSetSlips | crates/rushwind-http-binding/src/binder.rs:14-100 | A concrete schema and two keys, bound into the empty message: both members of one oneof are set without an error, and the first is lost. |
| FormEffects.ParseMapKeyIff | crates/rushwind-http-binding/src/binder.rs:214-232 | The map key texts are exactly field[key], whatever the key holds, and field.key with one dot and no opening bracket. |
| FormEffects.MapEntryIsWritten | crates/rushwind-http-binding/src/binder.rs:147-191 | A map binding writes the last of its values under the parsed key and leaves other entries and fields alone; it fails, changing nothing, exactly when key or value do not parse or the key has no key type. |
| FormEffects.ListSuffixIsDropped | crates/rushwind-http-binding/src/binder.rs:193-212 | A field followed by brackets names the field, unless some field has that very name. |
| FormKeys.StructTakesAnyKey | crates/rushwind-http-binding/src/binder.rs:197-200 | In a Struct a segment that names no field stands for the field numbered one. |
| FormKeys.MapSpellingsAgree | crates/rushwind-http-binding/src/binder.rs:193-232 | At any depth, and by the map's proto or JSON name, a map entry is bound alike by field.key and field[key]. |
| FallbackStream.Load | crates/rushwind-config/src/fallback.rs:48-65 | The first answer wins; with none, the failures joined in source order if there are any, else unresolved. |
| FallbackStream.FailuresAre | crates/rushwind-config/src/fallback.rs:48-65 | The failures are the texts of the sources that broke, each once and in their order. |
| FallbackStream.JoinedAre | crates/rushwind-config/src/fallback.rs:48-65 | One text stands for itself, and one separator stands between two groups of texts. |
| FallbackStream.LoadThrough | crates/rushwind-config/src/fallback.rs:101-111 | The walk used by the merged stream has the answer of load whenever load has one, and none otherwise. |
| FallbackStream.FirstFoundIff | crates/rushwind-config/src/fallback.rs:52-55 | That answer is the one of the highest-priority source that has one, and is missing exactly when no source has any. |
| FallbackStream.WatchValue | crates/rushwind-config/src/fallback.rs:67-94 | Watchable sources are collected in order, unwatchable ones skipped; the first real failure is returned, and an empty collection is a failure. |
| FallbackStream.WatchedAre | crates/rushwind-config/src/fallback.rs:67-94 | The slots are live, unparked streams of the watchable sources, each once and in their order. |
| FallbackStream.ValueStream.Race | crates/rushwind-config/src/fallback.rs:166-195 | One round, in any order of completion: sub-streams that end are marked, at most one delivery is parked, and a dropped wait takes none. |
| FallbackStream.ValueStream.Next | crates/rushwind-config/src/fallback.rs:148-199 | A call, waited out or dropped at any await: nothing stays parked, a value is the answer of its last walk, the end comes exactly when all sub-streams have ended with nothing parked, and the awaits are bounded by what the sub-streams still deliver. |
| FallbackStream.OneWalkPerDelivery | crates/rushwind-config/src/fallback.rs:152-194 | In any allowed order of events each delivery is followed at once by its one walk, and there are no other walks but one for what was parked at the start. |
| FallbackStream.RunAdvances | crates/rushwind-config/src/fallback.rs:148-199 | Over any run of calls the values handed out are exactly the answers of the answered walks, in order, each the highest-priority answer at its walk. |
| FallbackStream.EveryDeliveryIsReread | crates/rushwind-config/src/fallback.rs:134-164 | Over any run of calls, dropped ones included: as many walks as deliveries, each right after its delivery, and when the stream ends every value of every sub-stream was delivered in order. |
| FallbackStream.PatientRunEnds | crates/rushwind-config/src/fallback.rs:148-199 | If calls are waited out, no walk is abandoned and the stream ends within a bounded number of calls. |
| Rbac.ResolveRoles | crates/rushwind-authz-rbac/src/lib.rs:270-284 | Terminates on every graph; from any shared visited set it adds names reached from the subject, closed under membership, and returns exactly their direct roles. |
| Rbac.RolesOf | crates/rushwind-authz-rbac/src/lib.rs:249-250 | From an empty visited set the search returns exactly the names reachable in one or more membership steps. |
| Rbac.ReachesIffLastStep | crates/rushwind-authz-rbac/src/lib.rs:266-284 | Reaching in one or more steps is reaching in any number and then taking one step. |
| Rbac.ClosedIsReach | crates/rushwind-authz-rbac/src/lib.rs:266-284 | A closed set of reached names that holds the subject is all the subject reaches. |
| Rbac.Evaluate | crates/rushwind-authz-rbac/src/lib.rs:249-264 | Allows exactly when some reachable role has a permission matching action and resource. |
| Rbac.MatchesIff | crates/rushwind-authz-rbac/src/lib.rs:287-300 | The matcher is a prefix test if the pattern ends in the wildcard, else a suffix test if it starts with it, else equality; the two early equality tests add nothing. |
| Rbac.PlainPermission | crates/rushwind-authz-rbac/src/lib.rs:253-259 | A permission without wildcards allows its own action on its own resource and nothing else. |
| Rbac.OneGrant | crates/rushwind-authz-rbac/src/lib.rs:249-264 | One subject with one role and its one plain permission: exactly that action on that resource is authorized. |
| Rbac.GrantsAreMonotone | crates/rushwind-authz-rbac/src/lib.rs:249-264 | Adding memberships or permissions never takes a grant away. |
| Rbac.FilterAuthorizedPairs | crates/rushwind-authz-rbac/src/lib.rs:198-219 | Keeps, in order, exactly the pairs some subject is individually allowed. |
| Rbac.FilteredIff | crates/rushwind-authz-rbac/src/lib.rs:198-219 | The filter keeps a pair exactly if some subject may take its action on its resource, and keeps the order. |
| Rbac.ProjectsAuthorized | crates/rushwind-authz-rbac/src/lib.rs:171-196 | Returns all projects or none, by whether some subject is allowed. |
| RingWindow.RingBuffer.Rotate | crates/rushwind-circuitbreaker-hystrix/src/lib.rs:199-221 | Rotation empties exactly the last steps slots going back from the current one, all of them from n steps on, and moves the rotation instant only then. |
| RingWindow.RingBuffer.Mark | crates/rushwind-circuitbreaker-hystrix/src/lib.rs:269-271 | A mark adds one request, and one error if it failed, to the current slot. |
| RingWindow.RingBuffer.Totals | crates/rushwind-circuitbreaker-sres/src/lib.rs:164-172 | The totals are the sum over the slots. |
| RingWindow.SlotOfOffset | crates/rushwind-circuitbreaker-sres/src/lib.rs:189-197 | Both breakers' index formulas name the same slot at every offset, the one steps - offset - 1 behind the current. |
| RingWindow.TotalsAreWindow | crates/rushwind-circuitbreaker-sres/src/lib.rs:164-172 | If every slot holds the marks of its period, the totals are the marks of the last n bucket periods. |
| RingWindow.CountIsSize | crates/rushwind-circuitbreaker-hystrix/src/lib.rs:183-188 | The counts are numbers of marks: all of these periods, and the failures among them. |
| RingWindow.AlignedIffOffset | crates/rushwind-circuitbreaker-hystrix/src/lib.rs:199-227 | Whole widths elapsed and period boundaries crossed agree exactly when the later instant is no earlier within its period. |
| RingRuns.RotatedExactIff | crates/rushwind-circuitbreaker-sres/src/lib.rs:176-207 | A rotation leaves every slot with exactly the marks of its period if and only if no mark lies in the periods whose slots it clears and none that left the window lies in a slot it keeps. |
| RingRuns.RotatedTotalsIff | crates/rushwind-circuitbreaker-sres/src/lib.rs:164-207 | Its totals are the window's under exactly that condition, if no mark is more than a period ahead of the last rotation. |
| RingRuns.RunExactIff | crates/rushwind-circuitbreaker-hystrix/src/lib.rs:199-292 | Over every run of rotations, marks and resets the slots are a sliding window after each step if and only if each step meets that condition. |
| RingRuns.RunTotalsIff | crates/rushwind-circuitbreaker-sres/src/lib.rs:164-207 | Over every run whose marks follow their rotation within a period, the totals are those of the last n periods after each step if and only if each step meets it. |
| RingRuns.AlignedRunIsHarmless | crates/rushwind-circuitbreaker-hystrix/src/lib.rs:199-227 | Runs whose rotations cross as many period boundaries as they take steps meet it, for any gaps. |
| RingRuns.GridRunIsHarmless | crates/rushwind-circuitbreaker-hystrix/src/lib.rs:199-227 | So do runs whose rotations fall on whole bucket widths after the start. |
| RingRuns.EarlyDropExample | crates/rushwind-circuitbreaker-hystrix/src/lib.rs:199-227 | A concrete run that loses the mark of its running period before the ring has gone round once. |
| RingWindow.StaleExample | crates/rushwind-circuitbreaker-sres/src/lib.rs:176-207 | Concrete instants off the grid after which a mark older than the window is still counted. |
| RingWindow.DroppedExample | crates/rushwind-circuitbreaker-sres/src/lib.rs:176-207 | Concrete instants off the grid at which a mark of the running period is dropped. |
| Hystrix.HystrixBreaker.Allow | crates/rushwind-circuitbreaker-hystrix/src/lib.rs:150-176 | Admission and the new state, by phase: closed flows, open admits one trial after the sleep window, half-open admits one if none is in flight. |
| Hystrix.HystrixBreaker.MarkSuccess | crates/rushwind-circuitbreaker-hystrix/src/lib.rs:257-272 | A half-open success closes and resets the window; otherwise the mark counts and may trip, at a later instant than its own. |
| Hystrix.HystrixBreaker.MarkFailure | crates/rushwind-circuitbreaker-hystrix/src/lib.rs:276-292 | A half-open failure re-opens and restarts the sleep; otherwise the mark counts and may trip, at a later instant than its own. |
| Hystrix.HystrixBreaker.CurrentState | crates/rushwind-circuitbreaker-hystrix/src/lib.rs:296-302 | Reading the state moves open to half-open once the sleep window is over. |
| Hystrix.TrialDecides | crates/rushwind-circuitbreaker-hystrix/src/lib.rs:257-290 | In half-open a failure opens the breaker anew at the mark, a success closes it on an empty window. |
| Hystrix.ReadingShowsSleep | crates/rushwind-circuitbreaker-hystrix/src/lib.rs:296-302 | A read of an open breaker shows half-open exactly from the sleep window's end on. |
| Hystrix.RunTrialOnlyInHalfOpen | crates/rushwind-circuitbreaker-hystrix/src/lib.rs:150-302 | In every run the trial flag is set only in half-open. |
| Hystrix.SleepingRejects | crates/rushwind-circuitbreaker-hystrix/src/lib.rs:158-166 | Within the sleep window a tripped breaker rejects every request and stays open, whatever marks and reads interleave. |
| Hystrix.TripStartsSleep | crates/rushwind-circuitbreaker-hystrix/src/lib.rs:180-197 | A breaker opens only by a mark, and from the instant read on opening rejects everything for the sleep window. |
| Hystrix.OneTrialAfterSleep | crates/rushwind-circuitbreaker-hystrix/src/lib.rs:158-173 | Recovery is tried exactly once: whatever comes within the sleep window, then a request after it, then anything but a mark, an open breaker admits one request in all, that one. |
| Hystrix.OneTrialAtATime | crates/rushwind-circuitbreaker-hystrix/src/lib.rs:158-173 | From the trip to the next mark at most one request is admitted, and then the breaker is half-open with its trial out. |
| Hystrix.ClosesOnlyThroughTrial | crates/rushwind-circuitbreaker-hystrix/src/lib.rs:257-267 | An open breaker is closed again only after a success marked in half-open. |
| Hystrix.CloseIsFinal | crates/rushwind-circuitbreaker-hystrix/src/lib.rs:304-306 | Once close has been called every request is rejected, whatever comes after. |
| Hystrix.TripsOnWindow | crates/rushwind-circuitbreaker-hystrix/src/lib.rs:180-197 | In a run whose ring steps meet the condition a mark trips a closed breaker exactly when there are marks since the last recovery within the last n periods, at least the volume of them, and the failures among them reach the threshold's share. |
| Hystrix.TripsOnGrid | crates/rushwind-circuitbreaker-hystrix/src/lib.rs:180-227 | On the bucket grid it does exactly then in every run, for any gaps between calls. |
| Hystrix.SuccessesNeverTrip | crates/rushwind-circuitbreaker-hystrix/src/lib.rs:192-194 | Without a failure in the window no mark trips a breaker of positive threshold. |
| Hystrix.FailuresTrip | crates/rushwind-circuitbreaker-hystrix/src/lib.rs:189-196 | With nothing but failures in it, from the volume on, every mark does. |
| Hystrix.FailureTripsToo | crates/rushwind-circuitbreaker-hystrix/src/lib.rs:192-196 | In any state, where a success trips the breaker, a failure marked instead trips it too. |
| Hystrix.WindowIff | crates/rushwind-circuitbreaker-hystrix/src/lib.rs:180-292 | For the ring a breaker's calls leave: its totals are the window's at every step of a run if and only if every step meets the condition. |
| Sre.SreBreaker.Allow | crates/rushwind-circuitbreaker-sres/src/lib.rs:107-125 | Admission of one random sample against the acceptance of the rotated window. |
| Sre.SreBreaker.CurrentState | crates/rushwind-circuitbreaker-sres/src/lib.rs:147-161 | Closed exactly when every sample would be admitted on the totals as they stand, open exactly when none would. |
| Sre.CertainIffNoData | crates/rushwind-circuitbreaker-sres/src/lib.rs:104-125 | With a non-negative K, admission is certain exactly while the window is empty: a single recorded success is enough to turn some requests away. |
| Sre.AdmitsIff | crates/rushwind-circuitbreaker-sres/src/lib.rs:114-124 | The admitted samples without a quotient: with data, those whose multiple by one more than the requests lies below the requests less K times the errors. |
| Sre.BlockedIffErrors | crates/rushwind-circuitbreaker-sres/src/lib.rs:11-13 | Rejection is certain exactly when there is data and K times the errors reach the requests. |
| Sre.MoreErrorsAcceptLess | crates/rushwind-circuitbreaker-sres/src/lib.rs:114-119 | Acceptance never rises when successes of the window become failures. |
| Sre.AdmitsOnWindow | crates/rushwind-circuitbreaker-sres/src/lib.rs:164-207 | In a run whose ring steps meet the condition, admission is that inequality on the numbers of marks and of failures in the last n periods as of the call. |
| Sre.AdmitsOnGrid | crates/rushwind-circuitbreaker-sres/src/lib.rs:164-207 | On the bucket grid it always is, for any gaps between calls. |
| Vegas.VegasBreaker.RecordLatency | crates/rushwind-circuitbreaker-vegas/src/lib.rs:146-153 | A latency closes a half-open breaker, is folded in if plausible, and is then judged; the judgement never starts in half-open. |
| Vegas.VegasBreaker.MarkFailure | crates/rushwind-circuitbreaker-vegas/src/lib.rs:260-268 | A failure re-opens a half-open breaker, else counts as the largest plausible time. |
| Vegas.WeightsAreEighths | crates/rushwind-circuitbreaker-vegas/src/lib.rs:191-196 | The weighted sum cut to an integer is floor((7c+r)/8). |
| Vegas.MovesIff | crates/rushwind-circuitbreaker-vegas/src/lib.rs:204-232 | On the state after an event: a closed or half-open breaker is opened by a latency exactly when warmed up and past (1+alpha) times the baseline, else it is closed; an open one turns half-open exactly when under (1+beta) times the baseline. |
| Vegas.FilterIff | crates/rushwind-circuitbreaker-vegas/src/lib.rs:185-190 | A time outside the plausible range changes no round-trip field; one inside counts as one sample. |
| Vegas.HalfOpenIsLeftAtOnce | crates/rushwind-circuitbreaker-vegas/src/lib.rs:224-230 | Half-open lasts one event. |
| Vegas.SmoothedBetweenExtremes | crates/rushwind-circuitbreaker-vegas/src/lib.rs:185-200 | With a positive smallest plausible time, on every history: the baseline is the minimum accepted sample, and the smoothed time lies between it and the maximum. |
| Vegas.BaseIsMinimumIff | crates/rushwind-circuitbreaker-vegas/src/lib.rs:197-199 | The baseline is the minimum on every history exactly when no zero sample is plausible, or nothing else is. |
| Vegas.ZeroThenOne | crates/rushwind-circuitbreaker-vegas/src/lib.rs:197-199 | The failing history: a zero sample reads as no baseline, and the next sample replaces it. |
| Vegas.GapShrinks | crates/rushwind-circuitbreaker-vegas/src/lib.rs:191-196 | Each maximal sample shrinks the part of the gap to the maximum beyond 7 ns by an eighth at least. |
| Vegas.ReachesCeiling | crates/rushwind-circuitbreaker-vegas/src/lib.rs:191-196 | After n maximal samples the smoothed time lies exactly 7 ns below the maximum, or where it was if that is higher, as soon as 7^n times the gap beyond 7 ns is below 8^n. |
| Vegas.FailuresOpen | crates/rushwind-circuitbreaker-vegas/src/lib.rs:260-268 | That many failures, the warmup over, open a closed breaker whenever (1+alpha) times the baseline lies below that point. |
| Vegas.FailuresPerBit | crates/rushwind-circuitbreaker-vegas/src/lib.rs:260-268 | Six failures per bit of the gap are enough: the bound is logarithmic, 210 at the default maximum of 30 s. |
| Vegas.FailuresOpenIff | crates/rushwind-circuitbreaker-vegas/src/lib.rs:204-268 | Failures alone open a closed breaker at some point exactly when (1+alpha) times the baseline lies below the higher of the smoothed time and 7 ns under the maximum. |
| LocalCache.Cache.ReadEntry | crates/rushwind-cache-local/src/lib.rs:223-233 | A read returns the live value or nothing, and drops the entry exactly when it has expired. |
| LocalCache.Cache.InsertEntry | crates/rushwind-cache-local/src/lib.rs:237-270 | An insertion keeps everything if there is room or the key is present; otherwise the live entries, or the newest of them that leave one place; it writes the value with its instant, and its expiry the time to live after that, if there is one. |
| LocalCache.Cache.EvictOldest | crates/rushwind-cache-local/src/lib.rs:249-260 | The eviction loop leaves one place and removes no entry inserted later than one it keeps. |
| LocalCache.Cache.SetNx | crates/rushwind-cache-local/src/lib.rs:151-166 | Stores exactly when the key has no live entry, and reports it. |
| LocalCache.Cache.GetMulti | crates/rushwind-cache-local/src/lib.rs:182-193 | Every position reads, at its own instant, what the cache held before the call unless that has expired by then; exactly the entries found expired are dropped. |
| LocalCache.Cache.SetMulti | crates/rushwind-cache-local/src/lib.rs:195-211 | Items are inserted one after the other, each at its own instant, with its own time to live or the default. |
| LocalCache.InsertBounded | crates/rushwind-cache-local/src/lib.rs:237-270 | The size never exceeds max(capacity, 1), and the written entry is present. |
| LocalCache.InsertLosesLiveIff | crates/rushwind-cache-local/src/lib.rs:244-260 | An insertion costs some live entry exactly when the key is new and the live entries fill the capacity. |
| LocalCache.InsertLeavesFull | crates/rushwind-cache-local/src/lib.rs:244-260 | An insertion that finds the capacity full of live entries leaves it full. |
| LocalCache.EvictsOldestWrite | crates/rushwind-cache-local/src/lib.rs:249-260 | In every run, a live entry that a write costs was last written before every other entry that survives it, or at the same instant. |
| LocalCache.CachedWasWritten | crates/rushwind-cache-local/src/lib.rs:223-270 | In every run, what is cached was written and since then neither overwritten nor deleted. |
| LocalCache.RunSubmap | crates/rushwind-cache-local/src/lib.rs:223-270 | In every run the cache holds only latest writes, at most max(capacity, 1) of them. |
| LocalCache.LiveIff | crates/rushwind-cache-local/src/lib.rs:223-270 | A key is live in the unbounded map exactly if its last write has not expired by its own time to live or the default. |
| LocalCache.HitIsLatestWrite | crates/rushwind-cache-local/src/lib.rs:223-233 | Every hit, at any capacity, is the value of the key's last write, less than its time to live, else the default one, ago; without either there is no bound. |
| LocalCache.AnswersLikeUnbounded | crates/rushwind-cache-local/src/lib.rs:129-219 | If the live keys never exceed the capacity, a get returns the key's last write exactly while that has not expired, and set_nx stores exactly when no such write counts. |
| LocalCache.SetNxExcludes | crates/rushwind-cache-local/src/lib.rs:151-166 | Then two successful set_nx of a key with no delete or overwrite between are at least the first one's time to live, else the default one, apart; without either there is no second. |
| StompFrame.EncodeFrame | crates/rushwind-broker-stomp/src/lib.rs:111-125 | The appending encoder produces command, header lines, blank line, body and NUL. |
| StompFrame.Reader.ReadHead | crates/rushwind-broker-stomp/src/lib.rs:139-153 | The head ends at the first blank line, at most 65537 bytes in; the stream is left right after it, or after the byte that made it too large. |
| StompFrame.Reader.ReadFrame | crates/rushwind-broker-stomp/src/lib.rs:136-199 | One frame is read and the stream left right behind it; at the end of the stream or over the limit the matching error, with the bytes consumed. |
| StompFrame.ReadIsClean | crates/rushwind-broker-stomp/src/lib.rs:154-193 | Every frame read, from any bytes, has line-feed-free pieces, colon-free header names, and a body its first content-length or its lack of NUL accounts for. |
| StompFrame.ParseUsizeIff | crates/rushwind-broker-stomp/src/lib.rs:167-171 | A content length is digits with at most one plus before them, below 2^64; any other text counts as none. |
| StompFrame.FirstHeaderCounts | crates/rushwind-broker-stomp/src/lib.rs:167-169 | Of several headers of one name the first decides. |
| StompFrame.RoundTripIff | crates/rushwind-broker-stomp/src/lib.rs:109-199 | Reading gives back an encoded text frame and consumes exactly it if and only if the frame is clean, its head fits, and its body is NUL-free or matches its first content-length; otherwise it never comes back as itself. |
| StompFrame.SequenceIff | crates/rushwind-broker-stomp/src/lib.rs:109-199 | A concatenation of encoded frames reads as the same sequence exactly when every frame meets that condition. |
| StompFrame.SendRoundTripIff | crates/rushwind-broker-stomp/src/lib.rs:393-400 | A published payload survives whatever its bytes, exactly when the topic has no line feed and the head fits. |
| StompFrame.SendWire | crates/rushwind-broker-stomp/src/lib.rs:393-400 | A published frame's bytes on the wire, one by one. |
| StompFrame.PeerFrameIsRead | crates/rushwind-broker-stomp/src/lib.rs:139-193 | A frame another party wrote by STOMP 1.2, section "Augmented BNF", with a header and no length, is read as its pieces. |
| StompFrame.PeerLengthIsRead | crates/rushwind-broker-stomp/src/lib.rs:167-184 | With its length stated, decimal, the body may hold anything. |
| StompFrame.TerminatorIgnoredIff | crates/rushwind-broker-stomp/src/lib.rs:172-184 | In every stream, another byte in the place right behind a body that was read changes nothing exactly when the length was stated or that byte is the NUL. |
| StompFrame.WrongTerminatorIff | crates/rushwind-broker-stomp/src/lib.rs:172-194 | An encoded text frame with any byte for its NUL comes back exactly when it is framed, and states its length or the byte is NUL. |
| StompFrame.LineFeedEmptiesCommand | crates/rushwind-broker-stomp/src/lib.rs:154-157 | Whatever follows a line feed, the frame read from there has an empty command. |
| StompFrame.NoFrameSurvivesLineFeed | crates/rushwind-broker-stomp/src/lib.rs:139-199 | A line feed before an encoded frame, which the STOMP 1.2 specification allows in section "STOMP Frames", is never skipped: no frame comes back behind one, whatever follows. |
| StompFrame.LineFeedBetweenFrames | crates/rushwind-broker-stomp/src/lib.rs:139-199 | What comes out instead for a text frame: its command is one more line of the head, dropped unless it reads as a header, and a head at the limit is refused. |
| Lifecycle.AwaitTrigger | crates/rushwind-core/src/app.rs:200-238 | The shutdown is triggered at the signal or the first start to end, whichever is first; a start ending at that instant is recorded. |
| Lifecycle.Drain | crates/rushwind-core/src/app.rs:242-267 | Starts ending by the deadline are recorded, earlier ones first; the drain ends with the last of them, or at the deadline if some start has not ended. |
| Lifecycle.App.AwaitStops | crates/rushwind-core/src/app.rs:277-289 | All stops end within one budget, those running over as timeouts, and the first error to come back is kept. |
| Lifecycle.App.Run | crates/rushwind-core/src/app.rs:198-321 | The exact order of all shutdown steps, the exact end time, its bound of two budgets and one per hook after the trigger, and the reported outcome. |
| Lifecycle.FailedStartIsReported | crates/rushwind-core/src/app.rs:324-340 | A start that fails or panics after starts that all ended well: the run reports its error. |
| Lifecycle.FailedStopIsReported | crates/rushwind-core/src/app.rs:277-289 | All starts well, and the first bad stop runs over its budget, fails or panics: the run reports a timeout, or its error. |
| Lifecycle.FirstErrorIff | crates/rushwind-core/src/app.rs:297-311 | The first error has only successes before it, the first real one only successes and cancellations. |
| Lifecycle.HookTimesAdd | crates/rushwind-core/src/app.rs:269-295 | A hook takes what it takes, at most the budget, and hooks run one after the other. |
| Lifecycle.ShutdownSteps | crates/rushwind-core/src/app.rs:240-295 | The shutdown step by step: signal, before hooks, stop calls, stop ends, after hooks, report. |
| Lifecycle.EachStopOnce | crates/rushwind-core/src/app.rs:269-295 | Each server's stop is called once and ends once: after every before hook, before any after hook, and all are called before one has ended. |
| Lifecycle.OutcomeAsPromisedIff | crates/rushwind-core/src/app.rs:195-311 | The outcome is the documented first non-cooperative error exactly when no recorded cancellation hides a real error that counts. |
| Lifecycle.SilentFailureIff | crates/rushwind-core/src/app.rs:297-311 | Success is reported despite a real error exactly when the first error of each phase, if any, is a cancellation, and one hides a real error. |
| Lifecycle.CancelledHidesFailure | crates/rushwind-core/src/app.rs:248-259 | Two concrete servers: one cancels on the signal, the other fails after it, and success is reported. |
| Balancer.PartitionState.LeastLoaded | crates/rushwind-broker-kafka/src/lib.rs:113-124 | The scan returns the leftmost minimum. |
| Balancer.PartitionState.Publish | crates/rushwind-broker-kafka/src/lib.rs:352-358 | The payload's length is added, modulo 2^64, to the chosen partition only, and the record goes to that partition. |
| Balancer.SpreadIsBounded | crates/rushwind-broker-kafka/src/lib.rs:113-124 | With any number of publishers whose looks at single counters and additions interleave in any way, no two partitions differ by more than one largest payload per publisher, and counted bytes and bytes in hand sum to all published; one publisher gives the sequential bound. |
| Balancer.BoundIsMet | crates/rushwind-broker-kafka/src/lib.rs:352-355 | For any number of publishers and of partitions above one there is a run whose spread is one largest payload per publisher: the bound cannot be lowered. |
| Balancer.PublishIsScan | crates/rushwind-broker-kafka/src/lib.rs:352-355 | A publish nothing interrupts is exactly such a scan and its addition, at the leftmost minimum. |

## Left out

- SQL, network and socket execution, async runtimes, real clocks and random sources: replaced by steps, instants and inputs.
- The job table's `update`, which overwrites attempts and budgets freely; decoding of claimed payloads; `len`, `is_empty` and lookups by id.
- The job queue's `poll` loop as one program: its heartbeat, claim and acknowledgement arms are separate steps that may come in any order.
- JobTable.PostgresStorage.WriteAcks: the method takes the earlier of two verdicts for one task; the step system allows either.
- RouteShadow.RoutersAgreeIff: the target router is modelled by its preference for static segments, not by its own tree; routes it would refuse to register, empty path segments (which its variables do not match), HEAD requests served by GET routes, and percent-decoding are not modelled.
- FormBinder.DynamicMessage.BindForm: the message is one value that the method replaces; nested messages are not separate objects, so aliasing is not modelled.
- FormBinder.LeafKeysDiffer: keys that mix both spellings are told apart only where they lead to their leaves; one leaf's JSON name may be another's proto name.
- FormEffects.BindLeaf: values of leaves are parsed by a parameter; timestamps, structs, base64 and field masks go to libraries, durations are `GoDuration`. Error texts are not modelled.
- The generator's naming, text emission and descriptor decoding, and schemas with message cycles, on which the leaf walk does not end.
- FallbackStream.ValueStream.Next: a sub-stream that neither delivers nor ends is not modelled; the loads of one walk are one step.
- The setters of the RBAC configuration and its locks; empty answers that do not depend on anything.
- RingRuns.RunTotalsIff: a mark that follows no rotation in its own period is covered by `RunExactIff` only; wrong slots can then add up to the right totals.
- RingWindow.RingBuffer.Mark: 64-bit counters do not overflow; the constructor's separate clock reads are one instant.
- Sre.SreBreaker.Allow: the random sample is any real; floating-point rounding is not modelled, here and in the other breakers.
- Vegas.VegasBreaker.RecordLatency: a success mark is a latency of zero and has no method of its own.
- The cache's `has` and its mutex: an operation on one key is one step at one instant, batch operations one such step per key.
- StompFrame.Reader.ReadFrame: buffers of any declared length can be allocated; header escapes, which the code does not handle, are not added; the connection loop and its backoff.
- Lifecycle.App.Run: hooks do not panic, and futures are taken as soon as they end; signals of the operating system are part of the one signal instant.
- Balancer.SpreadIsBounded: a look at a counter sees its present value, and totals stay below 2^64; the partition list's fetch and the producers are left out.
- The MQTT, NATS, Redis, RabbitMQ and Pulsar engines, access-control lists, health, codecs, sessions, CORS, bootstrap and the AI reader: wrappers and one-branch facts that would add only easy members.
