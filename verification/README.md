# ServiceNow code-mode MCP server: a verified model

This project models the safety core of the server in `packages/mcp-server` and of its in-instance
executor in `sn-executor-app`, and proves what they promise. `dafny verify dfyconfig.toml` checks all of
it.

| file | what it models |
|---|---|
| `MutationLedger.dfy` | the idempotency record and its Durable Object |
| `MutationGuard.dfy` | the ordered protocol around one mutation, as code and as a machine over its awaits; the classifier of errors after sending |
| `Attempts.dfy`, `ExactlyOnce.dfy`, `AuditTrail.dfy`, `Replays.dfy`, `UnknownOutcome.dfy`, `DoubleRun.dfy` | any number of attempts, their mail, one ledger and the effects; how often an effect is applied; audit rows; what is replayed; what an effect in doubt and a wrongly clean error lead to |
| `SendPath.dfy` | what becomes of one effect request, and which errors are called clean |
| `ReplayPayload.dfy` | the bounded value kept for replays |
| `Budget.dfy`, `RunBudget.dfy`, `BudgetRuns.dfy`, `RunCode.dfy` | the daily counters, the per-run meters, runs that share a day, and the reserved flag |
| `McpAdmission.dfy`, `AdmissionStream.dfy`, `ConsentRate.dfy` | leases and windows, the response stream that holds a lease, and the bounded limiter |
| `Executor.dfy`, `ExecutorVerify.dfy`, `ExecutorRuns.dfy` | one executor request, its verification, and many requests beside the purge job |
| `EncodedQuery.dfy`, `QueryScreening.dfy`, `PolicyConfig.dfy`, `AllowlistChunks.dfy` | row filters, field masks, the two readers of policy settings, and allowlist queries |
| `CanonicalActor.dfy`, `Utf8.dfy`, `ConsoleLogs.dfy` | the signed string, the byte-bounded texts and the capped console output |
| `Names.dfy`, `Wrappers.dfy` | identifier grammars, and the optional value |

Objects that chain their calls through one promise are classes whose methods run one at a time; their
methods are proved against functions or relations on the stored state. Concurrency is a step relation:
a step is the code between two awaits, or the arrival of a call. Clocks, random ids, networks, JSON, MAC,
digest and number parsing are parameters.

## Hypotheses

- A ledger call reaches the object at most once; an effect request is applied at most once, and not after
  it was answered with a result or with an error that the classifier calls clean. That such an error means
  the effect was not applied is not assumed.
- Requests are genuine: a signature that checks out is over a string the host signed. Signed payloads have
  distinct nonces and time stamps that parse back, the nonce table has a unique index, and the instance
  clock does not step back.
- A run reconciles at most once, by the snapshot of its meters. It may reconcile on the object of another
  day and may go on counting after the snapshot.
- Integers stay in the range where JavaScript numbers are exact.

## Where the code differs from what is said about it

- A script that throws the text `capability_required` or `actor_signature_invalid` is answered with 401
  after it was evaluated. The host takes that for a failure without effect, so a retry may run it again
  (`Executor.CleanUnlessSentinelThrown`, `DoubleRun.SentinelRunsTwice`).
- The guard calls throws before sending clean. That holds for the typed ones only: an unsafe path or a failed
  token call throws an untyped error, so the key is blocked although nothing was sent
  (`SendPath.CleanExactly`).
- A run that crosses UTC midnight refunds the wrong day: the old day keeps its maximum, the new one is
  under-counted and can admit more than its cap (`BudgetRuns.ConservationExact`,
  `BudgetRuns.BreakingReserve`, `BudgetRuns.MidnightRefundBreaksTheCap`).
- Nothing stops the calls that a run leaves under way when it ends: the timeout of the executor is a race
  that aborts nothing (`docs/ADR/0001-codemode-integration.md:57`), and a snippet need not await its calls.
  They pass the per-run checks (`packages/mcp-server/src/sn/rpc.ts:441-474`) after the snapshot was taken
  and the unused maximum refunded (`packages/mcp-server/src/tools/run_code.ts:246-252`), so no daily counter
  shows them and the day can pass its cap (`BudgetRuns.SpendWithinCapExact`,
  `BudgetRuns.LateCountBreaksTheCap`). Unique workers, which are never refunded, still bound it
  (`BudgetRuns.WorkersBoundTheDay`).
- `outboundBytesSent` is also incremented by the OAuth callback without looking at the cap, so its counter
  stays within the cap exactly while each callback happens to find room
  (`BudgetRuns.OutboundCounterExact`, `BudgetRuns.CallbackSpendPassesTheCap`).
- Query screening misses a masked field that starts with `desc` behind ORDERBY or with `derby` behind OR,
  and one that is itself a beginning of those words, unless another mask happens to reject the clause; every
  other field is caught (`QueryScreening.ScreenedExact`, `QueryScreening.SingleMaskExact`,
  `QueryScreening.DescriptionIsMissed`).
- The loader records no property for a table called `__proto__`, so it sees neither its repetition nor its
  structural row filter; the validator does (`PolicyConfig.PostureMeetsLoader`,
  `PolicyConfig.ProtoSettings`).
- The consent limiter's comment takes the oldest entry for the soonest to expire; an expired key that
  returns keeps its old place (`ConsentRate.ReopeningBreaksAge`, `ConsentRate.OldestNeedNotExpireFirst`).
- The guard's comment says that a record left `started` blocks retries until its retention expires; it
  never expires (`MutationLedger.OpenRecordsNeverExpire`).
- The host's decoder drops a leading byte-order mark of a text it cuts, and the executor counts a lone
  high surrogate as a pair (`Utf8.TruncationsAgree`, `Utf8.TruncationsAgreeExactly`).

## Model

| member | source | states |
|---|---|---|
| ExactlyOnce.AtMostOncePerRetention | packages/mcp-server/src/sn/mutation-guard.ts:238-413 | over every interleaving of attempts, crashes, lost and late ledger calls, no attempt's effect is applied twice, and all applications but one are matched by distinct applied attempts: owners of completed records dropped only after their full retention, and exactly those applied attempts whose error was called clean |
| ExactlyOnce.AtMostOnceWithinRetention | packages/mcp-server/src/do/mutation-ledger.ts:142-193 | if all clock readings of the ledger lie within one retention period, the effect is applied at most once plus once per applied attempt whose error was called clean |
| ExactlyOnce.LedgerOwnership | packages/mcp-server/src/do/mutation-ledger.ts:142-202 | a record is `started` exactly while some claim is unclosed; that claim is unique and every closing call under way is its own |
| AuditTrail.AuditOrder | packages/mcp-server/src/sn/mutation-guard.ts:205-222 | over all runs: with a sink an effect is invoked only after its intent row; an ok row means it returned, an error row that it threw, a denied row that the attempt never invoked it; intent and outcome rows share one key whatever the day |
| Replays.ReplayIsTheFirstResult | packages/mcp-server/src/sn/rpc.ts:476-496 | whatever the ledger replays is the wrapper that an earlier attempt with the same request hash got from its applied effect |
| DoubleRun.CleanErrorRunsTwice | packages/mcp-server/src/sn/mutation-guard.ts:347-372 | for every error that is called clean a history with one clock reading in which an applied effect throws it, the same request is granted again and its effect is applied a second time |
| DoubleRun.SentinelRunsTwice | packages/mcp-server/src/sn/rpc.ts:156-176 | an evaluated script that throws one of the refusal texts: its answer maps to a clean error, and a retry of the same request runs it again |
| Attempts.StepKeepsInv | packages/mcp-server/src/sn/mutation-guard.ts:238-413 | every step of every party keeps the joint invariant of attempts, mail, record and effects |
| AuditTrail.StepKeepsAudit | packages/mcp-server/src/sn/mutation-guard.ts:322-445 | every step keeps the relation between audit rows and what happened |
| SendPath.CleanExactly | packages/mcp-server/src/sn/rpc.ts:147-176 | over every way a send can go: the throw is called clean if and only if the server refused (a client error other than the rate limit, or the kill switch) or nothing was sent and the refusal has a type; no response, redirects, 5xx, 429 and unreadable successes are unknown |
| SendPath.CodeTellsStatus | packages/mcp-server/src/sn/errors.ts:81-117 | which statuses each error code stands for, both directions |
| UnknownOutcome.DoubtIsNeverRetried | packages/mcp-server/src/sn/mutation-guard.ts:347-358 | over all runs: an effect that threw with no definitive answer makes its attempt send markIndeterminate and nothing else, and from then on begin is blocked for every request at every clock reading, as indeterminate once the closing call landed |
| MutationGuard.ExecutedExactly | packages/mcp-server/src/sn/mutation-guard.ts:343-412 | a call returns a result of its own if and only if its trace reached the effect and the effect returned that result |
| MutationGuard.ReplayedExactly | packages/mcp-server/src/sn/mutation-guard.ts:277-286 | a call returns a stored result if and only if begin replayed that and the replay gate passed |
| MutationGuard.GuardedCall.GuardMutation | packages/mcp-server/src/sn/mutation-guard.ts:238-413 | the code in its own order ends where the await machine ends, and its outcome by its callbacks: the effect's result, the replayed one, or the error of the exit taken (configuration, conflict, gate, snapshot, audit, ledger rejection, effect) |
| MutationGuard.GuardedCall.MutateClaimed | packages/mcp-server/src/sn/mutation-guard.ts:297-413 | from the claim on: preflight, snapshot, intent row, effect, closing call, outcome row; the outcome of every exit, and the effect's own result when nothing fails |
| MutationGuard.GuardedCall.DenyAndThrow | packages/mcp-server/src/sn/mutation-guard.ts:297-302 | a denial closes the ledger, writes its row and rethrows; a rejecting ledger call masks the row |
| MutationGuard.GuardedCall.EmitRow | packages/mcp-server/src/sn/mutation-guard.ts:415-445 | a failed outcome or denial row changes nothing about the result |
| MutationGuard.GuardedCall.AwaitClose | packages/mcp-server/src/sn/mutation-guard.ts:352-397 | a rejecting closing call after the effect is swallowed |
| MutationGuard.OutcomeIsDetermined | packages/mcp-server/src/sn/mutation-guard.ts:238-413 | with given callback answers there is one trace and one outcome |
| MutationGuard.EffectReachedExactlyAfter | packages/mcp-server/src/sn/mutation-guard.ts:304-345 | the effect is invoked if and only if configuration, claim, preflight, snapshot and intent row succeeded, in that order |
| MutationGuard.PreflightReached | packages/mcp-server/src/sn/mutation-guard.ts:247-306 | the preflight gate is reached exactly after the configuration checks and, with a ledger, a granted claim |
| MutationLedger.MutationLedgerDO.GetActiveRecord | packages/mcp-server/src/do/mutation-ledger.ts:109-123 | a read returns the live record and leaves storage and alarm as normalization says |
| MutationLedger.MutationLedgerDO.PutRecord | packages/mcp-server/src/do/mutation-ledger.ts:125-129 | a written record expires one retention from now and sets the alarm |
| MutationLedger.ReadExactly | packages/mcp-server/src/do/mutation-ledger.ts:43-88 | which stored rows a read takes for records, with status, hash, expiry and result, and what it leaves in storage, said of the stored fields |
| MutationLedger.MutationLedgerDO.BeginCritical | packages/mcp-server/src/do/mutation-ledger.ts:142-160 | begin follows the ledger specification on the stored record, and sets the alarm as the source does |
| MutationLedger.MutationLedgerDO.CompleteCritical | packages/mcp-server/src/do/mutation-ledger.ts:166-174 | complete follows the specification, alarm included |
| MutationLedger.MutationLedgerDO.FailCritical | packages/mcp-server/src/do/mutation-ledger.ts:180-184 | fail follows the specification, alarm included |
| MutationLedger.MutationLedgerDO.MarkIndeterminateCritical | packages/mcp-server/src/do/mutation-ledger.ts:190-193 | markIndeterminate follows the specification, alarm included |
| MutationLedger.MutationLedgerDO.Alarm | packages/mcp-server/src/do/mutation-ledger.ts:199-202 | an alarm is a read, and whatever survives has an alarm at its expiry |
| MutationLedger.OpenRecordsNeverExpire | packages/mcp-server/src/do/mutation-ledger.ts:50-58 | started and indeterminate records survive every read at every clock reading, with their hash |
| MutationLedger.IndeterminateIsAbsorbing | packages/mcp-server/src/do/mutation-ledger.ts:142-202 | no operation, expiry or alarm leaves indeterminate, and begin is always blocked |
| MutationLedger.IndeterminateForever | packages/mcp-server/src/do/mutation-ledger.ts:142-202 | the same over every sequence of operations |
| MutationLedger.StrayCloseChangesNothing | packages/mcp-server/src/do/mutation-ledger.ts:166-193 | a closing call on anything but a started record is a plain read |
| MutationLedger.BeginGrants | packages/mcp-server/src/do/mutation-ledger.ts:142-160 | a claim is granted exactly when no live record stands in the way or the live one failed with the same hash |
| MutationLedger.StartedUntilClosed | packages/mcp-server/src/do/mutation-ledger.ts:43-88 | without a closing call a started record stays started under every sequence of operations and clocks |
| MutationLedger.CompletedReplays | packages/mcp-server/src/do/mutation-ledger.ts:142-174 | after completion at t, whatever else is asked before the retention ends, begin replays exactly that result for the same hash, blocks other hashes, and grants anew from then on |
| MutationLedger.FailedIsRetried | packages/mcp-server/src/do/mutation-ledger.ts:142-184 | after a clean failure the same request is granted at once, another one is blocked until the retention ends |
| ReplayPayload.ReplaySafeIsWrapperAndIdempotent | packages/mcp-server/src/sn/replay-payload.ts:30-64 | any result of any size becomes a wrapper within the byte cap, and wrapping again changes nothing |
| ReplayPayload.VisibleIsOriginal | packages/mcp-server/src/sn/replay-payload.ts:47-75 | for every value that its text gives back: the caller sees it unchanged if and only if the text fits the cap or it already was a truncated payload, and a truncated payload otherwise |
| ReplayPayload.OversizeIsCut | packages/mcp-server/src/sn/replay-payload.ts:47-75 | in place of a result over the cap the caller sees its length and its longest beginning within 98304 bytes |
| ReplayPayload.WrapperShapedResultIsReinterpreted | packages/mcp-server/src/sn/replay-payload.ts:30-48 | a result that has the wrapper's own shape is not shown as it was |
| Budget.BudgetDO.ReserveCritical | packages/mcp-server/src/do/budget.ts:96-138 | all or nothing: every requested dimension is added to both views, or nothing changes and the first obstacle is named with cap and would-be value |
| Budget.AdmitsExactly | packages/mcp-server/src/do/budget.ts:96-116 | admission dimension by dimension: four spent ones below their caps and every requested amount within its own |
| Budget.BudgetDO.IncrementCritical | packages/mcp-server/src/do/budget.ts:161-179 | adds exactly the positive amounts to the global and the user's counters and touches no other |
| Budget.BudgetDO.ReconcileCritical | packages/mcp-server/src/do/budget.ts:195-211 | applies signed deltas held at zero to the global and the user's counters and touches no other |
| BudgetRuns.CounterIsEntriesAndStrays | packages/mcp-server/src/do/budget.ts:96-211 | over every history, in every dimension, the global counter and each user's counter equal the reservations of runs not reconciled plus the cost of reconciled ones plus callback spend, plus what reconciles of other days' runs and the hold at zero moved it by |
| BudgetRuns.ConservationExact | packages/mcp-server/src/do/budget.ts:195-211 | a counter accounts for exactly its own entries on all days up to any point if and only if each reconcile of another day's run had delta 0 there or met a counter at 0 with a refund |
| BudgetRuns.BudgetConservation | packages/mcp-server/src/do/budget.ts:96-211 | without reconciles of other days' runs, on every day, in every dimension, both views account for exactly their own entries |
| BudgetRuns.ClampNeverBites | packages/mcp-server/src/do/budget.ts:195-211 | while a counter accounts for its entries no own refund can reach below zero, globally or per user |
| BudgetRuns.CounterSplits | packages/mcp-server/src/sn/run-budget.ts:48-95 | over every history: the stored counter plus what passed after a snapshot equals what is used plus refused tries plus callback spend plus what went astray |
| BudgetRuns.SpendStaysWithinCap | packages/mcp-server/src/tools/handlers.ts:314-372 | for ServiceNow requests, RPC calls and outbound bytes, over every history: what passed the per-run checks of reconciled runs plus the full reservations of all others exceeds the daily cap at most by what passed after a snapshot and what reconciles of other days' runs took from the counter |
| BudgetRuns.PunctualDayWithinCap | packages/mcp-server/src/tools/handlers.ts:314-372 | without such counts and reconciles it never exceeds the cap, whatever interleaves |
| BudgetRuns.SpendWithinCapExact | packages/mcp-server/src/tools/run_code.ts:246-252 | it is within the cap on all days up to any point if and only if each admitted reserve, and each count in a run already reconciled, found room for what it asks |
| BudgetRuns.BreakingReserve | packages/mcp-server/src/tools/handlers.ts:116-118 | over every history, a reserve takes it past the cap if and only if the counters admit the reserve although late counts and strayed refunds hide more than the room that is left |
| BudgetRuns.LateCountBreaksTheCap | packages/mcp-server/src/tools/run_code.ts:246-252 | a history at the configured caps: a run is refunded in full, five hundred others fill the day, and a call it left under way passes its check, 100001 requests against 100000, with the counter at 100000 |
| BudgetRuns.WorkersBoundTheDay | packages/mcp-server/src/tools/run_code.ts:261-272 | late counts and refunds of other days' runs included, code runs use at most their per-run maximum times the cap of unique workers |
| BudgetRuns.OutboundCounterExact | packages/mcp-server/src/do/budget.ts:161-179 | over every history the outbound-bytes counter stays within the cap if and only if every callback found room for its spend when it came |
| BudgetRuns.CallbackSpendPassesTheCap | packages/mcp-server/src/do/budget.ts:161-179 | a history at the configured caps in which one callback takes that counter past its cap |
| BudgetRuns.OutboundCounterWithinCap | packages/mcp-server/src/sn/run-budget.ts:88-95 | on a day none of whose entries is callback spend the counter is within the cap, over every history |
| BudgetRuns.UsersAddUp | packages/mcp-server/src/do/budget.ts:117-138 | the per-user counters add up to the global one over any roster of the users involved |
| BudgetRuns.MetersAlwaysAgree | packages/mcp-server/src/sn/run-budget.ts:48-95 | what passed is the meter cut at the limit, outbound bytes never exceed theirs, and a snapshot is never above the live meters |
| BudgetRuns.MidnightRefundBreaksTheCap | packages/mcp-server/src/tools/handlers.ts:296-305 | a history at the configured caps, for any user: five hundred running code runs, the refund of one run of the day before, and run 501 is admitted, 100200 requests against 100000 |
| RunBudget.RunBudget.CountRpcCall | packages/mcp-server/src/sn/run-budget.ts:48-54 | counts first, then checks |
| RunBudget.RunBudget.CountServiceNowRequest | packages/mcp-server/src/sn/run-budget.ts:57-63 | counts first, then checks |
| RunBudget.RunBudget.CountRows | packages/mcp-server/src/sn/run-budget.ts:67-74 | counts first, then checks the row ceiling |
| RunBudget.RunBudget.CountBytes | packages/mcp-server/src/sn/run-budget.ts:78-85 | counts first, then checks the byte ceiling |
| RunBudget.RunBudget.CountOutboundBytes | packages/mcp-server/src/sn/run-budget.ts:88-95 | checks first: a refused count leaves the meter alone |
| RunCode.RunCode | packages/mcp-server/src/tools/run_code.ts:97-276 | on every exit path the whole run adds to the day exactly its cost, its lost reservation, or nothing: never a reconcile without a reserve, never two |
| RunCode.RunDiscoveryWithBudget | packages/mcp-server/src/tools/handlers.ts:557-594 | the same for discovery runs |
| RunCode.ReconcileDaily | packages/mcp-server/src/tools/run_code.ts:246-276 | the finally block reconciles once and swallows failures |
| RunCode.ReserveThenReconcile | packages/mcp-server/src/tools/handlers.ts:314-349 | a reservation and its reconciliation together add the actual cost |
| McpAdmission.McpAdmissionDO.AdmitCritical | packages/mcp-server/src/do/mcp-admission.ts:42-65 | admits, or denies for rate or concurrency, with the stored window, leases and advice the specification names |
| McpAdmission.McpAdmissionDO.Release | packages/mcp-server/src/do/mcp-admission.ts:67-74 | removes one lease and nothing else |
| McpAdmission.McpAdmissionDO.Renew | packages/mcp-server/src/do/mcp-admission.ts:76-87 | extends a live lease, never creates one, and drops stale ones |
| McpAdmission.McpAdmissionDO.PruneLeases | packages/mcp-server/src/do/mcp-admission.ts:98-104 | keeps exactly the leases that expire later than now |
| McpAdmission.McpAdmissionDO.Earliest | packages/mcp-server/src/do/mcp-admission.ts:55-56 | the smallest expiry |
| McpAdmission.KeptLeaseHolds | packages/mcp-server/src/do/mcp-admission.ts:77-86 | over every history: a lease that is never released and whose renewals come before seventy-five seconds have passed holds its slot throughout and expires exactly seventy-five seconds after it was last granted or renewed, whatever comes between |
| McpAdmission.KeptLeaseIsRenewed | packages/mcp-server/src/do/mcp-admission.ts:77-86 | its next renewal is answered true if and only if it comes within those seventy-five seconds |
| McpAdmission.RateDenialIsEarned | packages/mcp-server/src/do/mcp-admission.ts:43-53 | under a clock that never steps back a rate denial finds sixty counted attempts in the minute still open |
| McpAdmission.ConcurrencyDenialIsEarned | packages/mcp-server/src/do/mcp-admission.ts:54-62 | an attempt is denied for concurrency if and only if it is counted and four leases are live |
| McpAdmission.LeasesStayBounded | packages/mcp-server/src/do/mcp-admission.ts:42-87 | at most four leases are stored in every run of operations, whatever the clock shows at each of them |
| McpAdmission.AtMost120PerMinute | packages/mcp-server/src/do/mcp-admission.ts:42-50 | under a clock that never steps back any closed minute has at most 120 counted attempts |
| McpAdmission.RateRetryIsExact | packages/mcp-server/src/do/mcp-admission.ts:48-50 | with no call in between, the rate denial recurs if and only if less than retryAfterMs has passed |
| McpAdmission.ConcurrencyRetryIsExact | packages/mcp-server/src/do/mcp-admission.ts:53-59 | a slot is free from retryAfterMs on and not before |
| AdmissionStream.ResponseWithAdmissionRelease.constructor | packages/mcp-server/src/index.ts:251-269 | a response without a body releases at once; one with a body starts the loop |
| AdmissionStream.ResponseWithAdmissionRelease.ReleaseOnce | packages/mcp-server/src/index.ts:260-265 | the first call flags, aborts and releases; later ones do nothing |
| AdmissionStream.ResponseWithAdmissionRelease.RenewalDelayOver | packages/mcp-server/src/index.ts:225-229 | after the delay the loop renews unless it was aborted |
| AdmissionStream.ResponseWithAdmissionRelease.RenewalAnswered | packages/mcp-server/src/index.ts:229-238 | a lost lease ends the loop and releases; errors are survived |
| AdmissionStream.ResponseWithAdmissionRelease.Pull | packages/mcp-server/src/index.ts:274-287 | end and error of the body release, a chunk does not |
| AdmissionStream.ResponseWithAdmissionRelease.CancelSettled | packages/mcp-server/src/index.ts:288-294 | cancel releases when the reader has settled |
| AdmissionStream.ReleasedExactlyOnce | packages/mcp-server/src/index.ts:220-302 | in every interleaving the release is issued exactly once if a terminal event has happened and never otherwise, and no renewal is issued after it |
| AdmissionStream.OpenStreamRenews | packages/mcp-server/src/index.ts:220-240 | in every interleaving without a terminal event the stream issues exactly one renewal for each delay that ended, and its loop never stops |
| AdmissionStream.LateRenewalNeverRecreates | packages/mcp-server/src/do/mcp-admission.ts:67-87 | once the release has landed the lease stays gone, in whatever order late renewals arrive |
| AdmissionStream.LandsOnlyAfterTheEnd | packages/mcp-server/src/index.ts:201-207 | a release lands only after the stream ended |
| AdmissionStream.OthersOnly | packages/mcp-server/src/do/mcp-admission.ts:42-87 | operations for other leases never create or extend this one |
| ConsentRate.ConsentRateDO.Allow | packages/mcp-server/src/do/consent-rate.ts:40-59 | counts, denies at the cap, opens windows and evicts as specified; an untracked key is always admitted |
| ConsentRate.ConsentRateDO.Prune | packages/mcp-server/src/do/consent-rate.ts:62-66 | drops exactly the expired entries, in order |
| ConsentRate.CallKeepsBound | packages/mcp-server/src/do/consent-rate.ts:48-59 | the map never exceeds its bound, under any clock |
| ConsentRate.LiveEntryLostOnlyWhenFull | packages/mcp-server/src/do/consent-rate.ts:51-57 | a live entry is lost if and only if it is the first of a map full of live entries and the caller is new |
| ConsentRate.DenialIsEarned | packages/mcp-server/src/do/consent-rate.ts:40-46 | a denied caller has had thirty calls admitted in its current window, which has not ended |
| ConsentRate.ThirtyAndNoMore | packages/mcp-server/src/do/consent-rate.ts:36-48 | in every history a tracked key has at most thirty admitted calls in its window, and its next call is denied if and only if it has thirty and the minute has not passed |
| ConsentRate.CallExactly | packages/mcp-server/src/do/consent-rate.ts:36-62 | one call, said of the map: what is counted, opened, kept in place and left alone |
| ConsentRate.OldestNeedNotExpireFirst | packages/mcp-server/src/do/consent-rate.ts:20-24 | a history from the empty map in which the entry evicted ends a minute after the one behind it |
| ConsentRate.ReopeningBreaksAge | packages/mcp-server/src/do/consent-rate.ts:20-24 | insertion order stops being expiry order if and only if a tracked key re-opens its window before a younger entry |
| ExecutorVerify.Verify | sn-executor-app/fluent/src/server/x_mcp_verify.js:166-201 | true for a genuine request if and only if it carries a payload the host signed for this script and instance within two minutes, with a nonce, under an installed secret |
| ExecutorVerify.ConstantTimeEquals | sn-executor-app/fluent/src/server/x_mcp_verify.js:136-142 | equality of two texts; null equals nothing |
| ExecutorVerify.VerifiedIsSigned | sn-executor-app/fluent/src/server/x_mcp_verify.js:187-197 | a genuine request whose signature checks out is field by field a payload the host signed, with the time and nonce that were signed |
| ExecutorVerify.AcceptedIsBound | sn-executor-app/fluent/src/server/x_mcp_verify.js:166-201 | a genuine request that is taken carries a payload the host signed under an installed secret, for the digest of this very script, this instance, with a nonce, and not two minutes from now |
| ExecutorVerify.BoundIsAccepted | sn-executor-app/fluent/src/server/x_mcp_verify.js:166-201 | a payload signed under the current or the previous secret, for this script and instance, fresh and with a nonce, is taken |
| ExecutorVerify.AcceptedBriefly | sn-executor-app/fluent/src/server/x_mcp_verify.js:180-197 | all times at which genuine requests with one nonce are accepted lie within 240 seconds |
| ExecutorRuns.EvaluatedOnce | sn-executor-app/fluent/src/server/x_mcp_executor.js:138-206 | over all time, all interleavings, stalls and purging, two genuine requests with one nonce are never both evaluated by the installed verifier and executor |
| ExecutorRuns.EvaluatedIsSigned | sn-executor-app/fluent/src/server/x_mcp_executor.js:138-206 | in every history an evaluated request ran a script whose digest the host signed for this instance, verified twice within two minutes of the signing |
| ExecutorRuns.EvaluatedFoundItsRows | sn-executor-app/fluent/src/server/x_mcp_verify.js:229-249 | in every history an evaluated request found both its nonce row and its claim row in the table when they were looked up |
| ExecutorRuns.InsertAloneIsNotSingleUse | sn-executor-app/fluent/src/server/x_mcp_verify.js:178-183 | for every request that is ever accepted a history in which a copy that stalls past the purge inserts the nonce again, so only the second verification keeps it from being evaluated |
| ExecutorRuns.StepKeepsApart | sn-executor-app/fluent/src/fluent/x_mcp.now.ts:160-174 | of two inserts of one nonce, one comes almost an hour after the other was stamped, since the purge waits an hour |
| ExecutorRuns.StepKeepsTimes | sn-executor-app/fluent/src/server/x_mcp_verify.js:229-249 | verification, stamp, insertion and re-verification times stay in order, and both verifications accepted |
| ExecutorRuns.StepsFollowProcess | sn-executor-app/fluent/src/server/x_mcp_executor.js:114-206 | a request taken through the steps ends evaluated exactly when the code of one request evaluates it, and refused with the same error class |
| ExecutorRuns.AloneIsARun | sn-executor-app/fluent/src/server/x_mcp_executor.js:114-206 | taking a request through its steps at once is one of the interleavings |
| Executor.Process | sn-executor-app/fluent/src/server/x_mcp_executor.js:64-240 | the script is evaluated if and only if every gate passed; otherwise answer, audit status and error class are those of the first gate that did not |
| Executor.Execute | sn-executor-app/fluent/src/server/x_mcp_verify.js:229-249 | evaluation needs a second verification and the proof rows; each refusal has its own error text |
| Executor.CleanUnlessSentinelThrown | packages/mcp-server/src/sn/rpc.ts:156-176 | the host reads the answer of an evaluated script as a clean failure if and only if the script threw one of the two refusal texts |
| Executor.RefusalsAreClean | packages/mcp-server/src/sn/errors.ts:81-117 | every refusal but the failed audit insert is read as clean |
| EncodedQuery.HasEncodedQueryStructuralOperator | packages/mcp-server/src/sn/validate.ts:32-43 | true if and only if some caret-separated clause opens with OR, NQ or EQ in any case and is no ordering clause |
| EncodedQuery.HasStructuralExactly | packages/mcp-server/src/sn/validate.ts:32-43 | the check finds a clause with OR, NQ or EQ first, letter by letter in either case, that is no ordering |
| EncodedQuery.ClausesAreTheSplit | packages/mcp-server/src/sn/validate.ts:32-43 | the clauses are what stands between the carets |
| EncodedQuery.ValidatedExactly | packages/mcp-server/src/sn/validate.ts:161-184 | a query passes if and only if it has at most 4096 characters and, behind a mandatory filter, no operator clause |
| EncodedQuery.StructuralDistributes | packages/mcp-server/src/sn/validate.ts:32-43 | the check of a composed query is that of its halves |
| EncodedQuery.ConjunctionIsExact | packages/mcp-server/src/authz/actor-policy.ts:375-379 | a safe filter in front of an accepted query selects exactly the rows both select, whatever the instance makes of operators |
| EncodedQuery.RowFilterIsExact | packages/mcp-server/src/sn/validate.ts:161-184 | the query sent for a table read selects the rows of the filter and the query; without a filter the query is untouched |
| EncodedQuery.ScopedLookup | packages/mcp-server/src/sn/rpc.ts:250-280 | the lookup before a write selects the row with that sys_id only inside the filter |
| EncodedQuery.OperatorsEscape | packages/mcp-server/src/sn/validate.ts:161-173 | under the documented reading an OR or NQ clause in any case lets a row outside the filter through |
| EncodedQuery.EndQueryKeepsConjunction | packages/mcp-server/src/sn/validate.ts:32-43 | a query whose structural clauses only end it keeps the conjunction exact, so refusing EQ is caution |
| QueryScreening.AssertQueryFieldsAllowed | packages/mcp-server/src/authz/actor-policy.ts:466-483 | a query passes if and only if no clause yields a masked or glued token, with or without its keyword |
| QueryScreening.IsFieldMaskedByIndex | packages/mcp-server/src/authz/actor-policy.ts:391-400 | true if and only if the field is a mask or goes on after one with a dot |
| QueryScreening.MaskedFieldWithGluedOperator | packages/mcp-server/src/authz/actor-policy.ts:441-449 | true if and only if the token goes on after a mask with a letter |
| QueryScreening.MaskRow | packages/mcp-server/src/authz/actor-policy.ts:404-412 | no key that is left is a mask or goes on after one with a dot, and every other key is kept with its value |
| QueryScreening.ScreeningComplete | packages/mcp-server/src/authz/actor-policy.ts:429-483 | a clause that names a masked field after spaces and one keyword in any case is rejected unless keyword and text read as a longer keyword |
| QueryScreening.QueryRejected | packages/mcp-server/src/authz/actor-policy.ts:466-483 | the same for any clause of a query |
| QueryScreening.RejectedNamesAMask | packages/mcp-server/src/authz/actor-policy.ts:429-483 | nothing else is rejected: every rejected clause names a masked field behind optional spaces and one keyword, up to its end, a character no field has, a dot or a letter |
| QueryScreening.UsuallyUnambiguous | packages/mcp-server/src/authz/actor-policy.ts:425-427 | a field that starts with neither word never reads as part of a longer keyword, except when it begins one of them and a letter follows at once |
| QueryScreening.ScreenedExact | packages/mcp-server/src/authz/actor-policy.ts:425-483 | for any set of masks, every clause that names a masked field, with any keyword, spaces and boundary, is rejected if and only if the field and each of the words derby and desc are no beginnings of each other, or other masks reject the clause of keyword and field, respectively begin the longer keyword |
| QueryScreening.SingleMaskExact | packages/mcp-server/src/authz/actor-policy.ts:425-427 | for one mask nothing can rescue: every such clause is rejected if and only if the field and the words derby and desc are no beginnings of each other |
| QueryScreening.DescriptionIsMissed | packages/mcp-server/src/authz/actor-policy.ts:425-427 | two concrete clauses that name a masked field and pass |
| PolicyConfig.LoadActorPolicy | packages/mcp-server/src/authz/actor-policy.ts:212-243 | the loader accepts exactly the specified settings, the policy it builds says what they say, defaults included, and no filter it loads is structural |
| PolicyConfig.CutExactly | packages/mcp-server/src/authz/actor-policy.ts:144-162 | an entry is cut at its first colon, and malformed without one or when it comes first |
| PolicyConfig.PartsAreTheSplit | packages/mcp-server/src/authz/actor-policy.ts:127-131 | the items of a setting are what stands between its separators |
| PolicyConfig.ParseTableScopedConfig | packages/mcp-server/src/authz/actor-policy.ts:144-162 | accepts exactly well-shaped, valid, distinct entries and records what they say |
| PolicyConfig.ParseTableAllowlist | packages/mcp-server/src/authz/actor-policy.ts:133-142 | accepts exactly lists of valid names |
| PolicyConfig.ParsePositiveInt | packages/mcp-server/src/authz/actor-policy.ts:184-191 | the default, the integer, or a failure |
| PolicyConfig.RowFiltersSafe | packages/mcp-server/src/authz/actor-policy.ts:83-87 | no loaded filter is structural |
| PolicyConfig.ValidateActorPolicyEnv | packages/mcp-server/src/authz/production-posture-core.ts:289-312 | the validator reports nothing exactly on clean settings |
| PolicyConfig.ActorPolicyTableEntries | packages/mcp-server/src/authz/production-posture-core.ts:228-246 | reports every malformed entry and keeps the others in order |
| PolicyConfig.ValidateEntries | packages/mcp-server/src/authz/production-posture-core.ts:248-275 | reports every invalid, repeated or unusable entry |
| PolicyConfig.ValidateUniqueTable | packages/mcp-server/src/authz/production-posture-core.ts:215-226 | reports invalid and repeated tables |
| PolicyConfig.ValidateTableAllowlist | packages/mcp-server/src/authz/production-posture-core.ts:203-213 | reports every invalid name |
| PolicyConfig.ValidatePositiveInt | packages/mcp-server/src/authz/production-posture-core.ts:277-281 | reports what is no positive integer |
| PolicyConfig.PostureMeetsLoader | packages/mcp-server/src/authz/production-posture-core.ts:203-281 | settings are clean if and only if they load and use the key __proto__ at most once per setting and with a safe filter |
| PolicyConfig.ReadersAgree | packages/mcp-server/src/authz/production-posture-core.ts:203-281 | for tables of any other name the validator reports nothing exactly when the loader accepts |
| PolicyConfig.TwiceProtoLoads | packages/mcp-server/src/authz/actor-policy.ts:127-131 | a mask list that names the prototype key twice loads and is reported |
| PolicyConfig.StructuralProtoLoads | packages/mcp-server/src/authz/actor-policy.ts:83-87 | a structural row filter for the prototype key loads and is reported |
| PolicyConfig.ProtoSettings | packages/mcp-server/src/authz/actor-policy.ts:127-131 | two strings an operator could set that load and are reported |
| AllowlistChunks.ExactAllowlistChunks | packages/mcp-server/src/sn/discovery.ts:74-89 | the loop computes the greedy cut |
| AllowlistChunks.CutKeepsAll | packages/mcp-server/src/sn/discovery.ts:74-89 | the chunks concatenate to the names in order and none is empty |
| AllowlistChunks.ChunksFit | packages/mcp-server/src/sn/query-budget.ts:13-21 | with valid names every chunk's query fits the byte cap |
| AllowlistChunks.CutIsShortest | packages/mcp-server/src/sn/discovery.ts:74-89 | no partition into fitting chunks, in order, is shorter |
| AllowlistChunks.PartsFit | packages/mcp-server/src/sn/discovery.ts:65-72 | parts of a fitting list fit |
| AllowlistChunks.QueryIsSpelled | packages/mcp-server/src/sn/discovery.ts:65-72 | the query of a chunk of valid names, as it is sent |
| AllowlistChunks.ServiceNowQueryStringBytes | packages/mcp-server/src/sn/query-budget.ts:6-11 | the length of the form-encoded query |
| AllowlistChunks.QueryStringAddsUp | packages/mcp-server/src/sn/query-budget.ts:6-11 | that length is the encoded keys and values, an equals sign each and the ampersands between |
| AllowlistChunks.CountServiceNowQueryBytes | packages/mcp-server/src/sn/query-budget.ts:13-23 | an oversized query is refused before the meter is touched |
| CanonicalActor.AsciiJsonString | packages/mcp-server/src/auth/actor.ts:53-63 | the escaped quoted text |
| CanonicalActor.ExecutorAsciiJsonString | sn-executor-app/fluent/src/server/x_mcp_verify.js:96-109 | the same text, with zeros prefixed in a loop |
| CanonicalActor.Canonicalize | packages/mcp-server/src/auth/actor.ts:70-78 | the canonical string of a payload |
| CanonicalActor.CanonicalSpelled | packages/mcp-server/src/auth/actor.ts:70-78 | the nine members in order between braces, with commas, colons and quotes, the time stamp bare |
| CanonicalActor.EscapeSpelled | packages/mcp-server/src/auth/actor.ts:53-63 | which units are escaped and how: a backslash, or four lower-case hexadecimal digits |
| CanonicalActor.IntTextIsDecimal | packages/mcp-server/src/auth/actor.ts:70-78 | the time stamp is written in decimal digits without leading zeros |
| CanonicalActor.ExecutorCanonical | sn-executor-app/fluent/src/server/x_mcp_verify.js:113-124 | the canonical string of a received actor, absent fields empty |
| CanonicalActor.EncodersAgree | sn-executor-app/fluent/src/server/x_mcp_verify.js:96-124 | for fields that arrive as signed both sides build one string |
| CanonicalActor.HostAndExecutorAgree | sn-executor-app/fluent/src/server/x_mcp_verify.js:113-124 | the same with the two key lists as they are written down |
| CanonicalActor.CanonicalIsPrintable | packages/mcp-server/src/auth/actor.ts:47-63 | for any UTF-16 field values the string is printable ASCII |
| CanonicalActor.CanonicalInjective | packages/mcp-server/src/auth/actor.ts:36-78 | two lists of nine texts with one canonical string are equal, even if the time stamp is any text |
| CanonicalActor.PayloadInjective | packages/mcp-server/src/auth/actor.ts:70-78 | two payloads with one canonical string are equal |
| CanonicalActor.VerifiedActorIsTheSignedOne | sn-executor-app/fluent/src/server/x_mcp_verify.js:113-124 | an actor whose rebuilt string is a signed one carries the signed texts |
| CanonicalActor.EscapedReadBack | packages/mcp-server/src/auth/actor.ts:53-63 | a quoted text is read back from the left |
| Utf8.TruncateUtf8 | packages/mcp-server/src/sandbox/serialize.ts:26-30 | returns the host's cut, proved to be the decoded longest prefix |
| Utf8.TruncateEncodedUtf8 | packages/mcp-server/src/sandbox/serialize.ts:12-17 | backs off continuation bytes and decodes |
| Utf8.BackedOffIsBoundary | packages/mcp-server/src/sandbox/serialize.ts:12-17 | backing off from the cap lands right after the last code point that fits |
| Utf8.FittingIsLongest | packages/mcp-server/src/sandbox/serialize.ts:19-30 | a prefix of whole code points fits the cap if and only if it is no longer than the kept one |
| Utf8.HostTruncatedFits | packages/mcp-server/src/sandbox/serialize.ts:19-30 | the result is within the cap for every input, well formed or not |
| Utf8.Utf8Len | sn-executor-app/fluent/src/server/x_mcp_executor.js:10-22 | the sum of the executor's widths |
| Utf8.Utf8Slice | sn-executor-app/fluent/src/server/x_mcp_executor.js:28-41 | the prefix whose widths fit |
| Utf8.WidthSumIsByteLength | sn-executor-app/fluent/src/server/x_mcp_executor.js:10-22 | on well-formed text the widths add up to the UTF-8 length |
| Utf8.UnitsFittingIsBoundary | sn-executor-app/fluent/src/server/x_mcp_executor.js:24-41 | the executor's cut is the longest prefix of whole code points within the cap |
| Utf8.TruncationsAgree | sn-executor-app/fluent/src/server/x_mcp_executor.js:24-41 | on well-formed text the two cuts agree if and only if not a kept byte-order mark of an over-long text is dropped by the host's decoder |
| Utf8.TruncationsAgreeExactly | packages/mcp-server/src/sandbox/serialize.ts:12-30 | for every text, well formed or not, the exact condition under which the two cuts agree |
| Utf8.IllFormedTextDiffers | sn-executor-app/fluent/src/server/x_mcp_executor.js:10-41 | a lone surrogate on which the two cuts differ |
| ConsoleLogs.CappedIsLongestStart | packages/mcp-server/src/sandbox/serialize.ts:147-169 | what is retained is the longest start of the logs that both caps admit, and then the next entry cut to the longest text that fits the bytes left |
| ConsoleLogs.CapLogs | packages/mcp-server/src/sandbox/serialize.ts:147-169 | the retained entries and the flag that tells whether anything was cut |
| ConsoleLogs.CappedHoldsCaps | packages/mcp-server/src/sandbox/serialize.ts:137-169 | retained entries hold both caps, and everything is retained when the caps already hold |

## Left out

- CanonicalActor.EncodersAgree: fields that are neither strings nor the integer time stamp are not modelled.
- Ordinals within a run and the names of ledger objects: attempts of one ledger object are given.
- AllowlistChunks.ExactAllowlistChunks: names are ASCII, because no other name can be configured.
- PolicyConfig.ParseTableScopedConfig: entries are cut at their colons before the loop instead of in it, which changes no outcome since a failing loader has no other effect.
- ReplayPayload.VisibleIsOriginal: covers values that JSON.parse gives back from JSON.stringify; the placeholder for values that cannot be serialized is not modelled.
- Utf8.TruncateEncodedUtf8: how the decoder replaces bytes that are not UTF-8 is not modelled, because it only ever sees whole encoded sequences.
- Executor.Process: audit fields other than the status and the error class are not modelled.
- Executor requests are followed step by step from verification on; the audit row and the switches before it are in Executor.Process only.
- The choice of mode, approvals, capability map, OAuth and OIDC flows, tickets, token refresh and consent pages.
- The HTTP client, transpiler, sandbox and MCP registration, and redaction and sanitizing heuristics.
- Recovery snapshots and their encryption, and the request-hash functions, which enter as opaque texts.
- Schema caching, table hierarchy and row limits of the read operations.
- Named policies in JSON and the references between them, and the maximum mode, which the loader coerces.
- The two copies of the verifier script are the same class; one is modelled.
