# SentinelSwitch: a model of the pipeline's stateful algorithms

SentinelSwitch takes card transactions in through a gRPC gateway, scores them, and hands each client the
decisions on its own transactions. The services are joined by Kafka topics, Redis keys and one Postgres
table. This project models the stateful algorithms that sit between those client libraries, and proves what
they keep over whole lives of the services: crashes, redelivery, expiry, interleaving and failures included.

Every module has the same shape. A *specification* gives each step of the service as a function on explicit
abstract state. Theorems are lemmas about runs of those steps. Where the service works by changing state, a
*class* or a method with loops does the same work step by step, and its contract equates its new state and
its result with the specification, so the theorems apply to it.

| file | models |
|---|---|
| `Common.dfy` | the option type, the decision enum, and the five-byte frame in front of every Kafka value |
| `Backoff.dfy` | the exponential backoff that both retry loops follow |
| `UpsertStore.dfy` | the `transactions` table and its upsert |
| `PersistencePipeline.dfy` | the fetch, batch, flush, retry, dead-letter and commit loop over one partition |
| `CircuitBreaker.dfy` | the breaker's three expiring keys, one call at a time |
| `BreakerCommands.dfy` | the same breaker, one Redis command at a time, many replicas interleaved |
| `BreakerInterleaving.dfy` | what interleaving does to the open window and to the counters' lifetimes |
| `Velocity.dfy` | the per-card velocity metrics against sliding windows over the full history |
| `RateLimiter.dfy` | token buckets and their eviction after ten idle minutes |
| `AuthCache.dfy` | the read-through cache in front of the API-key registry |
| `Idempotency.dfy` | the SETNX guard, interleaved submissions, lost replies |
| `SubmissionFates.dfy` | which duplicates name a published transaction, which retries are admitted, which acceptances rest on a claim |
| `Gateway.dfy` | the interceptor, the handler's order of effects, and the bound on each verified caller |
| `ResultNotifier.dfy` | routing by owner, retry, dead-lettering and commits of the notifier |
| `RiskScorer.dfy` | the weighted-linear scorer |
| `DecisionPath.dfy` | risk reply or fallback, published event, stored row, reported status |
| `WorkerPool.dfy` | the fraud engine's loop and handlers, interleaved over two bounded channels |

## Conventions

- **Kafka.** A partition is a sequence whose offsets are its indices; a commit sets the committed offset to one
  past the message, whatever it was before; a restarted consumer begins at the committed offset. Nothing is
  assumed about which partition a card's messages reach, since every writer balances by least bytes.
- **Redis.** A key holds a value and, perhaps, a deadline in milliseconds, and is live strictly before it. A
  command may be executed and answered, executed without its answer arriving, or not executed at all.
- **Postgres.** The table is a map from `(txn_id, txn_timestamp)` to a row. A failed batch may have applied any
  prefix of its statements.
- **Numbers.** Scores, tokens and backoff delays are reals, so floating-point rounding is not modelled.
  `math.Log10` is any strictly increasing function that is 0 at 1. Integers are unbounded.
- **The surroundings.** Clocks, failures, replies, fresh transaction ids, protobuf decoding, key hashing and the
  validator's verdict are parameters, quantified over in the theorems.

## Properties that do not hold as documented

Each is stated as the code behaves, with the exact condition under which the documented property holds, or
with a concrete run on which it fails.

- `services/fraud-engine/internal/circuitbreaker/breaker.go:84-86` and `config/fraud-rules.yaml:44-45` speak of
  *consecutive* successes and failures. Failures do not clear the success counter, and successes that do not
  close do not clear the failure counter (`ConsecutiveExactly`, `NotConsecutive`, `FailuresConsecutiveExactly`,
  `FailuresNotConsecutive`).
- `proto/risk.proto:120` says that the velocity counts exclude the current transaction; the store includes it
  (`CountExcludesCurrentExactly`, `FirstCallCountsItself`).
- `config/risk-service.yaml:188-190` calls a feature contributing when its contribution exceeds the threshold;
  the code compares with the threshold times the weight (`DocumentedFactorRule`). Line 83 of that file gives a
  scale of 1000 from zero; the code maps to 100 to 1000. The two agree on a weighted sum of one, and with weights
  that sum to at most 0.99, as the shipped ones do, on no input at all (`ScaleCompared`, `NoInputOnDocumentedScale`,
  `ZeroInputScores100`).
- `proto/risk.proto:130-131` speaks of the distinct merchants and terminals of the last five minutes; the store counts
  those of the current five-minute bucket (`DistinctRecentExactly`, `BucketEndHidesMerchant`).
- `docs/PROJECT_OVERVIEW.md:359` gives velocity count keys a lifetime of the window plus 60 seconds; of the count keys
  only the one-minute key has it (`CountLifetimeExactly`).
- The persistence loop commits an undecodable message past a pending batch, which loses that batch to a crash
  (`WatermarkExactly`, `PoisonMidBatchLosesPending`); it commits after a failed dead-letter publish
  (`PersistencePipeline.LostExactly`, `FailedDeadLetterLosesMessage`); and with fewer than one attempt it commits
  without storing (`CommitSafetyExact`).
- The notifier does not stop at a failed dead-letter publish, so a later commit passes it
  (`ResultNotifier.LostExactly`, `SettledBelowExactly`, `LaterCommitPassesFailure`).
- `docs/PROJECT_OVERVIEW.md:310-311` promises no data loss when a fraud engine crashes. The engine commits in the
  order in which handlers finish, so with two workers a crash can lose a message for good (`CoveredExactly`,
  `CrashLosesOvertaken`); and it commits what its handlers gave up (`PublishedBelowExactly`).
- The error table of the API document calls an internal error safe to retry. A failed publish leaves its key claimed, so the
  retry is admitted exactly when no claim of the key is in force (`AdmittedExactly`,
  `FailedPublishBlocksRetry`). A duplicate names a transaction on the log exactly when the submission that made
  the claim has ended and did not fail unsent (`DuplicateNamesPublishedExactly`); while it is in flight the
  duplicate names nothing on the log (`DuplicateOfOneInFlight`).
- A submission can be admitted without a claim, so that one key is accepted twice within a TTL, in two ways: its key
  expires between the SETNX and the read-back, or, where store errors are allowed, its SETNX is lost or its GET, or
  the SETNX that met a claim, goes unanswered. Without either, acceptances of one key are a TTL apart
  (`AdmissionsClaimedExactly`, `AcceptancesClaimedExactly`, `AcceptancesApart`, `ExpiredReadBackAcceptsTwice`,
  `LostCheckAcceptsTwice`). Keys are shared by all clients (`KeysSharedByClients`).
- Under interleaving the breaker's open window can be cut short (`WindowKeptExactly`, `StaleProbeCloses`) and a
  counter can be left without a deadline (`FailuresLapseExactly`, `SuccessesLapseExactly`, `LostExpireNeverLapses`).
- Evicting idle buckets, and with it the rate bound, needs `burst <= rps * 600` (`EvictionUnobservableExactly`,
  `RateBoundExactly`, `CallerBoundExactly`).
- The scorer accepts negative weights, with which the clamp does act (`ClampIdleExactly`,
  `NegativeWeightNeedsClamp`).

## Documented constants

`proto/risk.proto:166` names thresholds of 400 and 700, and `docs/PROJECT_OVERVIEW.md:315-318` five failures and 15
seconds; the configuration defaults are 350 and 650, four failures and 12 seconds. The theorems hold for all
thresholds and durations.

## Model

| member | source | states |
|---|---|---|
| Backoff.ScheduleExact | services/persistence-svc/internal/pipeline/processor.go:187-210 | the waits are initial times a power of the multiplier, capped, for every retry exactly when the first delay is within the cap |
| Backoff.WaitsNeverShrink | services/persistence-svc/internal/pipeline/processor.go:187-210 | with a multiplier of at least one, no wait is shorter than the one before, exactly when the first delay is within the cap |
| Backoff.WaitBounds | services/persistence-svc/internal/pipeline/processor.go:200-206 | every wait lies between zero and the cap |
| Backoff.TotalWaitBounded | services/persistence-svc/internal/pipeline/processor.go:187-210 | the first n waits of the schedule add up to at most n caps |
| Backoff.ScheduledWaitBounded | services/persistence-svc/internal/pipeline/processor.go:187-210 | waits on the schedule, fewer than MaxAttempts of them, add up to at most MaxAttempts - 1 caps |
| UpsertStore.UpsertMeaning | services/persistence-svc/internal/store/postgres.go:15-28 | after any log: the first writer of a row fixes its identity columns, the last one its decision columns, untouched rows stay, and there are no other rows |
| UpsertStore.LastWriterColumns | services/persistence-svc/internal/store/postgres.go:15-139 | column by column, a row says what the last event for it says, with one text for each decision |
| UpsertStore.RedeliveryConverges | services/persistence-svc/internal/store/postgres.go:15-28 | any number of cut-short passes, each resumed at or before the point reached, end in the table of one pass |
| UpsertStore.RetryConverges | services/persistence-svc/internal/store/postgres.go:57-126 | failed attempts that applied any prefixes leave nothing behind once a later attempt succeeds |
| UpsertStore.GapLeavesStaleVerdict | services/persistence-svc/internal/store/postgres.go:21-28 | why the resumption point matters: resuming past the position just reached leaves a stale decision for good |
| UpsertStore.Store.UpsertBatch | services/persistence-svc/internal/store/postgres.go:57-126 | an empty batch succeeds untouched; otherwise the table is the fold of the statements that reached it, and the answer says whether all did |
| PersistencePipeline.RetrySchedule | services/persistence-svc/internal/pipeline/processor.go:187-210 | between one and MaxAttempts calls, fewer waits than attempts, each wait on the backoff schedule, and failure only after the last attempt or a cancelled wait |
| PersistencePipeline.RetryWaitBounded | services/persistence-svc/internal/pipeline/processor.go:187-210 | all the waiting of one retry is at most MaxAttempts - 1 caps |
| PersistencePipeline.AttemptsExactly | services/persistence-svc/internal/pipeline/processor.go:187-210 | the attempts that are made are exactly those before which every attempt failed and no wait was cancelled, and the retry fails exactly when none of them stores the batch |
| PersistencePipeline.RetryKeepsUp | services/persistence-svc/internal/pipeline/processor.go:143-156 | retrying a stretch of the log, through failures with partial effects, keeps every row recoverable, and success catches the table up to its end |
| PersistencePipeline.RetryStoresOnce | services/persistence-svc/internal/pipeline/processor.go:143-156 | a batch that is stored at last was in effect applied once |
| PersistencePipeline.Conservation | services/persistence-svc/internal/pipeline/processor.go:63-125 | at every loop head of every life: fetched messages are, in log order, settled or pending, with the undecodable ones apart; event i decodes message i; the batch is under its limit; each settled or undecodable message was committed once |
| PersistencePipeline.DueFlushSettles | services/persistence-svc/internal/pipeline/processor.go:73-124 | from every reachable state, a shutdown and a due tick leave nothing pending: each message that was pending, or is fetched in that turn, is stored or was sent to the dead-letter topic; only a shutdown ends the loop, and for good |
| PersistencePipeline.DueFlushCommits | services/persistence-svc/internal/pipeline/processor.go:73-184 | when its commit succeeds, such a flush leaves the committed offset past all that was pending |
| PersistencePipeline.FlushParksExactly | services/persistence-svc/internal/pipeline/processor.go:129-184 | a flush stores the whole batch exactly if some attempt succeeds; otherwise it appends to the dead-letter topic, in the order of the batch, exactly the messages whose publish succeeded |
| PersistencePipeline.TurnAppends | services/persistence-svc/internal/pipeline/processor.go:82-124 | a turn only appends to the places that a message can end up in, and moves the committed offset only by a commit that succeeds |
| PersistencePipeline.Recovers | services/persistence-svc/internal/pipeline/processor.go:63-184 | whatever has happened, a new process in which nothing fails takes over at the committed offset, drains the log, stores everything from there on that can be decoded, dead-letters the rest, and commits all of it |
| PersistencePipeline.CommitSafetyExact | services/persistence-svc/internal/pipeline/processor.go:129-184 | whatever is passed to CommitMessages was stored or had its dead-letter publish attempted, on every run, exactly when MaxAttempts is at least one or nothing decodes |
| PersistencePipeline.NoAttemptsUnsafeRun | services/persistence-svc/internal/pipeline/processor.go:187-192 | without an attempt the loop reports success and any decodable message can be committed unstored |
| PersistencePipeline.WatermarkSafety | services/persistence-svc/internal/pipeline/processor.go:63-184 | unless an undecodable message met a pending batch, everything below the committed offset is stored or dead-lettered, or its dead-letter publish failed |
| PersistencePipeline.WatermarkExactly | services/persistence-svc/internal/pipeline/processor.go:95-116 | with working dead-letter publishes that holds on every run exactly when batches have one message or no undecodable message follows a decodable one |
| PersistencePipeline.PoisonMidBatchLosesPending | services/persistence-svc/internal/pipeline/processor.go:95-108 | the commit of an undecodable message passes any pending one right before it, which a crash then loses although no publish failed |
| PersistencePipeline.LostExactly | services/persistence-svc/internal/pipeline/processor.go:63-184 | on every run, a message is below the committed offset and neither stored, dead-lettered nor pending exactly when some step lost it and no later commit fell back to or below it: a crash while it was pending behind a commit, or a commit past it (or a flush of it behind one) after all its publishes had failed |
| PersistencePipeline.LossIsFinal | services/persistence-svc/internal/pipeline/processor.go:158-179 | unless an undecodable message met a pending batch, one such step is enough: the committed offset never falls back |
| PersistencePipeline.FailedDeadLetterLosesMessage | services/persistence-svc/internal/pipeline/processor.go:98-108 | any message, decodable or not, can be lost to a failed dead-letter publish that is committed all the same |
| PersistencePipeline.CoveredOfEmptyLogOnly | services/persistence-svc/internal/pipeline/processor.go:158-179 | with failed publishes allowed, everything below the committed offset is stored or dead-lettered on every run only of an empty log |
| PersistencePipeline.ExactlyOnceContents | services/persistence-svc/internal/pipeline/processor.go:63-184 | through crashes, retries and lost commits, a drained log leaves the table of one pass, unless a batch was dead-lettered or an undecodable message met a pending batch |
| PersistencePipeline.Processor.WithRetry | services/persistence-svc/internal/pipeline/processor.go:187-210 | the loop makes the calls and waits, and leaves the table, of the specified retry |
| PersistencePipeline.Processor.DeadLetterBatch | services/persistence-svc/internal/pipeline/processor.go:158-174 | each message of the batch is published to the dead-letter topic or counted as undelivered, in order |
| PersistencePipeline.Processor.ProcessBatch | services/persistence-svc/internal/pipeline/processor.go:129-184 | retry, dead-letter on failure, commit: the whole new state of the consumer |
| PersistencePipeline.Processor.FlushBatch | services/persistence-svc/internal/pipeline/processor.go:73-80 | an empty batch is left alone; otherwise it is processed and truncated |
| PersistencePipeline.Processor.Receive | services/persistence-svc/internal/pipeline/processor.go:94-116 | a fetched message joins the batch or goes to the dead-letter topic and is committed; a full batch is flushed |
| PersistencePipeline.Processor.TakeTurn | services/persistence-svc/internal/pipeline/processor.go:82-124 | one turn: a cancellation flushes and ends, a message is received and may fill the batch, a tick flushes; what that leaves is said by DueFlushSettles and DueFlushCommits |
| PersistencePipeline.Processor.RunLoop | services/persistence-svc/internal/pipeline/processor.go:63-125 | the loop does what the state machine does on the same turns |
| CircuitBreaker.KeysRefineHistory | services/fraud-engine/internal/circuitbreaker/breaker.go:87-183 | at every moment the two counters and the state key say what the history of recorded failures and successes says |
| CircuitBreaker.OpensExactly | services/fraud-engine/internal/circuitbreaker/breaker.go:114-133 | a failure opens the circuit exactly when it ends a chain of FailureThreshold failures since the last close whose gaps are under the failures TTL |
| CircuitBreaker.ClosesExactly | services/fraud-engine/internal/circuitbreaker/breaker.go:87-110 | a success closes it exactly when it ends the analogous half-open chain, and then both counters are gone; failures in between do not matter |
| CircuitBreaker.ConsecutiveExactly | services/fraud-engine/internal/circuitbreaker/breaker.go:84-110 | the stored success counter is never less than the documented consecutive one, and equal to it exactly when no failure fell inside the running chain |
| CircuitBreaker.FailuresConsecutiveExactly | services/fraud-engine/internal/circuitbreaker/breaker.go:114-133 | the stored failure counter is never less than the documented consecutive one, and equal to it exactly when no success that did not close fell inside the running chain |
| CircuitBreaker.NotConsecutive | services/fraud-engine/internal/circuitbreaker/breaker.go:84-110 | success, failure, success closes a circuit that asks for two |
| CircuitBreaker.FailuresNotConsecutive | services/fraud-engine/internal/circuitbreaker/breaker.go:92-94 | failure, success, failure opens a closed circuit that asks for two |
| CircuitBreaker.BlockedExactly | services/fraud-engine/internal/circuitbreaker/breaker.go:45-57 | calls are blocked exactly for the full open duration after a failure that reached the threshold |
| CircuitBreaker.ReportedOpenTime | services/fraud-engine/internal/circuitbreaker/breaker.go:63-74 | while blocked, the reported open time is within half a second of the time since the circuit last opened |
| CircuitBreaker.ReportedOnlyWhileOpen | services/fraud-engine/internal/circuitbreaker/breaker.go:63-74 | no open time is reported unless the circuit is open, and none below zero |
| CircuitBreaker.CounterOutlastsOpenExactly | services/fraud-engine/internal/circuitbreaker/breaker.go:114-133 | the failure counter stays at or above the threshold through every open window exactly when its TTL is at least the open duration |
| CircuitBreaker.ProbeReopens | services/fraud-engine/internal/circuitbreaker/breaker.go:114-133 | one failed probe before the counter lapses reopens the circuit at once |
| CircuitBreaker.Breaker.Allow | services/fraud-engine/internal/circuitbreaker/breaker.go:45-74 | blocks only an open circuit, reports the open time, and allows when Redis does not answer |
| CircuitBreaker.Breaker.RecordSuccess | services/fraud-engine/internal/circuitbreaker/breaker.go:87-110 | the three keys after a success, in every state |
| CircuitBreaker.Breaker.RecordFailure | services/fraud-engine/internal/circuitbreaker/breaker.go:114-133 | the three keys after a failure |
| CircuitBreaker.Breaker.SetState | services/fraud-engine/internal/circuitbreaker/breaker.go:165-172 | a state without expiry, with the failure counter zeroed |
| CircuitBreaker.Breaker.SetStateWithTTL | services/fraud-engine/internal/circuitbreaker/breaker.go:174-183 | a state with a deadline; the failure counter is zeroed only for CLOSED |
| BreakerCommands.StateKeyAlwaysBounded | services/fraud-engine/internal/circuitbreaker/breaker.go:142-183 | under any interleaving of commands and losses the state key is absent, CLOSED without expiry, or OPEN for at most one open duration more |
| BreakerCommands.NeverStuckOpen | services/fraud-engine/internal/circuitbreaker/breaker.go:142-183 | once an open duration passes without a write of the state key, calls are allowed |
| BreakerCommands.AtomicFailure | services/fraud-engine/internal/circuitbreaker/breaker.go:114-133 | undisturbed commands of one failure compose to the atomic call |
| BreakerCommands.AtomicSuccess | services/fraud-engine/internal/circuitbreaker/breaker.go:87-110 | undisturbed commands of one half-open success compose to the atomic call |
| BreakerCommands.LostDeleteCountsFromZero | services/fraud-engine/internal/circuitbreaker/breaker.go:104-183 | when the DEL of a close is lost, failures are counted from zero all the same, and the counter lapses in its TTL |
| BreakerInterleaving.WindowKeptExactly | services/fraud-engine/internal/circuitbreaker/breaker.go:87-110 | from any reachable open circuit: it stays open until its deadline on every continuation exactly when the replicas already past the state check can no longer reach the success threshold |
| BreakerInterleaving.ClosersCheckedBefore | services/fraud-engine/internal/circuitbreaker/breaker.go:87-110 | a close inside an open window is by a replica whose state check came before the SET that opened it |
| BreakerInterleaving.StaleProbeCloses | services/fraud-engine/internal/circuitbreaker/breaker.go:87-110 | such a replica does close an open circuit |
| BreakerInterleaving.FailuresLapseExactly | services/fraud-engine/internal/circuitbreaker/breaker.go:114-123 | under every interleaving the failure counter has a deadline within its TTL, or an EXPIRE to come, at every moment exactly when no step strands it: an unanswered INCR that creates it, or a lost EXPIRE while it has no deadline, with no other replica about to EXPIRE it |
| BreakerInterleaving.SuccessesLapseExactly | services/fraud-engine/internal/circuitbreaker/breaker.go:96-102 | the same of the success counter |
| BreakerInterleaving.LostExpireNeverLapses | services/fraud-engine/internal/circuitbreaker/breaker.go:114-133 | for every threshold from two on, failures whose EXPIREs are lost are counted for ever: one more, any time later, opens the circuit |
| Velocity.MetricsRefineHistory | services/fraud-engine/internal/velocity/store.go:43-167 | every count, sum and distinct count that a call reports is the one that its window over the full history defines, the call included |
| Velocity.CallAddsItself | services/fraud-engine/internal/velocity/store.go:59-70 | the transactions live after a call are those live before it and its own |
| Velocity.CountExcludesCurrentExactly | services/fraud-engine/internal/velocity/store.go:109-123 | a reported count is the documented count of prior transactions exactly when the call repeats one that is live already; otherwise it is one more |
| Velocity.FirstCallCountsItself | services/fraud-engine/internal/velocity/store.go:109-123 | the first transaction of a card reports a count of one where none came before |
| Velocity.CountsTrack | services/fraud-engine/internal/velocity/store.go:59-70 | each count set is exactly the live window as of the card's last call, with each transaction's latest time |
| Velocity.CountLifetimeExactly | services/fraud-engine/internal/velocity/store.go:59-70 | a count key is kept for its window and a minute more after the card's last call exactly if it is the one-minute key |
| Velocity.KeyLifetimes | services/fraud-engine/internal/velocity/store.go:55-91 | count keys expire two, ten and 120 minutes after the card's last call, amount keys two and 120 |
| Velocity.AmountsTrack | services/fraud-engine/internal/velocity/store.go:78-91 | the hash, never pruned, has the last amount of every live transaction |
| Velocity.LogsTrack | services/fraud-engine/internal/velocity/store.go:94-100 | each bucket has exactly the merchants and terminals seen in it, and expires between five and ten minutes after its end |
| Velocity.DistinctRecentExactly | services/fraud-engine/internal/velocity/store.go:159-164 | the reported distinct counts are never more than those of the last five minutes, and equal to them exactly when all that was seen in the last five minutes was seen in the current bucket |
| Velocity.BucketEndHidesMerchant | services/fraud-engine/internal/velocity/store.go:159-164 | two merchants a millisecond apart, on either side of the end of a bucket: one is reported |
| Velocity.WiderWindowsReportMore | services/fraud-engine/internal/velocity/store.go:109-157 | counts grow with the window, and so do sums of non-negative amounts, although each window has its own keys |
| Velocity.SupersededRecordLeavesNoTrace | services/fraud-engine/internal/velocity/store.go:59-91 | recording a transaction again gives the counts and sums that would be reported if the earlier record had never been made |
| Velocity.SupersededDistinctExactly | services/fraud-engine/internal/velocity/store.go:94-100 | the distinct counts are as if the earlier record had never been made exactly when it lies in another bucket or its merchant (or terminal) was also seen by another call of this one |
| Velocity.Store.Record | services/fraud-engine/internal/velocity/store.go:43-167 | the loops write the specified keys and report what the keys then say |
| Velocity.Store.SumAmounts | services/fraud-engine/internal/velocity/store.go:137-156 | adding up the present values one by one gives the sum over the members |
| RateLimiter.EvictionUnobservableExactly | services/api-gateway/internal/ratelimit/limiter.go:86-112 | with and without eviction every sequence of calls gets the same answers, exactly when ten minutes earn a whole burst |
| RateLimiter.RateBoundExactly | services/api-gateway/internal/ratelimit/limiter.go:58-112 | in any stretch a key is granted at most a burst plus what the stretch earns, across evictions, under exactly the same condition |
| RateLimiter.GrantsArePaid | services/api-gateway/internal/ratelimit/limiter.go:58-61 | tokens are conserved: grants plus what is left never exceed what was there plus what was earned |
| RateLimiter.Limiter.LimiterFor | services/api-gateway/internal/ratelimit/limiter.go:86-97 | finds or creates the key's full bucket, and stamps its entry |
| RateLimiter.Limiter.Allow | services/api-gateway/internal/ratelimit/limiter.go:58-61 | answers and entries are those of the specified bucket |
| RateLimiter.Limiter.CleanUp | services/api-gateway/internal/ratelimit/limiter.go:99-112 | exactly the entries not seen for over ten minutes go |
| AuthCache.EncodingExact | services/api-gateway/internal/auth/cache.go:58-67 | a cached value reads back as the registry's answer exactly when an active id has no separator; otherwise it reads as not found, and no row is mistaken for the negative marker |
| AuthCache.BoundedStaleness | services/api-gateway/internal/auth/cache.go:55-87 | over every interleaving an answered client was active in the registry within the TTL plus the write-back delay, and "not found" had a witness in that time |
| AuthCache.StalenessAttained | services/api-gateway/internal/auth/cache.go:55-87 | the bound is attained: for every TTL and delay, a client removed right after it was read is still answered for, a millisecond short of both together later |
| AuthCache.DownCacheStaysEmpty | services/api-gateway/internal/auth/cache.go:55-103 | only a write-back that the cache answers puts anything into it |
| AuthCache.CachedAnswerExact | services/api-gateway/internal/auth/cache.go:55-87 | a lookup answered from the cache repeats the first answer, exactly for ids without a separator |
| AuthCache.LookupIsARun | services/api-gateway/internal/auth/cache.go:55-87 | an undisturbed lookup is a run of the interleaved protocol; a registry failure on a miss gives no id |
| AuthCache.Cache.Lookup | services/api-gateway/internal/auth/cache.go:55-87 | the method does what the undisturbed lookup does |
| AuthCache.Cache.TrySet | services/api-gateway/internal/auth/cache.go:92-94 | a best-effort write of the encoded row with the TTL |
| Idempotency.ClaimsApart | services/api-gateway/internal/idempotency/redis.go:68-78 | over every interleaving two SETNXs that created one key did so at least a TTL apart |
| Idempotency.AcceptedApart | services/api-gateway/internal/idempotency/redis.go:68-78 | two submissions of one key accepted through SETNX rest on claims a TTL apart |
| Idempotency.DuplicatesNameClaims | services/api-gateway/internal/idempotency/redis.go:80-98 | every duplicate answer names the transaction of a claim on that key that was in force |
| SubmissionFates.ClaimPublishedExactly | services/api-gateway/internal/gateway/handler.go:113-172 | a claimed submission is on the log exactly when it is no longer in flight and did not fail unsent |
| SubmissionFates.DuplicateNamesPublishedExactly | services/api-gateway/internal/gateway/handler.go:119-132 | a duplicate names a transaction that is on the log exactly when the submission behind the claim is no longer in flight and did not fail unsent |
| SubmissionFates.DuplicateOfOneInFlight | services/api-gateway/internal/gateway/handler.go:113-152 | without any failure a duplicate can name a transaction that is not on the log yet |
| SubmissionFates.AdmittedExactly | services/api-gateway/internal/idempotency/redis.go:68-98 | at any moment of any run a submission, a retry say, is admitted exactly when no claim of its key is in force; otherwise it is told of that claim, whichever client made it |
| SubmissionFates.KeysSharedByClients | services/api-gateway/internal/idempotency/redis.go:69 | keys are not scoped by client: one client is answered with the transaction of another |
| Idempotency.AcceptedWerePublished | services/api-gateway/internal/gateway/handler.go:113-172 | every acceptance was published under its verified client, and rests on its own claim or, unless store errors are waved through, on an earlier claim of the key that had run out |
| Idempotency.ExpiredReadBackAcceptsTwice | services/api-gateway/internal/idempotency/redis.go:86-91 | a key that expires before the read-back admits two submissions at one moment |
| SubmissionFates.UnclaimedExactly | services/api-gateway/internal/idempotency/redis.go:86-91 | a submission that lost the SETNX is admitted without a claim exactly when it reads the key after every claim of it has run out |
| SubmissionFates.AdmissionsClaimedExactly | services/api-gateway/internal/idempotency/redis.go:68-98 | on every run, whatever is lost or unanswered, every submission that is ever admitted has made a claim exactly when no read-back came that late and no store error was waved through, that is, under the allow policy, no GET went unanswered and no SETNX that did not create the key |
| SubmissionFates.AcceptancesClaimedExactly | services/api-gateway/internal/idempotency/redis.go:68-98 | once every submission has ended and the log answered every publish, each acceptance rests on a claim of its own exactly when no read-back came that late and no store error was waved through |
| SubmissionFates.AcceptancesApart | services/api-gateway/internal/idempotency/redis.go:68-98 | on every run without a late read-back and without a store error waved through, two acceptances of one key rest on claims a TTL apart |
| SubmissionFates.LostCheckAcceptsTwice | services/api-gateway/internal/idempotency/redis.go:72-78 | under the allow policy one lost SETNX accepts a key twice at one moment |
| Idempotency.FailedPublishBlocksRetry | services/api-gateway/internal/gateway/handler.go:113-159 | after a failed publish the retry is told of a transaction that was never published |
| Idempotency.CheckedTwice | services/api-gateway/internal/idempotency/redis.go:68-98 | a claim answers later checks of its key with its transaction until it expires, and none after that |
| Idempotency.Store.CheckAndSet | services/api-gateway/internal/idempotency/redis.go:68-98 | the method does what the undisturbed check does, for every loss of a reply and both policies on errors |
| Gateway.ForwardedWasActive | services/api-gateway/internal/auth/interceptor.go:41-75 | over interleaved lookups, expiry and registry changes: a call that needs a key goes on only under a client that was active in the registry under that key within the TTL plus the write-back delay; the refusals have their witness too |
| Gateway.ExemptExactly | services/api-gateway/internal/auth/interceptor.go:15-44 | the services that need no key are the health check and the admin service, by their whole names and not by a prefix of them |
| Gateway.KeyNeededExactly | services/api-gateway/internal/auth/interceptor.go:41-54 | calls of the exempt services go on unchanged; to any other service a call without metadata, without the header, or with an empty key is unauthenticated, and else the key presented is the first value |
| Gateway.UnverifiedTurnedAway | services/api-gateway/internal/gateway/handler.go:85-88 | without a verified caller nothing is billed, checked or published, and the answer is the interceptor's, or an internal error for an empty id |
| Gateway.InvalidTurnedAway | services/api-gateway/internal/gateway/handler.go:97-107 | a verified caller is billed first; it is refused for want of a token, next for an invalid submission, and then without a trace in the keys or on the log; only otherwise does the guard run |
| Gateway.IdentityNotForgeable | services/api-gateway/internal/auth/interceptor.go:65-74 | whatever the caller puts into the identity header, handler and limiter see the same call, keyed on the verified id |
| Gateway.AnswersAccount | services/api-gateway/internal/gateway/handler.go:77-173 | an acceptance publishes exactly one event under the verified client; refusals before the guard touch neither keys nor log; only the caller's own bucket is charged |
| Gateway.SubmissionIsARun | services/api-gateway/internal/gateway/handler.go:113-172 | the guard and the publish inside the handler are a run of the interleaved protocol, with the same keys, events and answer |
| Gateway.EventsAreSubmitted | services/api-gateway/internal/gateway/handler.go:135-159 | on every run each published event was validly submitted by the verified client that it names |
| Gateway.EventsOfActiveClients | services/api-gateway/internal/gateway/handler.go:82-159 | each published event was validly submitted under a key that, within the staleness bound of its lookup, belonged to the active client that it names |
| Gateway.CallerBoundExactly | services/api-gateway/internal/ratelimit/limiter.go:58-97 | in any stretch one verified client gets at most a burst plus what the stretch earns past the limiter, whatever headers are sent, exactly when ten minutes earn a burst |
| Gateway.AnonymousBucketsExactly | services/api-gateway/internal/ratelimit/limiter.go:58-97 | callers without an identity header share a bucket exactly when they share the peer address, where having none counts as the address "unknown" |
| Gateway.Interceptor.Authenticate | services/api-gateway/internal/auth/interceptor.go:56-72 | looks the key up through the cache; only a verified client goes on, under its own id |
| Gateway.Interceptor.UnaryServer | services/api-gateway/internal/auth/interceptor.go:34-76 | the exempt services, the missing metadata and the missing key, and otherwise the lookup: gate and cache |
| Gateway.Handler.SubmitTransaction | services/api-gateway/internal/gateway/handler.go:77-173 | identity, limit, validation, guard and publish in that order: the whole new state and the answer |
| ResultNotifier.TopicsDistinct | services/result-notifier/internal/router/router.go:30-35 | no two clients share a topic |
| ResultNotifier.ResolvesExactly | services/result-notifier/internal/router/router.go:11-35 | a topic is the prefix and the id, exactly for ids of one to two hundred letters, digits, dots, underscores and hyphens |
| Wire.DecodeExactly | services/fraud-engine/internal/pipeline/processor.go:316-358 | what was framed is unmarshalled whatever its schema id, and nothing but a frame is |
| ResultNotifier.RetrySchedule | services/result-notifier/internal/pipeline/processor.go:152-181 | at most MaxAttempts publishes, with the waits of the same backoff schedule |
| ResultNotifier.RetryWaitBounded | services/result-notifier/internal/pipeline/processor.go:152-181 | all the waiting of one retry is at most MaxAttempts - 1 caps |
| ResultNotifier.RouteOrPark | services/result-notifier/internal/pipeline/processor.go:84-148 | whatever is committed was written byte for byte to its owner's topic or to the dead-letter topic |
| ResultNotifier.TenantIsolation | services/result-notifier/internal/pipeline/processor.go:120-148 | a client's topic never holds another client's result |
| ResultNotifier.WatermarkSafety | services/result-notifier/internal/pipeline/processor.go:84-116 | everything below the committed offset is routed or parked, or its dead-letter publish failed |
| ResultNotifier.LaterCommitPassesFailure | services/result-notifier/internal/pipeline/processor.go:100-106 | any message whose record differs from the next one, decodable or not, can be lost: its dead-letter publish fails and the next commit passes it |
| ResultNotifier.SettledBelowExactly | services/result-notifier/internal/pipeline/processor.go:84-116 | with any failures allowed, everything below the committed offset is routed or parked on every run exactly when all messages of the partition are the same record |
| ResultNotifier.LostExactly | services/result-notifier/internal/pipeline/processor.go:84-181 | on every run, a message is below the committed offset and in no topic exactly when nothing held its record at the start, no publish of that record, by the retries or to the dead-letter topic, was ever written, and a later message was handled well and committed |
| ResultNotifier.FailedExactly | services/result-notifier/internal/pipeline/processor.go:84-116 | a message counts as failed exactly if some turn that handled it had neither a publish of it acknowledged |
| ResultNotifier.Recovers | services/result-notifier/internal/pipeline/processor.go:84-116 | whatever has happened, a new process in which nothing fails takes over at the committed offset, routes or parks everything from there on, and commits all of it |
| ResultNotifier.Processor.PublishWithRetry | services/result-notifier/internal/pipeline/processor.go:152-181 | the loop makes the publishes and waits of the specified retry |
| ResultNotifier.Processor.ToDlq | services/result-notifier/internal/pipeline/processor.go:187-193 | one dead-letter publish of the message as it came |
| ResultNotifier.Processor.HandleMessage | services/result-notifier/internal/pipeline/processor.go:120-148 | route by owner, or park what cannot be decoded, resolved or delivered |
| ResultNotifier.Processor.Consume | services/result-notifier/internal/pipeline/processor.go:96-114 | one turn: the message is handled, and committed unless handling failed |
| ResultNotifier.Processor.RunLoop | services/result-notifier/internal/pipeline/processor.go:84-116 | the loop does what the state machine does on the same fetches |
| RiskScorer.ScoreNeedsNoClamp | services/risk-service/internal/scoring/scorer.go:80-87 | with accepted weights that are not negative the rounded score is in [100, 1000] before clamping, in spite of the tolerance |
| RiskScorer.ClampIdleExactly | services/risk-service/internal/scoring/scorer.go:80-87 | for features that vary independently no input needs the clamp exactly when the negative weights, and the excess of the positive ones over one, stay within half a point |
| RiskScorer.NoClampWithin | services/risk-service/internal/scoring/scorer.go:80-87 | within that half point no configuration needs it |
| RiskScorer.NegativeWeightNeedsClamp | services/risk-service/internal/scoring/scorer.go:45-87 | two accepted configurations with a negative weight whose rounded scores are 1900 and -800 |
| RiskScorer.ScoreMonotone | services/risk-service/internal/scoring/scorer.go:63-97 | raising any features never lowers the score or moves the decision towards approval |
| RiskScorer.ScaleCompared | services/risk-service/internal/scoring/scorer.go:80-81 | the score is never below the documented 1000 times the weighted sum where that sum is at most one, above it up to 0.99, equal at one, and never above it beyond |
| RiskScorer.NoInputOnDocumentedScale | services/risk-service/internal/scoring/scorer.go:80-81 | with non-negative weights that sum to at most 0.99 no input has its documented score |
| RiskScorer.ZeroInputScores100 | services/risk-service/internal/scoring/scorer.go:80-81 | an input with every value zero scores 100 where the documented score is zero |
| RiskScorer.NormaliseMonotone | services/risk-service/internal/scoring/scorer.go:147-176 | every normalisation, for every cap, is monotone in the raw value |
| RiskScorer.NormaliseMeaning | services/risk-service/internal/scoring/scorer.go:147-176 | each normalisation is the share of its cap, or of the cap's logarithm, that the value reaches; or whether it is positive; or the value itself; with what degenerate caps give |
| RiskScorer.RoundNearest | services/risk-service/internal/scoring/scorer.go:80-87 | scores are rounded to the nearest integer, halves away from zero |
| RiskScorer.OrderIrrelevant | services/risk-service/internal/scoring/scorer.go:45-112 | permuting the features changes neither acceptance, score nor decision, and no factor is gained or lost |
| RiskScorer.FactorTest | services/risk-service/internal/scoring/scorer.go:99-105 | the code's comparison of a contribution with the weighted threshold compares the normalised value with the threshold, on the side that the sign of the weight decides |
| RiskScorer.FactorsExactly | services/risk-service/internal/scoring/scorer.go:99-105 | the factors are the names of exactly the configured features whose contribution is above the threshold times the weight, each as often as it is configured and in that order |
| RiskScorer.DocumentedFactorRule | config/risk-service.yaml:188-190 | on a weight in [0, 1] the documented rule and the code agree on every normalised value exactly for weight zero or one, threshold zero or a threshold of at least one |
| RiskScorer.New | services/risk-service/internal/scoring/scorer.go:45-60 | accepts exactly the non-empty configurations whose weights sum to at most one plus the tolerance |
| RiskScorer.Accumulate | services/risk-service/internal/scoring/scorer.go:69-78 | one pass gives each feature's contribution and their sum |
| RiskScorer.ContributingFactors | services/risk-service/internal/scoring/scorer.go:99-105 | the loop lists the specified factors, which FactorsExactly characterises |
| RiskScorer.Score | services/risk-service/internal/scoring/scorer.go:63-112 | score, decision and factors are the specified ones |
| DecisionPath.CalculateRisk | services/risk-service/internal/server/handler.go:46-83 | answers exactly the requests that have a transaction id and features, always with a score in [100, 1000] and one of the three decisions |
| DecisionPath.JudgeAlikeExactly | services/fraud-engine/internal/pipeline/processor.go:306-315 | engine and risk service judge every score alike exactly when their two cut-offs coincide |
| DecisionPath.NoneUnspecified | services/fraud-engine/internal/pipeline/processor.go:178-183 | no published decision is unspecified, whatever the service replies and whatever the thresholds |
| DecisionPath.EventsObeyRule | services/fraud-engine/internal/pipeline/processor.go:178-212 | with shared thresholds, whatever breaker and service do, every published decision is what the thresholds say of its score |
| DecisionPath.EngineRefinesHistory | services/fraud-engine/internal/pipeline/processor.go:261-302 | the engine's breaker is the replay of one success for each reply and one failure for each missing one, of the calls that were made and told, so that OpensExactly, ClosesExactly and the other theorems on histories hold of every run of the engine |
| DecisionPath.EventsReportJobs | services/fraud-engine/internal/pipeline/processor.go:177-225 | the log holds one event for each transaction whose result could be written, in order, with its own columns: the score and decision of the reply, or the fallback exactly when the circuit was open or no reply came |
| DecisionPath.FallbackReviewedExactly | services/fraud-engine/internal/pipeline/processor.go:261-302 | on every run the fallbacks are published for review with the fallback score, exactly when that score lies between the thresholds |
| DecisionPath.Lookup | services/api-gateway/internal/txnstatus/store.go:46-68 | finds a row exactly when the client owns one for the transaction, and then the one with the latest timestamp |
| DecisionPath.OnlyOwnRowsMatter | services/api-gateway/internal/txnstatus/store.go:43-68 | a client's answer depends on nothing but the rows that it owns |
| DecisionPath.StatusShowsLog | services/api-gateway/internal/gateway/handler.go:175-228 | the status is that of the last event written to the newest of the client's rows, and pending exactly when there is none |
| DecisionPath.StatusOfDecision | services/api-gateway/internal/gateway/handler.go:206-226 | every decision is read back from its row under its own status, and only a missing decision as an error |
| DecisionPath.PendingExactly | services/api-gateway/internal/gateway/handler.go:190-204 | a transaction is pending for a client exactly when no engine result for that client stands |
| DecisionPath.StatusObeysRule | services/api-gateway/internal/gateway/handler.go:206-223 | end to end: every status is pending, or is approved, declined or in review as the shared thresholds say of the score beside it |
| DecisionPath.FraudEngine.CallRiskService | services/fraud-engine/internal/pipeline/processor.go:261-302 | the reply, or the fallback without a decision when the circuit is open or the call fails, and what the breaker is told, which EngineRefinesHistory ties to the history of replies |
| DecisionPath.FraudEngine.Handle | services/fraud-engine/internal/pipeline/processor.go:177-225 | the breaker's keys and the published event of one transaction, as EventsReportJobs characterises it |
| DecisionPath.GetTransactionStatus | services/api-gateway/internal/gateway/handler.go:175-228 | the error cases in order, and the response filled in field by field |
| WorkerPool.RunKeeps | services/fraud-engine/internal/pipeline/processor.go:114-149 | in every interleaving and over any crashes: each channel holds one token for each handler in its section, never more than its size; every message that the process fetched is in exactly one place; and none is handed to CommitMessages before its handler has come to an end |
| WorkerPool.DeadlockFreeExactly | services/fraud-engine/internal/pipeline/processor.go:114-149 | no reachable state with work left is stuck, exactly when both channels have room for a token |
| WorkerPool.ShutdownDrains | services/fraud-engine/internal/pipeline/processor.go:138-149 | after a shutdown every schedule is finite and ends with the loop stopped and every message that the process fetched published or given up with an error, and handed to CommitMessages exactly once; whether those commits succeed is left open |
| WorkerPool.CancelEnds | services/fraud-engine/internal/pipeline/processor.go:114-149 | a shutdown that comes while the loop fetches always runs to the end: a schedule that can go no further has stopped the loop with every fetched message handled |
| WorkerPool.StoppedHasWaited | services/fraud-engine/internal/pipeline/processor.go:146-149 | on every run, a loop that has stopped has waited for all of its handlers |
| WorkerPool.OutcomesExactly | services/fraud-engine/internal/pipeline/processor.go:128-142 | over any crashes: a result is on the log exactly if some handler of its message wrote it, after a risk call for it; and it is given up exactly if a handler failed to decode or to write |
| WorkerPool.CommittedExactly | services/fraud-engine/internal/pipeline/processor.go:138-141 | the committed offset is that of the last commit that succeeded; failed commits and crashes leave it alone |
| WorkerPool.CommitsInOrderExactly | services/fraud-engine/internal/pipeline/processor.go:128-142 | messages are handed to CommitMessages in the order of the log on every run exactly when there is at most one worker |
| WorkerPool.CoveredExactly | services/fraud-engine/internal/pipeline/processor.go:114-149 | over crashes and restarts, everything below the committed offset was published or given up with an error on every run exactly when there is at most one worker |
| WorkerPool.CrashLosesOvertaken | services/fraud-engine/internal/pipeline/processor.go:128-142 | with two workers a crash can lose a message for good: no continuation publishes it |
| WorkerPool.PublishedBelowExactly | services/fraud-engine/internal/pipeline/processor.go:132-141 | a failed handler is committed all the same, so everything below the committed offset is published on every run only without workers |
| WorkerPool.SecondOvertakesFirst | services/fraud-engine/internal/pipeline/processor.go:128-142 | with two workers a later message is committed while an earlier one has hardly been started |

## Left out

- Velocity.MetricsRefineHistory: assumes calls for a card one at a time under a clock that never steps back, and idealises HyperLogLog as an exact set, because the store promises nothing else.
- Velocity.Store.Record: does not model the truncation of counts and sums to 32 and 64 bits, nor a pipeline of which only some commands were executed, nor a failed read, which leaves a zero in the report.
- RiskScorer.Score: does not model the conversion of an out-of-range float to int32, which negative weights can reach and whose result Go leaves open.
- RateLimiter.Limiter.Allow: does not model the integer nanoseconds inside the token-bucket library.
- PersistencePipeline.WatermarkExactly: is about runs in which dead-letter publishes succeed and at least one attempt is configured; `LostExactly` says what failed publishes lose, and without an attempt nothing is stored.
- PersistencePipeline.ExactlyOnceContents: is conditional on what happened in the run, because a batch lost to a crash can be hidden again by a later event of the same row.
- UpsertStore.Store.UpsertBatch: takes timestamps as parsed instants; the zero-time and current-time fallbacks for unparseable ones are not modelled.
- AuthCache.BoundedStaleness: bounds staleness by the longest time between a registry read and its write-back, which nothing in the code limits.
- Gateway.CallerBoundExactly: orders calls by the moment at which they reach the limiter, which its lock makes atomic.
- WorkerPool.RunKeeps: takes a failed fetch that is not a cancellation as no step at all, and the release of a slot with the end of its handler as one step.
- WorkerPool.ShutdownDrains: promises no successful commit after a shutdown, because the commits are made under the context that the shutdown cancels.
- SubmissionFates.DuplicateNamesPublishedExactly: takes the generated transaction ids to be distinct.
- SubmissionFates.AdmissionsClaimedExactly: takes them to be distinct too.
- ResultNotifier.LostExactly: identifies what a topic holds by record, so a message with the same key and value as a written one counts as written.
- DecisionPath.EngineRefinesHistory: is about calls that follow one another; interleaved replicas of the breaker are the subject of `BreakerCommands` and `BreakerInterleaving`.
- Wire.DecodeExactly: does not model the schema registry, so the four bytes of the schema id are any bytes.
- DecisionPath.Lookup: leaves out NULL decision columns, which no writer of the table produces.
- The interleaved protocols of the breaker, the cache, the guard and the worker pool are state machines on values; their classes cover one caller at a time.
- Real Kafka, Redis, Postgres and gRPC clients, consumer-group rebalancing, the schema registry and the wiring in `cmd/main.go`.
- Protobuf encoding, the request validator, the rule engine, the feature builder and PAN masking, which hold no state and promise little beyond their branches. Payload fields that are copied unchanged into the transaction event are left out with them.
- Hashing, credentials, provisioning and the admin service.
- `Limiter.Wait`, which no handler calls.
- Logging, metrics other than the open-time gauge, configuration loading, dashboards, demo tools and scripts.
