# Verified models of the agent gateway's stateful cores

This project models the parts of the gateway whose guarantees span many calls,
and proves those guarantees. Methods and classes follow the code that updates
state step by step; each is proved equal to a function of its old state, and
the lemmas beside it state what that function promises over every input, run
or interleaving.

| modules | what they model |
|---|---|
| `SchedulerStore`, `SchedulerHistory`, `SchedulerPlan` | the durable scheduler jobs: leases, fenced commits, statistics, and the planner of the next state |
| `Admissions` | the durable ledger of incoming updates: bounded reclaim, final outcomes, the sweep |
| `SidecarOutbox`, `SidecarDelivery` | the transactional outbox of the hybrid memory, under every interleaving of appends, deliveries, reconcile passes and crashes |
| `ContextBudget`, `ContextBudgetSelection`, `ContextBudgetCost`, `ContextBudgetNewest` | the greedy selection of messages for a token budget, with truncation: the code, which messages it takes, what its result costs, and when it keeps the newest message |
| `CompactionKey` | the byte stream that is hashed into a compaction cache key |
| `Scripts`, `Streaming`, `Failover` | streaming a reply: lines from chunks, retry, fallback, failover behind a delta gate |
| `Normalize` | merging of turns and the compatibility message set |
| `RateLimiter`, `RateLimiterHistory` | the bounded fixed-window rate limiter and its guarantees over request histories |
| `EnvText`, `EnvFile` | escaping, parsing and rendering of the env file |
| `JsonSegment`, `JsonPayload` | the JSON segment scanner and the extraction of a JSON value from a model reply |
| `Text`, `Messages`, `Basics` | strings, messages, small helpers |

How the outside world appears:

- A transaction (`BEGIN IMMEDIATE`) or a single SQL statement is one atomic step; a history is any sequence of such
  steps, so workers may interleave, crash or come back late in every way. Clock readings are parameters of the steps.
- Cron schedules and time zones are a `Calendar` of which only "the next firing is after the given instant" is
  assumed. The JSON library is a predicate `isJson`, an `EventReader`, or a `Codec` whose decoding inverts its encoding.
  SHA-256 is a function `digest` on byte sequences.
- A provider is a `Script`: the deltas it offers and the result it returns, where each further step may depend on
  whether the sink accepted the last delta. A sink may reject any of its calls. The server's answers are parameters.
- Strings are sequences of Unicode scalar values; byte lengths and byte offsets are computed from them where the code
  uses bytes.

Findings, stated as lemmas:

- The context budget is not a strict bound. It is exceeded exactly when the messages do not all fit and either each of
  them is too large by itself, or one of them is the newest that does not fit beside the recalled memories and the
  messages after it while these are fewer than the recent minimum and more than twelve tokens are left
  (`ContextBudgetCost.BudgetExceededIff`); that message is shortened, and the result costs exactly four or five tokens
  more than the budget (`ContextBudgetCost.CostWhenShortened`, with inputs in `ContextBudgetCost.Overshoots20`). The third
  selection pass never selects anything (`ContextBudget.FillPassSelectsNothing`).
- The newest message does not always survive. Whatever the messages, it does exactly when the input budget is below 5
  tokens, or when a recent minimum is set, the budget is above 12, and the share of recalled memories is below 8 tokens
  or leaves more than 12 (`ContextBudgetNewest.NewestAlwaysSurvivesIff`, with an input in
  `ContextBudgetNewest.NewestDroppedAt60`).
- A scheduler claim returns exactly the jobs it selected if and only if no other job of the channel carries its token
  already (`SchedulerHistory.ClaimReturnsSelection`).
- An env file comes back as it was written if and only if every value is one line and every extra key is well formed
  (`EnvFile.EnvFileRoundTrip`); from the setup page, if and only if the new values are one line each
  (`EnvFile.SaveRoundTrip`).
- The outbox covers every stored chunk, under every interleaving, exactly when no chunk id is given to two different
  stored chunks (`SidecarDelivery.AlwaysCoversIff`); with such a reuse a document can be lost
  (`SidecarDelivery.ReusedIdLosesTheDocument`). A reconcile pass shrinks the outbox by the number it
  reports if and only if every deletion succeeds, since a failed deletion still counts as delivered
  (`SidecarOutbox.PassShrinksOutbox`).
- The fallback to the last user message in the compatibility set never applies (`Normalize.NothingToFallBackTo`), and the
  table trim of the rate limiter never runs (`RateLimiter.AllowKeepsTableBounded`).

## Model

| member | source | states |
|---|---|---|
| SchedulerStore.Store.CreateJob | src/memory.rs:1169-1199 | a new job starts unleased with no runs and no failures; a job id that exists already is refused and nothing changes |
| SchedulerStore.Store.UpdateJobStatus | src/memory.rs:1292-1322 | exactly the owner's job in that channel and chat that is neither completed nor canceled gets the status and loses its lease; every other row, every other column and the run log stay; the answer says whether there was one |
| SchedulerStore.Store.SelectDue | src/memory.rs:1338-1355 | the selected rows are distinct due rows, as many as min(max(limit, 1), due), in order of their next run, none later than a due row left out |
| SchedulerStore.Store.ClaimDueJobs | src/memory.rs:1324-1423 | a claim leases a selection of the earliest due rows and hands out the rows that carry its token |
| SchedulerStore.Store.CompleteJobRun | src/memory.rs:1425-1487 | a success writes the run and the job together if the token still holds the job, else neither |
| SchedulerStore.Store.FailJobRun | src/memory.rs:1489-1553 | a failure writes the run and the job together if the token still holds the job, else neither |
| SchedulerStore.Store.QueryStats | src/memory.rs:1231-1267 | the sums over the channel's rows are the numbers of its jobs, of those in each status and of the due ones |
| SchedulerStore.CreateIs | src/memory.rs:1169-1199 | column by column: the row that is inserted, and nothing when the id is taken |
| SchedulerStore.StatusChangeIs | src/memory.rs:1300-1321 | a status change is accepted exactly for the owner's job in that channel and chat that is neither completed nor canceled; then that row alone changes, in the status and the two lease columns |
| SchedulerStore.DueIs | src/memory.rs:1339-1346 | a job is due exactly when it is active in the channel, its next run is not later than now, and it has no lease that lasts beyond now |
| SchedulerStore.ClaimIs | src/memory.rs:1367-1392 | a claim changes the selected rows, in the two lease columns, and hands out the rows of the channel with its token |
| SchedulerStore.CommitIs | src/memory.rs:1425-1553 | a commit is accepted exactly when its token holds the job; then the row gets every column the outcome demands and the log exactly that run; otherwise nothing changes |
| SchedulerHistory.ReachableTablesOk | src/memory.rs:1169-1553 | in every reachable state a token means an active job with a lease; run_count is the number of the job's rows in the run log, and failure_streak the length of the block of failures that ends its log |
| SchedulerHistory.TerminalForever | src/memory.rs:1292-1553 | a completed or canceled job never changes again, whatever transactions follow |
| SchedulerHistory.CommitFenced | src/memory.rs:1448-1486 | a commit is accepted exactly when its token holds that job of that channel and chat; a rejected one changes neither table; an accepted one uses the token up |
| SchedulerHistory.LostTokenNeverReturns | src/memory.rs:1324-1553 | once a token is off a job, every later commit under it is rejected without effect, unless a claim reuses the token |
| SchedulerHistory.StatusChangeVoidsClaim | src/memory.rs:1292-1322 | pausing, canceling or resuming a job takes it from the worker in flight |
| SchedulerHistory.ReclaimVoidsClaim | src/memory.rs:1374-1391 | a job that is claimed again is held by the new token only |
| SchedulerHistory.AtMostOneCommitPerClaim | src/memory.rs:1324-1553 | with tokens never reused, at most one commit is ever accepted for a job and a token |
| SchedulerHistory.LeaseExcludes | src/memory.rs:1338-1391 | before a lease ends no claim touches its job, and the job is not due |
| SchedulerHistory.HeldRowIsFrozen | src/memory.rs:1292-1553 | while a token is on a job, its row is exactly the row that was claimed |
| SchedulerHistory.ClaimReturnsSelection | src/memory.rs:1338-1422 | a claim hands out its selection and the rows that carried its token before; so exactly its selection if and only if those are in it |
| SchedulerHistory.ClaimLeasesSelection | src/memory.rs:1338-1422 | with an unused token exactly the selected jobs are handed out, each changed only by its new lease, and no other job changes |
| SchedulerHistory.ClaimTakesEarliestDue | src/memory.rs:1324-1423 | a claim returns min(max(limit, 1), due) jobs for the due count of the statistics at that time, leaves that many fewer due, and leaves none behind that was due earlier |
| SchedulerHistory.StatusCountsAddUp | src/memory.rs:1231-1267 | the four status counts add up to the total, and only active jobs are due |
| SchedulerPlan.TerminalStatesStay | src/scheduler.rs:287-323 | no sequence of events leaves a completed or canceled job, and completion only follows from active |
| SchedulerPlan.TransitionsAre | src/scheduler.rs:287-323 | which state takes which event, and where each event leads |
| SchedulerPlan.BackoffIsExact | src/scheduler.rs:263-280 | for one failure or more, the saturating backoff is exactly min(base * 2^min(n, 20), max) |
| SchedulerPlan.BackoffStarts | src/scheduler.rs:263-280 | a fixed backoff is the base delay whatever the failures, and an exponential one is one second before the first failure |
| SchedulerPlan.BackoffGrowsWithinBounds | src/scheduler.rs:263-280 | the backoff lies between one second and the maximum and never shrinks with further failures |
| SchedulerPlan.SuccessPlanIsSound | src/scheduler.rs:325-366 | a success completes the job exactly when it runs once, reached its run limit or has no next firing; otherwise it stays active with a next run after now |
| SchedulerPlan.SuccessPlannedIff | src/scheduler.rs:220-366 | a plan exists exactly for a policy whose version, threshold, strategy, delays and trigger are acceptable, if the next firing can be computed when it is needed; the next run is the first firing after the next second |
| SchedulerPlan.FailurePlanIsSound | src/scheduler.rs:368-402 | a failure pauses the job exactly at the threshold; otherwise it retries after the backoff of the true streak, later than now and within the maximum |
| SchedulerPlan.AcceptedCommitUpdatesClaimedRow | src/memory.rs:1425-1553 | an accepted commit updates the very row that its worker claimed, however many transactions came in between |
| SchedulerPlan.SuccessCommitFollowsPlan | src/channel/workers.rs:240-262 | an accepted success commit writes the planned state, a legal move, honours the run limit, and leaves the job active only with a next run after now |
| SchedulerPlan.FailureCommitFollowsPlan | src/channel/workers.rs:280-335 | an accepted failure commit pauses the job exactly when its streak reached the threshold, and otherwise leaves it with a next run after now |
| Admissions.AdmissionStore.Admit | src/memory.rs:540-581 | an update is admitted when it is new, or when it is in flight past its lease with attempts left; else nothing changes |
| Admissions.AdmissionStore.Finish | src/memory.rs:583-599 | only an update in flight becomes done |
| Admissions.AdmissionStore.Fail | src/memory.rs:601-613 | only an update in flight becomes failed, with the error cut to 2000 characters |
| Admissions.AdmissionStore.SweepStale | src/memory.rs:686-711 | exactly the updates in flight whose lease ended too long ago become failed and are reported |
| Admissions.AdmitIs | src/memory.rs:540-581 | column by column: a new row, or a reclaimed row with a new lease, one more attempt and no detail, or nothing |
| Admissions.CloseIs | src/memory.rs:583-613 | closing changes status and detail of one update in flight |
| Admissions.CutIs | src/memory.rs:608-608 | an error is kept up to its first 2000 characters |
| Admissions.LedgerCountsAdmissions | src/memory.rs:540-711 | over every history, attempts is the number of admissions of the update, at most three; it was reported lost at most once, and then it is failed; its lease is that of its last admission |
| Admissions.AtMostThreeAttempts | src/memory.rs:5328 | an update is admitted at most three times and reported lost at most once |
| Admissions.AdmissionsAreLeasesApart | src/memory.rs:540-581 | a later admission of an update comes strictly after the lease of the one before |
| Admissions.OutcomesAreFinal | src/memory.rs:583-711 | a done or failed update never changes, is never admitted and never reported lost again |
| Admissions.SweepLeavesNothingStale | src/memory.rs:686-711 | after a sweep nothing stale is in flight, the reported updates are failed, and all others are as before |
| Admissions.ExpiredIsRecoverable | src/memory.rs:540-711 | an expired update in flight is admitted again exactly while attempts are left, and reported by a sweep exactly when its lease ended before the limit |
| SidecarOutbox.HybridMemory.AppendChunkAndOutbox | src/memory.rs:882-915 | the chunk and its pending document appear together |
| SidecarOutbox.HybridMemory.Append | src/memory.rs:4353-4400 | a message leaves a chunk with its pending document exactly when it is not blank |
| SidecarOutbox.HybridMemory.ListSidecarOutbox | src/memory.rs:925-937 | the listing holds min(limit, all) distinct pending rows, oldest first, none newer than one left out |
| SidecarOutbox.HybridMemory.ReconcileSidecarOutbox | src/memory.rs:4415-4445 | a pass delivers the oldest rows one by one, each with its own outcome, and counts the upserts that succeeded |
| SidecarOutbox.AppendIs | src/memory.rs:882-915 | a new row carries its document, no attempt, no error and its time |
| SidecarOutbox.BumpIs | src/memory.rs:939-954 | a failure counts one more attempt and notes the error; document and time stay |
| SidecarOutbox.DeliverIs | src/memory.rs:4418-4443 | what one delivery leaves in the sidecar and in its row, for each outcome of the upsert and of the statement after it |
| SidecarOutbox.PassShrinksOutbox | src/memory.rs:4415-4445 | a pass removes exactly the delivered rows whose deletion succeeded, so the outbox shrinks by at most the number reported, and by exactly it if and only if every deletion succeeded |
| SidecarDelivery.EveryChunkIsCovered | src/memory.rs:4353-4445 | under every interleaving with failures and crashes, each stored chunk is pending or in the sidecar with its own document, nothing else is, and no pending row is corrupt |
| SidecarDelivery.DeliveredStaysDelivered | src/memory.rs:882-954 | whatever happens later, stored chunks stay stored and delivered documents stay as they are |
| SidecarDelivery.CrashStopsDeliveries | src/memory.rs:4353-4445 | after a crash nothing is delivered before the next append or reconcile pass |
| SidecarDelivery.AlwaysCoversIff | src/memory.rs:4353-4445 | a list of appends is covered under every interleaving if and only if no two of them give one id to two different stored chunks |
| SidecarDelivery.ReusedIdLosesTheDocument | src/memory.rs:5562-5572 | if an id came back for another chunk during a delivery, the newer chunk could end with the older document and nothing pending |
| SidecarDelivery.PassIsARun | src/memory.rs:4415-4445 | a reconcile pass as the method runs it is a run of the interleaved steps |
| SidecarDelivery.CleanPassDeliversEverything | src/memory.rs:4415-4445 | after any history, a full pass without failures leaves nothing pending and every stored chunk in the sidecar with its own document |
| ContextBudget.TruncateOvershoots | src/service.rs:1493-1534 | a message that is truncated costs exactly four or five tokens more than its allowance and is its beginning followed by the marker |
| ContextBudget.RecallMemories | src/service.rs:1405-1415 | the candidates are collected by scanning for system messages with a readable score |
| ContextBudget.SortedAreCandidates | src/service.rs:1405-1420 | sorting them leaves all recalled memories, each once, and no other message |
| ContextBudget.ApplyContextBudget | src/service.rs:1374-1491 | collecting and sorting the memories, the three in-place passes, the replacements and the final collection yield the selection of the first two passes |
| ContextBudget.TakeMemories | src/service.rs:1399-1428 | the loop over recalled messages takes those that fit the memory share, in their order |
| ContextBudget.TakeRecent | src/service.rs:1430-1458 | the backward loop keeps recent messages that fit, and truncates one for the recent minimum |
| ContextBudget.RecentPassFills | src/service.rs:1430-1458 | after the second pass no message left out would still fit |
| ContextBudget.FillPassSelectsNothing | src/service.rs:1460-1473 | the third pass changes nothing |
| ContextBudgetSelection.ScoreIs | src/service.rs:1502-1508 | a recalled memory is a system message whose token behind the marker, up to a space or closing bracket, is a number |
| ContextBudgetSelection.NoMarkerNoScore | src/service.rs:1502-1508 | without the marker there is none |
| ContextBudgetSelection.MemoryTakenIff | src/service.rs:1422-1428 | a recalled memory is taken exactly when it fits the share beside the memories taken before it in the order |
| ContextBudgetSelection.AllMemoriesSurvive | src/service.rs:1399-1491 | when the recalled memories together fit their share, every one is in the result |
| ContextBudgetSelection.TakenMemorySurvives | src/service.rs:1422-1491 | a memory that is taken is in the result, whole |
| ContextBudgetSelection.RecentKeptIff | src/service.rs:1430-1458 | another message is kept whole exactly when it fits beside the memories and the newer messages kept; once a newer one was shortened, no older one is taken |
| ContextBudgetSelection.SimpleCases | src/service.rs:1381-1397 | without a window, or when everything fits, nothing is dropped; without a budget only the newest message stays |
| ContextBudgetSelection.PlanIs | src/service.rs:1385-1403 | the budget is the window less the reserve, and the memories' share that many hundredths of it, at most eighty, rounded down |
| ContextBudgetCost.CostWhenShortened | src/service.rs:1430-1458 | when a message is shortened, the result costs the budget and exactly four tokens more if that message has four characters per token of its room less fifteen, else five |
| ContextBudgetCost.CostWhenWhole | src/service.rs:1430-1491 | when none is, the result is the newest message alone if each message is too large by itself, and within the budget otherwise |
| ContextBudgetCost.BudgetExceededIff | src/service.rs:1374-1491 | the budget is exceeded if and only if the messages do not all fit and either each is too large by itself or there is one to shorten, a condition on the input alone |
| ContextBudgetCost.BudgetBound | src/service.rs:1374-1491 | the result costs at most the budget, or exactly four or five tokens more, or is the newest message alone |
| ContextBudgetCost.StrictWithoutRecentMinimum | src/service.rs:1430-1458 | without a recent minimum the budget is kept as soon as one message fits it |
| ContextBudgetCost.OneMessageOvershoots | src/service.rs:1374-1534 | for every budget above 12, a single message of the least length that does not fit costs four tokens too many, and a longer one five |
| ContextBudgetCost.Overshoots20 | src/service.rs:1374-1534 | with 20 tokens, 65 characters end up costing 24 and 66 characters 25 |
| ContextBudgetCost.BudgetedThins | src/service.rs:1374-1491 | the result is the input in order with messages dropped and at most one cut short, and no dropped message would have fitted |
| ContextBudgetNewest.NewestSurvives | src/service.rs:1374-1491 | under a plan that leaves room for it, the result ends with the newest message, whole or cut short |
| ContextBudgetNewest.NewestDisplaced | src/service.rs:1374-1491 | under any other plan there are messages of which the newest is dropped |
| ContextBudgetNewest.NewestAlwaysSurvivesIff | src/service.rs:1374-1491 | the newest message survives for all messages and orders of memories if and only if the plan's budget, memory share and recent minimum leave room for it |
| ContextBudgetNewest.MemoryIsLong | src/service.rs:1502-1508 | a message with a memory score costs eight tokens at least |
| ContextBudgetNewest.NewestDroppedAt60 | src/service.rs:1374-1508 | with 60 tokens and the largest memory share, a recalled memory of 48 tokens displaces a newest message of 13 |
| CompactionKey.Sha256Hasher.Update | src/service.rs:1354-1361 | the hasher absorbs bytes in order |
| CompactionKey.UpdateCompactionSourceHash | src/service.rs:1354-1361 | one call appends one framed field: label, zero byte, length of the value in decimal, zero byte, value, zero byte |
| CompactionKey.BuildCompactionSourceKey | src/service.rs:1306-1352 | the key's hash is the digest of the framed strategy, messages and metadata; its ids are those of the entries in order, with the first and the last of them |
| CompactionKey.SourceIdsAre | src/service.rs:1337-1343 | the ids are those of all entries that have one, in the order of the entries |
| CompactionKey.FirstAndLastSourceId | src/service.rs:1337-1343 | the first and the last id are those of the first and the last entry that has one |
| CompactionKey.KeyStarts | src/service.rs:1306-1336 | the stream starts with the strategy and the number of messages |
| CompactionKey.KeyHoldsMessage | src/service.rs:1306-1336 | then come role and content of every message in order |
| CompactionKey.KeyHoldsMetadata | src/service.rs:1306-1336 | and then id and time of every entry in order |
| CompactionKey.DecimalDenotes | src/service.rs:1354-1361 | a decimal numeral denotes the number it was written for |
| CompactionKey.NamesAre | src/service.rs:1363-1372 | the texts of the roles and of one strategy of each kind |
| CompactionKey.FrameIsPrefixCode | src/service.rs:1354-1361 | a field is recovered from its frame whatever follows, even when values hold zero bytes or look like labels |
| CompactionKey.StreamInjective | src/service.rs:1354-1361 | equal streams come from equal lists of fields |
| CompactionKey.StrategyNameInjective | src/service.rs:1363-1372 | the strategy name determines the strategy with its parameters |
| CompactionKey.StreamDecodesUniquely | src/service.rs:1306-1372 | equal streams come from the same strategy, the same roles and contents in order and the same metadata |
| CompactionKey.SameHashIffSameSource | src/service.rs:1306-1372 | unless the digest collides on the two streams, two keys share a hash exactly when they were built from the same source |
| Scripts.StreamSink.OnDelta | src/provider.rs:46-49 | a sink accepts the delta at its end or rejects it and keeps what it has |
| Scripts.HonestIff | src/provider.rs:57-70 | a provider is honest exactly when, whatever its sink rejects, a text it returns is the text that was accepted |
| Streaming.EventLineIsRead | src/provider.rs:842-861 | however padded, a `data:` line is read as its payload: its delta, no delta, or a bad event |
| Streaming.OtherLinesAreIgnored | src/provider.rs:842-851 | lines that are no `data:` field, fields without payload and the end marker carry no event |
| Streaming.RepeatedPrefix | src/provider.rs:848-848 | a repeated `data:` is stripped as one |
| Streaming.PopLine | src/provider.rs:430-437 | the first line leaves the buffer without its line feed and a carriage return before it |
| Streaming.ReadCompleteLines | src/provider.rs:429-442 | taking lines out of the buffer chunk by chunk has the effect of reading the lines of the whole body |
| Streaming.ReadBody | src/provider.rs:421-454 | reading a body in chunks does to the sink what reading all its lines at once does, up to the first bad event, rejection or broken read |
| Streaming.CompleteStreamWithRetry | src/provider.rs:374-487 | all attempts and the fallback do to the sink what the script over the whole bodies does |
| Streaming.LinesIncrementally | src/provider.rs:429-437 | splitting a text anywhere does not change its lines |
| Streaming.BodyIsRead | src/provider.rs:430-450 | a body is read as its finished lines, without line endings, and what follows them, trimmed, as one more line if the body ended and that is not blank |
| Streaming.ChunkingIsIrrelevant | src/provider.rs:421-450 | answers that differ only in how their bodies are cut into chunks have the same effect and result |
| Streaming.StreamIsHonest | src/provider.rs:374-487 | over all attempts and the fallback, the provider is honest |
| Streaming.ReturnsAccepted | src/provider.rs:374-487 | a text that is returned is the concatenation of all deltas that the sink accepted |
| Streaming.TextFromOneSource | src/provider.rs:374-487 | the accepted text is a prefix of what one attempt, or the fallback, said, everything before it said nothing, and on success it is all of it |
| Streaming.FirstSpeakingAttemptDecides | src/provider.rs:389-466 | with a sink that rejects nothing, attempts that fail to connect, answer with an error status or say nothing are passed over, and the first other one decides: its failure or its text is the reply, and its text alone is delivered |
| Streaming.FallbackDecides | src/provider.rs:468-487 | if every attempt is passed over, the fallback's text is delivered and returned, or the error of the last attempt is reported |
| Streaming.AttemptOutcome | src/provider.rs:406-466 | what one attempt does: its failure, its text, or the next attempt |
| Streaming.RejectionEndsRequest | src/provider.rs:438-449 | nothing is offered after a rejected delta, and the request then fails |
| Streaming.StreamStops | src/provider.rs:374-487 | every request is of that kind |
| Failover.DeltaGateSink.constructor | src/provider.rs:688-691 | a fresh gate has counted nothing |
| Failover.DeltaGateSink.OnDelta | src/provider.rs:724-730 | the gate passes the delta on and counts it exactly when it was accepted |
| Failover.StreamThrough | src/provider.rs:716-730 | behind the gate a provider has the same effect and result as without it, and the gate counts the accepted deltas |
| Failover.CompleteStream | src/provider.rs:673-713 | the loop over admitted providers does to the sink what the chain as one provider does |
| Failover.OrElsePlays | src/provider.rs:692-708 | the chain goes on to the next provider exactly after a failure with nothing accepted |
| Failover.FailsOver | src/provider.rs:95-106 | after a provider that fails with nothing accepted, by a non-HTTP error or a status other than 400, 404 and 422, or by any error when set so, the request goes on as the rest of the chain from the sink it left |
| Failover.StopsAtRequestShapeErrors | src/provider.rs:677-684 | after 400, 404 or 422 no later provider is asked, and that error is the reply |
| Failover.StopsWhenCommitted | src/provider.rs:692-704 | nor after an answer or an accepted delta |
| Failover.NobodyToAsk | src/provider.rs:710-712 | an empty chain reports that nobody is available |
| Failover.OneProviderServes | src/provider.rs:673-713 | one provider serves the request as if asked alone; all before it failed with nothing accepted and an error worth failing over; and it ended the search for one of the four reasons |
| Failover.FailoverIsHonest | src/provider.rs:673-713 | a chain of honest providers is honest, so on success the text returned is the text delivered |
| Failover.HonestChainStartsHonest | src/provider.rs:673-713 | failing over hides no wrong text: an honest chain starts with an honest provider |
| Failover.OneAttemptIsDelivered | src/provider.rs:374-713 | across attempts, fallbacks and failovers, what is delivered is what one attempt of one provider said, and a returned text is exactly that |
| Normalize.NormalizeMessages | src/provider.rs:740-756 | the in-place loop computes the merge of the turns |
| Normalize.NormalizedJoinsMaximalRuns | src/provider.rs:740-756 | every non-blank message survives in order: each output message joins one maximal run of equal roles |
| Normalize.MaximalRunsUnique | src/provider.rs:740-756 | there is only one way to cut messages into maximal runs, so the merge is determined by it |
| Normalize.NormalizedFixes | src/provider.rs:740-756 | a list is left alone exactly when its roles alternate and no message is blank |
| Normalize.NormalizedIdempotent | src/provider.rs:740-756 | normalizing twice is normalizing once |
| Normalize.NormalizedIncrementally | src/provider.rs:740-756 | normalizing a list is normalizing its normalized beginning with the rest |
| Normalize.BuildCompatMessages | src/provider.rs:758-807 | the compatibility set is the newest sixteen turns with the guidance folded in |
| Normalize.NothingToFallBackTo | src/provider.rs:779-786 | when no turn is kept, no user message exists to fall back to |
| Normalize.TurnsAre | src/provider.rs:767-773 | the turns are the messages that are not system messages, in their order |
| Normalize.GuidancePartsAre | src/provider.rs:759-765 | the guidance is every non-blank system message, trimmed, in their order |
| Normalize.JoinIs | src/provider.rs:765-765 | parts are joined by a blank line |
| Normalize.KeptAre | src/provider.rs:775-777 | what is kept are the last sixteen turns, or all |
| Normalize.CompatShape | src/provider.rs:758-807 | the compatibility set has no system message, alternates, is nowhere blank and has at most sixteen messages; a message is inserted only beside at most one kept turn |
| Normalize.CompatFixes | src/provider.rs:758-807 | exactly the lists of that shape are left alone, and rewriting twice is rewriting once |
| Normalize.CompatKeepsTurns | src/provider.rs:758-807 | apart from the guidance in the first user turn, or in front, the set is the newest turns; it is empty exactly when every message is blank |
| RateLimiter.FixedWindowRateLimiter.constructor | src/http.rs:230-237 | a limiter starts with no counters and a window of at least one second |
| RateLimiter.FixedWindowRateLimiter.AllowAtForSource | src/http.rs:243-282 | one request charges one counter of the current window, and the table never grows past its bound |
| RateLimiter.CompactSourceWindows | src/http.rs:3854-3887 | only expired counters are dropped, unless too many are left even then; the result always respects the bound |
| RateLimiter.AllowKeepsTableBounded | src/http.rs:243-282 | no request takes the table past max_sources sources and the shared counter, so the last-resort trim has nothing to do |
| RateLimiter.SameSourceIff | src/http.rs:3837-3852 | two keys are one source exactly when the first 128 characters of their trimmed texts differ in the case of ASCII letters only |
| RateLimiter.RetainedIs | src/http.rs:3864-3865 | exactly the counters of windows before the last one expire |
| RateLimiter.BucketIs | src/http.rs:260-268 | a source is charged to its own counter if that is there or there is room for one more besides the shared one, else to the shared one |
| RateLimiter.AllowIs | src/http.rs:270-281 | a request adds one to one counter, which starts at zero in a new window, changes no other, and is allowed while the count is within the limit |
| RateLimiter.WindowsAre | src/http.rs:3889-3892 | the window of an instant starts at the last multiple of the width |
| RateLimiterHistory.TableBounded | src/http.rs:243-282 | the same over every history |
| RateLimiterHistory.TableCounts | src/http.rs:243-282 | every counter of the last window holds the number of requests charged to it in that window |
| RateLimiterHistory.OneBucketPerWindow | src/http.rs:260-268 | within a window, a source is always charged to the same counter, its own or the shared one |
| RateLimiterHistory.BucketAllowance | src/http.rs:270-281 | a counter lets exactly the first max_requests requests of a window through |
| RateLimiterHistory.PerWindowLimit | src/http.rs:243-282 | no source gets more than max_requests through in a window, from its start to its end |
| RateLimiterHistory.AnyIntervalLimit | src/http.rs:243-282 | no source gets more than twice that through in any interval of a window's length |
| RateLimiterHistory.OwnCounterIsExact | src/http.rs:243-282 | a source with its own counter gets exactly its first max_requests requests through |
| RateLimiterHistory.FewSourcesOwnCounters | src/http.rs:260-268 | with no more sources than counters, every request is charged to its own source |
| RateLimiterHistory.FewSourcesExact | src/http.rs:243-282 | with no more sources than counters, in every window each source gets exactly its first max_requests requests through |
| RateLimiterHistory.NoLimit | src/http.rs:244-246 | with a limit of zero every request passes and nothing is recorded |
| EnvText.ParseInvertsFormat | src/http.rs:2241-2267 | parsing a formatted value gives it back, for every string |
| EnvText.ParseLineShape | src/http.rs:2221-2239 | a parsed line yields a well-formed key and a value of one line |
| EnvText.AssignmentParses | src/http.rs:2221-2267 | an assignment with a well-formed key parses to its key and value |
| EnvText.AssignmentIs | src/http.rs:2224-2236 | a line is read at its first equals sign as its trimmed key and unquoted value; comments and empty keys are skipped |
| EnvText.NoAssignment | src/http.rs:2228-2230 | a line without equals sign is skipped |
| EnvText.QuotedValues | src/http.rs:2241-2253 | quotes of either kind are taken off alike, plain text between them is kept, and other values are kept as they are |
| EnvText.WrittenAsIs | src/http.rs:2255-2267 | a value is written without quotes exactly when it holds no white space, no `#` and no quote |
| EnvText.LinesAreRead | src/http.rs:2221-2223 | a text is split into its finished lines, without line endings, and what follows them |
| EnvText.LinesInvertUnlines | src/http.rs:2221-2223 | splitting joined lines gives them back |
| EnvFile.ParseEnvFileValues | src/http.rs:2221-2239 | the loop over lines yields the last value of every key |
| EnvFile.LastLineWins | src/http.rs:2221-2239 | the last assignment of a key wins, and other lines change nothing |
| EnvFile.ParseFileParsed | src/http.rs:2221-2239 | whatever the content, keys are well formed and values one line |
| EnvFile.RenderEnvFile | src/http.rs:2269-2298 | the loops render the header, the fields by group and the extras, in order, each as one line |
| EnvFile.FieldsAreHeaded | src/http.rs:2274-2288 | each field is written in its place with its value, and under its group's heading where a new group starts |
| EnvFile.EnvFileRoundTrip | src/http.rs:2221-2298 | a rendered file parses to every field, missing ones as empty, and every extra, if and only if the values are one line and the extra keys well formed |
| EnvFile.SaveRoundTrip | src/http.rs:2436-2453 | rewriting an existing file with new field values keeps every extra and every field if and only if the new values are one line each |
| JsonSegment.FindJsonSegmentEnd | src/json_utils.rs:31-74 | the loop returns the byte length of the only closed prefix, or nothing when there is none |
| JsonSegment.ClosedPrefixUnique | src/json_utils.rs:31-74 | at most one prefix is closed, so the first found is the shortest and only one |
| JsonSegment.SegmentEndMeaning | src/json_utils.rs:31-74 | a prefix is reported exactly when it is loose text and string literals followed by one balanced group |
| JsonPayload.ScannerEndsJsonValue | src/json_utils.rs:31-74 | on the text of any JSON object or array (sections 4, 5 and 7 of RFC 8259) followed by anything, the scanner returns exactly that text's length |
| JsonPayload.ExtractFirstJsonValueSegment | src/json_utils.rs:14-29 | the result is the first bracketed candidate that parses |
| JsonPayload.ExtractJsonPayload | src/json_utils.rs:3-12 | the trimmed reply if it parses, else the first candidate that does |
| JsonPayload.EmbeddedValueExtracted | src/json_utils.rs:14-29 | an object or array after text without brackets is extracted whole, whatever follows it |
| JsonPayload.ReplyPayload | src/json_utils.rs:3-12 | a reply that carries one object or array yields it, unless the reply as a whole parses |

## Left out

- Integer widths of the scheduler and the ledgers: `now + lease_secs`, `attempts + 1` and the run counters are unbounded, so their 64-bit overflow is not modelled. The budget, the rate limiter and the backoff are modelled with the machine widths where they saturate.
- Columns that no modelled statement reads (payload, titles, thread ids, created and updated stamps), and the listing and query statements over the same tables.
- The order in which the rate limiter's last-resort trim removes counters (sorted keys): any choice is allowed, and the trim never runs.
- Scores of recalled memories (32-bit floating point): which texts are numbers is a parameter, and sorting by score is any reordering of the candidates.
- `ContextBudgetCost.CostWhenShortened`: and the other cost lemmas assume that a message has at most half as many characters as a machine word counts, which holds of every string of the code; no bound is put on the budget.
- `ContextBudgetNewest.NewestAlwaysSurvivesIff`: ranges over messages of every length, so for budgets beyond the size of any memory its failing messages are larger than a machine can hold. Of the parser of scores it assumes only that `1` is a number and the empty text is none.
- Lock poisoning, the mutex of the rate limiter and the wall clock behind `allow`: calls are sequential and clock readings are parameters. The per-window lemmas ask for a clock that never runs backwards; `RateLimiterHistory.TableBounded` does not.
- The setup page's table of fields, its headings and their localization: the table is a parameter with distinct well-formed keys.
- JSON, cron, time-zone and SHA-256 libraries, the SQL engine and HTTP: parameters, as described above. Which text an event carries (`extract_content_from_event`) is part of the `EventReader`.
- Chunks that split a character: each chunk is decoded on its own with replacement characters, so the result then depends on the split. Chunks here are whole characters.
- The request that does not stream, with its retries and the compatibility resend: its outcome is a parameter of `Streaming.CompleteStreamWithRetry`. `FailoverProvider::complete`, which has no sink, is left out as the easier of the two.
- The circuits of the failover chain: which providers are admitted is a parameter of `Failover.CompleteStream`, and recording successes and failures is left out.
- Delays between attempts, timeouts and log lines.
- The message row that the hybrid append writes before the chunk transaction, serialization errors of a document, and the times of the last attempt.
- `SidecarDelivery.EveryChunkIsCovered`: does not show that chunk ids differ, because they are 64-bit hashes; it assumes that an id is never given to two different chunks.
- The worker loop around a claim: the check of the lease just before sending, resolving the stored policy, and the fallback plan for a policy that does not parse. The planner lemmas speak of valid policies; `max_runs` is checked only after a success, as in the code.
- That an active job always has a next run: changing the status does not touch the next run, so this is stated only for planned commits.
- The other stores, channels, transports, the command line and the Python sidecar.
