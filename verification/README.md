# RTCMon in Dafny

RTCMon is a WebRTC telemetry backend: SDKs post statistics, a worker pool batches them, a flusher writes
them to PostgreSQL and Redis, and background jobs score, close and expire what was collected. This project
models its in-process algorithms and proves what they keep, over all inputs and all interleavings.

| file | models |
|---|---|
| `WorkerPool.dfy` | the bounded-channel worker pool: producers, the RW-lock close protocol, workers, tickers, draining shutdown, as a transition system; one worker's loop with its reused batch array |
| `Ewma.dfy` | the smoothing state with its TTL sweep, against a definition over the whole event list |
| `Averages.dfy` | whose average a row carries, on the fields of the snapshots |
| `Hierarchy.dfy` | what a committed flush does to the four entity tables, and runs of flushes |
| `Flusher.dfy` | the flusher's loops and state changes, proved against the two modules above |
| `Ownership.dfy` | whose user, conference and app a filed statistics row leads to |
| `Cache.dfy` | the active-conference hashes |
| `Keys.dfy` | the composed string keys and the signed canonical request |
| `ConferenceTree.dfy` | rows into a tree through saved pointers into growing Go slices (block, length, `append` free to move) |
| `TreeOrder.dfy` | why that assembly needs its ORDER BY |
| `Rules.dfy` | the rules over a connection's statistics: sustained runs, spikes and video freezes, with int32 arithmetic |
| `Observations.dfy` | evaluating all nine rules and writing their observations with the duplicate check |
| `RateLimit.dfy` | the sliding-window Lua script and its callers, against a full-history specification |
| `Emos.dfy` | the eMOS score |
| `Closing.dfy` | stale scans and end-conference calls racing, as a transition system |
| `Retention.dfy` | batched event deletion, partition dropping, the daily schedule |
| `Common.dfy`, `Model.dfy` | shared vocabulary, the ingest payload |

Conventions. Each SQL statement, transaction or script is one atomic step. Floating-point values are reals.
Clocks, database failures, the rows a `LIMIT` picks, the moment Redis drops an expired key and the memory
`append` chooses are parameters or nondeterministic choices. A panic or an error return is a result, never
excluded by a precondition.

What the code does not meet is proved as well, with the exact condition under which it does:

- A pool without workers but with a buffer strands what it accepted (`WorkerPool.AlwaysDrainsExactlyWhen`).
- A batch that uses one conference id with two apps files participants under the wrong app
  (`Hierarchy.OwnAppExactlyWhen`).
- Session and connection ids are unique over all apps: rows of a payload that uses somebody else's id lead to that
  somebody (`Ownership.AllLeadExactlyWhen`).
- A batch whose commit took effect but lost its answer is dead-lettered; replaying it creates no entity but files
  every snapshot a second time (`Hierarchy.ReplayInRun`, `Flusher.ReplayFilesTwice`).
- An app id in two spellings, such as "5" and "+5", splits a conference's users over two cache hashes
  (`Cache.CountsConferenceExactlyWhen`).
- The rate limiter counts whole clock seconds: over elapsed time a window can hold up to twice the limit
  (`RateLimit.ElapsedExactlyWhen`, `RateLimit.AtMostTwiceMax`).
- A stale scan whose UPDATE loses its answer closes a conference that the stale job never triggers
  (`Closing.LostAnswerNeverTriggers`).
- Rows that come back to a session after another one has begun lose connections when append moves its array;
  the ORDER BY excludes that (`TreeOrder.TreeExactlyWhen`).
- A sustained rule with `min_samples` below one panics or reports empty streaks (`Rules.PanicsExactlyWhen`,
  `Rules.ExactlyWhenNoEmptyStreak`).
- The int32 averages are exact only while the true sum fits (`Rules.MillisAverageExactlyWhen`).
- Every further evaluation duplicates the observations that do not fall on whole seconds
  (`Observations.ReevaluationExactlyWhen`, `Observations.EvaluationsGrow`).
- Ending a conference by external id may pick another app's conference and refuse the owner
  (`Closing.ReachesOwnExactlyWhen`).
- The comment at internal/retention/job.go:116-117 says that dropping partitions by the shortest retention
  loses no data. The code drops rows that apps with a longer retention, and apps without any, still retain; the
  model follows the code (`Retention.PassIsSafeExactlyWhen`).
- A negative loss coefficient rewards loss (`Emos.LossNeverHelpsExactlyWhen`).
- A source with a bar in it can share another connection's average (`Keys.EwmaKeyCollidesExactlyWhen`).

## Model

| member | source | states |
|---|---|---|
| `WorkerPool.InvStep` | internal/worker/worker.go:74-135 | every step of every producer, closer and worker keeps the lock, dealing and drain invariants |
| `WorkerPool.RunKeepsInv` | internal/worker/worker.go:55-135 | so does every run of any length |
| `WorkerPool.Conservation` | internal/worker/worker.go:74-135 | in every reachable state the accepted payloads, as a multiset, are the buffer plus all batches plus everything flushed |
| `WorkerPool.NeverPanics` | internal/worker/worker.go:74-99 | no interleaving sends on or closes a closed channel; once it is closed no producer is past the check; the buffer never exceeds its capacity |
| `WorkerPool.ClosedPoolAcceptsNothing` | internal/worker/worker.go:78-80 | after the flag is set no continuation accepts another payload |
| `WorkerPool.AnswersAreTrue` | internal/worker/worker.go:74-88 | over any run a payload is accepted exactly as often as Enqueue has answered success for it, or is about to |
| `WorkerPool.RefusedOnlyWhen` | internal/worker/worker.go:78-88 | Enqueue comes to refuse only on a closed pool or a full buffer |
| `WorkerPool.FlushSizes` | internal/worker/worker.go:106-135 | every flush has between 1 and max(1, BatchSize) payloads |
| `WorkerPool.SingleWorkerIsFifo` | internal/worker/worker.go:106-135 | with one worker, flushed batches then batch then buffer is the acceptance order |
| `WorkerPool.WorkerKeepsOrder` | internal/worker/worker.go:106-135 | with many, what each worker flushed and holds is a subsequence of the acceptance order |
| `WorkerPool.DrainStep` | internal/worker/worker.go:113-134 | once the channel is closed no step raises the measure and every worker step but an idle tick lowers it |
| `WorkerPool.DrainTerminates` | internal/worker/worker.go:93-135 | after closing, no run has more productive worker steps than the measure |
| `WorkerPool.ShutdownNeverStuck` | internal/worker/worker.go:93-101 | while a Shutdown call is under way some step of the shutdown is enabled: of a call already made, of a producer the waiting writer waits for, or a productive one of a worker |
| `WorkerPool.ShutdownWork` | internal/worker/worker.go:74-135 | once a writer waits, every such step lowers the work left, and no other step raises it but a new call of Shutdown |
| `WorkerPool.ShutdownBounded` | internal/worker/worker.go:74-135 | so no run, whatever is interleaved, has more shutdown steps than there was work |
| `WorkerPool.ShutdownReturns` | internal/worker/worker.go:91-101 | Shutdown returns: once a writer waits, as many shutdown steps as there was work bring every call made to its end, whatever else runs |
| `WorkerPool.ClosersBounded` | internal/worker/worker.go:93-101 | in any run the Shutdown calls take at most eight steps each, the only kind a shutdown needs before a writer waits |
| `WorkerPool.ShutdownCompletes` | internal/worker/worker.go:91-101 | from every state with a Shutdown call under way there is a run of shutdown steps alone to its return |
| `WorkerPool.ShutdownFlushesAll` | internal/worker/worker.go:91-101 | when Shutdown returns, all workers are gone, buffer and batches are empty and the flushed multiset is the accepted one |
| `WorkerPool.AlwaysDrainsExactlyWhen` | internal/worker/worker.go:55-101 | that guarantee holds for a configuration exactly when it has a worker or no buffer |
| `WorkerPool.StrandedItem` | internal/worker/worker.go:63-101 | without workers a reachable state has Shutdown returned and an accepted payload unflushed |
| `WorkerPool.RunWorker` | internal/worker/worker.go:106-135 | the loop over one reused, growing backing array makes exactly the flush calls, with the contents, of the pure worker on the same signals; it flushes what it received, in order, keeps less than a full batch, and flushes less than one at most once per tick and end of channel |
| `WorkerPool.PoolFlushesFullBatches` | internal/worker/worker.go:113-134 | so does each worker in any run of the whole pool: a flush that answers neither a tick nor the end is of a full batch |
| `WorkerPool.PoolRunsTheLoop` | internal/worker/worker.go:106-135 | inside any run of the whole pool each worker is, up to a flush in progress, that loop on the signals it received |
| `WorkerPool.WorkerRefinesLoop` | internal/worker/worker.go:63-66 | the same from the pool's start |
| `Ewma.RestartInRun` | internal/ingest/flush.go:352-377 | in any run of calls, event i of call n starts a new average exactly when its key was never seen or its last event is over an hour before that call |
| `Ewma.SweepUnobservable` | internal/ingest/flush.go:345-394 | over any sequence of calls with a nondecreasing clock every reported average is the one the whole event list defines |
| `Ewma.CallReports` | internal/ingest/flush.go:345-394 | one more call reports, event by event, what the whole list defines |
| `Ewma.ClosedForm` | internal/ingest/flush.go:45-63 | an average is 0.8^n x0 plus the sum of 0.2 * 0.8^(n-i) xi, for each of the five metrics |
| `Ewma.AverageBetweenExtremes` | internal/ingest/flush.go:45-63 | it lies between two of its own values |
| `Ewma.Contraction` | internal/ingest/flush.go:45-52 | two averages fed the same n values differ by exactly 0.8^n of their initial difference |
| `Ewma.KeysAreIndependent` | internal/ingest/flush.go:343-377 | dropping all events of other keys changes no average |
| `Ewma.SplittingABatch` | internal/ingest/flush.go:345-394 | one call or two give the same rows and table when no key is idle at the second, and when no idle key returns, only then |
| `Averages.DueIsVal` | internal/ingest/flush.go:336-377 | where no source hides behind a bar, the average the composed key leads to is the one owed to the connection and source on the fields alone: of their own values since a break of over 3600 seconds |
| `Averages.NoBars` | internal/ingest/flush.go:336-368 | sources without a bar, such as browser and server, never hide behind one |
| `Averages.SameOwnSameAverage` | internal/ingest/flush.go:336-339 | two histories with the same samples of a connection and source owe their next sample the same average |
| `Averages.FirstIsOwn` | internal/ingest/flush.go:370-374 | the first sample of a connection and source is its own average, whatever was smoothed before |
| `Hierarchy.LookupsHit` | internal/ingest/flush.go:209-332 | for every payload each id threaded to the next level belongs to a row, never Go's zero default |
| `Hierarchy.CommittedKeepsDbOk` | internal/ingest/flush.go:106-160 | a committed flush keeps unique keys unique, foreign keys pointing at rows, and every old row as it was |
| `Hierarchy.ExistsExactlyWhen` | internal/ingest/flush.go:165-332 | after a commit a conference, session or connection exists exactly when it did before or some payload names it, the conference under the number its app id parses to |
| `Hierarchy.ParticipantExactlyWhen` | internal/ingest/flush.go:209-248 | a participant exists exactly when it did before or a payload of that user names the conference |
| `Hierarchy.ChosenIsLastNew` | internal/ingest/flush.go:169-203 | a conference id stands for the app of the last payload to bring it with an app new to it |
| `Hierarchy.NewConnectionStarts` | internal/ingest/flush.go:290-325 | a connection that is created starts at the earliest event the batch has for it, or at the epoch when it has none |
| `Hierarchy.OwnAppExactlyWhen` | internal/ingest/flush.go:169-223 | every payload's participant lands under the payload's own app exactly when no conference id of the batch occurs with two apps |
| `Hierarchy.EveryBatchCommits` | internal/ingest/flush.go:106-160 | every batch whose app ids parse can be committed to every database in order |
| `Hierarchy.TwoAppsMisfile` | internal/ingest/flush.go:203-221 | to every database, a batch with one conference id for two apps commits and files some participant under the wrong app |
| `Hierarchy.TwoAppsOneRoom` | internal/ingest/flush.go:169-203 | such a batch |
| `Hierarchy.RowsAreForever` | internal/ingest/flush.go:92-335 | over any run of commits and rollbacks unique keys and foreign keys stay in order and no row is lost or altered: a session's participant and a connection's session never change |
| `Hierarchy.ReplayCreatesNothing` | internal/ingest/flush.go:165-335 | committing a batch again, at any later time, creates no row in any of the four tables |
| `Hierarchy.ReplayInRun` | internal/ingest/flush.go:165-335 | the same after any run of flushes in between |
| `Hierarchy.Earliest` | internal/ingest/flush.go:295-302 | the least of the times, none for no times |
| `Flusher.UpsertRow` | internal/ingest/flush.go:183-195 | the insert-or-select statement gives the row with the key and adds at most that row |
| `Flusher.UpsertConferences` | internal/ingest/flush.go:165-206 | fails exactly when some payload's app id does not parse; otherwise inserts exactly the missing (app, conference) pairs and maps each external id to the conference of the last app that brings the id for the first time |
| `Flusher.UpsertParticipants` | internal/ingest/flush.go:209-248 | inserts exactly the missing (conference, user) pairs and names every payload's row |
| `Flusher.UpsertSessions` | internal/ingest/flush.go:251-286 | inserts exactly the missing sessions, each under the participant of its first payload |
| `Flusher.ComputeMinTs` | internal/ingest/flush.go:295-302 | the least event time per connection over the whole batch, absent for connections without events |
| `Flusher.UpsertConnections` | internal/ingest/flush.go:290-335 | inserts exactly the missing connections, under the session of their first payload, started at their least event time |
| `Flusher.UpsertAll` | internal/ingest/flush.go:106-134 | the four upserts together are one committed step, or fail on a bad app id or a database error |
| `Flusher.Flusher.SweepStale` | internal/ingest/flush.go:352-358 | deletes exactly the keys last seen over an hour before |
| `Flusher.Flusher.BuildStatRows` | internal/ingest/flush.go:345-394 | one row per snapshot in order, with the average the whole history of calls defines for its key, and, unless a source hides behind a bar, the one its connection and source are owed by their own snapshots alone; the state follows |
| `Flusher.SameKeyExactlyWhen` | internal/ingest/flush.go:362-368 | for sources without a bar two snapshots of a call feed one average exactly when their payloads have the same connection id and the same source, an empty one being the browser |
| `Flusher.Flusher.FlushTx` | internal/ingest/flush.go:106-160 | reports success exactly when the ids parse and no call fails; the batch is stored exactly then or when only the answer of the commit was lost; stored means committed entities and one row for each snapshot, in order, under its connection, with its own columns and the average it is owed; otherwise all rows stay as they were; averages stay updated when the copy or the commit fails |
| `Flusher.Flusher.Flush` | internal/ingest/flush.go:92-104 | in addition, a nonempty batch goes whole to the dead letters exactly when success is not reported, so every batch is stored or dead-lettered, and both exactly when it parses and only the commit's answer was lost; the cache is refreshed exactly on success |
| `Flusher.FlushIsStep` | internal/ingest/flush.go:92-160 | what a flush leaves of the entity tables is a commit or a rollback step of the runs of flushes |
| `Flusher.ReplayFilesTwice` | internal/ingest/flush.go:92-160 | flushing a batch again, whatever ran between, files each of its snapshots once more under the same connection, differing in the averages at most |
| `Ownership.DecidedBefore` | internal/ingest/flush.go:251-332 | after a commit, whom a session belongs to and which session a connection hangs on is what the earlier tables say, and for new ids the first payload of the batch that uses them |
| `Ownership.LeadsExactlyWhen` | internal/ingest/flush.go:209-332 | a payload's connection leads through session and participant to its own user, conference and app exactly when its session and connection ids are its own by that rule |
| `Ownership.AllLeadExactlyWhen` | internal/ingest/flush.go:165-332 | all payloads of a batch do exactly when the batch uses each session for one owner and each connection for one session, no earlier row gives these ids to others, and the conference ids of new sessions stand for their own apps |
| `Ownership.NewSessionsResolve` | internal/ingest/flush.go:169-206 | for a batch of new sessions the last condition says that no conference id occurs with two apps |
| `Ownership.FiledRowLeadsExactlyWhen` | internal/ingest/flush.go:361-391 | each statistics row a flush files leads to its payload's own session, user, conference and app under exactly the condition of its payload |
| `Ownership.TakenSession` | internal/ingest/flush.go:265-277 | rows sent under a session that belongs to another owner lead to that owner, who keeps the session |
| `Ownership.BobAsAnn` | internal/ingest/flush.go:265-277 | two commits after which one user's rows lead to another user |
| `Cache.Aggregate` | internal/ingest/cache.go:30-50 | per key exactly the distinct users and the latest event time, never below zero |
| `Cache.ActiveConferences.UpdateCache` | internal/ingest/cache.go:30-67 | every key of the batch the pipeline reached gets that hash; all other hashes stay |
| `Cache.RefreshedHash` | internal/ingest/cache.go:19-67 | with Redis configured and up, each payload's hash counts the distinct users of its (app id, conference) and has its latest event; without Redis nothing changes |
| `Cache.CountsConferenceExactlyWhen` | internal/ingest/cache.go:36-43 | a hash counts nobody else, and all users of its app's conference exactly when no other spelling of the app id brings it a further user |
| `Cache.CanonicalIdsCount` | internal/ingest/cache.go:36-43 | with app ids as decimal formatting writes them every hash counts its whole conference |
| `Cache.TwoSpellings` | internal/ingest/cache.go:38-43 | "5" and "+5" split one conference over two hashes |
| `Cache.OrderIrrelevant` | internal/ingest/cache.go:36-50 | the hash depends only on which payloads the batch holds |
| `Keys.ParseFormat` | internal/ingest/flush.go:422-424 | decimal formatting parses back to the same integer |
| `Keys.ParsesExactlyWhen` | internal/ingest/flush.go:173-176 | exactly the int64 numbers parse, from decimal digits with an optional sign and any number of leading zeros |
| `Keys.ParticipantKeyInjective` | internal/ingest/flush.go:422-424 | keys are equal exactly for equal conference and user, whatever the user id contains |
| `Keys.EwmaKeyInjective` | internal/ingest/flush.go:368-368 | for sources without a bar, keys are equal exactly for equal connection and source |
| `Keys.EwmaKeyCollidesExactlyWhen` | internal/ingest/flush.go:362-368 | two sources can collide exactly when one ends with a bar followed by the other |
| `Keys.CacheKeyInjective` | internal/ingest/cache.go:38-38 | for app ids that parse, cache keys are equal exactly for equal app and conference |
| `Keys.CanonicalExactlyWhen` | internal/auth/apikey.go:109-117 | the canonical request fixes timestamp and digest, and verb and path up to the newline between them |
| `Keys.CanonicalInjective` | internal/auth/apikey.go:109-117 | with verbs free of newlines it determines the request, newlines in paths or not |
| `ConferenceTree.OrderedKeepsTogether` | services/query-api/handler/conference_detail.go:153-161 | the ORDER BY makes the rows of a session consecutive within a participant |
| `ConferenceTree.Append` | services/query-api/handler/conference_detail.go:208-228 | append adds the element and disturbs no other block, in place or moved |
| `ConferenceTree.Assembler.AddSession` | services/query-api/handler/conference_detail.go:196-215 | shows one more session for its participant, leaves the others, and the saved pointer reaches the live element |
| `ConferenceTree.Assembler.AddConnection` | services/query-api/handler/conference_detail.go:218-228 | the write through the saved pointer shows in the participant's last session and nowhere else |
| `ConferenceTree.Assembler.ReadRows` | services/query-api/handler/conference_detail.go:171-230 | after all rows memory shows every participant's group-by |
| `ConferenceTree.Assemble` | services/query-api/handler/conference_detail.go:123-242 | whatever append does, the response is the nested group-by in participant order: entry i is person i, with each session of that person once, and for the rows of a LEFT JOIN flattening it gives back exactly the rows that carry the person's id, in order and as often as they occur |
| `ConferenceTree.EveryRowOnce` | services/query-api/handler/conference_detail.go:171-242 | every row shows under the participant whose id it carries and under nobody else |
| `ConferenceTree.StaleWriteLost` | services/query-api/handler/conference_detail.go:209-214 | a write through a pointer into an abandoned array shows in no response |
| `ConferenceTree.MovedSessionsGoStale` | services/query-api/handler/conference_detail.go:208-214 | an append that moves a participant's sessions leaves the earlier pointers in an array no participant uses |
| `TreeOrder.TogetherShowsTree` | services/query-api/handler/conference_detail.go:153-232 | under every behaviour of append, rows whose sessions stand together are shown as their group-by |
| `TreeOrder.MovingRun` | services/query-api/handler/conference_detail.go:196-228 | an append that always moves shows exactly the connections written while their session was its participant's last |
| `TreeOrder.TreeExactlyWhen` | services/query-api/handler/conference_detail.go:153-232 | for the rows of a LEFT JOIN, the tree is right whatever append does exactly when each session's rows stand together within its participant |
| `ConferenceTree.FlattenInvertsGroupBy` | services/query-api/handler/conference_detail.go:171-242 | flattening a participant's tree gives back that participant's rows in order |
| `ConferenceTree.GetConference` | services/query-api/handler/conference_detail.go:65-245 | not found, forbidden or the conference's own columns with its tree, each exactly when due |
| `ConferenceTree.FetchConferenceDetail` | services/query-api/handler/share.go:344-467 | the second copy answers the same detail, and nothing where the first says not found or forbidden |
| `Rules.Evaluate` | internal/emos/rules.go:32-86 | for every threshold and min_samples, one observation for each cold sample, and the end of input, that ends a long enough streak, in order, with first and last timestamp, length and average; a panic exactly when one of them indexes before the first sample or divides by a length that wraps to zero |
| `Rules.PanicsExactlyWhen` | internal/emos/rules.go:48-83 | with fewer than 2^32 samples a rule panics exactly when min_samples is below one and there is no hot first sample |
| `Rules.ExactlyWhenNoEmptyStreak` | internal/emos/rules.go:42-83 | the observations are exactly the maximal runs above the threshold of at least min_samples samples exactly when no empty streak can pass the length test |
| `Rules.EvaluateSpikes` | internal/emos/rules.go:89-191 | the loss spike, RTT spike and bitrate rules report one spike for each sample that fires them, in order |
| `Rules.SpikeColumns` | internal/emos/rules.go:89-191 | a loss spike is each sample whose loss is above the threshold, at its own time; an RTT spike and a bitrate collapse lie between a sample and the one before it, on the RTT and on the outbound bitrate |
| `Rules.RttSpikeExactlyWhen` | internal/emos/rules.go:172-173 | the int32 increase passes the threshold as the true increase does exactly when it fits in an int32 or its wrapped value falls on the same side |
| `Rules.CollapseExactlyWhen` | internal/emos/rules.go:360-362 | the bitrate rule fires exactly when a positive bitrate is followed by less than its share 1 - ratio |
| `Rules.EvaluateConfigured` | internal/emos/rules.go:112-114 | the same with configured thresholds, fallbacks and truncation |
| `Rules.ReportedExactlyWhen` | internal/emos/rules.go:32-86 | with min_samples at least one, the observations tell of disjoint runs in order, with their times, lengths and averages, and a sample is in one exactly when it stands among min_samples in a row whose packet loss, RTT, jitter or concealment, as the rule has it, is above the threshold |
| `Rules.OwnColumn` | internal/emos/rules.go:43-43 | a rule looks at no other column: samples that agree in time and in its own column give the same result |
| `Rules.SettingsCount` | internal/emos/rules.go:7-14 | a configured number takes effect, truncated where the rule converts it; anything else that is configured does not |
| `Rules.AverageMillis` | internal/emos/rules.go:402-422 | the int32 loop computes the wrapped true sum divided toward zero |
| `Rules.AverageRatio` | internal/emos/rules.go:391-400 | the float loop computes the mean of the rule's column |
| `Rules.SumsAdd` | internal/emos/rules.go:391-433 | the sums behind the averages add up, and that of one sample is its own loss, RTT, jitter or concealment |
| `Rules.MillisAverageExactlyWhen` | internal/emos/rules.go:402-422 | the int32 average is the truncated quotient of the true sum exactly when that sum fits in an int32 |
| `Rules.AverageAboveExactlyWhen` | internal/emos/rules.go:391-433 | a reported average exceeds the threshold always for ratios, and for milliseconds exactly when the wrapped sum has not dropped below what the threshold demands |
| `Rules.AverageAboveThreshold` | internal/emos/rules.go:44-62 | it does whenever the sum fits in an int32 |
| `Rules.OverflowingAverage` | internal/emos/rules.go:402-411 | two samples of 2^30 ms average to -2^30 |
| `Rules.ExactRunsUnique` | internal/emos/rules.go:43-86 | there is only one list of maximal runs |
| `Rules.ObservedUnique` | internal/emos/rules.go:43-86 | the observations are determined by samples, threshold and min_samples |
| `Rules.RaisingMinSamples` | internal/emos/rules.go:194-246 | raising min_samples leaves a sublist of the same observations |
| `Rules.RaisingThreshold` | internal/emos/rules.go:298-352 | raising the threshold leaves every observation within one reported before that counts at least as many samples, and within exactly one when timestamps differ |
| `Rules.EvaluateVideoFreezeRepeated` | internal/emos/rules.go:249-295 | exactly the maximal strictly rising stretches of at least two rises, from first to last sample, with the sum of the rises, which is at least their number |
| `Rules.FreezesExactlyWhen` | internal/emos/rules.go:249-295 | a rise of the freeze counter is in a reported stretch exactly when it stands among two or more in a row, and the count is the counter's growth |
| `Observations.Engine.InsertNew` | internal/emos/observations.go:113-124 | the insertion loop with failures skipped is the pure insertion of the survivors |
| `Observations.SurvivingExactly` | internal/emos/observations.go:114-124 | what is inserted are the observations whose insertion does not fail, all of them and in order |
| `Observations.StoredIsFound` | internal/emos/observations.go:249-295 | whatever is stored is an observation with both times cut to whole seconds, and every observation is there, cut or as it was before |
| `Observations.RerunAdds` | internal/emos/observations.go:249-295 | evaluating again adds exactly one row per observation not on whole seconds |
| `Observations.IdempotentExactlyWhen` | internal/emos/observations.go:249-295 | inserting again changes nothing exactly when all observations start and end on whole seconds |
| `Observations.Engine.EvaluateConnection` | internal/emos/observations.go:74-127 | all nine rules, with any settings: the table gains, in order, what they report and the duplicate check lets through; it stays as it is without statistics, on a failing query of them or of the settings, and on a panic, each exactly when due; failing ICE queries and insertions are skipped |
| `Observations.EveryFindingTold` | internal/emos/observations.go:95-111 | each rule's findings stand among the entries once, under the rule's own name, in order and with their own times, and nothing else does |
| `Observations.FallbacksAreDefaults` | internal/emos/observations.go:57-70 | the engine's defaults and the fallbacks written into the rules are the same: laying an app's settings over the defaults changes no threshold of any rule |
| `Observations.SensibleIsExact` | internal/emos/rules.go:18-28 | with min_samples of at least one in every sustained rule none panics and each reports exactly its maximal runs |
| `Observations.EvaluationsGrow` | internal/emos/observations.go:249-295 | n evaluations that find the same leave n - 1 more copies of every observation not on whole seconds |
| `Observations.ReevaluationExactlyWhen` | internal/emos/observations.go:74-127 | evaluating the same statistics and ICE failures again finds the same and changes nothing exactly when every reported stretch starts and ends on whole seconds |
| `RateLimit.RateLimiter.RunScript` | internal/ratelimit/ratelimit.go:32-45 | prune, count, add and expire, command by command, give the specified decision and keys |
| `RateLimit.GrantIsRecorded` | internal/ratelimit/ratelimit.go:42-43 | a grant is recorded under the whole second of its time, and its key expires a window after it |
| `RateLimit.RateLimiter.Allow` | internal/ratelimit/ratelimit.go:80-95 | fails open on a Redis error, whether or not the script ran; otherwise answers as the whole history of calls demands |
| `RateLimit.KeptIsWindow` | internal/ratelimit/ratelimit.go:39-40 | what the pruned set holds is exactly the window of the full history |
| `RateLimit.GrantedExactlyWhen` | internal/ratelimit/ratelimit.go:32-45 | over any run a request is granted exactly when the full history has fewer than max members in (now - window, now]; pruning, EXPIRE and dropped keys change no decision |
| `RateLimit.GrantedByCount` | internal/ratelimit/ratelimit.go:32-45 | with a fresh member per call, the same for the number of grants |
| `RateLimit.SpanBound` | internal/ratelimit/ratelimit.go:39-45 | any window of whole clock seconds has at most max granted members |
| `RateLimit.AtMostMaxGrants` | internal/ratelimit/ratelimit.go:70-75 | with a fresh member per call, at most max grants in any window of whole clock seconds |
| `RateLimit.ElapsedExactlyWhen` | internal/ratelimit/ratelimit.go:39-75 | over elapsed time, for max and window at least one and members cut from the clock reading: no run grants more than max in any span of a given length exactly when the length is at most (window - 1) seconds and one nanosecond, or at most max nanoseconds |
| `RateLimit.AtMostTwiceMax` | internal/ratelimit/ratelimit.go:39-45 | any span of window seconds holds at most 2 * max grants |
| `RateLimit.TwiceMaxReached` | internal/ratelimit/ratelimit.go:39-75 | and with the default clock, for max up to 10^9, 2 * max is reached, at consecutive nanoseconds around the seconds: in (window - 1) seconds and 2 * max nanoseconds |
| `RateLimit.TwoInTwoNanoseconds` | internal/ratelimit/ratelimit.go:72-75 | a limit of one request a second grants requests in two consecutive nanoseconds |
| `RateLimit.SameMemberTwice` | internal/ratelimit/ratelimit.go:20-22 | without distinct members three requests pass a limit of two |
| `Emos.CubicDips` | internal/emos/compute.go:51-51 | the polynomial alone is not monotone |
| `Emos.FloorExactlyWhen` | internal/emos/compute.go:43-54 | the score is one exactly up to the polynomial's root |
| `Emos.MosMonotone` | internal/emos/compute.go:42-57 | after clamping, a higher rating never scores lower |
| `Emos.MosBounds` | internal/emos/compute.go:42-57 | the score is in [1, 4.5], the clamp at five is unreachable, and 4.5 takes a rating clamped to 100 |
| `Emos.ScoreRange` | internal/emos/compute.go:17-69 | with a coefficient that is not negative the rating is at most 93.2 and the score in [1, 4.5) |
| `Emos.ClassExactlyWhen` | internal/emos/compute.go:42-66 | the class is a success exactly from a score of 3.5 and failed exactly below 2.0, and the score is that of 93.2 less both impairments |
| `Emos.MosIsCubic` | internal/emos/compute.go:42-57 | between its clamps the score is the polynomial |
| `Emos.MonotoneInRtt` | internal/emos/compute.go:31-40 | more delay gives no better score or class, for every loss and coefficient |
| `Emos.MonotoneInCoeff` | internal/emos/compute.go:20-29 | nor does a larger coefficient |
| `Emos.LossNeverHelpsExactlyWhen` | internal/emos/compute.go:20-29 | more loss never helps exactly for coefficients that are not negative |
| `Emos.WorseNeverBetter` | internal/emos/compute.go:17-69 | all three together: worse inputs give no better score or class |
| `Emos.ImpairmentsAreRamps` | internal/emos/compute.go:18-40 | the case analyses join without a jump: each impairment is a sum of two ramps |
| `Emos.ReferencePoints` | internal/emos/compute_test.go:8-80 | the calibration points: 4.4 without loss, 2.2 at 10 percent and 100 ms, one and failed at 15 percent |
| `Closing.InvStep` | internal/stale/job.go:100-157 | every scan, update, trigger, lookup and creation step keeps the invariant, unique (app, external id) pairs included |
| `Closing.WrittenAtMostOnce` | internal/stale/job.go:131-137 | over any interleaving each conference is written at most once, and ended_at is that write |
| `Closing.ClosedNow` | internal/stale/job.go:131-137 | a conference is closed by an UPDATE that ran, and ended_at is the time of that UPDATE |
| `Closing.NeverAltered` | services/ingest-api/handler/end_conference.go:91-99 | once set, ended_at is never altered, whatever runs next |
| `Closing.OneTriggerPerConference` | internal/stale/job.go:145-156 | all scans together trigger a conference at most once, and exactly those they closed and heard of closing, but for triggers just about to fire |
| `Closing.LostAnswerNeverTriggers` | internal/stale/job.go:134-148 | a conference whose update lost its answer stays closed and is never triggered by the stale job |
| `Closing.ListedAreClosed` | internal/stale/job.go:131-157 | when a scan returns without error everything it listed is closed |
| `Closing.Service.RunOnce` | internal/stale/job.go:87-160 | the program, with others running between its statements, returns without error exactly when every update ran and answered, and then all it listed is closed |
| `Closing.Service.EndConference` | services/ingest-api/handler/end_conference.go:60-125 | the status is 404, 403, 500 or 202 exactly when due; 202 means closed and triggered |
| `Closing.ReachesOwnExactlyWhen` | services/ingest-api/handler/end_conference.go:70-89 | in every reachable state a call by the conference's own app finds it, whatever row LIMIT 1 picks, exactly when no other app has a conference with that external id |
| `Closing.OwnerRefused` | services/ingest-api/handler/end_conference.go:70-89 | a run in which the owner is refused |
| `Retention.Database.DeleteBatch` | internal/retention/job.go:243-256 | deletes any matching rows, as many as LIMIT allows, and no others |
| `Retention.Database.DeleteOldEvents` | internal/retention/job.go:238-270 | whatever LIMIT picks, only events of connections of the app from before the cutoff go; without an error all of them are gone, in ceil(n / 10000) batches of the n counted; after an error exactly the batches before it are gone, and one more, uncounted, when the failing DELETE ran and only its answer was lost |
| `Retention.Database.DropOldPartitions` | internal/retention/job.go:161-233 | drops exactly the attached tables of earlier months that are heard to detach; one whose DETACH ran unheard stays behind detached; a failing DROP ends the pass with its table detached, or gone when only the answer was lost |
| `Retention.GoneMayDrop` | internal/retention/job.go:181-230 | what a pass drops is attached, of an earlier month, and its DETACH answered and its DROP ran; without an error all such tables are gone |
| `Retention.MinRetentionDays` | internal/retention/job.go:118-123 | the least retention of the apps |
| `Retention.Database.RunOnce` | internal/retention/job.go:87-156 | apps without a retention are passed over; fails exactly when a DROP or a deletion it comes to fails; unless a DROP fails, the tables are exactly those DropOldPartitions leaves for the shortest retention's cutoff month; whatever fails, only events older than the days of the app that owns their connection go, and without error all of those; a detached table is never dropped |
| `Retention.RetainedIsNotOverdue` | internal/retention/job.go:127-152 | so an event its app retains stays, for ever when the app has no retention |
| `Retention.UnlinkedStay` | internal/retention/job.go:243-253 | and so does an event of no connection |
| `Retention.KeepsRetainedExactlyWhen` | internal/retention/job.go:115-125 | dropping before a cutoff's month spares all an app retains exactly when the app's own cutoff is in no earlier month; for an app without a retention, when there is no earlier month |
| `Retention.PassIsSafeExactlyWhen` | internal/retention/job.go:93-125 | what a pass leaves of the tables holds, whatever was in them, every row its apps retain, those it passes over included, exactly when no app has a retention, or all cutoffs fall in one month and all apps have one or no month is earlier |
| `Retention.LongerRetentionLosesRows` | internal/retention/job.go:115-125 | 90 days beside 7 days lose rows |
| `Retention.SkippedAppLosesRows` | internal/retention/job.go:93-125 | so does an app without a retention beside one of 7 days, with a single cutoff month |
| `Retention.NextRunIsFirst` | internal/retention/job.go:322-329 | the next run is the first time strictly later at that time of day |

## Left out

- PostgreSQL isolation anomalies, pgx, Redis and its pipelining beyond "some keys were reached": a statement, transaction or script is one atomic step.
- IEEE rounding, the float32 and int32 narrowing of stored columns, and the int64 overflow of millisecond timestamps times 10^6.
- `Rules.ThresholdOf`: a configured threshold outside the int32 range is taken as it is; Go leaves that conversion to the implementation.
- `Rules.EvaluateVideoFreezeRepeated`: counters are unbounded integers; loadConnectionStats never fills VideoFreezeCount, so in production the rule sees zeros.
- Severities, message texts and contexts of observations beyond the averages, counts and samples they are made from.
- Partition names and cron expressions are taken as parsed; the calendar is any nondecreasing month numbering.
- The FlushIntervalMs ticker fires at any time; configurations that panic inside make or NewTicker are not modelled.
- Statistics inserted or conferences and apps deleted while a retention pass runs.
- Dead-letter files: a failed batch is recorded whole; writing the file is not modelled.
- `Observations.Engine.EvaluateConnection`: nobody else writes observations while it runs.
- `Rules.RttSpikeExactlyWhen`: as for the other thresholds, an RTT delta outside the int32 range is not covered.
- `Flusher.Flusher.Flush`: the fault of a flush is a count of database calls that succeed and whether a failing commit took effect, not a fault inside one upsert loop; its rows are rolled back either way.
- `ConferenceTree.Assemble`: takes what the queries promise (rows session by session, of listed participants, distinct participant ids); scan errors only end the request.
- HTTP routing, authentication, HMAC verification, sessions, share-token permissions, analytics, health and their caches, migrations, configuration and process lifecycle.
- In `Closing`, a failing scan query, a failing lookup and an unresolved caller: they return before any row is touched.
- The rate limiter's middleware (an empty key skips the check) and clocks that differ between the service and Redis.
