# LakeFlow in Dafny

LakeFlow moves PostgreSQL changes through Debezium and Kafka into an Iceberg lakehouse. A Spark job takes Kafka
records in micro-batches and writes, in this order, one silver table per source table (current rows, tombstones
included), bronze (one row per change event), the dead-letter table and a batch record. This project models that sink
as a crash-recoverable protocol, the reference semantics it must follow, the data contracts that decide which records
are valid, the dead-letter register with its replays, and four smaller structures (tracer, lineage, rate limiter, event
identity), and proves what the design promises of each.

`dafny verify dfyconfig.toml` checks everything.

## How the model is laid out

| Module | Models |
|---|---|
| `Basics`, `Texts`, `Events` | optional values; text order and printed numbers; change events, Kafka order, first occurrences and the source history |
| `Semantics` | `plan_batch` and `apply_plan`, loop by loop |
| `SinkPlan`, `SinkBatch` | the relational plan of one batch, the MERGE and append effects, the ordered list of writes, the lakehouse invariant |
| `SinkRecovery`, `SinkSafety` | a batch in flight: any mixture of done, repeated and missing writes |
| `SinkRun`, `SinkInvariant` | the job as a state machine (offer, begin, write, ambiguous commit, crash, commit, checkpoint wipe, lost epoch file) and its invariant over every run |
| `SinkProgress`, `SinkConvergence`, `SinkAccounting` | no run gets stuck; what runs converge to; conservation of rows; the watermark over runs |
| `SinkAgreement`, `SinkRefinement` | the relational plan against the reference semantics, at every moment of every run |
| `SinkLabels`, `SinkRecords`, `SinkValues` | what runs write: the labels of bronze rows, the counters of batch records, the values of silver rows |
| `SinkColumns` | the silver join and MERGE as written, on the stored first key column, against the ones on the key text |
| `SinkWrites` | the dead-letter table and the attempt counters, read off the writes that committed |
| `SinkProcess` | `process_batch`, `_with_retries` and `_watermark_before` as methods of a mutable context |
| `Dlq`, `DlqTable`, `DlqRegister`, `DlqRuns`, `DlqRecords`, `DlqReplay` | the dead-letter MERGE, the table as a list of rows, the last-writer-wins register it implements, the same over runs of the sink, every row in terms of the Kafka records behind it, and the replay endpoint |
| `RawBytes` | UTF-8 and base64 as the dead-letter table stores raw bytes |
| `Decimals`, `Contracts`, `ContractMeaning`, `ContractRegistry` | field and record validation, the compatibility check, what both mean for JSON values, version lists and classification |
| `Tracer`, `Lineage`, `LineageSpec`, `RateLimit`, `Identity` | the bounded event log with its index, breadth-first lineage, the sliding-window limiter, the event id preimage |

A `History` maps every event id to the change it stands for. Its hypotheses are those the design relies on
(docs/adr/0003-delivery-semantics.md:20-27, 61-62): a redelivered event carries the same content and source timestamp
under the same id, and distinct changes of one row carry distinct LSNs. They appear as `DistinctLsns`, `From` and
`Deliverable`. Statements about one batch need less: candidates of one key that differ in LSN or offset
(`DistinctRanks`). Rows are identified by the key text, which is what the decoder makes of the key columns. The sink
joins and merges on the stored first key column instead, so the run theorems speak of tables whose stored key columns
print as their key texts (`SinkColumns.PrintsKeys`): one string or integer key column. `SinkColumns` proves that the
join and the MERGE are then the keyed ones, and what happens otherwise. Both attempts at a batch use one contract
registry, so decoding is fixed per batch. A write that has nothing to do (no applied row for a table, no valid row,
nothing rejected) is modelled as a write that changes nothing.

## What the proofs found

- The sink advances its watermark over all valid rows, `plan_batch` over candidates only. They agree exactly when every
  prior duplicate is covered by the watermark before the batch or by a candidate at least as late
  (`SinkAgreement.WatermarkFormulas`). That always holds inside an epoch that began with an empty bronze table
  (`SinkAccounting.WatermarkFormulasAgreeInEpoch`), but not when the first batch after a checkpoint wipe brings logged
  events back (`SinkAccounting.WatermarkAfterWipe`, `SinkAgreement.WatermarkFormulasDiffer`).
- The baseline join compares the key text with what the stored first key column prints, and the silver MERGE compares
  stored first columns. Where stored keys print as their key texts, both are the keyed ones
  (`SinkColumns.PrintedKeyJoin`, `SinkColumns.PrintedKeyMerge`). For composite keys, and for decimal, date-time, boolean
  or float keys stored in another form, the join misses the row and nothing is ever stale
  (`SinkColumns.CompositeBaselineIsLost`, `SinkColumns.RescaledKeyLosesBaseline`). The MERGE can then overwrite another
  key's row or fail at every attempt (`SinkColumns.MergeIsKeyed` is the exact condition,
  `SinkColumns.SharedFirstColumnLosesRow` and `SinkColumns.OneValueTwoTexts` are instances).
- "The DLQ holds one row per rejected record" holds as at most one. A record has a row exactly when its rejection was,
  in some MERGE, the newest row of the record (`DlqRuns.TableOfEveryRun`, `DlqRegister.RowExists`); a record whose
  rejected replay arrives in the same first batch has none (`DlqTable.RejectedTwiceHasNoRow`).
- docs/adr/0003-delivery-semantics.md:39-40 says `attempts` counts replays. It counts commits of the batch record
  (`SinkWrites.AttemptsCountRecordWrites`): an attempt killed before that write is not counted
  (`SinkWrites.KilledAttemptIsNotCounted`), and one whose record write is retried after it committed counts twice
  (`SinkWrites.AmbiguousRecordCountsTwice`).
- Within one DLQ MERGE the newest row of a record wins, replay or not. A redelivered original with a higher position
  than the replays beside it hides them, and an open record stays open (`DlqRegister.OriginalMasksReplay`). Over every
  run the row is the last-writer-wins register of its replays exactly when nothing newer was replayed or a replay at the
  greatest position wins its batch (`DlqRegister.RegisterOverRuns`, `DlqRuns.RegisterAfterEveryRun`).
- docs/adr/0004-schema-compatibility.md:16-17 says each version accepts every record valid under earlier ones. The code
  gives this only for records that fit the newly declared fields they already carried as drift
  (`Contracts.CompatibilityIsSound` is the exact condition, `Contracts.DriftBreaksCompatibility` an instance).
- Plain `BACKWARD` lets a field be dropped and re-added with another type; a record is then classified under a version
  although the current one rejects it (`ContractRegistry.DroppedAndReadded`). The two modes differ on exactly the lists
  where a field comes back incompatible with a version that had it (`ContractRegistry.ModesAgree`).
- Compatibility is stricter than accepting the same values: a larger decimal scale that keeps the integer places and a
  minimum length of zero are reported as narrowings although no value is lost (`ContractMeaning.DecimalsNarrowed`,
  `ContractMeaning.LengthsNarrowed`).
- The decimal check does not count the zeros of a positive exponent ("1E+5" passes for decimal(5,2)) and rejects "0"
  for decimal(p,p) (`Decimals.DecimalExact`, `Decimals.DecimalEdges`).
- UTF-8 text that itself begins with `base64:` is the one family of bytes a replay does not restore
  (`RawBytes.ReplaySendsTheRejectedBytes`).
- Every time a keyed record reaches the tracer while its event is in the log, one index entry too many is left that no
  eviction removes (`Tracer.ExcessCountsRedeliveries`, `Tracer.StaleEntrySurvivesEviction`). The index agrees with the
  log exactly as long as that never happened (`Tracer.IndexAgreesExactly`).
- The zero-padded replay position orders replays as long as the topic has at most 100000 partitions, and no longer
  (`Texts.PositionOrderBound`).
- The values a tombstone remembers depend on batching (`Semantics.TombstoneValuesDependOnBatching`), so convergence of
  values is stated for live rows.
- A key text determines its column values exactly when the key has one column or no value contains `|`
  (`Identity.KeyTextDetermines`, `Identity.JoinKeyCollides`); the event id itself stays uniquely decodable.
- A rate limit below one makes every call raise, because the refusal looks at the head of an empty deque
  (`RateLimit.RateLimiter.Allow`).

## Model

| member | source | states |
|---|---|---|
| SinkInvariant.CrashFreeRefinement | docs/adr/0003-delivery-semantics.md:12-15 | in every run, with kills at any write boundary, conflicts after a commit and wipes, whenever no batch is pending silver, bronze with its labels and the DLQ equal the crash-free run of the epoch's batches, and the batch records do but for `attempts` |
| SinkInvariant.EveryAttemptPlansTheSame | docs/adr/0003-delivery-semantics.md:41-42 | every attempt at a batch, after any number of killed ones, carries the plan of the first: labels stay the same on replay |
| SinkInvariant.SilverDominatesBronze | spark/lakeflow_stream/sink.py:485-520 | at every write boundary of every run, wipes included: one bronze row per event, silver rows are what their event says, and no bronze event has a higher LSN than the silver row of its key |
| SinkInvariant.StepOnlyRaises | docs/adr/0003-delivery-semantics.md:34-35 | no action replaces a silver row or tombstone except by a strictly higher LSN, and none removes a bronze row |
| SinkValues.RunRewrites | spark/lakeflow_stream/sink.py:287-314 | in every reachable state an action leaves a silver row alone or replaces it by the row of a newer change of its key: a live row has the after image, a tombstone the values of the row it replaced or, without one, its own before image, and `_prev_source_lsn` is the LSN that was replaced |
| SinkValues.TombstoneKeepsValues | spark/lakeflow_stream/sink.py:303-312 | through any number of further deletes, retries, crashes and wipes a deleted row holds the values of the last live one |
| SinkValues.ValuesAreImages | libs/lakeflow_core/semantics.py:121-134 | in every state of every run each silver row, tombstones included, holds the image of a change of its key no newer than itself |
| SinkInvariant.CacheNeverStale | spark/lakeflow_stream/sink.py:200-208 | in every run the watermark a batch starts from equals the lookup of the latest earlier batch record, cached or not, after empty batches and restarts |
| SinkInvariant.RunKeeps | spark/lakeflow_stream/sink.py:418-591 | every reachable state satisfies the invariant: where the batch stands, what each table holds, which stamps exist, what the cache says |
| SinkInvariant.WipeKeeps | spark/lakeflow_stream/job.py:42-51 | a wiped checkpoint: the lake it leaves behind, half-written batch included, is a sound base for the new epoch that restarts at batch 0 |
| SinkInvariant.LoseEpochKeeps | spark/lakeflow_stream/job.py:47-51 | a lost epoch file beside a surviving query: the new epoch goes on with the pending batch and its number, and what earlier attempts wrote counts as history |
| SinkInvariant.WriteKeepsBatch | spark/lakeflow_stream/sink.py:485-576 | performing the next write, whether or not a conflict is reported afterwards, keeps the batch in flight towards the same end state |
| SinkInvariant.BeginKeeps | spark/lakeflow_stream/sink.py:456-468 | a new attempt started on whatever earlier attempts left is again an attempt at the same plan |
| SinkInvariant.CommitKeeps | docs/adr/0003-delivery-semantics.md:21-22 | committing offsets moves the finished batch into the epoch's history and leaves the tables those of the crash-free run |
| SinkProgress.PendingBatchCanCommit | docs/adr/0003-delivery-semantics.md:21-22 | from every reachable state with a batch pending, however many attempts died, the job left alone reaches the commit of exactly that batch |
| SinkConvergence.ConvergesToLatest | docs/adr/0003-delivery-semantics.md:12-15 | once all delivered events are committed, bronze holds exactly the delivered ids and every silver row is the highest-LSN change of its key |
| SinkConvergence.Confluence | libs/lakeflow_core/semantics.py:67-134 | two schedules of the same events (order, duplication, batching, crashes and wipes) agree on bronze ids and, per key, on LSN, event id, deletion and the values of live rows |
| SinkConvergence.BatchIsLogged | spark/lakeflow_stream/sink.py:513-520 | a finished batch has every one of its events in bronze |
| SinkConvergence.RunTracks | spark/lakeflow_stream/sink.py:485-520 | in every run silver and bronze hold delivered events only, and bronze holds every event of a committed batch |
| SinkConvergence.HistoryOfRun | docs/adr/0003-delivery-semantics.md:12-15 | what the convergence theorems call delivered is exactly the ids of the batches offered, and committed holds the ids of every batch the epoch committed and never loses one |
| SinkRefinement.RunsAgreeWithModel | spark/lakeflow_stream/sink.py:220-262 | at any write boundary of any run, the answer of `plan_batch` about the tables as they are, partly written, says of every event what the running attempt's plan says |
| SinkAgreement.PlansAgree | libs/lakeflow_core/semantics.py:75-114 | when candidates of a key differ in LSN or offset, the windows-and-joins plan and any result of `plan_batch` agree on outcome, late flag, duplicates and in-batch duplicates |
| SinkAgreement.PriorAgrees | spark/lakeflow_stream/sink.py:211-228 | the bronze lookup pruned to [min ts, max ts] with the own-attempt test finds exactly the ids bronze holds from an earlier batch |
| SinkAgreement.BaselineAgrees | spark/lakeflow_stream/sink.py:250-251 | looked up by key text, as the join does under `SinkColumns.PrintedKeyJoin`, the baseline through `_prev_source_lsn` is the model's baseline |
| SinkColumns.JoinIsKeyed | spark/lakeflow_stream/sink.py:242-249 | the join of the key text with the printed first key column finds the event's own row and nothing else if and only if that row, if any, prints as the key text and no other row of the table does |
| SinkColumns.PrintedKeyJoin | spark/lakeflow_stream/sink.py:242-256 | where stored keys print as their key texts, the join yields exactly the baseline looked up by key, and the label of the plan |
| SinkColumns.LostBaseline | spark/lakeflow_stream/sink.py:251-256 | an event whose key text no stored row prints is never stale, however new its row |
| SinkColumns.CompositeBaselineIsLost | spark/lakeflow_stream/sink.py:242-256 | for composite keys without bars in their stored first columns no event finds a baseline, so none is ever stale |
| SinkColumns.RescaledKeyLosesBaseline | spark/lakeflow_stream/sink.py:242-256 | a decimal key spelled 1.5 and stored as 1.50: an event older than its row is applied |
| SinkColumns.MergeIsKeyed | spark/lakeflow_stream/sink.py:303-314 | the MERGE on the first column leaves the table of the MERGE on the whole key if and only if no target row has two source rows and every row sharing its first column with another key's source row is out of its reach |
| SinkColumns.PrintedKeyMerge | spark/lakeflow_stream/sink.py:309-314 | where stored keys print as their key texts the two are the same MERGE, for every table and batch |
| SinkColumns.OneValueTwoTexts | spark/lakeflow_stream/sink.py:233-236 | two key texts of one stored value are two source rows for one target row: the MERGE fails |
| SinkColumns.SharedFirstColumnLosesRow | spark/lakeflow_stream/sink.py:303-310 | with two key columns an update of (a, c) overwrites the row of (a, b) |
| SinkAgreement.AppendsAgree | spark/lakeflow_stream/sink.py:516-518 | the left anti join appends exactly the ids `plan_batch` lists as bronze appends |
| SinkAgreement.SilverStatesAgree | spark/lakeflow_stream/sink.py:287-314 | when candidates of a key differ in LSN or offset, the MERGE statements of a batch, matching by key, leave the silver rows `apply_plan` leaves, whose columns `Semantics.PlanEffect` spells out |
| SinkAgreement.BronzeStatesAgree | spark/lakeflow_stream/sink.py:513-520 | after the append the ids in bronze are its former ids and the model's appends, nothing else |
| SinkLabels.BronzeLabelsAgree | spark/lakeflow_stream/sink.py:318-345 | every row an append adds logs the first occurrence of its event, with the outcome and the late flag any result of `plan_batch` on the same tables gives it, and the batch's stamp |
| SinkLabels.EveryRowIsLabelled | docs/adr/0003-delivery-semantics.md:41-42 | in every state of every run, half-written batches included, every bronze row of the current epoch belongs to one of its batches and carries the outcome and late flag `plan_batch` gives its event on the crash-free tables before that batch |
| SinkAgreement.WatermarkFormulas | spark/lakeflow_stream/sink.py:482 | the sink's watermark over all valid rows equals the model's over candidates if and only if every prior duplicate of the batch is covered by the watermark before it or by a candidate at least as late |
| SinkAgreement.WatermarkFormulasDiffer | spark/lakeflow_stream/sink.py:482 | bronze holds one event from an earlier epoch and the first batch of the next one brings it back: 700000 against 0 |
| SinkAccounting.WatermarkAfterWipe | spark/lakeflow_stream/job.py:47-51 | in every run, when a fresh epoch's first batch holds only logged events, all are prior duplicates, `plan_batch` stays at zero, and the sink differs if and only if one is later than the allowed lateness |
| SinkAccounting.WatermarkFormulasAgreeInEpoch | libs/lakeflow_core/semantics.py:116-118 | in an epoch that began with empty bronze both formulas give the same watermark after every batch |
| SinkAccounting.WatermarkOverRuns | docs/adr/0003-delivery-semantics.md:44-46 | in every run, between batches, the watermark is max(0, max ts - lateness) over all events the epoch committed |
| SinkAccounting.WatermarkIgnoresBatching | docs/adr/0003-delivery-semantics.md:44-46 | two runs whose epochs committed events with the same timestamps agree on the watermark |
| SinkAccounting.CleanWatermark | spark/lakeflow_stream/sink.py:200-208 | the record looked up before batch n holds the fold of the formula over the batches before it, gaps left by empty batches included |
| SinkAccounting.PlanPartition | spark/lakeflow_stream/sink.py:232-256 | per key either every candidate is stale, or exactly one is applied; every other one has a lower LSN, or the same LSN and a lower offset, and is stale or superseded |
| SinkAccounting.Conservation | spark/lakeflow_stream/sink.py:535-555 | in every batch record valid rows = duplicates + applied + superseded + stale, and input rows = valid + rejected + tombstones |
| SinkRecords.RecordCountsRecords | spark/lakeflow_stream/sink.py:535-559 | column by column: input, valid, rejected and tombstone rows are the numbers of such records, the maximum timestamp is that of the latest valid record or absent, and the watermark is the larger of the old one and that maximum minus the lateness |
| SinkRecords.RecordCountsLabels | spark/lakeflow_stream/sink.py:470-481 | against any result of `plan_batch` on the same tables: applied counts the events to apply, superseded and stale the events so labelled, late rows the late events, duplicates the in-batch plus the prior ones |
| SinkRecords.AppliedAreMerged | spark/lakeflow_stream/sink.py:489-494 | applied is the number of source rows of the MERGE statements |
| SinkRecords.BatchRecordsOfEveryRun | docs/adr/0003-delivery-semantics.md:39-40 | in every run, between batches, exactly the committed batches of the epoch that had records have a batch record, and however often it was written all its columns but `attempts` account for the batch as above |
| SinkAccounting.MergedElsewhereIsStale | docs/adr/0003-delivery-semantics.md:65-66 | after a wipe an event already merged or overtaken is never applied again: not yet in bronze, it is logged as stale |
| SinkProcess.SinkContext.constructor | spark/lakeflow_stream/sink.py:418-424 | a fresh driver over existing tables caches nothing |
| SinkProcess.SinkContext.WatermarkBefore | spark/lakeflow_stream/sink.py:200-208 | returns the watermark of the latest earlier record of the epoch, whether it comes from the cache or from the table |
| SinkProcess.SinkContext.ExecuteWrite | spark/lakeflow_stream/sink.py:485-576 | with the writes before k durable, one commit of the k-th write, first or repeated, makes k durable and keeps the batch on its way to the crash-free result; the last one records the watermark |
| SinkProcess.SinkContext.WithRetries | spark/lakeflow_stream/sink.py:121-134 | succeeds if and only if one of five attempts succeeds after conflicts only, which is the one after the retries returned; success makes the write durable, a propagated exception leaves the batch on its way, and the tables show the write performed once for each attempt that committed |
| SinkProcess.SinkContext.ProcessBatch | spark/lakeflow_stream/sink.py:418-591 | started on anything earlier attempts left, it succeeds if and only if the batch is empty or every write succeeds within its retries; success ends in the crash-free result with the cache on this batch, and a propagated failure leaves the batch in flight and the cache alone |
| SinkPlan.PlanIsOnePerKey | spark/lakeflow_stream/sink.py:233-236 | when candidates of a key differ in LSN or offset, the MERGE source holds at most one row per key |
| SinkPlan.CandidateHasWinner | spark/lakeflow_stream/sink.py:233-256 | a candidate that is not stale is never lost: the highest candidate of its key by LSN and offset is applied and outranks all others |
| SinkPlan.Winners | spark/lakeflow_stream/sink.py:489-494 | the MERGE source of a batch is exactly its applied events by key |
| SinkPlan.MergeTable | spark/lakeflow_stream/sink.py:309-314 | matching by key text, as the statement does under `SinkColumns.PrintedKeyMerge`, one MERGE touches only keys of its table that have a source row |
| SinkBatch.BaselinesStable | spark/lakeflow_stream/sink.py:249-251 | one level of `_prev_source_lsn` restores the baseline of every key, whichever of the batch's merges already happened |
| SinkBatch.DupsStable | spark/lakeflow_stream/sink.py:227-228 | rows the batch itself appended never make its events prior duplicates |
| SinkBatch.AppendAgain | spark/lakeflow_stream/sink.py:516-520 | appending the same plan again adds nothing |
| SinkBatch.WatermarkStable | spark/lakeflow_stream/sink.py:203-207 | a batch's own record and all attempt counters are irrelevant to the watermark it reads |
| SinkWrites.AttemptsCountRecordWrites | spark/lakeflow_stream/sink.py:410-415 | in every state of every run a batch record exists if and only if a write of it committed, and `attempts` is the number of those commits |
| SinkWrites.KilledAttemptIsNotCounted | docs/adr/0003-delivery-semantics.md:39-40 | an attempt killed before its record write leaves the counters alone |
| SinkWrites.AmbiguousRecordCountsTwice | spark/lakeflow_stream/sink.py:121-134 | a record write that commits, reports a conflict and is retried counts twice within one attempt |
| SinkRecovery.PlanStable | spark/lakeflow_stream/sink.py:220-262 | from any in-flight mixture of its own writes a batch computes the plan of its first attempt |
| SinkRecovery.WriteKeeps | spark/lakeflow_stream/sink.py:485-576 | each write, first time or repeated, in order, makes progress towards the crash-free result |
| SinkRecovery.RepeatKeeps | spark/lakeflow_stream/sink.py:121-134 | a write repeated after an ambiguous failure undoes nothing that later steps rely on |
| SinkRecovery.MergeKeeps | spark/lakeflow_stream/sink.py:287-314 | a silver merge is harmless on any mixture of old and new rows and completes its table |
| SinkSafety.LookupIsComplete | spark/lakeflow_stream/sink.py:211-217 | pruning the lookup to the batch's time range misses no bronze copy of a batch event |
| SinkSafety.AppendOk | spark/lakeflow_stream/sink.py:516-518 | appending keeps one bronze row per event id, each a true copy |
| SinkSafety.PlannedIsCovered | spark/lakeflow_stream/sink.py:226-255 | every event about to be logged is at or below the silver LSN its key reaches in the merge before it |
| SinkSafety.DoneOk | spark/lakeflow_stream/sink.py:485-576 | a whole batch keeps the lakehouse invariant and only raises silver |
| SinkSafety.InFlightOk | spark/lakeflow_stream/sink.py:485-520 | so does every boundary between its writes, because silver is written before bronze |
| SinkRun.CacheIsLookup | spark/lakeflow_stream/sink.py:200-208 | a cache that matches its durable record gives the watermark the lookup would give |
| SinkRun.CleanRunOk | docs/adr/0003-delivery-semantics.md:29-42 | the crash-free run of any list of deliverable batches keeps the lakehouse invariant |
| Semantics.Deduplicate | libs/lakeflow_core/semantics.py:76-81 | `seen` holds the earliest occurrence of every id by (topic, partition, offset), and the rest are counted |
| Semantics.SelectCandidates | libs/lakeflow_core/semantics.py:83-91 | candidates, prior duplicates and bronze appends, each exactly |
| Semantics.LatestPerKey | libs/lakeflow_core/semantics.py:93-98 | per key a candidate that no other outranks by (lsn, offset) |
| Semantics.Decisions | libs/lakeflow_core/semantics.py:100-114 | the outcome of every candidate, and exactly the applied ones to apply |
| Semantics.PlanBatch | libs/lakeflow_core/semantics.py:67-119 | stale exactly below the baseline; otherwise one applied event per key that nothing outranks, the others superseded by it; late set, duplicate counts, appends and least watermark as specified |
| Semantics.SilverStore.constructor | libs/lakeflow_core/semantics.py:122 | the store starts as the given silver dict |
| Semantics.SilverStore.ApplyPlan | libs/lakeflow_core/semantics.py:122-134 | mutating silver event by event leaves the fold of the guarded merge; with one event per key that is `PlanEffect`, column by column |
| Semantics.PlanEffect | libs/lakeflow_core/semantics.py:121-134 | with one event per key, a row without a newer event stays, and otherwise the event writes every column: LSN, event and batch id, deletion flag, previous LSN, and values, which a delete keeps where there was a row |
| Semantics.ValuesAfterPlan | libs/lakeflow_core/semantics.py:128-133 | a deleted row has the values it had before the batch, and a live row the batch wrote has the image of an event of the batch |
| Semantics.ApplyIdempotent | libs/lakeflow_core/semantics.py:123 | re-applying a plan changes nothing |
| Semantics.ApplyCovers | libs/lakeflow_core/semantics.py:124-134 | afterwards every applied event is at or below its row's LSN, and no row lost LSN |
| Semantics.TombstoneValuesDependOnBatching | libs/lakeflow_core/semantics.py:130-132 | a create and its delete applied apart or together agree on LSN, event and deletion, and on the tombstone's values if and only if the two images are equal |
| Events.KeptIsEarliest | libs/lakeflow_core/semantics.py:76-80 | the occurrence of an event id that deduplication keeps is the earliest by topic, then partition, then offset |
| Events.ValidEventsExact | spark/lakeflow_stream/sink.py:222 | the events of a batch are its valid records with their id, change, topic, partition and offset, and nothing else |
| Texts.PositionOrder | spark/lakeflow_stream/sink.py:349 | the text order of `%05d:%020d` positions is the order of (partition, offset) for partition < 10^5 and offset < 10^20, and equal texts mean equal coordinates |
| Texts.PositionLayout | spark/lakeflow_stream/sink.py:349 | one position printed: five digits, a colon, twenty digits |
| Texts.PositionOrderBound | spark/lakeflow_stream/sink.py:349 | the positions of all partitions below P compare as their numbers if and only if P <= 100000 |
| Dlq.LatestIsLatest | spark/lakeflow_stream/sink.py:391-392 | the row the window keeps for a record has no row with a higher position |
| Dlq.MergeIdempotent | spark/lakeflow_stream/sink.py:395-408 | re-executing the DLQ MERGE of a batch changes nothing |
| DlqTable.MergeKeepsRowsUnique | spark/lakeflow_stream/sink.py:395-408 | on a table that is only a list of rows, the MERGE keeps one row per record and does to each what the register says |
| DlqTable.AtMostOneRowPerRecord | docs/adr/0003-delivery-semantics.md:14-15 | whatever batches are merged, in whatever repetition, the DLQ holds at most one row per rejected record |
| DlqTable.ExactlyOneRow | spark/lakeflow_stream/sink.py:391-407 | it holds exactly one for a record whose rejection was the newest row of the record in some batch, and none for any other |
| DlqTable.RejectedTwiceHasNoRow | spark/lakeflow_stream/sink.py:391-402 | a rejected record and its rejected replay in the first batch leave the table empty |
| DlqRegister.BatchBringsUpToDate | spark/lakeflow_stream/sink.py:391-400 | a batch leaves a record's row past all its replays if and only if the newest row of the record is a replay or the row was past them already |
| DlqRegister.OriginalMasksReplay | spark/lakeflow_stream/sink.py:391-392 | one batch with an original and its replay leaves the record open; two batches close it |
| DlqRegister.WinnersOverRuns | spark/lakeflow_stream/sink.py:391-402 | over every run the row is past every replay that wins its batch, and is one of them or untouched; it never moves back and its attempts never exceed the replays |
| DlqRegister.RegisterOverRuns | spark/lakeflow_stream/sink.py:391-402 | over every run and batching, redelivered originals included, the row keeps the maximum replay position and the status of the replay there if and only if nothing newer was replayed or a replay at the greatest position is the newest row of the record in its batch; attempts never exceed replays |
| DlqRegister.ApartIsUnmasked | spark/lakeflow_stream/sink.py:391-392 | that condition holds whenever no batch has the original beside its replays |
| DlqRegister.BatchingIrrelevant | spark/lakeflow_stream/sink.py:395-402 | two batchings of the same replays, neither masked by an original, leave the same position and status |
| DlqRegister.RegisterHoldsGreatest | spark/lakeflow_stream/sink.py:349 | in numbers: no replay in the run has a greater (partition, offset) than the row's position |
| DlqRegister.OnlyOriginalsInsert | spark/lakeflow_stream/sink.py:402-407 | without a row, replays leave no trace and the newest row being an original inserts it open with no attempts |
| DlqRegister.RowExists | spark/lakeflow_stream/sink.py:391-402 | over every run a record has a row if and only if it had one or its rejection was the newest row of the record in some batch |
| DlqRegister.AttemptsAreReplays | spark/lakeflow_stream/sink.py:397-398 | the attempts of a run are at most the distinct replay positions the row moved over, so a repeated MERGE never counts a replay twice |
| DlqRuns.TableOfEveryRun | docs/adr/0003-delivery-semantics.md:14-15 | in every state of every run the table is the row list its committed MERGE statements leave, with at most one row per record, and a record has one if and only if its rejection won one of them |
| DlqRuns.RowExistsAfterEpoch | docs/adr/0003-delivery-semantics.md:37-38 | between batches, the records with a row are those from before the epoch and those whose rejection won a batch the epoch committed |
| DlqRuns.RegisterAfterEveryRun | docs/adr/0003-delivery-semantics.md:37-38 | in every state of every run, through crashes, repeated writes, wipes in the middle of a batch and redelivered originals, the row is the register of the replays merged since any point where it existed if and only if no original masks the greatest of them |
| DlqRuns.RegisterAfterEpoch | docs/adr/0003-delivery-semantics.md:37-38 | the same between batches over the batches the epoch committed, each taken once |
| DlqRuns.LastReplayDecides | spark/lakeflow_stream/sink.py:371-402 | in terms of records, in every state of every run: the row shows the greatest replay position merged if and only if that replay is the newest row of the record in one of its merges, and then is `replayed` if it decoded as valid and `open` if it was rejected again |
| DlqReplay.Replay | api/lakeflow_api/services/quality.py:97-114 | exactly the requested ids that have an open row are sent, each once, with the stored key and value; the others are missing; a key or value that does not decode stops the loop before it is sent |
| DlqRecords.MergeByRecords | spark/lakeflow_stream/sink.py:348-408 | one MERGE in terms of Kafka records: a row no record is about stays; otherwise a record about it with the highest position decides, a rejection by inserting the row with its key and value as stored text, its reason and batch, open and without attempts, a newer replay by adding an attempt and writing position, status, reason and resolving batch |
| DlqRecords.EveryRowIsExplained | spark/lakeflow_stream/sink.py:348-408 | in every state of every run each row stores key, value and batch of a rejection of exactly that record, a reason some rejection of it gave, and the position, status and resolving batch one of its replays ended with, or is open and untouched |
| DlqRecords.RunReplaysTheRejectedBytes | api/lakeflow_api/services/quality.py:105-112 | in every state of every run, what the endpoint sends for a row is the key and value of a rejection of that record if and only if neither was UTF-8 text beginning with `base64:` |
| DlqReplay.RowsStay | spark/lakeflow_stream/sink.py:395-408 | a row a replay was issued for exists, with the bytes it stored first, at every later batch |
| RawBytes.ReplaySendsTheRejectedBytes | api/lakeflow_api/services/quality.py:89-94 | decoding the stored text returns the original key or value if and only if that was not UTF-8 text beginning with `base64:` |
| RawBytes.MalformedBytesComeBack | libs/lakeflow_core/decode.py:57-63 | bytes that are not UTF-8 always survive |
| RawBytes.DecodeThenEncode | libs/lakeflow_core/decode.py:61 | strict UTF-8 decoding is undone by encoding (section 3 of RFC 3629) |
| RawBytes.EncodeThenDecode | api/lakeflow_api/services/quality.py:94 | every text survives encoding and strict decoding |
| RawBytes.Base64RoundTrip | libs/lakeflow_core/decode.py:63 | lenient base64 decoding undoes encoding in all three padding cases (section 4 of RFC 4648) |
| RawBytes.Base64Vectors | libs/lakeflow_core/decode.py:63 | the test vectors of section 10 of RFC 4648 in all padding cases, and the last two symbols |
| RawBytes.StrayIgnored | api/lakeflow_api/services/quality.py:92-93 | a character outside the base64 alphabet, anywhere in a stored text, changes nothing about what replay decodes |
| RawBytes.PaddingVectors | api/lakeflow_api/services/quality.py:92-93 | complete padding ends the input whatever follows, and missing padding or a single symbol raises |
| RawBytes.Utf8Vectors | libs/lakeflow_core/decode.py:61 | the examples of section 7 of RFC 3629 for one to four bytes; overlong forms, surrogates, stray and missing trailing bytes are rejected |
| RawBytes.StoredText | libs/lakeflow_core/decode.py:57-63 | null stays null, UTF-8 is stored as text, anything else as `base64:` and its base64 form |
| Decimals.DecimalExact | libs/lakeflow_core/contracts.py:217-228 | the check accepts exactly the numbers a decimal(p,s) column stores as written, minus a zero without fraction when p = s, plus those whose positive exponent alone overflows |
| Decimals.AcceptedIsStorable | libs/lakeflow_core/contracts.py:224-228 | an accepted number is an integer below 10^p in units of 10^-s if and only if it has no positive exponent, is zero, or still fits with its zeros counted |
| Decimals.DecimalEdges | libs/lakeflow_core/contracts.py:224-228 | one number accepted though it does not fit, one rejected though it does |
| Decimals.FitsMonotone | libs/lakeflow_core/contracts.py:228 | a larger precision at the same scale accepts no less |
| Contracts.CheckValue | libs/lakeflow_core/contracts.py:187-214 | reports exactly the rules a value breaks, which `ContractMeaning.FieldOkMeans` spells out: null and type first, then enum, pattern, format, lengths and decimal |
| Contracts.CheckText | libs/lakeflow_core/contracts.py:200-213 | reports exactly the text rules a string breaks |
| Contracts.Validate | libs/lakeflow_core/contracts.py:142-152 | the violations of a record, none missed and none made up; empty if and only if the record is valid, which `ContractMeaning.ValidMeans` spells out |
| ContractMeaning.TypeRules | libs/lakeflow_core/contracts.py:158-195 | the type rule, by JSON constructor: a boolean passes for boolean, a whole number for integer or number, another number for number, a string for string; null is allowed where the types say so and is no type violation |
| ContractMeaning.EnumRule | libs/lakeflow_core/contracts.py:198-199 | a typed value breaks the enum rule if and only if no listed value equals it; true, 1 and 1.0 are equal, and otherwise only the same value is |
| ContractMeaning.FieldOkMeans | libs/lakeflow_core/contracts.py:187-214 | a value breaks no rule if and only if its type is admitted and, unless null, it is among the enum and, if a string, matches pattern and format, lies within the lengths, and is a number with the integer and fraction digits of the decimal |
| ContractMeaning.ValidMeans | libs/lakeflow_core/contracts.py:142-152 | a record has no violation if and only if it is an object with every required field whose declared fields are all accepted |
| Contracts.CheckBackwardCompatible | libs/lakeflow_core/contracts.py:326-364 | the problems between two versions, none missed and none made up |
| Contracts.CompareFields | libs/lakeflow_core/contracts.py:340-363 | exactly the ways a shared field narrowed |
| ContractMeaning.TypesNarrowed | libs/lakeflow_core/contracts.py:340-342 | types count as narrowed if and only if some value the old types admit is lost |
| ContractMeaning.EnumsNarrowed | libs/lakeflow_core/contracts.py:343-344 | an enum counts as narrowed if and only if some value is lost, an enum where there was none included |
| ContractMeaning.LengthsNarrowed | libs/lakeflow_core/contracts.py:349-356 | length bounds count as narrowed if and only if some length is lost, except that a new lower bound of zero is reported too |
| ContractMeaning.DecimalsNarrowed | libs/lakeflow_core/contracts.py:357-361 | a decimal loses a number if and only if it has fewer fraction or fewer integer places; each such change is reported, and so is every other change of scale |
| ContractMeaning.UnchangedIsCompatible | libs/lakeflow_core/contracts.py:326-364 | a version with the same key and source, the same shared fields and no new requirement has no problem |
| ContractMeaning.CompatibleAgree | libs/lakeflow_core/contracts.py:329-363 | compatible versions agree on table, topic, primary key, PII handling and decimal scale of every shared field, and the newer one requires nothing new |
| Contracts.FieldWidens | libs/lakeflow_core/contracts.py:340-363 | a value accepted by a field is accepted by every compatible newer one, through widening, null, enum, pattern, format, lengths and decimal |
| Contracts.CompatibilityIsSound | libs/lakeflow_core/contracts.py:326-364 | a record valid under the old version is valid under a compatible new one if and only if it fits the fields the new one introduces, where it carries them |
| Contracts.DriftBreaksCompatibility | libs/lakeflow_core/contracts.py:327 | a compatible version rejects a record the old one accepted, because of a field the old one did not declare |
| Contracts.CompatibleTransitive | libs/lakeflow_core/contracts.py:326-364 | compatibility over three versions composes if and only if the fields the middle one lacks are compatible end to end |
| ContractRegistry.ValidateVersions | libs/lakeflow_core/contracts.py:381-397 | accepts exactly the lists with distinct versions, one current version at the end and all required pairs compatible; otherwise names the first failure in load order |
| ContractRegistry.ModesAgree | libs/lakeflow_core/contracts.py:390-397 | all pairs of a list are compatible if and only if its modes accept it and every field that was dropped and added again came back compatible with every version that had it |
| ContractRegistry.ConvexModesAgree | libs/lakeflow_core/contracts.py:390-397 | so BACKWARD and BACKWARD_TRANSITIVE accept the same lists when no dropped field comes back |
| ContractRegistry.DroppedAndReadded | libs/lakeflow_core/contracts.py:390-397 | a field re-added with another type: BACKWARD accepts the list, BACKWARD_TRANSITIVE does not, and the version search accepts a record the current version rejects |
| ContractRegistry.AllFields | libs/lakeflow_core/contracts.py:412-417 | the union of fields, each as its last defining version has it |
| ContractRegistry.Classify | libs/lakeflow_core/contracts.py:419-437 | the first accepting candidate stamps the record; without one, exactly the current version's violations; drift is exactly what no version defines |
| ContractRegistry.AcceptedForGood | libs/lakeflow_core/contracts.py:433-436 | with all pairs compatible, a record accepted by a version is valid under every later one |
| ContractRegistry.SearchCollapses | libs/lakeflow_core/contracts.py:433-436 | then some version accepts if and only if the last candidate validates |
| ContractRegistry.CurrentDecides | libs/lakeflow_core/contracts.py:419-437 | if no field is ever dropped, under either mode, a record is classified valid if and only if the current version validates it |
| ContractRegistry.PromotionKeepsStamp | docs/adr/0004-schema-compatibility.md:20-21 | promoting a version keeps verdict and stamp of a valid record if and only if the record carries no field the new version introduces |
| Tracer.Tracer.constructor | api/lakeflow_api/tracer.py:50-70 | the tracer starts with nothing received and an empty log, index, batch list and arrivals deque |
| Tracer.Tracer.Handle | api/lakeflow_api/tracer.py:117-149 | after every message log and index are what the changes received leave, the batch list the last 500 ops records, the arrivals the last 100000 changes with their times, the heartbeat the last one; each kind of message moves only its own fields, and the frame published is stated |
| Tracer.Tracer.EventsFor | api/lakeflow_api/tracer.py:151-153 | unless a keyed record came again while its event was in the log, exactly the events of the key in the log, in order; without repeated coordinates the log is the last `max_events` changes; an empty key finds nothing |
| Tracer.FilterScans | api/lakeflow_api/tracer.py:136-141 | the scan an index bucket is compared with picks the events of one topic and key, each once, and keeps their order |
| Tracer.LogIsTheLastArrivals | api/lakeflow_api/tracer.py:136-148 | for distinct coordinates, after any arrivals and evictions the log is the last `max_events` arrivals, each bucket the scan for its key, and no bucket is empty |
| Tracer.IndexAgreesExactly | api/lakeflow_api/tracer.py:136-148 | over every history in which a coordinate always brings the same record, the index agrees with the log if and only if no keyed record ever arrived while its event was in the log |
| Tracer.ExcessCountsRedeliveries | api/lakeflow_api/tracer.py:138-148 | an event has as many index entries too many as it was redelivered while in the log, and no eviction removes one |
| Tracer.RedeliveryBreaksIndex | api/lakeflow_api/tracer.py:138-140 | one step: delivering a logged record again keeps index and log in agreement if and only if the record has no key |
| Tracer.StaleEntrySurvivesEviction | api/lakeflow_api/tracer.py:141-148 | after such a redelivery the index still returns an event the log no longer holds |
| Lineage.Walk | libs/lakeflow_core/lineage.py:55-66 | on any graph, cyclic or not, terminates with every reachable node but the start, once, in nondecreasing depth, the depth being the shortest distance |
| Lineage.Duality | libs/lakeflow_core/lineage.py:69-76 | in a graph and its reverse, x is below y at a depth if and only if y is above x at that depth |
| LineageSpec.ValidateSpec | libs/lakeflow_core/lineage.py:20-34 | accepts exactly the specs with unique, disjoint ids and no dangling reference, and names what failed |
| LineageSpec.Edges | libs/lakeflow_core/lineage.py:37-44 | exactly the edges from inputs to jobs and from jobs to outputs |
| LineageSpec.Reverse | libs/lakeflow_core/lineage.py:47-52 | exactly the edges turned around |
| LineageSpec.Downstream | libs/lakeflow_core/lineage.py:69-71 | an unknown node is an error; otherwise a breadth-first walk of the spec's graph |
| LineageSpec.Upstream | libs/lakeflow_core/lineage.py:74-76 | the same on the reversed graph |
| LineageSpec.ReadersAreDownstream | libs/lakeflow_core/lineage.py:37-44 | in a validated spec every job that reads a dataset is one step downstream of it, and what the job writes two steps |
| LineageSpec.WritersAreUpstream | libs/lakeflow_core/lineage.py:47-52 | every job that writes a dataset is one step upstream of it, and what the job reads two steps |
| LineageSpec.DownstreamIsUpstream | libs/lakeflow_core/lineage.py:69-76 | x is downstream of y if and only if y is upstream of x, at the same depth |
| LineageSpec.ImpactOf | libs/lakeflow_core/lineage.py:79-91 | for a validated spec no affected id is unknown; the affected items with their depth, kind and owner, their split by kind, and the owners to notify, those with a non-empty name, are exact |
| LineageSpec.GraphAlternates | libs/lakeflow_core/lineage.py:37-44 | edges of a validated spec lead from datasets to jobs and from jobs to datasets only |
| RateLimit.RateLimiter.constructor | api/lakeflow_api/domain/ratelimit.py:11-14 | a new limiter has seen no calls |
| RateLimit.RateLimiter.Allow | api/lakeflow_api/domain/ratelimit.py:16-26 | pops expired hits and accepts exactly when fewer than `limit` remain; otherwise reports when the oldest expires, or raises if and only if the limit is below one |
| RateLimit.NeverOverLimit | api/lakeflow_api/domain/ratelimit.py:16-26 | over every interleaved history with a nondecreasing clock, limit + 1 successive accepted calls of a key span at least the window |
| RateLimit.AdmitsExactly | api/lakeflow_api/domain/ratelimit.py:16-26 | over every history with a nondecreasing clock a call is accepted if and only if fewer than `limit` accepted calls of its key lie less than a window before it |
| RateLimit.RetryIsExact | api/lakeflow_api/domain/ratelimit.py:23-24 | after a refusal a call at time t is accepted if and only if t has reached the refusal time plus the reported value, whatever other keys do and however often this one tries before |
| Identity.PreimageInjective | libs/lakeflow_core/identity.py:25-27 | all six parts can be read back from the id preimage, even when the key text contains bars and the transaction id is absent |
| Identity.PreimageLayout | libs/lakeflow_core/identity.py:25-27 | two preimages character by character: order of the parts, a sign, an absent transaction id |
| Identity.KeyTextDetermines | libs/lakeflow_core/decode.py:159-160 | no other equally long list of key values has the same key text if and only if there is one value or none contains a bar |
| Identity.JoinKeyCollides | libs/lakeflow_core/decode.py:159-160 | two rows of a two-column key with one key text |

## Left out

- Spark, Iceberg, Kafka, Trino and PostgreSQL clients: tables are maps and multisets, and a commit is one step that may report a failure although it happened.
- SHA-256, HMAC, regular expressions, JSON parsing and date parsing: parameters of the model; `DlqId` and event ids are taken to be collision-free.
- NaN, infinities and rounding of JSON floats: numbers are reals.
- Enum members that are lists or objects: the source cannot hash them either and raises while comparing versions.
- Contract hot reload between two attempts of one batch (`_maybe_reload_contracts`): it changes what decodes as valid.
- `_decode` beyond its three outcomes and `normalize_image`: a record is valid with its event, rejected with its error code, or a tombstone.
- The lakeflow-original-topic and lakeflow-replay-requested-by headers of a replay, and its audit entry.
- Wall-clock columns, snapshot ids, freshness percentiles, commit-retry counts, metrics and the published ops record.
- `resolved_at`, `error_detail` and `violations` of a DLQ row: they are written with the reason and the resolving batch. The reason follows the last rejected replay that won a batch and so depends on batching; the register theorems speak of position, status and attempts.
- Ties in the DLQ window: of two source rows of one record at one position the window may pick either; the model keeps the first.
- The order of violations, problems, drift fields and owners: results are stated as exact sets, not lists.
- `ContractRegistry.__init__` and `load_registry`: grouping, sorting and files; a version list arrives sorted.
- Thread interleavings in the rate limiter and the tracer; `rate`, `recent` and `recent_batches` of the tracer.
- Freshness, trace assembly, monitoring, catalog, routes, authentication, SQL generators, DAGs and the frontend: straight-line code that would add easy members.
