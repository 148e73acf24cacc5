# pg_incremental pipeline engine, modelled in Dafny

pg_incremental is a PostgreSQL extension. It runs a user's SQL command over
new data only, and remembers how far each pipeline has got. There are three
kinds of pipeline:

- **Sequence-range pipelines** hand the command the range of sequence values
  drawn since the last run. The range is only handed over once concurrent
  writers that may still insert lower values have finished. Afterwards the
  pipeline's watermark moves to the range end.
- **Time-interval pipelines** hand the command whole time buckets that ended
  at least `min_delay` ago. Buckets are aligned on `date_bin(interval, now() - min_delay, '2001-01-01')`.
  Either the whole range goes to one call (batched) or each bucket gets its own call.
- **File-list pipelines** list files through a list function. They hand the
  command the paths the pipeline has not processed yet, one at a time or in
  arrays of at most `max_batch_size`. Every handed path is recorded in a
  per-pipeline ledger.

Pipelines are created, executed, reset and dropped through SQL functions.
Those functions check ownership, dispatch on the pipeline kind and keep a
pg_cron job named `pipeline:<name>` in step.

The model is pure and functional:

- The extension's tables are immutable maps:
  - `Registry` is `incremental.pipelines`;
  - `SequenceRows`, `TimeRows` and `FileRows` are the per-kind state tables;
  - `Ledger` is `incremental.processed_files`;
  - the cron jobs are a map keyed by job name.
  - `Pipeline.Store` bundles them all.
- The PostgreSQL catalog (relation kinds, owned sequences, sequence last
  values, privileges) is an input value: `Catalog.Catalog`.
- `now()`, the calling user and whether pg_cron is installed are inputs too:
  `Pipeline.Environment`.
- Each run of the user's command becomes an `Invocation` appended to a log.
  The log records the arguments passed: the sequence range, the time window,
  a single path, or a path array.
- An SQL `ERROR` becomes an `Err` result. PostgreSQL rolls the transaction
  back, so the caller keeps its old store.

Modules:

- `Base`: Option, Result, errors, sessions and invocations.
- `Catalog`: the catalog facts the core reads.
- `Registry`: the pipelines table.
- `Sequence`: `src/sequence.c`.
- `TimeInterval`: `src/time_interval.c`.
- `FileList`: `src/file_list.c`.
- `Pipeline`: `src/pipeline.c` and the scheduling half of `src/cron.c`.

Main proved properties:

- The sequence ranges that advance the watermark, over any run history, are
  disjoint and consecutive. Every value below the watermark lies in exactly
  one of them (`Sequence.ExactlyOnce`). When every last value the DO block
  sees is non-NULL, the command runs over exactly those ranges
  (`Sequence.BlockCallsAreAdvancedRanges`). A NULL last value is different:
  the block then runs the command over (0, 0) without advancing, so value 0
  can be handed out again (`Sequence.NullLastValueRepeatsZero`).
- Time windows chain without gaps or overlaps (`TimeInterval.TimeRangesChain`).
  Non-batched windows stay inside the watermark exactly when the start is on
  the grid (`TimeInterval.WindowsWithinRangeIffAligned`).
- Batched file chunks concatenate to the pending files, in order. Every chunk
  but the last is full (`FileList.BatchesConcatenate`, `FileList.BatchSizes`).
  The loop that sends them also records exactly those files
  (`FileList.ExecuteBatchedFileList`). A second run without new files does
  nothing (`FileList.SecondRunIsNoop`).
- Create, execute, reset and drop check their arguments and permissions in
  the source's order. They keep the store consistent, and dropping a pipeline
  just created gives back the store as it was, apart from the pipeline's job
  and the commands the creation ran (`Pipeline.CreateThenDrop`).

## Model

| member | source | states |
|---|---|---|
| `Registry.ReadPipelineDesc` | src/pipeline.c:293-362 | the registry row is returned exactly when the name is registered; otherwise the error is "pipeline cannot be found" |
| `Registry.InsertPipeline` | src/pipeline.c:244-286 | a new name gains a row owned by the calling user with the given kind and source relation, and no other row changes; a taken name is refused |
| `Sequence.RangeNotice` | src/sequence.c:145-151 | the "processing values" notice is raised exactly when range start <= range end, compared as signed values (the corrected comparison; the uint64 comparison as written is under Findings) |
| `Sequence.InitializeSequencePipelineState` | src/sequence.c:70-108 | the new row records the sequence and a NULL watermark, so the first range starts at 0; other rows are untouched |
| `Sequence.UpdateLastProcessedSequenceNumber` | src/sequence.c:316-364 | the watermark becomes n, so the next range starts at n + 1; a missing row is an error; other rows are untouched |
| `Sequence.GetSequenceNumberRange` | src/sequence.c:235-309 | (corrected; as written under Findings) the range starts one past the watermark (0 when NULL) and ends at the sequence's last value (0 when NULL); rows exist exactly when the last value is non-NULL and start <= end |
| `Sequence.PopSequenceNumberRange` | src/sequence.c:180-227 | an unowned sequence is refused first, then a caller without USAGE/UPDATE; on success the watermark advances to the range end exactly when there are rows, and no other row changes |
| `Sequence.IncrementalSequenceRange` | src/sequence.c:116-166 | (corrected; as written under Findings) a memoised range is returned unchanged without touching the table; on a fresh call it succeeds exactly when the pipeline is registered, has a state row, and its sequence is table-owned and usable by the caller; the range then runs from one past the watermark to the sequence's last value, the watermark advances as the pop says, other rows are untouched, and the notice follows the range guard |
| `Sequence.RunSequenceBlock` | src/sequence.c:44-63 | (corrected; as written under Findings) the DO block succeeds exactly when its range call does; its range is the popped range and the watermark advances to the last value only when rows exist; the command runs once with (start, end) exactly when start <= end; other rows are untouched |
| `Sequence.FindSequenceForRelation` | src/sequence.c:375-396 | a table with exactly one owned sequence yields that sequence; none or several are distinct errors |
| `Sequence.AdvanceIsMonotone` | src/sequence.c:205-224 | a pop never moves the next range start backwards, and after a pop with rows the next start is the popped end + 1 |
| `Sequence.ReplayIsMonotone` | src/sequence.c:180-227 | over any sequence of pops the next range start never decreases |
| `Sequence.ExactlyOnce` | src/sequence.c:180-227 | the values of all ranges handed out by successive pops are exactly the consecutive integers from the first start up to the final watermark: none skipped, none repeated |
| `Sequence.FreshPipelineProcessesPrefix` | src/sequence.c:282-290 | a pipeline starting from a NULL watermark hands out every value 0 .. watermark exactly once |
| `Sequence.AdjacentPops` | src/sequence.c:205-224 | after a pop with rows, the next pop's range starts right after the previous range end |
| `Sequence.MemoisedCallIsStable` | src/sequence.c:131-143 | a second call in the same statement sees the memoised range and does not pop again |
| `Sequence.GuardMatchesRows` | src/sequence.c:145-151 | with a non-NULL last value, the DO block's guard start <= end agrees with the has-rows result (signed comparison) |
| `Sequence.AsUint64` | src/sequence.c:26-27 | storing an int64 in a uint64 field maps negative values to value + 2^64 and keeps non-negative ones |
| `Sequence.RunSequenceBlockIsBlockStep` | src/sequence.c:44-63 | one successful DO block runs the commands of one step of the block history and leaves the watermark where one pop leaves it |
| `Sequence.BlockCallsAreAdvancedRanges` | src/sequence.c:44-63 | over a history whose last values are all non-NULL, the DO block runs its command over exactly the ranges that advance the watermark, in order |
| `Sequence.NullLastValueRepeatsZero` | src/sequence.c:293-308 | a NULL last value makes the DO block run the command over (0, 0) without advancing a NULL watermark, so a later last value 5 runs (0, 5) and value 0 is handed out twice, while the advancing ranges are only (0, 5) |
| `Sequence.NegativeSequenceReprocessedAsWritten` | src/sequence.c:308 | with the unsigned comparison a negative last value advances the watermark although the guard is false, and a range that crosses zero runs the command but never advances while its notice says there are no rows; the signed version does none of this |
| `Sequence.RangeNoticeAsWrittenAgreesIffSameSign` | src/sequence.c:145-151 | the notice as written (uint64 comparison) agrees with the signed guard exactly when both int64 bounds have the same sign |
| `Sequence.IncrementalSequenceRangeAsWritten` | src/sequence.c:135-140 | passing the registry's source relation (the table) to the pop refuses every table-owned pipeline as "not owned by a table" |
| `TimeInterval.DateBin` | src/time_interval.c:274 | date_bin returns the grid point (origin + k*stride) at or below the source and less than one stride below it |
| `TimeInterval.DateBinIsLatestGridPoint` | src/time_interval.c:274 | no grid point at or below the source is later than date_bin's result |
| `TimeInterval.TimestampDifferenceMilliseconds` | src/time_interval.c:136 | 0 when stop is not after start, otherwise the microsecond difference in milliseconds rounded up and capped at INT_MAX; positive exactly when start < stop |
| `TimeInterval.InitializeTimeRangePipelineState` | src/time_interval.c:48-93 | the row records the start time, batching, interval and delay; other rows are untouched |
| `TimeInterval.UpdateLastProcessedTimeInterval` | src/time_interval.c:342-390 | only the named row's last-processed time changes; a missing row is an error |
| `TimeInterval.GetSafeTimeIntervalRange` | src/time_interval.c:251-333 | the range runs from the last-processed time to the latest grid point at or before now - min_delay; a missing row and a non-positive stride are errors |
| `TimeInterval.PopTimeIntervalRange` | src/time_interval.c:219-243 | the last-processed time moves to the range end exactly when start < end, never moves backwards, and nothing else changes |
| `TimeInterval.WindowsShape` | src/time_interval.c:133-158 | the non-batched loop's windows are one interval wide, start inside [start, end), are grid-aligned to the start and follow each other without gaps |
| `TimeInterval.WalkWindows` | src/time_interval.c:133-158 | the loop collects the windows of the recursive definition, stepping one interval at a time while the capped millisecond difference is positive |
| `TimeInterval.NonBatchedWindows` | src/time_interval.c:133-158 | the loop produces ceil((end - start) / interval) consecutive windows, the first at the range start |
| `TimeInterval.WindowsTileWhenAligned` | src/time_interval.c:133-158 | when start and end are both on the grid, the last window ends exactly at the range end |
| `TimeInterval.WindowsOvershootWhenMisaligned` | src/time_interval.c:133-158 | when the start is off the grid, the last window ends past the range end |
| `TimeInterval.WindowsWithinRangeIffAligned` | src/time_interval.c:133-158 | all windows stay inside [start, end] if and only if the start is on the end's grid |
| `TimeInterval.WindowCommands` | src/time_interval.c:153-154 | one command call per window, with the window's bounds as arguments, in order |
| `TimeInterval.ExecuteTimeIntervalPipeline` | src/time_interval.c:101-160 | execution fails exactly when the pipeline is unregistered, its row is missing or its stride is not positive |
| `TimeInterval.ExecuteTimeIntervalPipelineSpec` | src/time_interval.c:101-160 | commands run exactly when the watermark is before the safe boundary (the date_bin of now - min_delay), and the watermark then becomes that boundary; otherwise nothing runs and nothing changes; batched runs one call over [start, end); non-batched runs one call per interval-wide window starting inside the range |
| `TimeInterval.NonBatchedWindowsWithinWatermark` | src/time_interval.c:115-158 | non-batched windows lie below the new watermark exactly when the old one was on the grid |
| `TimeInterval.TimeRangesChain` | src/time_interval.c:219-243 | over any sequence of pops the handed-out ranges are consecutive from the first watermark to the last, so no instant is processed twice or skipped |
| `FileList.InitializeFileListPipelineState` | src/file_list.c:57-101 | the row records pattern, batching and list function; a non-positive max batch size is stored as NULL |
| `FileList.UnprocessedFiles` | src/file_list.c:364-433 | a listed path is kept exactly when the ledger lacks it for this pipeline; nothing is kept only when all are processed; no duplicates are introduced |
| `FileList.GetUnprocessedFilesForPipeline` | src/file_list.c:277-356 | a missing row is an error; otherwise the result carries the row's batching, its max batch size (unbounded exactly when the column is NULL or non-positive) and the listed paths without a ledger entry for the pipeline, in listing order |
| `FileList.InsertProcessedFile` | src/file_list.c:441-488 | a (pipeline, path) pair already in the ledger violates its unique key and fails; otherwise the ledger gains exactly that pair |
| `FileList.InsertProcessedFiles` | src/file_list.c:225-235 | recording a run of paths fails exactly when one is already recorded for the pipeline or occurs twice in the run; otherwise exactly those (pipeline, path) pairs are added |
| `FileList.RemoveProcessedFileList` | src/file_list.c:495-541 | removes exactly the pipeline's ledger entries; removing none is reported as "pipeline cannot be found" |
| `FileList.CollectBatch` | src/file_list.c:190-208 | the loop collects the files from offset on, stopping after max_batch_size when that is positive |
| `FileList.Batch` | src/file_list.c:190-193 | a chunk is non-empty and never longer than a positive max_batch_size |
| `FileList.BatchesConcatenate` | src/file_list.c:120-131 | the chunks of the do-while loop, concatenated, are exactly the pending files in order |
| `FileList.BatchSizes` | src/file_list.c:120-131 | with a positive max_batch_size every chunk but the last is full and the last is not larger |
| `FileList.UnboundedIsOneBatch` | src/file_list.c:124-130 | a non-positive max_batch_size sends all pending files in one array |
| `FileList.ProcessBatch` | src/file_list.c:187-236 | one batch call passes the chunk and records exactly its paths |
| `FileList.ExecuteBatchedFileList` | src/file_list.c:120-131 | the batched loop makes one call per chunk and leaves every pending file recorded |
| `FileList.BatchIteration` | src/file_list.c:120-131 | one pass of the do-while sends and records the chunk at the offset, and the loop goes on exactly while a full chunk was taken and files remain |
| `FileList.ExecuteFileListPipeline` | src/file_list.c:108-147 | a missing row is "pipeline cannot be found"; otherwise the run fails, and rolls back, exactly when the unprocessed listing holds a path twice |
| `FileList.ExecuteFileListPipelineSpec` | src/file_list.c:108-147 | after a successful run the paths handed to the command are exactly the listed, unprocessed paths, in listing order, each once, and exactly those are recorded; with nothing pending nothing runs; batched mode passes consecutive chunks of max_batch_size (one array when unbounded); non-batched passes one path per call |
| `FileList.SecondRunIsNoop` | src/file_list.c:108-147 | after a successful run, running again without new files succeeds, calls nothing and leaves the ledger as it was |
| `Pipeline.CronJobName` | src/pipeline.c:474-477 | the job name is "pipeline:" followed by the pipeline name |
| `Pipeline.CronJobNameInjective` | src/pipeline.c:474-477 | different pipelines get different cron job names |
| `Pipeline.ScheduleCronJob` | src/cron.c:16-69 | without pg_cron scheduling fails; otherwise the named job is set to the schedule and no other job changes |
| `Pipeline.UnscheduleCronJob` | src/cron.c:76-99 | the named job is removed (if present) and no other job changes |
| `Pipeline.ScheduleIfRequested` | src/pipeline.c:107-118 | with a schedule, the pipeline's job is created or replaced, the job names gain exactly that name and only the cron jobs change; without one nothing changes |
| `Pipeline.EnsurePipelineOwner` | src/pipeline.c:371-379 | passes exactly for a superuser or the pipeline's owner |
| `Pipeline.ExecutePipeline` | src/pipeline.c:386-401 | dispatches on the kind: it succeeds exactly when that kind's executor does, takes the executor's rows for that kind and appends exactly the executor's calls to the log; nothing else changes; the file-list kind reaches the unknown-type error |
| `Pipeline.ExecutePipelineEffect` | src/pipeline.c:386-401 | (corrected; as written under Findings) a sequence pipeline executes exactly when it has a state row and a table-owned sequence the caller may use; its watermark advances to the last value and the command runs once over the popped range when that is not empty; a time pipeline advances to the safe boundary and runs its windows (or one batched call) exactly when its watermark was before it; nothing else in the store changes |
| `Pipeline.ResetPipeline` | src/pipeline.c:408-423 | a sequence pipeline's watermark becomes 0 and a time pipeline's last time becomes 0; nothing else changes; the file-list kind is refused |
| `Pipeline.DeletePipeline` | src/pipeline.c:430-467 | the registry row, the kind rows and the pipeline's ledger entries are deleted and nothing else |
| `Pipeline.ExecutePipelineByName` | src/pipeline.c:194-203 | unregistered names, then non-owners are refused; for an owner the call has exactly the effect of one execution of the pipeline's kind (`Pipeline.ExecutionEffect`); success keeps registry, cron jobs and consistency |
| `Pipeline.ResetPipelineByName` | src/pipeline.c:210-219 | same checks as execute; succeeds exactly for an owner of a sequence or time-interval pipeline that has its state row (a file-list pipeline is an unknown type, a missing row "cannot be found"); the reset writes watermark 0 into that row only, so a sequence pipeline's next range starts at 1 and a time pipeline restarts at 0, and nothing else in the store changes |
| `Pipeline.DropPipeline` | src/pipeline.c:226-237 | succeeds exactly for a registered pipeline, an owner and an installed pg_cron; removes the pipeline everywhere, including its cron job and its processed-file entries, and leaves every other pipeline's registry row, state row, ledger entries and cron job, and the command log, as they were |
| `Pipeline.ResolveSequenceSource` | src/pipeline.c:60-92 | a sequence must be auto-owned and yields its table; a table kind must own exactly one sequence; anything else is "not a table or sequence" |
| `Pipeline.ExecuteIfRequested` | src/pipeline.c:104-105 | without execute_immediately the store is unchanged; with it, exactly one execution with the effect stated for `Pipeline.ExecutePipelineEffect` takes place |
| `Pipeline.CreateSequencePipeline` | src/pipeline.c:42-121 | NULL arguments are refused in argument order; success registers the pipeline for the caller with the resolved table and sequence, starts it at 0, and schedules it when asked |
| `Pipeline.CreateTimeIntervalPipeline` | src/pipeline.c:129-187 | NULL arguments are refused in order, non-batched pipelines need a start time; success records interval, delay, batching and start time, and schedules it when asked |
| `Pipeline.CreateSequenceExecutesImmediately` | src/pipeline.c:102-106 | (corrected; as written under Findings) with execute_immediately a sequence pipeline is created only when the caller may use its table-owned sequence; the command then runs once over 0 .. last value when that is not negative (over 0 .. 0 when the last value is NULL); the watermark moves to the last value when that is non-NULL and not negative, and otherwise stays NULL |
| `Pipeline.CreateTimeIntervalExecutesImmediately` | src/pipeline.c:168-172 | with execute_immediately a time-interval pipeline runs commands exactly when its start time is before the safe boundary, and its watermark then becomes that boundary; a batched one gets one call over the whole range |
| `Pipeline.CreateThenDrop` | src/pipeline.c:226-237 | dropping a just-created pipeline succeeds, restores the registry, and leaves the cron jobs as they were before the creation minus the pipeline's own job name; from a consistent store the whole store comes back, except that the command log keeps what execute_immediately ran |
| `Pipeline.AsWrittenRangeFailsForCreatedPipelines` | src/pipeline.c:63-102 | every sequence pipeline the create function accepts is refused by the as-written range function |
| `Pipeline.CorrectedRangeSucceedsForCreatedPipelines` | src/pipeline.c:63-102 | with the sequence id passed instead, a freshly created pipeline's first range call succeeds and starts at 0 |

## Left out

- pg_cron internals: `cron.schedule` and `cron.unschedule` are modelled as updates of a job map; job ids are not modelled.
- Query parsing and deparsing, and `SanitizeListFunction`: commands and list functions are opaque strings, and listing is a parameter function.
- `quote_literal_cstr` and the text of generated SQL: only the arguments a command receives are modelled.
- Locking: `WaitForLockers` on the source table, `FOR UPDATE` row locks and concurrency in general. The model is one session.
- SPI, snapshots and the switch to the bootstrap superuser: the model writes tables directly.
- Time arithmetic: timestamps and intervals are integers (microseconds). Month and day intervals and time zones are not modelled.
- bigint and timestamp overflow are not modelled.
- The body of `ExecuteSequenceRangePipeline` is not part of this model. Executing a sequence pipeline is modelled as one evaluation of the DO block built by `GetSequencePipelineCommand`.
- The whole SQL function call is one transaction: a failing command is an `Err` and rolls everything back. There is no per-chunk commit.
- `Pipeline.DeletePipeline`: removing the kind rows and ledger entries together with the registry row assumes the schema's `ON DELETE CASCADE`. The schema file is not part of this model.
- `Pipeline.UnscheduleCronJob`: fails when pg_cron is absent, because the query reads `cron.job`.
- File-list creation: `src/pipeline.c` has no SQL create function for file-list pipelines. File-list rows enter the model only through `FileList.InitializeFileListPipelineState`, and `FileList.RemoveProcessedFileList` has no caller there.
- `Pipeline.ExecutePipeline` reaches the unknown-type error for file-list pipelines, as the dispatch switch in `src/pipeline.c` has no file-list case.
- `TimeInterval.GetSafeTimeIntervalRange`: refusing a non-positive stride stands for PostgreSQL's `date_bin` error; the source itself has no such check.
- `Catalog.SequenceOwner` stands for PostgreSQL's `sequenceIsOwned`, which is not part of this model.
- `FileList.ExecuteBatchedFileList` and `FileList.ProcessBatch`: they record chunks by set union. The unique-key failure on a repeated path is stated by `FileList.InsertProcessedFiles` and `FileList.ExecuteFileListPipeline`, not by the loop.
- `FileList.ExecuteFileListPipelineSpec`: the left join at src/file_list.c:384-390 has no ORDER BY, so PostgreSQL does not promise to return the pending paths in listing order. The model assumes listing order.
- `Catalog.SequenceLastValue`: PostgreSQL's `pg_sequence_last_value` raises an error for a relation that is not a sequence. The model answers None there.
- `Catalog.WellFormed`: only sequence ownership is recorded. Other automatic dependencies, such as a partition's on its parent table, are not modelled.
- `TimeInterval.ReplayTimes` and `FileList.BatchCommands`: their own contracts only state shape (interval kept, one call per chunk); the content is stated by the lemmas about them.

### Where the documentation and the code differ (code followed)

- A reset writes watermark 0, so the next range starts at 1. A freshly created pipeline has a NULL watermark and starts at 0, so a reset pipeline never sees sequence value 0 again.
- The non-batched time loop steps from the last-processed time, not from a grid point. When that time is off the grid, the last window runs past the range end, although the watermark moves only to the range end.
- A reset of a time-interval pipeline writes timestamp 0 (2000-01-01 00:00), not the anchor start time the pipeline was created with.
- The DO block's guard compares the two range columns, and a NULL last value is read as range end 0. With a NULL watermark the block then runs the command over (0, 0) although the pop reports no rows and does not advance, so value 0 is handed out again once the sequence has values.
- All windows of a non-batched run, and all chunks of a batched file run, happen inside one SQL call.

## Findings

| source | as written | input that shows it | evidently intended | confidence | as-written member | corrected member |
|---|---|---|---|---|---|---|
| src/sequence.c:26-27 | range bounds are `uint64`, so `rangeStart <= rangeEnd` compares int64 sequence values unsigned, both in the has-rows test and in the notice at src/sequence.c:145 | last value -10 with a NULL watermark: has-rows is true although the DO block's signed guard is false, and a later range -9..5 runs the command but never advances the watermark while the notice reports no rows | signed comparison, as the DO block and the notice assume | not executed | `Sequence.NegativeSequenceReprocessedAsWritten` | `Sequence.ExactlyOnce` |
| src/sequence.c:135-140 | `incremental_sequence_range` pops with `pipelineDesc->sourceRelationId`, which the create function sets to the owning table | any pipeline created on a table-owned sequence: the table is not a sequence, so the ownership check rejects it | pop with the sequence id stored in the pipeline's state row | not executed | `Pipeline.AsWrittenRangeFailsForCreatedPipelines` | `Pipeline.CorrectedRangeSucceedsForCreatedPipelines` |
