/**
 The pipeline lifecycle (src/pipeline.c): creating sequence and time-interval
 pipelines, executing, resetting and dropping them by name, the owner check
 that guards the last three, dispatch by pipeline kind, and the pg_cron job
 that runs a pipeline periodically.

 The whole database is one immutable `Store`; an operation returns the store
 after it, or an error, in which case the transaction rolls back and the
 caller keeps the store it had.
 */
module Pipeline {
  import opened Base
  import opened Catalog
  import opened Registry
  import Sequence
  import TimeInterval
  import FileList

  /** A pg_cron job: its schedule and the pipeline whose execute_pipeline call it runs. */
  datatype CronJob = CronJob(schedule: string, pipelineName: string)

  datatype Store = Store(
    registry: Registry,
    sequences: Sequence.SequenceRows,
    timeIntervals: TimeInterval.TimeRows,
    fileLists: FileList.FileRows,
    processedFiles: FileList.Ledger,
    /** cron.job, keyed by job name */
    cronJobs: map<string, CronJob>,
    /** the runs of user commands, in order */
    log: seq<Invocation>)

  /** What an operation reads but does not change: catalog, caller, clock, and whether pg_cron is installed. */
  datatype Environment = Environment(catalog: Catalog, session: Session, now: int, cronInstalled: bool)

  /**
   Every kind-specific state row belongs to a registered pipeline of that kind,
   and every ledger entry to a registered file-list pipeline.
   */
  predicate Consistent(store: Store) {
    && (forall n :: n in store.sequences ==>
          n in store.registry && store.registry[n].pipelineType == SequenceRangePipeline)
    && (forall n :: n in store.timeIntervals ==>
          n in store.registry && store.registry[n].pipelineType == TimeIntervalPipeline)
    && (forall n :: n in store.fileLists ==>
          n in store.registry && store.registry[n].pipelineType == FileListPipeline)
    && (forall e :: e in store.processedFiles ==>
          e.0 in store.registry && store.registry[e.0].pipelineType == FileListPipeline)
  }

  // ---------------------------------------------------------------------------
  // Cron jobs

  /** GetCronJobNameForPipeline: "pipeline:" followed by the pipeline name. */
  function CronJobName(name: string): (jobName: string)
    ensures |jobName| == |name| + 9 && jobName[..9] == "pipeline:" && jobName[9..] == name
  {
    "pipeline:" + name
  }

  /** Different pipelines get different job names, so dropping one never unschedules another. */
  lemma CronJobNameInjective(a: string, b: string)
    requires CronJobName(a) == CronJobName(b)
    ensures a == b
  {
    assert a == CronJobName(a)[9..];
  }

  /**
   ScheduleCronJob: fails when pg_cron is not installed; otherwise cron.schedule
   creates the job, or replaces the one of the same name.
   */
  function ScheduleCronJob(jobs: map<string, CronJob>, cronInstalled: bool, jobName: string, schedule: string,
                           pipelineName: string): (r: Result<map<string, CronJob>>)
    ensures r.Err? <==> !cronInstalled
    ensures r.Err? ==> r.error == CronNotInstalled
    ensures r.Ok? ==> r.value.Keys == jobs.Keys + {jobName} && r.value[jobName] == CronJob(schedule, pipelineName)
    ensures r.Ok? ==> forall j :: j in jobs && j != jobName ==> r.value[j] == jobs[j]
  {
    if !cronInstalled then Err(CronNotInstalled)
    else Ok(jobs[jobName := CronJob(schedule, pipelineName)])
  }

  /**
   UnscheduleCronJob: unschedules the job of that name if there is one. The
   lookup reads cron.job, which does not exist without pg_cron.
   */
  function UnscheduleCronJob(jobs: map<string, CronJob>, cronInstalled: bool, jobName: string): (r: Result<map<string, CronJob>>)
    ensures r.Err? <==> !cronInstalled
    ensures r.Err? ==> r.error == CronNotInstalled
    ensures r.Ok? ==> r.value.Keys == jobs.Keys - {jobName}
    ensures r.Ok? ==> forall j :: j in r.value ==> r.value[j] == jobs[j]
  {
    if !cronInstalled then Err(CronNotInstalled)
    else Ok(jobs - {jobName})
  }

  /** The optional scheduling step at the end of both create functions. */
  function ScheduleIfRequested(store: Store, env: Environment, name: string, schedule: Option<string>): (r: Result<Store>)
    ensures schedule.None? ==> r == Ok(store)
    ensures schedule.Some? ==> (r.Ok? <==> env.cronInstalled)
    ensures r.Ok? ==> r.value == store.(cronJobs := r.value.cronJobs)
    ensures r.Ok? && schedule.Some? ==>
              r.value.cronJobs.Keys == store.cronJobs.Keys + {CronJobName(name)} &&
              r.value.cronJobs[CronJobName(name)] == CronJob(schedule.value, name)
    ensures r.Ok? ==> forall j :: j in store.cronJobs && j != CronJobName(name) ==>
                        j in r.value.cronJobs && r.value.cronJobs[j] == store.cronJobs[j]
  {
    match schedule
    case None => Ok(store)
    case Some(s) =>
      var jobs :- ScheduleCronJob(store.cronJobs, env.cronInstalled, CronJobName(name), s, name);
      Ok(store.(cronJobs := jobs))
  }

  // ---------------------------------------------------------------------------
  // Owner check and dispatch

  /** EnsurePipelineOwner: a superuser always passes; anyone else must be the recorded owner. */
  function EnsurePipelineOwner(session: Session, name: string, ownerId: Oid): (r: Result<()>)
    ensures r.Ok? <==> session.isSuperuser || session.userId == ownerId
    ensures r.Err? ==> r.error == PermissionDenied(name)
  {
    if session.isSuperuser then Ok(())
    else if ownerId != session.userId then Err(PermissionDenied(name))
    else Ok(())
  }

  /**
   What executing pipeline `name` of `kind` once does to the store, in terms of
   the pops: a sequence pipeline needs its state row and a table-owned sequence
   the caller may read; its watermark advances to the sequence's last value
   and the command runs once over the popped range when that range is not
   empty. A time-interval pipeline needs its state row and a positive
   interval; its watermark advances to the safe boundary (the date_bin of
   now - min_delay) and commands run exactly when the watermark was before
   that boundary: one over the whole range in batched mode, one per interval
   window otherwise. A file-list pipeline is not handled here. Nothing else
   in the store changes.
   */
  predicate ExecutionEffect(store: Store, env: Environment, name: string, kind: PipelineKind, r: Result<Store>) {
    match kind
    case FileListPipeline => r == Err(UnknownPipelineType)
    case SequenceRangePipeline =>
      && (r.Ok? <==> name in store.registry && name in store.sequences &&
                     Sequence.IsTableOwned(env.catalog, store.sequences[name].sequenceId) &&
                     HasSequencePrivilege(env.catalog, env.session, store.sequences[name].sequenceId))
      && (r.Ok? ==>
            var row := store.sequences[name];
            var last := SequenceLastValue(env.catalog, row.sequenceId);
            var range := Sequence.ResolveRange(row.lastProcessed, last).range;
            r.value == store.(sequences := store.sequences[name := row.(lastProcessed := Sequence.Advance(row.lastProcessed, last))],
                              log := store.log + (if range.rangeStart <= range.rangeEnd
                                                  then [RangeCommand(name, range.rangeStart, range.rangeEnd)]
                                                  else [])))
    case TimeIntervalPipeline =>
      && (name !in store.registry ==> r == Err(NoSuchPipeline(name)))
      && (r.Ok? <==> name in store.registry && name in store.timeIntervals && store.timeIntervals[name].timeInterval > 0)
      && (r.Ok? ==>
            var row := store.timeIntervals[name];
            var start := row.lastProcessedTime.GetOr(0);
            var boundary := TimeInterval.DateBin(row.timeInterval, env.now - row.minDelay, TimeInterval.DateBinOrigin);
            r.value == store.(timeIntervals := store.timeIntervals[name := row.(lastProcessedTime := TimeInterval.AdvanceTime(row, env.now))],
                              log := store.log + (if start >= boundary then []
                                                  else if row.batched then [RangeCommand(name, start, boundary)]
                                                  else TimeInterval.WindowCommands(name, TimeInterval.Windows(start, boundary, row.timeInterval)))))
  }

  /**
   ExecutePipeline: a sequence pipeline evaluates its command block once; a
   time-interval pipeline runs its executor; any other kind is an error. Only
   the kind's own state and the command log change, and the log only grows
   by the executor's calls.
   */
  function ExecutePipeline(store: Store, env: Environment, name: string, kind: PipelineKind): (r: Result<Store>)
    ensures kind == FileListPipeline ==> r == Err(UnknownPipelineType)
    ensures kind == SequenceRangePipeline ==>
              var run := Sequence.RunSequenceBlock(store.registry, store.sequences, env.catalog, env.session, name);
              && (r.Ok? <==> run.Ok?)
              && (run.Err? ==> r == Err(run.error))
              && (run.Ok? ==> r.value.sequences == run.value.rows && r.value.log == store.log + run.value.calls)
    ensures kind == TimeIntervalPipeline ==>
              var run := TimeInterval.ExecuteTimeIntervalPipeline(store.registry, store.timeIntervals, name, env.now);
              && (r.Ok? <==> run.Ok?)
              && (run.Err? ==> r == Err(run.error))
              && (run.Ok? ==> r.value.timeIntervals == run.value.rows && r.value.log == store.log + run.value.calls)
    ensures r.Ok? ==> r.value.registry == store.registry && r.value.fileLists == store.fileLists
    ensures r.Ok? ==> r.value.processedFiles == store.processedFiles && r.value.cronJobs == store.cronJobs
    ensures r.Ok? ==> |store.log| <= |r.value.log| && r.value.log[..|store.log|] == store.log
    ensures r.Ok? && kind == SequenceRangePipeline ==>
              r.value.timeIntervals == store.timeIntervals && r.value.sequences.Keys == store.sequences.Keys &&
              |r.value.log| <= |store.log| + 1
    ensures r.Ok? && kind == TimeIntervalPipeline ==>
              r.value.sequences == store.sequences && r.value.timeIntervals.Keys == store.timeIntervals.Keys
  {
    match kind
    case SequenceRangePipeline =>
      var run :- Sequence.RunSequenceBlock(store.registry, store.sequences, env.catalog, env.session, name);
      assert (store.log + run.calls)[..|store.log|] == store.log;
      Ok(store.(sequences := run.rows, log := store.log + run.calls))
    case TimeIntervalPipeline =>
      var run :- TimeInterval.ExecuteTimeIntervalPipeline(store.registry, store.timeIntervals, name, env.now);
      TimeInterval.ExecuteTimeIntervalPipelineSpec(store.registry, store.timeIntervals, name, env.now);
      assert (store.log + run.calls)[..|store.log|] == store.log;
      Ok(store.(timeIntervals := run.rows, log := store.log + run.calls))
    case FileListPipeline =>
      Err(UnknownPipelineType)
  }

  /**
   ResetPipeline: a sequence pipeline's watermark becomes 0, a time-interval
   pipeline's becomes timestamp 0; any other kind is an error.
   */
  function ResetPipeline(store: Store, name: string, kind: PipelineKind): (r: Result<Store>)
    ensures kind == FileListPipeline ==> r == Err(UnknownPipelineType)
    ensures kind == SequenceRangePipeline ==> (r.Ok? <==> name in store.sequences)
    ensures kind == TimeIntervalPipeline ==> (r.Ok? <==> name in store.timeIntervals)
    ensures r.Err? && kind != FileListPipeline ==> r.error == PipelineNotFound(name)
    ensures r.Ok? && kind == SequenceRangePipeline ==>
              r.value == store.(sequences := r.value.sequences) &&
              r.value.sequences.Keys == store.sequences.Keys && name in r.value.sequences &&
              r.value.sequences[name].lastProcessed == Some(0) &&
              forall n :: n in store.sequences && n != name ==> r.value.sequences[n] == store.sequences[n]
    ensures r.Ok? && kind == TimeIntervalPipeline ==>
              r.value == store.(timeIntervals := r.value.timeIntervals) &&
              r.value.timeIntervals.Keys == store.timeIntervals.Keys && name in r.value.timeIntervals &&
              r.value.timeIntervals[name] == store.timeIntervals[name].(lastProcessedTime := Some(0)) &&
              forall n :: n in store.timeIntervals && n != name ==> r.value.timeIntervals[n] == store.timeIntervals[n]
  {
    match kind
    case SequenceRangePipeline =>
      var rows :- Sequence.UpdateLastProcessedSequenceNumber(store.sequences, name, 0);
      Ok(store.(sequences := rows))
    case TimeIntervalPipeline =>
      var rows :- TimeInterval.UpdateLastProcessedTimeInterval(store.timeIntervals, name, 0);
      Ok(store.(timeIntervals := rows))
    case FileListPipeline =>
      Err(UnknownPipelineType)
  }

  /**
   DeletePipeline: removes the registry row; the pipeline's state rows and
   ledger entries go with it.
   */
  function DeletePipeline(store: Store, name: string): (r: Store)
    ensures r.registry.Keys == store.registry.Keys - {name}
    ensures forall n :: n in r.registry ==> r.registry[n] == store.registry[n]
    ensures name !in r.sequences && name !in r.timeIntervals && name !in r.fileLists
    ensures r.sequences.Keys == store.sequences.Keys - {name} && r.timeIntervals.Keys == store.timeIntervals.Keys - {name}
    ensures r.fileLists.Keys == store.fileLists.Keys - {name}
    ensures forall n :: n in store.sequences && n != name ==> n in r.sequences && r.sequences[n] == store.sequences[n]
    ensures forall n :: n in store.timeIntervals && n != name ==>
              n in r.timeIntervals && r.timeIntervals[n] == store.timeIntervals[n]
    ensures forall n :: n in store.fileLists && n != name ==> n in r.fileLists && r.fileLists[n] == store.fileLists[n]
    ensures forall e :: e in r.processedFiles <==> e in store.processedFiles && e.0 != name
    ensures r.cronJobs == store.cronJobs && r.log == store.log
  {
    store.(
      registry := store.registry - {name},
      sequences := store.sequences - {name},
      timeIntervals := store.timeIntervals - {name},
      fileLists := store.fileLists - {name},
      processedFiles := set e | e in store.processedFiles && e.0 != name)
  }

  // ---------------------------------------------------------------------------
  // SQL entry points that act on an existing pipeline

  /** incremental_execute_pipeline: look the pipeline up, check the owner, dispatch. */
  function ExecutePipelineByName(store: Store, env: Environment, name: string): (r: Result<Store>)
    ensures name !in store.registry ==> r == Err(NoSuchPipeline(name))
    ensures name in store.registry && !(env.session.isSuperuser || env.session.userId == store.registry[name].ownerId) ==>
              r == Err(PermissionDenied(name))
    ensures r.Ok? ==> name in store.registry && store.registry[name].pipelineType != FileListPipeline
    ensures r.Ok? ==> r.value.registry == store.registry && r.value.cronJobs == store.cronJobs
    ensures r.Ok? && Consistent(store) ==> Consistent(r.value)
    ensures name in store.registry && (env.session.isSuperuser || env.session.userId == store.registry[name].ownerId) ==>
              ExecutionEffect(store, env, name, store.registry[name].pipelineType, r)
  {
    var desc :- ReadPipelineDesc(store.registry, name);
    var _ :- EnsurePipelineOwner(env.session, name, desc.ownerId);
    ExecutePipelineEffect(store, env, name, desc.pipelineType);
    ExecutePipeline(store, env, name, desc.pipelineType)
  }

  /** incremental_reset_pipeline: look the pipeline up, check the owner, reset its watermark. */
  function ResetPipelineByName(store: Store, env: Environment, name: string): (r: Result<Store>)
    ensures name !in store.registry ==> r == Err(NoSuchPipeline(name))
    ensures name in store.registry && !(env.session.isSuperuser || env.session.userId == store.registry[name].ownerId) ==>
              r == Err(PermissionDenied(name))
    ensures r.Ok? ==> name in store.registry && store.registry[name].pipelineType != FileListPipeline
    ensures r.Ok? ==> r.value.registry == store.registry && r.value.log == store.log
    ensures r.Ok? && Consistent(store) ==> Consistent(r.value)
    ensures r.Ok? && store.registry[name].pipelineType == SequenceRangePipeline ==>
              name in r.value.sequences && Sequence.RangeStart(r.value.sequences[name].lastProcessed) == 1
    ensures r.Ok? && store.registry[name].pipelineType == TimeIntervalPipeline ==>
              name in r.value.timeIntervals && r.value.timeIntervals[name].lastProcessedTime == Some(0)
    ensures r.Ok? <==> name in store.registry &&
                       (env.session.isSuperuser || env.session.userId == store.registry[name].ownerId) &&
                       ((store.registry[name].pipelineType == SequenceRangePipeline && name in store.sequences) ||
                        (store.registry[name].pipelineType == TimeIntervalPipeline && name in store.timeIntervals))
    ensures name in store.registry && (env.session.isSuperuser || env.session.userId == store.registry[name].ownerId) ==>
              (store.registry[name].pipelineType == FileListPipeline ==> r == Err(UnknownPipelineType)) &&
              (store.registry[name].pipelineType != FileListPipeline && r.Err? ==> r.error == PipelineNotFound(name))
    ensures r.Ok? && store.registry[name].pipelineType == SequenceRangePipeline ==>
              r.value == store.(sequences := store.sequences[name := store.sequences[name].(lastProcessed := Some(0))])
    ensures r.Ok? && store.registry[name].pipelineType == TimeIntervalPipeline ==>
              r.value == store.(timeIntervals := store.timeIntervals[name := store.timeIntervals[name].(lastProcessedTime := Some(0))])
  {
    var desc :- ReadPipelineDesc(store.registry, name);
    var _ :- EnsurePipelineOwner(env.session, name, desc.ownerId);
    ResetPipeline(store, name, desc.pipelineType)
  }

  /** incremental_drop_pipeline: look the pipeline up, check the owner, delete it, unschedule its job. */
  function DropPipeline(store: Store, env: Environment, name: string): (r: Result<Store>)
    ensures name !in store.registry ==> r == Err(NoSuchPipeline(name))
    ensures name in store.registry && !(env.session.isSuperuser || env.session.userId == store.registry[name].ownerId) ==>
              r == Err(PermissionDenied(name))
    ensures r.Ok? <==> name in store.registry && env.cronInstalled &&
                       (env.session.isSuperuser || env.session.userId == store.registry[name].ownerId)
    ensures r.Ok? ==> r.value.registry.Keys == store.registry.Keys - {name}
    ensures r.Ok? ==> name !in r.value.sequences && name !in r.value.timeIntervals && name !in r.value.fileLists
    ensures r.Ok? ==> forall e :: e in r.value.processedFiles ==> e.0 != name
    ensures r.Ok? ==> r.value.cronJobs.Keys == store.cronJobs.Keys - {CronJobName(name)}
    ensures r.Ok? ==> r.value.log == store.log
    ensures r.Ok? && Consistent(store) ==> Consistent(r.value)
    ensures r.Ok? ==> forall n :: n in r.value.registry ==> r.value.registry[n] == store.registry[n]
    ensures r.Ok? ==> r.value.sequences.Keys == store.sequences.Keys - {name} &&
                      forall n :: n in r.value.sequences ==> r.value.sequences[n] == store.sequences[n]
    ensures r.Ok? ==> r.value.timeIntervals.Keys == store.timeIntervals.Keys - {name} &&
                      forall n :: n in r.value.timeIntervals ==> r.value.timeIntervals[n] == store.timeIntervals[n]
    ensures r.Ok? ==> r.value.fileLists.Keys == store.fileLists.Keys - {name} &&
                      forall n :: n in r.value.fileLists ==> r.value.fileLists[n] == store.fileLists[n]
    ensures r.Ok? ==> forall e :: e in r.value.processedFiles <==> e in store.processedFiles && e.0 != name
    ensures r.Ok? ==> forall j :: j in r.value.cronJobs ==> r.value.cronJobs[j] == store.cronJobs[j]
  {
    var desc :- ReadPipelineDesc(store.registry, name);
    var _ :- EnsurePipelineOwner(env.session, name, desc.ownerId);
    var deleted := DeletePipeline(store, name);
    var jobs :- UnscheduleCronJob(deleted.cronJobs, env.cronInstalled, CronJobName(name));
    Ok(deleted.(cronJobs := jobs))
  }

  // ---------------------------------------------------------------------------
  // Creation

  /**
   The relkind switch of incremental_create_sequence_pipeline: returns the
   source relation to record and the sequence to track. A sequence must be
   owned by a table through an auto dependency and records that table; a
   table, foreign table or partitioned table records itself and tracks its
   single owned sequence; anything else, or no relation at all, is refused.
   */
  function ResolveSequenceSource(catalog: Catalog, relId: Oid): (r: Result<(Oid, Oid)>)
    ensures relId !in catalog || catalog[relId].kind == RelOtherKind ==> r == Err(NotTableOrSequence)
    ensures relId in catalog && catalog[relId].kind == RelSequence ==>
              (r.Ok? <==> SequenceOwner(catalog, relId, DependencyAuto).Some?) &&
              (r.Err? ==> r.error == NotOwnedByTable) &&
              (r.Ok? ==> r.value == (SequenceOwner(catalog, relId, DependencyAuto).value, relId))
    ensures relId in catalog && catalog[relId].kind in {RelTable, RelForeignTable, RelPartitionedTable} ==>
              (r.Ok? <==> |catalog[relId].ownedSequences| == 1) &&
              (r.Ok? ==> r.value == (relId, catalog[relId].ownedSequences[0]))
  {
    if relId !in catalog then Err(NotTableOrSequence)
    else
      match catalog[relId].kind
      case RelSequence =>
        (match SequenceOwner(catalog, relId, DependencyAuto)
         case None => Err(NotOwnedByTable)
         case Some(owner) => Ok((owner, relId)))
      case RelTable =>
        var seqId :- Sequence.FindSequenceForRelation(catalog, relId);
        Ok((relId, seqId))
      case RelForeignTable =>
        var seqId :- Sequence.FindSequenceForRelation(catalog, relId);
        Ok((relId, seqId))
      case RelPartitionedTable =>
        var seqId :- Sequence.FindSequenceForRelation(catalog, relId);
        Ok((relId, seqId))
      case RelOtherKind =>
        Err(NotTableOrSequence)
  }

  /** ExecutePipeline has the effect ExecutionEffect describes. */
  lemma ExecutePipelineEffect(store: Store, env: Environment, name: string, kind: PipelineKind)
    ensures ExecutionEffect(store, env, name, kind, ExecutePipeline(store, env, name, kind))
  {
    var r := ExecutePipeline(store, env, name, kind);
    match kind
    case FileListPipeline =>
    case SequenceRangePipeline =>
      if r.Ok? {
        var run := Sequence.RunSequenceBlock(store.registry, store.sequences, env.catalog, env.session, name).value;
        var row := store.sequences[name];
        assert run.rows == store.sequences[name := row.(lastProcessed := Sequence.Advance(row.lastProcessed, SequenceLastValue(env.catalog, row.sequenceId)))];
      }
    case TimeIntervalPipeline =>
      if r.Ok? {
        TimeIntervalRunEffect(store.registry, store.timeIntervals, name, env.now);
      }
  }

  /** The time-interval executor's rows and calls, stated in terms of the row it starts from. */
  lemma TimeIntervalRunEffect(registry: Registry, rows: TimeInterval.TimeRows, name: string, now: int)
    requires TimeInterval.ExecuteTimeIntervalPipeline(registry, rows, name, now).Ok?
    ensures var run := TimeInterval.ExecuteTimeIntervalPipeline(registry, rows, name, now).value;
            var row := rows[name];
            var start := row.lastProcessedTime.GetOr(0);
            var boundary := TimeInterval.DateBin(row.timeInterval, now - row.minDelay, TimeInterval.DateBinOrigin);
            && run.rows == rows[name := row.(lastProcessedTime := TimeInterval.AdvanceTime(row, now))]
            && run.calls == (if start >= boundary then []
                             else if row.batched then [RangeCommand(name, start, boundary)]
                             else TimeInterval.WindowCommands(name, TimeInterval.Windows(start, boundary, row.timeInterval)))
  {
    var popped := TimeInterval.PopTimeIntervalRange(rows, name, now).value;
    assert popped.rows == rows[name := rows[name].(lastProcessedTime := TimeInterval.AdvanceTime(rows[name], now))];
  }

  /**
   The optional immediate execution step of both create functions: without
   the flag the store is unchanged; with it, one execution takes place.
   */
  function ExecuteIfRequested(store: Store, env: Environment, name: string, kind: PipelineKind,
                              executeImmediately: bool): (r: Result<Store>)
    ensures !executeImmediately ==> r == Ok(store)
    ensures executeImmediately ==> ExecutionEffect(store, env, name, kind, r)
  {
    if executeImmediately then
      ExecutePipelineEffect(store, env, name, kind);
      ExecutePipeline(store, env, name, kind)
    else Ok(store)
  }

  /**
   incremental_create_sequence_pipeline: NULL checks on name, sequence and
   command in that order, the relkind switch, then the registry row (owner =
   caller), the state row with a NULL watermark, an optional first execution
   and an optional cron job.
   */
  function CreateSequencePipeline(store: Store, env: Environment, pipelineName: Option<string>,
                                  sequenceName: Option<Oid>, command: Option<string>,
                                  schedule: Option<string>, executeImmediately: Option<bool>): (r: Result<Store>)
    ensures pipelineName.None? ==> r == Err(NullArgument("pipeline_name"))
    ensures pipelineName.Some? && sequenceName.None? ==> r == Err(NullArgument("sequence_name"))
    ensures pipelineName.Some? && sequenceName.Some? && command.None? ==> r == Err(NullArgument("command"))
    ensures r.Ok? ==> pipelineName.Some? && sequenceName.Some? && command.Some?
    ensures r.Ok? ==> ResolveSequenceSource(env.catalog, sequenceName.value).Ok?
    ensures r.Ok? ==> pipelineName.value !in store.registry
    ensures r.Ok? ==> var name := pipelineName.value;
                      && r.value.registry.Keys == store.registry.Keys + {name}
                      && r.value.registry[name].pipelineType == SequenceRangePipeline
                      && r.value.registry[name].ownerId == env.session.userId
                      && r.value.registry[name].sourceRelationId == ResolveSequenceSource(env.catalog, sequenceName.value).value.0
                      && name in r.value.sequences
                      && r.value.sequences[name].sequenceId == ResolveSequenceSource(env.catalog, sequenceName.value).value.1
    ensures r.Ok? && !executeImmediately.GetOr(false) ==>
              r.value.log == store.log && Sequence.RangeStart(r.value.sequences[pipelineName.value].lastProcessed) == 0
    ensures r.Ok? && Consistent(store) ==> Consistent(r.value)
    ensures r.Ok? && schedule.None? ==> r.value.cronJobs == store.cronJobs
    ensures r.Ok? && schedule.Some? ==>
              r.value.cronJobs.Keys == store.cronJobs.Keys + {CronJobName(pipelineName.value)} &&
              r.value.cronJobs[CronJobName(pipelineName.value)] == CronJob(schedule.value, pipelineName.value)
    ensures r.Ok? ==> forall j :: j in store.cronJobs && j != CronJobName(pipelineName.value) ==>
                        r.value.cronJobs[j] == store.cronJobs[j]
  {
    if pipelineName.None? then Err(NullArgument("pipeline_name"))
    else if sequenceName.None? then Err(NullArgument("sequence_name"))
    else if command.None? then Err(NullArgument("command"))
    else
      var name := pipelineName.value;
      var source :- ResolveSequenceSource(env.catalog, sequenceName.value);
      var registry :- InsertPipeline(store.registry, env.session, name, SequenceRangePipeline, source.0, command.value);
      var created := store.(registry := registry,
                            sequences := Sequence.InitializeSequencePipelineState(store.sequences, name, source.1));
      var executed :- ExecuteIfRequested(created, env, name, SequenceRangePipeline, executeImmediately.GetOr(false));
      ScheduleIfRequested(executed, env, name, schedule)
  }

  /**
   incremental_create_time_interval_pipeline: NULL checks on name, interval,
   command and min_delay in that order; a NULL start time is refused for a
   non-batched pipeline and stored as timestamp 0 for a batched one; then the
   registry row, the state row, an optional first execution and an optional
   cron job.
   */
  function CreateTimeIntervalPipeline(store: Store, env: Environment, pipelineName: Option<string>,
                                      timeInterval: Option<int>, command: Option<string>, batched: Option<bool>,
                                      startTime: Option<int>, sourceRelation: Option<Oid>,
                                      schedule: Option<string>, minDelay: Option<int>,
                                      executeImmediately: Option<bool>): (r: Result<Store>)
    ensures pipelineName.None? ==> r == Err(NullArgument("pipeline_name"))
    ensures pipelineName.Some? && timeInterval.None? ==> r == Err(NullArgument("time_interval"))
    ensures pipelineName.Some? && timeInterval.Some? && command.None? ==> r == Err(NullArgument("command"))
    ensures pipelineName.Some? && timeInterval.Some? && command.Some? && minDelay.None? ==>
              r == Err(NullArgument("min_delay"))
    ensures (pipelineName.Some? && timeInterval.Some? && command.Some? && minDelay.Some? &&
             !batched.GetOr(false) && startTime.None?) ==> r == Err(StartTimeRequired)
    ensures r.Ok? ==> pipelineName.Some? && timeInterval.Some? && command.Some? && minDelay.Some?
    ensures r.Ok? ==> pipelineName.value !in store.registry
    ensures r.Ok? ==> var name := pipelineName.value;
                      && r.value.registry.Keys == store.registry.Keys + {name}
                      && r.value.registry[name].pipelineType == TimeIntervalPipeline
                      && r.value.registry[name].ownerId == env.session.userId
                      && r.value.registry[name].sourceRelationId == sourceRelation.GetOr(InvalidOid)
                      && name in r.value.timeIntervals
                      && r.value.timeIntervals[name].batched == batched.GetOr(false)
                      && r.value.timeIntervals[name].timeInterval == timeInterval.value
                      && r.value.timeIntervals[name].minDelay == minDelay.value
    ensures r.Ok? && !executeImmediately.GetOr(false) ==>
              r.value.log == store.log &&
              r.value.timeIntervals[pipelineName.value].lastProcessedTime == Some(startTime.GetOr(0))
    ensures r.Ok? && Consistent(store) ==> Consistent(r.value)
    ensures r.Ok? && schedule.None? ==> r.value.cronJobs == store.cronJobs
    ensures r.Ok? && schedule.Some? ==>
              r.value.cronJobs.Keys == store.cronJobs.Keys + {CronJobName(pipelineName.value)} &&
              r.value.cronJobs[CronJobName(pipelineName.value)] == CronJob(schedule.value, pipelineName.value)
    ensures r.Ok? ==> forall j :: j in store.cronJobs && j != CronJobName(pipelineName.value) ==>
                        r.value.cronJobs[j] == store.cronJobs[j]
  {
    if pipelineName.None? then Err(NullArgument("pipeline_name"))
    else if timeInterval.None? then Err(NullArgument("time_interval"))
    else if command.None? then Err(NullArgument("command"))
    else if minDelay.None? then Err(NullArgument("min_delay"))
    else
      var name := pipelineName.value;
      var isBatched := batched.GetOr(false);
      if !isBatched && startTime.None? then Err(StartTimeRequired)
      else
        var registry :- InsertPipeline(store.registry, env.session, name, TimeIntervalPipeline,
                                       sourceRelation.GetOr(InvalidOid), command.value);
        var created := store.(registry := registry,
                              timeIntervals := TimeInterval.InitializeTimeRangePipelineState(
                                store.timeIntervals, name, isBatched, startTime.GetOr(0), timeInterval.value, minDelay.value));
        var executed :- ExecuteIfRequested(created, env, name, TimeIntervalPipeline, executeImmediately.GetOr(false));
        ScheduleIfRequested(executed, env, name, schedule)
  }

  // ---------------------------------------------------------------------------
  // Properties across operations

  /**
   A pipeline its creator has just made can be dropped by the same caller
   (when pg_cron is installed), and dropping it leaves the registry as it was
   before the creation and the cron jobs as they were apart from the
   pipeline's own job name, which is gone. When the store was consistent,
   every other table is back as it was too; only the command log keeps what
   the creation ran.
   */
  lemma CreateThenDrop(store: Store, env: Environment, name: string, sequenceName: Oid, command: string,
                       schedule: Option<string>, executeImmediately: Option<bool>)
    requires env.cronInstalled
    requires CreateSequencePipeline(store, env, Some(name), Some(sequenceName), Some(command), schedule, executeImmediately).Ok?
    ensures var created := CreateSequencePipeline(store, env, Some(name), Some(sequenceName), Some(command),
                                                  schedule, executeImmediately).value;
            var dropped := DropPipeline(created, env, name);
            && dropped.Ok?
            && dropped.value.registry == store.registry
            && dropped.value.cronJobs == store.cronJobs - {CronJobName(name)}
            && name !in dropped.value.sequences
            && (Consistent(store) ==> dropped.value == store.(cronJobs := store.cronJobs - {CronJobName(name)},
                                                              log := created.log))
  {
    var inserted, executed := CreateSequenceSteps(store, env, name, sequenceName, command, schedule, executeImmediately);
    var created := CreateSequencePipeline(store, env, Some(name), Some(sequenceName), Some(command),
                                          schedule, executeImmediately).value;
    assert created.registry == inserted.registry;
    DropRestores(store, created, env, name);
    if Consistent(store) {
      CreateThenDropConsistent(store, env, name, sequenceName, command, schedule, executeImmediately);
    }
  }

  /** The consistent-store half of CreateThenDrop: the whole store comes back, less the job and with the grown log. */
  lemma CreateThenDropConsistent(store: Store, env: Environment, name: string, sequenceName: Oid, command: string,
                                 schedule: Option<string>, executeImmediately: Option<bool>)
    requires env.cronInstalled && Consistent(store)
    requires CreateSequencePipeline(store, env, Some(name), Some(sequenceName), Some(command), schedule, executeImmediately).Ok?
    ensures var created := CreateSequencePipeline(store, env, Some(name), Some(sequenceName), Some(command),
                                                  schedule, executeImmediately).value;
            DropPipeline(created, env, name) == Ok(store.(cronJobs := store.cronJobs - {CronJobName(name)}, log := created.log))
  {
    var inserted, executed := CreateSequenceSteps(store, env, name, sequenceName, command, schedule, executeImmediately);
    var created := CreateSequencePipeline(store, env, Some(name), Some(sequenceName), Some(command),
                                          schedule, executeImmediately).value;
    ScheduledStoreDrops(store, inserted, executed, created, env, name, executeImmediately.GetOr(false), schedule);
  }

  /**
   A store that adds one owned sequence pipeline to a consistent store, then
   runs it or not and schedules it or not, drops back to that store.
   */
  lemma ScheduledStoreDrops(store: Store, inserted: Store, executed: Store, created: Store, env: Environment,
                            name: string, executeImmediately: bool, schedule: Option<string>)
    requires Consistent(store) && env.cronInstalled && name !in store.registry
    requires name in inserted.registry && inserted.registry == store.registry[name := inserted.registry[name]]
    requires inserted.registry[name].ownerId == env.session.userId
    requires name in inserted.sequences && inserted.sequences == store.sequences[name := inserted.sequences[name]]
    requires inserted == store.(registry := inserted.registry, sequences := inserted.sequences)
    requires ExecuteIfRequested(inserted, env, name, SequenceRangePipeline, executeImmediately) == Ok(executed)
    requires ScheduleIfRequested(executed, env, name, schedule) == Ok(created)
    ensures DropPipeline(created, env, name) == Ok(store.(cronJobs := store.cronJobs - {CronJobName(name)}, log := created.log))
  {
    ExecutionTouchesOneRow(inserted, env, name, executeImmediately, executed);
    assert created == executed.(cronJobs := created.cronJobs);
    assert created.sequences == store.sequences[name := created.sequences[name]];
    DropRestoresStore(store, created, env, name);
  }

  /** Executing a sequence pipeline, or not, changes at most its own row and the log. */
  lemma ExecutionTouchesOneRow(store: Store, env: Environment, name: string, executeImmediately: bool, executed: Store)
    requires name in store.sequences
    requires ExecuteIfRequested(store, env, name, SequenceRangePipeline, executeImmediately) == Ok(executed)
    ensures name in executed.sequences
    ensures executed == store.(sequences := store.sequences[name := executed.sequences[name]], log := executed.log)
  {
    if !executeImmediately {
      assert store.sequences[name := store.sequences[name]] == store.sequences;
    }
  }

  /**
   On a consistent store, dropping a sequence pipeline that was added to it
   (with whatever watermark and log the pipeline reached) gives back the store
   itself, less the pipeline's job and with the grown log.
   */
  lemma DropRestoresStore(store: Store, created: Store, env: Environment, name: string)
    requires Consistent(store) && env.cronInstalled && name !in store.registry
    requires name in created.registry && created.registry == store.registry[name := created.registry[name]]
    requires created.registry[name].ownerId == env.session.userId
    requires created.cronJobs.Keys <= store.cronJobs.Keys + {CronJobName(name)}
    requires forall j :: j in store.cronJobs && j != CronJobName(name) ==>
                         j in created.cronJobs && created.cronJobs[j] == store.cronJobs[j]
    requires name in created.sequences && created.sequences == store.sequences[name := created.sequences[name]]
    requires created.timeIntervals == store.timeIntervals && created.fileLists == store.fileLists
    requires created.processedFiles == store.processedFiles
    ensures DropPipeline(created, env, name) == Ok(store.(cronJobs := store.cronJobs - {CronJobName(name)}, log := created.log))
  {
    DropRestores(store, created, env, name);
    TablesRestored(store, created, DropPipeline(created, env, name).value, name);
  }

  /** The tables of a consistent store come back once the one pipeline added to it is deleted again. */
  lemma TablesRestored(store: Store, created: Store, dropped: Store, name: string)
    requires Consistent(store) && name !in store.registry
    requires name in created.sequences && created.sequences == store.sequences[name := created.sequences[name]]
    requires created.timeIntervals == store.timeIntervals && created.fileLists == store.fileLists
    requires created.processedFiles == store.processedFiles
    requires dropped.registry == store.registry && dropped.cronJobs == store.cronJobs - {CronJobName(name)}
    requires dropped.log == created.log
    requires dropped.sequences.Keys == created.sequences.Keys - {name} &&
             forall n :: n in dropped.sequences ==> dropped.sequences[n] == created.sequences[n]
    requires dropped.timeIntervals.Keys == created.timeIntervals.Keys - {name} &&
             forall n :: n in dropped.timeIntervals ==> dropped.timeIntervals[n] == created.timeIntervals[n]
    requires dropped.fileLists.Keys == created.fileLists.Keys - {name} &&
             forall n :: n in dropped.fileLists ==> dropped.fileLists[n] == created.fileLists[n]
    requires forall e :: e in dropped.processedFiles <==> e in created.processedFiles && e.0 != name
    ensures dropped == store.(cronJobs := store.cronJobs - {CronJobName(name)}, log := created.log)
  {
    assert name !in store.sequences && name !in store.timeIntervals && name !in store.fileLists;
    assert dropped.sequences == store.sequences;
    assert dropped.timeIntervals == store.timeIntervals;
    assert dropped.fileLists == store.fileLists;
    assert dropped.processedFiles == store.processedFiles;
  }

  /**
   Dropping a pipeline the caller owns from a store that differs from `store`
   only by that pipeline's registry row and job gives back `store`'s registry
   and its other jobs.
   */
  lemma DropRestores(store: Store, created: Store, env: Environment, name: string)
    requires env.cronInstalled && name !in store.registry
    requires name in created.registry && created.registry == store.registry[name := created.registry[name]]
    requires created.registry[name].ownerId == env.session.userId
    requires created.cronJobs.Keys <= store.cronJobs.Keys + {CronJobName(name)}
    requires forall j :: j in store.cronJobs && j != CronJobName(name) ==>
                         j in created.cronJobs && created.cronJobs[j] == store.cronJobs[j]
    ensures var dropped := DropPipeline(created, env, name);
            && dropped.Ok?
            && dropped.value.registry == store.registry
            && dropped.value.cronJobs == store.cronJobs - {CronJobName(name)}
            && name !in dropped.value.sequences
  {
    var dropped := DropPipeline(created, env, name).value;
    assert dropped.registry.Keys == store.registry.Keys;
    forall n | n in store.registry
      ensures dropped.registry[n] == store.registry[n]
    {
      assert n != name;
    }
    EntryRestored(store.cronJobs, created.cronJobs, dropped.cronJobs, CronJobName(name));
  }

  /** Adding or replacing one entry of a table and then removing it leaves the other entries as they were. */
  lemma EntryRestored<V>(before: map<string, V>, created: map<string, V>, dropped: map<string, V>, key: string)
    requires created.Keys <= before.Keys + {key}
    requires forall j :: j in before && j != key ==> j in created && created[j] == before[j]
    requires dropped.Keys == created.Keys - {key}
    requires forall j :: j in dropped ==> dropped[j] == created[j]
    ensures dropped == before - {key}
  {
    assert dropped.Keys == (before - {key}).Keys;
  }

  /**
   execute_immediately on a new sequence pipeline: the creation succeeds only
   when the caller may read the sequence, the watermark, NULL before, advances
   to the sequence's last value when there is one, and the command runs once
   over 0 .. last value when that range is not empty.
   */
  lemma CreateSequenceExecutesImmediately(store: Store, env: Environment, name: string, sequenceName: Oid,
                                          command: string, schedule: Option<string>)
    requires CreateSequencePipeline(store, env, Some(name), Some(sequenceName), Some(command), schedule, Some(true)).Ok?
    ensures var created := CreateSequencePipeline(store, env, Some(name), Some(sequenceName), Some(command),
                                                  schedule, Some(true)).value;
            var seqId := ResolveSequenceSource(env.catalog, sequenceName).value.1;
            var last := SequenceLastValue(env.catalog, seqId);
            && HasSequencePrivilege(env.catalog, env.session, seqId)
            && Sequence.IsTableOwned(env.catalog, seqId)
            && created.sequences[name].lastProcessed == (if last.Some? && 0 <= last.value then last else None)
            && created.log == store.log + (if 0 <= last.GetOr(0) then [RangeCommand(name, 0, last.GetOr(0))] else [])
  {
    var created, executed := CreateSequenceSteps(store, env, name, sequenceName, command, schedule, Some(true));
    assert created.sequences[name].lastProcessed == None;
  }

  /** The stores a successful CreateSequencePipeline passes through: after the inserts, and after the execution step. */
  lemma CreateSequenceSteps(store: Store, env: Environment, name: string, sequenceName: Oid, command: string,
                            schedule: Option<string>, executeImmediately: Option<bool>)
    returns (created: Store, executed: Store)
    requires CreateSequencePipeline(store, env, Some(name), Some(sequenceName), Some(command), schedule, executeImmediately).Ok?
    ensures var source := ResolveSequenceSource(env.catalog, sequenceName).value;
            && name !in store.registry
            && created == store.(registry := created.registry,
                                 sequences := Sequence.InitializeSequencePipelineState(store.sequences, name, source.1))
            && created.registry == store.registry[name := PipelineDesc(SequenceRangePipeline, env.session.userId, source.0, command)]
    ensures ExecuteIfRequested(created, env, name, SequenceRangePipeline, executeImmediately.GetOr(false)) == Ok(executed)
    ensures CreateSequencePipeline(store, env, Some(name), Some(sequenceName), Some(command), schedule, executeImmediately) ==
            ScheduleIfRequested(executed, env, name, schedule)
  {
    var source := ResolveSequenceSource(env.catalog, sequenceName).value;
    var registry := InsertPipeline(store.registry, env.session, name, SequenceRangePipeline, source.0, command).value;
    created := store.(registry := registry,
                      sequences := Sequence.InitializeSequencePipelineState(store.sequences, name, source.1));
    executed := ExecuteIfRequested(created, env, name, SequenceRangePipeline, executeImmediately.GetOr(false)).value;
  }

  /**
   execute_immediately on a new time-interval pipeline: commands run exactly
   when the start time is before the safe boundary, and the watermark then
   becomes that boundary; a batched pipeline gets one call over the whole
   range.
   */
  lemma CreateTimeIntervalExecutesImmediately(store: Store, env: Environment, name: string, timeInterval: int,
                                              command: string, batched: Option<bool>, startTime: Option<int>,
                                              sourceRelation: Option<Oid>, schedule: Option<string>, minDelay: int)
    requires CreateTimeIntervalPipeline(store, env, Some(name), Some(timeInterval), Some(command), batched, startTime,
                                        sourceRelation, schedule, Some(minDelay), Some(true)).Ok?
    ensures var created := CreateTimeIntervalPipeline(store, env, Some(name), Some(timeInterval), Some(command), batched,
                                                      startTime, sourceRelation, schedule, Some(minDelay), Some(true)).value;
            var start := startTime.GetOr(0);
            var boundary := TimeInterval.DateBin(timeInterval, env.now - minDelay, TimeInterval.DateBinOrigin);
            && timeInterval > 0
            && (created.log != store.log <==> start < boundary)
            && created.timeIntervals[name].lastProcessedTime == Some(if start < boundary then boundary else start)
            && (start < boundary && batched.GetOr(false) ==> created.log == store.log + [RangeCommand(name, start, boundary)])
  {
    var created, executed := CreateTimeIntervalSteps(store, env, name, timeInterval, command, batched, startTime,
                                                     sourceRelation, schedule, minDelay, Some(true));
    assert created.timeIntervals[name] ==
           TimeInterval.TimeIntervalRow(batched.GetOr(false), Some(startTime.GetOr(0)), timeInterval, minDelay);
    TimeIntervalExecution(created, env, name, executed);
  }

  /** One execution of a time-interval pipeline, in terms of its row before the execution. */
  lemma TimeIntervalExecution(store: Store, env: Environment, name: string, executed: Store)
    requires ExecuteIfRequested(store, env, name, TimeIntervalPipeline, true) == Ok(executed)
    ensures name in store.timeIntervals && name in executed.timeIntervals
    ensures var row := store.timeIntervals[name];
            var start := row.lastProcessedTime.GetOr(0);
            var boundary := TimeInterval.DateBin(row.timeInterval, env.now - row.minDelay, TimeInterval.DateBinOrigin);
            && row.timeInterval > 0
            && (executed.log != store.log <==> start < boundary)
            && executed.timeIntervals[name].lastProcessedTime ==
               (if start < boundary then Some(boundary) else row.lastProcessedTime)
            && (start < boundary && row.batched ==> executed.log == store.log + [RangeCommand(name, start, boundary)])
  {
    var row := store.timeIntervals[name];
    var start := row.lastProcessedTime.GetOr(0);
    var boundary := TimeInterval.DateBin(row.timeInterval, env.now - row.minDelay, TimeInterval.DateBinOrigin);
    if start < boundary && !row.batched {
      TimeInterval.WindowsShape(start, boundary, row.timeInterval);
    }
  }

  /** The stores a successful CreateTimeIntervalPipeline passes through: after the inserts, and after the execution step. */
  lemma CreateTimeIntervalSteps(store: Store, env: Environment, name: string, timeInterval: int, command: string,
                                batched: Option<bool>, startTime: Option<int>, sourceRelation: Option<Oid>,
                                schedule: Option<string>, minDelay: int, executeImmediately: Option<bool>)
    returns (created: Store, executed: Store)
    requires CreateTimeIntervalPipeline(store, env, Some(name), Some(timeInterval), Some(command), batched, startTime,
                                        sourceRelation, schedule, Some(minDelay), executeImmediately).Ok?
    ensures created == store.(registry := created.registry,
                              timeIntervals := TimeInterval.InitializeTimeRangePipelineState(
                                store.timeIntervals, name, batched.GetOr(false), startTime.GetOr(0), timeInterval, minDelay))
    ensures ExecuteIfRequested(created, env, name, TimeIntervalPipeline, executeImmediately.GetOr(false)) == Ok(executed)
    ensures CreateTimeIntervalPipeline(store, env, Some(name), Some(timeInterval), Some(command), batched, startTime,
                                       sourceRelation, schedule, Some(minDelay), executeImmediately) ==
            ScheduleIfRequested(executed, env, name, schedule)
  {
    var registry := InsertPipeline(store.registry, env.session, name, TimeIntervalPipeline,
                                   sourceRelation.GetOr(InvalidOid), command).value;
    created := store.(registry := registry,
                      timeIntervals := TimeInterval.InitializeTimeRangePipelineState(
                        store.timeIntervals, name, batched.GetOr(false), startTime.GetOr(0), timeInterval, minDelay));
    executed := ExecuteIfRequested(created, env, name, TimeIntervalPipeline, executeImmediately.GetOr(false)).value;
  }

  /**
   In a well-formed catalog the registry's source_relation of a sequence
   pipeline is never a table-owned sequence, so a range lookup that pops with
   it (as incremental_sequence_range does as written) fails on every pipeline
   the create function makes.
   */
  lemma AsWrittenRangeFailsForCreatedPipelines(store: Store, env: Environment, name: string, sequenceName: Oid,
                                               command: string, schedule: Option<string>,
                                               executeImmediately: Option<bool>, caller: Session)
    requires WellFormed(env.catalog)
    requires CreateSequencePipeline(store, env, Some(name), Some(sequenceName), Some(command), schedule, executeImmediately).Ok?
    ensures var created := CreateSequencePipeline(store, env, Some(name), Some(sequenceName), Some(command),
                                                  schedule, executeImmediately).value;
            Sequence.IncrementalSequenceRangeAsWritten(None, created.registry, created.sequences, env.catalog,
                                                       caller, name) == Err(NotOwnedByTable)
  {
    var created := CreateSequencePipeline(store, env, Some(name), Some(sequenceName), Some(command),
                                          schedule, executeImmediately).value;
    var source := ResolveSequenceSource(env.catalog, sequenceName).value.0;
    assert created.registry[name].sourceRelationId == source;
    NonSequenceHasNoOwner(env.catalog, source, DependencyAuto);
    NonSequenceHasNoOwner(env.catalog, source, DependencyInternal);
  }

  /**
   With the sequence taken from the pipeline's own state row, the range lookup
   of a freshly created sequence pipeline succeeds for any caller allowed to
   use the sequence, and starts at 0 when the pipeline was not executed yet.
   */
  lemma CorrectedRangeSucceedsForCreatedPipelines(store: Store, env: Environment, name: string, sequenceName: Oid,
                                                  command: string, schedule: Option<string>, caller: Session)
    requires WellFormed(env.catalog)
    requires CreateSequencePipeline(store, env, Some(name), Some(sequenceName), Some(command), schedule, None).Ok?
    requires HasSequencePrivilege(env.catalog, caller, ResolveSequenceSource(env.catalog, sequenceName).value.1)
    ensures var created := CreateSequencePipeline(store, env, Some(name), Some(sequenceName), Some(command),
                                                  schedule, None).value;
            var call := Sequence.IncrementalSequenceRange(None, created.registry, created.sequences, env.catalog,
                                                           caller, name);
            call.Ok? && call.value.range.rangeStart == 0
  {
    var created := CreateSequencePipeline(store, env, Some(name), Some(sequenceName), Some(command),
                                          schedule, None).value;
    var seqId := ResolveSequenceSource(env.catalog, sequenceName).value.1;
    assert created.sequences[name].sequenceId == seqId;
    var catalog := env.catalog;
    if catalog[sequenceName].kind != RelSequence {
      var owned := catalog[sequenceName].ownedSequences;
      assert seqId == owned[0];
      assert catalog[seqId].ownedBy == Some((sequenceName, DependencyAuto)) ||
             catalog[seqId].ownedBy == Some((sequenceName, DependencyInternal));
    }
    assert Sequence.IsTableOwned(catalog, seqId);
  }
}
