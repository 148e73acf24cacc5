/**
 The pipeline registry (the incremental.pipelines table): one row per pipeline
 name holding its kind, owner, source relation and sanitized command.
 */
module Registry {
  import opened Base

  /** The pipeline kind discriminator stored in the registry. */
  datatype PipelineKind = SequenceRangePipeline | TimeIntervalPipeline | FileListPipeline

  datatype PipelineDesc = PipelineDesc(
    pipelineType: PipelineKind,
    ownerId: Oid,
    sourceRelationId: Oid,
    command: string)

  type Registry = map<string, PipelineDesc>

  /** ReadPipelineDesc: the registry row of `name`, or an error when there is none. */
  function ReadPipelineDesc(registry: Registry, name: string): (r: Result<PipelineDesc>)
    ensures r.Ok? <==> name in registry
    ensures r.Ok? ==> r.value == registry[name]
    ensures r.Err? ==> r.error == NoSuchPipeline(name)
  {
    if name in registry then Ok(registry[name]) else Err(NoSuchPipeline(name))
  }

  /**
   InsertPipeline: records a new pipeline. The row is written under the
   bootstrap superuser, but the owner it records is the calling user. The
   registry's unique key on the name rejects a second pipeline of that name.
   */
  function InsertPipeline(registry: Registry, session: Session, name: string, kind: PipelineKind,
                          sourceRelationId: Oid, command: string): (r: Result<Registry>)
    ensures r.Err? <==> name in registry
    ensures r.Err? ==> r.error == DuplicatePipeline(name)
    ensures r.Ok? ==> r.value.Keys == registry.Keys + {name}
    ensures r.Ok? ==> r.value[name].ownerId == session.userId
    ensures r.Ok? ==> r.value[name].pipelineType == kind && r.value[name].sourceRelationId == sourceRelationId
    ensures r.Ok? ==> forall other :: other in registry ==> r.value[other] == registry[other]
  {
    if name in registry then Err(DuplicatePipeline(name))
    else Ok(registry[name := PipelineDesc(kind, session.userId, sourceRelationId, command)])
  }
}
