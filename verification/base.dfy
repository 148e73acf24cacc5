/**
 Shared vocabulary of the incremental pipeline engine model: optional column
 values (SQL NULL), the errors the engine raises, the calling session and the
 log entries that stand for runs of the user's command.

 A PostgreSQL ERROR aborts the surrounding transaction, so every operation that
 can raise one returns a `Result`; on `Err` the caller keeps the store it had.
 */
module Base {

  /** Object identifiers; 0 is InvalidOid. */
  type Oid = nat

  const InvalidOid: Oid := 0

  /** A nullable column or argument: `None` is SQL NULL. */
  datatype Option<+T> = None | Some(value: T) {
    function GetOr(default: T): T {
      match this
      case Some(v) => v
      case None => default
    }
  }

  /** The errors raised by the engine, one constructor per distinct report. */
  datatype Error =
    | NoSuchPipeline(name: string)       // registry lookup failed
    | PipelineNotFound(name: string)     // kind-specific state row missing, or nothing deleted
    | PermissionDenied(name: string)     // pipeline owner or sequence privilege check
    | NotOwnedByTable                    // sequence without an owning table
    | NotTableOrSequence                 // unsupported relkind for a sequence pipeline
    | NoOwnedSequence                    // table owns no sequence
    | MultipleOwnedSequences             // table owns more than one sequence
    | NullArgument(argument: string)     // a required SQL argument was NULL
    | StartTimeRequired                  // non-batched time pipeline without start_time
    | InvalidStride                      // date_bin with a non-positive interval
    | UnknownPipelineType                // dispatch default branch
    | DuplicatePipeline(name: string)    // registry already holds the name
    | DuplicateProcessedFile(name: string, path: string) // ledger already holds (pipeline, path)
    | CronNotInstalled                   // scheduling without pg_cron

  datatype Result<+T> = Ok(value: T) | Err(error: Error) {
    predicate IsFailure() {
      Err?
    }

    function PropagateFailure<U>(): Result<U>
      requires Err?
    {
      Err(error)
    }

    function Extract(): T
      requires Ok?
    {
      value
    }
  }

  /** The role a SQL function runs as: the current user id and whether it is a superuser. */
  datatype Session = Session(userId: Oid, isSuperuser: bool)

  /**
   One run of a pipeline's user command, with the parameters it is bound to.
   Sequence and time-interval commands take two positional values ($1, $2);
   file-list commands take one path or one array of paths.
   */
  datatype Invocation =
    | RangeCommand(pipeline: string, start: int, end: int)
    | FileCommand(pipeline: string, path: string)
    | FileArrayCommand(pipeline: string, paths: seq<string>)
}
