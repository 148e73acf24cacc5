/**
 The file-list resolver (src/file_list.c). A file-list pipeline lists files
 with a user-chosen list function and pattern, subtracts the paths already in
 the processed-file ledger for this pipeline, and runs the user's command
 either once per file or once per chunk of at most max_batch_size files,
 recording every path it handed to the command in the ledger.
 */
module FileList {
  import opened Base

  /** A row of incremental.file_list_pipelines; `maxBatchSize` is NULL for "unbounded". */
  datatype FileListRow = FileListRow(
    filePattern: string,
    batched: bool,
    listFunction: string,
    maxBatchSize: Option<int>)

  type FileRows = map<string, FileListRow>

  /** incremental.processed_files: (pipeline name, path) pairs. */
  type Ledger = set<(string, string)>

  /** The unprocessed files of a pipeline with its batching settings (max batch size decoded). */
  datatype FileList = FileList(files: seq<string>, batched: bool, maxBatchSize: int)

  /** The outcome of one execution: the ledger after it and the command runs it made. */
  datatype FileRun = FileRun(ledger: Ledger, calls: seq<Invocation>)

  /** A list function: (function name, pattern) to the paths it returns, in order. */
  type Lister = (string, string) -> seq<string>

  predicate NoDuplicates<T(==)>(s: seq<T>) {
    forall i, j :: 0 <= i < j < |s| ==> s[i] != s[j]
  }

  /** The ledger entries of `name` for the given paths. */
  function PathsOf(name: string, paths: seq<string>): set<(string, string)>
    decreases |paths|
  {
    if |paths| == 0 then {} else {(name, paths[0])} + PathsOf(name, paths[1..])
  }

  /** PathsOf holds exactly the pairs of `name` with one of the paths. */
  lemma {:induction false} PathsOfMembers(name: string, paths: seq<string>)
    ensures forall e :: e in PathsOf(name, paths) <==> e.0 == name && e.1 in paths
    decreases |paths|
  {
    if |paths| > 0 {
      PathsOfMembers(name, paths[1..]);
      assert forall p :: p in paths <==> p == paths[0] || p in paths[1..];
    }
  }

  lemma {:induction false} PathsOfConcat(name: string, a: seq<string>, b: seq<string>)
    ensures PathsOf(name, a + b) == PathsOf(name, a) + PathsOf(name, b)
    decreases |a|
  {
    if |a| > 0 {
      assert (a + b)[1..] == a[1..] + b;
      PathsOfConcat(name, a[1..], b);
    } else {
      assert a + b == b;
    }
  }

  /** The concatenation of a list of chunks. */
  function Flatten(chunks: seq<seq<string>>): seq<string>
    decreases |chunks|
  {
    if |chunks| == 0 then [] else chunks[0] + Flatten(chunks[1..])
  }

  // ---------------------------------------------------------------------------
  // max_batch_size encoding

  /** The max_batch_size column written at creation: NULL unless the size is positive. */
  function MaxBatchSizeColumn(maxBatchSize: int): Option<int> {
    if maxBatchSize > 0 then Some(maxBatchSize) else None
  }

  /** The max batch size read back from the column: -1 when NULL. */
  function ReadMaxBatchSize(column: Option<int>): int {
    match column
    case Some(m) => m
    case None => -1
  }

  /** A non-positive max batch size means one chunk with every file. */
  predicate Unbounded(maxBatchSize: int) {
    maxBatchSize <= 0
  }

  /** "Unbounded" survives the store and reload; a positive size comes back unchanged. */
  lemma MaxBatchSizeRoundTrip(maxBatchSize: int)
    ensures Unbounded(ReadMaxBatchSize(MaxBatchSizeColumn(maxBatchSize))) <==> Unbounded(maxBatchSize)
    ensures !Unbounded(maxBatchSize) ==> ReadMaxBatchSize(MaxBatchSizeColumn(maxBatchSize)) == maxBatchSize
  {
  }

  /** InitializeFileListPipelineState: a new row, max batch size encoded as above. */
  function InitializeFileListPipelineState(rows: FileRows, name: string, pattern: string, batched: bool,
                                           listFunction: string, maxBatchSize: int): (r: FileRows)
    ensures name in r && r[name].filePattern == pattern && r[name].batched == batched
    ensures r[name].listFunction == listFunction
    ensures r[name].maxBatchSize.None? <==> maxBatchSize <= 0
    ensures forall other :: other in rows && other != name ==> other in r && r[other] == rows[other]
  {
    rows[name := FileListRow(pattern, batched, listFunction, MaxBatchSizeColumn(maxBatchSize))]
  }

  // ---------------------------------------------------------------------------
  // Unprocessed files

  /**
   The listed paths without a ledger entry for `name`, in listing order: the
   left join of the listing with processed_files keeping unmatched rows.
   */
  function UnprocessedFiles(listing: seq<string>, ledger: Ledger, name: string): (r: seq<string>)
    ensures forall p :: p in r <==> p in listing && (name, p) !in ledger
    ensures r == [] <==> forall p :: p in listing ==> (name, p) in ledger
    ensures NoDuplicates(listing) ==> NoDuplicates(r)
    decreases |listing|
  {
    if |listing| == 0 then []
    else
      var rest := UnprocessedFiles(listing[1..], ledger, name);
      NoDuplicatesTail(listing);
      assert listing[0] in listing;
      if (name, listing[0]) in ledger then rest
      else [listing[0]] + rest
  }

  /** Without duplicates, the head does not recur in the tail and the tail has none either. */
  lemma NoDuplicatesTail(s: seq<string>)
    requires |s| > 0
    ensures NoDuplicates(s) ==> s[0] !in s[1..] && NoDuplicates(s[1..])
  {
    if NoDuplicates(s) {
      forall k | 0 <= k < |s| - 1
        ensures s[1..][k] != s[0]
      {
        assert s[1..][k] == s[k + 1];
      }
      forall i, j | 0 <= i < j < |s| - 1
        ensures s[1..][i] != s[1..][j]
      {
        assert s[1..][i] == s[i + 1] && s[1..][j] == s[j + 1];
      }
    }
  }

  /**
   GetUnprocessedFilesForPipeline: reads the pipeline's row, lists its
   pattern through the row's list function and keeps the unprocessed paths.
   */
  function GetUnprocessedFilesForPipeline(rows: FileRows, ledger: Ledger, name: string, list: Lister): (r: Result<FileList>)
    ensures r.Err? <==> name !in rows
    ensures r.Err? ==> r.error == PipelineNotFound(name)
    ensures r.Ok? ==> r.value.batched == rows[name].batched
    ensures r.Ok? ==> (Unbounded(r.value.maxBatchSize) <==> rows[name].maxBatchSize.None? || rows[name].maxBatchSize.value <= 0)
    ensures r.Ok? ==> forall p :: p in r.value.files <==>
                        p in list(rows[name].listFunction, rows[name].filePattern) && (name, p) !in ledger
    ensures r.Ok? ==> r.value.files == UnprocessedFiles(list(rows[name].listFunction, rows[name].filePattern), ledger, name)
    ensures r.Ok? ==> r.value.maxBatchSize == ReadMaxBatchSize(rows[name].maxBatchSize)
  {
    if name !in rows then Err(PipelineNotFound(name))
    else
      var row := rows[name];
      Ok(FileList(UnprocessedFiles(list(row.listFunction, row.filePattern), ledger, name),
                  row.batched, ReadMaxBatchSize(row.maxBatchSize)))
  }

  // ---------------------------------------------------------------------------
  // Ledger

  /**
   InsertProcessedFile: records one path for `name`. The ledger's key is
   (pipeline, path), so inserting a pair that is already there is a
   unique-key violation and fails.
   */
  function InsertProcessedFile(ledger: Ledger, name: string, path: string): (r: Result<Ledger>)
    ensures r.Err? <==> (name, path) in ledger
    ensures r.Err? ==> r.error == DuplicateProcessedFile(name, path)
    ensures r.Ok? ==> forall e :: e in r.value <==> e in ledger || e == (name, path)
  {
    if (name, path) in ledger then Err(DuplicateProcessedFile(name, path))
    else Ok(ledger + {(name, path)})
  }

  /**
   Records each path in turn; this fails exactly when a path is already in the
   ledger for `name` or occurs twice in `paths`.
   */
  function InsertProcessedFiles(ledger: Ledger, name: string, paths: seq<string>): (r: Result<Ledger>)
    ensures r.Ok? <==> NoDuplicates(paths) && forall p :: p in paths ==> (name, p) !in ledger
    ensures r.Err? ==> r.error.DuplicateProcessedFile? && r.error.name == name && r.error.path in paths
    ensures r.Ok? ==> r.value == ledger + PathsOf(name, paths)
    decreases |paths|
  {
    if |paths| == 0 then Ok(ledger)
    else
      NoDuplicatesCons(paths);
      var next :- InsertProcessedFile(ledger, name, paths[0]);
      InsertProcessedFiles(next, name, paths[1..])
  }

  /** A non-empty sequence has no duplicates iff its head is not in its tail and its tail has none. */
  lemma NoDuplicatesCons(s: seq<string>)
    requires |s| > 0
    ensures NoDuplicates(s) <==> s[0] !in s[1..] && NoDuplicates(s[1..])
  {
    NoDuplicatesTail(s);
    if s[0] !in s[1..] && NoDuplicates(s[1..]) {
      forall i, j | 0 <= i < j < |s|
        ensures s[i] != s[j]
      {
        assert s[j] == s[1..][j - 1];
        if i > 0 {
          assert s[i] == s[1..][i - 1];
        }
      }
    }
  }

  /**
   RemoveProcessedFileList: deletes every ledger entry of `name`; deleting
   nothing is reported as a missing pipeline.
   */
  function RemoveProcessedFileList(ledger: Ledger, name: string): (r: Result<Ledger>)
    ensures r.Err? <==> forall e :: e in ledger ==> e.0 != name
    ensures r.Err? ==> r.error == PipelineNotFound(name)
    ensures r.Ok? ==> forall e :: e in r.value <==> e in ledger && e.0 != name
  {
    if forall e | e in ledger :: e.0 != name then Err(PipelineNotFound(name))
    else Ok(ledger - set e | e in ledger && e.0 == name)
  }

  // ---------------------------------------------------------------------------
  // Batching

  /**
   The number of files one batch takes from `offset`: the rest of the list,
   capped at the max batch size when it is positive.
   */
  function BatchFileCount(n: int, offset: int, maxBatchSize: int): int {
    if maxBatchSize > 0 && n - offset > maxBatchSize then maxBatchSize else n - offset
  }

  /**
   The walk over the list from `offset` that fills the command's array (and,
   identically, the one that records the ledger entries): take each file,
   stop once max batch size files are taken when the size is positive.
   */
  method CollectBatch(files: seq<string>, offset: int, maxBatchSize: int) returns (paths: seq<string>)
    requires 0 <= offset < |files|
    ensures paths == files[offset..offset + BatchFileCount(|files|, offset, maxBatchSize)]
  {
    paths := [];
    var i := offset;
    while i < |files|
      invariant offset <= i <= |files|
      invariant paths == files[offset..i]
      invariant maxBatchSize > 0 ==> |paths| < maxBatchSize
      decreases |files| - i
    {
      paths := paths + [files[i]];
      i := i + 1;
      if maxBatchSize > 0 && |paths| == maxBatchSize {
        break;
      }
    }
  }

  /** The chunk ExecuteBatchedFileListPipeline passes for `offset`. */
  function Batch(files: seq<string>, offset: int, maxBatchSize: int): (chunk: seq<string>)
    requires 0 <= offset < |files|
    ensures 0 < |chunk| && (maxBatchSize > 0 ==> |chunk| <= maxBatchSize)
  {
    files[offset..offset + BatchFileCount(|files|, offset, maxBatchSize)]
  }

  /**
   The chunks of the do-while loop of ExecuteFileListPipeline: one at
   `offset`, then again at offset + max batch size while the size is positive
   and the new offset is inside the list.
   */
  function BatchesFrom(files: seq<string>, offset: int, maxBatchSize: int): seq<seq<string>>
    requires 0 <= offset < |files|
    decreases |files| - offset
  {
    [Batch(files, offset, maxBatchSize)] +
    (if maxBatchSize > 0 && offset + maxBatchSize < |files|
     then BatchesFrom(files, offset + maxBatchSize, maxBatchSize)
     else [])
  }

  /** Concatenated, the chunks give back the files from `offset` on: nothing is skipped or repeated. */
  lemma {:induction false} BatchesConcatenate(files: seq<string>, offset: int, maxBatchSize: int)
    requires 0 <= offset < |files|
    ensures Flatten(BatchesFrom(files, offset, maxBatchSize)) == files[offset..]
    decreases |files| - offset
  {
    if maxBatchSize > 0 && offset + maxBatchSize < |files| {
      BatchesConcatenate(files, offset + maxBatchSize, maxBatchSize);
      ConcatenateStep(files, offset, maxBatchSize);
    } else {
      ConcatenateLast(files, offset, maxBatchSize);
    }
  }

  /** A full chunk followed by the files after it is the files from `offset` on. */
  lemma ConcatenateStep(files: seq<string>, offset: int, maxBatchSize: int)
    requires 0 <= offset < |files| && maxBatchSize > 0 && offset + maxBatchSize < |files|
    requires Flatten(BatchesFrom(files, offset + maxBatchSize, maxBatchSize)) == files[offset + maxBatchSize..]
    ensures Flatten(BatchesFrom(files, offset, maxBatchSize)) == files[offset..]
  {
    var chunks := BatchesFrom(files, offset, maxBatchSize);
    BatchesFromUnfold(files, offset, maxBatchSize);
    assert chunks[1..] == BatchesFrom(files, offset + maxBatchSize, maxBatchSize);
    SuffixSplit(files, offset, offset + maxBatchSize);
  }

  /** The last chunk is everything from `offset` on. */
  lemma ConcatenateLast(files: seq<string>, offset: int, maxBatchSize: int)
    requires 0 <= offset < |files| && !(maxBatchSize > 0 && offset + maxBatchSize < |files|)
    ensures Flatten(BatchesFrom(files, offset, maxBatchSize)) == files[offset..]
  {
    var first := Batch(files, offset, maxBatchSize);
    assert BatchesFrom(files, offset, maxBatchSize) == [first];
    assert [first][1..] == [];
    assert first == files[offset..];
  }

  lemma SuffixSplit(files: seq<string>, offset: int, middle: int)
    requires 0 <= offset <= middle <= |files|
    ensures files[offset..] == files[offset..middle] + files[middle..]
  {
  }

  /**
   Every chunk is non-empty; with a positive max batch size every chunk but
   the last holds exactly that many files and the last at most that many.
   */
  lemma {:induction false} BatchSizes(files: seq<string>, offset: int, maxBatchSize: int)
    requires 0 <= offset < |files|
    ensures var chunks := BatchesFrom(files, offset, maxBatchSize);
            && (forall i :: 0 <= i < |chunks| ==> |chunks[i]| > 0)
            && (maxBatchSize > 0 ==> forall i :: 0 <= i < |chunks| - 1 ==> |chunks[i]| == maxBatchSize)
            && (maxBatchSize > 0 ==> |chunks[|chunks| - 1]| <= maxBatchSize)
    decreases |files| - offset
  {
    var chunks := BatchesFrom(files, offset, maxBatchSize);
    if maxBatchSize > 0 && offset + maxBatchSize < |files| {
      var rest := BatchesFrom(files, offset + maxBatchSize, maxBatchSize);
      BatchSizes(files, offset + maxBatchSize, maxBatchSize);
      BatchesFromUnfold(files, offset, maxBatchSize);
      forall i | 0 <= i < |chunks|
        ensures |chunks[i]| > 0 && (i < |chunks| - 1 ==> |chunks[i]| == maxBatchSize)
      {
        if i > 0 {
          assert chunks[i] == rest[i - 1];
        }
      }
      assert chunks[|chunks| - 1] == rest[|rest| - 1];
    } else {
      assert chunks == [Batch(files, offset, maxBatchSize)];
    }
  }

  /** With a non-positive max batch size (NULL reads back as -1) there is one chunk holding every file. */
  lemma UnboundedIsOneBatch(files: seq<string>, offset: int, maxBatchSize: int)
    requires 0 <= offset < |files| && Unbounded(maxBatchSize)
    ensures BatchesFrom(files, offset, maxBatchSize) == [files[offset..]]
  {
    assert Batch(files, offset, maxBatchSize) == files[offset..];
  }

  /** The command runs for a list of chunks, in order: one array call per chunk. */
  function BatchCommands(name: string, chunks: seq<seq<string>>): (calls: seq<Invocation>)
    ensures |calls| == |chunks|
    decreases |chunks|
  {
    if |chunks| == 0 then [] else [FileArrayCommand(name, chunks[0])] + BatchCommands(name, chunks[1..])
  }

  /** The command runs of the non-batched loop: one call per file, in order. */
  function FileCommands(name: string, files: seq<string>): (calls: seq<Invocation>)
    ensures |calls| == |files|
    decreases |files|
  {
    if |files| == 0 then [] else [FileCommand(name, files[0])] + FileCommands(name, files[1..])
  }

  /**
   ExecuteFileListPipeline's batched branch as the source runs it: a
   do-while over offsets 0, m, 2m, ... that passes each chunk to the command
   and then records exactly the paths of that chunk in the ledger.
   */
  method ExecuteBatchedFileList(name: string, files: seq<string>, maxBatchSize: int, ledger: Ledger)
    returns (after: Ledger, calls: seq<Invocation>)
    requires |files| > 0
    ensures calls == BatchCommands(name, BatchesFrom(files, 0, maxBatchSize))
    ensures after == ledger + PathsOf(name, files)
  {
    var offset := 0;
    calls := [];
    after := ledger;
    BatchLoopStart(name, files, maxBatchSize, ledger);
    while true
      invariant BatchLoop(name, files, maxBatchSize, ledger, offset, calls, after)
      decreases |files| - offset
    {
      var done;
      done, offset, calls, after := BatchIteration(name, files, maxBatchSize, ledger, offset, calls, after);
      if done {
        break;
      }
    }
  }

  /**
   One pass of the do-while: the chunk at `offset` goes to the command and
   into the ledger; the loop goes on while a full chunk was taken and files
   remain after it.
   */
  method BatchIteration(name: string, files: seq<string>, maxBatchSize: int, ledger: Ledger,
                        offset: int, calls: seq<Invocation>, after: Ledger)
    returns (done: bool, nextOffset: int, nextCalls: seq<Invocation>, nextAfter: Ledger)
    requires BatchLoop(name, files, maxBatchSize, ledger, offset, calls, after)
    ensures !done ==> offset < nextOffset && BatchLoop(name, files, maxBatchSize, ledger, nextOffset, nextCalls, nextAfter)
    ensures done ==> nextCalls == BatchCommands(name, BatchesFrom(files, 0, maxBatchSize))
    ensures done ==> nextAfter == ledger + PathsOf(name, files)
  {
    var call, recorded := ProcessBatch(name, files, offset, maxBatchSize, after);
    nextCalls, nextAfter := calls + [call], recorded;
    if maxBatchSize > 0 && offset + maxBatchSize < |files| {
      BatchLoopStep(name, files, maxBatchSize, ledger, offset, calls, after, call, recorded);
      done, nextOffset := false, offset + maxBatchSize;
    } else {
      BatchLoopEnd(name, files, maxBatchSize, ledger, offset, calls, after, call, recorded);
      done, nextOffset := true, offset;
    }
  }

  /** The ledger once `paths` have been recorded for `name`. */
  function Recorded(ledger: Ledger, name: string, paths: seq<string>): Ledger {
    ledger + PathsOf(name, paths)
  }

  /**
   The batched loop's invariant at `offset`: the calls made so far followed by
   the chunks from `offset` on are all the chunks, and the ledger holds the
   files before `offset`.
   */
  predicate BatchLoop(name: string, files: seq<string>, maxBatchSize: int, ledger: Ledger,
                      offset: int, calls: seq<Invocation>, after: Ledger)
  {
    && 0 <= offset < |files|
    && calls + BatchCommands(name, BatchesFrom(files, offset, maxBatchSize)) ==
       BatchCommands(name, BatchesFrom(files, 0, maxBatchSize))
    && after == Recorded(ledger, name, files[..offset])
  }

  lemma BatchLoopStart(name: string, files: seq<string>, maxBatchSize: int, ledger: Ledger)
    requires |files| > 0
    ensures BatchLoop(name, files, maxBatchSize, ledger, 0, [], ledger)
  {
    assert files[..0] == [];
  }

  lemma BatchLoopStep(name: string, files: seq<string>, maxBatchSize: int, ledger: Ledger,
                      offset: int, calls: seq<Invocation>, after: Ledger, call: Invocation, recorded: Ledger)
    requires BatchLoop(name, files, maxBatchSize, ledger, offset, calls, after)
    requires maxBatchSize > 0 && offset + maxBatchSize < |files|
    requires call == FileArrayCommand(name, Batch(files, offset, maxBatchSize))
    requires recorded == after + PathsOf(name, Batch(files, offset, maxBatchSize))
    ensures BatchLoop(name, files, maxBatchSize, ledger, offset + maxBatchSize, calls + [call], recorded)
  {
    BatchCallsStep(name, files, maxBatchSize, offset, calls, call);
    RecordBatch(ledger, after, recorded, name, files, offset, maxBatchSize);
    assert BatchFileCount(|files|, offset, maxBatchSize) == maxBatchSize;
  }

  /** The calls part of BatchLoopStep: appending this chunk's call moves the offset on by one chunk. */
  lemma BatchCallsStep(name: string, files: seq<string>, maxBatchSize: int, offset: int,
                       calls: seq<Invocation>, call: Invocation)
    requires 0 <= offset < |files| && maxBatchSize > 0 && offset + maxBatchSize < |files|
    requires calls + BatchCommands(name, BatchesFrom(files, offset, maxBatchSize)) ==
             BatchCommands(name, BatchesFrom(files, 0, maxBatchSize))
    requires call == FileArrayCommand(name, Batch(files, offset, maxBatchSize))
    ensures (calls + [call]) + BatchCommands(name, BatchesFrom(files, offset + maxBatchSize, maxBatchSize)) ==
            BatchCommands(name, BatchesFrom(files, 0, maxBatchSize))
  {
    var chunk := Batch(files, offset, maxBatchSize);
    var rest := BatchesFrom(files, offset + maxBatchSize, maxBatchSize);
    BatchesFromUnfold(files, offset, maxBatchSize);
    BatchCommandsCons(name, chunk, rest);
    AppendAssoc(calls, [call], BatchCommands(name, rest));
  }

  lemma BatchesFromUnfold(files: seq<string>, offset: int, maxBatchSize: int)
    requires 0 <= offset < |files| && maxBatchSize > 0 && offset + maxBatchSize < |files|
    ensures BatchesFrom(files, offset, maxBatchSize) ==
            [Batch(files, offset, maxBatchSize)] + BatchesFrom(files, offset + maxBatchSize, maxBatchSize)
  {
  }

  lemma AppendAssoc<T>(a: seq<T>, b: seq<T>, c: seq<T>)
    ensures (a + b) + c == a + (b + c)
  {
  }

  lemma BatchLoopEnd(name: string, files: seq<string>, maxBatchSize: int, ledger: Ledger,
                     offset: int, calls: seq<Invocation>, after: Ledger, call: Invocation, recorded: Ledger)
    requires BatchLoop(name, files, maxBatchSize, ledger, offset, calls, after)
    requires !(maxBatchSize > 0 && offset + maxBatchSize < |files|)
    requires call == FileArrayCommand(name, Batch(files, offset, maxBatchSize))
    requires recorded == after + PathsOf(name, Batch(files, offset, maxBatchSize))
    ensures calls + [call] == BatchCommands(name, BatchesFrom(files, 0, maxBatchSize))
    ensures recorded == ledger + PathsOf(name, files)
  {
    var chunk := Batch(files, offset, maxBatchSize);
    assert BatchesFrom(files, offset, maxBatchSize) == [chunk];
    BatchCommandsCons(name, chunk, []);
    RecordBatch(ledger, after, recorded, name, files, offset, maxBatchSize);
    assert files[..offset + BatchFileCount(|files|, offset, maxBatchSize)] == files;
  }

  /** One iteration of the batched loop: the chunk at `offset` goes to the command, then into the ledger. */
  method ProcessBatch(name: string, files: seq<string>, offset: int, maxBatchSize: int, ledger: Ledger)
    returns (call: Invocation, after: Ledger)
    requires 0 <= offset < |files|
    ensures call == FileArrayCommand(name, Batch(files, offset, maxBatchSize))
    ensures after == ledger + PathsOf(name, Batch(files, offset, maxBatchSize))
  {
    var chunk := CollectBatch(files, offset, maxBatchSize);
    call := FileArrayCommand(name, chunk);
    var inserted := CollectBatch(files, offset, maxBatchSize);
    after := ledger + PathsOf(name, inserted);
  }

  lemma BatchCommandsCons(name: string, chunk: seq<string>, chunks: seq<seq<string>>)
    ensures BatchCommands(name, [chunk] + chunks) == [FileArrayCommand(name, chunk)] + BatchCommands(name, chunks)
  {
  }

  /** Recording the files up to `offset` and then the batch at `offset` records the files up to the batch's end. */
  lemma RecordBatch(ledger: Ledger, after: Ledger, recorded: Ledger, name: string, files: seq<string>,
                    offset: int, maxBatchSize: int)
    requires 0 <= offset < |files|
    requires after == Recorded(ledger, name, files[..offset])
    requires recorded == after + PathsOf(name, Batch(files, offset, maxBatchSize))
    ensures recorded == Recorded(ledger, name, files[..offset + BatchFileCount(|files|, offset, maxBatchSize)])
  {
    var covered := offset + BatchFileCount(|files|, offset, maxBatchSize);
    PrefixSplit(files, offset, covered);
    PathsOfConcat(name, files[..offset], files[offset..covered]);
  }

  lemma PrefixSplit(files: seq<string>, offset: int, covered: int)
    requires 0 <= offset <= covered <= |files|
    ensures files[..covered] == files[..offset] + files[offset..covered]
  {
  }

  /**
   ExecuteFileListPipeline: nothing to do for an empty list; batched mode runs
   the command once per chunk; otherwise once per file. Every path handed to
   the command is inserted into the ledger, so a listing that returns an
   unprocessed path twice hits the ledger's unique key and the whole run
   fails (the transaction rolls back).
   */
  function ExecuteFileListPipeline(rows: FileRows, ledger: Ledger, name: string, list: Lister): (r: Result<FileRun>)
    ensures name !in rows ==> r == Err(PipelineNotFound(name))
    ensures name in rows ==>
              (r.Ok? <==> NoDuplicates(UnprocessedFiles(list(rows[name].listFunction, rows[name].filePattern), ledger, name)))
    ensures name in rows && r.Err? ==> r.error.DuplicateProcessedFile? && r.error.name == name
  {
    var fileList :- GetUnprocessedFilesForPipeline(rows, ledger, name, list);
    var files := fileList.files;
    if |files| == 0 then
      Ok(FileRun(ledger, []))
    else
      var after :- InsertProcessedFiles(ledger, name, files);
      if fileList.batched then
        Ok(FileRun(after, BatchCommands(name, BatchesFrom(files, 0, fileList.maxBatchSize))))
      else
        Ok(FileRun(after, FileCommands(name, files)))
  }

  /** The paths a run hands to the command, in order. */
  function PassedPaths(calls: seq<Invocation>): seq<string>
    decreases |calls|
  {
    if |calls| == 0 then []
    else
      (match calls[0]
       case FileCommand(_, p) => [p]
       case FileArrayCommand(_, ps) => ps
       case RangeCommand(_, _, _) => []) + PassedPaths(calls[1..])
  }

  lemma {:induction false} PassedPathsOfBatches(name: string, chunks: seq<seq<string>>)
    ensures PassedPaths(BatchCommands(name, chunks)) == Flatten(chunks)
    decreases |chunks|
  {
    if |chunks| > 0 {
      PassedPathsOfBatches(name, chunks[1..]);
      assert BatchCommands(name, chunks)[1..] == BatchCommands(name, chunks[1..]);
    }
  }

  lemma {:induction false} PassedPathsOfFiles(name: string, files: seq<string>)
    ensures PassedPaths(FileCommands(name, files)) == files
    decreases |files|
  {
    if |files| > 0 {
      PassedPathsOfFiles(name, files[1..]);
      assert FileCommands(name, files)[1..] == FileCommands(name, files[1..]);
      assert files == [files[0]] + files[1..];
    }
  }

  /**
   What one successful execution does: the command sees exactly the
   unprocessed files, in listing order, each once; the ledger gains exactly
   those paths for this pipeline and keeps everything else; an empty list runs
   nothing; batched mode hands the files over in consecutive chunks of the
   max batch size, or in one call when that size is non-positive; the
   non-batched mode gives one call per file.
   */
  lemma ExecuteFileListPipelineSpec(rows: FileRows, ledger: Ledger, name: string, list: Lister)
    requires ExecuteFileListPipeline(rows, ledger, name, list).Ok?
    ensures var run := ExecuteFileListPipeline(rows, ledger, name, list).value;
            var row := rows[name];
            var listing := list(row.listFunction, row.filePattern);
            var pending := UnprocessedFiles(listing, ledger, name);
            && PassedPaths(run.calls) == pending
            && run.ledger == ledger + PathsOf(name, pending)
            && (pending == [] ==> run.calls == [] && run.ledger == ledger)
            && (forall p :: p in PassedPaths(run.calls) ==> p in listing && (name, p) !in ledger)
            && NoDuplicates(PassedPaths(run.calls))
            && (row.batched && pending != [] ==>
                  run.calls == BatchCommands(name, BatchesFrom(pending, 0, ReadMaxBatchSize(row.maxBatchSize))))
            && (row.batched && pending != [] && Unbounded(ReadMaxBatchSize(row.maxBatchSize)) ==>
                  run.calls == [FileArrayCommand(name, pending)])
            && (!row.batched ==> run.calls == FileCommands(name, pending))
  {
    var row := rows[name];
    var pending := UnprocessedFiles(list(row.listFunction, row.filePattern), ledger, name);
    var m := ReadMaxBatchSize(row.maxBatchSize);
    if pending != [] {
      if row.batched {
        BatchesConcatenate(pending, 0, m);
        if Unbounded(m) {
          UnboundedIsOneBatch(pending, 0, m);
        }
        PassedPathsOfBatches(name, BatchesFrom(pending, 0, m));
        assert pending[0..] == pending;
      } else {
        PassedPathsOfFiles(name, pending);
      }
    }
  }

  /**
   Idempotence: once a run has recorded its files, a second run over the same
   listing finds nothing to do, runs nothing and leaves the ledger alone.
   */
  lemma SecondRunIsNoop(rows: FileRows, ledger: Ledger, name: string, list: Lister)
    requires ExecuteFileListPipeline(rows, ledger, name, list).Ok?
    ensures var first := ExecuteFileListPipeline(rows, ledger, name, list).value;
            var second := ExecuteFileListPipeline(rows, first.ledger, name, list);
            second.Ok? && second.value.calls == [] && second.value.ledger == first.ledger
  {
    ExecuteFileListPipelineSpec(rows, ledger, name, list);
    var row := rows[name];
    var listing := list(row.listFunction, row.filePattern);
    var first := ExecuteFileListPipeline(rows, ledger, name, list).value;
    PathsOfMembers(name, UnprocessedFiles(listing, ledger, name));
    forall p | p in listing
      ensures (name, p) in first.ledger
    {
      if (name, p) !in ledger {
        assert p in UnprocessedFiles(listing, ledger, name);
      }
    }
    ExecuteFileListPipelineSpec(rows, first.ledger, name, list);
  }
}
