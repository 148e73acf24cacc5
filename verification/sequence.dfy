/**
 The sequence range resolver (src/sequence.c): a sequence pipeline keeps the
 last processed sequence number in its row of incremental.sequence_pipelines;
 each run pops the range (last processed + 1 .. last drawn value), advances the
 watermark to the range end when the range holds rows, and the generated DO
 block runs the user's command only when start <= end.

 The model uses signed comparisons throughout and reads the pipeline's sequence
 from its own state row; `ResolveRangeAsWritten` and
 `IncrementalSequenceRangeAsWritten` keep the two places where the source
 differs, with lemmas that show the effect.
 */
module Sequence {
  import opened Base
  import opened Catalog
  import Registry

  /** A row of incremental.sequence_pipelines. `lastProcessed` is NULL until the first advance. */
  datatype SequencePipelineRow = SequencePipelineRow(sequenceId: Oid, lastProcessed: Option<int>)

  type SequenceRows = map<string, SequencePipelineRow>

  /** An inclusive range of sequence numbers. */
  datatype SequenceNumberRange = SequenceNumberRange(rangeStart: int, rangeEnd: int)

  /** The raw range read from the pipeline state together with the "has rows" verdict. */
  datatype Resolution = Resolution(range: SequenceNumberRange, hasRows: bool)

  /** The outcome of a pop: the range handed out and the pipeline state after it. */
  datatype PopResult = PopResult(range: SequenceNumberRange, rows: SequenceRows)

  /** The notice incremental_sequence_range raises. */
  datatype Notice = ProcessingValues(from: int, to: int) | NoRowsToProcess

  /** One call of incremental_sequence_range: its range, the per-call-site cache, the state and the notice. */
  datatype RangeCall = RangeCall(
    range: SequenceNumberRange,
    cache: Option<SequenceNumberRange>,
    rows: SequenceRows,
    notice: Notice)

  /** One evaluation of the DO block built by GetSequencePipelineCommand. */
  datatype BlockRun = BlockRun(range: SequenceNumberRange, rows: SequenceRows, calls: seq<Invocation>)

  // ---------------------------------------------------------------------------
  // Integer ranges as sequences of values

  /** The values lo, lo + 1, ..., hi (empty when lo > hi). */
  function Span(lo: int, hi: int): (s: seq<int>)
    ensures |s| == if lo > hi then 0 else hi - lo + 1
    ensures forall i :: 0 <= i < |s| ==> s[i] == lo + i
    decreases hi - lo
  {
    if lo > hi then [] else [lo] + Span(lo + 1, hi)
  }

  /** Two adjacent spans concatenate to one. */
  lemma SpanConcat(a: int, b: int, c: int)
    requires a <= b + 1 <= c + 1
    ensures Span(a, b) + Span(b + 1, c) == Span(a, c)
  {
    var l, r, whole := Span(a, b), Span(b + 1, c), Span(a, c);
    assert |l + r| == |whole|;
    forall i | 0 <= i < |whole|
      ensures (l + r)[i] == whole[i]
    {
      if i < |l| {
      } else {
        assert (l + r)[i] == r[i - |l|];
      }
    }
  }

  /** The values covered by a list of ranges, in order. */
  function Values(ranges: seq<SequenceNumberRange>): seq<int>
    decreases |ranges|
  {
    if |ranges| == 0 then [] else Span(ranges[0].rangeStart, ranges[0].rangeEnd) + Values(ranges[1..])
  }

  // ---------------------------------------------------------------------------
  // Range resolution (GetSequenceNumberRange without the table access)

  /** The first unprocessed value: last processed + 1, or 0 while the watermark is NULL. */
  function RangeStart(lastProcessed: Option<int>): int {
    match lastProcessed
    case Some(n) => n + 1
    case None => 0
  }

  /** The range (RangeStart, last value or 0) and whether it holds rows. */
  function ResolveRange(lastProcessed: Option<int>, lastValue: Option<int>): Resolution {
    var range := SequenceNumberRange(RangeStart(lastProcessed), lastValue.GetOr(0));
    Resolution(range, lastValue.Some? && range.rangeStart <= range.rangeEnd)
  }

  /** The watermark after one pop: the range end when the range has rows, else unchanged. */
  function Advance(lastProcessed: Option<int>, lastValue: Option<int>): Option<int> {
    var res := ResolveRange(lastProcessed, lastValue);
    if res.hasRows then Some(res.range.rangeEnd) else lastProcessed
  }

  /** The plpgsql guard of the DO block: `if $1 <= $2 then <command>`. */
  predicate BlockGuard(range: SequenceNumberRange) {
    range.rangeStart <= range.rangeEnd
  }

  /** The notice branch of incremental_sequence_range. */
  function RangeNotice(range: SequenceNumberRange): (n: Notice)
    ensures n.ProcessingValues? <==> BlockGuard(range)
  {
    if range.rangeStart <= range.rangeEnd then ProcessingValues(range.rangeStart, range.rangeEnd)
    else NoRowsToProcess
  }

  // ---------------------------------------------------------------------------
  // Pipeline state (the incremental.sequence_pipelines table)

  /** InitializeSequencePipelineState: a new row for `name` with a NULL watermark. */
  function InitializeSequencePipelineState(rows: SequenceRows, name: string, sequenceId: Oid): (r: SequenceRows)
    ensures name in r && r[name].sequenceId == sequenceId
    ensures r[name].lastProcessed.None? && RangeStart(r[name].lastProcessed) == 0
    ensures forall other :: other in rows && other != name ==> other in r && r[other] == rows[other]
  {
    rows[name := SequencePipelineRow(sequenceId, None)]
  }

  /** UpdateLastProcessedSequenceNumber: sets the watermark; fails when the pipeline has no row. */
  function UpdateLastProcessedSequenceNumber(rows: SequenceRows, name: string, n: int): (r: Result<SequenceRows>)
    ensures r.Err? <==> name !in rows
    ensures r.Err? ==> r.error == PipelineNotFound(name)
    ensures r.Ok? ==> r.value.Keys == rows.Keys
    ensures r.Ok? ==> r.value[name].lastProcessed == Some(n) && r.value[name].sequenceId == rows[name].sequenceId
    ensures r.Ok? ==> RangeStart(r.value[name].lastProcessed) == n + 1
    ensures r.Ok? ==> forall other :: other in rows && other != name ==> r.value[other] == rows[other]
  {
    if name !in rows then Err(PipelineNotFound(name))
    else Ok(rows[name := rows[name].(lastProcessed := Some(n))])
  }

  /**
   GetSequenceNumberRange: reads the watermark of `name` and the last value of
   the sequence; fails when the pipeline has no row.
   */
  function GetSequenceNumberRange(rows: SequenceRows, catalog: Catalog, name: string, sequenceId: Oid): (r: Result<Resolution>)
    ensures r.Err? <==> name !in rows
    ensures r.Err? ==> r.error == PipelineNotFound(name)
    ensures r.Ok? ==> r.value.range.rangeStart == RangeStart(rows[name].lastProcessed)
    ensures r.Ok? ==> r.value.range.rangeEnd == SequenceLastValue(catalog, sequenceId).GetOr(0)
    ensures r.Ok? ==> (r.value.hasRows <==>
                         SequenceLastValue(catalog, sequenceId).Some? && BlockGuard(r.value.range))
  {
    if name !in rows then Err(PipelineNotFound(name))
    else Ok(ResolveRange(rows[name].lastProcessed, SequenceLastValue(catalog, sequenceId)))
  }

  /** A sequence is usable as a pipeline source when a table owns it (auto or internal dependency). */
  predicate IsTableOwned(catalog: Catalog, sequenceId: Oid) {
    SequenceOwner(catalog, sequenceId, DependencyAuto).Some? ||
    SequenceOwner(catalog, sequenceId, DependencyInternal).Some?
  }

  /**
   PopSequenceNumberRange: checks that a table owns the sequence and that the
   caller may use it, resolves the range, and when it has rows records its end
   as the new watermark (waiting for concurrent writers first, which the model
   leaves out).
   */
  function PopSequenceNumberRange(rows: SequenceRows, catalog: Catalog, session: Session,
                                  name: string, sequenceId: Oid): (r: Result<PopResult>)
    ensures !IsTableOwned(catalog, sequenceId) ==> r == Err(NotOwnedByTable)
    ensures IsTableOwned(catalog, sequenceId) && !HasSequencePrivilege(catalog, session, sequenceId) ==>
              r == Err(PermissionDenied(name))
    ensures r.Ok? <==> IsTableOwned(catalog, sequenceId) && HasSequencePrivilege(catalog, session, sequenceId) && name in rows
    ensures r.Ok? ==> r.value.rows.Keys == rows.Keys
    ensures r.Ok? ==> r.value.range == ResolveRange(rows[name].lastProcessed, SequenceLastValue(catalog, sequenceId)).range
    ensures r.Ok? ==> r.value.rows[name].lastProcessed == Advance(rows[name].lastProcessed, SequenceLastValue(catalog, sequenceId))
    ensures r.Ok? ==> r.value.rows[name].sequenceId == rows[name].sequenceId
    ensures r.Ok? ==> forall other :: other in rows && other != name ==> r.value.rows[other] == rows[other]
  {
    if !IsTableOwned(catalog, sequenceId) then Err(NotOwnedByTable)
    else if !HasSequencePrivilege(catalog, session, sequenceId) then Err(PermissionDenied(name))
    else
      var res :- GetSequenceNumberRange(rows, catalog, name, sequenceId);
      if res.hasRows then
        // the row exists, so the update cannot fail here
        Ok(PopResult(res.range, UpdateLastProcessedSequenceNumber(rows, name, res.range.rangeEnd).value))
      else
        Ok(PopResult(res.range, rows))
  }

  /**
   incremental_sequence_range: the first call at a call site pops a range and
   caches it; later calls at the same call site return the cached range,
   whatever pipeline name they pass, without touching the state. The sequence
   is the one recorded in the pipeline's own state row.
   */
  function IncrementalSequenceRange(cache: Option<SequenceNumberRange>, registry: Registry.Registry,
                                    rows: SequenceRows, catalog: Catalog, session: Session,
                                    name: string): (r: Result<RangeCall>)
    ensures cache.Some? ==> r.Ok? && r.value.range == cache.value && r.value.rows == rows
    ensures r.Ok? ==> r.value.cache == Some(r.value.range)
    ensures r.Ok? ==> (r.value.notice.ProcessingValues? <==> BlockGuard(r.value.range))
    ensures cache.None? && name !in registry ==> r == Err(NoSuchPipeline(name))
    ensures cache.None? && name in registry && name !in rows ==> r == Err(PipelineNotFound(name))
    ensures cache.None? ==>
              (r.Ok? <==> name in registry && name in rows &&
                          IsTableOwned(catalog, rows[name].sequenceId) &&
                          HasSequencePrivilege(catalog, session, rows[name].sequenceId))
    ensures cache.None? && r.Ok? ==>
              && name in rows && r.value.rows.Keys == rows.Keys
              && r.value.range == ResolveRange(rows[name].lastProcessed, SequenceLastValue(catalog, rows[name].sequenceId)).range
              && r.value.rows[name].lastProcessed == Advance(rows[name].lastProcessed, SequenceLastValue(catalog, rows[name].sequenceId))
              && r.value.rows[name].sequenceId == rows[name].sequenceId
              && (forall other :: other in rows && other != name ==> r.value.rows[other] == rows[other])
  {
    match cache
    case Some(range) => Ok(RangeCall(range, cache, rows, RangeNotice(range)))
    case None =>
      var _ :- Registry.ReadPipelineDesc(registry, name);
      if name !in rows then Err(PipelineNotFound(name))
      else
        var popped :- PopSequenceNumberRange(rows, catalog, session, name, rows[name].sequenceId);
        Ok(RangeCall(popped.range, Some(popped.range), popped.rows, RangeNotice(popped.range)))
  }

  /**
   One evaluation of the DO block of GetSequencePipelineCommand: select the
   range once, then run the user's command with ($1, $2) = (start, end) when
   start <= end.
   */
  function RunSequenceBlock(registry: Registry.Registry, rows: SequenceRows, catalog: Catalog,
                            session: Session, name: string): (r: Result<BlockRun>)
    ensures r.Ok? <==> name in registry && name in rows &&
                       IsTableOwned(catalog, rows[name].sequenceId) &&
                       HasSequencePrivilege(catalog, session, rows[name].sequenceId)
    ensures r.Ok? ==> name in rows && r.value.rows.Keys == rows.Keys
    ensures r.Ok? ==> r.value.range == ResolveRange(rows[name].lastProcessed, SequenceLastValue(catalog, rows[name].sequenceId)).range
    ensures r.Ok? ==> r.value.rows[name] == rows[name].(lastProcessed := Advance(rows[name].lastProcessed, SequenceLastValue(catalog, rows[name].sequenceId)))
    ensures r.Ok? ==> forall other :: other in rows && other != name ==> r.value.rows[other] == rows[other]
    ensures r.Ok? ==> r.value.calls == (if BlockGuard(r.value.range)
                                        then [RangeCommand(name, r.value.range.rangeStart, r.value.range.rangeEnd)]
                                        else [])
    ensures r.Ok? && r.value.rows[name].lastProcessed != rows[name].lastProcessed ==>
              |r.value.calls| == 1 && r.value.rows[name].lastProcessed == Some(r.value.range.rangeEnd)
    ensures r.Ok? && |r.value.calls| == 1 && r.value.rows[name].lastProcessed == rows[name].lastProcessed ==>
              SequenceLastValue(catalog, rows[name].sequenceId).None? && r.value.range.rangeEnd == 0
  {
    var call :- IncrementalSequenceRange(None, registry, rows, catalog, session, name);
    var calls := if BlockGuard(call.range)
                 then [RangeCommand(name, call.range.rangeStart, call.range.rangeEnd)]
                 else [];
    Ok(BlockRun(call.range, call.rows, calls))
  }

  /** FindSequenceForRelation: the single sequence a table owns. */
  function FindSequenceForRelation(catalog: Catalog, relationId: Oid): (r: Result<Oid>)
    ensures var owned := if relationId in catalog then catalog[relationId].ownedSequences else [];
            && (r.Ok? <==> |owned| == 1)
            && (|owned| == 0 ==> r == Err(NoOwnedSequence))
            && (|owned| > 1 ==> r == Err(MultipleOwnedSequences))
            && (r.Ok? ==> r.value in owned)
  {
    var owned := if relationId in catalog then catalog[relationId].ownedSequences else [];
    if |owned| == 0 then Err(NoOwnedSequence)
    else if |owned| > 1 then Err(MultipleOwnedSequences)
    else Ok(owned[0])
  }

  // ---------------------------------------------------------------------------
  // Properties over histories of runs

  /** The watermark after one successful pop per observed last value. */
  function Replay(lastProcessed: Option<int>, observed: seq<Option<int>>): Option<int>
    decreases |observed|
  {
    if |observed| == 0 then lastProcessed
    else Replay(Advance(lastProcessed, observed[0]), observed[1..])
  }

  /** The ranges that advanced the watermark along the same history. */
  function AdvancedRanges(lastProcessed: Option<int>, observed: seq<Option<int>>): seq<SequenceNumberRange>
    decreases |observed|
  {
    if |observed| == 0 then []
    else
      var res := ResolveRange(lastProcessed, observed[0]);
      (if res.hasRows then [res.range] else []) + AdvancedRanges(Advance(lastProcessed, observed[0]), observed[1..])
  }

  /** A pop never moves the next range start backwards, and moves it past the range end when it advances. */
  lemma AdvanceIsMonotone(lastProcessed: Option<int>, lastValue: Option<int>)
    ensures RangeStart(Advance(lastProcessed, lastValue)) >= RangeStart(lastProcessed)
    ensures ResolveRange(lastProcessed, lastValue).hasRows ==>
              RangeStart(Advance(lastProcessed, lastValue)) == ResolveRange(lastProcessed, lastValue).range.rangeEnd + 1
  {
  }

  /** Along any history the next range start never decreases. */
  lemma {:induction false} ReplayIsMonotone(lastProcessed: Option<int>, observed: seq<Option<int>>)
    ensures RangeStart(Replay(lastProcessed, observed)) >= RangeStart(lastProcessed)
    decreases |observed|
  {
    if |observed| > 0 {
      AdvanceIsMonotone(lastProcessed, observed[0]);
      ReplayIsMonotone(Advance(lastProcessed, observed[0]), observed[1..]);
    }
  }

  /**
   No gaps, no overlaps: the ranges that advanced the watermark, concatenated,
   are exactly the values from the first range start up to the final
   watermark, each once and in order.
   */
  lemma {:induction false} ExactlyOnce(lastProcessed: Option<int>, observed: seq<Option<int>>)
    ensures Values(AdvancedRanges(lastProcessed, observed)) ==
            Span(RangeStart(lastProcessed), RangeStart(Replay(lastProcessed, observed)) - 1)
    decreases |observed|
  {
    if |observed| == 0 {
      assert Span(RangeStart(lastProcessed), RangeStart(lastProcessed) - 1) == [];
    } else {
      var res := ResolveRange(lastProcessed, observed[0]);
      var next := Advance(lastProcessed, observed[0]);
      var rest := observed[1..];
      ExactlyOnce(next, rest);
      ReplayIsMonotone(next, rest);
      var final := RangeStart(Replay(next, rest));
      if res.hasRows {
        assert AdvancedRanges(lastProcessed, observed) == [res.range] + AdvancedRanges(next, rest);
        assert Values([res.range] + AdvancedRanges(next, rest)) ==
               Span(res.range.rangeStart, res.range.rangeEnd) + Values(AdvancedRanges(next, rest));
        SpanConcat(res.range.rangeStart, res.range.rangeEnd, final - 1);
      } else {
        assert AdvancedRanges(lastProcessed, observed) == AdvancedRanges(next, rest);
      }
    }
  }

  /** Fresh pipeline: the values handed out over any history are exactly 0 .. final watermark. */
  lemma FreshPipelineProcessesPrefix(observed: seq<Option<int>>)
    ensures Values(AdvancedRanges(None, observed)) == Span(0, RangeStart(Replay(None, observed)) - 1)
  {
    ExactlyOnce(None, observed);
  }

  /** The commands the DO block runs along a history: one per range whose guard holds, advanced or not. */
  function BlockCalls(name: string, lastProcessed: Option<int>, observed: seq<Option<int>>): seq<Invocation>
    decreases |observed|
  {
    if |observed| == 0 then []
    else
      var range := ResolveRange(lastProcessed, observed[0]).range;
      (if BlockGuard(range) then [RangeCommand(name, range.rangeStart, range.rangeEnd)] else []) +
      BlockCalls(name, Advance(lastProcessed, observed[0]), observed[1..])
  }

  /** One command call per range, with the range's bounds. */
  function RangeCommands(name: string, ranges: seq<SequenceNumberRange>): (calls: seq<Invocation>)
    ensures |calls| == |ranges|
    ensures forall i :: 0 <= i < |ranges| ==> calls[i] == RangeCommand(name, ranges[i].rangeStart, ranges[i].rangeEnd)
    decreases |ranges|
  {
    if |ranges| == 0 then []
    else [RangeCommand(name, ranges[0].rangeStart, ranges[0].rangeEnd)] + RangeCommands(name, ranges[1..])
  }

  /** One execution of the DO block is the first step of BlockCalls and of Replay. */
  lemma RunSequenceBlockIsBlockStep(registry: Registry.Registry, rows: SequenceRows, catalog: Catalog,
                                    session: Session, name: string)
    requires RunSequenceBlock(registry, rows, catalog, session, name).Ok?
    ensures var run := RunSequenceBlock(registry, rows, catalog, session, name).value;
            var observed := [SequenceLastValue(catalog, rows[name].sequenceId)];
            && run.calls == BlockCalls(name, rows[name].lastProcessed, observed)
            && run.rows[name].lastProcessed == Replay(rows[name].lastProcessed, observed)
  {
    var observed := [SequenceLastValue(catalog, rows[name].sequenceId)];
    assert observed[1..] == [];
  }

  /**
   Once every observed last value is non-NULL, the DO block runs the command
   exactly over the ranges that advance the watermark, so ExactlyOnce is a
   statement about what the command receives.
   */
  lemma {:induction false} BlockCallsAreAdvancedRanges(name: string, lastProcessed: Option<int>, observed: seq<Option<int>>)
    requires forall i :: 0 <= i < |observed| ==> observed[i].Some?
    ensures BlockCalls(name, lastProcessed, observed) == RangeCommands(name, AdvancedRanges(lastProcessed, observed))
    decreases |observed|
  {
    if |observed| > 0 {
      var res := ResolveRange(lastProcessed, observed[0]);
      var rest := observed[1..];
      assert forall i :: 0 <= i < |rest| ==> rest[i].Some? by {
        forall i | 0 <= i < |rest|
          ensures rest[i].Some?
        {
          assert rest[i] == observed[i + 1];
        }
      }
      BlockCallsAreAdvancedRanges(name, Advance(lastProcessed, observed[0]), rest);
      GuardMatchesRows(lastProcessed, observed[0]);
      var later := AdvancedRanges(Advance(lastProcessed, observed[0]), rest);
      if res.hasRows {
        assert AdvancedRanges(lastProcessed, observed) == [res.range] + later;
        assert ([res.range] + later)[1..] == later;
      } else {
        assert AdvancedRanges(lastProcessed, observed) == later;
      }
    }
  }

  /**
   While the sequence has never been called (last value NULL) the block still
   runs the command over (0, 0) without advancing, so value 0 reaches the
   command again once values are drawn.
   */
  lemma NullLastValueRepeatsZero(name: string)
    ensures BlockCalls(name, None, [None, Some(5)]) == [RangeCommand(name, 0, 0), RangeCommand(name, 0, 5)]
    ensures AdvancedRanges(None, [None, Some(5)]) == [SequenceNumberRange(0, 5)]
  {
    var observed: seq<Option<int>> := [None, Some(5)];
    assert observed[1..] == [Some(5)];
    assert observed[1..][1..] == [];
  }

  /** Successive pops hand out adjacent ranges: the second starts right after the first ends. */
  lemma AdjacentPops(lastProcessed: Option<int>, first: Option<int>, second: Option<int>)
    requires ResolveRange(lastProcessed, first).hasRows
    ensures ResolveRange(Advance(lastProcessed, first), second).range.rangeStart ==
            ResolveRange(lastProcessed, first).range.rangeEnd + 1
  {
  }

  /** Two calls at one call site: the second returns the first's range and pops nothing. */
  lemma MemoisedCallIsStable(registry: Registry.Registry, rows: SequenceRows, catalog: Catalog,
                             session: Session, name: string, otherName: string)
    requires IncrementalSequenceRange(None, registry, rows, catalog, session, name).Ok?
    ensures var first := IncrementalSequenceRange(None, registry, rows, catalog, session, name).value;
            var second := IncrementalSequenceRange(first.cache, registry, first.rows, catalog, session, otherName);
            second.Ok? && second.value.range == first.range && second.value.rows == first.rows
  {
  }

  // ---------------------------------------------------------------------------
  // The source as written

  const TwoTo64: int := 0x1_0000_0000_0000_0000

  /** An int64 stored into a uint64 field (SequenceNumberRange's fields are uint64). */
  function AsUint64(x: int): (u: int)
    ensures 0 <= u < TwoTo64
    ensures -TwoTo64 / 2 <= x < 0 ==> u == x + TwoTo64
    ensures 0 <= x < TwoTo64 ==> u == x
  {
    x % TwoTo64
  }

  /**
   ResolveRange as the source computes it: both bounds are held in uint64
   fields, so "start <= end" is an unsigned comparison.
   */
  function ResolveRangeAsWritten(lastProcessed: Option<int>, lastValue: Option<int>): Resolution {
    var range := SequenceNumberRange(RangeStart(lastProcessed), lastValue.GetOr(0));
    Resolution(range, lastValue.Some? && AsUint64(range.rangeStart) <= AsUint64(range.rangeEnd))
  }

  /** The notice branch as written: the same uint64 comparison. */
  function RangeNoticeAsWritten(range: SequenceNumberRange): Notice {
    if AsUint64(range.rangeStart) <= AsUint64(range.rangeEnd) then ProcessingValues(range.rangeStart, range.rangeEnd)
    else NoRowsToProcess
  }

  function AdvanceAsWritten(lastProcessed: Option<int>, lastValue: Option<int>): Option<int> {
    var res := ResolveRangeAsWritten(lastProcessed, lastValue);
    if res.hasRows then Some(res.range.rangeEnd) else lastProcessed
  }

  /**
   A fresh pipeline over a sequence that starts below zero: the first pop
   (last value -10) advances the watermark to -10 while the block's signed
   guard skips the command; after that every block runs the command over
   -9 .. 5 without ever advancing, so the same values are processed again and
   again, while the notice (the same unsigned comparison) reports that there
   are no rows to process. The signed resolution instead waits and then hands
   out 0 .. 5 once, and its notice agrees with the block's guard.
   */
  lemma NegativeSequenceReprocessedAsWritten()
    ensures var first := ResolveRangeAsWritten(None, Some(-10));
            first.hasRows && !BlockGuard(first.range) && AdvanceAsWritten(None, Some(-10)) == Some(-10)
    ensures var again := ResolveRangeAsWritten(Some(-10), Some(5));
            again.range == SequenceNumberRange(-9, 5) && BlockGuard(again.range) && !again.hasRows
    ensures AdvanceAsWritten(Some(-10), Some(5)) == Some(-10)
    ensures RangeNoticeAsWritten(SequenceNumberRange(-9, 5)) == NoRowsToProcess
    ensures RangeNotice(SequenceNumberRange(-9, 5)) == ProcessingValues(-9, 5)
    ensures !ResolveRange(None, Some(-10)).hasRows && Advance(None, Some(-10)) == None
    ensures ResolveRange(None, Some(5)) == Resolution(SequenceNumberRange(0, 5), true)
  {
    assert AsUint64(0) == 0;
    assert AsUint64(-10) == TwoTo64 - 10;
    assert AsUint64(-9) == TwoTo64 - 9;
    assert AsUint64(5) == 5;
  }

  /**
   The notice as written agrees with the signed one exactly when both bounds
   of an int64 range have the same sign: a range from a negative start to a
   non-negative end is reported as empty although the block runs the command
   over it, and a range from a non-negative start to a negative end is
   reported as values to process although the block skips it.
   */
  lemma RangeNoticeAsWrittenAgreesIffSameSign(range: SequenceNumberRange)
    requires -TwoTo64 / 2 <= range.rangeStart < TwoTo64 / 2 && -TwoTo64 / 2 <= range.rangeEnd < TwoTo64 / 2
    ensures RangeNoticeAsWritten(range) == RangeNotice(range) <==> ((range.rangeStart < 0) == (range.rangeEnd < 0))
  {
  }

  /** The signed resolution never runs the command over a range without advancing, once a value was drawn. */
  lemma GuardMatchesRows(lastProcessed: Option<int>, lastValue: Option<int>)
    requires lastValue.Some?
    ensures BlockGuard(ResolveRange(lastProcessed, lastValue).range) <==> ResolveRange(lastProcessed, lastValue).hasRows
  {
  }

  /**
   incremental_sequence_range as written: it pops with the registry's
   source_relation, which for a sequence pipeline is the owning table, not
   the sequence.
   */
  function IncrementalSequenceRangeAsWritten(cache: Option<SequenceNumberRange>, registry: Registry.Registry,
                                             rows: SequenceRows, catalog: Catalog, session: Session,
                                             name: string): (r: Result<RangeCall>)
    ensures cache.None? && name in registry && !IsTableOwned(catalog, registry[name].sourceRelationId) ==>
              r == Err(NotOwnedByTable)
  {
    match cache
    case Some(range) => Ok(RangeCall(range, cache, rows, RangeNotice(range)))
    case None =>
      var desc :- Registry.ReadPipelineDesc(registry, name);
      var popped :- PopSequenceNumberRange(rows, catalog, session, name, desc.sourceRelationId);
      Ok(RangeCall(popped.range, Some(popped.range), popped.rows, RangeNotice(popped.range)))
  }
}
