/**
 The time-interval resolver (src/time_interval.c). Timestamps are integer
 microseconds since 2000-01-01 00:00 UTC (PostgreSQL's TimestampTz) and the
 pipeline's interval is a fixed number of microseconds. A run takes the range
 from the stored watermark (or 0) to the last interval boundary at or before
 now - min_delay, records that boundary as the new watermark when the range is
 non-empty, and runs the user's command once over the whole range (batched) or
 once per interval-wide window (non-batched).
 */
module TimeInterval {
  import opened Base
  import Registry

  /** '2001-01-01 00:00:00' UTC, the origin of the date_bin call, in microseconds. */
  const DateBinOrigin: int := 31_622_400_000_000

  /** A row of incremental.time_interval_pipelines. */
  datatype TimeIntervalRow = TimeIntervalRow(
    batched: bool,
    lastProcessedTime: Option<int>,
    timeInterval: int,
    minDelay: int)

  type TimeRows = map<string, TimeIntervalRow>

  /** The range a run processes, half open: [rangeStart, rangeEnd). */
  datatype TimeIntervalRange = TimeIntervalRange(rangeStart: int, rangeEnd: int, interval: int, batched: bool)

  /** One command window [start, end). */
  datatype Window = Window(start: int, end: int)

  datatype PopResult = PopResult(range: TimeIntervalRange, rows: TimeRows)

  /** The outcome of one execution: the state after it and the command runs it made. */
  datatype TimeRun = TimeRun(rows: TimeRows, calls: seq<Invocation>)

  // ---------------------------------------------------------------------------
  // Grid arithmetic

  /** t lies on the grid of step `stride` through `origin`. */
  predicate OnGrid(t: int, stride: int, origin: int)
    requires stride > 0
  {
    (t - origin) % stride == 0
  }

  /** Multiplication by a positive factor is monotone. */
  lemma {:induction false} MulMonotone(x: int, y: int, k: int)
    requires x <= y && k > 0
    ensures x * k <= y * k
    decreases y - x
  {
    if x < y {
      MulMonotone(x, y - 1, k);
      assert y * k == (y - 1) * k + k;
    }
  }

  /** Euclidean quotient and remainder are unique. */
  lemma DivModUnique(a: int, d: int, q: int, m: int)
    requires d > 0 && a == q * d + m && 0 <= m < d
    ensures a / d == q && a % d == m
  {
    var q', m' := a / d, a % d;
    assert a == q' * d + m' && 0 <= m' < d;
    if q < q' {
      MulMonotone(q + 1, q', d);
      assert false;
    } else if q' < q {
      MulMonotone(q' + 1, q, d);
      assert false;
    }
  }

  lemma MultipleMod(q: int, stride: int)
    requires stride > 0
    ensures (q * stride) % stride == 0
  {
    DivModUnique(q * stride, stride, q, 0);
  }

  lemma MultipleIsOnGrid(q: int, stride: int, origin: int)
    requires stride > 0
    ensures OnGrid(origin + q * stride, stride, origin)
  {
    assert (origin + q * stride) - origin == q * stride;
    MultipleMod(q, stride);
  }

  /** A point on the grid is its origin plus a whole number of strides. */
  lemma GridQuotient(t: int, stride: int, origin: int)
    requires stride > 0 && OnGrid(t, stride, origin)
    ensures t == origin + ((t - origin) / stride) * stride
  {
    var x := t - origin;
    assert x == (x / stride) * stride + x % stride;
  }

  /** Two distinct grid points are at least one stride apart. */
  lemma GridGap(a: int, b: int, stride: int, origin: int)
    requires stride > 0 && OnGrid(a, stride, origin) && OnGrid(b, stride, origin) && a < b
    ensures a + stride <= b
  {
    GridQuotient(a, stride, origin);
    GridQuotient(b, stride, origin);
    var qa, qb := (a - origin) / stride, (b - origin) / stride;
    if qb <= qa {
      MulMonotone(qb, qa, stride);
      assert false;
    }
    MulMonotone(qa + 1, qb, stride);
    assert (qa + 1) * stride == qa * stride + stride;
  }

  /** Being on a common grid is symmetric. */
  lemma GridSymmetric(a: int, b: int, stride: int)
    requires stride > 0 && OnGrid(a, stride, b)
    ensures OnGrid(b, stride, a)
  {
    GridQuotient(a, stride, b);
    var q := (a - b) / stride;
    assert b == a + (-q) * stride;
    MultipleIsOnGrid(-q, stride, a);
  }

  /** Two grids with the same stride that share one point are the same grid. */
  lemma GridShift(t: int, a: int, b: int, stride: int)
    requires stride > 0 && OnGrid(a, stride, b) && OnGrid(t, stride, a)
    ensures OnGrid(t, stride, b)
  {
    GridQuotient(a, stride, b);
    GridQuotient(t, stride, a);
    var q1, q2 := (a - b) / stride, (t - a) / stride;
    assert (q1 + q2) * stride == q1 * stride + q2 * stride;
    assert t == b + (q1 + q2) * stride;
    MultipleIsOnGrid(q1 + q2, stride, b);
  }

  /**
   date_bin(stride, source, origin): the last grid point at or before source,
   with the grid running through origin every stride microseconds.
   */
  function DateBin(stride: int, source: int, origin: int): (r: int)
    requires stride > 0
    ensures r <= source < r + stride
    ensures OnGrid(r, stride, origin)
  {
    var q := (source - origin) / stride;
    assert source - origin == q * stride + (source - origin) % stride;
    MultipleIsOnGrid(q, stride, origin);
    origin + q * stride
  }

  /** No grid point between DateBin's result and source is skipped. */
  lemma DateBinIsLatestGridPoint(stride: int, source: int, origin: int, g: int)
    requires stride > 0 && OnGrid(g, stride, origin) && g <= source
    ensures g <= DateBin(stride, source, origin)
  {
    var r := DateBin(stride, source, origin);
    if g > r {
      GridGap(r, g, stride, origin);
    }
  }

  /**
   PostgreSQL's TimestampDifferenceMilliseconds(start, stop) on microsecond
   timestamps: 0 when stop is not after start, otherwise the difference in
   milliseconds rounded up and capped at INT_MAX. The engine only asks
   whether it is positive.
   */
  function TimestampDifferenceMilliseconds(start: int, stop: int): (ms: int)
    ensures 0 <= ms <= IntMax
    ensures ms > 0 <==> start < stop
    ensures start < stop && stop - start <= IntMax * 1000 - 1000 ==> ms * 1000 - 1000 < stop - start <= ms * 1000
  {
    var diff := stop - start;
    if diff <= 0 then 0
    else if diff >= IntMax * 1000 - 999 then IntMax
    else (diff + 999) / 1000
  }

  /** INT_MAX of a 32-bit int. */
  const IntMax: int := 0x7fff_ffff

  /** ceil(x / d) for positive d, and 0 for non-positive x. */
  function CeilDiv(x: int, d: int): int
    requires d > 0
  {
    if x <= 0 then 0 else (x + d - 1) / d
  }

  // ---------------------------------------------------------------------------
  // Range resolution

  /** The range a row yields at time `now` (GetSafeTimeIntervalRange without the table access). */
  function ResolveTimeRange(row: TimeIntervalRow, now: int): TimeIntervalRange
    requires row.timeInterval > 0
  {
    TimeIntervalRange(row.lastProcessedTime.GetOr(0),
                      DateBin(row.timeInterval, now - row.minDelay, DateBinOrigin),
                      row.timeInterval, row.batched)
  }

  /** The watermark after one pop: the range end when the range is non-empty, else unchanged. */
  function AdvanceTime(row: TimeIntervalRow, now: int): Option<int>
    requires row.timeInterval > 0
  {
    var range := ResolveTimeRange(row, now);
    if range.rangeStart < range.rangeEnd then Some(range.rangeEnd) else row.lastProcessedTime
  }

  /** InitializeTimeRangePipelineState: a new row whose watermark is the given start time. */
  function InitializeTimeRangePipelineState(rows: TimeRows, name: string, batched: bool, startTime: int,
                                            timeInterval: int, minDelay: int): (r: TimeRows)
    ensures name in r && r[name].lastProcessedTime == Some(startTime) && r[name].batched == batched
    ensures r[name].timeInterval == timeInterval && r[name].minDelay == minDelay
    ensures forall other :: other in rows && other != name ==> other in r && r[other] == rows[other]
  {
    rows[name := TimeIntervalRow(batched, Some(startTime), timeInterval, minDelay)]
  }

  /** UpdateLastProcessedTimeInterval: sets the watermark; fails when the pipeline has no row. */
  function UpdateLastProcessedTimeInterval(rows: TimeRows, name: string, t: int): (r: Result<TimeRows>)
    ensures r.Err? <==> name !in rows
    ensures r.Err? ==> r.error == PipelineNotFound(name)
    ensures r.Ok? ==> r.value.Keys == rows.Keys
    ensures r.Ok? ==> r.value[name] == rows[name].(lastProcessedTime := Some(t))
    ensures r.Ok? ==> forall other :: other in rows && other != name ==> r.value[other] == rows[other]
  {
    if name !in rows then Err(PipelineNotFound(name))
    else Ok(rows[name := rows[name].(lastProcessedTime := Some(t))])
  }

  /**
   GetSafeTimeIntervalRange: the range from the watermark (0 when NULL) to the
   last interval boundary at or before now - min_delay. date_bin rejects a
   non-positive interval.
   */
  function GetSafeTimeIntervalRange(rows: TimeRows, name: string, now: int): (r: Result<TimeIntervalRange>)
    ensures name !in rows ==> r == Err(PipelineNotFound(name))
    ensures name in rows && rows[name].timeInterval <= 0 ==> r == Err(InvalidStride)
    ensures r.Ok? <==> name in rows && rows[name].timeInterval > 0
    ensures r.Ok? ==> r.value.rangeStart == rows[name].lastProcessedTime.GetOr(0)
    ensures r.Ok? ==> r.value.interval == rows[name].timeInterval && r.value.batched == rows[name].batched
    ensures r.Ok? ==> r.value.rangeEnd <= now - rows[name].minDelay < r.value.rangeEnd + r.value.interval
    ensures r.Ok? ==> OnGrid(r.value.rangeEnd, r.value.interval, DateBinOrigin)
  {
    if name !in rows then Err(PipelineNotFound(name))
    else if rows[name].timeInterval <= 0 then Err(InvalidStride)
    else Ok(ResolveTimeRange(rows[name], now))
  }

  /**
   PopTimeIntervalRange: resolves the range and, when it is non-empty, records
   its end as the watermark (after waiting for concurrent writers, which the
   model leaves out).
   */
  function PopTimeIntervalRange(rows: TimeRows, name: string, now: int): (r: Result<PopResult>)
    ensures r.Ok? <==> name in rows && rows[name].timeInterval > 0
    ensures r.Err? ==> r == Err(GetSafeTimeIntervalRange(rows, name, now).error)
    ensures r.Ok? ==> r.value.range == ResolveTimeRange(rows[name], now)
    ensures r.Ok? ==> r.value.rows.Keys == rows.Keys
    ensures r.Ok? && r.value.range.rangeStart < r.value.range.rangeEnd ==>
              r.value.rows[name].lastProcessedTime == Some(r.value.range.rangeEnd)
    ensures r.Ok? && r.value.range.rangeStart >= r.value.range.rangeEnd ==> r.value.rows == rows
    ensures r.Ok? ==> r.value.rows[name] == rows[name].(lastProcessedTime := AdvanceTime(rows[name], now))
    ensures r.Ok? ==> r.value.rows[name].lastProcessedTime.GetOr(0) >= rows[name].lastProcessedTime.GetOr(0)
    ensures r.Ok? ==> forall other :: other in rows && other != name ==> r.value.rows[other] == rows[other]
  {
    var range :- GetSafeTimeIntervalRange(rows, name, now);
    if range.rangeStart < range.rangeEnd then
      Ok(PopResult(range, UpdateLastProcessedTimeInterval(rows, name, range.rangeEnd).value))
    else
      Ok(PopResult(range, rows))
  }

  // ---------------------------------------------------------------------------
  // Windows of the non-batched loop

  /**
   The windows the non-batched loop walks through: starting at `start`, one
   window of width `interval` after another while the window start is before
   `end`.
   */
  function Windows(start: int, end: int, interval: int): seq<Window>
    requires interval > 0
    decreases end - start
  {
    if TimestampDifferenceMilliseconds(start, end) > 0
    then [Window(start, start + interval)] + Windows(start + interval, end, interval)
    else []
  }

  /**
   The shape of the windows: ceil((end - start) / interval) of them, the first
   at `start`, each `interval` wide and starting where the previous one ended,
   all starting before `end` and on the grid through `start`; the last one ends
   at or after `end` but less than one interval beyond it.
   */
  lemma {:induction false} WindowsShape(start: int, end: int, interval: int)
    requires interval > 0
    ensures var w := Windows(start, end, interval);
            && |w| == CeilDiv(end - start, interval)
            && (|w| > 0 ==> w[0].start == start && end <= w[|w| - 1].end < end + interval)
            && (forall i :: 0 <= i < |w| ==>
                  w[i].end == w[i].start + interval && start <= w[i].start < end && OnGrid(w[i].start, interval, start))
            && (forall i :: 0 <= i < |w| - 1 ==> w[i + 1].start == w[i].end)
    decreases end - start
  {
    var w := Windows(start, end, interval);
    if start < end {
      var next := start + interval;
      var rest := Windows(next, end, interval);
      WindowsShape(next, end, interval);
      assert w == [Window(start, next)] + rest;
      assert |rest| == CeilDiv(end - next, interval);
      CeilDivStep(end - start, interval);
      assert OnGrid(start, interval, start);
      assert OnGrid(next, interval, start) by { MultipleIsOnGrid(1, interval, start); }
      forall i | 0 <= i < |w|
        ensures w[i].end == w[i].start + interval && start <= w[i].start < end && OnGrid(w[i].start, interval, start)
      {
        if i > 0 {
          assert w[i] == rest[i - 1];
          GridShift(rest[i - 1].start, next, start, interval);
        }
      }
      forall i | 0 <= i < |w| - 1
        ensures w[i + 1].start == w[i].end
      {
        if i > 0 {
          assert w[i] == rest[i - 1] && w[i + 1] == rest[i];
        }
      }
    }
  }

  lemma CeilDivStep(x: int, d: int)
    requires d > 0 && x > 0
    ensures CeilDiv(x, d) == 1 + CeilDiv(x - d, d)
  {
    if x - d <= 0 {
      DivModUnique(x + d - 1, d, 1, x - 1);
    } else {
      DivShift(x - 1, d);
      assert x + d - 1 == (x - 1) + d;
      assert x - d + d - 1 == x - 1;
    }
  }

  lemma DivShift(a: int, d: int)
    requires d > 0
    ensures (a + d) / d == a / d + 1
  {
    var q, m := a / d, a % d;
    assert a == q * d + m && 0 <= m < d;
    assert (q + 1) * d == q * d + d;
    DivModUnique(a + d, d, q + 1, m);
  }

  /** With start and end on one grid, the windows tile [start, end) exactly. */
  lemma WindowsTileWhenAligned(start: int, end: int, interval: int, origin: int)
    requires interval > 0 && start < end
    requires OnGrid(start, interval, origin) && OnGrid(end, interval, origin)
    ensures var w := Windows(start, end, interval); |w| > 0 && w[|w| - 1].end == end
  {
    WindowsShape(start, end, interval);
    var w := Windows(start, end, interval);
    var last := w[|w| - 1];
    assert OnGrid(last.start, interval, start);
    GridShift(last.start, start, origin, interval);
    MultipleIsOnGrid(1, interval, last.start);
    GridShift(last.end, last.start, origin, interval);
    if last.end != end {
      GridGap(end, last.end, interval, origin);
    }
  }

  /** With end on the grid but start off it, the last window reaches past end. */
  lemma WindowsOvershootWhenMisaligned(start: int, end: int, interval: int, origin: int)
    requires interval > 0 && start < end
    requires !OnGrid(start, interval, origin) && OnGrid(end, interval, origin)
    ensures var w := Windows(start, end, interval); |w| > 0 && w[|w| - 1].end > end
  {
    WindowsShape(start, end, interval);
    var w := Windows(start, end, interval);
    var last := w[|w| - 1];
    if last.end == end {
      MultipleIsOnGrid(1, interval, last.start);
      GridShift(last.end, last.start, start, interval);
      GridSymmetric(end, start, interval);
      GridShift(start, end, origin, interval);
      assert false;
    }
  }

  /**
   The non-batched loop of ExecuteTimeIntervalPipeline: walk from the range
   start in steps of the interval while the millisecond difference to the
   range end is positive.
   */
  method NonBatchedWindows(rangeStart: int, rangeEnd: int, interval: int) returns (windows: seq<Window>)
    requires interval > 0
    ensures windows == Windows(rangeStart, rangeEnd, interval)
    ensures |windows| == CeilDiv(rangeEnd - rangeStart, interval)
    ensures |windows| > 0 ==> windows[0].start == rangeStart
    ensures forall i :: 0 <= i < |windows| - 1 ==> windows[i + 1].start == windows[i].end
  {
    windows := WalkWindows(rangeStart, rangeEnd, interval);
    WindowsShape(rangeStart, rangeEnd, interval);
  }

  /** The loop itself: the windows it collects are the recursive definition's. */
  method WalkWindows(rangeStart: int, rangeEnd: int, interval: int) returns (windows: seq<Window>)
    requires interval > 0
    ensures windows == Windows(rangeStart, rangeEnd, interval)
  {
    windows := [];
    var nextStart := rangeStart;
    while TimestampDifferenceMilliseconds(nextStart, rangeEnd) > 0
      invariant windows + Windows(nextStart, rangeEnd, interval) == Windows(rangeStart, rangeEnd, interval)
      decreases rangeEnd - nextStart
    {
      var currentStart := nextStart;
      var currentEnd := currentStart + interval;
      assert Windows(currentStart, rangeEnd, interval) ==
             [Window(currentStart, currentEnd)] + Windows(currentEnd, rangeEnd, interval);
      assert windows + Windows(currentStart, rangeEnd, interval) ==
             (windows + [Window(currentStart, currentEnd)]) + Windows(currentEnd, rangeEnd, interval);
      windows := windows + [Window(currentStart, currentEnd)];
      nextStart := currentEnd;
    }
  }

  /** The command runs of a list of windows, in order. */
  function WindowCommands(name: string, windows: seq<Window>): (calls: seq<Invocation>)
    ensures |calls| == |windows|
    ensures forall i :: 0 <= i < |windows| ==> calls[i] == RangeCommand(name, windows[i].start, windows[i].end)
  {
    seq(|windows|, i requires 0 <= i < |windows| => RangeCommand(name, windows[i].start, windows[i].end))
  }

  /**
   ExecuteTimeIntervalPipeline: pops the range; an empty range runs nothing,
   a batched pipeline runs the command once over the range, a non-batched one
   once per window.
   */
  function ExecuteTimeIntervalPipeline(registry: Registry.Registry, rows: TimeRows, name: string, now: int): (r: Result<TimeRun>)
    ensures name !in registry ==> r == Err(NoSuchPipeline(name))
    ensures r.Ok? <==> name in registry && name in rows && rows[name].timeInterval > 0
  {
    var _ :- Registry.ReadPipelineDesc(registry, name);
    var popped :- PopTimeIntervalRange(rows, name, now);
    var range := popped.range;
    if range.rangeStart >= range.rangeEnd then
      Ok(TimeRun(popped.rows, []))
    else if range.batched then
      Ok(TimeRun(popped.rows, [RangeCommand(name, range.rangeStart, range.rangeEnd)]))
    else
      Ok(TimeRun(popped.rows, WindowCommands(name, Windows(range.rangeStart, range.rangeEnd, range.interval))))
  }

  /**
   What one execution does. The command runs exactly when the watermark is
   before the safe boundary, the date_bin of now - min_delay; otherwise
   nothing runs and nothing changes. When it runs, the watermark becomes
   that boundary E (on the date_bin grid, at most now - min_delay and less than
   one interval before it); a batched pipeline runs the command once with
   (start, E); a non-batched one runs it once per window, the first at start,
   each one interval wide and starting where the previous ended, every one
   starting before E.
   */
  lemma ExecuteTimeIntervalPipelineSpec(registry: Registry.Registry, rows: TimeRows, name: string, now: int)
    requires ExecuteTimeIntervalPipeline(registry, rows, name, now).Ok?
    ensures var run := ExecuteTimeIntervalPipeline(registry, rows, name, now).value;
            var row := rows[name];
            var start := row.lastProcessedTime.GetOr(0);
            && run.rows.Keys == rows.Keys
            && (forall other :: other in rows && other != name ==> run.rows[other] == rows[other])
            && (run.calls == [] <==> run.rows == rows)
            && (run.calls != [] <==> start < DateBin(row.timeInterval, now - row.minDelay, DateBinOrigin))
            && run.rows[name] == row.(lastProcessedTime := AdvanceTime(row, now))
            && (run.calls != [] ==>
                  run.rows[name].lastProcessedTime == Some(DateBin(row.timeInterval, now - row.minDelay, DateBinOrigin)))
            && (run.calls != [] ==>
                  var e := run.rows[name].lastProcessedTime.value;
                  && run.rows[name].lastProcessedTime.Some?
                  && start < e <= now - row.minDelay < e + row.timeInterval
                  && OnGrid(e, row.timeInterval, DateBinOrigin)
                  && (row.batched ==> run.calls == [RangeCommand(name, start, e)])
                  && (!row.batched ==>
                        && |run.calls| == CeilDiv(e - start, row.timeInterval)
                        && run.calls[0].start == start
                        && (forall i :: 0 <= i < |run.calls| ==>
                              run.calls[i].RangeCommand? && run.calls[i].pipeline == name &&
                              run.calls[i].end == run.calls[i].start + row.timeInterval &&
                              start <= run.calls[i].start < e)
                        && (forall i :: 0 <= i < |run.calls| - 1 ==> run.calls[i + 1].start == run.calls[i].end)))
  {
    var row := rows[name];
    var range := ResolveTimeRange(row, now);
    WindowsShape(range.rangeStart, range.rangeEnd, range.interval);
    var run := ExecuteTimeIntervalPipeline(registry, rows, name, now).value;
    if range.rangeStart < range.rangeEnd {
      assert run.rows[name].lastProcessedTime == Some(range.rangeEnd);
      assert run.rows != rows by {
        assert run.rows[name].lastProcessedTime != rows[name].lastProcessedTime;
      }
    }
  }

  /**
   The windows stay inside [start, end) exactly when start lies on the grid
   that end lies on; otherwise the last window reaches past end.
   */
  lemma WindowsWithinRangeIffAligned(start: int, end: int, interval: int, origin: int)
    requires interval > 0 && start < end && OnGrid(end, interval, origin)
    ensures var w := Windows(start, end, interval);
            (forall i :: 0 <= i < |w| ==> w[i].end <= end) <==> OnGrid(start, interval, origin)
  {
    var w := Windows(start, end, interval);
    WindowsShape(start, end, interval);
    if OnGrid(start, interval, origin) {
      WindowsTileWhenAligned(start, end, interval, origin);
      forall i | 0 <= i < |w|
        ensures w[i].end <= end
      {
        if i < |w| - 1 {
          assert w[i].end == w[i + 1].start;
        }
      }
    } else {
      WindowsOvershootWhenMisaligned(start, end, interval, origin);
    }
  }

  /**
   A non-batched run keeps every window at or before the new watermark
   exactly when its start lies on the date_bin grid. A misaligned start — a
   user start_time, or the 0 a reset writes when the interval does not divide
   the distance from 2000-01-01 to 2001-01-01 — makes the last window reach
   past the watermark, so the next run processes part of it again.
   */
  lemma NonBatchedWindowsWithinWatermark(registry: Registry.Registry, rows: TimeRows, name: string, now: int)
    requires ExecuteTimeIntervalPipeline(registry, rows, name, now).Ok?
    requires !rows[name].batched
    ensures var run := ExecuteTimeIntervalPipeline(registry, rows, name, now).value;
            var row := rows[name];
            run.calls != [] ==>
              run.rows[name].lastProcessedTime.Some? &&
              ((forall i :: 0 <= i < |run.calls| ==> run.calls[i].end <= run.rows[name].lastProcessedTime.value) <==>
               OnGrid(row.lastProcessedTime.GetOr(0), row.timeInterval, DateBinOrigin))
  {
    var row := rows[name];
    var range := ResolveTimeRange(row, now);
    var run := ExecuteTimeIntervalPipeline(registry, rows, name, now).value;
    if range.rangeStart < range.rangeEnd {
      var w := Windows(range.rangeStart, range.rangeEnd, range.interval);
      assert run.calls == WindowCommands(name, w);
      WindowsWithinRangeIffAligned(range.rangeStart, range.rangeEnd, range.interval, DateBinOrigin);
      assert forall i :: 0 <= i < |w| ==> run.calls[i].end == w[i].end;
    }
  }

  // ---------------------------------------------------------------------------
  // Properties over histories of runs

  /** The row after one successful pop per observed `now`. */
  function ReplayTimes(row: TimeIntervalRow, nows: seq<int>): (r: TimeIntervalRow)
    requires row.timeInterval > 0
    ensures r.timeInterval == row.timeInterval
    decreases |nows|
  {
    if |nows| == 0 then row
    else ReplayTimes(row.(lastProcessedTime := AdvanceTime(row, nows[0])), nows[1..])
  }

  /** The ranges that advanced the watermark along the same history. */
  function AdvancedTimeRanges(row: TimeIntervalRow, nows: seq<int>): seq<Window>
    requires row.timeInterval > 0
    decreases |nows|
  {
    if |nows| == 0 then []
    else
      var range := ResolveTimeRange(row, nows[0]);
      (if range.rangeStart < range.rangeEnd then [Window(range.rangeStart, range.rangeEnd)] else []) +
      AdvancedTimeRanges(row.(lastProcessedTime := AdvanceTime(row, nows[0])), nows[1..])
  }

  /** Non-empty windows, each starting where the previous ended, leading from `from` to `to`. */
  predicate Chain(ws: seq<Window>, from: int, to: int)
    decreases |ws|
  {
    if |ws| == 0 then from == to
    else ws[0].start == from && ws[0].start < ws[0].end && Chain(ws[1..], ws[0].end, to)
  }

  /**
   No gaps, no overlaps: whatever the observed clock readings, the ranges
   that advanced the watermark form a chain from the initial watermark to the
   final one.
   */
  lemma {:induction false} TimeRangesChain(row: TimeIntervalRow, nows: seq<int>)
    requires row.timeInterval > 0
    ensures Chain(AdvancedTimeRanges(row, nows), row.lastProcessedTime.GetOr(0),
                  ReplayTimes(row, nows).lastProcessedTime.GetOr(0))
    decreases |nows|
  {
    if |nows| > 0 {
      var range := ResolveTimeRange(row, nows[0]);
      var next := row.(lastProcessedTime := AdvanceTime(row, nows[0]));
      TimeRangesChain(next, nows[1..]);
      assert ReplayTimes(row, nows) == ReplayTimes(next, nows[1..]);
      if range.rangeStart < range.rangeEnd {
        var ws := AdvancedTimeRanges(row, nows);
        assert next.lastProcessedTime == Some(range.rangeEnd);
        assert ws == [Window(range.rangeStart, range.rangeEnd)] + AdvancedTimeRanges(next, nows[1..]);
        assert ws[1..] == AdvancedTimeRanges(next, nows[1..]);
        assert ws[0].end == range.rangeEnd == next.lastProcessedTime.GetOr(0);
        assert Chain(ws[1..], ws[0].end, ReplayTimes(next, nows[1..]).lastProcessedTime.GetOr(0));
      } else {
        var later := AdvancedTimeRanges(next, nows[1..]);
        assert next == row;
        assert [] + later == later;
        assert AdvancedTimeRanges(row, nows) == later;
      }
    }
  }
}
