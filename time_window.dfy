/**
 * Time arithmetic of the candle downloader: interval lengths, the expected
 * number of candles in a window, the latest complete candle, splitting a long
 * window into requests of at most `maxCount` candles, the text stored in the
 * `trade_date` column and the "already up to date" and "resume from" rules.
 *
 * Times are whole seconds since 1970-01-01 00:00:00 UTC.
 */
module TimeWindow {
  import opened Common
  import opened Calendar

  const DaySeconds: int := 86400

  /** Largest number of candles one exchange request returns (API_DATA_LIMIT). */
  const ApiDataLimit: int := 1500

  /** Interval names and their lengths in seconds; a month counts as 30 days. */
  const IntervalTable: map<string, int> := map[
    "1m" := 60, "3m" := 180, "5m" := 300, "15m" := 900, "30m" := 1800,
    "1h" := 3600, "2h" := 7200, "4h" := 14400, "6h" := 21600, "8h" := 28800,
    "12h" := 43200, "1d" := 86400, "3d" := 259200, "1w" := 604800, "1M" := 2592000]

  /** Intervals whose `trade_date` is a bare date ('%Y-%m-%d'). */
  predicate IsDayPlus(iv: string)
  {
    iv == "1d" || iv == "3d" || iv == "1w" || iv == "1M"
  }

  /** Length of one candle; an unknown interval counts as one day. */
  function IntervalSeconds(iv: string): (s: int)
    ensures s > 0 && s % 60 == 0
    ensures iv !in IntervalTable ==> s == DaySeconds
  {
    if iv in IntervalTable then IntervalTable[iv] else DaySeconds
  }

  /** Candles 1d, 3d and 1w advance by whole days. */
  function DayStep(iv: string): int
  {
    if iv == "3d" then 3 else if iv == "1w" then 7 else 1
  }

  /** The table lengths of 1d, 3d and 1w are exactly the day steps used to resume them. */
  lemma DayStepMatchesLength(iv: string)
    requires iv == "1d" || iv == "3d" || iv == "1w"
    ensures IntervalSeconds(iv) == DayStep(iv) * DaySeconds
  {
  }

  /** Number of candles expected between two instants, both ends included. */
  function DataCount(start: int, end: int, iv: string): int
  {
    (end - start) / IntervalSeconds(iv) + 1
  }

  /** The count is the one whose candles, laid from `start`, reach `end` and no further. */
  lemma DataCountBounds(start: int, end: int, iv: string)
    ensures (DataCount(start, end, iv) - 1) * IntervalSeconds(iv) <= end - start < DataCount(start, end, iv) * IntervalSeconds(iv)
  {
    var s := IntervalSeconds(iv);
    var q := (end - start) / s;
    assert end - start == q * s + (end - start) % s;
  }

  /**
   * Open time of the newest candle that has closed at `now`: the candle
   * [r, r + s) has ended, the next one [r + s, r + 2s) is still running.
   */
  function LatestCompleteKlineTime(iv: string, now: int): (r: int)
    ensures r % IntervalSeconds(iv) == 0
    ensures r + IntervalSeconds(iv) <= now < r + 2 * IntervalSeconds(iv)
  {
    var s := IntervalSeconds(iv);
    var k := now / s;
    assert now == k * s + now % s;
    assert (k - 1) * s == k * s - s;
    MultipleOf(k - 1, s);
    (k - 1) * s
  }

  /**
   * Default end of a download window: the last second of yesterday (UTC) for
   * day-and-longer candles, the latest complete candle otherwise.
   */
  function DefaultEndTime(iv: string, now: int): (r: int)
    ensures IsDayPlus(iv) ==> (r + 1) % DaySeconds == 0 && now - DaySeconds <= r < now
    ensures !IsDayPlus(iv) ==> r == LatestCompleteKlineTime(iv, now)
  {
    if IsDayPlus(iv) then
      var k := now / DaySeconds;
      assert now == k * DaySeconds + now % DaySeconds;
      k * DaySeconds - 1
    else LatestCompleteKlineTime(iv, now)
  }

  // ---------------------------------------------------------------------
  // Splitting a window into requests
  // ---------------------------------------------------------------------

  /** A request window, both ends included. */
  datatype Segment = Segment(start: int, end: int)

  /**
   * The windows produced from `cur` onwards by the loop as written: while
   * `cur < end`, take [cur, min(cur + span, end)] and continue one candle
   * after its end.
   */
  function SegmentsFrom(cur: int, end: int, span: int, step: int): seq<Segment>
    requires step > 0 && (end <= cur || span >= 0)
    decreases end - cur
  {
    if cur < end then
      var e := if cur + span > end then end else cur + span;
      [Segment(cur, e)] + SegmentsFrom(e + step, end, span, step)
    else []
  }

  /**
   * The same loop run while `cur <= end`, so that a candle opening exactly
   * at `end` is still requested.
   */
  function SegmentsThrough(cur: int, end: int, span: int, step: int): seq<Segment>
    requires span >= 0 && step > 0
    decreases end - cur + 1
  {
    if cur <= end then
      var e := if cur + span > end then end else cur + span;
      [Segment(cur, e)] + SegmentsThrough(e + step, end, span, step)
    else []
  }

  /** Well-formed windows from `cur`: ordered, contiguous on the candle grid, each within `span`. */
  predicate Chained(segs: seq<Segment>, cur: int, end: int, span: int, step: int)
  {
    (forall i :: 0 <= i < |segs| ==> segs[i].start <= segs[i].end <= end
                                     && segs[i].end - segs[i].start <= span)
    && (forall i :: 0 <= i < |segs| - 1 ==> segs[i + 1].start == segs[i].end + step)
    && (|segs| > 0 ==> segs[0].start == cur)
  }

  lemma {:induction false} SegmentsFromChained(cur: int, end: int, span: int, step: int)
    requires span >= 0 && step > 0
    ensures Chained(SegmentsFrom(cur, end, span, step), cur, end, span, step)
    ensures cur < end <==> |SegmentsFrom(cur, end, span, step)| > 0
    ensures |SegmentsFrom(cur, end, span, step)| > 0 ==>
              end - SegmentsFrom(cur, end, span, step)[|SegmentsFrom(cur, end, span, step)| - 1].end <= step
    decreases end - cur
  {
    if cur < end {
      var e := if cur + span > end then end else cur + span;
      var rest := SegmentsFrom(e + step, end, span, step);
      SegmentsFromChained(e + step, end, span, step);
      var segs := [Segment(cur, e)] + rest;
      assert SegmentsFrom(cur, end, span, step) == segs;
      ChainedCons(Segment(cur, e), rest, cur, end, span, step);
      assert segs[|segs| - 1] == if rest == [] then Segment(cur, e) else rest[|rest| - 1];
    } else {
      assert SegmentsFrom(cur, end, span, step) == [];
    }
  }

  /** A window from `cur` followed by windows chained from one step past its end is chained from `cur`. */
  lemma ChainedCons(seg: Segment, rest: seq<Segment>, cur: int, end: int, span: int, step: int)
    requires seg.start == cur <= seg.end <= end && seg.end - cur <= span
    requires Chained(rest, seg.end + step, end, span, step)
    ensures Chained([seg] + rest, cur, end, span, step)
  {
    var segs := [seg] + rest;
    assert forall i :: 1 <= i < |segs| ==> segs[i] == rest[i - 1];
  }

  lemma {:induction false} SegmentsThroughChained(cur: int, end: int, span: int, step: int)
    requires span >= 0 && step > 0
    ensures Chained(SegmentsThrough(cur, end, span, step), cur, end, span, step)
    ensures cur <= end <==> |SegmentsThrough(cur, end, span, step)| > 0
    ensures |SegmentsThrough(cur, end, span, step)| > 0 ==>
              end - SegmentsThrough(cur, end, span, step)[|SegmentsThrough(cur, end, span, step)| - 1].end < step
    decreases end - cur + 1
  {
    if cur <= end {
      var e := if cur + span > end then end else cur + span;
      var rest := SegmentsThrough(e + step, end, span, step);
      SegmentsThroughChained(e + step, end, span, step);
      var segs := [Segment(cur, e)] + rest;
      assert SegmentsThrough(cur, end, span, step) == segs;
      ChainedCons(Segment(cur, e), rest, cur, end, span, step);
      if rest != [] {
        assert segs[|segs| - 1] == rest[|rest| - 1];
      }
    }
  }

  /** Windows no longer than (maxCount - 1) candles hold at most maxCount candles each. */
  lemma ChainedFitsLimit(segs: seq<Segment>, cur: int, end: int, iv: string, maxCount: int)
    requires maxCount >= 1
    requires Chained(segs, cur, end, (maxCount - 1) * IntervalSeconds(iv), IntervalSeconds(iv))
    ensures forall i :: 0 <= i < |segs| ==> DataCount(segs[i].start, segs[i].end, iv) <= maxCount
  {
    var s := IntervalSeconds(iv);
    forall i | 0 <= i < |segs|
      ensures DataCount(segs[i].start, segs[i].end, iv) <= maxCount
    {
      var c := DataCount(segs[i].start, segs[i].end, iv);
      DataCountBounds(segs[i].start, segs[i].end, iv);
      assert (c - 1) * s < maxCount * s;
    }
  }

  /**
   * The loop of split_time_range on a grid of `step` seconds: while `cur`
   * is before `end`, emit [cur, min(cur + span, end)] and move one candle
   * past its end.
   */
  method CutSegments(start: int, end: int, span: int, step: int) returns (ranges: seq<Segment>)
    requires (span >= 0 || end <= start) && step > 0
    ensures ranges == SegmentsFrom(start, end, span, step)
  {
    ranges := [];
    var cur := start;
    while cur < end
      invariant span >= 0 || end <= cur
      invariant ranges + SegmentsFrom(cur, end, span, step) == SegmentsFrom(start, end, span, step)
      decreases end - cur
    {
      var e := cur + span;
      if e > end {
        e := end;
      }
      assert SegmentsFrom(cur, end, span, step) == [Segment(cur, e)] + SegmentsFrom(e + step, end, span, step);
      AppendAssoc(ranges, [Segment(cur, e)], SegmentsFrom(e + step, end, span, step));
      ranges := ranges + [Segment(cur, e)];
      cur := e + step;
    }
    AppendNothing(ranges, SegmentsFrom(cur, end, span, step));
  }

  /** The same loop run while `cur <= end`. */
  method CutSegmentsThrough(start: int, end: int, span: int, step: int) returns (ranges: seq<Segment>)
    requires span >= 0 && step > 0
    ensures ranges == SegmentsThrough(start, end, span, step)
  {
    ranges := [];
    var cur := start;
    while cur <= end
      invariant ranges + SegmentsThrough(cur, end, span, step) == SegmentsThrough(start, end, span, step)
      decreases end - cur + 1
    {
      var e := cur + span;
      if e > end {
        e := end;
      }
      assert SegmentsThrough(cur, end, span, step) == [Segment(cur, e)] + SegmentsThrough(e + step, end, span, step);
      AppendAssoc(ranges, [Segment(cur, e)], SegmentsThrough(e + step, end, span, step));
      ranges := ranges + [Segment(cur, e)];
      cur := e + step;
    }
    AppendNothing(ranges, SegmentsThrough(cur, end, span, step));
  }

  /** Properties of the windows split_time_range builds, as written. */
  lemma SplitFacts(segs: seq<Segment>, start: int, end: int, iv: string, maxCount: int)
    requires maxCount >= 1
    requires segs == SegmentsFrom(start, end, (maxCount - 1) * IntervalSeconds(iv), IntervalSeconds(iv))
    ensures start < end <==> |segs| > 0
    ensures forall i :: 0 <= i < |segs| ==> DataCount(segs[i].start, segs[i].end, iv) <= maxCount
    ensures |segs| > 0 ==> segs[0].start == start && end - segs[|segs| - 1].end <= IntervalSeconds(iv)
  {
    var step := IntervalSeconds(iv);
    var span := (maxCount - 1) * step;
    SegmentsFromChained(start, end, span, step);
    ChainedFitsLimit(segs, start, end, iv, maxCount);
  }

  /**
   * split_time_range as written: consecutive windows of at most maxCount
   * candles, starting at `start`, each one candle after the previous one.
   * With maxCount <= 0 the loop never advances once it is entered, so a
   * non-positive count is allowed only for an empty window.
   */
  method SplitTimeRange(start: int, end: int, iv: string, maxCount: int) returns (ranges: seq<Segment>)
    requires maxCount >= 1 || end <= start
    ensures ranges == SegmentsFrom(start, end, (maxCount - 1) * IntervalSeconds(iv), IntervalSeconds(iv))
    ensures start < end <==> |ranges| > 0
    ensures forall i :: 0 <= i < |ranges| ==> DataCount(ranges[i].start, ranges[i].end, iv) <= maxCount
  {
    ranges := CutSegments(start, end, (maxCount - 1) * IntervalSeconds(iv), IntervalSeconds(iv));
    if maxCount >= 1 {
      SplitFacts(ranges, start, end, iv, maxCount);
    }
  }


  /**
   * The windows of SplitTimeRangeThrough request every candle-grid instant
   * from `cur` to `end`: the grid point cur + k*step lies in one of them.
   */
  lemma {:induction false} SegmentsThroughCover(cur: int, end: int, m: nat, step: int, k: nat)
    requires step > 0 && cur + k * step <= end
    ensures exists i :: 0 <= i < |SegmentsThrough(cur, end, m * step, step)|
              && SegmentsThrough(cur, end, m * step, step)[i].start <= cur + k * step
              && cur + k * step <= SegmentsThrough(cur, end, m * step, step)[i].end
    decreases end - cur + 1
  {
    var span := m * step;
    var segs := SegmentsThrough(cur, end, span, step);
    var t := cur + k * step;
    var e := if cur + span > end then end else cur + span;
    assert k * step >= 0;
    if t <= e {
      assert segs[0] == Segment(cur, e);
    } else {
      assert k > m;
      var k' := k - m - 1;
      assert t == (e + step) + k' * step;
      SegmentsThroughCover(e + step, end, m, step, k');
      var rest := SegmentsThrough(e + step, end, span, step);
      var i :| 0 <= i < |rest| && rest[i].start <= t <= rest[i].end;
      assert segs[i + 1] == rest[i];
    }
  }

  /** Properties of the windows of the corrected split. */
  lemma SplitThroughFacts(segs: seq<Segment>, start: int, end: int, iv: string, maxCount: int)
    requires maxCount >= 1
    requires segs == SegmentsThrough(start, end, (maxCount - 1) * IntervalSeconds(iv), IntervalSeconds(iv))
    ensures start <= end <==> |segs| > 0
    ensures forall i :: 0 <= i < |segs| ==> DataCount(segs[i].start, segs[i].end, iv) <= maxCount
    ensures |segs| > 0 ==> segs[0].start == start && end - segs[|segs| - 1].end < IntervalSeconds(iv)
    ensures forall i :: 0 <= i < |segs| - 1 ==> segs[i + 1].start == segs[i].end + IntervalSeconds(iv)
  {
    var step := IntervalSeconds(iv);
    var span := (maxCount - 1) * step;
    SegmentsThroughChained(start, end, span, step);
    ChainedFitsLimit(segs, start, end, iv, maxCount);
  }

  /**
   * split_time_range with the loop condition `cur <= end`: it keeps the
   * windows of SplitTimeRange and adds the last one-candle window that the
   * strict condition drops.
   */
  method SplitTimeRangeThrough(start: int, end: int, iv: string, maxCount: int) returns (ranges: seq<Segment>)
    requires maxCount >= 1
    ensures ranges == SegmentsThrough(start, end, (maxCount - 1) * IntervalSeconds(iv), IntervalSeconds(iv))
    ensures start <= end <==> |ranges| > 0
    ensures |ranges| > 0 ==> ranges[0].start == start && end - ranges[|ranges| - 1].end < IntervalSeconds(iv)
    ensures forall i :: 0 <= i < |ranges| ==> DataCount(ranges[i].start, ranges[i].end, iv) <= maxCount
    ensures forall i :: 0 <= i < |ranges| - 1 ==> ranges[i + 1].start == ranges[i].end + IntervalSeconds(iv)
  {
    ranges := CutSegmentsThrough(start, end, (maxCount - 1) * IntervalSeconds(iv), IntervalSeconds(iv));
    SplitThroughFacts(ranges, start, end, iv, maxCount);
  }


  /**
   * The strict loop misses the candle at `end` when the window is a whole
   * number of full requests: 1-minute candles from 0 to 600 with a limit of
   * 10 give the single request [0, 540], although 11 candles are expected and
   * the one opening at 600 is in no request.
   */
  lemma SplitMissesLastCandle()
    ensures DataCount(0, 600, "1m") == 11
    ensures SegmentsFrom(0, 600, 9 * 60, 60) == [Segment(0, 540)]
    ensures SegmentsThrough(0, 600, 9 * 60, 60) == [Segment(0, 540), Segment(600, 600)]
  {
    assert SegmentsFrom(600, 600, 540, 60) == [];
    assert SegmentsThrough(660, 600, 540, 60) == [];
    assert SegmentsThrough(600, 600, 540, 60) == [Segment(600, 600)];
  }

  // ---------------------------------------------------------------------
  // trade_date values
  // ---------------------------------------------------------------------

  /**
   * The `trade_date` text of a row: a date '%Y-%m-%d', a UTC time
   * '%Y-%m-%d %H:%M:%S' (kept as its second count), or text in neither format.
   */
  datatype TradeDate = DateKey(date: Date) | TimeKey(seconds: int) | OtherText(text: string)

  /** Times `datetime` can represent: years 1 to 9999. */
  predicate InDateRange(t: int)
  {
    MinDay * DaySeconds <= t < (MaxDay + 1) * DaySeconds
  }

  /** The UTC date of an instant. */
  function DateOf(t: int): (d: Date)
    requires InDateRange(t)
    ensures DayNumber(d) * DaySeconds <= t < (DayNumber(d) + 1) * DaySeconds
  {
    var n := t / DaySeconds;
    assert t == n * DaySeconds + t % DaySeconds;
    DateOfDay(n)
  }

  /** The `trade_date` stored for a candle opening at `openTime`. */
  function TradeDateOf(openTime: int, iv: string): (k: TradeDate)
    requires InDateRange(openTime)
    ensures IsDayPlus(iv) ==> k.DateKey? && DayNumber(k.date) == openTime / DaySeconds
    ensures !IsDayPlus(iv) ==> k == TimeKey(openTime)
  {
    if IsDayPlus(iv) then DateKey(DateOf(openTime)) else TimeKey(openTime)
  }

  /**
   * compare_trade_dates: the newest stored candle is at or after the end of
   * the window, compared by date for day-and-longer candles and by time
   * otherwise; text that does not parse in the expected format gives false.
   */
  function CompareTradeDates(last: TradeDate, end: int, iv: string): (upToDate: bool)
    ensures upToDate ==> (if IsDayPlus(iv) then last.DateKey? else last.TimeKey?)
  {
    if IsDayPlus(iv) then
      (match last
        case DateKey(d) => DayNumber(d) >= end / DaySeconds
        case _ => false)
    else
      (match last
        case TimeKey(t) => t >= end
        case _ => false)
  }

  /** Key b is of the same format as key a and no earlier. */
  predicate NotEarlier(a: TradeDate, b: TradeDate)
  {
    (a.DateKey? && b.DateKey? && !Before(b.date, a.date))
    || (a.TimeKey? && b.TimeKey? && a.seconds <= b.seconds)
  }

  /**
   * A later stored key of the same format is at least as up to date, and a
   * key that is up to date for an end time is up to date for every earlier one.
   */
  lemma CompareMonotone(a: TradeDate, b: TradeDate, end: int, end': int, iv: string)
    requires NotEarlier(a, b) && end' <= end
    requires CompareTradeDates(a, end, iv)
    ensures CompareTradeDates(b, end', iv)
  {
    if a.DateKey? {
      DayNumberOrder(b.date, a.date);
      var q, q' := end / DaySeconds, end' / DaySeconds;
      assert end == q * DaySeconds + end % DaySeconds;
      assert end' == q' * DaySeconds + end' % DaySeconds;
    }
  }

  /** `date + timedelta(days=n)`, absent past 9999-12-31. */
  function AddDays(d: Date, n: nat): (r: Option<Date>)
    ensures r.Some? <==> DayNumber(d) + n <= MaxDay
    ensures r.Some? ==> DayNumber(r.value) == DayNumber(d) + n
  {
    DayNumberRange(d);
    if DayNumber(d) + n <= MaxDay then Some(DateOfDay(DayNumber(d) + n)) else None
  }

  /** The first instant of the grid of step s strictly after t. */
  function NextGridPoint(t: int, s: int): (r: int)
    requires s > 0
    ensures r % s == 0 && t < r <= t + s
  {
    var k := t / s;
    assert t == k * s + t % s;
    MultipleOf(k + 1, s);
    (k + 1) * s
  }

  /** The date a day-and-longer download resumes from, after the stored date d. */
  function NextStartDate(d: Date, iv: string): Option<Date>
  {
    if iv == "1M" then NextMonth(d) else AddDays(d, DayStep(iv))
  }

  /**
   * Start of the next download after the stored candle `last`: midnight of
   * the date 1, 3 or 7 days later, or of the same day next month, for
   * day-and-longer candles; the next grid instant after `last` otherwise.
   * None where Python raises (unparsable text, a date past 9999, a day that
   * does not exist in the next month).
   */
  function ResumeStart(last: TradeDate, iv: string): (r: Option<int>)
    ensures !IsDayPlus(iv) ==> (r.Some? <==> last.TimeKey?)
    ensures r.Some? && !IsDayPlus(iv) ==>
              r.value % IntervalSeconds(iv) == 0
              && last.seconds < r.value <= last.seconds + IntervalSeconds(iv)
    ensures IsDayPlus(iv) ==> (r.Some? <==> last.DateKey? && NextStartDate(last.date, iv).Some?)
    ensures r.Some? && IsDayPlus(iv) ==>
              r.value == DayNumber(NextStartDate(last.date, iv).value) * DaySeconds
              && DayNumber(last.date) < DayNumber(NextStartDate(last.date, iv).value)
  {
    if IsDayPlus(iv) then
      match last
      case DateKey(d) =>
        var next := NextStartDate(d, iv);
        if next.Some? then Some(DayNumber(next.value) * DaySeconds) else None
      case _ => None
    else
      match last
      case TimeKey(t) => Some(NextGridPoint(t, IntervalSeconds(iv)))
      case _ => None
  }

  /** Daily, 3-day and weekly candles resume exactly 1, 3 or 7 days after the stored date. */
  lemma ResumeByDays(d: Date, iv: string)
    requires iv == "1d" || iv == "3d" || iv == "1w"
    requires ResumeStart(DateKey(d), iv).Some?
    ensures ResumeStart(DateKey(d), iv).value == (DayNumber(d) + DayStep(iv)) * DaySeconds
  {
  }

  /** Monthly candles resume on the same day of the next month, within 31 days. */
  lemma ResumeByMonth(d: Date)
    requires ResumeStart(DateKey(d), "1M").Some?
    ensures NextMonth(d).Some? && NextMonth(d).value.day == d.day
    ensures DayNumber(d) * DaySeconds < ResumeStart(DateKey(d), "1M").value <= (DayNumber(d) + 31) * DaySeconds
  {
    NextMonthDistance(d);
  }

  /**
   * For sub-day candles against a grid-aligned end, and for daily candles
   * against any end, "already up to date" holds exactly when the resumed
   * window would start after its end.
   */
  lemma UpToDateIffEmptyWindow(last: TradeDate, end: int, iv: string)
    requires ResumeStart(last, iv).Some?
    requires (!IsDayPlus(iv) && end % IntervalSeconds(iv) == 0) || iv == "1d"
    ensures CompareTradeDates(last, end, iv) <==> ResumeStart(last, iv).value > end
  {
    if iv == "1d" {
      FloorCompare(DayNumber(last.date), end, DaySeconds);
    } else {
      var r := ResumeStart(last, iv).value;
      if last.seconds < end {
        GridBetween(last.seconds, r, end, IntervalSeconds(iv));
      }
    }
  }

  /** A day n is at or past the day of time x exactly when the day after n starts after x. */
  lemma FloorCompare(n: int, x: int, s: int)
    requires s > 0
    ensures n >= x / s <==> (n + 1) * s > x
  {
    var q := x / s;
    assert x == q * s + x % s;
    if n >= q {
      assert (n + 1) * s >= (q + 1) * s;
    } else {
      assert (n + 1) * s <= q * s;
    }
  }

  /** Two grid points less than one step apart, the later past t, cannot straddle a grid point after t. */
  lemma GridBetween(t: int, r: int, end: int, s: int)
    requires s > 0 && r % s == 0 && end % s == 0 && r - s <= t < end
    ensures r <= end
  {
    var a, b := r / s, end / s;
    assert r == a * s && end == b * s;
    assert (a - 1 - b) * s < 0;
    MulAtLeast(a - 1 - b, s);
  }
}
