/**
 * The fetch-and-persist pipeline of the candle downloader: which requests
 * are sent, how the returned candles become rows, which rows are dropped
 * (unfinished candles, duplicates, keys already stored), and the writes;
 * then the per-symbol update with its resume rule and status, and the run
 * over every listed symbol.
 */
module KlinePipeline {
  import opened Common
  import opened Calendar
  import opened Retry
  import opened TimeWindow
  import opened BinanceClient
  import opened SymbolCache
  import opened KlineStore

  // ---------------------------------------------------------------------
  // Candles that are still trading
  // ---------------------------------------------------------------------

  /**
   * The filter of download_kline_data as written: a day-and-longer row is
   * dropped only when it is dated today (UTC), a sub-day row when it opens
   * after the latest complete candle; text in neither format is kept.
   */
  predicate KeptAsWritten(k: TradeDate, iv: string, now: int)
  {
    if IsDayPlus(iv) then !(k.DateKey? && DayNumber(k.date) == now / DaySeconds)
    else !(k.TimeKey? && k.seconds > LatestCompleteKlineTime(iv, now))
  }

  /**
   * The filter as its comment states it, "drop the candles still trading":
   * a day-and-longer row is kept once the next candle has opened.
   */
  predicate Completed(k: TradeDate, iv: string, now: int)
  {
    if IsDayPlus(iv) && k.DateKey? then
      var next := ResumeStart(k, iv);
      next.Some? && next.value <= now
    else KeptAsWritten(k, iv, now)
  }

  /** A completed candle is one the written filter keeps, and its whole period lies before `now`. */
  lemma CompletedFacts(k: TradeDate, iv: string, now: int)
    requires Completed(k, iv, now)
    ensures KeptAsWritten(k, iv, now)
    ensures IsDayPlus(iv) && k.DateKey? ==> (DayNumber(k.date) + 1) * DaySeconds <= now
    ensures !IsDayPlus(iv) && k.TimeKey? ==> k.seconds + IntervalSeconds(iv) <= now
  {
    if IsDayPlus(iv) && k.DateKey? {
      var n := DayNumber(k.date);
      var q := now / DaySeconds;
      assert now == q * DaySeconds + now % DaySeconds;
      assert (n + 1) * DaySeconds <= DayNumber(NextStartDate(k.date, iv).value) * DaySeconds;
    }
  }

  /** For daily candles up to today the two filters agree. */
  lemma DailyFiltersAgree(d: Date, now: int)
    requires DayNumber(d) <= now / DaySeconds && DayNumber(d) < MaxDay
    ensures Completed(DateKey(d), "1d", now) <==> KeptAsWritten(DateKey(d), "1d", now)
  {
    ResumeByDays(d, "1d");
    var q := now / DaySeconds;
    assert now == q * DaySeconds + now % DaySeconds;
  }

  /**
   * A weekly candle opened on Monday 1970-01-05 is still trading on the
   * Wednesday, yet the written filter keeps it, since it is not dated today.
   */
  lemma WeeklyCandleKeptWhileOpen()
    ensures KeptAsWritten(DateKey(Civil(1970, 1, 5)), "1w", 6 * DaySeconds)
    ensures !Completed(DateKey(Civil(1970, 1, 5)), "1w", 6 * DaySeconds)
  {
    var d: Date := Civil(1970, 1, 5);
    assert DayNumber(d) == 4;
    DayNumberRange(d);
    ResumeByDays(d, "1w");
  }

  // ---------------------------------------------------------------------
  // Sequences of rows
  // ---------------------------------------------------------------------

  lemma KeysCons(cs: seq<Candle>)
    requires cs != []
    ensures KeysOf(cs) == {cs[0].tradeDate} + KeysOf(cs[1..])
  {
    assert cs == [cs[0]] + cs[1..];
  }

  lemma DistinctCons(c: Candle, cs: seq<Candle>)
    ensures DistinctKeys([c] + cs) <==> DistinctKeys(cs) && c.tradeDate !in KeysOf(cs)
    ensures KeysOf([c] + cs) == {c.tradeDate} + KeysOf(cs)
  {
    var t := [c] + cs;
    assert t[1..] == cs;
    KeysCons(t);
    if DistinctKeys(t) {
      forall i, j | 0 <= i < j < |cs|
        ensures cs[i].tradeDate != cs[j].tradeDate
      {
        assert t[i + 1] == cs[i] && t[j + 1] == cs[j];
      }
    }
    if DistinctKeys(cs) && c.tradeDate !in KeysOf(cs) {
      forall i, j | 0 <= i < j < |t|
        ensures t[i].tradeDate != t[j].tradeDate
      {
        assert t[j] == cs[j - 1];
        if i > 0 {
          assert t[i] == cs[i - 1];
        } else {
          assert t[j] in cs;
        }
      }
    }
  }

  /**
   * drop_duplicates(subset=['trade_date'], keep='first') on rows whose keys
   * in `seen` are dropped as well; with `seen` empty, the plain de-duplication.
   */
  function DedupFrom(cs: seq<Candle>, seen: set<TradeDate>): seq<Candle>
    decreases |cs|
  {
    if cs == [] then []
    else if cs[0].tradeDate in seen then DedupFrom(cs[1..], seen)
    else [cs[0]] + DedupFrom(cs[1..], seen + {cs[0].tradeDate})
  }

  /** De-duplication leaves distinct keys, exactly the keys not seen, each on a row of the input. */
  lemma {:induction false} DedupFacts(cs: seq<Candle>, seen: set<TradeDate>)
    ensures DistinctKeys(DedupFrom(cs, seen))
    ensures KeysOf(DedupFrom(cs, seen)) == KeysOf(cs) - seen
    ensures forall c :: c in DedupFrom(cs, seen) ==> c in cs
    decreases |cs|
  {
    if cs != [] {
      KeysCons(cs);
      if cs[0].tradeDate in seen {
        DedupFacts(cs[1..], seen);
      } else {
        var rest := DedupFrom(cs[1..], seen + {cs[0].tradeDate});
        DedupFacts(cs[1..], seen + {cs[0].tradeDate});
        DistinctCons(cs[0], rest);
      }
    }
  }

  /** The first row carrying key k. */
  function FirstWithKey(cs: seq<Candle>, k: TradeDate): Candle
    requires k in KeysOf(cs)
    decreases |cs|
  {
    KeysCons(cs);
    if cs[0].tradeDate == k then cs[0] else FirstWithKey(cs[1..], k)
  }

  /** De-duplication keeps, for every key, the first row that carries it. */
  lemma {:induction false} DedupKeepsFirst(cs: seq<Candle>, seen: set<TradeDate>)
    ensures forall c :: c in DedupFrom(cs, seen) ==> c.tradeDate in KeysOf(cs) && FirstWithKey(cs, c.tradeDate) == c
    decreases |cs|
  {
    if cs != [] {
      KeysCons(cs);
      var c0 := cs[0];
      if c0.tradeDate in seen {
        DedupKeepsFirst(cs[1..], seen);
        DedupFacts(cs[1..], seen);
        forall c | c in DedupFrom(cs, seen)
          ensures c.tradeDate in KeysOf(cs) && FirstWithKey(cs, c.tradeDate) == c
        {
          assert c.tradeDate in KeysOf(DedupFrom(cs[1..], seen));
        }
      } else {
        DedupKeepsFirst(cs[1..], seen + {c0.tradeDate});
        DedupFacts(cs[1..], seen + {c0.tradeDate});
        var rest := DedupFrom(cs[1..], seen + {c0.tradeDate});
        forall c | c in DedupFrom(cs, seen)
          ensures c.tradeDate in KeysOf(cs) && FirstWithKey(cs, c.tradeDate) == c
        {
          if c != c0 {
            assert c in rest;
            assert c.tradeDate in KeysOf(rest);
          }
        }
      }
    }
  }

  /** Rows whose keys are already distinct come through de-duplication unchanged. */
  lemma {:induction false} DedupDistinct(cs: seq<Candle>, seen: set<TradeDate>)
    requires DistinctKeys(cs) && KeysOf(cs) !! seen
    ensures DedupFrom(cs, seen) == cs
    decreases |cs|
  {
    if cs != [] {
      DistinctCons(cs[0], cs[1..]);
      assert [cs[0]] + cs[1..] == cs;
      DedupDistinct(cs[1..], seen + {cs[0].tradeDate});
    }
  }

  /** The rows whose key passes `keep`, in their order (a boolean-mask selection). */
  function Filter(cs: seq<Candle>, keep: TradeDate -> bool): seq<Candle>
    decreases |cs|
  {
    if cs == [] then []
    else if keep(cs[0].tradeDate) then [cs[0]] + Filter(cs[1..], keep)
    else Filter(cs[1..], keep)
  }

  /** Selection keeps exactly the rows and keys that pass, and distinct keys stay distinct. */
  lemma {:induction false} FilterFacts(cs: seq<Candle>, keep: TradeDate -> bool)
    ensures forall c :: c in Filter(cs, keep) <==> c in cs && keep(c.tradeDate)
    ensures forall k :: k in KeysOf(Filter(cs, keep)) <==> k in KeysOf(cs) && keep(k)
    ensures DistinctKeys(cs) ==> DistinctKeys(Filter(cs, keep))
    decreases |cs|
  {
    if cs != [] {
      var rest := Filter(cs[1..], keep);
      FilterFacts(cs[1..], keep);
      KeysCons(cs);
      DistinctCons(cs[0], cs[1..]);
      assert [cs[0]] + cs[1..] == cs;
      if keep(cs[0].tradeDate) {
        DistinctCons(cs[0], rest);
      }
    }
  }

  /** Selecting with a mask no row passes leaves nothing. */
  lemma {:induction false} FilterNone(cs: seq<Candle>, keep: TradeDate -> bool)
    requires forall c :: c in cs ==> !keep(c.tradeDate)
    ensures Filter(cs, keep) == []
    decreases |cs|
  {
    if cs != [] {
      FilterNone(cs[1..], keep);
    }
  }

  /** Selecting with a mask every row passes changes nothing. */
  lemma {:induction false} FilterAll(cs: seq<Candle>, keep: TradeDate -> bool)
    requires forall c :: c in cs ==> keep(c.tradeDate)
    ensures Filter(cs, keep) == cs
    decreases |cs|
  {
    if cs != [] {
      FilterAll(cs[1..], keep);
      assert [cs[0]] + cs[1..] == cs;
    }
  }

  // ---------------------------------------------------------------------
  // From exchange candles to staged rows
  // ---------------------------------------------------------------------

  /**
   * The largest open time, in seconds either side of the epoch, that
   * `pd.to_datetime(..., unit="ms")` converts: the millisecond count times
   * 10^6 must fit the signed 64-bit nanoseconds of a pandas Timestamp
   * (1677-09-21 to 2262-04-11).
   */
  const TimestampLimit: int := 9223372036

  /** An open time kline2df can convert to a pandas Timestamp. */
  predicate InTimestampRange(t: int)
  {
    -TimestampLimit <= t <= TimestampLimit
  }

  /** Every open time converts, so kline2df does not raise. */
  predicate Representable(rows: seq<KlineRow>)
  {
    forall i :: 0 <= i < |rows| ==> InTimestampRange(rows[i].openTime)
  }

  /** The frame with its `trade_date` column formatted for the interval. */
  function ToCandles(rows: seq<KlineRow>, iv: string): seq<Candle>
    requires Representable(rows)
  {
    seq(|rows|, i requires 0 <= i < |rows| => Candle(TradeDateOf(rows[i].openTime, iv), rows[i]))
  }

  /**
   * The rows download_kline_data hands to the insert step: the frame (first
   * de-duplicated when it was gathered from several segments), without the
   * candles still trading, de-duplicated, and without the keys stored before
   * the fetch.
   */
  function Staged(rows: seq<KlineRow>, iv: string, now: int, existing: set<TradeDate>, split: bool): seq<Candle>
    requires Representable(rows)
  {
    var cs := ToCandles(rows, iv);
    var merged := if split then DedupFrom(cs, {}) else cs;
    Filter(DedupFrom(Filter(merged, DoneMask(iv, now)), {}), NewMask(existing))
  }

  /** The mask of the incomplete-candle filter as written: today's date, or a sub-day candle not yet closed, is dropped. */
  function DoneMask(iv: string, now: int): TradeDate -> bool
  {
    k => KeptAsWritten(k, iv, now)
  }

  /** The mask of keys not yet stored. */
  function NewMask(existing: set<TradeDate>): TradeDate -> bool
  {
    k => k !in existing
  }

  /**
   * The staged rows have distinct keys, all new and all passing the
   * incomplete-candle filter, each one a fetched candle; and every fetched
   * candle the filter keeps is either staged or already stored.
   */
  lemma StagedFacts(rows: seq<KlineRow>, iv: string, now: int, existing: set<TradeDate>, split: bool)
    requires Representable(rows)
    ensures DistinctKeys(Staged(rows, iv, now, existing, split))
    ensures forall c :: c in Staged(rows, iv, now, existing, split) ==>
              c in ToCandles(rows, iv) && c.tradeDate !in existing && KeptAsWritten(c.tradeDate, iv, now)
    ensures forall c :: c in ToCandles(rows, iv) && KeptAsWritten(c.tradeDate, iv, now) ==>
              c.tradeDate in KeysOf(Staged(rows, iv, now, existing, split)) + existing
  {
    var cs := ToCandles(rows, iv);
    DedupFacts(cs, {});
    var merged := if split then DedupFrom(cs, {}) else cs;
    assert KeysOf(merged) == KeysOf(cs);
    var kept := Filter(merged, DoneMask(iv, now));
    FilterFacts(merged, DoneMask(iv, now));
    var unique := DedupFrom(kept, {});
    DedupFacts(kept, {});
    FilterFacts(unique, NewMask(existing));
    forall c | c in cs && KeptAsWritten(c.tradeDate, iv, now)
      ensures c.tradeDate in KeysOf(Staged(rows, iv, now, existing, split)) + existing
    {
      assert c.tradeDate in KeysOf(merged);
      var m :| m in merged && m.tradeDate == c.tradeDate;
      assert m in kept;
      assert c.tradeDate in KeysOf(unique);
    }
  }

  // ---------------------------------------------------------------------
  // Requests
  // ---------------------------------------------------------------------

  /** One candle request: symbol, interval, optional window ends (seconds) and the row limit. */
  datatype Request = Request(symbol: string, iv: string, start: Option<int>, end: Option<int>, limit: int)

  /** The frame one request yields through the retried kline_candlestick_data and kline2df. */
  function Response(exchange: Request -> Attempt<seq<RawKline>>, req: Request): seq<KlineRow>
  {
    match KlineCandlestickData(exchange(req))
    case Some(raws) => Kline2Df(raws)
    case None => []
  }

  function SegmentRequests(symbol: string, iv: string, segs: seq<Segment>, limit: int): (reqs: seq<Request>)
    ensures |reqs| == |segs|
  {
    seq(|segs|, i requires 0 <= i < |segs| => Request(symbol, iv, Some(segs[i].start), Some(segs[i].end), limit))
  }

  /**
   * The frame one segment contributes: kline2df raising on an open time
   * outside the pandas Timestamp range is caught by the segment's own
   * handler, which drops the segment.
   */
  function SegmentFrame(exchange: Request -> Attempt<seq<RawKline>>, req: Request): seq<KlineRow>
  {
    var f := Response(exchange, req);
    if Representable(f) then f else []
  }

  /** The frames of several segments, concatenated in request order. */
  function Gathered(exchange: Request -> Attempt<seq<RawKline>>, reqs: seq<Request>): seq<KlineRow>
    decreases |reqs|
  {
    if reqs == [] then []
    else Gathered(exchange, reqs[..|reqs| - 1]) + SegmentFrame(exchange, reqs[|reqs| - 1])
  }

  /** Two formattable frames concatenated make a formattable frame. */
  lemma RepresentableJoin(a: seq<KlineRow>, b: seq<KlineRow>)
    requires Representable(a) && Representable(b)
    ensures Representable(a + b)
  {
    forall i | 0 <= i < |a + b|
      ensures InTimestampRange((a + b)[i].openTime)
    {
      if i < |a| {
        assert (a + b)[i] == a[i];
      } else {
        assert (a + b)[i] == b[i - |a|];
      }
    }
  }

  /** Every open time of a gathered frame can be formatted. */
  lemma {:induction false} GatheredRepresentable(exchange: Request -> Attempt<seq<RawKline>>, reqs: seq<Request>)
    ensures Representable(Gathered(exchange, reqs))
    decreases |reqs|
  {
    if reqs != [] {
      var init := reqs[..|reqs| - 1];
      GatheredRepresentable(exchange, init);
      RepresentableJoin(Gathered(exchange, init), SegmentFrame(exchange, reqs[|reqs| - 1]));
    }
  }

  /**
   * A segment whose answer holds a candle opening in 2264, past the pandas
   * Timestamp range, contributes nothing; the same answer to the single
   * request ends the download without a frame.
   */
  lemma Year2264CandleDropped(exchange: Request -> Attempt<seq<RawKline>>, req: Request, sdkIntervals: set<string>)
    requires exchange(req) == Ok([RawKline(9300000000, 1.0, 1.0, 1.0, 1.0, 1.0)])
    requires req.iv in sdkIntervals && req.start.Some? && req.end.Some?
    ensures SegmentFrame(exchange, req) == []
    ensures Checked(exchange, sdkIntervals, req.symbol, req.iv, req.start, req.end.value, req.limit, false).None?
  {
    var f := Response(exchange, req);
    assert f[0].openTime == 9300000000;
  }

  /** The segment loop of download_kline_data: one request per window, failed ones contributing nothing. */
  method FetchSegments(exchange: Request -> Attempt<seq<RawKline>>, reqs: seq<Request>) returns (rows: seq<KlineRow>)
    ensures rows == Gathered(exchange, reqs)
  {
    rows := [];
    var i := 0;
    while i < |reqs|
      invariant 0 <= i <= |reqs|
      invariant rows == Gathered(exchange, reqs[..i])
    {
      var frame := FetchOne(exchange, reqs[i]);
      if !Representable(frame) {
        frame := [];
      }
      assert reqs[..i + 1][..i] == reqs[..i];
      rows := rows + frame;
      i := i + 1;
    }
    assert reqs[..i] == reqs;
  }

  /** One request through the decorated candle call and kline2df. */
  method FetchOne(exchange: Request -> Attempt<seq<RawKline>>, req: Request) returns (frame: seq<KlineRow>)
    ensures frame == Response(exchange, req)
  {
    var r, waits := FetchKlines((k: nat) => exchange(req));
    frame := if r.value.Some? then Kline2Df(r.value.value) else [];
  }

  /** `limit`, or API_DATA_LIMIT when none is given. */
  function MaxLimit(limit: Option<int>): int
  {
    if limit.Some? then limit.value else ApiDataLimit
  }

  /** `end_time`, or the default end when none is given. */
  function EndOf(end: Option<int>, iv: string, now: int): int
  {
    if end.Some? then end.value else DefaultEndTime(iv, now)
  }

  /** The window is fetched in segments: a start is given, splitting is on, and it holds more candles than the limit. */
  predicate Splits(iv: string, start: Option<int>, end: int, maxLimit: int, autoSplit: bool)
  {
    start.Some? && autoSplit && DataCount(start.value, end, iv) > maxLimit
  }

  /**
   * The fetch returns: it does not split, or the limit is positive, or the
   * window is empty.  A split of a non-empty window with a limit of 0 or
   * less never leaves split_time_range's loop.
   */
  predicate FetchReturns(iv: string, start: Option<int>, end: int, maxLimit: int, autoSplit: bool)
  {
    !Splits(iv, start, end, maxLimit, autoSplit) || maxLimit >= 1 || end <= start.value
  }

  /** The frame download_kline_data obtains for the window [start, end]. */
  function Fetched(exchange: Request -> Attempt<seq<RawKline>>, symbol: string, iv: string,
                   start: Option<int>, end: int, maxLimit: int, autoSplit: bool): seq<KlineRow>
    requires FetchReturns(iv, start, end, maxLimit, autoSplit)
  {
    if Splits(iv, start, end, maxLimit, autoSplit) then
      var s := IntervalSeconds(iv);
      Gathered(exchange, SegmentRequests(symbol, iv, SegmentsFrom(start.value, end, (maxLimit - 1) * s, s), maxLimit))
    else Response(exchange, Request(symbol, iv, start, Some(end), maxLimit))
  }

  method FetchRows(exchange: Request -> Attempt<seq<RawKline>>, symbol: string, iv: string,
                   start: Option<int>, end: int, maxLimit: int, autoSplit: bool) returns (rows: seq<KlineRow>)
    requires FetchReturns(iv, start, end, maxLimit, autoSplit)
    ensures rows == Fetched(exchange, symbol, iv, start, end, maxLimit, autoSplit)
  {
    if start.Some? && autoSplit && DataCount(start.value, end, iv) > maxLimit {
      var segs := SplitTimeRange(start.value, end, iv, maxLimit);
      rows := FetchSegments(exchange, SegmentRequests(symbol, iv, segs, maxLimit));
    } else {
      rows := FetchOne(exchange, Request(symbol, iv, start, Some(end), maxLimit));
    }
  }

  // ---------------------------------------------------------------------
  // The download
  // ---------------------------------------------------------------------

  /** The keys fetched rows are checked against: those stored, unless existing rows are to be updated. */
  function KnownKeys(rows0: seq<Candle>, updateExisting: bool): set<TradeDate>
  {
    if updateExisting then {} else KeysOf(rows0)
  }

  /** The write step of download_kline_data: the staged rows written in batches behind the stored ones. */
  function Stored(rows0: seq<Candle>, fetched: seq<KlineRow>, iv: string, now: int, updateExisting: bool,
                  split: bool, rejects: set<TradeDate>): WriteResult
    requires Representable(fetched)
  {
    WriteAll(rows0, Staged(fetched, iv, now, KnownKeys(rows0, updateExisting), split), rejects)
  }

  /**
   * The write step keeps every stored row in place, appends only fetched
   * candles the incomplete-candle filter keeps and never a second row for a
   * key, fails exactly when a staged row is refused, and otherwise leaves
   * every such candle stored.
   */
  lemma StoredFacts(rows0: seq<Candle>, fetched: seq<KlineRow>, iv: string, now: int, updateExisting: bool,
                    split: bool, rejects: set<TradeDate>)
    requires Representable(fetched) && DistinctKeys(rows0)
    ensures rows0 <= Stored(rows0, fetched, iv, now, updateExisting, split, rejects).rows
    ensures DistinctKeys(Stored(rows0, fetched, iv, now, updateExisting, split, rejects).rows)
    ensures var w := Stored(rows0, fetched, iv, now, updateExisting, split, rejects);
            forall i :: |rows0| <= i < |w.rows| ==>
              w.rows[i] in ToCandles(fetched, iv) && KeptAsWritten(w.rows[i].tradeDate, iv, now)
    ensures Stored(rows0, fetched, iv, now, updateExisting, split, rejects).raised <==>
              exists c :: c in Staged(fetched, iv, now, KnownKeys(rows0, updateExisting), split) && c.tradeDate in rejects
    ensures var w := Stored(rows0, fetched, iv, now, updateExisting, split, rejects);
            !w.raised ==> forall c :: c in ToCandles(fetched, iv) && KeptAsWritten(c.tradeDate, iv, now) ==>
              c.tradeDate in KeysOf(w.rows)
  {
    var known := KnownKeys(rows0, updateExisting);
    var staged := Staged(fetched, iv, now, known, split);
    StagedFacts(fetched, iv, now, known, split);
    WriteAllWrites(rows0, staged, rejects);
    var w := WriteAll(rows0, staged, rejects);
    forall c | !w.raised && c in ToCandles(fetched, iv) && KeptAsWritten(c.tradeDate, iv, now)
      ensures c.tradeDate in KeysOf(w.rows)
    {
      if c.tradeDate in KeysOf(rows0) {
        var x :| x in rows0 && x.tradeDate == c.tradeDate;
        var j :| 0 <= j < |rows0| && rows0[j] == x;
        assert w.rows[j] == x;
      }
    }
  }

  /**
   * Writing the same frame a second time, at the same `now`, onto the table
   * the first write left adds nothing: every row it would stage is already
   * stored.
   */
  lemma StoreIdempotent(rows0: seq<Candle>, fetched: seq<KlineRow>, iv: string, now: int, split: bool,
                        rejects: set<TradeDate>)
    requires Representable(fetched) && DistinctKeys(rows0)
    requires !Stored(rows0, fetched, iv, now, false, split, rejects).raised
    ensures var w := Stored(rows0, fetched, iv, now, false, split, rejects);
            Stored(w.rows, fetched, iv, now, false, split, rejects) == WriteResult(w.rows, 0, 0, false)
  {
    var w := Stored(rows0, fetched, iv, now, false, split, rejects);
    StoredFacts(rows0, fetched, iv, now, false, split, rejects);
    var cs := ToCandles(fetched, iv);
    DedupFacts(cs, {});
    var merged := if split then DedupFrom(cs, {}) else cs;
    var kept := Filter(merged, DoneMask(iv, now));
    FilterFacts(merged, DoneMask(iv, now));
    var unique := DedupFrom(kept, {});
    DedupFacts(kept, {});
    FilterNone(unique, NewMask(KeysOf(w.rows)));
  }

  /**
   * A second download_kline_data fetch and write with the same exchange
   * answers and the same `now`, after a first one that succeeded, succeeds
   * and leaves the table as the first one left it.
   */
  lemma DownloadIdempotent(rows0: seq<Candle>, exchange: Request -> Attempt<seq<RawKline>>, sdkIntervals: set<string>,
                           symbol: string, iv: string, start: Option<int>, end: Option<int>, limit: Option<int>,
                           autoSplit: bool, now: int, rejects: set<TradeDate>)
    requires DistinctKeys(rows0) && FetchReturns(iv, start, EndOf(end, iv, now), MaxLimit(limit), autoSplit)
    requires FetchAndStore(rows0, exchange, sdkIntervals, symbol, iv, start, end, limit, false, autoSplit, now, rejects).ok
    ensures var o := FetchAndStore(rows0, exchange, sdkIntervals, symbol, iv, start, end, limit, false, autoSplit, now, rejects);
            FetchAndStore(o.rows, exchange, sdkIntervals, symbol, iv, start, end, limit, false, autoSplit, now, rejects) == o
  {
    var e, maxLimit := EndOf(end, iv, now), MaxLimit(limit);
    var checked := Checked(exchange, sdkIntervals, symbol, iv, start, e, maxLimit, autoSplit);
    StoreIdempotent(rows0, checked.value, iv, now, Splits(iv, start, e, maxLimit, autoSplit), rejects);
  }

  /**
   * The written filter lets through only closed candles for the sub-day
   * intervals, and for `1d` candles up to today.
   */
  lemma KeptClosedUpToDaily(k: TradeDate, iv: string, now: int)
    requires KeptAsWritten(k, iv, now)
    ensures !IsDayPlus(iv) && k.TimeKey? ==> k.seconds + IntervalSeconds(iv) <= now
    ensures iv == "1d" && k.DateKey? && DayNumber(k.date) <= now / DaySeconds ==>
              (DayNumber(k.date) + 1) * DaySeconds <= now
  {
    var q := now / DaySeconds;
    assert now == q * DaySeconds + now % DaySeconds;
  }

  /**
   * The write step of download_kline_data once the frame is known: no
   * usable frame fails without writing; otherwise the staged rows are
   * written and the call fails exactly when a write is refused.
   */
  function AfterFetch(rows0: seq<Candle>, checked: Option<seq<KlineRow>>, iv: string, now: int,
                      updateExisting: bool, split: bool, rejects: set<TradeDate>): Outcome
    requires checked.Some? ==> Representable(checked.value)
  {
    match checked
    case None => Outcome(rows0, false)
    case Some(f) =>
      var w := Stored(rows0, f, iv, now, updateExisting, split, rejects);
      Outcome(w.rows, !w.raised)
  }

  /** The steps of download_kline_data after the fetch, on a table that exists. */
  method StoreChecked(db: Database, name: string, checked: Option<seq<KlineRow>>, iv: string,
                      now: int, updateExisting: bool, split: bool, rejects: set<TradeDate>)
    returns (ok: bool)
    requires db.Valid() && name in db.tables && (checked.Some? ==> Representable(checked.value))
    modifies db
    ensures db.Valid()
    ensures var o := AfterFetch(old(db.Rows(name)), checked, iv, now, updateExisting, split, rejects);
            db.tables == old(db.tables)[name := o.rows] && ok == o.ok
  {
    if checked.None? {
      assert db.tables == db.tables[name := db.Rows(name)];
      return false;
    }
    var fetched := checked.value;
    var existing := if updateExisting then {} else db.ExistingDates(name);
    var staged := Staged(fetched, iv, now, existing, split);
    if staged == [] {
      assert db.tables == db.tables[name := db.Rows(name)];
      return true;
    }
    if !updateExisting {
      // the keys are read again just before the write
      var current := db.ExistingDates(name);
      StagedFacts(fetched, iv, now, existing, split);
      FilterAll(staged, NewMask(current));
      staged := Filter(staged, NewMask(current));
    }
    var saved, raised := db.SaveRows(name, staged, rejects);
    ok := !raised;
  }

  /** download_kline_data skips the fetch: stored rows are not to be updated and already reach the end of the window. */
  predicate Shortcut(last: Option<TradeDate>, updateExisting: bool, end: Option<int>, iv: string, now: int)
  {
    !updateExisting && UpToDate(last, EndOf(end, iv, now), iv)
  }

  /** A key the source treats as present: anything but the empty string. */
  predicate Truthy(k: TradeDate)
  {
    k != OtherText("")
  }

  /** The newest stored row already reaches the end of the window. */
  predicate UpToDate(last: Option<TradeDate>, end: int, iv: string)
  {
    last.Some? && Truthy(last.value) && CompareTradeDates(last.value, end, iv)
  }

  /** The rows a table ends with and the verdict, once validation passed and the shortcut did not apply. */
  datatype Outcome = Outcome(rows: seq<Candle>, ok: bool)

  /**
   * The frame download_kline_data goes on with: none for an interval the
   * client library's enum does not name (the lookup raises), for an empty
   * frame, or for an open time outside the pandas Timestamp range (kline2df
   * raises and the outer handler returns False).
   */
  function Checked(exchange: Request -> Attempt<seq<RawKline>>, sdkIntervals: set<string>, symbol: string, iv: string,
                   start: Option<int>, end: int, maxLimit: int, autoSplit: bool): (r: Option<seq<KlineRow>>)
    requires FetchReturns(iv, start, end, maxLimit, autoSplit)
    ensures r.Some? ==> r.value != [] && Representable(r.value)
  {
    var f := Fetched(exchange, symbol, iv, start, end, maxLimit, autoSplit);
    if iv !in sdkIntervals || f == [] || !Representable(f) then None else Some(f)
  }

  /** The fetch and write of download_kline_data, once validation passed and the shortcut did not apply. */
  function FetchAndStore(rows0: seq<Candle>, exchange: Request -> Attempt<seq<RawKline>>, sdkIntervals: set<string>, symbol: string,
                         iv: string, start: Option<int>, end: Option<int>, limit: Option<int>,
                         updateExisting: bool, autoSplit: bool, now: int, rejects: set<TradeDate>): Outcome
    requires FetchReturns(iv, start, EndOf(end, iv, now), MaxLimit(limit), autoSplit)
  {
    var e, maxLimit := EndOf(end, iv, now), MaxLimit(limit);
    AfterFetch(rows0, Checked(exchange, sdkIntervals, symbol, iv, start, e, maxLimit, autoSplit), iv, now,
               updateExisting, Splits(iv, start, e, maxLimit, autoSplit), rejects)
  }

  /** The fetch of download_kline_data, with the checks that end it without writing. */
  method FetchChecked(exchange: Request -> Attempt<seq<RawKline>>, sdkIntervals: set<string>, symbol: string, iv: string,
                      start: Option<int>, end: int, maxLimit: int, autoSplit: bool) returns (r: Option<seq<KlineRow>>)
    requires FetchReturns(iv, start, end, maxLimit, autoSplit)
    ensures r == Checked(exchange, sdkIntervals, symbol, iv, start, end, maxLimit, autoSplit)
  {
    if iv !in sdkIntervals {
      return None;
    }
    var fetched := FetchRows(exchange, symbol, iv, start, end, maxLimit, autoSplit);
    if fetched == [] || !Representable(fetched) {
      return None;
    }
    return Some(fetched);
  }

  /** download_kline_data from the fetch on. */
  method FetchAndWrite(db: Database, name: string, exchange: Request -> Attempt<seq<RawKline>>, sdkIntervals: set<string>,
                          symbol: string,
                          iv: string, start: Option<int>, end: Option<int>, limit: Option<int>,
                          updateExisting: bool, autoSplit: bool, now: int, rejects: set<TradeDate>)
    returns (ok: bool)
    requires db.Valid() && FetchReturns(iv, start, EndOf(end, iv, now), MaxLimit(limit), autoSplit)
    modifies db
    ensures db.Valid()
    ensures var o := FetchAndStore(old(db.Rows(name)), exchange, sdkIntervals, symbol, iv, start, end, limit, updateExisting, autoSplit, now, rejects);
            db.tables == old(db.tables)[name := o.rows] && ok == o.ok
  {
    // download_kline_data creates the table before it fetches; the fetch
    // reads no table, so creating it afterwards leaves the same tables
    var e, maxLimit := EndOf(end, iv, now), MaxLimit(limit);
    var checked := FetchChecked(exchange, sdkIntervals, symbol, iv, start, e, maxLimit, autoSplit);
    var split := Splits(iv, start, e, maxLimit, autoSplit);
    ok := CreateAndStore(db, name, checked, iv, now, updateExisting, split, rejects);
  }

  /** Table creation, then the write step. */
  method CreateAndStore(db: Database, name: string, checked: Option<seq<KlineRow>>, iv: string,
                        now: int, updateExisting: bool, split: bool, rejects: set<TradeDate>)
    returns (ok: bool)
    requires db.Valid() && (checked.Some? ==> Representable(checked.value))
    modifies db
    ensures db.Valid()
    ensures var o := AfterFetch(old(db.Rows(name)), checked, iv, now, updateExisting, split, rejects);
            db.tables == old(db.tables)[name := o.rows] && ok == o.ok
  {
    ghost var tables0, rows0 := db.tables, db.Rows(name);
    db.CreateTable(name);
    ghost var o := AfterFetch(rows0, checked, iv, now, updateExisting, split, rejects);
    ok := StoreChecked(db, name, checked, iv, now, updateExisting, split, rejects);
    assert tables0[name := rows0][name := o.rows] == tables0[name := o.rows];
  }

  /**
   * download_kline_data for one symbol and interval at time `now`: validate
   * the symbol, stop early when the table already reaches the end of the
   * window, then create the table, fetch (in segments when the window holds
   * more candles than the limit), stage and write.  `refresh` is what the
   * symbol list request returns, `exchange` what each candle request
   * returns, `sdkIntervals` the interval names of the client library's
   * enum, and `rejects` the keys the database refuses for a reason other
   * than a duplicate key.
   */
  method DownloadKlineData(db: Database, cache: ValidSymbolCache, symbol: string, iv: string,
                           start: Option<int>, end: Option<int>, limit: Option<int>,
                           updateExisting: bool, autoSplit: bool, skipValidation: bool, now: int,
                           refresh: Attempt<seq<string>>, exchange: Request -> Attempt<seq<RawKline>>,
                           sdkIntervals: set<string>, rejects: set<TradeDate>)
    returns (ok: bool)
    requires db.Valid() && cache.Valid()
    requires FetchReturns(iv, start, EndOf(end, iv, now), MaxLimit(limit), autoSplit)
             || !cache.Accepts(symbol, skipValidation, now, refresh)
             || Shortcut(db.LastTradeDate(TableName(iv, symbol)), updateExisting, end, iv, now)
    modifies db, cache
    ensures db.Valid() && cache.Valid()
    ensures skipValidation || old(cache.Serves(false, now)) || refresh.Raised? ==> unchanged(cache)
    ensures !old(cache.Accepts(symbol, skipValidation, now, refresh)) ==> !ok && db.tables == old(db.tables)
    ensures old(cache.Accepts(symbol, skipValidation, now, refresh))
            && Shortcut(old(db.LastTradeDate(TableName(iv, symbol))), updateExisting, end, iv, now) ==>
              ok && db.tables == old(db.tables)
    ensures old(cache.Accepts(symbol, skipValidation, now, refresh))
            && !Shortcut(old(db.LastTradeDate(TableName(iv, symbol))), updateExisting, end, iv, now) ==>
              var o := FetchAndStore(old(db.Rows(TableName(iv, symbol))), exchange, sdkIntervals, symbol, iv, start, end, limit,
                                     updateExisting, autoSplit, now, rejects);
              db.tables == old(db.tables)[TableName(iv, symbol) := o.rows] && ok == o.ok
  {
    var accepted := cache.ValidateSymbol(symbol, skipValidation, now, refresh);
    if !accepted {
      return false;
    }
    var name := TableName(iv, symbol);
    if !updateExisting {
      var checkEnd := EndOf(end, iv, now);
      var last := db.LastTradeDate(name);
      if UpToDate(last, checkEnd, iv) {
        return true;
      }
    }
    ok := FetchAndWrite(db, name, exchange, sdkIntervals, symbol, iv, start, end, limit, updateExisting, autoSplit, now, rejects);
  }
}
