/**
 * Bringing every trading symbol up to date: the per-symbol decision of
 * _update_single_symbol (skip, resume after the newest stored candle,
 * download a year of history, or stop) and the loop of
 * auto_update_all_symbols that tallies the outcomes.
 */
module AutoUpdate {
  import opened Common
  import opened Calendar
  import opened Retry
  import opened TimeWindow
  import opened BinanceClient
  import opened SymbolCache
  import opened KlineStore
  import opened KlinePipeline

  /** What one symbol's update reports. */
  datatype Status = Updated | New | NoDataNeeded | Skipped | Failed

  /** The decision taken from the newest stored key, before anything is downloaded. */
  datatype Plan = Stop(status: Status) | Download(start: int, status: Status)

  /** A symbol without stored rows is downloaded from this many days before the end. */
  const HistoryDays: int := 365

  /**
   * The decision of _update_single_symbol once the symbol validated: with a
   * stored key, resume after it (failing when its next start cannot be
   * computed) unless it already reaches the end; without one, download the
   * last year.
   */
  function PlanUpdate(last: Option<TradeDate>, iv: string, end: int): (p: Plan)
    ensures p.status != Skipped
    ensures p.Download? <==> p.status == Updated || p.status == New
    ensures p.status == New <==> !(last.Some? && Truthy(last.value))
    ensures p.status == Failed <==> last.Some? && Truthy(last.value) && ResumeStart(last.value, iv).None?
    ensures p.status == NoDataNeeded <==>
              last.Some? && Truthy(last.value) && ResumeStart(last.value, iv).Some? && CompareTradeDates(last.value, end, iv)
    ensures p.status == New ==> p.start == end - HistoryDays * DaySeconds
    ensures p.status == Updated ==> Some(p.start) == ResumeStart(last.value, iv)
  {
    if last.Some? && Truthy(last.value) then
      match ResumeStart(last.value, iv)
      case None => Stop(Failed)
      case Some(start) =>
        if CompareTradeDates(last.value, end, iv) then Stop(NoDataNeeded) else Download(start, Updated)
    else Download(end - HistoryDays * DaySeconds, New)
  }

  /** A planned download never meets download_kline_data's own up-to-date shortcut. */
  lemma PlanDownloadNotShortcut(last: Option<TradeDate>, iv: string, end: int, now: int)
    requires PlanUpdate(last, iv, end).Download?
    ensures !Shortcut(last, false, Some(end), iv, now)
  {
  }

  /**
   * With auto-split on and a limit of 0 or less, a symbol with no stored
   * rows never finishes: its year-long window holds candles, so it is split,
   * and split_time_range's loop does not advance.
   */
  lemma NewSymbolNeverReturns(iv: string, end: int, limit: Option<int>)
    requires MaxLimit(limit) <= 0
    ensures var p := PlanUpdate(None, iv, end);
            p.status == New && !FetchReturns(iv, Some(p.start), end, MaxLimit(limit), true)
  {
    var start := end - HistoryDays * DaySeconds;
    var s := IntervalSeconds(iv);
    DataCountBounds(start, end, iv);
    assert DataCount(start, end, iv) * s > 0;
  }

  /** A resumed download starts strictly after the newest stored candle opened, and no later than the next candle. */
  lemma UpdateResumesAfterLast(last: Option<TradeDate>, iv: string, end: int)
    requires PlanUpdate(last, iv, end).status == Updated
    ensures !IsDayPlus(iv) ==>
              last.value.TimeKey? && last.value.seconds < PlanUpdate(last, iv, end).start <= last.value.seconds + IntervalSeconds(iv)
    ensures IsDayPlus(iv) ==>
              last.value.DateKey? && DayNumber(last.value.date) * DaySeconds < PlanUpdate(last, iv, end).start
  {
    var p := PlanUpdate(last, iv, end);
    if IsDayPlus(iv) {
      var d := last.value.date;
      assert DayNumber(d) < DayNumber(NextStartDate(d, iv).value);
      assert p.start == DayNumber(NextStartDate(d, iv).value) * DaySeconds;
      assert DayNumber(d) * DaySeconds < DayNumber(NextStartDate(d, iv).value) * DaySeconds;
    }
  }

  /**
   * Against a grid-aligned end (sub-day) or any end (daily), a symbol is
   * resumed exactly when its resumed window is not empty.
   */
  lemma UpdatedIffWindowNonEmpty(last: Option<TradeDate>, iv: string, end: int)
    requires last.Some? && Truthy(last.value) && ResumeStart(last.value, iv).Some?
    requires (!IsDayPlus(iv) && end % IntervalSeconds(iv) == 0) || iv == "1d"
    ensures PlanUpdate(last, iv, end).status == Updated <==> ResumeStart(last.value, iv).value <= end
  {
    UpToDateIffEmptyWindow(last.value, end, iv);
  }

  /** The tables and the symbol cache, the state one update reads and changes. */
  datatype RunState = RunState(tables: map<string, seq<Candle>>, cache: CacheState)

  /** The rows of a table, none when it does not exist. */
  function RowsIn(tables: map<string, seq<Candle>>, name: string): seq<Candle>
  {
    if name in tables then tables[name] else []
  }

  /** The key of a row with the latest open time, none for no rows (get_last_trade_date). */
  function LastKey(rows: seq<Candle>): Option<TradeDate>
  {
    if rows == [] then None else Some(rows[LatestIndex(rows)].tradeDate)
  }

  /**
   * What _update_single_symbol does at time `now`: the validation may
   * refresh the cache; a symbol it rejects is skipped; otherwise the plan
   * from the newest stored key either stops or downloads its window, and a
   * download that fails reports Failed.
   */
  function UpdateStep(st: RunState, symbol: string, iv: string, end: int, limit: Option<int>, autoSplit: bool,
                      now: int, refresh: Attempt<seq<string>>, exchange: Request -> Attempt<seq<RawKline>>,
                      sdkIntervals: set<string>, rejects: set<TradeDate>): (r: (RunState, Status))
    requires limit.None? || limit.value >= 1 || !autoSplit
    ensures r.0.cache == AfterValidate(st.cache, false, now, refresh)
    ensures r.1 == Skipped <==> !AcceptsIn(st.cache, symbol, false, now, refresh)
    ensures r.0.tables.Keys == st.tables.Keys + (if r.0.tables == st.tables then {} else {TableName(iv, symbol)})
    ensures forall name :: name in st.tables && name != TableName(iv, symbol) ==> r.0.tables[name] == st.tables[name]
  {
    var cache := AfterValidate(st.cache, false, now, refresh);
    if !AcceptsIn(st.cache, symbol, false, now, refresh) then (RunState(st.tables, cache), Skipped)
    else
      var name := TableName(iv, symbol);
      var rows := RowsIn(st.tables, name);
      var p := PlanUpdate(LastKey(rows), iv, end);
      if p.Stop? then (RunState(st.tables, cache), p.status)
      else
        var o := FetchAndStore(rows, exchange, sdkIntervals, symbol, iv, Some(p.start), Some(end), limit, false,
                               autoSplit, now, rejects);
        (RunState(st.tables[name := o.rows], cache), if o.ok then p.status else Failed)
  }

  /**
   * _update_single_symbol: validate the symbol against the exchange list,
   * plan from the newest stored key, and download the planned window with
   * validation skipped and stored rows never replaced.
   */
  method UpdateSingleSymbol(db: Database, cache: ValidSymbolCache, symbol: string, iv: string, end: int,
                            limit: Option<int>, autoSplit: bool, now: int, refresh: Attempt<seq<string>>,
                            exchange: Request -> Attempt<seq<RawKline>>, sdkIntervals: set<string>,
                            rejects: set<TradeDate>)
    returns (status: Status)
    requires db.Valid() && cache.Valid()
    requires limit.None? || limit.value >= 1 || !autoSplit
    modifies db, cache
    ensures db.Valid() && cache.Valid()
    ensures status == Skipped <==> !old(cache.Accepts(symbol, false, now, refresh))
    ensures old(cache.Accepts(symbol, false, now, refresh)) ==>
              var p := PlanUpdate(old(db.LastTradeDate(TableName(iv, symbol))), iv, end);
              (p.Stop? ==> status == p.status && db.tables == old(db.tables))
              && (p.Download? ==>
                    var o := FetchAndStore(old(db.Rows(TableName(iv, symbol))), exchange, sdkIntervals, symbol, iv,
                                           Some(p.start), Some(end), limit, false, autoSplit, now, rejects);
                    db.tables == old(db.tables)[TableName(iv, symbol) := o.rows]
                    && status == (if o.ok then p.status else Failed))
    ensures (RunState(db.tables, cache.State()), status)
            == UpdateStep(RunState(old(db.tables), old(cache.State())), symbol, iv, end, limit, autoSplit, now, refresh,
                          exchange, sdkIntervals, rejects)
  {
    var valid := cache.ValidateSymbol(symbol, false, now, refresh);
    if !valid {
      return Skipped;
    }
    var name := TableName(iv, symbol);
    var last := db.LastTradeDate(name);
    assert last == LastKey(RowsIn(db.tables, name));
    var plan := PlanUpdate(last, iv, end);
    if plan.Stop? {
      return plan.status;
    }
    PlanDownloadNotShortcut(last, iv, end, now);
    var ok := DownloadKlineData(db, cache, symbol, iv, Some(plan.start), Some(end), limit, false, autoSplit, true,
                                now, refresh, exchange, sdkIntervals, rejects);
    status := if ok then plan.status else Failed;
  }

  // ---------------------------------------------------------------------
  // Tallying a run
  // ---------------------------------------------------------------------

  /** The statistics auto_update_all_symbols returns. */
  datatype Stats = Stats(total: nat, updated: nat, newSymbols: nat, skipped: nat, failed: nat, noDataNeeded: nat)

  /** The counter of one reported status goes up by one. */
  function Count(stats: Stats, s: Status): Stats
  {
    match s
    case Updated => stats.(updated := stats.updated + 1)
    case New => stats.(newSymbols := stats.newSymbols + 1)
    case NoDataNeeded => stats.(noDataNeeded := stats.noDataNeeded + 1)
    case Skipped => stats.(skipped := stats.skipped + 1)
    case Failed => stats.(failed := stats.failed + 1)
  }

  /** The statistics after the statuses were counted in order, starting from zero counters. */
  function Tally(statuses: seq<Status>, total: nat): Stats
  {
    if statuses == [] then Stats(total, 0, 0, 0, 0, 0)
    else Count(Tally(statuses[..|statuses| - 1], total), statuses[|statuses| - 1])
  }

  /** Each counter holds the number of times its status was reported, and the total is untouched. */
  lemma {:induction false} TallyCounts(statuses: seq<Status>, total: nat)
    ensures Tally(statuses, total).total == total
    ensures Tally(statuses, total).updated == multiset(statuses)[Updated]
    ensures Tally(statuses, total).newSymbols == multiset(statuses)[New]
    ensures Tally(statuses, total).noDataNeeded == multiset(statuses)[NoDataNeeded]
    ensures Tally(statuses, total).skipped == multiset(statuses)[Skipped]
    ensures Tally(statuses, total).failed == multiset(statuses)[Failed]
  {
    if statuses != [] {
      var n := |statuses| - 1;
      TallyCounts(statuses[..n], total);
      assert statuses == statuses[..n] + [statuses[n]];
      assert multiset(statuses) == multiset(statuses[..n]) + multiset{statuses[n]};
    }
  }

  /** Counting one more status extends the tally and keeps its total. */
  lemma TallyStep(statuses: seq<Status>, s: Status, total: nat)
    ensures Tally(statuses + [s], total) == Count(Tally(statuses, total), s)
    ensures Count(Tally(statuses, total), s).total == Tally(statuses, total).total
  {
    assert (statuses + [s])[..|statuses|] == statuses;
  }

  /** The five counters add up to the number of symbols processed. */
  lemma {:induction false} TallySum(statuses: seq<Status>, total: nat)
    ensures var t := Tally(statuses, total);
            t.updated + t.newSymbols + t.noDataNeeded + t.skipped + t.failed == |statuses|
  {
    if statuses != [] {
      TallySum(statuses[..|statuses| - 1], total);
    }
  }

  /**
   * The first n updates of a run over `symbols`, the k-th made at time
   * clock(k) with refresh(k) as the answer of any symbol-list request it
   * sends: the state they leave and the statuses they report, in order.
   */
  function Run(st: RunState, symbols: seq<string>, n: nat, iv: string, end: int, limit: Option<int>, autoSplit: bool,
               clock: nat -> int, refreshes: nat -> Attempt<seq<string>>, exchange: Request -> Attempt<seq<RawKline>>,
               sdkIntervals: set<string>, rejects: set<TradeDate>): (r: (RunState, seq<Status>))
    requires n <= |symbols| && (limit.None? || limit.value >= 1 || !autoSplit)
    ensures |r.1| == n
  {
    if n == 0 then (st, [])
    else
      var prev := Run(st, symbols, n - 1, iv, end, limit, autoSplit, clock, refreshes, exchange, sdkIntervals, rejects);
      var next := UpdateStep(prev.0, symbols[n - 1], iv, end, limit, autoSplit, clock(n - 1), refreshes(n - 1),
                             exchange, sdkIntervals, rejects);
      (next.0, prev.1 + [next.1])
  }

  /**
   * While the cached list stays younger than the TTL, every update is
   * served from it: no symbol of that list is skipped and the cache is
   * left as it was.
   */
  lemma {:induction false} NoSkipWhileCacheFresh(st: RunState, symbols: seq<string>, n: nat, iv: string, end: int,
                                                 limit: Option<int>, autoSplit: bool, clock: nat -> int,
                                                 refreshes: nat -> Attempt<seq<string>>,
                                                 exchange: Request -> Attempt<seq<RawKline>>,
                                                 sdkIntervals: set<string>, rejects: set<TradeDate>)
    requires n <= |symbols| && (limit.None? || limit.value >= 1 || !autoSplit)
    requires st.cache.cached.Some? && st.cache.cachedAt.Some?
    requires ServedFresh(st.cache, symbols, n, clock)
    ensures Run(st, symbols, n, iv, end, limit, autoSplit, clock, refreshes, exchange, sdkIntervals, rejects).0.cache == st.cache
    ensures Skipped !in Run(st, symbols, n, iv, end, limit, autoSplit, clock, refreshes, exchange, sdkIntervals, rejects).1
  {
    if n > 0 {
      NoSkipWhileCacheFresh(st, symbols, n - 1, iv, end, limit, autoSplit, clock, refreshes, exchange, sdkIntervals, rejects);
      var prev := Run(st, symbols, n - 1, iv, end, limit, autoSplit, clock, refreshes, exchange, sdkIntervals, rejects);
      assert prev.0.cache == st.cache && Skipped !in prev.1;
      FreshStep(prev.0, symbols[n - 1], iv, end, limit, autoSplit, clock(n - 1), refreshes(n - 1), exchange,
                sdkIntervals, rejects);
      var next := UpdateStep(prev.0, symbols[n - 1], iv, end, limit, autoSplit, clock(n - 1), refreshes(n - 1),
                             exchange, sdkIntervals, rejects);
      var r := Run(st, symbols, n, iv, end, limit, autoSplit, clock, refreshes, exchange, sdkIntervals, rejects);
      assert r.0.cache == next.0.cache && r.1 == prev.1 + [next.1];
    }
  }

  /** Each of the first n symbols is in the cached list, and each of their updates comes before the TTL runs out. */
  predicate ServedFresh(c: CacheState, symbols: seq<string>, n: nat, clock: nat -> int)
    requires n <= |symbols| && c.cached.Some? && c.cachedAt.Some?
  {
    n == 0 || (ServedFresh(c, symbols, n - 1, clock) && symbols[n - 1] in c.cached.value
               && clock(n - 1) - c.cachedAt.value < CacheTtl)
  }

  /** An update served from a cached list younger than the TTL keeps the cache and does not skip. */
  lemma FreshStep(st: RunState, symbol: string, iv: string, end: int, limit: Option<int>, autoSplit: bool,
                  now: int, refresh: Attempt<seq<string>>, exchange: Request -> Attempt<seq<RawKline>>,
                  sdkIntervals: set<string>, rejects: set<TradeDate>)
    requires limit.None? || limit.value >= 1 || !autoSplit
    requires st.cache.cached.Some? && st.cache.cachedAt.Some? && symbol in st.cache.cached.value
    requires now - st.cache.cachedAt.value < CacheTtl
    ensures UpdateStep(st, symbol, iv, end, limit, autoSplit, now, refresh, exchange, sdkIntervals, rejects).0.cache
            == st.cache
    ensures UpdateStep(st, symbol, iv, end, limit, autoSplit, now, refresh, exchange, sdkIntervals, rejects).1
            != Skipped
  {
    FreshCacheServes(st.cache, symbol, now, refresh);
  }

  /** A cached list younger than the TTL accepts its own symbols and is kept as it is. */
  lemma FreshCacheServes(c: CacheState, symbol: string, now: int, refresh: Attempt<seq<string>>)
    requires c.cached.Some? && c.cachedAt.Some? && symbol in c.cached.value
    requires now - c.cachedAt.value < CacheTtl
    ensures AfterValidate(c, false, now, refresh) == c
    ensures AcceptsIn(c, symbol, false, now, refresh)
  {
  }

  /**
   * Once the TTL has passed, an update asks the exchange again, and a
   * symbol delisted in the meantime is skipped even though the run listed it.
   */
  lemma SkippedAfterTtl(st: RunState, symbol: string, iv: string, end: int, limit: Option<int>, autoSplit: bool,
                        now: int, listing: seq<string>, exchange: Request -> Attempt<seq<RawKline>>,
                        sdkIntervals: set<string>, rejects: set<TradeDate>)
    requires limit.None? || limit.value >= 1 || !autoSplit
    requires st.cache.cached == Some([symbol]) && st.cache.cachedAt.Some?
    requires now - st.cache.cachedAt.value >= CacheTtl
    requires listing != [] && symbol !in listing
    ensures UpdateStep(st, symbol, iv, end, limit, autoSplit, now, Ok(listing), exchange, sdkIntervals, rejects).1 == Skipped
    ensures UpdateStep(st, symbol, iv, end, limit, autoSplit, now, Ok(listing), exchange, sdkIntervals, rejects).0.cache
            == CacheState(Some(listing), Some(now))
  {
  }

  /** The tables, the cache and the statuses are those of the run `r`. */
  predicate Reached(tables: map<string, seq<Candle>>, cache: CacheState, statuses: seq<Status>, r: (RunState, seq<Status>))
  {
    tables == r.0.tables && cache == r.0.cache && statuses == r.1
  }

  /** The update of the i-th listed symbol extends the run by one step. */
  method UpdateNext(db: Database, cache: ValidSymbolCache, symbols: seq<string>, i: nat, iv: string, end: int,
                    limit: Option<int>, autoSplit: bool, clock: nat -> int, refreshes: nat -> Attempt<seq<string>>,
                    exchange: Request -> Attempt<seq<RawKline>>, sdkIntervals: set<string>, rejects: set<TradeDate>,
                    ghost st0: RunState, ghost statuses: seq<Status>)
    returns (s: Status)
    requires db.Valid() && cache.Valid()
    requires i < |symbols| && (limit.None? || limit.value >= 1 || !autoSplit)
    requires Reached(db.tables, cache.State(), statuses,
                     Run(st0, symbols, i, iv, end, limit, autoSplit, clock, refreshes, exchange, sdkIntervals, rejects))
    modifies db, cache
    ensures db.Valid() && cache.Valid()
    ensures Reached(db.tables, cache.State(), statuses + [s],
                    Run(st0, symbols, i + 1, iv, end, limit, autoSplit, clock, refreshes, exchange, sdkIntervals, rejects))
  {
    s := UpdateSingleSymbol(db, cache, symbols[i], iv, end, limit, autoSplit, clock(i), refreshes(i), exchange,
                            sdkIntervals, rejects);
  }

  /**
   * auto_update_all_symbols, run sequentially: at time `now` fetch the
   * exchange list (nothing happens when it is empty) and fix the default
   * end time, then update every listed symbol, the k-th at time clock(k)
   * with refreshes(k) as its list request's answer, and count each status.
   * `statuses` records what each symbol reported, in list order.
   */
  method AutoUpdateAllSymbols(db: Database, cache: ValidSymbolCache, iv: string, limit: Option<int>, autoSplit: bool,
                              now: int, refresh: Attempt<seq<string>>, clock: nat -> int,
                              refreshes: nat -> Attempt<seq<string>>, exchange: Request -> Attempt<seq<RawKline>>,
                              sdkIntervals: set<string>, rejects: set<TradeDate>)
    returns (stats: Stats, ghost statuses: seq<Status>)
    requires db.Valid() && cache.Valid()
    requires limit.None? || limit.value >= 1 || !autoSplit
    modifies db, cache
    ensures db.Valid() && cache.Valid()
    ensures stats.total == |old(cache.Listed(false, now, refresh))| == |statuses|
    ensures stats == Tally(statuses, stats.total)
    ensures stats.total == 0 ==> db.tables == old(db.tables)
    ensures old(cache.Listed(false, now, refresh)) != [] ==>
              Reached(db.tables, cache.State(), statuses,
                      Run(RunState(old(db.tables), AfterGet(old(cache.State()), false, now, refresh)),
                          old(cache.Listed(false, now, refresh)), |old(cache.Listed(false, now, refresh))|, iv,
                          DefaultEndTime(iv, now), limit, autoSplit, clock, refreshes, exchange, sdkIntervals, rejects))
  {
    var symbols := cache.GetValidTradingSymbols(false, now, refresh);
    stats := Stats(0, 0, 0, 0, 0, 0);
    statuses := [];
    if symbols == [] {
      return;
    }
    stats, statuses := UpdateListed(db, cache, symbols, iv, DefaultEndTime(iv, now), limit, autoSplit, clock, refreshes,
                                    exchange, sdkIntervals, rejects);
  }

  /** The loop of auto_update_all_symbols over the listed symbols, counting each status. */
  method UpdateListed(db: Database, cache: ValidSymbolCache, symbols: seq<string>, iv: string, end: int,
                      limit: Option<int>, autoSplit: bool, clock: nat -> int, refreshes: nat -> Attempt<seq<string>>,
                      exchange: Request -> Attempt<seq<RawKline>>, sdkIntervals: set<string>, rejects: set<TradeDate>)
    returns (stats: Stats, ghost statuses: seq<Status>)
    requires db.Valid() && cache.Valid()
    requires limit.None? || limit.value >= 1 || !autoSplit
    modifies db, cache
    ensures db.Valid() && cache.Valid()
    ensures stats == Tally(statuses, |symbols|) && stats.total == |symbols| == |statuses|
    ensures Reached(db.tables, cache.State(), statuses,
                    Run(RunState(old(db.tables), old(cache.State())), symbols, |symbols|, iv, end, limit, autoSplit, clock,
                        refreshes, exchange, sdkIntervals, rejects))
  {
    stats := Stats(|symbols|, 0, 0, 0, 0, 0);
    statuses := [];
    ghost var st0 := RunState(db.tables, cache.State());
    var i := 0;
    while i < |symbols|
      invariant 0 <= i <= |symbols|
      invariant db.Valid() && cache.Valid()
      invariant stats == Tally(statuses, |symbols|) && stats.total == |symbols|
      invariant Reached(db.tables, cache.State(), statuses,
                        Run(st0, symbols, i, iv, end, limit, autoSplit, clock, refreshes, exchange, sdkIntervals, rejects))
    {
      var s := UpdateNext(db, cache, symbols, i, iv, end, limit, autoSplit, clock, refreshes, exchange, sdkIntervals,
                          rejects, st0, statuses);
      TallyStep(statuses, s, |symbols|);
      statuses := statuses + [s];
      stats := Count(stats, s);
      i := i + 1;
    }
  }
}
