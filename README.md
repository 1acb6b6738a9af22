# crypto-data-manager: a verified model of the kline downloader and the migration tools

crypto-data-manager keeps Binance USDT-perpetual candles ("klines") in one
PostgreSQL table per symbol and interval (`K<interval><symbol>`). This
project models its core in Dafny and proves properties about that model.

The core has these parts:

- the download pipeline (`download_klines.py`):
  - it checks the symbol against a cached exchange listing;
  - it plans a request window, split into segments the exchange's 1500-candle limit allows;
  - it drops candles dated today (daily and longer) or not yet closed (shorter), duplicated or already stored;
  - it writes in batches of 50 and falls back to row-by-row inserts on a unique-key clash.
- the per-symbol auto-update and its statistics.
- the retry decorator and the exchange client wrappers (`binance_client.py`).
- the serial scheduler (`scheduler_klines.py`).
- the symbols table sync (`symbols.py`).
- the integrity check, deletion and repair download (`data.py`).
- the two migration tools:
  - SQLite to PostgreSQL (`migrate.py`);
  - PostgreSQL to PostgreSQL (`migrate_pg2pg.py`).

Modules, one per source component:

| module | file | models |
|---|---|---|
| `Common` | common.dfy | Option, Attempt (a value or a raised failure), substring and case helpers, sequence lemmas |
| `Calendar` | calendar.dfy | proleptic Gregorian dates as day numbers since 1970-01-01 |
| `TimeWindow` | time_window.dfy | interval lengths, candle counts, default end times, the range split, trade-date keys, resume points |
| `Retry` | retry.dfy | the exponential-backoff retry loop |
| `BinanceClient` | binance_client.dfy | the error classifier, symbol listing, candle fetch, `kline2df` |
| `SymbolCache` | symbol_cache.dfy | the cached trading-symbol list and `validate_symbol` (a class) |
| `KlineStore` | kline_store.dfy | the per-symbol tables (a class) and the batched and row-by-row writers |
| `KlinePipeline` | pipeline.dfy | `download_kline_data` |
| `AutoUpdate` | auto_update.dfy | `_update_single_symbol` and `auto_update_all_symbols` |
| `Scheduler` | scheduler.dfy | the due test, the queue and active set, the cool-down pauses (a class) |
| `Symbols` | symbols.dfy | the symbols table and its sync (a class) |
| `Integrity` | integrity.dfy | missing symbols, the per-table check, the summary, deletion, the repair download |
| `SqliteMigration` | migrate_sqlite.dfy | table comparison, type mapping, resumable batch copy, `migrate_all` |
| `PgMigration` | migrate_pg.dfy | table comparison, type mapping, keyed resumable copy with retries, `migrate_all` |

How the system's parts become model terms:

- Time is UTC seconds as an `int`.
- A stored trade date is a `TradeDate`:
  - a calendar date for `1d`, `3d`, `1w` and `1M`;
  - a second count for the intra-day intervals.
- The exchange, the wall clock, the retry oracles and the database's unique-key rejections are parameters.
- Tables the source mutates through SQL are fields of classes that the methods reassign:
  - `KlineStore.Database`, `SqliteMigration.PgDatabase`, `Symbols.SymbolTable`;
  - the scheduler's queue, `Scheduler.SerialScheduler`;
  - the symbol cache, `SymbolCache.ValidSymbolCache`.

## Model

| member | source | states |
|---|---|---|
| `TimeWindow.IntervalSeconds` | backend/download_klines.py:325-352 | every interval length is a positive whole number of minutes; an unknown interval counts as one day |
| `TimeWindow.DayStepMatchesLength` | backend/download_klines.py:347-349 | the `1d`/`3d`/`1w` lengths are exactly 1, 3 and 7 days, the steps the resume logic adds |
| `TimeWindow.DataCountBounds` | backend/download_klines.py:374-394 | the candle count n satisfies (n-1)·len ≤ end-start < n·len, i.e. it counts the grid points from start to end inclusive |
| `TimeWindow.LatestCompleteKlineTime` | backend/download_klines.py:655-671 | the result is on the interval grid and is the opening of the last candle that has fully closed before now |
| `TimeWindow.DefaultEndTime` | backend/download_klines.py:628-652 | day-or-longer intervals end one second before today's midnight (within the last day); others end at the latest complete candle |
| `TimeWindow.SegmentsFromChained` | backend/download_klines.py:416-430 | the split as written chains each segment one interval after the last, spans at most the limit, and is non-empty exactly when start < end |
| `TimeWindow.SegmentsThroughChained` | backend/download_klines.py:416-430 | the corrected split has the same chaining, is non-empty exactly when start ≤ end, and stops less than one interval short of end |
| `TimeWindow.ChainedFitsLimit` | backend/download_klines.py:397-430 | every segment of a chained split holds at most max_count candles |
| `TimeWindow.SplitTimeRange` | backend/download_klines.py:397-430 | the loop computes the split as written; segments are non-empty iff start < end and each holds at most max_count candles |
| `TimeWindow.SplitFacts` | backend/download_klines.py:397-430 | the split as written starts at start, ends within one interval of end, and respects the limit |
| `TimeWindow.SegmentsThroughCover` | backend/download_klines.py:397-430 | every grid point from start to end lies inside some segment of the corrected split |
| `TimeWindow.SplitThroughFacts` | backend/download_klines.py:397-430 | the corrected split starts at start, links consecutive segments one interval apart, respects the limit and covers end |
| `TimeWindow.SplitTimeRangeThrough` | backend/download_klines.py:397-430 | the corrected loop returns the corrected split with all of its properties |
| `TimeWindow.SplitMissesLastCandle` | backend/download_klines.py:421-428 | for 11 one-minute candles and a limit of 10, the split as written never requests the candle at end; the corrected split does |
| `TimeWindow.DateOf` | backend/download_klines.py:597-603 | the UTC date of a timestamp is the day whose span contains it |
| `TimeWindow.TradeDateOf` | backend/download_klines.py:823-828 | day-or-longer candles are keyed by their UTC date, others by their open time |
| `TimeWindow.CompareTradeDates` | backend/download_klines.py:582-625 | a stored date of the wrong format never counts as up to date (the parse error returns False) |
| `TimeWindow.CompareMonotone` | backend/download_klines.py:594-625 | a key no earlier than an up-to-date key and of the same format (a date for day-or-longer intervals, an open time otherwise) is up to date too, against the same or any earlier end |
| `TimeWindow.AddDays` | backend/download_klines.py:1243-1248 | adding n days moves the day number by n, or fails past year 9999 |
| `TimeWindow.NextGridPoint` | backend/download_klines.py:1260-1263 | the resume point is the next grid point strictly after the last candle, at most one interval later |
| `TimeWindow.ResumeStart` | backend/download_klines.py:1238-1263 | the resume time is defined exactly when the stored date has the interval's format and the next date exists, and lies strictly after the last stored candle |
| `TimeWindow.ResumeByDays` | backend/download_klines.py:1243-1248 | for 1d, 3d and 1w the resume time is the midnight 1, 3 or 7 days after the stored date |
| `TimeWindow.ResumeByMonth` | backend/download_klines.py:1249-1253 | for 1M the next month keeps the day and the resume time lies within 31 days after the stored date |
| `TimeWindow.UpToDateIffEmptyWindow` | backend/download_klines.py:1238-1267 | on the grid (and for 1d) the up-to-date test holds exactly when the resume point lies after the end time |
| `Calendar.DaysInMonth` | backend/download_klines.py:1250-1253 | months have 28 to 31 days; February has 29 exactly in leap years |
| `Calendar.DayNumberOrder` | backend/download_klines.py:603 | date order is day-number order, and equal day numbers mean equal dates |
| `Calendar.NextMonth` | backend/download_klines.py:1250-1253 | the same day in the following month (December rolls the year); it fails exactly when that day does not exist or the year would pass 9999 |
| `Calendar.NextMonthDistance` | backend/download_klines.py:1250-1253 | the next month's date lies 1 to 31 days later |
| `Calendar.DateOfDayNumber` | backend/download_klines.py:1243-1248 | day numbers and dates convert both ways without loss |
| `Retry.StopAt` | backend/binance_client.py:68-89 | the attempt that ends the loop is the first one that succeeds, raises a non-network error, or is the last allowed; all before it raised network errors |
| `Retry.RetryWithBackoff` | backend/binance_client.py:56-104 | the loop returns that attempt's outcome after waiting delay·2^k after each failed attempt k; a raise means retries ran out or the error was not a network error |
| `Retry.NoRetryWhenNothingRaises` | backend/binance_client.py:68-70 | a call that never raises is made once |
| `Retry.TotalWait` | backend/binance_client.py:93 | the waits of n retries add up to delay·(2^n − 1) |
| `BinanceClient.CapitalisedTestNeverMatches` | backend/binance_client.py:72-85 | the 'Max retries exceeded' test on the lower-cased message never matches, so the classifier as written is just the keyword tests |
| `BinanceClient.MaxRetriesMessageMisclassified` | backend/binance_client.py:72-85 | a 'Max retries exceeded' failure is not retried as written and is retried by the corrected classifier |
| `BinanceClient.CorrectedClassifierWidens` | backend/binance_client.py:72-85 | the corrected classifier retries everything the classifier as written retries |
| `BinanceClient.TradingSymbols` | backend/binance_client.py:184-188 | the listing holds exactly the symbols ending in USDT (any case) with the requested status |
| `BinanceClient.InExchangeTradingSymbols` | backend/binance_client.py:163-215 | a failed request yields the empty list; otherwise the filtered listing |
| `BinanceClient.FetchTradingSymbols` | backend/binance_client.py:163-215 | the decorated listing makes one request and never waits, since the wrapped method swallows its errors |
| `BinanceClient.KlineCandlestickData` | backend/binance_client.py:217-272 | the candles are returned unchanged, or None exactly when the request raised |
| `BinanceClient.FetchKlines` | backend/binance_client.py:217-272 | the decorated candle request makes one request, never waits, and yields None exactly on a raised error |
| `BinanceClient.Kline2DfRows` | backend/binance_client.py:482-518 | the frame has one row per candle with its prices kept; the first diff is NaN and each later one is close minus the previous close |
| `BinanceClient.DiffsTelescope` | backend/binance_client.py:510 | summing the diffs up to row j recovers row j's close from the first close |
| `SymbolCache.ValidSymbolCache.constructor` | backend/download_klines.py:158-199 | the cache starts empty |
| `SymbolCache.ValidSymbolCache.GetValidTradingSymbols` | backend/download_klines.py:158-199 | a fresh cache (under 3600 s, not forced) is served unchanged; a non-empty refresh replaces it; an empty refresh returns [] and keeps it; a failed refresh falls back to the stale list or [] |
| `SymbolCache.ValidSymbolCache.ValidateSymbol` | backend/download_klines.py:202-230 | skipping or an empty list accepts; otherwise the symbol is rejected exactly when a non-empty cached list lacks it |
| `KlineStore.RowByRowWrites` | backend/download_klines.py:473-527 | row-by-row insertion appends each new key, skips keys already stored or rejected as duplicates, and counts both |
| `KlineStore.FirstOffenceFacts` | backend/download_klines.py:971-1015 | a batch passes exactly when its keys are fresh and distinct; a refused batch holds a rejected row |
| `KlineStore.WriteBatchWrites` | backend/download_klines.py:971-1015 | a batch insert appends the whole batch, or falls back to row by row on a unique error, or raises |
| `KlineStore.WriteAllWrites` | backend/download_klines.py:967-1015 | writing in batches of 50 keeps the stored keys distinct and adds exactly the fresh rows until a raise |
| `KlineStore.WriteAllStep` | backend/download_klines.py:993-1015 | one loop step writes the next slice of at most 50 rows and stops at a raise |
| `KlineStore.LatestIndex` | backend/download_klines.py:545 | the selected row has the greatest open time |
| `KlineStore.InsertWithSkipDuplicates` | backend/download_klines.py:473-527 | the loop computes the row-by-row result |
| `KlineStore.WriteSlice` | backend/download_klines.py:971-991 | one to_sql call with its unique-error fallback |
| `KlineStore.WriteInBatches` | backend/download_klines.py:967-1015 | the batch loop computes the batched result |
| `KlineStore.Database.constructor` | backend/db.py:53-99 | no tables exist at first |
| `KlineStore.Database.LastTradeDate` | backend/download_klines.py:530-578 | None exactly for an empty table; otherwise the date of the row with the latest open time |
| `KlineStore.Database.CreateTable` | backend/db.py:53-99 | creating a table keeps an existing one's rows and adds an empty one otherwise |
| `KlineStore.Database.SaveRows` | backend/download_klines.py:967-1015 | the table becomes the batched write's result; the saved count and the raise agree with it |
| `KlinePipeline.CompletedFacts` | backend/download_klines.py:909-926 | a candle the corrected filter keeps is also kept as written, and its period has ended by now |
| `KlinePipeline.DailyFiltersAgree` | backend/download_klines.py:913-914 | for 1d candles up to today the filter as written ("not today") and the corrected one agree |
| `KlinePipeline.WeeklyCandleKeptWhileOpen` | backend/download_klines.py:913-914 | a weekly candle opened six days ago is still open yet passes the filter as written |
| `KlinePipeline.DedupFacts` | backend/download_klines.py:937 | dedup leaves distinct keys, keeps exactly the keys not already seen, and invents no row |
| `KlinePipeline.DedupKeepsFirst` | backend/download_klines.py:937 | each kept row is the first row with its key (keep='first') |
| `KlinePipeline.DedupDistinct` | backend/download_klines.py:937 | dedup of rows with fresh distinct keys changes nothing |
| `KlinePipeline.FilterFacts` | backend/download_klines.py:943-959 | a boolean-mask filter keeps exactly the matching rows and preserves distinctness |
| `KlinePipeline.FilterAll` | backend/download_klines.py:943-959 | a mask every row passes keeps the frame whole |
| `KlinePipeline.StagedFacts` | backend/download_klines.py:909-965 | the rows staged for writing are fetched candles that pass the incomplete-candle filter as written, with fresh distinct keys; every fetched candle the filter keeps is staged or already stored |
| `KlinePipeline.SegmentRequests` | backend/download_klines.py:763-781 | one request per segment |
| `KlinePipeline.GatheredRepresentable` | backend/download_klines.py:763-819 | every open time of the concatenated segment frames lies within the pandas Timestamp range, so every row can be keyed |
| `KlinePipeline.FetchSegments` | backend/download_klines.py:763-819 | the segment loop gathers the frames of the segments in order; a failed request, or a frame with an open time kline2df cannot convert to a pandas Timestamp (1677-09-21 to 2262-04-11), contributes nothing |
| `KlinePipeline.Year2264CandleDropped` | backend/download_klines.py:763-819 | a candle opening in 2264 makes its segment contribute nothing, and on the single-request path ends the download without a frame |
| `KlinePipeline.FetchOne` | backend/download_klines.py:833-888 | a single request returns the frame of its response |
| `KlinePipeline.FetchRows` | backend/download_klines.py:749-888 | the fetch yields the specification frame: one request per window of split_time_range as written when start and end are given, auto-split is on and the count exceeds the limit; one request otherwise; any limit is accepted except on a split of a non-empty window, where a limit of 0 or less never returns |
| `KlinePipeline.StoredFacts` | backend/download_klines.py:909-1024 | storing only appends, keeps keys distinct, appends only fetched candles the filter as written keeps, raises exactly on a rejected staged row, and otherwise leaves every such candle stored |
| `KlinePipeline.StoreIdempotent` | backend/download_klines.py:940-965 | writing the same frame again at the same time onto the table the first successful write left adds no row, skips none and does not raise |
| `KlinePipeline.DownloadIdempotent` | backend/download_klines.py:735-1028 | after a successful fetch and write, a second one with the same exchange answers and the same time succeeds and leaves the table as it was |
| `KlinePipeline.KeptClosedUpToDaily` | backend/download_klines.py:909-926 | the filter as written lets through only closed candles for sub-day intervals, and for 1d candles up to today |
| `KlinePipeline.StoreChecked` | backend/download_klines.py:890-1028 | the table becomes the post-fetch outcome and success is reported as it says |
| `KlinePipeline.Checked` | backend/download_klines.py:741-892 | a frame that survives the interval, emptiness and kline2df conversion checks is non-empty and every open time lies within the pandas Timestamp range |
| `KlinePipeline.FetchChecked` | backend/download_klines.py:741-892 | the fetch computes that frame, for every limit with which the fetch returns |
| `KlinePipeline.FetchAndWrite` | backend/download_klines.py:735-1028 | table creation then fetch and store; the table becomes the outcome's rows; every limit is accepted with which the fetch returns |
| `KlinePipeline.CreateAndStore` | backend/download_klines.py:735-1028 | table creation, then the post-fetch write: the table becomes the write result of the rows staged through the filter as written, and success is reported as it says |
| `KlinePipeline.DownloadKlineData` | backend/download_klines.py:674-1028 | a rejected symbol fails with no table touched; an up-to-date table succeeds untouched; otherwise the table becomes the fetch-and-store outcome; the cache changes only through a refresh; any limit is accepted unless the call reaches a split of a non-empty window with a limit of 0 or less, which never returns |
| `AutoUpdate.PlanUpdate` | backend/download_klines.py:1236-1273 | no stored date means 'new' from 365 days before end; a resume that fails means 'failed'; up to date means 'no_data_needed'; otherwise 'updated' from the resume point |
| `AutoUpdate.PlanDownloadNotShortcut` | backend/download_klines.py:724-732 | a planned download is never cut short by the pipeline's own up-to-date test |
| `AutoUpdate.NewSymbolNeverReturns` | backend/download_klines.py:749-759 | with auto-split on and a limit of 0 or less, the year-long window planned for a symbol with no rows is split and its fetch never returns |
| `AutoUpdate.UpdateResumesAfterLast` | backend/download_klines.py:1238-1263 | an update starts strictly after the last stored candle (within one interval for intra-day) |
| `AutoUpdate.UpdatedIffWindowNonEmpty` | backend/download_klines.py:1238-1267 | on the grid an update happens exactly when the resume point is not after end |
| `AutoUpdate.UpdateStep` | backend/download_klines.py:1213-1295 | one symbol's update: the cache becomes what validation leaves; 'skipped' exactly when validation rejects the symbol; only the symbol's own table can change or appear |
| `AutoUpdate.UpdateSingleSymbol` | backend/download_klines.py:1213-1295 | an invalid symbol is 'skipped' with no table touched; a stop keeps the tables; a download reports its plan's status or 'failed' and the table becomes its outcome; tables, cache and status are those of `UpdateStep` |
| `AutoUpdate.TallyCounts` | backend/download_klines.py:1399-1402 | each counter equals the number of symbols with that status |
| `AutoUpdate.TallySum` | backend/download_klines.py:1438 | the counters add up to the number of symbols processed |
| `AutoUpdate.AutoUpdateAllSymbols` | backend/download_klines.py:1298-1457 | one status per listed symbol and the stats are their tally; with a non-empty listing the tables, the cache and the statuses are those of the run of per-symbol updates in list order, each at its own time; an empty listing touches nothing |
| `AutoUpdate.UpdateListed` | backend/download_klines.py:1376-1402 | the loop over the listed symbols: one status per symbol, counted into stats whose total is the number of symbols; tables, cache and statuses are those of the run of `UpdateStep`s in list order |
| `AutoUpdate.NoSkipWhileCacheFresh` | backend/download_klines.py:158-199 | while every updated symbol is in the cached list and each update comes before the TTL runs out (`ServedFresh`), no symbol is skipped and the cache stays as it was |
| `AutoUpdate.SkippedAfterTtl` | backend/download_klines.py:158-230 | once the TTL has passed, the list is fetched again and a symbol that left it is skipped, the new list being cached |
| `Scheduler.DailyDueOnlyAtMidnight` | backend/scheduler_klines.py:131-139 | the 1d job is due only at 00:00 |
| `Scheduler.Offer` | backend/scheduler_klines.py:142-145 | an interval is enqueued once: an active interval is not queued again |
| `Scheduler.OfferKeeps` | backend/scheduler_klines.py:49-51 | enqueueing keeps the active set equal to the queued and running intervals with no repeat |
| `Scheduler.TickAllFacts` | backend/scheduler_klines.py:129-145 | a minute's tick only appends to the queue, keeps the invariant, and activates exactly the due intervals |
| `Scheduler.Cooldown` | backend/scheduler_klines.py:70-100 | 1200 s after a run with over 10 failures and no success; 600 s after a rate-limit crash; no pause otherwise |
| `Scheduler.SuccessNeverPauses` | backend/scheduler_klines.py:70-79 | a run that updated or added a symbol never triggers the ban pause |
| `Scheduler.SerialScheduler.constructor` | backend/scheduler_klines.py:49-51 | the queue and active set start empty |
| `Scheduler.SerialScheduler.Start` | backend/scheduler_klines.py:125-127 | the 5m job is enqueued at startup unless active |
| `Scheduler.SerialScheduler.Tick` | backend/scheduler_klines.py:129-145 | one minute's tick enqueues the due intervals |
| `Scheduler.SerialScheduler.Dequeue` | backend/scheduler_klines.py:104-111 | an idle worker takes the queue's head; otherwise nothing changes |
| `Scheduler.SerialScheduler.Complete` | backend/scheduler_klines.py:53-114 | a finished job leaves the active set and records its pause |
| `Scheduler.RequeuedAfterComplete` | backend/scheduler_klines.py:101-102 | once a job finishes its interval can be enqueued again |
| `Symbols.SyncedFacts` | backend/symbols.py:98-208 | after sync every listed or known symbol has a row, TRADING exactly when listed, creation times kept, listed rows stamped, inactive unlisted rows untouched |
| `Symbols.SyncIdempotent` | backend/symbols.py:98-208 | a second sync with the same listing inserts, reactivates and delists nothing and keeps every status |
| `Symbols.InsertNew` | backend/symbols.py:136-151 | each new listed symbol gets a TRADING row; the count is the number of new symbols |
| `Symbols.Reactivate` | backend/symbols.py:154-179 | every listed known symbol is set to TRADING and stamped; the count is those that were not TRADING |
| `Symbols.Delist` | backend/symbols.py:182-197 | every unlisted TRADING symbol becomes delisted; the count is theirs |
| `Symbols.SyncComposes` | backend/symbols.py:136-197 | the three passes together give the sync result |
| `Symbols.SymbolTable.constructor` | backend/symbols.py:21-56 | the table starts with the given rows |
| `Symbols.SymbolTable.SyncFromExchange` | backend/symbols.py:98-208 | an empty listing changes nothing; otherwise the counts are computed and the table is synced unless it is a dry run |
| `Symbols.SymbolTable.UpdateSymbolStatus` | backend/symbols.py:211-244 | success exactly for a valid status on a known symbol, which alone changes |
| `Symbols.ColumnValue` | backend/symbols.py:41-42 | a VARCHAR(n) column stores a value that fits, cuts a longer one to n characters exactly when everything past them is spaces, and refuses any other longer value |
| `Symbols.SymbolTable.AddSymbol` | backend/symbols.py:247-277 | succeeds exactly when both values can be stored in VARCHAR(50) and VARCHAR(20) and the database does not refuse the statement; then an upsert keyed on the stored symbol (a new row, or the existing row with the new status and time); otherwise the table is unchanged |
| `Symbols.SymbolTable.DeleteSymbol` | backend/symbols.py:280-302 | the row is removed; success exactly when it existed |
| `Integrity.FindMissingSymbols` | backend/data.py:45-54 | exactly the exchange symbols with no local table, without repeats when the listing has none |
| `Integrity.DuplicateCountFacts` | backend/data.py:640-646 | no duplicates exactly when trade dates are distinct; the count (keep=False) is never 1 |
| `Integrity.PriceInvalidIff` | backend/data.py:726-733 | a row is invalid exactly when open or close lies outside [low, high] |
| `Integrity.CountFailing` | backend/data.py:715-793 | a rule's count is zero exactly when no row fails it |
| `Integrity.IssuesFrom` | backend/data.py:715-798 | one issue per rule with failures, none otherwise |
| `Integrity.CleanRowPassesAll` | backend/data.py:715-793 | a clean row is one that passes all eleven quality rules |
| `Integrity.QualityIssuesFacts` | backend/data.py:715-798 | at most eleven issues, none exactly when every row is clean |
| `Integrity.MissingDays` | backend/data.py:697-704 | exactly the days in the range with no row, in ascending order |
| `Integrity.MinDay` | backend/data.py:623 | the earliest day of the table |
| `Integrity.MaxDay` | backend/data.py:624 | the latest day of the table |
| `Integrity.Window` | backend/data.py:632-637 | exactly the rows within the given bounds |
| `Integrity.CheckTable` | backend/data.py:599-817 | empty tables are reported as such; an unparseable date raises; a checked report has the full count, the table's range, and sorted missing days none of which has a row |
| `Integrity.MissingIn` | backend/data.py:651-712 | no gaps for one row or less; with both bounds, exactly the bounded days without a row |
| `Integrity.CheckTableWhole` | backend/data.py:632-798 | without bounds every rule runs on the whole table |
| `Integrity.GaplessTableReportsNoGaps` | backend/data.py:640-712 | a gapless table with distinct dates reports no duplicate and no missing day |
| `Integrity.WeeklySeriesReportsSixGaps` | backend/data.py:671-704 | two weekly candles seven days apart report the six days between them missing |
| `Integrity.SummarizeCounts` | backend/data.py:575-817 | the total is the symbol count; checked, empty and failed tables add up to those examined |
| `Integrity.SummarizeListed` | backend/data.py:804-817 | a symbol is listed with issues exactly when its check found an issue or raised |
| `Integrity.EmptyTableNotListed` | backend/data.py:603-609 | an empty table is never listed with issues |
| `Integrity.CheckDataIntegrity` | backend/data.py:530-838 | one report per symbol, each the table's check, summarised |
| `Integrity.FilterSplits` | backend/data.py:498-507 | the rows deleted and the rows kept add up to the table |
| `Integrity.DeleteKlineDataAt` | backend/data.py:388-527 | with the existence check on one name and the statements on a target table: a missing table fails; no bounds drops the target (-1); with a bound a missing target raises at the COUNT; a bad or blank-only bound fails untouched; otherwise the target's in-range rows go and the count is before minus after |
| `Integrity.DeleteKlineData` | backend/data.py:388-527 | as written: the unquoted statements reach the lower-cased name, so no bounds reports (true, -1) and drops only a lower-cased table, a bound raises when no lower-cased table exists, and a table whose name folds to another keeps its rows |
| `Integrity.UnquotedNameMissesCandleTables` | backend/data.py:438-452 | in a database of candle tables (names starting with 'K') no lower-cased table name exists, so as written the whole-table delete changes nothing and a bounded delete raises |
| `Integrity.DeleteKlineDataQuoted` | backend/data.py:388-527 | with the name quoted: a missing table fails; no bounds drops the table (-1); a bad or blank-only bound fails untouched; otherwise exactly the in-range rows go and the count is before minus after |
| `Integrity.MissingRange` | backend/data.py:1427-1432 | the corrected repair range, from the first to the last of all missing days, exists exactly for a checked report with missing days |
| `Integrity.MissingRangeCovers` | backend/data.py:1427-1432 | the corrected repair range covers every missing day |
| `Integrity.MissingRangeAsWritten` | backend/data.py:1427-1432 | the repair range as written, from the first to the last of the ten missing days a report shows, exists exactly for a checked report with missing days |
| `Integrity.MissingRangeAsWrittenCovers` | backend/data.py:1427-1432 | the range as written covers every missing day the report shows |
| `Integrity.EleventhMissingDayNotRepaired` | backend/data.py:707 | with eleven missing days the range as written stops at the tenth; the corrected range reaches the eleventh |
| `Integrity.AddOnce` | backend/data.py:1447-1459 | appends a symbol only if absent, so the lists keep no repeats |
| `Integrity.PassesMeet` | backend/data.py:1394-1427 | the bookkeeping after the empty-table pass is the starting point of the missing-date pass |
| `Integrity.SecondPassDone` | backend/data.py:1394-1459 | after both passes every table needing repair has been tried |
| `Integrity.RepairEmptyTables` | backend/data.py:1394-1423 | the first pass: every empty table is tried for the last year, lands in success exactly when its download succeeds, and `emptyDownloaded` counts those successes |
| `Integrity.RepairMissingDays` | backend/data.py:1425-1459 | the second pass: every table with missing days is tried over the range as written, lands in success exactly when its download succeeds, and `missingDownloaded` counts those successes |
| `Integrity.DownloadMissingFromCheck` | backend/data.py:1367-1470 | each table needing repair lands in success exactly when its download succeeds, else in failed; an empty table is downloaded for the last year, one with missing days over the range as written (the first ten shown days); no repeats; `emptyDownloaded` is the number of empty tables whose download succeeded and `missingDownloaded` the number of tables with missing days whose download succeeded, together the successes |
| `Integrity.RecordedStep` | backend/data.py:1394-1459 | one table's attempt keeps the bookkeeping invariant |
| `SqliteMigration.FilterTables` | backend/migrate.py:183-197 | a 'K' filter keeps tables starting with it, any other filter keeps those containing it, an empty filter keeps all |
| `SqliteMigration.CompareTableCounts` | backend/migrate.py:169-221 | the filtered tables split into only-in-SQLite, only-in-PostgreSQL and common, disjointly |
| `SqliteMigration.ConsistentIffSameTables` | backend/migrate.py:203-221 | consistent exactly when both sides hold the same filtered tables |
| `SqliteMigration.FirstMatchAt` | backend/migrate.py:288-292 | the first mapping entry whose key occurs in the type |
| `SqliteMigration.Before` | backend/migrate.py:281-283 | the text before the first parenthesis |
| `SqliteMigration.Strip` | backend/migrate.py:282 | no leading or trailing blank |
| `SqliteMigration.DatetimeBecomesDate` | backend/migrate.py:268-292 | as written, DATETIME maps to DATE, because 'DATE' precedes 'DATETIME' in the mapping |
| `SqliteMigration.DatetimeBecomesTimestamp` | backend/migrate.py:268-292 | with 'DATETIME' tested first it maps to TIMESTAMP |
| `SqliteMigration.CorrectionOnlyTouchesDatetime` | backend/migrate.py:268-295 | the corrected mapping differs only for types containing DATETIME |
| `SqliteMigration.SqliteToPostgresAsWritten` | backend/migrate.py:251-295 | sized VARCHAR/NUMERIC are kept; an unmatched type becomes TEXT |
| `SqliteMigration.SqliteToPostgres` | backend/migrate.py:251-295 | the same, with the corrected mapping |
| `SqliteMigration.PgDatabase.constructor` | backend/migrate.py:395-525 | the target starts with the given tables |
| `SqliteMigration.CopyFrom` | backend/migrate.py:440-525 | the copy never adds more rows than remain after the offset |
| `SqliteMigration.CopyAllInserted` | backend/migrate.py:440-525 | if every batch inserts, the copy appends the whole rest of the source |
| `SqliteMigration.SkippedBatchIsLost` | backend/migrate.py:507-511 | a batch rejected as duplicate is skipped and never retried |
| `SqliteMigration.CopyAdvance` | backend/migrate.py:440-511 | one inserted or skipped batch keeps the loop in step with the whole copy |
| `SqliteMigration.CopyStops` | backend/migrate.py:440-525 | the loop ends with the whole copy's rows; the end is completion, a lost connection or another error |
| `SqliteMigration.MigrateTableData` | backend/migrate.py:395-525 | an empty source copies nothing; a lost probe fails; an already-migrated table returns its count; otherwise the remaining rows are appended batch by batch |
| `SqliteMigration.ResumeCompletesTable` | backend/migrate.py:404-525 | resuming after k rows with every batch inserting restores the whole source and reports its full count |
| `SqliteMigration.ExistingOnly` | backend/migrate.py:618-626 | named tables are kept only if they exist |
| `SqliteMigration.SelectTables` | backend/migrate.py:615-636 | named tables, else the filter's tables, else all |
| `SqliteMigration.TallyBalances` | backend/migrate.py:652-698 | without an escaping connection error, successes and failures add up to the tables plus the tables migrated whose schema read then failed, which are counted twice |
| `SqliteMigration.UnreadTableCountedTwice` | backend/migrate.py:661-698 | a single migrated table whose schema read fails counts as one success and one failure with no rows |
| `SqliteMigration.FirstLost` | backend/migrate.py:668-692 | the first table whose ConnectionError escapes |
| `SqliteMigration.MigrateTables` | backend/migrate.py:652-709 | the loop computes the run |
| `SqliteMigration.MigrateTableResult` | backend/migrate.py:527-598 | migrate_table raises exactly on a connection-worded error of its skip-existing check; it returns True exactly for an already complete target or a prepared table whose copy ended normally; every other error, a lost copy included, gives False |
| `SqliteMigration.OutcomeOf` | backend/migrate.py:527-698 | the run stops at a table exactly when migrate_table raises or the schema read after a success hits a connection error; a table fails exactly when migrate_table returns False, so a lost copy only fails the table |
| `SqliteMigration.LostCopyOnlyFailsTable` | backend/migrate.py:513-519 | as written a copy that loses its connection fails its table and the run goes on; with the copy's ConnectionError reaching migrate_all the run stops |
| `SqliteMigration.OutcomeIntended` | backend/migrate.py:513-519 | the outcome with the copy's ConnectionError stopping the run, equal to the as-written outcome in every other case |
| `SqliteMigration.MigrateAll` | backend/migrate.py:600-709 | the run over the selected tables, each table's outcome derived from its skip-existing check, preparation, copy and schema read |
| `SqliteMigration.RunCounts` | backend/migrate.py:639-709 | the run finishes exactly when no connection error escapes; then the counts balance as `TallyBalances` says; otherwise it stops at a table whose ConnectionError escaped, with fewer counted |
| `PgMigration.CompareTableCounts` | backend/migrate_pg2pg.py:216-269 | set differences and intersection of the filtered tables, row-count differences for common tables, consistent exactly when all match |
| `PgMigration.ConsistentIffSameCounts` | backend/migrate_pg2pg.py:233-257 | consistent exactly when the same tables hold the same counts |
| `PgMigration.PgTypeAsWritten` | backend/migrate_pg2pg.py:301-319 | every INT-containing non-text type maps to INTEGER |
| `PgMigration.BigintBranchUnreachable` | backend/migrate_pg2pg.py:306-311 | the BIGINT test is shadowed by the INT test |
| `PgMigration.BigintBecomesInteger` | backend/migrate_pg2pg.py:305-312 | as written BIGINT columns become INTEGER |
| `PgMigration.PgType` | backend/migrate_pg2pg.py:301-319 | with BIGINT tested first, BIGINT stays BIGINT |
| `PgMigration.BigintStaysBigint` | backend/migrate_pg2pg.py:305-312 | the corrected mapping keeps BIGINT |
| `PgMigration.CorrectionOnlyTouchesBigint` | backend/migrate_pg2pg.py:301-319 | the corrected mapping differs only for BIGINT-containing types |
| `PgMigration.FinalFirstAttempt` | backend/migrate_pg2pg.py:406-435 | a first attempt that succeeds or raises a non-network error is final |
| `PgMigration.KeysMembers` | backend/migrate_pg2pg.py:377-393 | the existing-key set is exactly the keys of the target rows |
| `PgMigration.DropKnownMembers` | backend/migrate_pg2pg.py:438-442 | the filter keeps exactly the rows whose key is not yet present |
| `PgMigration.DropNothing` | backend/migrate_pg2pg.py:438-442 | with no existing keys nothing is dropped |
| `PgMigration.CopyInsertsFreshRows` | backend/migrate_pg2pg.py:395-487 | every inserted row is a source row past the offset whose key was not present |
| `PgMigration.CopyEverything` | backend/migrate_pg2pg.py:395-493 | if all reads and inserts succeed and skip is off, the whole rest of the source is inserted |
| `PgMigration.ResumeCompletesTable` | backend/migrate_pg2pg.py:377-493 | resuming with skip on over a target holding the first k rows restores the whole source |
| `PgMigration.CopyAdvance` | backend/migrate_pg2pg.py:401-487 | one successful batch keeps the loop in step with the whole copy |
| `PgMigration.CopyStops` | backend/migrate_pg2pg.py:401-493 | the loop ends with the whole copy's rows and its end: done, or the read's or insert's error |
| `PgMigration.MigrateTableData` | backend/migrate_pg2pg.py:343-518 | a failed existence check escapes (None) with the target untouched; a failed create fails; an empty source succeeds with 0; otherwise the target gains the copied rows and the result reports them |
| `PgMigration.CopyBatches` | backend/migrate_pg2pg.py:395-518 | the batch loop appends the copy's rows and reports its result |
| `PgMigration.NextBatch` | backend/migrate_pg2pg.py:403-485 | one batch: read with retries, filter, insert with retries, stopping at the first final error |
| `PgMigration.RetriedStep` | backend/migrate_pg2pg.py:406-432 | a retried call yields its final attempt |
| `PgMigration.HandlerResult` | backend/migrate_pg2pg.py:495-518 | a failure reports the rows migrated so far and whether it was a network error |
| `PgMigration.ExistenceCheckFailureEscapes` | backend/migrate_pg2pg.py:351-364 | as written a failed existence check reaches the handler with no row count and escapes; corrected it reports 0 rows |
| `PgMigration.NonBlankLines` | backend/migrate_pg2pg.py:533 | exactly the stripped non-blank lines of the table file |
| `PgMigration.SelectTables` | backend/migrate_pg2pg.py:529-540 | explicit names, else the file's lines, else the filtered source tables |
| `PgMigration.TallyFacts` | backend/migrate_pg2pg.py:544-561 | successes and failures add up to the tables; skipped ones are successes with 0 rows; no failure exactly when every table succeeded |
| `PgMigration.MigrateAll` | backend/migrate_pg2pg.py:520-579 | the run as written: no stats (the exception propagates) exactly when a table escapes, otherwise the tally of the selected tables |
| `PgMigration.EscapeAbortsRun` | backend/migrate_pg2pg.py:552-561 | as written the run aborts exactly when some table's handler escapes |
| `PgMigration.TallyAsWrittenAgrees` | backend/migrate_pg2pg.py:552-561 | when no table escapes, the run as written yields the tally `TallyFacts` describes |

## Left out

- HTTP and SDK calls, database connections and SQL text are replaced by parameters:
  - exchange responses are oracle functions;
  - unique-key rejections are a set of rejected keys;
  - table creation outcomes are booleans.
- Sleeps (request delay, batch delay, backoff, cool-down) are recorded as wait values or pauses. They are not timed.
  - `PgMigration.RetriedStep` yields only the final attempt and drops its waits.
- The thread pool of `auto_update_all_symbols` and the asyncio worker are modelled as sequential folds over the same inputs. Interleaving and locking are not modelled.
- `AutoUpdate.AutoUpdateAllSymbols`: the first listing request and the end time share one instant `now`. The two `datetime.now()` reads are taken to be equal.
- Floating-point prices are `real`. `pct_chg` and the remaining numeric columns of `kline2df` are not modelled, nor are report text and logging.
- Timezones: every time is UTC seconds. Naive datetimes are taken as UTC, as `ensure_utc_timezone` does.
- `check_disk_space`, `download_all_symbols`, `download_missing_symbols`, `recheck_problematic_symbols`, `generate_integrity_report`, `migrate_with_pg_dump`, `main` and the configuration loaders are not part of this model.
- `TimeWindow.SplitTimeRange` requires max_count ≥ 1 or an empty window (end ≤ start). For max_count ≤ 0 the source loop never advances once it is entered.
- `KlinePipeline.DownloadKlineData`, `KlinePipeline.FetchAndWrite`, `KlinePipeline.FetchChecked`, `KlinePipeline.FetchRows` and `KlinePipeline.Checked` exclude, through `FetchReturns`, exactly the calls that never return: a split of a non-empty window with a limit of 0 or less. Non-termination itself is not modelled.
- `AutoUpdate.UpdateStep`, `AutoUpdate.UpdateSingleSymbol`, `AutoUpdate.UpdateListed` and `AutoUpdate.AutoUpdateAllSymbols` require a positive limit whenever auto-split is on. With auto-split on and a limit of 0 or less, a symbol with no rows never finishes (`AutoUpdate.NewSymbolNeverReturns`). A resumed symbol whose window is not split still returns in the source. Runs with such a limit are not modelled.
- The 'banned until' and rate-limit waits in the segment loop are not modelled. They are unreachable, because `kline_candlestick_data` turns every error into None.
- `get_last_trade_date`'s case-insensitive retry through `information_schema` is not modelled. Table names are exact.
- `KlineStore.Database.CreateTable` finds an existing table by its exact name only. `create_table` also accepts a table named `LOWER(name)` (db.py:60-63) and then creates nothing. Tables this system creates are quoted and start with 'K', so such a lower-cased twin arises only from outside it.
- `PgMigration.CompareTableCounts`: `get_table_row_count` returns 0 on error, modelled as `CountOf`.
- `PgMigration.MigrateTableData`:
  - the id-column fallback for reading existing keys is left out: keys are read, or not at all (`keysRead`);
  - the `df.empty` break is unreachable, because the limit is positive and below the remaining count;
  - each `to_sql` batch is atomic.
- `PgMigration.MigrateTableData` takes schema creation as an oracle (`createOk`). Column definitions are not modelled beyond `PgType`.
- `PgMigration.SelectTables`: explicitly named tables are used without an existence check, as in the source. The table file's I/O becomes its lines (`fileLines`).
- `PgMigration.MigrateTableData` applies the key filter whenever skip is on. This equals the source's test on a non-empty key set, by `PgMigration.DropNothing`.
- `SqliteMigration.MigrateAll`: each table's steps are parameters: the skip-existing check (`ExistingCheck`), whether the schema read and `create_postgresql_table` succeed (`prepared`), the end of `migrate_table_data` (`DataResult`) and the schema read after a success (`SchemaRead`). The schema's content and the SQL of `create_postgresql_table` are not modelled.
- `Integrity.CheckTable` works at day granularity: `trade_date[:10]` is the key.
  - The frequency map for intra-day intervals is not modelled. Every interval uses the daily grid, which is what the source does for intervals the map does not name (`WeeklySeriesReportsSixGaps`).
- `Integrity.CheckDataIntegrity`: empty tables are counted neither as checked nor as having issues. This follows the code (data.py:603-609) rather than the documented summary.
- `SqliteMigration.DatetimeSkipsFirstSix` states only that the six mapping keys before 'DATE' never occur in 'DATETIME'.
- `BinanceClient.FetchTradingSymbols` and `BinanceClient.FetchKlines` use the corrected classifier. Nothing they wrap raises, so the as-written classifier would give the same result.
- `SymbolCache.ValidSymbolCache.GetValidTradingSymbols` accepts a raised refresh. In the system the refresh goes through `in_exchange_trading_symbols`, which turns every error into [] (binance_client.py:195-215). So the stale-list fallback is unreachable there. The reachable failure is an empty list, after which `ValidateSymbol` accepts every symbol.
- `Common.Lower` folds ASCII letters only. Python's `str.lower` also folds other letters. Exchange symbols and the error keywords matched are ASCII. `Integrity.DeleteKlineData` uses it for PostgreSQL's folding of unquoted names.
- `SqliteMigration.Strip` and `PgMigration.NonBlankLines` strip ASCII blanks only. Python's `str.strip()` also strips other Unicode whitespace.
- `KlinePipeline.DownloadKlineData`: one `now` serves the symbol cache's TTL (download_klines.py:170), the default end time (download_klines.py:725, 745) and the incomplete-candle filter (download_klines.py:909). The source reads the clock separately for each.
- `Integrity.CheckTable` takes the date bounds already parsed. A malformed `start_date` or `end_date` makes `pd.to_datetime` (data.py:632-637) raise inside every table's try, so every table is reported as failed. That case is not modelled.
- `Symbols.SymbolTable.SyncFromExchange` takes every insert and update to succeed. Exchange symbols and the statuses it writes fit their columns.

## Findings

The operations model each of these defects as written. The corrected members state what the code evidently intends.

| source | as written | input that shows it | evidently intended | confidence | as-written member | corrected member |
|---|---|---|---|---|---|---|
| backend/download_klines.py:421-428 | the split loop runs while start < end, and each segment starts one interval after the previous end | 1m candles from 0 to 600 s with max_count 10: the segments are [0, 540] only, so the candle at 600 s is never requested | segments cover every candle from start to end inclusive | high, not executed | `TimeWindow.SplitMissesLastCandle` | `TimeWindow.SplitTimeRangeThrough` |
| backend/binance_client.py:72-85 | 'Max retries exceeded' is searched for in the lower-cased message | an error whose message is "Max retries exceeded" and whose type is RetryError is not retried | the test should match the lower-cased keyword | high, not executed | `BinanceClient.MaxRetriesMessageMisclassified` | `BinanceClient.CorrectedClassifierWidens` |
| backend/download_klines.py:913-914 | day-or-longer candles are dropped only when their date is today | a 1w candle opened six days ago (still open) is kept and stored | only candles whose period has ended are stored | medium, not executed | `KlinePipeline.WeeklyCandleKeptWhileOpen` | `KlinePipeline.CompletedFacts` |
| backend/data.py:707 | only the first 10 missing dates are stored, and the repair range (data.py:1430-1432) spans those | eleven missing days 1..11: the repair range ends at day 10 | the repair covers every missing day | high, not executed | `Integrity.EleventhMissingDayNotRepaired` | `Integrity.MissingRangeCovers` |
| backend/migrate.py:268-292 | 'DATE' precedes 'DATETIME' in the mapping and the first substring match wins | the SQLite type DATETIME maps to DATE, dropping the time | DATETIME maps to TIMESTAMP | high, not executed | `SqliteMigration.DatetimeBecomesDate` | `SqliteMigration.DatetimeBecomesTimestamp` |
| backend/migrate_pg2pg.py:305-312 | the 'INT' test precedes the 'BIGINT' test | the column type BIGINT maps to INTEGER, a narrower type | BIGINT stays BIGINT | high, not executed | `PgMigration.BigintBecomesInteger` | `PgMigration.BigintStaysBigint` |
| backend/migrate_pg2pg.py:351-518 | `migrated_rows` is assigned only after the existence query | an existence query that raises makes the handler raise an unbound-variable error, which escapes and aborts migrate_all | the table fails with 0 rows and the run continues | high, not executed | `PgMigration.ExistenceCheckFailureEscapes` | `PgMigration.HandlerResult` |
| backend/data.py:438-452 | delete_kline_data checks the exact name but splices it unquoted into DROP, COUNT and DELETE, which PostgreSQL folds to lower case, while the store creates every table quoted (db.py:77) | the table K1dBTCUSDT with no bounds: the answer is success with -1 and the table keeps all its rows; with a bound the COUNT raises | the statements reach the table the check found | high, not executed | `Integrity.UnquotedNameMissesCandleTables` | `Integrity.DeleteKlineDataQuoted` |
| backend/migrate.py:513-519 | migrate_table_data raises ConnectionError so that the run stops and is resumed, but migrate_table's `except Exception` (migrate.py:596-598) catches it and returns False | a table whose third batch loses the connection: it is counted as failed and the run goes on to the next table | the ConnectionError reaches migrate_all, which stops the run | medium, not executed | `SqliteMigration.LostCopyOnlyFailsTable` | `SqliteMigration.OutcomeIntended` |
