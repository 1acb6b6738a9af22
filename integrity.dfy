/**
 * The audit of stored candle tables: which exchange symbols have no local
 * table, the per-table rules (duplicate keys, missing days, price sanity),
 * the run over every symbol that tallies them, the bookkeeping of deleting
 * rows, and the planning of downloads that repair what the audit found.
 */
module Integrity {
  import opened Common
  import opened TimeWindow
  import opened KlineStore
  import opened KlinePipeline

  // ---------------------------------------------------------------------
  // Symbols without a local table
  // ---------------------------------------------------------------------

  /** find_missing_symbols: the exchange symbols with no local table, in exchange order. */
  function FindMissingSymbols(exchange: seq<string>, local: seq<string>): (r: seq<string>)
    ensures forall x :: x in r <==> x in exchange && x !in local
    ensures |r| <= |exchange|
    ensures NoDup(exchange) ==> NoDup(r)
  {
    if exchange == [] then []
    else
      var rest := FindMissingSymbols(exchange[1..], local);
      assert forall x :: x in exchange[1..] ==> x in exchange;
      assert forall x :: x in exchange ==> x == exchange[0] || x in exchange[1..];
      if exchange[0] !in local then [exchange[0]] + rest else rest
  }

  // ---------------------------------------------------------------------
  // Rows as the audit reads them
  // ---------------------------------------------------------------------

  /**
   * One stored row: its key text, the calendar day its first ten characters
   * parse to (None when they do not parse), and its prices and volume
   * (None for a NULL, which compares false with everything).
   */
  datatype PriceRow = PriceRow(tradeDate: string, day: Option<int>, open: Option<real>, high: Option<real>,
                               low: Option<real>, close: Option<real>, volume: Option<real>)

  /** A comparison that is false when either side is missing. */
  predicate Lt(a: Option<real>, b: Option<real>)
  {
    a.Some? && b.Some? && a.value < b.value
  }

  // ---------------------------------------------------------------------
  // Duplicates
  // ---------------------------------------------------------------------

  /** Row i shares its key with another row (every copy is marked, not only the extra ones). */
  predicate Duplicated(rows: seq<PriceRow>, i: int)
    requires 0 <= i < |rows|
  {
    exists j :: 0 <= j < |rows| && j != i && rows[j].tradeDate == rows[i].tradeDate
  }

  /** The positions of the rows that share their key with another row. */
  function DuplicatedRows(rows: seq<PriceRow>): set<int>
  {
    set i | 0 <= i < |rows| && Duplicated(rows, i)
  }

  /** The duplicate count of the audit: every row of every repeated key. */
  function DuplicateCount(rows: seq<PriceRow>): nat
  {
    |DuplicatedRows(rows)|
  }

  predicate DistinctDates(rows: seq<PriceRow>)
  {
    forall i, j :: 0 <= i < j < |rows| ==> rows[i].tradeDate != rows[j].tradeDate
  }

  /**
   * No duplicates are reported exactly when the keys are distinct, and a
   * repeated key always counts both of its rows, so the count is never one.
   */
  lemma DuplicateCountFacts(rows: seq<PriceRow>)
    ensures DuplicateCount(rows) == 0 <==> DistinctDates(rows)
    ensures DuplicateCount(rows) != 1
  {
    var d := DuplicatedRows(rows);
    if !DistinctDates(rows) {
      var i, j :| 0 <= i < j < |rows| && rows[i].tradeDate == rows[j].tradeDate;
      assert Duplicated(rows, i) && Duplicated(rows, j);
      assert {i, j} <= d;
      assert d == {i, j} + (d - {i, j});
      assert |d| >= 2;
    } else {
      assert d == {};
    }
  }

  // ---------------------------------------------------------------------
  // Price and volume sanity
  // ---------------------------------------------------------------------

  /** The five price tests: high below low, or open or close outside [low, high]. */
  predicate PriceInvalid(r: PriceRow)
  {
    Lt(r.high, r.low) || Lt(r.high, r.open) || Lt(r.open, r.low) || Lt(r.high, r.close) || Lt(r.close, r.low)
  }

  /** With every price present, a row is price-invalid exactly when open and close are not both within [low, high]. */
  lemma PriceInvalidIff(r: PriceRow)
    requires r.open.Some? && r.high.Some? && r.low.Some? && r.close.Some?
    ensures PriceInvalid(r) <==>
              !(r.low.value <= r.open.value <= r.high.value && r.low.value <= r.close.value <= r.high.value)
  {
  }

  datatype Field = Open | High | Low | Close | Volume

  function FieldOf(r: PriceRow, f: Field): Option<real>
  {
    match f
    case Open => r.open
    case High => r.high
    case Low => r.low
    case Close => r.close
    case Volume => r.volume
  }

  /** One entry of a table's quality list, with the number of rows concerned. */
  datatype QualityIssue = NullValues(field: Field, count: nat) | InvalidPrices(count: nat)
                        | NonPositive(field: Field, count: nat) | NegativeVolume(count: nat)

  /** The kinds of row test the quality rules apply. */
  datatype RowTest = IsNull(field: Field) | BadPrices | AtMostZero(field: Field) | BelowZero

  predicate Fails(r: PriceRow, t: RowTest)
  {
    match t
    case IsNull(f) => FieldOf(r, f).None?
    case BadPrices => PriceInvalid(r)
    case AtMostZero(f) => FieldOf(r, f).Some? && FieldOf(r, f).value <= 0.0
    case BelowZero => r.volume.Some? && r.volume.value < 0.0
  }

  /** The number of rows failing a test. */
  function CountFailing(rows: seq<PriceRow>, t: RowTest): (n: nat)
    ensures n == 0 <==> forall i :: 0 <= i < |rows| ==> !Fails(rows[i], t)
    ensures n <= |rows|
  {
    if rows == [] then 0
    else
      assert forall i :: 1 <= i < |rows| ==> rows[i] == rows[1..][i - 1];
      (if Fails(rows[0], t) then 1 else 0) + CountFailing(rows[1..], t)
  }

  /** The issue a test contributes: none when no row fails it. */
  function IssueFor(rows: seq<PriceRow>, t: RowTest): (r: seq<QualityIssue>)
    ensures |r| <= 1
    ensures r == [] <==> CountFailing(rows, t) == 0
  {
    var n := CountFailing(rows, t);
    if n == 0 then []
    else match t
      case IsNull(f) => [NullValues(f, n)]
      case BadPrices => [InvalidPrices(n)]
      case AtMostZero(f) => [NonPositive(f, n)]
      case BelowZero => [NegativeVolume(n)]
  }

  /** The tests in the order the audit runs them: nulls in five columns, prices, four non-positive prices, volume. */
  const QualityTests: seq<RowTest> := [IsNull(Open), IsNull(High), IsNull(Low), IsNull(Close), IsNull(Volume),
                                       BadPrices,
                                       AtMostZero(Open), AtMostZero(High), AtMostZero(Low), AtMostZero(Close),
                                       BelowZero]

  function IssuesFrom(rows: seq<PriceRow>, tests: seq<RowTest>): (r: seq<QualityIssue>)
    ensures |r| <= |tests|
    ensures r == [] <==> forall k :: 0 <= k < |tests| ==> CountFailing(rows, tests[k]) == 0
  {
    if tests == [] then []
    else
      assert forall k :: 1 <= k < |tests| ==> tests[k] == tests[1..][k - 1];
      IssueFor(rows, tests[0]) + IssuesFrom(rows, tests[1..])
  }

  /** The quality list of a table. */
  function QualityIssues(rows: seq<PriceRow>): seq<QualityIssue>
  {
    IssuesFrom(rows, QualityTests)
  }

  /** A row every quality rule accepts: nothing NULL, prices consistent and positive, volume not negative. */
  predicate CleanRow(r: PriceRow)
  {
    r.open.Some? && r.high.Some? && r.low.Some? && r.close.Some? && r.volume.Some?
    && !PriceInvalid(r)
    && r.open.value > 0.0 && r.high.value > 0.0 && r.low.value > 0.0 && r.close.value > 0.0
    && r.volume.value >= 0.0
  }

  /** A row is clean exactly when it fails none of the quality tests. */
  lemma CleanRowPassesAll(r: PriceRow)
    ensures CleanRow(r) <==> forall k :: 0 <= k < |QualityTests| ==> !Fails(r, QualityTests[k])
  {
    if forall k :: 0 <= k < |QualityTests| ==> !Fails(r, QualityTests[k]) {
      assert !Fails(r, QualityTests[0]) && !Fails(r, QualityTests[1]);
      assert !Fails(r, QualityTests[2]) && !Fails(r, QualityTests[3]);
      assert !Fails(r, QualityTests[4]) && !Fails(r, QualityTests[5]);
      assert !Fails(r, QualityTests[6]) && !Fails(r, QualityTests[7]);
      assert !Fails(r, QualityTests[8]) && !Fails(r, QualityTests[9]);
      assert !Fails(r, QualityTests[10]);
    }
  }

  /** At most eleven issues are listed, and none exactly when every row is clean. */
  lemma QualityIssuesFacts(rows: seq<PriceRow>)
    ensures |QualityIssues(rows)| <= 11
    ensures QualityIssues(rows) == [] <==> forall i :: 0 <= i < |rows| ==> CleanRow(rows[i])
  {
    if QualityIssues(rows) == [] {
      forall i | 0 <= i < |rows|
        ensures CleanRow(rows[i])
      {
        forall k | 0 <= k < |QualityTests|
          ensures !Fails(rows[i], QualityTests[k])
        {
          assert CountFailing(rows, QualityTests[k]) == 0;
        }
        CleanRowPassesAll(rows[i]);
      }
    } else {
      var k :| 0 <= k < |QualityTests| && CountFailing(rows, QualityTests[k]) != 0;
      var i :| 0 <= i < |rows| && Fails(rows[i], QualityTests[k]);
      CleanRowPassesAll(rows[i]);
    }
  }

  // ---------------------------------------------------------------------
  // Missing days
  // ---------------------------------------------------------------------

  /** The days from lo to hi, ascending, that no row covers. */
  function MissingDays(lo: int, hi: int, existing: set<int>): (r: seq<int>)
    ensures forall d :: d in r <==> lo <= d <= hi && d !in existing
    ensures forall i, j :: 0 <= i < j < |r| ==> r[i] < r[j]
    ensures forall i :: 0 <= i < |r| ==> lo <= r[i] <= hi
    decreases hi - lo
  {
    if lo > hi then []
    else
      var rest := MissingDays(lo + 1, hi, existing);
      if lo in existing then rest else [lo] + rest
  }

  /** The days the rows fall on (rows whose key does not parse contribute none). */
  function DaysOf(rows: seq<PriceRow>): set<int>
  {
    set i | 0 <= i < |rows| && rows[i].day.Some? :: rows[i].day.value
  }

  predicate AllParsed(rows: seq<PriceRow>)
  {
    forall i :: 0 <= i < |rows| ==> rows[i].day.Some?
  }

  function MinDay(rows: seq<PriceRow>): (m: int)
    requires |rows| > 0 && AllParsed(rows)
    ensures m in DaysOf(rows)
    ensures forall i :: 0 <= i < |rows| ==> m <= rows[i].day.value
  {
    if |rows| == 1 then rows[0].day.value
    else
      var m := MinDay(rows[1..]);
      assert forall i :: 1 <= i < |rows| ==> rows[i] == rows[1..][i - 1];
      assert m in DaysOf(rows);
      if rows[0].day.value <= m then rows[0].day.value else m
  }

  function MaxDay(rows: seq<PriceRow>): (m: int)
    requires |rows| > 0 && AllParsed(rows)
    ensures m in DaysOf(rows)
    ensures forall i :: 0 <= i < |rows| ==> rows[i].day.value <= m
  {
    if |rows| == 1 then rows[0].day.value
    else
      var m := MaxDay(rows[1..]);
      assert forall i :: 1 <= i < |rows| ==> rows[i] == rows[1..][i - 1];
      assert m in DaysOf(rows);
      if rows[0].day.value >= m then rows[0].day.value else m
  }

  /** Every day a row falls on lies between the first and the last. */
  lemma DaysWithinBounds(rows: seq<PriceRow>)
    requires |rows| > 0 && AllParsed(rows)
    ensures forall x :: x in DaysOf(rows) ==> MinDay(rows) <= x <= MaxDay(rows)
  {
    forall x | x in DaysOf(rows)
      ensures MinDay(rows) <= x <= MaxDay(rows)
    {
      var i :| 0 <= i < |rows| && rows[i].day.Some? && rows[i].day.value == x;
    }
  }

  /** The rows within the optional start and end days. */
  function Window(rows: seq<PriceRow>, startDay: Option<int>, endDay: Option<int>): (r: seq<PriceRow>)
    requires AllParsed(rows)
    ensures AllParsed(r)
    ensures forall x :: x in r <==> x in rows && (startDay.None? || startDay.value <= x.day.value)
                                              && (endDay.None? || x.day.value <= endDay.value)
  {
    if rows == [] then []
    else
      assert forall i :: 1 <= i < |rows| ==> rows[i] == rows[1..][i - 1];
      assert forall x :: x in rows <==> x == rows[0] || x in rows[1..];
      var rest := Window(rows[1..], startDay, endDay);
      var d := rows[0].day.value;
      if (startDay.None? || startDay.value <= d) && (endDay.None? || d <= endDay.value) then [rows[0]] + rest else rest
  }

  /** Only the first ten missing days are kept in a table's report. */
  const ShownMissing: nat := 10

  function Shown(missing: seq<int>): seq<int>
  {
    if |missing| <= ShownMissing then missing else missing[..ShownMissing]
  }

  // ---------------------------------------------------------------------
  // One table's report
  // ---------------------------------------------------------------------

  /**
   * What the audit records for one symbol: an empty (or unreadable) table,
   * a check that raised because a key did not parse, or the checked counts.
   * `missing` holds every missing day; the report shows its first ten.
   */
  datatype Report =
    | EmptyTable
    | Raised(recordCount: nat)
    | Checked(recordCount: nat, firstDay: int, lastDay: int, duplicates: nat, missing: seq<int>,
              quality: seq<QualityIssue>)

  /** The flags of check_data_integrity that switch the three rule families on. */
  datatype Rules = Rules(duplicates: bool, missingDates: bool, quality: bool)

  /**
   * The check of one table: the rows are restricted to the optional window;
   * duplicates are counted on keys, missing days are looked for from the
   * window's start (or the first row) to its end (or the last row) only
   * when more than one row remains, and the quality rules run on the rest.
   */
  function CheckTable(rows: seq<PriceRow>, startDay: Option<int>, endDay: Option<int>, rules: Rules): (r: Report)
    ensures rows == [] <==> r.EmptyTable?
    ensures r.Raised? <==> rows != [] && !AllParsed(rows)
    ensures r.Checked? ==> r.recordCount == |rows| && r.firstDay <= r.lastDay && IsSortedDays(r.missing)
    ensures r.Checked? ==> forall d :: d in r.missing ==> d !in DaysOf(Window(rows, startDay, endDay))
  {
    if rows == [] then EmptyTable
    else if !AllParsed(rows) then Raised(|rows|)
    else
      var kept := Window(rows, startDay, endDay);
      Checked(|rows|, MinDay(rows), MaxDay(rows),
              if rules.duplicates then DuplicateCount(kept) else 0,
              if rules.missingDates then MissingIn(kept, startDay, endDay) else [],
              if rules.quality then QualityIssues(kept) else [])
  }

  predicate IsSortedDays(s: seq<int>)
  {
    forall i, j :: 0 <= i < j < |s| ==> s[i] < s[j]
  }

  /**
   * The missing days of the rows a check keeps: looked for only when more
   * than one row remains, from the given start day (or the first row's) to
   * the given end day (or the last row's).
   */
  function MissingIn(kept: seq<PriceRow>, startDay: Option<int>, endDay: Option<int>): (m: seq<int>)
    requires AllParsed(kept)
    ensures |kept| <= 1 ==> m == []
    ensures IsSortedDays(m)
    ensures forall d :: d in m ==> d !in DaysOf(kept)
    ensures |kept| > 1 && startDay.Some? && endDay.Some? ==>
              forall d :: d in m <==> startDay.value <= d <= endDay.value && d !in DaysOf(kept)
  {
    if |kept| > 1 then
      var lo := if startDay.Some? then startDay.value else MinDay(kept);
      var hi := if endDay.Some? then endDay.value else MaxDay(kept);
      MissingDays(lo, hi, DaysOf(kept))
    else []
  }

  /** The report lists an issue: duplicates, missing days or quality problems. */
  predicate HasIssues(r: Report)
    requires r.Checked?
  {
    r.duplicates > 0 || r.missing != [] || r.quality != []
  }

  /** Without bounds the window is the whole table. */
  lemma {:induction false} WindowAll(rows: seq<PriceRow>)
    requires AllParsed(rows)
    ensures Window(rows, None, None) == rows
  {
    if rows != [] {
      assert forall i :: 1 <= i < |rows| ==> rows[i] == rows[1..][i - 1];
      WindowAll(rows[1..]);
    }
  }

  /** Without bounds every rule runs on the whole table. */
  lemma CheckTableWhole(rows: seq<PriceRow>, rules: Rules)
    requires rows != [] && AllParsed(rows)
    ensures CheckTable(rows, None, None, rules).Checked?
    ensures CheckTable(rows, None, None, rules).duplicates == if rules.duplicates then DuplicateCount(rows) else 0
    ensures CheckTable(rows, None, None, rules).missing == if rules.missingDates then MissingIn(rows, None, None) else []
    ensures CheckTable(rows, None, None, rules).quality == if rules.quality then QualityIssues(rows) else []
  {
    WindowAll(rows);
  }

  /**
   * Without a window, a table whose days run without a gap and whose keys
   * are distinct reports no missing day and no duplicate.
   */
  lemma GaplessTableReportsNoGaps(rows: seq<PriceRow>, rules: Rules)
    requires |rows| > 1 && AllParsed(rows) && DistinctDates(rows)
    requires forall d :: MinDay(rows) <= d <= MaxDay(rows) ==> d in DaysOf(rows)
    ensures CheckTable(rows, None, None, rules).duplicates == 0
    ensures CheckTable(rows, None, None, rules).missing == []
  {
    CheckTableWhole(rows, rules);
    DuplicateCountFacts(rows);
    var m := MissingIn(rows, None, None);
    if m != [] {
      assert m[0] in m;
    }
  }

  /**
   * A weekly series (rows on day d and on day d + 7 only) is reported with
   * the six days between them missing: the expected dates step by one day
   * for intervals the frequency table does not name.
   */
  lemma WeeklySeriesReportsSixGaps(rows: seq<PriceRow>, d: int, rules: Rules)
    requires rules.missingDates && |rows| > 1 && AllParsed(rows)
    requires forall x :: x in DaysOf(rows) <==> x == d || x == d + 7
    ensures forall x :: x in CheckTable(rows, None, None, rules).missing <==> d < x < d + 7
  {
    WeeklyMissing(rows, d);
    CheckTableWhole(rows, rules);
  }

  lemma WeeklyMissing(rows: seq<PriceRow>, d: int)
    requires |rows| > 1 && AllParsed(rows)
    requires forall x :: x in DaysOf(rows) <==> x == d || x == d + 7
    ensures forall x :: x in MissingIn(rows, None, None) <==> d < x < d + 7
  {
    var lo, hi := MinDay(rows), MaxDay(rows);
    assert lo in DaysOf(rows) && hi in DaysOf(rows);
    assert d in DaysOf(rows) && d + 7 in DaysOf(rows);
    DaysWithinBounds(rows);
    assert lo == d && hi == d + 7;
  }

  // ---------------------------------------------------------------------
  // The run over all symbols
  // ---------------------------------------------------------------------

  /** The summary check_data_integrity returns (its `details` are the reports themselves). */
  datatype IntegrityResults = IntegrityResults(total: nat, checked: nat, withIssues: seq<string>, duplicates: nat,
                                               missingDates: nat, qualityIssues: nat, emptyTables: nat)

  /**
   * How one symbol's report enters the results: an empty table counts as
   * empty only (neither checked nor listed); a raised check lists the
   * symbol without counting it checked; a finished check counts it checked,
   * lists it when it found an issue, and adds its counts.
   */
  function Record(acc: IntegrityResults, symbol: string, r: Report): IntegrityResults
  {
    match r
    case EmptyTable => acc.(emptyTables := acc.emptyTables + 1)
    case Raised(_) => acc.(withIssues := acc.withIssues + [symbol])
    case Checked(_, _, _, dups, missing, quality) =>
      acc.(checked := acc.checked + 1,
           withIssues := if HasIssues(r) then acc.withIssues + [symbol] else acc.withIssues,
           duplicates := acc.duplicates + dups,
           missingDates := acc.missingDates + |missing|,
           qualityIssues := acc.qualityIssues + |quality|)
  }

  /** The results after the first |reports| symbols were recorded in order. */
  function Summarize(symbols: seq<string>, reports: seq<Report>): IntegrityResults
    requires |reports| <= |symbols|
  {
    if reports == [] then IntegrityResults(|symbols|, 0, [], 0, 0, 0, 0)
    else
      var n := |reports| - 1;
      Record(Summarize(symbols, reports[..n]), symbols[n], reports[n])
  }

  /** A symbol is listed with issues when its check raised or found something; never for an empty table. */
  predicate Listed(r: Report)
  {
    r.Raised? || (r.Checked? && HasIssues(r))
  }

  /** The number of reports whose check raised. */
  function RaisedCount(reports: seq<Report>): nat
  {
    if reports == [] then 0
    else RaisedCount(reports[..|reports| - 1]) + (if reports[|reports| - 1].Raised? then 1 else 0)
  }

  /** Every symbol is counted once: as checked, as an empty table, or as a check that raised. */
  lemma {:induction false} SummarizeCounts(symbols: seq<string>, reports: seq<Report>)
    requires |reports| <= |symbols|
    ensures Summarize(symbols, reports).total == |symbols|
    ensures Summarize(symbols, reports).checked + Summarize(symbols, reports).emptyTables + RaisedCount(reports)
            == |reports|
  {
    if reports != [] {
      SummarizeCounts(symbols, reports[..|reports| - 1]);
    }
  }

  /** The symbols listed with issues are exactly those whose report is listed. */
  lemma {:induction false} SummarizeListed(symbols: seq<string>, reports: seq<Report>)
    requires |reports| <= |symbols|
    ensures forall x :: x in Summarize(symbols, reports).withIssues <==>
                          exists i :: 0 <= i < |reports| && symbols[i] == x && Listed(reports[i])
  {
    if reports != [] {
      var n := |reports| - 1;
      var pre := reports[..n];
      SummarizeListed(symbols, pre);
      forall x
        ensures x in Summarize(symbols, reports).withIssues <==>
                exists i :: 0 <= i < |reports| && symbols[i] == x && Listed(reports[i])
      {
        if exists i :: 0 <= i < |pre| && symbols[i] == x && Listed(pre[i]) {
          var i :| 0 <= i < |pre| && symbols[i] == x && Listed(pre[i]);
          assert reports[i] == pre[i];
        }
        if exists i :: 0 <= i < |reports| && symbols[i] == x && Listed(reports[i]) {
          var i :| 0 <= i < |reports| && symbols[i] == x && Listed(reports[i]);
          if i < n {
            assert pre[i] == reports[i];
          }
        }
      }
    }
  }

  /** An empty table has an issue recorded but is neither counted as checked nor listed with issues. */
  lemma EmptyTableNotListed(symbols: seq<string>, reports: seq<Report>, symbol: string)
    requires |reports| <= |symbols| && NoDup(symbols)
    requires exists i :: 0 <= i < |reports| && symbols[i] == symbol && reports[i].EmptyTable?
    ensures symbol !in Summarize(symbols, reports).withIssues
  {
    SummarizeListed(symbols, reports);
  }

  /**
   * check_data_integrity over `symbols`: each table (read as empty when it
   * does not exist) is checked and recorded in turn; the reports are the
   * per-symbol details.
   */
  method CheckDataIntegrity(tables: map<string, seq<PriceRow>>, symbols: seq<string>, startDay: Option<int>,
                            endDay: Option<int>, rules: Rules)
    returns (results: IntegrityResults, reports: seq<Report>)
    ensures |reports| == |symbols|
    ensures forall i :: 0 <= i < |symbols| ==>
              reports[i] == CheckTable(if symbols[i] in tables then tables[symbols[i]] else [], startDay, endDay, rules)
    ensures results == Summarize(symbols, reports)
  {
    results := IntegrityResults(|symbols|, 0, [], 0, 0, 0, 0);
    reports := [];
    var i := 0;
    while i < |symbols|
      invariant 0 <= i <= |symbols| && |reports| == i
      invariant forall k :: 0 <= k < i ==>
                  reports[k] == CheckTable(if symbols[k] in tables then tables[symbols[k]] else [], startDay, endDay, rules)
      invariant results == Summarize(symbols, reports)
    {
      var rows := if symbols[i] in tables then tables[symbols[i]] else [];
      var report := CheckTable(rows, startDay, endDay, rules);
      assert (reports + [report])[..i] == reports;
      results := Record(results, symbols[i], report);
      reports := reports + [report];
      i := i + 1;
    }
  }

  // ---------------------------------------------------------------------
  // Deleting rows
  // ---------------------------------------------------------------------

  /** A bound argument: absent, the empty string, text that parses, or text that parses in neither format. */
  datatype TimeArg = NoBound | Blank | Parsed | Malformed

  /** The result of delete_kline_data: whether it succeeded and how many rows went (-1 for the whole table). */
  datatype DeleteResult = DeleteResult(success: bool, deletedCount: int)

  /** The rows a bounded delete leaves: those outside the bounds. */
  function Outside(inRange: TradeDate -> bool): TradeDate -> bool
  {
    k => !inRange(k)
  }

  lemma {:induction false} FilterSplits(cs: seq<Candle>, p: TradeDate -> bool)
    ensures |Filter(cs, p)| + |Filter(cs, Outside(p))| == |cs|
    decreases |cs|
  {
    if cs != [] {
      FilterSplits(cs[1..], p);
    }
  }

  /**
   * delete_kline_data with its existence check on the table `name` and its
   * DROP, COUNT and DELETE statements reaching the table `target`; `inRange`
   * is the condition the given bounds put on a key. A missing `name`, a
   * malformed bound, or bounds that are all blank (an empty condition) fail
   * and delete nothing; no bounds at all drops `target` if it exists;
   * otherwise the COUNT raises (None) when `target` does not exist, and the
   * matching rows of `target` go, the count being the difference of its row
   * counts.
   */
  method DeleteKlineDataAt(db: Database, name: string, target: string, start: TimeArg, end: TimeArg,
                           inRange: TradeDate -> bool)
    returns (result: Option<DeleteResult>)
    requires db.Valid()
    modifies db
    ensures db.Valid()
    ensures name !in old(db.tables) ==> result == Some(DeleteResult(false, 0)) && db.tables == old(db.tables)
    ensures name in old(db.tables) && start == NoBound && end == NoBound ==>
              result == Some(DeleteResult(true, -1)) && db.tables == old(db.tables) - {target}
    ensures name in old(db.tables) && !(start == NoBound && end == NoBound) && target !in old(db.tables) ==>
              result.None? && db.tables == old(db.tables)
    ensures name in old(db.tables) && !(start == NoBound && end == NoBound) && target in old(db.tables) ==>
              if start == Malformed || end == Malformed || (start != Parsed && end != Parsed) then
                result == Some(DeleteResult(false, 0)) && db.tables == old(db.tables)
              else
                result.Some? && result.value.success
                && db.tables == old(db.tables)[target := Filter(old(db.tables)[target], Outside(inRange))]
                && result.value.deletedCount == |Filter(old(db.tables)[target], inRange)|
                && result.value.deletedCount == |old(db.tables)[target]| - |db.tables[target]|
  {
    if name !in db.tables {
      return Some(DeleteResult(false, 0));
    }
    if start == NoBound && end == NoBound {
      db.tables := db.tables - {target};
      return Some(DeleteResult(true, -1));
    }
    if target !in db.tables {
      return None;
    }
    var before := |db.tables[target]|;
    if start == Malformed || end == Malformed {
      return Some(DeleteResult(false, 0));
    }
    if start != Parsed && end != Parsed {
      return Some(DeleteResult(false, 0));
    }
    var rows := db.tables[target];
    var kept := Filter(rows, Outside(inRange));
    FilterFacts(rows, Outside(inRange));
    db.tables := db.tables[target := kept];
    var after := |db.tables[target]|;
    FilterSplits(rows, inRange);
    result := Some(DeleteResult(true, before - after));
  }

  /**
   * delete_kline_data as written: the existence check matches `name`
   * exactly, but the statements splice the name in unquoted, so PostgreSQL
   * folds it to lower case and they reach the table `Lower(name)`, never the
   * mixed-case table the store created (quoted) under `name`.
   */
  method DeleteKlineData(db: Database, name: string, start: TimeArg, end: TimeArg, inRange: TradeDate -> bool)
    returns (result: Option<DeleteResult>)
    requires db.Valid()
    modifies db
    ensures db.Valid()
    ensures name !in old(db.tables) ==> result == Some(DeleteResult(false, 0)) && db.tables == old(db.tables)
    ensures name in old(db.tables) && start == NoBound && end == NoBound ==>
              result == Some(DeleteResult(true, -1)) && db.tables == old(db.tables) - {Lower(name)}
    ensures name in old(db.tables) && !(start == NoBound && end == NoBound) && Lower(name) !in old(db.tables) ==>
              result.None? && db.tables == old(db.tables)
    ensures Lower(name) != name ==> name in old(db.tables) ==> name in db.tables && db.tables[name] == old(db.tables)[name]
  {
    result := DeleteKlineDataAt(db, name, Lower(name), start, end, inRange);
  }

  /**
   * delete_kline_data with the table name quoted, as the store creates it:
   * no bounds drops the table, and bounds delete exactly its in-range rows.
   */
  method DeleteKlineDataQuoted(db: Database, name: string, start: TimeArg, end: TimeArg, inRange: TradeDate -> bool)
    returns (result: DeleteResult)
    requires db.Valid()
    modifies db
    ensures db.Valid()
    ensures name !in old(db.tables) ==> result == DeleteResult(false, 0) && db.tables == old(db.tables)
    ensures name in old(db.tables) && start == NoBound && end == NoBound ==>
              result == DeleteResult(true, -1) && db.tables == old(db.tables) - {name}
    ensures name in old(db.tables) && !(start == NoBound && end == NoBound) ==>
              if start == Malformed || end == Malformed || (start != Parsed && end != Parsed) then
                result == DeleteResult(false, 0) && db.tables == old(db.tables)
              else
                result.success
                && db.tables == old(db.tables)[name := Filter(old(db.tables)[name], Outside(inRange))]
                && result.deletedCount == |Filter(old(db.tables)[name], inRange)|
                && result.deletedCount == |old(db.tables)[name]| - |db.tables[name]|
  {
    var r := DeleteKlineDataAt(db, name, name, start, end, inRange);
    result := r.value;
  }

  /**
   * In a database of candle tables (every name is TableName's, starting with
   * 'K') no name folded to lower case is a table. So, as written, deleting a
   * whole table reports success with count -1 and keeps the table and all
   * its rows, and a bounded delete always raises at its COUNT.
   */
  lemma UnquotedNameMissesCandleTables(tables: map<string, seq<Candle>>, iv: string, symbol: string)
    requires forall n :: n in tables ==> |n| > 0 && n[0] == 'K'
    ensures Lower(TableName(iv, symbol)) !in tables
    ensures tables - {Lower(TableName(iv, symbol))} == tables
  {
    var folded := Lower(TableName(iv, symbol));
    assert folded[0] == 'k';
  }

  // ---------------------------------------------------------------------
  // Repairing what the audit found
  // ---------------------------------------------------------------------

  /** The counts and lists download_missing_data_from_check returns. */
  datatype RepairStats = RepairStats(emptyDownloaded: nat, missingDownloaded: nat, failed: seq<string>,
                                     success: seq<string>)

  /** An empty table is downloaded for the year that ended a day before `now`. */
  function EmptyTableRange(now: int): (int, int)
  {
    var end := now - DaySeconds;
    (end - 365 * DaySeconds, end)
  }

  /**
   * The range the repair downloads for a table with missing days, as
   * written: from the first to the last of the missing days the report
   * shows, which are only the first ten.
   */
  function MissingRangeAsWritten(r: Report): (range: Option<(int, int)>)
    ensures range.Some? <==> r.Checked? && r.missing != []
  {
    if r.Checked? && Shown(r.missing) != [] then
      Some((Shown(r.missing)[0] * DaySeconds, Shown(r.missing)[|Shown(r.missing)| - 1] * DaySeconds))
    else None
  }

  /** The range that covers every missing day: from the first to the last of all of them. */
  function MissingRange(r: Report): (range: Option<(int, int)>)
    ensures range.Some? <==> r.Checked? && r.missing != []
  {
    if r.Checked? && r.missing != [] then
      Some((r.missing[0] * DaySeconds, r.missing[|r.missing| - 1] * DaySeconds))
    else None
  }

  /** Every missing day of the report starts within the corrected range. */
  lemma MissingRangeCovers(r: Report, d: int)
    requires r.Checked? && d in r.missing && IsSortedDays(r.missing)
    ensures MissingRange(r).Some?
    ensures MissingRange(r).value.0 <= d * DaySeconds <= MissingRange(r).value.1
  {
    var m := r.missing;
    var k :| 0 <= k < |m| && m[k] == d;
    assert m[0] <= d <= m[|m| - 1];
  }

  /**
   * With eleven consecutive missing days the range as written stops at the
   * tenth, so the eleventh is never downloaded again, while the corrected
   * range reaches it.
   */
  lemma EleventhMissingDayNotRepaired()
    ensures var r := Checked(13, 0, 12, 0, [1, 2, 3, 4, 5, 6, 7, 8, 9, 10, 11], []);
            MissingRangeAsWritten(r) == Some((DaySeconds, 10 * DaySeconds))
            && 11 * DaySeconds > MissingRangeAsWritten(r).value.1
            && MissingRange(r) == Some((DaySeconds, 11 * DaySeconds))
  {
    var m := [1, 2, 3, 4, 5, 6, 7, 8, 9, 10, 11];
    assert Shown(m) == [1, 2, 3, 4, 5, 6, 7, 8, 9, 10];
  }

  /** Every missing day the report shows, the first ten, starts within the range as written. */
  lemma MissingRangeAsWrittenCovers(r: Report, d: int)
    requires r.Checked? && d in Shown(r.missing) && IsSortedDays(r.missing)
    ensures MissingRangeAsWritten(r).Some?
    ensures MissingRangeAsWritten(r).value.0 <= d * DaySeconds <= MissingRangeAsWritten(r).value.1
  {
    var m := Shown(r.missing);
    var k :| 0 <= k < |m| && m[k] == d;
    assert m[0] == r.missing[0] && m[|m| - 1] == r.missing[|m| - 1];
    assert r.missing[0] <= d <= r.missing[|m| - 1];
  }

  /** Adding a symbol to a list unless it is already there. */
  function AddOnce(xs: seq<string>, x: string): (r: seq<string>)
    ensures NoDup(xs) ==> NoDup(r)
    ensures forall y :: y in r <==> y in xs || y == x
    ensures x !in xs ==> r == xs + [x]
  {
    if x in xs then xs else xs + [x]
  }

  /** A report the repair acts on: an empty table, or a finished check with missing days. */
  predicate NeedsRepair(r: Report)
  {
    r.EmptyTable? || MissingRangeAsWritten(r).Some?
  }

  /** The range the repair downloads for a report it acts on. */
  function RepairRange(r: Report, now: int): (int, int)
    requires NeedsRepair(r)
  {
    if r.EmptyTable? then EmptyTableRange(now) else MissingRangeAsWritten(r).value
  }

  /** The download the repair starts for a detail entry succeeds. */
  predicate Succeeds(entry: (string, Report), now: int, download: (string, int, int) -> bool)
    requires NeedsRepair(entry.1)
  {
    download(entry.0, RepairRange(entry.1, now).0, RepairRange(entry.1, now).1)
  }

  /** Entry k has been acted on: in the first pass when it is an empty table before i, in the second also when it has missing days and lies before i. */
  predicate Done(details: seq<(string, Report)>, secondPass: bool, i: int, k: int)
    requires 0 <= k < |details|
  {
    (details[k].1.EmptyTable? && (secondPass || k < i)) || (secondPass && k < i && MissingRangeAsWritten(details[k].1).Some?)
  }

  /** Every symbol in the lists belongs to an entry acted on. */
  predicate Traced(stats: RepairStats, details: seq<(string, Report)>, secondPass: bool, i: int)
  {
    forall x :: x in stats.success + stats.failed ==>
      exists k :: 0 <= k < |details| && details[k].0 == x && Done(details, secondPass, i, k)
  }

  /** Every entry acted on is in `success` exactly when its download succeeded, and in `failed` otherwise. */
  predicate Decided(stats: RepairStats, details: seq<(string, Report)>, secondPass: bool, i: int, now: int,
                    download: (string, int, int) -> bool)
  {
    forall k :: 0 <= k < |details| && Done(details, secondPass, i, k) ==>
      (details[k].0 in stats.success <==> Succeeds(details[k], now, download))
      && (details[k].0 in stats.failed <==> !Succeeds(details[k], now, download))
  }

  /** The lists hold exactly the symbols acted on, each in `success` exactly when its download succeeded. */
  predicate Recorded(stats: RepairStats, details: seq<(string, Report)>, secondPass: bool, i: int, now: int,
                     download: (string, int, int) -> bool)
  {
    NoDup(stats.success) && NoDup(stats.failed)
    && stats.emptyDownloaded + stats.missingDownloaded == |stats.success|
    && Traced(stats, details, secondPass, i)
    && Decided(stats, details, secondPass, i, now, download)
  }

  /** The first pass over every entry has acted on what the second pass starts from. */
  lemma PassesMeet(stats: RepairStats, details: seq<(string, Report)>, now: int, download: (string, int, int) -> bool)
    requires Recorded(stats, details, false, |details|, now, download)
    ensures Recorded(stats, details, true, 0, now, download)
  {
    assert forall k :: 0 <= k < |details| ==> (Done(details, true, 0, k) <==> Done(details, false, |details|, k));
  }

  /** After the second pass, the entries acted on are the ones needing repair. */
  lemma SecondPassDone(details: seq<(string, Report)>, k: int)
    requires 0 <= k < |details|
    ensures Done(details, true, |details|, k) <==> NeedsRepair(details[k].1)
  {
  }

  /** The number of the first n entries that are empty tables whose download succeeds. */
  function EmptyDownloads(details: seq<(string, Report)>, n: nat, now: int, download: (string, int, int) -> bool): nat
    requires n <= |details|
  {
    if n == 0 then 0
    else EmptyDownloads(details, n - 1, now, download)
         + (if details[n - 1].1.EmptyTable? && Succeeds(details[n - 1], now, download) then 1 else 0)
  }

  /** The number of the first n entries with missing days whose download succeeds. */
  function MissingDownloads(details: seq<(string, Report)>, n: nat, now: int, download: (string, int, int) -> bool): nat
    requires n <= |details|
  {
    if n == 0 then 0
    else MissingDownloads(details, n - 1, now, download)
         + (if MissingRangeAsWritten(details[n - 1].1).Some? && Succeeds(details[n - 1], now, download) then 1 else 0)
  }

  /**
   * download_missing_data_from_check over the per-symbol reports (a mapping,
   * so the symbols are distinct): first every empty table is downloaded for
   * the last year, then every table with missing days over the range of
   * the missing days its report shows (the first ten). `download` says whether download_kline_data succeeds for a
   * symbol and range.
   */
  method DownloadMissingFromCheck(details: seq<(string, Report)>, now: int, download: (string, int, int) -> bool)
    returns (stats: RepairStats)
    requires forall i, j :: 0 <= i < j < |details| ==> details[i].0 != details[j].0
    ensures NoDup(stats.success) && NoDup(stats.failed)
    ensures stats.emptyDownloaded + stats.missingDownloaded == |stats.success|
    ensures stats.emptyDownloaded == EmptyDownloads(details, |details|, now, download)
    ensures stats.missingDownloaded == MissingDownloads(details, |details|, now, download)
    ensures forall x :: x in stats.success + stats.failed ==>
              exists k :: 0 <= k < |details| && details[k].0 == x && NeedsRepair(details[k].1)
    ensures forall k :: 0 <= k < |details| && NeedsRepair(details[k].1) ==>
              (details[k].0 in stats.success <==> Succeeds(details[k], now, download))
              && (details[k].0 in stats.failed <==> !Succeeds(details[k], now, download))
  {
    stats := RepairEmptyTables(details, now, download);
    PassesMeet(stats, details, now, download);
    stats := RepairMissingDays(details, stats, now, download);
    forall k | 0 <= k < |details|
      ensures Done(details, true, |details|, k) <==> NeedsRepair(details[k].1)
    {
      SecondPassDone(details, k);
    }
  }

  /** The first pass of download_missing_data_from_check: every empty table is downloaded for the last year. */
  method RepairEmptyTables(details: seq<(string, Report)>, now: int, download: (string, int, int) -> bool)
    returns (stats: RepairStats)
    requires forall i, j :: 0 <= i < j < |details| ==> details[i].0 != details[j].0
    ensures stats.missingDownloaded == 0
    ensures stats.emptyDownloaded == EmptyDownloads(details, |details|, now, download)
    ensures Recorded(stats, details, false, |details|, now, download)
  {
    stats := RepairStats(0, 0, [], []);
    var i := 0;
    while i < |details|
      invariant 0 <= i <= |details|
      invariant stats.missingDownloaded == 0
      invariant stats.emptyDownloaded == EmptyDownloads(details, i, now, download)
      invariant Recorded(stats, details, false, i, now, download)
    {
      ghost var before := stats;
      var (symbol, report) := details[i];
      if report.EmptyTable? {
        NotYetRecorded(stats, details, false, i, now, download);
        if download(symbol, EmptyTableRange(now).0, EmptyTableRange(now).1) {
          stats := stats.(emptyDownloaded := stats.emptyDownloaded + 1, success := stats.success + [symbol]);
        } else {
          stats := stats.(failed := stats.failed + [symbol]);
        }
      }
      RecordedStep(before, stats, details, false, i, now, download);
      i := i + 1;
    }
  }

  /** The second pass: every table with missing days is downloaded over the range as written. */
  method RepairMissingDays(details: seq<(string, Report)>, stats0: RepairStats, now: int,
                           download: (string, int, int) -> bool)
    returns (stats: RepairStats)
    requires forall i, j :: 0 <= i < j < |details| ==> details[i].0 != details[j].0
    requires stats0.missingDownloaded == 0
    requires Recorded(stats0, details, true, 0, now, download)
    ensures stats.emptyDownloaded == stats0.emptyDownloaded
    ensures stats.missingDownloaded == MissingDownloads(details, |details|, now, download)
    ensures Recorded(stats, details, true, |details|, now, download)
  {
    stats := stats0;
    var i := 0;
    while i < |details|
      invariant 0 <= i <= |details|
      invariant stats.emptyDownloaded == stats0.emptyDownloaded
      invariant stats.missingDownloaded == MissingDownloads(details, i, now, download)
      invariant Recorded(stats, details, true, i, now, download)
    {
      ghost var before := stats;
      var (symbol, report) := details[i];
      var range := MissingRangeAsWritten(report);
      if range.Some? {
        NotYetRecorded(stats, details, true, i, now, download);
        if download(symbol, range.value.0, range.value.1) {
          stats := stats.(missingDownloaded := stats.missingDownloaded + 1, success := AddOnce(stats.success, symbol));
        } else {
          stats := stats.(failed := AddOnce(stats.failed, symbol));
        }
      }
      RecordedStep(before, stats, details, true, i, now, download);
      i := i + 1;
    }
  }

  /** The symbol of an entry not yet acted on is in neither list. */
  lemma NotYetRecorded(stats: RepairStats, details: seq<(string, Report)>, secondPass: bool, i: int, now: int,
                       download: (string, int, int) -> bool)
    requires 0 <= i < |details|
    requires forall a, b :: 0 <= a < b < |details| ==> details[a].0 != details[b].0
    requires Recorded(stats, details, secondPass, i, now, download)
    requires !Done(details, secondPass, i, i)
    ensures details[i].0 !in stats.success + stats.failed
  {
  }

  /** Acting on entry i (or passing over it) keeps the lists recorded. */
  lemma RecordedStep(s0: RepairStats, s1: RepairStats, details: seq<(string, Report)>, secondPass: bool, i: int,
                     now: int, download: (string, int, int) -> bool)
    requires 0 <= i < |details|
    requires forall a, b :: 0 <= a < b < |details| ==> details[a].0 != details[b].0
    requires Recorded(s0, details, secondPass, i, now, download)
    requires Done(details, secondPass, i, i) || !Done(details, secondPass, i + 1, i) ==> s1 == s0
    requires !Done(details, secondPass, i, i) && Done(details, secondPass, i + 1, i) ==>
               details[i].0 !in s0.success + s0.failed
               && if Succeeds(details[i], now, download) then
                    s1.success == s0.success + [details[i].0] && s1.failed == s0.failed
                    && s1.emptyDownloaded + s1.missingDownloaded == s0.emptyDownloaded + s0.missingDownloaded + 1
                  else
                    s1.success == s0.success && s1.failed == s0.failed + [details[i].0]
                    && s1.emptyDownloaded + s1.missingDownloaded == s0.emptyDownloaded + s0.missingDownloaded
    ensures Recorded(s1, details, secondPass, i + 1, now, download)
  {
    TracedStep(s0, s1, details, secondPass, i, now, download);
    DecidedStep(s0, s1, details, secondPass, i, now, download);
  }

  /** The step keeps every listed symbol traced to an entry acted on. */
  lemma TracedStep(s0: RepairStats, s1: RepairStats, details: seq<(string, Report)>, secondPass: bool, i: int,
                   now: int, download: (string, int, int) -> bool)
    requires 0 <= i < |details|
    requires forall a, b :: 0 <= a < b < |details| ==> details[a].0 != details[b].0
    requires Recorded(s0, details, secondPass, i, now, download)
    requires Done(details, secondPass, i, i) || !Done(details, secondPass, i + 1, i) ==> s1 == s0
    requires !Done(details, secondPass, i, i) && Done(details, secondPass, i + 1, i) ==>
               details[i].0 !in s0.success + s0.failed
               && if Succeeds(details[i], now, download) then
                    s1.success == s0.success + [details[i].0] && s1.failed == s0.failed
                    && s1.emptyDownloaded + s1.missingDownloaded == s0.emptyDownloaded + s0.missingDownloaded + 1
                  else
                    s1.success == s0.success && s1.failed == s0.failed + [details[i].0]
                    && s1.emptyDownloaded + s1.missingDownloaded == s0.emptyDownloaded + s0.missingDownloaded
    ensures Traced(s1, details, secondPass, i + 1)
  {
    assert forall k :: 0 <= k < |details| && k != i ==>
             (Done(details, secondPass, i + 1, k) <==> Done(details, secondPass, i, k));
    if Done(details, secondPass, i + 1, i) {
      var x := details[i].0;
      assert forall y :: y in s1.success + s1.failed ==> y in s0.success + s0.failed || y == x;
    }
  }

  /** The step keeps every entry acted on in the list its download outcome names. */
  lemma DecidedStep(s0: RepairStats, s1: RepairStats, details: seq<(string, Report)>, secondPass: bool, i: int,
                    now: int, download: (string, int, int) -> bool)
    requires 0 <= i < |details|
    requires forall a, b :: 0 <= a < b < |details| ==> details[a].0 != details[b].0
    requires Recorded(s0, details, secondPass, i, now, download)
    requires Done(details, secondPass, i, i) || !Done(details, secondPass, i + 1, i) ==> s1 == s0
    requires !Done(details, secondPass, i, i) && Done(details, secondPass, i + 1, i) ==>
               details[i].0 !in s0.success + s0.failed
               && if Succeeds(details[i], now, download) then
                    s1.success == s0.success + [details[i].0] && s1.failed == s0.failed
                    && s1.emptyDownloaded + s1.missingDownloaded == s0.emptyDownloaded + s0.missingDownloaded + 1
                  else
                    s1.success == s0.success && s1.failed == s0.failed + [details[i].0]
                    && s1.emptyDownloaded + s1.missingDownloaded == s0.emptyDownloaded + s0.missingDownloaded
    ensures Decided(s1, details, secondPass, i + 1, now, download)
  {
    assert forall k :: 0 <= k < |details| && k != i ==>
             (Done(details, secondPass, i + 1, k) <==> Done(details, secondPass, i, k));
    if Done(details, secondPass, i + 1, i) {
      var x := details[i].0;
      assert forall k :: 0 <= k < |details| && k != i ==> details[k].0 != x;
    }
  }
}
