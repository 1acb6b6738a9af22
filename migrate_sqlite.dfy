/**
 * Moving the SQLite store into PostgreSQL: which tables a run selects, how
 * the two databases' table lists compare, how a SQLite column type becomes
 * a PostgreSQL one, the resumable batch copy of one table, and the run over
 * all selected tables.
 */
module SqliteMigration {
  import opened Common

  // ---------------------------------------------------------------------
  // Selecting tables
  // ---------------------------------------------------------------------

  /** A filter that starts with 'K' selects the tables it prefixes; any other selects the tables containing it. */
  predicate MatchesFilter(table: string, filter: string)
  {
    if StartsWith(filter, "K") then StartsWith(table, filter) else Contains(table, filter)
  }

  /** The tables a filter selects, in their listed order; an empty filter selects every table. */
  function FilterTables(tables: seq<string>, filter: string): (r: seq<string>)
    ensures forall t :: t in r <==> t in tables && MatchesFilter(t, filter)
    ensures |r| <= |tables|
    ensures NoDup(tables) ==> NoDup(r)
    ensures filter == "" ==> r == tables
  {
    if tables == [] then []
    else
      var rest := FilterTables(tables[1..], filter);
      assert forall t :: t in tables <==> t == tables[0] || t in tables[1..];
      assert filter == "" ==> OccursAt(tables[0], filter, 0);
      if MatchesFilter(tables[0], filter) then [tables[0]] + rest else rest
  }

  // ---------------------------------------------------------------------
  // Comparing the two databases
  // ---------------------------------------------------------------------

  /** What compare_table_counts reports (the listings as sets; the source sorts them). */
  datatype Comparison = Comparison(sqliteCount: nat, pgCount: nat, consistent: bool, onlyInSqlite: set<string>,
                                   onlyInPg: set<string>, common: set<string>)

  /**
   * compare_table_counts: both table lists are filtered the same way; the
   * tables only in SQLite, only in PostgreSQL and in both partition the
   * tables of either side, and the two agree when the counts match and
   * neither side has a table of its own.
   */
  function CompareTableCounts(sqliteTables: seq<string>, pgTables: seq<string>, filter: string): (c: Comparison)
    ensures var s, p := Elements(FilterTables(sqliteTables, filter)), Elements(FilterTables(pgTables, filter));
            c.onlyInSqlite + c.onlyInPg + c.common == s + p
            && c.onlyInSqlite !! c.onlyInPg && c.onlyInSqlite !! c.common && c.onlyInPg !! c.common
            && (forall t :: t in c.common <==> t in s && t in p)
            && (forall t :: t in c.onlyInSqlite <==> t in s && t !in p)
    ensures c.sqliteCount == |FilterTables(sqliteTables, filter)| && c.pgCount == |FilterTables(pgTables, filter)|
  {
    var s := FilterTables(sqliteTables, filter);
    var p := FilterTables(pgTables, filter);
    var ss, ps := Elements(s), Elements(p);
    var onlyS, onlyP := ss - ps, ps - ss;
    Comparison(|s|, |p|, |s| == |p| && onlyS == {} && onlyP == {}, onlyS, onlyP, ss * ps)
  }

  /** With table lists free of repeats, the databases agree exactly when they hold the same selected tables. */
  lemma ConsistentIffSameTables(sqliteTables: seq<string>, pgTables: seq<string>, filter: string)
    requires NoDup(sqliteTables) && NoDup(pgTables)
    ensures CompareTableCounts(sqliteTables, pgTables, filter).consistent <==>
              Elements(FilterTables(sqliteTables, filter)) == Elements(FilterTables(pgTables, filter))
  {
    var s := FilterTables(sqliteTables, filter);
    var p := FilterTables(pgTables, filter);
    NoDupCard(s);
    NoDupCard(p);
    if Elements(s) == Elements(p) {
      assert Elements(s) - Elements(p) == {} && Elements(p) - Elements(s) == {};
    }
  }

  // ---------------------------------------------------------------------
  // Column types
  // ---------------------------------------------------------------------

  /** The ordered substring table: the first listed SQLite name inside the type decides the PostgreSQL type. */
  const TypeMapping: seq<(string, string)> :=
    [("INTEGER", "BIGINT"), ("REAL", "DOUBLE PRECISION"), ("TEXT", "TEXT"), ("BLOB", "BYTEA"),
     ("NUMERIC", "NUMERIC"), ("BOOLEAN", "BOOLEAN"), ("DATE", "DATE"), ("DATETIME", "TIMESTAMP"),
     ("TIMESTAMP", "TIMESTAMP")]

  /** The position of the first name in `mapping` that occurs in `upper`. */
  function FirstMatchAt(upper: string, mapping: seq<(string, string)>): (r: Option<nat>)
    ensures r.None? <==> forall i :: 0 <= i < |mapping| ==> !Contains(upper, mapping[i].0)
    ensures r.Some? ==> r.value < |mapping| && Contains(upper, mapping[r.value].0)
                        && forall j :: 0 <= j < r.value ==> !Contains(upper, mapping[j].0)
  {
    if mapping == [] then None
    else if Contains(upper, mapping[0].0) then Some(0)
    else
      assert forall i :: 1 <= i < |mapping| ==> mapping[i] == mapping[1..][i - 1];
      match FirstMatchAt(upper, mapping[1..])
      case None => None
      case Some(k) => Some(k + 1)
  }

  /** The first name found decides: no earlier name occurs. */
  lemma FirstMatchIs(upper: string, mapping: seq<(string, string)>, k: nat)
    requires k < |mapping| && Contains(upper, mapping[k].0)
    requires forall j :: 0 <= j < k ==> !Contains(upper, mapping[j].0)
    ensures FirstMatchAt(upper, mapping) == Some(k)
  {
  }

  /** The entry of the first name in `mapping` that occurs in `upper`. */
  function FirstMatch(upper: string, mapping: seq<(string, string)>): Option<string>
  {
    match FirstMatchAt(upper, mapping)
    case None => None
    case Some(i) => Some(mapping[i].1)
  }

  /** The text before the first `c` (all of `s` when `c` does not occur). */
  function Before(s: string, c: char): (r: string)
    ensures |r| <= |s| && r == s[..|r|]
    ensures c !in r
    ensures c in s ==> |r| < |s| && s[|r|] == c
  {
    if s == [] || s[0] == c then [] else [s[0]] + Before(s[1..], c)
  }

  /** The text after the first `c` (empty when `c` does not occur). */
  function After(s: string, c: char): string
  {
    var b := Before(s, c);
    if |b| < |s| then s[|b| + 1..] else []
  }

  predicate IsSpace(c: char)
  {
    c == ' ' || c == '\t' || c == '\n' || c == '\r'
  }

  /** Python's `str.strip()` on ASCII whitespace. */
  function Strip(s: string): (r: string)
    ensures |r| <= |s|
    ensures r != [] ==> !IsSpace(r[0]) && !IsSpace(r[|r| - 1])
    decreases |s|
  {
    if s != [] && IsSpace(s[0]) then Strip(s[1..])
    else if s != [] && IsSpace(s[|s| - 1]) then Strip(s[..|s| - 1])
    else s
  }

  /** The type a length-carrying type maps to: VARCHAR(n) or CHAR(n) become VARCHAR(n), DECIMAL(n) becomes NUMERIC(n). */
  function SizedType(sqliteType: string): (r: Option<string>)
  {
    if '(' in sqliteType then
      var base := Strip(Before(Upper(sqliteType), '('));
      var length := Before(After(sqliteType, '('), ')');
      if base == "VARCHAR" || base == "CHAR" then Some("VARCHAR(" + length + ")")
      else if base == "DECIMAL" then Some("NUMERIC(" + length + ")")
      else None
    else None
  }

  /**
   * sqlite_type_to_postgresql as written: a sized VARCHAR, CHAR or DECIMAL
   * keeps its length, otherwise the first name of the table found in the
   * upper-cased type decides, and TEXT is the fallback.
   */
  function SqliteToPostgresAsWritten(sqliteType: string): (r: string)
    ensures SizedType(sqliteType).Some? ==> r == SizedType(sqliteType).value
    ensures SizedType(sqliteType).None? && FirstMatch(Upper(sqliteType), TypeMapping).None? ==> r == "TEXT"
  {
    match SizedType(sqliteType)
    case Some(t) => t
    case None =>
      match FirstMatch(Upper(sqliteType), TypeMapping)
      case Some(t) => t
      case None => "TEXT"
  }

  /** The table with DATETIME looked up before DATE, so no name is shadowed by one listed before it. */
  const FixedTypeMapping: seq<(string, string)> :=
    [("INTEGER", "BIGINT"), ("REAL", "DOUBLE PRECISION"), ("TEXT", "TEXT"), ("BLOB", "BYTEA"),
     ("NUMERIC", "NUMERIC"), ("BOOLEAN", "BOOLEAN"), ("DATETIME", "TIMESTAMP"), ("DATE", "DATE"),
     ("TIMESTAMP", "TIMESTAMP")]

  /** The type conversion with the corrected lookup order. */
  function SqliteToPostgres(sqliteType: string): (r: string)
    ensures SizedType(sqliteType).Some? ==> r == SizedType(sqliteType).value
    ensures SizedType(sqliteType).None? && FirstMatch(Upper(sqliteType), FixedTypeMapping).None? ==> r == "TEXT"
  {
    match SizedType(sqliteType)
    case Some(t) => t
    case None =>
      match FirstMatch(Upper(sqliteType), FixedTypeMapping)
      case Some(t) => t
      case None => "TEXT"
  }

  /** DATETIME contains none of INTEGER, REAL, TEXT, BLOB, NUMERIC and BOOLEAN, the first six names of both tables. */
  lemma DatetimeSkipsFirstSix(mapping: seq<(string, string)>)
    requires |mapping| > 6
    requires mapping[0].0 == "INTEGER" && mapping[1].0 == "REAL" && mapping[2].0 == "TEXT"
    requires mapping[3].0 == "BLOB" && mapping[4].0 == "NUMERIC" && mapping[5].0 == "BOOLEAN"
    ensures forall i :: 0 <= i < 6 ==> !Contains("DATETIME", mapping[i].0)
  {
    AbsentChar("DATETIME", "INTEGER", 'G');
    AbsentChar("DATETIME", "REAL", 'R');
    AbsentChar("DATETIME", "TEXT", 'X');
    AbsentChar("DATETIME", "BLOB", 'B');
    AbsentChar("DATETIME", "NUMERIC", 'N');
    AbsentChar("DATETIME", "BOOLEAN", 'B');
  }

  /** DATETIME carries no length and is its own upper-case form. */
  lemma DatetimeIsPlain()
    ensures SizedType("DATETIME").None? && Upper("DATETIME") == "DATETIME"
  {
    assert '(' !in "DATETIME";
  }

  /** As written, a DATETIME column becomes a DATE column: DATE is found first and the time of day is lost. */
  lemma DatetimeBecomesDate()
    ensures SqliteToPostgresAsWritten("DATETIME") == "DATE"
  {
    DatetimeIsPlain();
    DatetimeSkipsFirstSix(TypeMapping);
    ContainsAt("DATETIME", "DATE", 0);
    FirstMatchIs("DATETIME", TypeMapping, 6);
  }

  /** With the corrected order a DATETIME column becomes a TIMESTAMP column. */
  lemma DatetimeBecomesTimestamp()
    ensures SqliteToPostgres("DATETIME") == "TIMESTAMP"
  {
    DatetimeIsPlain();
    DatetimeSkipsFirstSix(FixedTypeMapping);
    ContainsAt("DATETIME", "DATETIME", 0);
    FirstMatchIs("DATETIME", FixedTypeMapping, 6);
  }

  /**
   * Swapping two neighbouring entries changes nothing for a type that
   * does not contain the second of them.
   */
  lemma {:induction false} SwapAgrees(upper: string, a: seq<(string, string)>, b: seq<(string, string)>, k: nat)
    requires |a| == |b| && k + 1 < |a|
    requires a[k] == b[k + 1] && a[k + 1] == b[k]
    requires forall i :: 0 <= i < |a| && i != k && i != k + 1 ==> a[i] == b[i]
    requires !Contains(upper, b[k].0)
    ensures FirstMatch(upper, a) == FirstMatch(upper, b)
    decreases k
  {
    if k == 0 {
      assert a[2..] == b[2..];
      if !Contains(upper, a[0].0) {
        assert a[1..][1..] == a[2..] && b[1..][1..] == b[2..];
      }
    } else {
      assert a[0] == b[0];
      if !Contains(upper, a[0].0) {
        SwapAgrees(upper, a[1..], b[1..], k - 1);
      }
    }
  }

  /** The correction changes only types that mention DATETIME. */
  lemma CorrectionOnlyTouchesDatetime(sqliteType: string)
    requires !Contains(Upper(sqliteType), "DATETIME")
    ensures SqliteToPostgres(sqliteType) == SqliteToPostgresAsWritten(sqliteType)
  {
    SwapAgrees(Upper(sqliteType), TypeMapping, FixedTypeMapping, 6);
  }

  // ---------------------------------------------------------------------
  // Copying one table
  // ---------------------------------------------------------------------

  /** A row, identified by its key column. */
  datatype Row = Row(key: string, cells: seq<string>)

  /** The PostgreSQL side: its tables by name. */
  class PgDatabase {
    var tables: map<string, seq<Row>>

    constructor(initial: map<string, seq<Row>>)
      ensures tables == initial
    {
      tables := initial;
    }
  }

  /** The rows a table holds; a missing table reads as none. */
  function Stored(tables: map<string, seq<Row>>, name: string): seq<Row>
  {
    if name in tables then tables[name] else []
  }

  /** How inserting one batch ends: committed, refused on a duplicate key, lost connection, or another error. */
  datatype BatchOutcome = Inserted | DuplicateKey | ConnectionLost | OtherError

  datatype CopyEnd = Completed | Disconnected | Errored

  /** The rows a copy appends and how it ends. */
  datatype CopyRun = CopyRun(added: seq<Row>, end: CopyEnd)

  /** The batch read at `offset`: LIMIT size OFFSET offset. */
  function BatchAt(source: seq<Row>, offset: nat, size: nat): seq<Row>
    requires offset <= |source|
  {
    if offset + size <= |source| then source[offset..offset + size] else source[offset..]
  }

  /**
   * The copy from `offset` on: each batch is inserted or, on a duplicate
   * key, skipped whole; either way the offset moves on by the batch size.
   * A lost connection or another error ends the copy.
   */
  function CopyFrom(source: seq<Row>, offset: nat, batchSize: nat, insert: nat -> BatchOutcome): (r: CopyRun)
    requires batchSize > 0
    ensures offset <= |source| ==> |r.added| <= |source| - offset
    decreases |source| - offset
  {
    if offset >= |source| then CopyRun([], Completed)
    else
      match insert(offset)
      case Inserted =>
        var rest := CopyFrom(source, offset + batchSize, batchSize, insert);
        CopyRun(BatchAt(source, offset, batchSize) + rest.added, rest.end)
      case DuplicateKey => CopyFrom(source, offset + batchSize, batchSize, insert)
      case ConnectionLost => CopyRun([], Disconnected)
      case OtherError => CopyRun([], Errored)
  }

  /** When every batch is inserted, the copy appends exactly the rows from `offset` on. */
  lemma {:induction false} CopyAllInserted(source: seq<Row>, offset: nat, batchSize: nat, insert: nat -> BatchOutcome)
    requires batchSize > 0 && offset <= |source|
    requires forall o :: insert(o) == Inserted
    ensures CopyFrom(source, offset, batchSize, insert) == CopyRun(source[offset..], Completed)
    decreases |source| - offset
  {
    if offset < |source| {
      if offset + batchSize <= |source| {
        CopyAllInserted(source, offset + batchSize, batchSize, insert);
        assert source[offset..] == source[offset..offset + batchSize] + source[offset + batchSize..];
      }
    }
  }

  /**
   * A batch refused on a duplicate key is never retried: when only the
   * first batch is refused, the copy completes without its rows.
   */
  lemma SkippedBatchIsLost(source: seq<Row>, offset: nat, batchSize: nat, insert: nat -> BatchOutcome)
    requires batchSize > 0 && offset + batchSize <= |source|
    requires insert(offset) == DuplicateKey
    requires forall o :: o != offset ==> insert(o) == Inserted
    ensures CopyFrom(source, offset, batchSize, insert) == CopyRun(source[offset + batchSize..], Completed)
  {
    CopyTailInserted(source, offset + batchSize, batchSize, insert, offset);
  }

  lemma {:induction false} CopyTailInserted(source: seq<Row>, offset: nat, batchSize: nat, insert: nat -> BatchOutcome, skipped: nat)
    requires batchSize > 0 && offset <= |source| && skipped < offset
    requires forall o :: o != skipped ==> insert(o) == Inserted
    ensures CopyFrom(source, offset, batchSize, insert) == CopyRun(source[offset..], Completed)
    decreases |source| - offset
  {
    if offset < |source| {
      if offset + batchSize <= |source| {
        CopyTailInserted(source, offset + batchSize, batchSize, insert, skipped);
        assert source[offset..] == source[offset..offset + batchSize] + source[offset + batchSize..];
      }
    }
  }

  /** What migrate_table_data ends with: the number of rows the target then holds by its count, or an exception. */
  datatype DataResult = Rows(count: nat) | ConnectionFailed | Failed

  function ResultOf(run: CopyRun, start: nat): DataResult
  {
    match run.end
    case Completed => Rows(start + |run.added|)
    case Disconnected => ConnectionFailed
    case Errored => Failed
  }

  /** How counting the rows already in the target ends: counted, failed for another reason (read as none), or lost the connection. */
  datatype Probe = Counted | Unreadable | ProbeLost

  /** The rows the copy resumes after. */
  function AlreadyMigrated(rows: seq<Row>, probe: Probe): nat
  {
    if probe == Counted then |rows| else 0
  }

  /** After the rows `added`, the copy from `offset` on completes the run `whole`. */
  predicate Ahead(source: seq<Row>, offset: nat, batchSize: nat, insert: nat -> BatchOutcome, added: seq<Row>, whole: CopyRun)
    requires batchSize > 0
  {
    var rest := CopyFrom(source, offset, batchSize, insert);
    added + rest.added == whole.added && rest.end == whole.end
  }

  /** An inserted batch joins the rows added; a duplicate batch is passed over. */
  lemma CopyAdvance(source: seq<Row>, offset: nat, batchSize: nat, insert: nat -> BatchOutcome, added: seq<Row>, whole: CopyRun)
    requires batchSize > 0 && offset < |source|
    requires insert(offset) == Inserted || insert(offset) == DuplicateKey
    requires Ahead(source, offset, batchSize, insert, added, whole)
    ensures insert(offset) == Inserted ==>
              Ahead(source, offset + batchSize, batchSize, insert, added + BatchAt(source, offset, batchSize), whole)
    ensures insert(offset) == DuplicateKey ==> Ahead(source, offset + batchSize, batchSize, insert, added, whole)
  {
    if insert(offset) == Inserted {
      var batch := BatchAt(source, offset, batchSize);
      var rest := CopyFrom(source, offset + batchSize, batchSize, insert);
      assert (added + batch) + rest.added == added + (batch + rest.added);
    }
  }

  /** Where the copy stops, the rows added are the whole run's, ending as the stop says. */
  lemma CopyStops(source: seq<Row>, offset: nat, batchSize: nat, insert: nat -> BatchOutcome, added: seq<Row>, whole: CopyRun)
    requires batchSize > 0
    requires offset >= |source| || insert(offset) == ConnectionLost || insert(offset) == OtherError
    requires Ahead(source, offset, batchSize, insert, added, whole)
    ensures added == whole.added
    ensures offset >= |source| ==> whole.end == Completed
    ensures offset < |source| && insert(offset) == ConnectionLost ==> whole.end == Disconnected
    ensures offset < |source| && insert(offset) == OtherError ==> whole.end == Errored
  {
    assert added + [] == added;
  }

  /**
   * migrate_table_data on a table migrate_table has created: an empty
   * source copies nothing; otherwise the rows already in the target are
   * counted (a lost connection raises); a target holding at least as many
   * rows is left alone; otherwise the copy resumes at that count.
   */
  method MigrateTableData(db: PgDatabase, name: string, source: seq<Row>, batchSize: nat, probe: Probe,
                          insert: nat -> BatchOutcome)
    returns (r: DataResult)
    requires batchSize > 0 && name in db.tables
    modifies db
    ensures source == [] ==> r == Rows(0) && db.tables == old(db.tables)
    ensures source != [] && probe == ProbeLost ==> r == ConnectionFailed && db.tables == old(db.tables)
    ensures source != [] && probe != ProbeLost && AlreadyMigrated(old(db.tables)[name], probe) >= |source| ==>
              r == Rows(AlreadyMigrated(old(db.tables)[name], probe)) && db.tables == old(db.tables)
    ensures source != [] && probe != ProbeLost && AlreadyMigrated(old(db.tables)[name], probe) < |source| ==>
              var start := AlreadyMigrated(old(db.tables)[name], probe);
              var run := CopyFrom(source, start, batchSize, insert);
              db.tables == old(db.tables)[name := old(db.tables)[name] + run.added]
              && r == ResultOf(run, start)
  {
    if |source| == 0 {
      return Rows(0);
    }
    if probe == ProbeLost {
      return ConnectionFailed;
    }
    var already := AlreadyMigrated(db.tables[name], probe);
    if already >= |source| {
      return Rows(already);
    }
    ghost var before := db.tables[name];
    ghost var whole := CopyFrom(source, already, batchSize, insert);
    var migrated := already;
    var offset := already;
    ghost var added: seq<Row> := [];
    assert before + added == before;
    assert db.tables == old(db.tables)[name := before];
    while offset < |source|
      invariant db.tables == old(db.tables)[name := before + added]
      invariant migrated == already + |added|
      invariant Ahead(source, offset, batchSize, insert, added, whole)
      decreases |source| - offset
    {
      var outcome := insert(offset);
      if outcome == ConnectionLost || outcome == OtherError {
        CopyStops(source, offset, batchSize, insert, added, whole);
        return if outcome == ConnectionLost then ConnectionFailed else Failed;
      }
      CopyAdvance(source, offset, batchSize, insert, added, whole);
      if outcome == Inserted {
        var batch := BatchAt(source, offset, batchSize);
        UpdateTwice(old(db.tables), name, before + added, before + (added + batch));
        added := StoreBatch(db, name, batch, before, added);
        migrated := migrated + |batch|;
      }
      offset := offset + batchSize;
    }
    CopyStops(source, offset, batchSize, insert, added, whole);
    return Rows(migrated);
  }

  /** Appends one inserted batch to the target table; the rows added so far grow by it. */
  method StoreBatch(db: PgDatabase, name: string, batch: seq<Row>, ghost before: seq<Row>, ghost added: seq<Row>)
    returns (ghost added': seq<Row>)
    requires name in db.tables && db.tables[name] == before + added
    modifies db
    ensures added' == added + batch
    ensures db.tables == old(db.tables)[name := before + added']
  {
    db.tables := db.tables[name := db.tables[name] + batch];
    AppendAssoc(before, added, batch);
    added' := added + batch;
  }

  /**
   * Resuming a table whose target holds the first k source rows, with every
   * batch inserted, leaves the target equal to the source.
   */
  lemma ResumeCompletesTable(source: seq<Row>, k: nat, batchSize: nat, insert: nat -> BatchOutcome)
    requires batchSize > 0 && k < |source|
    requires forall o :: insert(o) == Inserted
    ensures source[..k] + CopyFrom(source, k, batchSize, insert).added == source
    ensures ResultOf(CopyFrom(source, k, batchSize, insert), k) == Rows(|source|)
  {
    CopyAllInserted(source, k, batchSize, insert);
    assert source[..k] + source[k..] == source;
  }

  // ---------------------------------------------------------------------
  // The run over all tables
  // ---------------------------------------------------------------------

  /** The given names that exist in SQLite, in the given order. */
  function ExistingOnly(names: seq<string>, all: seq<string>): (r: seq<string>)
    ensures forall t :: t in r <==> t in names && t in all
    ensures |r| <= |names|
  {
    if names == [] then []
    else
      assert forall t :: t in names <==> t == names[0] || t in names[1..];
      (if names[0] in all then [names[0]] else []) + ExistingOnly(names[1..], all)
  }

  /**
   * The tables migrate_all works on: when names are given, those of them
   * that exist in SQLite (the filter is then ignored); otherwise the tables
   * the filter selects.
   */
  function SelectTables(all: seq<string>, names: seq<string>, filter: string): (r: seq<string>)
    ensures names != [] ==> forall t :: t in r <==> t in names && t in all
    ensures names == [] ==> forall t :: t in r <==> t in all && MatchesFilter(t, filter)
    ensures names == [] && filter == "" ==> r == all
  {
    if names != [] then ExistingOnly(names, all) else FilterTables(all, filter)
  }

  /**
   * How migrate_all's handling of a table ends: migrated and its row count
   * read; migrated, but reading its schema raised an error that is not a
   * connection error (the success is counted, and the handler counts a
   * failure as well); not migrated (migrate_table returned False); or a
   * ConnectionError that escapes and stops the run.
   */
  datatype TableOutcome = Migrated | MigratedUnread | NotMigrated | ConnectionStop

  /**
   * How migrate_table's skip-existing check ends: the migration goes ahead
   * (the check is off, the table is absent or partly migrated, or the check
   * failed with an error that does not read as a connection error); the
   * target already holds every source row; or an error that reads as a
   * connection error, re-raised as ConnectionError.
   */
  datatype ExistingCheck = GoAhead | AlreadyComplete | CheckLost

  /** How migrate_all's read of a migrated table's schema ends: read, a connection-worded error, or another error. */
  datatype SchemaRead = SchemaOk | SchemaLost | SchemaFailed

  /**
   * What migrate_table returns (None: it raises). Only its skip-existing
   * check raises: the rest runs inside a try whose `except Exception`
   * catches everything else, the ConnectionError migrate_table_data raises
   * included, and returns False. `prepared` says that the schema read and
   * create_postgresql_table succeeded.
   */
  function MigrateTableResult(check: ExistingCheck, prepared: bool, data: DataResult): (r: Option<bool>)
    ensures r.None? <==> check == CheckLost
    ensures r == Some(true) <==> check == AlreadyComplete || (check == GoAhead && prepared && data.Rows?)
  {
    match check
    case CheckLost => None
    case AlreadyComplete => Some(true)
    case GoAhead => Some(prepared && data.Rows?)
  }

  /**
   * The outcome migrate_all records for a table from migrate_table's steps
   * and the schema read that follows a success: the run stops exactly on a
   * connection error raised by the skip-existing check or by that schema
   * read; a copy that lost its connection only fails the table.
   */
  function OutcomeOf(check: ExistingCheck, prepared: bool, data: DataResult, schema: SchemaRead): (o: TableOutcome)
    ensures o == ConnectionStop <==> check == CheckLost || (MigrateTableResult(check, prepared, data) == Some(true) && schema == SchemaLost)
    ensures o == NotMigrated <==> MigrateTableResult(check, prepared, data) == Some(false)
    ensures o == Migrated <==> MigrateTableResult(check, prepared, data) == Some(true) && schema == SchemaOk
    ensures check == GoAhead && data == ConnectionFailed ==> o == NotMigrated
  {
    match MigrateTableResult(check, prepared, data)
    case None => ConnectionStop
    case Some(false) => NotMigrated
    case Some(true) =>
      match schema
      case SchemaOk => Migrated
      case SchemaLost => ConnectionStop
      case SchemaFailed => MigratedUnread
  }

  /**
   * As written, a table whose copy loses its connection is counted as a
   * failure and the run goes on, although migrate_table_data raises
   * ConnectionError so that the run stops and is resumed later.
   */
  lemma LostCopyOnlyFailsTable(prepared: bool, schema: SchemaRead)
    ensures OutcomeOf(GoAhead, prepared, ConnectionFailed, schema) == NotMigrated
    ensures OutcomeIntended(GoAhead, true, ConnectionFailed, schema) == ConnectionStop
  {
  }

  /** The outcome with the copy's ConnectionError reaching migrate_all, which then stops. */
  function OutcomeIntended(check: ExistingCheck, prepared: bool, data: DataResult, schema: SchemaRead): (o: TableOutcome)
    ensures o == ConnectionStop <==> check == CheckLost || (check == GoAhead && prepared && data == ConnectionFailed)
                                     || (MigrateTableResult(check, prepared, data) == Some(true) && schema == SchemaLost)
    ensures !(check == GoAhead && prepared && data == ConnectionFailed) ==> o == OutcomeOf(check, prepared, data, schema)
  {
    if check == GoAhead && prepared && data == ConnectionFailed then ConnectionStop
    else OutcomeOf(check, prepared, data, schema)
  }

  /** The per-table outcomes of a run from each table's steps. */
  function Outcomes(check: string -> ExistingCheck, prepared: string -> bool, data: string -> DataResult,
                    schema: string -> SchemaRead): string -> TableOutcome
  {
    t => OutcomeOf(check(t), prepared(t), data(t), schema(t))
  }

  datatype RunStats = RunStats(total: nat, success: nat, fail: nat, totalRows: nat)

  /** How migrate_all ends: with its statistics, or by raising at the table whose ConnectionError escaped. */
  datatype RunEnd = Finished(stats: RunStats) | StoppedAt(table: string, stats: RunStats)

  /** The counters after the tables were handled in order: a migrated table adds its source row count. */
  function Tally(tables: seq<string>, total: nat, outcome: string -> TableOutcome, rowCount: string -> nat): RunStats
  {
    if tables == [] then RunStats(total, 0, 0, 0)
    else
      var n := |tables| - 1;
      var s := Tally(tables[..n], total, outcome, rowCount);
      match outcome(tables[n])
      case Migrated => s.(success := s.success + 1, totalRows := s.totalRows + rowCount(tables[n]))
      case MigratedUnread => s.(success := s.success + 1, fail := s.fail + 1)
      case NotMigrated => s.(fail := s.fail + 1)
      case ConnectionStop => s
  }

  /** The number of tables migrated whose schema could not be read afterwards. */
  function UnreadCount(tables: seq<string>, outcome: string -> TableOutcome): nat
  {
    if tables == [] then 0
    else UnreadCount(tables[..|tables| - 1], outcome) + (if outcome(tables[|tables| - 1]) == MigratedUnread then 1 else 0)
  }

  /** A prefix holds no more such tables than the whole list. */
  lemma {:induction false} UnreadPrefix(tables: seq<string>, k: nat, outcome: string -> TableOutcome)
    requires k <= |tables|
    ensures UnreadCount(tables[..k], outcome) <= UnreadCount(tables, outcome)
    decreases |tables|
  {
    if k < |tables| {
      var n := |tables| - 1;
      assert tables[..n][..k] == tables[..k];
      UnreadPrefix(tables[..n], k, outcome);
    } else {
      assert tables[..k] == tables;
    }
  }

  /**
   * Without an escaping ConnectionError every table is counted once, as a
   * success or as a failure, except a table whose schema read failed after
   * it was migrated, which is counted as both.
   */
  lemma {:induction false} TallyBalances(tables: seq<string>, total: nat, outcome: string -> TableOutcome,
                                         rowCount: string -> nat)
    requires forall i :: 0 <= i < |tables| ==> outcome(tables[i]) != ConnectionStop
    ensures Tally(tables, total, outcome, rowCount).total == total
    ensures Tally(tables, total, outcome, rowCount).success + Tally(tables, total, outcome, rowCount).fail
            == |tables| + UnreadCount(tables, outcome)
  {
    if tables != [] {
      var n := |tables| - 1;
      assert forall i :: 0 <= i < n ==> tables[..n][i] == tables[i];
      TallyBalances(tables[..n], total, outcome, rowCount);
    }
  }

  /** A single table migrated but with an unreadable schema is counted as a success and as a failure. */
  lemma UnreadTableCountedTwice(t: string, outcome: string -> TableOutcome, rowCount: string -> nat)
    requires outcome(t) == MigratedUnread
    ensures Tally([t], 1, outcome, rowCount) == RunStats(1, 1, 1, 0)
  {
    assert [t][..0] == [];
  }

  /** The position of the first table whose ConnectionError escapes. */
  function FirstLost(tables: seq<string>, outcome: string -> TableOutcome): (r: Option<nat>)
    ensures r.None? <==> forall i :: 0 <= i < |tables| ==> outcome(tables[i]) != ConnectionStop
    ensures r.Some? ==> r.value < |tables| && outcome(tables[r.value]) == ConnectionStop
                        && forall j :: 0 <= j < r.value ==> outcome(tables[j]) != ConnectionStop
  {
    if tables == [] then None
    else if outcome(tables[0]) == ConnectionStop then Some(0)
    else
      assert forall i :: 1 <= i < |tables| ==> tables[i] == tables[1..][i - 1];
      match FirstLost(tables[1..], outcome)
      case None => None
      case Some(k) => Some(k + 1)
  }

  /** Handling one more table that kept its connection moves the counters by its outcome. */
  lemma TallyNext(tables: seq<string>, i: nat, total: nat, outcome: string -> TableOutcome, rowCount: string -> nat)
    requires i < |tables| && outcome(tables[i]) != ConnectionStop
    ensures var s := Tally(tables[..i], total, outcome, rowCount);
            Tally(tables[..i + 1], total, outcome, rowCount)
            == match outcome(tables[i])
               case Migrated => s.(success := s.success + 1, totalRows := s.totalRows + rowCount(tables[i]))
               case MigratedUnread => s.(success := s.success + 1, fail := s.fail + 1)
               case NotMigrated => s.(fail := s.fail + 1)
               case ConnectionStop => s
  {
    assert tables[..i + 1][..i] == tables[..i];
  }

  /** The end of a run over `tables`: stopped at the first escaping ConnectionError, or finished with every table counted. */
  function RunOf(tables: seq<string>, outcome: string -> TableOutcome, rowCount: string -> nat): RunEnd
  {
    match FirstLost(tables, outcome)
    case None => Finished(Tally(tables, |tables|, outcome, rowCount))
    case Some(k) => StoppedAt(tables[k], Tally(tables[..k], |tables|, outcome, rowCount))
  }

  /** An escaping ConnectionError with none before it is the first. */
  lemma FirstLostIs(tables: seq<string>, outcome: string -> TableOutcome, k: nat)
    requires k < |tables| && outcome(tables[k]) == ConnectionStop
    requires forall j :: 0 <= j < k ==> outcome(tables[j]) != ConnectionStop
    ensures FirstLost(tables, outcome) == Some(k)
  {
  }

  /**
   * migrate_all: select the tables, then migrate them one after another,
   * counting successes (with their source row counts) and failures; a
   * ConnectionError escaping for a table (from the skip-existing check or
   * the schema read after a success) stops the run at that table. Each
   * table's steps are given: the skip-existing check, whether its schema
   * read and creation succeeded, the end of migrate_table_data, and the
   * schema read that follows a success.
   */
  method MigrateAll(all: seq<string>, names: seq<string>, filter: string, check: string -> ExistingCheck,
                    prepared: string -> bool, data: string -> DataResult, schema: string -> SchemaRead,
                    rowCount: string -> nat)
    returns (end: RunEnd)
    ensures end == RunOf(SelectTables(all, names, filter), Outcomes(check, prepared, data, schema), rowCount)
  {
    var tables := SelectTables(all, names, filter);
    end := MigrateTables(tables, Outcomes(check, prepared, data, schema), rowCount);
  }

  /** The loop of migrate_all over the selected tables, in order. */
  method MigrateTables(tables: seq<string>, outcome: string -> TableOutcome, rowCount: string -> nat)
    returns (end: RunEnd)
    ensures end == RunOf(tables, outcome, rowCount)
  {
    var total := |tables|;
    if total == 0 {
      return Finished(RunStats(0, 0, 0, 0));
    }
    var stats := RunStats(total, 0, 0, 0);
    var i := 0;
    while i < total
      invariant 0 <= i <= total
      invariant forall j :: 0 <= j < i ==> outcome(tables[j]) != ConnectionStop
      invariant stats == Tally(tables[..i], total, outcome, rowCount)
    {
      var o := outcome(tables[i]);
      if o == ConnectionStop {
        FirstLostIs(tables, outcome, i);
        return StoppedAt(tables[i], stats);
      }
      TallyNext(tables, i, total, outcome, rowCount);
      if o == Migrated {
        stats := stats.(success := stats.success + 1, totalRows := stats.totalRows + rowCount(tables[i]));
      } else if o == MigratedUnread {
        stats := stats.(success := stats.success + 1);
        stats := stats.(fail := stats.fail + 1);
      } else {
        stats := stats.(fail := stats.fail + 1);
      }
      i := i + 1;
    }
    assert tables[..total] == tables;
    return Finished(stats);
  }

  /**
   * A run finishes exactly when no ConnectionError escapes, and then counts every
   * table once, and a table whose schema read failed twice; a stopped run
   * names a table whose ConnectionError escaped and has counted fewer.
   */
  lemma RunCounts(tables: seq<string>, outcome: string -> TableOutcome, rowCount: string -> nat)
    ensures RunOf(tables, outcome, rowCount).Finished? <==> forall i :: 0 <= i < |tables| ==> outcome(tables[i]) != ConnectionStop
    ensures RunOf(tables, outcome, rowCount).stats.total == |tables|
    ensures var e := RunOf(tables, outcome, rowCount);
            e.Finished? ==> e.stats.success + e.stats.fail == |tables| + UnreadCount(tables, outcome)
    ensures var e := RunOf(tables, outcome, rowCount);
            e.StoppedAt? ==> e.table in tables && outcome(e.table) == ConnectionStop
                             && e.stats.success + e.stats.fail < |tables| + UnreadCount(tables, outcome)
  {
    match FirstLost(tables, outcome)
    case None =>
      TallyBalances(tables, |tables|, outcome, rowCount);
    case Some(k) =>
      assert forall i :: 0 <= i < k ==> tables[..k][i] == tables[i];
      TallyBalances(tables[..k], |tables|, outcome, rowCount);
      UnreadPrefix(tables, k, outcome);
  }
}
