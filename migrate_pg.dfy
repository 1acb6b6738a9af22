/**
 * Copying one PostgreSQL database into another: how the two sides' table
 * lists and row counts compare, how a source column type is rewritten for
 * the target, the batch copy of one table (reads and inserts retried on
 * network errors, rows already in the target optionally skipped by key),
 * and the run over all selected tables.
 */
module PgMigration {
  import opened Common
  import opened Retry
  import SqliteMigration

  type Row = SqliteMigration.Row
  type PgDatabase = SqliteMigration.PgDatabase

  // ---------------------------------------------------------------------
  // Comparing the two databases
  // ---------------------------------------------------------------------

  /** A common table whose row counts differ: both counts and source minus target. */
  datatype CountDiff = CountDiff(source: nat, target: nat, diff: int)

  /** What compare_table_counts reports (the listings as sets; the source sorts them). */
  datatype Comparison = Comparison(sourceCount: nat, targetCount: nat, consistent: bool, onlyInSource: set<string>,
                                   onlyInTarget: set<string>, common: set<string>, rowCountDiff: map<string, CountDiff>)

  /** get_table_row_count: a count that fails reads as zero. */
  function CountOf(count: Option<nat>): nat
  {
    if count.Some? then count.value else 0
  }

  /**
   * compare_table_counts: the table lists are filtered and compared as in the
   * SQLite migration; every common table whose counts differ is listed with
   * both counts, and the databases agree when in addition no such table
   * exists.
   */
  function CompareTableCounts(sourceTables: seq<string>, targetTables: seq<string>, filter: string,
                              sourceRows: string -> Option<nat>, targetRows: string -> Option<nat>): (c: Comparison)
    ensures var s, t := Elements(SqliteMigration.FilterTables(sourceTables, filter)),
                        Elements(SqliteMigration.FilterTables(targetTables, filter));
            c.onlyInSource == s - t && c.onlyInTarget == t - s && c.common == s * t
    ensures c.sourceCount == |SqliteMigration.FilterTables(sourceTables, filter)|
            && c.targetCount == |SqliteMigration.FilterTables(targetTables, filter)|
    ensures forall t :: t in c.rowCountDiff <==> t in c.common && CountOf(sourceRows(t)) != CountOf(targetRows(t))
    ensures forall t :: t in c.rowCountDiff ==>
              c.rowCountDiff[t] == CountDiff(CountOf(sourceRows(t)), CountOf(targetRows(t)),
                                             CountOf(sourceRows(t)) - CountOf(targetRows(t)))
    ensures c.consistent <==> c.sourceCount == c.targetCount && c.onlyInSource == {} && c.onlyInTarget == {}
                              && c.rowCountDiff == map[]
  {
    var base := SqliteMigration.CompareTableCounts(sourceTables, targetTables, filter);
    var diff := map t | t in base.common && CountOf(sourceRows(t)) != CountOf(targetRows(t)) ::
                  CountDiff(CountOf(sourceRows(t)), CountOf(targetRows(t)), CountOf(sourceRows(t)) - CountOf(targetRows(t)));
    Comparison(base.sqliteCount, base.pgCount, base.consistent && diff == map[], base.onlyInSqlite, base.onlyInPg,
               base.common, diff)
  }

  /**
   * With table lists free of repeats, the databases agree exactly when they
   * hold the same selected tables and every one of them has the same count
   * on both sides.
   */
  lemma ConsistentIffSameCounts(sourceTables: seq<string>, targetTables: seq<string>, filter: string,
                                sourceRows: string -> Option<nat>, targetRows: string -> Option<nat>)
    requires NoDup(sourceTables) && NoDup(targetTables)
    ensures var s, t := Elements(SqliteMigration.FilterTables(sourceTables, filter)),
                        Elements(SqliteMigration.FilterTables(targetTables, filter));
            CompareTableCounts(sourceTables, targetTables, filter, sourceRows, targetRows).consistent
            <==> s == t && forall x :: x in s ==> CountOf(sourceRows(x)) == CountOf(targetRows(x))
  {
    var c := CompareTableCounts(sourceTables, targetTables, filter, sourceRows, targetRows);
    var s, t := Elements(SqliteMigration.FilterTables(sourceTables, filter)),
                Elements(SqliteMigration.FilterTables(targetTables, filter));
    SqliteMigration.ConsistentIffSameTables(sourceTables, targetTables, filter);
    if s == t && forall x :: x in s ==> CountOf(sourceRows(x)) == CountOf(targetRows(x)) {
      assert c.rowCountDiff == map[] by {
        forall x | x in c.rowCountDiff
          ensures false
        {
        }
      }
    }
    if c.consistent {
      forall x | x in s
        ensures CountOf(sourceRows(x)) == CountOf(targetRows(x))
      {
        assert x !in c.rowCountDiff;
      }
    }
  }

  // ---------------------------------------------------------------------
  // Column types
  // ---------------------------------------------------------------------

  /**
   * The type migrate_table_schema writes for a source column, as written:
   * substring tests in order, the type itself when none matches.  The INT
   * test comes before the BIGINT test.
   */
  function PgTypeAsWritten(colType: string): (r: string)
    ensures Contains(colType, "INT") && !Contains(colType, "VARCHAR") && !Contains(colType, "TEXT") ==> r == "INTEGER"
  {
    if Contains(colType, "VARCHAR") || Contains(colType, "TEXT") then "TEXT"
    else if Contains(colType, "INTEGER") || Contains(colType, "INT") then "INTEGER"
    else if Contains(colType, "BIGINT") then "BIGINT"
    else if Contains(colType, "REAL") || Contains(colType, "FLOAT") || Contains(colType, "DOUBLE") then "DOUBLE PRECISION"
    else if Contains(colType, "BOOLEAN") then "BOOLEAN"
    else if Contains(colType, "TIMESTAMP") || Contains(colType, "DATETIME") then "TIMESTAMP"
    else colType
  }

  /** The corrected order: BIGINT is tested before INT. */
  function PgType(colType: string): (r: string)
    ensures Contains(colType, "BIGINT") && !Contains(colType, "VARCHAR") && !Contains(colType, "TEXT") ==> r == "BIGINT"
  {
    if Contains(colType, "VARCHAR") || Contains(colType, "TEXT") then "TEXT"
    else if Contains(colType, "BIGINT") then "BIGINT"
    else if Contains(colType, "INTEGER") || Contains(colType, "INT") then "INTEGER"
    else if Contains(colType, "REAL") || Contains(colType, "FLOAT") || Contains(colType, "DOUBLE") then "DOUBLE PRECISION"
    else if Contains(colType, "BOOLEAN") then "BOOLEAN"
    else if Contains(colType, "TIMESTAMP") || Contains(colType, "DATETIME") then "TIMESTAMP"
    else colType
  }

  /** Every type mentioning BIGINT mentions INT, so as written the BIGINT branch is never taken. */
  lemma BigintBranchUnreachable(colType: string)
    requires Contains(colType, "BIGINT")
    ensures Contains(colType, "INT")
    ensures PgTypeAsWritten(colType) != "BIGINT" || colType == "BIGINT"
  {
    var i := ContainsWitness(colType, "BIGINT");
    assert colType[i + 3..i + 6] == "BIGINT"[3..6];
    ContainsAt(colType, "INT", i + 3);
  }

  lemma BigintNames()
    ensures Contains("BIGINT", "INT") && Contains("BIGINT", "BIGINT")
    ensures !Contains("BIGINT", "VARCHAR") && !Contains("BIGINT", "TEXT")
  {
    ContainsAt("BIGINT", "INT", 3);
    ContainsAt("BIGINT", "BIGINT", 0);
    AbsentChar("BIGINT", "VARCHAR", 'V');
    AbsentChar("BIGINT", "TEXT", 'X');
  }

  /** As written, a BIGINT column is created as a 32-bit INTEGER column. */
  lemma BigintBecomesInteger()
    ensures PgTypeAsWritten("BIGINT") == "INTEGER"
  {
    BigintNames();
  }

  /** With the corrected order a BIGINT column stays BIGINT. */
  lemma BigintStaysBigint()
    ensures PgType("BIGINT") == "BIGINT"
  {
    BigintNames();
  }

  /** The correction changes only types that mention BIGINT. */
  lemma CorrectionOnlyTouchesBigint(colType: string)
    requires !Contains(colType, "BIGINT")
    ensures PgType(colType) == PgTypeAsWritten(colType)
  {
  }

  // ---------------------------------------------------------------------
  // Retried steps
  // ---------------------------------------------------------------------

  const MaxRetries: nat := 3
  /** The first pause, in seconds; later pauses double it. */
  const RetryDelay: int := 2

  /** The message texts that mark a database error as a network error (tested on the lower-cased message). */
  predicate NetworkMessage(msg: string)
  {
    Contains(msg, "connection") || Contains(msg, "network") || Contains(msg, "timeout")
    || Contains(msg, "could not translate host") || Contains(msg, "could not receive data")
    || Contains(msg, "server closed") || Contains(msg, "connection refused")
  }

  /**
   * A failure the copier retries and reports as a network error: an
   * OperationalError or DisconnectionError whose message names a network
   * problem.  Any other exception is raised at once.
   */
  predicate Retryable(f: Failure)
  {
    (f.typeName == "OperationalError" || f.typeName == "DisconnectionError") && NetworkMessage(Lower(f.message))
  }

  /**
   * How a step retried up to MaxRetries times ends: the outcome of its last
   * attempt.  The copier classifies failures with Retryable; the classifier
   * is a parameter so that the copy loop need not look into it.
   */
  function Final(call: nat -> Attempt<()>, retryable: Failure -> bool): Attempt<()>
  {
    call(StopAt(0, MaxRetries, call, retryable))
  }

  /** How the retried step of each batch ends, from the attempts of each batch. */
  function Finals(call: nat -> nat -> Attempt<()>, retryable: Failure -> bool): nat -> Attempt<()>
  {
    (o: nat) => Final(call(o), retryable)
  }

  /** A step whose first attempt succeeds ends with it, and one that fails for another reason is not retried. */
  lemma FinalFirstAttempt(call: nat -> Attempt<()>)
    requires call(0).Ok? || !Retryable(call(0).error)
    ensures Final(call, Retryable) == call(0)
  {
  }

  // ---------------------------------------------------------------------
  // Copying one table
  // ---------------------------------------------------------------------

  /** The keys of some rows. */
  function Keys(rows: seq<Row>): set<string>
  {
    if rows == [] then {} else {rows[0].key} + Keys(rows[1..])
  }

  /** A key is among the keys of some rows exactly when one of the rows carries it. */
  lemma {:induction false} KeysMembers(rows: seq<Row>)
    ensures forall k :: k in Keys(rows) <==> exists i :: 0 <= i < |rows| && rows[i].key == k
  {
    if rows != [] {
      KeysMembers(rows[1..]);
      forall k | k in Keys(rows)
        ensures exists i :: 0 <= i < |rows| && rows[i].key == k
      {
        if k != rows[0].key {
          assert k in Keys(rows[1..]);
          var j :| 0 <= j < |rows[1..]| && rows[1..][j].key == k;
          assert rows[j + 1].key == k;
        }
      }
      forall k | exists i :: 0 <= i < |rows| && rows[i].key == k
        ensures k in Keys(rows)
      {
        var i :| 0 <= i < |rows| && rows[i].key == k;
        if i > 0 {
          assert rows[1..][i - 1].key == k;
        }
      }
    }
  }

  /** The rows whose key is not yet known, in order. */
  function DropKnown(rows: seq<Row>, keys: set<string>): (r: seq<Row>)
    ensures |r| <= |rows|
  {
    if rows == [] then []
    else (if rows[0].key in keys then [] else [rows[0]]) + DropKnown(rows[1..], keys)
  }

  /** Exactly the rows whose key is unknown survive the filter. */
  lemma {:induction false} DropKnownMembers(rows: seq<Row>, keys: set<string>)
    ensures forall x :: x in DropKnown(rows, keys) <==> x in rows && x.key !in keys
  {
    if rows != [] {
      DropKnownMembers(rows[1..], keys);
      assert forall x :: x in rows <==> x == rows[0] || x in rows[1..];
    }
  }

  /** Dropping no keys keeps every row. */
  lemma {:induction false} DropNothing(rows: seq<Row>)
    ensures DropKnown(rows, {}) == rows
  {
    if rows != [] {
      DropNothing(rows[1..]);
      assert rows == [rows[0]] + rows[1..];
    }
  }

  /**
   * The rows of a batch that are inserted: with skipping on, those whose key
   * is not yet known.  (The copier filters only once some key is known;
   * filtering by no keys keeps every row, see DropNothing.)
   */
  function Kept(batch: seq<Row>, skip: bool, keys: set<string>): (r: seq<Row>)
    ensures |r| <= |batch|
  {
    if skip then DropKnown(batch, keys) else batch
  }

  /** The keys known after a batch: with skipping on, the inserted keys join them. */
  function KnownAfter(keys: set<string>, skip: bool, inserted: seq<Row>): set<string>
  {
    if skip then keys + Keys(inserted) else keys
  }

  function Min(a: nat, b: nat): nat
  {
    if a <= b then a else b
  }

  /** The size of the batch read at `offset`: the batch size, or what is left. */
  function Limit(count: nat, offset: nat, batchSize: nat): nat
    requires offset <= count
  {
    Min(batchSize, count - offset)
  }

  datatype CopyEnd = Copied | Broke(failure: Failure)

  /** The rows a copy inserts (also those before a failure) and how it ends. */
  datatype CopyRun = CopyRun(added: seq<Row>, end: CopyEnd)

  /**
   * The copy from `offset` on: each batch is read (retried), its known keys
   * dropped, what is left inserted (retried) and its keys learnt; the offset
   * moves on by the batch read.  A failure that outlives its retries ends
   * the copy.  `read(o)` and `insert(o)` are how the retried read and insert
   * of the batch at o end.
   */
  function PgCopy(source: seq<Row>, offset: nat, batchSize: nat, skip: bool, keys: set<string>,
                  read: nat -> Attempt<()>, insert: nat -> Attempt<()>): CopyRun
    requires batchSize > 0 && offset <= |source|
    decreases |source| - offset
  {
    if offset == |source| then CopyRun([], Copied)
    else
      var limit := Limit(|source|, offset, batchSize);
      var kept := Kept(source[offset..offset + limit], skip, keys);
      if read(offset).Raised? then CopyRun([], Broke(read(offset).error))
      else if kept == [] then PgCopy(source, offset + limit, batchSize, skip, keys, read, insert)
      else if insert(offset).Raised? then CopyRun([], Broke(insert(offset).error))
      else
        var rest := PgCopy(source, offset + limit, batchSize, skip, KnownAfter(keys, skip, kept), read, insert);
        CopyRun(kept + rest.added, rest.end)
  }

  /** Rows drawn from the source past `offset`, none with a known key when skipping. */
  predicate Fresh(rows: seq<Row>, source: seq<Row>, offset: nat, skip: bool, keys: set<string>)
    requires offset <= |source|
  {
    forall x :: x in rows ==> x in source[offset..] && (skip ==> x.key !in keys)
  }

  /** The rows kept from the batch at `offset` are fresh. */
  lemma KeptFresh(source: seq<Row>, offset: nat, limit: nat, skip: bool, keys: set<string>)
    requires offset + limit <= |source|
    ensures Fresh(Kept(source[offset..offset + limit], skip, keys), source, offset, skip, keys)
  {
    var batch := source[offset..offset + limit];
    DropKnownMembers(batch, keys);
    forall x | x in Kept(batch, skip, keys)
      ensures x in source[offset..] && (skip ==> x.key !in keys)
    {
      assert x in batch;
      var i :| 0 <= i < |batch| && batch[i] == x;
      assert source[offset..][i] == x;
    }
  }

  /** Fresh rows before fresh rows from further on, with fewer keys known, are fresh. */
  lemma FreshJoin(kept: seq<Row>, rest: seq<Row>, source: seq<Row>, offset: nat, limit: nat, skip: bool,
                  keys: set<string>, next: set<string>)
    requires offset + limit <= |source| && keys <= next
    requires Fresh(kept, source, offset, skip, keys) && Fresh(rest, source, offset + limit, skip, next)
    ensures Fresh(kept + rest, source, offset, skip, keys)
  {
    forall x | x in rest
      ensures x in source[offset..]
    {
      var i :| 0 <= i < |source[offset + limit..]| && source[offset + limit..][i] == x;
      assert source[offset..][limit + i] == x;
    }
  }

  /** Every row a copy inserts comes from the source past `offset`, and with skipping on none has a key known at the start. */
  lemma {:induction false} CopyInsertsFreshRows(source: seq<Row>, offset: nat, batchSize: nat, skip: bool,
                                                keys: set<string>, read: nat -> Attempt<()>,
                                                insert: nat -> Attempt<()>)
    requires batchSize > 0 && offset <= |source|
    ensures Fresh(PgCopy(source, offset, batchSize, skip, keys, read, insert).added, source, offset, skip, keys)
    decreases |source| - offset, 1
  {
    if offset < |source| {
      var limit := Limit(|source|, offset, batchSize);
      var kept := Kept(source[offset..offset + limit], skip, keys);
      if read(offset).Ok? && kept == [] {
        FreshPassedBatch(source, offset, batchSize, skip, keys, read, insert);
      } else if read(offset).Ok? && insert(offset).Ok? {
        FreshInsertedBatch(source, offset, batchSize, skip, keys, read, insert);
      }
    }
  }

  /** A batch read but left empty by skipping is passed over. */
  lemma CopyPassesBatch(source: seq<Row>, offset: nat, batchSize: nat, skip: bool, keys: set<string>,
                        read: nat -> Attempt<()>, insert: nat -> Attempt<()>)
    requires batchSize > 0 && offset < |source| && read(offset).Ok?
    requires Kept(source[offset..offset + Limit(|source|, offset, batchSize)], skip, keys) == []
    ensures PgCopy(source, offset, batchSize, skip, keys, read, insert)
            == PgCopy(source, offset + Limit(|source|, offset, batchSize), batchSize, skip, keys, read, insert)
  {
  }

  /** A batch read, with rows left after skipping and inserted, joins the rows the rest of the copy inserts. */
  lemma CopyInsertsBatch(source: seq<Row>, offset: nat, batchSize: nat, skip: bool, keys: set<string>,
                         read: nat -> Attempt<()>, insert: nat -> Attempt<()>)
    requires batchSize > 0 && offset < |source| && read(offset).Ok? && insert(offset).Ok?
    requires Kept(source[offset..offset + Limit(|source|, offset, batchSize)], skip, keys) != []
    ensures var limit := Limit(|source|, offset, batchSize);
            var kept := Kept(source[offset..offset + limit], skip, keys);
            var rest := PgCopy(source, offset + limit, batchSize, skip, KnownAfter(keys, skip, kept), read, insert);
            PgCopy(source, offset, batchSize, skip, keys, read, insert) == CopyRun(kept + rest.added, rest.end)
  {
  }

  lemma {:induction false} FreshPassedBatch(source: seq<Row>, offset: nat, batchSize: nat, skip: bool,
                                            keys: set<string>, read: nat -> Attempt<()>,
                                            insert: nat -> Attempt<()>)
    requires batchSize > 0 && offset < |source| && read(offset).Ok?
    requires Kept(source[offset..offset + Limit(|source|, offset, batchSize)], skip, keys) == []
    ensures Fresh(PgCopy(source, offset, batchSize, skip, keys, read, insert).added, source, offset, skip, keys)
    decreases |source| - offset, 0
  {
    var limit := Limit(|source|, offset, batchSize);
    var rest := PgCopy(source, offset + limit, batchSize, skip, keys, read, insert);
    assert Fresh(rest.added, source, offset + limit, skip, keys) by {
      CopyInsertsFreshRows(source, offset + limit, batchSize, skip, keys, read, insert);
    }
    assert PgCopy(source, offset, batchSize, skip, keys, read, insert).added == [] + rest.added by {
      CopyPassesBatch(source, offset, batchSize, skip, keys, read, insert);
    }
    FreshJoin([], rest.added, source, offset, limit, skip, keys, keys);
  }

  lemma {:induction false} FreshInsertedBatch(source: seq<Row>, offset: nat, batchSize: nat, skip: bool,
                                              keys: set<string>, read: nat -> Attempt<()>,
                                              insert: nat -> Attempt<()>)
    requires batchSize > 0 && offset < |source| && read(offset).Ok? && insert(offset).Ok?
    requires Kept(source[offset..offset + Limit(|source|, offset, batchSize)], skip, keys) != []
    ensures Fresh(PgCopy(source, offset, batchSize, skip, keys, read, insert).added, source, offset, skip, keys)
    decreases |source| - offset, 0
  {
    var limit := Limit(|source|, offset, batchSize);
    var kept := Kept(source[offset..offset + limit], skip, keys);
    var next := KnownAfter(keys, skip, kept);
    var rest := PgCopy(source, offset + limit, batchSize, skip, next, read, insert);
    assert keys <= next;
    assert Fresh(rest.added, source, offset + limit, skip, next) by {
      CopyInsertsFreshRows(source, offset + limit, batchSize, skip, next, read, insert);
    }
    assert Fresh(kept, source, offset, skip, keys) by {
      KeptFresh(source, offset, limit, skip, keys);
    }
    assert PgCopy(source, offset, batchSize, skip, keys, read, insert).added == kept + rest.added by {
      CopyInsertsBatch(source, offset, batchSize, skip, keys, read, insert);
    }
    FreshJoin(kept, rest.added, source, offset, limit, skip, keys, next);
  }

  /** Every batch's retried step succeeds. */
  ghost predicate AllOk(outcome: nat -> Attempt<()>)
  {
    forall o :: outcome(o).Ok?
  }

  /** When the first attempt of every batch's read succeeds, every retried read succeeds. */
  lemma FirstAttemptsSucceed(call: nat -> nat -> Attempt<()>)
    requires forall o :: call(o)(0).Ok?
    ensures AllOk(Finals(call, Retryable))
  {
    forall o
      ensures Finals(call, Retryable)(o).Ok?
    {
      FinalFirstAttempt(call(o));
    }
  }

  /** Without skipping, and with every attempt succeeding, the copy inserts exactly the source rows from `offset` on. */
  lemma {:induction false} CopyEverything(source: seq<Row>, offset: nat, batchSize: nat, keys: set<string>,
                                          read: nat -> Attempt<()>, insert: nat -> Attempt<()>)
    requires batchSize > 0 && offset <= |source|
    requires AllOk(read) && AllOk(insert)
    ensures PgCopy(source, offset, batchSize, false, keys, read, insert) == CopyRun(source[offset..], Copied)
    decreases |source| - offset
  {
    if offset < |source| {
      var limit := Limit(|source|, offset, batchSize);
      CopyEverything(source, offset + limit, batchSize, keys, read, insert);
      assert source[offset..] == source[offset..offset + limit] + source[offset + limit..];
    }
  }

  /** No two source rows share a key. */
  predicate DistinctKeys(rows: seq<Row>)
  {
    forall i, j :: 0 <= i < j < |rows| ==> KeyAt(rows, i) != KeyAt(rows, j)
  }

  /** The key of row i (named, so that distinctness is used only where a proof asks for it). */
  function KeyAt(rows: seq<Row>, i: nat): string
    requires i < |rows|
  {
    rows[i].key
  }

  function Max(a: nat, b: nat): nat
  {
    if a >= b then a else b
  }

  /** With distinct keys, a row's key is among the first m rows' keys exactly when the row is. */
  lemma KeyInPrefix(source: seq<Row>, i: nat, m: nat)
    requires DistinctKeys(source) && i < |source| && m <= |source|
    ensures source[i].key in Keys(source[..m]) <==> i < m
  {
    KeysMembers(source[..m]);
    if i < m {
      assert source[..m][i] == source[i];
    } else {
      forall j | 0 <= j < m
        ensures source[..m][j].key != source[i].key
      {
        assert KeyAt(source, j) != KeyAt(source, i);
      }
    }
  }

  /** Dropping the keys of the first m rows from the slice a..b leaves the part of it at or past m. */
  lemma {:induction false} DropKnownSlice(source: seq<Row>, a: nat, b: nat, m: nat)
    requires DistinctKeys(source) && a <= b <= |source| && m <= |source|
    ensures DropKnown(source[a..b], Keys(source[..m])) == source[Max(a, m)..Max(b, m)]
    decreases b - a
  {
    if a < b {
      assert source[a..b][0] == source[a] && source[a..b][1..] == source[a + 1..b];
      DropKnownSlice(source, a + 1, b, m);
      KeyInPrefix(source, a, m);
      if a >= m {
        assert source[a..b] == [source[a]] + source[a + 1..b];
      }
    }
  }

  /** The keys of a prefix and of the slice after it make the keys of the longer prefix. */
  lemma {:induction false} KeysOfSplit(source: seq<Row>, a: nat, b: nat)
    requires a <= b <= |source|
    ensures Keys(source[..a]) + Keys(source[a..b]) == Keys(source[..b])
    decreases b - a
  {
    if a < b {
      KeysOfSplit(source, a + 1, b);
      assert source[a..b][0] == source[a] && source[a..b][1..] == source[a + 1..b];
      KeysOfLast(source, a);
    }
  }

  /** The keys of one more row of a prefix. */
  lemma {:induction false} KeysOfLast(source: seq<Row>, a: nat)
    requires a < |source|
    ensures Keys(source[..a + 1]) == Keys(source[..a]) + {source[a].key}
  {
    KeysMembers(source[..a + 1]);
    KeysMembers(source[..a]);
    forall k | k in Keys(source[..a + 1])
      ensures k in Keys(source[..a]) + {source[a].key}
    {
      var i :| 0 <= i < a + 1 && source[..a + 1][i].key == k;
      if i < a {
        assert source[..a][i].key == k;
      }
    }
    forall k | k in Keys(source[..a])
      ensures k in Keys(source[..a + 1])
    {
      var i :| 0 <= i < a && source[..a][i].key == k;
      assert source[..a + 1][i].key == k;
    }
    assert source[..a + 1][a] == source[a];
  }

  /**
   * Rerunning with skipping on over a source with distinct keys, whose first
   * m rows the target already holds, inserts exactly the rest of the source
   * when every attempt succeeds (from any batch offset up to m).
   */
  lemma {:induction false} ResumeInsertsRest(source: seq<Row>, m: nat, offset: nat, batchSize: nat,
                                             read: nat -> Attempt<()>, insert: nat -> Attempt<()>)
    requires batchSize > 0 && DistinctKeys(source) && offset <= m <= |source|
    requires AllOk(read) && AllOk(insert)
    ensures PgCopy(source, offset, batchSize, true, Keys(source[..m]), read, insert) == CopyRun(source[m..], Copied)
    decreases |source| - offset, 1
  {
    if offset < |source| {
      if offset + Limit(|source|, offset, batchSize) <= m {
        ResumePassesBatch(source, m, offset, batchSize, read, insert);
      } else {
        ResumeInsertsBatch(source, m, offset, batchSize, read, insert);
      }
    }
  }

  /** A resumed copy passes over a batch that lies wholly before the resume point. */
  lemma {:induction false} ResumePassesBatch(source: seq<Row>, m: nat, offset: nat, batchSize: nat,
                                             read: nat -> Attempt<()>, insert: nat -> Attempt<()>)
    requires batchSize > 0 && DistinctKeys(source) && offset < |source| && m <= |source|
    requires offset + Limit(|source|, offset, batchSize) <= m
    requires AllOk(read) && AllOk(insert)
    ensures PgCopy(source, offset, batchSize, true, Keys(source[..m]), read, insert) == CopyRun(source[m..], Copied)
    decreases |source| - offset, 0
  {
    var limit := Limit(|source|, offset, batchSize);
    assert Kept(source[offset..offset + limit], true, Keys(source[..m])) == [] by {
      DropKnownSlice(source, offset, offset + limit, m);
    }
    ResumeInsertsRest(source, m, offset + limit, batchSize, read, insert);
    assert read(offset).Ok?;
    CopyPassesBatch(source, offset, batchSize, true, Keys(source[..m]), read, insert);
  }

  /** A resumed copy inserts the part of a batch past the resume point and learns its keys. */
  lemma {:induction false} ResumeInsertsBatch(source: seq<Row>, m: nat, offset: nat, batchSize: nat,
                                              read: nat -> Attempt<()>, insert: nat -> Attempt<()>)
    requires batchSize > 0 && DistinctKeys(source) && offset < |source|
    requires offset <= m < offset + Limit(|source|, offset, batchSize)
    requires AllOk(read) && AllOk(insert)
    ensures PgCopy(source, offset, batchSize, true, Keys(source[..m]), read, insert) == CopyRun(source[m..], Copied)
    decreases |source| - offset, 0
  {
    var next := offset + Limit(|source|, offset, batchSize);
    var kept := Kept(source[offset..next], true, Keys(source[..m]));
    assert kept == source[m..next] by {
      DropKnownSlice(source, offset, next, m);
    }
    assert KnownAfter(Keys(source[..m]), true, kept) == Keys(source[..next]) by {
      KeysOfSplit(source, m, next);
    }
    assert PgCopy(source, next, batchSize, true, KnownAfter(Keys(source[..m]), true, kept), read, insert)
           == CopyRun(source[next..], Copied) by {
      ResumeInsertsRest(source, next, next, batchSize, read, insert);
    }
    assert read(offset).Ok? && insert(offset).Ok?;
    InsertedThenRest(source, offset, batchSize, true, Keys(source[..m]), read, insert, source[next..]);
    assert source[m..] == kept + source[next..];
  }

  /** A batch inserted ahead of a rest that copies `tail` to the end makes a copy of the batch and then `tail`. */
  lemma InsertedThenRest(source: seq<Row>, offset: nat, batchSize: nat, skip: bool, keys: set<string>,
                         read: nat -> Attempt<()>, insert: nat -> Attempt<()>, tail: seq<Row>)
    requires batchSize > 0 && offset < |source| && read(offset).Ok? && insert(offset).Ok?
    requires var kept := Kept(source[offset..offset + Limit(|source|, offset, batchSize)], skip, keys);
             kept != []
             && PgCopy(source, offset + Limit(|source|, offset, batchSize), batchSize, skip, KnownAfter(keys, skip, kept),
                       read, insert) == CopyRun(tail, Copied)
    ensures PgCopy(source, offset, batchSize, skip, keys, read, insert)
            == CopyRun(Kept(source[offset..offset + Limit(|source|, offset, batchSize)], skip, keys) + tail, Copied)
  {
  }

  /** Rerunning with skipping on completes a table whose target holds a prefix of the source. */
  lemma ResumeCompletesTable(source: seq<Row>, k: nat, batchSize: nat,
                             read: nat -> Attempt<()>, insert: nat -> Attempt<()>)
    requires batchSize > 0 && DistinctKeys(source) && k <= |source|
    requires AllOk(read) && AllOk(insert)
    ensures source[..k] + PgCopy(source, 0, batchSize, true, Keys(source[..k]), read, insert).added == source
    ensures PgCopy(source, 0, batchSize, true, Keys(source[..k]), read, insert).end == Copied
  {
    ResumeInsertsRest(source, k, 0, batchSize, read, insert);
    assert source[..k] + source[k..] == source;
  }

  /** What migrate_table_data returns: success, the rows it inserted, and whether a failure was a network error. */
  datatype TableResult = TableResult(success: bool, rows: nat, network: bool)

  /** The result of a copy: the rows inserted, and on a failure whether it was a network error. */
  function ResultOf(run: CopyRun, retryable: Failure -> bool): TableResult
  {
    match run.end
    case Copied => TableResult(true, |run.added|, false)
    case Broke(f) => HandlerResult(|run.added|, f, retryable)
  }

  /** How the target's table-existence query ends: answered, or raising. */
  datatype ExistsCheck = Answered | CheckFailed(failure: Failure)

  /** The keys the copy starts from: with skipping on, those the target's rows show when they can be read. */
  function StartKeys(skip: bool, keysRead: bool, target: seq<Row>): set<string>
  {
    if skip && keysRead then Keys(target) else {}
  }

  /** After the rows `added`, the copy from `offset` on with `keys` completes the run `whole`. */
  predicate Ahead(source: seq<Row>, offset: nat, batchSize: nat, skip: bool, keys: set<string>,
                  read: nat -> Attempt<()>, insert: nat -> Attempt<()>, added: seq<Row>, whole: CopyRun)
    requires batchSize > 0 && offset <= |source|
  {
    var rest := PgCopy(source, offset, batchSize, skip, keys, read, insert);
    added + rest.added == whole.added && rest.end == whole.end
  }

  /** A batch passed over, or inserted with its keys learnt, keeps the copy on course. */
  lemma CopyAdvance(source: seq<Row>, offset: nat, batchSize: nat, skip: bool, keys: set<string>,
                    read: nat -> Attempt<()>, insert: nat -> Attempt<()>, added: seq<Row>, whole: CopyRun,
                    limit: nat, kept: seq<Row>, next: set<string>)
    requires batchSize > 0 && offset < |source| && limit == Limit(|source|, offset, batchSize)
    requires kept == Kept(source[offset..offset + limit], skip, keys)
    requires next == if kept == [] then keys else KnownAfter(keys, skip, kept)
    requires read(offset).Ok? && (kept == [] || insert(offset).Ok?)
    requires Ahead(source, offset, batchSize, skip, keys, read, insert, added, whole)
    ensures Ahead(source, offset + limit, batchSize, skip, next, read, insert, added + kept, whole)
  {
    var rest := PgCopy(source, offset + limit, batchSize, skip, next, read, insert);
    assert (added + kept) + rest.added == added + (kept + rest.added);
    assert kept == [] ==> added + kept == added;
  }

  /** Where the copy stops, the rows inserted are the whole run's, ending as the stop says. */
  lemma CopyStops(source: seq<Row>, offset: nat, batchSize: nat, skip: bool, keys: set<string>,
                  read: nat -> Attempt<()>, insert: nat -> Attempt<()>, added: seq<Row>, whole: CopyRun)
    requires batchSize > 0 && offset <= |source|
    requires offset == |source| || read(offset).Raised?
             || (Kept(source[offset..offset + Limit(|source|, offset, batchSize)], skip, keys) != []
                 && insert(offset).Raised?)
    requires Ahead(source, offset, batchSize, skip, keys, read, insert, added, whole)
    ensures added == whole.added
    ensures offset == |source| ==> whole.end == Copied
    ensures offset < |source| && read(offset).Raised? ==> whole.end == Broke(read(offset).error)
    ensures offset < |source| && read(offset).Ok? ==> whole.end == Broke(insert(offset).error)
  {
    assert added + [] == added;
  }

  /**
   * migrate_table_data: the table is created when missing (a failure to
   * create it ends the table); an empty source, or one whose count fails,
   * copies nothing and succeeds; otherwise the keys already in the target
   * are read when skipping, and the source is copied batch by batch.  A
   * failure reports the rows inserted so far, except one raised by the
   * existence query: the handler then reads the row counter before it is
   * bound and raises itself, so the failure escapes the table (None).
   */
  method MigrateTableData(db: PgDatabase, name: string, check: ExistsCheck, createOk: bool, countOk: bool,
                          source: seq<Row>, batchSize: nat, skip: bool, keysRead: bool,
                          read: nat -> nat -> Attempt<()>, insert: nat -> nat -> Attempt<()>)
    returns (r: Option<TableResult>)
    requires batchSize > 0
    modifies db
    ensures r.None? <==> check.CheckFailed?
    ensures check.CheckFailed? ==> r == HandlerAsWritten(None, check.failure) && db.tables == old(db.tables)
    ensures check.Answered? && name !in old(db.tables) && !createOk ==>
              r == Some(TableResult(false, 0, false)) && db.tables == old(db.tables)
    ensures check.Answered? && (name in old(db.tables) || createOk) && (!countOk || source == []) ==>
              r == Some(TableResult(true, 0, false))
              && db.tables == old(db.tables)[name := SqliteMigration.Stored(old(db.tables), name)]
    ensures check.Answered? && (name in old(db.tables) || createOk) && countOk && source != [] ==>
              var target := SqliteMigration.Stored(old(db.tables), name);
              var run := PgCopy(source, 0, batchSize, skip, StartKeys(skip, keysRead, target),
                                Finals(read, Retryable), Finals(insert, Retryable));
              db.tables == old(db.tables)[name := target + run.added] && r == Some(ResultOf(run, Retryable))
  {
    if check.CheckFailed? {
      return HandlerAsWritten(None, check.failure);
    }
    if name !in db.tables {
      if !createOk {
        return Some(TableResult(false, 0, false));
      }
      db.tables := db.tables[name := []];
    } else {
      UpdateSame(db.tables, name);
    }
    ghost var target := SqliteMigration.Stored(old(db.tables), name);
    assert db.tables == old(db.tables)[name := target];
    var count := if countOk then |source| else 0;
    if count == 0 {
      return Some(TableResult(true, 0, false));
    }
    var keys: set<string> := {};
    if skip && keysRead {
      keys := Keys(db.tables[name]);
    }
    var copied := CopyBatches(db, name, source, batchSize, skip, keys, read, insert, Retryable);
    r := Some(copied);
    UpdateTwice(old(db.tables), name, target,
                target + PgCopy(source, 0, batchSize, skip, keys, Finals(read, Retryable), Finals(insert, Retryable)).added);
  }

  /**
   * The batch loop of migrate_table_data: read a batch (retried), drop the
   * rows whose keys are known, insert the rest (retried) and learn their
   * keys.  The rows inserted stay in the target table when a later step
   * fails.
   */
  method CopyBatches(db: PgDatabase, name: string, source: seq<Row>, batchSize: nat, skip: bool, keys0: set<string>,
                     read: nat -> nat -> Attempt<()>, insert: nat -> nat -> Attempt<()>, retryable: Failure -> bool)
    returns (r: TableResult)
    requires batchSize > 0 && name in db.tables
    modifies db
    ensures var run := PgCopy(source, 0, batchSize, skip, keys0, Finals(read, retryable), Finals(insert, retryable));
            db.tables == old(db.tables)[name := old(db.tables)[name] + run.added] && r == ResultOf(run, retryable)
  {
    ghost var target := db.tables[name];
    ghost var whole := PgCopy(source, 0, batchSize, skip, keys0, Finals(read, retryable), Finals(insert, retryable));
    ghost var added: seq<Row> := [];
    var keys := keys0;
    var migrated := 0;
    var offset := 0;
    AppendNothing(target, added);
    UpdateSame(db.tables, name);
    while offset < |source|
      invariant offset <= |source|
      invariant db.tables == old(db.tables)[name := target + added]
      invariant migrated == |added|
      invariant Ahead(source, offset, batchSize, skip, keys, Finals(read, retryable), Finals(insert, retryable), added, whole)
      decreases |source| - offset
    {
      var limit := Min(batchSize, |source| - offset);
      var stop, batch := NextBatch(source, offset, limit, skip, keys, read(offset), insert(offset), retryable);
      if stop.Some? {
        CopyStops(source, offset, batchSize, skip, keys, Finals(read, retryable), Finals(insert, retryable), added, whole);
        return HandlerResult(migrated, stop.value, retryable);
      }
      keys, migrated, added := StoreBatch(db, name, source, offset, limit, batchSize, skip, keys, migrated, batch,
                                          Finals(read, retryable), Finals(insert, retryable), old(db.tables), target, added, whole);
      offset := offset + limit;
    }
    CopyStops(source, offset, batchSize, skip, keys, Finals(read, retryable), Finals(insert, retryable), added, whole);
    return TableResult(true, migrated, false);
  }

  /**
   * The tail of a step of the batch loop, once the batch is read and, if
   * anything is left of it, inserted: the rows join the target table, the
   * counter and, when skipping, the known keys; the copy stays on course.
   */
  method StoreBatch(db: PgDatabase, name: string, source: seq<Row>, offset: nat, limit: nat, batchSize: nat,
                    skip: bool, keys: set<string>, migrated: nat, batch: seq<Row>,
                    ghost read: nat -> Attempt<()>, ghost insert: nat -> Attempt<()>,
                    ghost base: map<string, seq<Row>>, ghost target: seq<Row>, ghost added: seq<Row>, ghost whole: CopyRun)
    returns (keys': set<string>, migrated': nat, ghost added': seq<Row>)
    requires batchSize > 0 && offset < |source| && limit == Limit(|source|, offset, batchSize)
    requires batch == Kept(source[offset..offset + limit], skip, keys)
    requires read(offset).Ok? && (batch == [] || insert(offset).Ok?)
    requires db.tables == base[name := target + added] && migrated == |added|
    requires Ahead(source, offset, batchSize, skip, keys, read, insert, added, whole)
    modifies db
    ensures db.tables == base[name := target + added'] && migrated' == |added'|
    ensures Ahead(source, offset + limit, batchSize, skip, keys', read, insert, added', whole)
  {
    keys', migrated' := keys, migrated;
    if batch != [] {
      db.tables := db.tables[name := db.tables[name] + batch];
      AppendAssoc(target, added, batch);
      UpdateTwice(base, name, target + added, target + (added + batch));
      migrated' := migrated + |batch|;
      if skip {
        keys' := keys + Keys(batch);
      }
    } else {
      AppendNothing(added, batch);
    }
    added' := added + batch;
    CopyAdvance(source, offset, batchSize, skip, keys, read, insert, added, whole, limit, batch, keys');
  }

  /**
   * One step of the batch loop: the batch at `offset` is read (retried), its
   * known keys dropped, and what is left inserted (retried).  The step stops
   * with the failure that outlived its retries, if any.
   */
  method NextBatch(source: seq<Row>, offset: nat, limit: nat, skip: bool, keys: set<string>,
                   read: nat -> Attempt<()>, insert: nat -> Attempt<()>, retryable: Failure -> bool)
    returns (stop: Option<Failure>, batch: seq<Row>)
    requires offset + limit <= |source|
    ensures Final(read, retryable).Ok? ==> batch == Kept(source[offset..offset + limit], skip, keys)
    ensures Final(read, retryable).Raised? ==> stop == Some(Final(read, retryable).error)
    ensures Final(read, retryable).Ok? && batch != [] && Final(insert, retryable).Raised? ==>
              stop == Some(Final(insert, retryable).error)
    ensures Final(read, retryable).Ok? && (batch == [] || Final(insert, retryable).Ok?) ==> stop == None
  {
    var got := RetriedStep(read, retryable);
    if got.Raised? {
      return Some(got.error), [];
    }
    batch := source[offset..offset + limit];
    if skip && keys != {} {
      batch := DropKnown(batch, keys);
    } else if skip {
      DropNothing(batch);
    }
    stop := None;
    if batch != [] {
      var put := RetriedStep(insert, retryable);
      if put.Raised? {
        stop := Some(put.error);
      }
    }
  }

  /** A read or an insert with its retries: the outcome of the attempt that ends the retry loop. */
  method RetriedStep(call: nat -> Attempt<()>, retryable: Failure -> bool) returns (a: Attempt<()>)
    ensures a == Final(call, retryable)
  {
    var waits;
    a, waits := RetryWithBackoff(MaxRetries, RetryDelay, call, retryable);
  }

  /**
   * The exception handler of migrate_table_data, corrected: a failure
   * reports the rows inserted so far and whether it was a network error.
   */
  function HandlerResult(migrated: nat, failure: Failure, retryable: Failure -> bool): (r: TableResult)
    ensures !r.success && r.rows == migrated
    ensures r.network <==> retryable(failure)
  {
    TableResult(false, migrated, retryable(failure))
  }

  /**
   * The handler as written: it reads the inserted-row counter, which is
   * only bound once the copy loop is reached; before that the handler
   * itself raises, and the failure escapes the table (None).
   */
  function HandlerAsWritten(migrated: Option<nat>, failure: Failure): (r: Option<TableResult>)
    ensures r.Some? <==> migrated.Some?
  {
    if migrated.Some? then Some(HandlerResult(migrated.value, failure, Retryable)) else None
  }

  /** A failure of the existence query escapes migrate_table_data as written. */
  lemma ExistenceCheckFailureEscapes(failure: Failure)
    ensures HandlerAsWritten(None, failure).None?
    ensures HandlerResult(0, failure, Retryable) == TableResult(false, 0, Retryable(failure))
  {
  }

  // ---------------------------------------------------------------------
  // The run over all tables
  // ---------------------------------------------------------------------

  /** The lines of a table file, stripped, blank ones dropped. */
  function NonBlankLines(lines: seq<string>): (r: seq<string>)
    ensures forall t :: t in r ==> t != "" && exists i :: 0 <= i < |lines| && SqliteMigration.Strip(lines[i]) == t
    ensures forall i :: 0 <= i < |lines| && SqliteMigration.Strip(lines[i]) != "" ==> SqliteMigration.Strip(lines[i]) in r
    ensures |r| <= |lines|
  {
    if lines == [] then []
    else
      var t := SqliteMigration.Strip(lines[0]);
      assert forall i :: 1 <= i < |lines| ==> lines[1..][i - 1] == lines[i];
      (if t != "" then [t] else []) + NonBlankLines(lines[1..])
  }

  /**
   * The tables migrate_all works on: the given names when there are any
   * (taken as they are), else the non-blank lines of the table file when
   * one is given, else the source tables the filter selects.
   */
  function SelectTables(names: seq<string>, fileLines: Option<seq<string>>, sourceTables: seq<string>,
                        filter: string): (r: seq<string>)
    ensures names != [] ==> r == names
    ensures names == [] && fileLines.Some? ==> r == NonBlankLines(fileLines.value)
    ensures names == [] && fileLines.None? ==> forall t :: t in r <==> t in sourceTables && SqliteMigration.MatchesFilter(t, filter)
  {
    if names != [] then names
    else if fileLines.Some? then NonBlankLines(fileLines.value)
    else SqliteMigration.FilterTables(sourceTables, filter)
  }

  /** migrate_all's statistics. */
  datatype Stats = Stats(total: nat, success: nat, failed: nat, skipped: nat, totalRows: nat)

  /** One table's result counted: a success adds its rows and, when it moved none, counts as skipped too. */
  function Count(s: Stats, r: TableResult): Stats
  {
    if r.success then s.(success := s.success + 1, totalRows := s.totalRows + r.rows,
                         skipped := if r.rows == 0 then s.skipped + 1 else s.skipped)
    else s.(failed := s.failed + 1)
  }

  /** The statistics after the tables were handled in order. */
  function Tally(tables: seq<string>, total: nat, result: string -> TableResult): Stats
  {
    if tables == [] then Stats(total, 0, 0, 0, 0)
    else Count(Tally(tables[..|tables| - 1], total, result), result(tables[|tables| - 1]))
  }

  /**
   * Every table is counted once, as a success or a failure; the skipped
   * tables are among the successes, and they are all of them exactly when
   * no rows were moved; there are no failures exactly when every table
   * succeeded.
   */
  lemma {:induction false} TallyFacts(tables: seq<string>, total: nat, result: string -> TableResult)
    ensures var s := Tally(tables, total, result);
            s.total == total && s.success + s.failed == |tables| && s.skipped <= s.success
            && (s.skipped == s.success <==> s.totalRows == 0)
            && (s.failed == 0 <==> forall i :: 0 <= i < |tables| ==> result(tables[i]).success)
  {
    if tables != [] {
      var n := |tables| - 1;
      TallyFacts(tables[..n], total, result);
      assert forall i :: 0 <= i < n ==> tables[..n][i] == tables[i];
    }
  }

  /**
   * The run as written, where a table's failure can escape it (None): the
   * first escape ends the whole run without statistics.
   */
  function TallyAsWritten(tables: seq<string>, total: nat, result: string -> Option<TableResult>): Option<Stats>
  {
    if tables == [] then Some(Stats(total, 0, 0, 0, 0))
    else
      var before := TallyAsWritten(tables[..|tables| - 1], total, result);
      var last := result(tables[|tables| - 1]);
      if before.Some? && last.Some? then Some(Count(before.value, last.value)) else None
  }

  /** As written, the run yields statistics exactly when no table's failure escapes. */
  lemma {:induction false} EscapeAbortsRun(tables: seq<string>, total: nat, result: string -> Option<TableResult>)
    ensures TallyAsWritten(tables, total, result).None? <==> exists i :: 0 <= i < |tables| && result(tables[i]).None?
  {
    if tables != [] {
      var n := |tables| - 1;
      EscapeAbortsRun(tables[..n], total, result);
      assert forall i :: 0 <= i < n ==> tables[..n][i] == tables[i];
      if exists i :: 0 <= i < |tables| && result(tables[i]).None? {
        var i :| 0 <= i < |tables| && result(tables[i]).None?;
        if i < n {
          assert result(tables[..n][i]).None?;
        }
      }
    }
  }

  /** A table's result, with an escaped failure read as a plain failure. */
  function OrFailed(r: Option<TableResult>): TableResult
  {
    if r.Some? then r.value else TableResult(false, 0, false)
  }

  /** When no table's failure escapes, the run as written counts what the corrected run counts. */
  lemma {:induction false} TallyAsWrittenAgrees(tables: seq<string>, total: nat, result: string -> Option<TableResult>)
    requires forall i :: 0 <= i < |tables| ==> result(tables[i]).Some?
    ensures TallyAsWritten(tables, total, result) == Some(Tally(tables, total, t => OrFailed(result(t))))
  {
    if tables != [] {
      var n := |tables| - 1;
      assert forall i :: 0 <= i < n ==> tables[..n][i] == tables[i];
      TallyAsWrittenAgrees(tables[..n], total, result);
    }
  }

  /**
   * migrate_all: select the tables, then migrate them one after another,
   * counting each result; `result` is what migrate_table_data returns for a
   * table, None when its failure escapes, which ends the run with the
   * exception (None) and no statistics.
   */
  method MigrateAll(names: seq<string>, fileLines: Option<seq<string>>, sourceTables: seq<string>, filter: string,
                    result: string -> Option<TableResult>)
    returns (stats: Option<Stats>)
    ensures var tables := SelectTables(names, fileLines, sourceTables, filter);
            stats == TallyAsWritten(tables, |tables|, result)
  {
    var tables := SelectTables(names, fileLines, sourceTables, filter);
    var counted := Stats(|tables|, 0, 0, 0, 0);
    for i := 0 to |tables|
      invariant TallyAsWritten(tables[..i], |tables|, result) == Some(counted)
    {
      assert tables[..i + 1][..i] == tables[..i];
      var r := result(tables[i]);
      if r.None? {
        EscapeAbortsRun(tables, |tables|, result);
        return None;
      }
      if r.value.success {
        counted := counted.(success := counted.success + 1, totalRows := counted.totalRows + r.value.rows);
        if r.value.rows == 0 {
          counted := counted.(skipped := counted.skipped + 1);
        }
      } else {
        counted := counted.(failed := counted.failed + 1);
      }
    }
    assert tables[..|tables|] == tables;
    stats := Some(counted);
  }
}
