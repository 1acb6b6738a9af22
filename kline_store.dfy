/**
 * The candle tables `K{interval}{symbol}` of the database, whose primary key
 * is `trade_date`, and the two ways the downloader writes to them: a
 * multi-row INSERT of a slice of 50 rows, which the database applies whole
 * or not at all, and the row-by-row fallback that skips rows whose key is
 * already stored.
 */
module KlineStore {
  import opened Common
  import opened TimeWindow
  import opened BinanceClient

  /** BATCH_SIZE: rows per multi-row INSERT. */
  const BatchSize: nat := 50

  /** A stored row: its `trade_date` key and the candle. */
  datatype Candle = Candle(tradeDate: TradeDate, row: KlineRow)

  function KeysOf(cs: seq<Candle>): set<TradeDate>
  {
    set c | c in cs :: c.tradeDate
  }

  /** No two rows share a `trade_date`: what the primary key enforces. */
  predicate DistinctKeys(cs: seq<Candle>)
  {
    forall i, j :: 0 <= i < j < |cs| ==> cs[i].tradeDate != cs[j].tradeDate
  }

  /** Name of the table of one symbol and interval. */
  function TableName(iv: string, symbol: string): string
  {
    "K" + iv + symbol
  }

  /**
   * Outcome of a write: the table afterwards, the rows saved, the rows
   * skipped as duplicates, and whether an error other than a duplicate key
   * was raised.
   */
  datatype WriteResult = WriteResult(rows: seq<Candle>, saved: nat, skipped: nat, raised: bool)

  /**
   * What a write of `batch` into a table holding `rows` promises: the old
   * rows stay in front, only rows of the batch are added, one per saved row,
   * the key stays unique, an error is raised exactly when the batch holds a
   * row the database refuses (`rejects`: keys whose insert fails for a
   * reason other than a duplicate key), and without an error every row of
   * the batch ends up stored.
   */
  predicate Writes(r: WriteResult, rows: seq<Candle>, batch: seq<Candle>, rejects: set<TradeDate>)
  {
    rows <= r.rows && |r.rows| == |rows| + r.saved
    && (forall i :: |rows| <= i < |r.rows| ==> r.rows[i] in batch)
    && r.saved + r.skipped <= |batch|
    && (DistinctKeys(rows) ==> DistinctKeys(r.rows))
    && (r.raised <==> exists c :: c in batch && c.tradeDate in rejects)
    && (!r.raised ==> r.saved + r.skipped == |batch| && KeysOf(batch) <= KeysOf(r.rows))
  }

  /**
   * _insert_with_skip_duplicates: insert the rows one at a time, counting a
   * row whose key is already stored as skipped, and stop at the first row
   * refused for another reason.
   */
  function RowByRow(rows: seq<Candle>, batch: seq<Candle>, rejects: set<TradeDate>): WriteResult
    decreases |batch|
  {
    if batch == [] then WriteResult(rows, 0, 0, false)
    else if batch[0].tradeDate in rejects then WriteResult(rows, 0, 0, true)
    else if batch[0].tradeDate in KeysOf(rows) then
      var r := RowByRow(rows, batch[1..], rejects);
      r.(skipped := r.skipped + 1)
    else
      var r := RowByRow(rows + [batch[0]], batch[1..], rejects);
      r.(saved := r.saved + 1)
  }

  lemma AppendFresh(rows: seq<Candle>, c: Candle)
    requires DistinctKeys(rows) && c.tradeDate !in KeysOf(rows)
    ensures DistinctKeys(rows + [c])
  {
    var t := rows + [c];
    forall i, j | 0 <= i < j < |t|
      ensures t[i].tradeDate != t[j].tradeDate
    {
      if j == |rows| {
        assert t[i] in rows;
      }
    }
  }

  lemma {:induction false} RowByRowWrites(rows: seq<Candle>, batch: seq<Candle>, rejects: set<TradeDate>)
    ensures Writes(RowByRow(rows, batch, rejects), rows, batch, rejects)
    decreases |batch|
  {
    if batch != [] && batch[0].tradeDate !in rejects {
      var b0, rest := batch[0], batch[1..];
      assert batch == [b0] + rest;
      assert KeysOf(batch) == {b0.tradeDate} + KeysOf(rest);
      if b0.tradeDate in KeysOf(rows) {
        RowByRowWrites(rows, rest, rejects);
      } else {
        RowByRowWrites(rows + [b0], rest, rejects);
        var r := RowByRow(rows + [b0], rest, rejects);
        assert r.rows[|rows|] == b0;
        if DistinctKeys(rows) {
          AppendFresh(rows, b0);
        }
        assert KeysOf(rows + [b0]) <= KeysOf(r.rows);
      }
    }
  }

  /** Why the database rejects a multi-row INSERT: no objection, a duplicate key, or another error. */
  datatype Offence = NoOffence | Duplicate | Refused

  /**
   * The first row of a multi-row INSERT that the database objects to, given
   * the keys already stored (earlier rows of the same INSERT included).
   */
  function FirstOffence(keys: set<TradeDate>, batch: seq<Candle>, rejects: set<TradeDate>): Offence
    decreases |batch|
  {
    if batch == [] then NoOffence
    else if batch[0].tradeDate in rejects then Refused
    else if batch[0].tradeDate in keys then Duplicate
    else FirstOffence(keys + {batch[0].tradeDate}, batch[1..], rejects)
  }

  /**
   * An INSERT without objection holds distinct new keys and no refused row;
   * one refused outright holds a refused row.
   */
  lemma {:induction false} FirstOffenceFacts(keys: set<TradeDate>, batch: seq<Candle>, rejects: set<TradeDate>)
    ensures FirstOffence(keys, batch, rejects) == NoOffence ==>
              DistinctKeys(batch) && KeysOf(batch) !! keys && forall c :: c in batch ==> c.tradeDate !in rejects
    ensures FirstOffence(keys, batch, rejects) == Refused ==> exists c :: c in batch && c.tradeDate in rejects
    decreases |batch|
  {
    if batch != [] && batch[0].tradeDate !in rejects && batch[0].tradeDate !in keys {
      var b0, rest := batch[0], batch[1..];
      FirstOffenceFacts(keys + {b0.tradeDate}, rest, rejects);
      assert batch == [b0] + rest;
      if FirstOffence(keys, batch, rejects) == NoOffence {
        forall i, j | 0 <= i < j < |batch|
          ensures batch[i].tradeDate != batch[j].tradeDate
        {
          if i == 0 {
            assert batch[j] in rest;
            assert batch[j].tradeDate in KeysOf(rest);
          } else {
            assert batch[i] == rest[i - 1] && batch[j] == rest[j - 1];
          }
        }
        assert KeysOf(batch) == {b0.tradeDate} + KeysOf(rest);
      }
    }
  }

  /**
   * One slice written with `to_sql`: stored whole when the database has no
   * objection, retried row by row after a duplicate-key error, and
   * re-raised on any other error.
   */
  function WriteBatch(rows: seq<Candle>, batch: seq<Candle>, rejects: set<TradeDate>): WriteResult
  {
    match FirstOffence(KeysOf(rows), batch, rejects)
    case NoOffence => WriteResult(rows + batch, |batch|, 0, false)
    case Duplicate => RowByRow(rows, batch, rejects)
    case Refused => WriteResult(rows, 0, 0, true)
  }

  lemma AppendDisjoint(rows: seq<Candle>, batch: seq<Candle>)
    requires DistinctKeys(rows) && DistinctKeys(batch) && KeysOf(batch) !! KeysOf(rows)
    ensures DistinctKeys(rows + batch)
  {
    var t := rows + batch;
    forall i, j | 0 <= i < j < |t|
      ensures t[i].tradeDate != t[j].tradeDate
    {
      if j < |rows| {
        assert t[i] == rows[i] && t[j] == rows[j];
      } else if i < |rows| {
        assert t[i] in rows && t[j] == batch[j - |rows|];
        assert t[i].tradeDate in KeysOf(rows) && t[j].tradeDate in KeysOf(batch);
      } else {
        assert t[i] == batch[i - |rows|] && t[j] == batch[j - |rows|];
      }
    }
  }

  lemma WriteBatchWrites(rows: seq<Candle>, batch: seq<Candle>, rejects: set<TradeDate>)
    ensures Writes(WriteBatch(rows, batch, rejects), rows, batch, rejects)
  {
    FirstOffenceFacts(KeysOf(rows), batch, rejects);
    match FirstOffence(KeysOf(rows), batch, rejects)
    case NoOffence =>
      if DistinctKeys(rows) {
        AppendDisjoint(rows, batch);
      }
      var t := rows + batch;
      forall i | |rows| <= i < |t|
        ensures t[i] in batch
      {
        assert t[i] == batch[i - |rows|];
      }
      forall k | k in KeysOf(batch)
        ensures k in KeysOf(t)
      {
        var c :| c in batch && c.tradeDate == k;
        assert c in t;
      }
    case Duplicate =>
      RowByRowWrites(rows, batch, rejects);
    case Refused =>
  }

  /**
   * The insert step of download_kline_data: the rows in consecutive slices
   * of BatchSize, stopping at the first slice that raises.
   */
  function WriteAll(rows: seq<Candle>, cands: seq<Candle>, rejects: set<TradeDate>): WriteResult
    decreases |cands|
  {
    if cands == [] then WriteResult(rows, 0, 0, false)
    else
      var n := if |cands| < BatchSize then |cands| else BatchSize;
      var b := WriteBatch(rows, cands[..n], rejects);
      if b.raised then b
      else
        var r := WriteAll(b.rows, cands[n..], rejects);
        WriteResult(r.rows, b.saved + r.saved, b.skipped + r.skipped, r.raised)
  }

  lemma {:induction false} WriteAllWrites(rows: seq<Candle>, cands: seq<Candle>, rejects: set<TradeDate>)
    ensures Writes(WriteAll(rows, cands, rejects), rows, cands, rejects)
    decreases |cands|
  {
    if cands != [] {
      var n := if |cands| < BatchSize then |cands| else BatchSize;
      var head, tail := cands[..n], cands[n..];
      assert cands == head + tail;
      WriteBatchWrites(rows, head, rejects);
      var b := WriteBatch(rows, head, rejects);
      if !b.raised {
        WriteAllWrites(b.rows, tail, rejects);
        var r := WriteAll(b.rows, tail, rejects);
        assert KeysOf(cands) == KeysOf(head) + KeysOf(tail);
        forall i | |rows| <= i < |r.rows|
          ensures r.rows[i] in cands
        {
          if i < |b.rows| {
            assert r.rows[i] == b.rows[i];
          }
        }
      }
    }
  }

  /** One slice of the insert loop, from position i. */
  lemma WriteAllStep(rows: seq<Candle>, cands: seq<Candle>, i: nat, rejects: set<TradeDate>)
    requires i < |cands|
    ensures var n := if |cands| - i < BatchSize then |cands| - i else BatchSize;
            var b := WriteBatch(rows, cands[i..i + n], rejects);
            var rest := WriteAll(b.rows, cands[i + n..], rejects);
            WriteAll(rows, cands[i..], rejects)
            == if b.raised then b else WriteResult(rest.rows, b.saved + rest.saved, b.skipped + rest.skipped, rest.raised)
  {
    var n := if |cands| - i < BatchSize then |cands| - i else BatchSize;
    assert cands[i..][..n] == cands[i..i + n];
    assert cands[i..][n..] == cands[i + n..];
  }

  /** Index of a row with the latest open time. */
  function LatestIndex(cs: seq<Candle>): (i: nat)
    requires cs != []
    ensures i < |cs| && forall j :: 0 <= j < |cs| ==> cs[j].row.openTime <= cs[i].row.openTime
  {
    if |cs| == 1 then 0
    else
      var k := LatestIndex(cs[1..]);
      assert forall j :: 1 <= j < |cs| ==> cs[j] == cs[1..][j - 1];
      if cs[0].row.openTime >= cs[k + 1].row.openTime then 0 else k + 1
  }

  /**
   * _insert_with_skip_duplicates on a table holding `rows`: each row is
   * committed on its own; a duplicate key is counted and skipped, any other
   * error is raised.
   */
  method InsertWithSkipDuplicates(rows: seq<Candle>, batch: seq<Candle>, rejects: set<TradeDate>)
    returns (w: WriteResult)
    ensures w == RowByRow(rows, batch, rejects)
  {
    var table := rows;
    var saved: nat, skipped: nat := 0, 0;
    var i := 0;
    while i < |batch|
      invariant 0 <= i <= |batch|
      invariant var r := RowByRow(table, batch[i..], rejects);
                RowByRow(rows, batch, rejects) == WriteResult(r.rows, saved + r.saved, skipped + r.skipped, r.raised)
    {
      var c := batch[i];
      assert batch[i..][1..] == batch[i + 1..];
      if c.tradeDate in rejects {
        return WriteResult(table, saved, skipped, true);
      }
      if c.tradeDate in KeysOf(table) {
        skipped := skipped + 1;
      } else {
        table := table + [c];
        saved := saved + 1;
      }
      i := i + 1;
    }
    return WriteResult(table, saved, skipped, false);
  }

  /**
   * One slice written with `to_sql`, falling back to row-by-row insertion
   * after a duplicate-key error.
   */
  method WriteSlice(rows: seq<Candle>, batch: seq<Candle>, rejects: set<TradeDate>) returns (w: WriteResult)
    ensures w == WriteBatch(rows, batch, rejects)
  {
    var offence := FirstOffence(KeysOf(rows), batch, rejects);
    if offence == Refused {
      w := WriteResult(rows, 0, 0, true);
    } else if offence == Duplicate {
      w := InsertWithSkipDuplicates(rows, batch, rejects);
    } else {
      w := WriteResult(rows + batch, |batch|, 0, false);
    }
  }

  /**
   * The batch loop of download_kline_data: consecutive slices of BatchSize
   * rows, stopping at the first slice that raises.
   */
  method WriteInBatches(rows: seq<Candle>, cands: seq<Candle>, rejects: set<TradeDate>) returns (w: WriteResult)
    ensures w == WriteAll(rows, cands, rejects)
  {
    var table := rows;
    var saved: nat, skipped: nat := 0, 0;
    var i := 0;
    while i < |cands|
      invariant 0 <= i <= |cands|
      invariant var r := WriteAll(table, cands[i..], rejects);
                WriteAll(rows, cands, rejects) == WriteResult(r.rows, saved + r.saved, skipped + r.skipped, r.raised)
    {
      var n := if |cands| - i < BatchSize then |cands| - i else BatchSize;
      WriteAllStep(table, cands, i, rejects);
      var b := WriteSlice(table, cands[i..i + n], rejects);
      if b.raised {
        return WriteResult(b.rows, saved + b.saved, skipped + b.skipped, true);
      }
      table, saved, skipped := b.rows, saved + b.saved, skipped + b.skipped;
      i := i + n;
    }
    return WriteResult(table, saved, skipped, false);
  }

  class Database {
    var tables: map<string, seq<Candle>>

    /** Every table keeps its primary key unique. */
    ghost predicate Valid()
      reads this
    {
      forall name :: name in tables ==> DistinctKeys(tables[name])
    }

    constructor()
      ensures tables == map[]
      ensures Valid()
    {
      tables := map[];
    }

    /** The rows of a table; a missing table reads as empty. */
    function Rows(name: string): seq<Candle>
      reads this
    {
      if name in tables then tables[name] else []
    }

    /** get_existing_dates: the keys of a table, empty when it does not exist. */
    function ExistingDates(name: string): set<TradeDate>
      reads this
    {
      KeysOf(Rows(name))
    }

    /** get_last_trade_date: the key of a row with the latest open time, None for an empty or missing table. */
    function LastTradeDate(name: string): (r: Option<TradeDate>)
      reads this
      ensures r.None? <==> Rows(name) == []
      ensures r.Some? ==> r.value in ExistingDates(name)
      ensures r.Some? ==> exists i :: 0 <= i < |Rows(name)| && Rows(name)[i].tradeDate == r.value
                            && forall j :: 0 <= j < |Rows(name)| ==> Rows(name)[j].row.openTime <= Rows(name)[i].row.openTime
    {
      if Rows(name) == [] then None
      else
        var i := LatestIndex(Rows(name));
        assert Rows(name)[i] in Rows(name);
        Some(Rows(name)[i].tradeDate)
    }

    /** create_table: an absent table is created empty; an existing one is left alone. */
    method CreateTable(name: string)
      requires Valid()
      modifies this
      ensures Valid()
      ensures tables == old(tables)[name := old(Rows(name))]
    {
      tables := tables[name := Rows(name)];
    }

    /**
     * The insert step of download_kline_data on table `name`: the rows the
     * slices committed stay, including those of a slice that raised part way
     * through its row-by-row fallback.
     */
    method SaveRows(name: string, cands: seq<Candle>, rejects: set<TradeDate>)
      returns (saved: nat, raised: bool)
      requires Valid()
      modifies this
      ensures Valid()
      ensures tables == old(tables)[name := WriteAll(old(Rows(name)), cands, rejects).rows]
      ensures saved == WriteAll(old(Rows(name)), cands, rejects).saved
      ensures raised == WriteAll(old(Rows(name)), cands, rejects).raised
    {
      WriteAllWrites(Rows(name), cands, rejects);
      var w := WriteInBatches(Rows(name), cands, rejects);
      tables := tables[name := w.rows];
      saved, raised := w.saved, w.raised;
    }
  }
}
