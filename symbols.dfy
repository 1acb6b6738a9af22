/**
 * The table of known trading pairs (`symbol -> status` plus its three
 * timestamps), its synchronisation with the exchange's list, and the
 * single-row status update, upsert and delete.
 */
module Symbols {
  import opened Common

  const Trading: string := "TRADING"
  const DelistedStatus: string := "DELISTED"

  /** The statuses update_symbol_status accepts. */
  const ValidStatuses: seq<string> := ["TRADING", "DELISTED", "BREAK", "PRE_TRADING", "POST_TRADING", "PENDING_TRADING"]

  /** One row of the symbols table: status, and when it was created, last changed and last seen on the exchange. */
  datatype SymbolRow = SymbolRow(status: string, createdAt: int, updatedAt: int, lastSyncAt: int)

  /** The counts sync_symbols_from_exchange returns. */
  datatype SyncStats = SyncStats(added: nat, updated: nat, delisted: nat, totalExchange: nat, totalLocal: nat)

  /**
   * What a sync at time `now` does to one symbol that is listed by the
   * exchange or stored locally: a new one is inserted as trading, a listed
   * one becomes (or stays) trading and is stamped as seen, a stored trading
   * one that is no longer listed is delisted, any other row is left alone.
   */
  function SyncedRow(local: map<string, SymbolRow>, ex: set<string>, now: int, s: string): SymbolRow
    requires s in local || s in ex
  {
    if s !in local then SymbolRow(Trading, now, now, now)
    else if s in ex then
      if local[s].status != Trading then local[s].(status := Trading, updatedAt := now, lastSyncAt := now)
      else local[s].(lastSyncAt := now)
    else if local[s].status == Trading then DelistedRow(local[s], now)
    else local[s]
  }

  /** A trading row marked delisted at time `now`. */
  function DelistedRow(r: SymbolRow, now: int): SymbolRow
  {
    r.(status := DelistedStatus, updatedAt := now, lastSyncAt := now)
  }

  /** The table after a complete sync against the exchange set `ex`. */
  function Synced(local: map<string, SymbolRow>, ex: set<string>, now: int): map<string, SymbolRow>
  {
    map s | s in local.Keys + ex :: SyncedRow(local, ex, now, s)
  }

  /** Stored symbols the exchange lists again but that were not trading. */
  function Reactivated(local: map<string, SymbolRow>, ex: set<string>): set<string>
  {
    set s | s in local && s in ex && local[s].status != Trading
  }

  /** Stored trading symbols the exchange no longer lists. */
  function Dropped(local: map<string, SymbolRow>, ex: set<string>): set<string>
  {
    set s | s in local && s !in ex && local[s].status == Trading
  }

  /**
   * After a sync the table holds the stored and the listed symbols, a symbol
   * is trading exactly when the exchange lists it, and creation times of
   * stored rows are kept.
   */
  lemma SyncedFacts(local: map<string, SymbolRow>, ex: set<string>, now: int)
    ensures Synced(local, ex, now).Keys == local.Keys + ex
    ensures forall s :: s in Synced(local, ex, now) ==> (Synced(local, ex, now)[s].status == Trading <==> s in ex)
    ensures forall s :: s in local ==> Synced(local, ex, now)[s].createdAt == local[s].createdAt
    ensures forall s :: s in ex ==> Synced(local, ex, now)[s].lastSyncAt == now
    ensures forall s :: s in local && s !in ex && local[s].status != Trading ==> Synced(local, ex, now)[s] == local[s]
  {
  }

  /** A second sync against the same list adds, reactivates and delists nothing, and changes no status. */
  lemma SyncIdempotent(local: map<string, SymbolRow>, ex: set<string>, now: int, later: int)
    ensures var once := Synced(local, ex, now);
            ex - once.Keys == {} && Reactivated(once, ex) == {} && Dropped(once, ex) == {}
            && Synced(once, ex, later).Keys == once.Keys
            && forall s :: s in once ==> Synced(once, ex, later)[s].status == once[s].status
  {
    SyncedFacts(local, ex, now);
    var once := Synced(local, ex, now);
    SyncedFacts(once, ex, later);
    assert Reactivated(once, ex) == {} by {
      forall s | s in once && s in ex
        ensures once[s].status == Trading
      {
      }
    }
    assert Dropped(once, ex) == {} by {
      forall s | s in once && s !in ex
        ensures once[s].status != Trading
      {
      }
    }
  }

  /** The first loop of the sync: every listed symbol not stored yet is inserted as trading. */
  method InsertNew(local: map<string, SymbolRow>, ex: set<string>, now: int) returns (table: map<string, SymbolRow>, added: nat)
    ensures forall k :: k in table <==> k in local || k in ex
    ensures forall k :: k in table ==> table[k] == if k in local then local[k] else SymbolRow(Trading, now, now, now)
    ensures added == |ex - local.Keys|
  {
    var newSymbols := ex - local.Keys;
    table := local;
    added := 0;
    ghost var counted: set<string> := {};
    var todo := newSymbols;
    while todo != {}
      invariant todo <= newSymbols
      invariant forall k :: k in table <==> k in local || (k in newSymbols && k !in todo)
      invariant forall k :: k in table ==> table[k] == if k in local then local[k] else SymbolRow(Trading, now, now, now)
      invariant added == |counted|
      invariant forall k :: k in counted <==> k in newSymbols && k !in todo
    {
      var s :| s in todo;
      table := table[s := SymbolRow(Trading, now, now, now)];
      added := added + 1;
      counted := counted + {s};
      todo := todo - {s};
    }
    assert counted == newSymbols;
  }

  /** The second loop: stored symbols listed again become trading, or have their sync time stamped. */
  method Reactivate(local: map<string, SymbolRow>, ex: set<string>, now: int, table0: map<string, SymbolRow>)
    returns (table: map<string, SymbolRow>, updated: nat)
    ensures forall k :: k in table <==> k in table0 || (k in ex && k in local)
    ensures forall k :: k in table ==> table[k] == if k in ex && k in local then SyncedRow(local, ex, now, k) else table0[k]
    ensures updated == |Reactivated(local, ex)|
  {
    var common := ex * local.Keys;
    table := table0;
    updated := 0;
    ghost var counted: set<string> := {};
    var todo := common;
    while todo != {}
      invariant todo <= common
      invariant forall k :: k in table <==> k in table0 || (k in common && k !in todo)
      invariant forall k :: k in table ==>
                  table[k] == if k in common && k !in todo then SyncedRow(local, ex, now, k) else table0[k]
      invariant updated == |counted|
      invariant forall k :: k in counted <==> k in Reactivated(local, ex) && k !in todo
    {
      var s :| s in todo;
      if local[s].status != Trading {
        table := table[s := local[s].(status := Trading, updatedAt := now, lastSyncAt := now)];
        updated := updated + 1;
        counted := counted + {s};
      } else {
        table := table[s := local[s].(lastSyncAt := now)];
      }
      todo := todo - {s};
    }
    assert counted == Reactivated(local, ex);
  }

  /** The third loop: stored trading symbols no longer listed are delisted; the rest are left alone. */
  method Delist(local: map<string, SymbolRow>, ex: set<string>, now: int, table0: map<string, SymbolRow>)
    returns (table: map<string, SymbolRow>, delisted: nat)
    ensures forall k :: k in table <==> k in table0 || k in Dropped(local, ex)
    ensures forall k :: k in table ==>
              table[k] == if k in Dropped(local, ex) then DelistedRow(local[k], now) else table0[k]
    ensures delisted == |Dropped(local, ex)|
  {
    var gone := local.Keys - ex;
    table := table0;
    delisted := 0;
    ghost var counted: set<string> := {};
    var todo := gone;
    while todo != {}
      invariant todo <= gone
      invariant forall k :: k in table <==> k in table0 || (k in Dropped(local, ex) && k !in todo)
      invariant forall k :: k in table ==>
                  table[k] == if k in Dropped(local, ex) && k !in todo then DelistedRow(local[k], now) else table0[k]
      invariant delisted == |counted|
      invariant forall k :: k in counted <==> k in Dropped(local, ex) && k !in todo
    {
      var s :| s in todo;
      if local[s].status == Trading {
        table := table[s := DelistedRow(local[s], now)];
        delisted := delisted + 1;
        counted := counted + {s};
      }
      todo := todo - {s};
    }
    assert counted == Dropped(local, ex);
  }

  /** The three loops together leave the table a full sync produces. */
  lemma SyncComposes(local: map<string, SymbolRow>, ex: set<string>, now: int,
                     t1: map<string, SymbolRow>, t2: map<string, SymbolRow>, t3: map<string, SymbolRow>)
    requires forall k :: k in t1 <==> k in local || k in ex
    requires forall k :: k in t1 ==> t1[k] == if k in local then local[k] else SymbolRow(Trading, now, now, now)
    requires forall k :: k in t2 <==> k in t1 || (k in ex && k in local)
    requires forall k :: k in t2 ==> t2[k] == if k in ex && k in local then SyncedRow(local, ex, now, k) else t1[k]
    requires forall k :: k in t3 <==> k in t2 || k in Dropped(local, ex)
    requires forall k :: k in t3 ==> t3[k] == if k in Dropped(local, ex) then DelistedRow(local[k], now) else t2[k]
    ensures t3 == Synced(local, ex, now)
  {
    var p := Synced(local, ex, now);
    assert t3.Keys == p.Keys;
    forall k | k in t3
      ensures t3[k] == p[k]
    {
    }
  }

  /** The widths of the `symbol` and `status` columns, VARCHAR(50) and VARCHAR(20). */
  const SymbolWidth: nat := 50
  const StatusWidth: nat := 20

  /**
   * What PostgreSQL stores when `value` is assigned to a VARCHAR(width)
   * column: a value that fits is kept; a longer one whose characters past
   * `width` are all spaces is cut to `width` characters without an error;
   * any other longer value makes the statement fail (None).
   */
  function ColumnValue(value: string, width: nat): (r: Option<string>)
    ensures r.Some? <==> forall i :: width <= i < |value| ==> value[i] == ' '
    ensures r.Some? ==> r.value <= value && |r.value| == (if |value| <= width then |value| else width)
  {
    if |value| <= width then Some(value)
    else if forall i :: width <= i < |value| ==> value[i] == ' ' then Some(value[..width])
    else None
  }

  /** Both values can be stored in their columns. */
  predicate FitsColumns(symbol: string, status: string)
  {
    ColumnValue(symbol, SymbolWidth).Some? && ColumnValue(status, StatusWidth).Some?
  }

  class SymbolTable {
    var rows: map<string, SymbolRow>

    constructor(initial: map<string, SymbolRow>)
      ensures rows == initial
    {
      rows := initial;
    }

    /**
     * sync_symbols_from_exchange at time `now`: new symbols are inserted,
     * listed ones reactivated, unlisted trading ones delisted, all within one
     * transaction that a dry run never commits; the counts are the same
     * either way.
     */
    method SyncFromExchange(exchange: seq<string>, dryRun: bool, now: int) returns (stats: SyncStats)
      modifies this
      ensures exchange == [] ==> stats == SyncStats(0, 0, 0, 0, 0) && rows == old(rows)
      ensures exchange != [] ==>
                var ex := Elements(exchange);
                stats == SyncStats(|ex - old(rows).Keys|, |Reactivated(old(rows), ex)|, |Dropped(old(rows), ex)|,
                                   |ex|, |old(rows).Keys|)
                && rows == (if dryRun then old(rows) else Synced(old(rows), ex, now))
    {
      if exchange == [] {
        return SyncStats(0, 0, 0, 0, 0);
      }
      var ex := Elements(exchange);
      var local := rows;
      var t1, added := InsertNew(local, ex, now);
      var t2, updated := Reactivate(local, ex, now, t1);
      var table, delisted := Delist(local, ex, now, t2);
      SyncComposes(local, ex, now, t1, t2, table);
      if !dryRun {
        rows := table;
      }
      return SyncStats(added, updated, delisted, |ex|, |local.Keys|);
    }

    /**
     * update_symbol_status: only one of the six valid statuses is written,
     * and only onto a stored symbol; the answer says whether a row changed.
     */
    method UpdateSymbolStatus(symbol: string, status: string, now: int) returns (ok: bool)
      modifies this
      ensures ok <==> status in ValidStatuses && symbol in old(rows)
      ensures ok ==> rows == old(rows)[symbol := old(rows)[symbol].(status := status, updatedAt := now)]
      ensures !ok ==> rows == old(rows)
    {
      if status !in ValidStatuses {
        return false;
      }
      if symbol !in rows {
        return false;
      }
      rows := rows[symbol := rows[symbol].(status := status, updatedAt := now)];
      return true;
    }

    /**
     * add_symbol: an upsert. A new symbol gets all three timestamps; a stored
     * one keeps its creation and sync times and takes the new status.  Both
     * values are first coerced to their columns, so the conflict key is the
     * stored symbol: a value padded with spaces past its width is cut, and
     * the statement fails, leaving the table as it was, when a value is
     * wider than its column otherwise or when the database refuses it for
     * another reason (`refused`, a lost connection say).
     */
    method AddSymbol(symbol: string, status: string, now: int, refused: bool) returns (ok: bool)
      modifies this
      ensures ok <==> !refused && FitsColumns(symbol, status)
      ensures !ok ==> rows == old(rows)
      ensures ok && |symbol| <= SymbolWidth && |status| <= StatusWidth ==>
                symbol in rows && rows[symbol].status == status && rows[symbol].updatedAt == now
      ensures ok ==> var key, st := ColumnValue(symbol, SymbolWidth).value, ColumnValue(status, StatusWidth).value;
                key in rows && rows[key].status == st && rows[key].updatedAt == now
                && (key !in old(rows) ==> rows == old(rows)[key := SymbolRow(st, now, now, now)])
                && (key in old(rows) ==> rows == old(rows)[key := old(rows)[key].(status := st, updatedAt := now)])
    {
      if refused || !FitsColumns(symbol, status) {
        return false;
      }
      var key := ColumnValue(symbol, SymbolWidth).value;
      var st := ColumnValue(status, StatusWidth).value;
      if key in rows {
        rows := rows[key := rows[key].(status := st, updatedAt := now)];
      } else {
        rows := rows[key := SymbolRow(st, now, now, now)];
      }
      return true;
    }

    /** delete_symbol: true exactly when a row was removed. */
    method DeleteSymbol(symbol: string) returns (removed: bool)
      modifies this
      ensures removed <==> symbol in old(rows)
      ensures rows == old(rows) - {symbol}
    {
      removed := symbol in rows;
      rows := rows - {symbol};
    }
  }
}
