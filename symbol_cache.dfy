/**
 * The process-wide cache of symbols the exchange reports as TRADING
 * (`_valid_trading_symbols_cache` and `_cache_timestamp`), and the symbol
 * check built on it, which lets a download through whenever the list is
 * unavailable.
 */
module SymbolCache {
  import opened Common
  import opened Retry

  /** CACHE_TTL_SECONDS. */
  const CacheTtl: int := 3600

  /** The two module-level variables of the cache, as a value. */
  datatype CacheState = CacheState(cached: Option<seq<string>>, cachedAt: Option<int>)

  /** The cached list may be served at time `now`: not forced, present, and younger than the TTL. */
  predicate ServesIn(c: CacheState, force: bool, now: int)
  {
    !force && c.cached.Some? && c.cachedAt.Some? && now - c.cachedAt.value < CacheTtl
  }

  /**
   * Whether validate_symbol lets `symbol` through at time `now`: skipped,
   * or checked against the list the cache serves or the refresh returns,
   * an empty or missing list letting everything through.
   */
  predicate AcceptsIn(c: CacheState, symbol: string, skip: bool, now: int, refresh: Attempt<seq<string>>)
  {
    if skip then true
    else if ServesIn(c, false, now) then symbol in c.cached.value
    else match refresh
      case Ok(symbols) => symbols == [] || symbol in symbols
      case Raised(_) => c.cached.None? || symbol in c.cached.value
  }

  /** The list get_valid_trading_symbols returns: the served cache, the refreshed list, or the stale cache on error. */
  function ListedIn(c: CacheState, force: bool, now: int, refresh: Attempt<seq<string>>): seq<string>
  {
    if ServesIn(c, force, now) then c.cached.value
    else match refresh
      case Ok(symbols) => symbols
      case Raised(_) => if c.cached.Some? then c.cached.value else []
  }

  /** The cache after get_valid_trading_symbols: only a refreshed non-empty list replaces it, stamped `now`. */
  function AfterGet(c: CacheState, force: bool, now: int, refresh: Attempt<seq<string>>): CacheState
  {
    if ServesIn(c, force, now) then c
    else match refresh
      case Ok(symbols) => if symbols != [] then CacheState(Some(symbols), Some(now)) else c
      case Raised(_) => c
  }

  /** The cache after validate_symbol: a skipped check reads nothing. */
  function AfterValidate(c: CacheState, skip: bool, now: int, refresh: Attempt<seq<string>>): CacheState
  {
    if skip then c else AfterGet(c, false, now, refresh)
  }

  class ValidSymbolCache {
    var cached: Option<seq<string>>
    var cachedAt: Option<int>

    /** The list and its time are set together, and only a non-empty list is ever cached. */
    ghost predicate Valid()
      reads this
    {
      (cached.Some? <==> cachedAt.Some?) && (cached.Some? ==> cached.value != [])
    }

    constructor()
      ensures cached == None && cachedAt == None
      ensures Valid()
    {
      cached := None;
      cachedAt := None;
    }

    /** The cache's two variables as a value. */
    function State(): CacheState
      reads this
    {
      CacheState(cached, cachedAt)
    }

    predicate Serves(force: bool, now: int)
      reads this
    {
      ServesIn(State(), force, now)
    }

    predicate Accepts(symbol: string, skip: bool, now: int, refresh: Attempt<seq<string>>)
      reads this
    {
      AcceptsIn(State(), symbol, skip, now, refresh)
    }

    function Listed(force: bool, now: int, refresh: Attempt<seq<string>>): seq<string>
      reads this
    {
      ListedIn(State(), force, now, refresh)
    }

    /**
     * get_valid_trading_symbols at time `now`; `refresh` is what the exchange
     * request returns or raises when the cache cannot be served.
     */
    method GetValidTradingSymbols(force: bool, now: int, refresh: Attempt<seq<string>>) returns (r: seq<string>)
      requires Valid()
      modifies this
      ensures Valid()
      ensures old(Serves(force, now)) ==> r == old(cached).value && unchanged(this)
      ensures !old(Serves(force, now)) && refresh.Ok? && refresh.value != [] ==>
                r == refresh.value && cached == Some(r) && cachedAt == Some(now)
      ensures !old(Serves(force, now)) && refresh.Ok? && refresh.value == [] ==> r == [] && unchanged(this)
      ensures !old(Serves(force, now)) && refresh.Raised? ==>
                r == (if old(cached).Some? then old(cached).value else []) && unchanged(this)
      ensures r != [] ==> cached == Some(r)
      ensures r == old(Listed(force, now, refresh))
      ensures State() == AfterGet(old(State()), force, now, refresh)
    {
      if Serves(force, now) {
        return cached.value;
      }
      match refresh {
        case Ok(symbols) =>
          if symbols != [] {
            cached := Some(symbols);
            cachedAt := Some(now);
            return symbols;
          }
          return [];
        case Raised(_) =>
          if cached.Some? {
            return cached.value;
          }
          return [];
      }
    }

    /**
     * validate_symbol: true when validation is skipped or no list could be
     * had, otherwise whether the symbol is in the list.
     */
    method ValidateSymbol(symbol: string, skip: bool, now: int, refresh: Attempt<seq<string>>) returns (ok: bool)
      requires Valid()
      modifies this
      ensures Valid()
      ensures ok == old(Accepts(symbol, skip, now, refresh))
      ensures skip || old(Serves(false, now)) || refresh.Raised? ==> unchanged(this)
      ensures !ok ==> cached.Some? && symbol !in cached.value
      ensures State() == AfterValidate(old(State()), skip, now, refresh)
    {
      if skip {
        return true;
      }
      var valid := GetValidTradingSymbols(false, now, refresh);
      if valid == [] {
        return true;
      }
      return symbol in valid;
    }
  }
}
