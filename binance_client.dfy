/**
 * The exchange client: the network-error classifier of the retry decorator,
 * the two wrapped calls that turn every exception into an empty result, the
 * USDT trading-symbol filter, and the conversion of raw candles into rows
 * with the close-to-close `diff` column.
 */
module BinanceClient {
  import opened Common
  import opened Retry

  /** BINANCE_MAX_RETRIES and BINANCE_RETRY_DELAY (seconds). */
  const MaxRetries: nat := 3
  const RetryDelay: int := 2

  // ---------------------------------------------------------------------
  // Network-error classification
  // ---------------------------------------------------------------------

  /** Keyword tests on the lower-cased message and on the exception's type name. */
  predicate KeywordsIn(msg: string, typeName: string)
  {
    Contains(msg, "network") || Contains(msg, "timeout") || Contains(msg, "connection")
    || Contains(msg, "connect") || Contains(typeName, "ConnectTimeoutError")
    || Contains(typeName, "ConnectionError") || Contains(typeName, "TimeoutError")
  }

  /** Keyword tests shared by both versions of the classifier. */
  predicate NetworkKeywords(f: Failure)
  {
    KeywordsIn(Lower(f.message), f.typeName)
  }

  /**
   * The classifier of retry_on_network_error as written: its last test looks
   * for 'Max retries exceeded' in the lower-cased message.
   */
  predicate IsNetworkErrorAsWritten(f: Failure)
  {
    NetworkKeywords(f) || Contains(Lower(f.message), "Max retries exceeded")
  }

  /** The classifier with the last test on the lower-cased keyword. */
  predicate IsNetworkError(f: Failure)
  {
    NetworkKeywords(f) || Contains(Lower(f.message), "max retries exceeded")
  }

  /** Lower-cased text never contains a capital letter, so the last test as written is dead. */
  lemma CapitalisedTestNeverMatches(f: Failure)
    ensures !Contains(Lower(f.message), "Max retries exceeded")
    ensures IsNetworkErrorAsWritten(f) <==> NetworkKeywords(f)
  {
    var msg := Lower(f.message);
    assert 'M' !in msg by {
      forall i | 0 <= i < |msg|
        ensures msg[i] != 'M'
      {
        assert msg[i] == LowerChar(f.message[i]);
      }
    }
    AbsentChar(msg, "Max retries exceeded", 'M');
  }

  /** The corrected classifier accepts everything the written one accepts. */
  lemma CorrectedClassifierWidens(f: Failure)
    ensures IsNetworkErrorAsWritten(f) ==> IsNetworkError(f)
  {
    CapitalisedTestNeverMatches(f);
  }

  /**
   * An exception whose only hint is "Max retries exceeded" is re-raised at
   * once by the written classifier, but is a network error once the keyword
   * is lower-cased.
   */
  lemma MaxRetriesMessageMisclassified()
    ensures !IsNetworkErrorAsWritten(Failure("Max retries exceeded", "RetryError"))
    ensures IsNetworkError(Failure("Max retries exceeded", "RetryError"))
  {
    var f := Failure("Max retries exceeded", "RetryError");
    MaxRetriesHasNoKeyword();
    CapitalisedTestNeverMatches(f);
    LowerMaxRetries();
    ContainsAt(Lower(f.message), "max retries exceeded", 0);
  }

  /** None of the other keywords occurs in the message or the type name. */
  lemma MaxRetriesHasNoKeyword()
    ensures !NetworkKeywords(Failure("Max retries exceeded", "RetryError"))
  {
    LowerMaxRetries();
    NoKeywordInLowered();
  }

  lemma NoKeywordInLowered()
    ensures !KeywordsIn("max retries exceeded", "RetryError")
  {
    NoKeywordInMessage();
    NoKeywordInTypeName();
  }

  lemma NoKeywordInMessage()
    ensures !Contains("max retries exceeded", "network") && !Contains("max retries exceeded", "timeout")
    ensures !Contains("max retries exceeded", "connection") && !Contains("max retries exceeded", "connect")
  {
    AbsentChar("max retries exceeded", "network", 'o');
    AbsentChar("max retries exceeded", "timeout", 'o');
    AbsentChar("max retries exceeded", "connection", 'o');
    AbsentChar("max retries exceeded", "connect", 'o');
  }

  lemma NoKeywordInTypeName()
    ensures !Contains("RetryError", "ConnectTimeoutError") && !Contains("RetryError", "ConnectionError")
    ensures !Contains("RetryError", "TimeoutError")
  {
    AbsentChar("RetryError", "ConnectTimeoutError", 'C');
    AbsentChar("RetryError", "ConnectionError", 'C');
    AbsentChar("RetryError", "TimeoutError", 'T');
  }

  lemma LowerMaxRetries()
    ensures Lower("Max retries exceeded") == "max retries exceeded"
  {
    var s := "Max retries exceeded";
    var l := Lower(s);
    assert l[0] == 'm';
    forall i | 1 <= i < |s|
      ensures l[i] == s[i]
    {
      assert !('A' <= s[i] <= 'Z');
    }
  }

  // ---------------------------------------------------------------------
  // Trading symbols
  // ---------------------------------------------------------------------

  /** One entry of the exchange information: a symbol and its trading status. */
  datatype SymbolInfo = SymbolInfo(symbol: string, status: string)

  /** The pattern `usdt$` searched case-insensitively: the symbol ends in USDT in any case. */
  predicate MatchesUsdt(symbol: string)
  {
    EndsWith(Lower(symbol), "usdt")
  }

  /** Symbols of the matching entries with the requested status, in exchange order. */
  function TradingSymbols(infos: seq<SymbolInfo>, status: string): (r: seq<string>)
    ensures |r| <= |infos|
    ensures forall x :: x in r <==>
              exists i :: 0 <= i < |infos| && infos[i].symbol == x && MatchesUsdt(x) && infos[i].status == status
  {
    if infos == [] then []
    else
      var rest := TradingSymbols(infos[1..], status);
      assert forall i :: 1 <= i < |infos| ==> infos[i] == infos[1..][i - 1];
      if MatchesUsdt(infos[0].symbol) && infos[0].status == status then [infos[0].symbol] + rest else rest
  }

  /** in_exchange_trading_symbols: the filtered list, or [] whatever the request raised. */
  function InExchangeTradingSymbols(response: Attempt<seq<SymbolInfo>>, status: string): (r: seq<string>)
    ensures response.Raised? ==> r == []
    ensures response.Ok? ==> forall x :: x in r <==>
              exists i :: 0 <= i < |response.value| && response.value[i].symbol == x
                          && MatchesUsdt(x) && response.value[i].status == status
  {
    match response
    case Ok(infos) => TradingSymbols(infos, status)
    case Raised(_) => []
  }

  /**
   * The decorated call: since the wrapped method never raises, the retry
   * loop makes exactly one request and never waits.
   */
  method FetchTradingSymbols(exchange: nat -> Attempt<seq<SymbolInfo>>, status: string)
    returns (r: Attempt<seq<string>>, waits: seq<int>)
    ensures waits == []
    ensures r == Ok(InExchangeTradingSymbols(exchange(0), status))
  {
    var call := (k: nat) => Ok(InExchangeTradingSymbols(exchange(k), status));
    NoRetryWhenNothingRaises(MaxRetries, call, IsNetworkError);
    r, waits := RetryWithBackoff(MaxRetries, RetryDelay, call, IsNetworkError);
  }

  // ---------------------------------------------------------------------
  // Candles
  // ---------------------------------------------------------------------

  /** One candle as the exchange returns it (open time in seconds). */
  datatype RawKline = RawKline(openTime: int, open: real, high: real, low: real, close: real, volume: real)

  /** kline_candlestick_data: the candles, or None whatever the request raised. */
  function KlineCandlestickData(response: Attempt<seq<RawKline>>): (r: Option<seq<RawKline>>)
    ensures r.None? <==> response.Raised?
    ensures r.Some? ==> r.value == response.value
  {
    match response
    case Ok(data) => Some(data)
    case Raised(_) => None
  }

  /** The decorated candle request: one request, no waits, errors already turned into None. */
  method FetchKlines(exchange: nat -> Attempt<seq<RawKline>>) returns (r: Attempt<Option<seq<RawKline>>>, waits: seq<int>)
    ensures waits == []
    ensures r == Ok(KlineCandlestickData(exchange(0)))
    ensures r.value.None? <==> exchange(0).Raised?
  {
    var call := (k: nat) => Ok(KlineCandlestickData(exchange(k)));
    NoRetryWhenNothingRaises(MaxRetries, call, IsNetworkError);
    r, waits := RetryWithBackoff(MaxRetries, RetryDelay, call, IsNetworkError);
  }

  /** A row of the frame kline2df builds; `diff` is NaN (None) on the first row. */
  datatype KlineRow = KlineRow(openTime: int, open: real, high: real, low: real, close: real,
                               volume: real, diff: Option<real>)

  function ToRow(k: RawKline, diff: Option<real>): KlineRow
  {
    KlineRow(k.openTime, k.open, k.high, k.low, k.close, k.volume, diff)
  }

  /** Each row's diff is its close minus the previous row's close. */
  predicate DiffsChained(rows: seq<KlineRow>)
  {
    forall i :: 0 < i < |rows| ==> rows[i].diff == Some(rows[i].close - rows[i - 1].close)
  }

  function DiffAt(raws: seq<RawKline>, i: int): Option<real>
    requires 0 <= i < |raws|
  {
    if i == 0 then None else Some(raws[i].close - raws[i - 1].close)
  }

  /** kline2df: every candle becomes a row, with its close minus the previous close as `diff`. */
  function Kline2Df(raws: seq<RawKline>): seq<KlineRow>
  {
    seq(|raws|, i requires 0 <= i < |raws| => ToRow(raws[i], DiffAt(raws, i)))
  }

  /** One row per candle with its prices and volume, no diff on the first row, and the diffs chained. */
  lemma Kline2DfRows(raws: seq<RawKline>)
    ensures |Kline2Df(raws)| == |raws|
    ensures forall i :: 0 <= i < |raws| ==>
              var r := Kline2Df(raws)[i];
              r.openTime == raws[i].openTime && r.open == raws[i].open && r.high == raws[i].high
              && r.low == raws[i].low && r.close == raws[i].close && r.volume == raws[i].volume
    ensures |raws| > 0 ==> Kline2Df(raws)[0].diff.None?
    ensures DiffsChained(Kline2Df(raws))
  {
  }

  /** Sum of the diffs of rows 1 .. j. */
  function DiffSum(rows: seq<KlineRow>, j: nat): real
    requires j < |rows|
  {
    if j == 0 then 0.0
    else DiffSum(rows, j - 1) + (if rows[j].diff.Some? then rows[j].diff.value else 0.0)
  }

  lemma {:induction false} Telescope(rows: seq<KlineRow>, j: nat)
    requires j < |rows| && DiffsChained(rows)
    ensures rows[j].close == rows[0].close + DiffSum(rows, j)
  {
    if j > 0 {
      Telescope(rows, j - 1);
    }
  }

  /** The diffs telescope: every close is the first close plus the diffs up to it. */
  lemma DiffsTelescope(raws: seq<RawKline>, j: nat)
    requires j < |raws|
    ensures Kline2Df(raws)[j].close == raws[0].close + DiffSum(Kline2Df(raws), j)
  {
    Kline2DfRows(raws);
    Telescope(Kline2Df(raws), j);
  }
}
