/**
 * The retry-with-exponential-backoff loop shared by the exchange client and
 * the PostgreSQL-to-PostgreSQL copier: try a call up to maxRetries + 1 times,
 * retrying only failures the classifier accepts, waiting delay * 2^k seconds
 * before retry k + 1.  Waiting is recorded, not performed.
 */
module Retry {

  /** What an exception carries that the classifiers look at. */
  datatype Failure = Failure(message: string, typeName: string)

  /** The outcome of one call: a value, or a raised exception. */
  datatype Attempt<T> = Ok(value: T) | Raised(error: Failure)

  function Pow2(k: nat): (p: nat)
    ensures p >= 1
  {
    if k == 0 then 1 else 2 * Pow2(k - 1)
  }

  /**
   * Index of the attempt that ends the loop when attempts are made from k
   * onwards: the first one that succeeds, raises a failure the classifier
   * rejects, or is the last allowed attempt.
   */
  function StopAt<T>(k: nat, maxRetries: nat, call: nat -> Attempt<T>, retryable: Failure -> bool): (n: nat)
    requires k <= maxRetries
    ensures k <= n <= maxRetries
    ensures n == maxRetries || call(n).Ok? || !retryable(call(n).error)
    ensures forall j :: k <= j < n ==> call(j).Raised? && retryable(call(j).error)
    decreases maxRetries - k
  {
    if k == maxRetries || call(k).Ok? || !retryable(call(k).error) then k
    else StopAt(k + 1, maxRetries, call, retryable)
  }

  /**
   * The loop of retry_on_network_error: `call(k)` is what attempt k (from 0)
   * returns or raises.  The result is the outcome of the attempt that ended
   * the loop, `waits[k]` the pause before attempt k + 1.
   */
  method RetryWithBackoff<T>(maxRetries: nat, delay: int, call: nat -> Attempt<T>, retryable: Failure -> bool)
    returns (r: Attempt<T>, waits: seq<int>)
    ensures |waits| == StopAt(0, maxRetries, call, retryable)
    ensures r == call(|waits|)
    ensures |waits| + 1 <= maxRetries + 1
    ensures forall k :: 0 <= k < |waits| ==> waits[k] == delay * Pow2(k)
    ensures forall k :: 0 <= k < |waits| ==> call(k).Raised? && retryable(call(k).error)
    ensures r.Raised? ==> |waits| == maxRetries || !retryable(r.error)
  {
    var attempt: nat := 0;
    waits := [];
    while true
      invariant attempt <= maxRetries
      invariant |waits| == attempt
      invariant StopAt(0, maxRetries, call, retryable) == StopAt(attempt, maxRetries, call, retryable)
      invariant forall k :: 0 <= k < attempt ==> waits[k] == delay * Pow2(k)
      decreases maxRetries - attempt
    {
      r := call(attempt);
      if r.Ok? || !retryable(r.error) || attempt == maxRetries {
        return;
      }
      waits := waits + [delay * Pow2(attempt)];
      attempt := attempt + 1;
    }
  }

  /** A call that never raises ends the loop at its first attempt, without waiting. */
  lemma NoRetryWhenNothingRaises<T>(maxRetries: nat, call: nat -> Attempt<T>, retryable: Failure -> bool)
    requires forall k :: call(k).Ok?
    ensures StopAt(0, maxRetries, call, retryable) == 0
  {
  }

  /** The total time waited is delay * (2^n - 1) after n retries. */
  function TotalWait(delay: int, n: nat): (t: int)
    ensures t == delay * (Pow2(n) - 1)
  {
    if n == 0 then 0 else TotalWait(delay, n - 1) + delay * Pow2(n - 1)
  }
}
