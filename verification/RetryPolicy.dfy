/** Retry delays in nanoseconds. The only random input, the jitter, is an argument. */
module RetryPolicy {

  const SECOND := 1_000_000_000
  const MINUTE := 60 * SECOND
  const CAP := 30 * MINUTE

  function Pow2(k: nat): (p: nat)
    ensures p >= 1
  {
    if k == 0 then 1 else 2 * Pow2(k - 1)
  }

  /** The exponent actually used for the n-th consecutive failure. */
  function Exponent(consecutive: int): (k: nat)
  {
    var n := if consecutive < 1 then 1 else consecutive;
    if n - 1 > 10 then 10 else n - 1
  }

  function BaseDelay(consecutive: int): int
  {
    var delay := SECOND * Pow2(Exponent(consecutive));
    if delay > CAP then CAP else delay
  }

  /** A draw below a fifth of the base delay. */
  predicate ValidJitter(consecutive: int, jitter: int) {
    0 <= jitter < BaseDelay(consecutive) / 5
  }

  function RetryBackoff(consecutive: int, jitter: int): int { BaseDelay(consecutive) + jitter }

  function LimitedRetryBackoff(failure: int): int {
    match failure
    case 1 => MINUTE
    case 2 => 5 * MINUTE
    case _ => 15 * MINUTE
  }

  lemma Pow2UpToTen(k: nat)
    requires k <= 10
    ensures Pow2(k) <= 1024
    decreases 10 - k
  {
    if k == 10 {
      assert Pow2(2) == 4 && Pow2(4) == 16 && Pow2(6) == 64 && Pow2(8) == 256;
    } else {
      Pow2UpToTen(k + 1);
    }
  }

  /** The delay lies in [2^k s, 1.2 * 2^k s) for k = min(n - 1, 10). In
      particular the thirty-minute cap is never the binding bound. */
  lemma BackoffRange(consecutive: int, jitter: int)
    requires ValidJitter(consecutive, jitter)
    ensures var step := SECOND * Pow2(Exponent(consecutive));
            && step <= RetryBackoff(consecutive, jitter)
            && 5 * RetryBackoff(consecutive, jitter) < 6 * step
            && step < CAP
  {
    Pow2UpToTen(Exponent(consecutive));
  }

  /** More failures never shorten the base delay, and an extra failure below
      the exponent limit exactly doubles it. */
  lemma BackoffGrows(n: int)
    requires n >= 1
    ensures BaseDelay(n + 1) == if n <= 10 then 2 * BaseDelay(n) else BaseDelay(n)
  {
    Pow2UpToTen(Exponent(n));
    Pow2UpToTen(Exponent(n + 1));
  }
}
