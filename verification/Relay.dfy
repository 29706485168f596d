/** The retry schedule of the outbox worker and its timing constants. */
module Relay {
  import opened Types
  import opened Outbox

  const LEASE := 10 * SECOND
  const RETENTION := 7 * 24 * HOUR
  const PURGE_BATCH := 1000

  function Pow2(n: nat): (p: nat)
    ensures p > n
  {
    if n == 0 then 1 else 2 * Pow2(n - 1)
  }

  /** One second, doubling with every attempt, never more than a minute. */
  function RetryDelay(attempt: nat): (d: nat)
    ensures SECOND <= d <= MINUTE
  {
    if attempt <= 1 then SECOND else Min(Pow2(attempt - 1) * SECOND, MINUTE)
  }

  /** The doubling loop computes the closed form for every attempt number. */
  method ComputeRetryDelay(attempt: nat) returns (delay: nat)
    ensures delay == RetryDelay(attempt)
  {
    delay := SECOND;
    var n := 1;
    while n < attempt && delay < MINUTE
      invariant 1 <= n && (n <= attempt || n == 1)
      invariant delay == Pow2(n - 1) * SECOND
      decreases attempt - n
    {
      delay := delay * 2;
      n := n + 1;
    }
    if n < attempt {
      Pow2Grows(n - 1, attempt - 1);
    }
    delay := Min(delay, MINUTE);
  }

  lemma {:induction false} Pow2Grows(a: nat, b: nat)
    requires a <= b
    ensures Pow2(a) <= Pow2(b)
  {
    if a < b {
      Pow2Grows(a, b - 1);
    }
  }
}
