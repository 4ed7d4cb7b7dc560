/** Retry and rate-limit delays, in seconds. */
module Backoff {
  import opened Wrappers

  function Pow2(n: nat): (p: nat)
    ensures p >= 1
  {
    if n == 0 then 1 else 2 * Pow2(n - 1)
  }

  lemma {:induction false} Pow2Grows(m: nat, n: nat)
    requires m <= n
    ensures Pow2(m) <= Pow2(n)
    decreases n - m
  {
    if m < n {
      Pow2Grows(m, n - 1);
    }
  }

  /** `Scheduler.compute_retry_delay`: min(2^(attempt - 1), 300). */
  function RetryDelay(attempt: nat): nat
    requires attempt > 0
  {
    Min(Pow2(attempt - 1), 300)
  }

  /** The wait before the `n`-th retry, told from one retry to the next: a second, doubled up to five minutes. */
  function Wait(n: nat): nat
    requires n > 0
  {
    if n == 1 then 1 else Min(2 * Wait(n - 1), 300)
  }

  /** The formula says the same, its power of two growing without a bound underneath the cap. */
  lemma {:induction false} RetryDelayIsWait(n: nat)
    requires n > 0
    ensures RetryDelay(n) == Wait(n)
  {
    if n > 1 {
      RetryDelayIsWait(n - 1);
    }
  }

  /** What the retries of one URL wait for altogether. */
  function RetryDelays(attempts: nat): nat {
    if attempts == 0 then 0 else RetryDelays(attempts - 1) + RetryDelay(attempts)
  }

  /** The waits double until they reach five minutes: nine retries take 511 seconds, each later one 300 more. */
  lemma {:induction false} RetryDelaysClosed(attempts: nat)
    ensures RetryDelays(attempts) == if attempts <= 9 then Pow2(attempts) - 1 else 511 + 300 * (attempts - 9)
  {
    assert Pow2(8) == 256 && Pow2(9) == 512;
    if attempts > 0 {
      RetryDelaysClosed(attempts - 1);
      if attempts <= 9 {
        Pow2Grows(attempts - 1, 8);
      } else {
        Pow2Grows(9, attempts - 1);
      }
    }
  }

  /** The Retry-After header as `float()` reads it. */
  datatype Header = Absent | Unreadable | NotANumber | Infinite(positive: bool) | Seconds(value: real)

  const RETRY_AFTER_CAP := 300.0
  const BACKOFF_CAP: nat := 60

  /** Without a usable header: min(2^(n - 1), 60). */
  function ExponentialBackoff(count: nat): nat
    requires count > 0
  {
    Min(Pow2(count - 1), BACKOFF_CAP)
  }

  /** `RateLimiter._compute_backoff`. */
  function ComputeBackoff(header: Header, count: nat): real
    requires count > 0
  {
    match header
    case Infinite(true) => RETRY_AFTER_CAP
    case Seconds(value) =>
      if value > RETRY_AFTER_CAP then RETRY_AFTER_CAP
      else if value >= 1.0 then value
      else ExponentialBackoff(count) as real
    case _ => ExponentialBackoff(count) as real
  }

  /** The header decides the wait exactly when it is a number of at least one second; otherwise it is as if absent. */
  predicate Usable(header: Header) {
    header == Infinite(true) || (header.Seconds? && header.value >= 1.0)
  }

  /**
   Every wait is between one second and five minutes, and within one minute when the header does not decide.  A
   header that decides is waited out in full, or for five minutes when it asks for more.
   */
  lemma BackoffBounds(header: Header, count: nat)
    requires count > 0
    ensures 1.0 <= ComputeBackoff(header, count) <= 300.0
    ensures !Usable(header) ==> ComputeBackoff(header, count) == ComputeBackoff(Absent, count) <= 60.0
    ensures header.Seconds? && 1.0 <= header.value <= 300.0 ==> ComputeBackoff(header, count) == header.value
    ensures Usable(header) && (header.Seconds? ==> header.value > 300.0) ==> ComputeBackoff(header, count) == 300.0
  {
  }

  /** What a header asks for, as far as two usable ones can be compared. */
  predicate AsksNoMore(header: Header, other: Header) {
    other == Infinite(true) || (header.Seconds? && other.Seconds? && header.value <= other.value)
  }

  /** Usable headers keep their order, whatever the number of 429s before either of them. */
  lemma UsableBackoffs(header: Header, other: Header, count: nat, later: nat)
    requires count > 0 && later > 0 && Usable(header) && Usable(other) && AsksNoMore(header, other)
    ensures ComputeBackoff(header, count) <= ComputeBackoff(other, later)
    ensures ComputeBackoff(header, count) == ComputeBackoff(header, later)
  {
  }

  /** Without a header the wait starts at a second and doubles up to a minute. */
  lemma HeaderFreeBackoffs(count: nat)
    requires count > 0
    ensures ComputeBackoff(Absent, 1) == 1.0
    ensures var (wait, next) := (ComputeBackoff(Absent, count), ComputeBackoff(Absent, count + 1));
      next == if wait <= 30.0 then 2.0 * wait else 60.0
  {
    assert Pow2(0) == 1 && Pow2(5) == 32;
    if count <= 6 {
      Pow2Grows(count - 1, 5);
    } else {
      Pow2Grows(5, count - 1);
    }
  }

  /** Without a header no wait is shorter than the one before it. */
  lemma BackoffMonotone(count: nat, later: nat)
    requires 0 < count <= later
    ensures ComputeBackoff(Absent, count) <= ComputeBackoff(Absent, later)
  {
    Pow2Grows(count - 1, later - 1);
  }

  /** What the first `k` waits without a header come to. */
  function ExponentialBackoffs(k: nat): nat {
    if k == 0 then 0 else ExponentialBackoffs(k - 1) + ExponentialBackoff(k)
  }

  lemma {:induction false} ExponentialBackoffsClosed(k: nat)
    ensures ExponentialBackoffs(k) == if k <= 6 then Pow2(k) - 1 else 63 + 60 * (k - 6)
  {
    assert Pow2(5) == 32 && Pow2(6) == 64;
    if k > 0 {
      ExponentialBackoffsClosed(k - 1);
      if k <= 6 {
        Pow2Grows(k - 1, 5);
      } else {
        Pow2Grows(6, k - 1);
      }
    }
  }
}
