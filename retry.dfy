/**
 * RetryWithContext: a bounded retry loop with capped exponential backoff that
 * checks for cancellation before every attempt (internal/utils/retry.go).
 *
 * The operation, the context and the clock are outside the model.  The
 * operation's answers are a function of the attempt number (`operation(i)` is
 * what the (i+1)-th call returns, `None` standing for a nil error), the
 * context's `Done` channel is a function from the attempt number to whether it
 * is closed at the check before that attempt, and `ctxErr` is what `ctx.Err()`
 * returns then.  Each `time.Sleep(delay)` is recorded in a ghost log.
 */
module Retry {
  import opened Wrappers

  const MinInt64: int := -0x8000_0000_0000_0000
  const MaxInt64: int := 0x7fff_ffff_ffff_ffff

  /** time.Duration: a signed 64-bit count of nanoseconds. */
  type Duration = d: int | MinInt64 <= d <= MaxInt64

  const Millisecond: Duration := 1_000_000
  const Second: Duration := 1_000_000_000

  datatype RetryOptions = RetryOptions(
    maxRetries: int,
    baseDelay: Duration,
    maxDelay: Duration,
    maxDuration: Duration)

  /**
   * Three attempts, 100ms doubling up to 1s, 5s overall; the delays are within
   * the bounds under which the backoff lemmas below hold.
   */
  function DefaultRetryOptions(): (opts: RetryOptions)
    ensures opts.maxRetries == 3 && opts.maxDuration == 5 * Second
    ensures opts.baseDelay == 100 * Millisecond && opts.maxDelay == Second
    ensures 0 < opts.maxRetries
    ensures 0 <= opts.baseDelay <= opts.maxDelay <= MaxInt64 / 2
  {
    RetryOptions(3, 100 * Millisecond, 1 * Second, 5 * Second)
  }

  function Min(x: int, y: int): (m: int) { if x <= y then x else y }

  function Max(x: int, y: int): (m: int) { if x <= y then y else x }

  /** Two's complement wrap-around of an int64 result. */
  function Wrap64(x: int): (r: Duration)
    ensures MinInt64 <= x <= MaxInt64 ==> r == x
    ensures (r - x) % 0x1_0000_0000_0000_0000 == 0
  {
    (x - MinInt64) % 0x1_0000_0000_0000_0000 + MinInt64
  }

  /** One backoff step: `delay *= 2` in int64 arithmetic, then the cap. */
  function NextDelay(delay: Duration, maxDelay: Duration): (r: Duration)
    ensures r <= maxDelay
    ensures MinInt64 <= 2 * delay <= MaxInt64 ==> r == Min(2 * delay, maxDelay)
  {
    var doubled := Wrap64(2 * delay);
    if doubled > maxDelay then maxDelay else doubled
  }

  /** The value of `delay` after k backoff steps: what the (k+1)-th sleep lasts. */
  function DelayAt(base: Duration, maxDelay: Duration, k: nat): (r: Duration)
    ensures k > 0 ==> r <= maxDelay
  {
    if k == 0 then base else NextDelay(DelayAt(base, maxDelay, k - 1), maxDelay)
  }

  /** The first n sleeps of the backoff schedule. */
  function Backoff(base: Duration, maxDelay: Duration, n: nat): (s: seq<Duration>)
    ensures |s| == n
    ensures n > 0 ==> s[0] == base
    ensures forall i :: 0 < i < n ==> s[i] <= maxDelay
  {
    seq(n, i requires 0 <= i => DelayAt(base, maxDelay, i))
  }

  /**
   * While neither bound overflows when doubled, every delay stays within
   * [0, max(base, maxDelay)] and each step is exactly min(2 * previous, maxDelay).
   */
  lemma {:induction false} DelayStep(base: Duration, maxDelay: Duration, k: nat)
    requires 0 <= base <= MaxInt64 / 2 && 0 <= maxDelay <= MaxInt64 / 2
    ensures 0 <= DelayAt(base, maxDelay, k) <= Max(base, maxDelay)
    ensures DelayAt(base, maxDelay, k + 1) == Min(2 * DelayAt(base, maxDelay, k), maxDelay)
  {
    if k > 0 {
      DelayStep(base, maxDelay, k - 1);
    }
  }

  /** Each later sleep is min(2 * previous, MaxDelay) when no doubling overflows. */
  lemma BackoffDoubles(base: Duration, maxDelay: Duration, n: nat)
    requires 0 <= base <= MaxInt64 / 2 && 0 <= maxDelay <= MaxInt64 / 2
    ensures forall i :: 0 < i < n ==>
      Backoff(base, maxDelay, n)[i] == Min(2 * (Backoff(base, maxDelay, n)[i - 1] as int), maxDelay)
  {
    forall i | 0 < i < n
      ensures Backoff(base, maxDelay, n)[i] == Min(2 * (Backoff(base, maxDelay, n)[i - 1] as int), maxDelay)
    {
      DelayStep(base, maxDelay, i - 1);
    }
  }

  lemma {:induction false} DelayMonotone(base: Duration, maxDelay: Duration, i: nat, j: nat)
    requires 0 <= base <= maxDelay <= MaxInt64 / 2
    requires i <= j
    ensures DelayAt(base, maxDelay, i) <= DelayAt(base, maxDelay, j)
  {
    if i < j {
      DelayMonotone(base, maxDelay, i, j - 1);
      DelayStep(base, maxDelay, j - 1);
    }
  }

  /**
   * Above MaxInt64 / 2 the doubling wraps around: from a BaseDelay of 2^62 the
   * next delay is MinInt64, so the schedule shrinks even with MaxDelay at MaxInt64.
   */
  lemma BackoffWrapsAround()
    ensures DelayAt(0x4000_0000_0000_0000, MaxInt64, 1) == MinInt64
    ensures Backoff(0x4000_0000_0000_0000, MaxInt64, 2)[1] < Backoff(0x4000_0000_0000_0000, MaxInt64, 2)[0]
  {
  }

  /** With 0 <= BaseDelay <= MaxDelay (and no overflow) the sleeps never shrink. */
  lemma BackoffNonDecreasing(base: Duration, maxDelay: Duration, n: nat)
    requires 0 <= base <= maxDelay <= MaxInt64 / 2
    ensures forall i, j :: 0 <= i <= j < n ==> Backoff(base, maxDelay, n)[i] <= Backoff(base, maxDelay, n)[j]
  {
    forall i, j | 0 <= i <= j < n
      ensures Backoff(base, maxDelay, n)[i] <= Backoff(base, maxDelay, n)[j]
    {
      DelayMonotone(base, maxDelay, i, j);
    }
  }

  /**
   * Runs `operation` until it succeeds, the context is done, or MaxRetries
   * attempts have failed.  `calls` counts the invocations of the operation and
   * `sleeps` logs the delays slept.  MaxDuration is never read.
   */
  method RetryWithContext<E>(opts: RetryOptions, ctxErr: E, done: nat -> bool, operation: nat -> Option<E>)
    returns (err: Option<E>, ghost calls: nat, ghost sleeps: seq<Duration>)
    ensures calls <= Max(opts.maxRetries, 0)
    // every attempt made followed a check that found the context live
    ensures forall i :: 0 <= i < calls ==> !done(i)
    // every attempt but the last one made failed
    ensures forall i :: 0 <= i < calls - 1 ==> operation(i).Some?
    // no attempts allowed: nil, with no call and no sleep
    ensures opts.maxRetries <= 0 ==> err == None && calls == 0 && sleeps == []
    ensures opts.maxRetries > 0 ==>
      // the last attempt succeeded: nil, and no sleep after it
      || (0 < calls && operation(calls - 1) == None && err == None && |sleeps| == calls - 1)
      // the context was done before attempt number `calls`, which was not made
      || (calls < opts.maxRetries && done(calls) && (calls == 0 || operation(calls - 1).Some?)
          && err == Some(ctxErr) && |sleeps| == calls)
      // all MaxRetries attempts failed: the last error, and no sleep after the last attempt
      || (calls == opts.maxRetries && operation(calls - 1).Some? && err == operation(calls - 1)
          && |sleeps| == calls - 1)
    // the sleeps follow the backoff schedule
    ensures sleeps == Backoff(opts.baseDelay, opts.maxDelay, |sleeps|)
  {
    var lastErr: Option<E> := None;
    var delay := opts.baseDelay;
    calls, sleeps := 0, [];
    var retries := 0;
    while retries < opts.maxRetries
      invariant 0 <= retries <= Max(opts.maxRetries, 0)
      invariant calls == retries
      invariant forall i :: 0 <= i < retries ==> !done(i) && operation(i).Some?
      invariant lastErr == if retries == 0 then None else operation(retries - 1)
      invariant |sleeps| == if 0 < retries == opts.maxRetries then retries - 1 else retries
      invariant sleeps == Backoff(opts.baseDelay, opts.maxDelay, |sleeps|)
      invariant delay == DelayAt(opts.baseDelay, opts.maxDelay, |sleeps|)
    {
      if done(retries) {
        return Some(ctxErr), calls, sleeps;
      }
      var result := operation(retries);
      calls := calls + 1;
      if result == None {
        return None, calls, sleeps;
      }
      lastErr := result;

      if retries < opts.maxRetries - 1 {
        sleeps := sleeps + [delay];
        delay := NextDelay(delay, opts.maxDelay);
      }
      retries := retries + 1;
    }
    return lastErr, calls, sleeps;
  }

  /**
   * Under DefaultRetryOptions an operation that always fails, in a context
   * that never ends, is called three times with sleeps of 100ms and 200ms
   * between the calls, and its error is returned.
   */
  method DefaultRetryExhausts<E>(e: E, ctxErr: E) returns (err: Option<E>, ghost calls: nat, ghost sleeps: seq<Duration>)
    ensures err == Some(e)
    ensures calls == 3
    ensures sleeps == [100 * Millisecond, 200 * Millisecond]
  {
    err, calls, sleeps := RetryWithContext(DefaultRetryOptions(), ctxErr, _ => false, _ => Some(e));
    assert |sleeps| == 2;
    assert sleeps[1] == DelayAt(100 * Millisecond, Second, 1);
  }
}
