/**
 * `retryWithBackoff`: call an operation up to `maxRetries` times, waiting
 * `baseDelay * 2^i` milliseconds after every failed attempt `i` except the
 * last, and rethrow the last error unchanged. The operation is given as the
 * outcome of each successive call; waits are returned instead of slept.
 */
module Retry {

  /** What one call of the operation did: returned a value or threw. */
  datatype Outcome<+T, +E> = Ok(value: T) | Err(error: E)

  /** What the helper hands back: the value it returned, the error it threw,
      or nothing at all when the loop body never ran. */
  datatype Result<+T, +E> = Returned(value: T) | Thrown(error: E) | NoResult

  /** The helper's result, how many times it called the operation, and the
      waits it made, in order. */
  datatype Run<+T, +E> = Run(result: Result<T, E>, calls: nat, delays: seq<int>)

  function Pow2(i: nat): (r: nat)
    ensures r >= 1
  {
    if i == 0 then 1 else 2 * Pow2(i - 1)
  }

  /** The geometric delay schedule: the wait after failed attempt `j`. */
  function Delay(baseDelay: int, j: nat): int {
    baseDelay * Pow2(j)
  }

  /** Calls `from` up to (excluding) `to` all failed. */
  ghost predicate FailedBetween<T, E>(attempt: nat -> Outcome<T, E>, from: nat, to: nat) {
    forall j :: from <= j < to ==> attempt(j).Err?
  }

  /** The loop from iteration `i` on. */
  function RetryFrom<T, E>(attempt: nat -> Outcome<T, E>, i: nat, maxRetries: int, baseDelay: int): (run: Run<T, E>)
    requires i < maxRetries
    decreases maxRetries - i
    ensures i < run.calls <= maxRetries
    ensures FailedBetween(attempt, i, run.calls - 1)
    ensures !run.result.NoResult?
    ensures run.result.Returned? ==> attempt(run.calls - 1) == Ok(run.result.value)
    ensures run.result.Thrown? ==> run.calls == maxRetries && attempt(run.calls - 1) == Err(run.result.error)
    ensures |run.delays| == run.calls - 1 - i
    ensures forall j :: 0 <= j < |run.delays| ==> run.delays[j] == Delay(baseDelay, i + j)
  {
    match attempt(i)
    case Ok(v) => Run(Returned(v), i + 1, [])
    case Err(e) =>
      if i == maxRetries - 1 then Run(Thrown(e), i + 1, [])
      else
        var rest := RetryFrom(attempt, i + 1, maxRetries, baseDelay);
        Run(rest.result, rest.calls, [Delay(baseDelay, i)] + rest.delays)
  }

  /** The whole helper. A value is returned only from the first successful
      call, after which no call is made; if every one of the `maxRetries`
      calls fails, the last call's error is thrown as it was. */
  function RetryWithBackoff<T, E>(attempt: nat -> Outcome<T, E>, maxRetries: int, baseDelay: int): (run: Run<T, E>)
    ensures run.result.NoResult? <==> maxRetries <= 0
    ensures run.result.NoResult? ==> run.calls == 0 && run.delays == []
    ensures run.result.Returned? ==>
              && 1 <= run.calls <= maxRetries
              && FailedBetween(attempt, 0, run.calls - 1)
              && attempt(run.calls - 1) == Ok(run.result.value)
    ensures run.result.Thrown? ==>
              && run.calls == maxRetries
              && FailedBetween(attempt, 0, maxRetries)
              && run.result.error == attempt(maxRetries - 1).error
    ensures run.calls > 0 ==> |run.delays| == run.calls - 1
    ensures forall j :: 0 <= j < |run.delays| ==> run.delays[j] == Delay(baseDelay, j)
  {
    if maxRetries <= 0 then Run(NoResult, 0, []) else RetryFrom(attempt, 0, maxRetries, baseDelay)
  }

  /** If some call among the first `maxRetries` succeeds, the helper returns
      the value of the first such call and has waited once per earlier failure. */
  lemma ReturnsFirstSuccess<T, E>(attempt: nat -> Outcome<T, E>, maxRetries: int, baseDelay: int, k: nat)
    requires k < maxRetries && attempt(k).Ok? && FailedBetween(attempt, 0, k)
    ensures RetryWithBackoff(attempt, maxRetries, baseDelay).result == Returned(attempt(k).value)
    ensures RetryWithBackoff(attempt, maxRetries, baseDelay).calls == k + 1
    ensures |RetryWithBackoff(attempt, maxRetries, baseDelay).delays| == k
  {
  }

  /** If all `maxRetries` calls fail, the last error is rethrown after
      `maxRetries - 1` waits. */
  lemma RethrowsLastError<T, E>(attempt: nat -> Outcome<T, E>, maxRetries: int, baseDelay: int)
    requires 0 < maxRetries && FailedBetween(attempt, 0, maxRetries)
    ensures RetryWithBackoff(attempt, maxRetries, baseDelay).result == Thrown(attempt(maxRetries - 1).error)
    ensures RetryWithBackoff(attempt, maxRetries, baseDelay).calls == maxRetries
  {
  }

  /** With the gateway's arguments (3 attempts, 1000 ms) the waits before
      a third attempt are 1000 ms and then 2000 ms. */
  lemma DefaultSchedule<T, E>(attempt: nat -> Outcome<T, E>)
    requires attempt(0).Err? && attempt(1).Err?
    ensures RetryWithBackoff(attempt, 3, 1000).delays == [1000, 2000]
    ensures RetryWithBackoff(attempt, 3, 1000).calls == 3
  {
    assert Pow2(1) == 2;
  }
}
