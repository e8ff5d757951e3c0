/** `retryThen(times, op)`: call `op` until its first success, at most
    `times` times, collecting the failures in call order. The operation is
    given as the outcome of each call, numbered from 0; it sees nothing of
    the earlier failures. No delay separates the calls. */
module RetryRunner {

  /** What one call of the operation does: return a value or throw. A thrown
      error is kept as its text, as the write-back renders it. */
  datatype Outcome<+R> = Returned(value: R) | Threw(error: string)

  /** `{ success: true, result }` or `{ success: false, fails }`. */
  datatype RetryResult<+R> = Succeeded(result: R) | Exhausted(fails: seq<string>)

  /** The result of a retry together with the number of calls it made. */
  datatype Retried<+R> = Retried(result: RetryResult<R>, calls: nat)

  /** The number of calls the loop `while (times > 0)` allows. */
  function Budget(times: int): nat
  {
    if times > 0 then times else 0
  }

  /** The first call number in `k..n` whose outcome is a success, or `n`. */
  function FirstSuccess<R>(op: nat -> Outcome<R>, k: nat, n: nat): (r: nat)
    requires k <= n
    ensures k <= r <= n
    ensures forall j :: k <= j < r ==> op(j).Threw?
    ensures r < n ==> op(r).Returned?
    decreases n - k
  {
    if k == n then n else if op(k).Returned? then k else FirstSuccess(op, k + 1, n)
  }

  /** The errors of the first `n` calls, in call order, when all of them failed. */
  function Errors<R>(op: nat -> Outcome<R>, n: nat): (fails: seq<string>)
    requires forall j :: 0 <= j < n ==> op(j).Threw?
    ensures |fails| == n
    ensures forall j :: 0 <= j < n ==> fails[j] == op(j).error
  {
    if n == 0 then [] else Errors(op, n - 1) + [op(n - 1).error]
  }

  /** The reference behaviour, stated by the first success rather than by
      the loop: success with the first successful call's value after that
      many calls, or every failure of the whole budget. */
  function Retry<R>(times: int, op: nat -> Outcome<R>): Retried<R>
  {
    var n := Budget(times);
    var k := FirstSuccess(op, 0, n);
    if k < n then Retried(Succeeded(op(k).value), k + 1)
    else Retried(Exhausted(Errors(op, n)), n)
  }

  /** The loop of `retryThen`, counting the calls it makes. */
  method RetryThen<R>(times: int, op: nat -> Outcome<R>) returns (res: RetryResult<R>, calls: nat)
    ensures Retried(res, calls) == Retry(times, op)
  {
    var left := times;
    var fails: seq<string> := [];
    calls := 0;
    while left > 0
      invariant calls + Budget(left) == Budget(times)
      invariant forall j :: 0 <= j < calls ==> op(j).Threw?
      invariant fails == Errors(op, calls)
      decreases left
    {
      var outcome := op(calls);
      calls := calls + 1;
      match outcome {
        case Returned(r) =>
          assert FirstSuccess(op, 0, Budget(times)) == calls - 1;
          return Succeeded(r), calls;
        case Threw(e) =>
          left := left - 1;
          fails := fails + [e];
      }
    }
    assert FirstSuccess(op, 0, Budget(times)) == Budget(times);
    res := Exhausted(fails);
  }

  /** A budget of zero or less makes no call and fails with no errors. */
  lemma RetryNoBudget<R>(times: int, op: nat -> Outcome<R>)
    requires times <= 0
    ensures Retry(times, op) == Retried(Exhausted([]), 0)
  {
  }

  /** An operation that always fails is called exactly `times` times, and the
      result lists its `times` errors in call order. */
  lemma RetryAlwaysFails<R>(times: int, op: nat -> Outcome<R>)
    requires forall j: nat :: op(j).Threw?
    ensures Retry(times, op).calls == Budget(times)
    ensures Retry(times, op).result.Exhausted?
    ensures |Retry(times, op).result.fails| == Budget(times)
    ensures forall j :: 0 <= j < Budget(times) ==> Retry(times, op).result.fails[j] == op(j).error
  {
  }

  /** An operation whose first success is call `k`, within the budget, is
      called exactly `k + 1` times and the result is that call's value. */
  lemma RetryFirstSuccess<R>(times: int, op: nat -> Outcome<R>, k: nat)
    requires k < times
    requires op(k).Returned?
    requires forall j :: 0 <= j < k ==> op(j).Threw?
    ensures Retry(times, op) == Retried(Succeeded(op(k).value), k + 1)
  {
    assert FirstSuccess(op, 0, Budget(times)) == k;
  }

  /** The retry succeeds exactly when some call within the budget succeeds. */
  lemma RetrySucceedsIff<R>(times: int, op: nat -> Outcome<R>)
    ensures Retry(times, op).result.Succeeded? <==> exists k :: 0 <= k < Budget(times) && op(k).Returned?
  {
  }

  /** A call is never made beyond the budget, and a failing retry used it all. */
  lemma RetryCallsBounded<R>(times: int, op: nat -> Outcome<R>)
    ensures Retry(times, op).calls <= Budget(times)
    ensures Retry(times, op).result.Exhausted? ==> Retry(times, op).calls == Budget(times)
    ensures Retry(times, op).result.Exhausted? ==> |Retry(times, op).result.fails| == Budget(times)
  {
  }
}
