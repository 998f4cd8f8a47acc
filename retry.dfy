/**
 * `robust_predict`: call an external service at most three times, sleeping
 * two seconds after each failed attempt except the last, and re-raise the
 * last failure. The service is abstracted as the outcome it gives on each
 * attempt.
 */
module RobustCall {
  import opened Wrappers

  const MaxAttempts := 3
  const BackoffSeconds := 2

  /** What one call of the service does: return a value or raise. */
  datatype Attempt<T> = Returned(value: T) | Raised(error: string)

  /** The outcome of retrying from attempt `k` onwards (0-based). */
  function RetryFrom<T>(call: nat -> Attempt<T>, k: nat): Outcome<T>
    requires k < MaxAttempts
    decreases MaxAttempts - k
  {
    match call(k)
    case Returned(v) => Success(v)
    case Raised(e) => if k < MaxAttempts - 1 then RetryFrom(call, k + 1) else Failure(e)
  }

  /** The outcome of `robust_predict` for a service that behaves as `call`. */
  function Retry<T>(call: nat -> Attempt<T>): Outcome<T> {
    RetryFrom(call, 0)
  }

  /** Index of the attempt that ends the retry loop: the first success, or the last attempt. */
  function LastAttempt<T>(call: nat -> Attempt<T>, k: nat): (j: nat)
    requires k < MaxAttempts
    ensures k <= j < MaxAttempts
    ensures forall i :: k <= i < j ==> call(i).Raised?
    ensures call(j).Returned? || j == MaxAttempts - 1
    decreases MaxAttempts - k
  {
    if call(k).Returned? || k == MaxAttempts - 1 then k else LastAttempt(call, k + 1)
  }

  /**
   * Retry succeeds exactly when one of the three attempts returns, with the
   * value of the first that does; otherwise it fails with the third error.
   */
  lemma {:induction false} RetryMeaning<T>(call: nat -> Attempt<T>)
    ensures var j := LastAttempt(call, 0);
      && (Retry(call).Success? <==> call(j).Returned?)
      && (Retry(call).Success? ==> Retry(call).value == call(j).value)
      && (Retry(call).Failure? ==>
            (j == 2 && Retry(call).error == call(2).error
             && call(0).Raised? && call(1).Raised? && call(2).Raised?))
  {
  }

  /**
   * The loop of `robust_predict`. Returns the outcome, the number of calls
   * made and the number of sleeps taken.
   */
  method RobustPredict<T>(call: nat -> Attempt<T>) returns (r: Outcome<T>, calls: nat, sleeps: nat)
    ensures r == Retry(call)
    ensures 1 <= calls <= MaxAttempts && sleeps == calls - 1
    ensures forall i :: 0 <= i < calls - 1 ==> call(i).Raised?
    ensures r.Success? <==> call(calls - 1).Returned?
    ensures r.Success? ==> r.value == call(calls - 1).value
    ensures r.Failure? ==> calls == MaxAttempts && r.error == call(MaxAttempts - 1).error
  {
    var attempt := 0;
    var outcome := call(attempt);
    calls, sleeps := 1, 0;
    while outcome.Raised? && attempt < MaxAttempts - 1
      invariant 0 <= attempt < MaxAttempts
      invariant calls == attempt + 1 && sleeps == attempt
      invariant outcome == call(attempt)
      invariant forall i :: 0 <= i < attempt ==> call(i).Raised?
      invariant RetryFrom(call, attempt) == Retry(call)
    {
      sleeps := sleeps + 1;
      attempt := attempt + 1;
      outcome := call(attempt);
      calls := calls + 1;
    }
    r := match outcome
      case Returned(v) => Success(v)
      case Raised(e) => Failure(e);
  }
}
