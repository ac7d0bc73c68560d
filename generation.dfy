/** The bounded retry wrapper around the remote generation call
    (generate_with_retry, app.py section "Gemini Call Wrapper"). */
module Generation {
  import opened Wrappers

  /** The outcome of one call to the remote model: it replied (with a text,
      or with none) or it raised. */
  datatype Attempt = Replied(text: Option<string>) | Raised(error: ErrorInfo)

  /** generate_with_retry. The remote model is `remote`: `remote(k)` is what
      the call with zero-based attempt number `k` does. Up to `retries + 1`
      calls are made; the first reply is returned (an absent text as ""),
      every earlier call having raised; when all calls raise, the error of
      the last one is surfaced. A pause is taken after every failed attempt
      except the last, so the number of pauses is one less than the number
      of calls. */
  method GenerateWithRetry(remote: nat -> Attempt, retries: nat)
    returns (result: Result<string, ErrorInfo>, calls: nat, sleeps: nat)
    ensures 1 <= calls <= retries + 1
    ensures forall k :: 0 <= k < calls - 1 ==> remote(k).Raised?
    ensures result.Success? <==> remote(calls - 1).Replied?
    ensures result.Success? ==> result.value == remote(calls - 1).text.GetOr("")
    ensures result.Failure? ==> calls == retries + 1 && result.error == remote(retries).error
    ensures sleeps == calls - 1
  {
    var lastErr: ErrorInfo := "";
    calls, sleeps := 0, 0;
    var attempt := 0;
    while attempt < retries + 1
      invariant 0 <= attempt <= retries + 1
      invariant calls == attempt
      invariant sleeps == if attempt <= retries then attempt else retries
      invariant forall k :: 0 <= k < attempt ==> remote(k).Raised?
      invariant attempt > 0 ==> lastErr == remote(attempt - 1).error
    {
      calls := calls + 1;
      var outcome := remote(attempt);
      if outcome.Replied? {
        return Success(outcome.text.GetOr("")), calls, sleeps;
      }
      lastErr := outcome.error;
      if attempt < retries {
        sleeps := sleeps + 1;
      }
      attempt := attempt + 1;
    }
    result := Failure(lastErr);
  }
}
