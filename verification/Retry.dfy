// Retrying one request with capped exponential backoff.

module Retry {
  import opened Results

  /** What one attempt yields. */
  datatype Answer = Success | Refused(status: int) | Unreachable

  /** What is thrown; Undefined when not a single attempt was allowed. */
  datatype ApiError = Http(status: int) | NetworkError | Undefined

  datatype RetryConfig = RetryConfig(maxAttempts: nat, baseDelay: real, maxDelay: real, backoffFactor: real)

  const NON_RETRYABLE: set<int> := {400, 401, 402, 404, 413}

  predicate Retryable(a: Answer)
  {
    a.Unreachable? || (a.Refused? && a.status !in NON_RETRYABLE)
  }

  function Settled(a: Answer): (r: Result<(), ApiError>)
  {
    match a
    case Success => Ok(())
    case Refused(status) => Err(Http(status))
    case Unreachable => Err(NetworkError)
  }

  // --- What a sequence of answers amounts to. ---

  /** Attempt k is the first that is not to be repeated, and it is allowed. */
  ghost predicate EndsAt(ask: nat -> Answer, max: nat, k: nat)
  {
    1 <= k <= max && !Retryable(ask(k)) && forall j :: 1 <= j < k ==> Retryable(ask(j))
  }

  ghost predicate Succeeds(ask: nat -> Answer, max: nat)
  {
    exists k :: EndsAt(ask, max, k) && ask(k) == Success
  }

  /** The request ends with this status, one that is not retried. */
  ghost predicate IsRefused(ask: nat -> Answer, max: nat, status: int)
  {
    exists k :: EndsAt(ask, max, k) && ask(k) == Refused(status)
  }

  /** n attempts are made: up to the one that ends the matter, or all that are allowed. */
  ghost predicate Stops(ask: nat -> Answer, max: nat, n: nat)
  {
    EndsAt(ask, max, n) || (n == max && forall j :: 1 <= j <= max ==> Retryable(ask(j)))
  }

  /** Among the attempts that are made, the last one failed with this error; without an attempt there is none. */
  ghost predicate FailsWith(ask: nat -> Answer, max: nat, error: ApiError)
  {
    exists n :: Stops(ask, max, n) && FailedWith(ask, n, error)
  }

  ghost predicate FailedWith(ask: nat -> Answer, n: nat, error: ApiError)
  {
    match error
    case Http(status) => n > 0 && ask(n) == Refused(status)
    case NetworkError => n > 0 && ask(n) == Unreachable
    case Undefined => n == 0
  }

  /** The k-th sleep. */
  function Delay(config: RetryConfig, k: nat): (ms: real)
    requires k > 0
  {
    var grown := config.baseDelay * Power(config.backoffFactor, k - 1);
    if grown < config.maxDelay then grown else config.maxDelay
  }

  function Power(x: real, n: nat): (y: real)
  {
    if n == 0 then 1.0 else x * Power(x, n - 1)
  }

  function Delays(config: RetryConfig, n: nat): (sleeps: seq<real>)
  {
    seq(n, i requires 0 <= i < n => Delay(config, i + 1))
  }

  /** The error thrown is that of the last attempt. */
  method WithRetry(ask: nat -> Answer, config: RetryConfig)
    returns (result: Result<(), ApiError>, attempts: nat, sleeps: seq<real>)
    ensures Stops(ask, config.maxAttempts, attempts) && attempts <= config.maxAttempts
    ensures result == if attempts == 0 then Err(Undefined) else Settled(ask(attempts))
    ensures result.Ok? <==> attempts > 0 && ask(attempts) == Success
    ensures result.Err? ==> FailedWith(ask, attempts, result.error) && FailsWith(ask, config.maxAttempts, result.error)
    ensures sleeps == Delays(config, if attempts == 0 then 0 else attempts - 1)
  {
    var lastError := Undefined;
    sleeps := [];
    var attempt := 1;
    while attempt <= config.maxAttempts
      invariant 1 <= attempt <= config.maxAttempts + 1
      invariant if attempt > 1 then attempt <= config.maxAttempts else lastError == Undefined
      invariant forall j :: 1 <= j < attempt ==> Retryable(ask(j))
      invariant sleeps == Delays(config, attempt - 1)
    {
      var answer := ask(attempt);
      if answer.Success? { return Ok(()), attempt, sleeps; }
      lastError := Settled(answer).error;
      if !Retryable(answer) || attempt == config.maxAttempts {
        assert Stops(ask, config.maxAttempts, attempt) && FailedWith(ask, attempt, lastError);
        return Err(lastError), attempt, sleeps;
      }
      sleeps := sleeps + [Delay(config, attempt)];
      attempt := attempt + 1;
    }
    assert Stops(ask, config.maxAttempts, 0) && FailedWith(ask, 0, lastError);
    return Err(lastError), 0, sleeps;
  }

  // --- What the caller may rely on. ---

  /** The answers decide how many attempts are made. */
  lemma StopsOnce(ask: nat -> Answer, max: nat, m: nat, n: nat)
    requires Stops(ask, max, m) && Stops(ask, max, n)
    ensures m == n
  {
  }

  /** The call succeeds iff some allowed attempt does, all earlier ones having failed retryably. */
  lemma SucceedsIff(ask: nat -> Answer, max: nat, n: nat, status: int)
    requires Stops(ask, max, n) && status in NON_RETRYABLE
    ensures Succeeds(ask, max) <==> n > 0 && ask(n) == Success
    ensures IsRefused(ask, max, status) <==> n > 0 && ask(n) == Refused(status)
  {
    if k :| EndsAt(ask, max, k) { StopsOnce(ask, max, n, k); }
    forall k | EndsAt(ask, max, k) ensures k == n { StopsOnce(ask, max, n, k); }
  }

  /** There is only one error that it can fail with. */
  lemma FailsOneWay(ask: nat -> Answer, max: nat, e: ApiError, f: ApiError)
    requires FailsWith(ask, max, e) && FailsWith(ask, max, f)
    ensures e == f
  {
    var m :| Stops(ask, max, m) && FailedWith(ask, m, e);
    var n :| Stops(ask, max, n) && FailedWith(ask, n, f);
    StopsOnce(ask, max, m, n);
  }

  /** An error with a status that is not retried is a final refusal. */
  lemma RefusedIff(ask: nat -> Answer, max: nat, status: int)
    requires status in NON_RETRYABLE
    ensures FailsWith(ask, max, Http(status)) <==> IsRefused(ask, max, status)
  {
    if FailsWith(ask, max, Http(status)) {
      var n :| Stops(ask, max, n) && FailedWith(ask, n, Http(status));
      assert EndsAt(ask, max, n);
    }
    if k :| EndsAt(ask, max, k) && ask(k) == Refused(status) { assert Stops(ask, max, k); }
  }

  /** Everything is retried but these five statuses. */
  lemma NotRetriedIff(a: Answer)
    ensures !Retryable(a)
      <==> a in {Success, Refused(400), Refused(401), Refused(402), Refused(404), Refused(413)}
  {
  }

  // --- What the documentation says. ---

  /** The status is worth another attempt: 503 or any other 5xx. */
  predicate DocumentedRetry(status: int)
  {
    status >= 500
  }

  lemma RetryableIff(status: int)
    ensures (Retryable(Refused(status)) <==> DocumentedRetry(status))
      <==> (DocumentedRetry(status) || status in NON_RETRYABLE)
  {
  }

  /** How often an endpoint is asked that keeps answering with one status. */
  lemma AttemptsForStatus(ask: nat -> Answer, status: int, max: nat, n: nat)
    requires max > 0 && Stops(ask, max, n) && forall k :: ask(k) == Refused(status)
    ensures n == if Retryable(Refused(status)) then max else 1
  {
    if n != max { assert EndsAt(ask, max, n); }
    if n > 1 { assert Retryable(ask(1)); }
    if n == max && n == 1 && EndsAt(ask, max, n) { assert !Retryable(ask(1)); }
  }

  /** The documented number of attempts is made iff one is the limit, or the status is a 5xx or on the list. */
  lemma DocumentedAttemptsIff(ask: nat -> Answer, status: int, max: nat, n: nat)
    requires max > 0 && Stops(ask, max, n) && forall k :: ask(k) == Refused(status)
    ensures n == (if DocumentedRetry(status) then max else 1)
      <==> (max == 1 || DocumentedRetry(status) || status in NON_RETRYABLE)
  {
    AttemptsForStatus(ask, status, max, n);
    RetryableIff(status);
  }

  /** Such as 429, which is asked for max times. */
  lemma TooManyRequestsIsRetried(ask: nat -> Answer, max: nat, n: nat)
    requires max > 1 && Stops(ask, max, n) && forall k :: ask(k) == Refused(429)
    ensures n == max && !DocumentedRetry(429)
  {
    AttemptsForStatus(ask, 429, max, n);
  }

  lemma {:induction false} PowerGrows(x: real, n: nat)
    requires x >= 1.0
    ensures Power(x, n + 1) >= Power(x, n) >= 1.0
  {
    if n > 0 { PowerGrows(x, n - 1); }
    Scale(Power(x, n), 1.0, x);
  }

  lemma Scale(a: real, x: real, y: real)
    requires a >= 0.0 && x <= y
    ensures a * x <= a * y
  {
  }

  lemma DelayGrows(config: RetryConfig, k: nat)
    requires config.backoffFactor >= 1.0 && config.baseDelay >= 0.0 && k > 0
    ensures Delay(config, k) <= Delay(config, k + 1) <= config.maxDelay
  {
    PowerGrows(config.backoffFactor, k - 1);
    Scale(config.baseDelay, Power(config.backoffFactor, k - 1), Power(config.backoffFactor, k));
  }

  function Lesser(x: real, y: real): (z: real)
    ensures z <= x && z <= y && (z == x || z == y)
  {
    if x < y then x else y
  }

  /** The first sleep is baseDelay, each further one longer by backoffFactor, and none longer than maxDelay. */
  lemma SleepsAre(config: RetryConfig, n: nat, i: nat)
    requires config.backoffFactor >= 1.0 && config.baseDelay >= 0.0 && config.maxDelay >= 0.0 && i < n
    ensures Delays(config, n)[i]
         == Lesser(if i == 0 then config.baseDelay else Delays(config, n)[i - 1] * config.backoffFactor,
                   config.maxDelay)
  {
    if i > 0 {
      var grown := config.baseDelay * Power(config.backoffFactor, i - 1);
      Regroup(config.baseDelay, config.backoffFactor, Power(config.backoffFactor, i - 1));
      if grown >= config.maxDelay {
        ScaleLeft(config.maxDelay, grown, config.backoffFactor);
        Scale(config.maxDelay, 1.0, config.backoffFactor);
      }
    }
  }

  lemma Regroup(a: real, b: real, c: real)
    ensures a * (b * c) == a * c * b
  {
  }

  lemma ScaleLeft(x: real, y: real, a: real)
    requires a >= 0.0 && x <= y
    ensures x * a <= y * a
  {
  }

  /** Sleeps never get shorter, and none exceeds maxDelay. */
  lemma {:induction false} SleepsGrow(config: RetryConfig, n: nat, i: nat, j: nat)
    requires config.backoffFactor >= 1.0 && config.baseDelay >= 0.0 && i <= j < n
    ensures Delays(config, n)[i] <= Delays(config, n)[j] <= config.maxDelay
    decreases j
  {
    if i < j {
      SleepsGrow(config, n, i, j - 1);
      DelayGrows(config, j);
    }
  }

  function Sum(sleeps: seq<real>): (total: real)
  {
    if sleeps == [] then 0.0 else Sum(sleeps[..|sleeps| - 1]) + sleeps[|sleeps| - 1]
  }

  /** One request never sleeps longer than (maxAttempts - 1) * maxDelay in all. */
  lemma {:induction false} TotalSleep(config: RetryConfig, n: nat)
    requires config.maxDelay >= 0.0 && n < config.maxAttempts
    ensures Sum(Delays(config, n)) <= n as real * config.maxDelay <= (config.maxAttempts - 1) as real * config.maxDelay
  {
    if n > 0 {
      assert Delays(config, n)[..n - 1] == Delays(config, n - 1);
      TotalSleep(config, n - 1);
    }
  }
}
