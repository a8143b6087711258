/** The retry response interceptor in its three generations: the current
    `src/adapters/response-retry.ts`, the older `src/adapters/response-retry.js`
    and its TypeScript port `src/interceptors/response/retry.ts`. A failed
    request whose configuration asks for retries is sent again, on the same
    configuration with its `__retryCount` one higher, until the retry
    condition refuses or the count reaches `attempts`. The backoff delay is
    not modelled beyond its cap. */
module Retry {
  import opened Wrappers

  /** The parts of a response the conditions read: `status` and the
      invocation result's `StatusCode` (undefined when None). */
  datatype ResponseStatus = ResponseStatus(status: Option<int>, statusCode: Option<int>)

  /** The parts of a failure the conditions read. */
  datatype Failure = Failure(isLambdaInvokeTimeout: bool, code: Option<string>, response: Option<ResponseStatus>)

  /** `retryCondition`: the generation's `isRetryableError`, or the caller's. */
  datatype Condition = DefaultCondition | CustomCondition(holds: Failure -> bool)

  /** `config.retry`: undefined or null, a boolean, or an options object whose
      fields may be undefined. */
  datatype RetryValue =
    | Unset
    | Flag(b: bool)
    | RetryOptions(attempts: Option<int>, factor: Option<int>, maxTimeout: Option<int>, retryCondition: Option<Condition>)

  /** The interceptor's generation: `Current` is `adapters/response-retry.ts`,
      `Legacy` the two others, which agree. */
  datatype Generation = Current | Legacy

  const EConnAborted: string := "ECONNABORTED"
  const DefaultAttempts: int := 3
  const DefaultFactor: int := 2
  const DefaultMaxTimeout: int := 10000

  // ---------------------------------------------------------------------------
  // The conditions

  /** `_inRange(n, 500, 600)` */
  predicate InServerRange(n: int) { 500 <= n < 600 }

  /** `isServerSideError`: a response whose `StatusCode` or `status`
      (0 when undefined) is in [500, 600). */
  predicate IsServerSideError(e: Failure) {
    e.response.Some?
    && (InServerRange(e.response.value.statusCode.GetOr(0)) || InServerRange(e.response.value.status.GetOr(0)))
  }

  /** `isRetryableError` of `adapters/response-retry.ts`. */
  predicate IsRetryable(e: Failure) {
    e.isLambdaInvokeTimeout || (e.code != Some(EConnAborted) && IsServerSideError(e))
  }

  /** `isRetryableError` of the older generations: a failure with no
      response at all is retried too. */
  predicate IsRetryableLegacy(e: Failure) {
    e.isLambdaInvokeTimeout
    || (e.code != Some(EConnAborted)
        && (e.response.None? || (e.response.value.status.Some? && 500 <= e.response.value.status.value <= 599)))
  }

  predicate Holds(c: Condition, e: Failure, g: Generation) {
    match c
    case CustomCondition(f) => f(e)
    case DefaultCondition => if g == Current then IsRetryable(e) else IsRetryableLegacy(e)
  }

  /** The generations agree on every response that carries no invocation
      `StatusCode`; without any response the current one retries only
      timeouts, the older ones everything that was not aborted. */
  lemma ConditionsAcrossGenerations(e: Failure)
    ensures e.response.Some? && e.response.value.statusCode.None? ==> (IsRetryable(e) <==> IsRetryableLegacy(e))
    ensures e.response.None? ==> (IsRetryable(e) <==> e.isLambdaInvokeTimeout)
    ensures e.response.None? ==> (IsRetryableLegacy(e) <==> e.isLambdaInvokeTimeout || e.code != Some(EConnAborted))
  {
  }

  /** A lambda invocation timeout is retried by every generation, whatever
      its code; an aborted request never is unless it timed out. */
  lemma TimeoutsAlwaysRetried(e: Failure, g: Generation)
    ensures e.isLambdaInvokeTimeout ==> Holds(DefaultCondition, e, g)
    ensures !e.isLambdaInvokeTimeout && e.code == Some(EConnAborted) ==> !Holds(DefaultCondition, e, g)
  {
  }

  // ---------------------------------------------------------------------------
  // setDefaults

  /** `!!config.retry` */
  predicate RetryTruthy(v: RetryValue) {
    (v.Flag? && v.b) || v.RetryOptions?
  }

  /** `defaults(isBoolean(retry) ? {} : retry, DEFAULTS)`: every undefined
      field takes the default, a given one is kept. */
  function Normalised(v: RetryValue): (r: RetryValue)
    requires RetryTruthy(v)
    ensures r.RetryOptions? && r.attempts.Some? && r.factor.Some? && r.maxTimeout.Some? && r.retryCondition.Some?
    ensures v.Flag? ==> r == RetryOptions(Some(DefaultAttempts), Some(DefaultFactor), Some(DefaultMaxTimeout), Some(DefaultCondition))
    ensures v.RetryOptions? && v.attempts.Some? ==> r.attempts == v.attempts
    ensures v.RetryOptions? && v.factor.Some? ==> r.factor == v.factor
    ensures v.RetryOptions? && v.maxTimeout.Some? ==> r.maxTimeout == v.maxTimeout
    ensures v.RetryOptions? && v.retryCondition.Some? ==> r.retryCondition == v.retryCondition
  {
    var given := if v.Flag? then RetryOptions(None, None, None, None) else v;
    RetryOptions(
      Some(given.attempts.GetOr(DefaultAttempts)),
      Some(given.factor.GetOr(DefaultFactor)),
      Some(given.maxTimeout.GetOr(DefaultMaxTimeout)),
      Some(given.retryCondition.GetOr(DefaultCondition)))
  }

  /** Normalising twice is normalising once, so later passes keep the
      settings of the first. */
  lemma NormalisedIdempotent(v: RetryValue)
    requires RetryTruthy(v)
    ensures RetryTruthy(Normalised(v)) && Normalised(Normalised(v)) == Normalised(v)
  {
  }

  /** `config.__retryCount || 0` */
  function StartCount(count: Option<int>): int {
    count.GetOr(0)
  }

  // ---------------------------------------------------------------------------
  // The interceptor

  /** The options of a request the retry interceptor looks at. */
  class RetryConfig {
    var retry: RetryValue
    var retryCount: Option<int>

    constructor(retry: RetryValue, retryCount: Option<int>)
      ensures this.retry == retry && this.retryCount == retryCount
    {
      this.retry := retry;
      this.retryCount := retryCount;
    }
  }

  /** Whether a failure is sent again, once the settings are normalised. */
  predicate WillRetry(settings: RetryValue, count: int, e: Failure, g: Generation)
    requires settings.RetryOptions? && settings.attempts.Some? && settings.retryCondition.Some?
  {
    Holds(settings.retryCondition.value, e, g) && count < settings.attempts.value
  }

  /** The rejection handler: a failure with no configuration, or whose
      configuration does not ask for retries, is passed on untouched;
      otherwise the settings are normalised in place and the request is sent
      again (`retried`) after the count is raised by one, unless the
      condition refuses or the count has reached `attempts`. */
  method OnFailure(config: RetryConfig?, e: Failure, g: Generation) returns (retried: bool)
    modifies config
    ensures config == null || !RetryTruthy(old(config.retry)) ==> !retried
    ensures config != null && !RetryTruthy(old(config.retry)) ==>
      config.retry == old(config.retry) && config.retryCount == old(config.retryCount)
    ensures config != null && RetryTruthy(old(config.retry)) ==>
      && config.retry == Normalised(old(config.retry))
      && (retried <==> WillRetry(config.retry, StartCount(old(config.retryCount)), e, g))
      && config.retryCount == Some(StartCount(old(config.retryCount)) + if retried then 1 else 0)
  {
    if config == null || !RetryTruthy(config.retry) {
      return false;
    }
    config.retry := Normalised(config.retry);
    config.retryCount := Some(StartCount(config.retryCount));
    if !Holds(config.retry.retryCondition.value, e, g) || config.retryCount.value >= config.retry.attempts.value {
      return false;
    }
    config.retryCount := Some(config.retryCount.value + 1);
    return true;
  }

  /** A request that fails the same retryable way every time: it is sent
      once, then again after each accepted retry, and the count it ends
      with is the larger of where it started and `attempts`. With the
      default three attempts and no earlier count, that is four requests. */
  method SendAlwaysFailing(config: RetryConfig, e: Failure, g: Generation) returns (dispatches: nat)
    requires RetryTruthy(config.retry)
    requires Holds(Normalised(config.retry).retryCondition.value, e, g)
    modifies config
    ensures var attempts := Normalised(old(config.retry)).attempts.value;
      var start := StartCount(old(config.retryCount));
      && dispatches == 1 + (if attempts > start then attempts - start else 0)
      && config.retryCount == Some(if attempts > start then attempts else start)
      && config.retry == Normalised(old(config.retry))
  {
    ghost var settings := Normalised(config.retry);
    ghost var start := StartCount(config.retryCount);
    NormalisedIdempotent(config.retry);
    dispatches := 1;
    var retried := OnFailure(config, e, g);
    while retried
      invariant config.retry == settings
      invariant config.retryCount.Some?
      invariant config.retryCount.value == start + dispatches - (if retried then 0 else 1)
      invariant retried ==> config.retryCount.value <= settings.attempts.value
      invariant !retried ==> config.retryCount.value >= settings.attempts.value || config.retryCount.value == start
      invariant !retried ==> config.retryCount.value == (if settings.attempts.value > start then settings.attempts.value else start)
      decreases settings.attempts.value - config.retryCount.value, retried
    {
      dispatches := dispatches + 1;
      retried := OnFailure(config, e, g);
    }
  }

  // ---------------------------------------------------------------------------
  // Backoff

  /** `Math.min(backoff, retry.maxTimeout)`: the wait before a retry, whatever
      the random backoff, never exceeds the cap. */
  function Delay(backoff: int, maxTimeout: int): (r: int)
    ensures r <= maxTimeout && r <= backoff
    ensures r == backoff || r == maxTimeout
  {
    if backoff < maxTimeout then backoff else maxTimeout
  }
}
