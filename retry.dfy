/** `_call_whisper_api` (utils.py and its live copy in app.py): one remote transcription
    with two retry tiers sharing one counter. The remote service is a script `respond`
    giving the outcome of the attempt made with each retry count; `time.sleep` becomes the
    list of delays (in seconds) the call waits. */
module Retry {
  import opened Wrappers
  import opened Text
  import opened Errors

  /** What one remote call does: return a transcript, or raise with a message. */
  datatype Outcome = Transcript(text: string) | Raised(message: string)

  /** How the routine gives up, with the message of the last exception. */
  datatype GiveUp = RateLimitExceeded(message: string) | RetriesExhausted(message: string)

  /** The transcript or the reason for giving up, the number of remote calls made, and the
      delays waited, in order. */
  datatype CallResult = CallResult(result: Result<string, GiveUp>, attempts: nat, sleeps: seq<nat>)

  /** The rate-limit tier is recognised by these two substrings of the message. */
  predicate IsRateLimitMessage(message: string)
  {
    Contains(message, "Rate limit") || Contains(message, "rate_limit_exceeded")
  }

  function Pow2(n: nat): (p: nat)
    ensures p >= 1
  {
    if n == 0 then 1 else 2 * Pow2(n - 1)
  }

  /** The delay that follows a failed attempt with retry count `n`: a fixed 5 s for a rate
      limit, `2^n` s otherwise (a final non-rate-limit failure waits nothing). */
  function DelayAfter(message: string, n: nat): nat
  {
    if IsRateLimitMessage(message) then 5 else Pow2(n)
  }

  /** The wait that follows the attempt with retry count `n`: none after a transcript. */
  function WaitAfter(o: Outcome, n: nat): Option<nat>
  {
    match o
    case Transcript(_) => None
    case Raised(m) => Some(DelayAfter(m, n))
  }

  /** Whether the attempt with retry count `j` failed in a way its tier retries: a rate
      limit while `j < 3`, any other exception while `j < maxRetries`. */
  predicate Retried(o: Outcome, j: nat, maxRetries: nat)
  {
    o.Raised? && (if IsRateLimitMessage(o.message) then j < 3 else j < maxRetries)
  }

  /** The call with retry count `n`. A rate-limit message waits 5 s and then retries while
      `n < 3`; any other exception retries after `2^n` s while `n < maxRetries`. */
  function CallWhisper(respond: nat -> Outcome, maxRetries: nat, n: nat): (c: CallResult)
    decreases Max(3, maxRetries) - n
    ensures 1 <= c.attempts <= Max(3, maxRetries) - n + 1 || (n >= Max(3, maxRetries) && c.attempts == 1)
    ensures Traced(respond, maxRetries, n, c)
  {
    match respond(n)
    case Transcript(t) => CallResult(Success(t), 1, [])
    case Raised(m) =>
      if IsRateLimitMessage(m) then
        if n < 3 then
          var rest := CallWhisper(respond, maxRetries, n + 1);
          RetryThen(respond, maxRetries, n, 5, rest);
          CallResult(rest.result, rest.attempts + 1, [5] + rest.sleeps)
        else
          CallResult(Failure(RateLimitExceeded(m)), 1, [5])
      else if n < maxRetries then
        var rest := CallWhisper(respond, maxRetries, n + 1);
        RetryThen(respond, maxRetries, n, Pow2(n), rest);
        CallResult(rest.result, rest.attempts + 1, [Pow2(n)] + rest.sleeps)
      else
        CallResult(Failure(RetriesExhausted(m)), 1, [])
  }

  /** What a run from retry count `n` promises: every attempt but the last raised in a way
      its tier retries; the last attempt gave the transcript returned, or raised the
      message given up with; a rate-limit give-up needs a rate-limit message at count 3 or
      more, a plain give-up a plain message at the configured maximum or more; one delay
      follows each failed attempt except a final plain failure, each the one `WaitAfter`
      gives for its attempt. */
  ghost predicate Traced(respond: nat -> Outcome, maxRetries: nat, n: nat, c: CallResult)
  {
    && c.attempts >= 1
    && (forall j :: n <= j < n + c.attempts - 1 ==> respond(j).Raised?)
    && (forall j :: n <= j < n + c.attempts - 1 ==> Retried(respond(j), j, maxRetries))
    && (c.result.Success? ==> respond(n + c.attempts - 1) == Transcript(c.result.value))
    && (c.result.Failure? ==> respond(n + c.attempts - 1) == Raised(c.result.error.message))
    && (c.result.Failure? && c.result.error.RateLimitExceeded? ==>
          IsRateLimitMessage(c.result.error.message) && n + c.attempts - 1 >= 3)
    && (c.result.Failure? && c.result.error.RetriesExhausted? ==>
          !IsRateLimitMessage(c.result.error.message) && n + c.attempts - 1 >= maxRetries)
    && |c.sleeps| == (if c.result.Failure? && c.result.error.RateLimitExceeded?
                      then c.attempts else c.attempts - 1)
    && (forall k :: 0 <= k < |c.sleeps| ==> WaitAfter(respond(n + k), n + k) == Some(c.sleeps[k]))
  }

  /** A retried failure at count `n` with delay `d`, followed by the run from `n + 1`. */
  lemma RetryThen(respond: nat -> Outcome, maxRetries: nat, n: nat, d: nat, rest: CallResult)
    requires Retried(respond(n), n, maxRetries)
    requires WaitAfter(respond(n), n) == Some(d)
    requires Traced(respond, maxRetries, n + 1, rest)
    ensures Traced(respond, maxRetries, n, CallResult(rest.result, rest.attempts + 1, [d] + rest.sleeps))
  {
    SleepsShift(respond, n, d, rest.sleeps);
    RetriedShift(respond, maxRetries, n, rest.attempts);
  }

  /** The delays after attempt `n` are its own delay followed by those after attempt n + 1. */
  lemma SleepsShift(respond: nat -> Outcome, n: nat, d: nat, rest: seq<nat>)
    requires WaitAfter(respond(n), n) == Some(d)
    requires forall k :: 0 <= k < |rest| ==> WaitAfter(respond(n + 1 + k), n + 1 + k) == Some(rest[k])
    ensures forall k :: 0 <= k < |[d] + rest| ==> WaitAfter(respond(n + k), n + k) == Some(([d] + rest)[k])
  {
    var all := [d] + rest;
    forall k | 0 <= k < |all|
      ensures WaitAfter(respond(n + k), n + k) == Some(all[k])
    {
      if k > 0 {
        assert rest[k - 1] == all[k];
      }
    }
  }

  /** The attempts retried from count `n` are attempt `n` followed by those retried from
      count `n + 1`. */
  lemma RetriedShift(respond: nat -> Outcome, maxRetries: nat, n: nat, rest: nat)
    requires Retried(respond(n), n, maxRetries)
    requires forall j :: n + 1 <= j < n + 1 + rest - 1 ==> Retried(respond(j), j, maxRetries)
    ensures forall j :: n <= j < n + (rest + 1) - 1 ==> Retried(respond(j), j, maxRetries)
  {
  }

  /** A fresh call, as every caller makes it. */
  function Call(respond: nat -> Outcome, maxRetries: nat): CallResult
  {
    CallWhisper(respond, maxRetries, 0)
  }

  /** No call makes more than max(3, maxRetries) + 1 remote attempts. */
  lemma AttemptsBounded(respond: nat -> Outcome, maxRetries: nat)
    ensures 1 <= Call(respond, maxRetries).attempts <= Max(3, maxRetries) + 1
  {
  }

  /** The delays of a run of non-rate-limit failures from retry count `n` up to the cap. */
  function Backoffs(n: nat, maxRetries: nat): seq<nat>
    decreases maxRetries - n
  {
    if n < maxRetries then [Pow2(n)] + Backoffs(n + 1, maxRetries) else []
  }

  /** A service that always fails without a rate-limit message is called maxRetries + 1
      times, waiting 1, 2, 4, ... seconds in between, and the call gives up with its
      message. */
  lemma {:induction false} AlwaysTransient(respond: nat -> Outcome, maxRetries: nat, n: nat, m: string)
    requires !IsRateLimitMessage(m)
    requires forall j :: respond(j) == Raised(m)
    requires n <= maxRetries
    ensures CallWhisper(respond, maxRetries, n)
      == CallResult(Failure(RetriesExhausted(m)), maxRetries - n + 1, Backoffs(n, maxRetries))
    decreases maxRetries - n
  {
    if n < maxRetries {
      AlwaysTransient(respond, maxRetries, n + 1, m);
    }
  }

  /** With the shipped `max_retries` of 3: four attempts and delays of 1, 2 and 4 s. */
  lemma AlwaysTransientShipped(respond: nat -> Outcome, m: string)
    requires !IsRateLimitMessage(m)
    requires forall j :: respond(j) == Raised(m)
    ensures Call(respond, 3) == CallResult(Failure(RetriesExhausted(m)), 4, [1, 2, 4])
  {
    AlwaysTransient(respond, 3, 0, m);
    assert Backoffs(3, 3) == [];
  }

  /** A service that always reports a rate limit is called four times whatever
      `maxRetries` is, with a 5 s wait after each call, the last one included. */
  lemma {:induction false} AlwaysRateLimited(respond: nat -> Outcome, maxRetries: nat, n: nat, m: string)
    requires IsRateLimitMessage(m)
    requires forall j :: respond(j) == Raised(m)
    requires n <= 3
    ensures var c := CallWhisper(respond, maxRetries, n);
      && c.result == Failure(RateLimitExceeded(m))
      && c.attempts == 4 - n
      && |c.sleeps| == 4 - n
      && forall k :: 0 <= k < |c.sleeps| ==> c.sleeps[k] == 5
    decreases 3 - n
  {
    if n < 3 {
      AlwaysRateLimited(respond, maxRetries, n + 1, m);
    }
  }

  lemma AlwaysRateLimitedFromStart(respond: nat -> Outcome, maxRetries: nat, m: string)
    requires IsRateLimitMessage(m)
    requires forall j :: respond(j) == Raised(m)
    ensures Call(respond, maxRetries) == CallResult(Failure(RateLimitExceeded(m)), 4, [5, 5, 5, 5])
  {
    AlwaysRateLimited(respond, maxRetries, 0, m);
    var c := Call(respond, maxRetries);
    assert c.sleeps == [5, 5, 5, 5];
  }

  /** Two rate limits and then a transcript: three attempts and two 5 s waits, whatever
      `maxRetries` is. */
  lemma TwoRateLimitsThenSuccess(respond: nat -> Outcome, maxRetries: nat, m: string, t: string)
    requires IsRateLimitMessage(m)
    requires respond(0) == Raised(m) && respond(1) == Raised(m) && respond(2) == Transcript(t)
    ensures Call(respond, maxRetries) == CallResult(Success(t), 3, [5, 5])
  {
    assert CallWhisper(respond, maxRetries, 2) == CallResult(Success(t), 1, []);
  }

  /** An ordinary failure at the cap ends the call even when the next attempt would have
      succeeded: with one retry, two failures give up and the transcript is never asked for. */
  lemma PlainFailureStopsAtCap(respond: nat -> Outcome, e: string, t: string)
    requires !IsRateLimitMessage(e)
    requires respond(0) == Raised(e) && respond(1) == Raised(e) && respond(2) == Transcript(t)
    ensures Call(respond, 1) == CallResult(Failure(RetriesExhausted(e)), 2, [1])
  {
    assert CallWhisper(respond, 1, 1) == CallResult(Failure(RetriesExhausted(e)), 1, []);
  }

  /** Both tiers share one counter: a rate limit raised after two ordinary failures is
      retried only once more, so a service that fails twice and then keeps reporting rate
      limits is called four times, not six. */
  lemma SharedCounter(respond: nat -> Outcome, maxRetries: nat, e: string, m: string)
    requires !IsRateLimitMessage(e) && IsRateLimitMessage(m)
    requires 2 <= maxRetries
    requires respond(0) == Raised(e) && respond(1) == Raised(e)
    requires forall j :: j >= 2 ==> respond(j) == Raised(m)
    ensures Call(respond, maxRetries) == CallResult(Failure(RateLimitExceeded(m)), 4, [1, 2, 5, 5])
  {
    assert CallWhisper(respond, maxRetries, 3) == CallResult(Failure(RateLimitExceeded(m)), 1, [5]);
    assert CallWhisper(respond, maxRetries, 2) == CallResult(Failure(RateLimitExceeded(m)), 2, [5, 5]);
    assert CallWhisper(respond, maxRetries, 1) == CallResult(Failure(RateLimitExceeded(m)), 3, [2, 5, 5]);
  }

  /** The utils.py copy gives up with a plain exception whose text names the tier. */
  function PlainErrorMessage(g: GiveUp): (text: string)
    ensures g.RateLimitExceeded? ==> StartsWith(text, "Rate limit exceeded after retries: ")
    ensures g.RetriesExhausted? ==> StartsWith(text, "API call failed after retries: ")
    ensures EndsWith(text, g.message)
  {
    match g
    case RateLimitExceeded(m) => "Rate limit exceeded after retries: " + m
    case RetriesExhausted(m) => "API call failed after retries: " + m
  }

  /** The app.py copy raises `WhisperAIError`: `RATE_LIMIT` without details on the first
      tier; `API_ERROR` with the classified user message and the raw message as details
      on the second. */
  function LiveError(g: GiveUp): (e: AppError)
    ensures e.errorType == "RATE_LIMIT" <==> g.RateLimitExceeded?
    ensures e.errorType == "RATE_LIMIT" ==> e.details == None && EndsWith(e.message, g.message)
    ensures e.errorType == "API_ERROR" <==> g.RetriesExhausted?
    ensures e.errorType == "API_ERROR" ==> e.details == Some(g.message) && e.message == HandleApiError(g.message)
  {
    match g
    case RateLimitExceeded(m) => AppError("Rate limit exceeded after retries: " + m, "RATE_LIMIT", None)
    case RetriesExhausted(m) => AppError(HandleApiError(m), "API_ERROR", Some(m))
  }
}
