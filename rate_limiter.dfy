/** `APIRateLimiter` (app.py): a sliding-window limiter over three lists of time stamps —
    requests in the last minute, tokens in the last minute and requests in the last day.
    The clock is a parameter (`now`, whole milliseconds), the limiter is used by one caller
    at a time (the locks are not modelled), and the text of the denial messages is
    reduced to its reason and, where the source computes one, the suggested wait. */
module RateLimiter {
  import opened Wrappers

  const MinuteMs := 60000
  const DayMs := 86400000

  /** One `{'time': ..., 'tokens': ...}` entry. */
  datatype TokenEntry = TokenEntry(time: int, tokens: int)

  /** The answer of `can_make_request`; `MinOfEmpty` is the `ValueError` that `min()`
      raises when a wait is computed over an empty window. */
  datatype Decision =
    | Proceed
    | RequestLimit(waitMs: int)
    | DailyLimit
    | TokenLimit(waitMs: int)
    | MinOfEmpty

  /** `[t for t in xs if t > cutoff]`: each time stamp newer than the cutoff is kept as
      often as it occurs, and the others are dropped. */
  function After(xs: seq<int>, cutoff: int): (r: seq<int>)
    ensures |r| <= |xs|
    ensures forall t :: t in r <==> t in xs && t > cutoff
  {
    if xs == [] then []
    else (if xs[0] > cutoff then [xs[0]] else []) + After(xs[1..], cutoff)
  }

  /** `[t for t in xs if t['time'] > cutoff]`: each entry newer than the cutoff is kept as
      often as it occurs, and the others are dropped. */
  function EntriesAfter(xs: seq<TokenEntry>, cutoff: int): (r: seq<TokenEntry>)
    ensures |r| <= |xs|
    ensures forall e :: e in r <==> e in xs && e.time > cutoff
  {
    if xs == [] then []
    else (if xs[0].time > cutoff then [xs[0]] else []) + EntriesAfter(xs[1..], cutoff)
  }

  function SumTokens(xs: seq<TokenEntry>): int
  {
    if xs == [] then 0 else xs[0].tokens + SumTokens(xs[1..])
  }

  function Earliest(xs: seq<int>): (m: int)
    requires xs != []
    ensures m in xs && forall t :: t in xs ==> m <= t
  {
    if |xs| == 1 then xs[0]
    else
      var m := Earliest(xs[1..]);
      assert m in xs[1..] && xs == [xs[0]] + xs[1..];
      if xs[0] <= m then xs[0] else m
  }

  function EarliestEntry(xs: seq<TokenEntry>): (m: int)
    requires xs != []
    ensures forall e :: e in xs ==> m <= e.time
    ensures exists e :: e in xs && e.time == m
  {
    if |xs| == 1 then xs[0].time
    else
      var m := EarliestEntry(xs[1..]);
      assert xs == [xs[0]] + xs[1..];
      if xs[0].time <= m then xs[0].time else m
  }

  /** The checks of `can_make_request` on windows that are already pruned, in the source's
      order: requests this minute, requests today, then tokens this minute. */
  function Decide(minute: seq<int>, tokens: seq<TokenEntry>, daily: seq<int>,
                  rpm: int, tpm: int, rpd: int, now: int, estimated: int): (d: Decision)
    ensures d == Proceed <==> |minute| < rpm && |daily| < rpd && SumTokens(tokens) + estimated <= tpm
    ensures d == MinOfEmpty <==>
      (|minute| >= rpm && minute == [])
      || (|minute| < rpm && |daily| < rpd && SumTokens(tokens) + estimated > tpm && tokens == [])
    ensures d.RequestLimit? <==> |minute| >= rpm && minute != []
    ensures d.RequestLimit? ==> d.waitMs == MinuteMs - (now - Earliest(minute))
    ensures d == DailyLimit <==> |minute| < rpm && |daily| >= rpd
    ensures d.TokenLimit? <==>
      |minute| < rpm && |daily| < rpd && SumTokens(tokens) + estimated > tpm && tokens != []
    ensures d.TokenLimit? ==> d.waitMs == MinuteMs - (now - EarliestEntry(tokens))
  {
    if |minute| >= rpm then
      if minute == [] then MinOfEmpty else RequestLimit(MinuteMs - (now - Earliest(minute)))
    else if |daily| >= rpd then DailyLimit
    else if SumTokens(tokens) + estimated > tpm then
      if tokens == [] then MinOfEmpty else TokenLimit(MinuteMs - (now - EarliestEntry(tokens)))
    else Proceed
  }

  /** Pruning twice with the same cutoff changes nothing more. */
  lemma {:induction false} AfterIdempotent(xs: seq<int>, cutoff: int)
    ensures After(After(xs, cutoff), cutoff) == After(xs, cutoff)
    decreases |xs|
  {
    if xs != [] {
      AfterIdempotent(xs[1..], cutoff);
      var head := if xs[0] > cutoff then [xs[0]] else [];
      AfterAppend(head, After(xs[1..], cutoff), cutoff);
    }
  }

  lemma {:induction false} AfterAppend(xs: seq<int>, ys: seq<int>, cutoff: int)
    ensures After(xs + ys, cutoff) == After(xs, cutoff) + After(ys, cutoff)
    decreases |xs|
  {
    if xs == [] {
      assert xs + ys == ys;
    } else {
      assert (xs + ys)[1..] == xs[1..] + ys;
      AfterAppend(xs[1..], ys, cutoff);
    }
  }

  /** Pruning keeps every time stamp newer than the cutoff as often as it occurs: two
      requests logged in the same millisecond both stay counted. */
  lemma {:induction false} AfterKeepsMultiplicity(xs: seq<int>, cutoff: int)
    ensures forall t :: multiset(After(xs, cutoff))[t] == if t > cutoff then multiset(xs)[t] else 0
    decreases |xs|
  {
    if xs != [] {
      AfterKeepsMultiplicity(xs[1..], cutoff);
      assert xs == [xs[0]] + xs[1..];
    }
  }

  /** The same for the token log: every entry newer than the cutoff is kept as often as it
      occurs. */
  lemma {:induction false} EntriesAfterKeepsMultiplicity(xs: seq<TokenEntry>, cutoff: int)
    ensures forall e :: multiset(EntriesAfter(xs, cutoff))[e] == if e.time > cutoff then multiset(xs)[e] else 0
    decreases |xs|
  {
    if xs != [] {
      EntriesAfterKeepsMultiplicity(xs[1..], cutoff);
      assert xs == [xs[0]] + xs[1..];
    }
  }

  /** A log of one time stamp keeps it exactly when it is newer than the cutoff; with
      `AfterAppend` this fixes pruning as the order-keeping filter. */
  lemma AfterSingleton(t: int, cutoff: int)
    ensures After([t], cutoff) == if t > cutoff then [t] else []
  {
  }

  /** A token log of one entry keeps it exactly when it is newer than the cutoff. */
  lemma EntriesAfterSingleton(e: TokenEntry, cutoff: int)
    ensures EntriesAfter([e], cutoff) == if e.time > cutoff then [e] else []
  {
  }

  /** Pruning the token log distributes over concatenation; with `EntriesAfterSingleton`
      this fixes it as the order-keeping filter. */
  lemma {:induction false} EntriesAfterAppend(xs: seq<TokenEntry>, ys: seq<TokenEntry>, cutoff: int)
    ensures EntriesAfter(xs + ys, cutoff) == EntriesAfter(xs, cutoff) + EntriesAfter(ys, cutoff)
    decreases |xs|
  {
    if xs == [] {
      assert xs + ys == ys;
    } else {
      assert (xs + ys)[1..] == xs[1..] + ys;
      EntriesAfterAppend(xs[1..], ys, cutoff);
    }
  }

  /** With an empty token window, a request estimated above the whole per-minute budget
      makes `can_make_request` raise instead of answering. */
  lemma OversizedRequestOnIdleWindowRaises(minute: seq<int>, daily: seq<int>,
                                           rpm: int, tpm: int, rpd: int, now: int, estimated: int)
    requires |minute| < rpm && |daily| < rpd && estimated > tpm
    ensures Decide(minute, [], daily, rpm, tpm, rpd, now, estimated) == MinOfEmpty
  {
  }

  /** What `get_usage_stats` reports; the three percentages are exact quotients. */
  datatype Usage = Usage(requestsThisMinute: nat, tokensThisMinute: int, requestsToday: nat,
                         requestsPerMinuteLimit: int, tokensPerMinuteLimit: int, requestsPerDayLimit: int,
                         minuteUsagePercent: real, tokenUsagePercent: real, dailyUsagePercent: real)

  /** The `ZeroDivisionError` of a percentage over a limit of zero. */
  datatype StatsFault = ZeroLimit

  /** `(used / limit) * 100`. */
  function Percent(used: int, limit: int): real
    requires limit != 0
  {
    (used as real / limit as real) * 100.0
  }

  class APIRateLimiter {
    const requestsPerMinute: int
    const tokensPerMinute: int
    const requestsPerDay: int
    var minuteRequests: seq<int>
    var minuteTokens: seq<TokenEntry>
    var dailyRequests: seq<int>

    constructor(rpm: int, tpm: int, rpd: int)
      ensures requestsPerMinute == rpm && tokensPerMinute == tpm && requestsPerDay == rpd
      ensures minuteRequests == [] && minuteTokens == [] && dailyRequests == []
    {
      requestsPerMinute, tokensPerMinute, requestsPerDay := rpm, tpm, rpd;
      minuteRequests, minuteTokens, dailyRequests := [], [], [];
    }

    /** The three windows as `now` sees them. */
    method Prune(now: int)
      modifies this
      ensures minuteRequests == After(old(minuteRequests), now - MinuteMs)
      ensures minuteTokens == EntriesAfter(old(minuteTokens), now - MinuteMs)
      ensures dailyRequests == After(old(dailyRequests), now - DayMs)
    {
      minuteRequests := After(minuteRequests, now - MinuteMs);
      minuteTokens := EntriesAfter(minuteTokens, now - MinuteMs);
      dailyRequests := After(dailyRequests, now - DayMs);
    }

    /** `can_make_request`: prune, then decide on what is left. */
    method CanMakeRequest(now: int, estimated: int) returns (d: Decision)
      modifies this
      ensures minuteRequests == After(old(minuteRequests), now - MinuteMs)
      ensures minuteTokens == EntriesAfter(old(minuteTokens), now - MinuteMs)
      ensures dailyRequests == After(old(dailyRequests), now - DayMs)
      ensures d == Decide(minuteRequests, minuteTokens, dailyRequests,
                          requestsPerMinute, tokensPerMinute, requestsPerDay, now, estimated)
    {
      Prune(now);
      if |minuteRequests| >= requestsPerMinute {
        if minuteRequests == [] {
          return MinOfEmpty;
        }
        return RequestLimit(MinuteMs - (now - Earliest(minuteRequests)));
      }
      if |dailyRequests| >= requestsPerDay {
        return DailyLimit;
      }
      var currentMinuteTokens := SumTokens(minuteTokens);
      if currentMinuteTokens + estimated > tokensPerMinute {
        if minuteTokens == [] {
          return MinOfEmpty;
        }
        return TokenLimit(MinuteMs - (now - EarliestEntry(minuteTokens)));
      }
      return Proceed;
    }

    /** `record_request`: one entry with the same time stamp in each list. */
    method RecordRequest(now: int, actualTokens: int)
      modifies this
      ensures minuteRequests == old(minuteRequests) + [now]
      ensures minuteTokens == old(minuteTokens) + [TokenEntry(now, actualTokens)]
      ensures dailyRequests == old(dailyRequests) + [now]
    {
      minuteRequests := minuteRequests + [now];
      minuteTokens := minuteTokens + [TokenEntry(now, actualTokens)];
      dailyRequests := dailyRequests + [now];
    }

    /** `get_usage_stats`: prune, then count; a limit of zero makes a percentage raise,
        after the logs are pruned. */
    method GetUsageStats(now: int) returns (u: Result<Usage, StatsFault>)
      modifies this
      ensures minuteRequests == After(old(minuteRequests), now - MinuteMs)
      ensures minuteTokens == EntriesAfter(old(minuteTokens), now - MinuteMs)
      ensures dailyRequests == After(old(dailyRequests), now - DayMs)
      ensures u.Failure? <==> requestsPerMinute == 0 || tokensPerMinute == 0 || requestsPerDay == 0
      ensures u.Success? ==>
        u.value == Usage(|minuteRequests|, SumTokens(minuteTokens), |dailyRequests|,
                         requestsPerMinute, tokensPerMinute, requestsPerDay,
                         Percent(|minuteRequests|, requestsPerMinute),
                         Percent(SumTokens(minuteTokens), tokensPerMinute),
                         Percent(|dailyRequests|, requestsPerDay))
    {
      Prune(now);
      var tokens := SumTokens(minuteTokens);
      if requestsPerMinute == 0 || tokensPerMinute == 0 || requestsPerDay == 0 {
        return Failure(ZeroLimit);
      }
      u := Success(Usage(|minuteRequests|, tokens, |dailyRequests|,
                         requestsPerMinute, tokensPerMinute, requestsPerDay,
                         Percent(|minuteRequests|, requestsPerMinute),
                         Percent(tokens, tokensPerMinute),
                         Percent(|dailyRequests|, requestsPerDay)));
    }

    /** `rate_limited_request` around a body that starts at `now` and runs `elapsedMs`:
        a denial (or the crash) raises before the body and records nothing; otherwise the
        request is recorded once, when the body ends, with at least the estimate. Either
        way a request let through keeps both request windows within their limits. The
        body's own outcome is not modelled: the `finally` records the request even when
        the body raises, and that exception then propagates, so the recorded state is
        the same either way. */
    method RateLimitedRequest(now: int, elapsedMs: nat, estimated: int) returns (r: Result<int, Decision>)
      modifies this
      ensures var d := Decide(After(old(minuteRequests), now - MinuteMs),
                              EntriesAfter(old(minuteTokens), now - MinuteMs),
                              After(old(dailyRequests), now - DayMs),
                              requestsPerMinute, tokensPerMinute, requestsPerDay, now, estimated);
        && (d != Proceed ==>
              (r == Failure(d)
               && minuteRequests == After(old(minuteRequests), now - MinuteMs)
               && minuteTokens == EntriesAfter(old(minuteTokens), now - MinuteMs)
               && dailyRequests == After(old(dailyRequests), now - DayMs)))
        && (d == Proceed ==>
              (r == Success(Max(estimated, elapsedMs / 10))
               && minuteRequests == After(old(minuteRequests), now - MinuteMs) + [now + elapsedMs]
               && minuteTokens == EntriesAfter(old(minuteTokens), now - MinuteMs)
                                  + [TokenEntry(now + elapsedMs, Max(estimated, elapsedMs / 10))]
               && dailyRequests == After(old(dailyRequests), now - DayMs) + [now + elapsedMs]))
      ensures r.Success? ==> |minuteRequests| <= requestsPerMinute && |dailyRequests| <= requestsPerDay
    {
      var d := CanMakeRequest(now, estimated);
      if d != Proceed {
        return Failure(d);
      }
      var actualTokens := Max(estimated, elapsedMs / 10);
      RecordRequest(now + elapsedMs, actualTokens);
      r := Success(actualTokens);
    }
  }
}
