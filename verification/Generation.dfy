/**
 The two generator wrappers, `generate_tweet` and `generate_comment`: each
 asks the rate limiter first, then calls the generation service, and charges
 the limiter only when the service answered. A service failure is turned into
 a returned failure string; the daily-limit exception of the limiter escapes.
 The service itself is opaque: its answer is a parameter.
 */
module Generation {
  import opened Text
  import opened RateLimiter

  /** What the generation service did with the prompt: answered with a
      (stripped) text, or failed with a cause. */
  datatype Generation = Generated(text: string) | GenerationError(cause: string)

  /** What a wrapper call did: the daily-limit exception escaped, or it
      returned a text (the generated one or a failure string). Both carry the
      limiter afterwards and the instant the caller resumes. */
  datatype Call =
    | Raised(limiter: Limiter, clock: int)
    | Returned(limiter: Limiter, clock: int, text: string)

  /** The marker the posting loop looks for to drop a failed tweet. */
  const TweetFailureMarker: string := "Failed to generate tweet"
  /** The marker the commenting loop looks for to drop a failed comment. */
  const CommentFailureMarker: string := "Failed to generate comment"

  /** The string `generate_tweet` returns when the service fails. */
  function TweetFailure(username: string, cause: string): (s: string)
    ensures Contains(s, TweetFailureMarker)
  {
    PrefixIsContained(TweetFailureMarker, " for " + username + ": " + cause);
    TweetFailureMarker + " for " + username + ": " + cause
  }

  /** The string `generate_comment` returns when the service fails. */
  function CommentFailure(cause: string): (s: string)
    ensures Contains(s, CommentFailureMarker)
  {
    PrefixIsContained(CommentFailureMarker, ": " + cause);
    CommentFailureMarker + ": " + cause
  }

  /** Shared protocol: check, then call the service, then log only on success. */
  function Generate(l: Limiter, now: int, g: Generation, onFailure: string): (r: Call)
    ensures r.Raised? <==> CheckLimits(l, now).DailyLimitReached?
    ensures r.clock == CheckLimits(l, now).resumeAt
    // the exception leaves the limiter as the window resets left it
    ensures r.Raised? ==> r.limiter == ResetWindows(l, now)
    // only an answered call is charged, and it is charged exactly once
    ensures r.Returned? && g.Generated? ==>
      r.text == g.text && r.limiter == LogRequest(ResetWindows(l, now))
    ensures r.Returned? && g.GenerationError? ==>
      r.text == onFailure && r.limiter == ResetWindows(l, now)
  {
    var c := CheckLimits(l, now);
    if c.DailyLimitReached? then Raised(c.limiter, c.resumeAt)
    else match g
      case Generated(text) => Returned(LogRequest(c.limiter), c.resumeAt, text)
      case GenerationError(cause) => Returned(c.limiter, c.resumeAt, onFailure)
  }

  /** `generate_tweet` for the user named `username`. */
  function GenerateTweet(l: Limiter, now: int, username: string, g: Generation): (r: Call)
    ensures r.Raised? <==> CheckLimits(l, now).DailyLimitReached?
    ensures r.Returned? && g.GenerationError? ==>
      Contains(r.text, TweetFailureMarker) && r.limiter == ResetWindows(l, now)
    ensures r.Returned? && g.Generated? ==>
      r.text == g.text && r.limiter == LogRequest(ResetWindows(l, now))
    ensures r.Raised? ==> r.limiter == ResetWindows(l, now)
    ensures r.clock == CheckLimits(l, now).resumeAt
  {
    var onFailure := if g.GenerationError? then TweetFailure(username, g.cause) else "";
    Generate(l, now, g, onFailure)
  }

  /** `generate_comment`. */
  function GenerateComment(l: Limiter, now: int, g: Generation): (r: Call)
    ensures r.Raised? <==> CheckLimits(l, now).DailyLimitReached?
    ensures r.Returned? && g.GenerationError? ==>
      Contains(r.text, CommentFailureMarker) && r.limiter == ResetWindows(l, now)
    ensures r.Returned? && g.Generated? ==>
      r.text == g.text && r.limiter == LogRequest(ResetWindows(l, now))
    ensures r.Raised? ==> r.limiter == ResetWindows(l, now)
    ensures r.clock == CheckLimits(l, now).resumeAt
  {
    var onFailure := if g.GenerationError? then CommentFailure(g.cause) else "";
    Generate(l, now, g, onFailure)
  }

  /** Budget is charged only on success: when no window has expired, a failed
      generation leaves both counters exactly as they were, and a successful
      one adds exactly one to each. */
  lemma {:induction false} ChargedOnlyOnSuccess(l: Limiter, now: int, g: Generation, onFailure: string)
    requires now < l.minuteResetTime && now < l.dailyResetTime
    requires Generate(l, now, g, onFailure).Returned?
    ensures g.GenerationError? ==>
      && Generate(l, now, g, onFailure).limiter.requestsInLastMinute == l.requestsInLastMinute
      && Generate(l, now, g, onFailure).limiter.totalRequestsToday == l.totalRequestsToday
    ensures g.Generated? ==>
      && Generate(l, now, g, onFailure).limiter.requestsInLastMinute == l.requestsInLastMinute + 1
      && Generate(l, now, g, onFailure).limiter.totalRequestsToday == l.totalRequestsToday + 1
  {
    assert ResetWindows(l, now) == l;
  }

  /** When the daily cap is reached the wrapper makes no service call: its
      result is the same whatever the service would have answered, and
      nothing is logged. */
  lemma RaisedIgnoresService(l: Limiter, now: int, g1: Generation, g2: Generation, f1: string, f2: string)
    requires CheckLimits(l, now).DailyLimitReached?
    ensures Generate(l, now, g1, f1) == Generate(l, now, g2, f2)
    ensures Generate(l, now, g1, f1).limiter.totalRequestsToday >= l.maxPerDay
  {
  }

  /** Every wrapper call started at or after `clock` keeps the budget invariant
      at the instant the caller resumes, whatever the service answered. */
  lemma {:induction false} GenerateKeepsInv(l: Limiter, clock: int, now: int, g: Generation, onFailure: string)
    requires Inv(l, clock) && clock <= now
    ensures Inv(Generate(l, now, g, onFailure).limiter, Generate(l, now, g, onFailure).clock)
    ensures Generate(l, now, g, onFailure).clock >= now
  {
    CheckThenLogKeepsInv(l, clock, now);
  }
}
