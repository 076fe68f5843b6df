/**
 The API rate limiter that gates every call to the text-generation service:
 a per-minute and a per-day request counter, each with the instant its window
 ends. Time is an abstract integer count of seconds; the one blocking wait of
 the program becomes the instant at which the caller resumes.
 */
module RateLimiter {

  /** Length of the minute window, `timedelta(minutes=1)`, in seconds. */
  const MinuteSeconds: int := 60
  /** Length of the day window, `timedelta(days=1)`, in seconds. */
  const DaySeconds: int := 86400

  datatype Limiter = Limiter(
    maxPerMinute: int,
    maxPerDay: int,
    requestsInLastMinute: nat,
    totalRequestsToday: nat,
    minuteResetTime: int,
    dailyResetTime: int)

  /** The outcome of `check_limits`: the limiter after its window resets, the
      instant the caller resumes (later than `now` only when it had to wait for
      the minute boundary), and whether the daily cap made it raise. */
  datatype Checked =
    | Proceed(limiter: Limiter, resumeAt: int)
    | DailyLimitReached(limiter: Limiter, resumeAt: int)

  /** A freshly constructed limiter at instant `now`: nothing charged yet, the
      minute window ending a minute from now and the day window a day from
      now. With caps that are not negative it holds the budget invariant. */
  function Init(maxPerMinute: int, maxPerDay: int, now: int): (l: Limiter)
    ensures l.maxPerMinute == maxPerMinute && l.maxPerDay == maxPerDay
    ensures l.requestsInLastMinute == 0 && l.totalRequestsToday == 0
    ensures l.minuteResetTime == now + MinuteSeconds && l.dailyResetTime == now + DaySeconds
    ensures 0 <= maxPerMinute && 0 <= maxPerDay ==> Inv(l, now)
  {
    Limiter(maxPerMinute, maxPerDay, 0, 0, now + MinuteSeconds, now + DaySeconds)
  }

  /** The two window resets at the start of `check_limits`. */
  function ResetWindows(l: Limiter, now: int): (r: Limiter)
    ensures r.maxPerMinute == l.maxPerMinute && r.maxPerDay == l.maxPerDay
    ensures now >= l.minuteResetTime ==>
      r.requestsInLastMinute == 0 && r.minuteResetTime == now + MinuteSeconds
    ensures now < l.minuteResetTime ==>
      r.requestsInLastMinute == l.requestsInLastMinute && r.minuteResetTime == l.minuteResetTime
    ensures now >= l.dailyResetTime ==>
      r.totalRequestsToday == 0 && r.dailyResetTime == now + DaySeconds
    ensures now < l.dailyResetTime ==>
      r.totalRequestsToday == l.totalRequestsToday && r.dailyResetTime == l.dailyResetTime
    // after the resets both windows end strictly after `now`
    ensures now < r.minuteResetTime && now < r.dailyResetTime
  {
    var m := if now >= l.minuteResetTime
      then l.(requestsInLastMinute := 0, minuteResetTime := now + MinuteSeconds)
      else l;
    if now >= m.dailyResetTime
    then m.(totalRequestsToday := 0, dailyResetTime := now + DaySeconds)
    else m
  }

  /** `check_limits` at instant `now`. */
  function CheckLimits(l: Limiter, now: int): (c: Checked)
    ensures c.limiter == ResetWindows(l, now)
    // the caller waits exactly when the minute counter has reached its cap,
    // and then until the minute boundary, which lies in the future
    ensures c.limiter.requestsInLastMinute >= l.maxPerMinute ==>
      c.resumeAt == c.limiter.minuteResetTime && c.resumeAt > now
    ensures c.limiter.requestsInLastMinute < l.maxPerMinute ==> c.resumeAt == now
    // the daily cap is checked after the wait and raises
    ensures c.DailyLimitReached? <==> c.limiter.totalRequestsToday >= l.maxPerDay
  {
    var r := ResetWindows(l, now);
    var resume := if r.requestsInLastMinute >= r.maxPerMinute then r.minuteResetTime else now;
    if r.totalRequestsToday >= r.maxPerDay
    then DailyLimitReached(r, resume)
    else Proceed(r, resume)
  }

  /** `log_request`: one more call in each window; neither the caps nor the
      window ends move. */
  function LogRequest(l: Limiter): (r: Limiter)
    ensures r.requestsInLastMinute == l.requestsInLastMinute + 1
    ensures r.totalRequestsToday == l.totalRequestsToday + 1
    ensures r.minuteResetTime == l.minuteResetTime && r.dailyResetTime == l.dailyResetTime
    ensures r.maxPerMinute == l.maxPerMinute && r.maxPerDay == l.maxPerDay
  {
    l.(requestsInLastMinute := l.requestsInLastMinute + 1,
       totalRequestsToday := l.totalRequestsToday + 1)
  }

  /** The budget invariant of a limiter observed at instant `clock`: the daily
      counter never exceeds its cap, and the minute counter exceeds its cap by
      at most one, and then only once the minute window has already ended (so
      the next check resets it). */
  predicate Inv(l: Limiter, clock: int)
  {
    && 0 <= l.maxPerMinute
    && 0 <= l.maxPerDay
    && l.totalRequestsToday <= l.maxPerDay
    && (l.requestsInLastMinute <= l.maxPerMinute
        || (l.requestsInLastMinute == l.maxPerMinute + 1 && l.minuteResetTime <= clock))
  }

  /** The invariant survives the passage of time. */
  lemma InvLater(l: Limiter, clock: int, later: int)
    requires Inv(l, clock) && clock <= later
    ensures Inv(l, later)
  {
  }

  /** A check at or after `clock`, whatever follows it (a logged success, an
      unlogged failure, or the daily-limit exception), keeps the invariant at
      the instant the caller resumes; a logged call never pushes the daily
      counter past its cap. */
  lemma {:induction false} CheckThenLogKeepsInv(l: Limiter, clock: int, now: int)
    requires Inv(l, clock) && clock <= now
    ensures Inv(CheckLimits(l, now).limiter, CheckLimits(l, now).resumeAt)
    ensures CheckLimits(l, now).Proceed? ==>
      Inv(LogRequest(CheckLimits(l, now).limiter), CheckLimits(l, now).resumeAt)
    ensures CheckLimits(l, now).Proceed? ==>
      LogRequest(CheckLimits(l, now).limiter).totalRequestsToday <= l.maxPerDay
  {
    var c := CheckLimits(l, now);
    var r := c.limiter;
    // an over-cap minute counter belongs to a window that has already ended
    assert r.requestsInLastMinute <= l.maxPerMinute;
    assert c.resumeAt >= now;
  }

  /** The minute wait does not reset the counter: a call that had to wait and
      is then logged leaves the minute counter one above its cap. */
  lemma {:induction false} WaitLeavesCounterOverCap(l: Limiter, clock: int, now: int)
    requires Inv(l, clock) && clock <= now
    requires CheckLimits(l, now).Proceed? && CheckLimits(l, now).resumeAt > now
    ensures LogRequest(CheckLimits(l, now).limiter).requestsInLastMinute == l.maxPerMinute + 1
    ensures CheckLimits(l, now).resumeAt == CheckLimits(l, now).limiter.minuteResetTime
  {
    var r := CheckLimits(l, now).limiter;
    assert r.requestsInLastMinute <= l.maxPerMinute;
  }

  /** A call that proceeds without waiting is within the minute cap once logged. */
  lemma {:induction false} NoWaitWithinMinuteCap(l: Limiter, clock: int, now: int)
    requires Inv(l, clock) && clock <= now
    requires CheckLimits(l, now).Proceed? && CheckLimits(l, now).resumeAt == now
    ensures LogRequest(CheckLimits(l, now).limiter).requestsInLastMinute <= l.maxPerMinute
  {
    var r := CheckLimits(l, now).limiter;
    assert r.requestsInLastMinute < l.maxPerMinute;
  }

  /** The daily clause of the invariant does not depend on the clock: a
      logged call never takes the daily counter past its cap, even when the
      check runs at an instant before the one the invariant was observed at. */
  lemma {:induction false} DailyCapAtAnyInstant(l: Limiter, clock: int, now: int)
    requires Inv(l, clock)
    ensures CheckLimits(l, now).Proceed? ==>
      LogRequest(CheckLimits(l, now).limiter).totalRequestsToday <= l.maxPerDay
  {
    var r := CheckLimits(l, now).limiter;
    assert r.totalRequestsToday <= l.totalRequestsToday || r.totalRequestsToday == 0;
  }

  /** The minute clause does need a clock that never goes back: a limiter one
      over its minute cap after its window ended at 100, checked at 50, waits
      until 100 and is then logged, leaving the counter two over the cap while
      the window it counts in has not been reset. */
  lemma ClockBackBreaksMinuteClause()
    ensures var l := Limiter(2, 1000, 3, 3, 100, 86400);
            var c := CheckLimits(l, 50);
            && Inv(l, 100)
            && c.Proceed? && c.resumeAt == 100
            && LogRequest(c.limiter).requestsInLastMinute == 4
            && !Inv(LogRequest(c.limiter), c.resumeAt)
  {
  }

  /** Two callers that share one limiter without a lock can both pass the
      check before either logs: with one call left for the day and room in the
      minute window, both proceed and the two logs take the daily counter one
      past its cap. */
  lemma {:induction false} UnlockedCallersOvershoot(l: Limiter, now: int)
    requires now < l.minuteResetTime && now < l.dailyResetTime
    requires l.totalRequestsToday + 1 == l.maxPerDay
    requires l.requestsInLastMinute + 1 < l.maxPerMinute
    ensures CheckLimits(l, now).Proceed? && CheckLimits(l, now).resumeAt == now
    ensures LogRequest(LogRequest(CheckLimits(l, now).limiter)).totalRequestsToday == l.maxPerDay + 1
  {
  }

  /** A second check at the same instant resets nothing more. */
  lemma ResetIdempotent(l: Limiter, now: int)
    ensures ResetWindows(ResetWindows(l, now), now) == ResetWindows(l, now)
  {
  }

  /** One check-then-log cycle with a successful generation, at instant `now`. */
  function Dispatch(l: Limiter, now: int): (c: Checked)
  {
    var k := CheckLimits(l, now);
    if k.Proceed? then Proceed(LogRequest(k.limiter), k.resumeAt) else k
  }

  /** Cap two calls per minute, three successful calls back to back at instant
      0: the third waits until the minute boundary at 60 and afterwards all
      three are counted. Two more calls at 60 then proceed without waiting, so
      three calls are dispatched within the minute window [60, 120) although
      the cap is two. */
  lemma MinuteCapScenario()
    ensures var l0 := Init(2, 1000, 0);
            var c1 := Dispatch(l0, 0);
            var c2 := Dispatch(c1.limiter, c1.resumeAt);
            var c3 := Dispatch(c2.limiter, c2.resumeAt);
            var c4 := Dispatch(c3.limiter, c3.resumeAt);
            var c5 := Dispatch(c4.limiter, c4.resumeAt);
            && c1.resumeAt == 0 && c2.resumeAt == 0
            && c3.resumeAt == 60
            && c3.limiter.requestsInLastMinute == 3
            && c3.limiter.totalRequestsToday == 3
            && c4.resumeAt == 60 && c5.resumeAt == 60
            && c5.limiter.minuteResetTime == 120
            && c5.limiter.requestsInLastMinute == 2
  {
  }
}
