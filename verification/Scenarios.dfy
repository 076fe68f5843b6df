/**
 End-to-end facts that tie the loops, the limiter and the read API together:
 the limiter the program builds, and what the read API shows after the first
 tweet lands in an empty store.
 */
module Scenarios {
  import opened Text
  import opened RateLimiter
  import opened Generation
  import opened Store
  import opened Workers
  import opened Pagination

  /** The program's limiter: ten calls a minute, a thousand a day. */
  function ProgramLimiter(now: int): (l: Limiter)
  {
    Init(10, 1000, now)
  }

  /** The simulation as `run_simulation` starts it on a cold start (no store
      file yet): an empty store and the fresh limiter. */
  function ColdStart(now: int): (s: Sim)
  {
    Sim([], ProgramLimiter(now), now)
  }

  /** A cold start is within budget, and so is everything a pass of either
      loop leaves behind. */
  lemma {:induction false} ColdStartWithinBudget(now: int, users: seq<User>, draws: seq<Draw>)
    requires |draws| == |users|
    ensures BudgetOk(ColdStart(now))
    ensures BudgetOk(TweetPass(ColdStart(now), users, draws).sim)
    ensures TweetPass(ColdStart(now), users, draws).sim.limiter.totalRequestsToday <= 1000
  {
    TweetPassKeepsBudget(ColdStart(now), users, draws);
  }

  /** Starting from an empty store, one successful tweet is exactly what page
      1 of 10 shows: one item, one page. */
  lemma {:induction false} FirstTweetIsPageOne(now: int, u: User, d: Draw)
    requires d.hit && d.generation.Generated?
    requires !Contains(d.generation.text, TweetFailureMarker)
    ensures var db := TweetAttempt(ColdStart(now), u, d).sim.db;
            var page := Paginate(db, 1, 10);
            && page.totalItems == 1
            && page.totalPages == 1
            && |page.data| == 1
            && page.data[0].user == u.username
            && page.data[0].name == u.name
            && page.data[0].tweet == d.generation.text
            && page.data[0].comments == []
  {
    var s := ColdStart(now);
    assert CheckLimits(s.limiter, s.clock).Proceed?;
    var db := TweetAttempt(s, u, d).sim.db;
    assert |db| == 1;
  }

  /** A user never comments on their own tweet, whatever the random draws. */
  lemma NoSelfComment(s: Sim, u: User, target: nat, d: Draw)
    requires target < |s.db| && s.db[target].user == u.username
    ensures CommentAttempt(s, u, target, d) == Running(s)
  {
  }
}
