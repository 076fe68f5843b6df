/**
 One pass of each of the two endless loops, `tweeting` and `commenting`, as
 pure steps over the simulation state: the store, the shared rate limiter
 and the current instant. Every random draw of the program is a parameter:
 a `Draw` holds the probability gate's outcome, the service's answer and the
 pause the loop sleeps afterwards; a commenting round gets its sample of
 store positions.
 */
module Workers {
  import opened Text
  import opened RateLimiter
  import opened Generation
  import opened Store
  import opened Arith

  datatype Sim = Sim(db: seq<Post>, limiter: Limiter, clock: int)

  /** The random outcomes of one attempt: whether the probability gate let
      the user act, what the service answered, and how long the loop sleeps
      after an attempt that passed the gate. */
  datatype Draw = Draw(hit: bool, generation: Generation, pause: nat)

  /** A loop either keeps running, or has died of the daily-limit exception. */
  datatype Step = Running(sim: Sim) | Stopped(sim: Sim)

  /** The rate limiter's budget invariant, at the simulation's instant. */
  predicate BudgetOk(s: Sim)
  {
    RateLimiter.Inv(s.limiter, s.clock)
  }

  /** The caps are configuration: no step changes them. */
  predicate SameCaps(s: Sim, t: Sim)
  {
    s.limiter.maxPerMinute == t.limiter.maxPerMinute && s.limiter.maxPerDay == t.limiter.maxPerDay
  }

  /** The usernames of a roster. */
  function Usernames(users: seq<User>): (names: set<string>)
    ensures forall k :: 0 <= k < |users| ==> users[k].username in names
    ensures forall x :: x in names ==> exists k :: 0 <= k < |users| && users[k].username == x
  {
    set k | 0 <= k < |users| :: users[k].username
  }

  // ---------------------------------------------------------------------------
  // Posting
  // ---------------------------------------------------------------------------

  /** The body of the posting loop for one user. */
  function TweetAttempt(s: Sim, u: User, d: Draw): (r: Step)
    ensures !d.hit ==> r == Running(s)
    ensures r.Stopped? <==> d.hit && CheckLimits(s.limiter, s.clock).DailyLimitReached?
    ensures r.Stopped? ==> r.sim.db == s.db && r.sim.limiter == ResetWindows(s.limiter, s.clock)
    // a post is inserted exactly when the service answered with a text that
    // does not carry the failure marker
    ensures |r.sim.db| > |s.db| <==>
      && d.hit && r.Running?
      && d.generation.Generated?
      && !Contains(d.generation.text, TweetFailureMarker)
    ensures |r.sim.db| > |s.db| ==>
      && r.sim.db == InsertPost(s.db, NewPost(u, d.generation.text, r.sim.db[0].timestamp))
      && !Contains(r.sim.db[0].tweet, TweetFailureMarker)
    ensures |r.sim.db| <= |s.db| ==> r.sim.db == s.db
    ensures SameCaps(s, r.sim) && r.sim.clock >= s.clock
  {
    if !d.hit then Running(s)
    else
      var c := GenerateTweet(s.limiter, s.clock, u.username, d.generation);
      if c.Raised? then Stopped(s.(limiter := c.limiter, clock := c.clock))
      else
        var db := if Contains(c.text, TweetFailureMarker) then s.db
                  else InsertPost(s.db, NewPost(u, c.text, c.clock));
        Running(Sim(db, c.limiter, c.clock + d.pause))
  }

  /** Post `p` carries the username and the display name of one roster entry. */
  predicate ByOneOf(p: Post, users: seq<User>)
  {
    exists i :: 0 <= i < |users| && users[i].username == p.user && users[i].name == p.name
  }

  /** The posts of `db'` in front of the suffix `db` are all fresh tweets by
      some of `users`, none of them a failure string. */
  predicate FreshPostsInFront(db: seq<Post>, db': seq<Post>, users: seq<User>)
  {
    && |db| <= |db'|
    && db'[|db'| - |db|..] == db
    && forall k :: 0 <= k < |db'| - |db| ==>
         && db'[k].comments == []
         && ByOneOf(db'[k], users)
         && !Contains(db'[k].tweet, TweetFailureMarker)
  }

  /** No username has more posts in front of the suffix `db` than it has
      entries in the roster. */
  ghost predicate FairShare(db: seq<Post>, db': seq<Post>, users: seq<User>)
  {
    |db| <= |db'| && forall x :: PostsBy(db'[..|db'| - |db|], x) <= UsersNamed(users, x)
  }

  /** One pass of the posting loop's `for user in users`. */
  function TweetPass(s: Sim, users: seq<User>, draws: seq<Draw>): (r: Step)
    requires |draws| == |users|
    ensures FreshPostsInFront(s.db, r.sim.db, users)
    // no username posts more often than it occurs in the roster
    ensures FairShare(s.db, r.sim.db, users)
    ensures |r.sim.db| <= |s.db| + |users|
    ensures r.Stopped? ==> r.sim.limiter.totalRequestsToday >= r.sim.limiter.maxPerDay
    ensures SameCaps(s, r.sim) && r.sim.clock >= s.clock
    decreases |users|
  {
    if |users| == 0 then
      assert s.db[..0] == [];
      Running(s)
    else
      var step := TweetAttempt(s, users[0], draws[0]);
      TweetAttemptFresh(s, users, draws[0]);
      if step.Stopped? then step
      else
        var rest := TweetPass(step.sim, users[1..], draws[1..]);
        FreshPostsCompose(s.db, step.sim.db, rest.sim.db, users);
        rest
  }

  /** A single attempt by the first user puts at most one fresh post in front,
      and it is that user's. */
  lemma {:induction false} TweetAttemptFresh(s: Sim, users: seq<User>, d: Draw)
    requires |users| > 0
    ensures FreshPostsInFront(s.db, TweetAttempt(s, users[0], d).sim.db, users)
    ensures |TweetAttempt(s, users[0], d).sim.db| <= |s.db| + 1
    ensures |TweetAttempt(s, users[0], d).sim.db| > |s.db| ==>
      TweetAttempt(s, users[0], d).sim.db[0].user == users[0].username
    ensures FairShare(s.db, TweetAttempt(s, users[0], d).sim.db, users)
    ensures TweetAttempt(s, users[0], d).Stopped? ==>
      TweetAttempt(s, users[0], d).sim.limiter.totalRequestsToday >= TweetAttempt(s, users[0], d).sim.limiter.maxPerDay
  {
    var r := TweetAttempt(s, users[0], d);
    if |r.sim.db| > |s.db| {
      assert r.sim.db[1..] == s.db;
      assert ByOneOf(r.sim.db[0], users) by {
        assert users[0].username == r.sim.db[0].user && users[0].name == r.sim.db[0].name;
      }
      forall x
        ensures PostsBy(r.sim.db[..1], x) <= UsersNamed(users, x)
      {
        assert r.sim.db[..1][1..] == [];
      }
    } else {
      assert r.sim.db[0..] == s.db;
    }
  }

  lemma {:induction false} ByOneOfWiden(p: Post, users: seq<User>)
    requires |users| > 0 && ByOneOf(p, users[1..])
    ensures ByOneOf(p, users)
  {
    var i :| 0 <= i < |users| - 1 && users[1..][i].username == p.user && users[1..][i].name == p.name;
    assert users[i + 1] == users[1..][i];
  }

  /** Fresh posts by the first user in front of fresh posts by the others. */
  lemma {:induction false} FreshPostsCompose(a: seq<Post>, b: seq<Post>, c: seq<Post>, users: seq<User>)
    requires |users| > 0
    requires FreshPostsInFront(a, b, users)
    requires FreshPostsInFront(b, c, users[1..])
    requires |b| <= |a| + 1
    requires |b| > |a| ==> b[0].user == users[0].username
    requires FairShare(b, c, users[1..])
    requires |c| <= |b| + (|users| - 1)
    ensures FreshPostsInFront(a, c, users)
    ensures FairShare(a, c, users)
    ensures |c| <= |a| + |users|
  {
    FreshCountCompose(a, b, c, users);
    var n := |c| - |b|;
    assert c[n..] == b;
    assert c[|c| - |a|..] == b[|b| - |a|..];
    forall k | 0 <= k < |c| - |a|
      ensures c[k].comments == [] && ByOneOf(c[k], users) && !Contains(c[k].tweet, TweetFailureMarker)
    {
      if k >= n {
        assert c[k] == b[k - n];
      } else {
        ByOneOfWiden(c[k], users);
      }
    }
  }

  /** The per-username count of fresh posts adds up over the first user's
      attempt and the rest of the pass. */
  lemma {:induction false} FreshCountCompose(a: seq<Post>, b: seq<Post>, c: seq<Post>, users: seq<User>)
    requires |users| > 0
    requires |a| <= |b| <= |a| + 1 && b[|b| - |a|..] == a
    requires |b| > |a| ==> b[0].user == users[0].username
    requires |b| <= |c| && c[|c| - |b|..] == b
    requires FairShare(b, c, users[1..])
    ensures FairShare(a, c, users)
  {
    forall x
      ensures PostsBy(c[..|c| - |a|], x) <= UsersNamed(users, x)
    {
      var front := c[..|c| - |b|];
      var mine := b[..|b| - |a|];
      assert c[..|c| - |a|] == front + mine;
      PostsByConcat(front, mine, x);
      if |mine| == 1 {
        assert mine[1..] == [];
      }
    }
  }

  /** A pass of the posting loop keeps the budget invariant. */
  lemma {:induction false} TweetPassKeepsBudget(s: Sim, users: seq<User>, draws: seq<Draw>)
    requires |draws| == |users|
    requires BudgetOk(s)
    ensures BudgetOk(TweetPass(s, users, draws).sim)
    decreases |users|
  {
    if |users| > 0 {
      TweetAttemptKeepsBudget(s, users[0], draws[0]);
      var step := TweetAttempt(s, users[0], draws[0]);
      if step.Running? {
        TweetPassKeepsBudget(step.sim, users[1..], draws[1..]);
      }
    }
  }

  lemma {:induction false} TweetAttemptKeepsBudget(s: Sim, u: User, d: Draw)
    requires BudgetOk(s)
    ensures BudgetOk(TweetAttempt(s, u, d).sim)
  {
    if d.hit {
      var f := if d.generation.GenerationError? then TweetFailure(u.username, d.generation.cause) else "";
      GenerateKeepsInv(s.limiter, s.clock, s.clock, d.generation, f);
      var c := Generate(s.limiter, s.clock, d.generation, f);
      InvLater(c.limiter, c.clock, c.clock + d.pause);
    }
  }

  /** The service answered, but its text happens to contain the failure
      marker: the call is charged to the budget, yet no post is stored. */
  lemma ChargedButDropped(s: Sim, u: User, d: Draw)
    requires d.hit && d.generation.Generated?
    requires Contains(d.generation.text, TweetFailureMarker)
    requires CheckLimits(s.limiter, s.clock).Proceed?
    ensures TweetAttempt(s, u, d).Running?
    ensures TweetAttempt(s, u, d).sim.db == s.db
    ensures TweetAttempt(s, u, d).sim.limiter == LogRequest(ResetWindows(s.limiter, s.clock))
  {
  }

  // ---------------------------------------------------------------------------
  // Commenting
  // ---------------------------------------------------------------------------

  /** A comment that the commenting loop may have appended to post `p`: it is
      by one of `commenters`, not by the post's author, and is no failure string. */
  predicate AcceptableComment(c: Comment, p: Post, commenters: set<string>)
  {
    c.commenter in commenters && c.commenter != p.user && !Contains(c.comment, CommentFailureMarker)
  }

  /** `q` is `p` with acceptable comments appended. */
  predicate CommentedPost(p: Post, q: Post, commenters: set<string>)
  {
    PostGrows(p, q) && forall c :: c in NewComments(p, q) ==> AcceptableComment(c, p, commenters)
  }

  /** `db'` is `db` with acceptable comments appended and nothing else changed. */
  predicate OnlyComments(db: seq<Post>, db': seq<Post>, commenters: set<string>)
  {
    |db'| == |db| && forall j :: 0 <= j < |db| ==> CommentedPost(db[j], db'[j], commenters)
  }

  lemma {:induction false} OnlyCommentsReflexive(db: seq<Post>, commenters: set<string>)
    ensures OnlyComments(db, db, commenters)
  {
    forall j | 0 <= j < |db|
      ensures CommentedPost(db[j], db[j], commenters)
    {
      assert db[j].comments[..|db[j].comments|] == db[j].comments;
      assert NewComments(db[j], db[j]) == [];
    }
  }

  lemma {:induction false} CommentedPostTransitive(p: Post, q: Post, t: Post, a: set<string>, b: set<string>)
    requires CommentedPost(p, q, a) && CommentedPost(q, t, b)
    ensures CommentedPost(p, t, a + b)
  {
    PostGrowsTransitive(p, q, t);
    assert NewComments(p, t) == NewComments(p, q) + NewComments(q, t) by {
      assert p.comments + (NewComments(p, q) + NewComments(q, t)) == t.comments;
    }
  }

  lemma {:induction false} OnlyCommentsTransitive(x: seq<Post>, y: seq<Post>, z: seq<Post>, a: set<string>, b: set<string>)
    requires OnlyComments(x, y, a) && OnlyComments(y, z, b)
    ensures OnlyComments(x, z, a + b)
  {
    forall j | 0 <= j < |x|
      ensures CommentedPost(x[j], z[j], a + b)
    {
      CommentedPostTransitive(x[j], y[j], z[j], a, b);
    }
  }

  /** The body of the inner commenting loop for one sampled post. */
  function CommentAttempt(s: Sim, u: User, target: nat, d: Draw): (r: Step)
    requires target < |s.db|
    // no self-comments, and no service call for them
    ensures u.username == s.db[target].user || !d.hit ==> r == Running(s)
    ensures r.Stopped? <==>
      u.username != s.db[target].user && d.hit && CheckLimits(s.limiter, s.clock).DailyLimitReached?
    ensures r.Stopped? ==> r.sim.db == s.db
    // exactly the target post can change, by one acceptable comment by `u`
    ensures OnlyComments(s.db, r.sim.db, {u.username})
    ensures forall j :: 0 <= j < |s.db| && j != target ==> r.sim.db[j] == s.db[j]
    ensures |r.sim.db[target].comments| <= |s.db[target].comments| + 1
    ensures |r.sim.db[target].comments| > |s.db[target].comments| <==>
      && u.username != s.db[target].user && d.hit && r.Running?
      && d.generation.Generated? && !Contains(d.generation.text, CommentFailureMarker)
    // the appended comment is the generated text, under the user's name
    ensures |r.sim.db[target].comments| > |s.db[target].comments| ==>
      r.sim.db == AppendComment(s.db, target, Comment(u.username, u.name, d.generation.text,
                                                      r.sim.db[target].comments[|s.db[target].comments|].timestamp))
    ensures SameCaps(s, r.sim) && r.sim.clock >= s.clock
  {
    if u.username == s.db[target].user || !d.hit then
      OnlyCommentsReflexive(s.db, {u.username});
      Running(s)
    else
      var c := GenerateComment(s.limiter, s.clock, d.generation);
      if c.Raised? then
        OnlyCommentsReflexive(s.db, {u.username});
        Stopped(s.(limiter := c.limiter, clock := c.clock))
      else if Contains(c.text, CommentFailureMarker) then
        OnlyCommentsReflexive(s.db, {u.username});
        Running(Sim(s.db, c.limiter, c.clock + d.pause))
      else
        var comment := Comment(u.username, u.name, c.text, c.clock);
        var db := AppendComment(s.db, target, comment);
        OnlyCommentsReflexive(s.db, {u.username});
        assert db[target].comments[..|s.db[target].comments|] == s.db[target].comments;
        assert NewComments(s.db[target], db[target]) == [comment];
        assert CommentedPost(s.db[target], db[target], {u.username});
        Running(Sim(db, c.limiter, c.clock + d.pause))
  }

  /** The inner loop over one user's sample, `for tweet_data in sampled_tweets`. */
  function CommentRound(s: Sim, u: User, sample: seq<nat>, draws: seq<Draw>): (r: Step)
    requires |draws| == |sample|
    requires forall k :: 0 <= k < |sample| ==> sample[k] < |s.db|
    ensures OnlyComments(s.db, r.sim.db, {u.username})
    // posts outside the sample are untouched
    ensures forall j :: 0 <= j < |s.db| && j !in sample ==> r.sim.db[j] == s.db[j]
    // a post gets at most one comment per time it was sampled
    ensures forall j :: 0 <= j < |s.db| ==>
      |r.sim.db[j].comments| <= |s.db[j].comments| + multiset(sample)[j]
    ensures r.Stopped? ==> r.sim.limiter.totalRequestsToday >= r.sim.limiter.maxPerDay
    ensures SameCaps(s, r.sim) && r.sim.clock >= s.clock
    decreases |sample|
  {
    if |sample| == 0 then
      OnlyCommentsReflexive(s.db, {u.username});
      Running(s)
    else
      var step := CommentAttempt(s, u, sample[0], draws[0]);
      if step.Stopped? then
        assert multiset(sample)[sample[0]] >= 1;
        step
      else
        var rest := CommentRound(step.sim, u, sample[1..], draws[1..]);
        OnlyCommentsTransitive(s.db, step.sim.db, rest.sim.db, {u.username}, {u.username});
        assert sample == [sample[0]] + sample[1..];
        assert multiset(sample) == multiset{sample[0]} + multiset(sample[1..]);
        forall j | 0 <= j < |s.db| && j !in sample
          ensures rest.sim.db[j] == s.db[j]
        {
          assert j !in sample[1..];
        }
        rest
  }

  /** The positions at which two stores of the same size differ. */
  function ChangedPosts(db: seq<Post>, db': seq<Post>): (js: set<nat>)
    requires |db| == |db'|
    ensures forall j: nat :: j in js <==> j < |db| && db'[j] != db[j]
  {
    set j: nat | j < |db| && db'[j] != db[j]
  }

  /** One user's round changes at most `min(5, len(tweets_db))` posts: only
      sampled posts change, and the sample is that long. */
  lemma {:induction false} CommentRoundTouchesSampleOnly(s: Sim, u: User, sample: seq<nat>, draws: seq<Draw>)
    requires |draws| == |sample|
    requires IsSample(|s.db|, sample)
    ensures |CommentRound(s, u, sample, draws).sim.db| == |s.db|
    ensures |ChangedPosts(s.db, CommentRound(s, u, sample, draws).sim.db)| <= Min(SampleSize, |s.db|)
  {
    var r := CommentRound(s, u, sample, draws).sim.db;
    var changed := ChangedPosts(s.db, r);
    forall j | j in changed
      ensures j in Positions(sample)
    {
      assert r[j] != s.db[j];
    }
    PositionsSize(sample);
    SubsetSize(changed, Positions(sample));
  }

  /** The commenting loop's `for user in users`, one round per user. */
  function CommentRounds(s: Sim, users: seq<User>, samples: seq<seq<nat>>, draws: seq<seq<Draw>>): (r: Step)
    requires |samples| == |users| && |draws| == |users|
    requires forall k :: 0 <= k < |users| ==> IsSample(|s.db|, samples[k]) && |draws[k]| == |samples[k]|
    ensures OnlyComments(s.db, r.sim.db, Usernames(users))
    // no username comments on a post more often than it occurs in the roster
    ensures forall j, x :: 0 <= j < |s.db| ==>
      CommentsBy(NewComments(s.db[j], r.sim.db[j]), x) <= UsersNamed(users, x)
    ensures forall j :: 0 <= j < |s.db| ==>
      |r.sim.db[j].comments| <= |s.db[j].comments| + |users|
    ensures r.Stopped? ==> r.sim.limiter.totalRequestsToday >= r.sim.limiter.maxPerDay
    ensures SameCaps(s, r.sim) && r.sim.clock >= s.clock
    decreases |users|
  {
    if |users| == 0 then
      OnlyCommentsReflexive(s.db, {});
      Running(s)
    else
      assert IsSample(|s.db|, samples[0]);
      var step := CommentRound(s, users[0], samples[0], draws[0]);
      SampleOnce(|s.db|, samples[0]);
      assert {users[0].username} <= Usernames(users);
      if step.Stopped? then
        OnlyCommentsWiden(s.db, step.sim.db, {users[0].username}, Usernames(users));
        FirstRoundCount(s.db, step.sim.db, users);
        step
      else
        var rest := CommentRounds(step.sim, users[1..], samples[1..], draws[1..]);
        OnlyCommentsTransitive(s.db, step.sim.db, rest.sim.db, {users[0].username}, Usernames(users[1..]));
        CommentCountCompose(s.db, step.sim.db, rest.sim.db, users);
        assert {users[0].username} + Usernames(users[1..]) <= Usernames(users) by {
          forall k | 0 <= k < |users| - 1
            ensures users[1..][k].username in Usernames(users)
          {
            assert users[1..][k] == users[k + 1];
          }
        }
        OnlyCommentsWiden(s.db, rest.sim.db, {users[0].username} + Usernames(users[1..]), Usernames(users));
        rest
  }

  /** One iteration of the commenting loop's `while True`: nothing happens on
      an empty store; otherwise one round per user. */
  function CommentingPass(s: Sim, users: seq<User>, samples: seq<seq<nat>>, draws: seq<seq<Draw>>): (r: Step)
    requires |samples| == |users| && |draws| == |users|
    requires forall k :: 0 <= k < |users| ==> IsSample(|s.db|, samples[k]) && |draws[k]| == |samples[k]|
    ensures |s.db| == 0 ==> r == Running(s)
    ensures OnlyComments(s.db, r.sim.db, Usernames(users))
    ensures forall j, x :: 0 <= j < |s.db| ==>
      CommentsBy(NewComments(s.db[j], r.sim.db[j]), x) <= UsersNamed(users, x)
    ensures forall j :: 0 <= j < |s.db| ==>
      |r.sim.db[j].comments| <= |s.db[j].comments| + |users|
    ensures r.Stopped? ==> r.sim.limiter.totalRequestsToday >= r.sim.limiter.maxPerDay
    ensures SameCaps(s, r.sim) && r.sim.clock >= s.clock
  {
    if |s.db| == 0 then
      OnlyCommentsReflexive(s.db, Usernames(users));
      Running(s)
    else CommentRounds(s, users, samples, draws)
  }

  /** One user's round adds at most one comment to each post, and only
      comments by that user. */
  lemma {:induction false} FirstRoundCount(a: seq<Post>, b: seq<Post>, users: seq<User>)
    requires |users| > 0
    requires OnlyComments(a, b, {users[0].username})
    requires forall j :: 0 <= j < |a| ==> |b[j].comments| <= |a[j].comments| + 1
    ensures forall j, x :: 0 <= j < |a| ==>
      CommentsBy(NewComments(a[j], b[j]), x) <= (if users[0].username == x then 1 else 0)
    ensures forall j, x :: 0 <= j < |a| ==>
      CommentsBy(NewComments(a[j], b[j]), x) <= UsersNamed(users, x)
  {
    forall j, x | 0 <= j < |a|
      ensures CommentsBy(NewComments(a[j], b[j]), x) <= (if users[0].username == x then 1 else 0)
    {
      var cs := NewComments(a[j], b[j]);
      assert CommentedPost(a[j], b[j], {users[0].username});
      if users[0].username != x {
        forall k | 0 <= k < |cs|
          ensures cs[k].commenter != x
        {
          assert AcceptableComment(cs[k], a[j], {users[0].username});
        }
      }
    }
  }

  /** The per-username count of new comments on a post adds up over the first
      user's round and the rounds of the others. */
  lemma {:induction false} CommentCountCompose(a: seq<Post>, b: seq<Post>, c: seq<Post>, users: seq<User>)
    requires |users| > 0
    requires OnlyComments(a, b, {users[0].username})
    requires forall j :: 0 <= j < |a| ==> |b[j].comments| <= |a[j].comments| + 1
    requires OnlyComments(b, c, Usernames(users[1..]))
    requires forall j, x :: 0 <= j < |b| ==>
      CommentsBy(NewComments(b[j], c[j]), x) <= UsersNamed(users[1..], x)
    ensures forall j :: 0 <= j < |a| ==> PostGrows(a[j], c[j])
    ensures forall j, x :: 0 <= j < |a| ==>
      CommentsBy(NewComments(a[j], c[j]), x) <= UsersNamed(users, x)
  {
    FirstRoundCount(a, b, users);
    forall j, x | 0 <= j < |a|
      ensures PostGrows(a[j], c[j])
      ensures CommentsBy(NewComments(a[j], c[j]), x) <= UsersNamed(users, x)
    {
      assert CommentedPost(a[j], b[j], {users[0].username});
      assert CommentedPost(b[j], c[j], Usernames(users[1..]));
      PostGrowsTransitive(a[j], b[j], c[j]);
      var first := NewComments(a[j], b[j]);
      var later := NewComments(b[j], c[j]);
      assert NewComments(a[j], c[j]) == first + later by {
        assert a[j].comments + (first + later) == c[j].comments;
      }
      CommentsByConcat(first, later, x);
    }
  }

  lemma {:induction false} OnlyCommentsWiden(db: seq<Post>, db': seq<Post>, a: set<string>, b: set<string>)
    requires OnlyComments(db, db', a) && a <= b
    ensures OnlyComments(db, db', b)
  {
    forall j | 0 <= j < |db|
      ensures CommentedPost(db[j], db'[j], b)
    {
      assert CommentedPost(db[j], db'[j], a);
    }
  }

  /** In a sample every position occurs at most once. */
  lemma {:induction false} SampleOnce(n: nat, sample: seq<nat>)
    requires IsSample(n, sample)
    ensures forall j :: multiset(sample)[j] <= 1
  {
    DistinctOccursOnce(sample);
  }

  lemma {:induction false} DistinctOccursOnce(xs: seq<nat>)
    requires forall k, m :: 0 <= k < m < |xs| ==> xs[k] != xs[m]
    ensures forall j :: multiset(xs)[j] <= 1
    decreases |xs|
  {
    if |xs| > 0 {
      DistinctOccursOnce(xs[1..]);
      assert xs == [xs[0]] + xs[1..];
      assert xs[0] !in xs[1..] by {
        forall m | 0 <= m < |xs| - 1
          ensures xs[1..][m] != xs[0]
        {
          assert xs[1..][m] == xs[m + 1];
        }
      }
      assert multiset(xs) == multiset{xs[0]} + multiset(xs[1..]);
    }
  }

  lemma {:induction false} CommentAttemptKeepsBudget(s: Sim, u: User, target: nat, d: Draw)
    requires target < |s.db|
    requires BudgetOk(s)
    ensures BudgetOk(CommentAttempt(s, u, target, d).sim)
  {
    if u.username != s.db[target].user && d.hit {
      var f := if d.generation.GenerationError? then CommentFailure(d.generation.cause) else "";
      GenerateKeepsInv(s.limiter, s.clock, s.clock, d.generation, f);
      var c := Generate(s.limiter, s.clock, d.generation, f);
      InvLater(c.limiter, c.clock, c.clock + d.pause);
    }
  }

  lemma {:induction false} CommentRoundKeepsBudget(s: Sim, u: User, sample: seq<nat>, draws: seq<Draw>)
    requires |draws| == |sample|
    requires forall k :: 0 <= k < |sample| ==> sample[k] < |s.db|
    requires BudgetOk(s)
    ensures BudgetOk(CommentRound(s, u, sample, draws).sim)
    decreases |sample|
  {
    if |sample| > 0 {
      CommentAttemptKeepsBudget(s, u, sample[0], draws[0]);
      var step := CommentAttempt(s, u, sample[0], draws[0]);
      if step.Running? {
        CommentRoundKeepsBudget(step.sim, u, sample[1..], draws[1..]);
      }
    }
  }

  lemma {:induction false} CommentRoundsKeepBudget(s: Sim, users: seq<User>, samples: seq<seq<nat>>, draws: seq<seq<Draw>>)
    requires |samples| == |users| && |draws| == |users|
    requires forall k :: 0 <= k < |users| ==> IsSample(|s.db|, samples[k]) && |draws[k]| == |samples[k]|
    requires BudgetOk(s)
    ensures BudgetOk(CommentRounds(s, users, samples, draws).sim)
    decreases |users|
  {
    if |users| > 0 {
      assert IsSample(|s.db|, samples[0]);
      CommentRoundKeepsBudget(s, users[0], samples[0], draws[0]);
      var step := CommentRound(s, users[0], samples[0], draws[0]);
      if step.Running? {
        CommentRoundsKeepBudget(step.sim, users[1..], samples[1..], draws[1..]);
      }
    }
  }

  /** A pass of the commenting loop keeps the budget invariant. */
  lemma {:induction false} CommentingPassKeepsBudget(s: Sim, users: seq<User>, samples: seq<seq<nat>>, draws: seq<seq<Draw>>)
    requires |samples| == |users| && |draws| == |users|
    requires forall k :: 0 <= k < |users| ==> IsSample(|s.db|, samples[k]) && |draws[k]| == |samples[k]|
    requires BudgetOk(s)
    ensures BudgetOk(CommentingPass(s, users, samples, draws).sim)
  {
    if |s.db| > 0 {
      CommentRoundsKeepBudget(s, users, samples, draws);
    }
  }

  // ---------------------------------------------------------------------------
  // Growth of the store
  // ---------------------------------------------------------------------------

  /** New posts in front are growth. */
  lemma {:induction false} FreshPostsGrow(db: seq<Post>, db': seq<Post>, users: seq<User>)
    requires FreshPostsInFront(db, db', users)
    ensures Grows(db, db')
  {
    GrowsReflexive(db);
    forall j | 0 <= j < |db|
      ensures db'[j + |db'| - |db|] == db[j]
    {
      assert db'[|db'| - |db|..][j] == db[j];
    }
  }

  /** Appended comments are growth. */
  lemma {:induction false} OnlyCommentsGrow(db: seq<Post>, db': seq<Post>, commenters: set<string>)
    requires OnlyComments(db, db', commenters)
    ensures Grows(db, db')
  {
    forall j | 0 <= j < |db|
      ensures PostGrows(db[j], db'[j])
    {
      assert CommentedPost(db[j], db'[j], commenters);
    }
  }

  /** A posting pass followed by a commenting pass over the store it left
      only grows the store: no post is lost, moved or edited. */
  lemma {:induction false} PassesGrow(s: Sim, users: seq<User>, draws: seq<Draw>,
                                      samples: seq<seq<nat>>, commentDraws: seq<seq<Draw>>)
    requires |draws| == |users|
    requires |samples| == |users| && |commentDraws| == |users|
    requires forall k :: 0 <= k < |users| ==>
      IsSample(|TweetPass(s, users, draws).sim.db|, samples[k]) && |commentDraws[k]| == |samples[k]|
    ensures Grows(s.db, CommentingPass(TweetPass(s, users, draws).sim, users, samples, commentDraws).sim.db)
  {
    var t := TweetPass(s, users, draws).sim;
    var c := CommentingPass(t, users, samples, commentDraws).sim;
    FreshPostsGrow(s.db, t.db, users);
    OnlyCommentsGrow(t.db, c.db, Usernames(users));
    GrowsTransitive(s.db, t.db, c.db);
  }
}
