/**
 The in-memory tweet store: a newest-first sequence of posts, each holding
 the comments appended to it in order. The two mutations the loops perform
 (insert a post at the front, append a comment to one post) and the
 relations that say how the store may change.
 */
module Store {
  import opened Arith

  /** How many posts the commenting loop samples at most, per user. */
  const SampleSize: nat := 5

  /** A simulated user, as loaded from the user roster. */
  datatype User = User(username: string, name: string, category: string, interests: seq<string>)

  datatype Comment = Comment(commenter: string, name: string, comment: string, timestamp: int)

  datatype Post = Post(user: string, name: string, tweet: string, timestamp: int, comments: seq<Comment>)

  /** The record the posting loop builds for a new tweet by `u`. */
  function NewPost(u: User, tweet: string, timestamp: int): (p: Post)
    ensures p.user == u.username && p.name == u.name
    ensures p.tweet == tweet && p.timestamp == timestamp
    ensures p.comments == []
  {
    Post(u.username, u.name, tweet, timestamp, [])
  }

  /** `tweets_db.insert(0, post)`. */
  function InsertPost(db: seq<Post>, p: Post): (r: seq<Post>)
    ensures |r| == |db| + 1
    ensures r[0] == p
    ensures forall j :: 0 <= j < |db| ==> r[j + 1] == db[j]
  {
    [p] + db
  }

  /** `tweets_db[i]["comments"].append(c)`. */
  function AppendComment(db: seq<Post>, i: nat, c: Comment): (r: seq<Post>)
    requires i < |db|
    ensures |r| == |db|
    ensures SameIdentity(db[i], r[i])
    ensures r[i].comments == db[i].comments + [c]
    ensures forall j :: 0 <= j < |db| && j != i ==> r[j] == db[j]
  {
    db[i := db[i].(comments := db[i].comments + [c])]
  }

  /** Two post records are the same post: everything but the comments agrees. */
  predicate SameIdentity(p: Post, q: Post)
  {
    p.user == q.user && p.name == q.name && p.tweet == q.tweet && p.timestamp == q.timestamp
  }

  /** `q` is `p` with zero or more comments appended. */
  predicate PostGrows(p: Post, q: Post)
  {
    SameIdentity(p, q) && |p.comments| <= |q.comments| && q.comments[..|p.comments|] == p.comments
  }

  /** The comments appended to `p` to obtain `q`, in order. */
  function NewComments(p: Post, q: Post): (cs: seq<Comment>)
    requires PostGrows(p, q)
    ensures p.comments + cs == q.comments
  {
    q.comments[|p.comments|..]
  }

  /** The store `db'` evolves from `db` only by inserting new posts at the
      front and appending comments: no post is lost, reordered or edited. */
  predicate Grows(db: seq<Post>, db': seq<Post>)
  {
    && |db| <= |db'|
    && forall j :: 0 <= j < |db| ==> PostGrows(db[j], db'[j + |db'| - |db|])
  }

  lemma {:induction false} PostGrowsTransitive(p: Post, q: Post, s: Post)
    requires PostGrows(p, q) && PostGrows(q, s)
    ensures PostGrows(p, s)
  {
    assert s.comments[..|p.comments|] == s.comments[..|q.comments|][..|p.comments|];
  }

  lemma {:induction false} GrowsTransitive(a: seq<Post>, b: seq<Post>, c: seq<Post>)
    requires Grows(a, b) && Grows(b, c)
    ensures Grows(a, c)
  {
    forall j | 0 <= j < |a|
      ensures PostGrows(a[j], c[j + |c| - |a|])
    {
      var k := j + |b| - |a|;
      assert PostGrows(b[k], c[k + |c| - |b|]);
      PostGrowsTransitive(a[j], b[k], c[k + |c| - |b|]);
    }
  }

  lemma GrowsReflexive(db: seq<Post>)
    ensures Grows(db, db)
  {
    forall j | 0 <= j < |db|
      ensures PostGrows(db[j], db[j])
    {
      assert db[j].comments[..|db[j].comments|] == db[j].comments;
    }
  }

  /** Inserting a post at the front is growth, and so is appending a comment. */
  lemma {:induction false} MutationsGrow(db: seq<Post>, p: Post, i: nat, c: Comment)
    requires i < |db|
    ensures Grows(db, InsertPost(db, p))
    ensures Grows(db, AppendComment(db, i, c))
  {
    GrowsReflexive(db);
    var r := AppendComment(db, i, c);
    assert r[i].comments[..|db[i].comments|] == db[i].comments;
    assert PostGrows(db[i], r[i]);
  }

  /** What `random.sample(tweets_db, min(5, len(tweets_db)))` returns, as
      positions in the store: `min(5, n)` distinct positions below `n`. */
  predicate IsSample(n: nat, sample: seq<nat>)
  {
    && |sample| == Min(SampleSize, n)
    && (forall k :: 0 <= k < |sample| ==> sample[k] < n)
    && (forall k, m :: 0 <= k < m < |sample| ==> sample[k] != sample[m])
  }

  /** The first `min(5, n)` positions form a sample, so a sample always exists. */
  lemma SampleExists(n: nat)
    ensures IsSample(n, seq(Min(SampleSize, n), k => k))
  {
  }

  /** The positions a sample names. */
  function Positions(sample: seq<nat>): (ps: set<nat>)
    ensures forall x :: x in ps <==> x in sample
  {
    set x | x in sample
  }

  /** A sample names no more positions than its length. */
  lemma {:induction false} PositionsSize(sample: seq<nat>)
    ensures |Positions(sample)| <= |sample|
  {
    if |sample| > 0 {
      var rest := sample[1..];
      PositionsSize(rest);
      assert sample == [sample[0]] + rest;
      assert Positions(sample) == Positions(rest) + {sample[0]};
      if sample[0] !in Positions(rest) {
        assert |Positions(rest) + {sample[0]}| == |Positions(rest)| + 1;
      }
    }
  }

  /** A subset is no larger than its superset. */
  lemma SubsetSize(a: set<nat>, b: set<nat>)
    requires a <= b
    ensures |a| <= |b|
  {
    assert b == a + (b - a);
    assert a * (b - a) == {};
  }

  /** How many of `posts` were written by `username`. */
  function PostsBy(posts: seq<Post>, username: string): (n: nat)
    ensures n <= |posts|
  {
    if |posts| == 0 then 0
    else (if posts[0].user == username then 1 else 0) + PostsBy(posts[1..], username)
  }

  /** How many of `cs` were written by `username`. */
  function CommentsBy(cs: seq<Comment>, username: string): (n: nat)
    ensures n <= |cs|
    ensures (forall k :: 0 <= k < |cs| ==> cs[k].commenter != username) ==> n == 0
  {
    if |cs| == 0 then 0
    else (if cs[0].commenter == username then 1 else 0) + CommentsBy(cs[1..], username)
  }

  /** How many entries of the roster carry `username`. */
  function UsersNamed(users: seq<User>, username: string): (n: nat)
    ensures n <= |users|
  {
    if |users| == 0 then 0
    else (if users[0].username == username then 1 else 0) + UsersNamed(users[1..], username)
  }

  lemma {:induction false} PostsByConcat(a: seq<Post>, b: seq<Post>, username: string)
    ensures PostsBy(a + b, username) == PostsBy(a, username) + PostsBy(b, username)
  {
    if |a| > 0 {
      assert (a + b)[1..] == a[1..] + b;
      PostsByConcat(a[1..], b, username);
    } else {
      assert a + b == b;
    }
  }

  lemma {:induction false} CommentsByConcat(a: seq<Comment>, b: seq<Comment>, username: string)
    ensures CommentsBy(a + b, username) == CommentsBy(a, username) + CommentsBy(b, username)
  {
    if |a| > 0 {
      assert (a + b)[1..] == a[1..] + b;
      CommentsByConcat(a[1..], b, username);
    } else {
      assert a + b == b;
    }
  }
}
