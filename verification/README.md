# AI tweet simulation: rate limiter, tweet store and pagination

A Dafny model of the sequential core of a simulation in which AI personas post
tweets and comment on each other's tweets, every text coming from a
generation service whose use is capped per minute and per day.

The model covers four pieces:

- **The API rate limiter** (`RateLimiter.dfy`). It is `APIRateLimiter` as a
  state machine over integer seconds. It holds two counters and the two
  instants at which the minute window and the day window end. `CheckLimits`
  does three things in order. It resets each expired window, then waits until
  the minute boundary if the minute counter is at its cap, then raises if the
  daily counter is at its cap. `LogRequest` charges one call to both counters.
  The blocking sleep becomes the instant at which the caller resumes.
- **The generator wrappers** (`Generation.dfy`). `generate_tweet` and
  `generate_comment` check the limiter, call the service and log a call only
  when the service answered. A service failure becomes a returned string that
  carries a failure marker. The daily-limit exception escapes.
- **The two loops over the in-memory tweet store** (`Store.dfy`,
  `Workers.dfy`). The posting loop inserts each new tweet at the front, with an
  empty comment list, unless its text carries the failure marker. For each
  user, the commenting loop samples `min(5, len)` distinct tweets, skips the
  user's own tweets, and appends each successful comment to the end of its
  tweet's comments. Every random draw is a parameter: the probability gate,
  the service's answer, the pause after an attempt, and the sample.
- **Pagination of the read API** (`Pagination.dfy`). A page is the slice
  `[(page-1)*limit, page*limit)` of the data. It is reported with the item
  count and the page count `(len + limit - 1) // limit`.

`Text.dfy` defines Python's substring test `sub in s`, and `Arith.dfy` its
`min` and `max`. `Scenarios.dfy` ties
the pieces together: the program's limiter (10 calls a minute, 1000 a day),
a cold start, and what the read API shows after the first tweet.

The model is written as the code behaves, including two quirks:

- **The minute wait does not reset the minute counter.** A call that had to
  wait is logged in the old window, so the counter reaches cap + 1
  (`WaitLeavesCounterOverCap`). The next check resets the window. The call
  made at the boundary therefore counts in neither window. With a cap of two,
  three calls are dispatched in the minute window `[60, 120)`
  (`MinuteCapScenario`). The proved invariant is the one the code keeps: the
  minute counter exceeds its cap by at most one, and only once its window has
  ended.
- **Only successful generations are charged.** `log_request` runs inside the
  `try`, after the service answered (main.py:100, 120). A failed service call
  therefore reaches the service but is never charged. If the service's answer
  itself contains "Failed to generate tweet", the call is charged but the
  tweet is dropped (`ChargedButDropped`).

Two properties hold only for the sequential model, and lemmas show how the
program can lose them:

- **Unlocked callers.** The two loops share one limiter without a lock, and a
  network call separates each check from its log. Two callers can both pass
  the check before either logs, so the daily cap can be exceeded by one
  (`UnlockedCallersOvershoot`). The minute cap can be overrun the same way.
- **A clock that goes back.** The minute clause of the budget invariant needs
  a clock that never goes back (`ClockBackBreaksMinuteClause`). The daily
  clause does not (`DailyCapAtAnyInstant`).

## Model

| member | source | states |
|---|---|---|
| RateLimiter.ResetWindows | main.py:53-59 | an expired minute window resets its counter to 0 and ends 60 s after now, otherwise neither changes; the day window does the same with one day; afterwards both windows end after now |
| RateLimiter.CheckLimits | main.py:50-66 | after the resets, the caller waits exactly when the minute counter is at or over its cap, and then until the minute boundary, which is in the future; otherwise it resumes at once; it raises exactly when the daily counter is at or over its cap |
| RateLimiter.LogRequest | main.py:68-70 | logging adds exactly one to each counter and leaves both window ends and both caps unchanged |
| RateLimiter.Init | main.py:42-48 | a freshly built limiter keeps the given caps, has both counters at 0, a minute window ending 60 s from now and a day window ending a day from now, and holds the budget invariant when the caps are not negative |
| RateLimiter.CheckThenLogKeepsInv | main.py:53-70 | a check, with or without a following log, keeps the budget invariant at the instant the caller resumes, and a logged call never takes the daily counter past its cap |
| RateLimiter.WaitLeavesCounterOverCap | main.py:61-70 | a call that had to wait resumes exactly at the minute boundary, and once logged it leaves the minute counter at cap + 1, because the wait does not reset it |
| RateLimiter.NoWaitWithinMinuteCap | main.py:61-70 | a call that proceeds without waiting leaves the minute counter within its cap once logged |
| RateLimiter.DailyCapAtAnyInstant | main.py:53-70 | a logged call never takes the daily counter past its cap, whatever instant the check runs at, even one before the last observed instant |
| RateLimiter.ClockBackBreaksMinuteClause | main.py:51-70 | with a clock that steps back from 100 to 50, a limiter one over its minute cap waits until 100 and is logged again, leaving the minute counter two over its cap and breaking the invariant |
| RateLimiter.UnlockedCallersOvershoot | main.py:72-100 | when one call is left for the day, two callers that both check before either logs both proceed, and their two logs take the daily counter one past its cap |
| RateLimiter.ResetIdempotent | main.py:53-59 | a second reset at the same instant changes nothing |
| RateLimiter.MinuteCapScenario | main.py:50-70 | with a cap of 2 per minute, the third back-to-back call at 0 waits until 60 and all three are counted; two more calls at 60 proceed at once, so three calls fall in the window ending at 120 |
| Text.Contains | main.py:131 | the recursive substring test holds exactly when the substring occurs at some position |
| Generation.TweetFailure | main.py:101-102 | the tweet failure string always contains "Failed to generate tweet" |
| Generation.CommentFailure | main.py:121-122 | the comment failure string always contains "Failed to generate comment" |
| Generation.Generate | main.py:95-104 | the wrapper raises exactly when the check does, and the limiter is then left as the resets left it; an answered call returns the answer and is logged once; a failed call returns the failure string and is not logged |
| Generation.GenerateTweet | main.py:74-104 | generate_tweet raises exactly when the daily cap is reached; a service failure returns a string carrying the tweet failure marker and charges nothing; an answer is returned and charged once |
| Generation.GenerateComment | main.py:106-123 | generate_comment raises exactly when the daily cap is reached; a service failure returns a string carrying the comment failure marker and charges nothing; an answer is returned and charged once |
| Generation.ChargedOnlyOnSuccess | main.py:95-104 | when no window has expired, a failed generation leaves both counters exactly as they were and an answered one adds exactly one to each |
| Generation.RaisedIgnoresService | main.py:65-75 | when the daily cap is reached, the outcome does not depend on the service's answer: no call is made and nothing is logged |
| Generation.GenerateKeepsInv | main.py:95-123 | a wrapper call started at or after the current instant keeps the budget invariant, whatever the service answered |
| Store.NewPost | main.py:132-138 | a new post carries the user's username and display name, the tweet text and the stamp, and no comments |
| Store.InsertPost | main.py:132-138 | the new post is at index 0 and every older post keeps its contents, one position further back |
| Store.AppendComment | main.py:155-160 | the comment is appended at the end of one post's comments; that post is otherwise unchanged, and every other post and the number of posts are unchanged |
| Store.MutationsGrow | main.py:132-160 | inserting a post and appending a comment both only grow the store: no post is lost, moved or edited |
| Store.SampleExists | main.py:150 | a sample of min(5, n) distinct positions exists for every store size n |
| Workers.TweetAttempt | main.py:129-143 | without the gate nothing happens; the loop dies exactly when the daily cap is reached; a post is inserted at the front exactly when the service answered with a text lacking the failure marker, with the user's name and an empty comment list; otherwise the store is unchanged |
| Workers.TweetPass | main.py:128-143 | one pass leaves the old store intact behind new posts, each with no comments, with the username and display name of one roster entry, and not a failure string; no username has more new posts than roster entries, so there are at most as many as users; if the loop died, the daily cap was reached |
| Workers.TweetAttemptKeepsBudget | main.py:129-143 | one posting attempt keeps the budget invariant |
| Workers.TweetPassKeepsBudget | main.py:126-143 | a whole posting pass keeps the budget invariant |
| Workers.ChargedButDropped | main.py:129-139 | an answer that itself contains "Failed to generate tweet" is charged to the budget but not stored |
| Workers.CommentAttempt | main.py:152-165 | a self-comment or a closed gate changes nothing and calls nothing; the loop dies exactly when the daily cap is reached; only the target post can change, by exactly one comment, appended when the service answered without the failure marker; that comment carries the user's username and display name and the generated text |
| Workers.CommentRound | main.py:150-165 | one user's round appends only acceptable comments by that user, leaves unsampled posts untouched and adds to each post at most one comment per time it was sampled |
| Workers.CommentRounds | main.py:149-165 | a pass over the users appends only acceptable comments by those users, never to the commenter's own post; no username adds more comments to a post than it has roster entries, and no post gains more comments than there are users; the number of posts is unchanged |
| Workers.CommentingPass | main.py:146-165 | on an empty store nothing happens; otherwise the store only gains acceptable comments; no username adds more comments to a post than it has roster entries, and no post gains more comments than there are users |
| Workers.CommentRoundTouchesSampleOnly | main.py:150-165 | one user's round changes at most min(5, len) posts, because only sampled posts change |
| Workers.PassesGrow | main.py:126-165 | a posting pass followed by a commenting pass only grows the store: every old post is still there, in order, with its contents and its comments as a prefix |
| Workers.SampleOnce | main.py:150 | every position occurs at most once in a sample |
| Workers.CommentAttemptKeepsBudget | main.py:152-165 | one commenting attempt keeps the budget invariant |
| Workers.CommentRoundKeepsBudget | main.py:150-165 | one user's commenting round keeps the budget invariant |
| Workers.CommentRoundsKeepBudget | main.py:149-165 | the rounds of all users keep the budget invariant |
| Workers.CommentingPassKeepsBudget | main.py:146-165 | a whole commenting pass keeps the budget invariant |
| Pagination.Slice | api.py:29 | the slice holds the items from the lower bound on, in order, as many as fit below both the upper bound and the length |
| Pagination.Paginate | api.py:25-38 | page and limit are echoed, total_items is the length; the page is the in-order run of items from (page-1)*limit, clipped to the data and never longer than limit; total_pages is the ceiling of len/limit and is 0 exactly when the data is empty |
| Pagination.CeilingDivision | api.py:36 | (n + d - 1) // d is the least count of d-sized pages that covers n items |
| Pagination.PageSizes | api.py:25-36 | every page below total_pages is full, the last page is not empty, and every page after it is empty |
| Pagination.PageIsSlice | api.py:25-29 | a page is the data between the clipped offsets of its first item and of the next page's first item |
| Pagination.PagesArePrefix | api.py:25-36 | the first k pages, concatenated, are the first k*limit items |
| Pagination.PagesReassemble | api.py:25-36 | pages 1 to total_pages, concatenated, are exactly the data |
| Scenarios.ColdStartWithinBudget | main.py:72 | the program's limiter on an empty store is within budget, and after a posting pass the daily counter is at most 1000 |
| Scenarios.FirstTweetIsPageOne | main.py:131-138 | after one successful tweet on an empty store, page 1 of 10 holds exactly that tweet, with one item and one page |
| Scenarios.NoSelfComment | main.py:152 | a user's attempt on their own tweet changes nothing, whatever the random draws |

## Left out

- Threads and the supervisor (main.py:168-182). The two loops share the store and the limiter without a lock. The model runs each attempt and each pass as one sequential step, and the budget invariant is proved for that sequential model only. The program as written can interleave check, check, log, log across the two threads and so exceed both caps; `UnlockedCallersOvershoot` shows this for the daily cap, and such interleavings are not otherwise modelled.
- The endless `while True` loops. One pass of each loop is modelled. The commenting loop's spin on an empty store is a pass that changes nothing. That one loop dies on the daily-limit exception while the other runs on is shown as a `Stopped` step.
- Real time. `datetime.now()` becomes integer seconds with no sub-second part. It is naive local wall-clock time and can step back. The model's loops only move the clock forward, and the budget invariant is proved under that assumption; `ClockBackBreaksMinuteClause` shows the minute clause failing when the clock steps back, while `DailyCapAtAnyInstant` shows the daily clause does not depend on it. `__init__` reads the clock twice; the model uses one instant. Generation takes no model time, so a new post or comment is stamped with the instant the check resumed. The stamp is an integer, not `str(datetime.now())`.
- Sleeping. The rate-limit sleep becomes the resume instant. The pause `random.uniform(1, 3)` becomes a whole number of seconds given with each draw, and its range is not enforced.
- The generation service, its configuration and the prompt texts (main.py:85-99, 112-119). Each answer is a parameter: a text, already stripped, or a failure. The choice of emotion and tone only shapes the prompt and is left out. With an empty emotion or tone list, `random.choice` would raise; that case is not modelled.
- Randomness. The probability gates, the samples and the pauses are parameters. A sample must be `min(5, n)` distinct store positions, which is what `random.sample` returns.
- JSON file I/O (main.py:13-38, api.py:11-13). This covers `save_to_db` after each mutation, `load_from_db` with its empty list on a missing file, and the user, emotion and tone loaders. The durable copy is taken to be the in-memory store.
- Flask routing, CORS and query-string parsing (api.py:1-22, 39-42). Pagination is modelled for `page >= 1` and `limit >= 1` only. Python's negative slice indices and the division by zero at `limit = 0` are not modelled.
- Logging and print output.
