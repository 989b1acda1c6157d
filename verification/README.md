# Post ranking and comment threads of a discussion board, in Dafny

This project models the core of a Reddit-style discussion board written in
Ruby on Rails. It covers two pieces:

- **Post ranking** (`app/models/post.rb`). Each post gets four scores:
  *hotness*, *freshness*, *controversy* and *momentum*. The four ranking
  algorithms (`default`, `fresh`, `controversial`, `rising`) sort every post
  by one of these scores, highest first. `rising` first drops the posts
  created more than twelve hours ago. `rank` returns the 1-based position of a
  post in the chosen ordering.
- **Comment threads** (`app/models/comment.rb`). A validation rule requires
  each comment to reference exactly one of a post and a parent comment.
  `replies` lists the direct answers to a comment. `parent_post_id` climbs the
  chain of parents up to the post that owns the thread.

Everything is a pure function over an immutable snapshot:

- a post is a record holding its votes (a sequence) and its descendant-comment count;
- the comment table is a map from id to comment;
- the current time and the base-10 logarithm are explicit parameters.

Modules:

- `Wrappers` (wrappers.dfy): `Option` (Ruby's nil) and `Result` (Ruby's exceptions).
- `Posts` (posts.dfy): votes, `Sign`, `VoteTotal`, the four scores and the rising expiry.
- `Sequences` (sequences.dfy): insertion sort by a real-valued key, highest first, and why two descending arrangements of the same elements agree key by key.
- `Ranking` (ranking.dfy): the four rankings, the dispatcher and `Rank`.
- `Comments` (comments.dfy): the validation rule, `Replies`, and the climb to the owning post.

Modelling decisions:

- **Time.** Time is whole seconds since the Unix epoch. The reference instant
  `EPOCH` (`Time.new(2005, 12, 8)`) is 1134000000, which is midnight UTC. Ruby
  reads that date in the server's local time zone, so on a server in another
  zone every age is shifted by the same constant. `now` replaces
  `12.hours.ago`.
- **Logarithm.** The logarithm is a parameter `log: int -> real`. The lemmas
  that depend on it require only `IsLog10(log)`: `log(1) == 0` and `log` never
  decreases on arguments of at least 1. Ruby calls it only on arguments of at
  least 1.
- **Exact arithmetic.** Scores are exact `real`s. Ruby computes the age
  (`Time - Time`) and the momentum (`to_f`) as floats, so the age term is a
  real division here.
- **Algorithm names.** A name is a string (`"default"`, `"fresh"`,
  `"controversial"`, `"rising"`). `RankedByAlgorithm` returns `None` for any
  other name, as the Ruby `case` returns nil.
- **Rank errors.** `Rank` distinguishes `UnknownAlgorithm` from `NotRanked`.
  In Ruby both are the same `NoMethodError`: in one case `index` is called on
  nil, in the other `+` is.
- **Post identity.** ActiveRecord compares records by id, so `Rank` returns
  the position of the first post whose id matches.
- **The climb.** `Climb` carries the set of comments it has already passed.
  - A missing parent, or a reply without a parent id, gives `CommentNotFound`.
    Ruby's `Comment.find` raises `RecordNotFound` in both cases.
  - Coming back to a comment already passed gives `CyclicChain`. In Ruby each
    call on such a chain adds a stack frame and a `Comment.find` query until
    the interpreter stops with `SystemStackError`. The visited set is also
    what makes the climb terminate.
  - The climb follows map keys, while `Replies` matches the `id` field. The
    predicate `WellKeyed` (every comment stored under its own id, as in a
    database table) ties the two together. The lemmas about replies that
    need it require it.
- **Ties.** Ties among equally scored posts are unspecified. Ruby's `sort_by`
  is not stable, and `.reverse` flips ties. The model sorts by insertion and
  proves only three things: the output is a permutation, it is in
  non-increasing order, and the scores appear in the same order whatever the
  input order.

Three further facts about the Ruby program that the model keeps:

- An unknown algorithm name gives nil; there is no dedicated error.
- No tie-break between equally scored posts is defined.
- A post is expired for `rising` when `created_at < now - 12h`, which is the
  same condition as `now - created_at > 12h`.

## Model

| member | source | states |
|---|---|---|
| Posts.Sign | app/models/post.rb:100-104 | the result is -1, 0 or 1; multiplying the input by it gives the input's magnitude; it is 0 exactly for 0 |
| Posts.VoteTotal | app/models/post.rb:16-18 | the total is a natural number, at least the vote sum, and equal either to the sum or to 0: the sum floored at zero |
| Posts.VoteSum | app/models/post.rb:17 | the sum of the vote values, 0 for no votes; constrained by VoteSumOfConcatenation and VoteSumOfConventionalVotes |
| Posts.VoteSumOfConcatenation | app/models/post.rb:17 | the sum over two batches of votes is the sum of their sums |
| Posts.UpVotes | app/models/post.rb:110-112 | the up-vote count never exceeds the number of votes |
| Posts.UpVotesExtremes | app/models/post.rb:110-112 | the up-vote count equals the number of votes exactly when every vote is +1, and is 0 exactly when no vote is +1 |
| Posts.VoteSumOfConventionalVotes | app/models/post.rb:110-112 | with only +1/-1 votes, the sum is up-votes minus down-votes, so its magnitude is bounded by the vote count |
| Posts.Momentum | app/models/post.rb:69-71 | momentum lies in (0, 1] |
| Posts.MomentumIsSmoothedShare | app/models/post.rb:69-71 | momentum times (votes + 1) is exactly (up-votes + 1): the share of up-votes with one phantom up-vote |
| Posts.MomentumMonotoneInUpVotes | app/models/post.rb:69-71 | among posts with as many votes, more up-votes never give less momentum |
| Posts.MomentumOfUnanimousPost | app/models/post.rb:69-71 | a post whose every vote is +1 has momentum exactly 1 |
| Posts.MomentumWithoutVotes | app/models/post.rb:69-71 | a post with no votes has momentum exactly 1 |
| Posts.Age | app/models/post.rb:106-108 | seconds since the reference instant, negative before it; it enters the scores as stated by HotnessWithoutPositiveSum, ControversyAgeTerm and the worked examples |
| Posts.Hotness | app/models/post.rb:53-57 | log of the clamped vote sum plus the signed age over 45000; constrained by HotnessWithoutPositiveSum, HotnessWithoutVotes, HotnessMonotoneInVotes and WorkedExampleHotAndRising |
| Posts.Freshness | app/models/post.rb:59-61 | the creation time; FreshRanking orders by it, newest first |
| Posts.Controversy | app/models/post.rb:63-67 | log of the clamped engagement plus the damped age term; constrained by ControversyAgeTerm and ControversyMonotoneInEngagement |
| Posts.ExpiredForRising | app/models/post.rb:73-75 | created more than twelve hours before `now`; RisingRanking keeps exactly the posts for which it is false, and WorkedExampleUntouchedPost pins the boundary |
| Posts.HotnessWithoutPositiveSum | app/models/post.rb:53-57 | when the vote sum is not positive the logarithm contributes nothing: hotness is 0 for a zero sum and minus age / 45000 for a negative sum |
| Posts.HotnessWithoutVotes | app/models/post.rb:53-57 | a post with no votes has hotness 0 |
| Posts.HotnessMonotoneInVotes | app/models/post.rb:53-57 | for equally old posts whose sums have the same sign, the larger sum has at least the hotness |
| Posts.ControversyAgeTerm | app/models/post.rb:63-67 | with no votes and no comments controversy is 0; otherwise the age term enters with a positive sign, weighted 0.2 |
| Posts.ControversyMonotoneInEngagement | app/models/post.rb:63-67 | for equally old posts with some engagement, more votes plus comments never lowers controversy |
| Posts.WorkedExampleHotAndRising | app/models/post.rb:53-71 | a post one hour past the reference instant with votes +1, +1, -1 has hotness 0.08 and momentum 0.75 |
| Posts.WorkedExampleUntouchedPost | app/models/post.rb:53-75 | a post at the reference instant with no votes or comments has hotness 0, controversy 0, momentum 1, and is expired exactly when more than 12 hours have passed |
| Sequences.InsertBy | app/models/post.rb:37-51 | inserting into a sequence descending by the key keeps it descending and adds exactly the one element |
| Sequences.SortBy | app/models/post.rb:37-51 | the result is a permutation of the input in non-increasing order of the key, as `sort_by(...).reverse` |
| Sequences.DescendingArrangementsAgree | app/models/post.rb:37-51 | two descending arrangements of the same elements have the same length and the same key at every position |
| Ranking.DefaultRanking | app/models/post.rb:37-39 | every post, as a permutation, in non-increasing hotness |
| Ranking.FreshRanking | app/models/post.rb:41-43 | every post, as a permutation, newest first by creation time |
| Ranking.ControversialRanking | app/models/post.rb:45-47 | every post, as a permutation, in non-increasing controversy |
| Ranking.RejectExpired | app/models/post.rb:49-51 | each post appears as often as in the input if it is not expired, and never if it is |
| Ranking.RisingRanking | app/models/post.rb:49-51 | exactly the non-expired posts with their multiplicities, none expired, in non-increasing momentum |
| Ranking.AlgorithmKey | app/models/post.rb:24-35 | exactly the four names select a score, each its own: default selects hotness, fresh freshness, controversial controversy, rising momentum |
| Ranking.Ordering | app/models/post.rb:37-51 | the ordering for a score is descending in it, a permutation of all posts, or for momentum exactly the non-expired posts |
| Ranking.RankedByAlgorithm | app/models/post.rb:24-35 | a known name gives an ordering descending in its score (all posts, or the non-expired posts for rising); any other name gives nil |
| Ranking.AlgorithmNamesSelectTheirRankings | app/models/post.rb:24-35 | default, fresh, controversial and rising give exactly DefaultRanking, FreshRanking, ControversialRanking and RisingRanking |
| Ranking.IndexOf | app/models/post.rb:21 | the position found holds a post with the id and no earlier position does; nothing is found exactly when no post has the id |
| Ranking.Rank | app/models/post.rb:20-22 | a rank is between 1 and the ordering's length and points at the first post with the queried id; it fails for an unknown name, and with not-ranked exactly when no ranked post has the id |
| Ranking.RankedPostsComeFromSnapshot | app/models/post.rb:24-51 | every post in an ordering comes from the snapshot, and for rising is not expired |
| Ranking.RankFindsPost | app/models/post.rb:20-22 | with distinct ids, a post the algorithm keeps has a rank, and the post at that rank is the post itself |
| Ranking.LeaderRanksFirst | app/models/post.rb:20-22 | the post at the head of the ordering has rank 1 |
| Ranking.RankOfExpiredPostFails | app/models/post.rb:20-22 | with distinct ids, the rising rank of a post older than 12 hours fails with not-ranked |
| Ranking.RankingScoresIndependentOfInputOrder | app/models/post.rb:37-51 | for every algorithm, two inputs holding the same posts give orderings with equal scores at every position |
| Comments.BothPresentErrors | app/models/comment.rb:30-33 | appends the "cannot reference both" message to post_id, then parent_id; its effect is stated by HasParentPostOrComment |
| Comments.NeitherPresentErrors | app/models/comment.rb:35-38 | appends the "must reference a post or a comment" message to post_id, then parent_id; its effect is stated by HasParentPostOrComment |
| Comments.HasParentPostOrComment | app/models/comment.rb:22-38 | earlier errors are kept; no error is added exactly when one of post_id and parent_id is set; both set adds the "cannot reference both" message to post_id then parent_id; neither set adds the "must reference" message to both |
| Comments.Replies | app/models/comment.rb:11-13 | the stored comments whose parent_id is the comment's id; constrained by ReplyBelongsToItsParent and RepliesShareThePost |
| Comments.ReplyBelongsToItsParent | app/models/comment.rb:11-13 | in a well-keyed store, a comment whose parent is stored is a reply of that parent and of no other stored comment |
| Comments.TopLevelCommentIsNoReply | app/models/comment.rb:11-13 | a comment without a parent_id is a reply of no comment |
| Comments.RepliesShareThePost | app/models/comment.rb:11-17 | a reply without its own post_id reports the same owning post, or the same error, as the stored comment it answers |
| Comments.ParentPostId | app/models/comment.rb:15-18 | a comment with a post_id reports it without looking at any parent; a reply whose parent is absent or unset fails with not-found |
| Comments.ReplyReportsParentsPost | app/models/comment.rb:17 | for a reply whose parent is stored, the result equals the parent's result, errors included |
| Comments.ChainReportsItsRoot | app/models/comment.rb:15-17 | along a chain of ancestors the climb ends at the first one with a post_id, and every comment on the chain reports that post |
| Comments.Climb | app/models/comment.rb:15-18 | the recursive climb by parent id; constrained by ClimbIgnoresLoopBack, ClimbFollowsPath and ClimbAroundCycle |
| Comments.ClimbIgnoresLoopBack | app/models/comment.rb:17 | marking as passed a comment that leads straight back into the passed part of the chain does not change the climb's result |
| Comments.ClimbFollowsPath | app/models/comment.rb:15-18 | a successful climb walked a path of stored comments, each answering the next, to the comment whose post it reports |
| Comments.ReportedPostHasChain | app/models/comment.rb:15-18 | a reply that reports a post has a chain of stored ancestors ending at a comment that references that post |
| Comments.ClimbAroundCycle | app/models/comment.rb:17 | a climb started on a cycle of parents ends with a cycle error, whatever it had passed before |
| Comments.ReplyIntoCycleIsCyclic | app/models/comment.rb:15-18 | a reply whose parent lies on a cycle of parents of any length fails with a cycle |
| Comments.SelfParentIsCyclic | app/models/comment.rb:17 | a stored comment that is its own parent makes the climb fail with a cycle |

## Left out

- ActiveRecord persistence is not modelled: associations, `dependent: :destroy`
  cascades, SQL `sum`/`count`/`where`, and the presence validations on title,
  user_id and text. Posts carry their votes as a sequence, and comments live in
  a map.
- `contains_text_or_url` and `url_format_if_present` are not modelled. They
  validate post fields rather than rank posts, and the URL check depends on
  Ruby's `URI::regexp`.
- `descendants_count` calls `Comment.count_if_parent_id`, which is not part of
  this model. The count is a given natural number on each post.
- Floating-point behaviour of `Math.log`, `to_f` and the float age is not
  modelled. Scores are exact reals, and the logarithm is an arbitrary function
  with log(1) = 0 that never decreases.
- Which of two equally scored posts comes first is not modelled.
- The wall clock (`12.hours.ago`) and the server's time zone are not modelled.
  `now` is a parameter, and `EPOCH` is fixed at midnight UTC.
