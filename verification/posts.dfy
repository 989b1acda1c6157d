/** A post of the discussion board, its votes, and the four per-post scores
    the ranking algorithms sort by: hotness, freshness, controversy and
    momentum (app/models/post.rb). Time is measured in whole seconds since
    the Unix epoch; the base-10 logarithm is a parameter. */
module Posts {

  /** The board's reference instant, 2005-12-08T00:00:00, in seconds. */
  const EPOCH: int := 1134000000

  /** Divisor that turns an age in seconds into a score term. */
  const TIME_NORMALIZER: real := 45000.0

  /** Damping of the age term in the controversy score. */
  const SOFT_TIME_WEIGHT: real := 0.2

  /** Twelve hours in seconds: posts older than this are not rising. */
  const RISING_WINDOW: int := 12 * 60 * 60

  /** One vote cast on a post; by convention +1 or -1, but any integer. */
  datatype Vote = Vote(value: int)

  /** A post as the ranking reads it: its identity, creation time, votes, and
      the number of comments descending from it (supplied by the store). */
  datatype Post = Post(id: int, createdAt: int, votes: seq<Vote>, descendantsCount: nat)

  /** The logarithm used by the scores, applied to arguments of at least 1. */
  type Log = int -> real

  /** What the scores need of a base-10 logarithm: it vanishes at 1 and
      never decreases. */
  ghost predicate IsLog10(log: Log) {
    && log(1) == 0.0
    && forall a, b :: 1 <= a <= b ==> log(a) <= log(b)
  }

  function Max(a: int, b: int): int {
    if a < b then b else a
  }

  function Abs(n: int): nat {
    if n < 0 then -n else n
  }

  /** The sign of an integer: the one value in {-1, 0, 1} that turns `n`
      into its magnitude. */
  function Sign(n: int): (r: int)
    ensures -1 <= r <= 1
    ensures r * n == Abs(n)
    ensures r == 0 <==> n == 0
  {
    if n > 0 then 1 else if n < 0 then -1 else 0
  }

  /** Sum of the vote values; zero for no votes. */
  function VoteSum(votes: seq<Vote>): int {
    if |votes| == 0 then 0 else votes[0].value + VoteSum(votes[1..])
  }

  /** The sum over two batches of votes is the sum of their sums, so the
      order in which votes arrive does not matter for the total. */
  lemma {:induction false} VoteSumOfConcatenation(a: seq<Vote>, b: seq<Vote>)
    ensures VoteSum(a + b) == VoteSum(a) + VoteSum(b)
  {
    if |a| > 0 {
      assert (a + b)[1..] == a[1..] + b;
      VoteSumOfConcatenation(a[1..], b);
    } else {
      assert a + b == b;
    }
  }

  /** Number of votes whose value is exactly +1. */
  function UpVotes(votes: seq<Vote>): (r: nat)
    ensures r <= |votes|
  {
    if |votes| == 0 then 0
    else (if votes[0].value == 1 then 1 else 0) + UpVotes(votes[1..])
  }

  /** The up-vote count reaches the number of votes exactly when every vote
      is +1, and is zero exactly when none is. */
  lemma {:induction false} UpVotesExtremes(votes: seq<Vote>)
    ensures UpVotes(votes) == |votes| <==> forall i :: 0 <= i < |votes| ==> votes[i].value == 1
    ensures UpVotes(votes) == 0 <==> forall i :: 0 <= i < |votes| ==> votes[i].value != 1
  {
    if |votes| > 0 {
      var tail := votes[1..];
      UpVotesExtremes(tail);
      assert forall i :: 0 < i < |votes| ==> votes[i] == tail[i - 1];
    }
  }

  /** A vote is conventional when it is an up-vote or a down-vote. */
  predicate Conventional(votes: seq<Vote>) {
    forall i :: 0 <= i < |votes| ==> votes[i].value == 1 || votes[i].value == -1
  }

  /** With conventional votes the sum is up-votes minus down-votes, so its
      magnitude never exceeds the number of votes. */
  lemma {:induction false} VoteSumOfConventionalVotes(votes: seq<Vote>)
    requires Conventional(votes)
    ensures VoteSum(votes) == 2 * UpVotes(votes) - |votes|
    ensures Abs(VoteSum(votes)) <= |votes|
  {
    if |votes| > 0 {
      assert Conventional(votes[1..]) by {
        forall i | 0 <= i < |votes[1..]|
          ensures votes[1..][i].value == 1 || votes[1..][i].value == -1
        {
          assert votes[1..][i] == votes[i + 1];
        }
      }
      VoteSumOfConventionalVotes(votes[1..]);
    }
  }

  /** The displayed vote total: the vote sum, floored at zero. */
  function VoteTotal(p: Post): (r: nat)
    ensures r >= VoteSum(p.votes)
    ensures r == VoteSum(p.votes) || r == 0
  {
    Max(VoteSum(p.votes), 0)
  }

  /** Seconds between the board's reference instant and the post's creation;
      negative for posts dated before it. */
  function Age(p: Post): int {
    p.createdAt - EPOCH
  }

  /** Hotness: the logarithm of the (clamped) vote sum plus an age term
      whose direction follows the sign of the vote sum. */
  function Hotness(p: Post, log: Log): real {
    var s := VoteSum(p.votes);
    log(Max(s, 1)) + (Sign(s) * Age(p)) as real / TIME_NORMALIZER
  }

  /** Freshness: the creation time itself. */
  function Freshness(p: Post): int {
    p.createdAt
  }

  /** Engagement of a post: its votes plus its descendant comments. */
  function Engagement(p: Post): nat {
    |p.votes| + p.descendantsCount
  }

  /** Controversy: the logarithm of the (clamped) engagement plus a damped
      age term that is switched on by any engagement at all. */
  function Controversy(p: Post, log: Log): real {
    var s := Engagement(p);
    log(Max(s, 1)) + SOFT_TIME_WEIGHT * (Sign(s) * Age(p)) as real / TIME_NORMALIZER
  }

  /** Momentum: the up-vote ratio smoothed by one phantom up-vote. */
  function Momentum(p: Post): (r: real)
    ensures 0.0 < r <= 1.0
  {
    Ratio(UpVotes(p.votes) + 1, |p.votes| + 1)
  }

  /** The exact quotient of two positive counts, the first not the larger. */
  function Ratio(a: int, b: int): (r: real)
    requires 0 < a <= b
    ensures 0.0 < r <= 1.0
    ensures r * b as real == a as real
  {
    var x, ra, rb := a as real / b as real, a as real, b as real;
    assert x * rb == ra;
    assert (1.0 - x) * rb == rb - ra;
    x
  }

  /** A post is too old for the rising algorithm once it was created more
      than twelve hours before `now`. */
  predicate ExpiredForRising(p: Post, now: int) {
    p.createdAt < now - RISING_WINDOW
  }

  /** A post whose votes do not sum to a positive number gets nothing from
      the logarithm: its hotness is the age term alone, pulled down by a
      negative sum and absent for a zero sum. */
  lemma HotnessWithoutPositiveSum(p: Post, log: Log)
    requires IsLog10(log)
    requires VoteSum(p.votes) <= 0
    ensures VoteSum(p.votes) == 0 ==> Hotness(p, log) == 0.0
    ensures VoteSum(p.votes) < 0 ==> Hotness(p, log) == -(Age(p) as real) / TIME_NORMALIZER
  {
  }

  /** A post nobody has voted on has hotness zero, whatever its age. */
  lemma HotnessWithoutVotes(p: Post, log: Log)
    requires IsLog10(log)
    requires |p.votes| == 0
    ensures Hotness(p, log) == 0.0
  {
    HotnessWithoutPositiveSum(p, log);
  }

  /** For posts of the same age whose vote sums have the same sign, a larger
      sum never gives a smaller hotness. */
  lemma HotnessMonotoneInVotes(p: Post, q: Post, log: Log)
    requires IsLog10(log)
    requires p.createdAt == q.createdAt
    requires Sign(VoteSum(p.votes)) == Sign(VoteSum(q.votes))
    requires VoteSum(p.votes) <= VoteSum(q.votes)
    ensures Hotness(p, log) <= Hotness(q, log)
  {
    assert log(Max(VoteSum(p.votes), 1)) <= log(Max(VoteSum(q.votes), 1));
  }

  /** Engagement is never negative, so the age term of controversy is either
      absent (no votes and no comments) or counted with a positive sign. */
  lemma ControversyAgeTerm(p: Post, log: Log)
    requires IsLog10(log)
    ensures Engagement(p) == 0 ==> Controversy(p, log) == 0.0
    ensures Engagement(p) > 0 ==>
      Controversy(p, log) == log(Engagement(p)) + SOFT_TIME_WEIGHT * (Age(p) as real) / TIME_NORMALIZER
  {
  }

  /** For posts of the same age that both have some engagement, more
      engagement never gives a smaller controversy. */
  lemma ControversyMonotoneInEngagement(p: Post, q: Post, log: Log)
    requires IsLog10(log)
    requires p.createdAt == q.createdAt
    requires 1 <= Engagement(p) <= Engagement(q)
    ensures Controversy(p, log) <= Controversy(q, log)
  {
    assert log(Engagement(p)) <= log(Engagement(q));
  }

  /** Momentum is the smoothed share of up-votes: scaled by the number of
      votes plus one it gives the number of up-votes plus one. */
  lemma MomentumIsSmoothedShare(p: Post)
    ensures Momentum(p) * (|p.votes| + 1) as real == (UpVotes(p.votes) + 1) as real
  {
    var up, count := UpVotes(p.votes) + 1, |p.votes| + 1;
    var r := Ratio(up, count);
    assert Momentum(p) == r;
    assert r * count as real == up as real;
  }

  /** Quotients with the same divisor are ordered like their dividends. */
  lemma RatioMonotone(a1: int, a2: int, b: int)
    requires 0 < a1 <= a2 <= b
    ensures Ratio(a1, b) <= Ratio(a2, b)
  {
    var r1, r2 := Ratio(a1, b), Ratio(a2, b);
    assert (r2 - r1) * b as real == (a2 - a1) as real;
  }

  /** A quotient of a count by itself is exactly 1. */
  lemma RatioOfEqualCounts(b: int)
    requires 0 < b
    ensures Ratio(b, b) == 1.0
  {
    var r, rb := Ratio(b, b), b as real;
    assert (r - 1.0) * rb == 0.0;
  }

  /** Among posts with as many votes, more up-votes never mean less
      momentum. */
  lemma MomentumMonotoneInUpVotes(p: Post, q: Post)
    requires |p.votes| == |q.votes|
    requires UpVotes(p.votes) <= UpVotes(q.votes)
    ensures Momentum(p) <= Momentum(q)
  {
    RatioMonotone(UpVotes(p.votes) + 1, UpVotes(q.votes) + 1, |q.votes| + 1);
  }

  /** A post whose every vote is +1 has momentum exactly 1. */
  lemma MomentumOfUnanimousPost(p: Post)
    requires forall i :: 0 <= i < |p.votes| ==> p.votes[i].value == 1
    ensures Momentum(p) == 1.0
  {
    UpVotesExtremes(p.votes);
    RatioOfEqualCounts(|p.votes| + 1);
  }

  /** A post without votes has the highest possible momentum, exactly 1. */
  lemma MomentumWithoutVotes(p: Post)
    requires |p.votes| == 0
    ensures Momentum(p) == 1.0
  {
  }

  /** Worked example: created one hour after the reference instant with votes
      +1, +1, -1, a post has hotness 0.08 and momentum 0.75. */
  lemma WorkedExampleHotAndRising(log: Log)
    requires IsLog10(log)
    ensures var p := Post(0, EPOCH + 3600, [Vote(1), Vote(1), Vote(-1)], 0);
      Hotness(p, log) == 0.08 && Momentum(p) == 0.75
  {
    var p := Post(0, EPOCH + 3600, [Vote(1), Vote(1), Vote(-1)], 0);
    assert VoteSum(p.votes) == 1;
    assert UpVotes(p.votes) == 2;
  }

  /** Worked example: created at the reference instant with no votes and no
      comments, a post scores 0 for hotness and controversy and 1 for
      momentum, and stays rising for exactly twelve hours. */
  lemma WorkedExampleUntouchedPost(log: Log, now: int)
    requires IsLog10(log)
    ensures var p := Post(0, EPOCH, [], 0);
      && Hotness(p, log) == 0.0
      && Controversy(p, log) == 0.0
      && Momentum(p) == 1.0
      && (ExpiredForRising(p, now) <==> now - EPOCH > 12 * 3600)
  {
  }
}
