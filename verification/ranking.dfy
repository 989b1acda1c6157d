/** The ranking engine of app/models/post.rb: every algorithm orders a
    snapshot of posts by one score, highest first; `rising` first drops the
    posts older than twelve hours. `Rank` answers the 1-based position of a
    post in such an ordering. */
module Ranking {
  import opened Wrappers
  import opened Posts
  import opened Sequences

  /** The score an algorithm sorts by. */
  datatype SortKey = ByHotness | ByFreshness | ByControversy | ByMomentum

  function Score(k: SortKey, p: Post, log: Log): real {
    match k
    case ByHotness => Hotness(p, log)
    case ByFreshness => Freshness(p) as real
    case ByControversy => Controversy(p, log)
    case ByMomentum => Momentum(p)
  }

  /** The score as a key function, for sorting. */
  function ScoreBy(k: SortKey, log: Log): Post -> real {
    p => Score(k, p, log)
  }

  /** `s` lists its posts from the highest score to the lowest. */
  predicate Descending(s: seq<Post>, k: SortKey, log: Log) {
    DescendingBy(s, ScoreBy(k, log))
  }

  /** The default algorithm: every post, hottest first. */
  function DefaultRanking(posts: seq<Post>, log: Log): (r: seq<Post>)
    ensures multiset(r) == multiset(posts)
    ensures forall i, j :: 0 <= i < j < |r| ==> Hotness(r[j], log) <= Hotness(r[i], log)
  {
    SortBy(posts, p => Hotness(p, log))
  }

  /** The fresh algorithm: every post, newest first. */
  function FreshRanking(posts: seq<Post>): (r: seq<Post>)
    ensures multiset(r) == multiset(posts)
    ensures forall i, j :: 0 <= i < j < |r| ==> r[j].createdAt <= r[i].createdAt
  {
    SortBy(posts, p => Freshness(p) as real)
  }

  /** The controversial algorithm: every post, most controversial first. */
  function ControversialRanking(posts: seq<Post>, log: Log): (r: seq<Post>)
    ensures multiset(r) == multiset(posts)
    ensures forall i, j :: 0 <= i < j < |r| ==> Controversy(r[j], log) <= Controversy(r[i], log)
  {
    SortBy(posts, p => Controversy(p, log))
  }

  /** The posts still young enough to rise, in their original order. */
  function RejectExpired(posts: seq<Post>, now: int): (r: seq<Post>)
    ensures forall x :: multiset(r)[x] == if ExpiredForRising(x, now) then 0 else multiset(posts)[x]
  {
    if |posts| == 0 then []
    else
      assert posts == [posts[0]] + posts[1..];
      var rest := RejectExpired(posts[1..], now);
      if ExpiredForRising(posts[0], now) then rest else [posts[0]] + rest
  }

  /** The rising algorithm: the posts created at most twelve hours before
      `now`, highest momentum first. */
  function RisingRanking(posts: seq<Post>, now: int): (r: seq<Post>)
    ensures forall x :: multiset(r)[x] == if ExpiredForRising(x, now) then 0 else multiset(posts)[x]
    ensures forall i :: 0 <= i < |r| ==> !ExpiredForRising(r[i], now)
    ensures forall i, j :: 0 <= i < j < |r| ==> Momentum(r[j]) <= Momentum(r[i])
  {
    var r := SortBy(RejectExpired(posts, now), Momentum);
    assert forall i :: 0 <= i < |r| ==> !ExpiredForRising(r[i], now) by {
      forall i | 0 <= i < |r| ensures !ExpiredForRising(r[i], now) {
        assert r[i] in multiset(r);
      }
    }
    r
  }

  /** The score each algorithm name selects; other names select nothing. */
  function AlgorithmKey(algorithm: string): (r: Option<SortKey>)
    ensures r.Some? <==> algorithm in {"default", "fresh", "controversial", "rising"}
    ensures r == Some(ByHotness) <==> algorithm == "default"
    ensures r == Some(ByFreshness) <==> algorithm == "fresh"
    ensures r == Some(ByControversy) <==> algorithm == "controversial"
    ensures r == Some(ByMomentum) <==> algorithm == "rising"
  {
    if algorithm == "default" then Some(ByHotness)
    else if algorithm == "fresh" then Some(ByFreshness)
    else if algorithm == "controversial" then Some(ByControversy)
    else if algorithm == "rising" then Some(ByMomentum)
    else None
  }

  /** The ordering the algorithm sorting by `k` produces: every post for
      hotness, freshness and controversy; the young posts for momentum. */
  function Ordering(k: SortKey, posts: seq<Post>, now: int, log: Log): (r: seq<Post>)
    ensures Descending(r, k, log)
    ensures k != ByMomentum ==> multiset(r) == multiset(posts)
    ensures k == ByMomentum ==>
      forall x :: multiset(r)[x] == if ExpiredForRising(x, now) then 0 else multiset(posts)[x]
  {
    match k
    case ByHotness => DefaultRanking(posts, log)
    case ByFreshness =>
      var r := FreshRanking(posts);
      assert Descending(r, ByFreshness, log);
      r
    case ByControversy => ControversialRanking(posts, log)
    case ByMomentum =>
      var r := RisingRanking(posts, now);
      assert Descending(r, ByMomentum, log);
      r
  }

  /** The ordering an algorithm name stands for; an unknown name yields
      nothing (Ruby's nil). */
  function RankedByAlgorithm(algorithm: string, posts: seq<Post>, now: int, log: Log): (r: Option<seq<Post>>)
    ensures r.Some? <==> AlgorithmKey(algorithm).Some?
    ensures r.Some? ==> Descending(r.value, AlgorithmKey(algorithm).value, log)
    ensures r.Some? && algorithm != "rising" ==> multiset(r.value) == multiset(posts)
    ensures r.Some? && algorithm == "rising" ==>
      forall x :: multiset(r.value)[x] == if ExpiredForRising(x, now) then 0 else multiset(posts)[x]
  {
    match AlgorithmKey(algorithm)
    case None => None
    case Some(k) => Some(Ordering(k, posts, now, log))
  }

  /** Each of the four names stands for its own ranking. */
  lemma AlgorithmNamesSelectTheirRankings(posts: seq<Post>, now: int, log: Log)
    ensures RankedByAlgorithm("default", posts, now, log) == Some(DefaultRanking(posts, log))
    ensures RankedByAlgorithm("fresh", posts, now, log) == Some(FreshRanking(posts))
    ensures RankedByAlgorithm("controversial", posts, now, log) == Some(ControversialRanking(posts, log))
    ensures RankedByAlgorithm("rising", posts, now, log) == Some(RisingRanking(posts, now))
  {
  }

  /** Position of the first post with the given id, as Ruby's Array#index
      finds it (records compare equal when their ids do). */
  function IndexOf(s: seq<Post>, id: int): (r: Option<nat>)
    ensures r.Some? ==> r.value < |s| && s[r.value].id == id
    ensures r.Some? ==> forall j :: 0 <= j < r.value ==> s[j].id != id
    ensures r.None? <==> forall j :: 0 <= j < |s| ==> s[j].id != id
  {
    if |s| == 0 then None
    else if s[0].id == id then Some(0)
    else match IndexOf(s[1..], id)
      case None => None
      case Some(i) => Some(i + 1)
  }

  /** Why asking for a rank fails. In Ruby both are a method called on nil:
      the unknown name makes the ordering nil, the absent post its index. */
  datatype RankError = UnknownAlgorithm | NotRanked

  /** The 1-based position of `p` in the ordering the algorithm produces. */
  function Rank(p: Post, algorithm: string, posts: seq<Post>, now: int, log: Log): (r: Result<nat, RankError>)
    ensures r == Failure(UnknownAlgorithm) <==> AlgorithmKey(algorithm).None?
    ensures r.Success? ==>
      var ranked := RankedByAlgorithm(algorithm, posts, now, log).value;
      && 1 <= r.value <= |ranked|
      && ranked[r.value - 1].id == p.id
      && forall j :: 0 <= j < r.value - 1 ==> ranked[j].id != p.id
    ensures r == Failure(NotRanked) <==>
      && AlgorithmKey(algorithm).Some?
      && var ranked := RankedByAlgorithm(algorithm, posts, now, log).value;
         forall j :: 0 <= j < |ranked| ==> ranked[j].id != p.id
  {
    match RankedByAlgorithm(algorithm, posts, now, log)
    case None => Failure(UnknownAlgorithm)
    case Some(ranked) =>
      match IndexOf(ranked, p.id)
      case None => Failure(NotRanked)
      case Some(i) => Success(i + 1)
  }

  /** No two posts of the snapshot share an id, as database records do not. */
  predicate UniqueIds(posts: seq<Post>) {
    forall i, j :: 0 <= i < j < |posts| ==> posts[i].id != posts[j].id
  }

  /** In a snapshot of distinct records, the id identifies the post. */
  lemma SameIdSamePost(posts: seq<Post>, x: Post, y: Post)
    requires UniqueIds(posts)
    requires x in posts && y in posts
    ensures x.id == y.id ==> x == y
  {
    var a :| 0 <= a < |posts| && posts[a] == x;
    var b :| 0 <= b < |posts| && posts[b] == y;
    assert a < b || a == b || b < a;
  }

  /** The ordering an algorithm returns holds only posts of the snapshot. */
  lemma RankedPostsComeFromSnapshot(algorithm: string, posts: seq<Post>, now: int, log: Log, x: Post)
    requires AlgorithmKey(algorithm).Some?
    requires x in RankedByAlgorithm(algorithm, posts, now, log).value
    ensures x in posts
    ensures algorithm == "rising" ==> !ExpiredForRising(x, now)
  {
    var ranked := RankedByAlgorithm(algorithm, posts, now, log).value;
    assert x in multiset(ranked);
  }

  /** In a snapshot of distinct records, a post that the algorithm keeps has
      a rank, and the post at that rank is the post itself. */
  lemma RankFindsPost(p: Post, algorithm: string, posts: seq<Post>, now: int, log: Log)
    requires UniqueIds(posts)
    requires p in posts
    requires AlgorithmKey(algorithm).Some?
    requires algorithm == "rising" ==> !ExpiredForRising(p, now)
    ensures Rank(p, algorithm, posts, now, log).Success?
    ensures RankedByAlgorithm(algorithm, posts, now, log).value[Rank(p, algorithm, posts, now, log).value - 1] == p
  {
    var ranked := RankedByAlgorithm(algorithm, posts, now, log).value;
    assert p in multiset(posts);
    assert p in multiset(ranked);
    var k := Rank(p, algorithm, posts, now, log);
    assert k.Success?;
    var q := ranked[k.value - 1];
    RankedPostsComeFromSnapshot(algorithm, posts, now, log, q);
    SameIdSamePost(posts, p, q);
  }

  /** The post at the head of an ordering has rank 1. */
  lemma LeaderRanksFirst(p: Post, algorithm: string, posts: seq<Post>, now: int, log: Log)
    requires AlgorithmKey(algorithm).Some?
    requires var ranked := RankedByAlgorithm(algorithm, posts, now, log).value;
      |ranked| > 0 && ranked[0].id == p.id
    ensures Rank(p, algorithm, posts, now, log) == Success(1)
  {
  }

  /** In a snapshot of distinct records, asking for the rising rank of a post
      older than twelve hours fails: the post is not in the ordering. */
  lemma RankOfExpiredPostFails(p: Post, posts: seq<Post>, now: int, log: Log)
    requires UniqueIds(posts)
    requires p in posts
    requires ExpiredForRising(p, now)
    ensures Rank(p, "rising", posts, now, log) == Failure(NotRanked)
  {
    var ranked := RankedByAlgorithm("rising", posts, now, log).value;
    forall j | 0 <= j < |ranked| ensures ranked[j].id != p.id {
      RankedPostsComeFromSnapshot("rising", posts, now, log, ranked[j]);
      SameIdSamePost(posts, p, ranked[j]);
    }
  }

  /** Every algorithm is independent of the order in which the snapshot lists
      its posts: whatever the input order, the ranking shows the same scores
      position by position; only equally scored posts may trade places. */
  lemma RankingScoresIndependentOfInputOrder(algorithm: string, a: seq<Post>, b: seq<Post>, now: int, log: Log)
    requires multiset(a) == multiset(b)
    requires AlgorithmKey(algorithm).Some?
    ensures var k := AlgorithmKey(algorithm).value;
      var ra := RankedByAlgorithm(algorithm, a, now, log).value;
      var rb := RankedByAlgorithm(algorithm, b, now, log).value;
      && |ra| == |rb|
      && forall i :: 0 <= i < |ra| ==> Score(k, ra[i], log) == Score(k, rb[i], log)
  {
    var k := AlgorithmKey(algorithm).value;
    var ra := RankedByAlgorithm(algorithm, a, now, log).value;
    var rb := RankedByAlgorithm(algorithm, b, now, log).value;
    assert multiset(ra) == multiset(rb) by {
      if algorithm == "rising" {
        forall x ensures multiset(ra)[x] == multiset(rb)[x] {
        }
      }
    }
    DescendingArrangementsAgree(ra, rb, ScoreBy(k, log));
  }
}
