/** Comments and their reply tree (app/models/comment.rb). A comment answers
    either a post directly or another comment; the validation rule checks
    that exactly one of the two references is set, `Replies` lists the
    answers to a comment, and `ParentPostId` climbs the chain of parents to
    the post the whole thread belongs to. The comment table is a snapshot
    map from id to comment. */
module Comments {
  import opened Wrappers

  /** A stored comment: its id and its two optional references. */
  datatype Comment = Comment(id: int, postId: Option<int>, parentId: Option<int>)

  /** The comment table, keyed by comment id. */
  type Store = map<int, Comment>

  /** Every comment is stored under its own id, as a database table keeps
      it. The climb to the owning post follows keys while `Replies` matches
      ids; in a well-keyed store the two agree. */
  ghost predicate WellKeyed(store: Store) {
    forall k :: k in store ==> store[k].id == k
  }

  /** The attributes a validation error can be attached to. */
  datatype Field = PostIdField | ParentIdField

  /** One validation error: the attribute and its message. */
  datatype FieldError = FieldError(field: Field, message: string)

  const BOTH_PRESENT_MESSAGE: string := "Your comment cannot reference both a post and a comment"
  const NEITHER_PRESENT_MESSAGE: string := "Your comment must reference a post or a comment"

  /** Adds the "cannot reference both" message to both attributes. */
  function BothPresentErrors(errors: seq<FieldError>): seq<FieldError> {
    errors + [FieldError(PostIdField, BOTH_PRESENT_MESSAGE), FieldError(ParentIdField, BOTH_PRESENT_MESSAGE)]
  }

  /** Adds the "must reference a post or a comment" message to both attributes. */
  function NeitherPresentErrors(errors: seq<FieldError>): seq<FieldError> {
    errors + [FieldError(PostIdField, NEITHER_PRESENT_MESSAGE), FieldError(ParentIdField, NEITHER_PRESENT_MESSAGE)]
  }

  /** The validation rule: a comment must reference a post or a parent
      comment, but not both. Returns the error list after the rule ran. */
  function HasParentPostOrComment(c: Comment, errors: seq<FieldError>): (r: seq<FieldError>)
    ensures |r| >= |errors| && r[..|errors|] == errors
    ensures |r| == |errors| <==> (c.postId.Some? <==> c.parentId.None?)
    ensures c.postId.Some? && c.parentId.Some? ==>
      && |r| == |errors| + 2
      && r[|errors|].field == PostIdField && r[|errors| + 1].field == ParentIdField
      && r[|errors|].message == r[|errors| + 1].message == BOTH_PRESENT_MESSAGE
    ensures c.postId.None? && c.parentId.None? ==>
      && |r| == |errors| + 2
      && r[|errors|].field == PostIdField && r[|errors| + 1].field == ParentIdField
      && r[|errors|].message == r[|errors| + 1].message == NEITHER_PRESENT_MESSAGE
  {
    if c.parentId.Some? && c.postId.Some? then BothPresentErrors(errors)
    else if c.parentId.None? && c.postId.None? then NeitherPresentErrors(errors)
    else errors
  }

  /** The stored comments that answer `c` directly. */
  function Replies(store: Store, c: Comment): set<Comment> {
    set x | x in store.Values && x.parentId == Some(c.id)
  }

  /** In a well-keyed store, a comment whose parent is stored is a reply of
      that parent and of no other stored comment: the reply sets of the
      stored comments partition the stored replies. */
  lemma ReplyBelongsToItsParent(store: Store, x: Comment)
    requires WellKeyed(store)
    requires x in store.Values && x.parentId.Some? && x.parentId.value in store
    ensures x in Replies(store, store[x.parentId.value])
    ensures forall k :: k in store && x in Replies(store, store[k]) ==> k == x.parentId.value
  {
    assert store[x.parentId.value].id == x.parentId.value;
  }

  /** A stored comment without a parent reference answers no stored
      comment. */
  lemma TopLevelCommentIsNoReply(store: Store, x: Comment)
    requires x.parentId.None?
    ensures forall c :: x !in Replies(store, c)
  {
  }

  /** Why the climb to the owning post fails: a parent that cannot be found
      (Ruby raises RecordNotFound), or a chain of parents that comes back on
      itself (Ruby recurses until the stack is exhausted). */
  datatype LookupError = CommentNotFound | CyclicChain

  lemma FewerUnvisited(keys: set<int>, visited: set<int>, id: int)
    requires id in keys && id !in visited
    ensures |keys - (visited + {id})| < |keys - visited|
  {
    var rest := keys - (visited + {id});
    assert keys - visited == rest + {id};
    assert id !in rest;
  }

  /** Looks up comment `id` and asks it for its post, climbing from parent to
      parent; `visited` holds the comments already passed on the way up. */
  function Climb(store: Store, id: int, visited: set<int>): (r: Result<int, LookupError>)
    decreases |store.Keys - visited|
  {
    if id in visited then Failure(CyclicChain)
    else if id !in store then Failure(CommentNotFound)
    else
      var c := store[id];
      if c.postId.Some? then Success(c.postId.value)
      else if c.parentId.None? then Failure(CommentNotFound)
      else
        FewerUnvisited(store.Keys, visited, id);
        Climb(store, c.parentId.value, visited + {id})
  }

  /** The id of the post a comment's thread belongs to: its own post
      reference when it has one, otherwise whatever its parent reports. */
  function ParentPostId(store: Store, c: Comment): (r: Result<int, LookupError>)
    ensures c.postId.Some? ==> r == Success(c.postId.value)
    ensures c.postId.None? && (c.parentId.None? || c.parentId.value !in store) ==>
      r == Failure(CommentNotFound)
  {
    if c.postId.Some? then Success(c.postId.value)
    else if c.parentId.None? then Failure(CommentNotFound)
    else Climb(store, c.parentId.value, {})
  }

  /** Marking as visited a comment that leads straight back into the visited
      part of the chain does not change where the climb ends: if the climb
      ever reached it, it would have found a cycle either way. */
  lemma {:induction false} ClimbIgnoresLoopBack(store: Store, id: int, visited: set<int>, k: int)
    requires k !in visited && k in store
    requires store[k].postId.None? && store[k].parentId.Some?
    requires store[k].parentId.value in visited + {id}
    ensures Climb(store, id, visited + {k}) == Climb(store, id, visited)
    decreases |store.Keys - visited|
  {
    if id in visited {
    } else if id == k {
      assert store[k].parentId.value in visited + {k};
    } else if id in store && store[id].postId.None? && store[id].parentId.Some? {
      var next := store[id].parentId.value;
      FewerUnvisited(store.Keys, visited, id);
      ClimbIgnoresLoopBack(store, next, visited + {id}, k);
      assert visited + {id} + {k} == visited + {k} + {id};
    }
  }

  /** A reply reports the same post as its parent, errors included: this is
      the recursive step of the climb. */
  lemma ReplyReportsParentsPost(store: Store, c: Comment)
    requires c.postId.None? && c.parentId.Some? && c.parentId.value in store
    ensures ParentPostId(store, c) == ParentPostId(store, store[c.parentId.value])
  {
    var p := c.parentId.value;
    var q := store[p];
    if q.postId.None? && q.parentId.Some? {
      ClimbIgnoresLoopBack(store, q.parentId.value, {}, p);
      assert {} + {p} == {p};
    }
  }

  /** Every reply of a stored comment reports the same post as that comment,
      unless it also names a post of its own. */
  lemma RepliesShareThePost(store: Store, c: Comment, x: Comment)
    requires c.id in store && store[c.id] == c
    requires x in Replies(store, c) && x.postId.None?
    ensures ParentPostId(store, x) == ParentPostId(store, c)
  {
    ReplyReportsParentsPost(store, x);
  }

  /** `chain` lists the ancestors of `c`, nearest first, up to the first one
      that references a post. */
  ghost predicate AncestorChain(store: Store, c: Comment, chain: seq<int>) {
    && |chain| > 0
    && c.postId.None? && c.parentId == Some(chain[0])
    && (forall i :: 0 <= i < |chain| ==> chain[i] in store)
    && (forall i :: 0 <= i < |chain| - 1 ==>
          store[chain[i]].postId.None? && store[chain[i]].parentId == Some(chain[i + 1]))
    && store[chain[|chain| - 1]].postId.Some?
  }

  /** Along a chain of ancestors the climb ends at the first ancestor that
      references a post, and every comment on the chain reports that post. */
  lemma {:induction false} ChainReportsItsRoot(store: Store, c: Comment, chain: seq<int>)
    requires AncestorChain(store, c, chain)
    ensures ParentPostId(store, c) == Success(store[chain[|chain| - 1]].postId.value)
    ensures forall i :: 0 <= i < |chain| ==>
      ParentPostId(store, store[chain[i]]) == Success(store[chain[|chain| - 1]].postId.value)
    decreases |chain|
  {
    var root := store[chain[|chain| - 1]].postId.value;
    ReplyReportsParentsPost(store, c);
    if |chain| > 1 {
      var q := store[chain[0]];
      var rest := chain[1..];
      assert AncestorChain(store, q, rest) by {
        forall i | 0 <= i < |rest| - 1
          ensures store[rest[i]].postId.None? && store[rest[i]].parentId == Some(rest[i + 1])
        {
          assert rest[i] == chain[i + 1] && rest[i + 1] == chain[i + 2];
        }
      }
      ChainReportsItsRoot(store, q, rest);
      forall i | 0 <= i < |chain|
        ensures ParentPostId(store, store[chain[i]]) == Success(root)
      {
        if i > 0 {
          assert chain[i] == rest[i - 1];
        }
      }
    }
  }

  /** `chain` lists stored comments, each (but the last) answering the next,
      ending at the first comment that references a post. */
  ghost predicate PathToPost(store: Store, chain: seq<int>) {
    && |chain| > 0
    && (forall i :: 0 <= i < |chain| ==> chain[i] in store)
    && (forall i :: 0 <= i < |chain| - 1 ==>
          store[chain[i]].postId.None? && store[chain[i]].parentId == Some(chain[i + 1]))
    && store[chain[|chain| - 1]].postId.Some?
  }

  /** A successful climb from `id` walked a path of stored comments up to
      the comment whose post it reports. */
  lemma {:induction false} ClimbFollowsPath(store: Store, id: int, visited: set<int>) returns (chain: seq<int>)
    requires Climb(store, id, visited).Success?
    ensures PathToPost(store, chain) && chain[0] == id
    ensures store[chain[|chain| - 1]].postId == Some(Climb(store, id, visited).value)
    decreases |store.Keys - visited|
  {
    var c := store[id];
    if c.postId.Some? {
      chain := [id];
    } else {
      var next := c.parentId.value;
      FewerUnvisited(store.Keys, visited, id);
      var rest := ClimbFollowsPath(store, next, visited + {id});
      chain := [id] + rest;
      forall i | 0 <= i < |chain| - 1
        ensures store[chain[i]].postId.None? && store[chain[i]].parentId == Some(chain[i + 1])
      {
        if i > 0 {
          assert chain[i] == rest[i - 1] && chain[i + 1] == rest[i];
        }
      }
      assert chain[|chain| - 1] == rest[|rest| - 1];
    }
  }

  /** Conversely to `ChainReportsItsRoot`: a reply that reports a post does
      so because a chain of stored ancestors leads to a comment referencing
      that post. */
  lemma ReportedPostHasChain(store: Store, c: Comment, pid: int)
    requires c.postId.None?
    requires ParentPostId(store, c) == Success(pid)
    ensures exists chain :: AncestorChain(store, c, chain) && store[chain[|chain| - 1]].postId == Some(pid)
  {
    var chain := ClimbFollowsPath(store, c.parentId.value, {});
    assert AncestorChain(store, c, chain);
  }

  /** `cycle` lists stored comments without a post reference, each answering
      the next and the last answering the first. */
  ghost predicate ParentCycle(store: Store, cycle: seq<int>) {
    && |cycle| > 0
    && (forall i :: 0 <= i < |cycle| ==> cycle[i] in store && store[cycle[i]].postId.None?)
    && (forall i :: 0 <= i < |cycle| - 1 ==> store[cycle[i]].parentId == Some(cycle[i + 1]))
    && store[cycle[|cycle| - 1]].parentId == Some(cycle[0])
  }

  /** Started anywhere on a cycle of parents, the climb comes back to a
      comment it already passed, whatever it had passed before. */
  lemma {:induction false} ClimbAroundCycle(store: Store, cycle: seq<int>, j: nat, visited: set<int>)
    requires ParentCycle(store, cycle) && j < |cycle|
    ensures Climb(store, cycle[j], visited) == Failure(CyclicChain)
    decreases |store.Keys - visited|
  {
    var id := cycle[j];
    if id !in visited {
      FewerUnvisited(store.Keys, visited, id);
      ClimbAroundCycle(store, cycle, if j + 1 < |cycle| then j + 1 else 0, visited + {id});
    }
  }

  /** A reply whose parent lies on a cycle of parents, of any length, fails
      with a cycle. */
  lemma ReplyIntoCycleIsCyclic(store: Store, c: Comment, cycle: seq<int>)
    requires ParentCycle(store, cycle)
    requires c.postId.None? && c.parentId.Some? && c.parentId.value in cycle
    ensures ParentPostId(store, c) == Failure(CyclicChain)
  {
    var j :| 0 <= j < |cycle| && cycle[j] == c.parentId.value;
    ClimbAroundCycle(store, cycle, j, {});
  }

  /** A comment stored as its own parent sends the climb round in a circle. */
  lemma SelfParentIsCyclic(store: Store, c: Comment)
    requires c.id in store && store[c.id] == c
    requires c.postId.None? && c.parentId == Some(c.id)
    ensures ParentPostId(store, c) == Failure(CyclicChain)
  {
    assert Climb(store, c.id, {}) == Climb(store, c.id, {c.id});
  }
}
