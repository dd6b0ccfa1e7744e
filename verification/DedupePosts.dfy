/** `dedupe_posts` of `seed/scripts/apply_upgrade.py`: posts that share an id are collapsed onto the richest row. */
module DedupePosts {
  import opened Catalogue

  /** More members, or as many and earlier: the source's rank `(members, -index)`. */
  predicate Outranks(posts: seq<Post>, i: nat, j: nat)
    requires i < |posts| && j < |posts|
  {
    |posts[i].members| > |posts[j].members| || (|posts[i].members| == |posts[j].members| && i < j)
  }

  /** The best row of its id among the first `n`. */
  predicate BestOf(posts: seq<Post>, n: nat, i: nat)
    requires n <= |posts|
  {
    i < n && forall j :: 0 <= j < n && posts[j].id == posts[i].id && j != i ==> Outranks(posts, i, j)
  }

  /** The row of its id that is kept. */
  predicate IsBest(posts: seq<Post>, i: nat) {
    BestOf(posts, |posts|, i)
  }

  /** The best rows among the first `n`, in order. */
  function BestRows(posts: seq<Post>, n: nat): seq<Post>
    requires n <= |posts|
  {
    if n == 0 then []
    else if IsBest(posts, n - 1) then BestRows(posts, n - 1) + [posts[n - 1]] else BestRows(posts, n - 1)
  }

  function Deduped(posts: seq<Post>): seq<Post> {
    BestRows(posts, |posts|)
  }

  /** For every id met so far, the position of its best row so far. */
  ghost predicate BestSoFar(posts: seq<Post>, n: nat, best: map<string, nat>)
    requires n <= |posts|
  {
    && best.Keys == PostIds(posts[..n])
    && forall id :: id in best ==> BestOf(posts, n, best[id]) && posts[best[id]].id == id
  }

  /** The first pass: the best row of every id. */
  method RankRows(posts: seq<Post>) returns (best: map<string, nat>)
    ensures BestSoFar(posts, |posts|, best)
  {
    hide BestSoFar;
    best := map[];
    NothingRanked(posts);
    for i := 0 to |posts|
      invariant BestSoFar(posts, i, best)
    {
      BestStep(posts, i, best);
      var p := posts[i];
      if p.id !in best || |p.members| > |posts[best[p.id]].members| {
        best := best[p.id := i];
      }
    }
  }

  lemma NothingRanked(posts: seq<Post>)
    ensures BestSoFar(posts, 0, map[])
  {
  }

  lemma BestStep(posts: seq<Post>, i: nat, best: map<string, nat>)
    requires i < |posts| && BestSoFar(posts, i, best)
    ensures posts[i].id in best ==> best[posts[i].id] < i
    ensures BestSoFar(posts, i + 1,
              if posts[i].id !in best || |posts[i].members| > |posts[best[posts[i].id]].members| then best[posts[i].id := i] else best)
  {
    var p := posts[i];
    assert posts[..i + 1] == posts[..i] + [p];
    forall id | id in best && id != p.id ensures BestOf(posts, i + 1, best[id]) {
      assert BestOf(posts, i, best[id]);
    }
    if p.id !in best {
      FirstOfId(posts, i);
    } else {
      assert BestOf(posts, i, best[p.id]);
    }
    assert BestOf(posts, i + 1, if p.id !in best || |p.members| > |posts[best[p.id]].members| then i else best[p.id]);
    hide BestOf;
  }

  lemma FirstOfId(posts: seq<Post>, i: nat)
    requires i < |posts| && posts[i].id !in PostIds(posts[..i])
    ensures BestOf(posts, i + 1, i)
  {
    forall j | 0 <= j < i ensures posts[j].id != posts[i].id {
      assert posts[j] in posts[..i];
    }
  }

  /** The ids that more than one row holds. */
  function DuplicateIds(posts: seq<Post>): set<string> {
    set i, j | 0 <= i < j < |posts| && posts[i].id == posts[j].id :: posts[i].id
  }

  /** `Counter` over the ids, and the ids counted more than once. */
  method CountIds(posts: seq<Post>) returns (duplicates: set<string>)
    ensures duplicates == DuplicateIds(posts)
  {
    duplicates := {};
    var seen: set<string> := {};
    for i := 0 to |posts|
      invariant seen == PostIds(posts[..i]) && duplicates == DuplicateIds(posts[..i])
    {
      assert posts[..i + 1] == posts[..i] + [posts[i]];
      DuplicatesSnoc(posts[..i], posts[i]);
      if posts[i].id in seen {
        duplicates := duplicates + {posts[i].id};
      }
      seen := seen + {posts[i].id};
    }
    assert posts[..|posts|] == posts;
  }

  lemma DuplicatesSnoc(posts: seq<Post>, p: Post)
    ensures DuplicateIds(posts + [p]) == DuplicateIds(posts) + if p.id in PostIds(posts) then {p.id} else {}
    ensures PostIds(posts + [p]) == PostIds(posts) + {p.id}
  {
    var all := posts + [p];
    if p.id in PostIds(posts) {
      var i :| 0 <= i < |posts| && posts[i].id == p.id;
      assert all[i] == posts[i] && all[|posts|] == p;
    }
    forall id | id in DuplicateIds(posts) ensures id in DuplicateIds(all) {
      var i, j :| 0 <= i < j < |posts| && posts[i].id == posts[j].id == id;
      assert all[i] == posts[i] && all[j] == posts[j];
    }
  }

  /** One pass ranks the rows, the next keeps the best of each id. */
  method Dedupe(w: Workspace) returns (removed: nat, duplicates: set<string>)
    modifies w`posts
    ensures w.posts == Deduped(old(w.posts)) && removed == |old(w.posts)| - |w.posts| && duplicates == DuplicateIds(old(w.posts))
  {
    hide BestSoFar, IsBest, DuplicateIds;
    var posts := w.posts;
    duplicates := CountIds(posts);
    var best := RankRows(posts);
    var kept: seq<Post> := [];
    for i := 0 to |posts|
      invariant kept == BestRows(posts, i) && |kept| <= i && w.posts == posts
    {
      BestIsUnique(posts, best, i);
      if best[posts[i].id] == i {
        kept := kept + [posts[i]];
      }
    }
    w.posts := kept;
    removed := |posts| - |kept|;
  }

  lemma BestIsUnique(posts: seq<Post>, best: map<string, nat>, i: nat)
    requires BestSoFar(posts, |posts|, best) && i < |posts|
    ensures posts[i].id in best && (best[posts[i].id] == i <==> IsBest(posts, i))
  {
    assert posts[..|posts|] == posts && posts[i] in posts;
  }

  // ----- what is kept -----

  /** Where in the original list each kept row stood. */
  function BestPositions(posts: seq<Post>, n: nat): (at: seq<nat>)
    requires n <= |posts|
    ensures |at| == |BestRows(posts, n)|
    ensures forall k :: 0 <= k < |at| ==> at[k] < n && IsBest(posts, at[k]) && BestRows(posts, n)[k] == posts[at[k]]
    ensures forall k, l :: 0 <= k < l < |at| ==> at[k] < at[l]
  {
    if n == 0 then []
    else if IsBest(posts, n - 1) then BestPositions(posts, n - 1) + [n - 1] else BestPositions(posts, n - 1)
  }

  lemma {:induction false} BestIsKept(posts: seq<Post>, n: nat, i: nat)
    requires n <= |posts| && i < n && IsBest(posts, i)
    ensures posts[i] in BestRows(posts, n)
  {
    if i < n - 1 { BestIsKept(posts, n - 1, i); }
  }

  /** Every id has a best row. */
  lemma {:induction false} SomeBest(posts: seq<Post>, id: string, n: nat) returns (i: nat)
    requires n <= |posts| && exists j :: 0 <= j < n && posts[j].id == id
    ensures BestOf(posts, n, i) && posts[i].id == id
  {
    if exists j :: 0 <= j < n - 1 && posts[j].id == id {
      i := SomeBest(posts, id, n - 1);
      if posts[n - 1].id == id && |posts[n - 1].members| > |posts[i].members| { i := n - 1; }
    } else {
      i := n - 1;
    }
  }

  /** One row per id is kept, the ids are the same, the order is kept, and no row of an id has more members than the kept
      one or as many and an earlier place. */
  lemma DedupedIsExact(posts: seq<Post>)
    ensures UniquePosts(Deduped(posts)) && PostIds(Deduped(posts)) == PostIds(posts)
    ensures var at := BestPositions(posts, |posts|);
            && |at| == |Deduped(posts)|
            && (forall k :: 0 <= k < |at| ==> IsBest(posts, at[k]) && Deduped(posts)[k] == posts[at[k]])
            && (forall k, l :: 0 <= k < l < |at| ==> at[k] < at[l])
  {
    var (kept, at) := (Deduped(posts), BestPositions(posts, |posts|));
    forall k, l | 0 <= k < l < |kept| ensures kept[k].id != kept[l].id {
      assert at[k] < at[l];
      assert IsBest(posts, at[k]) && IsBest(posts, at[l]);
    }
    forall id | id in PostIds(posts) ensures id in PostIds(kept) {
      var i := SomeBest(posts, id, |posts|);
      BestIsKept(posts, |posts|, i);
    }
  }

  /** Where every id is held once nothing is removed; so the pass is idempotent. */
  lemma {:induction false} UniqueIsKept(posts: seq<Post>, n: nat)
    requires UniquePosts(posts) && n <= |posts|
    ensures BestRows(posts, n) == posts[..n]
  {
    if n > 0 {
      UniqueIsKept(posts, n - 1);
      assert posts[..n] == posts[..n - 1] + [posts[n - 1]];
      assert IsBest(posts, n - 1);
    }
  }

  lemma DedupeIsIdempotent(posts: seq<Post>)
    ensures Deduped(Deduped(posts)) == Deduped(posts)
    ensures UniquePosts(posts) <==> Deduped(posts) == posts
  {
    DedupedIsExact(posts);
    UniqueIsKept(Deduped(posts), |Deduped(posts)|);
    if UniquePosts(posts) { UniqueIsKept(posts, |posts|); }
  }
}
