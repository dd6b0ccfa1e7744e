/** The retirement stage spelled out in records and posts: what is accepted, what goes, and what is left. */
module CollapseRecords {
  import opened Sequences
  import opened Json
  import opened LossEnumeration
  import opened Catalogue
  import opened AssetCollapse

  /** Position `i` holds the last record of the id: the one that indexing by id finds. */
  ghost predicate LastAssetAt(profile: seq<Asset>, i: int, id: string) {
    0 <= i < |profile| && profile[i].id == id && forall j :: i < j < |profile| ==> profile[j].id != id
  }

  ghost predicate LastPostAt(posts: seq<Post>, i: int, id: string) {
    0 <= i < |posts| && posts[i].id == id && forall j :: i < j < |posts| ==> posts[j].id != id
  }

  /** The entry enumerates exactly the paths where the retired record and the survivor part, both values as they stand. */
  ghost predicate StatesLosses(e: Entry, survivor: Asset) {
    var (a, b) := (Object(e.retired.fields["id" := Text(e.retired.id)]), Object(survivor.fields["id" := Text(survivor.id)]));
    && (forall path :: path in e.losses <==> PartsAt(a, b, path))
    && (forall path :: path in e.losses ==> Lookup(a, path).Some?
                                            && e.losses[path] == Loss(Lookup(a, path).value, Lookup(b, path)))
  }

  /** The entry authenticates: the survivor is held, the losses are true of it, and the retired record, if held, is the one
      the document has. */
  ghost predicate Authenticates(profile: seq<Asset>, e: Entry) {
    && (exists i :: LastAssetAt(profile, i, e.survivorId) && StatesLosses(e, profile[i]))
    && (forall j :: LastAssetAt(profile, j, e.retiredId) ==> profile[j] == e.retired)
  }

  /** The post is as the substitution found it. */
  ghost predicate AsFound(posts: seq<Post>, s: Substitution) {
    exists i :: LastPostAt(posts, i, s.postId) && posts[i].members == s.oldMembers
  }

  /** The post is as the substitution leaves it, and if its id moved nothing holds the old one. */
  ghost predicate AsLeft(posts: seq<Post>, s: Substitution) {
    if s.newId.Some? && s.newId.value != s.postId then
      && (exists i :: LastPostAt(posts, i, s.newId.value) && posts[i].members == s.newMembers)
      && (forall i :: 0 <= i < |posts| ==> posts[i].id != s.postId)
    else exists i :: LastPostAt(posts, i, s.postId) && posts[i].members == s.newMembers
  }

  lemma LossesAre(e: Entry, survivor: Asset)
    ensures e.losses == Losses(AsJson(e.retired), Some(AsJson(survivor))) <==> StatesLosses(e, survivor)
  {
    var (a, b) := (AsJson(e.retired), AsJson(survivor));
    var losses := Losses(a, Some(b));
    forall path
      ensures path in losses <==> PartsAt(a, b, path)
      ensures path in losses ==> Lookup(a, path).Some? && losses[path] == Loss(Lookup(a, path).value, Lookup(b, path))
    {
      LossAt(a, b, path);
    }
    hide Losses, PartsAt, Lookup;
    if StatesLosses(e, survivor) {
      assert e.losses.Keys == losses.Keys;
      assert forall path :: path in losses ==> e.losses[path] == losses[path];
    }
  }

  lemma {:induction false} LastIsFound(profile: seq<Asset>, i: int, id: string)
    requires LastAssetAt(profile, i, id)
    ensures FindAsset(profile, id) == Some(profile[i])
  {
    var n := |profile| - 1;
    if profile[n].id != id { LastIsFound(profile[..n], i, id); }
  }

  lemma {:induction false} FoundIsLast(profile: seq<Asset>, id: string) returns (i: int)
    requires FindAsset(profile, id).Some?
    ensures LastAssetAt(profile, i, id)
  {
    var n := |profile| - 1;
    if profile[n].id == id {
      i := n;
    } else {
      i := FoundIsLast(profile[..n], id);
    }
  }

  lemma SurvivorIs(profile: seq<Asset>, e: Entry)
    ensures (exists i :: LastAssetAt(profile, i, e.survivorId) && StatesLosses(e, profile[i])) <==>
            FindAsset(profile, e.survivorId).Some? && StatesLosses(e, FindAsset(profile, e.survivorId).value)
  {
    hide FindAsset, StatesLosses;
    if FindAsset(profile, e.survivorId).Some? {
      var i := FoundIsLast(profile, e.survivorId);
      LastIsFound(profile, i, e.survivorId);
    }
    if i :| LastAssetAt(profile, i, e.survivorId) && StatesLosses(e, profile[i]) {
      LastIsFound(profile, i, e.survivorId);
    }
  }

  lemma RetiredIs(profile: seq<Asset>, e: Entry)
    ensures (forall j :: LastAssetAt(profile, j, e.retiredId) ==> profile[j] == e.retired) <==>
            FindAsset(profile, e.retiredId).None? || FindAsset(profile, e.retiredId) == Some(e.retired)
  {
    hide FindAsset;
    if FindAsset(profile, e.retiredId).Some? {
      var j := FoundIsLast(profile, e.retiredId);
      LastIsFound(profile, j, e.retiredId);
    }
    if j :| LastAssetAt(profile, j, e.retiredId) && profile[j] != e.retired {
      LastIsFound(profile, j, e.retiredId);
    }
  }

  lemma EntryAcceptedIff(profile: seq<Asset>, e: Entry)
    ensures AssetState(profile, e) != Third <==> Authenticates(profile, e)
  {
    SurvivorIs(profile, e);
    RetiredIs(profile, e);
    if FindAsset(profile, e.survivorId).Some? { LossesAre(e, FindAsset(profile, e.survivorId).value); }
    hide FindAsset, StatesLosses, Losses, AsJson, LastAssetAt;
  }

  lemma HoldsIs(posts: seq<Post>, id: string, members: seq<string>)
    ensures Holds(posts, id, members) <==> exists i :: LastPostAt(posts, i, id) && posts[i].members == members
    ensures id in PostIds(posts) <==> exists i :: 0 <= i < |posts| && posts[i].id == id
  {
    var i := LastPost(posts, id);
    if i < |posts| { assert LastPostAt(posts, i, id); }
    if j :| LastPostAt(posts, j, id) && posts[j].members == members { assert posts[j].id in PostIds(posts); }
    if j :| 0 <= j < |posts| && posts[j].id == id { assert posts[j] in posts; }
  }

  lemma SubstitutionStateIs(posts: seq<Post>, s: Substitution)
    ensures PostState(posts, s) != Third <==> AsFound(posts, s) != AsLeft(posts, s)
    ensures PostState(posts, s) == Pending <==> AsFound(posts, s) && !AsLeft(posts, s)
  {
    HoldsIs(posts, s.postId, s.oldMembers);
    HoldsIs(posts, s.postId, s.newMembers);
    HoldsIs(posts, s.AppliedId(), s.newMembers);
    hide Holds, PostIds, LastPostAt;
  }

  /** What `evaluate` accepts, exactly, spelled out in records and posts: every entry authenticates, and every substituted
      post is either as found or as left, not both. */
  lemma AcceptedIff(profile: seq<Asset>, posts: seq<Post>, doc: Document)
    ensures Accepted(profile, posts, doc) <==>
            && (forall e :: e in doc ==> Authenticates(profile, e))
            && (forall s :: s in Substitutions(doc) ==> AsFound(posts, s) != AsLeft(posts, s))
  {
    hide AssetState, PostState, Authenticates, AsFound, AsLeft, Substitutions;
    forall e | e in doc ensures AssetState(profile, e) != Third <==> Authenticates(profile, e) {
      EntryAcceptedIff(profile, e);
    }
    forall s | s in Substitutions(doc) ensures PostState(posts, s) != Third <==> AsFound(posts, s) != AsLeft(posts, s) {
      SubstitutionStateIs(posts, s);
    }
  }

  // ----- what an accepted collapse does, in records -----

  /** Without looking at the states: of an accepted profile every retired id goes, and nothing else. */
  lemma CollapsedProfileIs(profile: seq<Asset>, posts: seq<Post>, doc: Document)
    requires Accepted(profile, posts, doc)
    ensures forall a :: a in CollapsedProfile(profile, doc) <==> a in profile && forall e :: e in doc ==> e.retiredId != a.id
  {
    hide Accepted, AssetState;
    forall a ensures a in CollapsedProfile(profile, doc) <==> a in profile && forall e :: e in doc ==> e.retiredId != a.id {
      WithoutMembers(profile, RetiredNow(profile, doc), a);
      if a in profile {
        forall e | e in doc && e.retiredId == a.id ensures a.id in RetiredNow(profile, doc) {
          HeldIsPending(profile, posts, doc, e, a);
        }
      }
    }
  }

  lemma HeldIsPending(profile: seq<Asset>, posts: seq<Post>, doc: Document, e: Entry, a: Asset)
    requires Accepted(profile, posts, doc) && e in doc && a in profile && a.id == e.retiredId
    ensures AssetState(profile, e) == Pending && FindAsset(profile, e.retiredId) == Some(e.retired)
  {
    assert a.id in AssetIds(profile);
    assert AssetState(profile, e) != Third;
    hide FindAsset, Losses, PostState;
  }

  /** The kept records stay in their order, with their repetitions. */
  lemma {:induction false} KeptInOrder(profile: seq<Asset>, ids: set<string>) returns (at: seq<nat>)
    ensures |at| == |Without(profile, ids)|
    ensures forall k :: 0 <= k < |at| ==> at[k] < |profile| && Without(profile, ids)[k] == profile[at[k]] && profile[at[k]].id !in ids
    ensures forall k, l :: 0 <= k < l < |at| ==> at[k] < at[l]
    ensures forall i :: 0 <= i < |profile| && profile[i].id !in ids ==> i in at
    decreases |profile|
  {
    if profile == [] {
      at := [];
    } else {
      var n := |profile| - 1;
      at := KeptInOrder(profile[..n], ids);
      WithoutSnoc(profile[..n], profile[n], ids);
      assert profile == profile[..n] + [profile[n]];
      if profile[n].id !in ids { at := at + [n]; }
    }
  }

  /** The record is the one an entry of the document retires. */
  ghost predicate IsAuthenticated(doc: Document, a: Asset) {
    exists e :: e in doc && e.retiredId == a.id && e.retired == a
  }

  /** What is removed is what the document authenticated, exactly where no two different records share a retired id. */
  lemma RemovedAreAuthenticatedIff(profile: seq<Asset>, posts: seq<Post>, doc: Document)
    requires Accepted(profile, posts, doc) && forall i, j :: 0 <= i < j < |doc| ==> doc[i].retiredId != doc[j].retiredId
    ensures (forall a :: a in profile && a !in CollapsedProfile(profile, doc) ==> IsAuthenticated(doc, a)) <==>
            forall a, b :: a in profile && b in profile && a.id == b.id && a.id in RetiredIds(doc) ==> a == b
  {
    hide *;
    CollapsedProfileIs(profile, posts, doc);
    var after := CollapsedProfile(profile, doc);
    RetiredIdsAre(doc);
    if forall a, b :: a in profile && b in profile && a.id == b.id && a.id in RetiredIds(doc) ==> a == b {
      forall a | a in profile && a !in after ensures IsAuthenticated(doc, a) {
        var e :| e in doc && e.retiredId == a.id;
        RemovedIsAuthenticated(profile, posts, doc, e, a);
      }
    }
    if forall a :: a in profile && a !in after ==> IsAuthenticated(doc, a) {
      forall a, b | a in profile && b in profile && a.id == b.id && a.id in RetiredIds(doc) ensures a == b {
        var e :| e in doc && e.retiredId == a.id;
        assert a !in after && b !in after;
        BothAuthenticated(doc, a, b);
      }
    }
  }

  lemma RetiredIdsAre(doc: Document)
    ensures forall id :: id in RetiredIds(doc) <==> exists e :: e in doc && e.retiredId == id
  {
  }

  lemma RemovedIsAuthenticated(profile: seq<Asset>, posts: seq<Post>, doc: Document, e: Entry, a: Asset)
    requires Accepted(profile, posts, doc) && e in doc && a in profile && a.id == e.retiredId
    requires forall b :: b in profile && b.id == a.id ==> a == b
    ensures IsAuthenticated(doc, a)
  {
    hide Accepted, AssetState;
    HeldIsPending(profile, posts, doc, e, a);
    assert e.retired in profile && e.retired.id == a.id;
  }

  lemma BothAuthenticated(doc: Document, a: Asset, b: Asset)
    requires a.id == b.id && IsAuthenticated(doc, a) && IsAuthenticated(doc, b)
    requires forall i, j :: 0 <= i < j < |doc| ==> doc[i].retiredId != doc[j].retiredId
    ensures a == b
  {
    var f :| f in doc && f.retiredId == a.id && f.retired == a;
    var g :| g in doc && g.retiredId == b.id && g.retired == b;
    SameRetirement(doc, f, g);
  }

  lemma SameRetirement(doc: Document, f: Entry, g: Entry)
    requires f in doc && g in doc && f.retiredId == g.retiredId
    requires forall i, j :: 0 <= i < j < |doc| ==> doc[i].retiredId != doc[j].retiredId
    ensures f == g
  {
  }

  /** The posts afterwards, on posts with one id each: one that a substitution found takes its new members, and its new id
      if it has one, and keeps the rest; every other post is untouched. */
  lemma CollapsedPostsAre(profile: seq<Asset>, posts: seq<Post>, doc: Document, i: nat)
    requires UniquePosts(posts) && DocumentParses(doc) && Accepted(profile, posts, doc) && i < |posts|
    ensures |CollapsedPosts(posts, doc)| == |posts|
    ensures forall s :: s in Substitutions(doc) && s.postId == posts[i].id && s.oldMembers == posts[i].members ==>
              CollapsedPosts(posts, doc)[i] ==
              Post(if s.newId.Some? then s.newId.value else s.postId, s.newMembers, posts[i].other)
    ensures (forall s :: s in Substitutions(doc) ==> s.postId != posts[i].id || s.oldMembers != posts[i].members) ==>
              CollapsedPosts(posts, doc)[i] == posts[i]
  {
    var (subs, after) := (Substitutions(doc), CollapsedPosts(posts, doc));
    ParsedSubstitutions(doc);
    CollapseConverts(posts, doc);
    assert forall s :: s in subs ==> PostState(posts, s) != Third;
    hide CollapsedPosts, DocumentParses, Accepted, Substitutions, PostState;
    forall s | s in subs && s.postId == posts[i].id ensures PostState(posts, s) == Pending <==> s.oldMembers == posts[i].members {
      FoundIsPending(posts, s, i);
    }
  }

  lemma FoundIsPending(posts: seq<Post>, s: Substitution, i: nat)
    requires UniquePosts(posts) && i < |posts| && posts[i].id == s.postId && PostState(posts, s) != Third
    requires s.oldMembers != s.newMembers && s.newId != Some(s.postId)
    ensures PostState(posts, s) == Pending <==> s.oldMembers == posts[i].members
  {
    LastPostUnique(posts, i);
    hide LastPost;
  }

  /** Nothing dangles. A post that a substitution finds holds the retired id; afterwards it does not, and it holds the survivor,
      whose record is there; no record of the retired id is. */
  lemma NothingDangles(profile: seq<Asset>, posts: seq<Post>, doc: Document, e: Entry, s: Substitution, i: nat)
    requires UniquePosts(posts) && DocumentParses(doc) && Accepted(profile, posts, doc)
    requires e in doc && s in e.substitutions && i < |posts| && posts[i].id == s.postId && posts[i].members == s.oldMembers
    ensures e.retiredId in posts[i].members && i < |CollapsedPosts(posts, doc)|
    ensures var p := CollapsedPosts(posts, doc)[i]; e.retiredId !in p.members && e.survivorId in p.members
    ensures var after := CollapsedProfile(profile, doc);
            (exists a :: a in after && a.id == e.survivorId) && forall a :: a in after ==> a.id != e.retiredId
  {
    EntrysSubstitutions(doc, e, s);
    CollapsedPostsAre(profile, posts, doc, i);
    CollapsedProfileIs(profile, posts, doc);
    SurvivorHeld(profile, posts, doc, e);
    assert SubstitutionParses(s, e);
    hide Accepted, CollapsedProfile, CollapsedPosts, UniquePosts, Substitutions;
  }

  lemma SurvivorHeld(profile: seq<Asset>, posts: seq<Post>, doc: Document, e: Entry)
    requires Accepted(profile, posts, doc) && e in doc
    ensures exists a :: a in profile && a.id == e.survivorId
  {
    assert AssetState(profile, e) != Third;
    hide PostState, Losses;
    var a := FindAsset(profile, e.survivorId);
    assert a.Some?;
  }

  lemma {:induction false} EntrysSubstitutions(doc: Document, e: Entry, s: Substitution)
    requires e in doc && s in e.substitutions
    ensures s in Substitutions(doc)
  {
    if doc[0] != e { EntrysSubstitutions(doc[1..], e, s); }
  }

  /** The count of posts that move is that of the substitutions with a new id. */
  lemma {:induction false} RenamesAre(subs: seq<Substitution>)
    ensures Renames(subs) == |set i | 0 <= i < |subs| && subs[i].newId.Some?|
    decreases |subs|
  {
    if subs != [] {
      var n := |subs| - 1;
      RenamesAre(subs[..n]);
      var (before, after) := (set i | 0 <= i < n && subs[..n][i].newId.Some?, set i | 0 <= i < |subs| && subs[i].newId.Some?);
      assert after == before + if subs[n].newId.Some? then {n} else {};
    }
  }
}
