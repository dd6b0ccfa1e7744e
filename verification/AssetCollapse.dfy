/** The retirement state machine of `seed/scripts/asset_collapse.py`: every object is judged before any is changed, and
    may only go from Pending to Applied. */
module AssetCollapse {
  import opened Sequences
  import opened LossEnumeration
  import opened Catalogue

  /** One post whose membership a retirement rewrites; `newId` when its id moves with the membership. */
  datatype Substitution = Substitution(postId: string, oldMembers: seq<string>, newMembers: seq<string>, newId: Option<string>) {
    function AppliedId(): string {
      if newId.Some? then newId.value else postId
    }
  }

  datatype Entry = Entry(retiredId: string, survivorId: string, retired: Asset, losses: LossMap, substitutions: seq<Substitution>)

  type Document = seq<Entry>

  datatype ObjectState = Pending | Applied | Third

  // ----- reading the document -----

  /** What `_parse_substitution` requires of one substitution. */
  predicate SubstitutionParses(s: Substitution, e: Entry) {
    && s.oldMembers != [] && s.newMembers != [] && s.oldMembers != s.newMembers
    && e.retiredId in s.oldMembers && e.retiredId !in s.newMembers && e.survivorId in s.newMembers
    && s.newId != Some(s.postId)
  }

  /** The substitutions of a document, entry by entry. */
  function Substitutions(doc: Document): seq<Substitution> {
    if doc == [] then [] else doc[0].substitutions + Substitutions(doc[1..])
  }

  function RetiredIds(doc: Document): set<string> {
    set e | e in doc :: e.retiredId
  }

  /** The checks of `parse_collapse_document`, within and across entries. Only `postId` is required to be unique. */
  ghost predicate DocumentParses(doc: Document) {
    && (forall e :: e in doc ==> e.retiredId != e.survivorId && e.retired.id == e.retiredId)
    && (forall e, s :: e in doc && s in e.substitutions ==> SubstitutionParses(s, e))
    && (forall i, j :: 0 <= i < j < |doc| ==> doc[i].retiredId != doc[j].retiredId)
    && (forall e, f :: e in doc && f in doc ==> e.retiredId != f.survivorId)
    && var subs := Substitutions(doc);
       forall i, j :: 0 <= i < j < |subs| ==> subs[i].postId != subs[j].postId
  }

  // ----- judging -----

  function AssetState(profile: seq<Asset>, e: Entry): ObjectState {
    var survivor := FindAsset(profile, e.survivorId);
    if survivor.None? || e.losses != Losses(AsJson(e.retired), Some(AsJson(survivor.value))) then Third
    else
      var retired := FindAsset(profile, e.retiredId);
      if retired.None? then Applied else if retired.value == e.retired then Pending else Third
  }

  predicate Holds(posts: seq<Post>, id: string, members: seq<string>) {
    var i := LastPost(posts, id);
    i < |posts| && posts[i].members == members
  }

  function PostState(posts: seq<Post>, s: Substitution): ObjectState {
    var isPending := Holds(posts, s.postId, s.oldMembers);
    var isApplied := Holds(posts, s.AppliedId(), s.newMembers) && (s.AppliedId() == s.postId || s.postId !in PostIds(posts));
    if isPending && !isApplied then Pending else if isApplied && !isPending then Applied else Third
  }

  /** `evaluate` raises nothing: no object is in a third state. */
  predicate Accepted(profile: seq<Asset>, posts: seq<Post>, doc: Document) {
    && (forall e :: e in doc ==> AssetState(profile, e) != Third)
    && (forall s :: s in Substitutions(doc) ==> PostState(posts, s) != Third)
  }

  /** Every object is in the state the document asks for. */
  predicate Settled(profile: seq<Asset>, posts: seq<Post>, doc: Document) {
    && (forall e :: e in doc ==> AssetState(profile, e) == Applied)
    && (forall s :: s in Substitutions(doc) ==> PostState(posts, s) == Applied)
  }

  // ----- applying -----

  /** The ids retired now. */
  function RetiredNow(profile: seq<Asset>, doc: Document): set<string> {
    set e | e in doc && AssetState(profile, e) == Pending :: e.retiredId
  }

  function Survives(a: Asset, ids: set<string>): seq<Asset> {
    if a.id in ids then [] else [a]
  }

  function Without(profile: seq<Asset>, ids: set<string>): seq<Asset> {
    if profile == [] then []
    else Survives(profile[0], ids) + Without(profile[1..], ids)
  }

  /** The pending substitutions, in document order. */
  function PendingIn(posts: seq<Post>, subs: seq<Substitution>): seq<Substitution> {
    if subs == [] then []
    else (if PostState(posts, subs[0]) == Pending then [subs[0]] else []) + PendingIn(posts, subs[1..])
  }

  function Rewrite(p: Post, s: Substitution): Post {
    p.(members := s.newMembers, id := s.AppliedId())
  }

  /** The posts, each pending substitution having rewritten the post that held its id when the stage began. */
  function RewriteAll(posts: seq<Post>, original: seq<Post>, subs: seq<Substitution>): seq<Post>
    decreases |subs|
  {
    if subs == [] then posts
    else
      var i := LastPost(original, subs[0].postId);
      RewriteAll(if i < |posts| then posts[i := Rewrite(posts[i], subs[0])] else posts, original, subs[1..])
  }

  /** How many of the substitutions move their post to a new id. */
  function Renames(subs: seq<Substitution>): nat
    decreases |subs|
  {
    if subs == [] then 0 else Renames(subs[..|subs| - 1]) + if subs[|subs| - 1].newId.Some? then 1 else 0
  }

  /** What `apply_collapse` makes of an accepted profile and its posts. */
  function CollapsedProfile(profile: seq<Asset>, doc: Document): seq<Asset> {
    Without(profile, RetiredNow(profile, doc))
  }

  function CollapsedPosts(posts: seq<Post>, doc: Document): seq<Post> {
    RewriteAll(posts, posts, PendingIn(posts, Substitutions(doc)))
  }

  /** `evaluate`: every object is judged, entry by entry; what is pending is collected for the caller. */
  method Evaluate(profile: seq<Asset>, posts: seq<Post>, doc: Document)
    returns (accepted: bool, retireNow: set<string>, pending: seq<Substitution>)
    ensures accepted == Accepted(profile, posts, doc)
    ensures accepted ==> retireNow == RetiredNow(profile, doc) && pending == PendingIn(posts, Substitutions(doc))
  {
    hide AssetState, PostState;
    accepted, retireNow, pending := true, {}, [];
    assert doc[0..] == doc;
    for i := 0 to |doc|
      invariant accepted == Accepted(profile, posts, doc[..i])
      invariant retireNow == RetiredNow(profile, doc[..i])
      invariant accepted ==> pending == PendingIn(posts, Substitutions(doc[..i]))
    {
      var e := doc[i];
      SubstitutionsSnoc(doc[..i], e);
      PendingAppend(posts, Substitutions(doc[..i]), e.substitutions);
      assert doc[..i + 1] == doc[..i] + [e];
      AcceptedSnoc(profile, posts, doc[..i], e);
      RetiredSnoc(profile, doc[..i], e);
      if AssetState(profile, e) == Third {
        accepted := false;
      } else {
        if AssetState(profile, e) == Pending {
          retireNow := retireNow + {e.retiredId};
        }
        ghost var (wasAccepted, before) := (accepted, pending);
        for j := 0 to |e.substitutions|
          invariant accepted == (wasAccepted && forall s :: s in e.substitutions[..j] ==> PostState(posts, s) != Third)
          invariant accepted ==> pending == before + PendingIn(posts, e.substitutions[..j])
        {
          var s := e.substitutions[j];
          PendingAppend(posts, e.substitutions[..j], [s]);
          assert e.substitutions[..j + 1] == e.substitutions[..j] + [s];
          SingletonPending(posts, s);
          Associative(before, PendingIn(posts, e.substitutions[..j]), PendingIn(posts, [s]));
          match PostState(posts, s)
          case Third => accepted := false;
          case Pending => pending := pending + [s];
          case Applied =>
        }
        assert e.substitutions[..|e.substitutions|] == e.substitutions;
      }
    }
    assert doc[..|doc|] == doc;
  }

  /** `apply_collapse`: a third state changes nothing; otherwise every pending object is converted. */
  method ApplyCollapse(w: Workspace, doc: Document) returns (accepted: bool, removed: nat, rewritten: nat, renamed: nat)
    modifies w
    ensures accepted == Accepted(old(w.profile), old(w.posts), doc)
    ensures !accepted ==> w.profile == old(w.profile) && w.posts == old(w.posts)
    ensures accepted ==> w.profile == CollapsedProfile(old(w.profile), doc) && w.posts == CollapsedPosts(old(w.posts), doc)
    ensures accepted ==> removed == |old(w.profile)| - |w.profile|
    ensures accepted ==> var pending := PendingIn(old(w.posts), Substitutions(doc)); rewritten == |pending| && renamed == Renames(pending)
  {
    hide *;
    removed, rewritten, renamed := 0, 0, 0;
    var retireNow: set<string>, subs: seq<Substitution>;
    accepted, retireNow, subs := Evaluate(w.profile, w.posts, doc);
    if accepted {
      AfterCollapse(w.profile, w.posts, doc);
      removed := Retire(w, retireNow);
      rewritten, renamed := Substitute(w, subs);
    }
  }

  lemma AfterCollapse(profile: seq<Asset>, posts: seq<Post>, doc: Document)
    ensures CollapsedProfile(profile, doc) == Without(profile, RetiredNow(profile, doc))
    ensures CollapsedPosts(posts, doc) == RewriteAll(posts, posts, PendingIn(posts, Substitutions(doc)))
  {
  }

  method Retire(w: Workspace, retireNow: set<string>) returns (removed: nat)
    modifies w`profile
    ensures w.profile == Without(old(w.profile), retireNow) && removed == |old(w.profile)| - |w.profile|
  {
    hide Without, Survives;
    removed := 0;
    WithoutNothing(w.profile);
    if retireNow != {} {
      var before := |w.profile|;
      var kept: seq<Asset> := [];
      assert w.profile[0..] == w.profile;
      for i := 0 to |w.profile|
        invariant w.profile == old(w.profile)
        invariant Without(w.profile, retireNow) == kept + Without(w.profile[i..], retireNow)
      {
        WithoutStep(w.profile, retireNow, i, kept);
        if w.profile[i].id !in retireNow {
          kept := kept + [w.profile[i]];
        }
      }
      WithoutEnd(w.profile, retireNow, kept);
      w.profile := kept;
      WithoutShorter(old(w.profile), retireNow);
      removed := before - |w.profile|;
    }
  }

  lemma WithoutStep(profile: seq<Asset>, ids: set<string>, i: nat, kept: seq<Asset>)
    requires i < |profile|
    ensures profile[i].id in ids ==> kept + Without(profile[i..], ids) == kept + Without(profile[i + 1..], ids)
    ensures profile[i].id !in ids ==> kept + Without(profile[i..], ids) == kept + [profile[i]] + Without(profile[i + 1..], ids)
  {
    assert profile[i..][1..] == profile[i + 1..];
    Associative(kept, [profile[i]], Without(profile[i + 1..], ids));
  }

  lemma WithoutEnd(profile: seq<Asset>, ids: set<string>, kept: seq<Asset>)
    ensures kept + Without(profile[|profile|..], ids) == kept
  {
  }

  method Substitute(w: Workspace, subs: seq<Substitution>) returns (rewritten: nat, renamed: nat)
    modifies w`posts
    ensures w.posts == RewriteAll(old(w.posts), old(w.posts), subs) && rewritten == |subs| && renamed == Renames(subs)
  {
    hide LastPost, Rewrite;
    rewritten, renamed := 0, 0;
    var original := w.posts;
    for j := 0 to |subs|
      invariant |w.posts| == |original| && rewritten == j && renamed == Renames(subs[..j])
      invariant RewriteAll(original, original, subs) == RewriteAll(w.posts, original, subs[j..])
    {
      assert subs[j..][0] == subs[j] && subs[j..][1..] == subs[j + 1..] && subs[..j + 1][..j] == subs[..j];
      var i := LastPost(original, subs[j].postId);
      if i < |w.posts| {
        w.posts := w.posts[i := Rewrite(w.posts[i], subs[j])];
      }
      rewritten := rewritten + 1;
      if subs[j].newId.Some? {
        renamed := renamed + 1;
      }
    }
    assert subs[..|subs|] == subs;
  }

  lemma {:induction false} SubstitutionsSnoc(doc: Document, e: Entry)
    ensures Substitutions(doc + [e]) == Substitutions(doc) + e.substitutions
  {
    if doc == [] {
      assert doc + [e] == [e] && [e][1..] == [];
    } else {
      SubstitutionsSnoc(doc[1..], e);
      assert (doc + [e])[0] == doc[0] && (doc + [e])[1..] == doc[1..] + [e];
      Associative(doc[0].substitutions, Substitutions(doc[1..]), e.substitutions);
    }
  }

  lemma {:induction false} PendingAppend(posts: seq<Post>, a: seq<Substitution>, b: seq<Substitution>)
    ensures PendingIn(posts, a + b) == PendingIn(posts, a) + PendingIn(posts, b)
  {
    hide PostState;
    if a == [] {
      assert a + b == b;
    } else {
      PendingAppend(posts, a[1..], b);
      assert (a + b)[0] == a[0] && (a + b)[1..] == a[1..] + b;
    }
  }

  lemma SingletonPending(posts: seq<Post>, s: Substitution)
    ensures PendingIn(posts, [s]) == if PostState(posts, s) == Pending then [s] else []
  {
    hide PostState;
    assert [s][1..] == [];
  }

  lemma AcceptedSnoc(profile: seq<Asset>, posts: seq<Post>, doc: Document, e: Entry)
    ensures Accepted(profile, posts, doc + [e]) <==>
            && Accepted(profile, posts, doc) && AssetState(profile, e) != Third
            && forall s :: s in e.substitutions ==> PostState(posts, s) != Third
  {
    hide AssetState, PostState;
    SubstitutionsSnoc(doc, e);
    assert e in doc + [e];
  }

  lemma RetiredSnoc(profile: seq<Asset>, doc: Document, e: Entry)
    ensures RetiredNow(profile, doc + [e]) == RetiredNow(profile, doc) + if AssetState(profile, e) == Pending then {e.retiredId} else {}
  {
    hide AssetState;
  }

  lemma {:induction false} WithoutShorter(profile: seq<Asset>, ids: set<string>)
    ensures |Without(profile, ids)| <= |profile|
  {
    if profile != [] { WithoutShorter(profile[1..], ids); }
  }

  lemma {:induction false} WithoutNothing(profile: seq<Asset>)
    ensures Without(profile, {}) == profile
  {
    if profile != [] {
      WithoutNothing(profile[1..]);
      assert profile == [profile[0]] + profile[1..];
    }
  }

  lemma {:induction false} FindWithout(profile: seq<Asset>, ids: set<string>, id: string)
    ensures FindAsset(Without(profile, ids), id) == if id in ids then None else FindAsset(profile, id)
  {
    if profile != [] {
      var n := |profile| - 1;
      FindWithout(profile[..n], ids, id);
      WithoutSnoc(profile[..n], profile[n], ids);
      assert profile == profile[..n] + [profile[n]];
      FindSnoc(profile[..n], profile[n], id);
      FindSnoc(Without(profile[..n], ids), profile[n], id);
      hide Without, FindAsset;
      assert Without(profile[..n], ids) + [] == Without(profile[..n], ids);
    }
  }

  lemma FindSnoc(profile: seq<Asset>, a: Asset, id: string)
    ensures FindAsset(profile + [a], id) == if a.id == id then Some(a) else FindAsset(profile, id)
  {
    assert (profile + [a])[..|profile|] == profile;
  }

  lemma {:induction false} WithoutSnoc(profile: seq<Asset>, a: Asset, ids: set<string>)
    ensures Without(profile + [a], ids) == Without(profile, ids) + Survives(a, ids)
  {
    hide Survives;
    if profile == [] {
      assert profile + [a] == [a];
      assert [a][1..] == [];
    } else {
      WithoutSnoc(profile[1..], a, ids);
      assert (profile + [a])[0] == profile[0] && (profile + [a])[1..] == profile[1..] + [a];
      Associative(Survives(profile[0], ids), Without(profile[1..], ids), Survives(a, ids));
    }
  }

  lemma {:induction false} WithoutMembers(profile: seq<Asset>, ids: set<string>, a: Asset)
    ensures a in Without(profile, ids) <==> a in profile && a.id !in ids
  {
    if profile != [] {
      WithoutMembers(profile[1..], ids, a);
      assert profile == [profile[0]] + profile[1..];
    }
  }

  /** After an accepted collapse every retired id is gone, every survivor is present as it was, every asset evaluates as
      Applied, and nothing but the pending records has left the profile. */
  lemma RetiredAreGone(profile: seq<Asset>, posts: seq<Post>, doc: Document)
    requires DocumentParses(doc) && Accepted(profile, posts, doc)
    ensures var after := CollapsedProfile(profile, doc);
            && (forall e :: e in doc ==> e.retiredId !in AssetIds(after) && FindAsset(after, e.survivorId).Some?
                                         && FindAsset(after, e.survivorId) == FindAsset(profile, e.survivorId)
                                         && AssetState(after, e) == Applied)
            && (forall a :: a in after <==> a in profile && a.id !in RetiredNow(profile, doc))
  {
    hide FindAsset, Losses, PostState;
    var gone := RetiredNow(profile, doc);
    forall e | e in doc
      ensures e.retiredId !in AssetIds(CollapsedProfile(profile, doc)) && AssetState(CollapsedProfile(profile, doc), e) == Applied
      ensures FindAsset(CollapsedProfile(profile, doc), e.survivorId) == FindAsset(profile, e.survivorId)
      ensures FindAsset(profile, e.survivorId).Some?
    {
      assert AssetState(profile, e) != Third;
      if AssetState(profile, e) == Pending { assert e.retiredId in gone; }
      assert e.survivorId !in gone;
      FindWithout(profile, gone, e.retiredId);
      FindWithout(profile, gone, e.survivorId);
    }
    forall a ensures a in CollapsedProfile(profile, doc) <==> a in profile && a.id !in gone {
      WithoutMembers(profile, gone, a);
    }
  }

  /** Applied objects are left alone: on a settled profile the stage is a no-op. */
  lemma SettledIsFixed(profile: seq<Asset>, posts: seq<Post>, doc: Document)
    requires Settled(profile, posts, doc)
    ensures Accepted(profile, posts, doc)
    ensures CollapsedProfile(profile, doc) == profile && CollapsedPosts(posts, doc) == posts
  {
    hide AssetState, PostState;
    assert RetiredNow(profile, doc) == {};
    WithoutNothing(profile);
    NonePending(posts, Substitutions(doc));
  }

  lemma {:induction false} NonePending(posts: seq<Post>, subs: seq<Substitution>)
    requires forall s :: s in subs ==> PostState(posts, s) != Pending
    ensures PendingIn(posts, subs) == []
  {
    hide PostState;
    if subs != [] { NonePending(posts, subs[1..]); }
  }

  // ----- what an accepted collapse leaves behind -----

  /** The ids whose post is rewritten now. */
  function PendingIds(posts: seq<Post>, subs: seq<Substitution>): set<string> {
    set s | s in subs && PostState(posts, s) == Pending :: s.postId
  }

  ghost predicate OnePerPost(subs: seq<Substitution>) {
    forall i, j :: 0 <= i < j < |subs| ==> subs[i].postId != subs[j].postId
  }

  /** The pending substitutions have rewritten exactly the posts they name. */
  ghost predicate Converted(posts: seq<Post>, after: seq<Post>, subs: seq<Substitution>) {
    && |after| == |posts|
    && (forall i, s :: 0 <= i < |posts| && s in subs && PostState(posts, s) == Pending && posts[i].id == s.postId
                       ==> after[i] == Rewrite(posts[i], s))
    && (forall i :: 0 <= i < |posts| && posts[i].id !in PendingIds(posts, subs) ==> after[i] == posts[i])
  }

  lemma {:induction false} PendingMembers(posts: seq<Post>, subs: seq<Substitution>, s: Substitution)
    ensures s in PendingIn(posts, subs) <==> s in subs && PostState(posts, s) == Pending
  {
    hide PostState;
    if subs != [] {
      PendingMembers(posts, subs[1..], s);
      assert subs == [subs[0]] + subs[1..];
    }
  }

  lemma {:induction false} PendingDistinct(posts: seq<Post>, subs: seq<Substitution>)
    requires OnePerPost(subs)
    ensures OnePerPost(PendingIn(posts, subs))
  {
    hide PostState;
    if subs != [] {
      PendingDistinct(posts, subs[1..]);
      var rest := PendingIn(posts, subs[1..]);
      forall s | s in rest ensures s.postId != subs[0].postId {
        PendingMembers(posts, subs[1..], s);
      }
    }
  }

  lemma {:induction false} RewrittenAt(posts: seq<Post>, original: seq<Post>, subs: seq<Substitution>, i: nat)
    requires |posts| == |original| && i < |posts| && UniquePosts(original) && OnePerPost(subs)
    ensures |RewriteAll(posts, original, subs)| == |posts|
    ensures forall s :: s in subs && s.postId == original[i].id ==> RewriteAll(posts, original, subs)[i] == Rewrite(posts[i], s)
    ensures (forall s :: s in subs ==> s.postId != original[i].id) ==> RewriteAll(posts, original, subs)[i] == posts[i]
    decreases |subs|
  {
    if subs != [] {
      var s := subs[0];
      var k := LastPost(original, s.postId);
      var next := if k < |posts| then posts[k := Rewrite(posts[k], s)] else posts;
      RewrittenAt(next, original, subs[1..], i);
      assert s.postId == original[i].id <==> k == i by { LastPostUnique(original, i); }
      assert subs == [s] + subs[1..];
    }
  }

  lemma CollapseConverts(posts: seq<Post>, doc: Document)
    requires UniquePosts(posts) && OnePerPost(Substitutions(doc))
    ensures Converted(posts, CollapsedPosts(posts, doc), Substitutions(doc))
  {
    hide PostState, RewriteAll;
    var subs := Substitutions(doc);
    var pending := PendingIn(posts, subs);
    PendingDistinct(posts, subs);
    forall s ensures s in pending <==> s in subs && PostState(posts, s) == Pending {
      PendingMembers(posts, subs, s);
    }
    var after := RewriteAll(posts, posts, pending);
    SameLength(posts, posts, pending);
    forall i | 0 <= i < |posts|
      ensures posts[i].id !in PendingIds(posts, subs) ==> after[i] == posts[i]
    {
      RewrittenAt(posts, posts, pending, i);
    }
    forall i, s | 0 <= i < |posts| && s in subs && PostState(posts, s) == Pending && posts[i].id == s.postId
      ensures after[i] == Rewrite(posts[i], s)
    {
      RewrittenAt(posts, posts, pending, i);
    }
  }

  lemma {:induction false} SameLength(posts: seq<Post>, original: seq<Post>, subs: seq<Substitution>)
    ensures |RewriteAll(posts, original, subs)| == |posts|
    decreases |subs|
  {
    if subs != [] {
      var i := LastPost(original, subs[0].postId);
      SameLength(if i < |posts| then posts[i := Rewrite(posts[i], subs[0])] else posts, original, subs[1..]);
    }
  }

  /** What the caller would have to check of the new ids, and the parser does not: a pending substitution moves its post
      to an id no post holds, no two to the same id, and no chain of substitutions is half done. */
  ghost predicate FreshIds(posts: seq<Post>, subs: seq<Substitution>) {
    && (forall s :: s in subs && PostState(posts, s) == Pending && s.newId.Some? ==> s.newId.value !in PostIds(posts))
    && (forall s, t :: s in subs && t in subs && s.newId == Some(t.postId)
                       ==> PostState(posts, s) != Pending && PostState(posts, t) != Pending)
    && (forall s, t :: (s in subs && t in subs && s != t && PostState(posts, s) == Pending && PostState(posts, t) == Pending
                        && s.newId.Some?) ==> s.newId != t.newId)
  }

  /** Every substitution is Applied. */
  ghost predicate PostsSettled(posts: seq<Post>, subs: seq<Substitution>) {
    forall s :: s in subs ==> PostState(posts, s) == Applied
  }

  ghost predicate HasPost(posts: seq<Post>, id: string, members: seq<string>) {
    exists i :: 0 <= i < |posts| && posts[i].id == id && posts[i].members == members
  }

  /** What the parser guarantees of every substitution, as far as its states are told apart. */
  ghost predicate WellFormed(subs: seq<Substitution>) {
    OnePerPost(subs) && forall s :: s in subs ==> s.oldMembers != s.newMembers && s.newId != Some(s.postId)
  }

  lemma HeldOnce(posts: seq<Post>, id: string, members: seq<string>)
    requires UniquePosts(posts)
    ensures HasPost(posts, id, members) <==> Holds(posts, id, members)
  {
    if HasPost(posts, id, members) {
      var i :| 0 <= i < |posts| && posts[i].id == id && posts[i].members == members;
      LastPostUnique(posts, i);
    }
  }

  /** `PostState` where every post id is held once. */
  lemma StateOf(posts: seq<Post>, s: Substitution)
    requires UniquePosts(posts) && s.oldMembers != s.newMembers && s.newId != Some(s.postId)
    ensures PostState(posts, s) == Pending ==> HasPost(posts, s.postId, s.oldMembers)
    ensures PostState(posts, s) == Applied <==>
            HasPost(posts, s.AppliedId(), s.newMembers) && (s.newId.Some? ==> s.postId !in PostIds(posts))
  {
    HeldOnce(posts, s.AppliedId(), s.newMembers);
    HeldOnce(posts, s.postId, s.oldMembers);
  }

  /** How one post comes out. */
  lemma AfterCase(posts: seq<Post>, after: seq<Post>, subs: seq<Substitution>, i: nat) returns (s: Option<Substitution>)
    requires Converted(posts, after, subs) && i < |posts|
    ensures s.None? ==> after[i] == posts[i] && posts[i].id !in PendingIds(posts, subs)
    ensures s.Some? ==> s.value in subs && PostState(posts, s.value) == Pending && posts[i].id == s.value.postId
                        && after[i] == Rewrite(posts[i], s.value)
  {
    hide PostState;
    if posts[i].id in PendingIds(posts, subs) {
      var t :| t in subs && PostState(posts, t) == Pending && posts[i].id == t.postId;
      s := Some(t);
    } else {
      s := None;
    }
  }

  lemma SamePost(subs: seq<Substitution>, s: Substitution, t: Substitution)
    requires OnePerPost(subs) && s in subs && t in subs && s.postId == t.postId
    ensures s == t
  {
  }

  /** Fresh ids: the posts keep one id each. */
  lemma FreshStaysUnique(posts: seq<Post>, after: seq<Post>, subs: seq<Substitution>)
    requires UniquePosts(posts) && WellFormed(subs) && Converted(posts, after, subs) && FreshIds(posts, subs)
    ensures UniquePosts(after)
  {
    forall i, j | 0 <= i < j < |after| ensures after[i].id != after[j].id {
      var s := AfterCase(posts, after, subs, i);
      var t := AfterCase(posts, after, subs, j);
      hide PostState, Converted;
      assert posts[i].id in PostIds(posts) && posts[j].id in PostIds(posts);
    }
  }

  /** Fresh ids: no post is left with an id that has moved. */
  lemma OldIdGone(posts: seq<Post>, after: seq<Post>, subs: seq<Substitution>, s: Substitution)
    requires WellFormed(subs) && Converted(posts, after, subs) && FreshIds(posts, subs)
    requires s in subs && s.newId.Some? && (PostState(posts, s) == Pending || s.postId !in PostIds(posts))
    ensures s.postId !in PostIds(after)
  {
    forall j | 0 <= j < |after| ensures after[j].id != s.postId {
      var t := AfterCase(posts, after, subs, j);
      hide PostState, Converted;
      assert posts[j].id in PostIds(posts);
    }
  }

  /** Fresh ids: a pending substitution comes out Applied. */
  lemma FreshPendingSettles(posts: seq<Post>, after: seq<Post>, subs: seq<Substitution>, s: Substitution)
    requires UniquePosts(posts) && UniquePosts(after) && WellFormed(subs) && Converted(posts, after, subs) && FreshIds(posts, subs)
    requires s in subs && PostState(posts, s) == Pending
    ensures PostState(after, s) == Applied
  {
    StateOf(posts, s);
    StateOf(after, s);
    hide PostState;
    var i :| 0 <= i < |posts| && posts[i].id == s.postId && posts[i].members == s.oldMembers;
    assert after[i] == Rewrite(posts[i], s);
    if s.newId.Some? { OldIdGone(posts, after, subs, s); }
  }

  /** Fresh ids: an Applied substitution stays Applied. */
  lemma FreshAppliedStays(posts: seq<Post>, after: seq<Post>, subs: seq<Substitution>, s: Substitution)
    requires UniquePosts(posts) && UniquePosts(after) && WellFormed(subs) && Converted(posts, after, subs) && FreshIds(posts, subs)
    requires s in subs && PostState(posts, s) == Applied
    ensures PostState(after, s) == Applied
  {
    StateOf(posts, s);
    StateOf(after, s);
    hide PostState;
    var i :| 0 <= i < |posts| && posts[i].id == s.AppliedId() && posts[i].members == s.newMembers;
    var r := AfterCase(posts, after, subs, i);
    if r.Some? && s.newId.None? { SamePost(subs, s, r.value); }
    assert r.None?;
    if s.newId.Some? { OldIdGone(posts, after, subs, s); }
  }

  /** Settled afterwards, with one post per id: then the new ids were fresh. */
  lemma SettledWasFresh(posts: seq<Post>, after: seq<Post>, subs: seq<Substitution>)
    requires UniquePosts(posts) && WellFormed(subs) && Converted(posts, after, subs)
    requires forall s :: s in subs ==> PostState(posts, s) != Third
    requires UniquePosts(after) && PostsSettled(after, subs)
    ensures FreshIds(posts, subs)
  {
    forall s | s in subs && PostState(posts, s) == Pending && s.newId.Some? ensures s.newId.value !in PostIds(posts) {
      MovedToFree(posts, after, subs, s);
    }
    forall s, t | s in subs && t in subs && s.newId == Some(t.postId)
      ensures PostState(posts, s) != Pending && PostState(posts, t) != Pending
    {
      NoChain(posts, after, subs, s, t);
    }
    forall s, t | s in subs && t in subs && s != t && PostState(posts, s) == Pending && PostState(posts, t) == Pending && s.newId.Some?
      ensures s.newId != t.newId
    {
      StateOf(posts, s);
      StateOf(posts, t);
      hide PostState, FreshIds;
      var i :| 0 <= i < |posts| && posts[i].id == s.postId;
      var j :| 0 <= j < |posts| && posts[j].id == t.postId;
      DifferentPosts(posts, subs, s, t, i, j);
      assert after[i].id == s.newId.value && (t.newId.Some? ==> after[j].id == t.newId.value);
    }
  }

  lemma DifferentPosts(posts: seq<Post>, subs: seq<Substitution>, s: Substitution, t: Substitution, i: nat, j: nat)
    requires OnePerPost(subs) && s in subs && t in subs && s != t
    requires i < |posts| && j < |posts| && posts[i].id == s.postId && posts[j].id == t.postId
    ensures i != j
  {
    if s.postId == t.postId { SamePost(subs, s, t); }
  }

  lemma MovedToFree(posts: seq<Post>, after: seq<Post>, subs: seq<Substitution>, s: Substitution)
    requires UniquePosts(posts) && WellFormed(subs) && Converted(posts, after, subs)
    requires UniquePosts(after) && PostsSettled(after, subs)
    requires s in subs && PostState(posts, s) == Pending && s.newId.Some?
    ensures s.newId.value !in PostIds(posts)
  {
    StateOf(posts, s);
    forall t | t in subs ensures t.newId.Some? ==> t.postId !in PostIds(after) {
      StateOf(after, t);
    }
    hide PostState;
    var i :| 0 <= i < |posts| && posts[i].id == s.postId;
    assert after[i].id == s.newId.value && after[i].id in PostIds(after);
    forall j | 0 <= j < |posts| ensures posts[j].id != s.newId.value {
      var t := AfterCase(posts, after, subs, j);
      assert after[i].id != after[j].id || i == j;
    }
  }

  lemma NoChain(posts: seq<Post>, after: seq<Post>, subs: seq<Substitution>, s: Substitution, t: Substitution)
    requires UniquePosts(posts) && WellFormed(subs) && Converted(posts, after, subs)
    requires forall s :: s in subs ==> PostState(posts, s) != Third
    requires UniquePosts(after) && PostsSettled(after, subs)
    requires s in subs && t in subs && s.newId == Some(t.postId)
    ensures PostState(posts, s) != Pending && PostState(posts, t) != Pending
  {
    StateOf(posts, t);
    StateOf(after, s);
    StateOf(after, t);
    if PostState(posts, s) == Pending { MovedToFree(posts, after, subs, s); }
    hide PostState;
    var k :| 0 <= k < |after| && after[k].id == t.postId && after[k].members == s.newMembers;
    assert after[k].id in PostIds(after);
    assert t.newId.None?;
    assert t.AppliedId() == t.postId;
    var m :| 0 <= m < |after| && after[m].id == t.postId && after[m].members == t.newMembers;
  }

  /** The contract of the stage, exactly: on posts with one id each, an accepted collapse leaves every object Applied and
      one post per id if and only if the ids it moves posts to were fresh. */
  lemma CollapseSettlesIffFresh(profile: seq<Asset>, posts: seq<Post>, doc: Document)
    requires UniquePosts(posts) && DocumentParses(doc) && Accepted(profile, posts, doc)
    ensures var (p, q) := (CollapsedProfile(profile, doc), CollapsedPosts(posts, doc));
            UniquePosts(q) && Settled(p, q, doc) <==> FreshIds(posts, Substitutions(doc))
  {
    var (p, q) := (CollapsedProfile(profile, doc), CollapsedPosts(posts, doc));
    var subs := Substitutions(doc);
    ParsedSubstitutions(doc);
    CollapseConverts(posts, doc);
    RetiredAreGone(profile, posts, doc);
    hide DocumentParses, AssetState, PostState, CollapsedProfile, CollapsedPosts, Converted, FreshIds, WellFormed, UniquePosts, Substitutions;
    if FreshIds(posts, subs) {
      FreshStaysUnique(posts, q, subs);
      forall s | s in subs ensures PostState(q, s) == Applied {
        if PostState(posts, s) == Pending {
          FreshPendingSettles(posts, q, subs, s);
        } else {
          FreshAppliedStays(posts, q, subs, s);
        }
      }
    }
    if UniquePosts(q) && Settled(p, q, doc) {
      SettledWasFresh(posts, q, subs);
    }
  }

  lemma {:induction false} SubstitutionOwner(doc: Document, s: Substitution) returns (e: Entry)
    requires s in Substitutions(doc)
    ensures e in doc && s in e.substitutions
  {
    if s in doc[0].substitutions { e := doc[0]; } else { e := SubstitutionOwner(doc[1..], s); }
  }

  lemma ParsedSubstitutions(doc: Document)
    requires DocumentParses(doc)
    ensures WellFormed(Substitutions(doc))
  {
    forall s | s in Substitutions(doc) ensures s.oldMembers != s.newMembers && s.newId != Some(s.postId) {
      var e := SubstitutionOwner(doc, s);
      assert SubstitutionParses(s, e);
    }
  }

  /** With fresh ids a second application of the same document is accepted and changes nothing. */
  lemma SecondCollapseIsNoOp(profile: seq<Asset>, posts: seq<Post>, doc: Document)
    requires UniquePosts(posts) && DocumentParses(doc) && Accepted(profile, posts, doc) && FreshIds(posts, Substitutions(doc))
    ensures var (p, q) := (CollapsedProfile(profile, doc), CollapsedPosts(posts, doc));
            Accepted(p, q, doc) && CollapsedProfile(p, doc) == p && CollapsedPosts(q, doc) == q
  {
    CollapseSettlesIffFresh(profile, posts, doc);
    SettledIsFixed(CollapsedProfile(profile, doc), CollapsedPosts(posts, doc), doc);
  }

  /** The parser does not ask for freshness: a document it reads, accepted on posts with one id each, after which two
      posts share an id. */
  lemma ParserAdmitsSharedId() returns (profile: seq<Asset>, posts: seq<Post>, doc: Document)
    ensures UniquePosts(posts) && DocumentParses(doc) && Accepted(profile, posts, doc)
    ensures !UniquePosts(CollapsedPosts(posts, doc))
  {
    var kept, gone := Asset("kept", map[]), Asset("gone", map[]);
    var s := Substitution("a", ["gone"], ["kept"], Some("b"));
    profile := [kept, gone];
    posts := [Post("a", ["gone"], map[]), Post("b", ["kept"], map[])];
    doc := [Entry("gone", "kept", gone, Losses(AsJson(gone), Some(AsJson(kept))), [s])];
    hide Losses, FindAsset, DocumentParses, Accepted;
    SharedId(posts, s);
    SharedIdAccepted(profile, posts, doc, gone, kept, s);
    CollapseConverts(posts, doc);
    hide *;
    SharedIdAfter(posts, CollapsedPosts(posts, doc), s);
  }

  lemma SharedIdAfter(posts: seq<Post>, after: seq<Post>, s: Substitution)
    requires s == Substitution("a", ["gone"], ["kept"], Some("b")) && PostState(posts, s) == Pending
    requires posts == [Post("a", ["gone"], map[]), Post("b", ["kept"], map[])] && Converted(posts, after, [s])
    ensures !UniquePosts(after)
  {
    hide PostState;
    assert after[0].id == Rewrite(posts[0], s).id == after[1].id;
  }

  lemma SharedIdAccepted(profile: seq<Asset>, posts: seq<Post>, doc: Document, gone: Asset, kept: Asset, s: Substitution)
    requires gone.id == "gone" && kept.id == "kept" && profile == [kept, gone]
    requires doc == [Entry("gone", "kept", gone, Losses(AsJson(gone), Some(AsJson(kept))), [s])]
    requires s == Substitution("a", ["gone"], ["kept"], Some("b")) && PostState(posts, s) == Pending
    ensures Substitutions(doc) == [s] && DocumentParses(doc) && Accepted(profile, posts, doc)
  {
    hide PostState, Losses;
    assert profile[..1] == [kept];
    assert FindAsset(profile, "kept") == Some(kept) && FindAsset(profile, "gone") == Some(gone);
    assert doc[1..] == [];
  }

  lemma SharedId(posts: seq<Post>, s: Substitution)
    requires s == Substitution("a", ["gone"], ["kept"], Some("b"))
    requires posts == [Post("a", ["gone"], map[]), Post("b", ["kept"], map[])]
    ensures UniquePosts(posts) && PostState(posts, s) == Pending
  {
    LastPostUnique(posts, 0);
    LastPostUnique(posts, 1);
  }
}
