/** The claim of `seed/scripts/apply_upgrade.py`: running twice is a no-op, and `--check` is then clean. */
module UpgradeIdempotent {
  import opened Sequences
  import opened Outcomes
  import opened Catalogue
  import opened DedupePosts
  import opened UpgradeRecords
  import opened UpgradePasses
  import opened UpgradeMerges
  import opened UpgradeSteady
  import opened UpgradeRun
  import opened UpgradeAssets
  import opened UpgradeAgain
  import opened UpgradeFixpoint
  import Collapse = AssetCollapse

  // ----- the posts -----

  /** The curation names a post once, and where it orders the members of a substituted post it has the new ones. */
  ghost predicate CurationAgrees(d: Documents) {
    && (forall i, j :: 0 <= i < j < |d.curation| ==> d.curation[i].id != d.curation[j].id)
    && (forall s, c :: s in Collapse.Substitutions(d.collapse) && c in d.curation && c.id == s.AppliedId() && c.members.Some?
                       ==> c.members.value == s.newMembers)
  }

  function CuratedAlong(p: Post, cs: seq<Curation>): (r: Post)
    ensures r.id == p.id
    decreases |cs|
  {
    if cs == [] then p
    else
      var n := |cs| - 1;
      if cs[n].id == p.id then Curated(cs[n], CuratedAlong(p, cs[..n])) else CuratedAlong(p, cs[..n])
  }

  lemma SameUniquePosts(posts: seq<Post>, after: seq<Post>)
    requires |after| == |posts| && forall k :: 0 <= k < |posts| ==> after[k].id == posts[k].id
    ensures UniquePosts(posts) ==> UniquePosts(after)
  {
  }

  lemma {:induction false} CurateAllAt(posts: seq<Post>, cs: seq<Curation>, k: nat)
    requires UniquePosts(posts) && k < |posts|
    ensures CurateAll(posts, cs)[k] == CuratedAlong(posts[k], cs)
    decreases |cs|
  {
    if cs != [] {
      var n := |cs| - 1;
      CurateAllAt(posts, cs[..n], k);
      var before := CurateAll(posts, cs[..n]);
      SameUniquePosts(posts, before);
      hide Curated;
      LastPostUnique(before, k);
      if cs[n].id != posts[k].id { OtherPost(before, cs[n], k); }
    }
  }

  lemma OtherPost(posts: seq<Post>, c: Curation, k: nat)
    requires k < |posts| && posts[k].id != c.id
    ensures CurateOne(posts, c)[k] == posts[k]
  {
  }

  lemma CuratedTwice(c: Curation, p: Post)
    ensures Curated(c, Curated(c, p)) == Curated(c, p)
  {
  }

  /** Where each post is named once, its curation has nothing left to write. */
  lemma {:induction false} AlongIsCurated(p: Post, cs: seq<Curation>)
    requires forall i, j :: 0 <= i < j < |cs| ==> cs[i].id != cs[j].id
    ensures forall c :: c in cs && c.id == p.id ==> Curated(c, CuratedAlong(p, cs)) == CuratedAlong(p, cs)
    ensures CuratedAlong(p, cs).members == p.members || exists c :: c in cs && c.id == p.id && c.members == Some(CuratedAlong(p, cs).members)
    decreases |cs|
  {
    if cs != [] {
      var n := |cs| - 1;
      AlongIsCurated(p, cs[..n]);
      CuratedTwice(cs[n], CuratedAlong(p, cs[..n]));
      assert cs == cs[..n] + [cs[n]];
      forall c | c in cs[..n] ensures c.id != cs[n].id {
        var i :| 0 <= i < n && cs[i] == c;
      }
      if cs[n].id == p.id && cs[n].members.Some? { assert cs[n] in cs; }
      assert forall c :: c in cs[..n] ==> c in cs;
    }
  }

  /** The post has nothing left to write. */
  ghost predicate IsCurated(posts: seq<Post>, c: Curation) {
    forall p :: p in posts && c.id == p.id ==> Curated(c, p) == p
  }

  /** Then a second pass is a no-op. */
  lemma {:induction false} CuratedIsFixed(posts: seq<Post>, cs: seq<Curation>)
    requires forall k :: 0 <= k < |cs| ==> IsCurated(posts, cs[k])
    ensures CurateAll(posts, cs) == posts && CuratedPosts(posts, cs) == 0
    decreases |cs|
  {
    hide IsCurated, CurateOne;
    if cs != [] {
      OneIsCurated(posts, cs[|cs| - 1]);
      CuratedIsFixed(posts, cs[..|cs| - 1]);
    }
  }

  lemma OneIsCurated(posts: seq<Post>, c: Curation)
    requires IsCurated(posts, c)
    ensures CurateOne(posts, c) == posts
  {
    hide Curated;
    var i := LastPost(posts, c.id);
    if i < |posts| { assert posts[i] in posts; }
  }

  lemma {:induction false} AllCuratedIff(posts: seq<Post>, cs: seq<Curation>)
    ensures Uncurated(posts, cs) == [] <==> forall c :: c in cs ==> c.id in PostIds(posts)
    decreases |cs|
  {
    hide PostIds;
    if cs != [] {
      AllCuratedIff(posts, cs[..|cs| - 1]);
      assert cs == cs[..|cs| - 1] + [cs[|cs| - 1]];
    }
  }

  lemma {:induction false} NoNewPosts(have: set<string>, moved: set<string>, posts: seq<Post>)
    requires forall p :: p in posts ==> p.id in have
    ensures NewPosts(have, moved, posts) == []
    decreases |posts|
  {
    if posts != [] {
      NoNewPosts(have, moved, posts[..|posts| - 1]);
      assert posts == posts[..|posts| - 1] + [posts[|posts| - 1]];
    }
  }

  /** Curation leaves a substituted post substituted. */
  lemma CurationKeepsApplied(posts: seq<Post>, d: Documents, s: Collapse.Substitution)
    requires UniquePosts(posts) && CurationAgrees(d) && s in Collapse.Substitutions(d.collapse)
    requires s.oldMembers != s.newMembers && s.newId != Some(s.postId) && Collapse.PostState(posts, s) == Collapse.Applied
    ensures Collapse.PostState(CurateAll(posts, d.curation), s) == Collapse.Applied
  {
    var after := CurateAll(posts, d.curation);
    SameUniquePosts(posts, after);
    SamePostIds(posts, after);
    Collapse.StateOf(posts, s);
    Collapse.StateOf(after, s);
    hide Collapse.PostState, CurateAll, CuratedAlong, Curated, UniquePosts, PostIds, Collapse.Substitutions;
    var i :| 0 <= i < |posts| && posts[i].id == s.AppliedId() && posts[i].members == s.newMembers;
    CurateAllAt(posts, d.curation, i);
    AlongIsCurated(posts[i], d.curation);
    assert after[i].id == s.AppliedId() && after[i].members == s.newMembers;
  }

  /** The posts a first run leaves, and what a second makes of them. */
  lemma PostsAgain(posts: seq<Post>, d: Documents)
    requires CurationAgrees(d) && Collapse.DocumentParses(d.collapse)
    requires forall s :: s in Collapse.Substitutions(d.collapse) ==> Collapse.PostState(Gathered(posts, d), s) != Collapse.Third
    requires Collapse.FreshIds(Gathered(posts, d), Collapse.Substitutions(d.collapse))
    requires Uncurated(Collapse.CollapsedPosts(Gathered(posts, d), d.collapse), d.curation) == []
    requires AddedPostsPresent(CurateAll(Collapse.CollapsedPosts(Gathered(posts, d), d.collapse), d.curation), d)
    ensures var q := CurateAll(Collapse.CollapsedPosts(Gathered(posts, d), d.collapse), d.curation);
            && Gathered(q, d) == q && Surplus(AllMergedPosts(q, d)) == 0 && NewPosts(PostIds(q), MovedIds(d), d.posts) == []
            && (forall s :: s in Collapse.Substitutions(d.collapse) ==> Collapse.PostState(q, s) == Collapse.Applied)
            && Collapse.PendingIn(q, Collapse.Substitutions(d.collapse)) == [] && Collapse.CollapsedPosts(q, d.collapse) == q
            && CurateAll(q, d.curation) == q && CuratedPosts(q, d.curation) == 0 && Uncurated(q, d.curation) == []
  {
    var gathered := Gathered(posts, d);
    var collapsed := Collapse.CollapsedPosts(gathered, d.collapse);
    var q := CurateAll(collapsed, d.curation);
    var subs := Collapse.Substitutions(d.collapse);
    DedupedIsExact(AllMergedPosts(posts, d));
    CollapsedIsSettled(gathered, d);
    SameUniquePosts(collapsed, q);
    SamePostIds(collapsed, q);
    AllCuratedIff(collapsed, d.curation);
    AllCuratedIff(q, d.curation);
    QuietCuration(collapsed, d);
    NoNewPosts(PostIds(q), MovedIds(d), d.posts);
    assert q + [] == q;
    DedupeIsIdempotent(q);
    Collapse.ParsedSubstitutions(d.collapse);
    hide Collapse.PostState, CurateAll, Collapse.CollapsedPosts, Deduped, Collapse.Substitutions, UniquePosts, Uncurated, CuratedPosts;
    forall s | s in subs ensures Collapse.PostState(q, s) == Collapse.Applied {
      CurationKeepsApplied(collapsed, d, s);
    }
    Collapse.NonePending(q, subs);
    NothingCollapses(q, d.collapse);
  }

  lemma NothingCollapses(q: seq<Post>, doc: Collapse.Document)
    requires Collapse.PendingIn(q, Collapse.Substitutions(doc)) == []
    ensures Collapse.CollapsedPosts(q, doc) == q
  {
  }

  lemma QuietCuration(posts: seq<Post>, d: Documents)
    requires UniquePosts(posts) && CurationAgrees(d)
    ensures var q := CurateAll(posts, d.curation); CurateAll(q, d.curation) == q && CuratedPosts(q, d.curation) == 0
  {
    var q := CurateAll(posts, d.curation);
    hide Curated, CuratedAlong, CurateAll;
    forall p, c | p in q && c in d.curation && c.id == p.id ensures Curated(c, p) == p {
      var k :| 0 <= k < |q| && q[k] == p;
      CurateAllAt(posts, d.curation, k);
      AlongIsCurated(posts[k], d.curation);
    }
    forall i | 0 <= i < |d.curation| ensures IsCurated(q, d.curation[i]) {
      assert d.curation[i] in d.curation;
    }
    hide IsCurated;
    CuratedIsFixed(q, d.curation);
  }

  /** The posts half of what the collapse leaves, with fresh ids. */
  lemma CollapsedIsSettled(posts: seq<Post>, d: Documents)
    requires UniquePosts(posts) && Collapse.DocumentParses(d.collapse)
    requires forall s :: s in Collapse.Substitutions(d.collapse) ==> Collapse.PostState(posts, s) != Collapse.Third
    requires Collapse.FreshIds(posts, Collapse.Substitutions(d.collapse))
    ensures var q := Collapse.CollapsedPosts(posts, d.collapse);
            UniquePosts(q) && forall s :: s in Collapse.Substitutions(d.collapse) ==> Collapse.PostState(q, s) == Collapse.Applied
  {
    var q := Collapse.CollapsedPosts(posts, d.collapse);
    var subs := Collapse.Substitutions(d.collapse);
    Collapse.ParsedSubstitutions(d.collapse);
    Collapse.CollapseConverts(posts, d.collapse);
    hide Collapse.DocumentParses, Collapse.PostState, Collapse.CollapsedPosts, Collapse.Converted, Collapse.FreshIds, Collapse.WellFormed,
         UniquePosts, Collapse.Substitutions;
    Collapse.FreshStaysUnique(posts, q, subs);
    forall s | s in subs ensures Collapse.PostState(q, s) == Collapse.Applied {
      if Collapse.PostState(posts, s) == Collapse.Pending {
        Collapse.FreshPendingSettles(posts, q, subs, s);
      } else {
        Collapse.FreshAppliedStays(posts, q, subs, s);
      }
    }
  }

  // ----- the whole run -----

  /** What the documents must agree on for a second run to be a no-op; each is checked on the documents alone. */
  ghost predicate DocumentsAgree(d: Documents) {
    DoNotFight(d) && CorrectionsSettle(d) && RetirementsAgree(d) && CurationAgrees(d)
  }

  /** What a run that ends well has found of the profile. */
  lemma RunLeaves(profile: seq<Asset>, posts: seq<Post>, d: Documents, audit: Audit, r: Result)
    requires DocumentsAgree(d) && UniqueAssets(profile) && forall e :: e in profile ==> MetaIsObject(e.fields)
    requires Run(profile, posts, d, audit) == Ok(r) && !r.problems
    ensures LeftBehind(r.profile, d) && r.profile == Collapse.CollapsedProfile(Fed(profile, d), d.collapse)
    ensures r.unplaced == Unplaced(r.profile, d.fills, RetiredIds(d))
    ensures forall e :: e in d.collapse ==>
              Collapse.AssetState(Fed(profile, d), e) != Collapse.Third
              && FindAsset(r.profile, e.survivorId) == FindAsset(Fed(profile, d), e.survivorId)
  {
    var fed := Fed(profile, d);
    AgreementIs(d);
    Found(profile, posts, d, audit, r);
    FedIds(profile, d);
    forall e | e in fed ensures Steady(e, d) {
      FedIsSteady(profile, d, e);
    }
    Collapse.RetiredAreGone(fed, Gathered(posts, d), d.collapse);
    JudgedAll(fed, Gathered(posts, d), d.collapse);
    KeptAssets(fed, r.profile, d);
    LeftIs(fed, r.profile, d);
    HeldOrRetired(fed, r.profile, RetiredIds(d));
    hide *;
    UnplacedSame(fed, r.profile, d.fills, RetiredIds(d));
  }

  lemma HeldOrRetired(fed: seq<Asset>, p: seq<Asset>, retired: set<string>)
    requires (forall e :: e in p ==> e in fed) && AssetIds(fed) <= AssetIds(p) + retired
    ensures AssetIds(fed) + retired == AssetIds(p) + retired
  {
  }

  lemma JudgedAll(fed: seq<Asset>, gathered: seq<Post>, doc: Collapse.Document)
    requires Collapse.Accepted(fed, gathered, doc)
    ensures forall e :: e in doc ==> Collapse.AssetState(fed, e) != Collapse.Third
  {
    hide Collapse.AssetState;
  }

  lemma LeftIs(fed: seq<Asset>, p: seq<Asset>, d: Documents)
    requires RetirementsAgree(d) && UniqueAssets(p) && AssetIds(p) !! RetiredIds(d) && AssetIds(fed) <= AssetIds(p) + RetiredIds(d)
    requires (forall e :: e in p ==> e in fed) && forall e :: e in fed ==> Steady(e, d)
    requires AssetIds(d.assets) + AssetIds(d.reconciled) <= AssetIds(fed)
    requires forall ch: Amendment :: ch in d.declarations || ch in d.replacements || ch in d.staged ==> ch.id in AssetIds(fed)
    ensures LeftBehind(p, d)
  {
    hide Steady, AssetIds, UniqueAssets, RetiredIds;
  }

  /** What is left of the profile after the collapse is what it held, less the retired ids. */
  lemma KeptAssets(fed: seq<Asset>, p: seq<Asset>, d: Documents)
    requires UniqueAssets(fed) && p == Collapse.CollapsedProfile(fed, d.collapse)
    requires forall a :: a in p <==> a in fed && a.id !in Collapse.RetiredNow(fed, d.collapse)
    requires forall e :: e in d.collapse ==> e.retiredId !in AssetIds(p)
    ensures UniqueAssets(p) && AssetIds(p) !! RetiredIds(d) && AssetIds(fed) <= AssetIds(p) + RetiredIds(d)
  {
    WithoutIsUnique(fed, Collapse.RetiredNow(fed, d.collapse));
    forall id | id in AssetIds(fed) ensures id in AssetIds(p) + RetiredIds(d) {
      var a :| a in fed && a.id == id;
      if a in p { assert id in AssetIds(p); }
    }
  }

  lemma {:induction false} WithoutIsUnique(profile: seq<Asset>, ids: set<string>)
    requires UniqueAssets(profile)
    ensures UniqueAssets(Collapse.Without(profile, ids))
    decreases |profile|
  {
    if profile != [] {
      WithoutIsUnique(profile[1..], ids);
      var rest := Collapse.Without(profile[1..], ids);
      forall i | 0 <= i < |rest| ensures rest[i].id != profile[0].id {
        Collapse.WithoutMembers(profile[1..], ids, rest[i]);
        var j :| 0 <= j < |profile[1..]| && profile[1..][j] == rest[i];
      }
    }
  }

  /** Every id the documents name was found. */
  lemma Found(profile: seq<Asset>, posts: seq<Post>, d: Documents, audit: Audit, r: Result)
    requires UniqueAssets(profile) && UniqueAssets(d.assets)
    requires Run(profile, posts, d, audit) == Ok(r) && !r.problems
    ensures r.profile == Collapse.CollapsedProfile(Fed(profile, d), d.collapse)
    ensures Collapse.Accepted(Fed(profile, d), Gathered(posts, d), d.collapse)
    ensures forall ch: Amendment :: ch in d.declarations || ch in d.replacements ==> ch.id in AssetIds(profile)
    ensures forall ch: Amendment :: ch in d.staged ==> ch.id in AssetIds(Fed(profile, d))
    ensures r.unplaced == Unplaced(Fed(profile, d), d.fills, RetiredIds(d))
  {
    var corrected := Corrected(profile, d.corrections);
    var merged := AllMerged(profile, d);
    var base := merged + Reconciled(AssetIds(merged), d.reconciled);
    var filled := AmendAll(base, d.fills);
    SameUnique(profile, corrected);
    NoneMissingIff(corrected, d.declarations);
    SameIds(corrected, d.declarations);
    NoneMissingIff(AmendAll(corrected, d.declarations), d.replacements);
    NoneMissingIff(filled, d.staged);
    SameIds(base, d.fills);
    SameIds(filled, d.staged);
    UnplacedSame(base, Fed(profile, d), d.fills, RetiredIds(d));
    hide AmendAll, Missing, Collapse.Accepted, AssetIds, Unplaced, Collapse.CollapsedProfile, Collapse.CollapsedPosts, Work, Reconciled,
         CurateAll, Prepared, Merged, UniqueAssets, MergeRefused, Deduped, Corrected;
  }

  /** The second run accepts what the first left, */
  lemma AcceptedAgain(p: seq<Asset>, q: seq<Post>, d: Documents)
    requires forall e :: e in d.collapse ==> Collapse.AssetState(Fed(p, d), e) != Collapse.Third
    requires Gathered(q, d) == q && forall s :: s in Collapse.Substitutions(d.collapse) ==> Collapse.PostState(q, s) == Collapse.Applied
    ensures Collapse.Accepted(Fed(p, d), Gathered(q, d), d.collapse)
  {
    hide Collapse.AssetState, Collapse.PostState, Fed, Gathered, Collapse.Substitutions;
  }

  /** Idempotence of the whole upgrade. After a run that ends well, a second run with the same documents leaves the profile
      and the posts exactly as they are, finds no problem, counts nothing, and reports the same fills as naming nothing. */
  lemma UpgradeIsIdempotent(profile: seq<Asset>, posts: seq<Post>, d: Documents, audit: Audit, r: Result)
    requires DocumentsAgree(d) && UniqueAssets(profile) && forall e :: e in profile ==> MetaIsObject(e.fields)
    requires Collapse.FreshIds(Gathered(posts, d), Collapse.Substitutions(d.collapse))
    requires Run(profile, posts, d, audit) == Ok(r) && !r.problems
    ensures Run(r.profile, r.posts, d, audit) == Ok(Result(r.profile, r.posts, NO_DRIFT, r.unplaced, false))
  {
    var (p, q) := (r.profile, r.posts);
    RunLeaves(profile, posts, d, audit, r);
    RunPosts(profile, posts, d, audit, r);
    hide *;
    AgreementIs(d);
    PostsAgain(posts, d);
    CollapseAgain(p, Fed(profile, d), d);
    AcceptedAgain(p, q, d);
    NothingToPrepare(p, d);
    OnlyRetiredReturn(p, d);
    IntakeAgain(p, q, d);
    SettlingAgain(p, AllMergedPosts(q, d), d);
    SecondRun(p, q, d, audit, r.unplaced);
  }

  /** What that means for the gate: after a run that ends well `--check` exits clean if and only if that run reported no fill
      as naming nothing, that is, every fill names a record the profile holds or a retired one. */
  lemma CheckAfterRunIff(profile: seq<Asset>, posts: seq<Post>, d: Documents, audit: Audit, r: Result)
    requires DocumentsAgree(d) && UniqueAssets(profile) && forall e :: e in profile ==> MetaIsObject(e.fields)
    requires Collapse.FreshIds(Gathered(posts, d), Collapse.Substitutions(d.collapse))
    requires Run(profile, posts, d, audit) == Ok(r) && !r.problems
    ensures ExitCode(Run(r.profile, r.posts, d, audit), true) == 0 <==> r.unplaced == []
    ensures r.unplaced == [] <==> forall ch :: ch in d.fills ==> ch.id in AssetIds(r.profile) + RetiredIds(d)
  {
    UpgradeIsIdempotent(profile, posts, d, audit, r);
    RunLeaves(profile, posts, d, audit, r);
    hide Run, AssetIds, RetiredIds, LeftBehind, DocumentsAgree, Unplaced, UniqueAssets, Collapse.FreshIds, Fed, Collapse.AssetState;
    AllPlacedIff(r.profile, d.fills, RetiredIds(d));
  }

  lemma AgreementIs(d: Documents)
    requires DocumentsAgree(d)
    ensures DoNotFight(d) && CorrectionsSettle(d) && RetirementsAgree(d) && CurationAgrees(d) && Collapse.DocumentParses(d.collapse)
  {
  }

  /** The pieces of a run that finds nothing. */
  lemma SecondRun(p: seq<Asset>, q: seq<Post>, d: Documents, audit: Audit, unplaced: seq<string>)
    requires !MergeRefused(Prepared(p, d), d.assets) && Collapse.Accepted(Fed(p, d), Gathered(q, d), d.collapse)
    requires Gathered(q, d) == q && Collapse.CollapsedPosts(q, d.collapse) == q && Collapse.CollapsedProfile(Fed(p, d), d.collapse) == p
    requires CurateAll(q, d.curation) == q && CuratedPosts(q, d.curation) == 0 && Uncurated(q, d.curation) == []
    requires Collapse.PendingIn(q, Collapse.Substitutions(d.collapse)) == []
    requires AddedPostsPresent(q, d) && audit(p, q)
    requires var i := IntakeOf(p, q, d);
             && i.corrected == 0 && i.modified == 0 && i.repaired == 0 && !i.missing && i.posts == 0
             && i.appended == i.appendedRetired == PendingAssets(Fed(p, d), d.collapse)
    requires var s := SettlingOf(AllMerged(p, d), AllMergedPosts(q, d), d);
             && s.reconciled == 0 && s.filled == s.filledRetired && s.unplaced == unplaced && s.resized == 0 && s.hashed == 0 && !s.missing
             && s.deduped == 0
    ensures Run(p, q, d, audit) == Ok(Result(p, q, NO_DRIFT, unplaced, false))
  {
    var (i, s) := (IntakeOf(p, q, d), SettlingOf(AllMerged(p, d), AllMergedPosts(q, d), d));
    var fed := Fed(p, d);
    FinishedClean(p, q, fed, i, s, d, audit);
    hide *;
    RunIs(p, q, d, audit);
  }

  lemma FinishedClean(p: seq<Asset>, q: seq<Post>, fed: seq<Asset>, i: Intake, s: Settling, d: Documents, audit: Audit)
    requires Collapse.CollapsedPosts(q, d.collapse) == q && Collapse.CollapsedProfile(fed, d.collapse) == p
    requires CurateAll(q, d.curation) == q && CuratedPosts(q, d.curation) == 0 && Uncurated(q, d.curation) == []
    requires Collapse.PendingIn(q, Collapse.Substitutions(d.collapse)) == []
    requires AddedPostsPresent(q, d) && audit(p, q)
    requires i.corrected == 0 && i.modified == 0 && i.repaired == 0 && !i.missing && i.posts == 0
    requires i.appended == i.appendedRetired == PendingAssets(fed, d.collapse)
    requires s.reconciled == 0 && s.filled == s.filledRetired && s.resized == 0 && s.hashed == 0 && !s.missing
    requires s.deduped == 0
    ensures Finished(fed, q, i, s, d, audit) == Result(p, q, NO_DRIFT, s.unplaced, false)
  {
    hide CurateAll, CuratedPosts, Uncurated, AddedPostsPresent, Collapse.CollapsedPosts, Collapse.CollapsedProfile, Collapse.PendingIn,
         Collapse.Substitutions, PendingAssets;
  }

  lemma RunIs(profile: seq<Asset>, posts: seq<Post>, d: Documents, audit: Audit)
    requires !MergeRefused(Prepared(profile, d), d.assets) && Collapse.Accepted(Fed(profile, d), Gathered(posts, d), d.collapse)
    ensures Run(profile, posts, d, audit) ==
            Ok(Finished(Fed(profile, d), Gathered(posts, d), IntakeOf(profile, posts, d),
                        SettlingOf(AllMerged(profile, d), AllMergedPosts(posts, d), d), d, audit))
  {
    hide Finished, IntakeOf, SettlingOf, Fed, Gathered, AllMerged, AllMergedPosts, Prepared, MergeRefused, Collapse.Accepted;
  }

  lemma RunPosts(profile: seq<Asset>, posts: seq<Post>, d: Documents, audit: Audit, r: Result)
    requires Run(profile, posts, d, audit) == Ok(r) && !r.problems
    ensures r.posts == CurateAll(Collapse.CollapsedPosts(Gathered(posts, d), d.collapse), d.curation)
    ensures Uncurated(Collapse.CollapsedPosts(Gathered(posts, d), d.collapse), d.curation) == []
    ensures AddedPostsPresent(r.posts, d) && audit(r.profile, r.posts)
    ensures forall s :: s in Collapse.Substitutions(d.collapse) ==> Collapse.PostState(Gathered(posts, d), s) != Collapse.Third
  {
    hide Fed, Gathered, Prepared, MergeRefused, IntakeOf, SettlingOf, CurateAll, CuratedPosts, Uncurated, AddedPostsPresent,
         Collapse.CollapsedPosts, Collapse.CollapsedProfile, Collapse.PendingIn, Collapse.Substitutions, PendingAssets,
         Collapse.AssetState, Collapse.PostState;
  }

  // ----- merged posts that a substitution moves -----

  /** A pending substitution moves its post onto the id. */
  predicate MovedOnto(posts: seq<Post>, subs: seq<Collapse.Substitution>, id: string) {
    exists t :: t in subs && t.newId == Some(id) && Collapse.PostState(posts, t) == Collapse.Pending
  }

  /** An id is held after the collapse exactly if it was held and has not moved, or something moves onto it. */
  lemma HeldAfterIff(posts: seq<Post>, after: seq<Post>, subs: seq<Collapse.Substitution>, id: string)
    requires UniquePosts(posts) && Collapse.WellFormed(subs) && Collapse.Converted(posts, after, subs)
    requires forall s :: s in subs ==> Collapse.PostState(posts, s) != Collapse.Third
    requires id in PostIds(posts) || exists s :: s in subs && s.newId.Some? && s.postId == id
    ensures id in PostIds(after) <==>
            MovedOnto(posts, subs, id) || !exists s :: s in subs && s.newId.Some? && s.postId == id
  {
    if MovedOnto(posts, subs, id) {
      var t :| t in subs && t.newId == Some(id) && Collapse.PostState(posts, t) == Collapse.Pending;
      Collapse.StateOf(posts, t);
      hide Collapse.PostState;
      var i :| 0 <= i < |posts| && posts[i].id == t.postId;
      assert after[i] == Collapse.Rewrite(posts[i], t) && after[i] in after;
    } else if exists s :: s in subs && s.newId.Some? && s.postId == id {
      var s :| s in subs && s.newId.Some? && s.postId == id;
      Collapse.StateOf(posts, s);
      forall j | 0 <= j < |after| ensures after[j].id != id {
        var t := Collapse.AfterCase(posts, after, subs, j);
        hide Collapse.PostState, Collapse.Converted;
        assert posts[j] in posts;
      }
    } else {
      var i :| 0 <= i < |posts| && posts[i].id == id;
      var t := Collapse.AfterCase(posts, after, subs, i);
      assert after[i].id == id && after[i] in after;
    }
  }

  lemma {:induction false} NewPostsHeld(have: set<string>, moved: set<string>, posts: seq<Post>, p: Post)
    requires p in posts
    ensures p.id in have || p.id in moved || p.id in PostIds(NewPosts(have, moved, posts))
    decreases |posts|
  {
    var n := |posts| - 1;
    if p in posts[..n] {
      NewPostsHeld(have, moved, posts[..n], p);
      assert forall x :: x in NewPosts(have, moved, posts[..n]) ==> x in NewPosts(have, moved, posts);
    }
  }

  /** Every merged post reaches the collapse under its id, but for those whose id a substitution moves. */
  lemma MergedPostsGathered(posts: seq<Post>, d: Documents, p: Post)
    requires p in d.posts
    ensures p.id in PostIds(Gathered(posts, d)) || p.id in MovedIds(d)
  {
    var (have, moved) := (PostIds(posts), MovedIds(d));
    NewPostsHeld(have, moved, d.posts, p);
    DedupedIsExact(AllMergedPosts(posts, d));
    hide NewPosts, Deduped, MovedIds;
    assert AllMergedPosts(posts, d) == posts + NewPosts(have, moved, d.posts);
  }

  /** Which merged posts the post conditions find, exactly: an accepted run ends with every one of them if and only if none
      has an id that a substitution moves, unless another pending substitution moves its post onto that id. With fresh ids
      none does, and the one condition left looks at the documents alone. Where it fails the run ends with a problem. */
  lemma MovedPostIsAProblem(profile: seq<Asset>, posts: seq<Post>, d: Documents, audit: Audit, r: Result)
    requires Collapse.DocumentParses(d.collapse) && Run(profile, posts, d, audit) == Ok(r)
    ensures AddedPostsPresent(r.posts, d) <==>
            forall p :: p in d.posts && p.id in MovedIds(d) ==> MovedOnto(Gathered(posts, d), Collapse.Substitutions(d.collapse), p.id)
    ensures Collapse.FreshIds(Gathered(posts, d), Collapse.Substitutions(d.collapse)) ==>
            (AddedPostsPresent(r.posts, d) <==> forall p :: p in d.posts ==> p.id !in MovedIds(d))
    ensures !AddedPostsPresent(r.posts, d) ==> r.problems
  {
    var (gathered, subs) := (Gathered(posts, d), Collapse.Substitutions(d.collapse));
    var collapsed := Collapse.CollapsedPosts(gathered, d.collapse);
    DedupedIsExact(AllMergedPosts(posts, d));
    Collapse.ParsedSubstitutions(d.collapse);
    Collapse.CollapseConverts(gathered, d.collapse);
    RunEnds(profile, posts, d, audit, r);
    SamePostIds(collapsed, r.posts);
    forall p | p in d.posts
      ensures p.id in PostIds(r.posts) <==> p.id in MovedIds(d) ==> MovedOnto(gathered, subs, p.id)
    {
      MergedPostsGathered(posts, d, p);
      MovedIdIs(d, p.id);
      hide *;
      HeldAfterIff(gathered, collapsed, subs, p.id);
    }
    if Collapse.FreshIds(gathered, subs) {
      forall p | p in d.posts && p.id in MovedIds(d) ensures !MovedOnto(gathered, subs, p.id) {
        hide Collapse.PostState;
        MovedIdIs(d, p.id);
      }
    }
    hide *;
    PresentIs(r.posts, d);
  }

  lemma PresentIs(posts: seq<Post>, d: Documents)
    ensures AddedPostsPresent(posts, d) <==> forall p :: p in d.posts ==> p.id in PostIds(posts)
  {
    hide PostIds;
  }

  lemma MovedIdIs(d: Documents, id: string)
    ensures id in MovedIds(d) <==> exists s :: s in Collapse.Substitutions(d.collapse) && s.newId.Some? && s.postId == id
  {
    hide Collapse.Substitutions;
  }

  lemma RunEnds(profile: seq<Asset>, posts: seq<Post>, d: Documents, audit: Audit, r: Result)
    requires Run(profile, posts, d, audit) == Ok(r)
    ensures r.posts == CurateAll(Collapse.CollapsedPosts(Gathered(posts, d), d.collapse), d.curation)
    ensures forall s :: s in Collapse.Substitutions(d.collapse) ==> Collapse.PostState(Gathered(posts, d), s) != Collapse.Third
    ensures !AddedPostsPresent(r.posts, d) ==> r.problems
  {
    hide Fed, Gathered, Prepared, MergeRefused, IntakeOf, SettlingOf, CurateAll, CuratedPosts, Uncurated, AddedPostsPresent,
         Collapse.CollapsedPosts, Collapse.CollapsedProfile, Collapse.PendingIn, Collapse.Substitutions, PendingAssets,
         Collapse.AssetState, Collapse.PostState;
  }
}
