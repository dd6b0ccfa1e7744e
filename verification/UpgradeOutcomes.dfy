/** How a run of the upgrade ends: when it is refused, when it finds a problem, and when anything is committed. */
module UpgradeOutcomes {
  import opened Sequences
  import opened Outcomes
  import opened Json
  import opened Catalogue
  import opened UpgradeRecords
  import opened UpgradePasses
  import opened UpgradeMerges
  import opened UpgradeSteady
  import opened UpgradeRun
  import opened UpgradeAssets
  import opened UpgradeIdempotent
  import opened UpgradeWrites
  import opened CollapseRecords
  import Collapse = AssetCollapse

  // ----- refused -----

  /** The collapse document authenticates against the profile and the posts it is judged on, entry by entry and post by post. */
  ghost predicate CollapseAccepts(profile: seq<Asset>, posts: seq<Post>, doc: Collapse.Document) {
    && (forall e :: e in doc ==> Authenticates(profile, e))
    && (forall s :: s in Collapse.Substitutions(doc) ==> AsFound(posts, s) != AsLeft(posts, s))
  }

  /** A run is refused, exactly: a record it would bring in has a comma or an em dash in its title, or the collapse document does
      not authenticate. It never crashes. */
  lemma RefusedIff(profile: seq<Asset>, posts: seq<Post>, d: Documents, audit: Audit)
    ensures !Run(profile, posts, d, audit).Crashed?
    ensures Run(profile, posts, d, audit).Refused? <==>
            || (exists a :: a in d.assets && IsNew(profile, a) && IsMarked(a))
            || !CollapseAccepts(Fed(profile, d), Gathered(posts, d), d.collapse)
  {
    AcceptedIff(Fed(profile, d), Gathered(posts, d), d.collapse);
    MergeBrings(Prepared(profile, d), d.assets);
    SameUnique(profile, Prepared(profile, d));
    forall a: Asset ensures IsNew(Prepared(profile, d), a) <==> IsNew(profile, a) {
      NewIff(Prepared(profile, d), a);
      NewIff(profile, a);
    }
    RunEnds(profile, posts, d, audit);
    hide *;
    AcceptsIs(Fed(profile, d), Gathered(posts, d), d.collapse);
  }

  lemma NewIff(profile: seq<Asset>, a: Asset)
    ensures IsNew(profile, a) <==> a.id !in AssetIds(profile)
  {
  }

  lemma AcceptsIs(profile: seq<Asset>, posts: seq<Post>, doc: Collapse.Document)
    ensures CollapseAccepts(profile, posts, doc) <==> Collapse.Accepted(profile, posts, doc)
  {
    hide Collapse.Accepted, Collapse.Substitutions, Authenticates, AsFound, AsLeft;
    AcceptedIff(profile, posts, doc);
  }

  lemma RunEnds(profile: seq<Asset>, posts: seq<Post>, d: Documents, audit: Audit)
    ensures Run(profile, posts, d, audit).Ok? || Run(profile, posts, d, audit).Refused?
    ensures Run(profile, posts, d, audit).Refused? <==>
            MergeRefused(Prepared(profile, d), d.assets) || !Collapse.Accepted(Fed(profile, d), Gathered(posts, d), d.collapse)
  {
    hide Fed, Gathered, MergeRefused, IntakeOf, SettlingOf, Collapse.Accepted, Finished, Prepared;
  }

  // ----- with a problem -----

  ghost predicate HoldsAsset(profile: seq<Asset>, id: string) {
    exists e :: e in profile && e.id == id
  }

  ghost predicate HoldsPost(posts: seq<Post>, id: string) {
    exists p :: p in posts && p.id == id
  }

  /** Something the documents name is not there: a declared or a replaced record in the profile, a measured one among the records
      held and brought in, a curated or a merged post among those the run leaves. */
  ghost predicate NamesNothing(profile: seq<Asset>, left: seq<Post>, d: Documents) {
    || (exists ch: Amendment :: (ch in d.declarations || ch in d.replacements) && !HoldsAsset(profile, ch.id))
    || (exists ch: Amendment :: ch in d.staged && !HoldsAsset(profile, ch.id) && !HoldsAsset(d.assets, ch.id) && !HoldsAsset(d.reconciled, ch.id))
    || (exists c :: c in d.curation && !HoldsPost(left, c.id))
    || (exists p :: p in d.posts && !HoldsPost(left, p.id))
  }

  /** A run finds a problem, exactly: something its documents name is not there, or the audit fails on what it leaves. */
  lemma ProblemsIff(profile: seq<Asset>, posts: seq<Post>, d: Documents, audit: Audit, r: Result)
    requires UniqueAssets(profile) && UniqueAssets(d.assets) && Run(profile, posts, d, audit) == Ok(r)
    ensures r.problems <==> NamesNothing(profile, r.posts, d) || !audit(r.profile, r.posts)
  {
    hide *;
    var collapsed := Collapse.CollapsedPosts(Gathered(posts, d), d.collapse);
    ProblemsAre(profile, posts, d, audit, r);
    IntakeMissing(profile, posts, d);
    StagedMissing(profile, posts, d);
    AllCuratedIff(collapsed, d.curation);
    SamePostIds(collapsed, CurateAll(collapsed, d.curation));
    NamesNothingIs(profile, r.posts, d);
  }

  lemma NamesNothingIs(profile: seq<Asset>, left: seq<Post>, d: Documents)
    ensures NamesNothing(profile, left, d) <==>
            || (exists ch: Amendment :: (ch in d.declarations || ch in d.replacements) && ch.id !in AssetIds(profile))
            || (exists ch: Amendment ::
                  ch in d.staged && ch.id !in AssetIds(profile) && ch.id !in AssetIds(d.assets) && ch.id !in AssetIds(d.reconciled))
            || (exists c :: c in d.curation && c.id !in PostIds(left))
            || (exists p :: p in d.posts && p.id !in PostIds(left))
  {
    HoldsAre(profile);
    HoldsAre(d.assets);
    HoldsAre(d.reconciled);
    HoldsPostsAre(left);
    hide AssetIds, PostIds, HoldsAsset, HoldsPost;
  }

  lemma HoldsAre(profile: seq<Asset>)
    ensures forall id :: HoldsAsset(profile, id) <==> id in AssetIds(profile)
  {
  }

  lemma HoldsPostsAre(posts: seq<Post>)
    ensures forall id :: HoldsPost(posts, id) <==> id in PostIds(posts)
  {
  }

  lemma ProblemsAre(profile: seq<Asset>, posts: seq<Post>, d: Documents, audit: Audit, r: Result)
    requires Run(profile, posts, d, audit) == Ok(r)
    ensures var (i, s) := (IntakeOf(profile, posts, d), SettlingOf(AllMerged(profile, d), AllMergedPosts(posts, d), d));
            var collapsed := Collapse.CollapsedPosts(Gathered(posts, d), d.collapse);
            && r.posts == CurateAll(collapsed, d.curation)
            && (r.problems <==> i.missing || s.missing || Uncurated(collapsed, d.curation) != []
                                || (exists p :: p in d.posts && p.id !in PostIds(r.posts)) || !audit(r.profile, r.posts))
  {
    hide Fed, Gathered, MergeRefused, IntakeOf, SettlingOf, Collapse.Accepted, Prepared, CurateAll, Uncurated, PostIds, Collapse.CollapsedPosts,
         Collapse.CollapsedProfile, PendingAssets, CuratedPosts, Collapse.PendingIn, Collapse.Substitutions, AllMerged, AllMergedPosts;
  }

  lemma IntakeMissing(profile: seq<Asset>, posts: seq<Post>, d: Documents)
    ensures IntakeOf(profile, posts, d).missing <==>
            exists ch: Amendment :: (ch in d.declarations || ch in d.replacements) && ch.id !in AssetIds(profile)
  {
    var corrected := Corrected(profile, d.corrections);
    SameUnique(profile, corrected);
    NoneMissingIff(corrected, d.declarations);
    SameIds(corrected, d.declarations);
    NoneMissingIff(AmendAll(corrected, d.declarations), d.replacements);
    hide AmendAll, Missing, AssetIds, Corrected, Work, Appended, CountIn, NewPosts, TotalFiring, Prepared, UniqueAssets;
  }

  lemma StagedMissing(profile: seq<Asset>, posts: seq<Post>, d: Documents)
    requires UniqueAssets(profile) && UniqueAssets(d.assets)
    ensures SettlingOf(AllMerged(profile, d), AllMergedPosts(posts, d), d).missing <==>
            exists ch: Amendment :: ch in d.staged && ch.id !in AssetIds(profile) && ch.id !in AssetIds(d.assets) && ch.id !in AssetIds(d.reconciled)
  {
    var merged := AllMerged(profile, d);
    var base := merged + Reconciled(AssetIds(merged), d.reconciled);
    var filled := AmendAll(base, d.fills);
    FedIds(profile, d);
    NoneMissingIff(filled, d.staged);
    SameIds(filled, d.staged);
    assert AssetIds(filled) == AssetIds(Fed(profile, d));
    hide AmendAll, Missing, AssetIds, Work, Reconciled, Unplaced, AllMerged, Fed, UniqueAssets, RetiredIds;
  }

  // ----- committed -----

  /** The exit code, exactly: 2 when the run is refused, 0 when it finds no problem and, under `--check`, nothing to do and no
      fill that names nothing, and 1 otherwise. */
  lemma ExitCodeIff(profile: seq<Asset>, posts: seq<Post>, d: Documents, audit: Audit, check: bool)
    ensures var (r, code) := (Run(profile, posts, d, audit), ExitCode(Run(profile, posts, d, audit), check));
            && code <= 2 && (code == 2 <==> r.Refused?)
            && (code == 0 <==> r.Ok? && !r.value.problems && (check ==> r.value.drift == Drift(0, 0, 0, 0, 0, 0, 0, 0, 0, 0, 0, 0) && r.value.unplaced == []))
  {
    RunEnds(profile, posts, d, audit);
    hide Run;
  }
}
