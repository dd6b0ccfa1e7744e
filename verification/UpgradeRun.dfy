/** `main` of `seed/scripts/apply_upgrade.py`: the passes in order, what stops a run, what `--check` counts. */
module UpgradeRun {
  import opened Outcomes
  import opened Catalogue
  import opened UpgradeRecords
  import opened UpgradePasses
  import opened UpgradeMerges
  import opened DedupePosts
  import Collapse = AssetCollapse

  /** Every document a run reads. */
  datatype Documents = Documents(
    corrections: seq<Correction>,
    declarations: Declarations,
    replacements: Replacements,
    assets: seq<Asset>,
    posts: seq<Post>,
    reconciled: seq<Asset>,
    fills: Fills,
    staged: Stagings,
    collapse: Collapse.Document,
    curation: seq<Curation>)

  /** The post conditions that are not spelled out here. */
  type Audit = (seq<Asset>, seq<Post>) -> bool

  function RetiredIds(d: Documents): set<string> {
    Collapse.RetiredIds(d.collapse)
  }

  /** The ids a substitution moves a post away from. */
  function MovedIds(d: Documents): set<string> {
    set s | s in Collapse.Substitutions(d.collapse) && s.newId.Some? :: s.postId
  }

  // ----- the profile and the posts, stage by stage -----

  function Prepared(profile: seq<Asset>, d: Documents): seq<Asset> {
    AmendAll(AmendAll(Corrected(profile, d.corrections), d.declarations), d.replacements)
  }

  function AllMerged(profile: seq<Asset>, d: Documents): seq<Asset> {
    Merged(Prepared(profile, d), d.assets)
  }

  function FedFrom(merged: seq<Asset>, d: Documents): seq<Asset> {
    AmendAll(Restored(merged, d.reconciled, d.fills), d.staged)
  }

  /** The profile the collapse judges. */
  function Fed(profile: seq<Asset>, d: Documents): seq<Asset> {
    FedFrom(AllMerged(profile, d), d)
  }

  function AllMergedPosts(posts: seq<Post>, d: Documents): seq<Post> {
    MergedPosts(posts, d.posts, MovedIds(d))
  }

  /** The posts the collapse judges. */
  function Gathered(posts: seq<Post>, d: Documents): seq<Post> {
    Deduped(AllMergedPosts(posts, d))
  }

  /** The terms of `--check`: what the run found to do. */
  datatype Drift = Drift(staged: nat, hashed: nat, modified: nat, added: int, pending: int, posts: nat, repaired: nat,
                         reconciled: nat, filled: int, deduped: nat, corrected: nat, curated: nat)

  const NO_DRIFT := Drift(0, 0, 0, 0, 0, 0, 0, 0, 0, 0, 0, 0)

  /** The entries whose record is still to be retired. */
  function PendingAssets(profile: seq<Asset>, doc: Collapse.Document): nat
    decreases |doc|
  {
    if doc == [] then 0
    else PendingAssets(profile, doc[..|doc| - 1]) + if Collapse.AssetState(profile, doc[|doc| - 1]) == Collapse.Pending then 1 else 0
  }

  /** What the passes up to the merges find to do. */
  datatype Intake = Intake(corrected: nat, modified: nat, appended: nat, appendedRetired: nat, repaired: nat, posts: nat, missing: bool)

  function IntakeOf(profile: seq<Asset>, posts: seq<Post>, d: Documents): Intake {
    var corrected := Corrected(profile, d.corrections);
    var declared := AmendAll(corrected, d.declarations);
    var news := Appended(AssetIds(Prepared(profile, d)), d.assets);
    Intake(TotalFiring(profile, d.corrections), Work(declared, d.replacements, Modified), |news|, CountIn(news, RetiredIds(d)),
           Work(Prepared(profile, d), RepairsOf(d.assets), Modified), |NewPosts(PostIds(posts), MovedIds(d), d.posts)|,
           Missing(corrected, d.declarations) != [] || Missing(declared, d.replacements) != [])
  }

  /** What the reconcile, the staged measurements and the dedupe find to do. */
  datatype Settling = Settling(reconciled: nat, filled: nat, filledRetired: nat, unplaced: seq<string>, resized: nat, hashed: nat,
                               deduped: nat, missing: bool)

  function SettlingOf(merged: seq<Asset>, mergedPosts: seq<Post>, d: Documents): Settling {
    var restored := merged + Reconciled(AssetIds(merged), d.reconciled);
    var filled := AmendAll(restored, d.fills);
    Settling(|Reconciled(AssetIds(merged), d.reconciled)|, Work(restored, d.fills, FilledCount),
             Work(restored, d.fills, RetiredFilling(RetiredIds(d))), Unplaced(restored, d.fills, RetiredIds(d)),
             Work(filled, d.staged, Resized), Work(filled, d.staged, Rehashed), Surplus(mergedPosts), Missing(filled, d.staged) != [])
  }

  /** The rows `dedupe_posts` removes. */
  function Surplus(posts: seq<Post>): nat {
    DedupedShorter(posts);
    |posts| - |Deduped(posts)|
  }

  lemma DedupedShorter(posts: seq<Post>)
    ensures |Deduped(posts)| <= |posts|
  {
    BestRowsShorter(posts, |posts|);
  }

  lemma {:induction false} BestRowsShorter(posts: seq<Post>, n: nat)
    requires n <= |posts|
    ensures |BestRows(posts, n)| <= n
  {
    if n > 0 { BestRowsShorter(posts, n - 1); }
  }

  // ----- a whole run -----

  /** What a run that is not refused leaves in memory: the lists, the drift, the fills that named nothing, and whether
      anything is a problem. */
  datatype Result = Result(profile: seq<Asset>, posts: seq<Post>, drift: Drift, unplaced: seq<string>, problems: bool)

  predicate AddedPostsPresent(posts: seq<Post>, d: Documents) {
    forall p :: p in d.posts ==> p.id in PostIds(posts)
  }

  /** The end of a run: the collapse, the curation, and what is counted and refused. */
  function Finished(fed: seq<Asset>, gathered: seq<Post>, i: Intake, s: Settling, d: Documents, audit: Audit): Result {
    var collapsed := Collapse.CollapsedPosts(gathered, d.collapse);
    var (p, q) := (Collapse.CollapsedProfile(fed, d.collapse), CurateAll(collapsed, d.curation));
    Result(p, q,
           Drift(s.resized, s.hashed, i.modified, i.appended - i.appendedRetired,
                 PendingAssets(fed, d.collapse) - i.appendedRetired
                   + |Collapse.PendingIn(gathered, Collapse.Substitutions(d.collapse))|,
                 i.posts, i.repaired, s.reconciled, s.filled - s.filledRetired, s.deduped, i.corrected,
                 CuratedPosts(collapsed, d.curation)),
           s.unplaced,
           i.missing || s.missing || Uncurated(collapsed, d.curation) != [] || !AddedPostsPresent(q, d) || !audit(p, q))
  }

  function Run(profile: seq<Asset>, posts: seq<Post>, d: Documents, audit: Audit): Outcome<Result> {
    if MergeRefused(Prepared(profile, d), d.assets) then Refused
    else if !Collapse.Accepted(Fed(profile, d), Gathered(posts, d), d.collapse) then Refused
    else
      Ok(Finished(Fed(profile, d), Gathered(posts, d), IntakeOf(profile, posts, d),
                  SettlingOf(AllMerged(profile, d), AllMergedPosts(posts, d), d), d, audit))
  }

  /** The property the stage counts its pending records by. */
  method CountPending(profile: seq<Asset>, doc: Collapse.Document) returns (n: nat)
    ensures n == PendingAssets(profile, doc)
  {
    n := 0;
    for i := 0 to |doc|
      invariant n == PendingAssets(profile, doc[..i])
    {
      assert doc[..i + 1][..i] == doc[..i];
      if Collapse.AssetState(profile, doc[i]) == Collapse.Pending {
        n := n + 1;
      }
    }
    assert doc[..|doc|] == doc;
  }

  /** Corrections, declarations, replacements and the two merges. */
  method TakeIn(w: Workspace, d: Documents) returns (refused: bool, i: Intake)
    modifies w
    ensures refused == MergeRefused(Prepared(old(w.profile), d), d.assets)
    ensures !refused ==> w.profile == AllMerged(old(w.profile), d) && w.posts == AllMergedPosts(old(w.posts), d)
    ensures !refused ==> i == IntakeOf(old(w.profile), old(w.posts), d)
  {
    hide AmendAll, Work, Missing, Appended, CountIn, NewPosts, TotalFiring, MergeRefused, Corrected, RepairsOf, AssetIds, PostIds,
         RetiredIds, MovedIds;
    i := Intake(0, 0, 0, 0, 0, 0, false);
    var corrected := ApplyCorrections(w, d.corrections);
    var undeclared := ApplyDeclarations(w, d.declarations);
    var processed: nat, modified: nat, unreplaced: seq<string>;
    processed, modified, unreplaced := ApplyReplacements(w, d.replacements);
    var appended: nat, repaired: nat, appendedRetired: nat;
    refused, appended, repaired, appendedRetired := MergeAdded(w, d.assets, RetiredIds(d));
    if refused {
      return;
    }
    var posts: nat, skipped: nat;
    posts, skipped := MergePosts(w, d.posts, MovedIds(d));
    i := Intake(corrected, modified, appended, appendedRetired, repaired, posts, undeclared != [] || unreplaced != []);
  }

  /** The reconcile, the staged measurements and the dedupe. */
  method Settle(w: Workspace, d: Documents) returns (s: Settling)
    modifies w
    ensures w.profile == FedFrom(old(w.profile), d) && w.posts == Deduped(old(w.posts))
    ensures s == SettlingOf(old(w.profile), old(w.posts), d)
  {
    hide AmendAll, Work, Missing, Reconciled, Unplaced, Deduped, AssetIds, RetiredIds;
    var reconciled: nat, filled: nat, filledRetired: nat, unplaced: seq<string>, retired: seq<string>;
    reconciled, filled, filledRetired, unplaced, retired := Reconcile(w, d.reconciled, d.fills, RetiredIds(d));
    var resized: nat, hashed: nat, unstaged: seq<string>;
    resized, hashed, unstaged := ApplyStaged(w, d.staged);
    var deduped: nat, duplicates: set<string>;
    deduped, duplicates := Dedupe(w);
    s := Settling(reconciled, filled, filledRetired, unplaced, resized, hashed, deduped, unstaged != []);
  }

  /** The collapse and the curation. */
  method Finish(w: Workspace, i: Intake, s: Settling, d: Documents, audit: Audit) returns (r: Outcome<Result>)
    modifies w
    ensures r == if Collapse.Accepted(old(w.profile), old(w.posts), d.collapse)
                 then Ok(Finished(old(w.profile), old(w.posts), i, s, d, audit)) else Refused
    ensures r.Ok? ==> w.profile == r.value.profile && w.posts == r.value.posts
  {
    hide CurateAll, CuratedPosts, Uncurated, PendingAssets, AddedPostsPresent, Collapse.Accepted, Collapse.CollapsedPosts,
         Collapse.CollapsedProfile, Collapse.PendingIn, Collapse.Substitutions;
    var pendingAssets := CountPending(w.profile, d.collapse);
    var accepted: bool, removed: nat, rewritten: nat, renamed: nat;
    accepted, removed, rewritten, renamed := Collapse.ApplyCollapse(w, d.collapse);
    if !accepted {
      return Refused;
    }
    var curated: nat, values: nat, uncurated: seq<string>;
    curated, values, uncurated := Curate(w, d.curation);
    var problems := i.missing || s.missing || uncurated != [] || !AddedPostsPresent(w.posts, d) || !audit(w.profile, w.posts);
    var drift := Drift(s.resized, s.hashed, i.modified, i.appended - i.appendedRetired, pendingAssets - i.appendedRetired + rewritten,
                       i.posts, i.repaired, s.reconciled, s.filled - s.filledRetired, s.deduped, i.corrected, curated);
    return Ok(Result(w.profile, w.posts, drift, s.unplaced, problems));
  }

  /** The passes, in the order of `main`. */
  method RunPasses(w: Workspace, d: Documents, audit: Audit) returns (r: Outcome<Result>)
    modifies w
    ensures r == Run(old(w.profile), old(w.posts), d, audit)
    ensures r.Ok? ==> w.profile == r.value.profile && w.posts == r.value.posts
  {
    hide FedFrom, IntakeOf, SettlingOf, AllMergedPosts, AllMerged, Prepared, MergeRefused, Deduped, Finished, Collapse.Accepted;
    var i: Intake, refused: bool;
    refused, i := TakeIn(w, d);
    if refused {
      return Refused;
    }
    var s := Settle(w, d);
    r := Finish(w, i, s, d, audit);
  }

  /** The exit code of `main`, under `--check` or not. */
  function ExitCode(r: Outcome<Result>, check: bool): nat {
    if !r.Ok? then 2
    else if r.value.problems || (check && (r.value.drift != NO_DRIFT || r.value.unplaced != [])) then 1
    else 0
  }

  /** The committed profile and posts. */
  class Committed {
    var profile: seq<Asset>
    var posts: seq<Post>

    /** The exit code of `main`, and the one case in which it writes. */
    method Upgrade(d: Documents, audit: Audit, check: bool, dryRun: bool) returns (exit: nat)
      modifies this
      ensures var r := Run(old(profile), old(posts), d, audit);
              && exit == ExitCode(r, check)
              && if exit == 0 && !check && !dryRun then profile == r.value.profile && posts == r.value.posts
                 else profile == old(profile) && posts == old(posts)
    {
      hide Run;
      var w := new Workspace(profile, posts);
      var r := RunPasses(w, d, audit);
      if !r.Ok? {
        return 2;
      }
      if r.value.problems {
        return 1;
      }
      if check {
        return if r.value.drift == NO_DRIFT && r.value.unplaced == [] then 0 else 1;
      }
      if dryRun {
        return 0;
      }
      profile, posts := w.profile, w.posts;
      return 0;
    }
  }
}
