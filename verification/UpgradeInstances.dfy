/** Inputs on which the upgrade breaks a promise: one for each change no term of `--check` counts, and the two ways a merged
    post meets a substitution that moves its id. */
module UpgradeInstances {
  import opened Sequences
  import opened Outcomes
  import opened Json
  import opened LossEnumeration
  import opened Catalogue
  import opened UpgradeRecords
  import opened UpgradePasses
  import opened UpgradeMerges
  import opened UpgradeSteady
  import opened UpgradeRun
  import opened DedupePosts
  import UpgradeIdempotent
  import Collapse = AssetCollapse

  // ----- changes no term sees -----

  /** Documents that only declare, fill and measure. */
  function Only(declarations: Declarations, fills: Fills, staged: Stagings): Documents {
    Documents([], declarations, [], [], [], [], fills, staged, [], [])
  }

  lemma OnlyFed(profile: seq<Asset>, declarations: Declarations, fills: Fills, staged: Stagings)
    ensures var (d, declared) := (Only(declarations, fills, staged), AmendAll(profile, declarations));
            && Prepared(profile, d) == AllMerged(profile, d) == declared && AllMergedPosts([], d) == Gathered([], d) == []
            && Fed(profile, d) == AmendAll(AmendAll(declared, fills), staged)
            && !MergeRefused(declared, d.assets) && RetiredIds(d) == MovedIds(d) == {}
  {
    var (d, declared) := (Only(declarations, fills, staged), AmendAll(profile, declarations));
    assert Corrected(profile, []) == profile;
    NothingAmended(declared, Modified);
    assert RepairsOf([]) == [];
    hide AmendAll;
    assert declared + [] == declared;
  }

  lemma OnlyIntake(profile: seq<Asset>, declarations: Declarations, fills: Fills, staged: Stagings)
    ensures IntakeOf(profile, [], Only(declarations, fills, staged)) == Intake(0, 0, 0, 0, 0, 0, Missing(profile, declarations) != [])
  {
    var (d, declared) := (Only(declarations, fills, staged), AmendAll(profile, declarations));
    OnlyFed(profile, declarations, fills, staged);
    assert Corrected(profile, []) == profile;
    NothingAmended(declared, Modified);
    assert RepairsOf([]) == [];
    hide AmendAll, Work, Missing, Prepared;
  }

  lemma OnlySettling(profile: seq<Asset>, declarations: Declarations, fills: Fills, staged: Stagings)
    ensures var (d, declared) := (Only(declarations, fills, staged), AmendAll(profile, declarations));
            SettlingOf(declared, [], d) ==
            Settling(0, Work(declared, fills, FilledCount), Work(declared, fills, RetiredFilling({})), Unplaced(declared, fills, {}),
                     Work(AmendAll(declared, fills), staged, Resized), Work(AmendAll(declared, fills), staged, Rehashed), 0,
                     Missing(AmendAll(declared, fills), staged) != [])
  {
    var (d, declared) := (Only(declarations, fills, staged), AmendAll(profile, declarations));
    assert RetiredIds(d) == {};
    hide AmendAll, Work, Missing, Unplaced;
    assert declared + [] == declared;
  }

  /** What a run with such documents comes to. */
  lemma OnlyRuns(profile: seq<Asset>, declarations: Declarations, fills: Fills, staged: Stagings, audit: Audit)
    ensures var (d, declared) := (Only(declarations, fills, staged), AmendAll(profile, declarations));
            var filled := AmendAll(declared, fills);
            var p := AmendAll(filled, staged);
            Run(profile, [], d, audit) ==
            Ok(Result(p, [],
                      Drift(Work(filled, staged, Resized), Work(filled, staged, Rehashed), 0, 0, 0, 0, 0, 0,
                            Work(declared, fills, FilledCount) - Work(declared, fills, RetiredFilling({})), 0, 0, 0),
                      Unplaced(declared, fills, {}),
                      Missing(profile, declarations) != [] || Missing(filled, staged) != [] || !audit(p, [])))
  {
    var d := Only(declarations, fills, staged);
    hide Run, Finished, IntakeOf, SettlingOf, Fed, Gathered, AllMerged, AllMergedPosts, Prepared, MergeRefused, Collapse.Accepted, AmendAll, Work,
         Missing, Unplaced, RetiredIds, MovedIds, PendingAssets, Collapse.PendingIn, Collapse.Substitutions;
    OnlyFed(profile, declarations, fills, staged);
    OnlyIntake(profile, declarations, fills, staged);
    OnlySettling(profile, declarations, fills, staged);
    NothingCollapses(Fed(profile, d));
    UpgradeIdempotent.RunIs(profile, [], d, audit);
    OnlyFinish(Fed(profile, d), IntakeOf(profile, [], d), SettlingOf(AllMerged(profile, d), AllMergedPosts([], d), d), d, audit);
  }

  lemma NothingCollapses(fed: seq<Asset>)
    ensures Collapse.Accepted(fed, [], []) && Collapse.CollapsedProfile(fed, []) == fed && Collapse.CollapsedPosts([], []) == []
    ensures PendingAssets(fed, []) == 0 && Collapse.PendingIn([], []) == [] && Collapse.Substitutions([]) == []
  {
    Collapse.WithoutNothing(fed);
    assert Collapse.RetiredNow(fed, []) == {};
  }

  lemma OnlyFinish(fed: seq<Asset>, i: Intake, s: Settling, d: Documents, audit: Audit)
    requires d.collapse == [] && d.curation == [] && d.posts == []
    ensures Finished(fed, [], i, s, d, audit) ==
            Result(fed, [], Drift(s.resized, s.hashed, i.modified, i.appended - i.appendedRetired, 0 - i.appendedRetired, i.posts, i.repaired,
                                  s.reconciled, s.filled - s.filledRetired, s.deduped, i.corrected, 0),
                   s.unplaced, i.missing || s.missing || !audit(fed, []))
  {
    NothingCollapses(fed);
    hide Collapse.CollapsedProfile, Collapse.CollapsedPosts, PendingAssets, Collapse.PendingIn, Collapse.Substitutions;
  }

  /** Where the passes count nothing and nothing is missing. */
  lemma OnlyIs(profile: seq<Asset>, declared: seq<Asset>, filled: seq<Asset>, p: seq<Asset>,
               declarations: Declarations, fills: Fills, staged: Stagings, audit: Audit)
    requires declared == AmendAll(profile, declarations) && filled == AmendAll(declared, fills) && p == AmendAll(filled, staged)
    requires Missing(profile, declarations) == [] && Missing(filled, staged) == [] && Unplaced(declared, fills, {}) == [] && audit(p, [])
    requires Work(filled, staged, Resized) == 0 && Work(filled, staged, Rehashed) == 0
    requires Work(declared, fills, FilledCount) == Work(declared, fills, RetiredFilling({}))
    ensures Run(profile, [], Only(declarations, fills, staged), audit) == Ok(Result(p, [], NO_DRIFT, [], false))
  {
    OnlyRuns(profile, declarations, fills, staged, audit);
    hide Run, AmendAll, Work, Missing, Unplaced, Only;
  }

  lemma OneAmended(e: Asset, ch: Amendment, cost: (Amendment, Record) -> nat)
    requires ch.id == e.id
    ensures AmendAll([e], [ch]) == [e.(fields := Amended(ch, e.fields))] && Missing([e], [ch]) == [] && Unplaced([e], [ch], {}) == []
    ensures Work([e], [ch], cost) == cost(ch, e.fields)
  {
    assert [ch][..0] == [];
    LastAssetUnique([e], 0);
    assert e.id in AssetIds([e]);
    hide Amended;
  }

  lemma NothingUnplaced(profile: seq<Asset>)
    ensures Unplaced(profile, [], {}) == []
  {
  }

  /** A declaration the profile lacks: `--check` is clean, and a run changes the profile. */
  lemma UnseenDeclaration(audit: Audit)
    requires audit([Asset("a", map["ai_provenance" := Text("yes")])], [])
    ensures var (profile, d) := ([Asset("a", map[])], Only([Declare("a", Text("yes"))], [], []));
            Run(profile, [], d, audit) == Ok(Result([Asset("a", map["ai_provenance" := Text("yes")])], [], NO_DRIFT, [], false))
  {
    var (profile, p, ch) := ([Asset("a", map[])], [Asset("a", map["ai_provenance" := Text("yes")])], Declare("a", Text("yes")));
    OneAmended(profile[0], ch, Modified);
    assert p == [profile[0].(fields := Amended(ch, profile[0].fields))];
    hide Run, Amended, AmendAll, Work, Missing, Unplaced, Only;
    NothingAmended(p, Resized);
    NothingAmended(p, Rehashed);
    NothingAmended(p, FilledCount);
    NothingAmended(p, RetiredFilling({}));
    NothingUnplaced(p);
    OnlyIs(profile, p, p, p, [ch], [], [], audit);
  }

  lemma DefaultedMetadata()
    ensures var (ch, r) := (Stage("a", Scalar(1.0), None, ""), map["file_size_bytes" := Scalar(1.0)]);
            Amended(ch, r) == map["file_size_bytes" := Scalar(1.0), "metadata" := Object(map[])] && Resized(ch, r) == Rehashed(ch, r) == 0
  {
  }

  /** So does a measurement that is right already, of a record without `metadata`, */
  lemma UnseenMetadata(audit: Audit)
    requires audit([Asset("a", map["file_size_bytes" := Scalar(1.0), "metadata" := Object(map[])])], [])
    ensures var (profile, d) := ([Asset("a", map["file_size_bytes" := Scalar(1.0)])], Only([], [], [Stage("a", Scalar(1.0), None, "")]));
            Run(profile, [], d, audit) ==
            Ok(Result([Asset("a", map["file_size_bytes" := Scalar(1.0), "metadata" := Object(map[])])], [], NO_DRIFT, [], false))
  {
    hide Run, Amended, FilledCount, Resized, Rehashed, AmendAll, Work, Missing, Unplaced, Only;
    var (r, ch) := (map["file_size_bytes" := Scalar(1.0)], Stage("a", Scalar(1.0), None, ""));
    var profile, p := [Asset("a", r)], [Asset("a", map["file_size_bytes" := Scalar(1.0), "metadata" := Object(map[])])];
    OneAmended(profile[0], ch, Resized);
    OneAmended(profile[0], ch, Rehashed);
    DefaultedMetadata();
    NothingAmended(profile, FilledCount);
    NothingAmended(profile, RetiredFilling({}));
    NothingUnplaced(profile);
    OnlyIs(profile, profile, profile, p, [], [], [ch], audit);
  }

  lemma DefaultedObject()
    ensures var (ch, r) := (FillIn("a", map["x" := Object(map[])]), map[]);
            && Amended(ch, r) == map["x" := Object(map[])] && FilledCount(ch, r) == RetiredFilling({})(ch, r) == 0
  {
    assert FilledBelow(map[], map[]) == map[];
    assert FilledPaths(map[], map["x" := Object(map[])]) == {};
  }

  /** and a fill with an empty object. */
  lemma UnseenObject(audit: Audit)
    requires audit([Asset("a", map["x" := Object(map[])])], [])
    ensures var (profile, d) := ([Asset("a", map[])], Only([], [FillIn("a", map["x" := Object(map[])])], []));
            Run(profile, [], d, audit) == Ok(Result([Asset("a", map["x" := Object(map[])])], [], NO_DRIFT, [], false))
  {
    hide Run, Amended, FilledCount, Resized, Rehashed, AmendAll, Work, Missing, Unplaced, Only, RetiredFilling;
    var (r, ch) := (map[], FillIn("a", map["x" := Object(map[])]));
    var (profile, p) := ([Asset("a", r)], [Asset("a", map["x" := Object(map[])])]);
    OneAmended(profile[0], ch, FilledCount);
    OneAmended(profile[0], ch, RetiredFilling({}));
    DefaultedObject();
    NothingAmended(profile, Modified);
    NothingAmended(p, Resized);
    NothingAmended(p, Rehashed);
    OnlyIs(profile, profile, p, p, [], [ch], [], audit);
  }

  // ----- a retirement counted away -----

  const KEPT := Asset("kept", map[])
  const GONE := Asset("gone", map[])
  const TWIN := Asset("twin", map["source_path" := Text("twin")])

  function Retire(a: Asset): Collapse.Entry {
    Collapse.Entry(a.id, "kept", a, Losses(AsJson(a), Some(AsJson(KEPT))), [])
  }

  /** One merge record listed twice, and a document that retires it and a record the profile holds. */
  function Twins(): Documents {
    Documents([], [], [], [TWIN, TWIN], [], [], [], [], [Retire(GONE), Retire(TWIN)], [])
  }

  lemma {:induction false} NoneHeld(profile: seq<Asset>, chs: seq<Amendment>, cost: (Amendment, Record) -> nat)
    requires forall ch :: ch in chs ==> ch.id !in AssetIds(profile)
    ensures AmendAll(profile, chs) == profile && Work(profile, chs, cost) == 0
    decreases |chs|
  {
    hide AssetIds;
    if chs != [] {
      NoneHeld(profile, chs[..|chs| - 1], cost);
      assert chs == chs[..|chs| - 1] + [chs[|chs| - 1]];
    }
  }

  lemma TwinsAppended()
    ensures AssetIds([KEPT, GONE]) == {"kept", "gone"} && Appended({"kept", "gone"}, [TWIN, TWIN]) == [TWIN, TWIN]
    ensures !TitleRefused(TWIN)
  {
    assert [TWIN, TWIN][..1] == [TWIN] && [TWIN][..0] == [];
    assert Provenanced(TWIN) == TWIN;
    assert Appended({"kept", "gone"}, []) == [];
    assert Appended({"kept", "gone"}, [TWIN]) == [TWIN];
    assert TextAt(TWIN.fields, "title") == "";
  }

  lemma TwinsCorrected()
    ensures var (profile, d) := ([KEPT, GONE], Twins()); Prepared(profile, d) == profile
  {
    assert Corrected([KEPT, GONE], []) == [KEPT, GONE];
    hide AmendAll;
    NothingAmended([KEPT, GONE], Modified);
  }

  lemma TwinsAreNew()
    ensures forall ch :: ch in RepairsOf([TWIN, TWIN]) ==> ch.id !in {"kept", "gone"}
  {
  }

  lemma TwinsPrepared()
    ensures var (profile, d) := ([KEPT, GONE], Twins());
            && Prepared(profile, d) == profile && AllMerged(profile, d) == [KEPT, GONE, TWIN, TWIN]
            && Work(profile, RepairsOf(d.assets), Modified) == 0
  {
    var (profile, repairs) := ([KEPT, GONE], RepairsOf([TWIN, TWIN]));
    TwinsAppended();
    TwinsCorrected();
    TwinsAreNew();
    TwinsName();
    hide Appended, AssetIds, RepairsOf, Work, AmendAll, Prepared, Twins;
    NoneHeld(profile, repairs, Modified);
    assert profile + [TWIN, TWIN] == [KEPT, GONE, TWIN, TWIN];
  }

  lemma TwinsFed()
    ensures var (profile, d) := ([KEPT, GONE], Twins());
            Fed(profile, d) == [KEPT, GONE, TWIN, TWIN] && AllMergedPosts([], d) == Gathered([], d) == []
  {
    var all := [KEPT, GONE, TWIN, TWIN];
    TwinsPrepared();
    hide Prepared, AllMerged;
    NothingAmended(all, Modified);
    hide AmendAll, AssetIds;
    TwinsName();
    assert all + [] == all;
  }

  lemma TwinsFound()
    ensures var fed := [KEPT, GONE, TWIN, TWIN];
            FindAsset(fed, "kept") == Some(KEPT) && FindAsset(fed, "gone") == Some(GONE) && FindAsset(fed, "twin") == Some(TWIN)
  {
    assert [] + [KEPT] == [KEPT] && [KEPT] + [GONE] == [KEPT, GONE] && [KEPT, GONE] + [TWIN] == [KEPT, GONE, TWIN];
    assert [KEPT, GONE, TWIN] + [TWIN] == [KEPT, GONE, TWIN, TWIN];
    TwinsFind("kept");
    TwinsFind("gone");
    TwinsFind("twin");
    hide FindAsset;
  }

  lemma TwinsFind(id: string)
    ensures FindAsset([] + [KEPT] + [GONE] + [TWIN] + [TWIN], id) ==
            if id == "twin" then Some(TWIN) else if id == "gone" then Some(GONE) else if id == "kept" then Some(KEPT) else None
  {
    assert FindAsset([], id) == None;
    hide FindAsset;
    Collapse.FindSnoc([], KEPT, id);
    Collapse.FindSnoc([] + [KEPT], GONE, id);
    Collapse.FindSnoc([] + [KEPT] + [GONE], TWIN, id);
    Collapse.FindSnoc([] + [KEPT] + [GONE] + [TWIN], TWIN, id);
  }

  lemma TwinsPending()
    ensures var (fed, doc) := ([KEPT, GONE, TWIN, TWIN], Twins().collapse);
            Collapse.AssetState(fed, Retire(GONE)) == Collapse.AssetState(fed, Retire(TWIN)) == Collapse.Pending
  {
    TwinsFound();
    hide Losses, AsJson, FindAsset;
  }

  lemma TwinsTaken()
    ensures Collapse.Without([KEPT, GONE, TWIN, TWIN], {"gone", "twin"}) == [KEPT] && CountIn([TWIN, TWIN], {"gone", "twin"}) == 2
  {
    var (fed, ids) := ([KEPT, GONE, TWIN, TWIN], {"gone", "twin"});
    assert [TWIN][1..] == [] && [TWIN, TWIN][1..] == [TWIN] && fed[1..] == [GONE, TWIN, TWIN] && [GONE, TWIN, TWIN][1..] == [TWIN, TWIN];
    assert Collapse.Without([TWIN], ids) == [];
    assert Collapse.Without([TWIN, TWIN], ids) == [];
    assert Collapse.Without([GONE, TWIN, TWIN], ids) == [];
    assert [TWIN][..0] == [] && [TWIN, TWIN][..1] == [TWIN];
    assert CountIn([], ids) == 0 && CountIn([TWIN], ids) == 1;
  }

  lemma TwinsCollapsed()
    ensures var (fed, d) := ([KEPT, GONE, TWIN, TWIN], Twins());
            && Collapse.Substitutions(d.collapse) == [] && Collapse.Accepted(fed, [], d.collapse)
            && Collapse.CollapsedProfile(fed, d.collapse) == [KEPT] && Collapse.CollapsedPosts([], d.collapse) == []
            && PendingAssets(fed, d.collapse) == 2 && CountIn([TWIN, TWIN], RetiredIds(d)) == 2
  {
    var (fed, doc) := ([KEPT, GONE, TWIN, TWIN], Twins().collapse);
    TwinsPending();
    TwinsTaken();
    hide Collapse.AssetState, AsJson, Losses, Collapse.Without, CountIn;
    assert doc[1..] == [Retire(TWIN)] && doc[1..][1..] == [] && doc[..1] == [Retire(GONE)] && doc[..1][..0] == [];
    assert Collapse.RetiredNow(fed, doc) == {"gone", "twin"} == RetiredIds(Twins());
    assert PendingAssets(fed, doc[..1]) == 1;
  }

  lemma TwinsIntake()
    ensures IntakeOf([KEPT, GONE], [], Twins()) == Intake(0, 0, 2, 2, 0, 0, false)
  {
    var (profile, d) := ([KEPT, GONE], Twins());
    TwinsAppended();
    TwinsPrepared();
    TwinsCollapsed();
    assert Corrected(profile, []) == profile;
    NothingAmended(profile, Modified);
    hide Appended, CountIn, AmendAll, Work, Missing, Prepared, AllMerged, Twins, RetiredIds, AssetIds, Collapse.Substitutions, Collapse.Accepted,
         Collapse.CollapsedProfile, Collapse.CollapsedPosts, PendingAssets;
    TwinsName();
  }

  lemma TwinsName()
    ensures var d := Twins(); d.corrections == [] && d.declarations == [] && d.replacements == [] && d.posts == [] && d.reconciled == []
                              && d.assets == [TWIN, TWIN] && d.fills == [] && d.staged == [] && d.curation == []
  {
  }

  lemma TwinsSettling()
    ensures SettlingOf(AllMerged([KEPT, GONE], Twins()), AllMergedPosts([], Twins()), Twins()) == Settling(0, 0, 0, [], 0, 0, 0, false)
  {
    var (all, d) := ([KEPT, GONE, TWIN, TWIN], Twins());
    TwinsPrepared();
    TwinsFed();
    TwinsName();
    hide AmendAll, Work, Missing, Prepared, AllMerged, AllMergedPosts, Gathered, Fed, Twins, RetiredIds, AssetIds;
    NothingAmended(all, FilledCount);
    NothingAmended(all, RetiredFilling(RetiredIds(d)));
    NothingAmended(all, Resized);
    NothingAmended(all, Rehashed);
    assert all + [] == all;
  }

  /** A retired record that a merge document lists twice pays for one the profile still holds: `--check` is clean, and a run
      removes a record. */
  lemma UnseenRetirement(audit: Audit)
    requires audit([KEPT], [])
    ensures Run([KEPT, GONE], [], Twins(), audit) == Ok(Result([KEPT], [], NO_DRIFT, [], false))
  {
    var (profile, d) := ([KEPT, GONE], Twins());
    TwinsPrepared();
    TwinsAppended();
    TwinsFed();
    TwinsCollapsed();
    TwinsIntake();
    TwinsSettling();
    TwinsName();
    hide Run, Finished, IntakeOf, SettlingOf, Fed, Gathered, AllMerged, AllMergedPosts, Prepared, TitleRefused, AssetIds, Twins, Work, Appended,
         CountIn, RetiredIds, PendingAssets, Collapse.Accepted, Collapse.CollapsedProfile, Collapse.CollapsedPosts, Collapse.Substitutions,
         RepairsOf;
    UpgradeIdempotent.RunIs(profile, [], d, audit);
    TwinsFinish(Fed(profile, d), IntakeOf(profile, [], d), SettlingOf(AllMerged(profile, d), AllMergedPosts([], d), d), d, audit);
  }

  lemma TwinsFinish(fed: seq<Asset>, i: Intake, s: Settling, d: Documents, audit: Audit)
    requires d.curation == [] && d.posts == [] && Collapse.Substitutions(d.collapse) == [] && Collapse.CollapsedPosts([], d.collapse) == []
    requires Collapse.CollapsedProfile(fed, d.collapse) == [KEPT] && PendingAssets(fed, d.collapse) == 2 && audit([KEPT], [])
    requires i == Intake(0, 0, 2, 2, 0, 0, false) && s == Settling(0, 0, 0, [], 0, 0, 0, false)
    ensures Finished(fed, [], i, s, d, audit) == Result([KEPT], [], NO_DRIFT, [], false)
  {
    hide Collapse.CollapsedProfile, Collapse.CollapsedPosts, Collapse.Substitutions, PendingAssets;
  }

  // ----- merged posts whose id moves -----

  /** Documents that only merge posts and retire. */
  function Retiring(added: seq<Post>, doc: Collapse.Document): Documents {
    Documents([], [], [], [], added, [], [], [], doc, [])
  }

  lemma RetiringFed(profile: seq<Asset>, posts: seq<Post>, added: seq<Post>, doc: Collapse.Document)
    requires UniquePosts(posts) && forall p :: p in added ==> p.id in PostIds(posts)
    ensures var d := Retiring(added, doc);
            && Prepared(profile, d) == Fed(profile, d) == profile && Gathered(posts, d) == posts && !MergeRefused(profile, d.assets)
  {
    var d := Retiring(added, doc);
    assert Corrected(profile, []) == profile;
    assert RepairsOf([]) == [] && profile + [] == profile && posts + [] == posts;
    hide AmendAll, PostIds, UniquePosts, MovedIds;
    NothingAmended(profile, Modified);
    UpgradeIdempotent.NoNewPosts(PostIds(posts), MovedIds(d), added);
    DedupeIsIdempotent(posts);
  }

  lemma RetiringRuns(profile: seq<Asset>, posts: seq<Post>, added: seq<Post>, doc: Collapse.Document, audit: Audit)
    requires UniquePosts(posts) && (forall p :: p in added ==> p.id in PostIds(posts)) && Collapse.Accepted(profile, posts, doc)
    ensures Run(profile, posts, Retiring(added, doc), audit).Ok?
    ensures var r := Run(profile, posts, Retiring(added, doc), audit).value; r.posts == Collapse.CollapsedPosts(posts, doc)
  {
    RetiringFed(profile, posts, added, doc);
    hide Prepared, Fed, Gathered, MergeRefused, IntakeOf, SettlingOf, Collapse.Accepted, Collapse.CollapsedProfile, Collapse.CollapsedPosts,
         PendingAssets, Collapse.PendingIn, Collapse.Substitutions, UniquePosts, PostIds;
  }

  const MOVE := Collapse.Substitution("a", ["gone"], ["kept"], Some("b"))
  const ONTO := Collapse.Substitution("c", ["gone"], ["kept"], Some("a"))

  function Moving(subs: seq<Collapse.Substitution>): Collapse.Document {
    [Collapse.Entry("gone", "kept", GONE, Losses(AsJson(GONE), Some(AsJson(KEPT))), subs)]
  }

  lemma MovingAccepted(posts: seq<Post>, subs: seq<Collapse.Substitution>)
    requires subs == [MOVE] || subs == [MOVE, ONTO]
    requires forall s :: s in subs ==> Collapse.PostState(posts, s) == Collapse.Pending
    ensures Collapse.Substitutions(Moving(subs)) == subs && Collapse.DocumentParses(Moving(subs))
    ensures Collapse.Accepted([KEPT, GONE], posts, Moving(subs))
  {
    hide Collapse.PostState, Losses;
    assert [KEPT, GONE][..1] == [KEPT];
    assert FindAsset([KEPT, GONE], "kept") == Some(KEPT) && FindAsset([KEPT, GONE], "gone") == Some(GONE);
    assert Moving(subs)[1..] == [];
  }

  const ONE := [Post("a", ["gone"], map[])]
  const TWO := [Post("a", ["gone"], map[]), Post("c", ["gone"], map[])]

  lemma OneMoves()
    ensures UniquePosts(ONE) && PostIds(ONE) == {"a"} && Collapse.PostState(ONE, MOVE) == Collapse.Pending
  {
    LastPostUnique(ONE, 0);
  }

  lemma TwoMove()
    ensures UniquePosts(TWO) && PostIds(TWO) == {"a", "c"}
    ensures Collapse.PostState(TWO, MOVE) == Collapse.PostState(TWO, ONTO) == Collapse.Pending
  {
    LastPostUnique(TWO, 0);
    LastPostUnique(TWO, 1);
  }

  lemma MoveIsFresh()
    ensures Collapse.FreshIds(ONE, [MOVE])
  {
    OneMoves();
    hide Collapse.PostState;
  }

  lemma MovesAway(subs: seq<Collapse.Substitution>)
    requires MOVE in subs && Collapse.Substitutions(Moving(subs)) == subs
    ensures "a" in MovedIds(Retiring(ONE, Moving(subs)))
  {
    hide Collapse.Substitutions;
  }

  /** A merged post whose id a substitution moves: the run ends with a problem. */
  lemma MovedPostRun(audit: Audit)
    ensures var doc := Moving([MOVE]);
            var r := Run([KEPT, GONE], ONE, Retiring(ONE, doc), audit);
            Collapse.DocumentParses(doc) && Collapse.FreshIds(ONE, Collapse.Substitutions(doc)) && r.Ok? && r.value.problems
  {
    var (profile, subs) := ([KEPT, GONE], [MOVE]);
    var d := Retiring(ONE, Moving(subs));
    assert d.posts == ONE && d.collapse == Moving(subs) && ONE[0].id == "a";
    hide *;
    OneMoves();
    MoveIsFresh();
    MovingAccepted(ONE, subs);
    MovesAway(subs);
    RetiringRuns(profile, ONE, ONE, Moving(subs), audit);
    RetiringFed(profile, ONE, ONE, Moving(subs));
    UpgradeIdempotent.MovedPostIsAProblem(profile, ONE, d, audit, Run(profile, ONE, d, audit).value);
  }

  /** The conclusion of the exact condition, where everything merged has the one id. */
  lemma AllPresent(r: seq<Post>, d: Documents, gathered: seq<Post>)
    requires d.posts == ONE && UpgradeIdempotent.MovedOnto(gathered, Collapse.Substitutions(d.collapse), "a")
    requires AddedPostsPresent(r, d) <==>
             forall p :: p in d.posts && p.id in MovedIds(d) ==> UpgradeIdempotent.MovedOnto(gathered, Collapse.Substitutions(d.collapse), p.id)
    ensures AddedPostsPresent(r, d)
  {
    hide AddedPostsPresent, MovedIds, UpgradeIdempotent.MovedOnto, Collapse.Substitutions;
  }

  /** The same, with another substitution that moves its post onto the id: every merged post is present. */
  lemma MovedOntoRun(audit: Audit)
    ensures var doc := Moving([MOVE, ONTO]);
            var r := Run([KEPT, GONE], TWO, Retiring(ONE, doc), audit);
            && Collapse.DocumentParses(doc) && r.Ok? && AddedPostsPresent(r.value.posts, Retiring(ONE, doc))
            && ONE[0].id in MovedIds(Retiring(ONE, doc))
  {
    var (profile, subs) := ([KEPT, GONE], [MOVE, ONTO]);
    var d := Retiring(ONE, Moving(subs));
    assert d.posts == ONE && d.collapse == Moving(subs) && ONE[0].id == "a" && ONTO in subs && ONTO.newId == Some("a");
    hide *;
    TwoMove();
    MovingAccepted(TWO, subs);
    MovesAway(subs);
    RetiringRuns(profile, TWO, ONE, Moving(subs), audit);
    RetiringFed(profile, TWO, ONE, Moving(subs));
    MovesOnto(TWO, subs);
    var r := Run(profile, TWO, d, audit).value;
    UpgradeIdempotent.MovedPostIsAProblem(profile, TWO, d, audit, r);
    AllPresent(r.posts, d, TWO);
  }

  lemma MovesOnto(posts: seq<Post>, subs: seq<Collapse.Substitution>)
    requires ONTO in subs && Collapse.PostState(posts, ONTO) == Collapse.Pending
    ensures UpgradeIdempotent.MovedOnto(posts, subs, "a")
  {
    hide Collapse.PostState;
  }
}
