/** What `--check` of `seed/scripts/apply_upgrade.py` tells: where it finds nothing to do, exactly when a run would indeed
    have changed nothing. */
module UpgradeCheck {
  import opened Sequences
  import opened Outcomes
  import opened Json
  import opened Catalogue
  import opened DedupePosts
  import opened UpgradeRecords
  import opened UpgradePasses
  import opened UpgradeMerges
  import opened UpgradeSteady
  import opened UpgradeRun
  import UpgradeAssets
  import UpgradeFixpoint
  import Collapse = AssetCollapse

  // ----- what no term counts -----

  predicate IsLast(id: string, chs: seq<Amendment>, i: nat) {
    i < |chs| && chs[i].id == id && forall j :: i < j < |chs| ==> chs[j].id != id
  }

  /** The last declaration of the record is on it. */
  ghost predicate AlreadyDeclared(e: Asset, declarations: Declarations) {
    forall i: nat :: IsLast(e.id, declarations, i) ==> At(e.fields, "ai_provenance") == Some(declarations[i].provenance)
  }

  /** The keys an amendment gives an empty object where they are absent, counting nothing. */
  function Defaults(ch: Amendment): set<string> {
    match ch
    case FillIn(_, values) => set k | k in values && values[k] == Object(map[])
    case Stage(_, _, _, _) => {"metadata"}
    case _ => {}
  }

  ghost predicate HasDefaults(e: Asset, chs: seq<Amendment>) {
    forall ch :: ch in chs && ch.id == e.id ==> Defaults(ch) <= e.fields.Keys
  }

  /** The record has its declaration, and every object a fill or a measurement would default. */
  ghost predicate Stands(e: Asset, d: Documents) {
    AlreadyDeclared(e, d.declarations) && HasDefaults(e, d.fills) && HasDefaults(e, d.staged)
  }

  /** No two merged records of one id are both appended. */
  ghost predicate AppendedOnce(ids: set<string>, assets: seq<Asset>) {
    forall i, j :: 0 <= i < j < |assets| && assets[i].id == assets[j].id ==> assets[i].id in ids
  }

  /** Nothing the terms do not see: every record has its declaration and the objects a fill or a measurement would default,
      and no merged record is appended twice, so that a retirement or a substitution cannot be counted away. */
  ghost predicate NothingUncounted(profile: seq<Asset>, d: Documents) {
    && (forall e :: e in profile ==> Stands(e, d))
    && AppendedOnce(AssetIds(profile), d.assets)
  }

  // ----- passes that count nothing -----

  lemma {:induction false} NoneFires(profile: seq<Asset>, c: Correction)
    requires Firing(c, profile) == 0
    ensures forall e :: e in profile ==> !Fires(c, e.fields)
    decreases |profile|
  {
    hide Fires;
    if profile != [] {
      NoneFires(profile[..|profile| - 1], c);
      assert profile == profile[..|profile| - 1] + [profile[|profile| - 1]];
    }
  }

  lemma {:induction false} NothingCorrected(profile: seq<Asset>, cs: seq<Correction>)
    requires TotalFiring(profile, cs) == 0
    ensures ProfileQuiet(profile, cs) && Corrected(profile, cs) == profile
    decreases |cs|
  {
    hide Fires, Firing;
    if cs != [] {
      var n := |cs| - 1;
      NothingCorrected(profile, cs[..n]);
      NoneFires(profile, cs[n]);
      assert cs == cs[..n] + [cs[n]];
    }
    QuietProfile(profile, cs);
  }

  lemma {:induction false} NothingModified(profile: seq<Asset>, chs: seq<Amendment>)
    requires Work(profile, chs, Modified) == 0
    ensures AmendAll(profile, chs) == profile
    decreases |chs|
  {
    hide Amended, LastAsset;
    if chs != [] { NothingModified(profile, chs[..|chs| - 1]); }
  }

  /** Where one count is never above another and comes to as much, they agree at every turn of every record. */
  lemma {:induction false} EqualTurns(profile: seq<Asset>, chs: seq<Amendment>, less: (Amendment, Record) -> nat,
                                      more: (Amendment, Record) -> nat, k: nat, i: nat)
    requires UniqueAssets(profile) && k < |profile| && i < |chs| && chs[i].id == profile[k].id
    requires (forall ch, r :: less(ch, r) <= more(ch, r)) && Work(profile, chs, more) <= Work(profile, chs, less)
    ensures less(chs[i], Along(profile[k].id, profile[k].fields, chs[..i])) == more(chs[i], Along(profile[k].id, profile[k].fields, chs[..i]))
    decreases |chs|
  {
    hide *;
    var n := |chs| - 1;
    if i < n {
      EqualBefore(profile, chs, less, more);
      assert chs[..n][..i] == chs[..i];
      EqualTurns(profile, chs[..n], less, more, k, i);
    } else {
      LessWork(profile, chs[..n], less, more);
      LastTurn(profile, chs, less, k);
      LastTurn(profile, chs, more, k);
      assert i == n;
    }
  }

  lemma EqualBefore(profile: seq<Asset>, chs: seq<Amendment>, less: (Amendment, Record) -> nat, more: (Amendment, Record) -> nat)
    requires (forall ch, r :: less(ch, r) <= more(ch, r)) && Work(profile, chs, more) <= Work(profile, chs, less) && chs != []
    ensures Work(profile, chs[..|chs| - 1], more) <= Work(profile, chs[..|chs| - 1], less)
  {
    hide LastAsset, AmendAll;
  }

  /** What the last amendment of a list costs. */
  lemma LastTurn(profile: seq<Asset>, chs: seq<Amendment>, cost: (Amendment, Record) -> nat, k: nat)
    requires UniqueAssets(profile) && k < |profile| && chs != [] && chs[|chs| - 1].id == profile[k].id
    ensures var n := |chs| - 1;
            Work(profile, chs, cost) == Work(profile, chs[..n], cost) + cost(chs[n], Along(profile[k].id, profile[k].fields, chs[..n]))
  {
    var n := |chs| - 1;
    UniqueAfter(profile, chs[..n]);
    AmendAllAt(profile, chs[..n], k);
    LastAssetUnique(AmendAll(profile, chs[..n]), k);
    hide LastAsset, AmendAll, Along, UniqueAssets;
  }

  lemma {:induction false} LessWork(profile: seq<Asset>, chs: seq<Amendment>, less: (Amendment, Record) -> nat, more: (Amendment, Record) -> nat)
    requires forall ch, r :: less(ch, r) <= more(ch, r)
    ensures Work(profile, chs, less) <= Work(profile, chs, more)
    decreases |chs|
  {
    hide LastAsset, AmendAll;
    if chs != [] { LessWork(profile, chs[..|chs| - 1], less, more); }
  }

  function Free(ch: Amendment, r: Record): nat {
    0
  }

  lemma {:induction false} FreeWork(profile: seq<Asset>, chs: seq<Amendment>)
    ensures Work(profile, chs, Free) == 0
    decreases |chs|
  {
    hide LastAsset, AmendAll;
    if chs != [] { FreeWork(profile, chs[..|chs| - 1]); }
  }

  // ----- one record, where nothing is counted -----

  /** The amendment counts nothing on the record. */
  predicate Uncounted(ch: Amendment, r: Record) {
    FilledCount(ch, r) == 0 && Resized(ch, r) == 0 && Rehashed(ch, r) == 0
  }

  ghost predicate Extends(r: Record, s: Record) {
    forall k :: k in r ==> k in s && s[k] == r[k]
  }

  /** A fill or a measurement that counts nothing adds its defaults where they are absent, and does no more. */
  lemma UncountedAmends(ch: Amendment, r: Record)
    requires (ch.FillIn? || ch.Stage?) && Uncounted(ch, r) && MetaIsObject(r)
    ensures Extends(r, Amended(ch, r)) && MetaIsObject(Amended(ch, r))
    ensures Amended(ch, r) == r <==> Defaults(ch) <= r.Keys
  {
    if ch.FillIn? { UncountedFill(ch.values, r); } else { UncountedStage(ch, r); }
  }

  lemma UncountedStage(ch: Amendment, r: Record)
    requires ch.Stage? && Uncounted(ch, r) && MetaIsObject(r)
    ensures Amended(ch, r) == r["metadata" := Object(Meta(r))]
    ensures Amended(ch, r) == r <==> "metadata" in r
  {
  }

  lemma UncountedFill(values: Record, r: Record)
    requires FilledPaths(r, values) == {} && MetaIsObject(r)
    ensures Extends(r, Filled(r, values)) && MetaIsObject(Filled(r, values))
    ensures Filled(r, values) == r <==> forall k :: k in values && values[k] == Object(map[]) ==> k in r
  {
    forall k | k in values
      ensures k in r ==> FilledValue(At(r, k), values[k]) == r[k]
      ensures k !in r ==> values[k] == Object(map[]) && FilledValue(At(r, k), values[k]) == values[k]
    {
      UncountedKey(values, r, k);
    }
    hide FilledValue, FilledPaths;
    var after := Filled(r, values);
    if forall k :: k in values && values[k] == Object(map[]) ==> k in r {
      assert after.Keys == r.Keys;
    }
  }

  lemma UncountedKey(values: Record, r: Record, k: string)
    requires FilledPaths(r, values) == {} && k in values
    ensures k in r ==> FilledValue(At(r, k), values[k]) == r[k]
    ensures k !in r ==> values[k] == Object(map[]) && FilledValue(At(r, k), values[k]) == values[k]
  {
    if values[k].Object? {
      forall k2 | k2 in values[k].fields ensures !FillsBelow(At(r, k), k2) {
        assert [k, k2] !in FilledPaths(r, values);
      }
      hide FilledPaths;
      if k in r {
        if r[k].Object? { assert FilledBelow(r[k].fields, values[k].fields) == r[k].fields; }
      } else {
        assert values[k].fields == map[];
        assert FilledBelow(map[], map[]) == map[];
      }
    } else {
      assert [k] !in FilledPaths(r, values);
    }
  }

  /** The record all along the fills and the measurements. */
  lemma {:induction false} UncountedAlong(e: Asset, chs: seq<Amendment>)
    requires MetaIsObject(e.fields)
    requires forall i :: 0 <= i < |chs| && chs[i].id == e.id ==>
               (chs[i].FillIn? || chs[i].Stage?) && Uncounted(chs[i], Along(e.id, e.fields, chs[..i]))
    ensures var r := Along(e.id, e.fields, chs);
            Extends(e.fields, r) && MetaIsObject(r) && (r == e.fields <==> HasDefaults(e, chs))
    decreases |chs|
  {
    hide Uncounted, Amended, MetaIsObject, Defaults, Extends;
    if chs != [] {
      var n := |chs| - 1;
      forall i | 0 <= i < n ensures chs[..n][..i] == chs[..i] {
      }
      UncountedAlong(e, chs[..n]);
      DefaultsSnoc(e, chs);
      hide HasDefaults;
      if chs[n].id == e.id { UncountedOnce(e, Along(e.id, e.fields, chs[..n]), chs[n]); }
    } else {
      SameExtends(e.fields);
    }
  }

  lemma SameExtends(r: Record)
    ensures Extends(r, r)
  {
  }

  lemma DefaultsSnoc(e: Asset, chs: seq<Amendment>)
    requires chs != []
    ensures var n := |chs| - 1;
            HasDefaults(e, chs) <==> HasDefaults(e, chs[..n]) && (chs[n].id == e.id ==> Defaults(chs[n]) <= e.fields.Keys)
  {
    hide Defaults;
    assert chs == chs[..|chs| - 1] + [chs[|chs| - 1]];
  }

  /** One more amendment that counts nothing. */
  lemma UncountedOnce(e: Asset, before: Record, ch: Amendment)
    requires (ch.FillIn? || ch.Stage?) && Uncounted(ch, before) && MetaIsObject(before) && Extends(e.fields, before)
    ensures Extends(e.fields, Amended(ch, before)) && MetaIsObject(Amended(ch, before))
    ensures Amended(ch, before) == e.fields <==> before == e.fields && Defaults(ch) <= e.fields.Keys
  {
    hide Uncounted, Amended, MetaIsObject, Defaults;
    UncountedAmends(ch, before);
    if Amended(ch, before) == e.fields { SameRecord(e.fields, before); }
  }

  lemma SameRecord(r: Record, s: Record)
    requires Extends(r, s) && Extends(s, r)
    ensures r == s
  {
  }

  lemma LastSnoc(id: string, chs: seq<Amendment>, i: nat)
    requires chs != []
    ensures var n := |chs| - 1;
            IsLast(id, chs, i) <==> if chs[n].id == id then i == n else IsLast(id, chs[..n], i)
  {
  }

  /** Only the last declaration of a record counts. */
  lemma DeclaredSnoc(e: Asset, declarations: Declarations)
    requires declarations != []
    ensures var n := |declarations| - 1;
            AlreadyDeclared(e, declarations) <==>
            if declarations[n].id == e.id then At(e.fields, "ai_provenance") == Some(declarations[n].provenance)
            else AlreadyDeclared(e, declarations[..n])
  {
    var n := |declarations| - 1;
    forall i: nat ensures IsLast(e.id, declarations, i) <==> if declarations[n].id == e.id then i == n else IsLast(e.id, declarations[..n], i) {
      LastSnoc(e.id, declarations, i);
    }
    assert forall i: nat :: IsLast(e.id, declarations[..n], i) ==> i < n;
    hide IsLast;
  }

  /** The record differs from `r` at most by a declaration. */
  predicate DeclaredFrom(r: Record, s: Record) {
    s == r || ("ai_provenance" in s && s == r["ai_provenance" := s["ai_provenance"]])
  }

  /** The record along the declarations. */
  lemma {:induction false} DeclaredAlong(e: Asset, declarations: Declarations)
    ensures var r := Along(e.id, e.fields, declarations);
            DeclaredFrom(e.fields, r) && (r == e.fields <==> AlreadyDeclared(e, declarations))
    decreases |declarations|
  {
    if declarations != [] {
      var n := |declarations| - 1;
      DeclaredAlong(e, declarations[..n]);
      DeclaredSnoc(e, declarations);
      hide AlreadyDeclared;
      if declarations[n].id == e.id {
        DeclareAfter(e.fields, Along(e.id, e.fields, declarations[..n]), declarations[n]);
      }
    }
  }

  lemma DeclareAfter(r: Record, s: Record, ch: Amendment)
    requires ch.Declare? && DeclaredFrom(r, s)
    ensures DeclaredFrom(r, Amended(ch, s))
    ensures Amended(ch, s) == r <==> At(r, "ai_provenance") == Some(ch.provenance)
  {
    assert Amended(ch, s) == r["ai_provenance" := ch.provenance];
  }

  // ----- the records a clean run brings in, and the collapse takes away -----

  /** What is appended holds each id once exactly when no id outside the profile is named twice. */
  lemma {:induction false} AppendedUniqueIff(ids: set<string>, assets: seq<Asset>)
    ensures UniqueAssets(Appended(ids, assets)) <==> AppendedOnce(ids, assets)
    ensures AssetIds(Appended(ids, assets)) == AssetIds(assets) - ids
    decreases |assets|
  {
    if assets != [] {
      var n := |assets| - 1;
      AppendedUniqueIff(ids, assets[..n]);
      assert assets == assets[..n] + [assets[n]];
      ProvenancedId(assets[n]);
      OnceSnoc(ids, assets);
      hide Provenanced, AppendedOnce, UniqueAssets, AssetIds;
      UpgradeAssets.OneMoreId(assets[..n], assets[n]);
      if assets[n].id in ids {
        assert Appended(ids, assets) == Appended(ids, assets[..n]);
      } else {
        UniqueSnoc(Appended(ids, assets[..n]), Provenanced(assets[n]));
      }
    }
  }

  lemma OnceSnoc(ids: set<string>, assets: seq<Asset>)
    requires assets != []
    ensures var n := |assets| - 1;
            AppendedOnce(ids, assets) <==>
            AppendedOnce(ids, assets[..n]) && (assets[n].id in ids || assets[n].id !in AssetIds(assets[..n]))
  {
    var n := |assets| - 1;
    if AppendedOnce(ids, assets) && assets[n].id in AssetIds(assets[..n]) {
      var i :| 0 <= i < n && assets[i].id == assets[n].id;
    }
    if AppendedOnce(ids, assets[..n]) && (assets[n].id in ids || assets[n].id !in AssetIds(assets[..n])) {
      forall i, j | 0 <= i < j < |assets| && assets[i].id == assets[j].id ensures assets[i].id in ids {
        assert assets[i] in assets[..n];
        if j < n { assert assets[..n][i].id == assets[..n][j].id; }
      }
    }
  }

  lemma UniqueSnoc(profile: seq<Asset>, a: Asset)
    ensures UniqueAssets(profile + [a]) <==> UniqueAssets(profile) && a.id !in AssetIds(profile)
    ensures AssetIds(profile + [a]) == AssetIds(profile) + {a.id}
  {
    var all := profile + [a];
    if UniqueAssets(all) {
      forall x | x in profile ensures x.id != a.id {
        var i :| 0 <= i < |profile| && profile[i] == x;
        assert all[i].id != all[|profile|].id;
      }
      forall i, j | 0 <= i < j < |profile| ensures profile[i].id != profile[j].id {
        assert all[i].id != all[j].id;
      }
    }
    if UniqueAssets(profile) && a.id !in AssetIds(profile) {
      UpgradeAssets.OneMoreUnique(profile, a);
    }
  }

  lemma {:induction false} CountUnique(records: seq<Asset>)
    ensures |AssetIds(records)| <= |records|
    ensures |AssetIds(records)| == |records| <==> UniqueAssets(records)
    decreases |records|
  {
    if records != [] {
      var n := |records| - 1;
      CountUnique(records[..n]);
      assert records == records[..n] + [records[n]];
      UniqueSnoc(records[..n], records[n]);
      hide UniqueAssets, AssetIds;
    }
  }

  lemma {:induction false} AllCounted(records: seq<Asset>, ids: set<string>)
    ensures CountIn(records, ids) <= |records|
    ensures CountIn(records, ids) == |records| ==> AssetIds(records) <= ids
    decreases |records|
  {
    if records != [] {
      var n := |records| - 1;
      AllCounted(records[..n], ids);
      assert records == records[..n] + [records[n]];
      UpgradeAssets.OneMoreId(records[..n], records[n]);
      hide AssetIds;
    }
  }

  /** The collapse retires every record of a retired id it is given. */
  lemma RetiredAreTaken(fed: seq<Asset>, doc: Collapse.Document)
    requires forall e :: e in doc ==> Collapse.AssetState(fed, e) != Collapse.Third
    ensures Collapse.RetiredNow(fed, doc) == AssetIds(fed) * Collapse.RetiredIds(doc)
  {
    hide FindAsset;
    forall id ensures id in Collapse.RetiredNow(fed, doc) <==> id in AssetIds(fed) * Collapse.RetiredIds(doc) {
      if id in AssetIds(fed) * Collapse.RetiredIds(doc) {
        var e :| e in doc && e.retiredId == id;
        assert FindAsset(fed, id).Some?;
        assert Collapse.AssetState(fed, e) == Collapse.Pending;
      }
    }
  }

  /** So it counts the retired records the profile held and the ids that were appended. */
  lemma PendingCount(fed: seq<Asset>, held: set<string>, news: seq<Asset>, doc: Collapse.Document)
    requires forall e :: e in doc ==> Collapse.AssetState(fed, e) != Collapse.Third
    requires forall i, j :: 0 <= i < j < |doc| ==> doc[i].retiredId != doc[j].retiredId
    requires AssetIds(fed) == held + AssetIds(news) && held !! AssetIds(news) && AssetIds(news) <= Collapse.RetiredIds(doc)
    ensures Collapse.RetiredNow(fed, doc) == held * Collapse.RetiredIds(doc) + AssetIds(news)
    ensures PendingAssets(fed, doc) == |held * Collapse.RetiredIds(doc)| + |AssetIds(news)|
  {
    RetiredAreTaken(fed, doc);
    UpgradeFixpoint.PendingIsRetired(fed, doc);
    hide Collapse.AssetState, Collapse.RetiredIds, Collapse.RetiredNow, AssetIds, PendingAssets;
    var (a, b) := (held * Collapse.RetiredIds(doc), AssetIds(news));
    assert Collapse.RetiredNow(fed, doc) == a + b;
    DisjointSizes(a, b);
  }

  lemma DisjointSizes(a: set<string>, b: set<string>)
    requires a !! b
    ensures |a + b| == |a| + |b|
  {
  }

  // ----- the posts -----

  lemma {:induction false} AllRowsKept(posts: seq<Post>, n: nat)
    requires n <= |posts| && |BestRows(posts, n)| == n
    ensures BestRows(posts, n) == posts[..n]
  {
    hide IsBest;
    if n > 0 {
      BestRowsShorter(posts, n - 1);
      AllRowsKept(posts, n - 1);
      assert posts[..n] == posts[..n - 1] + [posts[n - 1]];
    }
  }

  lemma {:induction false} NothingCurated(posts: seq<Post>, cs: seq<Curation>)
    requires CuratedPosts(posts, cs) == 0
    ensures CurateAll(posts, cs) == posts
    decreases |cs|
  {
    hide CurateOne;
    if cs != [] { NothingCurated(posts, cs[..|cs| - 1]); }
  }

  /** Where no post is merged, removed or curated, the posts change exactly if one is substituted. */
  lemma PostsChangeIff(posts: seq<Post>, d: Documents)
    requires Collapse.DocumentParses(d.collapse)
    requires NewPosts(PostIds(posts), MovedIds(d), d.posts) == [] && Surplus(AllMergedPosts(posts, d)) == 0
    requires CuratedPosts(Collapse.CollapsedPosts(Gathered(posts, d), d.collapse), d.curation) == 0
    ensures Gathered(posts, d) == posts
    ensures CurateAll(Collapse.CollapsedPosts(Gathered(posts, d), d.collapse), d.curation) == posts <==>
            Collapse.PendingIn(posts, Collapse.Substitutions(d.collapse)) == []
  {
    assert posts + [] == posts;
    AllRowsKept(posts, |posts|);
    NothingCurated(Collapse.CollapsedPosts(posts, d.collapse), d.curation);
    DedupedIsExact(posts);
    hide Surplus, Deduped, CuratedPosts, CurateAll, PostIds, NewPosts, MovedIds, UniquePosts;
    SubstitutionChanges(posts, d.collapse);
  }

  lemma SubstitutionChanges(posts: seq<Post>, doc: Collapse.Document)
    requires Collapse.DocumentParses(doc) && UniquePosts(posts)
    ensures Collapse.CollapsedPosts(posts, doc) == posts <==> Collapse.PendingIn(posts, Collapse.Substitutions(doc)) == []
  {
    var subs := Collapse.Substitutions(doc);
    var pending := Collapse.PendingIn(posts, subs);
    if pending != [] {
      var s := pending[0];
      Collapse.PendingMembers(posts, subs, s);
      Collapse.ParsedSubstitutions(doc);
      Collapse.CollapseConverts(posts, doc);
      Collapse.StateOf(posts, s);
      hide Collapse.PostState, Collapse.CollapsedPosts, UniquePosts, Collapse.DocumentParses;
      var i :| 0 <= i < |posts| && posts[i].id == s.postId && posts[i].members == s.oldMembers;
      assert Collapse.CollapsedPosts(posts, doc)[i] == Collapse.Rewrite(posts[i], s);
    }
  }

  // ----- a whole run that finds nothing -----

  /** The terms, one by one. */
  ghost predicate FindsNothing(profile: seq<Asset>, posts: seq<Post>, d: Documents) {
    var (i, s) := (IntakeOf(profile, posts, d), SettlingOf(AllMerged(profile, d), AllMergedPosts(posts, d), d));
    && i.corrected == i.modified == i.repaired == i.posts == 0 && i.appended == i.appendedRetired
    && s.resized == s.hashed == s.reconciled == s.deduped == 0 && s.filled == s.filledRetired
    && CuratedPosts(Collapse.CollapsedPosts(Gathered(posts, d), d.collapse), d.curation) == 0
    && PendingAssets(Fed(profile, d), d.collapse) + |Collapse.PendingIn(Gathered(posts, d), Collapse.Substitutions(d.collapse))| == i.appended
  }

  lemma NoDriftFindsNothing(profile: seq<Asset>, posts: seq<Post>, d: Documents, audit: Audit, r: Result)
    requires Run(profile, posts, d, audit) == Ok(r) && r.drift == NO_DRIFT
    ensures FindsNothing(profile, posts, d) && Collapse.Accepted(Fed(profile, d), Gathered(posts, d), d.collapse)
    ensures r.profile == Collapse.CollapsedProfile(Fed(profile, d), d.collapse)
    ensures r.posts == CurateAll(Collapse.CollapsedPosts(Gathered(posts, d), d.collapse), d.curation)
  {
    hide IntakeOf, SettlingOf, Fed, Gathered, AllMerged, AllMergedPosts, Prepared, MergeRefused, Collapse.Accepted, Collapse.CollapsedPosts,
         Collapse.CollapsedProfile, Collapse.PendingIn, PendingAssets, CurateAll, CuratedPosts, Uncurated, AddedPostsPresent;
  }

  /** The profile as the fills of a run that finds nothing see it. */
  function Base(profile: seq<Asset>, d: Documents): seq<Asset> {
    AmendAll(profile, d.declarations) + Appended(AssetIds(profile), d.assets)
  }

  /** What is left of the passes when nothing is counted: declarations, appended retired records, defaults. */
  lemma UncountedStages(profile: seq<Asset>, posts: seq<Post>, d: Documents)
    requires FindsNothing(profile, posts, d)
    ensures Fed(profile, d) == AmendAll(AmendAll(Base(profile, d), d.fills), d.staged)
    ensures Work(Base(profile, d), d.fills, FilledCount) == Work(Base(profile, d), d.fills, RetiredFilling(RetiredIds(d)))
    ensures Work(AmendAll(Base(profile, d), d.fills), d.staged, Resized) == 0
    ensures Work(AmendAll(Base(profile, d), d.fills), d.staged, Rehashed) == 0
    ensures AssetIds(Appended(AssetIds(profile), d.assets)) <= RetiredIds(d)
    ensures |Appended(AssetIds(profile), d.assets)| == IntakeOf(profile, posts, d).appended
  {
    var declared := AmendAll(profile, d.declarations);
    NothingCorrected(profile, d.corrections);
    NothingModified(declared, d.replacements);
    NothingModified(declared, RepairsOf(d.assets));
    SameIds(profile, d.declarations);
    AllCounted(Appended(AssetIds(profile), d.assets), RetiredIds(d));
    hide AmendAll, Work, Appended, CountIn, AssetIds, Reconciled, RetiredIds, TotalFiring, Corrected, RepairsOf, NewPosts, Missing, Unplaced,
         Surplus, CuratedPosts, PendingAssets, Collapse.PendingIn, Collapse.CollapsedPosts;
    assert Prepared(profile, d) == declared;
    assert AllMerged(profile, d) == Base(profile, d);
    assert Base(profile, d) + [] == Base(profile, d);
  }

  /** One record the profile holds: it comes to the collapse as it was exactly if nothing uncounted happens to it. */
  lemma RecordStandsIff(profile: seq<Asset>, posts: seq<Post>, d: Documents, k: nat)
    requires FindsNothing(profile, posts, d) && UniqueAssets(Base(profile, d))
    requires k < |profile| && profile[k].id !in RetiredIds(d) && MetaIsObject(profile[k].fields) && UniqueAssets(profile)
    ensures k < |Fed(profile, d)|
    ensures Fed(profile, d)[k] == profile[k] <==> Stands(profile[k], d)
  {
    var (base, late) := (Base(profile, d), d.fills + d.staged);
    UncountedStages(profile, posts, d);
    AmendAllAt(profile, d.declarations, k);
    DeclaredAlong(profile[k], d.declarations);
    var e := base[k];
    forall i | 0 <= i < |late| && late[i].id == e.id
      ensures (late[i].FillIn? || late[i].Stage?) && Uncounted(late[i], Along(e.id, e.fields, late[..i]))
    {
      UncountedTurn(base, d, k, i);
    }
    DeclaredKeepsMeta(profile[k].fields, e.fields);
    UncountedAlong(e, late);
    LateAt(base, d, k);
    hide *;
    StandsIff(profile[k], e, Along(e.id, e.fields, late), d);
  }

  lemma DeclaredKeepsMeta(r: Record, s: Record)
    requires DeclaredFrom(r, s) && MetaIsObject(r)
    ensures MetaIsObject(s)
  {
  }

  lemma LateAt(base: seq<Asset>, d: Documents, k: nat)
    requires UniqueAssets(base) && k < |base|
    ensures AmendAll(AmendAll(base, d.fills), d.staged)[k] == AmendedAsset(base[k], d.fills + d.staged)
  {
    AmendAllAt(base, d.fills, k);
    UniqueAfter(base, d.fills);
    AmendAllAt(AmendAll(base, d.fills), d.staged, k);
    AlongAppend(base[k].id, base[k].fields, d.fills, d.staged);
    hide Along, AmendAll;
  }

  /** A fill or a measurement of a record that is not to be retired counts nothing at its turn. */
  lemma UncountedTurn(base: seq<Asset>, d: Documents, k: nat, i: nat)
    requires UniqueAssets(base) && k < |base| && base[k].id !in RetiredIds(d) && i < |d.fills + d.staged|
    requires (d.fills + d.staged)[i].id == base[k].id
    requires Work(base, d.fills, FilledCount) == Work(base, d.fills, RetiredFilling(RetiredIds(d)))
    requires Work(AmendAll(base, d.fills), d.staged, Resized) == Work(AmendAll(base, d.fills), d.staged, Rehashed) == 0
    ensures var ch := (d.fills + d.staged)[i];
            (ch.FillIn? || ch.Stage?) && Uncounted(ch, Along(base[k].id, base[k].fields, (d.fills + d.staged)[..i]))
  {
    hide *;
    var (late, n) := (d.fills + d.staged, |d.fills|);
    if i < n {
      assert late[i] == d.fills[i] && late[..i] == d.fills[..i];
      UncountedFillTurn(base, d, k, i);
    } else {
      assert late[i] == d.staged[i - n] && late[..i] == d.fills + d.staged[..i - n];
      UncountedStageTurn(base, d, k, i - n);
    }
  }

  lemma UncountedFillTurn(base: seq<Asset>, d: Documents, k: nat, i: nat)
    requires UniqueAssets(base) && k < |base| && base[k].id !in RetiredIds(d) && i < |d.fills| && d.fills[i].id == base[k].id
    requires Work(base, d.fills, FilledCount) == Work(base, d.fills, RetiredFilling(RetiredIds(d)))
    ensures d.fills[i].FillIn? && Uncounted(d.fills[i], Along(base[k].id, base[k].fields, d.fills[..i]))
  {
    assert d.fills[i] in d.fills;
    hide Along, FilledPaths, AmendAll, Work, LastAsset, UniqueAssets, RetiredIds;
    EqualTurns(base, d.fills, RetiredFilling(RetiredIds(d)), FilledCount, k, i);
  }

  lemma UncountedStageTurn(base: seq<Asset>, d: Documents, k: nat, i: nat)
    requires UniqueAssets(base) && k < |base| && i < |d.staged| && d.staged[i].id == base[k].id
    requires Work(AmendAll(base, d.fills), d.staged, Resized) == Work(AmendAll(base, d.fills), d.staged, Rehashed) == 0
    ensures d.staged[i].Stage? && Uncounted(d.staged[i], Along(base[k].id, base[k].fields, d.fills + d.staged[..i]))
  {
    assert d.staged[i] in d.staged;
    hide Along, FilledPaths, AmendAll, Work, LastAsset, UniqueAssets, Sized, Unhashed, RetiredIds;
    var filled := AmendAll(base, d.fills);
    AmendAllAt(base, d.fills, k);
    UniqueAfter(base, d.fills);
    FreeWork(filled, d.staged);
    EqualTurns(filled, d.staged, Free, Resized, k, i);
    EqualTurns(filled, d.staged, Free, Rehashed, k, i);
    AlongAppend(base[k].id, base[k].fields, d.fills, d.staged[..i]);
  }

  lemma StandsIff(held: Asset, declared: Asset, last: Record, d: Documents)
    requires declared.id == held.id && DeclaredFrom(held.fields, declared.fields)
    requires declared.fields == held.fields <==> AlreadyDeclared(held, d.declarations)
    requires Extends(declared.fields, last) && (last == declared.fields <==> HasDefaults(declared, d.fills + d.staged))
    ensures last == held.fields <==> Stands(held, d)
  {
    DefaultsOfBoth(declared, d);
    hide AlreadyDeclared, HasDefaults;
    if last == held.fields { DeclaredBefore(held.fields, declared.fields); }
    if declared.fields == held.fields { assert declared == held; }
  }

  lemma DeclaredBefore(r: Record, s: Record)
    requires DeclaredFrom(r, s) && Extends(s, r)
    ensures s == r
  {
  }

  lemma DefaultsOfBoth(e: Asset, d: Documents)
    ensures HasDefaults(e, d.fills + d.staged) <==> HasDefaults(e, d.fills) && HasDefaults(e, d.staged)
  {
    hide Defaults;
  }

  /** The fed profile is made of the held records and the appended ones, in that order. */
  ghost predicate MadeOf(fed: seq<Asset>, n: nat, held: set<string>, news: seq<Asset>) {
    && |fed| == n + |news| && AssetIds(fed[..n]) == held && AssetIds(fed[n..]) == AssetIds(news)
    && AssetIds(fed) == held + AssetIds(news) && held !! AssetIds(news)
  }

  lemma IsMadeOf(declared: seq<Asset>, news: seq<Asset>, fed: seq<Asset>)
    requires |fed| == |declared| + |news| && forall k :: 0 <= k < |fed| ==> fed[k].id == (declared + news)[k].id
    requires AssetIds(declared) !! AssetIds(news)
    ensures MadeOf(fed, |declared|, AssetIds(declared), news)
  {
    var n := |declared|;
    UpgradeAssets.SameUnique(declared, fed[..n]);
    UpgradeAssets.SameUnique(news, fed[n..]);
    hide AssetIds, UniqueAssets;
    assert fed == fed[..n] + fed[n..];
    IdsOfBoth(fed[..n], fed[n..]);
  }

  lemma FedIdsAre(profile: seq<Asset>, posts: seq<Post>, d: Documents)
    requires FindsNothing(profile, posts, d) && UniqueAssets(profile)
    ensures var news := Appended(AssetIds(profile), d.assets);
            && MadeOf(Fed(profile, d), |profile|, AssetIds(profile), news)
            && (UniqueAssets(news) ==> UniqueAssets(Base(profile, d)))
  {
    var (fed, news) := (Fed(profile, d), Appended(AssetIds(profile), d.assets));
    var declared := AmendAll(profile, d.declarations);
    UncountedStages(profile, posts, d);
    AppendedUniqueIff(AssetIds(profile), d.assets);
    UpgradeAssets.SameUnique(profile, declared);
    hide *;
    BaseIs(profile, d);
    IsMadeOf(declared, news, fed);
    if UniqueAssets(news) { UpgradeAssets.UniqueBoth(declared, news); }
  }

  lemma BaseIs(profile: seq<Asset>, d: Documents)
    ensures Base(profile, d) == AmendAll(profile, d.declarations) + Appended(AssetIds(profile), d.assets)
  {
    hide AmendAll, Appended, AssetIds;
  }

  /** The collapse leaves the profile alone only if it holds no retired record. */
  lemma NoneRetired(profile: seq<Asset>, fed: seq<Asset>, doc: Collapse.Document)
    requires Collapse.RetiredNow(fed, doc) >= AssetIds(profile) * Collapse.RetiredIds(doc) && Collapse.CollapsedProfile(fed, doc) == profile
    ensures AssetIds(profile) * Collapse.RetiredIds(doc) == {}
  {
    forall a | a in profile ensures a.id !in Collapse.RetiredNow(fed, doc) {
      Collapse.WithoutMembers(fed, Collapse.RetiredNow(fed, doc), a);
    }
  }

  lemma NotRetired(profile: seq<Asset>, ids: set<string>, k: nat)
    requires AssetIds(profile) * ids == {} && k < |profile|
    ensures profile[k].id !in ids
  {
    assert profile[k].id in AssetIds(profile);
    assert profile[k].id in AssetIds(profile) * ids <==> profile[k].id in ids;
  }

  /** The profile stands exactly if each of its records does. */
  lemma ProfileStandsIff(profile: seq<Asset>, posts: seq<Post>, d: Documents)
    requires FindsNothing(profile, posts, d) && UniqueAssets(profile) && forall e :: e in profile ==> MetaIsObject(e.fields)
    requires UniqueAssets(Appended(AssetIds(profile), d.assets)) && AssetIds(profile) * RetiredIds(d) == {}
    requires Collapse.RetiredNow(Fed(profile, d), d.collapse) == AssetIds(Appended(AssetIds(profile), d.assets))
    ensures Collapse.CollapsedProfile(Fed(profile, d), d.collapse) == profile <==> forall e :: e in profile ==> Stands(e, d)
  {
    hide *;
    var (fed, n) := (Fed(profile, d), |profile|);
    FedIdsAre(profile, posts, d);
    HeldAreKept(fed, n, AssetIds(profile), Appended(AssetIds(profile), d.assets), d.collapse);
    forall k | 0 <= k < n ensures fed[k] == profile[k] <==> Stands(profile[k], d) {
      NotRetired(profile, RetiredIds(d), k);
      RecordStandsIff(profile, posts, d, k);
    }
    assert fed[..n] == profile <==> forall k :: 0 <= k < n ==> fed[k] == profile[k];
  }

  lemma HeldAreKept(fed: seq<Asset>, n: nat, held: set<string>, news: seq<Asset>, doc: Collapse.Document)
    requires MadeOf(fed, n, held, news) && Collapse.RetiredNow(fed, doc) == AssetIds(news)
    ensures n <= |fed| && Collapse.CollapsedProfile(fed, doc) == fed[..n]
  {
    hide AssetIds, Collapse.RetiredNow, Collapse.Without;
    UpgradeFixpoint.WithoutTail(fed[..n], fed[n..], AssetIds(news));
    assert fed == fed[..n] + fed[n..];
  }

  /** What the pending terms cancel: the retired records held and the posts to rewrite are as many as the merged records
      appended more than once. */
  lemma RetirementBalance(profile: seq<Asset>, posts: seq<Post>, d: Documents)
    requires FindsNothing(profile, posts, d) && UniqueAssets(profile) && Collapse.DocumentParses(d.collapse)
    requires Collapse.Accepted(Fed(profile, d), Gathered(posts, d), d.collapse)
    ensures var (held, news) := (AssetIds(profile), Appended(AssetIds(profile), d.assets));
            && Collapse.RetiredNow(Fed(profile, d), d.collapse) == held * Collapse.RetiredIds(d.collapse) + AssetIds(news)
            && |held * Collapse.RetiredIds(d.collapse)| + |Collapse.PendingIn(Gathered(posts, d), Collapse.Substitutions(d.collapse))|
               == |news| - |AssetIds(news)|
  {
    var (fed, held, news) := (Fed(profile, d), AssetIds(profile), Appended(AssetIds(profile), d.assets));
    UncountedStages(profile, posts, d);
    FedIdsAre(profile, posts, d);
    JudgedOnce(fed, Gathered(posts, d), d.collapse);
    hide AssetIds, UniqueAssets, Appended, Fed, Gathered, PendingAssets, IntakeOf, SettlingOf, CuratedPosts, AllMerged, AllMergedPosts,
         Collapse.RetiredIds, Collapse.RetiredNow, Collapse.CollapsedPosts, Collapse.PendingIn, Collapse.DocumentParses, Collapse.Accepted,
         Collapse.AssetState, Collapse.Substitutions;
    PendingCount(fed, held, news, d.collapse);
  }

  /** The clean check, exactly. Where every term of `--check` is zero, a run would leave profile and posts as they are if
      and only if nothing it does is uncounted. */
  lemma CleanCheckIff(profile: seq<Asset>, posts: seq<Post>, d: Documents, audit: Audit, r: Result)
    requires UniqueAssets(profile) && (forall e :: e in profile ==> MetaIsObject(e.fields)) && Collapse.DocumentParses(d.collapse)
    requires Run(profile, posts, d, audit) == Ok(r) && r.drift == NO_DRIFT
    ensures r.profile == profile && r.posts == posts <==> NothingUncounted(profile, d)
  {
    var (fed, held, news) := (Fed(profile, d), AssetIds(profile), Appended(AssetIds(profile), d.assets));
    var retired := held * Collapse.RetiredIds(d.collapse);
    hide *;
    NoDriftFindsNothing(profile, posts, d, audit, r);
    RetirementBalance(profile, posts, d);
    PostsStand(posts, profile, d);
    CountUnique(news);
    AppendedUniqueIff(held, d.assets);
    UncountedIs(profile, d);
    if r.profile == profile { NoneRetired(profile, fed, d.collapse); }
    if UniqueAssets(news) && retired == {} { ProfileStandsIff(profile, posts, d); }
  }

  lemma PostsStand(posts: seq<Post>, profile: seq<Asset>, d: Documents)
    requires FindsNothing(profile, posts, d) && Collapse.DocumentParses(d.collapse)
    ensures Gathered(posts, d) == posts
    ensures CurateAll(Collapse.CollapsedPosts(posts, d.collapse), d.curation) == posts <==>
            Collapse.PendingIn(posts, Collapse.Substitutions(d.collapse)) == []
  {
    hide Surplus, AllMergedPosts, AllMerged, Gathered, CuratedPosts, CurateAll, Fed, PendingAssets, Collapse.CollapsedPosts, Collapse.PendingIn,
         Collapse.DocumentParses, AmendAll, Work, Appended, AssetIds, Reconciled, TotalFiring;
    PostsChangeIff(posts, d);
  }

  lemma UncountedIs(profile: seq<Asset>, d: Documents)
    ensures NothingUncounted(profile, d) <==> (forall e :: e in profile ==> Stands(e, d)) && AppendedOnce(AssetIds(profile), d.assets)
    ensures RetiredIds(d) == Collapse.RetiredIds(d.collapse)
  {
    hide Stands, AppendedOnce, Collapse.RetiredIds;
  }

  lemma JudgedOnce(fed: seq<Asset>, posts: seq<Post>, doc: Collapse.Document)
    requires Collapse.DocumentParses(doc) && Collapse.Accepted(fed, posts, doc)
    ensures forall e :: e in doc ==> Collapse.AssetState(fed, e) != Collapse.Third
    ensures forall i, j :: 0 <= i < j < |doc| ==> doc[i].retiredId != doc[j].retiredId
  {
    hide Collapse.AssetState, Collapse.PostState;
  }
}
