/** The path a record had before a file was swapped under it: what a replacement, a run and any number of runs make of it. */
module UpgradePaths {
  import opened Outcomes
  import opened Sequences
  import opened Json
  import opened Catalogue
  import opened UpgradeRecords
  import opened UpgradePasses
  import opened UpgradeMerges
  import opened UpgradeSteady
  import opened UpgradeRun
  import opened UpgradeAssets
  import Collapse = AssetCollapse

  // ----- what there is to remember -----

  /** The record came from the local dataset tree. */
  predicate OfLocalTree(r: Record) {
    "source_root" !in r || r["source_root"] == Text("local")
  }

  /** The record has a source path: one that Python takes for true. */
  predicate HasPath(r: Record) {
    && "source_path" in r && r["source_path"] != Null && r["source_path"] != Scalar(0.0) && r["source_path"] != Text("")
    && r["source_path"] != List([]) && r["source_path"] != Object(map[])
  }

  ghost predicate Names(chs: seq<Amendment>, id: string) {
    exists ch :: ch in chs && ch.id == id
  }

  /** What `replaced_source_path` must hold: what it held, or the path the record of the local tree had when it was replaced. */
  function Remembers(r: Record, replaced: bool): Option<Json> {
    if "replaced_source_path" in r then Some(r["replaced_source_path"])
    else if replaced && OfLocalTree(r) && HasPath(r) then Some(r["source_path"])
    else None
  }

  predicate IsPath(v: Option<Json>) {
    v.Some? && v.value.Text? && v.value.text != ""
  }

  // ----- the replacements -----

  /** A record that comes last of its id, along the pass; the others are left alone. */
  lemma {:induction false} AmendLastAt(profile: seq<Asset>, chs: seq<Amendment>, k: nat)
    requires k < |profile|
    ensures (forall j :: k < j < |profile| ==> profile[j].id != profile[k].id) ==> AmendAll(profile, chs)[k] == AmendedAsset(profile[k], chs)
    ensures (exists j :: k < j < |profile| && profile[j].id == profile[k].id) ==> AmendAll(profile, chs)[k] == profile[k]
    decreases |chs|
  {
    hide Amended;
    if chs != [] {
      var n := |chs| - 1;
      AmendLastAt(profile, chs[..n], k);
      var before := AmendAll(profile, chs[..n]);
      assert LastAsset(before, chs[n].id) == k ==> chs[n].id == profile[k].id;
      if chs[n].id == profile[k].id { assert before[k] in before && chs[n].id in AssetIds(before); }
    }
  }

  lemma {:induction false} AlongReplacements(id: string, r: Record, chs: Replacements)
    ensures At(Along(id, r, chs), "replaced_source_path") == Remembers(r, Names(chs, id))
    ensures Names(chs, id) ==> Get(Along(id, r, chs), "source_root") == Text("hq")
    ensures !Names(chs, id) ==> Along(id, r, chs) == r
    decreases |chs|
  {
    if chs != [] {
      var n := |chs| - 1;
      AlongReplacements(id, r, chs[..n]);
      assert chs == chs[..n] + [chs[n]];
      assert Names(chs, id) <==> Names(chs[..n], id) || chs[n].id == id;
      if chs[n].id == id { ReplacedPath(chs[n], Along(id, r, chs[..n])); }
      hide Along, Amended, Names;
    }
  }

  lemma ReplacedPath(ch: Amendment, r: Record)
    requires ch.Replace?
    ensures At(Replaced(ch, r), "replaced_source_path") == Remembers(r, true) && Get(Replaced(ch, r), "source_root") == Text("hq")
    ensures Replaced(ch, r) == Amended(ch, r)
    ensures Get(r, "source_root") == Text("hq") ==> Remembers(r, true) == At(r, "replaced_source_path")
  {
  }

  /** The pass, on the last record of each id: named by a replacement, a record of the local tree that has a path holds at
      `replaced_source_path` what it held there, or else that path; any other record gains no such key. */
  lemma ReplacementsRemember(profile: seq<Asset>, replacements: Replacements, k: nat)
    requires k < |profile| && forall j :: k < j < |profile| ==> profile[j].id != profile[k].id
    ensures var (before, after) := (profile[k].fields, AmendAll(profile, replacements)[k].fields);
            && ("replaced_source_path" in before ==> At(after, "replaced_source_path") == At(before, "replaced_source_path"))
            && ("replaced_source_path" !in before && Names(replacements, profile[k].id) && OfLocalTree(before) && HasPath(before) ==>
                  At(after, "replaced_source_path") == At(before, "source_path"))
            && ("replaced_source_path" in after && "replaced_source_path" !in before ==>
                  Names(replacements, profile[k].id) && OfLocalTree(before) && HasPath(before))
  {
    AmendLastAt(profile, replacements, k);
    AlongReplacements(profile[k].id, profile[k].fields, replacements);
    hide AmendAll, Along;
  }

  /** `text` is what follows the last separator of `s`, or all of it. */
  ghost predicate IsAfterLast(s: string, sep: char, text: string) {
    sep !in text && (s == text || exists before :: s == before + [sep] + text)
  }

  lemma {:induction false} AfterLastIff(s: string, sep: char, text: string)
    ensures IsAfterLast(s, sep, text) <==> AfterLast(s, sep) == text
    decreases |s|
  {
    if s == "" {
      assert IsAfterLast(s, sep, "");
    } else if s[|s| - 1] == sep {
      assert s == s[..|s| - 1] + [sep] + "";
      assert text != "" ==> !(sep !in text && text[|text| - 1] == sep);
    } else if text != "" {
      AfterLastIff(s[..|s| - 1], sep, text[..|text| - 1]);
      OneMore(s, sep, text);
    }
  }

  lemma OneMore(s: string, sep: char, text: string)
    requires s != "" && s[|s| - 1] != sep && text != ""
    ensures IsAfterLast(s, sep, text) <==> IsAfterLast(s[..|s| - 1], sep, text[..|text| - 1]) && text[|text| - 1] == s[|s| - 1]
  {
    var (n, m) := (|s| - 1, |text| - 1);
    assert s == s[..n] + [s[n]] && text == text[..m] + [text[m]];
    if before :| s == before + [sep] + text { assert s[..n] == before + [sep] + text[..m]; }
    if before :| s[..n] == before + [sep] + text[..m] {
      assert text[m] == s[n] ==> s == before + [sep] + text;
    }
  }

  /** Position `n` holds the last amendment of the id. */
  ghost predicate LastOf(chs: seq<Amendment>, n: nat, id: string) {
    n < |chs| && chs[n].id == id && forall j :: n < j < |chs| ==> chs[j].id != id
  }

  lemma {:induction false} AlongLast(id: string, r: Record, chs: seq<Amendment>, n: nat)
    requires LastOf(chs, n, id)
    ensures Along(id, r, chs) == Amended(chs[n], Along(id, r, chs[..n]))
    decreases |chs|
  {
    hide Amended;
    var m := |chs| - 1;
    if n < m {
      AlongLast(id, r, chs[..m], n);
      assert chs[..m][..n] == chs[..n];
    }
  }

  /** Corrections look at the original path: a replacement leaves it as it was, exactly where it was not held as an empty
      value; then the pool file's name takes its place. */
  lemma OriginalPathIff(profile: seq<Asset>, replacements: Replacements, k: nat, n: nat)
    requires k < |profile| && forall j :: k < j < |profile| ==> profile[j].id != profile[k].id
    requires LastOf(replacements, n, profile[k].id)
    requires var r := profile[k].fields; OfLocalTree(r) && IsPath(At(r, "source_path"))
    ensures var (before, after) := (profile[k].fields, AmendAll(profile, replacements)[k].fields);
            OriginalPath(after) == OriginalPath(before) <==>
            || "replaced_source_path" !in before || IsPath(At(before, "replaced_source_path"))
            || IsAfterLast(replacements[n].path, '/', before["source_path"].text)
  {
    var (id, r) := (profile[k].id, profile[k].fields);
    AmendLastAt(profile, replacements, k);
    AlongReplacements(id, r, replacements);
    AlongLast(id, r, replacements, n);
    PoolName(replacements[n], Along(id, r, replacements[..n]));
    AfterLastIff(replacements[n].path, '/', r["source_path"].text);
    assert replacements[n] in replacements;
    hide AmendAll, Along, AfterLast, IsAfterLast, Amended;
  }

  lemma PoolName(ch: Amendment, r: Record)
    requires ch.Replace?
    ensures At(Amended(ch, r), "source_path") == Some(Text(AfterLast(ch.path, '/')))
  {
  }

  /** So a correction applied after the swap moves the record exactly when its pattern occurs in the path the record had
      before it. */
  lemma CorrectionSeesOriginal(profile: seq<Asset>, replacements: Replacements, c: Correction, k: nat, path: string)
    requires k < |profile| && forall j :: k < j < |profile| ==> profile[j].id != profile[k].id
    requires path != "" && OfLocalTree(profile[k].fields) && At(profile[k].fields, "source_path") == Some(Text(path))
    requires "replaced_source_path" !in profile[k].fields
    ensures var (team, after) := (At(profile[k].fields, "team_name"), Corrected(AmendAll(profile, replacements), [c])[k].fields);
            At(after, "team_name") ==
            if team == Some(Text(c.fromTeam)) && exists a, b :: path == a + c.pattern + b then Some(Text(c.toTeam)) else team
  {
    var (id, r) := (profile[k].id, profile[k].fields);
    var after := AmendAll(profile, replacements)[k];
    AmendLastAt(profile, replacements, k);
    AlongReplacements(id, r, replacements);
    TeamStays(id, r, replacements);
    ContainsIff(path, c.pattern);
    assert OriginalPath(after.fields) == path;
    OneCorrection(c, after);
    hide AmendAll, Along, Contains, Corrected, CorrectAll;
    assert Corrected(AmendAll(profile, replacements), [c])[k] == CorrectAll([c], after);
  }

  lemma {:induction false} TeamStays(id: string, r: Record, chs: Replacements)
    ensures At(Along(id, r, chs), "team_name") == At(r, "team_name")
    decreases |chs|
  {
    if chs != [] {
      TeamStays(id, r, chs[..|chs| - 1]);
      assert chs[|chs| - 1] in chs;
      ReplaceKeepsKey(chs[|chs| - 1], Along(id, r, chs[..|chs| - 1]), "team_name");
      TeamIs(chs[|chs| - 1], Along(id, r, chs[..|chs| - 1]));
      hide Amended, Replaced;
    }
  }

  lemma TeamIs(ch: Amendment, r: Record)
    requires ch.Replace?
    ensures At(Amended(ch, r), "team_name") == At(r, "team_name")
  {
  }

  lemma ContainsIff(s: string, pattern: string)
    ensures Contains(s, pattern) <==> exists a, b :: s == a + pattern + b
  {
    if Contains(s, pattern) {
      var i :| 0 <= i <= |s| && pattern <= s[i..];
      assert s == s[..i] + pattern + s[i + |pattern|..];
    }
    if a, b :| s == a + pattern + b { assert pattern <= s[|a|..]; }
  }

  lemma OneCorrection(c: Correction, e: Asset)
    ensures CorrectAll([c], e) ==
            if At(e.fields, "team_name") == Some(Text(c.fromTeam)) && Contains(OriginalPath(e.fields), c.pattern)
            then e.(fields := e.fields["team_name" := Text(c.toTeam)]) else e
  {
    assert [c][..0] == [];
    hide Contains, OriginalPath;
  }

  // ----- a whole run -----

  predicate IsPathKey(key: string) {
    key == "source_path" || key == "replaced_source_path"
  }

  /** A fill of the record brings a value for the key. */
  ghost predicate FillsKey(chs: seq<Amendment>, id: string, key: string) {
    exists ch :: ch in chs && ch.id == id && ch.FillIn? && key in ch.values
  }

  /** Nothing but a replacement or a fill writes the paths, and a fill writes neither over a path. */
  lemma PathStays(ch: Amendment, r: Record, key: string)
    requires IsPathKey(key) && !ch.Replace? && (ch.FillIn? && key in ch.values ==> IsPath(At(r, key)))
    ensures At(Amended(ch, r), key) == At(r, key)
  {
  }

  lemma {:induction false} AlongPathStays(id: string, r: Record, chs: seq<Amendment>, key: string)
    requires IsPathKey(key) && (forall ch :: ch in chs && ch.id == id ==> !ch.Replace?)
    requires FillsKey(chs, id, key) ==> IsPath(At(r, key))
    ensures At(Along(id, r, chs), key) == At(r, key)
    decreases |chs|
  {
    hide Amended, IsPath;
    if chs != [] {
      var n := |chs| - 1;
      assert chs == chs[..n] + [chs[n]];
      assert FillsKey(chs[..n], id, key) ==> FillsKey(chs, id, key);
      AlongPathStays(id, r, chs[..n], key);
      if chs[n].id == id { PathStays(chs[n], Along(id, r, chs[..n]), key); }
    }
  }

  lemma {:induction false} CorrectedStays(cs: seq<Correction>, e: Asset, key: string)
    requires key != "team_name"
    ensures At(CorrectAll(cs, e).fields, key) == At(e.fields, key)
    decreases |cs|
  {
    hide Fires;
    if cs != [] { CorrectedStays(cs[..|cs| - 1], e, key); }
  }

  /** What the passes after the replacements can do to a path. */
  lemma LaterStays(id: string, r: Record, d: Documents, key: string)
    requires UniqueAssets(d.assets) && IsPathKey(key) && (FillsKey(d.fills, id, key) ==> IsPath(At(r, key)))
    ensures At(Along(id, r, Repairs(d) + LateAmendments(d)), key) == At(r, key)
  {
    RepairsAre(d);
    var later := Repairs(d) + LateAmendments(d);
    hide Repairs, UniqueAssets, IsPath, Along;
    assert forall ch :: ch in later <==> ch in Repairs(d) || ch in d.fills || ch in d.staged;
    assert FillsKey(later, id, key) ==> FillsKey(d.fills, id, key);
    AlongPathStays(id, r, later, key);
  }

  /** The record as the passes leave it: corrected, declared, replaced, and the rest. */
  lemma FedInParts(profile: seq<Asset>, d: Documents, k: nat)
    requires UniqueAssets(profile) && UniqueAssets(d.assets) && k < |profile|
    ensures k < |Fed(profile, d)| && Fed(profile, d)[k].id == profile[k].id
    ensures var (id, r) := (profile[k].id, Along(profile[k].id, CorrectAll(d.corrections, profile[k]).fields, d.declarations));
            Fed(profile, d)[k].fields == Along(id, Along(id, r, d.replacements), Repairs(d) + LateAmendments(d))
  {
    FedFromHeld(profile, d);
    FedAt(profile, d, k);
    var e := CorrectAll(d.corrections, profile[k]);
    hide Along, Fed, Arrivals, CorrectAll, Repairs, LateAmendments, UniqueAssets, AmendAll, Prepared, AllMerged, Reconciled, AssetIds;
    Associative(d.declarations + d.replacements, Repairs(d), LateAmendments(d));
    AlongAppend(e.id, e.fields, d.declarations + d.replacements, Repairs(d) + LateAmendments(d));
    AlongAppend(e.id, e.fields, d.declarations, d.replacements);
  }

  /** What the passes before the replacements leave of what they look at. */
  lemma EarlierStays(d: Documents, e: Asset)
    ensures var r := Along(e.id, CorrectAll(d.corrections, e).fields, d.declarations);
            && At(r, "source_path") == At(e.fields, "source_path") && At(r, "source_root") == At(e.fields, "source_root")
            && At(r, "replaced_source_path") == At(e.fields, "replaced_source_path")
  {
    var r := CorrectAll(d.corrections, e).fields;
    CorrectedStays(d.corrections, e, "source_path");
    CorrectedStays(d.corrections, e, "source_root");
    CorrectedStays(d.corrections, e, "replaced_source_path");
    DeclaredStays(e.id, r, d.declarations, "source_path");
    DeclaredStays(e.id, r, d.declarations, "source_root");
    DeclaredStays(e.id, r, d.declarations, "replaced_source_path");
    hide CorrectAll, Along;
  }

  lemma {:induction false} DeclaredStays(id: string, r: Record, chs: Declarations, key: string)
    requires key != "ai_provenance"
    ensures At(Along(id, r, chs), key) == At(r, key)
    decreases |chs|
  {
    if chs != [] {
      DeclaredStays(id, r, chs[..|chs| - 1], key);
      assert chs[|chs| - 1] in chs;
    }
  }

  /** What a run keeps of the paths of a record: `after` of `before`. */
  ghost predicate KeepsPaths(before: Record, after: Record, d: Documents, id: string) {
    var kept := Remembers(before, Names(d.replacements, id));
    && (IsPath(kept) || !FillsKey(d.fills, id, "replaced_source_path") ==> At(after, "replaced_source_path") == kept)
    && (!Names(d.replacements, id) && (IsPath(At(before, "source_path")) || !FillsKey(d.fills, id, "source_path")) ==>
          At(after, "source_path") == At(before, "source_path"))
  }

  lemma SameRemembers(r: Record, before: Record, replaced: bool)
    requires At(r, "source_path") == At(before, "source_path") && At(r, "source_root") == At(before, "source_root")
    requires At(r, "replaced_source_path") == At(before, "replaced_source_path")
    ensures Remembers(r, replaced) == Remembers(before, replaced)
  {
  }

  /** The record a run judges. */
  lemma FedRemembers(profile: seq<Asset>, d: Documents, k: nat)
    requires UniqueAssets(profile) && UniqueAssets(d.assets) && k < |profile|
    ensures k < |Fed(profile, d)| && KeepsPaths(profile[k].fields, Fed(profile, d)[k].fields, d, profile[k].id)
  {
    var (id, r) := (profile[k].id, Along(profile[k].id, CorrectAll(d.corrections, profile[k]).fields, d.declarations));
    FedInParts(profile, d, k);
    EarlierStays(d, profile[k]);
    AlongReplacements(id, r, d.replacements);
    var replaced := Along(id, r, d.replacements);
    SameRemembers(r, profile[k].fields, Names(d.replacements, id));
    hide Along, CorrectAll, Fed, Names, FillsKey, UniqueAssets, Repairs, LateAmendments, Remembers, IsPath, At;
    if IsPath(At(replaced, "replaced_source_path")) || !FillsKey(d.fills, id, "replaced_source_path") {
      LaterStays(id, replaced, d, "replaced_source_path");
    }
    if IsPath(At(replaced, "source_path")) || !FillsKey(d.fills, id, "source_path") {
      LaterStays(id, replaced, d, "source_path");
    }
  }

  /** A record of the profile that a run has left is the one the run judged. */
  lemma LeftIsFed(profile: seq<Asset>, posts: seq<Post>, d: Documents, audit: Audit, r: Result, k: nat, b: Asset)
    requires UniqueAssets(profile) && UniqueAssets(d.assets) && k < |profile|
    requires Run(profile, posts, d, audit) == Ok(r) && b in r.profile && b.id == profile[k].id
    ensures k < |Fed(profile, d)| && b == Fed(profile, d)[k]
  {
    FedIds(profile, d);
    FedInParts(profile, d, k);
    RunIs(profile, posts, d, audit, r);
    hide Fed, Run, Along, CorrectAll, Repairs, LateAmendments, Collapse.CollapsedProfile;
    Collapse.WithoutMembers(Fed(profile, d), Collapse.RetiredNow(Fed(profile, d), d.collapse), b);
    assert b in Fed(profile, d);
  }

  lemma RunIs(profile: seq<Asset>, posts: seq<Post>, d: Documents, audit: Audit, r: Result)
    requires Run(profile, posts, d, audit) == Ok(r)
    ensures r.profile == Collapse.Without(Fed(profile, d), Collapse.RetiredNow(Fed(profile, d), d.collapse))
  {
    hide Fed, Gathered, MergeRefused, IntakeOf, SettlingOf, Collapse.Accepted;
  }

  /** A whole run, record by record: what there is to remember is remembered, a path once remembered is never written over,
      and only a fill that brings the key can give it to a record that had nothing to remember. */
  lemma RunRemembers(profile: seq<Asset>, posts: seq<Post>, d: Documents, audit: Audit, r: Result, k: nat, b: Asset)
    requires UniqueAssets(profile) && UniqueAssets(d.assets) && k < |profile|
    requires Run(profile, posts, d, audit) == Ok(r) && b in r.profile && b.id == profile[k].id
    ensures var (before, after, named) := (profile[k].fields, b.fields, Names(d.replacements, b.id));
            && (IsPath(At(before, "replaced_source_path")) ==> At(after, "replaced_source_path") == At(before, "replaced_source_path"))
            && ("replaced_source_path" !in before && named && OfLocalTree(before) && IsPath(At(before, "source_path")) ==>
                  At(after, "replaced_source_path") == At(before, "source_path"))
            && ("replaced_source_path" in after && "replaced_source_path" !in before ==>
                  (named && OfLocalTree(before) && HasPath(before)) || FillsKey(d.fills, b.id, "replaced_source_path"))
  {
    hide *;
    FedRemembers(profile, d, k);
    LeftIsFed(profile, posts, d, audit, r, k, b);
    KeptPath(profile[k].fields, b.fields, d, b.id);
  }

  lemma KeptPath(before: Record, after: Record, d: Documents, id: string)
    requires KeepsPaths(before, after, d, id)
    ensures IsPath(At(before, "replaced_source_path")) ==> At(after, "replaced_source_path") == At(before, "replaced_source_path")
    ensures "replaced_source_path" !in before && Names(d.replacements, id) && OfLocalTree(before) && IsPath(At(before, "source_path")) ==>
              At(after, "replaced_source_path") == At(before, "source_path")
    ensures "replaced_source_path" in after && "replaced_source_path" !in before ==>
              (Names(d.replacements, id) && OfLocalTree(before) && HasPath(before)) || FillsKey(d.fills, id, "replaced_source_path")
  {
    hide Names, FillsKey;
  }

  /** A record of the local tree, or one no replacement names, keeps its original path, unless a fill brings a record its
      first `replaced_source_path` where nothing is remembered. */
  lemma RunKeepsOriginalPath(profile: seq<Asset>, posts: seq<Post>, d: Documents, audit: Audit, r: Result, k: nat, b: Asset)
    requires UniqueAssets(profile) && UniqueAssets(d.assets) && k < |profile|
    requires Run(profile, posts, d, audit) == Ok(r) && b in r.profile && b.id == profile[k].id
    requires var (before, named) := (profile[k].fields, Names(d.replacements, b.id));
             || IsPath(At(before, "replaced_source_path"))
             || ("replaced_source_path" !in before && IsPath(At(before, "source_path"))
                 && if named then OfLocalTree(before) else !FillsKey(d.fills, b.id, "replaced_source_path"))
    ensures OriginalPath(b.fields) == OriginalPath(profile[k].fields)
  {
    hide *;
    FedRemembers(profile, d, k);
    LeftIsFed(profile, posts, d, audit, r, k, b);
    KeptOriginal(profile[k].fields, b.fields, d, b.id);
  }

  lemma KeptOriginal(before: Record, after: Record, d: Documents, id: string)
    requires KeepsPaths(before, after, d, id)
    requires || IsPath(At(before, "replaced_source_path"))
             || ("replaced_source_path" !in before && IsPath(At(before, "source_path"))
                 && if Names(d.replacements, id) then OfLocalTree(before) else !FillsKey(d.fills, id, "replaced_source_path"))
    ensures OriginalPath(after) == OriginalPath(before)
  {
    hide Names, FillsKey;
  }

  // ----- any number of runs -----

  /** Runs of the upgrade on the committed files: each commits what it makes, or, refused or finding a problem, nothing. */
  ghost predicate Runs(profiles: seq<seq<Asset>>, posts: seq<seq<Post>>, ds: seq<Documents>, audits: seq<Audit>) {
    && |profiles| == |posts| == |ds| + 1 && |audits| == |ds|
    && forall i :: 0 <= i < |ds| ==>
         UniqueAssets(ds[i].assets) && Commits(profiles[i], posts[i], ds[i], audits[i], profiles[i + 1], posts[i + 1])
  }

  ghost predicate Commits(profile: seq<Asset>, posts: seq<Post>, d: Documents, audit: Audit, after: seq<Asset>, postsAfter: seq<Post>) {
    var r := Run(profile, posts, d, audit);
    if r.Ok? && !r.value.problems then after == r.value.profile && postsAfter == r.value.posts
    else after == profile && postsAfter == posts
  }

  lemma CommitsUnique(profile: seq<Asset>, posts: seq<Post>, d: Documents, audit: Audit, after: seq<Asset>, postsAfter: seq<Post>)
    requires UniqueAssets(profile) && UniqueAssets(d.assets) && Commits(profile, posts, d, audit, after, postsAfter)
    ensures UniqueAssets(after)
  {
    var r := Run(profile, posts, d, audit);
    if r.Ok? && !r.value.problems {
      RunIs(profile, posts, d, audit, r.value);
      FedIds(profile, d);
      hide Run, Fed, UniqueAssets;
      WithoutUnique(Fed(profile, d), Collapse.RetiredNow(Fed(profile, d), d.collapse));
    }
  }

  lemma {:induction false} WithoutUnique(profile: seq<Asset>, ids: set<string>)
    requires UniqueAssets(profile)
    ensures UniqueAssets(Collapse.Without(profile, ids))
    decreases |profile|
  {
    if profile != [] {
      WithoutUnique(profile[1..], ids);
      Collapse.WithoutMembers(profile[1..], ids, profile[0]);
      var rest := Collapse.Without(profile[1..], ids);
      forall i | 0 <= i < |rest| ensures rest[i].id != profile[0].id {
        Collapse.WithoutMembers(profile[1..], ids, rest[i]);
        assert rest[i] in rest;
      }
    }
  }

  /** The profile holds a record of the id that remembers the path, and corrections see it there. */
  ghost predicate HoldsPath(profile: seq<Asset>, id: string, path: string) {
    exists b :: b in profile && b.id == id && At(b.fields, "replaced_source_path") == Some(Text(path)) && OriginalPath(b.fields) == path
  }

  /** Once a path is remembered it stays for as long as the record does: over any runs, with different documents each time. */
  lemma {:induction false} RunsRemember(profiles: seq<seq<Asset>>, posts: seq<seq<Post>>, ds: seq<Documents>, audits: seq<Audit>,
                                        n: nat, id: string, path: string)
    requires Runs(profiles, posts, ds, audits) && UniqueAssets(profiles[0]) && n <= |ds|
    requires path != "" && HoldsPath(profiles[0], id, path) && forall i :: 0 <= i <= n ==> id in AssetIds(profiles[i])
    ensures UniqueAssets(profiles[n]) && HoldsPath(profiles[n], id, path)
    decreases n
  {
    hide HoldsPath, Commits, UniqueAssets, AssetIds;
    if n > 0 {
      var m := n - 1;
      RunsRemember(profiles, posts, ds, audits, m, id, path);
      CommitsUnique(profiles[m], posts[m], ds[m], audits[m], profiles[n], posts[n]);
      CommitRemembers(profiles[m], posts[m], ds[m], audits[m], profiles[n], posts[n], id, path);
    }
  }

  lemma CommitRemembers(profile: seq<Asset>, posts: seq<Post>, d: Documents, audit: Audit, after: seq<Asset>, postsAfter: seq<Post>,
                        id: string, path: string)
    requires UniqueAssets(profile) && UniqueAssets(d.assets) && Commits(profile, posts, d, audit, after, postsAfter)
    requires path != "" && HoldsPath(profile, id, path) && id in AssetIds(after)
    ensures HoldsPath(after, id, path)
  {
    hide Run, UniqueAssets;
    var e :| e in profile && e.id == id && At(e.fields, "replaced_source_path") == Some(Text(path));
    var k :| 0 <= k < |profile| && profile[k] == e;
    var b :| b in after && b.id == id;
    var r := Run(profile, posts, d, audit);
    if r.Ok? && !r.value.problems {
      RunRemembers(profile, posts, d, audit, r.value, k, b);
    }
  }
}
