/** The passes of `seed/scripts/apply_upgrade.py` over the whole profile and the posts: loops that amend records in place
    and append new ones, each proved against what it makes of the lists. */
module UpgradePasses {
  import opened Json
  import opened Catalogue
  import opened UpgradeRecords

  type Declarations = chs: seq<Amendment> | forall ch :: ch in chs ==> ch.Declare?
  type Replacements = chs: seq<Amendment> | forall ch :: ch in chs ==> ch.Replace?
  type Fills = chs: seq<Amendment> | forall ch :: ch in chs ==> ch.FillIn?
  type Stagings = chs: seq<Amendment> | forall ch :: ch in chs ==> ch.Stage?

  // ----- amending records by id -----

  /** One amendment: the record of its id, the last of them if several, is changed in place. */
  function AmendOne(profile: seq<Asset>, ch: Amendment): (r: seq<Asset>)
    ensures |r| == |profile| && forall k :: 0 <= k < |profile| ==> r[k].id == profile[k].id
  {
    var i := LastAsset(profile, ch.id);
    if i < |profile| then profile[i := profile[i].(fields := Amended(ch, profile[i].fields))] else profile
  }

  function AmendAll(profile: seq<Asset>, chs: seq<Amendment>): (r: seq<Asset>)
    ensures |r| == |profile| && forall k :: 0 <= k < |profile| ==> r[k].id == profile[k].id
    decreases |chs|
  {
    if chs == [] then profile else AmendOne(AmendAll(profile, chs[..|chs| - 1]), chs[|chs| - 1])
  }

  /** What a list of amendments finds to do: the cost of each on its record, as the record stands at its turn. */
  function Work(profile: seq<Asset>, chs: seq<Amendment>, cost: (Amendment, Record) -> nat): nat
    decreases |chs|
  {
    if chs == [] then 0
    else
      var n := |chs| - 1;
      var before := AmendAll(profile, chs[..n]);
      var i := LastAsset(before, chs[n].id);
      Work(profile, chs[..n], cost) + if i < |before| then cost(chs[n], before[i].fields) else 0
  }

  /** The ids that name no record. */
  function Missing(profile: seq<Asset>, chs: seq<Amendment>): seq<string>
    decreases |chs|
  {
    if chs == [] then []
    else
      var n := |chs| - 1;
      Missing(profile, chs[..n]) + if chs[n].id in AssetIds(profile) then [] else [chs[n].id]
  }

  function Modified(ch: Amendment, r: Record): nat {
    if Amended(ch, r) != r then 1 else 0
  }

  function FilledCount(ch: Amendment, r: Record): nat {
    if ch.FillIn? then |FilledPaths(r, ch.values)| else 0
  }

  function Resized(ch: Amendment, r: Record): nat {
    if ch.Stage? && Get(r, "file_size_bytes") != ch.bytes then 1 else 0
  }

  function Rehashed(ch: Amendment, r: Record): nat {
    if ch.Stage? && Unhashed(ch, Sized(ch, r)) then 1 else 0
  }

  lemma SameIds(profile: seq<Asset>, chs: seq<Amendment>)
    ensures AssetIds(AmendAll(profile, chs)) == AssetIds(profile)
  {
    var after := AmendAll(profile, chs);
    forall id ensures id in AssetIds(after) <==> id in AssetIds(profile) {
      if id in AssetIds(profile) {
        var k :| 0 <= k < |profile| && profile[k].id == id;
        assert after[k] in after;
      }
      if id in AssetIds(after) {
        var k :| 0 <= k < |after| && after[k].id == id;
        assert profile[k] in profile;
      }
    }
  }

  /** One more amendment. */
  lemma AmendStep(profile: seq<Asset>, chs: seq<Amendment>, i: nat)
    requires i < |chs|
    ensures AmendAll(profile, chs[..i + 1]) == AmendOne(AmendAll(profile, chs[..i]), chs[i])
    ensures Missing(profile, chs[..i + 1]) == Missing(profile, chs[..i]) + if chs[i].id in AssetIds(profile) then [] else [chs[i].id]
    ensures AssetIds(AmendAll(profile, chs[..i])) == AssetIds(profile)
  {
    hide AmendOne, AssetIds;
    assert chs[..i + 1][..i] == chs[..i];
    SameIds(profile, chs[..i]);
  }

  lemma WorkStep(profile: seq<Asset>, chs: seq<Amendment>, i: nat, cost: (Amendment, Record) -> nat)
    requires i < |chs|
    ensures var before := AmendAll(profile, chs[..i]);
            var at := LastAsset(before, chs[i].id);
            Work(profile, chs[..i + 1], cost) == Work(profile, chs[..i], cost) + if at < |before| then cost(chs[i], before[at].fields) else 0
  {
    hide AmendAll, LastAsset;
    assert chs[..i + 1][..i] == chs[..i];
  }

  lemma NothingAmended(profile: seq<Asset>, cost: (Amendment, Record) -> nat)
    ensures AmendAll(profile, []) == profile && Missing(profile, []) == [] && Work(profile, [], cost) == 0
  {
  }

  /** `apply_ai_declarations`: the outcomes that would refuse the run are the ids nothing carries. */
  method ApplyDeclarations(w: Workspace, declarations: Declarations) returns (missing: seq<string>)
    modifies w`profile
    ensures w.profile == AmendAll(old(w.profile), declarations) && missing == Missing(old(w.profile), declarations)
  {
    hide LastAsset, AmendAll, Missing;
    missing := [];
    NothingAmended(w.profile, Modified);
    for i := 0 to |declarations|
      invariant w.profile == AmendAll(old(w.profile), declarations[..i]) && missing == Missing(old(w.profile), declarations[..i])
    {
      AmendStep(old(w.profile), declarations, i);
      var d := declarations[i];
      var at := LastAsset(w.profile, d.id);
      if at == |w.profile| {
        missing := missing + [d.id];
      } else {
        var entry := w.profile[at];
        w.profile := w.profile[at := entry.(fields := entry.fields["ai_provenance" := d.provenance])];
      }
    }
    assert declarations[..|declarations|] == declarations;
  }

  /** The fields a file swap must leave alone. */
  function Composition(e: Asset): (string, Json, seq<Json>) {
    (e.id, Get(Meta(e.fields), "group_id"),
     [Get(e.fields, "collection_name"), Get(e.fields, "tags"), Get(e.fields, "team_name"), Get(e.fields, "owner_username"),
      Get(e.fields, "brand_workspace"), Get(e.fields, "workflow_state"), Get(e.fields, "asset_type")])
  }

  predicate IsCompositionKey(key: string) {
    key in {"collection_name", "tags", "team_name", "owner_username", "brand_workspace", "workflow_state", "asset_type"}
  }

  lemma ReplaceKeepsKey(ch: Amendment, r: Record, key: string)
    requires ch.Replace? && IsCompositionKey(key)
    ensures Get(Replaced(ch, r), key) == Get(r, key)
  {
  }

  /** A replacement swaps the file and keeps the record: the check after the write can never fire. */
  lemma ReplaceKeepsComposition(ch: Amendment, e: Asset)
    requires ch.Replace?
    ensures Composition(e.(fields := Replaced(ch, e.fields))) == Composition(e)
  {
    assert Meta(Replaced(ch, e.fields)) == ReplacedMeta(ch, e.fields);
    assert Get(ReplacedMeta(ch, e.fields), "group_id") == Get(Meta(e.fields), "group_id");
    hide Replaced, ReplacedMeta, Get, Meta;
    ReplaceKeepsKey(ch, e.fields, "collection_name");
    ReplaceKeepsKey(ch, e.fields, "tags");
    ReplaceKeepsKey(ch, e.fields, "team_name");
    ReplaceKeepsKey(ch, e.fields, "owner_username");
    ReplaceKeepsKey(ch, e.fields, "brand_workspace");
    ReplaceKeepsKey(ch, e.fields, "workflow_state");
    ReplaceKeepsKey(ch, e.fields, "asset_type");
  }

  /** `apply_replacements`: progress, drift, and the problems, which are only ever ids nothing carries. */
  method ApplyReplacements(w: Workspace, replacements: Replacements) returns (processed: nat, modified: nat, problems: seq<string>)
    modifies w`profile
    ensures w.profile == AmendAll(old(w.profile), replacements)
    ensures modified == Work(old(w.profile), replacements, Modified)
    ensures problems == Missing(old(w.profile), replacements) && processed == |replacements| - |problems|
  {
    hide LastAsset, Replaced, AmendAll, Work, Missing, Composition;
    processed, modified, problems := 0, 0, [];
    NothingAmended(w.profile, Modified);
    for i := 0 to |replacements|
      invariant w.profile == AmendAll(old(w.profile), replacements[..i])
      invariant modified == Work(old(w.profile), replacements[..i], Modified)
      invariant problems == Missing(old(w.profile), replacements[..i]) && processed == i - |problems|
    {
      AmendStep(old(w.profile), replacements, i);
      WorkStep(old(w.profile), replacements, i, Modified);
      var ch := replacements[i];
      var at := LastAsset(w.profile, ch.id);
      if at == |w.profile| {
        problems := problems + [ch.id];
      } else {
        var entry := w.profile[at];
        var swapped := entry.(fields := Replaced(ch, entry.fields));
        w.profile := w.profile[at := swapped];
        ReplaceKeepsComposition(ch, entry);
        if Composition(swapped) != Composition(entry) {
          problems := problems + [ch.id];
        }
        processed := processed + 1;
        if swapped != entry {
          modified := modified + 1;
        }
      }
    }
    assert replacements[..|replacements|] == replacements;
  }

  /** One staged measurement on its record. */
  method Measure(ch: Amendment, r: Record) returns (out: Record, corrected: nat, hashed: nat)
    requires ch.Stage?
    ensures out == Staged(ch, r) && corrected == Resized(ch, r) && hashed == Rehashed(ch, r)
  {
    corrected, hashed := 0, 0;
    out := r["metadata" := Object(Meta(r))];
    if Get(r, "file_size_bytes") != ch.bytes {
      if ch.origin.Some? {
        out := SetMeta(out, "origin_bytes", ch.origin.value);
      }
      out := out["file_size_bytes" := ch.bytes];
      corrected := 1;
    }
    assert out == Sized(ch, r);
    if ch.sha != "" && Get(Meta(out), "sha256") != Text(ch.sha) {
      out := SetMeta(out, "sha256", Text(ch.sha));
      hashed := 1;
    }
  }

  /** `apply_staged_measurements`. */
  method ApplyStaged(w: Workspace, staged: Stagings) returns (corrected: nat, hashed: nat, unknown: seq<string>)
    modifies w`profile
    ensures w.profile == AmendAll(old(w.profile), staged) && unknown == Missing(old(w.profile), staged)
    ensures corrected == Work(old(w.profile), staged, Resized) && hashed == Work(old(w.profile), staged, Rehashed)
  {
    hide LastAsset, Staged, Sized, AmendAll, Work, Missing, Resized, Rehashed;
    corrected, hashed, unknown := 0, 0, [];
    NothingAmended(w.profile, Resized);
    NothingAmended(w.profile, Rehashed);
    for i := 0 to |staged|
      invariant w.profile == AmendAll(old(w.profile), staged[..i]) && unknown == Missing(old(w.profile), staged[..i])
      invariant corrected == Work(old(w.profile), staged[..i], Resized) && hashed == Work(old(w.profile), staged[..i], Rehashed)
    {
      AmendStep(old(w.profile), staged, i);
      WorkStep(old(w.profile), staged, i, Resized);
      WorkStep(old(w.profile), staged, i, Rehashed);
      var ch := staged[i];
      var at := LastAsset(w.profile, ch.id);
      if at == |w.profile| {
        unknown := unknown + [ch.id];
      } else {
        var (out, c, h) := (w.profile[at].fields, 0, 0);
        out, c, h := Measure(ch, out);
        w.profile := w.profile[at := w.profile[at].(fields := out)];
        corrected := corrected + c;
        hashed := hashed + h;
      }
    }
    assert staged[..|staged|] == staged;
  }

  // ----- team corrections -----

  function Corrected(profile: seq<Asset>, cs: seq<Correction>): (r: seq<Asset>)
    ensures |r| == |profile| && forall k :: 0 <= k < |profile| ==> r[k] == CorrectAll(cs, profile[k])
  {
    seq(|profile|, k requires 0 <= k < |profile| => CorrectAll(cs, profile[k]))
  }

  /** How many of the records a correction fires on. */
  function Firing(c: Correction, profile: seq<Asset>): nat
    decreases |profile|
  {
    if profile == [] then 0
    else Firing(c, profile[..|profile| - 1]) + if Fires(c, profile[|profile| - 1].fields) then 1 else 0
  }

  function TotalFiring(profile: seq<Asset>, cs: seq<Correction>): nat
    decreases |cs|
  {
    if cs == [] then 0
    else TotalFiring(profile, cs[..|cs| - 1]) + Firing(cs[|cs| - 1], Corrected(profile, cs[..|cs| - 1]))
  }

  /** `apply_team_corrections`: every correction over every record. */
  method ApplyCorrections(w: Workspace, cs: seq<Correction>) returns (moved: nat)
    modifies w`profile
    ensures w.profile == Corrected(old(w.profile), cs) && moved == TotalFiring(old(w.profile), cs)
  {
    hide Fires;
    moved := 0;
    assert Corrected(w.profile, []) == w.profile;
    for i := 0 to |cs|
      invariant w.profile == Corrected(old(w.profile), cs[..i]) && moved == TotalFiring(old(w.profile), cs[..i])
    {
      assert cs[..i + 1][..i] == cs[..i];
      var n := ApplyCorrection(w, cs[i]);
      moved := moved + n;
      assert w.profile == Corrected(old(w.profile), cs[..i + 1]);
    }
    assert cs[..|cs|] == cs;
  }

  method ApplyCorrection(w: Workspace, c: Correction) returns (n: nat)
    modifies w`profile
    ensures |w.profile| == |old(w.profile)| && n == Firing(c, old(w.profile))
    ensures forall k :: 0 <= k < |w.profile| ==> w.profile[k] == CorrectOne(c, old(w.profile)[k])
  {
    hide Fires;
    n := 0;
    ghost var profile := w.profile;
    for k := 0 to |w.profile|
      invariant |w.profile| == |profile| && n == Firing(c, profile[..k])
      invariant forall j :: 0 <= j < |profile| ==> w.profile[j] == if j < k then CorrectOne(c, profile[j]) else profile[j]
    {
      assert profile[..k + 1][..k] == profile[..k];
      var e := w.profile[k];
      if Fires(c, e.fields) {
        w.profile := w.profile[k := e.(fields := e.fields["team_name" := Text(c.toTeam)])];
        n := n + 1;
      }
    }
    assert profile[..|profile|] == profile;
  }
}
