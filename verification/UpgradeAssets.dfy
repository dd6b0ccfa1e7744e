/** What a run makes of the asset records, record by record, and why the records it leaves need nothing more. */
module UpgradeAssets {
  import opened Sequences
  import opened Catalogue
  import opened UpgradeRecords
  import opened UpgradePasses
  import opened UpgradeMerges
  import opened UpgradeSteady
  import opened UpgradeRun

  // ----- the footprints -----

  ghost predicate OnePerRecord(chs: seq<Amendment>) {
    forall i, j :: 0 <= i < j < |chs| ==> chs[i].id != chs[j].id
  }

  ghost predicate Disjoint(a: seq<Amendment>, b: seq<Amendment>) {
    forall x, y :: x in a && y in b ==> x.id != y.id
  }

  /** The documents do not fight: they bring values, name a record once, and no record is both replaced and measured. */
  ghost predicate DoNotFight(d: Documents) {
    && AllWhole(d.declarations) && AllWhole(d.replacements) && AllWhole(d.fills) && AllWhole(d.staged)
    && OnePerRecord(d.declarations) && OnePerRecord(d.replacements) && OnePerRecord(d.staged) && UniqueAssets(d.assets)
    && Disjoint(d.replacements, d.staged)
    && forall a :: a in d.assets || a in d.reconciled ==> MetaIsObject(a.fields)
  }

  /** Corrections settle: none feeds another, none looks at what a fill or a replacement writes or at a record brought in. */
  ghost predicate CorrectionsSettle(d: Documents) {
    && NoRelay(d.corrections)
    && (forall c, ch :: c in d.corrections && (ch in d.replacements || ch in d.fills) ==> LeavesAlone(c, ch))
    && (forall c, a :: c in d.corrections && a in d.assets ==> !Fires(c, Provenanced(a).fields))
    && (forall c, a :: c in d.corrections && a in d.reconciled ==> !Fires(c, a.fields))
  }

  // ----- the list of every amendment -----

  function Repairs(d: Documents): seq<Amendment> {
    RepairsOf(d.assets)
  }

  /** What the passes do after the merges. */
  function LateAmendments(d: Documents): seq<Amendment> {
    d.fills + d.staged
  }

  /** What they do before them. */
  function EarlyAmendments(d: Documents): seq<Amendment> {
    d.declarations + d.replacements
  }

  function AllAmendments(d: Documents): seq<Amendment> {
    EarlyAmendments(d) + Repairs(d) + LateAmendments(d)
  }

  lemma OrderedAppend(a: seq<Amendment>, b: seq<Amendment>)
    requires Ordered(a) && Ordered(b) && forall x, y :: x in a && y in b && x.id == y.id ==> MayFollow(x, y)
    ensures Ordered(a + b)
  {
    hide MayFollow;
    var all := a + b;
    forall i, j | 0 <= i < j < |all| && all[i].id == all[j].id ensures MayFollow(all[i], all[j]) {
      if i < |a| && j >= |a| { assert all[i] in a && all[j] in b; }
    }
  }

  lemma OneIsOrdered(chs: seq<Amendment>)
    requires OnePerRecord(chs)
    ensures Ordered(chs)
  {
  }

  lemma RepairsAre(d: Documents)
    requires UniqueAssets(d.assets)
    ensures OnePerRecord(Repairs(d)) && AllWhole(Repairs(d))
    ensures forall ch :: ch in Repairs(d) ==> ch.Repair? && ch.id in AssetIds(d.assets)
  {
  }

  lemma LateIsOrdered(d: Documents)
    requires DoNotFight(d)
    ensures Ordered(LateAmendments(d)) && AllWhole(LateAmendments(d))
    ensures forall ch :: ch in LateAmendments(d) ==> ch.FillIn? || ch.Stage?
  {
    OneIsOrdered(d.staged);
    OrderedAppend(d.fills, d.staged);
  }

  lemma EarlyIsOrdered(d: Documents)
    requires DoNotFight(d)
    ensures Ordered(EarlyAmendments(d)) && AllWhole(EarlyAmendments(d))
    ensures forall ch :: ch in EarlyAmendments(d) ==> ch.Declare? || (ch.Replace? && ch in d.replacements)
  {
    OneIsOrdered(d.declarations);
    OneIsOrdered(d.replacements);
    OrderedAppend(d.declarations, d.replacements);
  }

  lemma AllIsOrdered(d: Documents)
    requires DoNotFight(d)
    ensures Ordered(AllAmendments(d)) && AllWhole(AllAmendments(d))
  {
    EarlyIsOrdered(d);
    RepairsAre(d);
    LateIsOrdered(d);
    OneIsOrdered(Repairs(d));
    var (early, repairs, late) := (EarlyAmendments(d), Repairs(d), LateAmendments(d));
    forall x, y | x in early && y in late && x.id == y.id ensures MayFollow(x, y) {
      if y.Stage? { assert y in d.staged; }
    }
    hide EarlyAmendments, LateAmendments, Repairs, Whole;
    OrderedAppend(early, repairs);
    OrderedAppend(early + repairs, late);
  }

  // ----- where the records of the fed profile come from -----

  lemma {:induction false} AppendedAre(ids: set<string>, assets: seq<Asset>)
    requires UniqueAssets(assets)
    ensures UniqueAssets(Appended(ids, assets)) && AssetIds(Appended(ids, assets)) == AssetIds(assets) - ids
    ensures forall e :: e in Appended(ids, assets) ==> exists a :: a in assets && e == Provenanced(a) && a.id !in ids
    decreases |assets|
  {
    if assets != [] {
      var n := |assets| - 1;
      var (before, a) := (Appended(ids, assets[..n]), assets[n]);
      AppendedAre(ids, assets[..n]);
      LastIsNew(assets);
      ProvenancedId(a);
      hide Provenanced, UniqueAssets, AssetIds;
      assert a in assets && forall x :: x in assets[..n] ==> x in assets;
      if a.id in ids {
        assert Appended(ids, assets) == before;
      } else {
        OneMoreUnique(before, Provenanced(a));
      }
    }
  }

  lemma LastIsNew(profile: seq<Asset>)
    requires profile != [] && UniqueAssets(profile)
    ensures profile[|profile| - 1].id !in AssetIds(profile[..|profile| - 1])
    ensures AssetIds(profile) == AssetIds(profile[..|profile| - 1]) + {profile[|profile| - 1].id}
  {
    assert profile == profile[..|profile| - 1] + [profile[|profile| - 1]];
  }

  lemma OneMoreUnique(profile: seq<Asset>, a: Asset)
    requires UniqueAssets(profile) && a.id !in AssetIds(profile)
    ensures UniqueAssets(profile + [a]) && AssetIds(profile + [a]) == AssetIds(profile) + {a.id}
  {
    forall i | 0 <= i < |profile| ensures profile[i].id != a.id {
      assert profile[i] in profile;
    }
  }

  lemma {:induction false} ReconciledAre(ids: set<string>, records: seq<Asset>)
    ensures UniqueAssets(Reconciled(ids, records)) && AssetIds(Reconciled(ids, records)) == AssetIds(records) - ids
    ensures forall e :: e in Reconciled(ids, records) ==> e in records && e.id !in ids
    decreases |records|
  {
    if records != [] {
      var n := |records| - 1;
      var (before, a) := (Reconciled(ids, records[..n]), records[n]);
      ReconciledAre(ids, records[..n]);
      OneMoreId(records[..n], a);
      assert records == records[..n] + [a];
      hide UniqueAssets, AssetIds;
      if a.id in ids || a.id in AssetIds(before) {
        assert Reconciled(ids, records) == before;
      } else {
        OneMoreUnique(before, a);
      }
    }
  }

  lemma OneMoreId(profile: seq<Asset>, a: Asset)
    ensures AssetIds(profile + [a]) == AssetIds(profile) + {a.id}
  {
  }

  /** The records a run brings in: from the merge documents, then from the share. */
  function Arrivals(ids: set<string>, d: Documents): seq<Asset> {
    Appended(ids, d.assets) + Reconciled(ids + AssetIds(d.assets), d.reconciled)
  }

  lemma UniqueBoth(a: seq<Asset>, b: seq<Asset>)
    requires UniqueAssets(a) && UniqueAssets(b) && AssetIds(a) !! AssetIds(b)
    ensures UniqueAssets(a + b)
  {
    var all := a + b;
    forall i, j | 0 <= i < j < |all| ensures all[i].id != all[j].id {
      if i < |a| && j >= |a| { assert all[i].id in AssetIds(a) && all[j].id in AssetIds(b); }
    }
  }

  lemma ArrivalsAre(ids: set<string>, d: Documents)
    requires UniqueAssets(d.assets)
    ensures UniqueAssets(Arrivals(ids, d)) && AssetIds(Arrivals(ids, d)) == (AssetIds(d.assets) + AssetIds(d.reconciled)) - ids
  {
    var (news, recs) := (Appended(ids, d.assets), Reconciled(ids + AssetIds(d.assets), d.reconciled));
    AppendedAre(ids, d.assets);
    ReconciledAre(ids + AssetIds(d.assets), d.reconciled);
    hide UniqueAssets, AssetIds, Appended, Reconciled;
    IdsOfBoth(news, recs);
    UniqueBoth(news, recs);
  }

  lemma SameUnique(profile: seq<Asset>, after: seq<Asset>)
    requires |after| == |profile| && forall k :: 0 <= k < |profile| ==> after[k].id == profile[k].id
    ensures UniqueAssets(profile) ==> UniqueAssets(after)
    ensures AssetIds(after) == AssetIds(profile)
  {
    forall id ensures id in AssetIds(after) <==> id in AssetIds(profile) {
      if id in AssetIds(profile) {
        var k :| 0 <= k < |profile| && profile[k].id == id;
        assert after[k] in after;
      }
      if id in AssetIds(after) {
        var k :| 0 <= k < |after| && after[k].id == id;
        assert profile[k] in profile;
      }
    }
  }

  /** The profile as the fills find it: the records held, corrected and amended so far, and the arrivals. */
  lemma FedFromHeld(profile: seq<Asset>, d: Documents)
    requires UniqueAssets(profile) && UniqueAssets(d.assets)
    ensures var held := AmendAll(Prepared(profile, d), Repairs(d));
            && |held| == |profile| && AssetIds(held) == AssetIds(profile)
            && UniqueAssets(held + Arrivals(AssetIds(profile), d))
            && AllMerged(profile, d) + Reconciled(AssetIds(AllMerged(profile, d)), d.reconciled) == held + Arrivals(AssetIds(profile), d)
            && Fed(profile, d) == AmendAll(AmendAll(held + Arrivals(AssetIds(profile), d), d.fills), d.staged)
            && AssetIds(Prepared(profile, d)) == AssetIds(profile)
  {
    var prepared := Prepared(profile, d);
    var held := AmendAll(prepared, Repairs(d));
    var ids := AssetIds(profile);
    SameUnique(profile, prepared);
    SameUnique(prepared, held);
    AppendedAre(ids, d.assets);
    ArrivalsAre(ids, d);
    hide UniqueAssets, AssetIds, Appended, Reconciled, AmendAll, Prepared;
    UniqueBoth(held, Arrivals(ids, d));
    IdsOfBoth(held, Appended(ids, d.assets));
    assert ids + (AssetIds(d.assets) - ids) == ids + AssetIds(d.assets);
    Associative(held, Appended(ids, d.assets), Reconciled(ids + AssetIds(d.assets), d.reconciled));
  }

  /** The three kinds of records, and everything that happened to them. */
  lemma FedAt(profile: seq<Asset>, d: Documents, k: nat)
    requires UniqueAssets(profile) && UniqueAssets(d.assets) && k < |Fed(profile, d)|
    ensures |Fed(profile, d)| == |profile| + |Arrivals(AssetIds(profile), d)|
    ensures Fed(profile, d)[k] ==
            if k < |profile| then AmendedAsset(CorrectAll(d.corrections, profile[k]), AllAmendments(d))
            else AmendedAsset(Arrivals(AssetIds(profile), d)[k - |profile|], LateAmendments(d))
  {
    hide Amended, Along, AmendAll, Prepared, Fed, Arrivals, Repairs;
    FedFromHeld(profile, d);
    var held := AmendAll(Prepared(profile, d), Repairs(d));
    var base := held + Arrivals(AssetIds(profile), d);
    var filled := AmendAll(base, d.fills);
    AmendAllAt(base, d.fills, k);
    UniqueAfter(base, d.fills);
    AmendAllAt(filled, d.staged, k);
    AlongAppend(base[k].id, base[k].fields, d.fills, d.staged);
    if k < |profile| {
      HeldAt(profile, d, k);
      var e := CorrectAll(d.corrections, profile[k]);
      AlongAppend(e.id, e.fields, EarlyAmendments(d) + Repairs(d), LateAmendments(d));
    }
  }

  lemma HeldAt(profile: seq<Asset>, d: Documents, k: nat)
    requires UniqueAssets(profile) && k < |profile|
    ensures AmendAll(Prepared(profile, d), Repairs(d))[k] ==
            AmendedAsset(CorrectAll(d.corrections, profile[k]), EarlyAmendments(d) + Repairs(d))
  {
    var corrected := Corrected(profile, d.corrections);
    var declared := AmendAll(corrected, d.declarations);
    var prepared := AmendAll(declared, d.replacements);
    SameUnique(profile, corrected);
    UniqueAfter(corrected, d.declarations);
    UniqueAfter(declared, d.replacements);
    AmendAllAt(corrected, d.declarations, k);
    AmendAllAt(declared, d.replacements, k);
    AmendAllAt(prepared, Repairs(d), k);
    var e := corrected[k];
    hide Along, AmendAll, Corrected, CorrectAll;
    AlongAppend(e.id, e.fields, d.declarations, d.replacements);
    AlongAppend(e.id, e.fields, EarlyAmendments(d), Repairs(d));
  }

  // ----- the records a run leaves -----

  /** No pass has anything left to do on the record. */
  ghost predicate Steady(e: Asset, d: Documents) {
    && MetaIsObject(e.fields) && AllSettled(e.id, e.fields, AllAmendments(d))
    && forall c :: c in d.corrections ==> !Fires(c, e.fields)
  }

  lemma LeftAlone(d: Documents, c: Correction)
    requires CorrectionsSettle(d) && c in d.corrections
    ensures forall ch :: ch in AllAmendments(d) || ch in LateAmendments(d) ==> LeavesAlone(c, ch)
  {
    forall ch | ch in AllAmendments(d) || ch in LateAmendments(d) ensures LeavesAlone(c, ch) {
      AllAre(d, ch);
    }
  }

  lemma AllAre(d: Documents, ch: Amendment)
    ensures ch in AllAmendments(d) <==> ch in d.declarations || ch in d.replacements || ch in Repairs(d) || ch in d.fills || ch in d.staged
    ensures ch in LateAmendments(d) <==> ch in d.fills || ch in d.staged
    ensures ch in Repairs(d) ==> ch.Repair? && ch.id in AssetIds(d.assets)
  {
  }

  /** A record the profile came with. */
  lemma HeldIsSteady(e: Asset, d: Documents)
    requires DoNotFight(d) && CorrectionsSettle(d) && MetaIsObject(e.fields)
    ensures Steady(AmendedAsset(CorrectAll(d.corrections, e), AllAmendments(d)), d)
  {
    var x := CorrectAll(d.corrections, e);
    CorrectedIsQuiet(d.corrections, e);
    CorrectedKeepsMeta(d.corrections, e);
    AllIsOrdered(d);
    hide Fires, CorrectAll, Along, Settled, AllAmendments, MetaIsObject, DoNotFight;
    AlongSettles(x.id, x.fields, AllAmendments(d));
    forall c | c in d.corrections ensures !Fires(c, Along(x.id, x.fields, AllAmendments(d))) {
      LeftAlone(d, c);
      AlongIsQuiet(c, x.id, x.fields, AllAmendments(d));
    }
  }

  lemma {:induction false} CorrectedKeepsMeta(cs: seq<Correction>, e: Asset)
    requires MetaIsObject(e.fields)
    ensures MetaIsObject(CorrectAll(cs, e).fields)
    decreases |cs|
  {
    hide Fires;
    if cs != [] { CorrectedKeepsMeta(cs[..|cs| - 1], e); }
  }

  /** A record a document brings in, if nothing earlier in the run was about it. */
  lemma ArrivalIsSteady(base: Asset, d: Documents)
    requires DoNotFight(d) && CorrectionsSettle(d) && MetaIsObject(base.fields)
    requires forall c :: c in d.corrections ==> !Fires(c, base.fields)
    requires forall ch :: ch in d.declarations || ch in d.replacements ==> ch.id != base.id
    requires AllSettled(base.id, base.fields, Repairs(d))
    ensures Steady(AmendedAsset(base, LateAmendments(d)), d)
  {
    var late := LateAmendments(d);
    var r := Along(base.id, base.fields, late);
    LateIsOrdered(d);
    hide Fires, Along, Settled, AllAmendments, LateAmendments, Repairs, MetaIsObject, DoNotFight, MayFollow;
    AlongSettles(base.id, base.fields, late);
    forall c | c in d.corrections ensures !Fires(c, r) {
      LeftAlone(d, c);
      AlongIsQuiet(c, base.id, base.fields, late);
    }
    forall ch | ch in AllAmendments(d) && ch.id == base.id ensures Settled(ch, r) {
      AllAre(d, ch);
      if ch in Repairs(d) { RepairKept(d, ch, base); }
    }
  }

  lemma RepairKept(d: Documents, ch: Amendment, base: Asset)
    requires DoNotFight(d) && ch in Repairs(d) && Settled(ch, base.fields) && MetaIsObject(base.fields)
    ensures Settled(ch, Along(base.id, base.fields, LateAmendments(d)))
  {
    RepairsAre(d);
    LateIsOrdered(d);
    hide Settled, Along, LateAmendments, DoNotFight, MetaIsObject, Repairs;
    AlongKeeps(ch, base.id, base.fields, LateAmendments(d));
  }

  /** The record of a merge document has what its own repair would bring. */
  lemma ProvenancedIsRepaired(d: Documents, a: Asset)
    requires DoNotFight(d) && a in d.assets
    ensures AllSettled(a.id, Provenanced(a).fields, Repairs(d)) && MetaIsObject(Provenanced(a).fields)
  {
    forall ch | ch in Repairs(d) && ch.id == a.id ensures ch == RepairOf(a) {
      var i :| 0 <= i < |d.assets| && ch == RepairOf(d.assets[i]);
      var j :| 0 <= j < |d.assets| && d.assets[j] == a;
    }
    assert Meta(Provenanced(a).fields) == Meta(a.fields);
  }

  lemma ArrivalsAreSteady(ids: set<string>, d: Documents, k: nat)
    requires DoNotFight(d) && CorrectionsSettle(d) && k < |Arrivals(ids, d)|
    requires forall ch :: ch in d.declarations || ch in d.replacements ==> ch.id in ids
    ensures Steady(AmendedAsset(Arrivals(ids, d)[k], LateAmendments(d)), d)
  {
    AppendedAre(ids, d.assets);
    ReconciledAre(ids + AssetIds(d.assets), d.reconciled);
    var e := Arrivals(ids, d)[k];
    hide Fires, Settled, AllSettled, LateAmendments, Steady, UniqueAssets;
    if k < |Appended(ids, d.assets)| {
      assert e in Appended(ids, d.assets);
      var a :| a in d.assets && e == Provenanced(a) && a.id !in ids;
      ProvenancedId(a);
      ProvenancedIsRepaired(d, a);
      hide Provenanced, DoNotFight;
      ArrivalIsSteady(e, d);
    } else {
      assert e in Reconciled(ids + AssetIds(d.assets), d.reconciled);
      NoRepair(d, e);
      ArrivalIsSteady(e, d);
    }
  }

  lemma NoRepair(d: Documents, e: Asset)
    requires UniqueAssets(d.assets) && e.id !in AssetIds(d.assets)
    ensures AllSettled(e.id, e.fields, Repairs(d))
  {
    RepairsAre(d);
    hide Settled;
  }

  /** Every record the collapse judges is steady. */
  lemma FedIsSteady(profile: seq<Asset>, d: Documents, e: Asset)
    requires DoNotFight(d) && CorrectionsSettle(d) && UniqueAssets(profile) && forall x :: x in profile ==> MetaIsObject(x.fields)
    requires forall ch :: ch in d.declarations || ch in d.replacements ==> ch.id in AssetIds(profile)
    requires e in Fed(profile, d)
    ensures Steady(e, d)
  {
    hide Amended, Along, AmendAll, Prepared, Fed, Arrivals, Repairs, Steady, AmendedAsset, CorrectAll, MetaIsObject;
    var k :| 0 <= k < |Fed(profile, d)| && Fed(profile, d)[k] == e;
    FedAt(profile, d, k);
    if k < |profile| {
      HeldIsSteady(profile[k], d);
    } else {
      ArrivalsAreSteady(AssetIds(profile), d, k - |profile|);
    }
  }

  lemma FedIds(profile: seq<Asset>, d: Documents)
    requires UniqueAssets(profile) && UniqueAssets(d.assets)
    ensures UniqueAssets(Fed(profile, d)) && AssetIds(Fed(profile, d)) == AssetIds(profile) + AssetIds(d.assets) + AssetIds(d.reconciled)
  {
    FedFromHeld(profile, d);
    ArrivalsAre(AssetIds(profile), d);
    var base := AmendAll(Prepared(profile, d), Repairs(d)) + Arrivals(AssetIds(profile), d);
    hide AmendAll, Prepared, Arrivals, Fed, Repairs;
    IdsOfBoth(AmendAll(Prepared(profile, d), Repairs(d)), Arrivals(AssetIds(profile), d));
    UniqueAfter(base, d.fills);
    UniqueAfter(AmendAll(base, d.fills), d.staged);
  }
}
