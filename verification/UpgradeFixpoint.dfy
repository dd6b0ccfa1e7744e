/** A second run of the upgrade changes nothing and every term of `--check` is zero. */
module UpgradeFixpoint {
  import opened Catalogue
  import opened UpgradeRecords
  import opened UpgradePasses
  import opened UpgradeMerges
  import opened UpgradeSteady
  import opened UpgradeRun
  import opened UpgradeAssets
  import opened UpgradeAgain
  import Collapse = AssetCollapse

  // ----- counting on the second run -----

  /** The profile the second run's fills find. */
  lemma MergedAgain(p: seq<Asset>, d: Documents)
    requires LeftBehind(p, d) && RetirementsAgree(d) && DoNotFight(d)
    ensures AllMerged(p, d) == p + Returning(p, d)
    ensures Reconciled(AssetIds(AllMerged(p, d)), d.reconciled) == []
    ensures UniqueAssets(p + Returning(p, d))
  {
    NothingToPrepare(p, d);
    OnlyRetiredReturn(p, d);
    FedFromHeld(p, d);
    AppendedAre(AssetIds(p), d.assets);
    hide LeftBehind, RetirementsAgree, DoNotFight, UniqueAssets, AmendAll, Prepared, AssetIds, Appended, Reconciled;
    IdsOfBoth(p, Returning(p, d));
    assert AssetIds(p) + (AssetIds(d.assets) - AssetIds(p)) == AssetIds(p) + AssetIds(d.assets);
  }

  /** Each record of that profile is steady or about to be retired again, along any prefix of the fills. */
  lemma SteadyOrRetired(p: seq<Asset>, d: Documents, chs: seq<Amendment>, e: Asset)
    requires LeftBehind(p, d) && RetirementsAgree(d) && DoNotFight(d)
    requires chs <= d.fills && e in AmendAll(p + Returning(p, d), chs)
    ensures e in p || e.id in RetiredIds(d)
  {
    var base := p + Returning(p, d);
    MergedAgain(p, d);
    OnlyRetiredReturn(p, d);
    var k :| 0 <= k < |base| && AmendAll(base, chs)[k] == e;
    AmendAllAt(base, chs, k);
    hide Returning, DoNotFight, RetirementsAgree, UniqueAssets, AmendAll, Settled, Steady;
    if k < |p| {
      assert p[k] in p;
      forall ch | ch in chs && ch.id == p[k].id ensures Settled(ch, p[k].fields) {
        SteadyHas(p[k], d, ch);
      }
      AlongIsFixed(p[k].id, p[k].fields, chs);
    } else {
      assert base[k] == Returning(p, d)[k - |p|] && base[k].id in AssetIds(Returning(p, d));
    }
  }

  /** All that is filled is filled into a record about to be retired. */
  lemma FillsAreRetired(p: seq<Asset>, d: Documents)
    requires LeftBehind(p, d) && RetirementsAgree(d) && DoNotFight(d)
    ensures Work(p + Returning(p, d), d.fills, FilledCount) == Work(p + Returning(p, d), d.fills, RetiredFilling(RetiredIds(d)))
  {
    var base := p + Returning(p, d);
    forall i, e | 0 <= i < |d.fills| && e in AmendAll(base, d.fills[..i]) && e.id == d.fills[i].id
      ensures FilledCount(d.fills[i], e.fields) == RetiredFilling(RetiredIds(d))(d.fills[i], e.fields)
    {
      SteadyOrRetired(p, d, d.fills[..i], e);
      if e in p {
        SteadyHas(e, d, d.fills[i]);
        CostIsFree(d.fills[i], e.fields);
      }
    }
    hide *;
    WorkAgrees(base, d.fills, FilledCount, RetiredFilling(RetiredIds(d)));
  }

  /** Nothing is measured again. */
  lemma NothingToStage(p: seq<Asset>, d: Documents)
    requires LeftBehind(p, d) && RetirementsAgree(d) && DoNotFight(d)
    ensures var filled := AmendAll(p + Returning(p, d), d.fills);
            Work(filled, d.staged, Resized) == 0 && Work(filled, d.staged, Rehashed) == 0 && Missing(filled, d.staged) == []
  {
    var base := p + Returning(p, d);
    var filled := AmendAll(base, d.fills);
    forall e, ch: Amendment | e in filled && ch in d.staged && ch.id == e.id ensures Settled(ch, e.fields) {
      assert d.fills <= d.fills;
      SteadyOrRetired(p, d, d.fills, e);
      SteadyHas(e, d, ch);
    }
    SameIds(base, d.fills);
    IdsOfBoth(p, Returning(p, d));
    hide Settled, Returning, Steady, AmendAll, Work, Missing, DoNotFight, RetirementsAgree, AssetIds;
    CostsAreFree();
    SettledProfileIsFree(filled, d.staged, Resized);
    SettledProfileIsFree(filled, d.staged, Rehashed);
    NoneMissingIff(filled, d.staged);
  }

  lemma {:induction false} AllPlacedIff(profile: seq<Asset>, fills: seq<Amendment>, retired: set<string>)
    ensures Unplaced(profile, fills, retired) == [] <==> forall ch :: ch in fills ==> ch.id in AssetIds(profile) + retired
    decreases |fills|
  {
    hide AssetIds;
    if fills != [] {
      AllPlacedIff(profile, fills[..|fills| - 1], retired);
      assert fills == fills[..|fills| - 1] + [fills[|fills| - 1]];
    }
  }

  /** What is unplaced depends on the ids that are held or retired. */
  lemma {:induction false} UnplacedSame(a: seq<Asset>, b: seq<Asset>, fills: seq<Amendment>, retired: set<string>)
    requires AssetIds(a) + retired == AssetIds(b) + retired
    ensures Unplaced(a, fills, retired) == Unplaced(b, fills, retired)
    decreases |fills|
  {
    hide AssetIds;
    if fills != [] {
      UnplacedSame(a, b, fills[..|fills| - 1], retired);
      var id := fills[|fills| - 1].id;
      assert id in AssetIds(a) + retired <==> id in AssetIds(b) + retired;
    }
  }

  /** So bringing retired records back places nothing and loses nothing. */
  lemma UnplacedAgain(p: seq<Asset>, d: Documents)
    requires LeftBehind(p, d) && RetirementsAgree(d) && DoNotFight(d)
    ensures Unplaced(p + Returning(p, d), d.fills, RetiredIds(d)) == Unplaced(p, d.fills, RetiredIds(d))
  {
    hide LeftBehind, RetirementsAgree, DoNotFight, Returning, Unplaced, AssetIds, RetiredIds, UniqueAssets, Arrivals, MergeRefused, Reconciled;
    OnlyRetiredReturn(p, d);
    IdsOfBoth(p, Returning(p, d));
    assert AssetIds(p) + AssetIds(Returning(p, d)) + RetiredIds(d) == AssetIds(p) + RetiredIds(d);
    UnplacedSame(p + Returning(p, d), p, d.fills, RetiredIds(d));
  }

  lemma SettlingAgain(p: seq<Asset>, q: seq<Post>, d: Documents)
    requires LeftBehind(p, d) && RetirementsAgree(d) && DoNotFight(d)
    ensures var s := SettlingOf(AllMerged(p, d), q, d);
            && s.reconciled == 0 && s.filled == s.filledRetired && s.resized == 0 && s.hashed == 0 && !s.missing
            && s.unplaced == Unplaced(p, d.fills, RetiredIds(d)) && s.deduped == Surplus(q)
  {
    hide LeftBehind, Returning, AmendAll, Work, Missing, DoNotFight, RetirementsAgree, AssetIds, Reconciled, Surplus, Unplaced, UniqueAssets,
         RetiredIds, AllMerged;
    MergedAgain(p, d);
    FillsAreRetired(p, d);
    NothingToStage(p, d);
    UnplacedAgain(p, d);
    assert p + Returning(p, d) + [] == p + Returning(p, d);
  }

  lemma {:induction false} CountAll(records: seq<Asset>, ids: set<string>)
    requires AssetIds(records) <= ids
    ensures CountIn(records, ids) == |records|
    decreases |records|
  {
    if records != [] {
      assert records == records[..|records| - 1] + [records[|records| - 1]];
      CountAll(records[..|records| - 1], ids);
    }
  }

  lemma IntakeAgain(p: seq<Asset>, q: seq<Post>, d: Documents)
    requires LeftBehind(p, d) && RetirementsAgree(d) && DoNotFight(d)
    ensures var i := IntakeOf(p, q, d);
            && i.corrected == 0 && i.modified == 0 && i.repaired == 0 && !i.missing
            && i.appended == i.appendedRetired == |Returning(p, d)| && i.posts == |NewPosts(PostIds(q), MovedIds(d), d.posts)|
  {
    NothingToPrepare(p, d);
    OnlyRetiredReturn(p, d);
    hide AmendAll, Work, Missing, DoNotFight, RetirementsAgree, AssetIds, Reconciled, UniqueAssets, Steady, Appended, TotalFiring,
         Corrected, CountIn, LeftBehind;
    CountAll(Returning(p, d), RetiredIds(d));
  }

  // ----- the collapse on the second run -----

  lemma {:induction false} FindInBoth(a: seq<Asset>, b: seq<Asset>, id: string)
    ensures FindAsset(a + b, id) == if id in AssetIds(b) then FindAsset(b, id) else FindAsset(a, id)
    decreases |b|
  {
    if b == [] {
      assert a + b == a;
    } else {
      var n := |b| - 1;
      FindInBoth(a, b[..n], id);
      assert b == b[..n] + [b[n]];
      assert a + b == (a + b[..n]) + [b[n]];
      Collapse.FindSnoc(a + b[..n], b[n], id);
      Collapse.FindSnoc(b[..n], b[n], id);
      OneMoreId(b[..n], b[n]);
      hide FindAsset, AssetIds;
    }
  }

  /** Every entry is accepted again: its record is back as the document has it, or is gone. */
  lemma StateAgain(p: seq<Asset>, fed: seq<Asset>, d: Documents, e: Collapse.Entry)
    requires LeftBehind(p, d) && RetirementsAgree(d) && DoNotFight(d) && e in d.collapse
    requires Collapse.AssetState(fed, e) != Collapse.Third && FindAsset(p, e.survivorId) == FindAsset(fed, e.survivorId)
    ensures Collapse.AssetState(p + Returned(p, d), e) ==
            if e.retiredId in AssetIds(Returned(p, d)) then Collapse.Pending else Collapse.Applied
  {
    var tail := Returned(p, d);
    ReturnedAre(p, d);
    FindInBoth(p, tail, e.survivorId);
    FindInBoth(p, tail, e.retiredId);
    assert e.retiredId in RetiredIds(d) && e.survivorId !in RetiredIds(d) && e.retired.id == e.retiredId;
    if e.retiredId in AssetIds(tail) {
      var k :| 0 <= k < |tail| && tail[k] == e.retired;
      FindAssetUnique(tail, k);
    }
    hide FindAsset, Returned, LeftBehind, DoNotFight, RetirementsAgree, Collapse.DocumentParses, UniqueAssets;
  }

  lemma {:induction false} WithoutTail(p: seq<Asset>, tail: seq<Asset>, ids: set<string>)
    requires AssetIds(p) !! ids && AssetIds(tail) <= ids
    ensures Collapse.Without(p + tail, ids) == p
    decreases |tail|
  {
    if tail == [] {
      assert p + tail == p;
      WithoutNone(p, ids);
    } else {
      var n := |tail| - 1;
      assert tail == tail[..n] + [tail[n]];
      assert p + tail == (p + tail[..n]) + [tail[n]];
      WithoutTail(p, tail[..n], ids);
      Collapse.WithoutSnoc(p + tail[..n], tail[n], ids);
    }
  }

  lemma {:induction false} WithoutNone(p: seq<Asset>, ids: set<string>)
    requires AssetIds(p) !! ids
    ensures Collapse.Without(p, ids) == p
  {
    if p != [] {
      assert p == [p[0]] + p[1..];
      WithoutNone(p[1..], ids);
    }
  }

  lemma {:induction false} CountOfIds(records: seq<Asset>)
    requires UniqueAssets(records)
    ensures |AssetIds(records)| == |records|
    decreases |records|
  {
    if records != [] {
      CountOfIds(records[..|records| - 1]);
      LastIsNew(records);
    }
  }

  lemma {:induction false} PendingIsRetired(profile: seq<Asset>, doc: Collapse.Document)
    requires forall i, j :: 0 <= i < j < |doc| ==> doc[i].retiredId != doc[j].retiredId
    ensures PendingAssets(profile, doc) == |Collapse.RetiredNow(profile, doc)|
    decreases |doc|
  {
    hide Collapse.AssetState;
    if doc != [] {
      var n := |doc| - 1;
      PendingIsRetired(profile, doc[..n]);
      assert doc == doc[..n] + [doc[n]];
      Collapse.RetiredSnoc(profile, doc[..n], doc[n]);
      assert doc[n].retiredId !in Collapse.RetiredNow(profile, doc[..n]);
    }
  }

  /** The second collapse takes away what the second merge brought back, and nothing else. */
  lemma CollapseAgain(p: seq<Asset>, fed: seq<Asset>, d: Documents)
    requires LeftBehind(p, d) && RetirementsAgree(d) && DoNotFight(d)
    requires forall e :: e in d.collapse ==>
               Collapse.AssetState(fed, e) != Collapse.Third && FindAsset(p, e.survivorId) == FindAsset(fed, e.survivorId)
    ensures forall e :: e in d.collapse ==> Collapse.AssetState(Fed(p, d), e) != Collapse.Third
    ensures Collapse.CollapsedProfile(Fed(p, d), d.collapse) == p
    ensures PendingAssets(Fed(p, d), d.collapse) == |Returning(p, d)|
  {
    var tail := Returned(p, d);
    FedAgain(p, d);
    ReturnedAre(p, d);
    forall e | e in d.collapse
      ensures Collapse.AssetState(Fed(p, d), e) == if e.retiredId in AssetIds(tail) then Collapse.Pending else Collapse.Applied
    {
      StateAgain(p, fed, d, e);
    }
    PendingIsRetired(Fed(p, d), d.collapse);
    CountOfIds(tail);
    hide FindAsset, Returned, DoNotFight, Collapse.AssetState, UniqueAssets, PendingAssets, Fed, Collapse.Without, Steady;
    forall id ensures id in Collapse.RetiredNow(Fed(p, d), d.collapse) <==> id in AssetIds(tail) {
      if id in AssetIds(tail) {
        assert id in RetiredIds(d);
        var e :| e in d.collapse && e.retiredId == id;
        assert Collapse.AssetState(Fed(p, d), e) == Collapse.Pending;
      }
    }
    assert Collapse.RetiredNow(Fed(p, d), d.collapse) == AssetIds(tail);
    WithoutTail(p, tail, AssetIds(tail));
  }
}
