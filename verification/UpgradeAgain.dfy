/** The asset passes over a profile a run has left: everything is as it was, but for the retired records, which the merge
    brings back for the collapse to authenticate and remove. */
module UpgradeAgain {
  import opened Catalogue
  import opened UpgradeRecords
  import opened UpgradePasses
  import opened UpgradeMerges
  import opened UpgradeSteady
  import opened UpgradeRun
  import opened UpgradeAssets
  import Collapse = AssetCollapse

  /** The documents agree on what is retired: no pass needs a retired record, its title would pass the merge, the share
      does not bring it in alone, and the documents derive from it exactly the record the collapse authorises. */
  ghost predicate RetirementsAgree(d: Documents) {
    && Collapse.DocumentParses(d.collapse)
    && (forall ch: Amendment :: ch in d.declarations || ch in d.replacements || ch in d.staged ==> ch.id !in RetiredIds(d))
    && (forall a :: a in d.assets && a.id in RetiredIds(d) ==> !TitleRefused(a))
    && (forall a :: a in d.reconciled && a.id in RetiredIds(d) ==> a.id in AssetIds(d.assets))
    && (forall e, a :: e in d.collapse && a in d.assets && a.id == e.retiredId
                       ==> AmendedAsset(Provenanced(a), LateAmendments(d)) == e.retired)
  }

  /** What a run leaves of the profile. */
  ghost predicate LeftBehind(p: seq<Asset>, d: Documents) {
    && UniqueAssets(p) && (forall e :: e in p ==> Steady(e, d))
    && AssetIds(p) !! RetiredIds(d)
    && AssetIds(d.assets) + AssetIds(d.reconciled) <= AssetIds(p) + RetiredIds(d)
    && (forall ch: Amendment :: ch in d.declarations || ch in d.replacements || ch in d.staged ==> ch.id in AssetIds(p))
  }

  /** The merge documents' retired records, as the run brings them back. */
  function Returning(p: seq<Asset>, d: Documents): seq<Asset> {
    Appended(AssetIds(p), d.assets)
  }

  lemma SteadyIsFixed(e: Asset, d: Documents)
    requires Steady(e, d)
    ensures CorrectAll(d.corrections, e) == e && AmendedAsset(e, AllAmendments(d)) == e
  {
    QuietRecord(e, d.corrections);
    AlongIsFixed(e.id, e.fields, AllAmendments(d));
  }

  lemma SteadyHas(e: Asset, d: Documents, ch: Amendment)
    requires Steady(e, d) && ch.id == e.id
    requires ch in d.declarations || ch in d.replacements || ch in Repairs(d) || ch in d.fills || ch in d.staged
    ensures Settled(ch, e.fields)
  {
    AllAre(d, ch);
    hide Settled, AllAmendments;
  }

  /** The passes up to the merges change nothing and find nothing. */
  lemma NothingToPrepare(p: seq<Asset>, d: Documents)
    requires LeftBehind(p, d)
    ensures Prepared(p, d) == p && Corrected(p, d.corrections) == p && AmendAll(p, d.declarations) == p && AmendAll(p, Repairs(d)) == p
    ensures TotalFiring(p, d.corrections) == 0 && Work(p, d.replacements, Modified) == 0 && Work(p, Repairs(d), Modified) == 0
    ensures Missing(p, d.declarations) == [] && Missing(p, d.replacements) == []
  {
    forall e, ch: Amendment | e in p && ch.id == e.id && (ch in d.declarations || ch in d.replacements || ch in Repairs(d)) ensures Settled(ch, e.fields) {
      SteadyHas(e, d, ch);
    }
    assert ProfileQuiet(p, d.corrections);
    hide Settled, Steady, Fires, AmendAll, Work, Missing, Corrected, TotalFiring, Repairs;
    QuietProfile(p, d.corrections);
    SettledProfileIsFixed(p, d.declarations);
    SettledProfileIsFixed(p, d.replacements);
    SettledProfileIsFixed(p, Repairs(d));
    CostsAreFree();
    SettledProfileIsFree(p, d.replacements, Modified);
    SettledProfileIsFree(p, Repairs(d), Modified);
    NoneMissingIff(p, d.declarations);
    NoneMissingIff(p, d.replacements);
  }

  lemma NoIdsNoRecords(profile: seq<Asset>)
    requires AssetIds(profile) == {}
    ensures profile == []
  {
    assert profile != [] ==> profile[0].id in AssetIds(profile);
  }

  /** What is brought in is what was retired, and nothing comes from the share. */
  lemma OnlyRetiredReturn(p: seq<Asset>, d: Documents)
    requires LeftBehind(p, d) && RetirementsAgree(d) && DoNotFight(d)
    ensures Arrivals(AssetIds(p), d) == Returning(p, d) && Reconciled(AssetIds(p) + AssetIds(d.assets), d.reconciled) == []
    ensures UniqueAssets(Returning(p, d)) && AssetIds(Returning(p, d)) <= RetiredIds(d)
    ensures forall e :: e in Returning(p, d) ==> exists a :: a in d.assets && e == Provenanced(a) && a.id !in AssetIds(p)
    ensures !MergeRefused(p, d.assets)
  {
    AppendedAre(AssetIds(p), d.assets);
    ReconciledAre(AssetIds(p) + AssetIds(d.assets), d.reconciled);
    forall id | id in AssetIds(d.reconciled) ensures id in AssetIds(p) + AssetIds(d.assets) {
      var a :| a in d.reconciled && a.id == id;
    }
    NoIdsNoRecords(Reconciled(AssetIds(p) + AssetIds(d.assets), d.reconciled));
    forall a | a in d.assets && a.id !in AssetIds(p) ensures !TitleRefused(a) {
      assert a.id in AssetIds(d.assets);
    }
  }

  lemma FedAgainAt(p: seq<Asset>, d: Documents, k: nat)
    requires LeftBehind(p, d) && RetirementsAgree(d) && DoNotFight(d) && k < |Fed(p, d)|
    ensures |Fed(p, d)| == |p| + |Returning(p, d)|
    ensures k < |p| ==> Fed(p, d)[k] == p[k]
    ensures k >= |p| ==> Fed(p, d)[k] == AmendedAsset(Returning(p, d)[k - |p|], LateAmendments(d))
  {
    OnlyRetiredReturn(p, d);
    FedAt(p, d, k);
    hide Fed, Returning, Arrivals, Steady, AmendedAsset, CorrectAll, LateAmendments, AllAmendments, DoNotFight, RetirementsAgree, UniqueAssets;
    if k < |p| { SteadyIsFixed(p[k], d); }
  }

  lemma LengthOfFed(p: seq<Asset>, d: Documents)
    requires UniqueAssets(p) && UniqueAssets(d.assets)
    ensures |Fed(p, d)| == |p| + |Arrivals(AssetIds(p), d)|
  {
    FedFromHeld(p, d);
  }

  /** The records the second run brings back, as the collapse finds them. */
  function Returned(p: seq<Asset>, d: Documents): (r: seq<Asset>)
    ensures |r| == |Returning(p, d)|
    ensures forall k :: 0 <= k < |r| ==> r[k] == AmendedAsset(Returning(p, d)[k], LateAmendments(d))
  {
    seq(|Returning(p, d)|, k requires 0 <= k < |Returning(p, d)| => AmendedAsset(Returning(p, d)[k], LateAmendments(d)))
  }

  /** The profile the second collapse judges is the first run's with those records after it, */
  lemma FedAgain(p: seq<Asset>, d: Documents)
    requires LeftBehind(p, d) && RetirementsAgree(d) && DoNotFight(d)
    ensures Fed(p, d) == p + Returned(p, d)
  {
    LengthOfFed(p, d);
    OnlyRetiredReturn(p, d);
    forall k | 0 <= k < |Fed(p, d)| ensures Fed(p, d)[k] == (p + Returned(p, d))[k] {
      FedAgainAt(p, d, k);
    }
    hide *;
  }

  /** and each is the record its retirement authorises. */
  lemma ReturnedAre(p: seq<Asset>, d: Documents)
    requires LeftBehind(p, d) && RetirementsAgree(d) && DoNotFight(d)
    ensures UniqueAssets(Returned(p, d)) && AssetIds(Returned(p, d)) == AssetIds(Returning(p, d)) <= RetiredIds(d)
    ensures forall e :: e in d.collapse && e.retiredId in AssetIds(Returned(p, d)) ==> e.retired in Returned(p, d)
  {
    OnlyRetiredReturn(p, d);
    var (news, tail) := (Returning(p, d), Returned(p, d));
    SameUnique(news, tail);
    forall e | e in d.collapse && e.retiredId in AssetIds(tail) ensures e.retired in tail {
      hide Returning, Returned, LeftBehind, DoNotFight, LateAmendments, Provenanced, UniqueAssets, AmendedAsset;
      var j :| 0 <= j < |news| && news[j].id == e.retiredId;
      assert news[j] in news;
      var a :| a in d.assets && news[j] == Provenanced(a) && a.id !in AssetIds(p);
      ProvenancedId(a);
      assert tail[j] == e.retired;
    }
  }
}
