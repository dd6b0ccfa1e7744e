/** Records and profiles on which the asset passes have nothing left to do. */
module UpgradeSteady {
  import opened Json
  import opened Catalogue
  import opened UpgradeRecords
  import opened UpgradePasses

  // ----- one record along a list of amendments -----

  /** What a list of amendments makes of the record of one id. */
  function Along(id: string, r: Record, chs: seq<Amendment>): Record
    decreases |chs|
  {
    if chs == [] then r
    else
      var n := |chs| - 1;
      var before := Along(id, r, chs[..n]);
      if chs[n].id == id then Amended(chs[n], before) else before
  }

  lemma {:induction false} AlongAppend(id: string, r: Record, a: seq<Amendment>, b: seq<Amendment>)
    ensures Along(id, r, a + b) == Along(id, Along(id, r, a), b)
    decreases |b|
  {
    hide Amended;
    if b == [] {
      assert a + b == a;
    } else {
      var n := |b| - 1;
      AlongAppend(id, r, a, b[..n]);
      assert (a + b)[..|a + b| - 1] == a + b[..n] && (a + b)[|a + b| - 1] == b[n];
    }
  }

  ghost predicate AllWhole(chs: seq<Amendment>) {
    forall ch :: ch in chs ==> Whole(ch)
  }

  /** Amendments of one record come in the order of the passes and do not fight. */
  ghost predicate Ordered(chs: seq<Amendment>) {
    forall i, j :: 0 <= i < j < |chs| && chs[i].id == chs[j].id ==> MayFollow(chs[i], chs[j])
  }

  /** Everything the list has for the record is settled. */
  ghost predicate AllSettled(id: string, r: Record, chs: seq<Amendment>) {
    forall ch :: ch in chs && ch.id == id ==> Settled(ch, r)
  }

  lemma {:induction false} AlongSettles(id: string, r: Record, chs: seq<Amendment>)
    requires AllWhole(chs) && Ordered(chs) && MetaIsObject(r)
    ensures AllSettled(id, Along(id, r, chs), chs) && MetaIsObject(Along(id, r, chs))
    decreases |chs|
  {
    hide Amended, Whole, Settled, MetaIsObject, MayFollow;
    if chs != [] {
      var n := |chs| - 1;
      AlongSettles(id, r, chs[..n]);
      assert chs == chs[..n] + [chs[n]];
      var before := Along(id, r, chs[..n]);
      if chs[n].id == id {
        AmendedSettles(chs[n], before);
        MetaStaysObject(chs[n], before);
        forall ch | ch in chs[..n] && ch.id == id ensures Settled(ch, Amended(chs[n], before)) {
          var i :| 0 <= i < n && chs[i] == ch;
          LaterKeepsSettled(ch, before, chs[n]);
        }
      }
    }
  }

  /** What was settled before stays settled. */
  lemma {:induction false} AlongKeeps(first: Amendment, id: string, r: Record, chs: seq<Amendment>)
    requires Settled(first, r) && Whole(first) && AllWhole(chs) && MetaIsObject(r)
    requires forall ch :: ch in chs && ch.id == id ==> MayFollow(first, ch)
    ensures Settled(first, Along(id, r, chs)) && MetaIsObject(Along(id, r, chs))
    decreases |chs|
  {
    hide Amended, Whole, Settled, MetaIsObject, MayFollow;
    if chs != [] {
      var n := |chs| - 1;
      assert chs == chs[..n] + [chs[n]];
      AlongKeeps(first, id, r, chs[..n]);
      var before := Along(id, r, chs[..n]);
      if chs[n].id == id {
        LaterKeepsSettled(first, before, chs[n]);
        MetaStaysObject(chs[n], before);
      }
    }
  }

  lemma {:induction false} AlongIsFixed(id: string, r: Record, chs: seq<Amendment>)
    requires AllSettled(id, r, chs)
    ensures Along(id, r, chs) == r
    decreases |chs|
  {
    hide Amended, Settled;
    if chs != [] {
      var n := |chs| - 1;
      AlongIsFixed(id, r, chs[..n]);
      if chs[n].id == id { SettledIsFixed(chs[n], r); }
    }
  }

  lemma {:induction false} AlongIsQuiet(c: Correction, id: string, r: Record, chs: seq<Amendment>)
    requires !Fires(c, r) && forall ch :: ch in chs ==> LeavesAlone(c, ch)
    ensures !Fires(c, Along(id, r, chs))
    decreases |chs|
  {
    hide Amended, Fires, LeavesAlone;
    if chs != [] {
      var n := |chs| - 1;
      AlongIsQuiet(c, id, r, chs[..n]);
      if chs[n].id == id { AmendedKeepsQuiet(c, chs[n], Along(id, r, chs[..n])); }
    }
  }

  // ----- a whole profile along a list -----

  function AmendedAsset(e: Asset, chs: seq<Amendment>): Asset {
    e.(fields := Along(e.id, e.fields, chs))
  }

  lemma {:induction false} UniqueAfter(profile: seq<Asset>, chs: seq<Amendment>)
    requires UniqueAssets(profile)
    ensures UniqueAssets(AmendAll(profile, chs)) && AssetIds(AmendAll(profile, chs)) == AssetIds(profile)
  {
    SameIds(profile, chs);
  }

  lemma LastAssetUnique(profile: seq<Asset>, k: nat)
    requires UniqueAssets(profile) && k < |profile|
    ensures LastAsset(profile, profile[k].id) == k
  {
    assert profile[k].id in AssetIds(profile);
  }

  /** Where every id is held once, a pass amends each record by itself. */
  lemma {:induction false} AmendAllAt(profile: seq<Asset>, chs: seq<Amendment>, k: nat)
    requires UniqueAssets(profile) && k < |profile|
    ensures AmendAll(profile, chs)[k] == AmendedAsset(profile[k], chs)
    decreases |chs|
  {
    hide Amended, LastAsset;
    if chs != [] {
      var n := |chs| - 1;
      AmendAllAt(profile, chs[..n], k);
      UniqueAfter(profile, chs[..n]);
      var before := AmendAll(profile, chs[..n]);
      LastAssetUnique(before, k);
      if chs[n].id != profile[k].id { OtherRecord(before, chs[n], k); }
    }
  }

  lemma OtherRecord(profile: seq<Asset>, ch: Amendment, k: nat)
    requires k < |profile| && profile[k].id != ch.id
    ensures AmendOne(profile, ch)[k] == profile[k]
  {
  }

  /** Every record of the profile has settled the list. */
  ghost predicate ProfileSettled(profile: seq<Asset>, chs: seq<Amendment>) {
    forall e :: e in profile ==> AllSettled(e.id, e.fields, chs)
  }

  /** Then the pass is a no-op, */
  lemma {:induction false} SettledProfileIsFixed(profile: seq<Asset>, chs: seq<Amendment>)
    requires ProfileSettled(profile, chs)
    ensures AmendAll(profile, chs) == profile
    decreases |chs|
  {
    hide Settled, Amended;
    if chs != [] {
      var n := |chs| - 1;
      assert chs == chs[..n] + [chs[n]];
      SettledProfileIsFixed(profile, chs[..n]);
      SettledOneIsFixed(profile, chs[n]);
    }
  }

  lemma SettledOneIsFixed(profile: seq<Asset>, ch: Amendment)
    requires forall e :: e in profile && e.id == ch.id ==> Settled(ch, e.fields)
    ensures AmendOne(profile, ch) == profile
  {
    hide Settled, Amended;
    var i := LastAsset(profile, ch.id);
    if i < |profile| {
      assert profile[i] in profile;
      SettledIsFixed(ch, profile[i].fields);
    }
  }

  /** What it costs nothing to do again. */
  ghost predicate FreeWhenSettled(cost: (Amendment, Record) -> nat) {
    forall ch, r :: Settled(ch, r) ==> cost(ch, r) == 0
  }

  lemma CostsAreFree()
    ensures FreeWhenSettled(Modified) && FreeWhenSettled(FilledCount) && FreeWhenSettled(Resized) && FreeWhenSettled(Rehashed)
  {
    forall ch, r | Settled(ch, r)
      ensures Modified(ch, r) == 0 && FilledCount(ch, r) == 0 && Resized(ch, r) == 0 && Rehashed(ch, r) == 0
    {
      CostIsFree(ch, r);
    }
  }

  lemma CostIsFree(ch: Amendment, r: Record)
    requires Settled(ch, r)
    ensures Modified(ch, r) == 0 && FilledCount(ch, r) == 0 && Resized(ch, r) == 0 && Rehashed(ch, r) == 0
  {
    SettledIsFixed(ch, r);
    if ch.Stage? { assert Sized(ch, r) == r; }
    hide Amended, FilledPaths;
  }

  /** and finds nothing to do. */
  lemma {:induction false} SettledProfileIsFree(profile: seq<Asset>, chs: seq<Amendment>, cost: (Amendment, Record) -> nat)
    requires ProfileSettled(profile, chs) && FreeWhenSettled(cost)
    ensures Work(profile, chs, cost) == 0
    decreases |chs|
  {
    hide Settled, Amended, AmendAll;
    if chs != [] {
      var n := |chs| - 1;
      assert chs == chs[..n] + [chs[n]];
      SettledProfileIsFree(profile, chs[..n], cost);
      SettledProfileIsFixed(profile, chs[..n]);
      var i := LastAsset(profile, chs[n].id);
      if i < |profile| { assert profile[i] in profile; }
    }
  }

  /** Two ways of counting agree where they agree on every record at its turn. */
  lemma {:induction false} WorkAgrees(profile: seq<Asset>, chs: seq<Amendment>, cost: (Amendment, Record) -> nat, other: (Amendment, Record) -> nat)
    requires forall i, e :: 0 <= i < |chs| && e in AmendAll(profile, chs[..i]) && e.id == chs[i].id ==> cost(chs[i], e.fields) == other(chs[i], e.fields)
    ensures Work(profile, chs, cost) == Work(profile, chs, other)
    decreases |chs|
  {
    hide Amended, AmendAll;
    if chs != [] {
      var n := |chs| - 1;
      forall i | 0 <= i < n ensures chs[..n][..i] == chs[..i] {
      }
      WorkAgrees(profile, chs[..n], cost, other);
      var before := AmendAll(profile, chs[..n]);
      var i := LastAsset(before, chs[n].id);
      if i < |before| { assert before[i] in before; }
    }
  }

  /** Nothing a document names is missing. */
  lemma {:induction false} NoneMissingIff(profile: seq<Asset>, chs: seq<Amendment>)
    ensures Missing(profile, chs) == [] <==> forall ch :: ch in chs ==> ch.id in AssetIds(profile)
    decreases |chs|
  {
    hide AssetIds;
    if chs != [] {
      NoneMissingIff(profile, chs[..|chs| - 1]);
      assert chs == chs[..|chs| - 1] + [chs[|chs| - 1]];
    }
  }

  // ----- corrections -----

  ghost predicate ProfileQuiet(profile: seq<Asset>, cs: seq<Correction>) {
    forall e, c :: e in profile && c in cs ==> !Fires(c, e.fields)
  }

  lemma {:induction false} QuietRecord(e: Asset, cs: seq<Correction>)
    requires forall c :: c in cs ==> !Fires(c, e.fields)
    ensures CorrectAll(cs, e) == e
    decreases |cs|
  {
    hide Fires;
    if cs != [] {
      QuietRecord(e, cs[..|cs| - 1]);
      assert cs == cs[..|cs| - 1] + [cs[|cs| - 1]];
    }
  }

  lemma {:induction false} NoneFiring(profile: seq<Asset>, c: Correction)
    requires forall e :: e in profile ==> !Fires(c, e.fields)
    ensures Firing(c, profile) == 0
    decreases |profile|
  {
    hide Fires;
    if profile != [] {
      assert profile == profile[..|profile| - 1] + [profile[|profile| - 1]];
      NoneFiring(profile[..|profile| - 1], c);
    }
  }

  lemma {:induction false} QuietProfile(profile: seq<Asset>, cs: seq<Correction>)
    requires ProfileQuiet(profile, cs)
    ensures Corrected(profile, cs) == profile && TotalFiring(profile, cs) == 0
    decreases |cs|
  {
    hide Fires, Firing;
    forall k | 0 <= k < |profile| ensures CorrectAll(cs, profile[k]) == profile[k] {
      QuietRecord(profile[k], cs);
    }
    if cs != [] {
      var n := |cs| - 1;
      assert cs[n] in cs && forall c :: c in cs[..n] ==> c in cs;
      QuietProfile(profile, cs[..n]);
      NoneFiring(profile, cs[n]);
    }
  }
}
