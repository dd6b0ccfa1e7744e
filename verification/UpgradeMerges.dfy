/** The passes of `seed/scripts/apply_upgrade.py` that bring records and posts in, fill what the profile lacks, and
    reapply the curation. */
module UpgradeMerges {
  import opened Sequences
  import opened Json
  import opened Catalogue
  import opened TitleRule
  import opened UpgradeRecords
  import opened UpgradePasses

  // ----- merge_added -----

  predicate TitleRefused(a: Asset) {
    HasTitleSeparator(TextAt(a.fields, "title"))
  }

  /** A merged record without provenance is staged at the destination. */
  function Provenanced(a: Asset): Asset {
    if Truthy(Get(a.fields, "source_path")) then a
    else a.(fields := a.fields["source_root" := Text("site")]["source_path" := Get(a.fields, "file_path")])
  }

  function RepairOf(a: Asset): Amendment {
    Repair(a.id, Meta(a.fields))
  }

  function RepairsOf(assets: seq<Asset>): (chs: seq<Amendment>)
    ensures |chs| == |assets| && forall i :: 0 <= i < |assets| ==> chs[i] == RepairOf(assets[i])
  {
    seq(|assets|, i requires 0 <= i < |assets| => RepairOf(assets[i]))
  }

  /** The merged records whose ids the profile did not hold when the pass began. */
  function Appended(ids: set<string>, assets: seq<Asset>): seq<Asset>
    decreases |assets|
  {
    if assets == [] then []
    else
      var a := assets[|assets| - 1];
      Appended(ids, assets[..|assets| - 1]) + if a.id in ids then [] else [Provenanced(a)]
  }

  function CountIn(assets: seq<Asset>, ids: set<string>): nat
    decreases |assets|
  {
    if assets == [] then 0
    else CountIn(assets[..|assets| - 1], ids) + if assets[|assets| - 1].id in ids then 1 else 0
  }

  function Merged(profile: seq<Asset>, assets: seq<Asset>): seq<Asset> {
    AmendAll(profile, RepairsOf(assets)) + Appended(AssetIds(profile), assets)
  }

  predicate MergeRefused(profile: seq<Asset>, assets: seq<Asset>) {
    exists a :: a in assets && a.id !in AssetIds(profile) && TitleRefused(a)
  }

  lemma AppendedStep(ids: set<string>, assets: seq<Asset>, i: nat)
    requires i < |assets|
    ensures Appended(ids, assets[..i + 1]) == Appended(ids, assets[..i]) + if assets[i].id in ids then [] else [Provenanced(assets[i])]
    ensures assets[i].id in ids ==> Appended(ids, assets[..i + 1]) == Appended(ids, assets[..i])
  {
    hide Provenanced;
    assert assets[..i + 1][..i] == assets[..i];
  }

  lemma CountStep(assets: seq<Asset>, a: Asset, ids: set<string>)
    ensures CountIn(assets + [a], ids) == CountIn(assets, ids) + if a.id in ids then 1 else 0
  {
    assert (assets + [a])[..|assets|] == assets;
  }

  /** `merge_added`: a new record's title is judged before anything is appended; a held record is only repaired. */
  method MergeAdded(w: Workspace, assets: seq<Asset>, retired: set<string>)
    returns (refused: bool, appended: nat, repaired: nat, appendedRetired: nat)
    modifies w`profile
    ensures refused == MergeRefused(old(w.profile), assets)
    ensures refused ==> w.profile == old(w.profile)
    ensures !refused ==> w.profile == Merged(old(w.profile), assets)
    ensures !refused ==> var news := Appended(AssetIds(old(w.profile)), assets);
                         appended == |news| && appendedRetired == CountIn(news, retired)
    ensures !refused ==> repaired == Work(old(w.profile), RepairsOf(assets), Modified)
  {
    appended, repaired, appendedRetired := 0, 0, 0;
    refused := exists a :: a in assets && a.id !in AssetIds(w.profile) && TitleRefused(a);
    if refused {
      return;
    }
    hide *;
    ghost var start := w.profile;
    var (held, news) := (w.profile, []);
    NothingMerged(start, assets, retired);
    for i := 0 to |assets|
      invariant w.profile == start && MergedSoFar(start, assets, i, retired, held, news, appended, repaired, appendedRetired)
    {
      var a := assets[i];
      var at := LastAsset(held, a.id);
      if at < |held| {
        var entry := held[at];
        var fixed := entry.(fields := Repaired(Meta(a.fields), entry.fields));
        RepairStep(start, assets, i, retired, held, news, appended, repaired, appendedRetired);
        held := held[at := fixed];
        if fixed != entry {
          repaired := repaired + 1;
        }
      } else {
        AppendStep(start, assets, i, retired, held, news, appended, repaired, appendedRetired);
        news := news + [Provenanced(a)];
        appended := appended + 1;
        if a.id in retired {
          appendedRetired := appendedRetired + 1;
        }
      }
    }
    w.profile := held + news;
    MergeDone(start, assets, retired, held, news, appended, repaired, appendedRetired);
  }

  /** The loop of `merge_added` after `i` records. */
  ghost predicate MergedSoFar(start: seq<Asset>, assets: seq<Asset>, i: nat, retired: set<string>,
                              held: seq<Asset>, news: seq<Asset>, appended: nat, repaired: nat, appendedRetired: nat) {
    && i <= |assets|
    && held == AmendAll(start, RepairsOf(assets)[..i]) && repaired == Work(start, RepairsOf(assets)[..i], Modified)
    && news == Appended(AssetIds(start), assets[..i]) && appended == |news| && appendedRetired == CountIn(news, retired)
  }

  lemma NothingMerged(start: seq<Asset>, assets: seq<Asset>, retired: set<string>)
    ensures MergedSoFar(start, assets, 0, retired, start, [], 0, 0, 0)
  {
  }

  lemma MergeDone(start: seq<Asset>, assets: seq<Asset>, retired: set<string>,
                  held: seq<Asset>, news: seq<Asset>, appended: nat, repaired: nat, appendedRetired: nat)
    requires MergedSoFar(start, assets, |assets|, retired, held, news, appended, repaired, appendedRetired)
    ensures held + news == Merged(start, assets) && repaired == Work(start, RepairsOf(assets), Modified)
    ensures news == Appended(AssetIds(start), assets) && appended == |news| && appendedRetired == CountIn(news, retired)
  {
    hide AmendAll, Work, Appended, CountIn;
    assert RepairsOf(assets)[..|assets|] == RepairsOf(assets) && assets[..|assets|] == assets;
  }

  lemma RepairStep(start: seq<Asset>, assets: seq<Asset>, i: nat, retired: set<string>,
                   held: seq<Asset>, news: seq<Asset>, appended: nat, repaired: nat, appendedRetired: nat)
    requires i < |assets| && MergedSoFar(start, assets, i, retired, held, news, appended, repaired, appendedRetired)
    requires LastAsset(held, assets[i].id) < |held|
    ensures var at := LastAsset(held, assets[i].id);
            var fixed := held[at].(fields := Repaired(Meta(assets[i].fields), held[at].fields));
            MergedSoFar(start, assets, i + 1, retired, held[at := fixed], news, appended,
                        if fixed != held[at] then repaired + 1 else repaired, appendedRetired)
  {
    hide AmendAll, AmendOne, LastAsset, Work, Appended, CountIn, Repaired, Meta, AssetIds, Modified, RepairsOf, RepairOf, Provenanced;
    var repairs := RepairsOf(assets);
    AmendStep(start, repairs, i);
    WorkStep(start, repairs, i, Modified);
    AppendedStep(AssetIds(start), assets, i);
    RepairedOne(held, assets[i]);
    IdsHeld(held, assets[i].id);
    assert repairs[i] == RepairOf(assets[i]);
  }

  lemma IdsHeld(held: seq<Asset>, id: string)
    ensures LastAsset(held, id) < |held| <==> id in AssetIds(held)
  {
  }

  lemma RepairedOne(held: seq<Asset>, a: Asset)
    ensures var at := LastAsset(held, a.id);
            && RepairOf(a).id == a.id
            && (at < |held| ==> var fixed := held[at].(fields := Repaired(Meta(a.fields), held[at].fields));
                                && AmendOne(held, RepairOf(a)) == held[at := fixed]
                                && Modified(RepairOf(a), held[at].fields) == if fixed != held[at] then 1 else 0)
            && (at >= |held| ==> AmendOne(held, RepairOf(a)) == held)
  {
    hide Repaired, Meta, LastAsset;
  }

  lemma AppendStep(start: seq<Asset>, assets: seq<Asset>, i: nat, retired: set<string>,
                   held: seq<Asset>, news: seq<Asset>, appended: nat, repaired: nat, appendedRetired: nat)
    requires i < |assets| && MergedSoFar(start, assets, i, retired, held, news, appended, repaired, appendedRetired)
    requires LastAsset(held, assets[i].id) >= |held|
    ensures MergedSoFar(start, assets, i + 1, retired, held, news + [Provenanced(assets[i])], appended + 1, repaired,
                        if assets[i].id in retired then appendedRetired + 1 else appendedRetired)
  {
    hide AmendAll, AmendOne, LastAsset, Work, Appended, CountIn, Repaired, Meta, AssetIds, Modified, RepairsOf, RepairOf, Provenanced;
    var repairs := RepairsOf(assets);
    AmendStep(start, repairs, i);
    WorkStep(start, repairs, i, Modified);
    AppendedStep(AssetIds(start), assets, i);
    CountStep(news, Provenanced(assets[i]), retired);
    ProvenancedId(assets[i]);
    RepairedOne(held, assets[i]);
    IdsHeld(held, assets[i].id);
    assert repairs[i] == RepairOf(assets[i]);
  }

  lemma ProvenancedId(a: Asset)
    ensures Provenanced(a).id == a.id
  {
  }

  // ----- merge_posts -----

  /** The documents' posts that the profile lacks, but for those a substitution has moved away. */
  function NewPosts(have: set<string>, moved: set<string>, posts: seq<Post>): seq<Post>
    decreases |posts|
  {
    if posts == [] then []
    else
      var p := posts[|posts| - 1];
      NewPosts(have, moved, posts[..|posts| - 1]) + if p.id in have || p.id in moved then [] else [p]
  }

  function MergedPosts(posts: seq<Post>, added: seq<Post>, moved: set<string>): seq<Post> {
    posts + NewPosts(PostIds(posts), moved, added)
  }

  /** The documents' posts skipped because a substitution has moved their id. */
  function SkippedPosts(have: set<string>, moved: set<string>, posts: seq<Post>): nat
    decreases |posts|
  {
    if posts == [] then 0
    else
      var p := posts[|posts| - 1];
      SkippedPosts(have, moved, posts[..|posts| - 1]) + if p.id !in have && p.id in moved then 1 else 0
  }

  /** `merge_posts`. */
  method MergePosts(w: Workspace, added: seq<Post>, moved: set<string>) returns (appended: nat, skipped: nat)
    modifies w`posts
    ensures w.posts == MergedPosts(old(w.posts), added, moved) && appended == |w.posts| - |old(w.posts)|
    ensures skipped == SkippedPosts(PostIds(old(w.posts)), moved, added)
  {
    ghost var start := w.posts;
    var have := PostIds(w.posts);
    hide PostIds;
    appended, skipped := 0, 0;
    for i := 0 to |added|
      invariant w.posts == start + NewPosts(have, moved, added[..i]) && appended == |w.posts| - |start|
      invariant skipped == SkippedPosts(have, moved, added[..i])
    {
      assert added[..i + 1][..i] == added[..i];
      if added[i].id !in have {
        if added[i].id in moved {
          skipped := skipped + 1;
        } else {
          w.posts := w.posts + [added[i]];
          appended := appended + 1;
        }
      }
    }
    assert added[..|added|] == added;
  }

  // ----- apply_manifest_reconcile -----

  /** The share's records the profile does not hold, one per id. */
  function Reconciled(ids: set<string>, records: seq<Asset>): seq<Asset>
    decreases |records|
  {
    if records == [] then []
    else
      var (before, a) := (Reconciled(ids, records[..|records| - 1]), records[|records| - 1]);
      before + if a.id in ids || a.id in AssetIds(before) then [] else [a]
  }

  /** The fills that name nothing the profile holds, the retired ids apart. */
  function Unplaced(profile: seq<Asset>, fills: seq<Amendment>, retired: set<string>): seq<string>
    decreases |fills|
  {
    if fills == [] then []
    else
      var ch := fills[|fills| - 1];
      Unplaced(profile, fills[..|fills| - 1], retired) + if ch.id in AssetIds(profile) || ch.id in retired then [] else [ch.id]
  }

  /** The fills that name a retired id the profile does not hold. */
  function RetiredFills(profile: seq<Asset>, fills: seq<Amendment>, retired: set<string>): seq<string>
    decreases |fills|
  {
    if fills == [] then []
    else
      var ch := fills[|fills| - 1];
      RetiredFills(profile, fills[..|fills| - 1], retired) + if ch.id !in AssetIds(profile) && ch.id in retired then [ch.id] else []
  }

  /** The cost of a fill that lands on a record about to be retired. */
  function RetiredFilling(retired: set<string>): (Amendment, Record) -> nat {
    (ch: Amendment, r: Record) => if ch.id in retired then FilledCount(ch, r) else 0
  }

  function PathsAt(r: Record, values: Record, k: string): set<Path>
    requires k in values
  {
    if values[k].Object? then set k2 | k2 in values[k].fields && FillsBelow(At(r, k), k2) :: [k, k2]
    else if IsEmpty(Get(r, k)) then {[k]} else {}
  }

  function Restricted(values: Record, keys: set<string>): Record {
    map k | k in values && k in keys :: values[k]
  }

  function EmptyKeys(sub: Record, values: Record): set<string> {
    set k | k in values && IsEmpty(Get(sub, k))
  }

  lemma BelowStep(sub: Record, values: Record, done: set<string>, k: string)
    requires k in values && k !in done
    ensures IsEmpty(Get(sub, k)) ==>
              FilledBelow(sub, Restricted(values, done + {k})) == FilledBelow(sub, Restricted(values, done))[k := values[k]]
    ensures !IsEmpty(Get(sub, k)) ==> FilledBelow(sub, Restricted(values, done + {k})) == FilledBelow(sub, Restricted(values, done))
    ensures |EmptyKeys(sub, Restricted(values, done + {k}))| ==
            |EmptyKeys(sub, Restricted(values, done))| + if IsEmpty(Get(sub, k)) then 1 else 0
  {
    assert Restricted(values, done + {k}) == Restricted(values, done)[k := values[k]];
    BelowOneMore(sub, Restricted(values, done), k, values[k]);
    EmptyOneMore(sub, Restricted(values, done), k, values[k]);
  }

  lemma BelowOneMore(sub: Record, values: Record, k: string, v: Json)
    requires k !in values
    ensures IsEmpty(Get(sub, k)) ==> FilledBelow(sub, values[k := v]) == FilledBelow(sub, values)[k := v]
    ensures !IsEmpty(Get(sub, k)) ==> k in sub && FilledBelow(sub, values[k := v]) == FilledBelow(sub, values)
  {
    assert IsEmpty(Null);
    hide IsEmpty;
  }

  lemma EmptyOneMore(sub: Record, values: Record, k: string, v: Json)
    requires k !in values
    ensures |EmptyKeys(sub, values[k := v])| == |EmptyKeys(sub, values)| + if IsEmpty(Get(sub, k)) then 1 else 0
  {
    hide IsEmpty;
    var (before, after) := (EmptyKeys(sub, values), EmptyKeys(sub, values[k := v]));
    assert k !in before;
    if IsEmpty(Get(sub, k)) { assert after == before + {k}; } else { assert after == before; }
  }

  /** One object the fill descends into. */
  method FillBelow(sub: Record, values: Record) returns (out: Record, n: nat)
    ensures out == FilledBelow(sub, values) && n == |EmptyKeys(sub, values)|
  {
    out, n := sub, 0;
    var keys := values.Keys;
    BelowNothing(sub, values);
    hide *;
    while keys != {}
      invariant keys <= values.Keys
      invariant out == FilledBelow(sub, Restricted(values, values.Keys - keys))
      invariant n == |EmptyKeys(sub, Restricted(values, values.Keys - keys))|
    {
      var k :| k in keys;
      BelowStep(sub, values, values.Keys - keys, k);
      OneLess(values.Keys, keys, k);
      keys := keys - {k};
      if IsEmpty(Get(sub, k)) {
        out := out[k := values[k]];
        n := n + 1;
      }
    }
    BelowEverything(values);
  }

  lemma BelowNothing(sub: Record, values: Record)
    ensures FilledBelow(sub, Restricted(values, values.Keys - values.Keys)) == sub
    ensures EmptyKeys(sub, Restricted(values, values.Keys - values.Keys)) == {}
  {
  }

  lemma BelowEverything(values: Record)
    ensures Restricted(values, values.Keys - {}) == values
  {
  }

  lemma OneLess(all: set<string>, keys: set<string>, k: string)
    requires k in keys && keys <= all
    ensures all - (keys - {k}) == (all - keys) + {k}
  {
  }

  /** One key of a fill. */
  method FillKey(r: Record, k: string, v: Json) returns (out: Record, n: nat)
    ensures out == r[k := FilledValue(At(r, k), v)] && n == |PathsAt(r, map[k := v], k)|
  {
    out, n := r, 0;
    if v.Object? {
      if k !in r || r[k].Object? {
        var sub := if k in r then r[k].fields else map[];
        var below: Record;
        below, n := FillBelow(sub, v.fields);
        out := out[k := Object(below)];
        var keys := EmptyKeys(sub, v.fields);
        PairCount(k, keys);
        assert PathsAt(r, map[k := v], k) == set k2 | k2 in keys :: [k, k2];
      } else {
        assert PathsAt(r, map[k := v], k) == {};
        assert out == r[k := FilledValue(At(r, k), v)];
      }
    } else if k !in r || IsEmpty(r[k]) {
      out, n := out[k := v], 1;
    } else {
      assert out == r[k := FilledValue(At(r, k), v)];
    }
  }

  lemma {:induction false} PairCount(k: string, keys: set<string>)
    ensures |set k2 | k2 in keys :: [k, k2]| == |keys|
    decreases |keys|
  {
    if keys != {} {
      var x :| x in keys;
      PairCount(k, keys - {x});
      assert (set k2 | k2 in keys :: [k, k2]) == (set k2 | k2 in keys - {x} :: [k, k2]) + {[k, x]};
    }
  }

  lemma FilledStep(r: Record, values: Record, done: set<string>, k: string)
    requires k in values && k !in done
    ensures Filled(r, Restricted(values, done + {k})) == Filled(r, Restricted(values, done))[k := FilledValue(At(r, k), values[k])]
    ensures At(Filled(r, Restricted(values, done)), k) == At(r, k)
  {
    hide FilledValue;
    var (before, after) := (Filled(r, Restricted(values, done)), Filled(r, Restricted(values, done + {k})));
    assert after.Keys == before.Keys + {k};
  }

  lemma PathsStep(r: Record, values: Record, done: set<string>, k: string)
    requires k in values && k !in done
    ensures FilledPaths(r, Restricted(values, done + {k})) == FilledPaths(r, Restricted(values, done)) + PathsAt(r, map[k := values[k]], k)
    ensures FilledPaths(r, Restricted(values, done)) !! PathsAt(r, map[k := values[k]], k)
  {
    hide FillsBelow, IsEmpty, Filled;
    var (before, after, here) := (FilledPaths(r, Restricted(values, done)), FilledPaths(r, Restricted(values, done + {k})), PathsAt(r, map[k := values[k]], k));
    forall path ensures path in after <==> path in before || path in here {
      PathIn(r, Restricted(values, done), path);
      PathIn(r, Restricted(values, done + {k}), path);
    }
    forall path | path in before ensures path !in here {
      PathIn(r, Restricted(values, done), path);
    }
  }

  predicate IsFilledPath(r: Record, values: Record, path: Path) {
    && path != [] && path[0] in values
    && if values[path[0]].Object? then |path| == 2 && path[1] in values[path[0]].fields && FillsBelow(At(r, path[0]), path[1])
       else |path| == 1 && IsEmpty(Get(r, path[0]))
  }

  lemma PathIn(r: Record, values: Record, path: Path)
    ensures path in FilledPaths(r, values) <==> IsFilledPath(r, values, path)
  {
    hide FillsBelow, IsEmpty;
    if IsFilledPath(r, values, path) {
      if values[path[0]].Object? { assert path == [path[0], path[1]]; } else { assert path == [path[0]]; }
    }
  }

  /** A fill, one key further. */
  lemma FillStep(r: Record, values: Record, done: set<string>, k: string, out: Record)
    requires k in values && k !in done && out == Filled(r, Restricted(values, done))
    ensures out[k := FilledValue(At(out, k), values[k])] == Filled(r, Restricted(values, done + {k}))
    ensures |FilledPaths(r, Restricted(values, done + {k}))| == |FilledPaths(r, Restricted(values, done))| + |PathsAt(out, map[k := values[k]], k)|
  {
    FilledStep(r, values, done, k);
    PathsStep(r, values, done, k);
    SamePaths(out, r, k, values[k]);
    hide *;
    DisjointCount(FilledPaths(r, Restricted(values, done)), PathsAt(r, map[k := values[k]], k));
  }

  lemma DisjointCount(a: set<Path>, b: set<Path>)
    requires a !! b
    ensures |a + b| == |a| + |b|
  {
  }

  method FillAll(values: Record, r: Record) returns (out: Record, n: nat)
    ensures out == Filled(r, values) && n == |FilledPaths(r, values)|
  {
    out, n := r, 0;
    var keys := values.Keys;
    FillNothing(r, values);
    hide *;
    while keys != {}
      invariant keys <= values.Keys
      invariant out == Filled(r, Restricted(values, values.Keys - keys))
      invariant n == |FilledPaths(r, Restricted(values, values.Keys - keys))|
    {
      var k :| k in keys;
      FillStep(r, values, values.Keys - keys, k, out);
      OneLess(values.Keys, keys, k);
      var more: nat;
      out, more := FillKey(out, k, values[k]);
      n := n + more;
      keys := keys - {k};
    }
    BelowEverything(values);
  }

  /** Every key of a fill; the keys do not meet. */
  method FillRecord(ch: Amendment, r: Record) returns (out: Record, n: nat)
    requires ch.FillIn?
    ensures out == Filled(r, ch.values) && n == FilledCount(ch, r)
  {
    var values := ch.values;
    out, n := FillAll(values, r);
  }

  function FilledAsset(ch: Amendment, e: Asset): Asset
    requires ch.FillIn?
  {
    e.(fields := Filled(e.fields, ch.values))
  }

  method FillAsset(ch: Amendment, e: Asset) returns (fixed: Asset, n: nat)
    requires ch.FillIn?
    ensures fixed == FilledAsset(ch, e) && n == FilledCount(ch, e.fields)
  {
    var out: Record;
    out, n := FillRecord(ch, e.fields);
    fixed := e.(fields := out);
  }

  lemma FillNothing(r: Record, values: Record)
    ensures Filled(r, Restricted(values, values.Keys - values.Keys)) == r
    ensures FilledPaths(r, Restricted(values, values.Keys - values.Keys)) == {}
  {
  }

  lemma SamePaths(out: Record, r: Record, k: string, v: Json)
    requires At(out, k) == At(r, k)
    ensures PathsAt(out, map[k := v], k) == PathsAt(r, map[k := v], k)
  {
  }

  /** The profile after `apply_manifest_reconcile`. */
  function Restored(profile: seq<Asset>, records: seq<Asset>, fills: seq<Amendment>): seq<Asset> {
    AmendAll(profile + Reconciled(AssetIds(profile), records), fills)
  }

  /** The first loop of `apply_manifest_reconcile`. */
  method AddRecords(w: Workspace, records: seq<Asset>) returns (added: nat)
    modifies w`profile
    ensures w.profile == old(w.profile) + Reconciled(AssetIds(old(w.profile)), records)
    ensures added == |Reconciled(AssetIds(old(w.profile)), records)|
  {
    added := 0;
    ghost var start := w.profile;
    ghost var ids := AssetIds(start);
    hide AssetIds;
    for i := 0 to |records|
      invariant w.profile == start + Reconciled(ids, records[..i]) && added == |Reconciled(ids, records[..i])|
    {
      assert records[..i + 1][..i] == records[..i];
      IdsOfBoth(start, Reconciled(ids, records[..i]));
      if records[i].id !in AssetIds(w.profile) {
        w.profile := w.profile + [records[i]];
        added := added + 1;
      }
    }
    assert records[..|records|] == records;
  }

  lemma IdsOfBoth(a: seq<Asset>, b: seq<Asset>)
    ensures AssetIds(a + b) == AssetIds(a) + AssetIds(b)
  {
  }

  /** `apply_manifest_reconcile`: records the profile lacks, then values it lacks; a fill is accounted for apart when it
      lands on a record about to be retired, and reported when it lands on nothing. */
  method Reconcile(w: Workspace, records: seq<Asset>, fills: Fills, retired: set<string>)
    returns (added: nat, filled: nat, filledRetired: nat, unknown: seq<string>, gone: seq<string>)
    modifies w`profile
    ensures var p := old(w.profile) + Reconciled(AssetIds(old(w.profile)), records);
            && w.profile == Restored(old(w.profile), records, fills)
            && added == |p| - |old(w.profile)|
            && filled == Work(p, fills, FilledCount) && filledRetired == Work(p, fills, RetiredFilling(retired))
            && unknown == Unplaced(p, fills, retired) && gone == RetiredFills(p, fills, retired)
  {
    hide AssetIds, Reconciled, AmendAll, Work, Unplaced, RetiredFills;
    added := AddRecords(w, records);
    filled, filledRetired, unknown, gone := ApplyFills(w, fills, retired);
  }

  /** Its second loop. */
  method ApplyFills(w: Workspace, fills: Fills, retired: set<string>)
    returns (filled: nat, filledRetired: nat, unknown: seq<string>, gone: seq<string>)
    modifies w`profile
    ensures FilledSoFar(old(w.profile), fills, retired, w.profile, filled, filledRetired, unknown, gone)
  {
    filled, filledRetired, unknown, gone := 0, 0, [], [];
    ghost var p := w.profile;
    NothingFilled(p, retired);
    hide LastAsset, FilledSoFar, FilledCount, FilledAsset, AssetIds, AmendAll, Work, Unplaced, RetiredFills;
    for i := 0 to |fills|
      invariant FilledSoFar(p, fills[..i], retired, w.profile, filled, filledRetired, unknown, gone)
    {
      var ch := fills[i];
      var at := LastAsset(w.profile, ch.id);
      if at == |w.profile| {
        FillPlacedNowhere(p, fills, i, retired, w.profile, filled, filledRetired, unknown, gone);
        if ch.id in retired {
          gone := gone + [ch.id];
        } else {
          unknown := unknown + [ch.id];
        }
      } else {
        var e := w.profile[at];
        var fixed: Asset, n: nat;
        fixed, n := FillAsset(ch, e);
        OneMoreFill(p, fills, i, retired, w.profile, filled, filledRetired, unknown, gone, fixed, n);
        w.profile := w.profile[at := fixed];
        filled := filled + n;
        if ch.id in retired {
          filledRetired := filledRetired + n;
        }
      }
    }
    assert fills[..|fills|] == fills;
  }

  /** The loop over the fills, after some of them. */
  ghost predicate FilledSoFar(p: seq<Asset>, fills: seq<Amendment>, retired: set<string>,
                              profile: seq<Asset>, filled: nat, filledRetired: nat, unknown: seq<string>, gone: seq<string>) {
    && profile == AmendAll(p, fills) && unknown == Unplaced(p, fills, retired) && gone == RetiredFills(p, fills, retired)
    && filled == Work(p, fills, FilledCount) && filledRetired == Work(p, fills, RetiredFilling(retired))
  }

  lemma NothingFilled(p: seq<Asset>, retired: set<string>)
    ensures FilledSoFar(p, [], retired, p, 0, 0, [], [])
  {
  }

  lemma FillPlacedNowhere(p: seq<Asset>, fills: seq<Amendment>, i: nat, retired: set<string>,
                          profile: seq<Asset>, filled: nat, filledRetired: nat, unknown: seq<string>, gone: seq<string>)
    requires i < |fills| && FilledSoFar(p, fills[..i], retired, profile, filled, filledRetired, unknown, gone)
    requires LastAsset(profile, fills[i].id) == |profile|
    ensures fills[i].id in retired ==>
              FilledSoFar(p, fills[..i + 1], retired, profile, filled, filledRetired, unknown, gone + [fills[i].id])
    ensures fills[i].id !in retired ==>
              FilledSoFar(p, fills[..i + 1], retired, profile, filled, filledRetired, unknown + [fills[i].id], gone)
  {
    hide AmendAll, Work, Unplaced, RetiredFills, AssetIds, LastAsset, FilledCount, Filled;
    ReconcileStep(p, fills, i, retired);
    IdsHeld(profile, fills[i].id);
  }

  lemma OneMoreFill(p: seq<Asset>, fills: seq<Amendment>, i: nat, retired: set<string>,
                    profile: seq<Asset>, filled: nat, filledRetired: nat, unknown: seq<string>, gone: seq<string>, fixed: Asset, n: nat)
    requires i < |fills| && FilledSoFar(p, fills[..i], retired, profile, filled, filledRetired, unknown, gone)
    requires LastAsset(profile, fills[i].id) < |profile| && fills[i].FillIn?
    requires var e := profile[LastAsset(profile, fills[i].id)];
             fixed == FilledAsset(fills[i], e) && n == FilledCount(fills[i], e.fields)
    ensures var (at, next) := (LastAsset(profile, fills[i].id), fills[..i + 1]);
            && (fills[i].id in retired ==>
                  FilledSoFar(p, next, retired, profile[at := fixed], filled + n, filledRetired + n, unknown, gone))
            && (fills[i].id !in retired ==>
                  FilledSoFar(p, next, retired, profile[at := fixed], filled + n, filledRetired, unknown, gone))
  {
    hide AmendAll, Work, Unplaced, RetiredFills, AssetIds, LastAsset, FilledCount, Filled;
    ReconcileStep(p, fills, i, retired);
    IdsHeld(profile, fills[i].id);
  }

  /** One more fill, with everything it is counted in. */
  lemma ReconcileStep(p: seq<Asset>, fills: seq<Amendment>, i: nat, retired: set<string>)
    requires i < |fills|
    ensures var (before, ch) := (AmendAll(p, fills[..i]), fills[i]);
            var at := LastAsset(before, ch.id);
            && AmendAll(p, fills[..i + 1]) == AmendOne(before, ch) && AssetIds(before) == AssetIds(p)
            && Work(p, fills[..i + 1], FilledCount) ==
               Work(p, fills[..i], FilledCount) + (if at < |before| then FilledCount(ch, before[at].fields) else 0)
            && Work(p, fills[..i + 1], RetiredFilling(retired)) ==
               Work(p, fills[..i], RetiredFilling(retired))
               + (if at < |before| && ch.id in retired then FilledCount(ch, before[at].fields) else 0)
            && Unplaced(p, fills[..i + 1], retired) ==
               Unplaced(p, fills[..i], retired) + (if ch.id in AssetIds(p) || ch.id in retired then [] else [ch.id])
            && RetiredFills(p, fills[..i + 1], retired) ==
               RetiredFills(p, fills[..i], retired) + (if ch.id !in AssetIds(p) && ch.id in retired then [ch.id] else [])
  {
    AmendStep(p, fills, i);
    WorkStep(p, fills, i, FilledCount);
    WorkStep(p, fills, i, RetiredFilling(retired));
    UnplacedStep(p, fills, i, retired);
    hide AmendAll, AmendOne, Work, Unplaced, RetiredFills, AssetIds, LastAsset, FilledCount;
  }

  lemma UnplacedStep(profile: seq<Asset>, fills: seq<Amendment>, i: nat, retired: set<string>)
    requires i < |fills|
    ensures Unplaced(profile, fills[..i + 1], retired) ==
            Unplaced(profile, fills[..i], retired) + if fills[i].id in AssetIds(profile) || fills[i].id in retired then [] else [fills[i].id]
    ensures RetiredFills(profile, fills[..i + 1], retired) ==
            RetiredFills(profile, fills[..i], retired) + if fills[i].id !in AssetIds(profile) && fills[i].id in retired then [fills[i].id] else []
  {
    assert fills[..i + 1][..i] == fills[..i];
  }

  // ----- apply_post_curation -----

  /** The hand-made values of one post: a date or a member order where the document names one. */
  datatype Curation = Curation(id: string, createdAt: Option<Json>, updatedAt: Option<Json>, members: Option<seq<string>>)

  function Dated(r: Record, key: string, v: Option<Json>): Record {
    if v.Some? && Get(r, key) != v.value then r[key := v.value] else r
  }

  function Curated(c: Curation, p: Post): Post {
    Post(p.id, if c.members.Some? then c.members.value else p.members,
         Dated(Dated(p.other, "created_at", c.createdAt), "updated_at", c.updatedAt))
  }

  function CurateOne(posts: seq<Post>, c: Curation): (r: seq<Post>)
    ensures |r| == |posts| && forall k :: 0 <= k < |posts| ==> r[k].id == posts[k].id
  {
    var i := LastPost(posts, c.id);
    if i < |posts| then posts[i := Curated(c, posts[i])] else posts
  }

  function CurateAll(posts: seq<Post>, cs: seq<Curation>): (r: seq<Post>)
    ensures |r| == |posts| && forall k :: 0 <= k < |posts| ==> r[k].id == posts[k].id
    decreases |cs|
  {
    if cs == [] then posts else CurateOne(CurateAll(posts, cs[..|cs| - 1]), cs[|cs| - 1])
  }

  /** The curated posts that changed. */
  function CuratedPosts(posts: seq<Post>, cs: seq<Curation>): nat
    decreases |cs|
  {
    if cs == [] then 0
    else
      var n := |cs| - 1;
      CuratedPosts(posts, cs[..n]) + if CurateAll(posts, cs[..n]) != CurateAll(posts, cs) then 1 else 0
  }

  /** The values one entry writes onto its post. */
  function ValuesWritten(c: Curation, p: Post): nat {
    (if c.createdAt.Some? && Get(p.other, "created_at") != c.createdAt.value then 1 else 0)
    + (if c.updatedAt.Some? && Get(p.other, "updated_at") != c.updatedAt.value then 1 else 0)
    + (if c.members.Some? && p.members != c.members.value then 1 else 0)
  }

  /** All the values written, each entry judged as the posts stand at its turn. */
  function CuratedValues(posts: seq<Post>, cs: seq<Curation>): nat
    decreases |cs|
  {
    if cs == [] then 0
    else
      var n := |cs| - 1;
      var before := CurateAll(posts, cs[..n]);
      var i := LastPost(before, cs[n].id);
      CuratedValues(posts, cs[..n]) + if i < |before| then ValuesWritten(cs[n], before[i]) else 0
  }

  function Uncurated(posts: seq<Post>, cs: seq<Curation>): seq<string>
    decreases |cs|
  {
    if cs == [] then []
    else Uncurated(posts, cs[..|cs| - 1]) + if cs[|cs| - 1].id in PostIds(posts) then [] else [cs[|cs| - 1].id]
  }

  /** `apply_post_curation`: only the named values, only onto posts that exist; a curated post that does not is reported. */
  method Curate(w: Workspace, cs: seq<Curation>) returns (curated: nat, values: nat, missing: seq<string>)
    modifies w`posts
    ensures w.posts == CurateAll(old(w.posts), cs) && values == CuratedValues(old(w.posts), cs)
    ensures curated == CuratedPosts(old(w.posts), cs) && missing == Uncurated(old(w.posts), cs)
  {
    curated, values, missing := 0, 0, [];
    hide LastPost, PostIds, Curated, ValuesWritten;
    for i := 0 to |cs|
      invariant w.posts == CurateAll(old(w.posts), cs[..i]) && values == CuratedValues(old(w.posts), cs[..i])
      invariant curated == CuratedPosts(old(w.posts), cs[..i]) && missing == Uncurated(old(w.posts), cs[..i])
    {
      assert cs[..i + 1][..i] == cs[..i];
      SamePostIds(old(w.posts), w.posts);
      var c := cs[i];
      var at := LastPost(w.posts, c.id);
      if at == |w.posts| {
        missing := missing + [c.id];
      } else {
        var target := w.posts[at];
        var (out, touched) := (target, 0);
        out, touched := CuratePost(c, target);
        w.posts := w.posts[at := out];
        values := values + touched;
        if touched > 0 {
          curated := curated + 1;
        }
        assert (out != target) == (w.posts != CurateAll(old(w.posts), cs[..i]));
      }
    }
    assert cs[..|cs|] == cs;
  }

  /** One entry on its post, key by key. */
  method CuratePost(c: Curation, p: Post) returns (out: Post, touched: nat)
    ensures out == Curated(c, p) && touched == ValuesWritten(c, p) && (touched > 0 <==> out != p)
  {
    out, touched := p, 0;
    if c.createdAt.Some? && Get(out.other, "created_at") != c.createdAt.value {
      out := out.(other := out.other["created_at" := c.createdAt.value]);
      touched := touched + 1;
      assert Get(out.other, "created_at") != Get(p.other, "created_at");
    }
    if c.updatedAt.Some? && Get(out.other, "updated_at") != c.updatedAt.value {
      out := out.(other := out.other["updated_at" := c.updatedAt.value]);
      touched := touched + 1;
      assert Get(out.other, "updated_at") != Get(p.other, "updated_at");
    }
    if c.members.Some? && out.members != c.members.value {
      out := out.(members := c.members.value);
      touched := touched + 1;
    }
  }

  lemma SamePostIds(posts: seq<Post>, after: seq<Post>)
    requires |after| == |posts| && forall k :: 0 <= k < |posts| ==> after[k].id == posts[k].id
    ensures PostIds(after) == PostIds(posts)
  {
    forall id ensures id in PostIds(after) <==> id in PostIds(posts) {
      if id in PostIds(posts) {
        var k :| 0 <= k < |posts| && posts[k].id == id;
        assert after[k] in after;
      }
      if id in PostIds(after) {
        var k :| 0 <= k < |after| && after[k].id == id;
        assert posts[k] in posts;
      }
    }
  }
}
