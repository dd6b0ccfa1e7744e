/** What a retirement costs: the enumeration of `recompute_losses` in `seed/scripts/asset_collapse.py`. Losses are keyed
    by their path of keys. */
module LossEnumeration {
  import opened Sequences
  import opened Json

  /** The retired value, and what the survivor holds at the same path if it holds anything. */
  datatype Loss = Loss(retired: Json, survivor: Option<Json>)

  type LossMap = map<Path, Loss>

  function Child(b: Option<Json>, key: string): Option<Json> {
    if b.Some? && b.value.Object? then At(b.value.fields, key) else None
  }

  /** The recursive walk of `recompute_losses`. */
  function Losses(a: Json, b: Option<Json>): LossMap
    decreases a
  {
    if a.Object? && b.Some? && b.value.Object? then
      var paths := set k, p | k in a.fields && p in Losses(a.fields[k], Child(b, k)) :: [k] + p;
      map path | path in paths :: Losses(a.fields[path[0]], Child(b, path[0]))[path[1..]]
    else if b == Some(a) then map[]
    else map[[] := Loss(a, b)]
  }

  predicate Walks(a: Json, b: Option<Json>) {
    a.Object? && b.Some? && b.value.Object?
  }

  /** One key of the walk. */
  function Under(key: string, losses: LossMap): LossMap {
    map path | path in (set p | p in losses :: [key] + p) :: losses[path[1..]]
  }

  lemma UnderAt(key: string, losses: LossMap, path: Path)
    ensures path in Under(key, losses) <==> path != [] && path[0] == key && path[1..] in losses
    ensures path in Under(key, losses) ==> Under(key, losses)[path] == losses[path[1..]]
  {
    if path != [] && path[0] == key { assert path == [key] + path[1..]; }
  }

  lemma WalkAt(a: Json, b: Option<Json>, path: Path)
    requires Walks(a, b)
    ensures path in Losses(a, b) <==>
            path != [] && path[0] in a.fields && path[1..] in Losses(a.fields[path[0]], Child(b, path[0]))
    ensures path in Losses(a, b) ==> Losses(a, b)[path] == Losses(a.fields[path[0]], Child(b, path[0]))[path[1..]]
  {
    if path != [] && path[0] in a.fields && path[1..] in Losses(a.fields[path[0]], Child(b, path[0])) {
      assert path == [path[0]] + path[1..];
    }
  }

  /** The walk as the source makes it: key by key, appending to what it has. */
  method RecomputeLosses(a: Json, b: Option<Json>) returns (out: LossMap)
    ensures out == Losses(a, b)
    decreases a
  {
    if a.Object? && b.Some? && b.value.Object? {
      out := map[];
      var keys := a.fields.Keys;
      while keys != {}
        invariant keys <= a.fields.Keys
        invariant forall path :: path in out <==> path in Losses(a, b) && path[0] !in keys
        invariant forall path :: path in out ==> out[path] == Losses(a, b)[path]
      {
        var k :| k in keys;
        var sub := RecomputeLosses(a.fields[k], if k in b.value.fields then Some(b.value.fields[k]) else None);
        var extended := out + Under(k, sub);
        forall path
          ensures path in extended <==> path in Losses(a, b) && path[0] !in keys - {k}
          ensures path in extended ==> extended[path] == Losses(a, b)[path]
        {
          WalkAt(a, b, path);
          UnderAt(k, sub, path);
        }
        out := extended;
        keys := keys - {k};
      }
    } else if b == Some(a) {
      out := map[];
    } else {
      out := map[[] := Loss(a, b)];
    }
  }

  // ----- what the enumeration means -----

  /** `w` carries the value `v`: an object as an object, anything else as an equal value. */
  predicate Carried(v: Json, w: Option<Json>) {
    w.Some? && if v.Object? then w.value.Object? else w.value == v
  }

  /** Everything in `a` is present and equal in `b`, at every depth. */
  ghost predicate Carries(a: Json, b: Option<Json>) {
    b.Some? && forall path :: Lookup(a, path).Some? ==> Carried(Lookup(a, path).value, Lookup(b.value, path))
  }

  predicate IsObject(v: Option<Json>) {
    v.Some? && v.value.Object?
  }

  /** The two records part at `path`: everything above it is an object on both sides, and the value is not carried. */
  predicate PartsAt(a: Json, b: Json, path: Path) {
    && Lookup(a, path).Some? && !Carried(Lookup(a, path).value, Lookup(b, path))
    && (path == [] || IsObject(Lookup(b, path[..|path| - 1])))
  }

  /** A loss is where the two records part, and both values are recorded as they stand. */
  lemma {:induction false} LossAt(a: Json, b: Json, path: Path)
    ensures path in Losses(a, Some(b)) <==> PartsAt(a, b, path)
    ensures path in Losses(a, Some(b)) ==> Losses(a, Some(b))[path] == Loss(Lookup(a, path).value, Lookup(b, path))
    decreases |path|
  {
    if path == [] {
      if a.Object? && b.Object? { WalkAt(a, Some(b), path); }
    } else if !a.Object? {
    } else if !b.Object? {
      NothingBelow(b, path);
    } else {
      WalkAt(a, Some(b), path);
      if path[0] in a.fields {
        LossBelow(a, b, path);
      }
    }
  }

  lemma NothingBelow(b: Json, path: Path)
    requires !b.Object? && path != []
    ensures !IsObject(Lookup(b, path[..|path| - 1]))
  {
  }

  lemma LossBelow(a: Json, b: Json, path: Path)
    requires a.Object? && b.Object? && path != [] && path[0] in a.fields
    ensures path in Losses(a, Some(b)) <==> PartsAt(a, b, path)
    ensures path in Losses(a, Some(b)) ==> Losses(a, Some(b))[path] == Loss(Lookup(a, path).value, Lookup(b, path))
    decreases |path|, 0
  {
    var k, rest := path[0], path[1..];
    WalkAt(a, Some(b), path);
    if k in b.fields {
      LossAt(a.fields[k], b.fields[k], rest);
      hide Losses, Carried;
      ParentLookup(b, path);
    } else {
      AbsentLoss(a.fields[k], rest);
      if |path| > 1 {
        assert path[..|path| - 1][0] == k;
      } else {
        assert rest == [] && path[..|path| - 1] == [];
        assert Lookup(a, path) == Some(a.fields[k]);
      }
    }
  }

  lemma ParentLookup(b: Json, path: Path)
    requires b.Object? && path != [] && path[0] in b.fields
    ensures |path| == 1 ==> IsObject(Lookup(b, path[..|path| - 1])) && path[1..] == []
    ensures |path| > 1 ==> Lookup(b, path[..|path| - 1]) == Lookup(b.fields[path[0]], path[1..][..|path[1..]| - 1])
  {
    var parent := path[..|path| - 1];
    if |path| > 1 { assert parent[0] == path[0] && parent[1..] == path[1..][..|path| - 2]; }
  }

  lemma AbsentLoss(a: Json, path: Path)
    ensures path in Losses(a, None) <==> path == []
    ensures Losses(a, None)[[]] == Loss(a, None)
  {
  }

  /** The enumeration is empty exactly when nothing is lost. */
  lemma {:induction false} NoLossIffCarried(a: Json, b: Json)
    ensures Losses(a, Some(b)) == map[] <==> Carries(a, Some(b))
  {
    if Carries(a, Some(b)) {
      forall path ensures path !in Losses(a, Some(b)) {
        LossAt(a, b, path);
      }
    }
    if Losses(a, Some(b)) == map[] {
      forall path | Lookup(a, path).Some? ensures Carried(Lookup(a, path).value, Lookup(b, path)) {
        CarriedDown(a, b, path, |path|);
        assert path[..|path|] == path;
      }
    }
  }

  lemma {:induction false} CarriedDown(a: Json, b: Json, path: Path, n: nat)
    requires Losses(a, Some(b)) == map[] && Lookup(a, path).Some? && n <= |path|
    ensures Lookup(a, path[..n]).Some? && Carried(Lookup(a, path[..n]).value, Lookup(b, path[..n]))
  {
    PrefixLookup(a, path, n);
    var here := path[..n];
    LossAt(a, b, here);
    if n > 0 {
      CarriedDown(a, b, path, n - 1);
      assert here[..n - 1] == path[..n - 1];
      ParentIsObject(a, path, n - 1);
    }
  }

  lemma PrefixLookup(a: Json, path: Path, n: nat)
    requires Lookup(a, path).Some? && n <= |path|
    ensures Lookup(a, path[..n]).Some?
  {
    LookupAppend(a, path[..n], path[n..]);
    assert path[..n] + path[n..] == path;
  }

  lemma ParentIsObject(a: Json, path: Path, n: nat)
    requires Lookup(a, path).Some? && n < |path|
    ensures Lookup(a, path[..n]).Some? && Lookup(a, path[..n]).value.Object?
  {
    LookupAppend(a, path[..n], path[n..]);
    assert path[..n] + path[n..] == path;
  }

  // ----- giving the losses back -----

  /** The losses below a key. */
  function Below(losses: LossMap, key: string): LossMap {
    map p | p in (set path | path in losses && path != [] && path[0] == key :: path[1..]) && [key] + p in losses :: losses[[key] + p]
  }

  lemma BelowAt(losses: LossMap, key: string, p: Path)
    ensures p in Below(losses, key) <==> [key] + p in losses
    ensures p in Below(losses, key) ==> Below(losses, key)[p] == losses[[key] + p]
  {
    var path := [key] + p;
    assert path[0] == key && path[1..] == p;
    if p in Below(losses, key) {
      var q :| q in losses && q != [] && q[0] == key && q[1..] == p;
      assert q == path;
    }
  }

  /** A record with the enumerated retired values put back. */
  function Patch(b: Json, losses: LossMap): Json
    decreases b
  {
    if [] in losses then losses[[]].retired
    else if b.Object? then
      var keys := b.fields.Keys + set path | path in losses && path != [] :: path[0];
      Object(map k | k in keys ::
        if k in b.fields then Patch(b.fields[k], Below(losses, k))
        else if [k] in losses then losses[[k]].retired else Null)
    else b
  }

  lemma BelowWalk(a: Json, b: Json, key: string)
    requires a.Object? && b.Object?
    ensures key in a.fields ==> Below(Losses(a, Some(b)), key) == Losses(a.fields[key], Child(Some(b), key))
    ensures key !in a.fields ==> Below(Losses(a, Some(b)), key) == map[]
  {
    var losses := Losses(a, Some(b));
    forall p
      ensures p in Below(losses, key) <==> key in a.fields && p in Losses(a.fields[key], Child(Some(b), key))
      ensures p in Below(losses, key) ==> Below(losses, key)[p] == Losses(a.fields[key], Child(Some(b), key))[p]
    {
      BelowAt(losses, key, p);
      WalkAt(a, Some(b), [key] + p);
      assert ([key] + p)[1..] == p;
    }
  }

  /** Conservation: the survivor together with the enumerated losses holds everything the retired record held. */
  lemma {:induction false} PatchRestores(a: Json, b: Json)
    ensures Carries(a, Some(Patch(b, Losses(a, Some(b)))))
    ensures Losses(a, Some(b)) == map[] ==> Patch(b, Losses(a, Some(b))) == b
    decreases a
  {
    var losses := Losses(a, Some(b));
    if a.Object? && b.Object? {
      WalkAt(a, Some(b), []);
      var patched := Patch(b, losses);
      forall path | Lookup(a, path).Some? ensures Carried(Lookup(a, path).value, Lookup(patched, path)) {
        if path != [] { PatchChild(a, b, path[0], path[1..]); }
      }
      if losses == map[] { EmptyPatch(b); }
    } else {
      assert b == a || losses == map[[] := Loss(a, Some(b))];
      if b == a && !a.Object? { assert Patch(b, losses) == b; }
    }
  }

  lemma {:induction false} EmptyPatch(b: Json)
    ensures Patch(b, map[]) == b
    decreases b
  {
    if b.Object? {
      forall k | k in b.fields ensures Patch(b.fields[k], Below(map[], k)) == b.fields[k] {
        EmptyPatch(b.fields[k]);
        assert Below(map[], k) == map[];
      }
      assert Patch(b, map[]).fields == b.fields;
    }
  }

  lemma PatchChild(a: Json, b: Json, k: string, rest: Path)
    requires a.Object? && b.Object? && k in a.fields && Lookup(a.fields[k], rest).Some?
    ensures var patched := Patch(b, Losses(a, Some(b)));
            Carried(Lookup(a, [k] + rest).value, Lookup(patched, [k] + rest))
    decreases a, 0
  {
    var losses := Losses(a, Some(b));
    var path := [k] + rest;
    assert path[0] == k && path[1..] == rest;
    WalkAt(a, Some(b), []);
    BelowWalk(a, b, k);
    var patched := Patch(b, losses);
    if k in b.fields {
      PatchRestores(a.fields[k], b.fields[k]);
      assert patched.fields[k] == Patch(b.fields[k], Below(losses, k));
    } else {
      AbsentLoss(a.fields[k], []);
      BelowAt(losses, k, []);
      assert [k] + [] == [k];
      assert [k][0] == k;
      assert patched.fields[k] == losses[[k]].retired == a.fields[k];
      SelfCarries(a.fields[k], rest);
    }
  }

  lemma SelfCarries(a: Json, path: Path)
    requires Lookup(a, path).Some?
    ensures Carried(Lookup(a, path).value, Lookup(a, path))
  {
  }

  /** Whatever no loss covers is left alone, the keys only the survivor has among it. */
  lemma {:induction false} PatchKeeps(b: Json, losses: LossMap, path: Path)
    requires Lookup(b, path).Some? && forall p :: p in losses ==> !(p <= path)
    ensures Carried(Lookup(b, path).value, Lookup(Patch(b, losses), path))
    decreases |path|
  {
    assert [] <= path;
    if path != [] {
      var k, rest := path[0], path[1..];
      forall p | p in Below(losses, k) ensures !(p <= rest) {
        BelowAt(losses, k, p);
        assert p <= rest ==> [k] + p <= path;
      }
      PatchKeeps(b.fields[k], Below(losses, k), rest);
      assert Patch(b, losses).fields[k] == Patch(b.fields[k], Below(losses, k));
    }
  }
}
