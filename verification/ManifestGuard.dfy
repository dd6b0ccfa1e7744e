/** The publish guard of `seed/scripts/manifest_guard.py`: what a publish would take from the site it overwrites, and why
    no run of accepted publishes loses a value. */
module ManifestGuard {
  import opened Sequences
  import opened Outcomes
  import opened Json

  datatype Kind = MissingRecord | MissingKey | EmptiedValue | ChangedValue | CorruptedMeasurement

  /** One line of the comparison (the source's `Loss`): a kind, the destination's id, the path of the key, and the value
      the destination holds there. */
  datatype Finding = Finding(kind: Kind, id: Json, key: Path, value: Json)

  /** A retirement whose bytes the caller has authenticated. */
  datatype Retirement = Retirement(survivor: string, record: Record)

  type Moves = map<string, string>
  type Retirements = map<string, Retirement>

  // ----- one record against another -----

  /** `source_root`, with an absent or falsy one read as "local". */
  function RootOf(r: Record): Json {
    if Truthy(Get(r, "source_root")) then Get(r, "source_root") else Text("local")
  }

  predicate Measurable(root: Json) {
    root in {Text("site"), Text("torrent_import"), Text("internet"), Text("local")}
  }

  /** The hash, one level down or under a key spelled with the dot: the source joins the keys of a path before it asks. */
  predicate IsHash(path: Path) {
    path == ["metadata", "sha256"] || path == ["metadata.sha256"]
  }

  predicate IsMeasurement(path: Path) {
    path == ["file_size_bytes"] || IsHash(path) || path == ["metadata", "origin_bytes"] || path == ["metadata.origin_bytes"]
  }

  function ClassifyChange(path: Path, src: Record, dst: Record): Kind {
    if !IsMeasurement(path) then ChangedValue
    else if IsHash(path) && Text("internet") in {RootOf(src), RootOf(dst)} then ChangedValue
    else if Measurable(RootOf(src)) || Measurable(RootOf(dst)) then CorruptedMeasurement
    else ChangedValue
  }

  predicate IsNested(key: string) {
    key == "field_values" || key == "metadata"
  }

  /** The two records are compared one level below `key`. */
  predicate Descends(src: Record, dst: Record, key: string) {
    IsNested(key) && key in dst && dst[key].Object? && key in src && src[key].Object?
  }

  /** One value of the destination against what the source would put there. */
  function Judge(path: Path, sval: Option<Json>, dval: Json, src: Record, dst: Record): Option<Kind> {
    if sval.None? then
      if IsEmpty(dval) then None else Some(MissingKey)
    else if IsEmpty(sval.value) && !IsEmpty(dval) then Some(EmptiedValue)
    else if sval.value != dval then Some(ClassifyChange(path, src, dst))
    else None
  }

  /** The paths of the destination that are compared. */
  predicate Compared(path: Path, src: Record, dst: Record, skip: set<string>) {
    && path != [] && path[0] in dst && path[0] !in skip
    && if Descends(src, dst, path[0]) then |path| == 2 && path[1] in dst[path[0]].fields else |path| == 1
  }

  function ValueAt(r: Record, path: Path): Option<Json> {
    Lookup(Object(r), path)
  }

  /** What `_compare_record` files. */
  predicate Filed(f: Finding, rid: Json, src: Record, dst: Record, skip: set<string>) {
    && f.id == rid && Compared(f.key, src, dst, skip) && ValueAt(dst, f.key) == Some(f.value)
    && Judge(f.key, ValueAt(src, f.key), f.value, src, dst) == Some(f.kind)
  }

  /** The finding a verdict makes, if it is of the kind asked for. */
  function Made(verdict: Option<Kind>, edit: bool, rid: Json, path: Path, dval: Json): set<Finding> {
    if verdict.Some? && (verdict.value == ChangedValue) == edit then {Finding(verdict.value, rid, path, dval)} else {}
  }

  /** What `_compare_record` files under some of the keys. */
  predicate FiledUnder(f: Finding, rid: Json, src: Record, dst: Record, skip: set<string>, keys: set<string>) {
    Filed(f, rid, src, dst, skip) && f.key[0] in keys
  }

  /** What it files one level below `key`, under some of the keys there. */
  predicate FiledBelow(f: Finding, rid: Json, src: Record, dst: Record, key: string, keys: set<string>) {
    Filed(f, rid, src, dst, {}) && f.key[0] == key && |f.key| == 2 && f.key[1] in keys
  }

  lemma FiledAt(f: Finding, rid: Json, src: Record, dst: Record, skip: set<string>, key: string)
    requires key in dst && key !in skip && !Descends(src, dst, key)
    ensures FiledUnder(f, rid, src, dst, skip, {key}) <==>
            f in Made(Judge([key], At(src, key), dst[key], src, dst), f.kind == ChangedValue, rid, [key], dst[key])
  {
    hide Judge;
    LookupKeys(src, key, key);
    LookupKeys(dst, key, key);
    if FiledUnder(f, rid, src, dst, skip, {key}) { assert f.key == [key]; }
  }

  lemma FiledNested(f: Finding, rid: Json, src: Record, dst: Record, key: string, k: string)
    requires Descends(src, dst, key) && k in dst[key].fields
    ensures FiledBelow(f, rid, src, dst, key, {k}) <==>
            f in Made(Judge([key, k], At(src[key].fields, k), dst[key].fields[k], src, dst), f.kind == ChangedValue, rid, [key, k], dst[key].fields[k])
  {
    hide Judge;
    LookupKeys(src, key, k);
    LookupKeys(dst, key, k);
    if FiledBelow(f, rid, src, dst, key, {k}) { assert f.key == [key, k]; }
  }

  // ----- a whole publish -----

  /** Indexing records by id: the last of an id wins, and records without one share the id null. */
  function ById(records: seq<Record>): map<Json, Record> {
    if records == [] then map[]
    else
      var n := |records| - 1;
      ById(records[..n])[Get(records[n], "id") := records[n]]
  }

  lemma {:induction false} IndexedById(records: seq<Record>)
    ensures ById(records).Keys == Ids(records)
    ensures forall id :: id in ById(records) ==> ById(records)[id] in records && Get(ById(records)[id], "id") == id
  {
    if records != [] {
      var n := |records| - 1;
      IndexedById(records[..n]);
      assert records == records[..n] + [records[n]];
    }
  }

  function Ids(records: seq<Record>): set<Json> {
    set r | r in records :: Get(r, "id")
  }

  function Duplicates(records: seq<Record>): set<Json> {
    set i, j | 0 <= i < j < |records| && Get(records[i], "id") == Get(records[j], "id") != Null :: Get(records[i], "id")
  }

  /** `validate_migration_against_source`: every new id is held, no old id is. */
  predicate MovesDescribe(moves: Moves, ids: set<Json>) {
    forall old_ :: old_ in moves ==> Text(moves[old_]) in ids && Text(old_) !in ids
  }

  /** What becomes of the destination's record `d`, whose id is `id`. */
  datatype Fate = Kept(record: Record) | Moved(newId: string, record: Record) | Collapsed(survivor: string) | Missing

  function FateOf(id: Json, d: Record, source: map<Json, Record>, moves: Moves, retirements: Retirements): Fate {
    if id in source then Kept(source[id])
    else if id.Text? && id.text in retirements then
      if retirements[id.text].record == d then Collapsed(retirements[id.text].survivor) else Missing
    else if id.Text? && id.text in moves && Text(moves[id.text]) in source then Moved(moves[id.text], source[Text(moves[id.text])])
    else Missing
  }

  /** What one destination record contributes to the comparison. */
  predicate FiledFor(f: Finding, id: Json, d: Record, fate: Fate) {
    match fate
    case Kept(s) => Filed(f, id, s, d, {})
    case Moved(_, s) => Filed(f, id, s, d, {"id"})
    case Collapsed(_) => false
    case Missing => f == Finding(MissingRecord, id, [], Null)
  }

  /** What `compare` files, over the whole destination. */
  predicate FiledIn(f: Finding, source: map<Json, Record>, dest: map<Json, Record>, moves: Moves, retirements: Retirements) {
    f.id in dest && FiledFor(f, f.id, dest[f.id], FateOf(f.id, dest[f.id], source, moves, retirements))
  }

  predicate MovedTo(m: (string, string), source: map<Json, Record>, dest: map<Json, Record>, moves: Moves, retirements: Retirements) {
    Text(m.0) in dest && var fate := FateOf(Text(m.0), dest[Text(m.0)], source, moves, retirements); fate.Moved? && fate.newId == m.1
  }

  predicate CollapsedOnto(c: (string, string), source: map<Json, Record>, dest: map<Json, Record>, moves: Moves, retirements: Retirements) {
    Text(c.0) in dest && FateOf(Text(c.0), dest[Text(c.0)], source, moves, retirements) == Collapsed(c.1)
  }

  ghost predicate AddedBy(id: Json, source: map<Json, Record>, dest: map<Json, Record>, moves: Moves, retirements: Retirements) {
    && id in source && id !in dest
    && !(id.Text? && exists old_ :: MovedTo((old_, id.text), source, dest, moves, retirements))
  }

  class Comparison {
    var losses: set<Finding>
    var changes: set<Finding>
    var duplicates: set<Json>
    var added: set<Json>
    var migrated: set<(string, string)>
    var collapsed: set<(string, string)>

    constructor ()
      ensures losses == changes == {} && duplicates == added == {} && migrated == collapsed == {}
    {
      losses, changes, duplicates, added, migrated, collapsed := {}, {}, {}, {}, {}, {};
    }

    predicate Ok()
      reads this
    {
      losses == {} && duplicates == {}
    }

    /** One disagreement between two values, filed as an edit or as a loss. */
    method RecordChange(rid: Json, path: Path, dval: Json, src: Record, dst: Record)
      modifies `losses, `changes
      ensures var f := Finding(ClassifyChange(path, src, dst), rid, path, dval);
              && changes == old(changes) + (if f.kind == ChangedValue then {f} else {})
              && losses == old(losses) + (if f.kind == ChangedValue then {} else {f})
    {
      var kind := ClassifyChange(path, src, dst);
      if kind == CorruptedMeasurement {
        losses := losses + {Finding(CorruptedMeasurement, rid, path, dval)};
      } else {
        changes := changes + {Finding(ChangedValue, rid, path, dval)};
      }
    }

    /** One value of the destination: what the source has there, if anything. */
    method JudgeValue(rid: Json, path: Path, sval: Option<Json>, dval: Json, src: Record, dst: Record)
      modifies `losses, `changes
      ensures losses == old(losses) + Made(Judge(path, sval, dval, src, dst), false, rid, path, dval)
      ensures changes == old(changes) + Made(Judge(path, sval, dval, src, dst), true, rid, path, dval)
    {
      if sval.None? {
        if !IsEmpty(dval) {
          losses := losses + {Finding(MissingKey, rid, path, dval)};
        }
      } else if IsEmpty(sval.value) && !IsEmpty(dval) {
        losses := losses + {Finding(EmptiedValue, rid, path, dval)};
      } else if sval.value != dval {
        RecordChange(rid, path, dval, src, dst);
      }
    }

    /** The values one level below a nested key. */
    method CompareNested(rid: Json, key: string, src: Record, dst: Record)
      requires Descends(src, dst, key)
      modifies `losses, `changes
      ensures forall f :: f in losses <==> f in old(losses) || (f.kind != ChangedValue && FiledUnder(f, rid, src, dst, {}, {key}))
      ensures forall f :: f in changes <==> f in old(changes) || (f.kind == ChangedValue && FiledUnder(f, rid, src, dst, {}, {key}))
    {
      hide Filed, Judge;
      var inner := dst[key].fields;
      var keys := inner.Keys;
      while keys != {}
        invariant keys <= inner.Keys
        invariant forall f :: f in losses <==>
                              f in old(losses) || (f.kind != ChangedValue && FiledBelow(f, rid, src, dst, key, inner.Keys - keys))
        invariant forall f :: f in changes <==>
                              f in old(changes) || (f.kind == ChangedValue && FiledBelow(f, rid, src, dst, key, inner.Keys - keys))
      {
        var k :| k in keys;
        forall f ensures FiledBelow(f, rid, src, dst, key, {k}) <==>
                         f in Made(Judge([key, k], At(src[key].fields, k), inner[k], src, dst), f.kind == ChangedValue, rid, [key, k], inner[k]) {
          FiledNested(f, rid, src, dst, key, k);
        }
        JudgeValue(rid, [key, k], At(src[key].fields, k), inner[k], src, dst);
        keys := keys - {k};
      }
      forall f ensures FiledUnder(f, rid, src, dst, {}, {key}) <==> FiledBelow(f, rid, src, dst, key, inner.Keys) {
        AllBelow(f, rid, src, dst, key);
      }
    }

    /** `_compare_record`: every key of the destination record, one level deeper in the nested ones. */
    method CompareRecord(rid: Json, src: Record, dst: Record, skip: set<string>)
      modifies `losses, `changes
      ensures forall f :: f in losses <==> f in old(losses) || (f.kind != ChangedValue && Filed(f, rid, src, dst, skip))
      ensures forall f :: f in changes <==> f in old(changes) || (f.kind == ChangedValue && Filed(f, rid, src, dst, skip))
    {
      hide Filed, Judge, Descends;
      var keys := dst.Keys;
      while keys != {}
        invariant keys <= dst.Keys
        invariant forall f :: f in losses <==>
                              f in old(losses) || (f.kind != ChangedValue && FiledUnder(f, rid, src, dst, skip, dst.Keys - keys))
        invariant forall f :: f in changes <==>
                              f in old(changes) || (f.kind == ChangedValue && FiledUnder(f, rid, src, dst, skip, dst.Keys - keys))
      {
        var key :| key in keys;
        SkippedKey(rid, src, dst, skip, key);
        if key !in skip {
          if Descends(src, dst, key) {
            CompareNested(rid, key, src, dst);
          } else {
            forall f ensures FiledUnder(f, rid, src, dst, skip, {key}) <==>
                             f in Made(Judge([key], At(src, key), dst[key], src, dst), f.kind == ChangedValue, rid, [key], dst[key]) {
              FiledAt(f, rid, src, dst, skip, key);
            }
            JudgeValue(rid, [key], At(src, key), dst[key], src, dst);
          }
        }
        ghost var done := dst.Keys - keys;
        keys := keys - {key};
        assert dst.Keys - keys == done + {key};
        forall f ensures FiledUnder(f, rid, src, dst, skip, done + {key}) <==>
                         FiledUnder(f, rid, src, dst, skip, done) || FiledUnder(f, rid, src, dst, skip, {key}) {
          OneMoreKey(f, rid, src, dst, skip, done, key);
        }
      }
      forall f ensures Filed(f, rid, src, dst, skip) <==> FiledUnder(f, rid, src, dst, skip, dst.Keys) {
        AllUnder(f, rid, src, dst, skip);
      }
    }
  }

  lemma SkippedKey(rid: Json, src: Record, dst: Record, skip: set<string>, key: string)
    ensures key in skip ==> forall f :: !FiledUnder(f, rid, src, dst, skip, {key})
    ensures key !in skip ==> forall f :: FiledUnder(f, rid, src, dst, skip, {key}) <==> FiledUnder(f, rid, src, dst, {}, {key})
  {
    hide Judge, Descends;
  }

  lemma OneMoreKey(f: Finding, rid: Json, src: Record, dst: Record, skip: set<string>, done: set<string>, key: string)
    ensures FiledUnder(f, rid, src, dst, skip, done + {key}) <==>
            FiledUnder(f, rid, src, dst, skip, done) || FiledUnder(f, rid, src, dst, skip, {key})
  {
    hide Filed;
  }

  lemma AllUnder(f: Finding, rid: Json, src: Record, dst: Record, skip: set<string>)
    ensures Filed(f, rid, src, dst, skip) <==> FiledUnder(f, rid, src, dst, skip, dst.Keys)
  {
    hide Judge;
  }

  method IndexById(records: seq<Record>) returns (index: map<Json, Record>)
    ensures index == ById(records)
  {
    index := map[];
    for i := 0 to |records|
      invariant index == ById(records[..i])
    {
      assert records[..i + 1][..i] == records[..i];
      assert ById(records[..i + 1]) == ById(records[..i])[Get(records[i], "id") := records[i]];
      index := index[Get(records[i], "id") := records[i]];
    }
    assert records[..|records|] == records;
  }

  method CountDuplicates(records: seq<Record>) returns (duplicates: set<Json>)
    ensures duplicates == Duplicates(records)
  {
    duplicates := {};
    var seen: set<Json> := {};
    for i := 0 to |records|
      invariant seen == Ids(records[..i]) && duplicates == Duplicates(records[..i])
    {
      var id := Get(records[i], "id");
      DuplicatesSnoc(records[..i], records[i]);
      assert records[..i + 1] == records[..i] + [records[i]];
      if id in seen && id != Null {
        duplicates := duplicates + {id};
      }
      seen := seen + {id};
    }
    assert records[..|records|] == records;
  }

  lemma DuplicatesSnoc(records: seq<Record>, r: Record)
    ensures Duplicates(records + [r]) == Duplicates(records) + if Get(r, "id") in Ids(records) && Get(r, "id") != Null then {Get(r, "id")} else {}
    ensures Ids(records + [r]) == Ids(records) + {Get(r, "id")}
  {
    var all := records + [r];
    if Get(r, "id") in Ids(records) && Get(r, "id") != Null {
      var i :| 0 <= i < |records| && Get(records[i], "id") == Get(r, "id");
      assert all[i] == records[i] && all[|records|] == r;
    }
    forall id | id in Duplicates(records) ensures id in Duplicates(all) {
      var i, j :| 0 <= i < j < |records| && Get(records[i], "id") == Get(records[j], "id") != Null && id == Get(records[i], "id");
      assert all[i] == records[i] && all[j] == records[j];
    }
  }

  /** `compare`: a migration document the source contradicts raises; otherwise every destination record is judged. */
  method Compare(source: seq<Record>, dest: Option<seq<Record>>, migration: Option<Moves>, retirements: Retirements)
    returns (r: Outcome<Comparison>)
    ensures r.Ok? <==> migration.None? || MovesDescribe(migration.value, Ids(source))
    ensures !r.Ok? ==> r.Refused?
    ensures r.Ok? ==> fresh(r.value) && r.value.duplicates == Duplicates(source)
    ensures r.Ok? && dest.None? ==> r.value.losses == r.value.changes == {} && r.value.added == Ids(source)
    ensures r.Ok? && dest.Some? ==>
      var moves := if migration.Some? then migration.value else map[];
      && (forall f :: f in r.value.losses <==> f.kind != ChangedValue && FiledIn(f, ById(source), ById(dest.value), moves, retirements))
      && (forall f :: f in r.value.changes <==> f.kind == ChangedValue && FiledIn(f, ById(source), ById(dest.value), moves, retirements))
      && (forall m :: m in r.value.migrated <==> MovedTo(m, ById(source), ById(dest.value), moves, retirements))
      && (forall c :: c in r.value.collapsed <==> CollapsedOnto(c, ById(source), ById(dest.value), moves, retirements))
      && (forall id :: id in r.value.added <==> AddedBy(id, ById(source), ById(dest.value), moves, retirements))
  {
    hide FiledIn, MovedTo, CollapsedOnto, ById, Duplicates;
    var out := new Comparison();
    out.duplicates := CountDuplicates(source);
    var moves: Moves := map[];
    if migration.Some? {
      moves := migration.value;
      if !MovesDescribe(moves, Ids(source)) {
        return Refused;
      }
    }
    if dest.None? {
      out.added := Ids(source);
      return Ok(out);
    }
    IndexedById(source);
    var sourceById := IndexById(source);
    var destById := IndexById(dest.value);
    JudgeAll(out, sourceById, destById, moves, retirements);
    var landed := set m | m in out.migrated :: Text(m.1);
    out.added := set id | id in sourceById && id !in destById && id !in landed;
    forall id ensures id in landed <==> id.Text? && exists old_ :: MovedTo((old_, id.text), sourceById, destById, moves, retirements) {
      if id.Text? && exists old_ :: MovedTo((old_, id.text), sourceById, destById, moves, retirements) {
        var old_ :| MovedTo((old_, id.text), sourceById, destById, moves, retirements);
        assert (old_, id.text) in out.migrated;
      }
      if id in landed {
        var m :| m in out.migrated && Text(m.1) == id;
        assert (m.0, id.text) == m;
      }
    }
    return Ok(out);
  }

  /** The loop over the destination's records. */
  method JudgeAll(out: Comparison, source: map<Json, Record>, dest: map<Json, Record>, moves: Moves, retirements: Retirements)
    requires out.losses == out.changes == {} && out.migrated == out.collapsed == {}
    requires forall id :: id in moves ==> Text(moves[id]) in source
    modifies out`losses, out`changes, out`migrated, out`collapsed
    ensures forall f :: f in out.losses <==> f.kind != ChangedValue && FiledIn(f, source, dest, moves, retirements)
    ensures forall f :: f in out.changes <==> f.kind == ChangedValue && FiledIn(f, source, dest, moves, retirements)
    ensures forall m :: m in out.migrated <==> MovedTo(m, source, dest, moves, retirements)
    ensures forall c :: c in out.collapsed <==> CollapsedOnto(c, source, dest, moves, retirements)
  {
    hide FateOf, FiledFor;
    var ids := dest.Keys;
    while ids != {}
      invariant ids <= dest.Keys
      invariant forall f :: f in out.losses <==> f.kind != ChangedValue && FiledIn(f, source, dest, moves, retirements) && f.id !in ids
      invariant forall f :: f in out.changes <==> f.kind == ChangedValue && FiledIn(f, source, dest, moves, retirements) && f.id !in ids
      invariant forall m :: m in out.migrated <==> MovedTo(m, source, dest, moves, retirements) && Text(m.0) !in ids
      invariant forall c :: c in out.collapsed <==> CollapsedOnto(c, source, dest, moves, retirements) && Text(c.0) !in ids
    {
      var rid :| rid in ids;
      ids := ids - {rid};
      JudgeRecord(out, rid, dest[rid], source, moves, retirements);
    }
  }

  /** One destination record. */
  method JudgeRecord(out: Comparison, rid: Json, drec: Record, source: map<Json, Record>, moves: Moves, retirements: Retirements)
    requires forall id :: id in moves ==> Text(moves[id]) in source
    modifies out`losses, out`changes, out`migrated, out`collapsed
    ensures var fate := FateOf(rid, drec, source, moves, retirements);
            && (forall f :: f in out.losses <==> f in old(out.losses) || (f.kind != ChangedValue && f.id == rid && FiledFor(f, rid, drec, fate)))
            && (forall f :: f in out.changes <==> f in old(out.changes) || (f.kind == ChangedValue && f.id == rid && FiledFor(f, rid, drec, fate)))
            && (forall m :: m in out.migrated <==> m in old(out.migrated) || (fate.Moved? && rid == Text(m.0) && fate.newId == m.1))
            && (forall c :: c in out.collapsed <==> c in old(out.collapsed) || (fate == Collapsed(c.1) && rid == Text(c.0)))
  {
    FiledIsOwn(rid, drec);
    hide Filed;
    if rid in source {
      out.CompareRecord(rid, source[rid], drec, {});
    } else if rid.Text? && rid.text in retirements {
      if retirements[rid.text].record == drec {
        out.collapsed := out.collapsed + {(rid.text, retirements[rid.text].survivor)};
      } else {
        out.losses := out.losses + {Finding(MissingRecord, rid, [], Null)};
      }
    } else if !(rid.Text? && rid.text in moves) {
      out.losses := out.losses + {Finding(MissingRecord, rid, [], Null)};
    } else {
      out.migrated := out.migrated + {(rid.text, moves[rid.text])};
      out.CompareRecord(rid, source[Text(moves[rid.text])], drec, {"id"});
    }
  }

  lemma FiledIsOwn(rid: Json, d: Record)
    ensures forall f, s, skip :: Filed(f, rid, s, d, skip) ==> f.id == rid
  {
  }

  lemma AllBelow(f: Finding, rid: Json, src: Record, dst: Record, key: string)
    requires Descends(src, dst, key)
    ensures FiledUnder(f, rid, src, dst, {}, {key}) <==> FiledBelow(f, rid, src, dst, key, dst[key].fields.Keys)
  {
    hide Judge;
  }
}
