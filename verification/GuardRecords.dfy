/** The verdict of the publish guard spelled out in records: which publishes are accepted, exactly. */
module GuardRecords {
  import opened Sequences
  import opened Json
  import opened ManifestGuard
  import opened GuardRuns

  /** What is at a place of the destination may become what the source has there: a value stays a value, and a guarded
      measurement that the source has stays the same. */
  predicate Keeps(path: Path, sval: Option<Json>, dval: Json, src: Record, dst: Record) {
    && (IsValue(dval) ==> sval.Some? && IsValue(sval.value))
    && (sval.Some? && IsGuarded(path, src, dst) ==> sval.value == dval)
  }

  /** Both records have an object at one of the two keys that are compared inside. */
  predicate ComparedInside(src: Record, dst: Record, key: string) {
    (key == "field_values" || key == "metadata") && key in dst && dst[key].Object? && key in src && src[key].Object?
  }

  /** The destination's record may become the source's: key by key, and one level down inside the two nested keys. */
  ghost predicate Protects(src: Record, dst: Record, skip: set<string>) {
    forall key :: key in dst && key !in skip ==>
      if ComparedInside(src, dst, key) then
        forall k :: k in dst[key].fields ==> Keeps([key, k], At(src[key].fields, k), dst[key].fields[k], src, dst)
      else Keeps([key], At(src, key), dst[key], src, dst)
  }

  lemma KeepsIs(path: Path, src: Record, dst: Record)
    requires ValueAt(dst, path).Some?
    ensures Survives(path, src, dst) <==> Keeps(path, ValueAt(src, path), ValueAt(dst, path).value, src, dst)
  {
    GuardedIs(path, src, dst);
    hide Weighed, IsGuarded, ValueAt;
  }

  lemma PassesIff(src: Record, dst: Record, skip: set<string>)
    ensures Passes(src, dst, skip) <==> Protects(src, dst, skip)
  {
    PassesIffSurvives(src, dst, skip);
    hide Passes, Survives, Keeps, ValueAt;
    if Protects(src, dst, skip) {
      forall path | Compared(path, src, dst, skip) ensures Survives(path, src, dst) {
        ComparedIsPresent(path, src, dst, skip);
        KeepsIs(path, src, dst);
        var (key, k) := (path[0], if |path| == 2 then path[1] else "");
        assert path == [key] || path == [key, k];
        HeldIs(src, key, k);
        HeldIs(dst, key, k);
      }
    }
    if Passes(src, dst, skip) {
      forall key | key in dst && key !in skip && !ComparedInside(src, dst, key) ensures Keeps([key], At(src, key), dst[key], src, dst) {
        HeldIs(src, key, "");
        HeldIs(dst, key, "");
        KeepsIs([key], src, dst);
        assert Compared([key], src, dst, skip);
      }
      forall key, k | key in dst && key !in skip && ComparedInside(src, dst, key) && k in dst[key].fields
        ensures Keeps([key, k], At(src[key].fields, k), dst[key].fields[k], src, dst)
      {
        HeldIs(src, key, k);
        HeldIs(dst, key, k);
        KeepsIs([key, k], src, dst);
        assert Compared([key, k], src, dst, skip);
      }
    }
  }

  // ----- a whole publish -----

  /** Position `i` holds the last record of the id; a record without an id has the id null. */
  ghost predicate LastAt(records: seq<Record>, i: int, id: Json) {
    0 <= i < |records| && Get(records[i], "id") == id && forall j :: i < j < |records| ==> Get(records[j], "id") != id
  }

  ghost predicate IsLast(records: seq<Record>, r: Record, id: Json) {
    exists i :: LastAt(records, i, id) && records[i] == r
  }

  lemma {:induction false} IndexIs(records: seq<Record>, id: Json)
    ensures id in ById(records) <==> exists r :: r in records && Get(r, "id") == id
    ensures forall r :: IsLast(records, r, id) <==> id in ById(records) && ById(records)[id] == r
  {
    if records != [] {
      var n := |records| - 1;
      var (before, last) := (records[..n], records[n]);
      IndexIs(before, id);
      assert records == before + [last];
      hide ById, IsLast;
      ByIdStep(records);
      forall r ensures IsLast(records, r, id) <==> if Get(last, "id") == id then r == last else IsLast(before, r, id) {
        LastStep(records, r, id);
      }
    }
  }

  lemma ByIdStep(records: seq<Record>)
    requires records != []
    ensures ById(records) == ById(records[..|records| - 1])[Get(records[|records| - 1], "id") := records[|records| - 1]]
  {
  }

  lemma LastStep(records: seq<Record>, r: Record, id: Json)
    requires records != []
    ensures var (before, last) := (records[..|records| - 1], records[|records| - 1]);
            IsLast(records, r, id) <==> if Get(last, "id") == id then r == last else IsLast(before, r, id)
  {
    var n := |records| - 1;
    forall i | i != n && Get(records[n], "id") != id ensures LastAt(records, i, id) <==> LastAt(records[..n], i, id) {
      EarlierLast(records, i, id);
    }
    assert LastAt(records, n, id) <==> Get(records[n], "id") == id;
    assert Get(records[n], "id") == id ==> forall i :: LastAt(records, i, id) ==> i == n;
    hide Get, LastAt;
  }

  lemma EarlierLast(records: seq<Record>, i: int, id: Json)
    requires records != [] && i != |records| - 1 && Get(records[|records| - 1], "id") != id
    ensures LastAt(records, i, id) <==> LastAt(records[..|records| - 1], i, id)
  {
    hide Get;
  }

  ghost predicate Holds(records: seq<Record>, id: Json) {
    exists r :: r in records && Get(r, "id") == id
  }

  /** Every move goes from an id the source no longer has to one it has, and no two of its records share an id. */
  ghost predicate IsInOrder(p: Publish) {
    && (forall old_ :: old_ in p.moves ==> Holds(p.source, Text(p.moves[old_])) && !Holds(p.source, Text(old_)))
    && (forall i, j :: 0 <= i < j < |p.source| && Get(p.source[i], "id") == Get(p.source[j], "id") ==> Get(p.source[i], "id") == Null)
  }

  /** What the guard lets happen to one record of the destination. */
  ghost predicate MayBecome(id: Json, d: Record, p: Publish) {
    if Holds(p.source, id) then exists s :: IsLast(p.source, s, id) && Protects(s, d, {})
    else if id.Text? && id.text in p.retirements then p.retirements[id.text].record == d
    else id.Text? && id.text in p.moves && exists s :: IsLast(p.source, s, Text(p.moves[id.text])) && Protects(s, d, {"id"})
  }

  lemma InOrderIs(p: Publish)
    ensures IsInOrder(p) <==> MovesDescribe(p.moves, Ids(p.source)) && Duplicates(p.source) == {}
  {
    assert forall id :: id in Ids(p.source) <==> Holds(p.source, id);
    NoDuplicatesIff(p.source);
    hide Ids, Holds, Duplicates;
  }

  lemma NoDuplicatesIff(records: seq<Record>)
    ensures Duplicates(records) == {} <==>
            forall i, j :: 0 <= i < j < |records| && Get(records[i], "id") == Get(records[j], "id") ==> Get(records[i], "id") == Null
  {
    if i, j :| 0 <= i < j < |records| && Get(records[i], "id") == Get(records[j], "id") && Get(records[i], "id") != Null {
      assert Get(records[i], "id") in Duplicates(records);
    }
  }

  lemma ContinuesIs(id: Json, d: Record, p: Publish)
    ensures Continues(id, d, p) <==> MayBecome(id, d, p)
  {
    hide ById, Passes, Protects, IsLast, Holds;
    IndexIs(p.source, id);
    SourceHolds(p.source, id);
    if id in ById(p.source) {
      PassesIff(ById(p.source)[id], d, {});
    } else if id.Text? && id.text in p.moves {
      var to := Text(p.moves[id.text]);
      IndexIs(p.source, to);
      if to in ById(p.source) { PassesIff(ById(p.source)[to], d, {"id"}); }
    }
  }

  lemma SourceHolds(source: seq<Record>, id: Json)
    ensures id in ById(source) <==> Holds(source, id)
  {
    IndexIs(source, id);
  }

  /** One publish, exactly: the guard accepts it if and only if the source is in order and every record the destination
      holds, the last of each id, may become what the publish makes of it. */
  lemma AcceptedRecordsIff(dest: seq<Record>, p: Publish)
    ensures Accepted(dest, p) <==> IsInOrder(p) && forall id, d :: IsLast(dest, d, id) ==> MayBecome(id, d, p)
  {
    hide Accepted, MovesDescribe, Ids, Duplicates, Continues, MayBecome, IsLast, ById;
    AcceptedIff(dest, p);
    InOrderIs(p);
    if forall id, d :: IsLast(dest, d, id) ==> MayBecome(id, d, p) {
      forall id | id in ById(dest) ensures Continues(id, ById(dest)[id], p) {
        IndexIs(dest, id);
        ContinuesIs(id, ById(dest)[id], p);
      }
    }
    if AllContinue(ById(dest), p) {
      forall id, d | IsLast(dest, d, id) ensures MayBecome(id, d, p) {
        IndexIs(dest, id);
        ContinuesIs(id, d, p);
      }
    }
  }

  // ----- what the comparison reports beside the losses -----

  /** What is reported as migrated: the destination holds the old id, the source does not, no retirement names it, and the move
      goes to an id the source holds. */
  lemma MigratedIff(old_: string, new_: string, source: seq<Record>, dest: seq<Record>, moves: Moves, retirements: Retirements)
    ensures MovedTo((old_, new_), ById(source), ById(dest), moves, retirements) <==>
            && Holds(dest, Text(old_)) && !Holds(source, Text(old_)) && old_ !in retirements
            && old_ in moves && moves[old_] == new_ && Holds(source, Text(new_))
  {
    SourceHolds(source, Text(old_));
    SourceHolds(source, Text(new_));
    SourceHolds(dest, Text(old_));
    hide ById, Holds;
  }

  /** As collapsed: the source no longer has the id, and its retirement has the destination's record, the last of the id. */
  lemma CollapsedIff(old_: string, survivor: string, source: seq<Record>, dest: seq<Record>, moves: Moves, retirements: Retirements)
    ensures CollapsedOnto((old_, survivor), ById(source), ById(dest), moves, retirements) <==>
            && !Holds(source, Text(old_)) && old_ in retirements && retirements[old_].survivor == survivor
            && IsLast(dest, retirements[old_].record, Text(old_))
  {
    SourceHolds(source, Text(old_));
    IndexIs(dest, Text(old_));
    hide ById, Holds, IsLast;
  }

  /** As added: the source has the id, the destination has not, and nothing was migrated to it. */
  lemma AddedIff(id: Json, source: seq<Record>, dest: seq<Record>, moves: Moves, retirements: Retirements)
    ensures AddedBy(id, ById(source), ById(dest), moves, retirements) <==>
            && Holds(source, id) && !Holds(dest, id)
            && forall old_ :: id.Text? && Holds(dest, Text(old_)) && !Holds(source, Text(old_)) && old_ !in retirements && old_ in moves
                              ==> moves[old_] != id.text
  {
    SourceHolds(source, id);
    SourceHolds(dest, id);
    if id.Text? {
      forall old_ ensures MovedTo((old_, id.text), ById(source), ById(dest), moves, retirements) <==>
          && Holds(dest, Text(old_)) && !Holds(source, Text(old_)) && old_ !in retirements
          && old_ in moves && moves[old_] == id.text && Holds(source, id) {
        MigratedIff(old_, id.text, source, dest, moves, retirements);
      }
    }
    hide ById, Holds, MovedTo;
  }
}
