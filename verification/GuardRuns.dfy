/** Runs of the publish guard: each accepted publish makes its source the next destination. No such run loses a value. */
module GuardRuns {
  import opened Sequences
  import opened Json
  import opened ManifestGuard

  predicate HeldAt(r: Record, path: Path) {
    ValueAt(r, path).Some? && !IsEmpty(ValueAt(r, path).value)
  }

  /** The destination is the side that measured this value. */
  predicate Weighed(path: Path, src: Record, dst: Record) {
    && IsMeasurement(path) && (Measurable(RootOf(src)) || Measurable(RootOf(dst)))
    && !(IsHash(path) && (RootOf(src) == Text("internet") || RootOf(dst) == Text("internet")))
  }

  /** Nothing is lost at `path`: a value stays a value, and a measurement stays the same one. */
  predicate Survives(path: Path, src: Record, dst: Record) {
    && (HeldAt(dst, path) ==> HeldAt(src, path))
    && (Weighed(path, src, dst) && ValueAt(src, path).Some? ==> ValueAt(src, path) == ValueAt(dst, path))
  }

  /** The comparison of two records files no loss. */
  ghost predicate Passes(src: Record, dst: Record, skip: set<string>) {
    forall f: Finding :: Filed(f, f.id, src, dst, skip) ==> f.kind == ChangedValue
  }

  lemma ComparedIsPresent(path: Path, src: Record, dst: Record, skip: set<string>)
    requires Compared(path, src, dst, skip)
    ensures ValueAt(dst, path).Some?
  {
    LookupKeys(dst, path[0], if |path| == 2 then path[1] else path[0]);
    assert path == [path[0]] || path == [path[0], path[1]];
  }

  lemma JudgedAt(path: Path, src: Record, dst: Record)
    requires ValueAt(dst, path).Some?
    ensures var verdict := Judge(path, ValueAt(src, path), ValueAt(dst, path).value, src, dst);
            (verdict.Some? ==> verdict.value == ChangedValue) <==> Survives(path, src, dst)
  {
    hide ValueAt, RootOf, IsEmpty;
  }

  /** A record passes exactly when everything compared survives. */
  lemma PassesIffSurvives(src: Record, dst: Record, skip: set<string>)
    ensures Passes(src, dst, skip) <==> forall path :: Compared(path, src, dst, skip) ==> Survives(path, src, dst)
  {
    hide Survives, Judge, Compared, ValueAt;
    forall path | Compared(path, src, dst, skip)
      ensures Passes(src, dst, skip) ==> Survives(path, src, dst)
    {
      ComparedIsPresent(path, src, dst, skip);
      JudgedAt(path, src, dst);
      var verdict := Judge(path, ValueAt(src, path), ValueAt(dst, path).value, src, dst);
      if verdict.Some? {
        var f := Finding(verdict.value, Null, path, ValueAt(dst, path).value);
        assert Filed(f, f.id, src, dst, skip);
      }
    }
    forall f: Finding | Filed(f, f.id, src, dst, skip)
      ensures (forall path :: Compared(path, src, dst, skip) ==> Survives(path, src, dst)) ==> f.kind == ChangedValue
    {
      JudgedAt(f.key, src, dst);
    }
  }

  // ----- corrupted measurements -----

  /** Both sides hold a value, as the text of the guard asks of a corrupted measurement. */
  predicate BothHold(f: Finding, src: Record) {
    ValueAt(src, f.key).Some? && !IsEmpty(ValueAt(src, f.key).value) && !IsEmpty(f.value)
  }

  /** What is refused as a corrupted measurement is a weighed value the source has differently; it is one by the guard's own
      text, which asks for two values, if and only if the destination's is not empty. */
  lemma CorruptedIff(f: Finding, src: Record, dst: Record, skip: set<string>)
    requires Filed(f, f.id, src, dst, skip)
    ensures f.kind == CorruptedMeasurement <==>
            && Weighed(f.key, src, dst) && ValueAt(src, f.key).Some? && ValueAt(src, f.key).value != f.value
            && (IsEmpty(f.value) || !IsEmpty(ValueAt(src, f.key).value))
    ensures f.kind == CorruptedMeasurement ==> (BothHold(f, src) <==> !IsEmpty(f.value))
  {
    hide ValueAt, RootOf, IsEmpty, Compared;
  }

  /** A measurement the destination lacks, supplied by the source: refused all the same. */
  lemma SuppliedMeasurement()
    ensures var (src, dst) := (map["file_size_bytes" := Scalar(5.0)], map["file_size_bytes" := Null]);
            var f := Finding(CorruptedMeasurement, Null, ["file_size_bytes"], Null);
            Filed(f, Null, src, dst, {}) && !BothHold(f, src) && !Passes(src, dst, {}) && !Accepted([dst], Over(src))
  {
    var (src, dst) := (map["file_size_bytes" := Scalar(5.0)], map["file_size_bytes" := Null]);
    var f := Finding(CorruptedMeasurement, Null, ["file_size_bytes"], Null);
    LookupKeys(src, "file_size_bytes", "file_size_bytes");
    LookupKeys(dst, "file_size_bytes", "file_size_bytes");
    assert Filed(f, Null, src, dst, {});
    hide Filed;
    ByIdOne(src);
    ByIdOne(dst);
    AcceptedIff([dst], Over(src));
    assert Continues(Null, dst, Over(src)) <==> Passes(src, dst, {});
  }

  // ----- one publish -----

  datatype Publish = Publish(source: seq<Record>, moves: Moves, retirements: Retirements)

  function Fated(id: Json, d: Record, p: Publish): Fate {
    FateOf(id, d, ById(p.source), p.moves, p.retirements)
  }

  /** `compare(...).ok`, and no `MigrationError` on the way. */
  ghost predicate Accepted(dest: seq<Record>, p: Publish) {
    && MovesDescribe(p.moves, Ids(p.source)) && Duplicates(p.source) == {}
    && forall f :: FiledIn(f, ById(p.source), ById(dest), p.moves, p.retirements) ==> f.kind == ChangedValue
  }

  /** The gate as a publisher calls it. */
  method Guard(dest: seq<Record>, p: Publish) returns (ok: bool)
    ensures ok <==> Accepted(dest, p)
  {
    hide MovesDescribe, FiledIn, MovedTo, CollapsedOnto, AddedBy, Duplicates, ById;
    var r := Compare(p.source, Some(dest), Some(p.moves), p.retirements);
    ok := r.Ok? && r.value.Ok();
  }

  /** The guard's verdict, record by record: everything is kept, moved or retired, and what stays passes. */
  lemma AcceptedIff(dest: seq<Record>, p: Publish)
    ensures Accepted(dest, p) <==>
            MovesDescribe(p.moves, Ids(p.source)) && Duplicates(p.source) == {} && AllContinue(ById(dest), p)
  {
    hide MovesDescribe, FateOf, FiledFor, Duplicates, Continues;
    var d := ById(dest);
    if Accepted(dest, p) {
      forall id | id in d ensures Continues(id, d[id], p) {
        ContinuesIff(id, d[id], p);
        forall f: Finding | f.id == id && FiledFor(f, id, d[id], Fated(id, d[id], p)) ensures f.kind == ChangedValue {
          assert FiledIn(f, ById(p.source), d, p.moves, p.retirements);
        }
      }
    }
    if AllContinue(d, p) {
      forall f | FiledIn(f, ById(p.source), d, p.moves, p.retirements) ensures f.kind == ChangedValue {
        ContinuesIff(f.id, d[f.id], p);
      }
    }
  }

  lemma ContinuesIff(id: Json, d: Record, p: Publish)
    ensures Continues(id, d, p) <==>
            forall f: Finding :: f.id == id && FiledFor(f, id, d, Fated(id, d, p)) ==> f.kind == ChangedValue
  {
    FiledAnyId(id, d);
    hide FateOf, Filed;
    var fate := Fated(id, d, p);
    if fate.Missing? { assert FiledFor(Finding(MissingRecord, id, [], Null), id, d, fate); }
    forall f: Finding, s, skip | Filed(f, f.id, s, d, skip) ensures Filed(f.(id := id), f.(id := id).id, s, d, skip) {}
  }

  ghost predicate AllContinue(dest: map<Json, Record>, p: Publish) {
    forall id :: id in dest ==> Continues(id, dest[id], p)
  }

  ghost predicate Continues(id: Json, d: Record, p: Publish) {
    match Fated(id, d, p)
    case Kept(s) => Passes(s, d, {})
    case Moved(_, s) => Passes(s, d, {"id"})
    case Collapsed(_) => true
    case Missing => false
  }

  /** The id of a finding is a label: it plays no part in what is filed. */
  lemma FiledAnyId(id: Json, d: Record)
    ensures forall f: Finding, s, skip :: Filed(f, f.id, s, d, skip) ==> Filed(f.(id := id), id, s, d, skip)
  {
  }

  // ----- runs of publishes -----

  ghost predicate RunAccepted(dest: seq<Record>, run: seq<Publish>)
    decreases |run|
  {
    run == [] || (Accepted(dest, run[0]) && RunAccepted(run[0].source, run[1..]))
  }

  function Published(dest: seq<Record>, run: seq<Publish>): seq<Record> {
    if run == [] then dest else run[|run| - 1].source
  }

  /** The records that carry one record on, publish by publish, for as long as it is not retired. */
  function Trace(id: Json, d: Record, run: seq<Publish>): (t: seq<Record>)
    ensures 1 <= |t| <= |run| + 1 && t[0] == d
    decreases |run|
  {
    if run == [] then [d]
    else
      match Fated(id, d, run[0])
      case Kept(s) => [d] + Trace(id, s, run[1..])
      case Moved(newId, s) => [d] + Trace(Text(newId), s, run[1..])
      case _ => [d]
  }

  /** Each record passed the comparison with the one before it. */
  ghost predicate Carried(t: seq<Record>) {
    forall i :: 0 <= i < |t| - 1 ==> Passes(t[i + 1], t[i], {"id"})
  }

  /** The record ended in a retirement that names it, key for key. */
  predicate RetiredBy(p: Publish, r: Record) {
    Get(r, "id").Text? && Get(r, "id").text in p.retirements && p.retirements[Get(r, "id").text].record == r
  }

  lemma PassesSkippingMore(src: Record, dst: Record, skip: set<string>)
    requires Passes(src, dst, {})
    ensures Passes(src, dst, skip)
  {
    hide Judge, Descends;
    forall f: Finding | Filed(f, f.id, src, dst, skip) ensures f.kind == ChangedValue {
      assert Filed(f, f.id, src, dst, {});
    }
  }

  /** The trace of a run ends in what is published now, or in a retirement. */
  ghost predicate Ends(t: seq<Record>, dest: seq<Record>, run: seq<Publish>) {
    && 1 <= |t| <= |run| + 1
    && if |t| == |run| + 1 then t[|run|] in Published(dest, run) else RetiredBy(run[|t| - 1], t[|t| - 1])
  }

  lemma EndsOn(d: Record, t: seq<Record>, dest: seq<Record>, run: seq<Publish>)
    requires run != [] && Ends(t, run[0].source, run[1..])
    ensures Ends([d] + t, dest, run)
  {
    hide RetiredBy;
    var all := [d] + t;
    assert all[|all| - 1] == t[|t| - 1];
    if |t| == |run| {
      assert run[1..] != [] ==> run[1..][|run[1..]| - 1] == run[|run| - 1];
    } else {
      assert run[1..][|t| - 1] == run[|t|];
    }
  }

  lemma EndsAtOnce(d: Record, dest: seq<Record>)
    requires d in dest
    ensures Carried([d]) && Ends([d], dest, [])
  {
  }

  lemma EndsInRetirement(id: Json, d: Record, dest: seq<Record>, run: seq<Publish>)
    requires run != [] && Continues(id, d, run[0]) && Fated(id, d, run[0]).Collapsed? && Get(d, "id") == id
    ensures Trace(id, d, run) == [d] && Ends([d], dest, run)
  {
  }

  /** A record's trace is carried from publish to publish; it ends in what is published now, or in its retirement. */
  lemma {:induction false} TraceIsCarried(id: Json, dest: seq<Record>, run: seq<Publish>)
    requires RunAccepted(dest, run) && id in ById(dest)
    ensures Carried(Trace(id, ById(dest)[id], run)) && Ends(Trace(id, ById(dest)[id], run), dest, run)
    decreases |run|
  {
    hide Passes, Accepted, Ends, Fated;
    var d := ById(dest)[id];
    IndexedById(dest);
    if run == [] {
      EndsAtOnce(d, dest);
    } else {
      var p := run[0];
      AcceptedIff(dest, p);
      assert Continues(id, d, p);
      var fate := Fated(id, d, p);
      if fate.Kept? || fate.Moved? {
        var (next, s) := if fate.Kept? then (id, fate.record) else (Text(fate.newId), fate.record);
        FollowedRecord(id, d, p);
        TraceIsCarried(next, p.source, run[1..]);
        hide *;
        TraceStep(id, d, run);
        CarriedOn(d, Trace(next, s, run[1..]));
        EndsOn(d, Trace(next, s, run[1..]), dest, run);
      } else {
        EndsInRetirement(id, d, dest, run);
      }
    }
  }

  lemma TraceStep(id: Json, d: Record, run: seq<Publish>)
    requires run != []
    ensures var fate := Fated(id, d, run[0]);
            && (fate.Kept? ==> Trace(id, d, run) == [d] + Trace(id, fate.record, run[1..]))
            && (fate.Moved? ==> Trace(id, d, run) == [d] + Trace(Text(fate.newId), fate.record, run[1..]))
  {
    hide Fated;
  }

  lemma FollowedRecord(id: Json, d: Record, p: Publish)
    requires Continues(id, d, p)
    ensures var fate := Fated(id, d, p);
            && (fate.Kept? ==> id in ById(p.source) && ById(p.source)[id] == fate.record && Passes(fate.record, d, {"id"}))
            && (fate.Moved? ==> Text(fate.newId) in ById(p.source) && ById(p.source)[Text(fate.newId)] == fate.record
                                && Passes(fate.record, d, {"id"}))
  {
    var fate := Fated(id, d, p);
    if fate.Kept? { PassesSkippingMore(fate.record, d, {"id"}); }
  }

  lemma CarriedOn(d: Record, t: seq<Record>)
    requires t != [] && Carried(t) && Passes(t[0], d, {"id"})
    ensures Carried([d] + t)
  {
    hide Passes;
    var all := [d] + t;
    forall i | 0 <= i < |all| - 1 ensures Passes(all[i + 1], all[i], {"id"}) {
      if i > 0 { assert Passes(t[i - 1 + 1], t[i - 1], {"id"}); }
    }
  }

  // ----- what a carried record keeps -----

  lemma PassedPath(src: Record, dst: Record, path: Path)
    requires Passes(src, dst, {"id"}) && Compared(path, src, dst, {"id"})
    ensures Survives(path, src, dst)
  {
    PassesIffSurvives(src, dst, {"id"});
  }

  /** A value stays a value, unless it is compared one level down. */
  lemma ValuePasses(src: Record, dst: Record, key: string)
    requires Passes(src, dst, {"id"}) && key != "id" && !Descends(src, dst, key) && HeldAt(dst, [key])
    ensures HeldAt(src, [key])
  {
    hide Passes;
    LookupKeys(dst, key, key);
    PassedPath(src, dst, [key]);
  }

  lemma NestedPasses(src: Record, dst: Record, key: string, k: string)
    requires Passes(src, dst, {"id"}) && Descends(src, dst, key) && HeldAt(dst, [key, k])
    ensures HeldAt(src, [key, k])
  {
    hide Passes;
    LookupKeys(dst, key, k);
    PassedPath(src, dst, [key, k]);
  }

  /** The measurement at `path` is guarded between the two records: one of their roots is measurable (neither is the
      internet, for the hash), and what holds it is compared. */
  predicate Measured(path: Path, src: Record, dst: Record) {
    Weighed(path, src, dst) && (|path| == 2 ==> Descends(src, dst, "metadata"))
  }

  lemma MeasurementPasses(src: Record, dst: Record, path: Path)
    requires Passes(src, dst, {"id"}) && Measured(path, src, dst) && HeldAt(dst, path)
    ensures ValueAt(src, path) == ValueAt(dst, path)
  {
    hide Passes;
    if |path| == 2 {
      LookupKeys(dst, path[0], path[1]);
      assert path == [path[0], path[1]];
    } else {
      LookupKeys(dst, path[0], path[0]);
    }
    PassedPath(src, dst, path);
  }

  lemma {:induction false} ValueCarried(t: seq<Record>, key: string, i: nat, j: nat)
    requires Carried(t) && i <= j < |t| && key != "id" && !IsNested(key) && HeldAt(t[i], [key])
    ensures HeldAt(t[j], [key])
    decreases j
  {
    hide Passes, HeldAt;
    if i < j {
      ValueCarried(t, key, i, j - 1);
      assert Passes(t[j - 1 + 1], t[j - 1], {"id"});
      ValuePasses(t[j], t[j - 1], key);
    }
  }

  lemma {:induction false} NestedCarried(t: seq<Record>, key: string, k: string, i: nat, j: nat)
    requires Carried(t) && i <= j < |t| && IsNested(key) && HeldAt(t[i], [key, k])
    requires forall n :: i <= n <= j ==> key in t[n] ==> t[n][key].Object?
    ensures HeldAt(t[j], [key, k])
    decreases j
  {
    LookupKeys(t[i], key, k);
    if i < j {
      NestedCarried(t, key, k, i, j - 1);
      assert Passes(t[j - 1 + 1], t[j - 1], {"id"});
      LookupKeys(t[j - 1], key, k);
      hide Passes;
      if !Descends(t[j], t[j - 1], key) {
        ValuePasses(t[j], t[j - 1], key);
        LookupKeys(t[j], key, k);
      }
      NestedPasses(t[j], t[j - 1], key, k);
    }
  }

  lemma {:induction false} MeasurementCarried(t: seq<Record>, path: Path, i: nat, j: nat)
    requires Carried(t) && i <= j < |t| && HeldAt(t[i], path) && forall n :: i <= n < j ==> Measured(path, t[n + 1], t[n])
    ensures ValueAt(t[j], path) == ValueAt(t[i], path)
    decreases j
  {
    hide Passes, Measured;
    if i < j {
      MeasurementCarried(t, path, i, j - 1);
      assert Passes(t[j - 1 + 1], t[j - 1], {"id"}) && Measured(path, t[j - 1 + 1], t[j - 1]);
      MeasurementPasses(t[j], t[j - 1], path);
    }
  }

  /** The byte count stays while the root of each destination is measurable, whatever the source makes of the root. */
  lemma SizeCarried(t: seq<Record>, i: nat, j: nat)
    requires Carried(t) && i <= j < |t| && HeldAt(t[i], ["file_size_bytes"]) && forall n :: i <= n < j ==> Measurable(RootOf(t[n]))
    ensures ValueAt(t[j], ["file_size_bytes"]) == ValueAt(t[i], ["file_size_bytes"])
  {
    hide Carried, HeldAt, RootOf, Measurable;
    forall n | i <= n < j ensures Measured(["file_size_bytes"], t[n + 1], t[n]) {
      assert Measurable(RootOf(t[n]));
    }
    MeasurementCarried(t, ["file_size_bytes"], i, j);
  }

  // ----- the guarantee, spelled out -----

  /** A value: not null, and no empty string, list or object. */
  predicate IsValue(v: Json) {
    v != Null && v != Text("") && v != List([]) && v != Object(map[])
  }

  /** The record's root is absent, falsy, or one whose bytes the site measures. */
  predicate OfMeasuredTree(r: Record) {
    || "source_root" !in r || r["source_root"] in {Null, Text(""), Scalar(0.0), List([]), Object(map[])}
    || r["source_root"] in {Text("local"), Text("site"), Text("torrent_import"), Text("internet")}
  }

  predicate OfTheInternet(r: Record) {
    "source_root" in r && r["source_root"] == Text("internet")
  }

  /** The measurement at `path` may not change between the two records. */
  predicate IsGuarded(path: Path, src: Record, dst: Record) {
    && (OfMeasuredTree(src) || OfMeasuredTree(dst))
    && (|| path in {["file_size_bytes"], ["metadata", "origin_bytes"], ["metadata.origin_bytes"]}
        || (path in {["metadata", "sha256"], ["metadata.sha256"]} && !OfTheInternet(src) && !OfTheInternet(dst)))
  }

  lemma GuardedIs(path: Path, src: Record, dst: Record)
    ensures IsGuarded(path, src, dst) <==> Weighed(path, src, dst)
    ensures OfMeasuredTree(dst) <==> Measurable(RootOf(dst))
  {
  }

  lemma HeldIs(r: Record, key: string, k: string)
    ensures HeldAt(r, [key]) <==> key in r && IsValue(r[key])
    ensures HeldAt(r, [key, k]) <==> key in r && r[key].Object? && k in r[key].fields && IsValue(r[key].fields[k])
    ensures ValueAt(r, [key]) == At(r, key)
    ensures ValueAt(r, [key, k]) == if key in r && r[key].Object? then At(r[key].fields, k) else None
  {
    LookupKeys(r, key, k);
  }

  /** A value under a key stays a value. */
  ghost predicate KeepsValues(t: seq<Record>) {
    forall i, j, key :: 0 <= i <= j < |t| && key != "id" && key != "field_values" && key != "metadata" && key in t[i] && IsValue(t[i][key])
                        ==> key in t[j] && IsValue(t[j][key])
  }

  /** A value inside `field_values` or `metadata` stays a value, as long as whatever is there is an object. */
  ghost predicate KeepsInnerValues(t: seq<Record>) {
    forall i, j, key, k ::
      0 <= i <= j < |t| && (key == "field_values" || key == "metadata") && (forall n :: i <= n <= j ==> key in t[n] ==> t[n][key].Object?)
      && key in t[i] && k in t[i][key].fields && IsValue(t[i][key].fields[k])
      ==> key in t[j] && k in t[j][key].fields && IsValue(t[j][key].fields[k])
  }

  /** A byte count stays the same while the records it is published over are of a measured tree. */
  ghost predicate KeepsSizes(t: seq<Record>) {
    forall i, j ::
      0 <= i <= j < |t| && "file_size_bytes" in t[i] && IsValue(t[i]["file_size_bytes"]) && (forall n :: i <= n < j ==> OfMeasuredTree(t[n]))
      ==> "file_size_bytes" in t[j] && t[j]["file_size_bytes"] == t[i]["file_size_bytes"]
  }

  /** From position `i` to `j`, the measurement at `path` may not change. */
  ghost predicate StaysGuarded(t: seq<Record>, path: Path, i: int, j: int) {
    0 <= i <= j < |t| && forall n :: i <= n < j ==> IsGuarded(path, t[n + 1], t[n])
  }

  ghost predicate MetadataStays(t: seq<Record>, i: int, j: int) {
    0 <= i <= j < |t| && forall n :: i <= n <= j ==> "metadata" in t[n] && t[n]["metadata"].Object?
  }

  /** A measurement stays the same one while it is guarded; one inside `metadata`, while that is an object. */
  ghost predicate KeepsMeasurements(t: seq<Record>) {
    && (forall i, j, key :: StaysGuarded(t, [key], i, j) && key in t[i] && IsValue(t[i][key]) ==> key in t[j] && t[j][key] == t[i][key])
    && (forall i, j, k ::
          StaysGuarded(t, ["metadata", k], i, j) && MetadataStays(t, i, j)
          && k in t[i]["metadata"].fields && IsValue(t[i]["metadata"].fields[k])
          ==> k in t[j]["metadata"].fields && t[j]["metadata"].fields[k] == t[i]["metadata"].fields[k])
  }

  /** Each record of the trace is published after the one before it, under the same id or under the one it moved to. */
  ghost predicate Follows(t: seq<Record>, run: seq<Publish>) {
    forall i :: 0 <= i < |t| - 1 && i < |run| ==>
      t[i + 1] in run[i].source
      && var (was, is_) := (Get(t[i], "id"), Get(t[i + 1], "id"));
         is_ == was || (was.Text? && was.text in run[i].moves && is_ == Text(run[i].moves[was.text]))
  }

  lemma {:induction false} TraceFollows(id: Json, dest: seq<Record>, run: seq<Publish>)
    requires RunAccepted(dest, run) && id in ById(dest)
    ensures Follows(Trace(id, ById(dest)[id], run), run)
    decreases |run|
  {
    hide Passes, Accepted;
    var d := ById(dest)[id];
    IndexedById(dest);
    if run != [] {
      var p := run[0];
      AcceptedIff(dest, p);
      assert Continues(id, d, p);
      var fate := Fated(id, d, p);
      IndexedById(p.source);
      if fate.Kept? || fate.Moved? {
        var (next, s) := if fate.Kept? then (id, fate.record) else (Text(fate.newId), fate.record);
        FollowedRecord(id, d, p);
        TraceFollows(next, p.source, run[1..]);
        hide Accepted, RunAccepted, Continues, Passes, ById, Ids;
        TraceStep(id, d, run);
        FollowsOn(d, Trace(next, s, run[1..]), run);
      }
    }
  }

  lemma FollowsOn(d: Record, t: seq<Record>, run: seq<Publish>)
    requires t != [] && run != [] && Follows(t, run[1..]) && t[0] in run[0].source
    requires var (was, is_) := (Get(d, "id"), Get(t[0], "id"));
             is_ == was || (was.Text? && was.text in run[0].moves && is_ == Text(run[0].moves[was.text]))
    ensures Follows([d] + t, run)
  {
    var all := [d] + t;
    forall i | 0 <= i < |all| - 1 && i < |run|
      ensures all[i + 1] in run[i].source
      ensures var (was, is_) := (Get(all[i], "id"), Get(all[i + 1], "id"));
              is_ == was || (was.Text? && was.text in run[i].moves && is_ == Text(run[i].moves[was.text]))
    {
      if i > 0 { assert run[1..][i - 1] == run[i] && all[i + 1] == t[i - 1 + 1] && all[i] == t[i - 1]; }
    }
  }

  /** No run of accepted publishes loses a value. A record of any published list is traced, through its own id and the
      moves of that id, to what is published after the run, unless a retirement names it on the way; and along the trace
      every value stays a value, those inside `field_values` and `metadata` too, and a measurement stays the same one. */
  lemma NoRunLosesAValue(id: Json, dest: seq<Record>, run: seq<Publish>)
    requires RunAccepted(dest, run) && id in ById(dest)
    ensures var t := Trace(id, ById(dest)[id], run);
            && t != [] && t[0] == ById(dest)[id] && Follows(t, run)
            && Ends(t, dest, run) && KeepsValues(t) && KeepsInnerValues(t) && KeepsSizes(t) && KeepsMeasurements(t)
  {
    TraceIsCarried(id, dest, run);
    TraceFollows(id, dest, run);
    var t := Trace(id, ById(dest)[id], run);
    hide *;
    ValuesKept(t);
    InnerValuesKept(t);
    SizesKept(t);
    MeasurementsKept(t);
  }

  lemma ValuesKept(t: seq<Record>)
    requires Carried(t)
    ensures KeepsValues(t)
  {
    hide Carried, HeldAt, IsValue;
    forall i, j, key | 0 <= i <= j < |t| && key != "id" && key != "field_values" && key != "metadata" && key in t[i] && IsValue(t[i][key])
      ensures key in t[j] && IsValue(t[j][key])
    {
      HeldIs(t[i], key, key);
      ValueCarried(t, key, i, j);
      HeldIs(t[j], key, key);
    }
  }

  lemma InnerValuesKept(t: seq<Record>)
    requires Carried(t)
    ensures KeepsInnerValues(t)
  {
    hide Carried, HeldAt, IsValue;
    forall i, j, key, k |
      0 <= i <= j < |t| && (key == "field_values" || key == "metadata") && (forall n :: i <= n <= j ==> key in t[n] ==> t[n][key].Object?)
      && key in t[i] && k in t[i][key].fields && IsValue(t[i][key].fields[k])
      ensures key in t[j] && k in t[j][key].fields && IsValue(t[j][key].fields[k])
    {
      HeldIs(t[i], key, k);
      NestedCarried(t, key, k, i, j);
      HeldIs(t[j], key, k);
    }
  }

  lemma SizesKept(t: seq<Record>)
    requires Carried(t)
    ensures KeepsSizes(t)
  {
    hide Carried, HeldAt, IsValue, OfMeasuredTree, Measurable, RootOf;
    forall i, j |
      0 <= i <= j < |t| && "file_size_bytes" in t[i] && IsValue(t[i]["file_size_bytes"]) && forall n :: i <= n < j ==> OfMeasuredTree(t[n])
      ensures "file_size_bytes" in t[j] && t[j]["file_size_bytes"] == t[i]["file_size_bytes"]
    {
      HeldIs(t[i], "file_size_bytes", "");
      HeldIs(t[j], "file_size_bytes", "");
      forall n | i <= n < j ensures Measurable(RootOf(t[n])) {
        assert OfMeasuredTree(t[n]);
        GuardedIs([], t[n], t[n]);
      }
      SizeCarried(t, i, j);
    }
  }

  lemma MeasurementsKept(t: seq<Record>)
    requires Carried(t)
    ensures KeepsMeasurements(t)
  {
    hide Carried, HeldAt, IsValue, IsGuarded, ValueAt;
    forall i, j, key | StaysGuarded(t, [key], i, j) && key in t[i] && IsValue(t[i][key])
      ensures key in t[j] && t[j][key] == t[i][key]
    {
      HeldIs(t[i], key, "");
      HeldIs(t[j], key, "");
      GuardedStays(t, [key], i, j);
    }
    forall i, j, k | StaysGuarded(t, ["metadata", k], i, j) && MetadataStays(t, i, j)
                     && k in t[i]["metadata"].fields && IsValue(t[i]["metadata"].fields[k])
      ensures k in t[j]["metadata"].fields && t[j]["metadata"].fields[k] == t[i]["metadata"].fields[k]
    {
      HeldIs(t[i], "metadata", k);
      HeldIs(t[j], "metadata", k);
      GuardedStays(t, ["metadata", k], i, j);
    }
  }

  lemma GuardedStays(t: seq<Record>, path: Path, i: int, j: int)
    requires Carried(t) && StaysGuarded(t, path, i, j) && HeldAt(t[i], path)
    requires |path| == 2 ==> path[0] == "metadata" && MetadataStays(t, i, j)
    ensures ValueAt(t[j], path) == ValueAt(t[i], path)
  {
    hide Carried, HeldAt, Weighed, IsGuarded, ValueAt;
    forall n | i <= n < j ensures Measured(path, t[n + 1], t[n]) {
      assert IsGuarded(path, t[n + 1], t[n]);
      GuardedIs(path, t[n + 1], t[n]);
    }
    MeasurementCarried(t, path, i, j);
  }

  // ----- and exactly which values a run can shed -----

  /** One record published over another of the same id. */
  function Over(s: Record): Publish {
    Publish([s], map[], map[])
  }

  /** The records differ at one key only. */
  predicate SameBut(src: Record, dst: Record, key: string) {
    src - {key} == dst - {key}
  }

  lemma PassesAtKey(src: Record, dst: Record, key: string)
    requires SameBut(src, dst, key) && forall path :: Compared(path, src, dst, {}) && path[0] == key ==> Survives(path, src, dst)
    ensures Passes(src, dst, {})
  {
    forall path | Compared(path, src, dst, {}) ensures Survives(path, src, dst) {
      if path[0] != key {
        hide Survives, RootOf;
        assert (src - {key}).Keys == (dst - {key}).Keys && path[0] in dst - {key};
        assert src[path[0]] == (src - {key})[path[0]] == (dst - {key})[path[0]];
        SameSurvives(path, src, dst);
      }
    }
    hide *;
    PassesIffSurvives(src, dst, {});
  }

  lemma OnlyAt(src: Record, dst: Record, key: string)
    requires key in dst && !Descends(src, dst, key) && Survives([key], src, dst)
    ensures forall path :: Compared(path, src, dst, {}) && path[0] == key ==> Survives(path, src, dst)
  {
    forall path | Compared(path, src, dst, {}) && path[0] == key ensures Survives(path, src, dst) {
      assert path == [key];
    }
  }

  lemma SameSurvives(path: Path, src: Record, dst: Record)
    requires path != [] && path[0] in src && path[0] in dst && src[path[0]] == dst[path[0]]
    ensures Survives(path, src, dst)
  {
    assert ValueAt(src, path) == ValueAt(dst, path);
  }

  /** An empty value may go. */
  lemma EmptyGoes(dst: Record, key: string)
    requires key in dst && IsEmpty(dst[key])
    ensures Passes(dst - {key}, dst, {})
  {
    LookupKeys(dst, key, key);
    LookupKeys(dst - {key}, key, key);
    OnlyAt(dst - {key}, dst, key);
    PassesAtKey(dst - {key}, dst, key);
  }

  /** Under a nested key a string may take the place of anything, */
  lemma TextComes(dst: Record, key: string, text: string)
    requires IsNested(key) && key in dst && text != ""
    ensures Passes(dst[key := Text(text)], dst, {})
  {
    LookupKeys(dst[key := Text(text)], key, key);
    OnlyAt(dst[key := Text(text)], dst, key);
    PassesAtKey(dst[key := Text(text)], dst, key);
  }

  /** an object of empties the place of the string, */
  lemma EmptiesCome(dst: Record, key: string)
    requires IsNested(key) && key in dst && dst[key].Text?
    ensures Passes(dst[key := Object(map["x" := Null])], dst, {})
  {
    LookupKeys(dst[key := Object(map["x" := Null])], key, key);
    assert "x" in Object(map["x" := Null]).fields;
    OnlyAt(dst[key := Object(map["x" := Null])], dst, key);
    PassesAtKey(dst[key := Object(map["x" := Null])], dst, key);
  }

  /** and the empties are not missed. */
  lemma EmptiesGo(dst: Record, key: string)
    requires IsNested(key) && key in dst && dst[key] == Object(map["x" := Null])
    ensures Passes(dst[key := Object(map[])], dst, {})
  {
    var src := dst[key := Object(map[])];
    forall path | Compared(path, src, dst, {}) && path[0] == key ensures Survives(path, src, dst) {
      assert path == [key, path[1]];
      LookupKeys(src, key, path[1]);
      LookupKeys(dst, key, path[1]);
    }
    PassesAtKey(src, dst, key);
  }

  lemma ByIdOne(r: Record)
    ensures ById([r]) == map[Get(r, "id") := r]
  {
    assert ById([]) == map[];
    assert [r][..0] == [];
  }

  lemma OverAccepted(src: Record, dst: Record)
    requires Get(src, "id") == Get(dst, "id") && Passes(src, dst, {})
    ensures Accepted([dst], Over(src)) && Fated(Get(dst, "id"), dst, Over(src)) == Kept(src)
  {
    var id := Get(dst, "id");
    ByIdOne(src);
    ByIdOne(dst);
    AcceptedIff([dst], Over(src));
  }

  function AllOver(next: seq<Record>): seq<Publish> {
    if next == [] then [] else [Over(next[0])] + AllOver(next[1..])
  }

  ghost predicate PassesOver(d: Record, next: seq<Record>)
    decreases |next|
  {
    next == [] || (Get(next[0], "id") == Get(d, "id") && Passes(next[0], d, {}) && PassesOver(next[0], next[1..]))
  }

  lemma PassesOverCons(d: Record, s: Record, next: seq<Record>)
    requires Get(s, "id") == Get(d, "id") && Passes(s, d, {})
    requires next == [] || PassesOver(s, next)
    ensures PassesOver(d, [s] + next)
  {
    hide Passes;
    assert ([s] + next)[1..] == next;
  }

  /** A chain of records, each passing over the one before it, is a run of accepted publishes. */
  lemma {:induction false} ChainIsRun(d: Record, next: seq<Record>)
    requires PassesOver(d, next)
    ensures RunAccepted([d], AllOver(next)) && Trace(Get(d, "id"), d, AllOver(next)) == [d] + next
    decreases |next|
  {
    if next != [] {
      var run := AllOver(next);
      OverAccepted(next[0], d);
      ChainIsRun(next[0], next[1..]);
      hide Passes, Accepted, Fated;
      assert run[0] == Over(next[0]) && run[1..] == AllOver(next[1..]);
      assert next == [next[0]] + next[1..];
      assert RunAccepted(run[0].source, run[1..]);
    }
  }

  /** The run that sheds the value under a nested key. */
  lemma NestedIsShed(d: Record, key: string) returns (run: seq<Publish>)
    requires key in d && IsNested(key)
    ensures RunAccepted([d], run) && exists r :: r in Trace(Get(d, "id"), d, run) && key !in r
  {
    var a := d[key := Text("x")];
    var b := a[key := Object(map["x" := Null])];
    var c := b[key := Object(map[])];
    TextComes(d, key, "x");
    EmptiesCome(a, key);
    EmptiesGo(b, key);
    EmptyGoes(c, key);
    hide *;
    PassesOverCons(c, c - {key}, []);
    PassesOverCons(b, c, [c - {key}]);
    PassesOverCons(a, b, [c, c - {key}]);
    PassesOverCons(d, a, [b, c, c - {key}]);
    var next := [a, b, c, c - {key}];
    assert next == [a] + [b, c, c - {key}] == [a] + ([b] + [c, c - {key}]);
    ChainIsRun(d, next);
    run := AllOver(next);
    assert ([d] + next)[4] == c - {key};
    assert c - {key} in Trace(Get(d, "id"), d, run);
  }

  lemma EmptyIsShed(d: Record, key: string) returns (run: seq<Publish>)
    requires key in d && key != "id" && IsEmpty(d[key])
    ensures RunAccepted([d], run) && exists r :: r in Trace(Get(d, "id"), d, run) && key !in r
  {
    EmptyGoes(d, key);
    hide Passes, ById;
    var next := [d - {key}];
    ChainIsRun(d, next);
    run := AllOver(next);
    assert ([d] + next)[1] == d - {key};
    assert d - {key} in Trace(Get(d, "id"), d, run);
  }

  /** The guarantee, exactly: every run of accepted publishes keeps the key if and only if its value is not empty and is
      not compared one level down. */
  lemma KeptByEveryRunIff(d: Record, key: string)
    requires key in d && key != "id"
    ensures (forall run, r :: RunAccepted([d], run) && r in Trace(Get(d, "id"), d, run) ==> key in r) <==>
            key != "field_values" && key != "metadata" && IsValue(d[key])
  {
    if key == "field_values" || key == "metadata" {
      var run := NestedIsShed(d, key);
    } else if !IsValue(d[key]) {
      var run := EmptyIsShed(d, key);
    } else {
      forall run, r | RunAccepted([d], run) && r in Trace(Get(d, "id"), d, run) ensures key in r {
        ByIdOne(d);
        NoRunLosesAValue(Get(d, "id"), [d], run);
        var j :| 0 <= j < |Trace(Get(d, "id"), d, run)| && Trace(Get(d, "id"), d, run)[j] == r;
        assert key in Trace(Get(d, "id"), d, run)[0];
        assert key in r;
      }
    }
  }
}
