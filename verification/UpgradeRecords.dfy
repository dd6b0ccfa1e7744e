/** What each pass of `seed/scripts/apply_upgrade.py` does to one asset record, and when a record needs nothing more. */
module UpgradeRecords {
  import opened Sequences
  import opened Json
  import opened Catalogue

  // ----- the documents -----

  /** A team correction: records of one team whose original path contains the pattern go to another. */
  datatype Correction = Correction(fromTeam: string, pattern: string, toTeam: string)

  /** Everything else names one record and changes it: an AI declaration, a replacement (`title` is `title_for` of the new
      file's name), a merged record already held, a reconcile fill, a staged measurement. An absent hash is empty. */
  datatype Amendment =
    | Declare(id: string, provenance: Json)
    | Replace(id: string, path: string, size: Json, newSha: string, title: string)
    | Repair(id: string, source: Record)
    | FillIn(id: string, values: Record)
    | Stage(id: string, bytes: Json, origin: Option<Json>, sha: string)

  // ----- reading a record -----

  /** `metadata`; a record without it, as `setdefault` leaves it. */
  function Meta(r: Record): Record {
    if Get(r, "metadata").Object? then r["metadata"].fields else map[]
  }

  function SetMeta(r: Record, key: string, v: Json): Record {
    r["metadata" := Object(Meta(r)[key := v])]
  }

  function TextAt(r: Record, key: string): string {
    if Get(r, key).Text? then r[key].text else ""
  }

  predicate Contains(s: string, pattern: string) {
    exists i :: 0 <= i <= |s| && pattern <= s[i..]
  }

  /** Where the record came from, before any file was swapped under it. */
  function OriginalPath(r: Record): string {
    if TextAt(r, "replaced_source_path") != "" then TextAt(r, "replaced_source_path") else TextAt(r, "source_path")
  }

  // ----- the passes, on one record -----

  predicate Fires(c: Correction, r: Record) {
    Get(r, "team_name") == Text(c.fromTeam) && Contains(OriginalPath(r), c.pattern)
  }

  function CorrectOne(c: Correction, e: Asset): Asset {
    if Fires(c, e.fields) then e.(fields := e.fields["team_name" := Text(c.toTeam)]) else e
  }

  function CorrectAll(cs: seq<Correction>, e: Asset): (r: Asset)
    ensures r.id == e.id
    decreases |cs|
  {
    if cs == [] then e else CorrectOne(cs[|cs| - 1], CorrectAll(cs[..|cs| - 1], e))
  }

  /** `rsplit(sep, 1)[-1]`. */
  function AfterLast(s: string, sep: char): string
    decreases |s|
  {
    if s == "" then ""
    else if s[|s| - 1] == sep then ""
    else AfterLast(s[..|s| - 1], sep) + [s[|s| - 1]]
  }

  /** The original path is remembered once, and only for a record of the local tree. */
  function Remembered(r: Record): Record {
    if ("source_root" in r ==> r["source_root"] == Text("local")) && Truthy(Get(r, "source_path")) && "replaced_source_path" !in r
    then r["replaced_source_path" := r["source_path"]]
    else r
  }

  function ReplacedMeta(ch: Amendment, r: Record): Record
    requires ch.Replace?
  {
    var meta := Meta(r)["filename" := Text(AfterLast(ch.path, '/'))]["license" := Text("CC0 1.0")]["attribution" := Text("Kenney (kenney.nl)")];
    if ch.newSha != "" then meta["sha256" := Text(ch.newSha)] else meta
  }

  function Replaced(ch: Amendment, r: Record): Record
    requires ch.Replace?
  {
    var name := AfterLast(ch.path, '/');
    Remembered(r)
    ["file_path" := Text(ch.path)]["source_root" := Text("hq")]["source_path" := Text(name)]["file_size_bytes" := ch.size]
    ["file_extension" := Text(AfterLast(name, '.'))]["title" := Text(ch.title)]
    ["license" := Text("CC0 1.0")]["attribution" := Text("Kenney (kenney.nl)")]
    ["metadata" := Object(ReplacedMeta(ch, r))]
  }

  function Repaired(source: Record, r: Record): Record {
    if Truthy(Get(source, "media_url")) && !Truthy(Get(Meta(r), "media_url"))
    then SetMeta(r, "media_url", source["media_url"])
    else r
  }

  /** What a fill makes of one object it descends into: only absent and empty values change. */
  function FilledBelow(sub: Record, values: Record): Record {
    map k | k in sub.Keys + values.Keys :: if k in values && IsEmpty(Get(sub, k)) then values[k] else sub[k]
  }

  /** What it makes of the value of one key, if there is one. */
  function FilledValue(old_: Option<Json>, v: Json): Json {
    if v.Object? then
      if old_.None? then Object(FilledBelow(map[], v.fields))
      else if old_.value.Object? then Object(FilledBelow(old_.value.fields, v.fields))
      else old_.value
    else if old_.None? || IsEmpty(old_.value) then v
    else old_.value
  }

  function Filled(r: Record, values: Record): Record {
    map k | k in r.Keys + values.Keys :: if k in values then FilledValue(At(r, k), values[k]) else r[k]
  }

  /** The values a fill writes. */
  function FilledPaths(r: Record, values: Record): set<Path> {
    (set k | k in values && !values[k].Object? && IsEmpty(Get(r, k)) :: [k]) +
    (set k, k2 | k in values && values[k].Object? && k2 in values[k].fields && FillsBelow(At(r, k), k2) :: [k, k2])
  }

  predicate FillsBelow(old_: Option<Json>, key: string) {
    old_.None? || (old_.value.Object? && IsEmpty(Get(old_.value.fields, key)))
  }

  /** The byte count made true, and what the media URL serves kept aside; `metadata` exists from here on. */
  function Sized(ch: Amendment, r: Record): Record
    requires ch.Stage?
  {
    var held := r["metadata" := Object(Meta(r))];
    if Get(r, "file_size_bytes") == ch.bytes then held
    else (if ch.origin.Some? then SetMeta(held, "origin_bytes", ch.origin.value) else held)["file_size_bytes" := ch.bytes]
  }

  predicate Unhashed(ch: Amendment, r: Record)
    requires ch.Stage?
  {
    ch.sha != "" && Get(Meta(r), "sha256") != Text(ch.sha)
  }

  function Staged(ch: Amendment, r: Record): Record
    requires ch.Stage?
  {
    var sized := Sized(ch, r);
    if Unhashed(ch, sized) then SetMeta(sized, "sha256", Text(ch.sha)) else sized
  }

  function Amended(ch: Amendment, r: Record): Record {
    match ch
    case Declare(_, provenance) => r["ai_provenance" := provenance]
    case Replace(_, _, _, _, _) => Replaced(ch, r)
    case Repair(_, source) => Repaired(source, r)
    case FillIn(_, values) => Filled(r, values)
    case Stage(_, _, _, _) => Staged(ch, r)
  }

  // ----- records that need nothing more -----

  predicate HoldsText(r: Record, key: string, text: string) {
    text != "" && key in r && r[key] == Text(text)
  }

  predicate IsReplaced(ch: Amendment, r: Record)
    requires ch.Replace?
  {
    var name := AfterLast(ch.path, '/');
    && HoldsText(r, "file_path", ch.path) && HoldsText(r, "source_root", "hq") && HoldsText(r, "source_path", name)
    && "file_size_bytes" in r && r["file_size_bytes"] == ch.size && ch.size.Scalar?
    && HoldsText(r, "file_extension", AfterLast(name, '.')) && HoldsText(r, "title", ch.title)
    && HoldsText(r, "license", "CC0 1.0") && HoldsText(r, "attribution", "Kenney (kenney.nl)")
    && "metadata" in r && r["metadata"].Object?
    && HoldsText(Meta(r), "filename", name) && HoldsText(Meta(r), "license", "CC0 1.0")
    && HoldsText(Meta(r), "attribution", "Kenney (kenney.nl)")
    && (ch.newSha != "" ==> HoldsText(Meta(r), "sha256", ch.newSha))
  }

  predicate IsFilled(held: Option<Json>, v: Json) {
    && held.Some?
    && if v.Object? then held.value.Object? ==> forall k :: k in v.fields ==> !IsEmpty(Get(held.value.fields, k))
       else !IsEmpty(held.value)
  }

  /** The amendment has nothing left to do, and no later fill can undo it. */
  predicate Settled(ch: Amendment, r: Record) {
    match ch
    case Declare(_, provenance) => "ai_provenance" in r && r["ai_provenance"] == provenance && provenance.Text? && provenance.text != ""
    case Replace(_, _, _, _, _) => IsReplaced(ch, r)
    case Repair(_, source) => Truthy(Get(source, "media_url")) ==> Truthy(Get(Meta(r), "media_url"))
    case FillIn(_, values) => forall k :: k in values ==> IsFilled(At(r, k), values[k])
    case Stage(_, bytes, _, sha) =>
      && "metadata" in r && r["metadata"].Object? && "file_size_bytes" in r && r["file_size_bytes"] == bytes
      && (sha != "" ==> HoldsText(Meta(r), "sha256", sha))
  }

  /** What a document must say for its amendments to settle: every value it brings is one. */
  predicate Whole(ch: Amendment) {
    match ch
    case Declare(_, provenance) => provenance.Text? && provenance.text != ""
    case Replace(_, path, size, _, title) =>
      var name := AfterLast(path, '/');
      path != "" && name != "" && AfterLast(name, '.') != "" && title != "" && size.Scalar?
    case Repair(_, _) => true
    case FillIn(_, values) =>
      && (forall k :: k in values && !values[k].Object? ==> !IsEmpty(values[k]))
      && (forall k, k2 :: k in values && values[k].Object? && k2 in values[k].fields ==> !IsEmpty(values[k].fields[k2]))
      && ("metadata" in values ==> values["metadata"].Object?)
    case Stage(_, bytes, origin, _) => bytes.Scalar? && (origin.Some? ==> !IsEmpty(origin.value))
  }

  /** The records modelled: `metadata`, where there is one, is an object. */
  predicate MetaIsObject(r: Record) {
    "metadata" in r ==> r["metadata"].Object?
  }

  function Rank(ch: Amendment): nat {
    match ch
    case Declare(_, _) => 0
    case Replace(_, _, _, _, _) => 1
    case Repair(_, _) => 2
    case FillIn(_, _) => 3
    case Stage(_, _, _, _) => 4
  }

  /** The order of the passes, and the two overlaps on one record that would make them fight. */
  predicate MayFollow(first: Amendment, later: Amendment) {
    (Rank(first) < Rank(later) && !(first.Replace? && later.Stage?)) || (first.FillIn? && later.FillIn?)
  }

  // ----- amending once is enough -----

  lemma MetaStaysObject(ch: Amendment, r: Record)
    requires MetaIsObject(r) && Whole(ch)
    ensures MetaIsObject(Amended(ch, r))
  {
  }

  lemma ReplaceSettles(ch: Amendment, r: Record)
    requires ch.Replace? && Whole(ch)
    ensures IsReplaced(ch, Replaced(ch, r))
  {
  }

  lemma FillSettles(ch: Amendment, r: Record)
    requires ch.FillIn? && Whole(ch)
    ensures Settled(ch, Amended(ch, r))
  {
    forall k | k in ch.values ensures IsFilled(At(Filled(r, ch.values), k), ch.values[k]) {
    }
  }

  lemma StageSettles(ch: Amendment, r: Record)
    requires ch.Stage? && Whole(ch)
    ensures Settled(ch, Amended(ch, r))
  {
  }

  lemma AmendedSettles(ch: Amendment, r: Record)
    requires Whole(ch)
    ensures Settled(ch, Amended(ch, r))
  {
    match ch
    case Declare(_, _) =>
    case Replace(_, _, _, _, _) => ReplaceSettles(ch, r);
    case Repair(_, _) =>
    case FillIn(_, _) => FillSettles(ch, r);
    case Stage(_, _, _, _) => StageSettles(ch, r);
  }

  lemma FilledIsFixed(r: Record, values: Record)
    requires forall k :: k in values ==> IsFilled(At(r, k), values[k])
    ensures Filled(r, values) == r && FilledPaths(r, values) == {}
  {
    forall k | k in values ensures k in r && FilledValue(At(r, k), values[k]) == r[k] {
      assert IsFilled(At(r, k), values[k]);
      if values[k].Object? && r[k].Object? { assert FilledBelow(r[k].fields, values[k].fields) == r[k].fields; }
    }
    hide FilledValue;
    assert Filled(r, values) == r;
    forall k | k in values ensures values[k].Object? || !IsEmpty(Get(r, k)) {
      assert IsFilled(At(r, k), values[k]);
    }
    forall k, k2 | k in values && values[k].Object? && k2 in values[k].fields ensures !FillsBelow(At(r, k), k2) {
      assert IsFilled(At(r, k), values[k]);
    }
  }

  lemma ReplacedIsFixed(ch: Amendment, r: Record)
    requires ch.Replace? && IsReplaced(ch, r)
    ensures Replaced(ch, r) == r
  {
    assert Remembered(r) == r;
    assert ReplacedMeta(ch, r) == Meta(r);
  }

  /** A settled amendment changes nothing. */
  lemma SettledIsFixed(ch: Amendment, r: Record)
    requires Settled(ch, r)
    ensures Amended(ch, r) == r
    ensures ch.FillIn? ==> FilledPaths(r, ch.values) == {}
  {
    match ch
    case Declare(_, _) =>
    case Replace(_, _, _, _, _) => ReplacedIsFixed(ch, r);
    case Repair(_, _) =>
    case FillIn(_, values) => FilledIsFixed(r, values);
    case Stage(_, _, _, _) =>
  }

  // ----- later passes leave it settled -----

  lemma FillKeepsText(r: Record, values: Record, key: string, text: string)
    requires HoldsText(r, key, text)
    ensures HoldsText(Filled(r, values), key, text)
  {
  }

  lemma FillKeepsMeta(r: Record, values: Record)
    requires MetaIsObject(r) && ("metadata" in values ==> values["metadata"].Object?)
    ensures "metadata" in r ==> "metadata" in Filled(r, values) && Filled(r, values)["metadata"].Object?
    ensures forall k :: k in Meta(r) && !IsEmpty(Meta(r)[k]) ==> k in Meta(Filled(r, values)) && Meta(Filled(r, values))[k] == Meta(r)[k]
  {
    if "metadata" in r && "metadata" in values {
      assert Meta(Filled(r, values)) == FilledBelow(Meta(r), values["metadata"].fields);
    }
  }

  lemma FillKeepsReplaced(ch: Amendment, r: Record, values: Record)
    requires ch.Replace? && IsReplaced(ch, r) && ("metadata" in values ==> values["metadata"].Object?)
    ensures IsReplaced(ch, Filled(r, values))
  {
    var name := AfterLast(ch.path, '/');
    FillKeepsMeta(r, values);
    FillKeepsText(r, values, "file_path", ch.path);
    FillKeepsText(r, values, "source_root", "hq");
    FillKeepsText(r, values, "source_path", name);
    FillKeepsText(r, values, "file_extension", AfterLast(name, '.'));
    FillKeepsText(r, values, "title", ch.title);
    FillKeepsText(r, values, "license", "CC0 1.0");
    FillKeepsText(r, values, "attribution", "Kenney (kenney.nl)");
    assert "file_size_bytes" in Filled(r, values) && Filled(r, values)["file_size_bytes"] == ch.size;
    hide Filled, AfterLast;
  }

  lemma FillKeepsFilled(r: Record, values: Record, k: string, v: Json)
    requires IsFilled(At(r, k), v)
    ensures k in values && !values[k].Object? ==> !IsEmpty(values[k]) ==> IsFilled(At(Filled(r, values), k), v)
    ensures k in values && values[k].Object? ==> IsFilled(At(Filled(r, values), k), v)
    ensures k !in values ==> IsFilled(At(Filled(r, values), k), v)
  {
  }

  /** A fill leaves every earlier amendment settled. */
  lemma FillKeepsSettled(ch: Amendment, r: Record, fill: Amendment)
    requires Settled(ch, r) && fill.FillIn? && Whole(fill) && MetaIsObject(r) && !ch.Stage?
    ensures Settled(ch, Filled(r, fill.values))
  {
    match ch
    case Declare(_, provenance) => FillKeepsText(r, fill.values, "ai_provenance", provenance.text);
    case Replace(_, _, _, _, _) => FillKeepsReplaced(ch, r, fill.values);
    case Repair(_, _) => FillKeepsMeta(r, fill.values);
    case FillIn(_, values) =>
      forall k | k in values ensures IsFilled(At(Filled(r, fill.values), k), values[k]) {
        FillKeepsFilled(r, fill.values, k, values[k]);
      }
  }

  lemma StageKeepsFilled(r: Record, stage: Amendment, k: string, v: Json)
    requires stage.Stage? && Whole(stage) && MetaIsObject(r) && IsFilled(At(r, k), v) && (k == "metadata" ==> v.Object?)
    ensures IsFilled(At(Staged(stage, r), k), v)
  {
  }

  /** So does a staged measurement, but for a replacement. */
  lemma StageKeepsSettled(ch: Amendment, r: Record, stage: Amendment)
    requires Settled(ch, r) && Whole(ch) && stage.Stage? && Whole(stage) && MetaIsObject(r) && !ch.Stage? && !ch.Replace?
    ensures Settled(ch, Staged(stage, r))
  {
    if ch.FillIn? {
      forall k | k in ch.values ensures IsFilled(At(Staged(stage, r), k), ch.values[k]) {
        StageKeepsFilled(r, stage, k, ch.values[k]);
      }
    }
  }

  /** What one pass has settled on a record, no later pass of the run unsettles. */
  lemma LaterKeepsSettled(ch: Amendment, r: Record, later: Amendment)
    requires Settled(ch, r) && Whole(ch) && Whole(later) && MetaIsObject(r) && MayFollow(ch, later)
    ensures Settled(ch, Amended(later, r))
  {
    match later
    case Replace(_, _, _, _, _) => assert ch.Declare?;
    case Repair(_, _) =>
    case FillIn(_, _) => FillKeepsSettled(ch, r, later);
    case Stage(_, _, _, _) => StageKeepsSettled(ch, r, later);
  }

  // ----- team corrections -----

  /** What a correction looks at. */
  predicate IsCorrectionKey(key: string) {
    key == "team_name" || key == "source_path" || key == "replaced_source_path"
  }

  /** A later pass does not make a correction fire: fills stay off the keys it looks at, and it matches no pool file. */
  predicate LeavesAlone(c: Correction, ch: Amendment) {
    && (ch.FillIn? ==> forall key :: key in ch.values ==> !IsCorrectionKey(key))
    && (ch.Replace? ==> !Contains(AfterLast(ch.path, '/'), c.pattern))
  }

  lemma AmendedKeepsQuiet(c: Correction, ch: Amendment, r: Record)
    requires !Fires(c, r) && LeavesAlone(c, ch)
    ensures !Fires(c, Amended(ch, r))
  {
    hide Contains, AfterLast;
    if ch.FillIn? {
      forall key | IsCorrectionKey(key) ensures Get(Filled(r, ch.values), key) == Get(r, key) {}
    }
  }

  /** No correction sends a record to a team another takes records from. */
  ghost predicate NoRelay(cs: seq<Correction>) {
    forall c, d :: c in cs && d in cs ==> c.toTeam != d.fromTeam
  }

  lemma {:induction false} CorrectedIsQuiet(cs: seq<Correction>, e: Asset)
    requires NoRelay(cs)
    ensures forall c :: c in cs ==> !Fires(c, CorrectAll(cs, e).fields)
    ensures CorrectAll(cs, e) == e || exists c :: c in cs && CorrectAll(cs, e).fields == e.fields["team_name" := Text(c.toTeam)]
    decreases |cs|
  {
    hide Contains;
    if cs != [] {
      var n := |cs| - 1;
      assert cs == cs[..n] + [cs[n]];
      CorrectedIsQuiet(cs[..n], e);
    }
  }
}
