/** The expected-transform documents of `seed/scripts/preserved_archive.py`, and the builders, appliers and verifiers
    of the one change that `metadata.csv` and `groups.csv` may undergo. */
module CsvDocuments {
  import opened Sequences
  import opened Outcomes
  import opened Sorting
  import opened TitleRule
  import opened CsvSplit
  import opened CsvReader
  import opened CsvRetitle
  import opened CsvRows
  import opened CsvTable

  const TRANSFORM_KIND := "metadata-csv-transform"
  const GROUPS_TRANSFORM_KIND := "groups-csv-retitle"
  const TRANSFORM_VERSION := 2

  datatype FileFacts = FileFacts(sha: Digest, bytes: int, rows: int)
  datatype HeaderFacts = HeaderFacts(fields: seq<string>, count: int, sha: Digest)
  datatype Expected = Expected(sha: Digest, bytes: int, rows: int, ordered: Digest, rowDigests: seq<Digest>)

  /** The sections both kinds of document share. */
  datatype Frame = Frame(kind: string, version: int, original: FileFacts, header: HeaderFacts, rule: Digest,
                         retitles: seq<Retitle>, expected: Expected)

  datatype Removal = Removal(filePath: string, retiredId: string)

  const FILE: Removal -> string := (r: Removal) => r.filePath

  /** The identity of the collapse document that authorises the removals. */
  datatype Binding = Binding(profile: string, sha: Digest, entries: int, retiredIds: seq<string>)

  datatype CsvDocument = CsvDocument(frame: Frame, profile: string, collapse: Option<Binding>, removals: seq<Removal>)

  /** `hasRemovals` says whether the document carries a `removals` section at all. */
  datatype GroupsDocument = GroupsDocument(frame: Frame, hasRemovals: bool, countColumn: string, countDigest: Digest)

  /** Why a document, or a file, is refused. */
  datatype Reason =
    | WrongOriginal | HeaderMismatch | RemovalAbsent | NoColumn | RetitleAbsent | RetitleMismatch
    | StillOriginal | Unsplittable | HeaderChanged | HeaderFieldsChanged | RowCount | StillPresent | RowDigests
    | OrderedDigest | WholeDigest | TitlePunctuated | AssetCountChanged
    | NotOneRow | WrongTitle | WrongRowBytes | ChangedOutsideTitle
    | NotTheOriginal | NotProduced | UnreadableOriginal
    | MissingRetitle | RemovedRetitle | UnknownRetitle | PlainRetitle | DifferentRetitle
    | WrongProfile | NoCollapseDocument | NoBinding | StaleBinding | BindingProfile | BindingIds | BindingEntries
    | UnauthorisedRemovals

  function If(cond: bool, r: Reason): seq<Reason> {
    if cond then [r] else []
  }

  // ----- columns -----

  function IndexOf(fields: seq<string>, column: string): (i: nat)
    ensures i <= |fields| && (i < |fields| <==> column in fields)
    ensures i < |fields| ==> fields[i] == column
  {
    if fields == [] || fields[0] == column then 0 else 1 + IndexOf(fields[1..], column)
  }

  /** `_column_index`. */
  function Column(fields: seq<string>, column: string): Outcome<nat> {
    if column in fields then Ok(IndexOf(fields, column)) else Refused
  }

  /** The values of column `k`; a row too short for it ends the reading as `short` says. */
  function ReadKeys(rows: seq<string>, k: nat, short: Outcome<string>): Outcome<seq<string>>
    requires short.IsFailure()
  {
    if rows == [] then Ok([])
    else
      var f :- Fields(rows[0]);
      if |f| <= k then short.PropagateFailure()
      else
        var tail :- ReadKeys(rows[1..], k, short);
        Ok([f[k]] + tail)
  }

  lemma {:induction false} ReadKeysIs(rows: seq<string>, k: nat, short: Outcome<string>)
    requires short.IsFailure()
    ensures ReadKeys(rows, k, short).Ok? <==> forall i :: 0 <= i < |rows| ==> Readable(rows[i], k)
    ensures ReadKeys(rows, k, short).Ok? ==>
              var keys := ReadKeys(rows, k, short).value;
              |keys| == |rows| && forall i :: 0 <= i < |rows| ==> keys[i] == Field(rows[i], k)
  {
    hide Fields;
    if rows != [] {
      assert forall i :: 0 <= i < |rows[1..]| ==> rows[1..][i] == rows[i + 1];
      ReadKeysIs(rows[1..], k, short);
      if forall i :: 0 <= i < |rows| ==> Readable(rows[i], k) {
        assert Readable(rows[0], k);
      }
      if ReadKeys(rows, k, short).Ok? {
        forall i | 0 <= i < |rows| ensures Readable(rows[i], k) && ReadKeys(rows, k, short).value[i] == Field(rows[i], k) {
          if i > 0 { assert rows[i] == rows[1..][i - 1]; }
        }
      }
    }
  }

  function Digests(h: Hashes, rows: seq<string>): (ds: seq<Digest>)
    ensures |ds| == |rows| && forall i :: 0 <= i < |rows| ==> ds[i] == h.sha(rows[i])
  {
    if rows == [] then [] else [h.sha(rows[0])] + Digests(h, rows[1..])
  }

  // ----- building -----

  /** What a builder records: the original `blob` of `header` and `rows`, and the rows it becomes. */
  function Describe(h: Hashes, kind: string, blob: string, header: string, rows: seq<string>, fields: seq<string>,
                    after: seq<string>, retitles: seq<Retitle>): Frame
  {
    Frame(kind, TRANSFORM_VERSION,
          FileFacts(h.sha(blob), |blob|, |rows|),
          HeaderFacts(fields, |fields|, h.sha(header)),
          h.rule, retitles,
          Expected(h.sha(Join(header, after)), |Join(header, after)|, |after|, h.ordered(Digests(h, after)), Digests(h, after)))
  }

  predicate HasDuplicate(keys: seq<string>) {
    exists i, j :: 0 <= i < j < |keys| && keys[i] == keys[j]
  }

  /** The retirements that have a row: two that name one row are refused, one that names none is skipped. */
  function Wanted(removals: seq<Removal>, keys: seq<string>, acc: map<string, string>): Outcome<map<string, string>> {
    if removals == [] then Ok(acc)
    else
      var r := removals[0];
      if r.filePath in acc then Refused
      else if r.filePath !in keys then Wanted(removals[1..], keys, acc)
      else Wanted(removals[1..], keys, acc[r.filePath := r.retiredId])
  }

  /** The removals, in the order of their rows. */
  function RemovedRows(keys: seq<string>, wanted: map<string, string>): seq<Removal> {
    if keys == [] then []
    else (if keys[0] in wanted then [Removal(keys[0], wanted[keys[0]])] else []) + RemovedRows(keys[1..], wanted)
  }

  /** `build_csv_transform`: removals first, then the retitles of the rows that survive them. */
  function BuildCsv(h: Hashes, blob: string, removals: seq<Removal>, profile: string, collapse: Option<Binding>)
    : Outcome<CsvDocument>
  {
    var (header, rows) :- Split(blob);
    var fields :- Fields(header);
    var k :- Column(fields, FILE_PATH);
    var t :- Column(fields, TITLE);
    var keys :- ReadKeys(rows, k, Refused);
    var _ :- Require(!HasDuplicate(keys));
    var wanted :- Wanted(removals, keys, map[]);
    ReadKeysIs(rows, k, Refused);
    var pass :- RetitlePass(h, Kept(rows, k, wanted.Keys), k, t);
    Ok(CsvDocument(Describe(h, TRANSFORM_KIND, blob, header, rows, fields, pass.0, pass.1), profile, collapse,
                   SortBy(FILE, RemovedRows(keys, wanted))))
  }

  /** `_asset_count_digest`: a row too short counts as empty. */
  function CountColumn(rows: seq<string>, a: nat): Outcome<seq<string>> {
    if rows == [] then Ok([])
    else
      var f :- Fields(rows[0]);
      var tail :- CountColumn(rows[1..], a);
      Ok([if a < |f| then f[a] else ""] + tail)
  }

  function Widest(k: nat, t: nat, a: nat): nat {
    Max(Max(k, t), a)
  }

  /** `build_groups_transform`. */
  function BuildGroups(h: Hashes, blob: string): Outcome<GroupsDocument> {
    var (header, rows) :- Split(blob);
    var fields :- Fields(header);
    var k :- Column(fields, GROUP_ID);
    var t :- Column(fields, TITLE);
    var a :- Column(fields, ASSET_COUNT);
    var _ :- ReadKeys(rows, Widest(k, t, a), Refused);
    var keys :- ReadKeys(rows, k, Refused);
    var _ :- Require("" !in keys);
    var _ :- Require(!HasDuplicate(keys));
    var pass :- RetitlePass(h, rows, k, t);
    var counts :- CountColumn(rows, a);
    Ok(GroupsDocument(Describe(h, GROUPS_TRANSFORM_KIND, blob, header, rows, fields, pass.0, pass.1), false, ASSET_COUNT,
                      h.column(counts)))
  }

  // ----- parsing: what a document must satisfy on its own -----

  predicate FrameParses(h: Hashes, f: Frame, kind: string) {
    && f.kind == kind && f.version == TRANSFORM_VERSION
    && f.header.fields != [] && f.header.count == |f.header.fields|
    && f.expected.rows == |f.expected.rowDigests|
    && f.expected.ordered == h.ordered(f.expected.rowDigests)
  }

  /** `_parse_retitle_section`, one entry. */
  predicate RetitleParses(f: Frame, e: Retitle) {
    && e.key != "" && HasTitleSeparator(e.before) && e.after == AssetTitle(e.before)
    && e.rowBefore != e.rowAfter && e.rowAfter in f.expected.rowDigests
  }

  predicate RetitlesParse(h: Hashes, f: Frame) {
    && f.rule == h.rule
    && (forall e :: e in f.retitles ==> RetitleParses(f, e))
    && DistinctKeys(KEY, f.retitles) && Sorted(KEY, f.retitles)
  }

  const ID: string -> string := (s: string) => s
  const RETIRED: Removal -> string := (r: Removal) => r.retiredId

  predicate BindingParses(b: Binding) {
    b.entries == |b.retiredIds| && "" !in b.retiredIds && Sorted(ID, b.retiredIds) && DistinctKeys(ID, b.retiredIds)
  }

  /** `parse_csv_transform` accepts the document. */
  predicate CsvParses(h: Hashes, doc: CsvDocument) {
    && FrameParses(h, doc.frame, TRANSFORM_KIND)
    && FILE_PATH in doc.frame.header.fields && TITLE in doc.frame.header.fields
    && doc.profile != ""
    && (doc.collapse.Some? ==> BindingParses(doc.collapse.value))
    && (forall r :: r in doc.removals ==> r.filePath != "" && r.retiredId != "")
    && DistinctKeys(FILE, doc.removals) && DistinctKeys(RETIRED, doc.removals)
    && (doc.collapse.Some? ==> forall r :: r in doc.removals ==> r.retiredId in doc.collapse.value.retiredIds)
    && doc.frame.original.rows == doc.frame.expected.rows + |doc.removals|
    && RetitlesParse(h, doc.frame)
    && (forall e, r :: e in doc.frame.retitles && r in doc.removals ==> e.key != r.filePath)
  }

  /** `parse_groups_transform` accepts the document. */
  predicate GroupsParses(h: Hashes, doc: GroupsDocument) {
    && FrameParses(h, doc.frame, GROUPS_TRANSFORM_KIND)
    && GROUP_ID in doc.frame.header.fields && TITLE in doc.frame.header.fields && ASSET_COUNT in doc.frame.header.fields
    && !doc.hasRemovals && doc.frame.original.rows == doc.frame.expected.rows && doc.countColumn == ASSET_COUNT
    && RetitlesParse(h, doc.frame)
  }

  // ----- applying -----

  function Paths(removals: seq<Removal>): set<string> {
    set r | r in removals :: r.filePath
  }

  /** `_apply_retitles`, with its refusals. */
  function ApplyRetitles(h: Hashes, rows: seq<string>, retitles: seq<Retitle>, fields: seq<string>, column: string)
    : Outcome<(seq<string>, seq<Reason>)>
  {
    if column !in fields || TITLE !in fields then Ok((rows, [NoColumn]))
    else
      var k, t := IndexOf(fields, column), IndexOf(fields, TITLE);
      var applied :- ApplyRows(h, rows, retitles, k, t);
      ApplyRowsAt(h, rows, retitles, k, t);
      Ok((RowsOf(applied), If(Missed(rows, applied, retitles, k) != {}, RetitleAbsent) + If(AnyBad(applied), RetitleMismatch)))
  }

  /** The file after, or nothing with the reasons. */
  function Written(header: string, applied: (seq<string>, seq<Reason>)): (string, seq<Reason>) {
    if applied.1 != [] then ("", applied.1) else (Join(header, applied.0), [])
  }

  /** `transform_csv`: the file afterwards, or the reasons why nothing may be written. */
  function TransformCsv(h: Hashes, blob: string, doc: CsvDocument): Outcome<(string, seq<Reason>)> {
    if h.sha(blob) != doc.frame.original.sha then Ok(("", [WrongOriginal]))
    else
      var (header, rows) :- Split(blob);
      var fields :- Fields(header);
      var k :- Column(fields, FILE_PATH);
      if fields != doc.frame.header.fields then Ok(("", [HeaderMismatch]))
      else
        var keys :- ReadKeys(rows, k, Crashed);
        var gone := Paths(doc.removals);
        if !(forall p :: p in gone ==> p in keys) then Ok(("", [RemovalAbsent]))
        else
          ReadKeysIs(rows, k, Crashed);
          var applied :- ApplyRetitles(h, Kept(rows, k, gone), doc.frame.retitles, fields, FILE_PATH);
          Ok(Written(header, applied))
  }

  /** `transform_groups`. */
  function TransformGroups(h: Hashes, blob: string, doc: GroupsDocument): Outcome<(string, seq<Reason>)> {
    if h.sha(blob) != doc.frame.original.sha then Ok(("", [WrongOriginal]))
    else
      var (header, rows) :- Split(blob);
      var fields :- Fields(header);
      if fields != doc.frame.header.fields then Ok(("", [HeaderMismatch]))
      else
        var applied :- ApplyRetitles(h, rows, doc.frame.retitles, fields, GROUP_ID);
        Ok(Written(header, applied))
  }

  // ----- recomputing -----

  /** The key of a row, empty when the row is too short. */
  function PaddedKeys(rows: seq<string>, k: nat): Outcome<seq<string>> {
    CountColumn(rows, k)
  }

  /** The rows whose key, at the same position of `keys`, is not excluded. */
  function Survivors(rows: seq<string>, keys: seq<string>, excluded: set<string>): seq<string>
    requires |keys| == |rows|
  {
    if rows == [] then []
    else (if keys[0] in excluded then [] else [rows[0]]) + Survivors(rows[1..], keys[1..], excluded)
  }

  /** The comparison of documented with required retitles. */
  function RetitleDifferences(want: seq<Retitle>, got: seq<Retitle>, known: seq<string>, excluded: set<string>): seq<Reason> {
    var extra := set e | e in got && Find(want, e.key).None? :: e.key;
    If(exists e :: e in want && Find(got, e.key).None?, MissingRetitle)
    + If(exists x :: x in extra && x in excluded, RemovedRetitle)
    + If(exists x :: x in extra && x !in known, UnknownRetitle)
    + If(exists x :: x in extra && x in known && x !in excluded, PlainRetitle)
    + If(exists e :: e in want && Find(got, e.key).Some? && Find(want, e.key) != Find(got, e.key), DifferentRetitle)
  }

  lemma {:induction false} CountColumnLength(rows: seq<string>, a: nat)
    ensures CountColumn(rows, a).Ok? ==> |CountColumn(rows, a).value| == |rows|
  {
    hide Fields;
    if rows != [] { CountColumnLength(rows[1..], a); }
  }

  /** The retitles the frozen bytes require: of every punctuated row outside `excluded`. */
  function Required(h: Hashes, original: string, column: string, excluded: set<string>): Outcome<(seq<string>, seq<Retitle>)> {
    var (header, rows) :- Split(original);
    var fields :- Fields(header);
    var k :- Column(fields, column);
    var t :- Column(fields, TITLE);
    var keys :- PaddedKeys(rows, k);
    CountColumnLength(rows, k);
    var pass :- RetitlePass(h, Survivors(rows, keys, excluded), k, t);
    Ok((keys, pass.1))
  }

  /** `retitle_recomputation_refusals`. */
  function Recomputation(h: Hashes, retitles: seq<Retitle>, original: string, column: string, excluded: set<string>)
    : Outcome<seq<Reason>>
  {
    match Required(h, original, column, excluded)
    case Crashed => Crashed
    case Refused => Ok([UnreadableOriginal])
    case Ok(want) => Ok(RetitleDifferences(want.1, retitles, want.0, excluded))
  }

  // ----- verifying -----

  /** The rows with a key, among those long enough to have a key and a title. */
  function Hits(rows: seq<string>, k: nat, t: nat, key: string): seq<string> {
    if rows == [] then []
    else (if Readable(rows[0], Max(k, t)) && Field(rows[0], k) == key then [rows[0]] else []) + Hits(rows[1..], k, t, key)
  }

  /** What the file alone proves about one documented retitle. */
  function EntryReasons(h: Hashes, rows: seq<string>, e: Retitle, k: nat, t: nat): Outcome<seq<Reason>> {
    var hits := Hits(rows, k, t, e.key);
    if |hits| != 1 then Ok([NotOneRow])
    else
      var row := hits[0];
      var back := Retitled(row, t, e.before);
      if back.Crashed? || !Readable(row, t) then Crashed
      else Ok(If(Field(row, t) != e.after, WrongTitle) + If(h.sha(row) != e.rowAfter, WrongRowBytes)
              + If(back.Refused? || h.sha(back.value) != e.rowBefore, ChangedOutsideTitle))
  }

  function AllEntryReasons(h: Hashes, rows: seq<string>, retitles: seq<Retitle>, k: nat, t: nat): Outcome<seq<Reason>> {
    if retitles == [] then Ok([])
    else
      var head :- EntryReasons(h, rows, retitles[0], k, t);
      var tail :- AllEntryReasons(h, rows, retitles[1..], k, t);
      Ok(head + tail)
  }

  predicate TitleBroken(row: string, k: nat, t: nat) {
    Readable(row, Max(k, t)) && Punctuated(row, t)
  }

  /** `_post_retitle_refusals`. */
  function PostRetitle(h: Hashes, retitles: seq<Retitle>, fields: seq<string>, rows: seq<string>, column: string)
    : Outcome<seq<Reason>>
  {
    if column !in fields || TITLE !in fields then Ok([NoColumn])
    else
      var k, t := IndexOf(fields, column), IndexOf(fields, TITLE);
      if exists i :: 0 <= i < |rows| && !Fields(rows[i]).Ok? then Crashed
      else
        var entries :- AllEntryReasons(h, rows, retitles, k, t);
        Ok(If(exists i :: 0 <= i < |rows| && TitleBroken(rows[i], k, t), TitlePunctuated) + entries)
  }

  /** The checks of a split file against the shared sections. */
  function FileReasons(h: Hashes, f: Frame, blob: string, header: string, rows: seq<string>, fields: seq<string>): seq<Reason> {
    (if h.sha(header) != f.header.sha then [HeaderChanged] else If(fields != f.header.fields, HeaderFieldsChanged))
    + If(|rows| != f.expected.rows, RowCount)
    + If(Digests(h, rows) != f.expected.rowDigests, RowDigests)
    + If(h.ordered(Digests(h, rows)) != f.expected.ordered, OrderedDigest)
    + If(h.sha(blob) != f.expected.sha, WholeDigest)
  }

  /** The full proof, when the frozen original is at hand (`_against_original`). */
  function AgainstOriginal(h: Hashes, f: Frame, blob: string, original: string, applied: Outcome<(string, seq<Reason>)>,
                           recomputed: Outcome<seq<Reason>>): Outcome<seq<Reason>>
  {
    if h.sha(original) != f.original.sha then Ok([NotTheOriginal])
    else
      var result :- applied;
      var again :- recomputed;
      Ok((if result.1 != [] then result.1 else If(result.0 != blob, NotProduced)) + again)
  }

  predicate StillThere(rows: seq<string>, k: nat, removals: seq<Removal>) {
    exists i :: 0 <= i < |rows| && Readable(rows[i], k) && Field(rows[i], k) in Paths(removals)
  }

  /** `verify_csv_transform`: every way the bytes fail to be the documented transform. */
  function VerifyCsv(h: Hashes, doc: CsvDocument, blob: string, original: Option<string>): Outcome<seq<Reason>> {
    var still := If(h.sha(blob) == doc.frame.original.sha && (doc.removals != [] || doc.frame.retitles != []), StillOriginal);
    match Split(blob)
    case Crashed => Crashed
    case Refused => Ok(still + [Unsplittable])
    case Ok((header, rows)) =>
      var fields :- Fields(header);
      if FILE_PATH in fields && exists i :: 0 <= i < |rows| && !Fields(rows[i]).Ok? then Crashed
      else
        var post :- PostRetitle(h, doc.frame.retitles, fields, rows, FILE_PATH);
        var full :- if original.None? then Ok([])
                    else AgainstOriginal(h, doc.frame, blob, original.value, TransformCsv(h, original.value, doc),
                                         Recomputation(h, doc.frame.retitles, original.value, FILE_PATH, Paths(doc.removals)));
        Ok(still + FileReasons(h, doc.frame, blob, header, rows, fields)
           + If(FILE_PATH in fields && StillThere(rows, IndexOf(fields, FILE_PATH), doc.removals), StillPresent)
           + post + full)
  }

  /** `verify_groups_transform`. */
  function VerifyGroups(h: Hashes, doc: GroupsDocument, blob: string, original: Option<string>): Outcome<seq<Reason>> {
    var still := If(h.sha(blob) == doc.frame.original.sha && doc.frame.retitles != [], StillOriginal);
    match Split(blob)
    case Crashed => Crashed
    case Refused => Ok(still + [Unsplittable])
    case Ok((header, rows)) =>
      var fields :- Fields(header);
      var counts :- if ASSET_COUNT in fields then CountColumn(rows, IndexOf(fields, ASSET_COUNT)) else Ok([]);
      var post :- PostRetitle(h, doc.frame.retitles, fields, rows, GROUP_ID);
      var full :- if original.None? then Ok([])
                  else AgainstOriginal(h, doc.frame, blob, original.value, TransformGroups(h, original.value, doc),
                                       Recomputation(h, doc.frame.retitles, original.value, GROUP_ID, {}));
      Ok(still + FileReasons(h, doc.frame, blob, header, rows, fields)
         + (if ASSET_COUNT in fields then If(h.column(counts) != doc.countDigest, AssetCountChanged) else [NoColumn])
         + post + full)
  }
}
