/** Binding a metadata.csv document to the collapse document in hand, and the theorem that authority is recomputation
    (section 2b of `seed/scripts/preserved_archive.py`). */
module CsvBinding {
  import opened Sequences
  import opened Outcomes
  import opened Sorting
  import opened TitleRule
  import opened CsvSplit
  import opened CsvReader
  import opened CsvRetitle
  import opened CsvRows
  import opened CsvTable
  import opened CsvDocuments
  import opened CsvAgreement
  import opened CsvAuthority

  /** A validated collapse document, as far as the CSV is concerned: the retired file and id of every entry, and the
      bytes of the document. */
  datatype Collapse = Collapse(profile: string, entries: seq<Removal>, raw: string)

  function RetiredIds(entries: seq<Removal>): (ids: seq<string>)
    ensures |ids| == |entries|
  {
    if entries == [] then [] else [entries[0].retiredId] + RetiredIds(entries[1..])
  }

  /** `collapse_binding`. */
  function BindingOf(h: Hashes, c: Collapse): Binding {
    Binding(c.profile, h.sha(c.raw), |c.entries|, SortBy(ID, RetiredIds(c.entries)))
  }

  /** The entries whose file has a row. */
  function Present(entries: seq<Removal>, keys: seq<string>): seq<Removal> {
    if entries == [] then []
    else (if entries[0].filePath in keys then [entries[0]] else []) + Present(entries[1..], keys)
  }

  /** The values of a column, of the rows long enough to have one. */
  function PresentKeys(rows: seq<string>, k: nat): Outcome<seq<string>> {
    if rows == [] then Ok([])
    else
      var f :- Fields(rows[0]);
      var tail :- PresentKeys(rows[1..], k);
      Ok((if k < |f| then [f[k]] else []) + tail)
  }

  /** `authorized_removals`. */
  function Authorized(entries: seq<Removal>, blob: string): Outcome<seq<Removal>> {
    var (header, rows) :- Split(blob);
    var fields :- Fields(header);
    var k :- Column(fields, FILE_PATH);
    var keys :- PresentKeys(rows, k);
    Ok(SortBy(FILE, Present(entries, keys)))
  }

  /** `binding_refusals`. */
  function BindingReasons(h: Hashes, doc: CsvDocument, profile: string, collapse: Option<Collapse>, blob: Option<string>)
    : Outcome<seq<Reason>>
  {
    var named := If(doc.profile != profile, WrongProfile);
    if collapse.None? then
      Ok(named + If(doc.collapse.Some?, NoCollapseDocument) + If(doc.removals != [], UnauthorisedRemovals))
    else if doc.collapse.None? then Ok(named + [NoBinding])
    else
      var want, has := BindingOf(h, collapse.value), doc.collapse.value;
      var identity := named + If(has.sha != want.sha, StaleBinding) + If(has.profile != want.profile, BindingProfile)
                      + If(has.retiredIds != want.retiredIds, BindingIds) + If(has.entries != want.entries, BindingEntries);
      if blob.None? then Ok(identity)
      else
        match Authorized(collapse.value.entries, blob.value)
        case Crashed => Crashed
        case Refused => Ok(identity + [UnreadableOriginal])
        case Ok(due) => Ok(identity + If(SortBy(FILE, doc.removals) != due, UnauthorisedRemovals))
  }

  /** `metadata_retitle_refusals`: the removal set comes from the collapse document, not from the transform. */
  function RetitleReasons(h: Hashes, doc: CsvDocument, blob: string, collapse: Option<Collapse>): Outcome<seq<Reason>> {
    if collapse.None? then Recomputation(h, doc.frame.retitles, blob, FILE_PATH, {})
    else
      match Authorized(collapse.value.entries, blob)
      case Crashed => Crashed
      case Refused => Ok([UnreadableOriginal])
      case Ok(removals) => Recomputation(h, doc.frame.retitles, blob, FILE_PATH, Paths(removals))
  }

  /** The removals a builder is given, and the binding it records. */
  function EntriesOf(collapse: Option<Collapse>): seq<Removal> {
    if collapse.None? then [] else collapse.value.entries
  }

  function BindingFor(h: Hashes, collapse: Option<Collapse>): Option<Binding> {
    if collapse.None? then None else Some(BindingOf(h, collapse.value))
  }

  // ----- the authorised removals are those the builder makes -----

  lemma {:induction false} PresentKeysIs(rows: seq<string>, k: nat, keys: seq<string>)
    requires |keys| == |rows| && forall i :: 0 <= i < |rows| ==> Readable(rows[i], k) && keys[i] == Field(rows[i], k)
    ensures PresentKeys(rows, k) == Ok(keys)
  {
    hide Fields;
    if rows != [] {
      assert forall i :: 0 <= i < |rows[1..]| ==> rows[1..][i] == rows[i + 1] && keys[1..][i] == keys[i + 1];
      PresentKeysIs(rows[1..], k, keys[1..]);
      assert keys == [keys[0]] + keys[1..];
    }
  }

  lemma {:induction false} PresentMember(entries: seq<Removal>, keys: seq<string>, r: Removal)
    ensures r in Present(entries, keys) <==> r in entries && r.filePath in keys
  {
    if entries != [] {
      PresentMember(entries[1..], keys, r);
      assert entries == [entries[0]] + entries[1..];
    }
  }

  lemma {:induction false} InsertWasDistinct(x: Removal, xs: seq<Removal>)
    requires DistinctKeys(FILE, Insert(FILE, x, xs))
    ensures DistinctKeys(FILE, xs) && forall y :: y in xs ==> FILE(y) != FILE(x)
  {
    var all := Insert(FILE, x, xs);
    hide Below;
    assert forall i :: 0 <= i < |all[1..]| ==> all[1..][i] == all[i + 1];
    if xs == [] || Below(FILE(x), FILE(xs[0])) {
      assert all[1..] == xs;
      forall y | y in xs ensures FILE(y) != FILE(x) {
        HeadKeyDiffers(FILE, all, y);
      }
    } else {
      var tail := Insert(FILE, x, xs[1..]);
      assert all[1..] == tail;
      InsertWasDistinct(x, xs[1..]);
      InsertMember(FILE, x, xs[1..], x);
      HeadKeyDiffers(FILE, all, x);
      assert xs == [xs[0]] + xs[1..];
      forall i | 0 <= i < |xs[1..]| ensures FILE(xs[1..][i]) != FILE(xs[0]) {
        InsertMember(FILE, x, xs[1..], xs[1..][i]);
        HeadKeyDiffers(FILE, all, xs[1..][i]);
      }
    }
  }

  lemma {:induction false} SortWasDistinct(xs: seq<Removal>)
    requires DistinctKeys(FILE, SortBy(FILE, xs))
    ensures DistinctKeys(FILE, xs)
  {
    if xs != [] {
      InsertWasDistinct(xs[0], SortBy(FILE, xs[1..]));
      SortWasDistinct(xs[1..]);
      forall i | 0 < i < |xs| ensures FILE(xs[i]) != FILE(xs[0]) {
        assert xs[i] == xs[1..][i - 1];
        SortMember(FILE, xs[1..], xs[i]);
      }
      forall i, j | 0 <= i < j < |xs| ensures FILE(xs[i]) != FILE(xs[j]) {
        if i > 0 { assert xs[i] == xs[1..][i - 1] && xs[j] == xs[1..][j - 1]; }
      }
    }
  }

  /** Retirements with a row each of their own are all wanted. */
  lemma {:induction false} WantedSucceeds(entries: seq<Removal>, keys: seq<string>, acc: map<string, string>)
    requires DistinctKeys(FILE, Present(entries, keys))
    requires forall p :: p in acc ==> p in keys && forall r :: r in Present(entries, keys) ==> r.filePath != p
    requires forall r :: r in entries && r.filePath in acc ==> r.filePath in keys
    ensures Wanted(entries, keys, acc).Ok?
    ensures var w := Wanted(entries, keys, acc).value;
            && (forall p :: p in w ==> p in keys)
            && (forall r: Removal :: (r.filePath in w && w[r.filePath] == r.retiredId)
                  <==> r in Present(entries, keys) || (r.filePath in acc && acc[r.filePath] == r.retiredId))
  {
    if entries != [] {
      var r, rest := entries[0], entries[1..];
      assert entries == [r] + rest;
      if r.filePath !in keys {
        assert Present(entries, keys) == [] + Present(rest, keys) == Present(rest, keys);
        WantedSucceeds(rest, keys, acc);
      } else {
        PresentMember(entries, keys, r);
        assert Present(entries, keys) == [r] + Present(rest, keys);
        assert forall i :: 0 <= i < |Present(rest, keys)| ==> Present(entries, keys)[i + 1] == Present(rest, keys)[i];
        forall q | q in Present(rest, keys) ensures q.filePath != r.filePath {
          assert Present(entries, keys)[1..] == Present(rest, keys);
          HeadKeyDiffers(FILE, Present(entries, keys), q);
        }
        WantedSucceeds(rest, keys, acc[r.filePath := r.retiredId]);
      }
    }
  }

  /** The builder's removals are the authorised ones. */
  lemma BuilderRemovals(entries: seq<Removal>, keys: seq<string>)
    requires !HasDuplicate(keys) && DistinctKeys(FILE, Present(entries, keys))
    ensures Wanted(entries, keys, map[]).Ok?
    ensures var w := Wanted(entries, keys, map[]).value;
            && (forall p :: p in w ==> p in keys)
            && SortBy(FILE, RemovedRows(keys, w)) == SortBy(FILE, Present(entries, keys))
  {
    hide Wanted, Sorted;
    WantedSucceeds(entries, keys, map[]);
    var w := Wanted(entries, keys, map[]).value;
    var made, due := RemovedRows(keys, w), Present(entries, keys);
    RemovedDistinct(keys, w);
    SortDistinct(FILE, made);
    SortDistinct(FILE, due);
    SortIsPermutation(FILE, made);
    SortIsPermutation(FILE, due);
    forall r ensures r in SortBy(FILE, made) <==> r in SortBy(FILE, due) {
      SortMember(FILE, made, r);
      SortMember(FILE, due, r);
      RemovedMembers(keys, w, r);
      PresentMember(entries, keys, r);
    }
    hide SortBy, RemovedRows, Present;
    SortedIsUnique(FILE, SortBy(FILE, made), SortBy(FILE, due));
  }

  // ----- the required retitles are the documented ones -----

  lemma {:induction false} FindUnique(retitles: seq<Retitle>, e: Retitle)
    requires DistinctKeys(KEY, retitles) && e in retitles
    ensures Find(retitles, e.key) == Some(e)
  {
    var found := Find(retitles, e.key);
    assert found.Some?;
    var i :| 0 <= i < |retitles| && retitles[i] == found.value;
    var j :| 0 <= j < |retitles| && retitles[j] == e;
    assert KEY(retitles[i]) == KEY(retitles[j]);
  }

  /** No difference between two sorted lists with distinct keys means that they are one list. */
  lemma NoDifferenceIsEqual(want: seq<Retitle>, got: seq<Retitle>, known: seq<string>, excluded: set<string>)
    requires RetitleDifferences(want, got, known, excluded) == []
    requires DistinctKeys(KEY, want) && Sorted(KEY, want) && DistinctKeys(KEY, got) && Sorted(KEY, got)
    ensures want == got
  {
    hide Find, Sorted;
    NoDifferenceMeans(want, got, known, excluded);
    forall e ensures e in want <==> e in got {
      if e in want { FindUnique(want, e); }
      if e in got {
        FindUnique(got, e);
        var w := Find(want, e.key);
        assert w.Some?;
        FindUnique(want, w.value);
      }
    }
    SortedIsUnique(KEY, want, got);
  }

  lemma NoDifferenceMeans(want: seq<Retitle>, got: seq<Retitle>, known: seq<string>, excluded: set<string>)
    requires RetitleDifferences(want, got, known, excluded) == []
    ensures forall e :: e in want ==> Find(got, e.key).Some? && Find(want, e.key) == Find(got, e.key)
    ensures forall e :: e in got ==> Find(want, e.key).Some?
  {
    hide Find;
    var extra := set e | e in got && Find(want, e.key).None? :: e.key;
    forall e | e in got ensures Find(want, e.key).Some? {
      assert Find(want, e.key).None? ==> e.key in extra;
    }
  }

  // ----- authority is recomputation -----

  /** Every row of the file has a path of its own, as far as the rows can be read. */
  ghost predicate UniqueFilePaths(blob: string) {
    forall header, rows, fields, keys ::
      Split(blob) == Ok((header, rows)) && Fields(header) == Ok(fields) && ReadKeys(rows, IndexOf(fields, FILE_PATH), Refused) == Ok(keys)
      ==> !HasDuplicate(keys)
  }

  lemma SortedPaths(removals: seq<Removal>)
    ensures Paths(SortBy(FILE, removals)) == Paths(removals)
  {
    forall p ensures p in Paths(SortBy(FILE, removals)) <==> p in Paths(removals) {
      if p in Paths(removals) {
        var r :| r in removals && r.filePath == p;
        SortMember(FILE, removals, r);
        assert r in SortBy(FILE, removals);
      }
      if p in Paths(SortBy(FILE, removals)) {
        var r :| r in SortBy(FILE, removals) && r.filePath == p;
        SortMember(FILE, removals, r);
      }
    }
  }

  // The binding proves the identity of the collapse document.
  lemma BoundIdentity(h: Hashes, doc: CsvDocument, profile: string, collapse: Option<Collapse>, blob: string)
    requires BindingReasons(h, doc, profile, collapse, Some(blob)) == Ok([])
    ensures doc.profile == profile && doc.collapse == BindingFor(h, collapse)
    ensures collapse.None? ==> doc.removals == []
    ensures collapse.Some? ==> Authorized(collapse.value.entries, blob) == Ok(SortBy(FILE, doc.removals))
  {
    hide Authorized, SortBy;
  }

  // The removals of an authorised document, in the builder's terms.
  lemma BoundRemovals(h: Hashes, doc: CsvDocument, profile: string, collapse: Option<Collapse>, blob: string,
                      header: string, rows: seq<string>, fields: seq<string>, keys: seq<string>)
    requires BindingReasons(h, doc, profile, collapse, Some(blob)) == Ok([]) && DistinctKeys(FILE, doc.removals)
    requires Split(blob) == Ok((header, rows)) && Fields(header) == Ok(fields) && FILE_PATH in fields
    requires ReadKeys(rows, IndexOf(fields, FILE_PATH), Refused) == Ok(keys) && !HasDuplicate(keys)
    ensures Wanted(EntriesOf(collapse), keys, map[]).Ok?
    ensures var w := Wanted(EntriesOf(collapse), keys, map[]).value;
            w.Keys == Paths(doc.removals) && SortBy(FILE, RemovedRows(keys, w)) == SortBy(FILE, doc.removals)
  {
    BoundIdentity(h, doc, profile, collapse, blob);
    hide BindingReasons, Split, Fields, IndexOf, ReadKeys, HasDuplicate;
    var entries := EntriesOf(collapse);
    if collapse.Some? {
      var k := IndexOf(fields, FILE_PATH);
      ReadKeysIs(rows, k, Refused);
      PresentKeysIs(rows, k, keys);
      SortDistinct(FILE, doc.removals);
      assert SortBy(FILE, Present(entries, keys)) == SortBy(FILE, doc.removals);
      SortWasDistinct(Present(entries, keys));
    } else {
      assert Present(entries, keys) == [];
    }
    BuilderRemovals(entries, keys);
    hide Wanted, SortBy, Paths;
    RemovedPaths(keys, Wanted(entries, keys, map[]).value);
    SortedPaths(doc.removals);
  }

  lemma BoundRecomputation(h: Hashes, doc: CsvDocument, profile: string, collapse: Option<Collapse>, blob: string)
    requires BindingReasons(h, doc, profile, collapse, Some(blob)) == Ok([]) && RetitleReasons(h, doc, blob, collapse) == Ok([])
    ensures Recomputation(h, doc.frame.retitles, blob, FILE_PATH, Paths(doc.removals)) == Ok([])
  {
    BoundIdentity(h, doc, profile, collapse, blob);
    SortedPaths(doc.removals);
    assert Paths([]) == {};
    hide BindingReasons, Authorized, Recomputation, SortBy, Paths;
  }

  // A recomputation that finds nothing: the pass succeeds, and its retitles are the documented ones.
  lemma RecomputedRetitles(h: Hashes, retitles: seq<Retitle>, blob: string, gone: set<string>, header: string,
                           rows: seq<string>, fields: seq<string>)
    requires Split(blob) == Ok((header, rows)) && Fields(header) == Ok(fields) && FILE_PATH in fields && TITLE in fields
    requires UniqueKeys(rows, IndexOf(fields, FILE_PATH))
    requires Recomputation(h, retitles, blob, FILE_PATH, gone) == Ok([])
    requires DistinctKeys(KEY, retitles) && Sorted(KEY, retitles)
    ensures var k, t := IndexOf(fields, FILE_PATH), IndexOf(fields, TITLE);
            var kept := Kept(rows, k, gone);
            AllPass(kept, k, t) && RetitlePass(h, kept, k, t) == Ok((NewRows(kept, k, t), retitles))
            && retitles == SortBy(KEY, Entries(h, kept, k, t))
  {
    hide Split, Fields, IndexOf, PassRows, Required, RetitleDifferences, Sorted, SortBy;
    var k, t := IndexOf(fields, FILE_PATH), IndexOf(fields, TITLE);
    var kept := Kept(rows, k, gone);
    RequiredIs(h, blob, FILE_PATH, gone, header, rows, fields);
    PassRowsIs(h, kept, k, t);
    KeptUnique(rows, k, gone);
    var want := Required(h, blob, FILE_PATH, gone).value;
    EntriesDistinct(h, kept, k, t);
    SortDistinct(KEY, Entries(h, kept, k, t));
    SortIsPermutation(KEY, Entries(h, kept, k, t));
    NoDifferenceIsEqual(want.1, retitles, want.0, gone);
  }

  lemma BuildSucceeds(h: Hashes, blob: string, removals: seq<Removal>, profile: string, collapse: Option<Binding>,
                      header: string, rows: seq<string>, fields: seq<string>, keys: seq<string>, pass: (seq<string>, seq<Retitle>))
    requires Split(blob) == Ok((header, rows)) && Fields(header) == Ok(fields) && FILE_PATH in fields && TITLE in fields
    requires ReadKeys(rows, IndexOf(fields, FILE_PATH), Refused) == Ok(keys) && !HasDuplicate(keys)
    requires Wanted(removals, keys, map[]).Ok?
    requires forall i :: 0 <= i < |rows| ==> Readable(rows[i], IndexOf(fields, FILE_PATH))
    requires var w := Wanted(removals, keys, map[]).value;
             RetitlePass(h, Kept(rows, IndexOf(fields, FILE_PATH), w.Keys), IndexOf(fields, FILE_PATH), IndexOf(fields, TITLE)) == Ok(pass)
    ensures BuildCsv(h, blob, removals, profile, collapse)
         == Ok(CsvDocument(Describe(h, TRANSFORM_KIND, blob, header, rows, fields, pass.0, pass.1), profile, collapse,
                           SortBy(FILE, RemovedRows(keys, Wanted(removals, keys, map[]).value))))
  {
    hide Split, Fields, IndexOf, ReadKeys, Wanted, RetitlePass, Describe, SortBy, Kept, HasDuplicate;
  }

  lemma CountRemoved(rows: seq<string>, k: nat, keys: seq<string>, wanted: map<string, string>, removals: seq<Removal>)
    requires |keys| == |rows| && forall i :: 0 <= i < |rows| ==> Readable(rows[i], k) && keys[i] == Field(rows[i], k)
    requires SortBy(FILE, RemovedRows(keys, wanted)) == SortBy(FILE, removals)
    ensures |Kept(rows, k, wanted.Keys)| + |removals| == |rows|
  {
    CountKept(rows, k, keys, wanted);
    SortMembers(FILE, RemovedRows(keys, wanted));
    SortMembers(FILE, removals);
  }

  // What the builder makes of the inputs of an authorised document.
  lemma AuthorisedBuild(h: Hashes, doc: CsvDocument, profile: string, collapse: Option<Collapse>, blob: string,
                        header: string, rows: seq<string>, fields: seq<string>) returns (built: CsvDocument)
    requires DistinctKeys(FILE, doc.removals) && DistinctKeys(KEY, doc.frame.retitles) && Sorted(KEY, doc.frame.retitles)
    requires UniqueFilePaths(blob)
    requires BindingReasons(h, doc, profile, collapse, Some(blob)) == Ok([])
    requires RetitleReasons(h, doc, blob, collapse) == Ok([])
    requires Split(blob) == Ok((header, rows)) && Fields(header) == Ok(fields) && FILE_PATH in fields && TITLE in fields
    requires forall i :: 0 <= i < |rows| ==> Readable(rows[i], IndexOf(fields, FILE_PATH))
    ensures BuildCsv(h, blob, EntriesOf(collapse), profile, BindingFor(h, collapse)) == Ok(built)
    ensures built.profile == profile && built.collapse == BindingFor(h, collapse)
    ensures built.removals == SortBy(FILE, doc.removals)
    ensures var k, t := IndexOf(fields, FILE_PATH), IndexOf(fields, TITLE);
            var kept := Kept(rows, k, Paths(doc.removals));
            && AllPass(kept, k, t) && UniqueKeys(kept, k) && doc.frame.retitles == SortBy(KEY, Entries(h, kept, k, t))
            && |kept| + |doc.removals| == |rows|
            && built.frame == Describe(h, TRANSFORM_KIND, blob, header, rows, fields, NewRows(kept, k, t), doc.frame.retitles)
  {
    hide Fields, Split, IndexOf, BindingReasons, RetitleReasons, Recomputation, BuildCsv, ReadKeys, Wanted,
         HasDuplicate, SortBy, Sorted, Paths, PassRows, Describe, Kept, RetitlePass;
    var k, t := IndexOf(fields, FILE_PATH), IndexOf(fields, TITLE);
    ReadKeysIs(rows, k, Refused);
    var keys := ReadKeys(rows, k, Refused).value;
    KeysAreUnique(rows, k, keys);
    BoundRemovals(h, doc, profile, collapse, blob, header, rows, fields, keys);
    BoundRecomputation(h, doc, profile, collapse, blob);
    RecomputedRetitles(h, doc.frame.retitles, blob, Paths(doc.removals), header, rows, fields);
    KeptUnique(rows, k, Paths(doc.removals));
    CountRemoved(rows, k, keys, Wanted(EntriesOf(collapse), keys, map[]).value, doc.removals);
    var pass := (NewRows(Kept(rows, k, Paths(doc.removals)), k, t), doc.frame.retitles);
    BuildSucceeds(h, blob, EntriesOf(collapse), profile, BindingFor(h, collapse), header, rows, fields, keys, pass);
    built := BuildCsv(h, blob, EntriesOf(collapse), profile, BindingFor(h, collapse)).value;
  }

  lemma ParsedLists(h: Hashes, doc: CsvDocument)
    requires CsvParses(h, doc)
    ensures DistinctKeys(FILE, doc.removals) && DistinctKeys(KEY, doc.frame.retitles) && Sorted(KEY, doc.frame.retitles)
  {
  }

  /** Authority is recomputation. For every file whose rows have paths of their own, every collapse document and every
      transform document that parses, a self-consistent wrong one included: if the binding, the recomputation of the
      retitles and the application all pass, then the builder, given the same inputs, succeeds, writes the same bytes,
      and documents the same removals and retitles. */
  lemma AuthorityIsRecomputation(h: Hashes, doc: CsvDocument, profile: string, collapse: Option<Collapse>, blob: string, after: string)
    requires CsvParses(h, doc) && UniqueFilePaths(blob)
    requires BindingReasons(h, doc, profile, collapse, Some(blob)) == Ok([])
    requires RetitleReasons(h, doc, blob, collapse) == Ok([])
    requires TransformCsv(h, blob, doc) == Ok((after, []))
    ensures BuildCsv(h, blob, EntriesOf(collapse), profile, BindingFor(h, collapse)).Ok?
    ensures var built := BuildCsv(h, blob, EntriesOf(collapse), profile, BindingFor(h, collapse)).value;
            && TransformCsv(h, blob, built) == Ok((after, [])) && built.frame.expected.sha == h.sha(after)
            && doc.profile == built.profile && doc.collapse == built.collapse
            && SortBy(FILE, doc.removals) == built.removals && doc.frame.retitles == built.frame.retitles
            && doc.frame.original.sha == built.frame.original.sha && doc.frame.header.fields == built.frame.header.fields
  {
    hide Fields, Split, IndexOf, TransformCsv, BindingReasons, RetitleReasons, BuildCsv, CsvParses, UniqueFilePaths,
         SortBy, Sorted, Paths, ApplyRows, Kept, Missed, AnyBad, AllPass, DistinctKeys;
    ParsedLists(h, doc);
    var header, rows, fields, applied := TransformSteps(h, blob, doc);
    var built := AuthorisedBuild(h, doc, profile, collapse, blob, header, rows, fields);
    BoundIdentity(h, doc, profile, collapse, blob);
    SameApplication(h, doc, Kept(rows, IndexOf(fields, FILE_PATH), Paths(doc.removals)), IndexOf(fields, FILE_PATH), IndexOf(fields, TITLE));
    SortedPaths(doc.removals);
    var header', rows', fields' := BuiltCsvDescribes(h, blob, EntriesOf(collapse), profile, BindingFor(h, collapse));
    TransformDescribed(h, built, blob, header, rows, fields);
  }

  /** The document with the byte counts a builder would record. */
  function Measured(doc: CsvDocument, before: int, after: int): CsvDocument {
    doc.(frame := doc.frame.(original := doc.frame.original.(bytes := before), expected := doc.frame.expected.(bytes := after)))
  }

  lemma FrameIsDescribed(h: Hashes, doc: CsvDocument, blob: string, x: string, header: string, rows: seq<string>,
                         fields: seq<string>, after: seq<string>)
    requires FileReasons(h, doc.frame, x, header, after, fields) == [] && x == Join(header, after)
    requires doc.frame.kind == TRANSFORM_KIND && doc.frame.version == TRANSFORM_VERSION && doc.frame.rule == h.rule
    requires doc.frame.header.count == |doc.frame.header.fields|
    requires doc.frame.original.sha == h.sha(blob) && doc.frame.original.rows == |rows|
    ensures Measured(doc, |blob|, |x|).frame == Describe(h, TRANSFORM_KIND, blob, header, rows, fields, after, doc.frame.retitles)
    ensures doc.frame.expected.rows == |after|
  {
    hide Join, Digests;
  }

  lemma ParsedFacts(h: Hashes, doc: CsvDocument)
    requires CsvParses(h, doc)
    ensures doc.frame.kind == TRANSFORM_KIND && doc.frame.version == TRANSFORM_VERSION && doc.frame.rule == h.rule
    ensures doc.frame.header.count == |doc.frame.header.fields|
    ensures doc.frame.original.rows == doc.frame.expected.rows + |doc.removals|
  {
  }

  /** When the verifier accepts the result as well, the document is the one the builder would emit, field by field,
      but for the order of its removals and for the two byte counts, which nothing checks. */
  lemma AcceptedIsBuilt(h: Hashes, doc: CsvDocument, profile: string, collapse: Option<Collapse>, blob: string, after: string)
    requires CsvParses(h, doc) && UniqueFilePaths(blob)
    requires BindingReasons(h, doc, profile, collapse, Some(blob)) == Ok([])
    requires RetitleReasons(h, doc, blob, collapse) == Ok([])
    requires VerifyCsv(h, doc, after, Some(blob)) == Ok([])
    ensures BuildCsv(h, blob, EntriesOf(collapse), profile, BindingFor(h, collapse))
         == Ok(Measured(doc.(removals := SortBy(FILE, doc.removals)), |blob|, |after|))
  {
    var xHeader, xRows, xFields := VerifiedParts(h, doc, after, blob);
    hide *;
    ParsedLists(h, doc);
    ParsedFacts(h, doc);
    var header, rows, fields, applied := TransformSteps(h, blob, doc);
    var built := AuthorisedBuild(h, doc, profile, collapse, blob, header, rows, fields);
    BoundIdentity(h, doc, profile, collapse, blob);
    var k, t, gone := IndexOf(fields, FILE_PATH), IndexOf(fields, TITLE), Paths(doc.removals);
    var kept := Kept(rows, k, gone);
    SameApplication(h, doc, kept, k, t);
    PassIsRewrite(kept, k, t);
    ResplitsExactly(blob, header, rows, k, gone, NewRows(kept, k, t), t);
    assert xHeader == header && xRows == NewRows(kept, k, t);
    RowsExpected(h, doc, after, xHeader, xRows, xFields);
    FrameIsDescribed(h, doc, blob, after, header, rows, fields, xRows);
    MeasuredIs(doc, built, |blob|, |after|);
  }

  lemma RowsExpected(h: Hashes, doc: CsvDocument, x: string, header: string, rows: seq<string>, fields: seq<string>)
    requires FileReasons(h, doc.frame, x, header, rows, fields) == []
    ensures doc.frame.expected.rows == |rows|
  {
    hide Digests;
  }

  lemma MeasuredIs(doc: CsvDocument, built: CsvDocument, before: int, after: int)
    requires built.profile == doc.profile && built.collapse == doc.collapse && built.removals == SortBy(FILE, doc.removals)
    requires built.frame == Measured(doc, before, after).frame
    ensures built == Measured(doc.(removals := SortBy(FILE, doc.removals)), before, after)
  {
    hide SortBy;
  }

  /** The byte counts are recorded and never checked: no check of a document or of a file depends on them. */
  lemma ByteCountsUnchecked(h: Hashes, doc: CsvDocument, before: int, after: int, blob: string, profile: string,
                            collapse: Option<Collapse>, original: Option<string>)
    ensures var other := Measured(doc, before, after);
            && (CsvParses(h, other) <==> CsvParses(h, doc))
            && BindingReasons(h, other, profile, collapse, Some(blob)) == BindingReasons(h, doc, profile, collapse, Some(blob))
            && RetitleReasons(h, other, blob, collapse) == RetitleReasons(h, doc, blob, collapse)
            && TransformCsv(h, blob, other) == TransformCsv(h, blob, doc)
            && VerifyCsv(h, other, blob, original) == VerifyCsv(h, doc, blob, original)
  {
    hide Fields, Split, IndexOf, ApplyRetitles, SortBy, Recomputation, PostRetitle, Digests, Authorized, ReadKeys;
    var other := Measured(doc, before, after);
    assert FrameParses(h, other.frame, TRANSFORM_KIND) <==> FrameParses(h, doc.frame, TRANSFORM_KIND);
    assert forall e :: RetitleParses(other.frame, e) <==> RetitleParses(doc.frame, e);
    assert RetitlesParse(h, other.frame) <==> RetitlesParse(h, doc.frame);
    if original.Some? { assert TransformCsv(h, original.value, other) == TransformCsv(h, original.value, doc); }
  }

  lemma SameApplication(h: Hashes, doc: CsvDocument, kept: seq<string>, k: nat, t: nat)
    requires AllPass(kept, k, t) && UniqueKeys(kept, k) && doc.frame.retitles == SortBy(KEY, Entries(h, kept, k, t))
    ensures ApplyRows(h, kept, doc.frame.retitles, k, t).Ok?
    ensures RowsOf(ApplyRows(h, kept, doc.frame.retitles, k, t).value) == NewRows(kept, k, t)
  {
    hide Fields, Retitled, HasTitleSeparator, AssetTitle, ApplyRow, Find, SortBy, Entries;
    var entries := Entries(h, kept, k, t);
    forall e ensures e in doc.frame.retitles <==> e in entries {
      SortMember(KEY, entries, e);
    }
    ApplyIsPass(h, kept, doc.frame.retitles, k, t);
  }
}