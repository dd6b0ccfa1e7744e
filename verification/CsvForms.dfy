/** What the parsers and the builders accept, spelled out: in the keys of the documents, and in the rows of the files. */
module CsvForms {
  import opened Sequences
  import opened Outcomes
  import opened Sorting
  import opened TitleRule
  import opened CsvSplit
  import opened CsvReader
  import opened CsvRetitle
  import opened CsvRows
  import opened CsvTable
  import opened CsvDocuments
  import opened CsvAgreement
  import opened CsvBinding
  import opened CsvProgress

  /** One documented retitle: a key, a title that breaks the rule and what the rule makes of it, and two digests, the second
      of a row that is expected. */
  predicate RetitleForm(f: Frame, e: Retitle) {
    && e.key != "" && HasMark(e.before) && e.after == AssetTitle(e.before)
    && e.rowBefore != e.rowAfter && e.rowAfter in f.expected.rowDigests
  }

  /** The retitles: under this rule, in strictly increasing order of their keys. */
  ghost predicate RetitlesForm(h: Hashes, f: Frame) {
    && f.rule == h.rule && (forall e :: e in f.retitles ==> RetitleForm(f, e))
    && forall i, j :: 0 <= i < j < |f.retitles| ==> Below(f.retitles[i].key, f.retitles[j].key) && f.retitles[i].key != f.retitles[j].key
  }

  predicate FrameForm(h: Hashes, f: Frame, kind: string) {
    && f.kind == kind && f.version == 2
    && f.header.fields != [] && f.header.count == |f.header.fields|
    && f.expected.rows == |f.expected.rowDigests| && f.expected.ordered == h.ordered(f.expected.rowDigests)
  }

  /** The binding: as many retired ids as entries, none empty, in strictly increasing order. */
  predicate BindingForm(b: Binding) {
    && b.entries == |b.retiredIds| && "" !in b.retiredIds
    && forall i, j :: 0 <= i < j < |b.retiredIds| ==> Below(b.retiredIds[i], b.retiredIds[j]) && b.retiredIds[i] != b.retiredIds[j]
  }

  /** The removals: whole, no file and no record twice, each of a record the binding retires. */
  ghost predicate RemovalsForm(removals: seq<Removal>, binding: Option<Binding>) {
    && (forall r :: r in removals ==> r.filePath != "" && r.retiredId != "")
    && (forall i, j :: 0 <= i < j < |removals| ==> removals[i].filePath != removals[j].filePath && removals[i].retiredId != removals[j].retiredId)
    && (binding.Some? ==> forall r :: r in removals ==> r.retiredId in binding.value.retiredIds)
  }

  lemma RetitlesIff(h: Hashes, f: Frame)
    ensures RetitlesParse(h, f) <==> RetitlesForm(h, f)
  {
    StrictlySortedIff(KEY, f.retitles);
    forall e | e in f.retitles ensures RetitleParses(f, e) <==> RetitleForm(f, e) {
      AssetTitleHolds(e.before);
    }
    hide Sorted, DistinctKeys, RetitleParses, RetitleForm, Below;
  }

  lemma BindingIff(b: Binding)
    ensures BindingParses(b) <==> BindingForm(b)
  {
    StrictlySortedIff(ID, b.retiredIds);
    hide Sorted, DistinctKeys, Below;
  }

  /** `parse_csv_transform`, exactly. */
  lemma CsvParsesIff(h: Hashes, doc: CsvDocument)
    ensures CsvParses(h, doc) <==>
            && FrameForm(h, doc.frame, "metadata-csv-transform") && RetitlesForm(h, doc.frame)
            && "file_path" in doc.frame.header.fields && "title" in doc.frame.header.fields
            && doc.profile != "" && (doc.collapse.Some? ==> BindingForm(doc.collapse.value))
            && RemovalsForm(doc.removals, doc.collapse)
            && doc.frame.original.rows == doc.frame.expected.rows + |doc.removals|
            && forall e, r :: e in doc.frame.retitles && r in doc.removals ==> e.key != r.filePath
  {
    RetitlesIff(h, doc.frame);
    if doc.collapse.Some? { BindingIff(doc.collapse.value); }
    hide RetitlesParse, RetitlesForm, BindingParses, BindingForm;
  }

  /** The parser of groups documents, exactly. */
  lemma GroupsParsesIff(h: Hashes, doc: GroupsDocument)
    ensures GroupsParses(h, doc) <==>
            && FrameForm(h, doc.frame, "groups-csv-retitle") && RetitlesForm(h, doc.frame)
            && "group_id" in doc.frame.header.fields && "title" in doc.frame.header.fields && "asset_count" in doc.frame.header.fields
            && !doc.hasRemovals && doc.frame.original.rows == doc.frame.expected.rows && doc.countColumn == "asset_count"
  {
    RetitlesIff(h, doc.frame);
    hide RetitlesParse, RetitlesForm;
  }

  // ----- what the builders accept -----

  /** The column of a name: the first field that is it. */
  predicate IsColumn(fields: seq<string>, name: string, i: nat) {
    i < |fields| && fields[i] == name && forall j :: 0 <= j < i ==> fields[j] != name
  }

  lemma {:induction false} ColumnIs(fields: seq<string>, name: string)
    ensures name in fields <==> IsColumn(fields, name, IndexOf(fields, name))
    ensures forall i: nat :: IsColumn(fields, name, i) ==> i == IndexOf(fields, name)
  {
    if fields != [] && fields[0] != name { ColumnIs(fields[1..], name); }
  }

  /** The rows can be keyed and retitled: each has the columns, none of its key is another's, and a title that breaks the rule
      can be rewritten. */
  ghost predicate RowsForm(rows: seq<string>, k: nat, t: nat) {
    && (forall i :: 0 <= i < |rows| ==> Fields(rows[i]).Ok? && k < |Fields(rows[i]).value| && t < |Fields(rows[i]).value|)
    && (forall i, j :: 0 <= i < j < |rows| ==> Fields(rows[i]).value[k] != Fields(rows[j]).value[k])
    && (forall i :: 0 <= i < |rows| && HasMark(Fields(rows[i]).value[t]) ==> Retitled(rows[i], t, AssetTitle(Fields(rows[i]).value[t])).Ok?)
  }

  lemma RowsFormIs(rows: seq<string>, k: nat, t: nat)
    ensures RowsForm(rows, k, t) <==> AllPass(rows, k, t) && UniqueKeys(rows, k)
  {
    forall i | 0 <= i < |rows| && Readable(rows[i], t) ensures Punctuated(rows[i], t) <==> HasMark(Field(rows[i], t)) {
      AssetTitleHolds(Field(rows[i], t));
    }
    hide Fields, Retitled, HasTitleSeparator, AssetTitle, HasMark;
  }

  /** The checks of the builder, one by one. */
  ghost predicate GroupsPass(h: Hashes, header: string, rows: seq<string>, fields: seq<string>, k: nat, t: nat, a: nat) {
    && ReadKeys(rows, Widest(k, t, a), Refused).Ok? && ReadKeys(rows, k, Refused).Ok?
    && "" !in ReadKeys(rows, k, Refused).value && !HasDuplicate(ReadKeys(rows, k, Refused).value)
    && RetitlePass(h, rows, k, t).Ok? && CountColumn(rows, a).Ok?
  }

  lemma GroupsBuildIs(h: Hashes, blob: string, header: string, rows: seq<string>, fields: seq<string>)
    requires Split(blob) == Ok((header, rows)) && Fields(header) == Ok(fields)
    ensures BuildGroups(h, blob).Ok? <==>
            && GROUP_ID in fields && TITLE in fields && ASSET_COUNT in fields
            && GroupsPass(h, header, rows, fields, IndexOf(fields, GROUP_ID), IndexOf(fields, TITLE), IndexOf(fields, ASSET_COUNT))
  {
    hide Split, Fields, IndexOf, ReadKeys, RetitlePass, CountColumn, Describe, HasDuplicate, Widest;
  }

  lemma GroupsPassIff(h: Hashes, header: string, rows: seq<string>, fields: seq<string>, k: nat, t: nat, a: nat)
    ensures GroupsPass(h, header, rows, fields, k, t, a) <==>
            RowsForm(rows, k, t) && forall i :: 0 <= i < |rows| ==> a < |Fields(rows[i]).value| && Fields(rows[i]).value[k] != ""
  {
    ReadKeysIs(rows, Widest(k, t, a), Refused);
    ReadKeysIs(rows, k, Refused);
    RowsFormIs(rows, k, t);
    PassIs(h, rows, k, t);
    if AllPass(rows, k, t) && UniqueKeys(rows, k) && forall i :: 0 <= i < |rows| ==> Readable(rows[i], a) { PaddedAreKeys(rows, a); }
    var read := ReadKeys(rows, k, Refused);
    if read.Ok? { KeysAreUnique(rows, k, read.value); }
    hide Fields, ReadKeys, RetitlePass, CountColumn, RowsForm, AllPass, HasDuplicate, UniqueKeys;
    if read.Ok? && "" !in read.value {
      forall i | 0 <= i < |rows| ensures Field(rows[i], k) != "" {
        assert read.value[i] in read.value;
      }
    }
    if RowsForm(rows, k, t) && forall i :: 0 <= i < |rows| ==> a < |Fields(rows[i]).value| && Fields(rows[i]).value[k] != "" {
      LongRows(rows, k, t, a);
    }
  }

  lemma PassIs(h: Hashes, rows: seq<string>, k: nat, t: nat)
    ensures RetitlePass(h, rows, k, t).Ok? <==> AllPass(rows, k, t)
  {
    PassRowsIs(h, rows, k, t);
    hide PassRows, AllPass, SortBy;
  }

  lemma LongRows(rows: seq<string>, k: nat, t: nat, a: nat)
    requires RowsForm(rows, k, t) && forall i :: 0 <= i < |rows| ==> a < |Fields(rows[i]).value|
    ensures forall i :: 0 <= i < |rows| ==> Readable(rows[i], Widest(k, t, a)) && Readable(rows[i], k) && Readable(rows[i], a)
  {
    hide Fields, Retitled, HasMark, AssetTitle;
  }

  /** `build_groups_transform` succeeds, exactly, on a file that splits into these rows. */
  lemma GroupsBuildIff(h: Hashes, blob: string, header: string, rows: seq<string>, fields: seq<string>, k: nat, t: nat, a: nat)
    requires Split(blob) == Ok((header, rows)) && Fields(header) == Ok(fields)
    requires IsColumn(fields, "group_id", k) && IsColumn(fields, "title", t) && IsColumn(fields, "asset_count", a)
    ensures BuildGroups(h, blob).Ok? <==>
            RowsForm(rows, k, t) && forall i :: 0 <= i < |rows| ==> a < |Fields(rows[i]).value| && Fields(rows[i]).value[k] != ""
  {
    ColumnIs(fields, "group_id");
    ColumnIs(fields, "title");
    ColumnIs(fields, "asset_count");
    hide Split, Fields, IndexOf, BuildGroups, GroupsPass, RowsForm;
    GroupsBuildIs(h, blob, header, rows, fields);
    GroupsPassIff(h, header, rows, fields, k, t, a);
  }

  /** A metadata.csv that can be described with the removals: it splits, it has the two columns, every row has a path of its own,
      no two removals name the same row, and every row that stays can be retitled. */
  ghost predicate CsvForm(blob: string, removals: seq<Removal>, header: string, rows: seq<string>, fields: seq<string>, k: nat, t: nat) {
    && Split(blob) == Ok((header, rows)) && Fields(header) == Ok(fields)
    && IsColumn(fields, "file_path", k) && IsColumn(fields, "title", t)
    && (forall i :: 0 <= i < |rows| ==> Fields(rows[i]).Ok? && k < |Fields(rows[i]).value|)
    && (forall i, j :: 0 <= i < j < |rows| ==> Fields(rows[i]).value[k] != Fields(rows[j]).value[k])
    && (forall m, n, i :: 0 <= m < n < |removals| && 0 <= i < |rows| && removals[m].filePath == Fields(rows[i]).value[k]
                          ==> removals[n].filePath != removals[m].filePath)
    && (forall i :: 0 <= i < |rows| && (forall r :: r in removals ==> r.filePath != Fields(rows[i]).value[k]) ==> Stays(rows[i], k, t))
  }

  /** The row has a title, and one that breaks the rule can be rewritten. */
  ghost predicate Stays(row: string, k: nat, t: nat) {
    && Fields(row).Ok? && t < |Fields(row).value| && k < |Fields(row).value|
    && (HasMark(Fields(row).value[t]) ==> Retitled(row, t, AssetTitle(Fields(row).value[t])).Ok?)
  }

  lemma StaysIff(row: string, k: nat, t: nat)
    ensures Stays(row, k, t) <==> Passes(row, k, t)
  {
    if Readable(row, t) { AssetTitleHolds(Field(row, t)); }
    hide Fields, Retitled, HasTitleSeparator, AssetTitle, HasMark;
  }

  lemma {:induction false} PresentDistinctIff(removals: seq<Removal>, keys: seq<string>)
    ensures DistinctKeys(FILE, Present(removals, keys)) <==>
            forall m, n :: 0 <= m < n < |removals| && removals[m].filePath in keys ==> removals[n].filePath != removals[m].filePath
  {
    if removals != [] {
      var (r, rest) := (removals[0], removals[1..]);
      PresentDistinctIff(rest, keys);
      assert forall i :: 0 <= i < |rest| ==> rest[i] == removals[i + 1];
      forall q ensures q in Present(rest, keys) <==> q in rest && q.filePath in keys {
        PresentMember(rest, keys, q);
      }
      if r.filePath in keys {
        assert Present(removals, keys) == [r] + Present(rest, keys);
        assert DistinctKeys(FILE, [r] + Present(rest, keys)) <==>
               DistinctKeys(FILE, Present(rest, keys)) && forall q :: q in Present(rest, keys) ==> q.filePath != r.filePath by {
          ConsDistinct(r, Present(rest, keys));
        }
      } else {
        assert Present(removals, keys) == [] + Present(rest, keys) == Present(rest, keys);
      }
    }
  }

  lemma ConsDistinct(r: Removal, rest: seq<Removal>)
    ensures DistinctKeys(FILE, [r] + rest) <==> DistinctKeys(FILE, rest) && forall q :: q in rest ==> q.filePath != r.filePath
  {
    var all := [r] + rest;
    assert forall i :: 0 <= i < |rest| ==> all[i + 1] == rest[i];
    if DistinctKeys(FILE, all) {
      forall i, j | 0 <= i < j < |rest| ensures FILE(rest[i]) != FILE(rest[j]) {
        assert FILE(all[i + 1]) != FILE(all[j + 1]);
      }
      forall q | q in rest ensures q.filePath != r.filePath {
        var i :| 0 <= i < |rest| && rest[i] == q;
        assert FILE(all[0]) != FILE(all[i + 1]);
      }
    }
  }

  lemma WantedIff(removals: seq<Removal>, keys: seq<string>)
    ensures Wanted(removals, keys, map[]).Ok? <==>
            forall m, n :: 0 <= m < n < |removals| && removals[m].filePath in keys ==> removals[n].filePath != removals[m].filePath
  {
    PresentDistinctIff(removals, keys);
    if Wanted(removals, keys, map[]).Ok? { WantedAreDistinct(removals, keys, map[]); }
    if DistinctKeys(FILE, Present(removals, keys)) { WantedSucceeds(removals, keys, map[]); }
    hide Wanted, DistinctKeys, Present;
  }

  lemma {:induction false} KeptMembers(rows: seq<string>, k: nat, gone: set<string>, row: string)
    requires forall i :: 0 <= i < |rows| ==> Readable(rows[i], k)
    ensures row in Kept(rows, k, gone) <==> row in rows && Readable(row, k) && Field(row, k) !in gone
  {
    hide Fields;
    if rows != [] {
      assert forall i :: 0 <= i < |rows[1..]| ==> rows[1..][i] == rows[i + 1];
      KeptMembers(rows[1..], k, gone, row);
      assert rows == [rows[0]] + rows[1..];
    }
  }

  /** The rows that stay pass, exactly where the rows no removal names do. */
  lemma KeptPassIff(rows: seq<string>, k: nat, t: nat, gone: set<string>)
    requires forall i :: 0 <= i < |rows| ==> Readable(rows[i], k)
    ensures AllPass(Kept(rows, k, gone), k, t) <==> forall i :: 0 <= i < |rows| && Field(rows[i], k) !in gone ==> Stays(rows[i], k, t)
  {
    hide Stays, Passes, Fields;
    var kept := Kept(rows, k, gone);
    forall i | 0 <= i < |rows| ensures rows[i] in kept <==> Field(rows[i], k) !in gone {
      KeptMembers(rows, k, gone, rows[i]);
    }
    forall row ensures Stays(row, k, t) <==> Passes(row, k, t) {
      StaysIff(row, k, t);
    }
    forall i | 0 <= i < |kept| ensures kept[i] in rows && Field(kept[i], k) !in gone {
      KeptMembers(rows, k, gone, kept[i]);
    }
  }

  /** What the builder finds of the file, before the removals. */
  ghost predicate Keyed(blob: string, header: string, rows: seq<string>, fields: seq<string>, keys: seq<string>) {
    && Split(blob) == Ok((header, rows)) && Fields(header) == Ok(fields) && FILE_PATH in fields && TITLE in fields
    && ReadKeys(rows, IndexOf(fields, FILE_PATH), Refused) == Ok(keys) && !HasDuplicate(keys)
  }

  lemma BuildsIff(h: Hashes, blob: string, removals: seq<Removal>, profile: string, collapse: Option<Binding>,
                  header: string, rows: seq<string>, fields: seq<string>, keys: seq<string>)
    requires Keyed(blob, header, rows, fields, keys) && forall i :: 0 <= i < |rows| ==> Readable(rows[i], IndexOf(fields, FILE_PATH))
    ensures BuildCsv(h, blob, removals, profile, collapse).Ok? <==>
            && Wanted(removals, keys, map[]).Ok?
            && AllPass(Kept(rows, IndexOf(fields, FILE_PATH), Wanted(removals, keys, map[]).value.Keys), IndexOf(fields, FILE_PATH), IndexOf(fields, TITLE))
  {
    hide Split, Fields, IndexOf, ReadKeys, Wanted, PassRows, Describe, SortBy, Kept, HasDuplicate, RemovedRows, AllPass;
    if Wanted(removals, keys, map[]).Ok? {
      PassRowsIs(h, Kept(rows, IndexOf(fields, FILE_PATH), Wanted(removals, keys, map[]).value.Keys), IndexOf(fields, FILE_PATH), IndexOf(fields, TITLE));
    }
  }

  lemma {:induction false} WantedKeys(removals: seq<Removal>, keys: seq<string>, acc: map<string, string>)
    requires Wanted(removals, keys, acc).Ok?
    ensures forall p :: p in Wanted(removals, keys, acc).value <==> p in acc || (p in keys && exists r :: r in removals && r.filePath == p)
  {
    if removals != [] && removals[0].filePath !in acc {
      var (r, rest) := (removals[0], removals[1..]);
      WantedKeys(rest, keys, if r.filePath in keys then acc[r.filePath := r.retiredId] else acc);
      assert removals == [r] + rest;
    }
  }

  lemma KeyedForm(blob: string, header: string, rows: seq<string>, fields: seq<string>)
    requires Split(blob) == Ok((header, rows)) && Fields(header) == Ok(fields) && FILE_PATH in fields && TITLE in fields
    ensures var k := IndexOf(fields, FILE_PATH);
            (exists keys :: Keyed(blob, header, rows, fields, keys)) <==> UniqueKeys(rows, k)
    ensures IsColumn(fields, "file_path", IndexOf(fields, FILE_PATH)) && IsColumn(fields, "title", IndexOf(fields, TITLE))
  {
    var k := IndexOf(fields, FILE_PATH);
    ColumnIs(fields, "file_path");
    ColumnIs(fields, "title");
    ReadKeysIs(rows, k, Refused);
    var read := ReadKeys(rows, k, Refused);
    if read.Ok? {
      KeysAreUnique(rows, k, read.value);
      assert !HasDuplicate(read.value) ==> Keyed(blob, header, rows, fields, read.value);
    }
    hide Split, Fields, IndexOf, ReadKeys, HasDuplicate, IsColumn;
  }

  /** `build_csv_transform` succeeds, exactly, on a file that splits into these rows. */
  lemma CsvBuildIff(h: Hashes, blob: string, removals: seq<Removal>, profile: string, collapse: Option<Binding>,
                    header: string, rows: seq<string>, fields: seq<string>, k: nat, t: nat)
    requires Split(blob) == Ok((header, rows)) && Fields(header) == Ok(fields)
    requires IsColumn(fields, "file_path", k) && IsColumn(fields, "title", t)
    ensures BuildCsv(h, blob, removals, profile, collapse).Ok? <==> CsvForm(blob, removals, header, rows, fields, k, t)
  {
    hide *;
    ColumnIs(fields, "file_path");
    ColumnIs(fields, "title");
    ColumnsAre(fields, k, t);
    KeyedForm(blob, header, rows, fields);
    CsvFormIs(blob, removals, header, rows, fields, k, t);
    if UniqueKeys(rows, k) {
      var keys :| Keyed(blob, header, rows, fields, keys);
      KeyedKeys(blob, header, rows, fields, keys);
      BuildsIff(h, blob, removals, profile, collapse, header, rows, fields, keys);
      RemovalsFormIff(removals, rows, k, t, keys);
    } else if BuildCsv(h, blob, removals, profile, collapse).Ok? {
      BuiltIsKeyed(h, blob, removals, profile, collapse, header, rows, fields);
    }
  }

  lemma ColumnsAre(fields: seq<string>, k: nat, t: nat)
    requires IsColumn(fields, "file_path", k) && IsColumn(fields, "title", t)
    ensures FILE_PATH in fields && TITLE in fields && k == IndexOf(fields, FILE_PATH) && t == IndexOf(fields, TITLE)
  {
    ColumnIs(fields, "file_path");
    ColumnIs(fields, "title");
  }

  lemma KeyedKeys(blob: string, header: string, rows: seq<string>, fields: seq<string>, keys: seq<string>)
    requires Keyed(blob, header, rows, fields, keys)
    ensures var k := IndexOf(fields, FILE_PATH);
            && (forall i :: 0 <= i < |rows| ==> Readable(rows[i], k))
            && |keys| == |rows| && forall i :: 0 <= i < |rows| ==> keys[i] == Field(rows[i], k)
  {
    ReadKeysIs(rows, IndexOf(fields, FILE_PATH), Refused);
    hide Split, Fields, ReadKeys, IndexOf;
  }

  lemma BuiltIsKeyed(h: Hashes, blob: string, removals: seq<Removal>, profile: string, collapse: Option<Binding>,
                     header: string, rows: seq<string>, fields: seq<string>)
    requires BuildCsv(h, blob, removals, profile, collapse).Ok?
    requires Split(blob) == Ok((header, rows)) && Fields(header) == Ok(fields) && TITLE in fields
    ensures exists keys :: Keyed(blob, header, rows, fields, keys)
  {
    hide BuildCsv, Split, Fields, IndexOf, ReadKeys, HasDuplicate, Wanted;
    var header', rows', fields', keys := BuiltFrom(h, blob, removals, profile, collapse);
    assert Keyed(blob, header, rows, fields, keys);
  }

  lemma CsvFormIs(blob: string, removals: seq<Removal>, header: string, rows: seq<string>, fields: seq<string>, k: nat, t: nat)
    requires Split(blob) == Ok((header, rows)) && Fields(header) == Ok(fields)
    requires IsColumn(fields, "file_path", k) && IsColumn(fields, "title", t)
    ensures CsvForm(blob, removals, header, rows, fields, k, t) <==>
            && UniqueKeys(rows, k)
            && (forall m, n, i :: 0 <= m < n < |removals| && 0 <= i < |rows| && removals[m].filePath == Field(rows[i], k)
                                  ==> removals[n].filePath != removals[m].filePath)
            && (forall i :: 0 <= i < |rows| && (forall r :: r in removals ==> r.filePath != Field(rows[i], k)) ==> Stays(rows[i], k, t))
  {
    hide Split, Fields, IsColumn, Stays;
  }

  /** The part of the form that is about the removals. */
  lemma RemovalsFormIff(removals: seq<Removal>, rows: seq<string>, k: nat, t: nat, keys: seq<string>)
    requires UniqueKeys(rows, k) && |keys| == |rows| && forall i :: 0 <= i < |rows| ==> keys[i] == Field(rows[i], k)
    ensures Wanted(removals, keys, map[]).Ok? && AllPass(Kept(rows, k, Wanted(removals, keys, map[]).value.Keys), k, t) <==>
            && (forall m, n, i :: 0 <= m < n < |removals| && 0 <= i < |rows| && removals[m].filePath == Field(rows[i], k)
                                  ==> removals[n].filePath != removals[m].filePath)
            && (forall i :: 0 <= i < |rows| && (forall r :: r in removals ==> r.filePath != Field(rows[i], k)) ==> Stays(rows[i], k, t))
  {
    hide Fields, Stays, AllPass, Wanted, Kept;
    WantedIff(removals, keys);
    assert forall p :: p in keys <==> exists i :: 0 <= i < |rows| && p == Field(rows[i], k);
    if Wanted(removals, keys, map[]).Ok? {
      WantedKeys(removals, keys, map[]);
      var gone := Wanted(removals, keys, map[]).value.Keys;
      KeptPassIff(rows, k, t, gone);
      forall i | 0 <= i < |rows| ensures Field(rows[i], k) in gone <==> exists r :: r in removals && r.filePath == Field(rows[i], k) {
        assert keys[i] in keys;
      }
    }
  }
}
