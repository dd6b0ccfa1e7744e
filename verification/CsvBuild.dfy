/** The loops of `build_csv_transform` and `transform_csv`, and when a built document can be read back. */
module CsvBuild {
  import opened Sequences
  import opened Outcomes
  import opened Sorting
  import opened TitleRule
  import opened CsvSplit
  import opened CsvReader
  import opened CsvRetitle
  import opened CsvRows
  import opened CsvTable
  import opened CsvDocuments
  import opened CsvAgreement

  lemma {:induction false} DuplicateCount(keys: seq<string>)
    ensures HasDuplicate(keys) <==> exists key :: key in multiset(keys) && multiset(keys)[key] > 1
  {
    if keys != [] {
      var n := |keys| - 1;
      var init, last := keys[..n], keys[n];
      assert keys == init + [last];
      DuplicateCount(init);
      assert multiset(keys) == multiset(init) + multiset{last};
      assert last in init <==> last in multiset(init);
      if key :| key in multiset(init) && multiset(init)[key] > 1 {
        assert multiset(keys)[key] > 1;
      }
      if last in init {
        assert multiset(keys)[last] > 1;
        var i :| 0 <= i < |init| && init[i] == last;
        assert keys[i] == keys[n];
      }
    }
  }

  function Append(keys: seq<string>, rest: Outcome<seq<string>>): Outcome<seq<string>> {
    var r :- rest;
    Ok(keys + r)
  }

  lemma ReadKeysStep(rows: seq<string>, k: nat, short: Outcome<string>, keys: seq<string>, i: nat)
    requires i < |rows| && short.IsFailure()
    ensures var f := Fields(rows[i]);
            Append(keys, ReadKeys(rows[i..], k, short))
            == if f.IsFailure() then f.PropagateFailure()
               else if |f.value| <= k then short.PropagateFailure()
               else Append(keys + [f.value[k]], ReadKeys(rows[i + 1..], k, short))
  {
    hide Fields;
    assert rows[i..][0] == rows[i] && rows[i..][1..] == rows[i + 1..];
    var f, rest := Fields(rows[i]), ReadKeys(rows[i + 1..], k, short);
    if f.Ok? && k < |f.value| && rest.Ok? { Associative(keys, [f.value[k]], rest.value); }
  }

  /** The cardinality loop: the key of every row, and how often each occurs. */
  method CountKeys(rows: seq<string>, k: nat) returns (r: Outcome<seq<string>>, seen: multiset<string>)
    ensures r == ReadKeys(rows, k, Refused)
    ensures r.Ok? ==> seen == multiset(r.value)
  {
    hide Fields, ReadKeys;
    var keys: seq<string> := [];
    seen := multiset{};
    ReadKeysBegins(rows, k);
    for i := 0 to |rows|
      invariant seen == multiset(keys)
      invariant ReadKeys(rows, k, Refused) == Append(keys, ReadKeys(rows[i..], k, Refused))
    {
      ReadKeysStep(rows, k, Refused, keys, i);
      var f := Fields(rows[i]);
      if f.IsFailure() {
        return f.PropagateFailure(), seen;
      }
      if |f.value| <= k {
        return Refused, seen;
      }
      keys := keys + [f.value[k]];
      seen := seen + multiset{f.value[k]};
    }
    assert keys + [] == keys;
    return Ok(keys), seen;
  }

  lemma ReadKeysBegins(rows: seq<string>, k: nat)
    ensures ReadKeys(rows, k, Refused) == Append([], ReadKeys(rows[0..], k, Refused))
    ensures ReadKeys(rows[|rows|..], k, Refused) == Ok([])
  {
    assert rows[0..] == rows;
    var r := ReadKeys(rows, k, Refused);
    hide ReadKeys;
    if r.Ok? { assert [] + r.value == r.value; }
  }

  /** The loop over the retirements. */
  method CollectWanted(removals: seq<Removal>, keys: seq<string>) returns (r: Outcome<map<string, string>>)
    ensures r == Wanted(removals, keys, map[])
  {
    var wanted: map<string, string> := map[];
    for i := 0 to |removals|
      invariant Wanted(removals, keys, map[]) == Wanted(removals[i..], keys, wanted)
    {
      var one := removals[i];
      assert removals[i..][0] == one && removals[i..][1..] == removals[i + 1..];
      if one.filePath in wanted {
        return Refused;
      }
      if one.filePath !in keys {
        continue;
      }
      wanted := wanted[one.filePath := one.retiredId];
    }
    return Ok(wanted);
  }

  ghost predicate AllReadable(rows: seq<string>, k: nat) {
    forall j :: 0 <= j < |rows| ==> Readable(rows[j], k)
  }

  lemma RetainStep(rows: seq<string>, k: nat, keys: seq<string>, wanted: map<string, string>, i: nat)
    requires |keys| == |rows| && (forall j :: 0 <= j < |rows| ==> Readable(rows[j], k) && keys[j] == Field(rows[j], k))
    requires i < |rows|
    ensures AllReadable(rows[i..], k) && AllReadable(rows[i + 1..], k)
    ensures Kept(rows[i..], k, wanted.Keys) == (if keys[i] in wanted then [] else [rows[i]]) + Kept(rows[i + 1..], k, wanted.Keys)
    ensures RemovedRows(keys[i..], wanted)
         == (if keys[i] in wanted then [Removal(keys[i], wanted[keys[i]])] else []) + RemovedRows(keys[i + 1..], wanted)
  {
    assert rows[i..][0] == rows[i] && rows[i..][1..] == rows[i + 1..];
    assert keys[i..][0] == keys[i] && keys[i..][1..] == keys[i + 1..];
  }

  /** The removal loop: the rows that stay, and the removals in row order. */
  method Retain(rows: seq<string>, k: nat, keys: seq<string>, wanted: map<string, string>)
    returns (retained: seq<string>, removed: seq<Removal>)
    requires |keys| == |rows| && (forall j :: 0 <= j < |rows| ==> Readable(rows[j], k) && keys[j] == Field(rows[j], k))
    ensures retained == Kept(rows, k, wanted.Keys) && removed == RemovedRows(keys, wanted)
  {
    hide Readable;
    retained, removed := [], [];
    assert rows[0..] == rows && keys[0..] == keys;
    for i := 0 to |rows|
      invariant AllReadable(rows[i..], k)
      invariant Kept(rows, k, wanted.Keys) == retained + Kept(rows[i..], k, wanted.Keys)
      invariant RemovedRows(keys, wanted) == removed + RemovedRows(keys[i..], wanted)
    {
      RetainStep(rows, k, keys, wanted, i);
      hide Kept, RemovedRows;
      var path := keys[i];
      if path in wanted {
        Associative(removed, [Removal(path, wanted[path])], RemovedRows(keys[i + 1..], wanted));
        removed := removed + [Removal(path, wanted[path])];
        assert [] + Kept(rows[i + 1..], k, wanted.Keys) == Kept(rows[i + 1..], k, wanted.Keys);
      } else {
        Associative(retained, [rows[i]], Kept(rows[i + 1..], k, wanted.Keys));
        retained := retained + [rows[i]];
        assert [] + RemovedRows(keys[i + 1..], wanted) == RemovedRows(keys[i + 1..], wanted);
      }
    }
    assert retained + [] == retained && removed + [] == removed;
  }

  /** `build_csv_transform`. */
  method BuildCsvTransform(h: Hashes, blob: string, removals: seq<Removal>, profile: string, collapse: Option<Binding>)
    returns (r: Outcome<CsvDocument>)
    ensures r == BuildCsv(h, blob, removals, profile, collapse)
  {
    hide Split, Fields, RetitlePass, ReadKeys, Kept, RemovedRows, SortBy, Describe;
    var split := SplitCsvRecords(blob);
    var parts :- split;
    var (header, rows) := parts;
    var fields :- Fields(header);
    var k :- Column(fields, FILE_PATH);
    var t :- Column(fields, TITLE);
    var read, seen := CountKeys(rows, k);
    var keys :- read;
    ReadKeysIs(rows, k, Refused);
    DuplicateCount(keys);
    if exists key :: key in seen && seen[key] > 1 {
      return Refused;
    }
    var collected := CollectWanted(removals, keys);
    var wanted :- collected;
    var retained, removed := Retain(rows, k, keys, wanted);
    var passed := RunRetitlePass(h, retained, k, t);
    var pass :- passed;
    return Ok(CsvDocument(Describe(h, TRANSFORM_KIND, blob, header, rows, fields, pass.0, pass.1), profile, collapse,
                          SortBy(FILE, removed)));
  }

  lemma RetainBegins(rows: seq<string>, k: nat, gone: set<string>)
    ensures rows[0..] == rows && Append([], ReadKeys(rows, k, Crashed)) == ReadKeys(rows, k, Crashed)
  {
    var r := ReadKeys(rows, k, Crashed);
    if r.Ok? { assert [] + r.value == r.value; }
  }

  /** The loop of `transform_csv`: the key of every row read, and the rows that stay. */
  method RetainSurvivors(rows: seq<string>, k: nat, gone: set<string>)
    returns (r: Outcome<seq<string>>, retained: seq<string>)
    ensures r == ReadKeys(rows, k, Crashed)
    ensures r.Ok? ==> (forall j :: 0 <= j < |rows| ==> Readable(rows[j], k)) && retained == Kept(rows, k, gone)
  {
    hide Fields, ReadKeys;
    var keys: seq<string> := [];
    retained := [];
    RetainBegins(rows, k, gone);
    for i := 0 to |rows|
      invariant ReadKeys(rows, k, Crashed) == Append(keys, ReadKeys(rows[i..], k, Crashed))
      invariant AllReadable(rows[..i], k)
      invariant retained == Kept(rows[..i], k, gone)
    {
      ReadKeysStep(rows, k, Crashed, keys, i);
      var f := Fields(rows[i]);
      if f.IsFailure() {
        return f.PropagateFailure(), retained;
      }
      if |f.value| <= k {
        return Crashed, retained;
      }
      KeptSnoc(rows, k, gone, i);
      keys := keys + [f.value[k]];
      if f.value[k] !in gone {
        retained := retained + [rows[i]];
      }
    }
    assert rows[..|rows|] == rows && keys + [] == keys;
    assert forall j :: 0 <= j < |rows| ==> Readable(rows[..|rows|][j], k);
    NoMoreKeys(rows, k);
    return Ok(keys), retained;
  }

  lemma NoMoreKeys(rows: seq<string>, k: nat)
    ensures ReadKeys(rows[|rows|..], k, Crashed) == Ok([])
  {
  }

  lemma {:induction false} KeptAppend(a: seq<string>, b: seq<string>, k: nat, gone: set<string>)
    requires (forall j :: 0 <= j < |a| ==> Readable(a[j], k)) && (forall j :: 0 <= j < |b| ==> Readable(b[j], k))
    ensures forall j :: 0 <= j < |a + b| ==> Readable((a + b)[j], k)
    ensures Kept(a + b, k, gone) == Kept(a, k, gone) + Kept(b, k, gone)
  {
    hide Readable;
    if a == [] {
      assert a + b == b;
    } else {
      assert forall j :: 0 <= j < |a[1..]| ==> a[1..][j] == a[j + 1];
      KeptAppend(a[1..], b, k, gone);
      assert (a + b)[0] == a[0] && (a + b)[1..] == a[1..] + b;
      Associative(if Field(a[0], k) in gone then [] else [a[0]], Kept(a[1..], k, gone), Kept(b, k, gone));
    }
  }

  lemma KeptSnoc(rows: seq<string>, k: nat, gone: set<string>, i: nat)
    requires i < |rows| && Readable(rows[i], k) && AllReadable(rows[..i], k)
    ensures AllReadable(rows[..i + 1], k)
    ensures Kept(rows[..i + 1], k, gone) == Kept(rows[..i], k, gone) + if Field(rows[i], k) in gone then [] else [rows[i]]
  {
    hide Readable;
    assert rows[..i + 1] == rows[..i] + [rows[i]];
    KeptAppend(rows[..i], [rows[i]], k, gone);
    assert [rows[i]][1..] == [];
  }

  /** `transform_csv`. */
  method ApplyCsvTransform(h: Hashes, blob: string, doc: CsvDocument) returns (r: Outcome<(string, seq<Reason>)>)
    ensures r == TransformCsv(h, blob, doc)
  {
    hide Split, Fields, ReadKeys, Kept, ApplyRows, Missed;
    if h.sha(blob) != doc.frame.original.sha {
      return Ok(("", [WrongOriginal]));
    }
    var split := SplitCsvRecords(blob);
    var parts :- split;
    var (header, rows) := parts;
    var fields :- Fields(header);
    var k :- Column(fields, FILE_PATH);
    if fields != doc.frame.header.fields {
      return Ok(("", [HeaderMismatch]));
    }
    var gone := Paths(doc.removals);
    var read, retained := RetainSurvivors(rows, k, gone);
    var keys :- read;
    if exists p :: p in gone && p !in keys {
      return Ok(("", [RemovalAbsent]));
    }
    assert forall p :: p in gone ==> p in keys;
    if TITLE !in fields {
      return Ok(("", [NoColumn]));
    }
    var t := IndexOf(fields, TITLE);
    var applied := RunApplyRetitles(h, retained, doc.frame.retitles, k, t);
    var done :- applied;
    ApplyRowsAt(h, retained, doc.frame.retitles, k, t);
    var reasons := If(Missed(retained, done, doc.frame.retitles, k) != {}, RetitleAbsent) + If(AnyBad(done), RetitleMismatch);
    return Ok(Written(header, (RowsOf(done), reasons)));
  }

  // ----- reading a built document back -----

  /** What a builder's inputs can still get wrong. */
  predicate InputsReadable(doc: CsvDocument) {
    && doc.profile != "" && (doc.collapse.Some? ==> BindingParses(doc.collapse.value))
    && (forall r :: r in doc.removals ==> r.filePath != "" && r.retiredId != "")
    && DistinctKeys(RETIRED, doc.removals)
    && (doc.collapse.Some? ==> forall r :: r in doc.removals ==> r.retiredId in doc.collapse.value.retiredIds)
    && (forall e :: e in doc.frame.retitles ==> e.key != "")
  }

  lemma {:induction false} EntryParses(h: Hashes, rows: seq<string>, k: nat, t: nat, f: Frame, e: Retitle)
    requires CollisionFree(h) && AllPass(rows, k, t) && e in Entries(h, rows, k, t)
    requires f.expected.rowDigests == Digests(h, NewRows(rows, k, t))
    ensures RetitleParses(f, e) <==> e.key != ""
    ensures exists i :: 0 <= i < |rows| && Readable(rows[i], k) && e.key == Field(rows[i], k)
  {
    EntryMembers(h, rows, k, t, e);
    hide Fields, Retitled, HasTitleSeparator, AssetTitle, Digests, Entries;
    var i :| 0 <= i < |rows| && Punctuated(rows[i], t) && e == Entry(h, rows[i], k, t);
    NewRowFields(rows[i], k, t);
    assert f.expected.rowDigests[i] == e.rowAfter;
    assert Readable(rows[i], k);
  }

  /** A built document reads back exactly when its inputs do: every check the parser makes of the frame, of the digests,
      of the retitles and of their disjointness from the removals holds of what the builder emits. */
  lemma BuiltParses(h: Hashes, blob: string, removals: seq<Removal>, profile: string, collapse: Option<Binding>)
    requires CollisionFree(h) && BuildCsv(h, blob, removals, profile, collapse).Ok?
    ensures var doc := BuildCsv(h, blob, removals, profile, collapse).value;
            CsvParses(h, doc) <==> InputsReadable(doc)
  {
    var header, rows, fields := BuiltCsvDescribes(h, blob, removals, profile, collapse);
    var doc := BuildCsv(h, blob, removals, profile, collapse).value;
    BuiltRemovals(h, blob, removals, profile, collapse, header, rows, fields);
    hide BuildCsv, Split, Fields, IndexOf, Sorted, SortBy, HasTitleSeparator, AssetTitle, Retitled, Passes, Entries, NewRows, Digests,
         DistinctKeys, BindingParses, Join;
    var k, t, gone := IndexOf(fields, FILE_PATH), IndexOf(fields, TITLE), Paths(doc.removals);
    var kept := Kept(rows, k, gone);
    KeptUnique(rows, k, gone);
    BuiltRetitles(h, doc.frame, kept, k, t);
    HeaderNotEmpty(fields);
    RetitlesAreNotRemoved(h, doc, rows, k, t);
    DescribedParses(h, blob, header, rows, fields, NewRows(kept, k, t), doc.frame);
    hide Describe;
    ParsesIffReadable(h, doc);
  }

  lemma DescribedParses(h: Hashes, blob: string, header: string, rows: seq<string>, fields: seq<string>, after: seq<string>, f: Frame)
    requires fields != [] && f == Describe(h, TRANSFORM_KIND, blob, header, rows, fields, after, f.retitles)
    ensures FrameParses(h, f, TRANSFORM_KIND) && f.header.fields == fields
    ensures f.original.rows == |rows| && f.expected.rows == |after|
  {
    hide Join, Digests;
  }

  lemma ParsesIffReadable(h: Hashes, doc: CsvDocument)
    requires FrameParses(h, doc.frame, TRANSFORM_KIND)
    requires FILE_PATH in doc.frame.header.fields && TITLE in doc.frame.header.fields
    requires DistinctKeys(FILE, doc.removals)
    requires doc.frame.original.rows == doc.frame.expected.rows + |doc.removals|
    requires RetitlesParse(h, doc.frame) <==> forall e :: e in doc.frame.retitles ==> e.key != ""
    requires forall e, r :: e in doc.frame.retitles && r in doc.removals ==> e.key != r.filePath
    ensures CsvParses(h, doc) <==> InputsReadable(doc)
  {
    hide FrameParses, DistinctKeys, RetitlesParse, BindingParses;
  }

  lemma RetitlesAreNotRemoved(h: Hashes, doc: CsvDocument, rows: seq<string>, k: nat, t: nat)
    requires CollisionFree(h) && UniqueKeys(rows, k)
    requires var kept := Kept(rows, k, Paths(doc.removals));
             && AllPass(kept, k, t) && doc.frame.retitles == SortBy(KEY, Entries(h, kept, k, t))
             && doc.frame.expected.rowDigests == Digests(h, NewRows(kept, k, t))
    ensures forall e, r :: e in doc.frame.retitles && r in doc.removals ==> e.key != r.filePath
  {
    hide Fields, SortBy, Retitled, Passes, Entries, NewRows, Digests;
    var kept := Kept(rows, k, Paths(doc.removals));
    forall e, r | e in doc.frame.retitles && r in doc.removals ensures e.key != r.filePath {
      SortMember(KEY, Entries(h, kept, k, t), e);
      EntryParses(h, kept, k, t, doc.frame, e);
      assert r.filePath in Paths(doc.removals);
    }
  }

  lemma HeaderNotEmpty(fields: seq<string>)
    requires FILE_PATH in fields
    ensures fields != []
  {
  }

  lemma BuiltRetitles(h: Hashes, f: Frame, kept: seq<string>, k: nat, t: nat)
    requires CollisionFree(h) && AllPass(kept, k, t) && UniqueKeys(kept, k)
    requires f.retitles == SortBy(KEY, Entries(h, kept, k, t)) && f.rule == h.rule
    requires f.expected.rowDigests == Digests(h, NewRows(kept, k, t))
    ensures RetitlesParse(h, f) <==> forall e :: e in f.retitles ==> e.key != ""
  {
    hide Fields, Retitled, HasTitleSeparator, AssetTitle, Digests, Sorted, SortBy, RetitleParses, Passes, Punctuated;
    EntriesDistinct(h, kept, k, t);
    SortDistinct(KEY, Entries(h, kept, k, t));
    SortIsPermutation(KEY, Entries(h, kept, k, t));
    forall e | e in f.retitles ensures RetitleParses(f, e) <==> e.key != "" {
      SortMember(KEY, Entries(h, kept, k, t), e);
      EntryParses(h, kept, k, t, f, e);
    }
  }

  lemma BuiltRemovals(h: Hashes, blob: string, removals: seq<Removal>, profile: string, collapse: Option<Binding>,
                      header: string, rows: seq<string>, fields: seq<string>)
    requires BuildCsv(h, blob, removals, profile, collapse).Ok?
    requires Split(blob) == Ok((header, rows)) && Fields(header) == Ok(fields)
    requires forall i :: 0 <= i < |rows| ==> Readable(rows[i], IndexOf(fields, FILE_PATH))
    ensures var doc := BuildCsv(h, blob, removals, profile, collapse).value;
            && DistinctKeys(FILE, doc.removals)
            && |Kept(rows, IndexOf(fields, FILE_PATH), Paths(doc.removals))| + |doc.removals| == |rows|
  {
    hide Split, Fields, IndexOf, SortBy, PassRows, Describe, Wanted;
    var k := IndexOf(fields, FILE_PATH);
    var keys := ReadKeys(rows, k, Refused).value;
    ReadKeysIs(rows, k, Refused);
    var wanted := Wanted(removals, keys, map[]).value;
    WantedIs(removals, keys, map[]);
    hide BuildCsv, ReadKeys;
    RemovedPaths(keys, wanted);
    RemovedDistinct(keys, wanted);
    SortDistinct(FILE, RemovedRows(keys, wanted));
    CountKept(rows, k, keys, wanted);
    SortMembers(FILE, RemovedRows(keys, wanted));
  }
}
