/** Builder, applier and verifier agree: what is built from a file applies to it, and the result is the one file the
    verifier accepts. */
module CsvAgreement {
  import opened Sequences
  import opened Outcomes
  import opened Sorting
  import opened TitleRule
  import opened CsvSplit
  import opened CsvReader
  import opened CsvRetitle
  import opened CsvRows
  import opened CsvTable
  import opened CsvDocuments

  /** The file `blob` is `header` and `rows` with unique keys in column `k`; the rows not `gone` pass the title rule,
      and `frame` describes what they become. */
  ghost predicate Describes(h: Hashes, frame: Frame, kind: string, blob: string, header: string, rows: seq<string>,
                            fields: seq<string>, column: string, gone: set<string>)
  {
    && Split(blob) == Ok((header, rows)) && Fields(header) == Ok(fields)
    && column in fields && TITLE in fields && column != TITLE
    && var k, t := IndexOf(fields, column), IndexOf(fields, TITLE);
       && UniqueKeys(rows, k)
       && (forall p :: p in gone ==> exists i :: 0 <= i < |rows| && Field(rows[i], k) == p)
       && var kept := Kept(rows, k, gone);
          && AllPass(kept, k, t)
          && frame == Describe(h, kind, blob, header, rows, fields, NewRows(kept, k, t), SortBy(KEY, Entries(h, kept, k, t)))
  }

  // ----- rows after the pass -----

  lemma NewRowFields(row: string, k: nat, t: nat)
    requires Passes(row, k, t)
    ensures Fields(NewRow(row, k, t)).Ok?
    ensures var f, g := Fields(row).value, Fields(NewRow(row, k, t)).value;
            && |g| == |f| && (forall j :: 0 <= j < |f| && j != t ==> g[j] == f[j])
            && t < |f| && g[t] == AssetTitle(f[t]) && !HasTitleSeparator(g[t])
    ensures Punctuated(row, t) <==> NewRow(row, k, t) != row
  {
    var f := Fields(row).value;
    NoSeparatorLeft(f[t], TITLE_SEPARATORS);
    NormalizedIsStable(f[t], TITLE_SEPARATORS);
    hide Emitted, Normalized;
    if Punctuated(row, t) {
      var _, _, _, _ := RetitledReads(row, t, AssetTitle(f[t]));
    }
  }

  lemma PassIsRewrite(rows: seq<string>, k: nat, t: nat)
    requires AllPass(rows, k, t)
    ensures Rewritten(rows, NewRows(rows, k, t), t)
  {
    hide Retitled, Fields, HasTitleSeparator;
    var after := NewRows(rows, k, t);
    forall i | 0 <= i < |rows| ensures after[i] == rows[i] || exists title :: Retitled(rows[i], t, title) == Ok(after[i]) {
      if Punctuated(rows[i], t) { assert Retitled(rows[i], t, AssetTitle(Field(rows[i], t))) == Ok(after[i]); }
    }
  }

  lemma {:induction false} HitsOf(rows: seq<string>, k: nat, t: nat, i: nat)
    requires i < |rows| && UniqueKeys(rows, k)
    requires forall j :: 0 <= j < |rows| ==> Readable(rows[j], Max(k, t))
    ensures Hits(rows, k, t, Field(rows[i], k)) == [rows[i]]
  {
    hide Fields;
    var key, tail := Field(rows[i], k), rows[1..];
    assert forall j :: 0 <= j < |tail| ==> tail[j] == rows[j + 1];
    if i > 0 {
      HitsOf(tail, k, t, i - 1);
    } else {
      NoHits(tail, k, t, key);
    }
  }

  lemma {:induction false} NoHits(rows: seq<string>, k: nat, t: nat, key: string)
    requires forall j :: 0 <= j < |rows| ==> Readable(rows[j], k) && Field(rows[j], k) != key
    ensures Hits(rows, k, t, key) == []
  {
    hide Fields;
    if rows != [] {
      assert forall j :: 0 <= j < |rows[1..]| ==> rows[1..][j] == rows[j + 1];
      NoHits(rows[1..], k, t, key);
    }
  }

  /** The pass keeps the keys, so they stay unique; every row stays readable, and no title keeps a separator. */
  lemma NewRowsKeys(rows: seq<string>, k: nat, t: nat)
    requires AllPass(rows, k, t) && UniqueKeys(rows, k) && k != t
    ensures var after := NewRows(rows, k, t);
            && UniqueKeys(after, k)
            && forall i :: 0 <= i < |after| ==> Readable(after[i], Max(k, t)) && Field(after[i], k) == Field(rows[i], k)
                                                && !Punctuated(after[i], t)
  {
    hide Fields, Retitled, HasTitleSeparator;
    var after := NewRows(rows, k, t);
    forall i | 0 <= i < |after|
      ensures Readable(after[i], Max(k, t)) && Field(after[i], k) == Field(rows[i], k) && !Punctuated(after[i], t)
    {
      NewRowFields(rows[i], k, t);
    }
  }

  lemma NoEntryReason(h: Hashes, rows: seq<string>, e: Retitle, k: nat, t: nat, row: string, original: string)
    requires Hits(rows, k, t, e.key) == [row] && Readable(row, t)
    requires Field(row, t) == e.after && h.sha(row) == e.rowAfter
    requires Retitled(row, t, e.before) == Ok(original) && h.sha(original) == e.rowBefore
    ensures EntryReasons(h, rows, e, k, t) == Ok([])
  {
    hide Fields, Retitled, Hits;
    NoReasons();
  }

  lemma EntryVerifies(h: Hashes, rows: seq<string>, k: nat, t: nat, i: nat)
    requires AllPass(rows, k, t) && UniqueKeys(rows, k) && k != t && i < |rows| && Punctuated(rows[i], t)
    ensures EntryReasons(h, NewRows(rows, k, t), Entry(h, rows[i], k, t), k, t) == Ok([])
  {
    hide Fields, Retitled, HasTitleSeparator, AssetTitle, EntryReasons, Hits;
    var after, title := NewRows(rows, k, t), AssetTitle(Field(rows[i], t));
    NewRowsKeys(rows, k, t);
    NewRowFields(rows[i], k, t);
    HitsOf(after, k, t, i);
    RetitleInverse(rows[i], t, title);
    NoEntryReason(h, after, Entry(h, rows[i], k, t), k, t, after[i], rows[i]);
  }

  lemma MemberVerifies(h: Hashes, rows: seq<string>, k: nat, t: nat, e: Retitle)
    requires AllPass(rows, k, t) && UniqueKeys(rows, k) && k != t && e in Entries(h, rows, k, t)
    ensures EntryReasons(h, NewRows(rows, k, t), e, k, t) == Ok([])
  {
    hide Fields, Retitled, HasTitleSeparator, AssetTitle, EntryReasons;
    EntryMembers(h, rows, k, t, e);
    var i :| 0 <= i < |rows| && Punctuated(rows[i], t) && e == Entry(h, rows[i], k, t);
    EntryVerifies(h, rows, k, t, i);
  }

  lemma NoReasons()
    ensures var none: seq<Reason> := []; none + none == none
  {
  }

  lemma {:induction false} AllEntriesVerify(h: Hashes, rows: seq<string>, k: nat, t: nat, es: seq<Retitle>)
    requires AllPass(rows, k, t) && UniqueKeys(rows, k) && k != t
    requires forall e :: e in es ==> e in Entries(h, rows, k, t)
    ensures AllEntryReasons(h, NewRows(rows, k, t), es, k, t) == Ok([])
  {
    hide EntryReasons, Passes, Fields, Punctuated, Entry, NewRow;
    if es != [] {
      MemberVerifies(h, rows, k, t, es[0]);
      AllEntriesVerify(h, rows, k, t, es[1..]);
      NoReasons();
    }
  }

  lemma PostVerifies(h: Hashes, rows: seq<string>, fields: seq<string>, column: string)
    requires column in fields && TITLE in fields && column != TITLE
    requires var k, t := IndexOf(fields, column), IndexOf(fields, TITLE); AllPass(rows, k, t) && UniqueKeys(rows, k)
    ensures var k, t := IndexOf(fields, column), IndexOf(fields, TITLE);
            PostRetitle(h, SortBy(KEY, Entries(h, rows, k, t)), fields, NewRows(rows, k, t), column) == Ok([])
  {
    var k, t := IndexOf(fields, column), IndexOf(fields, TITLE);
    hide IndexOf, Fields, Retitled, HasTitleSeparator, AssetTitle, EntryReasons;
    NewRowsKeys(rows, k, t);
    var es := SortBy(KEY, Entries(h, rows, k, t));
    forall e | e in es ensures e in Entries(h, rows, k, t) {
      SortMember(KEY, Entries(h, rows, k, t), e);
    }
    AllEntriesVerify(h, rows, k, t, es);
    var after := NewRows(rows, k, t);
    assert forall i :: 0 <= i < |after| ==> Readable(after[i], Max(k, t)) && !TitleBroken(after[i], k, t);
    NoReasons();
  }

  // ----- recomputing gives the same retitles -----

  lemma {:induction false} SurvivorsAreKept(rows: seq<string>, k: nat, keys: seq<string>, gone: set<string>)
    requires forall i :: 0 <= i < |rows| ==> Readable(rows[i], k)
    requires |keys| == |rows| && forall i :: 0 <= i < |rows| ==> keys[i] == Field(rows[i], k)
    ensures Survivors(rows, keys, gone) == Kept(rows, k, gone)
  {
    hide Fields;
    if rows != [] {
      assert forall i :: 0 <= i < |rows[1..]| ==> rows[1..][i] == rows[i + 1] && keys[1..][i] == keys[i + 1];
      SurvivorsAreKept(rows[1..], k, keys[1..], gone);
    }
  }

  lemma {:induction false} PaddedAreKeys(rows: seq<string>, k: nat)
    requires forall i :: 0 <= i < |rows| ==> Readable(rows[i], k)
    ensures CountColumn(rows, k).Ok? && |CountColumn(rows, k).value| == |rows|
    ensures forall i :: 0 <= i < |rows| ==> CountColumn(rows, k).value[i] == Field(rows[i], k)
  {
    hide Fields;
    if rows != [] {
      assert forall i :: 0 <= i < |rows[1..]| ==> rows[1..][i] == rows[i + 1];
      PaddedAreKeys(rows[1..], k);
      var all, tail := CountColumn(rows, k).value, CountColumn(rows[1..], k).value;
      assert all == [Field(rows[0], k)] + tail;
      forall i | 0 <= i < |rows| ensures all[i] == Field(rows[i], k) {
        if i > 0 { assert rows[i] == rows[1..][i - 1] && all[i] == tail[i - 1]; }
      }
    }
  }

  /** What the frozen bytes require of a readable file: the pass over the rows that survive the exclusion. */
  lemma RequiredIs(h: Hashes, original: string, column: string, excluded: set<string>, header: string, rows: seq<string>,
                   fields: seq<string>)
    requires Split(original) == Ok((header, rows)) && Fields(header) == Ok(fields) && column in fields && TITLE in fields
    requires forall i :: 0 <= i < |rows| ==> Readable(rows[i], IndexOf(fields, column))
    ensures var k, t := IndexOf(fields, column), IndexOf(fields, TITLE);
            var pass := RetitlePass(h, Kept(rows, k, excluded), k, t);
            if pass.IsFailure() then Required(h, original, column, excluded) == pass.PropagateFailure()
            else Required(h, original, column, excluded).Ok?
                 && Required(h, original, column, excluded).value.1 == pass.value.1
                 && |Required(h, original, column, excluded).value.0| == |rows|
                 && forall i :: 0 <= i < |rows| ==> Required(h, original, column, excluded).value.0[i] == Field(rows[i], k)
  {
    var k := IndexOf(fields, column);
    PaddedAreKeys(rows, k);
    SurvivorsAreKept(rows, k, CountColumn(rows, k).value, excluded);
    hide Split, Fields, RetitlePass, Kept, Survivors, CountColumn;
  }

  lemma NoDifference(want: seq<Retitle>, known: seq<string>, excluded: set<string>)
    ensures RetitleDifferences(want, want, known, excluded) == []
  {
  }

  // ----- the files differ -----

  lemma RetitleChangesRows(rows: seq<string>, k: nat, t: nat, i: nat)
    requires AllPass(rows, k, t) && i < |rows| && Punctuated(rows[i], t)
    ensures NewRows(rows, k, t) != rows
  {
    hide Fields, Retitled, HasTitleSeparator, AssetTitle, NewRow;
    NewRowFields(rows[i], k, t);
    assert NewRows(rows, k, t)[i] == NewRow(rows[i], k, t);
  }

  /** A transform that removes a row or retitles one never gives the original file back. */
  lemma TransformChangesTheFile(blob: string, header: string, rows: seq<string>, k: nat, t: nat, gone: set<string>, i: nat)
    requires Split(blob) == Ok((header, rows)) && UniqueKeys(rows, k)
    requires AllPass(Kept(rows, k, gone), k, t)
    requires if exists j :: 0 <= j < |rows| && Field(rows[j], k) in gone then i < |rows| && Field(rows[i], k) in gone
             else i < |Kept(rows, k, gone)| && Punctuated(Kept(rows, k, gone)[i], t)
    ensures Join(header, NewRows(Kept(rows, k, gone), k, t)) != blob
  {
    hide Split, Fields, Punctuated, Passes, NewRow, Join;
    var kept := Kept(rows, k, gone);
    PassIsRewrite(kept, k, t);
    ResplitsExactly(blob, header, rows, k, gone, NewRows(kept, k, t), t);
    if exists j :: 0 <= j < |rows| && Field(rows[j], k) in gone {
      KeptLosesRows(rows, k, gone, i);
    } else {
      KeptAll(rows, k, gone);
      RetitleChangesRows(rows, k, t, i);
    }
  }

  // ----- what the builders describe -----

  lemma {:induction false} WantedIs(removals: seq<Removal>, keys: seq<string>, acc: map<string, string>)
    requires Wanted(removals, keys, acc).Ok?
    ensures forall p :: p in Wanted(removals, keys, acc).value ==> p in acc || p in keys
  {
    if removals != [] && removals[0].filePath !in acc {
      var r := removals[0];
      WantedIs(removals[1..], keys, if r.filePath in keys then acc[r.filePath := r.retiredId] else acc);
    }
  }

  lemma {:induction false} RemovedMembers(keys: seq<string>, wanted: map<string, string>, r: Removal)
    ensures r in RemovedRows(keys, wanted) <==> r.filePath in keys && r.filePath in wanted && r.retiredId == wanted[r.filePath]
  {
    if keys != [] {
      RemovedMembers(keys[1..], wanted, r);
      assert keys == [keys[0]] + keys[1..];
    }
  }

  lemma RemovedPaths(keys: seq<string>, wanted: map<string, string>)
    requires forall p :: p in wanted ==> p in keys
    ensures Paths(SortBy(FILE, RemovedRows(keys, wanted))) == wanted.Keys
  {
    var removals := SortBy(FILE, RemovedRows(keys, wanted));
    forall p ensures p in Paths(removals) <==> p in wanted {
      if p in Paths(removals) {
        var r :| r in removals && r.filePath == p;
        SortMember(FILE, RemovedRows(keys, wanted), r);
        RemovedMembers(keys, wanted, r);
      }
      if p in wanted {
        var r := Removal(p, wanted[p]);
        RemovedMembers(keys, wanted, r);
        SortMember(FILE, RemovedRows(keys, wanted), r);
        assert r in removals;
      }
    }
  }

  lemma KeysAreUnique(rows: seq<string>, k: nat, keys: seq<string>)
    requires |keys| == |rows| && (forall i :: 0 <= i < |rows| ==> Readable(rows[i], k) && keys[i] == Field(rows[i], k))
    ensures UniqueKeys(rows, k) <==> !HasDuplicate(keys)
  {
    hide Fields;
  }

  /** A document that was built describes its file. */
  lemma BuiltCsvDescribes(h: Hashes, blob: string, removals: seq<Removal>, profile: string, collapse: Option<Binding>)
    returns (header: string, rows: seq<string>, fields: seq<string>)
    requires BuildCsv(h, blob, removals, profile, collapse).Ok?
    ensures var doc := BuildCsv(h, blob, removals, profile, collapse).value;
            && Describes(h, doc.frame, TRANSFORM_KIND, blob, header, rows, fields, FILE_PATH, Paths(doc.removals))
            && doc.profile == profile && doc.collapse == collapse
  {
    hide Fields, PassRows, Wanted, SortBy, Describe, IndexOf, ReadKeys;
    var split := Split(blob).value;
    header, rows := split.0, split.1;
    fields := Fields(header).value;
    var k, t := IndexOf(fields, FILE_PATH), IndexOf(fields, TITLE);
    var keys := ReadKeys(rows, k, Refused).value;
    ReadKeysIs(rows, k, Refused);
    var wanted := Wanted(removals, keys, map[]).value;
    WantedIs(removals, keys, map[]);
    RemovedPaths(keys, wanted);
    KeysAreUnique(rows, k, keys);
    PassRowsIs(h, Kept(rows, k, wanted.Keys), k, t);
    hide Split, IndexOf, ReadKeys;
    forall p | p in wanted.Keys ensures exists i :: 0 <= i < |rows| && Field(rows[i], k) == p {
      var i :| 0 <= i < |keys| && keys[i] == p;
      assert Field(rows[i], k) == p;
    }
  }

  // The steps of a build of groups.csv that succeeded.
  lemma GroupsSteps(h: Hashes, blob: string)
    returns (header: string, rows: seq<string>, fields: seq<string>, keys: seq<string>, pass: (seq<string>, seq<Retitle>))
    requires BuildGroups(h, blob).Ok?
    ensures Split(blob) == Ok((header, rows)) && Fields(header) == Ok(fields)
    ensures GROUP_ID in fields && TITLE in fields && ASSET_COUNT in fields
    ensures var k, t, a := IndexOf(fields, GROUP_ID), IndexOf(fields, TITLE), IndexOf(fields, ASSET_COUNT);
            && ReadKeys(rows, Widest(k, t, a), Refused).Ok? && ReadKeys(rows, k, Refused) == Ok(keys) && !HasDuplicate(keys)
            && RetitlePass(h, rows, k, t) == Ok(pass) && CountColumn(rows, a).Ok?
            && BuildGroups(h, blob).value
               == GroupsDocument(Describe(h, GROUPS_TRANSFORM_KIND, blob, header, rows, fields, pass.0, pass.1), false, ASSET_COUNT,
                                 h.column(CountColumn(rows, a).value))
  {
    hide Fields, RetitlePass, CountColumn, ReadKeys, HasDuplicate, IndexOf, Describe, Split;
    var split := Split(blob).value;
    header, rows := split.0, split.1;
    fields := Fields(header).value;
    keys := ReadKeys(rows, IndexOf(fields, GROUP_ID), Refused).value;
    pass := RetitlePass(h, rows, IndexOf(fields, GROUP_ID), IndexOf(fields, TITLE)).value;
  }

  lemma BuiltGroupsDescribes(h: Hashes, blob: string)
    returns (header: string, rows: seq<string>, fields: seq<string>)
    requires BuildGroups(h, blob).Ok?
    ensures var doc := BuildGroups(h, blob).value;
            && Describes(h, doc.frame, GROUPS_TRANSFORM_KIND, blob, header, rows, fields, GROUP_ID, {})
            && ASSET_COUNT in fields && doc.countColumn == ASSET_COUNT && !doc.hasRemovals
            && (forall i :: 0 <= i < |rows| ==> Readable(rows[i], IndexOf(fields, ASSET_COUNT)))
            && CountColumn(rows, IndexOf(fields, ASSET_COUNT)).Ok?
            && doc.countDigest == h.column(CountColumn(rows, IndexOf(fields, ASSET_COUNT)).value)
  {
    var keys, pass;
    header, rows, fields, keys, pass := GroupsSteps(h, blob);
    hide BuildGroups, Fields, PassRows, SortBy, CountColumn, Split, IndexOf, ReadKeys, Describe;
    var k, t, a := IndexOf(fields, GROUP_ID), IndexOf(fields, TITLE), IndexOf(fields, ASSET_COUNT);
    ReadKeysIs(rows, Widest(k, t, a), Refused);
    ReadKeysIs(rows, k, Refused);
    KeysAreUnique(rows, k, keys);
    PassRowsIs(h, rows, k, t);
    KeptAll(rows, k, {});
  }

  // ----- the common half of the two verifiers -----

  /** The file a description promises. */
  function Promised(header: string, rows: seq<string>, fields: seq<string>, column: string, gone: set<string>): string
    requires forall i :: 0 <= i < |rows| ==> Readable(rows[i], IndexOf(fields, column))
    requires AllPass(Kept(rows, IndexOf(fields, column), gone), IndexOf(fields, column), IndexOf(fields, TITLE))
  {
    var k, t := IndexOf(fields, column), IndexOf(fields, TITLE);
    Join(header, NewRows(Kept(rows, k, gone), k, t))
  }

  lemma ApplyDescribed(h: Hashes, frame: Frame, kind: string, blob: string, header: string, rows: seq<string>,
                       fields: seq<string>, column: string, gone: set<string>)
    requires Describes(h, frame, kind, blob, header, rows, fields, column, gone)
    ensures var k := IndexOf(fields, column);
            ApplyRetitles(h, Kept(rows, k, gone), frame.retitles, fields, column)
            == Ok((NewRows(Kept(rows, k, gone), k, IndexOf(fields, TITLE)), []))
  {
    hide Split, IndexOf, Fields, Retitled, HasTitleSeparator, AssetTitle, ApplyRow, Find;
    var k, t := IndexOf(fields, column), IndexOf(fields, TITLE);
    var kept := Kept(rows, k, gone);
    KeptUnique(rows, k, gone);
    var entries := Entries(h, kept, k, t);
    forall e ensures e in frame.retitles <==> e in entries {
      SortMember(KEY, entries, e);
    }
    ApplyIsPass(h, kept, frame.retitles, k, t);
    NoReasons();
  }

  lemma RecomputationDescribed(h: Hashes, frame: Frame, kind: string, blob: string, header: string, rows: seq<string>,
                               fields: seq<string>, column: string, gone: set<string>)
    requires Describes(h, frame, kind, blob, header, rows, fields, column, gone)
    ensures Recomputation(h, frame.retitles, blob, column, gone) == Ok([])
  {
    hide Split, IndexOf, Fields, PassRows, SortBy, Required, RetitleDifferences;
    var k, t := IndexOf(fields, column), IndexOf(fields, TITLE);
    RequiredIs(h, blob, column, gone, header, rows, fields);
    PassRowsIs(h, Kept(rows, k, gone), k, t);
    NoDifference(frame.retitles, Required(h, blob, column, gone).value.0, gone);
  }

  lemma SplitDescribed(h: Hashes, frame: Frame, kind: string, blob: string, header: string, rows: seq<string>,
                       fields: seq<string>, column: string, gone: set<string>)
    requires Describes(h, frame, kind, blob, header, rows, fields, column, gone)
    ensures var k, t := IndexOf(fields, column), IndexOf(fields, TITLE);
            var after := NewRows(Kept(rows, k, gone), k, t);
            && Promised(header, rows, fields, column, gone) == Join(header, after)
            && Split(Join(header, after)) == Ok((header, after))
            && FileReasons(h, frame, Join(header, after), header, after, fields) == []
            && PostRetitle(h, frame.retitles, fields, after, column) == Ok([])
  {
    hide Split, IndexOf, Fields, Retitled, HasTitleSeparator, AssetTitle, Records, PostRetitle;
    var k, t := IndexOf(fields, column), IndexOf(fields, TITLE);
    var kept := Kept(rows, k, gone);
    KeptUnique(rows, k, gone);
    PassIsRewrite(kept, k, t);
    ResplitsExactly(blob, header, rows, k, gone, NewRows(kept, k, t), t);
    PostVerifies(h, kept, fields, column);
    NoReasons();
  }

  /** A description that documents any change promises another file. */
  lemma PromiseDiffers(h: Hashes, frame: Frame, kind: string, blob: string, header: string, rows: seq<string>,
                       fields: seq<string>, column: string, gone: set<string>)
    requires Describes(h, frame, kind, blob, header, rows, fields, column, gone)
    requires gone != {} || frame.retitles != []
    ensures Promised(header, rows, fields, column, gone) != blob
  {
    hide Split, IndexOf, Fields, Retitled, HasTitleSeparator, AssetTitle;
    var k, t := IndexOf(fields, column), IndexOf(fields, TITLE);
    var kept := Kept(rows, k, gone);
    if j :| 0 <= j < |rows| && Field(rows[j], k) in gone {
      TransformChangesTheFile(blob, header, rows, k, t, gone, j);
    } else {
      var e := frame.retitles[0];
      SortMember(KEY, Entries(h, kept, k, t), e);
      EntryMembers(h, kept, k, t, e);
      var i :| 0 <= i < |kept| && Punctuated(kept[i], t) && e == Entry(h, kept[i], k, t);
      TransformChangesTheFile(blob, header, rows, k, t, gone, i);
    }
  }

  // ----- the theorems -----

  /** What the applier makes of the original of a description. */
  lemma TransformDescribed(h: Hashes, doc: CsvDocument, blob: string, header: string, rows: seq<string>, fields: seq<string>)
    requires Describes(h, doc.frame, TRANSFORM_KIND, blob, header, rows, fields, FILE_PATH, Paths(doc.removals))
    ensures TransformCsv(h, blob, doc) == Ok((Promised(header, rows, fields, FILE_PATH, Paths(doc.removals)), []))
  {
    hide Split, IndexOf, Fields, ReadKeys, ApplyRetitles;
    var k, gone := IndexOf(fields, FILE_PATH), Paths(doc.removals);
    ReadKeysIs(rows, k, Crashed);
    var keys := ReadKeys(rows, k, Crashed).value;
    forall p | p in gone ensures p in keys {
      var i :| 0 <= i < |rows| && Field(rows[i], k) == p;
      assert keys[i] == p;
    }
    ApplyDescribed(h, doc.frame, TRANSFORM_KIND, blob, header, rows, fields, FILE_PATH, gone);
  }

  lemma StillReasons(h: Hashes, f: Frame, kind: string, blob: string, header: string, rows: seq<string>, fields: seq<string>,
                     column: string, gone: set<string>, changes: bool)
    requires CollisionFree(h) && Describes(h, f, kind, blob, header, rows, fields, column, gone)
    requires changes ==> gone != {} || f.retitles != []
    ensures If(h.sha(Promised(header, rows, fields, column, gone)) == f.original.sha && changes, StillOriginal) == []
  {
    hide Split, IndexOf, Fields, Promised;
    if changes { PromiseDiffers(h, f, kind, blob, header, rows, fields, column, gone); }
  }

  lemma FullReasons(h: Hashes, f: Frame, kind: string, blob: string, header: string, rows: seq<string>, fields: seq<string>,
                    column: string, gone: set<string>)
    requires Describes(h, f, kind, blob, header, rows, fields, column, gone)
    ensures var after := Promised(header, rows, fields, column, gone);
            AgainstOriginal(h, f, after, blob, Ok((after, [])), Recomputation(h, f.retitles, blob, column, gone)) == Ok([])
  {
    hide Split, IndexOf, Fields, Promised, Recomputation;
    RecomputationDescribed(h, f, kind, blob, header, rows, fields, column, gone);
    NoReasons();
  }

  lemma NoneStillThere(rows: seq<string>, k: nat, t: nat, removals: seq<Removal>)
    requires UniqueKeys(rows, k) && k != t && AllPass(Kept(rows, k, Paths(removals)), k, t)
    ensures var after := NewRows(Kept(rows, k, Paths(removals)), k, t);
            && !StillThere(after, k, removals) && forall i :: 0 <= i < |after| ==> Fields(after[i]).Ok?
  {
    hide Retitled, Fields, HasTitleSeparator;
    var kept := Kept(rows, k, Paths(removals));
    KeptUnique(rows, k, Paths(removals));
    NewRowsKeys(kept, k, t);
  }

  /** The promised file passes every check, with or without the original. */
  lemma PromiseVerifies(h: Hashes, doc: CsvDocument, blob: string, header: string, rows: seq<string>, fields: seq<string>,
                        original: Option<string>)
    requires CollisionFree(h)
    requires Describes(h, doc.frame, TRANSFORM_KIND, blob, header, rows, fields, FILE_PATH, Paths(doc.removals))
    requires original == None || original == Some(blob)
    ensures VerifyCsv(h, doc, Promised(header, rows, fields, FILE_PATH, Paths(doc.removals)), original) == Ok([])
  {
    hide Split, IndexOf, Fields, PostRetitle, FileReasons, TransformCsv, Recomputation, StillThere, AgainstOriginal, Kept;
    var gone := Paths(doc.removals);
    SplitDescribed(h, doc.frame, TRANSFORM_KIND, blob, header, rows, fields, FILE_PATH, gone);
    TransformDescribed(h, doc, blob, header, rows, fields);
    if doc.removals != [] { assert doc.removals[0].filePath in gone; }
    StillReasons(h, doc.frame, TRANSFORM_KIND, blob, header, rows, fields, FILE_PATH, gone,
                 doc.removals != [] || doc.frame.retitles != []);
    FullReasons(h, doc.frame, TRANSFORM_KIND, blob, header, rows, fields, FILE_PATH, gone);
    NoneStillThere(rows, IndexOf(fields, FILE_PATH), IndexOf(fields, TITLE), doc.removals);
    hide Promised;
    NoReasons();
  }

  /** Builder, applier and verifier of metadata.csv agree. The document built from a file applies to that file without
      refusal; the verifier accepts the result, and no other file. */
  lemma CsvAgree(h: Hashes, blob: string, removals: seq<Removal>, profile: string, collapse: Option<Binding>)
    requires CollisionFree(h) && BuildCsv(h, blob, removals, profile, collapse).Ok?
    ensures var doc := BuildCsv(h, blob, removals, profile, collapse).value;
            var applied := TransformCsv(h, blob, doc);
            && applied.Ok? && applied.value.1 == [] && h.sha(applied.value.0) == doc.frame.expected.sha
            && forall x, original :: (original == None || original == Some(blob)) ==>
                 (VerifyCsv(h, doc, x, original) == Ok([]) <==> x == applied.value.0)
  {
    hide VerifyCsv, TransformCsv, Split, IndexOf, Fields;
    var doc := BuildCsv(h, blob, removals, profile, collapse).value;
    var header, rows, fields := BuiltCsvDescribes(h, blob, removals, profile, collapse);
    hide BuildCsv;
    TransformDescribed(h, doc, blob, header, rows, fields);
    var after := Promised(header, rows, fields, FILE_PATH, Paths(doc.removals));
    assert h.sha(after) == doc.frame.expected.sha;
    hide Promised;
    forall x, original | original == None || original == Some(blob)
      ensures VerifyCsv(h, doc, x, original) == Ok([]) <==> x == after
    {
      PromiseVerifies(h, doc, blob, header, rows, fields, original);
      if VerifyCsv(h, doc, x, original) == Ok([]) { VerifiedDigest(h, doc, x, original); }
    }
  }

  lemma VerifiedDigest(h: Hashes, doc: CsvDocument, x: string, original: Option<string>)
    requires VerifyCsv(h, doc, x, original) == Ok([])
    ensures h.sha(x) == doc.frame.expected.sha
  {
    hide Fields, PostRetitle, TransformCsv, Recomputation, StillThere, AgainstOriginal;
  }

  lemma TransformGroupsDescribed(h: Hashes, doc: GroupsDocument, blob: string, header: string, rows: seq<string>, fields: seq<string>)
    requires Describes(h, doc.frame, GROUPS_TRANSFORM_KIND, blob, header, rows, fields, GROUP_ID, {})
    ensures TransformGroups(h, blob, doc) == Ok((Promised(header, rows, fields, GROUP_ID, {}), []))
  {
    hide Split, IndexOf, Fields, ApplyRetitles;
    KeptNone(rows, IndexOf(fields, GROUP_ID));
    ApplyDescribed(h, doc.frame, GROUPS_TRANSFORM_KIND, blob, header, rows, fields, GROUP_ID, {});
  }

  lemma KeptNone(rows: seq<string>, k: nat)
    requires forall i :: 0 <= i < |rows| ==> Readable(rows[i], k)
    ensures Kept(rows, k, {}) == rows
  {
    KeptAll(rows, k, {});
  }

  /** A rewrite of titles leaves every other column as it was. */
  lemma {:induction false} ColumnUnchanged(rows: seq<string>, after: seq<string>, a: nat, t: nat)
    requires a != t && Rewritten(rows, after, t)
    ensures CountColumn(after, a) == CountColumn(rows, a)
  {
    if rows != [] {
      hide Fields, Retitled;
      assert forall i :: 0 <= i < |rows[1..]| ==> rows[1..][i] == rows[i + 1] && after[1..][i] == after[i + 1];
      ColumnUnchanged(rows[1..], after[1..], a, t);
      if after[0] != rows[0] {
        var title :| Retitled(rows[0], t, title) == Ok(after[0]);
        RewrittenFields(rows[0], t, title);
      }
    }
  }

  lemma RewrittenFields(row: string, t: nat, title: string)
    requires Retitled(row, t, title).Ok?
    ensures Fields(row).Ok? && t < |Fields(row).value|
    ensures Fields(Retitled(row, t, title).value) == Ok(Fields(row).value[t := title])
  {
    var _, _, _, _ := RetitledReads(row, t, title);
  }

  lemma GroupsPromiseVerifies(h: Hashes, doc: GroupsDocument, blob: string, header: string, rows: seq<string>,
                              fields: seq<string>, original: Option<string>)
    requires CollisionFree(h)
    requires Describes(h, doc.frame, GROUPS_TRANSFORM_KIND, blob, header, rows, fields, GROUP_ID, {})
    requires ASSET_COUNT in fields && CountColumn(rows, IndexOf(fields, ASSET_COUNT)).Ok?
    requires doc.countDigest == h.column(CountColumn(rows, IndexOf(fields, ASSET_COUNT)).value)
    requires original == None || original == Some(blob)
    ensures VerifyGroups(h, doc, Promised(header, rows, fields, GROUP_ID, {}), original) == Ok([])
  {
    hide Split, IndexOf, Fields, PostRetitle, FileReasons, TransformGroups, Recomputation, AgainstOriginal, CountColumn;
    var k, t, a := IndexOf(fields, GROUP_ID), IndexOf(fields, TITLE), IndexOf(fields, ASSET_COUNT);
    SplitDescribed(h, doc.frame, GROUPS_TRANSFORM_KIND, blob, header, rows, fields, GROUP_ID, {});
    TransformGroupsDescribed(h, doc, blob, header, rows, fields);
    StillReasons(h, doc.frame, GROUPS_TRANSFORM_KIND, blob, header, rows, fields, GROUP_ID, {}, doc.frame.retitles != []);
    FullReasons(h, doc.frame, GROUPS_TRANSFORM_KIND, blob, header, rows, fields, GROUP_ID, {});
    KeptNone(rows, k);
    PassIsRewrite(rows, k, t);
    ColumnUnchanged(rows, NewRows(rows, k, t), a, t);
    hide Promised, Kept;
    NoReasons();
  }

  lemma VerifiedGroupsDigest(h: Hashes, doc: GroupsDocument, x: string, original: Option<string>)
    requires VerifyGroups(h, doc, x, original) == Ok([])
    ensures h.sha(x) == doc.frame.expected.sha
  {
    hide Fields, PostRetitle, TransformGroups, Recomputation, CountColumn, AgainstOriginal;
  }

  /** The same agreement for groups.csv, whose documents only retitle. */
  lemma GroupsAgree(h: Hashes, blob: string)
    requires CollisionFree(h) && BuildGroups(h, blob).Ok?
    ensures var doc := BuildGroups(h, blob).value;
            var applied := TransformGroups(h, blob, doc);
            && applied.Ok? && applied.value.1 == [] && h.sha(applied.value.0) == doc.frame.expected.sha
            && forall x, original :: (original == None || original == Some(blob)) ==>
                 (VerifyGroups(h, doc, x, original) == Ok([]) <==> x == applied.value.0)
  {
    hide VerifyGroups, TransformGroups, Split, IndexOf, Fields;
    var doc := BuildGroups(h, blob).value;
    var header, rows, fields := BuiltGroupsDescribes(h, blob);
    hide BuildGroups, CountColumn;
    TransformGroupsDescribed(h, doc, blob, header, rows, fields);
    var after := Promised(header, rows, fields, GROUP_ID, {});
    assert h.sha(after) == doc.frame.expected.sha;
    hide Promised;
    forall x, original | original == None || original == Some(blob)
      ensures VerifyGroups(h, doc, x, original) == Ok([]) <==> x == after
    {
      GroupsPromiseVerifies(h, doc, blob, header, rows, fields, original);
      if VerifyGroups(h, doc, x, original) == Ok([]) { VerifiedGroupsDigest(h, doc, x, original); }
    }
  }

  lemma {:induction false} RemovedDistinct(keys: seq<string>, wanted: map<string, string>)
    requires !HasDuplicate(keys)
    ensures DistinctKeys(FILE, RemovedRows(keys, wanted))
  {
    if keys != [] {
      assert forall i :: 0 <= i < |keys[1..]| ==> keys[1..][i] == keys[i + 1];
      RemovedDistinct(keys[1..], wanted);
      var tail := RemovedRows(keys[1..], wanted);
      forall i | 0 <= i < |tail| ensures FILE(tail[i]) != keys[0] {
        RemovedMembers(keys[1..], wanted, tail[i]);
      }
    }
  }

  lemma {:induction false} CountKept(rows: seq<string>, k: nat, keys: seq<string>, wanted: map<string, string>)
    requires |keys| == |rows| && forall i :: 0 <= i < |rows| ==> Readable(rows[i], k) && keys[i] == Field(rows[i], k)
    ensures |Kept(rows, k, wanted.Keys)| + |RemovedRows(keys, wanted)| == |rows|
  {
    hide Fields;
    if rows != [] {
      assert forall i :: 0 <= i < |rows[1..]| ==> rows[1..][i] == rows[i + 1] && keys[1..][i] == keys[i + 1];
      CountKept(rows[1..], k, keys[1..], wanted);
    }
  }

  lemma {:induction false} EntriesDistinct(h: Hashes, rows: seq<string>, k: nat, t: nat)
    requires AllPass(rows, k, t) && UniqueKeys(rows, k)
    ensures DistinctKeys(KEY, Entries(h, rows, k, t))
  {
    hide Fields, Retitled, AssetTitle;
    if rows != [] {
      assert forall i :: 0 <= i < |rows[1..]| ==> rows[1..][i] == rows[i + 1];
      EntriesDistinct(h, rows[1..], k, t);
      var tail := Entries(h, rows[1..], k, t);
      forall i | 0 <= i < |tail| ensures KEY(tail[i]) != Field(rows[0], k) {
        EntryMembers(h, rows[1..], k, t, tail[i]);
      }
    }
  }
}
