/** What an accepted file, and an accepted document, are worth: the verifier's frame, and authority as recomputation. */
module CsvAuthority {
  import opened Sequences
  import opened Outcomes
  import opened TitleRule
  import opened CsvSplit
  import opened CsvCells
  import opened CsvReader
  import opened CsvRetitle
  import opened CsvRows
  import opened CsvTable
  import opened CsvDocuments
  import opened CsvAgreement

  // ----- the frame of an accepted file -----

  /** The two records are the same cells and terminator, but for the value of cell `t`, whose quoting is kept. */
  ghost predicate OnlyTitleDiffers(row: string, after: string, t: nat) {
    row == after ||
    exists cells: seq<Cell>, term, d: Cell ::
      && t < |cells| && ValidCells(cells) && ValidCell(d) && d.Quoted? == cells[t].Quoted?
      && RecordBody(row) == (ShowCells(cells), term) && RecordBody(after) == (ShowCells(cells[t := d]), term)
  }

  lemma RewriteOnlyTouchesTitle(row: string, t: nat, title: string)
    requires Retitled(row, t, title).Ok?
    ensures OnlyTitleDiffers(row, Retitled(row, t, title).value, t)
  {
    var cells, term, f, d := RetitledReads(row, t, title);
    assert ValidCell(d) && Calm(d);
    BodyAfterRewrite(row, cells, term, t, d);
    hide Fields, ShowCells, Calm, Retitled;
  }

  /** What is left of the rows once the documented ones are gone, and what became of it. */
  ghost predicate Framed(rows: seq<string>, after: seq<string>, k: nat, t: nat, gone: set<string>) {
    && (forall i :: 0 <= i < |rows| ==> Readable(rows[i], k))
    && (forall p :: p in gone ==> exists i :: 0 <= i < |rows| && Field(rows[i], k) == p)
    && var kept := Kept(rows, k, gone);
       && |after| == |kept|
       && (forall i :: 0 <= i < |kept| ==> OnlyTitleDiffers(kept[i], after[i], t))
       && (forall i :: 0 <= i < |after| ==> Readable(after[i], Max(k, t)) && !Punctuated(after[i], t))
  }

  lemma AppliedIsRewritten(h: Hashes, rows: seq<string>, retitles: seq<Retitle>, k: nat, t: nat)
    requires ApplyRows(h, rows, retitles, k, t).Ok?
    ensures var after := RowsOf(ApplyRows(h, rows, retitles, k, t).value);
            && |after| == |rows| && Rewritten(rows, after, t)
            && forall i :: 0 <= i < |rows| ==> OnlyTitleDiffers(rows[i], after[i], t)
  {
    hide ApplyRows, Retitled, OnlyTitleDiffers;
    ApplyRowsAt(h, rows, retitles, k, t);
    var applied := ApplyRows(h, rows, retitles, k, t).value;
    forall i | 0 <= i < |rows|
      ensures applied[i].row == rows[i] || exists title :: Retitled(rows[i], t, title) == Ok(applied[i].row)
      ensures OnlyTitleDiffers(rows[i], applied[i].row, t)
    {
      ApplyChangesTitles(h, rows, retitles, k, t, i);
      if applied[i].row != rows[i] {
        var e :| e in retitles && Retitled(rows[i], t, e.after) == Ok(applied[i].row);
        RewriteOnlyTouchesTitle(rows[i], t, e.after);
      } else {
        SameRow(rows[i], t);
      }
    }
  }

  lemma SameRow(row: string, t: nat)
    ensures OnlyTitleDiffers(row, row, t)
  {
  }

  /** What an application without refusal has read and written. */
  ghost predicate Application(h: Hashes, blob: string, doc: CsvDocument, after: string,
                              header: string, rows: seq<string>, fields: seq<string>, applied: seq<Applied>) {
    && h.sha(blob) == doc.frame.original.sha
    && Split(blob) == Ok((header, rows)) && Fields(header) == Ok(fields) && fields == doc.frame.header.fields
    && FILE_PATH in fields && TITLE in fields
    && var k, t, gone := IndexOf(fields, FILE_PATH), IndexOf(fields, TITLE), Paths(doc.removals);
       && (forall i :: 0 <= i < |rows| ==> Readable(rows[i], k))
       && (forall p :: p in gone ==> exists i :: 0 <= i < |rows| && Field(rows[i], k) == p)
       && var kept := Kept(rows, k, gone);
          && ApplyRows(h, kept, doc.frame.retitles, k, t) == Ok(applied) && |applied| == |kept|
          && Missed(kept, applied, doc.frame.retitles, k) == {} && !AnyBad(applied)
          && after == Join(header, RowsOf(applied))
  }

  lemma TransformSteps(h: Hashes, blob: string, doc: CsvDocument)
    returns (header: string, rows: seq<string>, fields: seq<string>, applied: seq<Applied>)
    requires TransformCsv(h, blob, doc).Ok? && TransformCsv(h, blob, doc).value.1 == []
    ensures Application(h, blob, doc, TransformCsv(h, blob, doc).value.0, header, rows, fields, applied)
  {
    hide Fields, ApplyRows, ReadKeys, IndexOf, Split, Missed;
    var split := Split(blob).value;
    header, rows := split.0, split.1;
    fields := Fields(header).value;
    var k, t, gone := IndexOf(fields, FILE_PATH), IndexOf(fields, TITLE), Paths(doc.removals);
    var keys := ReadKeys(rows, k, Crashed).value;
    ReadKeysIs(rows, k, Crashed);
    var kept := Kept(rows, k, gone);
    applied := ApplyRows(h, kept, doc.frame.retitles, k, t).value;
    ApplyRowsAt(h, kept, doc.frame.retitles, k, t);
    forall p | p in gone ensures exists i :: 0 <= i < |rows| && Field(rows[i], k) == p {
      var i :| 0 <= i < |keys| && keys[i] == p;
      assert Field(rows[i], k) == p;
    }
  }

  /** Nothing the post-operation checks report means that no title is punctuated. */
  lemma NoTitlePunctuated(h: Hashes, retitles: seq<Retitle>, fields: seq<string>, rows: seq<string>, column: string)
    requires PostRetitle(h, retitles, fields, rows, column) == Ok([])
    ensures column in fields && TITLE in fields
    ensures var k, t := IndexOf(fields, column), IndexOf(fields, TITLE);
            forall i :: 0 <= i < |rows| && Readable(rows[i], Max(k, t)) ==> !Punctuated(rows[i], t)
  {
    hide Fields, IndexOf, AllEntryReasons, HasTitleSeparator;
    var k, t := IndexOf(fields, column), IndexOf(fields, TITLE);
    forall i | 0 <= i < |rows| && Readable(rows[i], Max(k, t)) ensures !Punctuated(rows[i], t) {
      assert !TitleBroken(rows[i], k, t);
    }
  }

  /** Rows the recomputed pass accepts are long enough, and stay so when retitled. */
  lemma LongEnough(rows: seq<string>, after: seq<string>, k: nat, t: nat)
    requires AllPass(rows, k, t) && Rewritten(rows, after, t)
    ensures forall i :: 0 <= i < |after| ==> Readable(after[i], Max(k, t))
  {
    hide Fields, Retitled, Punctuated;
    forall i | 0 <= i < |after| ensures Readable(after[i], Max(k, t)) {
      assert Passes(rows[i], k, t);
      if after[i] != rows[i] {
        var title :| Retitled(rows[i], t, title) == Ok(after[i]);
        RewrittenFields(rows[i], t, title);
      }
    }
  }

  lemma KeptPass(h: Hashes, retitles: seq<Retitle>, original: string, gone: set<string>, header: string, rows: seq<string>, fields: seq<string>)
    requires Recomputation(h, retitles, original, FILE_PATH, gone) == Ok([])
    requires Split(original) == Ok((header, rows)) && Fields(header) == Ok(fields) && FILE_PATH in fields && TITLE in fields
    requires forall i :: 0 <= i < |rows| ==> Readable(rows[i], IndexOf(fields, FILE_PATH))
    ensures var k, t := IndexOf(fields, FILE_PATH), IndexOf(fields, TITLE); AllPass(Kept(rows, k, gone), k, t)
  {
    hide Split, Fields, IndexOf, Required, PassRows, AllPass, Kept, RetitleDifferences, Readable;
    var k, t := IndexOf(fields, FILE_PATH), IndexOf(fields, TITLE);
    RequiredIs(h, original, FILE_PATH, gone, header, rows, fields);
    PassRowsIs(h, Kept(rows, k, gone), k, t);
  }

  lemma {:induction false} SurvivorsAll(rows: seq<string>, keys: seq<string>)
    requires |keys| == |rows|
    ensures Survivors(rows, keys, {}) == rows
  {
    if rows != [] {
      SurvivorsAll(rows[1..], keys[1..]);
      assert rows == [rows[0]] + rows[1..];
    }
  }

  lemma GroupsPass(h: Hashes, retitles: seq<Retitle>, original: string, header: string, rows: seq<string>, fields: seq<string>)
    requires Recomputation(h, retitles, original, GROUP_ID, {}) == Ok([])
    requires Split(original) == Ok((header, rows)) && Fields(header) == Ok(fields) && GROUP_ID in fields && TITLE in fields
    ensures AllPass(rows, IndexOf(fields, GROUP_ID), IndexOf(fields, TITLE))
  {
    var k, t := IndexOf(fields, GROUP_ID), IndexOf(fields, TITLE);
    CountColumnLength(rows, k);
    if CountColumn(rows, k).Ok? { SurvivorsAll(rows, CountColumn(rows, k).value); }
    PassRowsIs(h, rows, k, t);
    hide Split, Fields, IndexOf, CountColumn, Survivors, PassRows, AllPass, RetitleDifferences;
  }

  /** What an accepted file has passed. */
  ghost predicate Verified(h: Hashes, doc: CsvDocument, x: string, original: string,
                           header: string, rows: seq<string>, fields: seq<string>) {
    && Split(x) == Ok((header, rows)) && Fields(header) == Ok(fields)
    && FileReasons(h, doc.frame, x, header, rows, fields) == []
    && PostRetitle(h, doc.frame.retitles, fields, rows, FILE_PATH) == Ok([])
    && TransformCsv(h, original, doc) == Ok((x, []))
    && Recomputation(h, doc.frame.retitles, original, FILE_PATH, Paths(doc.removals)) == Ok([])
  }

  lemma VerifiedParts(h: Hashes, doc: CsvDocument, x: string, original: string)
    returns (header: string, rows: seq<string>, fields: seq<string>)
    requires VerifyCsv(h, doc, x, Some(original)) == Ok([])
    ensures Verified(h, doc, x, original, header, rows, fields)
  {
    hide Split, Fields, FileReasons, PostRetitle, TransformCsv, Recomputation, StillThere;
    var split := Split(x).value;
    header, rows := split.0, split.1;
    fields := Fields(header).value;
  }

  /** Soundness of the verifier, whatever the document says: an accepted file has the original header, exactly the
      documented rows are gone, the survivors keep their order, each is its original outside the title cell with its
      quoting kept, and no surviving title holds a comma or an em dash. */
  lemma VerifierFrame(h: Hashes, doc: CsvDocument, x: string, original: string)
    requires VerifyCsv(h, doc, x, Some(original)) == Ok([])
    ensures Split(original).Ok? && Split(x).Ok? && Split(x).value.0 == Split(original).value.0
    ensures Fields(Split(x).value.0).Ok?
    ensures var fields := Fields(Split(x).value.0).value;
            && FILE_PATH in fields && TITLE in fields
            && Framed(Split(original).value.1, Split(x).value.1, IndexOf(fields, FILE_PATH), IndexOf(fields, TITLE), Paths(doc.removals))
  {
    var xHeader, xRows, xFields := VerifiedParts(h, doc, x, original);
    hide VerifyCsv, FileReasons, PostRetitle, TransformCsv, Recomputation;
    var header, rows, fields, applied := TransformSteps(h, original, doc);
    var after := RowsOf(applied);
    hide Split, Fields, ApplyRows, OnlyTitleDiffers, IndexOf;
    var k, t, gone := IndexOf(fields, FILE_PATH), IndexOf(fields, TITLE), Paths(doc.removals);
    var kept := Kept(rows, k, gone);
    AppliedIsRewritten(h, kept, doc.frame.retitles, k, t);
    ResplitsExactly(original, header, rows, k, gone, after, t);
    NoTitlePunctuated(h, doc.frame.retitles, fields, after, FILE_PATH);
    KeptPass(h, doc.frame.retitles, original, gone, header, rows, fields);
    LongEnough(kept, after, k, t);
  }

  /** Two groups.csv files with the same keys, counts and rows but for titles, which follow the rule. */
  ghost predicate GroupsFramed(fields: seq<string>, rows: seq<string>, after: seq<string>) {
    && |after| == |rows| && GROUP_ID in fields && TITLE in fields && ASSET_COUNT in fields
    && var t := IndexOf(fields, TITLE);
       && (forall i :: 0 <= i < |rows| ==> OnlyTitleDiffers(rows[i], after[i], t))
       && (forall i :: 0 <= i < |after| ==> Readable(after[i], Max(IndexOf(fields, GROUP_ID), t)) && !Punctuated(after[i], t))
       && CountColumn(after, IndexOf(fields, ASSET_COUNT)) == CountColumn(rows, IndexOf(fields, ASSET_COUNT))
  }

  /** The same for groups.csv, where moreover no row is lost and the asset_count column is unchanged. */
  lemma GroupsVerifierFrame(h: Hashes, doc: GroupsDocument, x: string, original: string)
    requires VerifyGroups(h, doc, x, Some(original)) == Ok([])
    ensures Split(original).Ok? && Split(x).Ok? && Split(x).value.0 == Split(original).value.0
    ensures Fields(Split(x).value.0).Ok?
    ensures GroupsFramed(Fields(Split(x).value.0).value, Split(original).value.1, Split(x).value.1)
  {
    var header, rows, fields, applied := GroupsVerifiedParts(h, doc, x, original);
    hide VerifyGroups, PostRetitle, TransformGroups;
    var after := RowsOf(applied);
    hide Split, Fields, ApplyRows, OnlyTitleDiffers, IndexOf;
    var k, t := IndexOf(fields, GROUP_ID), IndexOf(fields, TITLE);
    AppliedIsRewritten(h, rows, doc.frame.retitles, k, t);
    SplitIsInverse(original, header, rows);
    RewrittenIsWhole(header, rows, after, t);
    JoinIsFlatten(header, after);
    SplitIsInverse(x, header, after);
    NoTitlePunctuated(h, doc.frame.retitles, fields, after, GROUP_ID);
    GroupsPass(h, doc.frame.retitles, original, header, rows, fields);
    LongEnough(rows, after, k, t);
    ColumnUnchanged(rows, after, IndexOf(fields, ASSET_COUNT), t);
  }

  ghost predicate GroupsApplication(h: Hashes, doc: GroupsDocument, x: string, original: string,
                                    header: string, rows: seq<string>, fields: seq<string>, applied: seq<Applied>) {
    && Split(original) == Ok((header, rows)) && Fields(header) == Ok(fields)
    && GROUP_ID in fields && TITLE in fields && ASSET_COUNT in fields
    && ApplyRows(h, rows, doc.frame.retitles, IndexOf(fields, GROUP_ID), IndexOf(fields, TITLE)) == Ok(applied)
    && |applied| == |rows| && x == Join(header, RowsOf(applied))
    && Recomputation(h, doc.frame.retitles, original, GROUP_ID, {}) == Ok([])
    && forall xRows :: Split(x) == Ok((header, xRows)) ==> PostRetitle(h, doc.frame.retitles, fields, xRows, GROUP_ID) == Ok([])
  }

  lemma GroupsVerifiedParts(h: Hashes, doc: GroupsDocument, x: string, original: string)
    returns (header: string, rows: seq<string>, fields: seq<string>, applied: seq<Applied>)
    requires VerifyGroups(h, doc, x, Some(original)) == Ok([])
    ensures GroupsApplication(h, doc, x, original, header, rows, fields, applied)
  {
    hide Fields, PostRetitle, Recomputation, CountColumn, Split, IndexOf, ApplyRows, Digests;
    assert TransformGroups(h, original, doc) == Ok((x, []));
    var split := Split(original).value;
    header, rows := split.0, split.1;
    fields := Fields(header).value;
    var k, t := IndexOf(fields, GROUP_ID), IndexOf(fields, TITLE);
    applied := ApplyRows(h, rows, doc.frame.retitles, k, t).value;
    ApplyRowsAt(h, rows, doc.frame.retitles, k, t);
  }
}
