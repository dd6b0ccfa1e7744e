/** A CSV file as a header and rows: which lists of records are a file, and which rows survive a removal. */
module CsvTable {
  import opened Sequences
  import opened Outcomes
  import opened CsvSplit
  import opened CsvRetitle
  import opened CsvRows

  const FILE_PATH := "file_path"
  const GROUP_ID := "group_id"
  const TITLE := "title"
  const ASSET_COUNT := "asset_count"

  /** A list of records that is a whole file: only the last may lack its terminator, and no quote is left open. */
  ghost predicate WholeFile(rs: seq<string>) {
    rs != [] && RecordList(rs) && forall i :: 0 <= i < |rs| ==> IsRecord(rs[i])
  }

  lemma {:induction false} FlipsOfRecords(rs: seq<string>)
    requires forall i :: 0 <= i < |rs| ==> !Flips(rs[i], false)
    ensures !Flips(Flatten(rs), false)
  {
    if rs != [] {
      FlipsAppend(rs[0], Flatten(rs[1..]), false);
      FlipsOfRecords(rs[1..]);
    }
  }

  lemma RecordsAreWhole(rs: seq<string>)
    requires rs != [] && RecordList(rs) && !Flips(Flatten(rs), false)
    ensures WholeFile(rs)
  {
    var n := |rs| - 1;
    forall i | 0 <= i < n ensures IsRecord(rs[i]) && !Flips(rs[i], false) {
      CompleteNotOpen(rs[i], false);
    }
    assert rs == rs[..n] + [rs[n]];
    FlattenSnoc(rs[..n], rs[n]);
    FlipsOfRecords(rs[..n]);
    FlipsAppend(Flatten(rs[..n]), rs[n], false);
  }

  /** Splitting and concatenating are inverse: a file splits into exactly the whole lists of records it is the
      concatenation of. */
  lemma SplitIsInverse(blob: string, header: string, rows: seq<string>)
    ensures Split(blob) == Ok((header, rows)) <==> WholeFile([header] + rows) && Flatten([header] + rows) == blob
  {
    var rs := [header] + rows;
    if Split(blob) == Ok((header, rows)) {
      RecordsAreTheFile(blob);
      assert rs == Records(blob);
      RecordsAreWhole(rs);
    }
    if WholeFile(rs) && Flatten(rs) == blob {
      RecordsOfFlatten(rs);
      FlipsOfRecords(rs);
      assert rs[0] == header && rs[1..] == rows;
      NotEmpty(rs);
    }
  }

  lemma NotEmpty(rs: seq<string>)
    requires rs != [] && rs[0] != ""
    ensures Flatten(rs) != ""
  {
  }

  function Join(header: string, rows: seq<string>): string {
    header + Flatten(rows)
  }

  lemma JoinIsFlatten(header: string, rows: seq<string>)
    ensures Join(header, rows) == Flatten([header] + rows)
  {
    assert ([header] + rows)[1..] == rows;
  }

  // ----- survivors -----

  /** The rows whose key is not `gone`. */
  function Kept(rows: seq<string>, k: nat, gone: set<string>): (kept: seq<string>)
    requires forall i :: 0 <= i < |rows| ==> Readable(rows[i], k)
    ensures |kept| <= |rows|
    ensures forall i :: 0 <= i < |kept| ==> kept[i] in rows && Readable(kept[i], k) && Field(kept[i], k) !in gone
  {
    if rows == [] then []
    else
      assert forall i :: 0 <= i < |rows[1..]| ==> rows[1..][i] == rows[i + 1];
      (if Field(rows[0], k) in gone then [] else [rows[0]]) + Kept(rows[1..], k, gone)
  }

  lemma {:induction false} KeptUnique(rows: seq<string>, k: nat, gone: set<string>)
    requires UniqueKeys(rows, k)
    ensures UniqueKeys(Kept(rows, k, gone), k)
  {
    hide Readable;
    if rows != [] {
      assert forall i :: 0 <= i < |rows[1..]| ==> rows[1..][i] == rows[i + 1];
      KeptUnique(rows[1..], k, gone);
      var kept := Kept(rows[1..], k, gone);
      forall i | 0 <= i < |kept| ensures Field(kept[i], k) != Field(rows[0], k) {
        var j :| 0 <= j < |rows[1..]| && rows[1..][j] == kept[i];
        assert rows[j + 1] == kept[i];
      }
    }
  }

  lemma {:induction false} KeptAll(rows: seq<string>, k: nat, gone: set<string>)
    requires forall i :: 0 <= i < |rows| ==> Readable(rows[i], k)
    requires forall i :: 0 <= i < |rows| ==> Field(rows[i], k) !in gone
    ensures Kept(rows, k, gone) == rows
  {
    if rows != [] {
      assert forall i :: 0 <= i < |rows[1..]| ==> rows[1..][i] == rows[i + 1];
      KeptAll(rows[1..], k, gone);
      assert rows == [rows[0]] + rows[1..];
    }
  }

  lemma {:induction false} KeptLosesRows(rows: seq<string>, k: nat, gone: set<string>, i: nat)
    requires forall i :: 0 <= i < |rows| ==> Readable(rows[i], k)
    requires i < |rows| && Field(rows[i], k) in gone
    ensures |Kept(rows, k, gone)| < |rows|
  {
    assert forall i :: 0 <= i < |rows[1..]| ==> rows[1..][i] == rows[i + 1];
    if i > 0 { KeptLosesRows(rows[1..], k, gone, i - 1); }
  }

  /** Rows after the retitle: each is the row it was, or that row with its title cell rewritten. */
  ghost predicate Rewritten(rows: seq<string>, after: seq<string>, t: nat) {
    && |after| == |rows|
    && forall i :: 0 <= i < |rows| ==> after[i] == rows[i] || exists title :: Retitled(rows[i], t, title) == Ok(after[i])
  }

  lemma {:induction false} KeptIsWhole(header: string, rows: seq<string>, k: nat, gone: set<string>)
    requires WholeFile([header] + rows)
    requires forall i :: 0 <= i < |rows| ==> Readable(rows[i], k)
    ensures WholeFile([header] + Kept(rows, k, gone))
    decreases |rows|
  {
    hide IsRecord, Readable;
    var rs := [header] + rows;
    if rows != [] {
      assert forall i :: 0 <= i < |rows[1..]| ==> rows[1..][i] == rows[i + 1];
      assert rs[0] == header && rs[1] == rows[0];
      TailIsWhole(header, rows);
      KeptIsWhole(header, rows[1..], k, gone);
      var kept := Kept(rows[1..], k, gone);
      if Field(rows[0], k) in gone {
        assert Kept(rows, k, gone) == [] + kept == kept;
      } else {
        assert Kept(rows, k, gone) == [rows[0]] + kept;
        KeptOfTail(header, rows, kept);
      }
    }
  }

  lemma TailIsWhole(header: string, rows: seq<string>)
    requires WholeFile([header] + rows) && rows != []
    ensures WholeFile([header] + rows[1..])
  {
    hide IsRecord;
    var rs, rs' := [header] + rows, [header] + rows[1..];
    assert rs[0] == header;
    assert CompleteRecord(rs[0], false);
    forall i | 0 <= i < |rs'|
      ensures rs'[i] != "" && IsRecord(rs'[i]) && (CompleteRecord(rs'[i], false) || (i == |rs'| - 1 && OpenRecord(rs'[i], false)))
    {
      if i > 0 { assert rs'[i] == rs[i + 1]; }
    }
  }

  lemma KeptOfTail(header: string, rows: seq<string>, kept: seq<string>)
    requires WholeFile([header] + rows) && rows != []
    requires WholeFile([header] + kept) && |kept| <= |rows| - 1
    ensures WholeFile([header] + ([rows[0]] + kept))
  {
    hide IsRecord;
    var rs, ks, out := [header] + rows, [header] + kept, [header] + ([rows[0]] + kept);
    assert rs[0] == header && rs[1] == rows[0];
    assert CompleteRecord(rs[0], false);
    forall i | 0 <= i < |out|
      ensures out[i] != "" && IsRecord(out[i]) && (CompleteRecord(out[i], false) || (i == |out| - 1 && OpenRecord(out[i], false)))
    {
      if i == 1 {
        assert out[i] == rs[1];
      } else if i > 1 {
        assert out[i] == kept[i - 2] == ks[i - 1];
      }
    }
  }

  lemma RewrittenIsWhole(header: string, rows: seq<string>, after: seq<string>, t: nat)
    requires WholeFile([header] + rows) && Rewritten(rows, after, t)
    ensures WholeFile([header] + after)
  {
    hide IsRecord, Retitled;
    var rs, out := [header] + rows, [header] + after;
    assert rs[0] == header;
    forall i | 0 <= i < |out|
      ensures out[i] != "" && IsRecord(out[i]) && (CompleteRecord(out[i], false) || (i == |out| - 1 && OpenRecord(out[i], false)))
    {
      if i > 0 {
        assert rs[i] == rows[i - 1] && out[i] == after[i - 1];
        RewrittenRow(rows[i - 1], after[i - 1], t);
      } else {
        assert out[0] == rs[0];
      }
    }
  }

  lemma RewrittenRow(row: string, after: string, t: nat)
    requires IsRecord(row) && (after == row || exists title :: Retitled(row, t, title) == Ok(after))
    ensures IsRecord(after) && (CompleteRecord(after, false) <==> CompleteRecord(row, false))
    ensures after != "" && (CompleteRecord(after, false) || OpenRecord(after, false))
  {
    hide Retitled;
    if after != row {
      var title :| Retitled(row, t, title) == Ok(after);
      RetitledIsRecord(row, t, title);
    }
  }

  /** For any removal of rows and any rewriting of title cells, the file written back splits into exactly the rows
      that were written, despite newlines inside quotes and a last row without its terminator. */
  lemma ResplitsExactly(blob: string, header: string, rows: seq<string>, k: nat, gone: set<string>, after: seq<string>, t: nat)
    requires Split(blob) == Ok((header, rows))
    requires forall i :: 0 <= i < |rows| ==> Readable(rows[i], k)
    requires Rewritten(Kept(rows, k, gone), after, t)
    ensures Split(Join(header, after)) == Ok((header, after))
  {
    SplitIsInverse(blob, header, rows);
    KeptIsWhole(header, rows, k, gone);
    RewrittenIsWhole(header, Kept(rows, k, gone), after, t);
    JoinIsFlatten(header, after);
    SplitIsInverse(Join(header, after), header, after);
  }
}
