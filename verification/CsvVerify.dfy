/** The verifier of `seed/scripts/preserved_archive.py` as its loops run, proved against `VerifyCsv`. */
module CsvVerify {
  import opened Sequences
  import opened Outcomes
  import opened CsvSplit
  import opened CsvReader
  import opened CsvRetitle
  import opened CsvRows
  import opened CsvTable
  import opened CsvDocuments

  /** The row, if it is long enough and has the key. */
  function HitIn(row: string, k: nat, t: nat, key: string): seq<string> {
    if Readable(row, Max(k, t)) && Field(row, k) == key then [row] else []
  }

  lemma {:induction false} HitsSnoc(rows: seq<string>, row: string, k: nat, t: nat, key: string)
    ensures Hits(rows + [row], k, t, key) == Hits(rows, k, t, key) + HitIn(row, k, t, key)
  {
    if rows == [] {
      assert rows + [row] == [row] && [row][1..] == [];
    } else {
      HitsSnoc(rows[1..], row, k, t, key);
      assert (rows + [row])[0] == rows[0] && (rows + [row])[1..] == rows[1..] + [row];
      assert Hits(rows, k, t, key) == HitIn(rows[0], k, t, key) + Hits(rows[1..], k, t, key);
      assert Hits(rows + [row], k, t, key) == HitIn(rows[0], k, t, key) + Hits(rows[1..] + [row], k, t, key);
      hide HitIn, Hits;
      Associative(HitIn(rows[0], k, t, key), Hits(rows[1..], k, t, key), HitIn(row, k, t, key));
    }
  }

  /** The rows of each key. */
  ghost predicate Groups(byKey: map<string, seq<string>>, rows: seq<string>, k: nat, t: nat) {
    forall key :: Hits(rows, k, t, key) == if key in byKey then byKey[key] else []
  }

  ghost predicate AllParse(rows: seq<string>) {
    forall i :: 0 <= i < |rows| ==> Fields(rows[i]).Ok?
  }

  lemma GroupsStep(byKey: map<string, seq<string>>, rows: seq<string>, row: string, k: nat, t: nat)
    requires Groups(byKey, rows, k, t)
    ensures !Readable(row, Max(k, t)) ==> Groups(byKey, rows + [row], k, t)
    ensures Readable(row, Max(k, t)) ==>
              var key := Field(row, k);
              Groups(byKey[key := (if key in byKey then byKey[key] else []) + [row]], rows + [row], k, t)
  {
    hide Fields, Hits;
    forall key ensures Hits(rows + [row], k, t, key) == Hits(rows, k, t, key) + HitIn(row, k, t, key) {
      HitsSnoc(rows, row, k, t, key);
    }
  }

  /** The first loop of `_post_retitle_refusals`: the rows by key, and whether a surviving title breaks the rule. */
  method GroupRows(rows: seq<string>, k: nat, t: nat) returns (crashed: bool, byKey: map<string, seq<string>>, punctuated: bool)
    ensures crashed <==> !AllParse(rows)
    ensures !crashed ==> Groups(byKey, rows, k, t) && (punctuated <==> exists i :: 0 <= i < |rows| && TitleBroken(rows[i], k, t))
  {
    hide Fields, Hits;
    crashed, byKey, punctuated := false, map[], false;
    NoGroups(k, t);
    for i := 0 to |rows|
      invariant AllParse(rows[..i]) && Groups(byKey, rows[..i], k, t)
      invariant punctuated <==> exists j :: 0 <= j < i && TitleBroken(rows[j], k, t)
    {
      var row := rows[i];
      assert rows[..i + 1] == rows[..i] + [row];
      if !Fields(row).Ok? {
        return true, byKey, punctuated;
      }
      GroupsStep(byKey, rows[..i], row, k, t);
      if Readable(row, Max(k, t)) {
        var key := Field(row, k);
        byKey := byKey[key := (if key in byKey then byKey[key] else []) + [row]];
        if Punctuated(row, t) {
          punctuated := true;
        }
      }
    }
    assert rows[..|rows|] == rows;
  }

  lemma NoGroups(k: nat, t: nat)
    ensures Groups(map[], [], k, t)
  {
  }

  /** What one documented retitle's rows prove. */
  method CheckEntry(h: Hashes, rows: seq<string>, hits: seq<string>, e: Retitle, k: nat, t: nat) returns (r: Outcome<seq<Reason>>)
    requires hits == Hits(rows, k, t, e.key)
    ensures r == EntryReasons(h, rows, e, k, t)
  {
    if |hits| != 1 {
      return Ok([NotOneRow]);
    }
    var row := hits[0];
    hide Hits, Retitled;
    if !Readable(row, t) {
      return Crashed;
    }
    var out: seq<Reason> := If(Field(row, t) != e.after, WrongTitle) + If(h.sha(row) != e.rowAfter, WrongRowBytes);
    var back := Retitled(row, t, e.before);
    if back.Crashed? {
      return Crashed;
    }
    out := out + If(back.Refused? || h.sha(back.value) != e.rowBefore, ChangedOutsideTitle);
    return Ok(out);
  }

  /** The entries' reasons so far and to come. */
  function Gathered(done: seq<Reason>, rest: Outcome<seq<Reason>>): Outcome<seq<Reason>> {
    if rest.Ok? then Ok(done + rest.value) else rest
  }

  lemma EntriesStep(h: Hashes, rows: seq<string>, retitles: seq<Retitle>, k: nat, t: nat, i: nat, done: seq<Reason>)
    requires i < |retitles|
    ensures var head := EntryReasons(h, rows, retitles[i], k, t);
            Gathered(done, AllEntryReasons(h, rows, retitles[i..], k, t)) ==
            if head.Ok? then Gathered(done + head.value, AllEntryReasons(h, rows, retitles[i + 1..], k, t)) else head
  {
    hide EntryReasons;
    assert retitles[i..][0] == retitles[i] && retitles[i..][1..] == retitles[i + 1..];
    var (head, tail) := (EntryReasons(h, rows, retitles[i], k, t), AllEntryReasons(h, rows, retitles[i + 1..], k, t));
    if head.Ok? && tail.Ok? { Associative(done, head.value, tail.value); }
  }

  /** `_post_retitle_refusals`. */
  method PostRetitleRefusals(h: Hashes, retitles: seq<Retitle>, fields: seq<string>, rows: seq<string>, column: string)
    returns (r: Outcome<seq<Reason>>)
    ensures r == PostRetitle(h, retitles, fields, rows, column)
  {
    hide Fields, Hits, EntryReasons, AllEntryReasons, IndexOf, TitleBroken;
    if column !in fields || TITLE !in fields {
      return Ok([NoColumn]);
    }
    var k, t := IndexOf(fields, column), IndexOf(fields, TITLE);
    var crashed: bool, byKey: map<string, seq<string>>, punctuated: bool;
    crashed, byKey, punctuated := GroupRows(rows, k, t);
    if crashed {
      return Crashed;
    }
    var out: seq<Reason> := [];
    NoEntries(h, rows, retitles, k, t);
    for i := 0 to |retitles|
      invariant AllEntryReasons(h, rows, retitles, k, t) == Gathered(out, AllEntryReasons(h, rows, retitles[i..], k, t))
    {
      var e := retitles[i];
      EntriesStep(h, rows, retitles, k, t, i, out);
      var reasons :- CheckEntry(h, rows, if e.key in byKey then byKey[e.key] else [], e, k, t);
      out := out + reasons;
    }
    NoMoreEntries(h, rows, retitles, k, t, out);
    return Ok(If(punctuated, TitlePunctuated) + out);
  }

  lemma NoEntries(h: Hashes, rows: seq<string>, retitles: seq<Retitle>, k: nat, t: nat)
    ensures AllEntryReasons(h, rows, retitles, k, t) == Gathered([], AllEntryReasons(h, rows, retitles[0..], k, t))
  {
    assert retitles[0..] == retitles;
    var all := AllEntryReasons(h, rows, retitles, k, t);
    assert all.Ok? ==> [] + all.value == all.value;
  }

  lemma NoMoreEntries(h: Hashes, rows: seq<string>, retitles: seq<Retitle>, k: nat, t: nat, out: seq<Reason>)
    ensures Gathered(out, AllEntryReasons(h, rows, retitles[|retitles|..], k, t)) == Ok(out)
  {
    assert out + [] == out;
  }

  /** The keys of the rows long enough to have one; an unreadable row raises. */
  method PresentPaths(rows: seq<string>, k: nat) returns (crashed: bool, present: set<string>)
    ensures crashed <==> !AllParse(rows)
    ensures !crashed ==> forall key :: key in present <==> exists i :: 0 <= i < |rows| && Readable(rows[i], k) && Field(rows[i], k) == key
  {
    hide Fields;
    crashed, present := false, {};
    for i := 0 to |rows|
      invariant AllParse(rows[..i])
      invariant forall key :: key in present <==> exists j :: 0 <= j < i && Readable(rows[j], k) && Field(rows[j], k) == key
    {
      assert rows[..i + 1] == rows[..i] + [rows[i]];
      if !Fields(rows[i]).Ok? {
        return true, present;
      }
      if Readable(rows[i], k) {
        present := present + {Field(rows[i], k)};
      }
    }
    assert rows[..|rows|] == rows;
  }

  /** `verify_csv_transform`: every check runs, and every failure is reported. */
  method VerifyCsvTransform(h: Hashes, doc: CsvDocument, blob: string, original: Option<string>) returns (r: Outcome<seq<Reason>>)
    ensures r == VerifyCsv(h, doc, blob, original)
  {
    hide Split, Fields, FileReasons, PostRetitle, AgainstOriginal, TransformCsv, Recomputation, IndexOf;
    var refusals := If(h.sha(blob) == doc.frame.original.sha && (doc.removals != [] || doc.frame.retitles != []), StillOriginal);
    var parts := Split(blob);
    if parts.Crashed? {
      return Crashed;
    }
    if parts.Refused? {
      return Ok(refusals + [Unsplittable]);
    }
    var (header, rows) := parts.value;
    var fields :- Fields(header);
    var still := false;
    if FILE_PATH in fields {
      var k := IndexOf(fields, FILE_PATH);
      var crashed: bool, present: set<string>;
      crashed, present := PresentPaths(rows, k);
      if crashed {
        return Crashed;
      }
      still := exists key :: key in Paths(doc.removals) && key in present;
    }
    var post :- PostRetitleRefusals(h, doc.frame.retitles, fields, rows, FILE_PATH);
    var full: seq<Reason> := [];
    if original.Some? {
      full :- AgainstOriginal(h, doc.frame, blob, original.value, TransformCsv(h, original.value, doc),
                              Recomputation(h, doc.frame.retitles, original.value, FILE_PATH, Paths(doc.removals)));
    }
    return Ok(refusals + FileReasons(h, doc.frame, blob, header, rows, fields) + If(still, StillPresent) + post + full);
  }

  /** `verify_groups_transform`: besides, the asset counts are the documented ones. */
  method VerifyGroupsTransform(h: Hashes, doc: GroupsDocument, blob: string, original: Option<string>) returns (r: Outcome<seq<Reason>>)
    ensures r == VerifyGroups(h, doc, blob, original)
  {
    hide Split, Fields, FileReasons, PostRetitle, AgainstOriginal, TransformGroups, Recomputation, IndexOf, CountColumn;
    var refusals := If(h.sha(blob) == doc.frame.original.sha && doc.frame.retitles != [], StillOriginal);
    var parts := Split(blob);
    if parts.Crashed? {
      return Crashed;
    }
    if parts.Refused? {
      return Ok(refusals + [Unsplittable]);
    }
    var (header, rows) := parts.value;
    var fields :- Fields(header);
    var counted: seq<Reason> := [NoColumn];
    if ASSET_COUNT in fields {
      var counts :- CountColumn(rows, IndexOf(fields, ASSET_COUNT));
      counted := If(h.column(counts) != doc.countDigest, AssetCountChanged);
    }
    var post :- PostRetitleRefusals(h, doc.frame.retitles, fields, rows, GROUP_ID);
    var full: seq<Reason> := [];
    if original.Some? {
      full :- AgainstOriginal(h, doc.frame, blob, original.value, TransformGroups(h, original.value, doc),
                              Recomputation(h, doc.frame.retitles, original.value, GROUP_ID, {}));
    }
    return Ok(refusals + FileReasons(h, doc.frame, blob, header, rows, fields) + counted + post + full);
  }
}
