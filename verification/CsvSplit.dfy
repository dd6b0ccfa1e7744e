/** The quote-aware record splitter of `seed/scripts/preserved_archive.py`. A file is a sequence of characters: every
    byte that structures a CSV is ASCII, so UTF-8 never interferes. */
module CsvSplit {
  import opened Sequences
  import opened Outcomes

  /** Whether a field is open after reading `c`. */
  function Flip(c: char, inQuote: bool): bool {
    if c == '"' then !inQuote else inQuote
  }

  /** Whether a field is open after reading `s`. */
  function Flips(s: string, inQuote: bool): bool {
    if s == "" then inQuote else Flips(s[1..], Flip(s[0], inQuote))
  }

  predicate EndsRecord(c: char, inQuote: bool) {
    c == '\n' && !inQuote
  }

  /** The text up to and including the first newline outside quotes, or all of it. */
  function TakeRecord(s: string, inQuote: bool): (r: string)
    ensures r <= s && (s != "" ==> r != "")
  {
    if s == "" then ""
    else if EndsRecord(s[0], inQuote) then [s[0]]
    else [s[0]] + TakeRecord(s[1..], Flip(s[0], inQuote))
  }

  /** The records of a file. */
  function Records(s: string): (rs: seq<string>)
    ensures s == "" <==> rs == []
    decreases |s|
  {
    if s == "" then []
    else
      var r := TakeRecord(s, false);
      [r] + Records(s[|r|..])
  }

  /** `split_csv_records`: the header and the data records. */
  function Split(blob: string): Outcome<(string, seq<string>)> {
    if blob == "" || Flips(blob, false) then Refused
    else Ok((Records(blob)[0], Records(blob)[1..]))
  }

  /** `r` holds no newline outside quotes. */
  predicate OpenRecord(r: string, inQuote: bool) {
    r == "" || (!EndsRecord(r[0], inQuote) && OpenRecord(r[1..], Flip(r[0], inQuote)))
  }

  /** The only newline of `r` outside quotes is its last character. */
  predicate CompleteRecord(r: string, inQuote: bool) {
    r != "" && if EndsRecord(r[0], inQuote) then |r| == 1 else CompleteRecord(r[1..], Flip(r[0], inQuote))
  }

  /** What a file can consist of: complete records, and possibly a last one without its terminator. */
  ghost predicate RecordList(rs: seq<string>) {
    forall i :: 0 <= i < |rs| ==> rs[i] != "" && (CompleteRecord(rs[i], false) || (i == |rs| - 1 && OpenRecord(rs[i], false)))
  }

  lemma {:induction false} TakeCompleteRecord(r: string, rest: string, inQuote: bool)
    requires CompleteRecord(r, inQuote)
    ensures TakeRecord(r + rest, inQuote) == r
  {
    assert (r + rest)[0] == r[0];
    if !EndsRecord(r[0], inQuote) {
      TakeCompleteRecord(r[1..], rest, Flip(r[0], inQuote));
      assert (r + rest)[1..] == r[1..] + rest;
    }
  }

  lemma {:induction false} TakeOpenRecord(r: string, inQuote: bool)
    requires OpenRecord(r, inQuote)
    ensures TakeRecord(r, inQuote) == r
  {
    if r != "" { TakeOpenRecord(r[1..], Flip(r[0], inQuote)); }
  }

  lemma {:induction false} TakenRecord(s: string, inQuote: bool)
    requires s != ""
    ensures var r := TakeRecord(s, inQuote); CompleteRecord(r, inQuote) || (r == s && OpenRecord(r, inQuote))
  {
    if !EndsRecord(s[0], inQuote) && |s| > 1 {
      TakenRecord(s[1..], Flip(s[0], inQuote));
      var r := TakeRecord(s, inQuote);
      assert r[1..] == TakeRecord(s[1..], Flip(s[0], inQuote));
    }
  }

  /** Splitting loses nothing, and gives records only. */
  lemma {:induction false} RecordsAreTheFile(s: string)
    ensures Flatten(Records(s)) == s && RecordList(Records(s))
    decreases |s|
  {
    if s != "" {
      var r := TakeRecord(s, false);
      TakenRecord(s, false);
      RecordsAreTheFile(s[|r|..]);
      assert r + s[|r|..] == s;
      assert Records(s) == [r] + Records(s[|r|..]);
      assert Records(s)[1..] == Records(s[|r|..]);
    }
  }

  /** Splitting is exact: a list of records is what its concatenation splits into. */
  lemma {:induction false} RecordsOfFlatten(rs: seq<string>)
    requires RecordList(rs)
    ensures Records(Flatten(rs)) == rs
  {
    if rs != [] {
      var rest := Flatten(rs[1..]);
      RecordsOfFlatten(rs[1..]);
      if |rs| == 1 {
        assert rest == "" && rs[0] + rest == rs[0];
        if OpenRecord(rs[0], false) { TakeOpenRecord(rs[0], false); }
      }
      if CompleteRecord(rs[0], false) { TakeCompleteRecord(rs[0], rest, false); }
      assert (rs[0] + rest)[|rs[0]|..] == rest;
      assert rs == [rs[0]] + rs[1..];
    }
  }

  lemma {:induction false} FlipsAppend(a: string, b: string, inQuote: bool)
    ensures Flips(a + b, inQuote) == Flips(b, Flips(a, inQuote))
  {
    if a == "" {
      assert a + b == b;
    } else {
      FlipsAppend(a[1..], b, Flip(a[0], inQuote));
      assert (a + b)[0] == a[0] && (a + b)[1..] == a[1..] + b;
    }
  }

  lemma {:induction false} OpenAppend(a: string, b: string, inQuote: bool)
    ensures OpenRecord(a + b, inQuote) <==> OpenRecord(a, inQuote) && OpenRecord(b, Flips(a, inQuote))
    ensures OpenRecord(a, inQuote) ==> (CompleteRecord(a + b, inQuote) <==> CompleteRecord(b, Flips(a, inQuote)))
  {
    if a == "" {
      assert a + b == b;
    } else {
      OpenAppend(a[1..], b, Flip(a[0], inQuote));
      assert (a + b)[0] == a[0] && (a + b)[1..] == a[1..] + b;
    }
  }

  lemma {:induction false} CompleteNotOpen(r: string, inQuote: bool)
    ensures !(CompleteRecord(r, inQuote) && OpenRecord(r, inQuote))
    ensures CompleteRecord(r, inQuote) ==> !Flips(r, inQuote)
  {
    if r != "" && !EndsRecord(r[0], inQuote) { CompleteNotOpen(r[1..], Flip(r[0], inQuote)); }
  }

  // One more character of a record, at the loop's position.
  lemma SplitStep(blob: string, start: nat, i: nat)
    requires start <= i < |blob| && OpenRecord(blob[start..i], false)
    ensures Flips(blob[start..i + 1], false) == Flip(blob[i], Flips(blob[start..i], false))
    ensures if EndsRecord(blob[i], Flips(blob[start..i], false))
            then Records(blob[start..]) == [blob[start..i + 1]] + Records(blob[i + 1..])
            else OpenRecord(blob[start..i + 1], false)
  {
    var piece, c, q := blob[start..i], blob[i], Flips(blob[start..i], false);
    assert blob[start..i + 1] == piece + [c];
    FlipsAppend(piece, [c], false);
    OpenAppend(piece, [c], false);
    assert Flips([c], q) == Flip(c, q) by { assert Flips([c][1..], Flip(c, q)) == Flip(c, q); }
    if EndsRecord(c, q) {
      assert CompleteRecord([c], q);
      assert blob[start..] == (piece + [c]) + blob[i + 1..];
      TakeCompleteRecord(piece + [c], blob[i + 1..], false);
      assert blob[start..][i + 1 - start..] == blob[i + 1..];
    } else {
      assert OpenRecord([c], q);
    }
  }

  /** The loop of `split_csv_records`. */
  method SplitCsvRecords(blob: string) returns (r: Outcome<(string, seq<string>)>)
    ensures r == Split(blob)
  {
    var records: seq<string> := [];
    var start := 0;
    var inQuote := false;
    assert blob[0..] == blob;
    for i := 0 to |blob|
      invariant start <= i
      invariant OpenRecord(blob[start..i], false) && inQuote == Flips(blob[start..i], false)
      invariant Flips(blob[..i], false) == inQuote
      invariant Records(blob) == records + Records(blob[start..])
    {
      SplitStep(blob, start, i);
      WholeStep(blob, i);
      hide Flips, OpenRecord, Records;
      if blob[i] == '"' {
        inQuote := !inQuote;
      } else if blob[i] == '\n' && !inQuote {
        Associative(records, [blob[start..i + 1]], Records(blob[i + 1..]));
        records := records + [blob[start..i + 1]];
        start := i + 1;
        SplitFresh(blob, start);
      }
    }
    SplitEnd(blob, start);
    hide Flips, OpenRecord, Records;
    if start < |blob| {
      records := records + [blob[start..]];
    }
    assert records == Records(blob);
    if records == [] {
      return Refused;
    }
    if inQuote {
      return Refused;
    }
    return Ok((records[0], records[1..]));
  }

  lemma WholeStep(blob: string, i: nat)
    requires i < |blob|
    ensures Flips(blob[..i + 1], false) == Flip(blob[i], Flips(blob[..i], false))
  {
    assert blob[..i] == blob[0..i] && blob[..i + 1] == blob[..i] + [blob[i]];
    FlipsAppend(blob[..i], [blob[i]], false);
  }

  lemma SplitFresh(blob: string, start: nat)
    requires start <= |blob|
    ensures OpenRecord(blob[start..start], false) && !Flips(blob[start..start], false)
  {
  }

  lemma SplitEnd(blob: string, start: nat)
    requires start <= |blob| && OpenRecord(blob[start..|blob|], false)
    ensures blob[..|blob|] == blob && blob[start..|blob|] == blob[start..]
    ensures Records(blob[start..]) == if start < |blob| then [blob[start..]] else []
  {
    assert blob[start..|blob|] == blob[start..];
    TakeOpenRecord(blob[start..], false);
  }
}
