/** Rewriting the title cell of one record, and of every punctuated record
    (`retitle_record` and `_retitle_pass` in `seed/scripts/preserved_archive.py`). */
module CsvRetitle {
  import opened Sequences
  import opened Outcomes
  import opened TitleRule
  import opened CsvSplit
  import opened CsvCells
  import opened CsvReader

  /** `_record_body`: the content of a record, and the terminator it carried. */
  function RecordBody(record: string): (r: (string, string))
    ensures r.0 + r.1 == record
    ensures r.1 == "" || r.1 == "\n" || r.1 == "\r\n"
  {
    var n := |record|;
    if n >= 2 && record[n - 2] == '\r' && record[n - 1] == '\n' then
      assert record == record[..n - 2] + "\r\n"; (record[..n - 2], "\r\n")
    else if n >= 1 && record[n - 1] == '\n' then
      assert record == record[..n - 1] + "\n"; (record[..n - 1], "\n")
    else
      assert record == record + ""; (record, "")
  }

  /** An unquoted cell can carry the text: it holds no comma, quote or line break. */
  predicate Carriable(s: string) {
    Bare(s) && NoNewline(s)
  }

  /** The cell with another value, in the quoting it has. */
  function Rewrite(c: Cell, text: string): Outcome<Cell> {
    if c.Quoted? then Ok(Quoted(text)) else if Carriable(text) then Ok(Plain(text)) else Refused
  }

  /** `retitle_record`. */
  function Retitled(record: string, t: nat, title: string): Outcome<string> {
    var (body, term) := RecordBody(record);
    match ParseCells(body)
    case None => Refused
    case Some(cells) =>
      if |cells| <= t then Refused
      else
        var before :- Fields(record);
        if |before| <= t then Crashed
        else if cells[t].text != before[t] then Refused
        else
          var cell :- Rewrite(cells[t], title);
          var out := ShowCells(cells[t := cell]) + term;
          var after :- Fields(out);
          if after == before[t := title] then Ok(out) else Refused
  }

  // ----- the method, on positions -----

  /** `bytes.replace(b'""', b'"')`. */
  function Undoubled(s: string): string
    decreases |s|
  {
    if s == "" then ""
    else if |s| >= 2 && s[0] == '"' && s[1] == '"' then "\"" + Undoubled(s[2..])
    else [s[0]] + Undoubled(s[1..])
  }

  /** `_decode_cell`. */
  function DecodeCell(cell: string): string {
    if cell != "" && cell[0] == '"' then (if |cell| == 1 then "" else Undoubled(cell[1..|cell| - 1])) else cell
  }

  lemma {:induction false} UndoubledDoubled(s: string)
    ensures Undoubled(Doubled(s)) == s
  {
    if s != "" {
      UndoubledDoubled(s[1..]);
      var d := Doubled(s[1..]);
      assert s == [s[0]] + s[1..];
      if s[0] == '"' {
        assert Doubled(s) == "\"\"" + d && Doubled(s)[2..] == d;
      } else {
        assert Doubled(s) == [s[0]] + d && Doubled(s)[1..] == d;
      }
    }
  }

  lemma DecodeShown(c: Cell)
    requires ValidCell(c)
    ensures DecodeCell(Show(c)) == c.text
    ensures (Show(c) != "" && Show(c)[0] == '"') <==> c.Quoted?
  {
    if c.Quoted? {
      UndoubledDoubled(c.text);
      hide Undoubled, Doubled;
      assert Show(c)[1..|Show(c)| - 1] == Doubled(c.text);
    }
  }

  lemma {:induction false} SpanFrom(cells: seq<Cell>, t: nat, at: nat)
    requires t < |cells|
    ensures Spans(cells, at)[t] == (at + |Prefix(cells[..t])|, at + |Prefix(cells[..t])| + |Show(cells[t])|)
  {
    hide Show, ShowCells;
    if t > 0 {
      SpanFrom(cells[1..], t - 1, at + |Show(cells[0])| + 1);
      PrefixCons(cells[..t]);
      hide Prefix;
      assert cells[..t][0] == cells[0] && cells[..t][1..] == cells[1..][..t - 1];
    } else {
      assert cells[..t] == [];
    }
  }

  // The three slices of the content around the title cell.
  lemma CellSlices(cells: seq<Cell>, t: nat, d: Cell)
    requires t < |cells|
    ensures var body, (s, e) := ShowCells(cells), Spans(cells, 0)[t];
            && s <= e <= |body| && body[s..e] == Show(cells[t])
            && body[..s] + Show(d) + body[e..] == ShowCells(cells[t := d])
  {
    hide Show, ShowCells, Prefix, Spans;
    var pre, c, post := cells[..t], cells[t], cells[t + 1..];
    SpanFrom(cells, t, 0);
    assert cells == pre + [c] + post && cells[t := d] == pre + [d] + post;
    ShowCellsSplit(pre, c, post, "");
    ShowCellsSplit(pre, d, post, "");
    var p, x, y, tail := Prefix(pre), Show(c), Show(d), Tail(post, "");
    assert ShowCells(cells) == ShowCells(cells) + "" == p + (x + tail);
    assert ShowCells(cells[t := d]) == ShowCells(cells[t := d]) + "" == p + (y + tail);
    hide Tail;
    assert p + y + tail == p + (y + tail);
  }

  /** `retitle_record`, replacing the bytes of one span. */
  method RetitleRecord(record: string, t: nat, title: string) returns (r: Outcome<string>)
    ensures r == Retitled(record, t, title)
  {
    hide Fields, ParseCells, ShowCells, Spans, Show;
    var (body, term) := RecordBody(record);
    var scanned := ScanCells(body);
    if !scanned.Ok? {
      return Refused;
    }
    ghost var cells := ParseCells(body).value;
    ParsedCells(body);
    if |scanned.value| <= t {
      return Refused;
    }
    var (s, e) := scanned.value[t];
    CellSlices(cells, t, cells[t]);
    var cell := body[s..e];
    DecodeShown(cells[t]);
    var before :- Fields(record);
    if |before| <= t {
      return Crashed;
    }
    if DecodeCell(cell) != before[t] {
      return Refused;
    }
    var newCell;
    ghost var d: Cell;
    if cell != "" && cell[0] == '"' {
      newCell := "\"" + (Doubled(title) + "\"");
      d := Quoted(title);
    } else {
      if !Carriable(title) {
        return Refused;
      }
      newCell := title;
      d := Plain(title);
    }
    ShownCell(d, newCell);
    CellSlices(cells, t, d);
    var out := body[..s] + newCell + body[e..] + term;
    var after :- Fields(out);
    if after != before[t := title] {
      return Refused;
    }
    return Ok(out);
  }

  lemma ShownCell(d: Cell, shown: string)
    requires shown == if d.Quoted? then "\"" + (Doubled(d.text) + "\"") else d.text
    ensures Show(d) == shown
  {
  }

  // ----- laws of the rewrite -----

  /** `record` reads strictly as `cells` followed by `term`, and field `t` of it is the value of cell `t`. */
  ghost predicate ReadsAs(record: string, cells: seq<Cell>, term: string, t: nat, f: seq<string>) {
    && RecordBody(record) == (ShowCells(cells), term) && ValidCells(cells)
    && t < |cells| && Fields(record) == Ok(f) && t < |f| && f[t] == cells[t].text
  }

  /** The title cell can be located: the strict scanner takes the record, and its cell is the reader's field. */
  ghost predicate Locatable(record: string, t: nat) {
    exists cells, term, f :: ReadsAs(record, cells, term, t, f)
  }

  lemma LocatableCells(record: string, t: nat) returns (cells: seq<Cell>, term: string, f: seq<string>)
    requires Locatable(record, t)
    ensures ReadsAs(record, cells, term, t, f) && ParseCells(RecordBody(record).0) == Some(cells)
  {
    cells, term, f :| ReadsAs(record, cells, term, t, f);
    ParseShownCells(cells);
  }

  /** What a rewrite that succeeds has read and written. */
  lemma RetitledReads(record: string, t: nat, title: string) returns (cells: seq<Cell>, term: string, f: seq<string>, d: Cell)
    requires Retitled(record, t, title).Ok?
    ensures ReadsAs(record, cells, term, t, f)
    ensures Rewrite(cells[t], title) == Ok(d)
    ensures Retitled(record, t, title) == Ok(ShowCells(cells[t := d]) + term)
    ensures Fields(ShowCells(cells[t := d]) + term) == Ok(f[t := title])
  {
    var parts := RecordBody(record);
    term := parts.1;
    cells := ParseCells(parts.0).value;
    ParsedCells(parts.0);
    f := Fields(record).value;
    d := Rewrite(cells[t], title).value;
  }

  lemma ReadsAsIsCalm(record: string, cells: seq<Cell>, term: string, t: nat, f: seq<string>)
    requires ReadsAs(record, cells, term, t, f)
    ensures forall i :: 0 <= i <= t ==> Calm(cells[i])
    ensures record == ShowCells(cells) + term
  {
    CalmUpTo(cells, term, t, t + 1, f);
  }

  /** A locatable title takes any value its quoting can carry, except that an only cell may not lose its last byte. */
  lemma RetitleSucceeds(record: string, cells: seq<Cell>, term: string, t: nat, f: seq<string>, title: string)
    requires ReadsAs(record, cells, term, t, f)
    requires Rewrite(cells[t], title).Ok? && title != ""
    ensures var d := Rewrite(cells[t], title).value;
            && Retitled(record, t, title) == Ok(ShowCells(cells[t := d]) + term)
            && Fields(ShowCells(cells[t := d]) + term) == Ok(f[t := title])
  {
    ReadsAsIsCalm(record, cells, term, t, f);
    ParseShownCells(cells);
    var d := Rewrite(cells[t], title).value;
    ReadAfterRewrite(cells, term, t, f, d);
  }

  lemma ReadAfterRewrite(cells: seq<Cell>, term: string, t: nat, f: seq<string>, d: Cell)
    requires ValidCells(cells) && t < |cells| && (forall i :: 0 <= i <= t ==> Calm(cells[i]))
    requires term == "" || term == "\n" || term == "\r\n"
    requires Fields(ShowCells(cells) + term) == Ok(f) && t < |f|
    requires ValidCell(d) && Calm(d) && d != Plain("")
    ensures Fields(ShowCells(cells[t := d]) + term) == Ok(f[t := d.text])
  {
    hide Fields, ShowCells, Show, Prefix, Calm, ValidCell;
    var pre, c, post := cells[..t], cells[t], cells[t + 1..];
    assert cells == pre + [c] + post && cells[t := d] == pre + [d] + post;
    ShowCellsSplit(pre, c, post, term);
    ShowCellsSplit(pre, d, post, term);
    assert IsTail(Tail(post, term));
    CellReplaced(pre, c, d, Tail(post, term), f);
  }

  predicate EndsWith(s: string, x: char) {
    s != "" && s[|s| - 1] == x
  }

  lemma EndOfCells(init: seq<Cell>, c: Cell, x: char)
    requires IsNewline(x)
    ensures EndsWith(ShowCells(init + [c]), x) <==> EndsWith(Show(c), x)
  {
    ShowCellsSnoc(init, c);
    hide ShowCells, Show;
    if init != [] { assert EndsWith(Prefix(init), ','); }
  }

  lemma CalmEnd(c: Cell, x: char)
    requires IsNewline(x) && Calm(c)
    ensures !EndsWith(Show(c), x)
  {
    if c.Plain? && c.text != "" { LastIsCalm(c.text); }
  }

  // The content ends in a line break no more than it did.
  lemma LastByte(cells: seq<Cell>, t: nat, d: Cell, x: char)
    requires t < |cells| && IsNewline(x) && Calm(d)
    requires !EndsWith(ShowCells(cells), x)
    ensures !EndsWith(ShowCells(cells[t := d]), x)
  {
    hide ShowCells, Show, Calm, EndsWith;
    var after := cells[t := d];
    var n := |cells| - 1;
    assert cells == cells[..n] + [cells[n]] && after == after[..n] + [after[n]];
    EndOfCells(cells[..n], cells[n], x);
    EndOfCells(after[..n], after[n], x);
    if t == n { CalmEnd(d, x); }
  }

  lemma {:induction false} LastIsCalm(s: string)
    requires s != "" && NoNewline(s)
    ensures !IsNewline(s[|s| - 1])
  {
    if |s| > 1 { LastIsCalm(s[1..]); }
  }

  lemma BodyOf(body: string, term: string)
    requires term == "\r\n"
          || (term == "\n" && (body == "" || body[|body| - 1] != '\r'))
          || (term == "" && (body == "" || body[|body| - 1] != '\n'))
    ensures RecordBody(body + term) == (body, term)
  {
    var s := body + term;
    if term == "\r\n" {
      assert s[..|s| - 2] == body;
    } else if term == "\n" {
      assert s[..|s| - 1] == body;
      if |s| >= 2 { assert s[|s| - 2] == body[|body| - 1]; }
    } else {
      assert s == body;
    }
  }

  lemma BodyAfterRewrite(record: string, cells: seq<Cell>, term: string, t: nat, d: Cell)
    requires RecordBody(record) == (ShowCells(cells), term)
    requires t < |cells| && Calm(d)
    ensures RecordBody(ShowCells(cells[t := d]) + term) == (ShowCells(cells[t := d]), term)
  {
    hide ShowCells, Calm;
    var body := ShowCells(cells);
    if term == "\n" {
      if body != "" { assert record[|record| - 2] == body[|body| - 1]; }
      LastByte(cells, t, d, '\r');
    } else if term == "" {
      LastByte(cells, t, d, '\n');
    }
    BodyOf(ShowCells(cells[t := d]), term);
  }

  /** Invertible, on every record: a rewrite that succeeds can be undone, and undoing it gives the record back byte
      for byte. So the inverse check of `_retitle_pass` can never fire. */
  lemma RetitleInverse(record: string, t: nat, title: string)
    requires Retitled(record, t, title).Ok?
    ensures Fields(record).Ok? && t < |Fields(record).value|
    ensures Retitled(Retitled(record, t, title).value, t, Fields(record).value[t]) == Ok(record)
  {
    var cells, term, f, d := RetitledReads(record, t, title);
    ReadsAsIsCalm(record, cells, term, t, f);
    hide Fields, ShowCells, Retitled;
    var after, out := cells[t := d], ShowCells(cells[t := d]) + term;
    assert ValidCell(d) && Calm(d);
    BodyAfterRewrite(record, cells, term, t, d);
    ParseShownCells(after);
    assert after[t := cells[t]] == cells && f[t := title][t := f[t]] == f;
    assert Rewrite(after[t], f[t]) == Ok(cells[t]);
    RetitledFrom(out, after, term, t, f[t := title], f[t], cells[t]);
  }

  lemma RetitledFrom(record: string, cells: seq<Cell>, term: string, t: nat, f: seq<string>, title: string, d: Cell)
    requires ReadsAs(record, cells, term, t, f) && Rewrite(cells[t], title) == Ok(d)
    requires Fields(ShowCells(cells[t := d]) + term) == Ok(f[t := title])
    ensures Retitled(record, t, title) == Ok(ShowCells(cells[t := d]) + term)
  {
    ParseShownCells(cells);
  }

  lemma {:induction false} RuleOutputIsCarriable(s: string, text: string)
    requires Carriable(text)
    requires forall i :: 0 <= i < |s| ==> (s[i] in text || s[i] == ' ' || s[i] == '-')
    ensures Carriable(s)
  {
    if s != "" {
      CarriableCharacters(text);
      RuleOutputIsCarriable(s[1..], text);
    }
  }

  lemma {:induction false} CarriableCharacters(s: string)
    requires Carriable(s)
    ensures forall c :: c in s ==> c != '"' && c != ',' && !IsNewline(c)
  {
    if s != "" {
      CarriableCharacters(s[1..]);
      assert s == [s[0]] + s[1..];
    }
  }

  lemma RuleKeepsCarriable(text: string)
    requires Carriable(text)
    ensures Carriable(AssetTitle(text))
  {
    EmittedCharacters(text, TITLE_SEPARATORS, |text|);
    hide Emitted;
    RuleOutputIsCarriable(AssetTitle(text), text);
  }

  lemma RuleIsAccepted(record: string, cells: seq<Cell>, term: string, t: nat, f: seq<string>)
    requires ReadsAs(record, cells, term, t, f) && HasTitleSeparator(f[t])
    ensures Retitled(record, t, AssetTitle(f[t])).Ok?
  {
    ReadsAsIsCalm(record, cells, term, t, f);
    NormalizedNotEmpty(f[t], TITLE_SEPARATORS);
    hide Fields, Retitled, HasTitleSeparator, Carriable, ShowCells, Normalized;
    if cells[t].Plain? {
      assert Carriable(f[t]) by { CarriableText(cells[t]); }
      RuleKeepsCarriable(f[t]);
    }
    RetitleSucceeds(record, cells, term, t, f, AssetTitle(f[t]));
  }

  lemma CarriableText(c: Cell)
    requires ValidCell(c) && Calm(c) && c.Plain?
    ensures Carriable(c.text)
  {
  }

  /** The title rule is never refused: retitling by the rule succeeds on exactly the records whose title cell can be
      located. */
  lemma RetitleByRule(record: string, t: nat)
    requires Fields(record).Ok? && t < |Fields(record).value| && HasTitleSeparator(Fields(record).value[t])
    ensures Retitled(record, t, AssetTitle(Fields(record).value[t])).Ok? <==> Locatable(record, t)
  {
    hide Fields, Retitled, HasTitleSeparator, AssetTitle;
    var title := AssetTitle(Fields(record).value[t]);
    if Retitled(record, t, title).Ok? {
      var _, _, _, _ := RetitledReads(record, t, title);
    }
    if Locatable(record, t) {
      var cells, term, f := LocatableCells(record, t);
      RuleIsAccepted(record, cells, term, t, f);
    }
  }

  // ----- a rewritten record is still one record -----

  predicate OneLine(c: Cell) {
    c.Plain? ==> OpenRecord(c.text, false)
  }

  lemma {:induction false} BareFlips(s: string, inQuote: bool)
    requires Bare(s)
    ensures Flips(s, inQuote) == inQuote
  {
    if s != "" { BareFlips(s[1..], inQuote); }
  }

  lemma {:induction false} DoubledIsOpen(s: string)
    ensures OpenRecord(Doubled(s), true) && Flips(Doubled(s), true)
  {
    if s != "" {
      DoubledIsOpen(s[1..]);
      var head := if s[0] == '"' then "\"\"" else [s[0]];
      assert OpenRecord(head, true) && Flips(head, true) by {
        if s[0] == '"' { assert head[1..] == "\""; }
      }
      OpenAppend(head, Doubled(s[1..]), true);
      FlipsAppend(head, Doubled(s[1..]), true);
    }
  }

  lemma ShownIsOpen(c: Cell)
    requires ValidCell(c)
    ensures !Flips(Show(c), false)
    ensures OpenRecord(Show(c), false) <==> OneLine(c)
  {
    if c.Plain? {
      BareFlips(c.text, false);
    } else {
      var inner := Doubled(c.text);
      DoubledIsOpen(c.text);
      OpenAppend("\"", inner + "\"", false);
      FlipsAppend("\"", inner + "\"", false);
      OpenAppend(inner, "\"", true);
      FlipsAppend(inner, "\"", true);
      assert Flips("\"", false) && !Flips("\"", true) && OpenRecord("\"", true) && OpenRecord("\"", false);
    }
  }

  /** The scanner and the splitter agree on quoting: cells leave no quote open, and a newline outside quotes is one
      in an unquoted cell. */
  lemma {:induction false} CellsAreOpen(cells: seq<Cell>)
    requires forall i :: 0 <= i < |cells| ==> ValidCell(cells[i])
    ensures !Flips(ShowCells(cells), false)
    ensures OpenRecord(ShowCells(cells), false) <==> forall i :: 0 <= i < |cells| ==> OneLine(cells[i])
  {
    if cells != [] {
      ShownIsOpen(cells[0]);
      hide Show, OneLine, ValidCell;
      if |cells| > 1 {
        CellsAreOpen(cells[1..]);
        var rest := ShowCells(cells[1..]);
        OpenAppend(",", rest, false);
        FlipsAppend(",", rest, false);
        assert !Flips(",", false) && OpenRecord(",", false);
        OpenAppend(Show(cells[0]), "," + rest, false);
        FlipsAppend(Show(cells[0]), "," + rest, false);
        assert (forall i :: 0 <= i < |cells| ==> OneLine(cells[i])) <==>
               OneLine(cells[0]) && (forall i :: 0 <= i < |cells[1..]| ==> OneLine(cells[1..][i])) by {
          assert forall i :: 0 < i < |cells| ==> cells[i] == cells[1..][i - 1];
        }
      }
    }
  }

  lemma {:induction false} CompleteEnds(r: string, inQuote: bool)
    requires CompleteRecord(r, inQuote)
    ensures r[|r| - 1] == '\n' && OpenRecord(r[..|r| - 1], inQuote)
  {
    if !EndsRecord(r[0], inQuote) {
      CompleteEnds(r[1..], Flip(r[0], inQuote));
      assert r[..|r| - 1][1..] == r[1..][..|r[1..]| - 1];
    }
  }

  /** One whole record: no quote left open, and no newline outside quotes but at its end. */
  predicate IsRecord(r: string) {
    r != "" && !Flips(r, false) && (CompleteRecord(r, false) || OpenRecord(r, false))
  }

  // The content of a record is open, and its terminator says whether it is complete.
  lemma RecordContent(record: string)
    requires IsRecord(record)
    ensures var (body, term) := RecordBody(record); OpenRecord(body, false) && (CompleteRecord(record, false) <==> term != "")
  {
    var (body, term) := RecordBody(record);
    CompleteNotOpen(record, false);
    if CompleteRecord(record, false) {
      CompleteEnds(record, false);
      if term == "\r\n" {
        assert record[..|record| - 1] == body + "\r";
        OpenAppend(body, "\r", false);
      } else {
        assert record[..|record| - 1] == body;
      }
    } else if term != "" {
      OpenAppend(body, term, false);
      FlipsAppend(body, term, false);
      TerminatorIsNotOpen(term, Flips(body, false));
    }
  }

  lemma TerminatorIsNotOpen(term: string, inQuote: bool)
    requires term == "\n" || term == "\r\n"
    ensures Flips(term, inQuote) == inQuote
    ensures OpenRecord(term, inQuote) <==> inQuote
    ensures CompleteRecord(term, inQuote) <==> !inQuote
  {
    if term == "\r\n" { assert term[1..] == "\n"; }
    assert "\n"[1..] == "";
  }

  /** A rewritten record is still one record, complete if it was, so the file still splits at the same places. */
  lemma RetitledIsRecord(record: string, t: nat, title: string)
    requires IsRecord(record) && Retitled(record, t, title).Ok?
    ensures var out := Retitled(record, t, title).value;
            IsRecord(out) && (CompleteRecord(out, false) <==> CompleteRecord(record, false))
  {
    var cells, term, f, d := RetitledReads(record, t, title);
    ReadsAsIsCalm(record, cells, term, t, f);
    RecordContent(record);
    assert Fields("") == Ok([]);
    assert d == Rewrite(cells[t], title).value && ValidCell(d) && (d.Plain? ==> Carriable(title) && d.text == title);
    hide Fields, Retitled, ShowCells, Rewrite;
    if d.Plain? { CalmIsOneLine(title); }
    OneLineCells(cells, t, d);
    hide OneLine;
    var body := ShowCells(cells[t := d]);
    ContentAndTerm(body, term);
    ContentAndTerm(ShowCells(cells), term);
  }

  lemma OneLineCells(cells: seq<Cell>, t: nat, d: Cell)
    requires ValidCells(cells) && t < |cells| && ValidCell(d) && OneLine(d)
    requires OpenRecord(ShowCells(cells), false)
    ensures !Flips(ShowCells(cells), false)
    ensures OpenRecord(ShowCells(cells[t := d]), false) && !Flips(ShowCells(cells[t := d]), false)
  {
    hide OneLine, ValidCell;
    CellsAreOpen(cells);
    CellsAreOpen(cells[t := d]);
  }

  lemma ContentAndTerm(body: string, term: string)
    requires OpenRecord(body, false) && !Flips(body, false)
    requires term == "" || term == "\n" || term == "\r\n"
    ensures CompleteRecord(body + term, false) <==> term != ""
    ensures body + term != "" ==> IsRecord(body + term)
  {
    OpenAppend(body, term, false);
    FlipsAppend(body, term, false);
    if term != "" {
      TerminatorIsNotOpen(term, false);
    } else {
      assert body + term == body;
      CompleteNotOpen(body, false);
    }
  }

  lemma {:induction false} CalmIsOneLine(s: string)
    requires Bare(s) && NoNewline(s)
    ensures OpenRecord(s, false)
  {
    if s != "" { CalmIsOneLine(s[1..]); }
  }
}
