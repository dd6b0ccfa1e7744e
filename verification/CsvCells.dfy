/** The strict cell scanner of `seed/scripts/preserved_archive.py`: the cells of one record's content, by position. */
module CsvCells {
  import opened Sequences
  import opened Outcomes

  /** A cell with its quoting; `text` is the value `_decode_cell` gives. */
  datatype Cell = Plain(text: string) | Quoted(text: string)

  /** Every quote twice: the only escape a quoted cell has. */
  function Doubled(s: string): string {
    if s == "" then "" else Escaped(s[0]) + Doubled(s[1..])
  }

  function Escaped(c: char): string {
    if c == '"' then "\"\"" else [c]
  }

  /** The bytes of a cell. */
  function Show(c: Cell): string {
    match c
    case Plain(text) => text
    case Quoted(text) => "\"" + (Doubled(text) + "\"")
  }

  /** Neither a quote nor a comma. */
  predicate Bare(s: string) {
    s == "" || (s[0] != '"' && s[0] != ',' && Bare(s[1..]))
  }

  predicate ValidCell(c: Cell) {
    c.Plain? ==> Bare(c.text)
  }

  ghost predicate ValidCells(cells: seq<Cell>) {
    cells != [] && forall i :: 0 <= i < |cells| ==> ValidCell(cells[i])
  }

  /** The content of a record, its cells separated by single commas. */
  function ShowCells(cells: seq<Cell>): string {
    if cells == [] then ""
    else if |cells| == 1 then Show(cells[0])
    else Show(cells[0]) + ("," + ShowCells(cells[1..]))
  }

  /** From just inside an opening quote: the text up to the closing quote, and what follows it. */
  function ParseQuoted(s: string): (r: Option<(string, string)>)
    ensures r.Some? ==> |r.value.1| < |s|
    decreases |s|
  {
    if s == "" then None
    else if s[0] != '"' then
      match ParseQuoted(s[1..])
      case None => None
      case Some(p) => Some(([s[0]] + p.0, p.1))
    else if |s| > 1 && s[1] == '"' then
      match ParseQuoted(s[2..])
      case None => None
      case Some(p) => Some(("\"" + p.0, p.1))
    else Some(("", s[1..]))
  }

  function ParsePlain(s: string): (r: Option<(string, string)>)
    ensures r.Some? ==> |r.value.1| <= |s| && (r.value.1 == "" || r.value.1[0] == ',')
  {
    if s == "" || s[0] == ',' then Some(("", s))
    else if s[0] == '"' then None
    else
      match ParsePlain(s[1..])
      case None => None
      case Some(p) => Some(([s[0]] + p.0, p.1))
  }

  /** One cell, and what follows it: nothing, or a comma. */
  function ParseCell(s: string): (r: Option<(Cell, string)>)
    ensures r.Some? ==> |r.value.1| <= |s| && (r.value.1 == "" || r.value.1[0] == ',')
  {
    if s != "" && s[0] == '"' then
      match ParseQuoted(s[1..])
      case None => None
      case Some(p) => if p.1 != "" && p.1[0] != ',' then None else Some((Quoted(p.0), p.1))
    else
      match ParsePlain(s)
      case None => None
      case Some(p) => Some((Plain(p.0), p.1))
  }

  /** The cells of a record's content, if it is strict: no text after a closing quote, no quote in an unquoted cell. */
  function ParseCells(s: string): (r: Option<seq<Cell>>)
    ensures r.Some? ==> r.value != []
    decreases |s|
  {
    match ParseCell(s)
    case None => None
    case Some(p) =>
      if p.1 == "" then Some([p.0])
      else
        match ParseCells(p.1[1..])
        case None => None
        case Some(cells) => Some([p.0] + cells)
  }

  lemma {:induction false} ParseQuotedShown(text: string, rest: string)
    requires rest == "" || rest[0] != '"'
    ensures ParseQuoted(Doubled(text) + "\"" + rest) == Some((text, rest))
  {
    var s := Doubled(text) + "\"" + rest;
    if text == "" {
      assert s == "\"" + rest && s[1..] == rest;
    } else {
      ParseQuotedShown(text[1..], rest);
      var tail := Doubled(text[1..]) + "\"" + rest;
      if text[0] == '"' {
        assert s == "\"\"" + tail && s[2..] == tail;
        assert text == "\"" + text[1..];
      } else {
        assert s == [text[0]] + tail && s[1..] == tail;
        assert text == [text[0]] + text[1..];
      }
    }
  }

  lemma {:induction false} ParsedQuoted(s: string)
    requires ParseQuoted(s).Some?
    ensures var p := ParseQuoted(s).value; s == Doubled(p.0) + "\"" + p.1
    decreases |s|
  {
    var p := ParseQuoted(s).value;
    if s[0] != '"' {
      ParsedQuoted(s[1..]);
      assert p.0[1..] == ParseQuoted(s[1..]).value.0;
      assert s == [s[0]] + s[1..];
    } else if |s| > 1 && s[1] == '"' {
      ParsedQuoted(s[2..]);
      assert p.0[1..] == ParseQuoted(s[2..]).value.0;
      assert s == "\"\"" + s[2..];
    } else {
      assert s == "\"" + s[1..];
    }
  }

  lemma {:induction false} ParsePlainShown(text: string, rest: string)
    requires Bare(text) && (rest == "" || rest[0] == ',')
    ensures ParsePlain(text + rest) == Some((text, rest))
  {
    if text == "" {
      assert text + rest == rest;
    } else {
      ParsePlainShown(text[1..], rest);
      assert (text + rest)[0] == text[0] && (text + rest)[1..] == text[1..] + rest;
      assert text == [text[0]] + text[1..];
    }
  }

  lemma {:induction false} ParsedPlain(s: string)
    requires ParsePlain(s).Some?
    ensures var p := ParsePlain(s).value; s == p.0 + p.1 && Bare(p.0)
  {
    if s != "" && s[0] != ',' {
      ParsedPlain(s[1..]);
      var p := ParsePlain(s).value;
      assert p.0[1..] == ParsePlain(s[1..]).value.0;
      assert s == [s[0]] + s[1..];
    }
  }

  lemma ParseCellShown(c: Cell, rest: string)
    requires ValidCell(c) && (rest == "" || rest[0] == ',')
    ensures ParseCell(Show(c) + rest) == Some((c, rest))
  {
    match c
    case Plain(text) =>
      ParsePlainShown(text, rest);
      if text != "" { assert (text + rest)[0] == text[0]; }
    case Quoted(text) =>
      ParseQuotedShown(text, rest);
      var s := Show(c) + rest;
      assert s[1..] == Doubled(text) + "\"" + rest && s[0] == '"';
  }

  lemma ParsedCell(s: string)
    requires ParseCell(s).Some?
    ensures var p := ParseCell(s).value; s == Show(p.0) + p.1 && ValidCell(p.0)
  {
    if s != "" && s[0] == '"' {
      ParsedQuoted(s[1..]);
      assert s == "\"" + s[1..];
    } else {
      ParsedPlain(s);
    }
  }

  /** The parser reads back what the cells print ... */
  lemma {:induction false} ParseShownCells(cells: seq<Cell>)
    requires ValidCells(cells)
    ensures ParseCells(ShowCells(cells)) == Some(cells)
  {
    if |cells| == 1 {
      ParseCellShown(cells[0], "");
      assert Show(cells[0]) + "" == Show(cells[0]);
      assert cells == [cells[0]];
    } else {
      var rest := "," + ShowCells(cells[1..]);
      ParseCellShown(cells[0], rest);
      ParseShownCells(cells[1..]);
      assert rest[1..] == ShowCells(cells[1..]);
      assert cells == [cells[0]] + cells[1..];
    }
  }

  /** ... and whatever it reads is valid and prints back to the same bytes. */
  lemma {:induction false} ParsedCells(s: string)
    requires ParseCells(s).Some?
    ensures ValidCells(ParseCells(s).value) && ShowCells(ParseCells(s).value) == s
    decreases |s|
  {
    ParsedCell(s);
    var p := ParseCell(s).value;
    if p.1 == "" {
      assert s == Show(p.0);
    } else {
      ParsedCells(p.1[1..]);
      var cells := ParseCells(s).value;
      assert cells[1..] == ParseCells(p.1[1..]).value;
      assert p.1 == "," + p.1[1..];
    }
  }

  // ----- positions -----

  /** Where the cell after `cells` starts, if the first of them starts at `at`. */
  function NextStart(cells: seq<Cell>, at: nat): nat {
    if cells == [] then at else NextStart(cells[1..], at + |Show(cells[0])| + 1)
  }

  /** The (start, end) of every cell, the first of them starting at `at`. */
  function Spans(cells: seq<Cell>, at: nat): (spans: seq<(nat, nat)>)
    ensures |spans| == |cells|
  {
    if cells == [] then [] else [(at, at + |Show(cells[0])|)] + Spans(cells[1..], at + |Show(cells[0])| + 1)
  }

  lemma {:induction false} SpansSnoc(cells: seq<Cell>, c: Cell, at: nat)
    ensures Spans(cells + [c], at)
         == Spans(cells, at) + [(NextStart(cells, at), NextStart(cells, at) + |Show(c)|)]
    ensures NextStart(cells + [c], at) == NextStart(cells, at) + |Show(c)| + 1
  {
    hide Show;
    if cells == [] {
      assert cells + [c] == [c];
      assert [c][1..] == [];
    } else {
      SpansSnoc(cells[1..], c, at + |Show(cells[0])| + 1);
      assert (cells + [c])[0] == cells[0] && (cells + [c])[1..] == cells[1..] + [c];
    }
  }

  /** What `_cell_spans` returns. */
  function CellSpans(body: string): Outcome<seq<(nat, nat)>> {
    match ParseCells(body)
    case None => Refused
    case Some(cells) => Ok(Spans(cells, 0))
  }

  function PrependCells(done: seq<Cell>, rest: Option<seq<Cell>>): Option<seq<Cell>> {
    match rest
    case None => None
    case Some(cells) => Some(done + cells)
  }

  function PrependText(text: string, rest: Option<(string, string)>): Option<(string, string)> {
    match rest
    case None => None
    case Some(p) => Some((text + p.0, p.1))
  }

  // The inner loop, one step inside a quoted cell.
  lemma QuotedStep(body: string, open: nat, i: nat, text: string)
    requires open <= i < |body|
    requires ParseQuoted(body[open..]) == PrependText(text, ParseQuoted(body[i..]))
    ensures body[i] != '"' ==> ParseQuoted(body[open..]) == PrependText(text + [body[i]], ParseQuoted(body[i + 1..]))
    ensures body[i] == '"' && i + 1 < |body| && body[i + 1] == '"' ==>
              ParseQuoted(body[open..]) == PrependText(text + "\"", ParseQuoted(body[i + 2..]))
    ensures body[i] == '"' && !(i + 1 < |body| && body[i + 1] == '"') ==>
              ParseQuoted(body[open..]) == Some((text, body[i + 1..]))
  {
    var s := body[i..];
    assert s[0] == body[i] && s[1..] == body[i + 1..];
    if body[i] != '"' {
      if ParseQuoted(s[1..]).Some? { Associative(text, [body[i]], ParseQuoted(s[1..]).value.0); }
    } else if i + 1 < |body| && body[i + 1] == '"' {
      assert s[1] == '"' && s[2..] == body[i + 2..];
      if ParseQuoted(s[2..]).Some? { Associative(text, "\"", ParseQuoted(s[2..]).value.0); }
    } else {
      assert text + "" == text;
    }
  }

  lemma PlainStep(body: string, start: nat, i: nat, text: string)
    requires start <= i < |body| && body[i] != ','
    requires ParsePlain(body[start..]) == PrependText(text, ParsePlain(body[i..]))
    ensures body[i] == '"' ==> ParsePlain(body[start..]).None?
    ensures body[i] != '"' ==> ParsePlain(body[start..]) == PrependText(text + [body[i]], ParsePlain(body[i + 1..]))
  {
    var s := body[i..];
    assert s[0] == body[i] && s[1..] == body[i + 1..];
    if body[i] != '"' && ParsePlain(s[1..]).Some? {
      Associative(text, [body[i]], ParsePlain(s[1..]).value.0);
    }
  }

  // The outer loop, once a cell has been read.
  lemma CellStep(body: string, start: nat, i: nat, done: seq<Cell>, c: Cell)
    requires start <= i <= |body|
    requires ParseCell(body[start..]) == Some((c, body[i..]))
    requires ParseCells(body) == PrependCells(done, ParseCells(body[start..]))
    ensures i == start + |Show(c)|
    ensures i == |body| ==> ParseCells(body) == Some(done + [c])
    ensures i < |body| ==> body[i] == ',' && ParseCells(body) == PrependCells(done + [c], ParseCells(body[i + 1..]))
  {
    ParsedCell(body[start..]);
    assert |body[start..]| == |Show(c)| + |body[i..]|;
    if i < |body| {
      assert body[i..][0] == body[i] && body[i..][1..] == body[i + 1..];
      if ParseCells(body[i + 1..]).Some? { Associative(done, [c], ParseCells(body[i + 1..]).value); }
    }
  }

  lemma EmptyTail(body: string)
    ensures ParseCells(body[|body|..]) == Some([Plain("")])
  {
    assert body[|body|..] == "";
  }

  lemma BeginCell(body: string, start: nat)
    requires start <= |body|
    ensures ParseQuoted(body[start..]) == PrependText("", ParseQuoted(body[start..]))
    ensures ParsePlain(body[start..]) == PrependText("", ParsePlain(body[start..]))
  {
    var s := body[start..];
    hide ParseQuoted, ParsePlain;
    if ParseQuoted(s).Some? { assert "" + ParseQuoted(s).value.0 == ParseQuoted(s).value.0; }
    if ParsePlain(s).Some? { assert "" + ParsePlain(s).value.0 == ParsePlain(s).value.0; }
  }

  /** The inner loop over a quoted cell, from its opening quote. */
  method ScanQuoted(body: string, start: nat) returns (closed: bool, i: nat, ghost text: string)
    requires start < |body| && body[start] == '"'
    ensures closed ==> start < i <= |body| && ParseQuoted(body[start + 1..]) == Some((text, body[i..]))
    ensures !closed ==> ParseQuoted(body[start + 1..]).None?
  {
    var n := |body|;
    text := "";
    i := start + 1;
    BeginCell(body, i);
    while true
      invariant start < i <= n
      invariant ParseQuoted(body[start + 1..]) == PrependText(text, ParseQuoted(body[i..]))
      decreases n - i
    {
      if i >= n {
        assert body[i..] == "";
        return false, i, text;
      }
      QuotedStep(body, start + 1, i, text);
      hide ParseQuoted;
      if body[i] == '"' {
        if i + 1 < n && body[i + 1] == '"' {
          text := text + "\"";
          i := i + 2;
          continue;
        }
        i := i + 1;
        return true, i, text;
      }
      text := text + [body[i]];
      i := i + 1;
    }
  }

  /** The inner loop over an unquoted cell. */
  method ScanPlain(body: string, start: nat) returns (clean: bool, i: nat, ghost text: string)
    requires start <= |body|
    ensures clean ==> start <= i <= |body| && ParsePlain(body[start..]) == Some((text, body[i..]))
    ensures !clean ==> ParsePlain(body[start..]).None?
  {
    var n := |body|;
    text := "";
    i := start;
    BeginCell(body, start);
    while i < n && body[i] != ','
      invariant start <= i <= n
      invariant ParsePlain(body[start..]) == PrependText(text, ParsePlain(body[i..]))
    {
      PlainStep(body, start, i, text);
      hide ParsePlain;
      if body[i] == '"' {
        return false, i, text;
      }
      text := text + [body[i]];
      i := i + 1;
    }
    if i < n { assert body[i..][0] == body[i]; }
    assert text + "" == text;
    return true, i, text;
  }

  lemma CellRead(body: string, start: nat, done: seq<Cell>)
    requires start <= |body|
    requires ParseCells(body) == PrependCells(done, ParseCells(body[start..]))
    ensures ParseCell(body[start..]).None? ==> ParseCells(body).None?
    ensures start < |body| ==> body[start..][0] == body[start] && body[start..][1..] == body[start + 1..]
  {
  }

  lemma BeginCells(body: string)
    ensures NextStart([], 0) == 0 && Spans([], 0) == []
    ensures ParseCells(body) == PrependCells([], ParseCells(body[0..]))
  {
    assert body[0..] == body;
    if ParseCells(body).Some? { assert [] + ParseCells(body).value == ParseCells(body).value; }
  }

  /** The outer loop of `_cell_spans`. */
  method ScanCells(body: string) returns (r: Outcome<seq<(nat, nat)>>)
    ensures r == CellSpans(body)
  {
    var spans: seq<(nat, nat)> := [];
    var i, n := 0, |body|;
    ghost var done: seq<Cell> := [];
    BeginCells(body);
    hide ParseCells, ParseQuoted, ParsePlain, Spans, NextStart, Doubled;
    while true
      invariant i <= n
      invariant i == NextStart(done, 0) && spans == Spans(done, 0)
      invariant ParseCells(body) == PrependCells(done, ParseCells(body[i..]))
      decreases n - i
    {
      var start := i;
      ghost var c: Cell;
      CellRead(body, start, done);
      if i < n && body[i] == '"' {
        var closed;
        ghost var text;
        closed, i, text := ScanQuoted(body, start);
        c := Quoted(text);
        if !closed {
          return Refused;
        }
        if i < n && body[i] != ',' {
          assert body[i..][0] == body[i];
          return Refused;
        }
      } else {
        var clean;
        ghost var text;
        clean, i, text := ScanPlain(body, start);
        c := Plain(text);
        if !clean {
          return Refused;
        }
      }
      assert ParseCell(body[start..]) == Some((c, body[i..]));
      hide ParseCell;
      CellStep(body, start, i, done, c);
      SpansSnoc(done, c, 0);
      done := done + [c];
      spans := spans + [(start, i)];
      if i >= n {
        return Ok(spans);
      }
      i := i + 1;
      if i == n {
        EmptyTail(body);
        SpansSnoc(done, Plain(""), 0);
        assert |Show(Plain(""))| == 0;
        spans := spans + [(i, i)];
        return Ok(spans);
      }
    }
  }
}
