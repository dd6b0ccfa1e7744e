/** How `record_fields` reads a record: Python's `csv.reader` with its default dialect, as the state machine it is. It
    is more lenient than the strict scanner, and the two are shown to agree where a title is rewritten. */
module CsvReader {
  import opened Sequences
  import opened Outcomes
  import opened CsvCells

  datatype State = StartRecord | StartField | InField | InQuoted | QuoteInQuoted | EatNewline

  /** The reader inside a record: the row being read, the first row if it is complete, and whether a line is begun. */
  datatype Reader =
    | Reader(state: State, field: string, fields: seq<string>, first: Option<seq<string>>, midLine: bool)
    | Failed

  const START := Reader(StartRecord, "", [], None, false)

  predicate IsNewline(c: char) {
    c == '\r' || c == '\n'
  }

  function Save(r: Reader, state: State): Reader
    requires r.Reader?
  {
    r.(fields := r.fields + [r.field], field := "", state := state)
  }

  function Add(r: Reader, c: char, state: State): Reader
    requires r.Reader?
  {
    r.(field := r.field + [c], state := state)
  }

  function ReadChar(r: Reader, c: char): Reader
    requires r.Reader?
  {
    match r.state
    case StartRecord | StartField =>
      if IsNewline(c) then if r.state.StartRecord? then r.(state := EatNewline) else Save(r, EatNewline)
      else if c == '"' then r.(state := InQuoted)
      else if c == ',' then Save(r, StartField)
      else Add(r, c, InField)
    case InField =>
      if IsNewline(c) then Save(r, EatNewline) else if c == ',' then Save(r, StartField) else Add(r, c, InField)
    case InQuoted =>
      if c == '"' then r.(state := QuoteInQuoted) else Add(r, c, InQuoted)
    case QuoteInQuoted =>
      if c == '"' then Add(r, c, InQuoted)
      else if c == ',' then Save(r, StartField)
      else if IsNewline(c) then Save(r, EatNewline)
      else Add(r, c, InField)
    case EatNewline =>
      if IsNewline(c) then r else Failed
  }

  /** The end of a line ends the row, unless a quoted field is open. */
  function EndLine(r: Reader): Reader
    requires r.Reader?
  {
    if r.state.InQuoted? then r.(midLine := false)
    else
      var row := if r.state.StartRecord? || r.state.EatNewline? then r.fields else r.fields + [r.field];
      Reader(StartRecord, "", [], if r.first.None? then Some(row) else r.first, false)
  }

  function Feed(r: Reader, c: char): Reader {
    if r.Failed? then Failed
    else
      var read := ReadChar(r, c);
      if read.Failed? then Failed else if c == '\n' then EndLine(read) else read.(midLine := true)
  }

  function Run(r: Reader, s: string): Reader
    decreases |s|
  {
    if s == "" then r else Run(Feed(r, s[0]), s[1..])
  }

  /** The first row at the end of the text; an open quoted field is given as far as it was read. */
  function Finish(r: Reader): Outcome<seq<string>> {
    if r.Failed? then Crashed
    else
      var last := if r.midLine then EndLine(r) else r;
      if last.first.Some? then Ok(last.first.value)
      else if last.state.InQuoted? then Ok(last.fields + [last.field])
      else Ok([])
  }

  /** `record_fields`. */
  function Fields(record: string): Outcome<seq<string>> {
    Finish(Run(START, record))
  }

  lemma {:induction false} RunAppend(r: Reader, a: string, b: string)
    ensures Run(r, a + b) == Run(Run(r, a), b)
    decreases |a|
  {
    if a == "" {
      assert a + b == b;
    } else {
      RunAppend(Feed(r, a[0]), a[1..], b);
      assert (a + b)[0] == a[0] && (a + b)[1..] == a[1..] + b;
    }
  }

  lemma RunOne(r: Reader, c: char)
    ensures Run(r, [c]) == Feed(r, c)
  {
    assert [c][1..] == "";
    assert Run(Feed(r, c), "") == Feed(r, c);
  }

  // ----- reading strict cells -----

  predicate NoNewline(s: string) {
    s == "" || (!IsNewline(s[0]) && NoNewline(s[1..]))
  }

  /** A cell whose unquoted text holds no line break. */
  predicate Calm(c: Cell) {
    c.Plain? ==> NoNewline(c.text)
  }

  function Texts(cells: seq<Cell>): (r: seq<string>)
    ensures |r| == |cells|
    ensures forall i :: 0 <= i < |cells| ==> r[i] == cells[i].text
  {
    if cells == [] then [] else [cells[0].text] + Texts(cells[1..])
  }

  lemma {:induction false} RunPlain(r: Reader, s: string)
    requires r.Reader? && r.state.InField? && r.midLine
    requires Bare(s) && NoNewline(s)
    ensures Run(r, s) == r.(field := r.field + s)
    decreases |s|
  {
    if s == "" {
      assert r.field + s == r.field;
    } else {
      RunPlain(Feed(r, s[0]), s[1..]);
      assert r.field + [s[0]] + s[1..] == r.field + s;
    }
  }

  function MidLineAfter(s: string, midLine: bool): bool {
    if s == "" then midLine else MidLineAfter(s[1..], s[0] != '\n')
  }

  lemma RunEscaped(r: Reader, c: char)
    requires r.Reader? && r.state.InQuoted?
    ensures Run(r, Escaped(c)) == r.(field := r.field + [c], midLine := c != '\n')
  {
    if c == '"' {
      assert Escaped(c) == "\"" + "\"";
      RunAppend(r, "\"", "\"");
      RunOne(r, c);
      RunOne(Feed(r, c), c);
    } else {
      RunOne(r, c);
    }
  }

  lemma {:induction false} RunDoubled(r: Reader, s: string)
    requires r.Reader? && r.state.InQuoted?
    ensures Run(r, Doubled(s)) == r.(field := r.field + s, midLine := MidLineAfter(s, r.midLine))
    decreases |s|
  {
    if s == "" {
      assert r.field + s == r.field;
    } else {
      RunEscaped(r, s[0]);
      hide Run, Escaped;
      RunAppend(r, Escaped(s[0]), Doubled(s[1..]));
      RunDoubled(r.(field := r.field + [s[0]], midLine := s[0] != '\n'), s[1..]);
      assert r.field + [s[0]] + s[1..] == r.field + s;
    }
  }

  /** The reader is about to read a cell of its first row. */
  predicate Ready(r: Reader) {
    r.Reader? && (r.state.StartRecord? || r.state.StartField?) && r.field == "" && r.first.None?
  }

  function AfterCell(r: Reader, c: Cell): Reader
    requires Ready(r)
  {
    match c
    case Plain(text) => if text == "" then r else r.(state := InField, field := text, midLine := true)
    case Quoted(text) => r.(state := QuoteInQuoted, field := text, midLine := true)
  }

  lemma RunCell(r: Reader, c: Cell)
    requires Ready(r) && ValidCell(c) && Calm(c)
    ensures Run(r, Show(c)) == AfterCell(r, c)
  {
    match c
    case Plain(text) =>
      if text != "" {
        var next := Feed(r, text[0]);
        assert next == r.(state := InField, field := [text[0]], midLine := true);
        RunPlain(next, text[1..]);
        assert [text[0]] + text[1..] == text;
      }
    case Quoted(text) =>
      RunAppend(r, "\"", Doubled(text) + "\"");
      RunOne(r, '"');
      var within := Feed(r, '"');
      RunAppend(within, Doubled(text), "\"");
      RunDoubled(within, text);
      RunOne(Run(within, Doubled(text)), '"');
      assert "" + text == text;
  }

  /** The reader just past a comma of its first row. */
  function Row(fields: seq<string>): Reader {
    Reader(StartField, "", fields, None, true)
  }

  /** Where the reader stands before cell `|pre|` of the first row. */
  function Before(pre: seq<Cell>): Reader {
    if pre == [] then START else Row(Texts(pre))
  }

  function Prefix(pre: seq<Cell>): string {
    if pre == [] then "" else ShowCells(pre) + ","
  }

  lemma {:induction false} ShowCellsSnoc(pre: seq<Cell>, c: Cell)
    ensures ShowCells(pre + [c]) == Prefix(pre) + Show(c)
  {
    hide Show;
    if pre == [] {
      assert pre + [c] == [c];
      assert "" + Show(c) == Show(c);
    } else {
      ShowCellsSnoc(pre[1..], c);
      assert (pre + [c])[0] == pre[0] && (pre + [c])[1..] == pre[1..] + [c];
      var head := Show(pre[0]);
      if |pre| == 1 {
        assert head + ("," + ("" + Show(c))) == head + "," + Show(c);
      } else {
        var rest := ShowCells(pre[1..]);
        assert head + ("," + (rest + "," + Show(c))) == head + ("," + rest) + "," + Show(c);
      }
    }
  }

  lemma RunCellComma(r: Reader, c: Cell)
    requires Ready(r) && ValidCell(c) && Calm(c)
    ensures Run(r, Show(c) + ",") == Row(r.fields + [c.text])
  {
    RunCell(r, c);
    RunAppend(r, Show(c), ",");
    RunOne(AfterCell(r, c), ',');
  }

  lemma {:induction false} RunPrefix(pre: seq<Cell>)
    requires forall i :: 0 <= i < |pre| ==> ValidCell(pre[i]) && Calm(pre[i])
    ensures Run(START, Prefix(pre)) == Before(pre) && Ready(Before(pre))
  {
    if pre != [] {
      var init, c := pre[..|pre| - 1], pre[|pre| - 1];
      RunPrefix(init);
      hide Run, ShowCells, Show, Texts, Ready;
      assert pre == init + [c];
      ShowCellsSnoc(init, c);
      Associative(Prefix(init), Show(c), ",");
      RunAppend(START, Prefix(init), Show(c) + ",");
      RunCellComma(Before(init), c);
      TextsSnoc(init, c);
      RowIsReady(Texts(pre));
      BeforeFields(init);
    }
  }

  lemma RowIsReady(fields: seq<string>)
    ensures Ready(Row(fields))
  {
  }

  lemma BeforeFields(pre: seq<Cell>)
    ensures Ready(Before(pre)) && Before(pre).fields == Texts(pre)
  {
  }

  lemma TextsSnoc(pre: seq<Cell>, c: Cell)
    ensures Texts(pre + [c]) == Texts(pre) + [c.text]
  {
  }

  /** What follows a cell: the other cells, and the terminator. */
  function Tail(post: seq<Cell>, term: string): string {
    if post == [] then term else "," + ShowCells(post) + term
  }

  lemma Shuffle(head: string, x: string, term: string, p: string, rest: string)
    requires x + term == p + rest
    ensures head + ("," + x) + term == head + ("," + p) + rest
  {
    assert head + ("," + x) + term == head + ("," + (x + term));
    assert head + ("," + p) + rest == head + ("," + (p + rest));
  }

  lemma {:induction false} ShowCellsSplit(pre: seq<Cell>, c: Cell, post: seq<Cell>, term: string)
    ensures ShowCells(pre + [c] + post) + term == Prefix(pre) + (Show(c) + Tail(post, term))
  {
    hide Show;
    var all := pre + [c] + post;
    if pre == [] {
      assert all == [c] + post;
      assert all[1..] == post;
      assert "" + (Show(c) + Tail(post, term)) == Show(c) + Tail(post, term);
      if post != [] {
        Associative(Show(c), "," + ShowCells(post), term);
      }
    } else {
      ShowCellsSplit(pre[1..], c, post, term);
      assert all[0] == pre[0] && all[1..] == pre[1..] + [c] + post;
      PrefixCons(pre);
      hide Prefix, Tail;
      Shuffle(Show(pre[0]), ShowCells(all[1..]), term, Prefix(pre[1..]), Show(c) + Tail(post, term));
    }
  }

  lemma PrefixCons(pre: seq<Cell>)
    requires pre != []
    ensures Prefix(pre) == Show(pre[0]) + ("," + Prefix(pre[1..]))
  {
    hide Show;
    if |pre| == 1 {
      assert "," + "" == ",";
    } else {
      assert Show(pre[0]) + ("," + ShowCells(pre[1..])) + "," == Show(pre[0]) + ("," + (ShowCells(pre[1..]) + ","));
    }
  }

  // ----- a line break outside quotes fixes the first row -----

  predicate RowSettled(m: Reader, row: seq<string>) {
    m.Failed? || m.first == Some(row) || (m.first.None? && m.state.EatNewline? && m.fields == row && m.midLine)
  }

  lemma {:induction false} RowStays(m: Reader, row: seq<string>, s: string)
    requires RowSettled(m, row)
    ensures Finish(Run(m, s)) == Crashed || Finish(Run(m, s)) == Ok(row)
    decreases |s|
  {
    if s != "" { RowStays(Feed(m, s[0]), row, s[1..]); }
  }

  /** The first row, when a line ends after text `w` of the cell that follows `pre`. */
  function RowEndingIn(pre: seq<Cell>, w: string): seq<string> {
    if pre == [] && w == "" then [] else Texts(pre) + [w]
  }

  lemma NewlineInCell(pre: seq<Cell>, w: string, x: char, rest: string)
    requires forall i :: 0 <= i < |pre| ==> ValidCell(pre[i]) && Calm(pre[i])
    requires Bare(w) && NoNewline(w) && IsNewline(x)
    ensures var f := Fields(Prefix(pre) + (w + ([x] + rest))); f == Crashed || f == Ok(RowEndingIn(pre, w))
  {
    RunPrefix(pre);
    BeforeFields(pre);
    var m := Before(pre);
    RunAppend(START, Prefix(pre), w + ([x] + rest));
    RunAppend(m, w, [x] + rest);
    assert Show(Plain(w)) == w;
    RunCell(m, Plain(w));
    var after := AfterCell(m, Plain(w));
    RunAppend(after, [x], rest);
    RunOne(after, x);
    NewlineSettles(pre, w, x);
    RowStays(Feed(after, x), RowEndingIn(pre, w), rest);
  }

  lemma NewlineSettles(pre: seq<Cell>, w: string, x: char)
    requires IsNewline(x) && Ready(Before(pre))
    ensures RowSettled(Feed(AfterCell(Before(pre), Plain(w)), x), RowEndingIn(pre, w))
  {
  }

  function FirstNewline(s: string): (i: nat)
    requires !NoNewline(s)
    ensures i < |s| && IsNewline(s[i])
  {
    if IsNewline(s[0]) then 0 else 1 + FirstNewline(s[1..])
  }

  lemma {:induction false} BeforeFirstNewline(s: string)
    requires !NoNewline(s)
    ensures NoNewline(s[..FirstNewline(s)]) && (Bare(s) ==> Bare(s[..FirstNewline(s)]))
  {
    if !IsNewline(s[0]) {
      BeforeFirstNewline(s[1..]);
      assert s[..FirstNewline(s)][1..] == s[1..][..FirstNewline(s[1..])];
    }
  }

  lemma UncalmCell(pre: seq<Cell>, c: Cell, tail: string)
    requires forall i :: 0 <= i < |pre| ==> ValidCell(pre[i]) && Calm(pre[i])
    requires ValidCell(c) && !Calm(c)
    ensures var f := Fields(Prefix(pre) + (Show(c) + tail));
            f == Crashed || (f.Ok? && |f.value| <= |pre| + 1 && (|f.value| == |pre| + 1 ==> f.value[|pre|] != c.text))
  {
    var s := c.text;
    var i := FirstNewline(s);
    BeforeFirstNewline(s);
    assert s == s[..i] + ([s[i]] + s[i + 1..]);
    var rest := s[i + 1..] + tail;
    assert Show(c) + tail == s[..i] + ([s[i]] + rest);
    NewlineInCell(pre, s[..i], s[i], rest);
    assert |s[..i]| < |s|;
  }

  lemma NextIsCalm(cells: seq<Cell>, term: string, t: nat, k: nat, f: seq<string>)
    requires ValidCells(cells) && k <= t < |cells|
    requires forall i :: 0 <= i < k ==> Calm(cells[i])
    requires Fields(ShowCells(cells) + term) == Ok(f) && t < |f| && f[t] == cells[t].text
    ensures Calm(cells[k])
  {
    hide *;
    var pre, c, post := cells[..k], cells[k], cells[k + 1..];
    if !Calm(c) {
      assert cells == pre + [c] + post;
      ValidAt(cells, k);
      ShowCellsSplit(pre, c, post, term);
      UncalmCell(pre, c, Tail(post, term));
    }
  }

  lemma ValidAt(cells: seq<Cell>, k: nat)
    requires ValidCells(cells) && k < |cells|
    ensures forall i :: 0 <= i <= k ==> ValidCell(cells[i])
  {
  }

  /** Up to a cell whose value the reader sees as the scanner does, no unquoted cell holds a line break. */
  lemma {:induction false} CalmUpTo(cells: seq<Cell>, term: string, t: nat, k: nat, f: seq<string>)
    requires ValidCells(cells) && t < |cells| && k <= t + 1
    requires Fields(ShowCells(cells) + term) == Ok(f) && t < |f| && f[t] == cells[t].text
    ensures forall i :: 0 <= i < k ==> Calm(cells[i])
  {
    hide Fields, ShowCells, Calm;
    if k > 0 {
      CalmUpTo(cells, term, t, k - 1, f);
      NextIsCalm(cells, term, t, k - 1, f);
    }
  }

  // ----- replacing a cell -----

  /** Two readers that differ only in field `t` of the first row: `y` in one, `x` in the other. */
  predicate Related(m: Reader, m': Reader, t: nat, y: string, x: string) {
    if m.Failed? || m'.Failed? then m.Failed? && m'.Failed?
    else
      && m.state == m'.state && m.field == m'.field && m.midLine == m'.midLine && m.first.Some? == m'.first.Some?
      && if m.first.Some?
         then m.fields == m'.fields && t < |m.first.value| && m.first.value[t] == y && m'.first.value == m.first.value[t := x]
         else (m.midLine || m.state.InQuoted?) && t < |m.fields| && m.fields[t] == y && m'.fields == m.fields[t := x]
  }

  lemma RelatedSave(fields: seq<string>, t: nat, x: string, field: string)
    requires t < |fields|
    ensures fields[t := x] + [field] == (fields + [field])[t := x]
  {
  }

  lemma RelatedRead(m: Reader, m': Reader, t: nat, y: string, x: string, c: char)
    requires Related(m, m', t, y, x) && m.Reader?
    ensures var r, r' := ReadChar(m, c), ReadChar(m', c);
            if r.Failed? || r'.Failed? then r.Failed? && r'.Failed?
            else Related(r.(midLine := true), r'.(midLine := true), t, y, x)
  {
    if m.first.None? { RelatedSave(m.fields, t, x, m.field); }
  }

  lemma RelatedEndLine(m: Reader, m': Reader, t: nat, y: string, x: string)
    requires Related(m, m', t, y, x) && m.Reader?
    ensures Related(EndLine(m), EndLine(m'), t, y, x)
  {
    if m.first.None? { RelatedSave(m.fields, t, x, m.field); }
  }

  lemma RelatedFeed(m: Reader, m': Reader, t: nat, y: string, x: string, c: char)
    requires Related(m, m', t, y, x)
    ensures Related(Feed(m, c), Feed(m', c), t, y, x)
  {
    if m.Reader? {
      RelatedRead(m, m', t, y, x, c);
      var r, r' := ReadChar(m, c), ReadChar(m', c);
      hide ReadChar;
      if r.Reader? && c == '\n' {
        RelatedEndLine(r.(midLine := true), r'.(midLine := true), t, y, x);
        EndLineForgets(r);
        EndLineForgets(r');
      }
      hide EndLine;
    }
  }

  lemma EndLineForgets(r: Reader)
    requires r.Reader?
    ensures EndLine(r.(midLine := true)) == EndLine(r)
  {
  }

  lemma {:induction false} RelatedRun(m: Reader, m': Reader, t: nat, y: string, x: string, s: string)
    requires Related(m, m', t, y, x)
    ensures Related(Run(m, s), Run(m', s), t, y, x)
    decreases |s|
  {
    if s != "" {
      RelatedFeed(m, m', t, y, x, s[0]);
      hide Feed, Related;
      RelatedRun(Feed(m, s[0]), Feed(m', s[0]), t, y, x, s[1..]);
    }
  }

  lemma RelatedFinish(m: Reader, m': Reader, t: nat, y: string, x: string)
    requires Related(m, m', t, y, x)
    ensures Finish(m) == Finish(m') == Crashed ||
            (Finish(m).Ok? && t < |Finish(m).value| && Finish(m).value[t] == y && Finish(m') == Ok(Finish(m).value[t := x]))
  {
    if m.Reader? && m.midLine { RelatedEndLine(m, m', t, y, x); }
    if m.Reader? && m.first.None? { RelatedSave(m.fields, t, x, m.field); }
  }

  // The character after a cell, or the end of the text, saves it.
  lemma DelimiterRelates(pre: seq<Cell>, c: Cell, d: Cell, e: char)
    requires Ready(Before(pre)) && (e == ',' || IsNewline(e))
    requires e == ',' || pre != [] || (c != Plain("") && d != Plain(""))
    ensures Related(Feed(AfterCell(Before(pre), c), e), Feed(AfterCell(Before(pre), d), e), |pre|, c.text, d.text)
  {
    var m, m' := AfterCell(Before(pre), c), AfterCell(Before(pre), d);
    BeforeFields(pre);
    hide Texts;
    assert (Texts(pre) + [c.text])[|pre| := d.text] == Texts(pre) + [d.text];
    CellSaved(Before(pre), c, e);
    CellSaved(Before(pre), d, e);
  }

  // What a cell and its delimiter make of the reader does not depend on the cell's quoting.
  lemma CellSaved(b: Reader, c: Cell, e: char)
    requires Ready(b) && (e == ',' || IsNewline(e))
    requires e == ',' || b.state.StartField? || c != Plain("")
    ensures Feed(AfterCell(b, c), e)
         == if e == ',' then Row(b.fields + [c.text])
            else if e == '\r' then Reader(EatNewline, "", b.fields + [c.text], None, true)
            else Reader(StartRecord, "", [], Some(b.fields + [c.text]), false)
  {
  }

  lemma EndRelates(pre: seq<Cell>, c: Cell)
    requires Ready(Before(pre)) && (pre != [] || c != Plain(""))
    ensures Finish(AfterCell(Before(pre), c)) == Ok(Texts(pre) + [c.text])
  {
    BeforeFields(pre);
    hide Texts;
  }

  lemma BlankLine(e: char, rest: string)
    requires IsNewline(e)
    ensures Finish(START) == Ok([])
    ensures Finish(Run(START, [e] + rest)) == Ok([]) || Finish(Run(START, [e] + rest)) == Crashed
  {
    RunAppend(START, [e], rest);
    RunOne(START, e);
    RowStays(Feed(START, e), [], rest);
  }

  /** What can follow a cell. */
  predicate IsTail(tail: string) {
    tail == "" || tail[0] == ',' || IsNewline(tail[0])
  }

  /** The reader sees exactly the replaced cell change. */
  lemma CellReplaced(pre: seq<Cell>, c: Cell, d: Cell, tail: string, f: seq<string>)
    requires forall i :: 0 <= i < |pre| ==> ValidCell(pre[i]) && Calm(pre[i])
    requires ValidCell(c) && Calm(c) && ValidCell(d) && Calm(d) && IsTail(tail)
    requires Fields(Prefix(pre) + (Show(c) + tail)) == Ok(f) && |pre| < |f|
    requires d != Plain("") || pre != [] || (tail != "" && tail[0] == ',')
    ensures f[|pre|] == c.text
    ensures Fields(Prefix(pre) + (Show(d) + tail)) == Ok(f[|pre| := d.text])
  {
    var b := Before(pre);
    CellRun(pre, c, tail);
    CellRun(pre, d, tail);
    var m, m' := AfterCell(b, c), AfterCell(b, d);
    if tail == "" {
      assert Run(m, tail) == m && Run(m', tail) == m';
      if pre == [] && c == Plain("") { BlankLine('\n', ""); }
      EndRelates(pre, c);
      EndRelates(pre, d);
      assert (Texts(pre) + [c.text])[|pre| := d.text] == Texts(pre) + [d.text];
    } else {
      assert tail == [tail[0]] + tail[1..];
      if pre == [] && c == Plain("") && tail[0] != ',' { BlankLine(tail[0], tail[1..]); }
      DelimiterRelates(pre, c, d, tail[0]);
      RelatedRun(Feed(m, tail[0]), Feed(m', tail[0]), |pre|, c.text, d.text, tail[1..]);
      RelatedFinish(Run(m, tail), Run(m', tail), |pre|, c.text, d.text);
    }
  }

  lemma CellRun(pre: seq<Cell>, c: Cell, tail: string)
    requires forall i :: 0 <= i < |pre| ==> ValidCell(pre[i]) && Calm(pre[i])
    requires ValidCell(c) && Calm(c)
    ensures Ready(Before(pre))
    ensures Fields(Prefix(pre) + (Show(c) + tail)) == Finish(Run(AfterCell(Before(pre), c), tail))
  {
    RunPrefix(pre);
    RunAppend(START, Prefix(pre), Show(c) + tail);
    RunAppend(Before(pre), Show(c), tail);
    RunCell(Before(pre), c);
  }

  predicate IsTerminator(term: string) {
    term == "" || term == "\n" || term == "\r\n"
  }

  lemma LastCellRead(pre: seq<Cell>, c: Cell, term: string)
    requires forall i :: 0 <= i < |pre| ==> ValidCell(pre[i]) && Calm(pre[i])
    requires ValidCell(c) && Calm(c) && IsTerminator(term)
    ensures Fields(ShowCells(pre + [c]) + term) == if pre == [] && c == Plain("") then Ok([]) else Ok(Texts(pre + [c]))
  {
    hide *;
    assert pre + [c] + [] == pre + [c];
    ShowCellsSplit(pre, c, [], term);
    LastTail(term);
    CellRun(pre, c, term);
    TextsSnoc(pre, c);
    if pre == [] && c == Plain("") {
      BlankTerm(term);
      AfterNothing();
    } else {
      TermEnds(pre, c, term);
    }
  }

  lemma LastTail(term: string)
    ensures Tail([], term) == term
  {
  }

  /** The lenient reader and the strict scanner agree on every record whose unquoted cells hold no line break; a
      record without content is the one exception: the reader gives it no field at all. */
  lemma ReaderAgreesWithScanner(cells: seq<Cell>, term: string)
    requires ValidCells(cells) && (forall i :: 0 <= i < |cells| ==> Calm(cells[i]))
    requires IsTerminator(term)
    ensures Fields(ShowCells(cells) + term) == if cells == [Plain("")] then Ok([]) else Ok(Texts(cells))
  {
    hide Fields, ShowCells, Calm, ValidCell, Texts, IsTerminator;
    var pre, c := cells[..|cells| - 1], cells[|cells| - 1];
    assert cells == pre + [c];
    LastCellRead(pre, c, term);
    assert cells == [Plain("")] <==> pre == [] && c == Plain("");
  }

  lemma AfterNothing()
    ensures AfterCell(Before([]), Plain("")) == START
  {
  }

  lemma BlankTerm(term: string)
    requires IsTerminator(term)
    ensures Finish(Run(START, term)) == Ok([])
  {
    if term == "" {
    } else if term == "\n" {
      RunOne(START, '\n');
    } else {
      assert term == "\r" + "\n";
      RunAppend(START, "\r", "\n");
      RunOne(START, '\r');
      RunOne(Feed(START, '\r'), '\n');
    }
  }

  lemma TermEnds(pre: seq<Cell>, c: Cell, term: string)
    requires Ready(Before(pre)) && (pre != [] || c != Plain(""))
    requires IsTerminator(term)
    ensures Finish(Run(AfterCell(Before(pre), c), term)) == Ok(Texts(pre) + [c.text])
  {
    var m := AfterCell(Before(pre), c);
    BeforeFields(pre);
    if term == "" {
      EndRelates(pre, c);
    } else if term == "\n" {
      RunOne(m, '\n');
    } else {
      assert term == "\r" + "\n";
      RunAppend(m, "\r", "\n");
      RunOne(m, '\r');
      RunOne(Feed(m, '\r'), '\n');
    }
  }
}
