/** The punctuation rule of `seed/scripts/title_rule.py`: a comma or an em dash in a title becomes a hyphen. */
module TitleRule {
  import opened Sequences

  const EM_DASH: char := '\U{2014}'

  /** The characters an asset title may not hold. */
  const TITLE_SEPARATORS: string := [',', EM_DASH]

  /** The characters Python's `str.isspace` accepts. */
  predicate IsSpace(c: char) {
    var n := c as int;
    || 0x9 <= n <= 0xD || 0x1C <= n <= 0x20 || n == 0x85 || n == 0xA0 || n == 0x1680
    || 0x2000 <= n <= 0x200A || n == 0x2028 || n == 0x2029 || n == 0x202F || n == 0x205F || n == 0x3000
  }

  /** What both callers pass: `TITLE_SEPARATORS`, or the em dash alone. Neither holds a hyphen or whitespace. */
  predicate IsSeparatorSet(separators: string) {
    forall c :: c in separators ==> c != '-' && !IsSpace(c)
  }

  /** `str.rstrip`. */
  function TrimRight(s: string): (r: string)
    ensures r <= s
    ensures r != "" ==> !IsSpace(r[|r| - 1])
    ensures forall i :: |r| <= i < |s| ==> IsSpace(s[i])
  {
    if s != "" && IsSpace(s[|s| - 1]) then TrimRight(s[..|s| - 1]) else s
  }

  lemma {:induction false} TrimRightSpaces(s: string, spaces: string)
    requires s == "" || !IsSpace(s[|s| - 1])
    requires forall i :: 0 <= i < |spaces| ==> IsSpace(spaces[i])
    ensures TrimRight(s + spaces) == s
  {
    if spaces == "" {
      assert s + spaces == s;
    } else {
      var n := |spaces| - 1;
      assert (s + spaces)[..|s + spaces| - 1] == s + spaces[..n];
      assert (s + spaces)[|s + spaces| - 1] == spaces[n];
      TrimRightSpaces(s, spaces[..n]);
    }
  }

  /** Whitespace touches position `i` on either side. */
  predicate Spaced(text: string, i: nat)
    requires i < |text|
  {
    (i > 0 && IsSpace(text[i - 1])) || (i + 1 < |text| && IsSpace(text[i + 1]))
  }

  /** The last character before `i` that is not whitespace, or -1. */
  function InkBefore(text: string, i: nat): (j: int)
    requires i <= |text|
    ensures -1 <= j < i
    ensures j >= 0 ==> !IsSpace(text[j])
    ensures forall k :: j < k < i ==> IsSpace(text[k])
  {
    if i == 0 then -1 else if IsSpace(text[i - 1]) then InkBefore(text, i - 1) else i - 1
  }

  /** The first character from `i` on that is not whitespace, or the length of the text. */
  function InkFrom(text: string, i: nat): (j: nat)
    requires i <= |text|
    ensures i <= j <= |text|
    ensures j < |text| ==> !IsSpace(text[j])
    ensures forall k :: i <= k < j ==> IsSpace(text[k])
    decreases |text| - i
  {
    if i < |text| && IsSpace(text[i]) then InkFrom(text, i + 1) else i
  }

  /** A separator at `j` that takes the whitespace around it. */
  predicate SpacedSeparator(text: string, separators: string, j: int) {
    0 <= j < |text| && text[j] in separators && Spaced(text, j)
  }

  /** What the character at `i` contributes to the title, judged from its neighbourhood in the original text alone. */
  function Emit(text: string, separators: string, i: nat): (piece: string)
    requires i < |text|
  {
    var before := SpacedSeparator(text, separators, InkBefore(text, i));
    if IsSpace(text[i]) then
      if before || SpacedSeparator(text, separators, InkFrom(text, i)) then "" else [text[i]]
    else if text[i] !in separators then [text[i]]
    else if !Spaced(text, i) then "-"
    else if before then "- " else " - "
  }

  /** The contributions of the first `k` characters. */
  function Emitted(text: string, separators: string, k: nat): (out: string)
    requires k <= |text|
  {
    if k == 0 then "" else Emitted(text, separators, k - 1) + Emit(text, separators, k - 1)
  }

  lemma EmittedSnoc(text: string, separators: string, k: nat)
    requires k < |text|
    ensures Emitted(text, separators, k + 1) == Emitted(text, separators, k) + Emit(text, separators, k)
  {
  }

  function Normalized(text: string, separators: string): string {
    Emitted(text, separators, |text|)
  }

  /** `normalize_title` with its default separators. */
  function AssetTitle(text: string): string {
    Normalized(text, TITLE_SEPARATORS)
  }

  predicate HasSeparator(text: string, separators: string) {
    exists i :: 0 <= i < |text| && text[i] in separators
  }

  predicate HasTitleSeparator(text: string) {
    HasSeparator(text, TITLE_SEPARATORS)
  }

  /** A whitespace run bounded on the left by position `k - 1` and seen up to `i` writes nothing. */
  predicate Swallowed(text: string, separators: string, k: nat, i: nat)
    requires k <= i <= |text|
  {
    SpacedSeparator(text, separators, k - 1) || SpacedSeparator(text, separators, InkFrom(text, i))
  }

  lemma EmitSpace(text: string, separators: string, k: nat, i: nat)
    requires k <= i < |text|
    requires forall j :: k <= j <= i ==> IsSpace(text[j])
    requires k == 0 || !IsSpace(text[k - 1])
    ensures InkFrom(text, i) == InkFrom(text, i + 1)
    ensures Emit(text, separators, i) == if Swallowed(text, separators, k, i) then "" else [text[i]]
  {
    assert InkBefore(text, i) == k - 1;
  }

  lemma SliceSnoc(head: string, text: string, k: nat, i: nat)
    requires k <= i < |text|
    ensures head + text[k..i] + [text[i]] == head + text[k..i + 1]
  {
  }

  /** The whitespace written between the ink that ends at `k` and position `i`. */
  function Gap(text: string, separators: string, k: nat, i: nat): string
    requires k <= i <= |text|
  {
    if Swallowed(text, separators, k, i) then "" else text[k..i]
  }

  // A whitespace run between two inked characters contributes itself, or nothing next to a spaced separator.
  lemma {:induction false} EmittedOverSpaces(text: string, separators: string, k: nat, i: nat)
    requires k <= i <= |text|
    requires forall j :: k <= j < i ==> IsSpace(text[j])
    requires k == 0 || !IsSpace(text[k - 1])
    ensures Emitted(text, separators, i) == Emitted(text, separators, k) + Gap(text, separators, k, i)
  {
    hide Emitted, Swallowed, IsSpace;
    if i > k {
      EmittedOverSpaces(text, separators, k, i - 1);
      EmittedSpaceStep(text, separators, k, i - 1);
    } else {
      assert Gap(text, separators, k, i) == "";
    }
  }

  lemma EmittedSpaceStep(text: string, separators: string, k: nat, i: nat)
    requires k <= i < |text|
    requires forall j :: k <= j <= i ==> IsSpace(text[j])
    requires k == 0 || !IsSpace(text[k - 1])
    requires Emitted(text, separators, i) == Emitted(text, separators, k) + Gap(text, separators, k, i)
    ensures Emitted(text, separators, i + 1) == Emitted(text, separators, k) + Gap(text, separators, k, i + 1)
  {
    EmitSpace(text, separators, k, i);
    SliceSnoc(Emitted(text, separators, k), text, k, i);
  }

  // What is written up to an inked character never ends in whitespace, save after a spaced separator.
  lemma {:induction false} EmittedEnd(text: string, separators: string, k: nat)
    requires IsSeparatorSet(separators)
    requires 0 < k <= |text| && !IsSpace(text[k - 1])
    ensures Emitted(text, separators, k) != ""
    ensures if SpacedSeparator(text, separators, k - 1)
            then |Emitted(text, separators, k)| >= 2 && Emitted(text, separators, k)[|Emitted(text, separators, k)| - 2..] == "- "
            else !IsSpace(Emitted(text, separators, k)[|Emitted(text, separators, k)| - 1])
  {
    var head, last := Emitted(text, separators, k - 1), Emit(text, separators, k - 1);
    assert Emitted(text, separators, k) == head + last;
    assert last in [[text[k - 1]], "-", "- ", " - "];
  }

  lemma TrimmedSeparator(text: string, separators: string, k: nat)
    requires IsSeparatorSet(separators)
    requires 0 < k <= |text| && SpacedSeparator(text, separators, k - 1)
    ensures TrimRight(Emitted(text, separators, k)) + " " == Emitted(text, separators, k)
  {
    EmittedEnd(text, separators, k);
    var e := Emitted(text, separators, k);
    var stem := e[..|e| - 1];
    assert e == stem + " ";
    assert stem[|stem| - 1] == e[|e| - 2..][0] == '-';
    assert " "[0] == ' ';
    TrimRightSpaces(stem, " ");
  }

  /** What the loop has written at position `i`, `k` being just past the last ink: whitespace is kept until judged. */
  function Draft(text: string, separators: string, k: nat, i: nat): string
    requires k <= i <= |text|
  {
    Emitted(text, separators, k) + if SpacedSeparator(text, separators, k - 1) then "" else text[k..i]
  }

  lemma DraftSpace(text: string, separators: string, k: nat, i: nat)
    requires k <= i < |text| && !SpacedSeparator(text, separators, k - 1)
    ensures Draft(text, separators, k, i) + [text[i]] == Draft(text, separators, k, i + 1)
  {
    SliceSnoc(Emitted(text, separators, k), text, k, i);
  }

  /** Position `k` is just past the last ink before `i`. */
  ghost predicate InkEnds(text: string, k: nat, i: nat) {
    && k <= i <= |text|
    && (forall j :: k <= j < i ==> IsSpace(text[j]))
    && (k == 0 || !IsSpace(text[k - 1]))
  }

  lemma DraftInk(text: string, separators: string, k: nat, i: nat)
    requires InkEnds(text, k, i) && i < |text| && !IsSpace(text[i])
    requires !(text[i] in separators && Spaced(text, i))
    ensures Draft(text, separators, k, i) + (if text[i] in separators then "-" else [text[i]])
         == Draft(text, separators, i + 1, i + 1)
  {
    EmittedOverSpaces(text, separators, k, i);
    assert InkFrom(text, i) == i;
    assert text[i + 1..i + 1] == "";
    assert Draft(text, separators, i + 1, i + 1) == Emitted(text, separators, i + 1);
  }

  lemma EmitSeparator(text: string, separators: string, k: nat, i: nat)
    requires IsSeparatorSet(separators)
    requires InkEnds(text, k, i) && i < |text| && SpacedSeparator(text, separators, i)
    ensures Emitted(text, separators, i + 1)
         == Emitted(text, separators, k) + if SpacedSeparator(text, separators, k - 1) then "- " else " - "
  {
    EmittedOverSpaces(text, separators, k, i);
    assert InkFrom(text, i) == i && InkBefore(text, i) == k - 1;
    assert Swallowed(text, separators, k, i);
    assert Gap(text, separators, k, i) == "";
    EmittedSnoc(text, separators, i);
    hide Emitted;
  }

  lemma TrimmedDraft(text: string, separators: string, k: nat, i: nat)
    requires IsSeparatorSet(separators) && InkEnds(text, k, i)
    ensures TrimRight(Draft(text, separators, k, i)) + (if SpacedSeparator(text, separators, k - 1) then " " else "")
         == Emitted(text, separators, k)
  {
    var head := Emitted(text, separators, k);
    if SpacedSeparator(text, separators, k - 1) {
      TrimmedSeparator(text, separators, k);
      assert head + "" == head;
    } else {
      if k > 0 { EmittedEnd(text, separators, k); }
      TrimRightSpaces(head, text[k..i]);
    }
  }

  lemma DraftSeparator(text: string, separators: string, k: nat, i: nat)
    requires IsSeparatorSet(separators)
    requires InkEnds(text, k, i) && i < |text| && SpacedSeparator(text, separators, i)
    ensures TrimRight(Draft(text, separators, k, i)) + " - " == Draft(text, separators, i + 1, i + 1)
  {
    hide Emitted;
    EmitSeparator(text, separators, k, i);
    TrimmedDraft(text, separators, k, i);
    Associative(TrimRight(Draft(text, separators, k, i)), " ", "- ");
    assert Draft(text, separators, i + 1, i + 1) == Emitted(text, separators, i + 1);
  }

  lemma DraftBegins(text: string, separators: string)
    ensures InkEnds(text, 0, 0) && Draft(text, separators, 0, 0) == ""
    ensures !SpacedSeparator(text, separators, -1)
  {
  }

  lemma DraftEnds(text: string, separators: string, k: nat)
    requires InkEnds(text, k, |text|)
    ensures Draft(text, separators, k, |text|) == Normalized(text, separators)
  {
    EmittedOverSpaces(text, separators, k, |text|);
  }

  /** The loop of `normalize_title`. */
  method NormalizeTitle(text: string, separators: string) returns (out: string)
    requires IsSeparatorSet(separators)
    ensures out == Normalized(text, separators)
  {
    DraftBegins(text, separators);
    hide Draft, SpacedSeparator, IsSpace, Normalized, IsSeparatorSet;
    out := "";
    var i, n := 0, |text|;
    ghost var k := 0;   // just past the last ink before i
    while i < n
      invariant InkEnds(text, k, i)
      invariant SpacedSeparator(text, separators, k - 1) ==> i == n || !IsSpace(text[i])
      invariant out == Draft(text, separators, k, i)
    {
      var ch := text[i];
      if ch !in separators {
        if IsSpace(ch) {
          DraftSpace(text, separators, k, i);
        } else {
          DraftInk(text, separators, k, i);
          k := i + 1;
        }
        out := out + [ch];
        i := i + 1;
        PlainIsNotSpaced(text, separators, k);
        continue;
      }
      SeparatorIsInk(ch, separators);
      if !Spaced(text, i) {
        DraftInk(text, separators, k, i);
        PlainIsNotSpaced(text, separators, i + 1);
        out := out + "-";
        i := i + 1;
        k := i;
        continue;
      }
      SpacedSeparatorAt(text, separators, i);
      DraftSeparator(text, separators, k, i);
      out := TrimRight(out) + " - ";
      i := i + 1;
      k := i;
      while i < n && IsSpace(text[i])
        invariant InkEnds(text, k, i)
      {
        i := i + 1;
      }
      DraftAfterSeparator(text, separators, k, i);
    }
    DraftEnds(text, separators, k);
  }

  lemma PlainIsNotSpaced(text: string, separators: string, k: nat)
    requires k <= |text|
    ensures k > 0 && (text[k - 1] !in separators || !Spaced(text, k - 1)) ==> !SpacedSeparator(text, separators, k - 1)
    ensures k == 0 ==> !SpacedSeparator(text, separators, k - 1)
  {
  }

  lemma SeparatorIsInk(c: char, separators: string)
    requires IsSeparatorSet(separators) && c in separators
    ensures !IsSpace(c)
  {
  }

  lemma SpacedSeparatorAt(text: string, separators: string, i: nat)
    requires i < |text| && text[i] in separators && Spaced(text, i)
    ensures SpacedSeparator(text, separators, i)
  {
  }

  lemma DraftAfterSeparator(text: string, separators: string, k: nat, i: nat)
    requires 0 < k <= i <= |text| && SpacedSeparator(text, separators, k - 1)
    ensures Draft(text, separators, k, i) == Draft(text, separators, k, k)
  {
  }

  // ----- what the rule promises -----

  /** Every character of the result was in the title, or is the space and hyphen the rule writes. */
  lemma {:induction false} EmittedCharacters(text: string, separators: string, k: nat)
    requires IsSeparatorSet(separators) && k <= |text|
    ensures forall i :: 0 <= i < |Emitted(text, separators, k)| ==>
              var c := Emitted(text, separators, k)[i];
              (c in text || c == ' ' || c == '-') && c !in separators
  {
    if k > 0 {
      EmittedCharacters(text, separators, k - 1);
      EmitCharacters(text, separators, k - 1);
      hide Emit;
    }
  }

  lemma EmitCharacters(text: string, separators: string, i: nat)
    requires IsSeparatorSet(separators) && i < |text|
    ensures forall c :: c in Emit(text, separators, i) ==> (c in text || c == ' ' || c == '-') && c !in separators
  {
    hide SpacedSeparator, Spaced;
    assert IsSpace(' ');
  }

  /** No separator survives. */
  lemma NoSeparatorLeft(text: string, separators: string)
    requires IsSeparatorSet(separators)
    ensures !HasSeparator(Normalized(text, separators), separators)
  {
    EmittedCharacters(text, separators, |text|);
  }

  lemma {:induction false} EmittedPlain(text: string, separators: string, k: nat)
    requires !HasSeparator(text, separators) && k <= |text|
    ensures Emitted(text, separators, k) == text[..k]
  {
    if k > 0 {
      EmittedPlain(text, separators, k - 1);
      assert Emit(text, separators, k - 1) == [text[k - 1]];
      hide Emit;
      assert text[..k] == text[..k - 1] + [text[k - 1]];
    }
  }

  /** A title without separators is left alone, so the rule is idempotent. */
  lemma NormalizedIsStable(text: string, separators: string)
    requires IsSeparatorSet(separators)
    ensures !HasSeparator(text, separators) <==> Normalized(text, separators) == text
    ensures Normalized(Normalized(text, separators), separators) == Normalized(text, separators)
  {
    NoSeparatorLeft(text, separators);
    var once := Normalized(text, separators);
    EmittedPlain(once, separators, |once|);
    assert once[..|once|] == once;
    if !HasSeparator(text, separators) {
      EmittedPlain(text, separators, |text|);
      assert text[..|text|] == text;
    }
  }

  /** The characters of `s` that are not whitespace. */
  function Ink(s: string): string {
    if s == "" then "" else if IsSpace(s[0]) then Ink(s[1..]) else [s[0]] + Ink(s[1..])
  }

  /** Every separator replaced by one hyphen. */
  function Hyphenated(s: string, separators: string): (r: string)
    ensures |r| == |s|
    ensures forall i :: 0 <= i < |s| ==> r[i] == if s[i] in separators then '-' else s[i]
  {
    if s == "" then "" else [if s[0] in separators then '-' else s[0]] + Hyphenated(s[1..], separators)
  }

  lemma {:induction false} InkAppend(a: string, b: string)
    ensures Ink(a + b) == Ink(a) + Ink(b)
  {
    if a == "" {
      assert a + b == b;
    } else {
      InkAppend(a[1..], b);
      assert (a + b)[1..] == a[1..] + b;
      assert (a + b)[0] == a[0];
      Associative([a[0]], Ink(a[1..]), Ink(b));
    }
  }

  /** The ink a character leaves in the title. */
  function InkWritten(c: char, separators: string): string {
    if IsSpace(c) then "" else [if c in separators then '-' else c]
  }

  lemma InkOfEmit(text: string, separators: string, i: nat)
    requires IsSeparatorSet(separators) && i < |text|
    ensures Ink(Emit(text, separators, i)) == InkWritten(text[i], separators)
  {
    hide SpacedSeparator, Spaced;
    InkAppend(" ", "- ");
    InkAppend("-", " ");
    assert " " + "- " == " - " && "-" + " " == "- ";
  }

  lemma InkSnoc(s: string, c: char)
    ensures Ink(s + [c]) == Ink(s) + if IsSpace(c) then "" else [c]
  {
    InkAppend(s, [c]);
    assert Ink([c]) == if IsSpace(c) then "" else [c];
  }

  lemma HyphenatedSnoc(s: string, c: char, separators: string)
    ensures Hyphenated(s + [c], separators) == Hyphenated(s, separators) + [if c in separators then '-' else c]
  {
  }

  lemma InkStep(head: string, piece: string, prefix: string, c: char, separators: string)
    requires Ink(head) == Hyphenated(Ink(prefix), separators)
    requires Ink(piece) == InkWritten(c, separators)
    ensures Ink(head + piece) == Hyphenated(Ink(prefix + [c]), separators)
  {
    InkAppend(head, piece);
    InkSnoc(prefix, c);
    HyphenatedSnoc(Ink(prefix), c, separators);
  }

  /** Conservation: the inked characters are those of the title, in order, each separator having become one hyphen. */
  lemma {:induction false} InkConserved(text: string, separators: string, k: nat)
    requires IsSeparatorSet(separators) && k <= |text|
    ensures Ink(Emitted(text, separators, k)) == Hyphenated(Ink(text[..k]), separators)
  {
    hide *;
    if k == 0 {
      NoInk(text, separators);
    } else {
      InkConserved(text, separators, k - 1);
      EmittedSnoc(text, separators, k - 1);
      InkOfEmit(text, separators, k - 1);
      InkStep(Emitted(text, separators, k - 1), Emit(text, separators, k - 1), text[..k - 1], text[k - 1], separators);
      assert text[..k] == text[..k - 1] + [text[k - 1]];
    }
  }

  lemma NoInk(text: string, separators: string)
    ensures Ink(Emitted(text, separators, 0)) == Hyphenated(Ink(text[..0]), separators)
  {
    assert text[..0] == "";
  }

  ghost predicate NoDoubleSpace(s: string) {
    forall i :: 0 < i < |s| ==> !(IsSpace(s[i - 1]) && IsSpace(s[i]))
  }

  predicate EndsInSpace(s: string) {
    s != "" && IsSpace(s[|s| - 1])
  }

  lemma EndBeforeWrittenSpace(text: string, separators: string, k: nat)
    requires IsSeparatorSet(separators) && NoDoubleSpace(text) && k < |text|
    requires !SpacedSeparator(text, separators, InkBefore(text, k))
    requires IsSpace(text[k]) || SpacedSeparator(text, separators, k)
    ensures !EndsInSpace(Emitted(text, separators, k))
  {
    if k > 0 {
      if IsSpace(text[k - 1]) {
        assert InkFrom(text, k - 1) == k;
        assert InkBefore(text, k) == InkBefore(text, k - 1);
        assert Emit(text, separators, k - 1) == "";
        if k > 1 { EmittedEnd(text, separators, k - 1); }
      } else {
        EmittedEnd(text, separators, k);
      }
    }
  }

  /** The rule never creates a double space. */
  lemma {:induction false} NoDoubleSpaceCreated(text: string, separators: string, k: nat)
    requires IsSeparatorSet(separators) && NoDoubleSpace(text) && k <= |text|
    ensures NoDoubleSpace(Emitted(text, separators, k))
  {
    if k > 0 {
      NoDoubleSpaceCreated(text, separators, k - 1);
      var piece := Emit(text, separators, k - 1);
      if piece != "" && IsSpace(piece[0]) {
        EndBeforeWrittenSpace(text, separators, k - 1);
      }
      EmitIsTight(text, separators, k - 1);
      JoinIsTight(Emitted(text, separators, k - 1), piece);
      hide Emit, IsSpace, NoDoubleSpace;
    }
  }

  lemma JoinIsTight(a: string, b: string)
    requires NoDoubleSpace(a) && NoDoubleSpace(b)
    requires b == "" || !IsSpace(b[0]) || !EndsInSpace(a)
    ensures NoDoubleSpace(a + b)
  {
    hide IsSpace;
  }

  lemma EmitIsTight(text: string, separators: string, i: nat)
    requires IsSeparatorSet(separators) && i < |text|
    ensures NoDoubleSpace(Emit(text, separators, i))
  {
    hide SpacedSeparator, Spaced;
  }

  lemma {:induction false} InkNotEmpty(s: string, i: nat)
    requires i < |s| && !IsSpace(s[i])
    ensures Ink(s) != ""
  {
    if IsSpace(s[0]) { InkNotEmpty(s[1..], i - 1); }
  }

  /** A title holding a separator keeps some ink, so it is never retitled to nothing. */
  lemma NormalizedNotEmpty(text: string, separators: string)
    requires IsSeparatorSet(separators) && HasSeparator(text, separators)
    ensures Normalized(text, separators) != ""
  {
    hide Emitted, IsSpace;
    InkConserved(text, separators, |text|);
    assert text[..|text|] == text;
    var i :| 0 <= i < |text| && text[i] in separators;
    InkNotEmpty(text, i);
  }

  // ----- the rule, character by character -----

  /** There is a separator at `j`, with nothing but whitespace between it and `i`. */
  ghost predicate Touches(text: string, separators: string, i: nat, j: nat) {
    && i < |text| && j < |text| && text[j] in separators
    && (forall k :: i < k < j ==> IsSpace(text[k])) && (forall k :: j < k < i ==> IsSpace(text[k]))
  }

  lemma TouchesIff(text: string, separators: string, i: nat)
    requires IsSeparatorSet(separators) && i < |text| && IsSpace(text[i])
    ensures (exists j: nat :: Touches(text, separators, i, j)) <==>
            SpacedSeparator(text, separators, InkBefore(text, i)) || SpacedSeparator(text, separators, InkFrom(text, i))
  {
    var (a, b) := (InkBefore(text, i), InkFrom(text, i));
    hide IsSpace;
    if SpacedSeparator(text, separators, a) { assert Touches(text, separators, i, a); }
    if SpacedSeparator(text, separators, b) { assert Touches(text, separators, i, b); }
    if j: nat :| Touches(text, separators, i, j) {
      assert !IsSpace(text[j]) && j != i;
      if j < i { assert a == j && IsSpace(text[j + 1]); } else { assert b == j && IsSpace(text[j - 1]); }
    }
  }

  /** What the rule makes of each character, in the words it is stated in: a separator that touches no whitespace becomes a
      hyphen, one that does becomes a hyphen with one space on either side, the whitespace around it goes, and everything
      else is copied. */
  lemma NormalizedMeans(text: string, separators: string, i: nat)
    requires IsSeparatorSet(separators) && i < |text|
    ensures var (before, after, c) := (Emitted(text, separators, i), Emitted(text, separators, i + 1), text[i]);
            var touches := (i > 0 && IsSpace(text[i - 1])) || (i + 1 < |text| && IsSpace(text[i + 1]));
            && (c in separators && !touches ==> after == before + "-")
            && (c in separators && touches ==> |after| >= 3 && after[|after| - 3..] == " - ")
            && (c !in separators && !IsSpace(c) ==> after == before + [c])
            && (IsSpace(c) && (exists j: nat :: Touches(text, separators, i, j)) ==> after == before)
            && (IsSpace(c) && !(exists j: nat :: Touches(text, separators, i, j)) ==> after == before + [c])
    ensures Emitted(text, separators, 0) == "" && Emitted(text, separators, |text|) == Normalized(text, separators)
  {
    EmittedEnds(text, separators);
    hide *;
    if IsSpace(text[i]) {
      SpaceMeans(text, separators, i);
    } else {
      InkMeans(text, separators, i);
    }
  }

  lemma EmittedEnds(text: string, separators: string)
    ensures Emitted(text, separators, 0) == "" && Emitted(text, separators, |text|) == Normalized(text, separators)
  {
  }

  lemma SpaceMeans(text: string, separators: string, i: nat)
    requires IsSeparatorSet(separators) && i < |text| && IsSpace(text[i])
    ensures var touched := exists j: nat :: Touches(text, separators, i, j);
            Emitted(text, separators, i + 1) == Emitted(text, separators, i) + if touched then "" else [text[i]]
    ensures text[i] !in separators
  {
    EmittedSnoc(text, separators, i);
    TouchesIff(text, separators, i);
    hide Emitted, Touches, SpacedSeparator;
  }

  lemma InkMeans(text: string, separators: string, i: nat)
    requires IsSeparatorSet(separators) && i < |text| && !IsSpace(text[i])
    ensures var (before, after, c) := (Emitted(text, separators, i), Emitted(text, separators, i + 1), text[i]);
            var touches := (i > 0 && IsSpace(text[i - 1])) || (i + 1 < |text| && IsSpace(text[i + 1]));
            && (c in separators && !touches ==> after == before + "-")
            && (c in separators && touches ==> |after| >= 3 && after[|after| - 3..] == " - ")
            && (c !in separators ==> after == before + [c])
  {
    EmittedSnoc(text, separators, i);
    hide Emitted, IsSpace;
    if text[i] in separators && Spaced(text, i) { SpacedHyphen(text, separators, i); }
  }

  lemma SpacedHyphen(text: string, separators: string, i: nat)
    requires IsSeparatorSet(separators) && i < |text| && SpacedSeparator(text, separators, i)
    ensures var after := Emitted(text, separators, i + 1); |after| >= 3 && after[|after| - 3..] == " - "
  {
    var k := InkBefore(text, i) + 1;
    EmitSeparator(text, separators, k, i);
    hide Emitted, IsSpace;
    if SpacedSeparator(text, separators, k - 1) {
      TrimmedSeparator(text, separators, k);
      HyphenAfterSpace(TrimRight(Emitted(text, separators, k)));
    } else {
      EndOf(Emitted(text, separators, k), " - ");
    }
  }

  lemma EndOf(head: string, end: string)
    ensures (head + end)[|head + end| - |end|..] == end
  {
  }

  lemma HyphenAfterSpace(head: string)
    ensures var after := head + " " + "- "; |after| >= 3 && after[|after| - 3..] == " - "
  {
    Associative(head, " ", "- ");
    EndOf(head, " - ");
  }

  /** A comma or an em dash. */
  predicate HasMark(title: string) {
    ',' in title || '\U{2014}' in title
  }

  /** An asset title holds neither once the rule has been applied, and is left alone exactly when it held neither. */
  lemma AssetTitleHolds(text: string)
    ensures !HasMark(AssetTitle(text))
    ensures AssetTitle(text) == text <==> !HasMark(text)
    ensures HasTitleSeparator(text) <==> HasMark(text)
  {
    NoSeparatorLeft(text, TITLE_SEPARATORS);
    NormalizedIsStable(text, TITLE_SEPARATORS);
    hide Normalized;
  }
}
