/** Retitling every punctuated row of a file, and applying documented retitles to them
    (`_retitle_pass`, `_apply_retitles` in `seed/scripts/preserved_archive.py`). */
module CsvRows {
  import opened Sequences
  import opened Outcomes
  import opened Sorting
  import opened TitleRule
  import opened CsvReader
  import opened CsvRetitle

  /** What SHA-256 gives. Digests are unbounded here, so that a collision-free digest can exist. */
  type Digest = string

  /** The digests the documents are made of: of bytes, of a list of row digests, of a column, and the identity of the
      title rule. */
  datatype Hashes = Hashes(sha: string -> Digest, ordered: seq<Digest> -> Digest, column: seq<string> -> Digest, rule: Digest)

  /** No two files, and no two columns, have one digest. */
  ghost predicate CollisionFree(h: Hashes) {
    && (forall a, b :: h.sha(a) == h.sha(b) ==> a == b)
    && (forall a, b :: h.column(a) == h.column(b) ==> a == b)
  }

  /** One documented retitle. */
  datatype Retitle = Retitle(key: string, before: string, after: string, rowBefore: Digest, rowAfter: Digest)

  const KEY: Retitle -> string := (e: Retitle) => e.key

  function Max(a: nat, b: nat): nat {
    if a > b then a else b
  }

  predicate Readable(row: string, n: nat) {
    Fields(row).Ok? && n < |Fields(row).value|
  }

  function Field(row: string, i: nat): string
    requires Readable(row, i)
  {
    Fields(row).value[i]
  }

  predicate Punctuated(row: string, t: nat)
    requires Readable(row, t)
  {
    HasTitleSeparator(Field(row, t))
  }

  // ----- the pass -----

  /** One row of `_retitle_pass`, its inverse check included. */
  function PassRow(h: Hashes, row: string, k: nat, t: nat): Outcome<(string, seq<Retitle>)> {
    var f :- Fields(row);
    if |f| <= Max(k, t) then Refused
    else if !HasTitleSeparator(f[t]) then Ok((row, []))
    else
      var title := AssetTitle(f[t]);
      var after :- Retitled(row, t, title);
      var back :- Retitled(after, t, f[t]);
      if back != row then Refused
      else Ok((after, [Retitle(f[k], f[t], title, h.sha(row), h.sha(after))]))
  }

  function PassRows(h: Hashes, rows: seq<string>, k: nat, t: nat): Outcome<(seq<string>, seq<Retitle>)> {
    if rows == [] then Ok(([], []))
    else
      var head :- PassRow(h, rows[0], k, t);
      var tail :- PassRows(h, rows[1..], k, t);
      Ok(([head.0] + tail.0, head.1 + tail.1))
  }

  /** `_retitle_pass`: the rows afterwards, and the retitles in key order. */
  function RetitlePass(h: Hashes, rows: seq<string>, k: nat, t: nat): Outcome<(seq<string>, seq<Retitle>)> {
    var r :- PassRows(h, rows, k, t);
    Ok((r.0, SortBy(KEY, r.1)))
  }

  /** The pass accepts a row: it is long enough, and its title, if punctuated, can be located. */
  predicate Passes(row: string, k: nat, t: nat) {
    Readable(row, Max(k, t)) && (Punctuated(row, t) ==> Retitled(row, t, AssetTitle(Field(row, t))).Ok?)
  }

  function NewRow(row: string, k: nat, t: nat): string
    requires Passes(row, k, t)
  {
    if Punctuated(row, t) then Retitled(row, t, AssetTitle(Field(row, t))).value else row
  }

  function Entry(h: Hashes, row: string, k: nat, t: nat): Retitle
    requires Passes(row, k, t)
  {
    Retitle(Field(row, k), Field(row, t), AssetTitle(Field(row, t)), h.sha(row), h.sha(NewRow(row, k, t)))
  }

  /** The inverse check never refuses, so a row passes exactly when its title can be rewritten. */
  lemma PassRowIs(h: Hashes, row: string, k: nat, t: nat)
    ensures PassRow(h, row, k, t).Ok? <==> Passes(row, k, t)
    ensures Passes(row, k, t) ==>
              PassRow(h, row, k, t) == Ok((NewRow(row, k, t), if Punctuated(row, t) then [Entry(h, row, k, t)] else []))
  {
    hide Fields, Retitled, HasTitleSeparator, AssetTitle;
    if Readable(row, t) && Retitled(row, t, AssetTitle(Field(row, t))).Ok? {
      RetitleInverse(row, t, AssetTitle(Field(row, t)));
    }
  }

  ghost predicate AllPass(rows: seq<string>, k: nat, t: nat) {
    forall i :: 0 <= i < |rows| ==> Passes(rows[i], k, t)
  }

  /** The entries of the pass, in row order. */
  function Entries(h: Hashes, rows: seq<string>, k: nat, t: nat): (es: seq<Retitle>)
    requires AllPass(rows, k, t)
  {
    if rows == [] then []
    else (if Punctuated(rows[0], t) then [Entry(h, rows[0], k, t)] else []) + Entries(h, rows[1..], k, t)
  }

  function NewRows(rows: seq<string>, k: nat, t: nat): (after: seq<string>)
    requires AllPass(rows, k, t)
    ensures |after| == |rows| && forall i :: 0 <= i < |rows| ==> after[i] == NewRow(rows[i], k, t)
  {
    if rows == [] then [] else [NewRow(rows[0], k, t)] + NewRows(rows[1..], k, t)
  }

  lemma {:induction false} PassRowsIs(h: Hashes, rows: seq<string>, k: nat, t: nat)
    ensures PassRows(h, rows, k, t).Ok? <==> AllPass(rows, k, t)
    ensures AllPass(rows, k, t) ==> PassRows(h, rows, k, t) == Ok((NewRows(rows, k, t), Entries(h, rows, k, t)))
  {
    if rows != [] {
      PassRowIs(h, rows[0], k, t);
      PassRowsIs(h, rows[1..], k, t);
      hide PassRow, Passes, NewRow, Entry, Punctuated;
      assert AllPass(rows, k, t) <==> Passes(rows[0], k, t) && AllPass(rows[1..], k, t) by {
        if Passes(rows[0], k, t) && AllPass(rows[1..], k, t) {
          forall i | 0 <= i < |rows| ensures Passes(rows[i], k, t) {
            if i > 0 { assert rows[i] == rows[1..][i - 1]; }
          }
        }
      }
    }
  }

  /** An entry of the pass is the entry of a punctuated row, and every punctuated row has one. */
  lemma {:induction false} EntryMembers(h: Hashes, rows: seq<string>, k: nat, t: nat, e: Retitle)
    requires AllPass(rows, k, t)
    ensures e in Entries(h, rows, k, t) <==>
            exists i :: 0 <= i < |rows| && Punctuated(rows[i], t) && e == Entry(h, rows[i], k, t)
  {
    hide Fields, Retitled, HasTitleSeparator, AssetTitle;
    if rows != [] {
      EntryMembers(h, rows[1..], k, t, e);
      if e in Entries(h, rows[1..], k, t) {
        var i :| 0 <= i < |rows[1..]| && Punctuated(rows[1..][i], t) && e == Entry(h, rows[1..][i], k, t);
        assert rows[i + 1] == rows[1..][i];
      }
      if i :| 0 <= i < |rows| && Punctuated(rows[i], t) && e == Entry(h, rows[i], k, t) && i > 0 {
        assert rows[i] == rows[1..][i - 1];
      }
    }
  }

  /** The loop of `_retitle_pass`. */
  method RunRetitlePass(h: Hashes, rows: seq<string>, k: nat, t: nat) returns (r: Outcome<(seq<string>, seq<Retitle>)>)
    ensures r == RetitlePass(h, rows, k, t)
  {
    hide PassRow;
    var after: seq<string>, entries: seq<Retitle> := [], [];
    assert rows[0..] == rows;
    ExtendNothing(PassRows(h, rows, k, t));
    hide PassRows;
    for i := 0 to |rows|
      invariant PassRows(h, rows, k, t) == Extend(after, entries, PassRows(h, rows[i..], k, t))
    {
      PassRowsStep(h, rows, k, t, i);
      var one :- PassRow(h, rows[i], k, t);
      ExtendStep(after, entries, one.0, one.1, PassRows(h, rows[i + 1..], k, t));
      after, entries := after + [one.0], entries + one.1;
    }
    PassRowsStep(h, rows, k, t, |rows|);
    assert after + [] == after && entries + [] == entries;
    return Ok((after, SortBy(KEY, entries)));
  }

  function Extend(after: seq<string>, entries: seq<Retitle>, rest: Outcome<(seq<string>, seq<Retitle>)>)
    : Outcome<(seq<string>, seq<Retitle>)>
  {
    var r :- rest;
    Ok((after + r.0, entries + r.1))
  }

  lemma ExtendNothing(rest: Outcome<(seq<string>, seq<Retitle>)>)
    ensures Extend([], [], rest) == rest
  {
    if rest.Ok? { assert [] + rest.value.0 == rest.value.0 && [] + rest.value.1 == rest.value.1; }
  }

  function PassCons(head: Outcome<(string, seq<Retitle>)>, tail: Outcome<(seq<string>, seq<Retitle>)>)
    : Outcome<(seq<string>, seq<Retitle>)>
  {
    var one :- head;
    var rest :- tail;
    Ok(([one.0] + rest.0, one.1 + rest.1))
  }

  lemma PassRowsStep(h: Hashes, rows: seq<string>, k: nat, t: nat, i: nat)
    requires i <= |rows|
    ensures i == |rows| ==> PassRows(h, rows[i..], k, t) == Ok(([], []))
    ensures i < |rows| ==>
              PassRows(h, rows[i..], k, t) == PassCons(PassRow(h, rows[i], k, t), PassRows(h, rows[i + 1..], k, t))
  {
    if i < |rows| { assert rows[i..][0] == rows[i] && rows[i..][1..] == rows[i + 1..]; }
  }

  lemma ExtendStep(after: seq<string>, entries: seq<Retitle>, row: string, es: seq<Retitle>,
                   rest: Outcome<(seq<string>, seq<Retitle>)>)
    ensures rest.Ok? ==>
              after + ([row] + rest.value.0) == after + [row] + rest.value.0 && entries + (es + rest.value.1) == entries + es + rest.value.1
  {
  }

  // ----- applying documented retitles -----

  /** The retitle documented for a key; a later entry of the list replaces an earlier one. */
  function Find(retitles: seq<Retitle>, key: string): (r: Option<Retitle>)
    ensures r.Some? ==> r.value in retitles && r.value.key == key
    ensures r.None? ==> forall e :: e in retitles ==> e.key != key
  {
    if retitles == [] then None
    else if retitles[|retitles| - 1].key == key then Some(retitles[|retitles| - 1])
    else
      assert retitles == retitles[..|retitles| - 1] + [retitles[|retitles| - 1]];
      Find(retitles[..|retitles| - 1], key)
  }

  /** A row after its documented retitle: whether one names it, and whether it failed. */
  datatype Applied = Applied(row: string, hit: bool, bad: bool)

  /** One row of `_apply_retitles`. */
  function ApplyRow(h: Hashes, row: string, retitles: seq<Retitle>, k: nat, t: nat): Outcome<Applied> {
    var f :- Fields(row);
    if |f| <= k || Find(retitles, f[k]).None? then Ok(Applied(row, false, false))
    else
      var e := Find(retitles, f[k]).value;
      if h.sha(row) != e.rowBefore then Ok(Applied(row, true, true))
      else if |f| <= t then Crashed
      else if f[t] != e.before then Ok(Applied(row, true, true))
      else
        match Retitled(row, t, e.after)
        case Crashed => Crashed
        case Refused => Ok(Applied(row, true, true))
        case Ok(after) => if h.sha(after) != e.rowAfter then Ok(Applied(row, true, true)) else Ok(Applied(after, true, false))
  }

  function ApplyRows(h: Hashes, rows: seq<string>, retitles: seq<Retitle>, k: nat, t: nat): Outcome<seq<Applied>> {
    if rows == [] then Ok([])
    else
      var head :- ApplyRow(h, rows[0], retitles, k, t);
      var tail :- ApplyRows(h, rows[1..], retitles, k, t);
      Ok([head] + tail)
  }

  function RowsOf(applied: seq<Applied>): (rows: seq<string>)
    ensures |rows| == |applied| && forall i :: 0 <= i < |applied| ==> rows[i] == applied[i].row
  {
    if applied == [] then [] else [applied[0].row] + RowsOf(applied[1..])
  }

  lemma {:induction false} ApplyRowsAt(h: Hashes, rows: seq<string>, retitles: seq<Retitle>, k: nat, t: nat)
    requires ApplyRows(h, rows, retitles, k, t).Ok?
    ensures var applied := ApplyRows(h, rows, retitles, k, t).value;
            && |applied| == |rows|
            && forall i :: 0 <= i < |rows| ==> ApplyRow(h, rows[i], retitles, k, t) == Ok(applied[i])
  {
    hide ApplyRow;
    if rows != [] {
      ApplyRowsAt(h, rows[1..], retitles, k, t);
      var applied := ApplyRows(h, rows, retitles, k, t).value;
      var tail := ApplyRows(h, rows[1..], retitles, k, t).value;
      assert applied == [ApplyRow(h, rows[0], retitles, k, t).value] + tail;
      forall i | 0 <= i < |rows| ensures ApplyRow(h, rows[i], retitles, k, t) == Ok(applied[i]) {
        if i > 0 { assert rows[i] == rows[1..][i - 1] && applied[i] == tail[i - 1]; }
      }
    }
  }

  lemma {:induction false} ApplyRowsTo(h: Hashes, rows: seq<string>, retitles: seq<Retitle>, k: nat, t: nat, applied: seq<Applied>)
    requires |applied| == |rows|
    requires forall i :: 0 <= i < |rows| ==> ApplyRow(h, rows[i], retitles, k, t) == Ok(applied[i])
    ensures ApplyRows(h, rows, retitles, k, t) == Ok(applied)
  {
    hide ApplyRow;
    if rows != [] {
      ApplyRowsTo(h, rows[1..], retitles, k, t, applied[1..]);
      assert applied == [applied[0]] + applied[1..];
    }
  }

  /** The documented keys that named no surviving row. */
  function Missed(rows: seq<string>, applied: seq<Applied>, retitles: seq<Retitle>, k: nat): set<string>
    requires |applied| == |rows|
  {
    (set e | e in retitles :: e.key)
    - (set i: nat | i < |rows| && applied[i].hit && Readable(rows[i], k) :: Field(rows[i], k))
  }

  predicate AnyBad(applied: seq<Applied>) {
    exists i :: 0 <= i < |applied| && applied[i].bad
  }

  /** No two rows of the file have one key. */
  ghost predicate UniqueKeys(rows: seq<string>, k: nat) {
    && (forall i :: 0 <= i < |rows| ==> Readable(rows[i], k))
    && (forall i, j :: 0 <= i < j < |rows| ==> Field(rows[i], k) != Field(rows[j], k))
  }

  /** The retitles name exactly the punctuated rows, each as the pass computes it. */
  ghost predicate NamesExactly(h: Hashes, rows: seq<string>, retitles: seq<Retitle>, k: nat, t: nat)
    requires AllPass(rows, k, t)
  {
    forall e :: e in retitles <==> e in Entries(h, rows, k, t)
  }

  lemma FindEntry(h: Hashes, rows: seq<string>, retitles: seq<Retitle>, k: nat, t: nat, i: nat)
    requires AllPass(rows, k, t) && UniqueKeys(rows, k) && NamesExactly(h, rows, retitles, k, t) && i < |rows|
    ensures Find(retitles, Field(rows[i], k)) == if Punctuated(rows[i], t) then Some(Entry(h, rows[i], k, t)) else None
  {
    hide Fields, Retitled, HasTitleSeparator, AssetTitle;
    var found := Find(retitles, Field(rows[i], k));
    if found.Some? {
      EntryMembers(h, rows, k, t, found.value);
      var j :| 0 <= j < |rows| && Punctuated(rows[j], t) && found.value == Entry(h, rows[j], k, t);
      assert Field(rows[j], k) == Field(rows[i], k);
      assert j == i;
    } else if Punctuated(rows[i], t) {
      EntryMembers(h, rows, k, t, Entry(h, rows[i], k, t));
    }
  }

  lemma ApplyNamed(h: Hashes, row: string, retitles: seq<Retitle>, k: nat, t: nat)
    requires Passes(row, k, t)
    requires Find(retitles, Field(row, k)) == if Punctuated(row, t) then Some(Entry(h, row, k, t)) else None
    ensures ApplyRow(h, row, retitles, k, t) == Ok(Applied(NewRow(row, k, t), Punctuated(row, t), false))
  {
    hide Fields, Retitled, HasTitleSeparator, AssetTitle, Find;
  }

  function AppliedAll(rows: seq<string>, k: nat, t: nat): (applied: seq<Applied>)
    requires AllPass(rows, k, t)
    ensures |applied| == |rows|
    ensures forall i :: 0 <= i < |rows| ==> applied[i] == Applied(NewRow(rows[i], k, t), Punctuated(rows[i], t), false)
  {
    if rows == [] then []
    else [Applied(NewRow(rows[0], k, t), Punctuated(rows[0], t), false)] + AppliedAll(rows[1..], k, t)
  }

  /** The applier does what the pass did: retitles that name exactly the punctuated rows give the pass's rows, and
      every one of them finds its row. */
  lemma ApplyIsPass(h: Hashes, rows: seq<string>, retitles: seq<Retitle>, k: nat, t: nat)
    requires AllPass(rows, k, t) && UniqueKeys(rows, k) && NamesExactly(h, rows, retitles, k, t)
    ensures ApplyRows(h, rows, retitles, k, t).Ok?
    ensures var applied := ApplyRows(h, rows, retitles, k, t).value;
            |applied| == |rows| && RowsOf(applied) == NewRows(rows, k, t) && !AnyBad(applied) && Missed(rows, applied, retitles, k) == {}
  {
    hide Find, Fields, Retitled, HasTitleSeparator, AssetTitle;
    var applied := AppliedAll(rows, k, t);
    forall i | 0 <= i < |rows| ensures ApplyRow(h, rows[i], retitles, k, t) == Ok(applied[i]) {
      FindEntry(h, rows, retitles, k, t, i);
      ApplyNamed(h, rows[i], retitles, k, t);
    }
    hide ApplyRow, Passes, NewRow, Entry;
    ApplyRowsTo(h, rows, retitles, k, t, applied);
    NothingMissed(h, rows, retitles, k, t, applied);
  }

  lemma NothingMissed(h: Hashes, rows: seq<string>, retitles: seq<Retitle>, k: nat, t: nat, applied: seq<Applied>)
    requires AllPass(rows, k, t) && UniqueKeys(rows, k) && NamesExactly(h, rows, retitles, k, t)
    requires applied == AppliedAll(rows, k, t)
    ensures Missed(rows, applied, retitles, k) == {}
  {
    hide Fields, Retitled, HasTitleSeparator, AssetTitle;
    forall e | e in retitles ensures e.key !in Missed(rows, applied, retitles, k) {
      EntryMembers(h, rows, k, t, e);
      var i :| 0 <= i < |rows| && Punctuated(rows[i], t) && e == Entry(h, rows[i], k, t);
      assert applied[i].hit;
    }
  }

  /** Frame: whatever is documented, a row the applier changes is changed by one rewrite of its title. */
  lemma ApplyChangesTitles(h: Hashes, rows: seq<string>, retitles: seq<Retitle>, k: nat, t: nat, i: nat)
    requires ApplyRows(h, rows, retitles, k, t).Ok? && i < |rows|
    ensures var applied := ApplyRows(h, rows, retitles, k, t).value;
            && |applied| == |rows|
            && (applied[i].row == rows[i] || exists e :: e in retitles && Retitled(rows[i], t, e.after) == Ok(applied[i].row))
  {
    hide Retitled, Fields;
    ApplyRowsAt(h, rows, retitles, k, t);
    if Readable(rows[i], k) && Find(retitles, Field(rows[i], k)).Some? {
      var e := Find(retitles, Field(rows[i], k)).value;
      assert e in retitles;
    }
  }

  /** The loop of `_apply_retitles`. */
  method RunApplyRetitles(h: Hashes, rows: seq<string>, retitles: seq<Retitle>, k: nat, t: nat)
    returns (r: Outcome<seq<Applied>>)
    ensures r == ApplyRows(h, rows, retitles, k, t)
  {
    hide ApplyRow;
    var out: seq<Applied> := [];
    for i := 0 to |rows|
      invariant |out| == i
      invariant forall j :: 0 <= j < i ==> ApplyRow(h, rows[j], retitles, k, t) == Ok(out[j])
    {
      var one := ApplyRow(h, rows[i], retitles, k, t);
      if one.IsFailure() {
        ApplyRowsFails(h, rows, retitles, k, t, i, out);
        return one.PropagateFailure();
      }
      out := out + [one.value];
    }
    ApplyRowsTo(h, rows, retitles, k, t, out);
    return Ok(out);
  }

  lemma {:induction false} ApplyRowsFails(h: Hashes, rows: seq<string>, retitles: seq<Retitle>, k: nat, t: nat, i: nat, out: seq<Applied>)
    requires i < |rows| && |out| == i && ApplyRow(h, rows[i], retitles, k, t).IsFailure()
    requires forall j :: 0 <= j < i ==> ApplyRow(h, rows[j], retitles, k, t) == Ok(out[j])
    ensures ApplyRows(h, rows, retitles, k, t) == ApplyRow(h, rows[i], retitles, k, t).PropagateFailure()
  {
    hide ApplyRow;
    if i > 0 {
      assert rows[1..][i - 1] == rows[i];
      ApplyRowsFails(h, rows[1..], retitles, k, t, i - 1, out[1..]);
    }
  }
}
