/** The row filters of `png_read_rgb` in `seed/scripts/authored_plates.py`: the in-place loops undo the filters of sections
    6.2 to 6.6 of RFC 2083, at three bytes a pixel. */
module PngFilters {
  import opened Binary

  function Abs(x: int): nat {
    if x < 0 then -x else x
  }

  /** Section 6.6: of left, above and upper left, the one nearest to their linear estimate, in that order of preference. */
  function Paeth(a: Byte, b: Byte, c: Byte): (r: Byte)
    ensures r == a || r == b || r == c
  {
    var p := a + b - c;
    var (pa, pb, pc) := (Abs(p - a), Abs(p - b), Abs(p - c));
    if pa <= pb && pa <= pc then a else if pb <= pc then b else c
  }

  function Predicted(filter: Byte, a: Byte, b: Byte, c: Byte): Byte {
    if filter == 1 then a
    else if filter == 2 then b
    else if filter == 3 then (a + b) / 2
    else if filter == 4 then Paeth(a, b, c)
    else 0
  }

  /** The byte one pixel to the left, or zero. */
  function Left(line: Bytes, i: nat): Byte
    requires i <= |line|
  {
    if i >= 3 then line[i - 3] else 0
  }

  function Above(prev: Bytes, i: nat): Byte {
    if i < |prev| then prev[i] else 0
  }

  /** What the filter predicts at byte `i`, from the bytes before it and the row above. */
  function PredictedAt(filter: Byte, line: Bytes, prev: Bytes, i: nat): Byte
    requires i <= |line|
  {
    Predicted(filter, Left(line, i), Above(prev, i), if i >= 3 then Above(prev, i - 3) else 0)
  }

  function Wrap(x: int): Byte {
    x % 256
  }

  /** The forward filter: each byte less its prediction. */
  function Filtered(filter: Byte, line: Bytes, prev: Bytes): (r: Bytes)
    ensures |r| == |line|
    ensures forall i :: 0 <= i < |line| ==> r[i] == Wrap(line[i] - PredictedAt(filter, line, prev, i))
  {
    seq(|line|, i requires 0 <= i < |line| => Wrap(line[i] - PredictedAt(filter, line, prev, i)))
  }

  /** The first `n` bytes restored, each from those before it. */
  function Restored(filter: Byte, raw: Bytes, prev: Bytes, n: nat): (r: Bytes)
    requires n <= |raw|
    ensures |r| == n
  {
    if n == 0 then []
    else
      var before := Restored(filter, raw, prev, n - 1);
      before + [Wrap(raw[n - 1] + PredictedAt(filter, before, prev, n - 1))]
  }

  function Unfiltered(filter: Byte, raw: Bytes, prev: Bytes): (r: Bytes)
    ensures |r| == |raw|
  {
    Restored(filter, raw, prev, |raw|)
  }

  lemma PredictsFromPrefix(filter: Byte, line: Bytes, prev: Bytes, i: nat)
    requires i <= |line|
    ensures PredictedAt(filter, line[..i], prev, i) == PredictedAt(filter, line, prev, i)
  {
  }

  lemma WrapInverse(x: Byte, p: Byte)
    ensures Wrap(Wrap(x - p) + p) == x
  {
  }

  /** Unfiltering undoes filtering, for every filter and whatever the row above. */
  lemma {:induction false} UnfilterInverts(filter: Byte, line: Bytes, prev: Bytes, n: nat)
    requires n <= |line|
    ensures Restored(filter, Filtered(filter, line, prev), prev, n) == line[..n]
  {
    hide PredictedAt, Wrap;
    if n > 0 {
      UnfilterInverts(filter, line, prev, n - 1);
      PredictsFromPrefix(filter, line, prev, n - 1);
      WrapInverse(line[n - 1], PredictedAt(filter, line, prev, n - 1));
      assert line[..n] == line[..n - 1] + [line[n - 1]];
    }
  }

  lemma {:induction false} RestoredWrap(x: Byte, p: Byte)
    ensures Wrap(Wrap(x + p) - p) == x
  {
  }

  /** And filtering undoes unfiltering: no two rows are stored alike. */
  lemma {:induction false} FilterInverts(filter: Byte, raw: Bytes, prev: Bytes)
    ensures Filtered(filter, Unfiltered(filter, raw, prev), prev) == raw
  {
    var line := Unfiltered(filter, raw, prev);
    forall i | 0 <= i < |raw| ensures Filtered(filter, line, prev)[i] == raw[i] {
      RestoredAt(filter, raw, prev, |raw|, i);
      RestoredWrap(raw[i], PredictedAt(filter, line, prev, i));
    }
  }

  lemma {:induction false} RestoredAt(filter: Byte, raw: Bytes, prev: Bytes, n: nat, i: nat)
    requires i < n <= |raw|
    ensures Restored(filter, raw, prev, n)[..i] == Restored(filter, raw, prev, i)
    ensures Restored(filter, raw, prev, n)[i] == Wrap(raw[i] + PredictedAt(filter, Restored(filter, raw, prev, n), prev, i))
  {
    var line := Restored(filter, raw, prev, n);
    if i < n - 1 {
      RestoredAt(filter, raw, prev, n - 1, i);
      assert line[..n - 1] == Restored(filter, raw, prev, n - 1);
      assert line[..i] == line[..n - 1][..i];
    } else {
      assert line[..i] == Restored(filter, raw, prev, i);
    }
    PredictsFromPrefix(filter, line, prev, i);
    PredictsFromPrefix(filter, Restored(filter, raw, prev, if i < n - 1 then n - 1 else n), prev, i);
  }

  // ----- what is restored -----

  function Distance(x: int, y: int): int {
    if x < y then y - x else x - y
  }

  /** `r` is the first of left, above and upper left that is nearest to left plus above less upper left. */
  predicate IsNearest(r: int, left: int, above: int, corner: int) {
    var estimate := left + above - corner;
    var (dl, da, dc) := (Distance(estimate, left), Distance(estimate, above), Distance(estimate, corner));
    || (r == left && dl <= da && dl <= dc)
    || (r == above && da < dl && da <= dc)
    || (r == corner && dc < dl && dc < da)
  }

  /** The byte restored from `x`, by the neighbours' bytes. */
  ghost predicate Restores(filter: int, out: int, x: int, left: int, above: int, corner: int) {
    && (filter == 1 ==> out == (x + left) % 256)
    && (filter == 2 ==> out == (x + above) % 256)
    && (filter == 3 ==> out == (x + (left + above) / 2) % 256)
    && (filter == 4 ==> exists r :: IsNearest(r, left, above, corner) && out == (x + r) % 256)
    && (filter < 1 || filter > 4 ==> out == x)
  }

  /** A restored row, byte by byte, as sections 6.2 to 6.6 define it: the neighbours are the byte three before, the byte
      above, and the byte above and three before; outside the image they are zero. */
  lemma UnfilteredMeans(filter: Byte, raw: Bytes, prev: Bytes, i: nat)
    requires i < |raw| && |prev| == |raw|
    ensures var line := Unfiltered(filter, raw, prev);
            Restores(filter, line[i], raw[i], if i < 3 then 0 else line[i - 3], prev[i], if i < 3 then 0 else prev[i - 3])
  {
    var line := Unfiltered(filter, raw, prev);
    RestoredAt(filter, raw, prev, |raw|, i);
    PredictionRestores(filter, raw[i], if i < 3 then 0 else line[i - 3], prev[i], if i < 3 then 0 else prev[i - 3]);
    hide Predicted, Restored, Restores, Wrap;
  }

  lemma PredictionRestores(filter: Byte, x: Byte, left: Byte, above: Byte, corner: Byte)
    ensures Restores(filter, Wrap(x + Predicted(filter, left, above, corner)), x, left, above, corner)
  {
    PaethIsNearest(left, above, corner);
    hide Paeth, IsNearest;
  }

  lemma PaethIsNearest(a: Byte, b: Byte, c: Byte)
    ensures IsNearest(Paeth(a, b, c), a, b, c)
  {
  }

  // ----- the loops -----

  /** The row is restored up to `i` and raw from there. */
  ghost predicate DoneTo(filter: Byte, line: Bytes, raw: Bytes, prev: Bytes, i: nat) {
    && |line| == |raw| && i <= |raw|
    && line[..i] == Restored(filter, raw, prev, i) && forall k :: i <= k < |raw| ==> line[k] == raw[k]
  }

  /** Adding its prediction to byte `i` takes the row one byte further. */
  lemma WroteOne(filter: Byte, was: Bytes, now: Bytes, raw: Bytes, prev: Bytes, i: nat)
    requires DoneTo(filter, was, raw, prev, i) && i < |raw|
    requires now == was[i := Wrap(was[i] + PredictedAt(filter, was, prev, i))]
    ensures DoneTo(filter, now, raw, prev, i + 1)
  {
    PredictsFromPrefix(filter, was, prev, i);
    hide PredictedAt, Wrap;
    assert now[..i] == was[..i];
    assert now[..i + 1] == now[..i] + [now[i]];
  }

  method UnfilterSub(line: array<Byte>, prev: Bytes)
    modifies line
    ensures line[..] == Unfiltered(1, old(line[..]), prev)
  {
    ghost var raw := line[..];
    var start := if line.Length < 3 then line.Length else 3;
    FirstPixel(raw, prev, start);
    for i := start to line.Length
      invariant DoneTo(1, line[..], raw, prev, i)
    {
      ghost var was := line[..];
      var (x: int, a: int) := (line[i], line[i - 3]);
      line[i] := (x + a) % 256;
      WroteOne(1, was, line[..], raw, prev, i);
    }
    assert line[..line.Length] == line[..];
  }

  /** The first pixel has nothing to its left. */
  lemma {:induction false} FirstPixel(raw: Bytes, prev: Bytes, n: nat)
    requires n <= |raw| && n <= 3
    ensures Restored(1, raw, prev, n) == raw[..n]
  {
    if n > 0 {
      FirstPixel(raw, prev, n - 1);
      assert raw[..n] == raw[..n - 1] + [raw[n - 1]];
    }
  }

  method UnfilterUp(line: array<Byte>, prev: Bytes)
    requires |prev| == line.Length
    modifies line
    ensures line[..] == Unfiltered(2, old(line[..]), prev)
  {
    ghost var raw := line[..];
    for i := 0 to line.Length
      invariant DoneTo(2, line[..], raw, prev, i)
    {
      ghost var was := line[..];
      var (x: int, b: int) := (line[i], prev[i]);
      line[i] := (x + b) % 256;
      WroteOne(2, was, line[..], raw, prev, i);
    }
    assert line[..line.Length] == line[..];
  }

  method UnfilterAverage(line: array<Byte>, prev: Bytes)
    requires |prev| == line.Length
    modifies line
    ensures line[..] == Unfiltered(3, old(line[..]), prev)
  {
    ghost var raw := line[..];
    for i := 0 to line.Length
      invariant DoneTo(3, line[..], raw, prev, i)
    {
      ghost var was := line[..];
      var a: int := if i >= 3 then line[i - 3] else 0;
      var (x: int, b: int) := (line[i], prev[i]);
      line[i] := (x + (a + b) / 2) % 256;
      WroteOne(3, was, line[..], raw, prev, i);
    }
    assert line[..line.Length] == line[..];
  }

  method UnfilterPaeth(line: array<Byte>, prev: Bytes)
    requires |prev| == line.Length
    modifies line
    ensures line[..] == Unfiltered(4, old(line[..]), prev)
  {
    ghost var raw := line[..];
    for i := 0 to line.Length
      invariant DoneTo(4, line[..], raw, prev, i)
    {
      ghost var was := line[..];
      var a: Byte := if i >= 3 then line[i - 3] else 0;
      var b: Byte := prev[i];
      var c: Byte := if i >= 3 then prev[i - 3] else 0;
      var p := a + b - c;
      var (pa, pb, pc) := (Abs(p - a), Abs(p - b), Abs(p - c));
      var pred: Byte := if pa <= pb && pa <= pc then a else if pb <= pc then b else c;
      var x: int := line[i];
      line[i] := (x + pred) % 256;
      WroteOne(4, was, line[..], raw, prev, i);
    }
    assert line[..line.Length] == line[..];
  }
}
