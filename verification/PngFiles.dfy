/** `png_read_rgb` and `png_write_rgb` of `seed/scripts/authored_plates.py`: rows and chunks. Chunk framing is that of
    section 3.2 of RFC 2083; the compression and the check sum are taken as given. */
module PngFiles {
  import opened Sequences
  import opened Outcomes
  import opened Binary
  import opened PngFilters

  // ----- rows -----

  /** The row's loop runs past the bytes that are there: filter 0 has no loop, and filter 1 none over a single pixel. */
  predicate RunsShort(filter: Byte, have: nat, stride: nat) {
    have < stride && filter != 0 && (filter == 1 ==> stride > 3)
  }

  /** The row that starts `data`: its filter byte, and as many bytes of it as there are. */
  function FirstRow(data: Bytes, stride: nat, prev: Bytes): Outcome<Bytes> {
    if data == [] then Crashed
    else
      var raw := data[1..][..Smaller(stride, |data| - 1)];
      if data[0] > 4 then Refused
      else if RunsShort(data[0], |raw|, stride) then Crashed
      else Ok(Unfiltered(data[0], raw, prev))
  }

  /** What follows a row; nothing, once a short row has run past the end. */
  function From(data: Bytes, src: nat): Bytes {
    if src <= |data| then data[src..] else []
  }

  /** The rows of inflated data, one after the other. */
  function DecodedRows(data: Bytes, stride: nat, h: nat, prev: Bytes): Outcome<Bytes>
    decreases h
  {
    if h == 0 then Ok([])
    else
      var line :- FirstRow(data, stride, prev);
      var rest :- DecodedRows(From(data, 1 + stride), stride, h - 1, line);
      Ok(line + rest)
  }

  /** One row in place. */
  method UnfilterRow(filter: Byte, line: array<Byte>, stride: nat, prev: Bytes) returns (r: Outcome<()>)
    requires |prev| == stride && line.Length <= stride
    modifies line
    ensures r == if filter > 4 then Refused else if RunsShort(filter, line.Length, stride) then Crashed else Ok(())
    ensures r.Ok? ==> line[..] == Unfiltered(filter, old(line[..]), prev)
  {
    if filter > 4 {
      return Refused;
    }
    if RunsShort(filter, line.Length, stride) {
      return Crashed;
    }
    if filter == 1 {
      UnfilterSub(line, prev);
    } else if filter == 2 {
      UnfilterUp(line, prev);
    } else if filter == 3 {
      UnfilterAverage(line, prev);
    } else if filter == 4 {
      UnfilterPaeth(line, prev);
    } else {
      Unmoved(line[..], prev, line.Length);
    }
    return Ok(());
  }

  lemma {:induction false} Unmoved(raw: Bytes, prev: Bytes, n: nat)
    requires n <= |raw|
    ensures Restored(0, raw, prev, n) == raw[..n]
    ensures n == |raw| ==> Unfiltered(0, raw, prev) == raw
  {
    if n > 0 {
      Unmoved(raw, prev, n - 1);
      assert raw[..n] == raw[..n - 1] + [raw[n - 1]];
    }
    assert raw[..|raw|] == raw;
  }

  /** `out[a:b] = line` on a growable buffer: the slice takes the length of what is assigned. */
  function Spliced(out: Bytes, a: nat, b: nat, line: Bytes): Bytes
    requires a <= b
  {
    out[..Smaller(a, |out|)] + line + out[Smaller(b, |out|)..]
  }

  function Zeros(n: nat): (r: Bytes)
    ensures |r| == n && forall i :: 0 <= i < n ==> r[i] == 0
  {
    seq(n, i => 0)
  }

  function Then(done: Bytes, rest: Outcome<Bytes>): Outcome<Bytes> {
    if rest.Ok? then Ok(done + rest.value) else rest
  }

  /** The bytes of `n` rows. */
  function Area(n: nat, stride: nat): nat {
    n * stride
  }

  lemma NextRow(y: nat, stride: nat)
    ensures Area(y + 1, stride) == Area(y, stride) + stride && Area(0, stride) == 0
  {
  }

  /** One full or short row more, written over the zeros the buffer began with. */
  lemma SpliceRow(done: Bytes, line: Bytes, left: nat, stride: nat)
    requires left > 0
    ensures Spliced(done + Zeros(Area(left, stride)), |done|, |done| + stride, line) == done + line + Zeros(Area(left - 1, stride))
  {
    NextRow(left - 1, stride);
    hide Area;
  }

  /** The rows done so far and the rows to come, one row further. */
  lemma RowStep(data: Bytes, stride: nat, left: nat, prev: Bytes, done: Bytes)
    requires left > 0
    ensures var row := FirstRow(data, stride, prev);
            Then(done, DecodedRows(data, stride, left, prev)) ==
            if row.Ok? then Then(done + row.value, DecodedRows(From(data, 1 + stride), stride, left - 1, row.value)) else row
  {
    hide FirstRow, From;
    var row := FirstRow(data, stride, prev);
    if row.Ok? {
      var next := DecodedRows(From(data, 1 + stride), stride, left - 1, row.value);
      if next.Ok? { Associative(done, row.value, next.value); }
    }
  }

  lemma FromFrom(data: Bytes, src: nat, n: nat)
    ensures From(From(data, src), n) == From(data, src + n)
  {
  }

  /** One row of the loop. */
  method ReadRow(data: Bytes, src: nat, stride: nat, prev: Bytes) returns (r: Outcome<Bytes>)
    requires src < |data| ==> |prev| == stride
    ensures r == FirstRow(From(data, src), stride, prev)
    ensures r.Ok? ==> src < |data| && |r.value| <= stride && (src + 1 + stride <= |data| ==> |r.value| == stride)
  {
    if src >= |data| {
      return Crashed;
    }
    var raw := data[src + 1..][..Smaller(stride, |data| - src - 1)];
    assert data[src..][1..] == data[src + 1..];
    var line := new Byte[|raw|](i requires 0 <= i < |raw| => raw[i]);
    assert line[..] == raw;
    var _ :- UnfilterRow(data[src], line, stride, prev);
    return Ok(line[..]);
  }

  /** The loop after `y` rows: what is written, what is left to read, and that the two make the whole. */
  ghost predicate Reading(data: Bytes, stride: nat, h: nat, y: nat, out: Bytes, prev: Bytes, src: nat, done: Bytes) {
    && y <= h && out == done + Zeros(Area(h - y, stride))
    && (src <= |data| ==> |prev| == stride && |done| == Area(y, stride))
    && DecodedRows(data, stride, h, Zeros(stride)) == Then(done, DecodedRows(From(data, src), stride, h - y, prev))
  }

  lemma ReadingStarts(data: Bytes, stride: nat, h: nat)
    ensures Reading(data, stride, h, 0, Zeros(Area(h, stride)), Zeros(stride), 0, [])
  {
    NextRow(0, stride);
    hide Area, DecodedRows;
    assert From(data, 0) == data;
    var whole := DecodedRows(data, stride, h, Zeros(stride));
    assert whole.Ok? ==> [] + whole.value == whole.value;
    assert [] + Zeros(Area(h, stride)) == Zeros(Area(h, stride));
  }

  lemma RestOn(data: Bytes, stride: nat, left: nat, src: nat, prev: Bytes, done: Bytes)
    requires left > 0
    ensures var row := FirstRow(From(data, src), stride, prev);
            && (row.Ok? ==> Then(done, DecodedRows(From(data, src), stride, left, prev)) ==
                            Then(done + row.value, DecodedRows(From(data, src + 1 + stride), stride, left - 1, row.value)))
            && (!row.Ok? ==> Then(done, DecodedRows(From(data, src), stride, left, prev)) == row)
  {
    hide FirstRow, From, DecodedRows, Then;
    RowStep(From(data, src), stride, left, prev, done);
    FromFrom(data, src, 1 + stride);
    assert src + (1 + stride) == src + 1 + stride;
  }

  lemma ReadingOn(data: Bytes, stride: nat, h: nat, y: nat, out: Bytes, prev: Bytes, src: nat, done: Bytes)
    requires Reading(data, stride, h, y, out, prev, src, done) && y < h
    ensures src < |data| ==> |prev| == stride && |done| == Area(y, stride)
    ensures var row := FirstRow(From(data, src), stride, prev);
            !row.Ok? ==> DecodedRows(data, stride, h, Zeros(stride)) == row
  {
    RestOn(data, stride, h - y, src, prev, done);
    hide FirstRow, From, DecodedRows, Area, Zeros;
  }

  lemma ReadRowOn(data: Bytes, stride: nat, h: nat, y: nat, out: Bytes, prev: Bytes, src: nat, done: Bytes, line: Bytes)
    requires Reading(data, stride, h, y, out, prev, src, done) && y < h && src < |data|
    requires FirstRow(From(data, src), stride, prev) == Ok(line) && (src + 1 + stride <= |data| ==> |line| == stride)
    ensures Reading(data, stride, h, y + 1, Spliced(out, Area(y, stride), Area(y, stride) + stride, line), line, src + 1 + stride, done + line)
  {
    hide FirstRow, From, DecodedRows, Area, Spliced, Then, Zeros;
    RestOn(data, stride, h - y, src, prev, done);
    assert |done| == Area(y, stride);
    var left := h - y;
    assert Spliced(out, |done|, |done| + stride, line) == done + line + Zeros(Area(left - 1, stride)) by {
      SpliceRow(done, line, left, stride);
    }
    assert left - 1 == h - (y + 1);
    if src + 1 + stride <= |data| {
      NextRow(y, stride);
      assert |done + line| == Area(y + 1, stride);
    }
  }

  lemma ReadingEnds(data: Bytes, stride: nat, h: nat, out: Bytes, prev: Bytes, src: nat, done: Bytes)
    requires Reading(data, stride, h, h, out, prev, src, done)
    ensures DecodedRows(data, stride, h, Zeros(stride)) == Ok(out)
  {
    NextRow(0, stride);
    assert done + [] == done;
  }

  /** The loop over the rows. */
  method DecodeRows(data: Bytes, w: nat, h: nat) returns (r: Outcome<Bytes>)
    ensures r == DecodedRows(data, w * 3, h, Zeros(w * 3))
  {
    var stride := w * 3;
    r := DecodeStrides(data, stride, h);
  }

  method DecodeStrides(data: Bytes, stride: nat, h: nat) returns (r: Outcome<Bytes>)
    ensures r == DecodedRows(data, stride, h, Zeros(stride))
  {
    hide Reading, DecodedRows, FirstRow, From, Spliced, Area, Zeros;
    var out := Zeros(Area(h, stride));
    var prev := Zeros(stride);
    var src: nat := 0;
    ghost var done: Bytes := [];
    ReadingStarts(data, stride, h);
    for y := 0 to h
      invariant Reading(data, stride, h, y, out, prev, src, done)
    {
      ReadingOn(data, stride, h, y, out, prev, src, done);
      var line :- ReadRow(data, src, stride, prev);
      ReadRowOn(data, stride, h, y, out, prev, src, done, line);
      out := Spliced(out, Area(y, stride), Area(y, stride) + stride, line);
      prev := line;
      done := done + line;
      src := src + 1 + stride;
    }
    ReadingEnds(data, stride, h, out, prev, src, done);
    r := Ok(out);
  }

  // ----- what the rows came from -----

  /** Image rows stored with a filter each. */
  function EncodedRows(rows: seq<Bytes>, filters: Bytes, prev: Bytes): Bytes
    requires |filters| == |rows|
    decreases |rows|
  {
    if rows == [] then []
    else [filters[0]] + Filtered(filters[0], rows[0], prev) + EncodedRows(rows[1..], filters[1..], rows[0])
  }

  ghost predicate IsImage(rows: seq<Bytes>, filters: Bytes, stride: nat) {
    && |filters| == |rows| && (forall y :: 0 <= y < |rows| ==> |rows[y]| == stride)
    && forall y :: 0 <= y < |filters| ==> filters[y] <= 4
  }

  lemma FirstEncoded(rows: seq<Bytes>, filters: Bytes, prev: Bytes, stride: nat)
    requires rows != [] && IsImage(rows, filters, stride)
    ensures var data := EncodedRows(rows, filters, prev);
            && FirstRow(data, stride, prev) == Ok(rows[0])
            && From(data, 1 + stride) == EncodedRows(rows[1..], filters[1..], rows[0])
  {
    var (f, line) := (filters[0], Filtered(filters[0], rows[0], prev));
    var data := EncodedRows(rows, filters, prev);
    var rest := EncodedRows(rows[1..], filters[1..], rows[0]);
    assert data == [f] + line + rest;
    assert data[1..][..stride] == line && data[1 + stride..] == rest;
    UnfilterInverts(f, rows[0], prev, stride);
    hide EncodedRows, Filtered;
    assert rows[0][..stride] == rows[0];
  }

  /** Decoding undoes encoding, whichever filter each row was stored with. */
  lemma {:induction false} RowsRoundTrip(rows: seq<Bytes>, filters: Bytes, prev: Bytes, stride: nat)
    requires IsImage(rows, filters, stride)
    ensures DecodedRows(EncodedRows(rows, filters, prev), stride, |rows|, prev) == Ok(Flatten(rows))
    decreases |rows|
  {
    hide FirstRow, From, EncodedRows, Filtered, IsImage;
    if rows != [] {
      FirstEncoded(rows, filters, prev, stride);
      OtherRows(rows, filters, stride);
      RowsRoundTrip(rows[1..], filters[1..], rows[0], stride);
    }
  }

  lemma OtherRows(rows: seq<Bytes>, filters: Bytes, stride: nat)
    requires rows != [] && IsImage(rows, filters, stride)
    ensures |filters| == |rows| && IsImage(rows[1..], filters[1..], stride)
  {
  }

  // ----- chunks -----

  const SIGNATURE: Bytes := [0x89, 0x50, 0x4E, 0x47, 0x0D, 0x0A, 0x1A, 0x0A]
  const IHDR: Bytes := [0x49, 0x48, 0x44, 0x52]
  const IDAT: Bytes := [0x49, 0x44, 0x41, 0x54]
  const IEND: Bytes := [0x49, 0x45, 0x4E, 0x44]

  /** A four-byte big-endian number. */
  function Be32(n: nat): (b: Bytes)
    requires n < 0x1_0000_0000
    ensures |b| == 4
  {
    [n / 0x100_0000, n / 0x1_0000 % 0x100, n / 0x100 % 0x100, n % 0x100]
  }

  function FromBe32(b: Bytes): (n: nat)
    requires |b| == 4
    ensures n < 0x1_0000_0000
  {
    var (b0: int, b1: int, b2: int, b3: int) := (b[0], b[1], b[2], b[3]);
    b0 * 0x100_0000 + b1 * 0x1_0000 + b2 * 0x100 + b3
  }

  lemma Be32RoundTrip(n: nat)
    requires n < 0x1_0000_0000
    ensures FromBe32(Be32(n)) == n
  {
    assert n / 0x1_0000 == n / 0x100_0000 * 0x100 + n / 0x1_0000 % 0x100;
    assert n / 0x100 == n / 0x1_0000 * 0x100 + n / 0x100 % 0x100;
  }

  /** What has been read of a file: the size last declared, and the image data so far. */
  datatype Header = Header(w: nat, h: nat, data: Bytes)

  /** One chunk's effect. */
  function AfterChunk(tag: Bytes, body: Bytes, so_far: Header): Outcome<Header> {
    if tag == IHDR then
      if |body| != 13 then Crashed
      else if body[8] != 8 || body[9] != 2 || body[12] != 0 then Refused
      else Ok(so_far.(w := FromBe32(body[..4]), h := FromBe32(body[4..8])))
    else if tag == IDAT then Ok(so_far.(data := so_far.data + body))
    else Ok(so_far)
  }

  /** The chunks from `pos` on. The check sums are not looked at, and a body may be cut short. */
  function Chunks(raw: Bytes, pos: nat, so_far: Header): Outcome<Header>
    decreases |raw| - pos
  {
    if pos >= |raw| then Ok(so_far)
    else if pos + 4 > |raw| then Crashed
    else
      var length := FromBe32(raw[pos..pos + 4]);
      var tag := Slice(raw, pos + 4, pos + 8);
      if tag == IEND then Ok(so_far)
      else
        var next :- AfterChunk(tag, Slice(raw, pos + 8, pos + 8 + length), so_far);
        Chunks(raw, pos + 12 + length, next)
  }

  lemma TagsDiffer()
    ensures IHDR != IDAT && IHDR != IEND && IDAT != IEND
  {
    assert IHDR[1] == 0x48 && IDAT[1] == 0x44 && IEND[1] == 0x45;
  }

  /** One chunk of the loop; `done` at the end marker. */
  method ReadChunk(tag: Bytes, body: Bytes, header: Header) returns (done: bool, r: Outcome<Header>)
    ensures done <==> tag == IEND
    ensures !done ==> r == AfterChunk(tag, body, header)
  {
    TagsDiffer();
    done, r := false, Ok(header);
    if tag == IHDR {
      if |body| != 13 {
        r := Crashed;
      } else if body[8] != 8 || body[9] != 2 || body[12] != 0 {
        r := Refused;
      } else {
        r := Ok(header.(w := FromBe32(body[..4]), h := FromBe32(body[4..8])));
      }
    } else if tag == IDAT {
      r := Ok(header.(data := header.data + body));
    } else if tag == IEND {
      done := true;
    }
  }

  /** The loop over the chunks. */
  method ReadChunks(raw: Bytes) returns (r: Outcome<Header>)
    ensures r == Chunks(raw, 8, Header(0, 0, []))
  {
    hide FromBe32, Slice, AfterChunk;
    var pos: nat := 8;
    var header := Header(0, 0, []);
    while pos < |raw|
      invariant Chunks(raw, 8, Header(0, 0, [])) == Chunks(raw, pos, header)
      decreases |raw| - pos
    {
      if pos + 4 > |raw| {
        return Crashed;
      }
      var length := FromBe32(raw[pos..pos + 4]);
      var (done, next) := (false, Ok(header));
      done, next := ReadChunk(Slice(raw, pos + 4, pos + 8), Slice(raw, pos + 8, pos + 8 + length), header);
      if done {
        break;
      }
      header :- next;
      pos := pos + 12 + length;
    }
    r := Ok(header);
  }

  /** `png_read_rgb`: the signature, the chunks, the compressed data, the rows. */
  method ReadPng(raw: Bytes, inflate: Bytes -> Option<Bytes>) returns (r: Outcome<Image>)
    ensures r == ImageOf(raw, inflate)
  {
    hide Chunks, DecodedRows;
    if raw[..Smaller(8, |raw|)] != SIGNATURE {
      return Refused;
    }
    var header :- ReadChunks(raw);
    var data := inflate(header.data);
    if data.None? {
      return Crashed;
    }
    var pixels :- DecodeRows(data.value, header.w, header.h);
    return Ok(Image(header.w, header.h, pixels));
  }

  datatype Image = Image(w: nat, h: nat, pixels: Bytes)

  /** What a file holds. */
  function ImageOf(raw: Bytes, inflate: Bytes -> Option<Bytes>): Outcome<Image> {
    if raw[..Smaller(8, |raw|)] != SIGNATURE then Refused
    else
      var header :- Chunks(raw, 8, Header(0, 0, []));
      var data := inflate(header.data);
      if data.None? then Crashed
      else
        var pixels :- DecodedRows(data.value, header.w * 3, header.h, Zeros(header.w * 3));
        Ok(Image(header.w, header.h, pixels))
  }

  // ----- files and their images -----

  /** One framed chunk: length, tag, body, check sum. */
  function Chunk(tag: Bytes, body: Bytes, crc: Bytes -> nat): Bytes
    requires |tag| == 4 && |body| < 0x1_0000_0000
  {
    Be32(|body|) + tag + body + Be32(crc(tag + body) % 0x1_0000_0000)
  }

  /** Image data spread over any number of chunks. */
  function DataChunks(pieces: seq<Bytes>, crc: Bytes -> nat): Bytes
    requires forall p :: p in pieces ==> |p| < 0x1_0000_0000
    decreases |pieces|
  {
    if pieces == [] then [] else Chunk(IDAT, pieces[0], crc) + DataChunks(pieces[1..], crc)
  }

  function SizeBody(w: nat, h: nat): (b: Bytes)
    requires w < 0x1_0000_0000 && h < 0x1_0000_0000
    ensures |b| == 13
  {
    Be32(w) + Be32(h) + [8, 2, 0, 0, 0]
  }

  /** A file: signature, size, image data, end. */
  function File(w: nat, h: nat, pieces: seq<Bytes>, crc: Bytes -> nat): Bytes
    requires w < 0x1_0000_0000 && h < 0x1_0000_0000 && forall p :: p in pieces ==> |p| < 0x1_0000_0000
  {
    SIGNATURE + Chunk(IHDR, SizeBody(w, h), crc) + DataChunks(pieces, crc) + Chunk(IEND, [], crc)
  }

  /** `x` stands at `pos`. */
  predicate At(raw: Bytes, pos: nat, x: Bytes) {
    pos + |x| <= |raw| && raw[pos..pos + |x|] == x
  }

  lemma ChunkLayout(length: Bytes, tag: Bytes, body: Bytes, sum: Bytes)
    requires |length| == |tag| == |sum| == 4
    ensures var chunk := length + tag + body + sum;
            chunk[..4] == length && chunk[4..8] == tag && chunk[8..8 + |body|] == body && |chunk| == 12 + |body|
  {
  }

  lemma WithinAt(raw: Bytes, pos: nat, x: Bytes, i: nat, j: nat)
    requires At(raw, pos, x) && i <= j <= |x|
    ensures raw[pos + i..pos + j] == x[i..j]
  {
    forall k | 0 <= k < j - i ensures raw[pos + i..pos + j][k] == x[i..j][k] {
      assert raw[pos + i..pos + j][k] == raw[pos..pos + |x|][i + k];
    }
  }

  lemma ChunkParts(raw: Bytes, pos: nat, tag: Bytes, body: Bytes, crc: Bytes -> nat)
    requires |tag| == 4 && |body| < 0x1_0000_0000 && At(raw, pos, Chunk(tag, body, crc))
    ensures pos + 12 + |body| <= |raw| && |Chunk(tag, body, crc)| == 12 + |body|
    ensures FromBe32(raw[pos..pos + 4]) == |body|
    ensures Slice(raw, pos + 4, pos + 8) == tag && Slice(raw, pos + 8, pos + 8 + |body|) == body
  {
    Be32RoundTrip(|body|);
    hide Be32, FromBe32;
    var (chunk, n) := (Chunk(tag, body, crc), |body|);
    ChunkLayout(Be32(n), tag, body, Be32(crc(tag + body) % 0x1_0000_0000));
    hide Chunk;
    WithinAt(raw, pos, chunk, 0, 4);
    WithinAt(raw, pos, chunk, 4, 8);
    WithinAt(raw, pos, chunk, 8, 8 + n);
  }

  /** Reading over one framed chunk. */
  lemma ReadOver(raw: Bytes, pos: nat, tag: Bytes, body: Bytes, crc: Bytes -> nat, header: Header)
    requires |tag| == 4 && |body| < 0x1_0000_0000 && At(raw, pos, Chunk(tag, body, crc))
    ensures tag == IEND ==> Chunks(raw, pos, header) == Ok(header)
    ensures tag != IEND ==>
              var next := AfterChunk(tag, body, header);
              Chunks(raw, pos, header) == if next.Ok? then Chunks(raw, pos + 12 + |body|, next.value) else next
  {
    ChunkParts(raw, pos, tag, body, crc);
    hide FromBe32, AfterChunk, Slice, Chunk, At;
  }

  lemma SplitAt(raw: Bytes, pos: nat, x: Bytes, rest: Bytes)
    requires pos <= |raw| && raw[pos..] == x + rest
    ensures At(raw, pos, x) && pos + |x| <= |raw| && raw[pos + |x|..] == rest
  {
    assert |raw| - pos == |x| + |rest|;
    assert raw[pos..pos + |x|] == raw[pos..][..|x|];
    assert raw[pos + |x|..] == raw[pos..][|x|..];
  }

  /** Reading the image data, up to the end marker. */
  lemma {:induction false} ReadData(raw: Bytes, pos: nat, pieces: seq<Bytes>, crc: Bytes -> nat, header: Header)
    requires forall p :: p in pieces ==> |p| < 0x1_0000_0000
    requires pos <= |raw| && raw[pos..] == DataChunks(pieces, crc) + Chunk(IEND, [], crc)
    ensures Chunks(raw, pos, header) == Ok(header.(data := header.data + Flatten(pieces)))
    decreases |pieces|
  {
    var last := Chunk(IEND, [], crc);
    if pieces == [] {
      NoMoreData(raw, pos, crc, header);
    } else {
      DataChunksFirst(pieces, crc, last);
      hide Chunk, Chunks, DataChunks;
      OneMorePiece(raw, pos, pieces[0], DataChunks(pieces[1..], crc) + last, crc, header, raw[pos..]);
      var next := header.(data := header.data + pieces[0]);
      ReadData(raw, pos + 12 + |pieces[0]|, pieces[1..], crc, next);
      hide *;
      FlattenTail(header.data, pieces);
    }
  }

  lemma DataChunksFirst(pieces: seq<Bytes>, crc: Bytes -> nat, last: Bytes)
    requires pieces != [] && forall p :: p in pieces ==> |p| < 0x1_0000_0000
    ensures DataChunks(pieces, crc) + last == Chunk(IDAT, pieces[0], crc) + (DataChunks(pieces[1..], crc) + last)
  {
    hide Chunk;
    Associative(Chunk(IDAT, pieces[0], crc), DataChunks(pieces[1..], crc), last);
  }

  lemma FlattenTail(data: Bytes, pieces: seq<Bytes>)
    requires pieces != []
    ensures data + Flatten(pieces) == data + pieces[0] + Flatten(pieces[1..])
  {
    Associative(data, pieces[0], Flatten(pieces[1..]));
  }

  lemma NoMoreData(raw: Bytes, pos: nat, crc: Bytes -> nat, header: Header)
    requires pos <= |raw| && raw[pos..] == [] + Chunk(IEND, [], crc)
    ensures Chunks(raw, pos, header) == Ok(header.(data := header.data + []))
  {
    var last := Chunk(IEND, [], crc);
    hide Chunk, Chunks, At;
    assert [] + last == last + [];
    SplitAt(raw, pos, last, []);
    ReadOver(raw, pos, IEND, [], crc, header);
    assert header.data + [] == header.data;
  }

  lemma OneMorePiece(raw: Bytes, pos: nat, piece: Bytes, rest: Bytes, crc: Bytes -> nat, header: Header, whole: Bytes)
    requires |piece| < 0x1_0000_0000 && pos <= |raw| && raw[pos..] == whole && whole == Chunk(IDAT, piece, crc) + rest
    ensures pos + 12 + |piece| <= |raw| && raw[pos + 12 + |piece|..] == rest
    ensures Chunks(raw, pos, header) == Chunks(raw, pos + 12 + |piece|, header.(data := header.data + piece))
  {
    var first := Chunk(IDAT, piece, crc);
    ChunkLength(IDAT, piece, crc);
    hide Chunk, Chunks, At;
    TagsDiffer();
    SplitAt(raw, pos, first, rest);
    ReadOver(raw, pos, IDAT, piece, crc, header);
  }

  lemma ChunkLength(tag: Bytes, body: Bytes, crc: Bytes -> nat)
    requires |tag| == 4 && |body| < 0x1_0000_0000
    ensures |Chunk(tag, body, crc)| == 12 + |body|
  {
  }

  /** A file gives back its size and its data, however the data was cut into chunks. */
  lemma ReadFile(w: nat, h: nat, pieces: seq<Bytes>, crc: Bytes -> nat)
    requires w < 0x1_0000_0000 && h < 0x1_0000_0000 && forall p :: p in pieces ==> |p| < 0x1_0000_0000
    ensures var raw := File(w, h, pieces, crc);
            && raw[..Smaller(8, |raw|)] == SIGNATURE
            && Chunks(raw, 8, Header(0, 0, [])) == Ok(Header(w, h, Flatten(pieces)))
  {
    var raw := File(w, h, pieces, crc);
    var (size, data, last) := (Chunk(IHDR, SizeBody(w, h), crc), DataChunks(pieces, crc), Chunk(IEND, [], crc));
    FileLayout(SIGNATURE, size, data, last);
    ChunkLength(IHDR, SizeBody(w, h), crc);
    SizeChunk(w, h, raw, size, data + last, crc);
    ReadData(raw, 8 + |size|, pieces, crc, Header(w, h, []));
    hide *;
    assert [] + Flatten(pieces) == Flatten(pieces);
  }

  lemma FileLayout(signature: Bytes, size: Bytes, data: Bytes, last: Bytes)
    requires |signature| == 8
    ensures var raw := signature + size + data + last;
            raw[..Smaller(8, |raw|)] == signature && raw[8..] == size + (data + last) && raw[8 + |size|..] == data + last
  {
  }

  lemma SizeChunk(w: nat, h: nat, raw: Bytes, size: Bytes, rest: Bytes, crc: Bytes -> nat)
    requires w < 0x1_0000_0000 && h < 0x1_0000_0000 && size == Chunk(IHDR, SizeBody(w, h), crc)
    requires 8 <= |raw| && raw[8..] == size + rest
    ensures Chunks(raw, 8, Header(0, 0, [])) == Chunks(raw, 8 + |size|, Header(w, h, []))
  {
    TagsDiffer();
    SizeIsRead(w, h);
    ChunkLength(IHDR, SizeBody(w, h), crc);
    hide Chunk, Chunks, At, AfterChunk, SizeBody;
    SplitAt(raw, 8, size, rest);
    ReadOver(raw, 8, IHDR, SizeBody(w, h), crc, Header(0, 0, []));
  }

  lemma SizeIsRead(w: nat, h: nat)
    requires w < 0x1_0000_0000 && h < 0x1_0000_0000
    ensures AfterChunk(IHDR, SizeBody(w, h), Header(0, 0, [])) == Ok(Header(w, h, []))
  {
    var body := SizeBody(w, h);
    Be32RoundTrip(w);
    Be32RoundTrip(h);
    hide Be32, FromBe32;
    assert body[..4] == Be32(w) && body[4..8] == Be32(h);
    assert body[8] == 8 && body[9] == 2 && body[12] == 0;
  }

  /** The compression gives back what it was given. */
  ghost predicate Inverse(deflate: Bytes -> Bytes, inflate: Bytes -> Option<Bytes>) {
    forall x :: inflate(deflate(x)) == Some(x)
  }

  /** Any image, any filter on any row, any cut of the compressed data into chunks: the reader gives back size and pixels. */
  lemma PngRoundTrip(w: nat, h: nat, rows: seq<Bytes>, filters: Bytes, pieces: seq<Bytes>,
                     deflate: Bytes -> Bytes, inflate: Bytes -> Option<Bytes>, crc: Bytes -> nat)
    requires w < 0x1_0000_0000 && h < 0x1_0000_0000 && forall p :: p in pieces ==> |p| < 0x1_0000_0000
    requires |rows| == h && IsImage(rows, filters, w * 3) && Inverse(deflate, inflate)
    requires Flatten(pieces) == deflate(EncodedRows(rows, filters, Zeros(w * 3)))
    ensures ImageOf(File(w, h, pieces, crc), inflate) == Ok(Image(w, h, Flatten(rows)))
  {
    ReadFile(w, h, pieces, crc);
    RowsRoundTrip(rows, filters, Zeros(w * 3), w * 3);
    hide Chunks, DecodedRows, File, EncodedRows, IsImage;
  }

  // ----- the writer -----

  function Stored(pix: Bytes, stride: nat, h: nat): Bytes
    decreases h
  {
    if h == 0 then []
    else Stored(pix, stride, h - 1) + [0] + Slice(pix, Area(h - 1, stride), Area(h - 1, stride) + stride)
  }

  /** `png_write_rgb`: every row with filter 0, one data chunk; a size or a length that does not fit four bytes raises. */
  method WritePng(w: nat, h: nat, pix: Bytes, deflate: Bytes -> Bytes, crc: Bytes -> nat) returns (r: Outcome<Bytes>)
    ensures var data := deflate(Stored(pix, w * 3, h));
            r == if w < 0x1_0000_0000 && h < 0x1_0000_0000 && |data| < 0x1_0000_0000 then Ok(File(w, h, [data], crc)) else Crashed
  {
    hide File, Area, Slice;
    var stride := w * 3;
    var raw: Bytes := [];
    for y := 0 to h
      invariant raw == Stored(pix, stride, y)
    {
      raw := raw + [0];
      raw := raw + Slice(pix, Area(y, stride), Area(y, stride) + stride);
    }
    var comp := deflate(raw);
    if w >= 0x1_0000_0000 || h >= 0x1_0000_0000 || |comp| >= 0x1_0000_0000 {
      return Crashed;
    }
    return Ok(File(w, h, [comp], crc));
  }

  /** The rows of a buffer of `h` rows. */
  function RowsOf(pix: Bytes, stride: nat, h: nat): (rows: seq<Bytes>)
    requires |pix| == Area(h, stride)
    ensures |rows| == h && (forall y :: 0 <= y < h ==> |rows[y]| == stride) && Flatten(rows) == pix
    decreases h
  {
    if h == 0 then []
    else
      NextRow(h - 1, stride);
      var n := Area(h - 1, stride);
      var before := RowsOf(pix[..n], stride, h - 1);
      FlattenSnoc(before, pix[n..]);
      before + [pix[n..]]
  }

  /** The rows, each behind a zero filter byte. */
  function Marked(rows: seq<Bytes>): (m: seq<Bytes>)
    ensures |m| == |rows| && forall i :: 0 <= i < |rows| ==> m[i] == [0] + rows[i]
  {
    seq(|rows|, i requires 0 <= i < |rows| => [0] + rows[i])
  }

  lemma {:induction false} EncodedPlain(rows: seq<Bytes>, prev: Bytes)
    ensures EncodedRows(rows, Zeros(|rows|), prev) == Flatten(Marked(rows))
    decreases |rows|
  {
    if rows != [] {
      var line := rows[0];
      assert Filtered(0, line, prev) == line;
      assert Zeros(|rows|)[1..] == Zeros(|rows[1..]|) && Zeros(|rows|)[0] == 0;
      assert Marked(rows)[1..] == Marked(rows[1..]) && Marked(rows)[0] == [0] + line;
      hide Filtered, Zeros, Marked;
      EncodedPlain(rows[1..], line);
    }
  }

  lemma {:induction false} StoredPrefix(pix: Bytes, n: nat, stride: nat, h: nat)
    requires n <= |pix| && Area(h, stride) <= n
    ensures Stored(pix[..n], stride, h) == Stored(pix, stride, h)
    decreases h
  {
    if h > 0 {
      NextRow(h - 1, stride);
      hide Area;
      StoredPrefix(pix, n, stride, h - 1);
      var at := Area(h - 1, stride);
      assert pix[..n][at..at + stride] == pix[at..at + stride];
    }
  }

  lemma {:induction false} StoredIsMarked(pix: Bytes, stride: nat, h: nat)
    requires |pix| == Area(h, stride)
    ensures Stored(pix, stride, h) == Flatten(Marked(RowsOf(pix, stride, h)))
    decreases h
  {
    if h > 0 {
      NextRow(h - 1, stride);
      hide Area;
      var n := Area(h - 1, stride);
      var (before, last) := (RowsOf(pix[..n], stride, h - 1), pix[n..]);
      StoredIsMarked(pix[..n], stride, h - 1);
      StoredPrefix(pix, n, stride, h - 1);
      FlattenSnoc(Marked(before), [0] + last);
      assert Marked(before + [last]) == Marked(before) + [[0] + last];
      assert Slice(pix, n, n + stride) == last;
      hide Stored, Marked, Slice;
      Associative(Stored(pix, stride, h - 1), [0], last);
    }
  }

  /** Writing an image and reading it back gives the image, for every size the format can hold. */
  lemma WriteThenRead(w: nat, h: nat, pix: Bytes, deflate: Bytes -> Bytes, inflate: Bytes -> Option<Bytes>, crc: Bytes -> nat)
    requires |pix| == Area(h, w * 3) && Inverse(deflate, inflate)
    requires w < 0x1_0000_0000 && h < 0x1_0000_0000 && |deflate(Stored(pix, w * 3, h))| < 0x1_0000_0000
    ensures ImageOf(File(w, h, [deflate(Stored(pix, w * 3, h))], crc), inflate) == Ok(Image(w, h, pix))
  {
    var (stride, rows) := (w * 3, RowsOf(pix, w * 3, h));
    var data := deflate(Stored(pix, stride, h));
    StoredIsMarked(pix, stride, h);
    EncodedPlain(rows, Zeros(stride));
    FlattenSnoc([], data);
    assert [] + [data] == [data];
    hide Stored, Marked, ImageOf, File, EncodedRows, RowsOf;
    PngRoundTrip(w, h, rows, Zeros(h), [data], deflate, inflate, crc);
  }

  // ----- the bytes themselves -----

  /** Four bytes, the most significant first. */
  predicate IsBe32(b: Bytes, n: nat) {
    && |b| == 4
    && var (b0: int, b1: int, b2: int, b3: int) := (b[0], b[1], b[2], b[3]);
       n == 16777216 * b0 + 65536 * b1 + 256 * b2 + b3
  }

  lemma Be32Iff(b: Bytes, n: nat)
    requires n < 0x1_0000_0000
    ensures IsBe32(b, n) <==> b == Be32(n)
  {
    Be32RoundTrip(n);
    if |b| == 4 && FromBe32(b) == n { FromBe32Inverts(b); }
    hide Be32;
  }

  lemma FromBe32Inverts(b: Bytes)
    requires |b| == 4
    ensures Be32(FromBe32(b)) == b
  {
    var (b0: int, b1: int, b2: int, b3: int) := (b[0], b[1], b[2], b[3]);
    var n := FromBe32(b);
    assert n / 0x100_0000 == b0 && n / 0x1_0000 == b0 * 0x100 + b1;
    assert n / 0x100 == (b0 * 0x100 + b1) * 0x100 + b2;
  }

  /** The writer's file, byte by byte, as sections 3.1, 4.1.1, 4.1.3 and 4.1.4 of RFC 2083 lay it out: the signature, a header
      chunk of 8-bit true colour without interlacing, one data chunk, and an empty last chunk. */
  lemma FileBytes(w: nat, h: nat, data: Bytes, crc: Bytes -> nat)
    requires w < 0x1_0000_0000 && h < 0x1_0000_0000 && |data| < 0x1_0000_0000
    ensures var raw := File(w, h, [data], crc);
            && |raw| == 57 + |data| && raw[..8] == [137, 80, 78, 71, 13, 10, 26, 10]
            && IsBe32(raw[8..12], 13) && raw[12..16] == ['I' as int, 'H' as int, 'D' as int, 'R' as int]
            && IsBe32(raw[16..20], w) && IsBe32(raw[20..24], h) && raw[24..29] == [8, 2, 0, 0, 0]
            && IsBe32(raw[33..37], |data|) && raw[37..41] == ['I' as int, 'D' as int, 'A' as int, 'T' as int]
            && raw[41..41 + |data|] == data
            && IsBe32(raw[45 + |data|..49 + |data|], 0)
            && raw[49 + |data|..53 + |data|] == ['I' as int, 'E' as int, 'N' as int, 'D' as int]
  {
    hide *;
    var (raw, n) := (File(w, h, [data], crc), |data|);
    TagBytes();
    FileParts(w, h, data, crc);
    ChunkIs(IHDR, SizeBody(w, h), crc);
    ChunkIs(IDAT, data, crc);
    ChunkIs(IEND, [], crc);
    SizeBodyIs(w, h);
    Be32Iff(Be32(w), w);
    Be32Iff(Be32(h), h);
    SubSlice(raw, 8, 33, 0, 4);
    SubSlice(raw, 8, 33, 4, 8);
    SubSlice(raw, 8, 33, 8, 21);
    SubSlice(raw, 16, 29, 0, 4);
    SubSlice(raw, 16, 29, 4, 8);
    SubSlice(raw, 16, 29, 8, 13);
    SubSlice(raw, 33, 45 + n, 0, 4);
    SubSlice(raw, 33, 45 + n, 4, 8);
    SubSlice(raw, 33, 45 + n, 8, 8 + n);
    SubSlice(raw, 45 + n, 57 + n, 0, 4);
    SubSlice(raw, 45 + n, 57 + n, 4, 8);
  }

  lemma TagBytes()
    ensures SIGNATURE == [137, 80, 78, 71, 13, 10, 26, 10] && IHDR == ['I' as int, 'H' as int, 'D' as int, 'R' as int]
    ensures IDAT == ['I' as int, 'D' as int, 'A' as int, 'T' as int] && IEND == ['I' as int, 'E' as int, 'N' as int, 'D' as int]
  {
  }

  lemma SubSlice(raw: Bytes, a: nat, b: nat, i: nat, j: nat)
    requires i <= j && a + j <= b <= |raw|
    ensures raw[a..b][i..j] == raw[a + i..a + j]
  {
    assert forall k :: 0 <= k < j - i ==> raw[a..b][i..j][k] == raw[a + i..a + j][k];
  }

  lemma FileParts(w: nat, h: nat, data: Bytes, crc: Bytes -> nat)
    requires w < 0x1_0000_0000 && h < 0x1_0000_0000 && |data| < 0x1_0000_0000
    ensures var (raw, n) := (File(w, h, [data], crc), |data|);
            && |raw| == 57 + n && raw[..8] == SIGNATURE && raw[8..33] == Chunk(IHDR, SizeBody(w, h), crc)
            && raw[33..45 + n] == Chunk(IDAT, data, crc) && raw[45 + n..57 + n] == Chunk(IEND, [], crc)
  {
    var (size, body, last) := (Chunk(IHDR, SizeBody(w, h), crc), Chunk(IDAT, data, crc), Chunk(IEND, [], crc));
    assert [data][1..] == [] && DataChunks([data], crc) == body + [];
    assert File(w, h, [data], crc) == SIGNATURE + size + body + last;
    ChunkLength(IHDR, SizeBody(w, h), crc);
    ChunkLength(IDAT, data, crc);
    ChunkLength(IEND, [], crc);
    hide Chunk, File, DataChunks, SizeBody;
  }

  lemma ChunkIs(tag: Bytes, body: Bytes, crc: Bytes -> nat)
    requires |tag| == 4 && |body| < 0x1_0000_0000
    ensures var c := Chunk(tag, body, crc);
            |c| == 12 + |body| && IsBe32(c[..4], |body|) && c[4..8] == tag && c[8..8 + |body|] == body
  {
    Be32Iff(Be32(|body|), |body|);
    hide IsBe32, Be32;
    assert Chunk(tag, body, crc)[..4] == Be32(|body|);
  }

  lemma SizeBodyIs(w: nat, h: nat)
    requires w < 0x1_0000_0000 && h < 0x1_0000_0000
    ensures var b := SizeBody(w, h); |b| == 13 && b[..4] == Be32(w) && b[4..8] == Be32(h) && b[8..] == [8, 2, 0, 0, 0]
  {
    hide Be32;
  }

  /** The reader takes a header chunk only of thirteen bytes, and only of 8-bit true colour without interlacing: one of another
      kind is refused, one of another length raises. */
  lemma HeaderRead(body: Bytes, so_far: Header)
    ensures var r := AfterChunk(['I' as int, 'H' as int, 'D' as int, 'R' as int], body, so_far);
            && (r.Ok? <==> |body| == 13 && body[8] == 8 && body[9] == 2 && body[12] == 0)
            && (r.Crashed? <==> |body| != 13)
            && (r.Ok? ==> IsBe32(body[..4], r.value.w) && IsBe32(body[4..8], r.value.h) && r.value.data == so_far.data)
  {
  }
}
