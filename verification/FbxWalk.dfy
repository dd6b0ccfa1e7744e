/** The binary FBX walk of `seed/scripts/populate_archive.py`: it ends on every input, and what it accepts is a forest of
    records that lie inside one another or apart. */
module FbxWalk {
  import opened Sequences
  import opened Outcomes
  import opened Binary

  const MAX_DEPTH: nat := 32

  /** What a Video or a Texture record says about its file. */
  datatype Media = Media(rel: Bytes, abs: Bytes, embedded: bool)

  // ----- properties -----

  datatype Property = Property(after: nat, code: Byte, value: Bytes, length: nat)

  function ScalarSize(code: Byte): nat {
    if code == 'C' as int then 1
    else if code == 'Y' as int then 2
    else if code == 'I' as int || code == 'F' as int then 4
    else if code == 'D' as int || code == 'L' as int then 8
    else 0
  }

  function ElementSize(code: Byte): nat {
    if code == 'f' as int || code == 'i' as int then 4
    else if code == 'd' as int || code == 'l' as int then 8
    else if code == 'b' as int then 1
    else 0
  }

  function NumberAt(buf: Bytes, off: nat, width: nat): nat
    requires off + width <= |buf|
  {
    LittleEndian(buf[off..off + width])
  }

  /** `_fbx_read_prop`; anything that does not fit the buffer ends the walk. */
  function ReadProperty(buf: Bytes, off: nat, wantValue: bool): Outcome<Property> {
    if off >= |buf| then Refused
    else
      var code := buf[off];
      if ScalarSize(code) > 0 then Ok(Property(off + 1 + ScalarSize(code), code, [], 0))
      else if ElementSize(code) > 0 then
        if off + 13 > |buf| then Refused
        else
          var count := NumberAt(buf, off + 1, 4);
          var encoded := NumberAt(buf, off + 5, 4) != 0;
          Ok(Property(off + 13 + if encoded then NumberAt(buf, off + 9, 4) else count * ElementSize(code), code, [], 0))
      else if code == 'S' as int || code == 'R' as int then
        if off + 5 > |buf| then Refused
        else
          var n := NumberAt(buf, off + 1, 4);
          var value := if code == 'S' as int && wantValue && n <= 64 * 1024 then Slice(buf, off + 5, off + 5 + n) else [];
          Ok(Property(off + 5 + n, code, value, n))
      else Refused
  }

  function Lower(b: Byte): int {
    if 'A' as int <= b <= 'Z' as int then b + 32 else b
  }

  predicate IsNamed(name: Bytes, text: string) {
    |name| == |text| && forall i :: 0 <= i < |name| ==> Lower(name[i]) == text[i] as int
  }

  /** What one record adds to the media it is in. */
  function Noted(buf: Bytes, at: nat, numProps: nat, name: Bytes, m: Media): Outcome<Media> {
    var (rel, abs, content) := (IsNamed(name, "relativefilename"), IsNamed(name, "filename"), IsNamed(name, "content"));
    if numProps == 0 || !(rel || abs || content) then Ok(m)
    else
      var p :- ReadProperty(buf, at, !content);
      Ok(if rel && p.code == 'S' as int then m.(rel := p.value)
         else if abs && p.code == 'S' as int then m.(abs := p.value)
         else if content && p.length > 0 then m.(embedded := true)
         else m)
  }

  // ----- the walk -----

  /** A record: where it starts, where its name and its property list end, where it ends, and the records in it. */
  datatype Record = Record(start: nat, nameEnd: nat, propsEnd: nat, end: nat, children: seq<Record>)

  datatype Walked = Walked(records: seq<Record>, media: seq<Media>, off: nat)

  function HeaderSize(wide: bool): nat {
    if wide then 25 else 13
  }

  function FieldWidth(wide: bool): nat {
    if wide then 8 else 4
  }

  /** The four numbers of a record header. */
  datatype Header = Header(endOff: nat, numProps: nat, propLen: nat, nameLen: nat)

  function HeaderAt(buf: Bytes, off: nat, wide: bool): Header
    requires off + HeaderSize(wide) <= |buf|
  {
    var n := FieldWidth(wide);
    Header(NumberAt(buf, off, n), NumberAt(buf, off + n, n), NumberAt(buf, off + 2 * n, n), buf[off + HeaderSize(wide) - 1])
  }

  predicate InRange(h: Header, off: nat, end: nat, size: nat) {
    off < h.endOff <= end && h.endOff <= size
  }

  /** The media a record belongs to, with what it notes there. */
  function NotedIn(buf: Bytes, at: nat, h: Header, name: Bytes, cur: Option<nat>, media: seq<Media>): (r: Outcome<seq<Media>>)
    requires cur.Some? ==> cur.value < |media|
    ensures r.Ok? ==> |r.value| == |media|
  {
    if cur.None? then Ok(media)
    else
      var m :- Noted(buf, at, h.numProps, name, media[cur.value]);
      Ok(media[cur.value := m])
  }

  predicate OpensMedia(name: Bytes) {
    IsNamed(name, "video") || IsNamed(name, "texture")
  }

  /** What the header at an offset opens: the end of the list, or a record, its media noted and its own opened. */
  datatype Entry = Last | Opened(nameEnd: nat, propsEnd: nat, end: nat, child: Option<nat>, media: seq<Media>)

  function EntryAt(buf: Bytes, off: nat, end: nat, wide: bool, cur: Option<nat>, media: seq<Media>): (r: Outcome<Entry>)
    requires cur.Some? ==> cur.value < |media|
    ensures r.Ok? && r.value.Opened? ==>
              var e := r.value;
              && off + HeaderSize(wide) <= e.nameEnd <= e.propsEnd <= e.end <= end && e.end <= |buf|
              && |e.media| >= |media| && (e.child.Some? ==> e.child.value < |e.media|)
  {
    var hdr := HeaderSize(wide);
    if off + hdr > |buf| then Refused
    else
      var h := HeaderAt(buf, off, wide);
      if h == Header(0, 0, 0, 0) then Ok(Last)
      else if !InRange(h, off, end, |buf|) then Refused
      else
        var nameEnd := off + hdr + h.nameLen;
        if nameEnd + h.propLen > h.endOff then Refused
        else
          var name := Slice(buf, off + hdr, nameEnd);
          var noted :- NotedIn(buf, nameEnd, h, name, cur, media);
          var child := if OpensMedia(name) then Some(|noted|) else cur;
          Ok(Opened(nameEnd, nameEnd + h.propLen, h.endOff, child, if OpensMedia(name) then noted + [Media([], [], false)] else noted))
  }

  /** What a walk makes of `buf` from `off` to `end`: its records, all the media so far, and where it stopped. */
  function Walk(buf: Bytes, off: nat, end: nat, wide: bool, depth: nat, cur: Option<nat>, media: seq<Media>): (r: Outcome<Walked>)
    requires cur.Some? ==> cur.value < |media|
    ensures r.Ok? ==> |r.value.media| >= |media|
    decreases end - off
  {
    if depth > MAX_DEPTH then Refused
    else if off + HeaderSize(wide) > end then Ok(Walked([], media, off))
    else
      var e :- EntryAt(buf, off, end, wide, cur, media);
      if e.Last? then Ok(Walked([], media, off + HeaderSize(wide)))
      else
        var inner :- if e.propsEnd < e.end then Walk(buf, e.propsEnd, e.end, wide, depth + 1, e.child, e.media)
                     else Ok(Walked([], e.media, e.propsEnd));
        var rest :- Walk(buf, e.end, end, wide, depth, cur, inner.media);
        Ok(Walked([Record(off, e.nameEnd, e.propsEnd, e.end, inner.records)] + rest.records, rest.media, rest.off))
  }

  /** The media found so far, which the walk appends to and fills in. */
  class Reader {
    var media: seq<Media>

    constructor ()
      ensures media == []
    {
      media := [];
    }

    /** One record header of the loop. */
    method Enter(buf: Bytes, off: nat, end: nat, wide: bool, cur: Option<nat>) returns (r: Outcome<Entry>)
      requires cur.Some? ==> cur.value < |media|
      modifies this
      ensures r == EntryAt(buf, off, end, wide, cur, old(media))
      ensures r.Ok? ==> media == if r.value.Opened? then r.value.media else old(media)
    {
      hide HeaderAt, NotedIn, OpensMedia, Slice;
      var hdr := HeaderSize(wide);
      if off + hdr > |buf| {
        return Refused;
      }
      var h := HeaderAt(buf, off, wide);
      if h == Header(0, 0, 0, 0) {
        return Ok(Last);
      }
      if h.endOff <= off || h.endOff > end || h.endOff > |buf| {
        return Refused;
      }
      var nameEnd := off + hdr + h.nameLen;
      var name := Slice(buf, off + hdr, nameEnd);
      var propsEnd := nameEnd + h.propLen;
      if propsEnd > h.endOff {
        return Refused;
      }
      var noted :- NotedIn(buf, nameEnd, h, name, cur, media);
      media := noted;
      var child := cur;
      if OpensMedia(name) {
        child := Some(|media|);
        media := media + [Media([], [], false)];
      }
      return Ok(Opened(nameEnd, propsEnd, h.endOff, child, media));
    }

    /** `_fbx_walk`. */
    method WalkFrom(buf: Bytes, start: nat, end: nat, wide: bool, depth: nat, cur: Option<nat>) returns (r: Outcome<nat>)
      requires cur.Some? ==> cur.value < |media|
      modifies this
      ensures var w := Walk(buf, start, end, wide, depth, cur, old(media));
              (r.Ok? <==> w.Ok?) && (r.Ok? ==> r.value == w.value.off && media == w.value.media)
      decreases end - start
    {
      hide EntryAt;
      if depth > MAX_DEPTH {
        return Refused;
      }
      var off := start;
      while off + HeaderSize(wide) <= end
        invariant start <= off && (cur.Some? ==> cur.value < |media|)
        invariant var (w, v) := (Walk(buf, start, end, wide, depth, cur, old(media)), Walk(buf, off, end, wide, depth, cur, media));
                  (w.Ok? <==> v.Ok?) && (w.Ok? ==> w.value.off == v.value.off && w.value.media == v.value.media)
        decreases end - off
      {
        var e :- Enter(buf, off, end, wide, cur);
        if e.Last? {
          return Ok(off + HeaderSize(wide));
        }
        if e.propsEnd < e.end {
          var inner :- WalkFrom(buf, e.propsEnd, e.end, wide, depth + 1, e.child);
        }
        off := e.end;
      }
      return Ok(off);
    }
  }

  /** `_fbx_parse_binary`: the version chooses the header width. */
  function Parsed(blob: Bytes): Outcome<Walked> {
    if |blob| < 27 then Refused else Walk(blob, 27, |blob|, NumberAt(blob, 23, 4) >= 7500, 0, None, [])
  }

  method ParseBinary(blob: Bytes) returns (r: Outcome<seq<Media>>)
    ensures r.Ok? <==> Parsed(blob).Ok?
    ensures r.Ok? ==> r.value == Parsed(blob).value.media
  {
    if |blob| < 27 {
      return Refused;
    }
    var reader := new Reader();
    var _ :- reader.WalkFrom(blob, 27, |blob|, NumberAt(blob, 23, 4) >= 7500, 0, None);
    return Ok(reader.media);
  }

  // ----- the forest -----

  /** Records one after the other between `lo` and `hi`, each with its header, name and property list inside it and its own
      records after them. */
  ghost predicate Nested(rs: seq<Record>, lo: nat, hi: nat, hdr: nat)
    decreases rs
  {
    rs == [] ||
    (var r := rs[0];
     && lo <= r.start && r.start + hdr <= r.nameEnd <= r.propsEnd <= r.end <= hi
     && Nested(r.children, r.propsEnd, r.end, hdr) && Nested(rs[1..], r.end, hi, hdr))
  }

  /** Every record of the forest, outer before inner, earlier before later. */
  function All(rs: seq<Record>): seq<Record>
    decreases rs
  {
    if rs == [] then [] else [rs[0]] + All(rs[0].children) + All(rs[1..])
  }

  function Height(rs: seq<Record>): nat
    decreases rs
  {
    if rs == [] then 0
    else
      var (inner, rest) := (1 + Height(rs[0].children), Height(rs[1..]));
      if inner > rest then inner else rest
  }

  /** What an accepted walk visits is such a forest, no deeper than the limit. */
  lemma {:induction false} WalkIsNested(buf: Bytes, off: nat, end: nat, wide: bool, depth: nat, cur: Option<nat>, media: seq<Media>)
    requires cur.Some? ==> cur.value < |media|
    requires Walk(buf, off, end, wide, depth, cur, media).Ok?
    ensures var w := Walk(buf, off, end, wide, depth, cur, media).value;
            && Nested(w.records, off, end, HeaderSize(wide)) && depth + Height(w.records) <= MAX_DEPTH + 1
            && off <= w.off && (off <= end ==> w.off <= end)
    decreases end - off
  {
    hide EntryAt;
    if off + HeaderSize(wide) <= end {
      var e := EntryAt(buf, off, end, wide, cur, media).value;
      if e.Opened? {
        var inner := Walked([], e.media, e.propsEnd);
        if e.propsEnd < e.end {
          inner := Walk(buf, e.propsEnd, e.end, wide, depth + 1, e.child, e.media).value;
          WalkIsNested(buf, e.propsEnd, e.end, wide, depth + 1, e.child, e.media);
        }
        var rest := Walk(buf, e.end, end, wide, depth, cur, inner.media).value;
        WalkIsNested(buf, e.end, end, wide, depth, cur, inner.media);
        var r := Record(off, e.nameEnd, e.propsEnd, e.end, inner.records);
        assert ([r] + rest.records)[1..] == rest.records;
        hide Walk;
      }
    }
  }

  /** All the records of a nested list lie between its bounds. */
  lemma {:induction false} AllWithin(rs: seq<Record>, lo: nat, hi: nat, hdr: nat, i: nat)
    requires Nested(rs, lo, hi, hdr) && i < |All(rs)|
    ensures var r := All(rs)[i]; lo <= r.start && r.start + hdr <= r.nameEnd <= r.propsEnd <= r.end <= hi
    decreases rs
  {
    var (r, inner) := (rs[0], All(rs[0].children));
    if 0 < i <= |inner| {
      AllWithin(r.children, r.propsEnd, r.end, hdr, i - 1);
    } else if i > |inner| {
      AllWithin(rs[1..], r.end, hi, hdr, i - 1 - |inner|);
    }
  }

  /** Of any two records, the later either starts after the earlier has ended or lies whole in its body, behind its name
      and its properties. */
  lemma {:induction false} AllLaminar(rs: seq<Record>, lo: nat, hi: nat, hdr: nat, i: nat, j: nat)
    requires Nested(rs, lo, hi, hdr) && i < j < |All(rs)|
    ensures var (a, b) := (All(rs)[i], All(rs)[j]); a.end <= b.start || (a.propsEnd <= b.start && b.end <= a.end)
    decreases rs
  {
    var (r, inner, n) := (rs[0], All(rs[0].children), |All(rs[0].children)|);
    if i == 0 {
      if j <= n {
        AllWithin(r.children, r.propsEnd, r.end, hdr, j - 1);
      } else {
        AllWithin(rs[1..], r.end, hi, hdr, j - 1 - n);
      }
    } else if j <= n {
      AllLaminar(r.children, r.propsEnd, r.end, hdr, i - 1, j - 1);
    } else if i > n {
      AllLaminar(rs[1..], r.end, hi, hdr, i - 1 - n, j - 1 - n);
    } else {
      AllWithin(r.children, r.propsEnd, r.end, hdr, i - 1);
      AllWithin(rs[1..], r.end, hi, hdr, j - 1 - n);
    }
  }

  /** Headers do not overlap, so there are no more records than headers that fit. */
  lemma {:induction false} AllFit(rs: seq<Record>, lo: nat, hi: nat, hdr: nat)
    requires Nested(rs, lo, hi, hdr) && lo <= hi
    ensures Headers(|All(rs)|, hdr) <= hi - lo
    decreases rs
  {
    HeadersAdd(0, 0, hdr);
    hide Headers;
    if rs != [] {
      var r := rs[0];
      AllFit(r.children, r.propsEnd, r.end, hdr);
      AllFit(rs[1..], r.end, hi, hdr);
      HeadersAdd(|All(r.children)|, |All(rs[1..])|, hdr);
    }
  }

  /** The bytes of `n` headers. */
  function Headers(n: nat, hdr: nat): nat {
    n * hdr
  }

  lemma HeadersAdd(a: nat, b: nat, hdr: nat)
    ensures Headers(1 + a + b, hdr) == hdr + Headers(a, hdr) + Headers(b, hdr) && Headers(0, hdr) == 0
  {
  }

  /** The walk of a whole file, for either header width: the records it accepts lie in one another or apart, every name and
      property list lies inside its record, they nest no deeper than 33, and there are no more of them than the
      file has room for headers. */
  lemma ParsedForest(blob: Bytes, wide: bool)
    requires 27 <= |blob| && Walk(blob, 27, |blob|, wide, 0, None, []).Ok?
    ensures var rs := Walk(blob, 27, |blob|, wide, 0, None, []).value.records;
            && Height(rs) <= 33 && Headers(|All(rs)|, HeaderSize(wide)) <= |blob| - 27
            && (forall i :: 0 <= i < |All(rs)| ==>
                  var r := All(rs)[i];
                  27 <= r.start && r.start + HeaderSize(wide) <= r.nameEnd <= r.propsEnd <= r.end <= |blob|)
            && (forall i, j :: 0 <= i < j < |All(rs)| ==>
                  var (a, b) := (All(rs)[i], All(rs)[j]); a.end <= b.start || (a.propsEnd <= b.start && b.end <= a.end))
  {
    var (rs, hdr) := (Walk(blob, 27, |blob|, wide, 0, None, []).value.records, HeaderSize(wide));
    WalkIsNested(blob, 27, |blob|, wide, 0, None, []);
    hide Walk, Nested, All, Height, Headers;
    AllFit(rs, 27, |blob|, hdr);
    forall i | 0 <= i < |All(rs)|
      ensures var r := All(rs)[i]; 27 <= r.start && r.start + hdr <= r.nameEnd <= r.propsEnd <= r.end <= |blob|
    {
      AllWithin(rs, 27, |blob|, hdr, i);
    }
    forall i, j | 0 <= i < j < |All(rs)|
      ensures var (a, b) := (All(rs)[i], All(rs)[j]); a.end <= b.start || (a.propsEnd <= b.start && b.end <= a.end)
    {
      AllLaminar(rs, 27, |blob|, hdr, i, j);
    }
  }
}
