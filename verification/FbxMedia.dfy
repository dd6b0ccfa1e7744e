/** What the FBX walk says of a file's media: one for every Video or Texture record, told by the records inside it. */
module FbxMedia {
  import opened Sequences
  import opened Outcomes
  import opened Binary
  import opened FbxWalk

  /** The name, letter case apart. */
  ghost predicate Spells(name: Bytes, text: string) {
    |name| == |text| && forall i :: 0 <= i < |name| ==>
      name[i] == text[i] as int || ('A' as int <= name[i] <= 'Z' as int && name[i] + 32 == text[i] as int)
  }

  predicate IsLowerCase(text: string) {
    forall i :: 0 <= i < |text| ==> 'a' <= text[i] <= 'z'
  }

  lemma NamedIff(name: Bytes, text: string)
    requires IsLowerCase(text)
    ensures IsNamed(name, text) <==> Spells(name, text)
  {
  }

  /** A string property at `at`: the letter S, four bytes of length, and the bytes; a value over 64 KiB is not read. */
  ghost predicate StringAt(buf: Bytes, at: nat, value: Bytes) {
    && at + 5 <= |buf| && buf[at] == 'S' as int
    && var n := LittleEndian(buf[at + 1..at + 5]);
       value == if n <= 65536 then Slice(buf, at + 5, at + 5 + n) else []
  }

  /** A string or raw property at `at` that is not empty. */
  ghost predicate PayloadAt(buf: Bytes, at: nat) {
    && at + 5 <= |buf| && (buf[at] == 'S' as int || buf[at] == 'R' as int)
    && LittleEndian(buf[at + 1..at + 5]) > 0
  }

  lemma PropertyIs(buf: Bytes, at: nat, wantValue: bool)
    requires ReadProperty(buf, at, wantValue).Ok?
    ensures var p := ReadProperty(buf, at, wantValue).value;
            && (wantValue ==> (p.code == 'S' as int <==> exists value :: StringAt(buf, at, value)))
            && (wantValue && p.code == 'S' as int ==> StringAt(buf, at, p.value))
            && (p.length > 0 <==> PayloadAt(buf, at))
  {
    var p := ReadProperty(buf, at, wantValue).value;
    if wantValue && buf[at] == 'S' as int { assert StringAt(buf, at, p.value); }
  }

  /** What a record tells of the media it is in: its relative name, its absolute one, or that its bytes are in the file. */
  ghost predicate Tells(buf: Bytes, at: nat, hasProps: bool, name: Bytes, m: Media, after: Media) {
    && (after.rel != m.rel ==> hasProps && Spells(name, "relativefilename") && StringAt(buf, at, after.rel))
    && (after.abs != m.abs ==> hasProps && Spells(name, "filename") && StringAt(buf, at, after.abs))
    && (after.embedded != m.embedded ==> hasProps && Spells(name, "content") && PayloadAt(buf, at) && after.embedded)
    && (hasProps && Spells(name, "relativefilename") ==> forall value :: StringAt(buf, at, value) ==> after.rel == value)
    && (hasProps && Spells(name, "filename") ==> forall value :: StringAt(buf, at, value) ==> after.abs == value)
    && (hasProps && Spells(name, "content") && PayloadAt(buf, at) ==> after.embedded)
  }

  lemma NotedTells(buf: Bytes, at: nat, numProps: nat, name: Bytes, m: Media)
    requires Noted(buf, at, numProps, name, m).Ok?
    ensures Tells(buf, at, numProps > 0, name, m, Noted(buf, at, numProps, name, m).value)
  {
    NamedIff(name, "relativefilename");
    NamedIff(name, "filename");
    NamedIff(name, "content");
    var wantValue := !IsNamed(name, "content");
    if ReadProperty(buf, at, wantValue).Ok? { PropertyIs(buf, at, wantValue); }
    OneName(name);
    hide ReadProperty, IsNamed, Spells, PayloadAt, LittleEndian, Slice;
  }

  lemma OneName(name: Bytes)
    ensures Spells(name, "content") ==> !Spells(name, "filename") && !Spells(name, "relativefilename")
    ensures Spells(name, "filename") ==> !Spells(name, "relativefilename")
  {
    assert |"content"| == 7 && |"filename"| == 8 && |"relativefilename"| == 16;
  }

  /** The name of the record whose header is at `off`, and whether it has properties. */
  function NameAt(buf: Bytes, off: nat, wide: bool): Bytes
    requires off + HeaderSize(wide) <= |buf|
  {
    Slice(buf, off + HeaderSize(wide), off + HeaderSize(wide) + buf[off + HeaderSize(wide) - 1])
  }

  predicate HasProperties(buf: Bytes, off: nat, wide: bool)
    requires off + HeaderSize(wide) <= |buf|
  {
    if wide then LittleEndian(buf[off + 8..off + 16]) > 0 else LittleEndian(buf[off + 4..off + 8]) > 0
  }

  ghost predicate IsMedia(name: Bytes) {
    Spells(name, "video") || Spells(name, "texture")
  }

  /** One record of the walk: it tells the media it is in, if any, and no other; a Video or a Texture opens a media of its own,
      of which nothing is known yet, for the records inside it. */
  lemma EntryMeans(buf: Bytes, off: nat, end: nat, wide: bool, cur: Option<nat>, media: seq<Media>)
    requires cur.Some? ==> cur.value < |media|
    requires EntryAt(buf, off, end, wide, cur, media).Ok? && EntryAt(buf, off, end, wide, cur, media).value.Opened?
    ensures off + HeaderSize(wide) <= |buf| && HeaderSize(wide) == if wide then 25 else 13
    ensures var (e, name) := (EntryAt(buf, off, end, wide, cur, media).value, NameAt(buf, off, wide));
            && (forall j :: 0 <= j < |media| && cur != Some(j) ==> e.media[j] == media[j])
            && (cur.Some? ==> Tells(buf, e.nameEnd, HasProperties(buf, off, wide), name, media[cur.value], e.media[cur.value]))
            && (IsMedia(name) ==> e.child == Some(|media|) && |e.media| == |media| + 1 && e.media[|media|] == Media([], [], false))
            && (!IsMedia(name) ==> e.child == cur && |e.media| == |media|)
  {
    EntryParts(buf, off, end, wide, cur, media);
    hide EntryAt;
    NamedIff(NameAt(buf, off, wide), "video");
    NamedIff(NameAt(buf, off, wide), "texture");
    var e := EntryAt(buf, off, end, wide, cur, media).value;
    var h := HeaderAt(buf, off, wide);
    var name := NameAt(buf, off, wide);
    if cur.Some? { NotedTells(buf, e.nameEnd, h.numProps, name, media[cur.value]); }
    hide Noted, IsNamed, Tells, Spells, NameAt, HeaderAt, HasProperties;
  }

  lemma EntryParts(buf: Bytes, off: nat, end: nat, wide: bool, cur: Option<nat>, media: seq<Media>)
    requires cur.Some? ==> cur.value < |media|
    requires EntryAt(buf, off, end, wide, cur, media).Ok? && EntryAt(buf, off, end, wide, cur, media).value.Opened?
    ensures off + HeaderSize(wide) <= |buf|
    ensures var (e, h, name) := (EntryAt(buf, off, end, wide, cur, media).value, HeaderAt(buf, off, wide), NameAt(buf, off, wide));
            var noted := NotedIn(buf, e.nameEnd, h, name, cur, media);
            && noted.Ok? && e.child == (if OpensMedia(name) then Some(|media|) else cur)
            && e.media == (if OpensMedia(name) then noted.value + [Media([], [], false)] else noted.value)
            && (h.numProps > 0 <==> HasProperties(buf, off, wide))
  {
    hide NotedIn, Slice, LittleEndian, OpensMedia;
  }

  /** The Video and Texture records of a forest. */
  ghost function Openers(buf: Bytes, rs: seq<Record>, hdr: nat): nat {
    if rs == [] then 0
    else
      (if rs[0].start + hdr <= rs[0].nameEnd && IsMedia(Slice(buf, rs[0].start + hdr, rs[0].nameEnd)) then 1 else 0)
      + Openers(buf, rs[0].children, hdr) + Openers(buf, rs[1..], hdr)
  }

  /** A file has exactly one media for each Video or Texture record the walk visits, however deep. */
  lemma {:induction false} MediaCount(buf: Bytes, off: nat, end: nat, wide: bool, depth: nat, cur: Option<nat>, media: seq<Media>)
    requires cur.Some? ==> cur.value < |media|
    requires Walk(buf, off, end, wide, depth, cur, media).Ok?
    ensures var w := Walk(buf, off, end, wide, depth, cur, media).value;
            |w.media| == |media| + Openers(buf, w.records, HeaderSize(wide))
    decreases end - off
  {
    hide EntryAt, IsMedia, Slice;
    if off + HeaderSize(wide) <= end {
      var e := EntryAt(buf, off, end, wide, cur, media).value;
      if e.Opened? {
        EntryMeans(buf, off, end, wide, cur, media);
        EntryName(buf, off, end, wide, cur, media);
        var inner := Walked([], e.media, e.propsEnd);
        if e.propsEnd < e.end {
          inner := Walk(buf, e.propsEnd, e.end, wide, depth + 1, e.child, e.media).value;
          MediaCount(buf, e.propsEnd, e.end, wide, depth + 1, e.child, e.media);
        }
        var rest := Walk(buf, e.end, end, wide, depth, cur, inner.media).value;
        MediaCount(buf, e.end, end, wide, depth, cur, inner.media);
        var r := Record(off, e.nameEnd, e.propsEnd, e.end, inner.records);
        assert ([r] + rest.records)[1..] == rest.records;
        hide Walk;
      }
    }
  }

  lemma EntryName(buf: Bytes, off: nat, end: nat, wide: bool, cur: Option<nat>, media: seq<Media>)
    requires cur.Some? ==> cur.value < |media|
    requires EntryAt(buf, off, end, wide, cur, media).Ok? && EntryAt(buf, off, end, wide, cur, media).value.Opened?
    ensures off + HeaderSize(wide) <= |buf|
    ensures var e := EntryAt(buf, off, end, wide, cur, media).value;
            off + HeaderSize(wide) <= e.nameEnd && NameAt(buf, off, wide) == Slice(buf, off + HeaderSize(wide), e.nameEnd)
  {
    hide NotedIn, Slice, LittleEndian, OpensMedia;
  }

  /** A whole file: the version at byte 23 chooses the width of its headers, and there is one media for each Video or Texture. */
  lemma ParsedMedia(blob: Bytes)
    requires Parsed(blob).Ok?
    ensures 27 <= |blob|
    ensures var (w, wide) := (Parsed(blob).value, LittleEndian(blob[23..27]) >= 7500);
            |w.media| == Openers(blob, w.records, if wide then 25 else 13)
  {
    var wide := LittleEndian(blob[23..27]) >= 7500;
    MediaCount(blob, 27, |blob|, wide, 0, None, []);
    hide Walk, Openers;
  }
}
