/** The per-record copy loop of `seed/scripts/populate_archive.py`: what it counts, what it writes, and why a second run
    after a clean one writes nothing new. */
module Copier {
  import opened Sequences

  type Content = string
  type Path = string
  type Files = map<Path, Content>

  /** The zip member a `pack` record can be recovered from. */
  datatype Member = Member(url: string, name: string, sha: string)

  /** One item of the profile: where its bytes come from, where they go, and what its record says of them. An absent byte
      count is 0, an absent hash or URL empty, an incomplete archive entry none at all. */
  datatype Item = Item(root: string, source: Path, dest: Path, size: int, sha: string, mediaUrl: string, member: Option<Member>)

  /** Everything a run takes from outside: the sources by root, the network, the hash, and the options. */
  datatype World = World(
    sources: map<string, Files>,
    fetch: string -> Option<Content>,
    fetchMember: Member -> Option<Content>,
    sha: Content -> string,
    preserved: bool,
    noRefetch: bool,
    dryRun: bool)

  datatype Verdict = Copied | Skipped | Missing | Preexisting | Wrong | Kept | Refused | Refetched | WouldRefetch

  /** What one item comes to, and the bytes written for it if any are. */
  datatype Outcome = Outcome(verdict: Verdict, written: Option<Content>)

  predicate IsPrestaged(root: string, w: World) {
    root == "torrent_import" || root == "site" || (w.preserved && root == "local")
  }

  predicate HasAuthority(root: string) {
    root == "internet" || root == "hq" || root == "pack"
  }

  function At(files: Files, path: Path): Option<Content> {
    if path in files then Some(files[path]) else None
  }

  function SourceFile(item: Item, w: World): Option<Content> {
    if item.root in w.sources then At(w.sources[item.root], item.source) else None
  }

  predicate HasSize(file: Option<Content>, size: int) {
    file.Some? && |file.value| == size
  }

  function Unwritten(v: Verdict): Outcome {
    Outcome(v, None)
  }

  function Wrote(v: Verdict, content: Content, w: World): Outcome {
    Outcome(v, if w.dryRun then None else Some(content))
  }

  /** `refetch`: what is served must have the recorded size and hash, where there is one. */
  function Refetch(item: Item, w: World): Option<Content> {
    var served := w.fetch(item.mediaUrl);
    if served.None? then None
    else if item.size != 0 && |served.value| != item.size then None
    else if item.sha != "" && w.sha(served.value) != item.sha then None
    else served
  }

  /** `refetch_member`: the recorded hash alone decides. */
  function RefetchMember(m: Member, w: World): Option<Content> {
    var data := w.fetchMember(m);
    if data.Some? && w.sha(data.value) == m.sha then data else None
  }

  /** A root whose bytes are staged at the destination: verified, and fetched only when absent. */
  function Verified(item: Item, held: Option<Content>, w: World): Outcome {
    if held.Some? && |held.value| > 0 then
      if item.size != 0 && |held.value| != item.size then Unwritten(Wrong)
      else if item.sha != "" && w.sha(held.value) != item.sha then Unwritten(Wrong)
      else Unwritten(Preexisting)
    else if item.mediaUrl != "" && !w.noRefetch && !w.dryRun && Refetch(item, w).Some? then
      Outcome(Refetched, Refetch(item, w))
    else Unwritten(Missing)
  }

  /** Any other root the record does not decide: compared with the source. */
  function Mirrored(item: Item, held: Option<Content>, w: World): Outcome {
    var source := SourceFile(item, w);
    if source.None? then
      if item.size != 0 && HasSize(held, item.size) then Unwritten(Preexisting) else Unwritten(Missing)
    else if HasSize(held, |source.value|) then Unwritten(Skipped)
    else Wrote(Copied, source.value, w)
  }

  /** An authority root without a source file. */
  function WithoutSource(item: Item, held: Option<Content>, w: World): Outcome {
    var inPlace := HasSize(held, item.size);
    if item.root == "internet" then Unwritten(if inPlace then Preexisting else Missing)
    else if item.root == "pack" && item.member.Some? && !w.noRefetch && w.dryRun then Unwritten(WouldRefetch)
    else if item.root == "pack" && item.member.Some? && !w.noRefetch && RefetchMember(item.member.value, w).Some? then
      Outcome(Refetched, RefetchMember(item.member.value, w))
    else if inPlace then Unwritten(Refused)
    else Unwritten(Missing)
  }

  /** An authority root: the record's byte count decides. */
  function Decided(item: Item, held: Option<Content>, w: World): Outcome {
    var source := SourceFile(item, w);
    var inPlace := HasSize(held, item.size);
    if item.size <= 0 then Unwritten(Refused)
    else if source.None? then WithoutSource(item, held, w)
    else if inPlace && |source.value| == item.size then Unwritten(Skipped)
    else if inPlace && item.root == "internet" then Unwritten(Kept)
    else if inPlace then Unwritten(Refused)
    else if |source.value| != item.size then Unwritten(Refused)
    else Wrote(Copied, source.value, w)
  }

  function Processed(item: Item, files: Files, w: World): Outcome {
    var held := At(files, item.dest);
    if IsPrestaged(item.root, w) then Verified(item, held, w)
    else if !HasAuthority(item.root) then Mirrored(item, held, w)
    else Decided(item, held, w)
  }

  function After(item: Item, files: Files, w: World): Files {
    var o := Processed(item, files, w);
    if o.written.Some? then files[item.dest := o.written.value] else files
  }

  /** The destination after the first items. */
  function Run(items: seq<Item>, files: Files, w: World): Files
    decreases |items|
  {
    if items == [] then files
    else After(items[|items| - 1], Run(items[..|items| - 1], files, w), w)
  }

  /** Where each item lands. */
  function Verdicts(items: seq<Item>, files: Files, w: World): (vs: seq<Verdict>)
    ensures |vs| == |items|
    decreases |items|
  {
    if items == [] then []
    else
      var n := |items| - 1;
      Verdicts(items[..n], files, w) + [Processed(items[n], Run(items[..n], files, w), w).verdict]
  }

  function Count(vs: seq<Verdict>, v: Verdict): nat
    decreases |vs|
  {
    if vs == [] then 0 else Count(vs[..|vs| - 1], v) + if vs[|vs| - 1] == v then 1 else 0
  }

  datatype Summary = Summary(copied: nat, skipped: nat, missing: nat, preexisting: nat, wrong: nat, kept: nat, refused: nat,
                             refetched: nat, wouldRefetch: nat)

  const NOTHING := Summary(0, 0, 0, 0, 0, 0, 0, 0, 0)

  function Noted(s: Summary, v: Verdict): Summary {
    match v
    case Copied => s.(copied := s.copied + 1)
    case Skipped => s.(skipped := s.skipped + 1)
    case Missing => s.(missing := s.missing + 1)
    case Preexisting => s.(preexisting := s.preexisting + 1)
    case Wrong => s.(wrong := s.wrong + 1)
    case Kept => s.(kept := s.kept + 1)
    case Refused => s.(refused := s.refused + 1)
    case Refetched => s.(refetched := s.refetched + 1)
    case WouldRefetch => s.(wouldRefetch := s.wouldRefetch + 1)
  }

  function Tally(vs: seq<Verdict>): Summary
    decreases |vs|
  {
    if vs == [] then NOTHING else Noted(Tally(vs[..|vs| - 1]), vs[|vs| - 1])
  }

  function Total(s: Summary): nat {
    s.copied + s.skipped + s.missing + s.preexisting + s.wrong + s.kept + s.refused + s.refetched + s.wouldRefetch
  }

  function Counter(s: Summary, v: Verdict): nat {
    match v
    case Copied => s.copied
    case Skipped => s.skipped
    case Missing => s.missing
    case Preexisting => s.preexisting
    case Wrong => s.wrong
    case Kept => s.kept
    case Refused => s.refused
    case Refetched => s.refetched
    case WouldRefetch => s.wouldRefetch
  }

  lemma NotedIsOne(s: Summary, v: Verdict, u: Verdict)
    ensures Counter(Noted(s, v), u) == Counter(s, u) + if u == v then 1 else 0
    ensures Total(Noted(s, v)) == Total(s) + 1
  {
  }

  /** Every counter counts the items of its verdict, and every item is in exactly one. */
  lemma {:induction false} TallyIsPartition(vs: seq<Verdict>)
    ensures Total(Tally(vs)) == |vs| && forall v :: Counter(Tally(vs), v) == Count(vs, v)
    decreases |vs|
  {
    hide Noted, Total;
    NothingCounted();
    if vs != [] {
      var (before, last) := (vs[..|vs| - 1], vs[|vs| - 1]);
      TallyIsPartition(before);
      NotedIsOne(Tally(before), last, last);
      hide Counter;
      forall v ensures Counter(Tally(vs), v) == Count(vs, v) {
        NotedIsOne(Tally(before), last, v);
      }
    }
  }

  lemma NothingCounted()
    ensures Total(NOTHING) == 0
  {
  }

  /** The published tree, and the counters of a run over it. */
  class Destination {
    var files: Files
    var summary: Summary

    constructor (files: Files)
      ensures this.files == files
    {
      this.files := files;
      summary := NOTHING;
    }

    method Write(path: Path, content: Content, w: World)
      modifies `files
      ensures files == if w.dryRun then old(files) else old(files)[path := content]
    {
      if !w.dryRun {
        files := files[path := content];
      }
    }

    method Note(v: Verdict)
      modifies `summary
      ensures summary == Noted(old(summary), v)
    {
      match v
      case Copied => summary := summary.(copied := summary.copied + 1);
      case Skipped => summary := summary.(skipped := summary.skipped + 1);
      case Missing => summary := summary.(missing := summary.missing + 1);
      case Preexisting => summary := summary.(preexisting := summary.preexisting + 1);
      case Wrong => summary := summary.(wrong := summary.wrong + 1);
      case Kept => summary := summary.(kept := summary.kept + 1);
      case Refused => summary := summary.(refused := summary.refused + 1);
      case Refetched => summary := summary.(refetched := summary.refetched + 1);
      case WouldRefetch => summary := summary.(wouldRefetch := summary.wouldRefetch + 1);
    }

    /** The pre-staged branch. */
    method Verify(item: Item, w: World) returns (v: Verdict)
      modifies `files
      ensures var o := Verified(item, At(old(files), item.dest), w);
              v == o.verdict && files == if o.written.Some? then old(files)[item.dest := o.written.value] else old(files)
    {
      hide Refetch;
      if item.dest in files && |files[item.dest]| > 0 {
        var got := files[item.dest];
        if item.size != 0 && |got| != item.size {
          return Wrong;
        } else if item.sha != "" && w.sha(got) != item.sha {
          return Wrong;
        }
        return Preexisting;
      }
      if item.mediaUrl != "" && !w.noRefetch && !w.dryRun {
        var served := Refetch(item, w);
        if served.Some? {
          files := files[item.dest := served.value];
          return Refetched;
        }
      }
      return Missing;
    }

    /** The branch of a root the record does not decide. */
    method Mirror(item: Item, w: World) returns (v: Verdict)
      modifies `files
      ensures var o := Mirrored(item, At(old(files), item.dest), w);
              v == o.verdict && files == if o.written.Some? then old(files)[item.dest := o.written.value] else old(files)
    {
      var source := SourceFile(item, w);
      if source.None? {
        if item.dest in files && item.size != 0 && |files[item.dest]| == item.size {
          return Preexisting;
        }
        return Missing;
      }
      if item.dest in files && |files[item.dest]| == |source.value| {
        return Skipped;
      }
      Write(item.dest, source.value, w);
      return Copied;
    }

    /** The branch of an authority root. */
    method Decide(item: Item, w: World) returns (v: Verdict)
      modifies `files
      ensures var o := Decided(item, At(old(files), item.dest), w);
              v == o.verdict && files == if o.written.Some? then old(files)[item.dest := o.written.value] else old(files)
    {
      hide RefetchMember;
      if item.size <= 0 {
        return Refused;
      }
      var inPlace := item.dest in files && |files[item.dest]| == item.size;
      var source := SourceFile(item, w);
      if source.None? {
        if item.root == "internet" {
          if inPlace {
            return Preexisting;
          }
          return Missing;
        }
        if item.root == "pack" && item.member.Some? && !w.noRefetch {
          if w.dryRun {
            return WouldRefetch;
          }
          var data := RefetchMember(item.member.value, w);
          if data.Some? {
            files := files[item.dest := data.value];
            return Refetched;
          }
        }
        if inPlace {
          return Refused;
        }
        return Missing;
      }
      var size := |source.value|;
      if inPlace && size == item.size {
        return Skipped;
      } else if inPlace && item.root == "internet" {
        return Kept;
      } else if inPlace {
        return Refused;
      } else if size != item.size {
        return Refused;
      }
      Write(item.dest, source.value, w);
      return Copied;
    }

    /** One item: its root chooses the branch. */
    method Process(item: Item, w: World) returns (v: Verdict)
      modifies `files
      ensures v == Processed(item, old(files), w).verdict && files == After(item, old(files), w)
    {
      hide Verified, Mirrored, Decided;
      if IsPrestaged(item.root, w) {
        v := Verify(item, w);
      } else if !HasAuthority(item.root) {
        v := Mirror(item, w);
      } else {
        v := Decide(item, w);
      }
    }

    /** The loop over the items. */
    method RunItems(items: seq<Item>, w: World)
      requires summary == NOTHING
      modifies this
      ensures files == Run(items, old(files), w)
      ensures summary == Tally(Verdicts(items, old(files), w)) && Total(summary) == |items|
    {
      for i := 0 to |items|
        invariant files == Run(items[..i], old(files), w) && summary == Tally(Verdicts(items[..i], old(files), w))
      {
        RunStep(items, old(files), w, i);
        hide *;
        var v := Process(items[i], w);
        Note(v);
      }
      assert items[..|items|] == items;
      TallyIsPartition(Verdicts(items, old(files), w));
    }
  }

  lemma RunStep(items: seq<Item>, files: Files, w: World, i: nat)
    requires i < |items|
    ensures var before := Run(items[..i], files, w);
            && Run(items[..i + 1], files, w) == After(items[i], before, w)
            && Tally(Verdicts(items[..i + 1], files, w)) == Noted(Tally(Verdicts(items[..i], files, w)), Processed(items[i], before, w).verdict)
  {
    hide Processed, After, Noted;
    assert items[..i + 1][..i] == items[..i];
    var vs := Verdicts(items[..i + 1], files, w);
    assert vs[..|vs| - 1] == Verdicts(items[..i], files, w);
  }

  // ----- what a run writes -----

  predicate DistinctDests(items: seq<Item>) {
    forall i, j :: 0 <= i < j < |items| ==> items[i].dest != items[j].dest
  }

  /** An item's verdict and bytes depend on its own destination only. */
  lemma OwnDestination(item: Item, a: Files, b: Files, w: World)
    requires At(a, item.dest) == At(b, item.dest)
    ensures Processed(item, a, w) == Processed(item, b, w)
    ensures At(After(item, a, w), item.dest) == At(After(item, b, w), item.dest)
  {
    hide Verified, Mirrored, Decided;
  }

  lemma OtherDestination(item: Item, files: Files, w: World, path: Path)
    requires item.dest != path
    ensures At(After(item, files, w), path) == At(files, path)
  {
    hide Processed;
  }

  /** So over a run each item fares as if it were alone. */
  lemma {:induction false} RunAt(items: seq<Item>, files: Files, w: World, i: nat)
    requires DistinctDests(items) && i < |items|
    ensures At(Run(items, files, w), items[i].dest) == At(After(items[i], files, w), items[i].dest)
    ensures Verdicts(items, files, w)[i] == Processed(items[i], files, w).verdict
    decreases |items|
  {
    hide Processed, After;
    var n := |items| - 1;
    if i < n {
      RunAt(items[..n], files, w, i);
      OtherDestination(items[n], Run(items[..n], files, w), w, items[i].dest);
    } else {
      Untouched(items[..n], files, w, items[n].dest);
      OwnDestination(items[n], Run(items[..n], files, w), files, w);
    }
  }

  /** A path that is no item's destination is left alone. */
  lemma {:induction false} Untouched(items: seq<Item>, files: Files, w: World, path: Path)
    requires forall i :: 0 <= i < |items| ==> items[i].dest != path
    ensures At(Run(items, files, w), path) == At(files, path)
    decreases |items|
  {
    hide Processed;
    if items != [] { Untouched(items[..|items| - 1], files, w, path); }
  }

  /** A dry run writes nothing. */
  lemma {:induction false} DryRunWritesNothing(items: seq<Item>, files: Files, w: World)
    requires w.dryRun
    ensures Run(items, files, w) == files
    decreases |items|
  {
    if items != [] { DryRunWritesNothing(items[..|items| - 1], files, w); }
  }

  /** An `internet` file at its recorded size is the shipped file: no run rewrites it. */
  lemma InternetFileStands(items: seq<Item>, files: Files, w: World, i: nat)
    requires DistinctDests(items) && i < |items| && items[i].root == "internet" && HasSize(At(files, items[i].dest), items[i].size)
    ensures At(Run(items, files, w), items[i].dest) == At(files, items[i].dest)
  {
    RunAt(items, files, w, i);
  }

  /** What is written for an authority root is what the record describes: the source at the recorded size, or the zip member
      with the recorded hash. */
  lemma WrittenIsRecorded(item: Item, files: Files, w: World)
    requires HasAuthority(item.root) && Processed(item, files, w).written.Some?
    ensures var content := Processed(item, files, w).written.value;
            || (SourceFile(item, w) == Some(content) && |content| == item.size > 0)
            || (item.root == "pack" && item.member.Some? && w.sha(content) == item.member.value.sha)
    ensures !w.dryRun
  {
  }

  /** The run exits 0. */
  ghost predicate ExitsClean(items: seq<Item>, files: Files, w: World) {
    forall i :: 0 <= i < |items| ==> Verdicts(items, files, w)[i] !in {Missing, Wrong, Refused}
  }

  /** After a run that exits 0 every verified and every `internet` or `hq` destination holds what its record describes. */
  lemma CleanMeansDescribed(items: seq<Item>, files: Files, w: World, i: nat)
    requires DistinctDests(items) && i < |items| && !w.dryRun && items[i].size > 0 && ExitsClean(items, files, w)
    ensures var held := At(Run(items, files, w), items[i].dest);
            && (IsPrestaged(items[i].root, w) ==>
                  HasSize(held, items[i].size) && (items[i].sha != "" ==> w.sha(held.value) == items[i].sha))
            && (items[i].root == "internet" || items[i].root == "hq" ==> HasSize(held, items[i].size))
  {
    RunAt(items, files, w, i);
    assert Verdicts(items, files, w)[i] !in {Missing, Wrong, Refused};
    hide Run, Verdicts;
    CleanItemIsDescribed(items[i], files, w);
  }

  lemma CleanItemIsDescribed(item: Item, files: Files, w: World)
    requires !w.dryRun && item.size > 0 && Processed(item, files, w).verdict !in {Missing, Wrong, Refused}
    ensures var held := At(After(item, files, w), item.dest);
            && (IsPrestaged(item.root, w) ==> HasSize(held, item.size) && (item.sha != "" ==> w.sha(held.value) == item.sha))
            && (item.root == "internet" || item.root == "hq" ==> HasSize(held, item.size))
  {
  }

  // ----- a second run -----

  /** The second run sees the same sources and the same options; the network may answer differently. */
  ghost predicate SameSources(w: World, again: World) {
    && again.sources == w.sources && again.sha == w.sha && again.preserved == w.preserved && !w.dryRun
  }

  ghost predicate CollisionFree(sha: Content -> string) {
    forall a, b :: sha(a) == sha(b) ==> a == b
  }

  /** A clean item is left as it is by the second run: verified, skipped or kept, or recovered with equal bytes. */
  lemma ItemStands(item: Item, files: Files, w: World, again: World)
    requires SameSources(w, again) && CollisionFree(w.sha) && item.size > 0
    requires Processed(item, files, w).verdict !in {Missing, Wrong, Refused}
    ensures var held := After(item, files, w); At(After(item, held, again), item.dest) == At(held, item.dest)
  {
    var held := After(item, files, w);
    var second := Processed(item, held, again);
    if IsPrestaged(item.root, w) {
    } else if HasAuthority(item.root) && item.root == "pack" && SourceFile(item, w).None? {
      if second.written.Some? { assert w.sha(second.written.value) == w.sha(held[item.dest]); }
    } else {
    }
  }

  /** After a run that exits 0 a second run over the same sources leaves every file of the dataset as it is, whatever the
      network then answers. */
  lemma {:induction false} SecondRunStands(items: seq<Item>, files: Files, w: World, again: World)
    requires DistinctDests(items) && (forall i :: 0 <= i < |items| ==> items[i].size > 0)
    requires SameSources(w, again) && CollisionFree(w.sha) && ExitsClean(items, files, w)
    ensures Run(items, Run(items, files, w), again) == Run(items, files, w)
  {
    var held := Run(items, files, w);
    forall path ensures At(Run(items, held, again), path) == At(held, path) {
      if i :| 0 <= i < |items| && items[i].dest == path {
        RunAt(items, files, w, i);
        RunAt(items, held, again, i);
        assert Verdicts(items, files, w)[i] !in {Missing, Wrong, Refused};
        ItemStands(items[i], files, w, again);
        OwnDestination(items[i], held, After(items[i], files, w), again);
      } else {
        Untouched(items, held, again, path);
      }
    }
    SameFiles(Run(items, held, again), held);
  }

  lemma SameFiles(a: Files, b: Files)
    requires forall path :: At(a, path) == At(b, path)
    ensures a == b
  {
    forall path ensures path in a <==> path in b {
      assert At(a, path) == At(b, path);
    }
    forall path | path in a ensures a[path] == b[path] {
      assert At(a, path) == At(b, path);
    }
  }
}
