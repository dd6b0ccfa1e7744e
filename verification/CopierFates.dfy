/** What ends up at the destination: the whole copy loop, item by item, in roots, bytes and records. */
module CopierFates {
  import opened Sequences
  import opened Copier

  /** The file at a path, if there is one. */
  function Held(files: Files, path: Path): Option<Content> {
    if path in files then Some(files[path]) else None
  }

  /** The bytes the item is copied from, if its source file is there. */
  function Bytes(item: Item, w: World): Option<Content> {
    if item.root in w.sources then Held(w.sources[item.root], item.source) else None
  }

  /** What the network serves for the item's URL, if it has the recorded size and hash, as far as they are recorded. */
  function Served(item: Item, w: World): Option<Content> {
    var content := w.fetch(item.mediaUrl);
    if content.Some? && (item.size == 0 || |content.value| == item.size) && (item.sha == "" || w.sha(content.value) == item.sha)
    then content else None
  }

  /** What it serves for the item's zip member, if it has the recorded hash. */
  function Recovered(item: Item, w: World): Option<Content> {
    if item.member.Some? && w.fetchMember(item.member.value).Some? && w.sha(w.fetchMember(item.member.value).value) == item.member.value.sha
    then w.fetchMember(item.member.value) else None
  }

  /** What became of an item: the file it had, the file it has now, and how it was counted. */
  datatype Fate = Fate(was: Option<Content>, is_: Option<Content>, verdict: Verdict) {
    predicate Stays(v: Verdict) {
      is_ == was && verdict == v
    }

    predicate Becomes(content: Option<Content>, v: Verdict) {
      content.Some? && is_ == content && verdict == v
    }

    predicate WasOfSize(size: int) {
      was.Some? && |was.value| == size
    }
  }

  /** The item of a run at position `i`. */
  function FateAt(items: seq<Item>, files: Files, w: World, i: nat): Fate
    requires i < |items|
  {
    Fate(Held(files, items[i].dest), Held(Run(items, files, w), items[i].dest), Verdicts(items, files, w)[i])
  }

  /** The item by itself. */
  function FateOf(item: Item, files: Files, w: World): Fate {
    Fate(Held(files, item.dest), Held(After(item, files, w), item.dest), Processed(item, files, w).verdict)
  }

  lemma FateIs(items: seq<Item>, files: Files, w: World, i: nat)
    requires DistinctDests(items) && i < |items|
    ensures FateAt(items, files, w, i) == FateOf(items[i], files, w)
  {
    RunAt(items, files, w, i);
    hide Run, Verdicts, After, Processed;
    assert forall path, fs :: Held(fs, path) == At(fs, path);
  }

  // ----- copied roots -----

  /** A root that is neither staged at the destination nor decided by the record: the file becomes its source, unless they are
      of one length; without a source nothing happens. */
  predicate Mirrors(item: Item, w: World, f: Fate) {
    var source := Bytes(item, w);
    if source.Some? then
      if f.WasOfSize(|source.value|) then f.Stays(Skipped) else f.Becomes(source, Copied)
    else if item.size != 0 && f.WasOfSize(item.size) then f.Stays(Preexisting)
    else f.Stays(Missing)
  }

  lemma MirrorsOne(item: Item, files: Files, w: World)
    requires !w.dryRun && item.root !in {"torrent_import", "site", "internet", "hq", "pack"} && (item.root == "local" ==> !w.preserved)
    ensures Mirrors(item, w, FateOf(item, files, w))
  {
  }

  lemma MirroredItem(items: seq<Item>, files: Files, w: World, i: nat)
    requires (forall i, j :: 0 <= i < j < |items| ==> items[i].dest != items[j].dest) && i < |items| && !w.dryRun
    requires items[i].root !in {"torrent_import", "site", "internet", "hq", "pack"} && (items[i].root == "local" ==> !w.preserved)
    ensures Mirrors(items[i], w, FateAt(items, files, w, i))
  {
    FateIs(items, files, w, i);
    hide *;
    MirrorsOne(items[i], files, w);
  }

  // ----- authority roots -----

  /** The record's byte count decides: the source is taken only at that size, and only where the destination is not at it.
      Without a source, an `internet` file at that size stands, and a `pack` file may be recovered from its zip member. */
  predicate Decides(item: Item, w: World, f: Fate) {
    var (source, inPlace) := (Bytes(item, w), f.WasOfSize(item.size));
    if item.size <= 0 then f.Stays(Refused)
    else if source.Some? then
      if inPlace then f.Stays(if |source.value| == item.size then Skipped else if item.root == "internet" then Kept else Refused)
      else if |source.value| == item.size then f.Becomes(source, Copied)
      else f.Stays(Refused)
    else if item.root == "internet" then f.Stays(if inPlace then Preexisting else Missing)
    else if item.root == "pack" && !w.noRefetch && Recovered(item, w).Some? then f.Becomes(Recovered(item, w), Refetched)
    else f.Stays(if inPlace then Refused else Missing)
  }

  lemma DecidesOne(item: Item, files: Files, w: World)
    requires !w.dryRun && item.root in {"internet", "hq", "pack"}
    ensures Decides(item, w, FateOf(item, files, w))
  {
    hide Verified, Mirrored;
  }

  lemma DecidedItem(items: seq<Item>, files: Files, w: World, i: nat)
    requires (forall i, j :: 0 <= i < j < |items| ==> items[i].dest != items[j].dest) && i < |items| && !w.dryRun
    requires items[i].root in {"internet", "hq", "pack"}
    ensures Decides(items[i], w, FateAt(items, files, w, i))
  {
    FateIs(items, files, w, i);
    hide *;
    DecidesOne(items[i], files, w);
  }

  // ----- staged roots -----

  /** A staged file is checked against its record and never replaced; only where it is absent or empty may it be fetched. */
  predicate Verifies(item: Item, w: World, f: Fate) {
    if f.was.Some? && f.was.value != "" then
      f.Stays(if (item.size != 0 && !f.WasOfSize(item.size)) || (item.sha != "" && w.sha(f.was.value) != item.sha) then Wrong else Preexisting)
    else if item.mediaUrl != "" && !w.noRefetch && Served(item, w).Some? then f.Becomes(Served(item, w), Refetched)
    else f.Stays(Missing)
  }

  lemma VerifiesOne(item: Item, files: Files, w: World)
    requires !w.dryRun && (item.root == "torrent_import" || item.root == "site" || (item.root == "local" && w.preserved))
    ensures Verifies(item, w, FateOf(item, files, w))
  {
    hide Mirrored, Decided;
  }

  lemma VerifiedItem(items: seq<Item>, files: Files, w: World, i: nat)
    requires (forall i, j :: 0 <= i < j < |items| ==> items[i].dest != items[j].dest) && i < |items| && !w.dryRun
    requires items[i].root == "torrent_import" || items[i].root == "site" || (items[i].root == "local" && w.preserved)
    ensures Verifies(items[i], w, FateAt(items, files, w, i))
  {
    FateIs(items, files, w, i);
    hide *;
    VerifiesOne(items[i], files, w);
  }

  // ----- a whole run -----

  /** Everything a run leaves: each item as its root says, and every path that is no item's destination as it was. */
  lemma RunLeaves(items: seq<Item>, files: Files, w: World)
    requires (forall i, j :: 0 <= i < j < |items| ==> items[i].dest != items[j].dest) && !w.dryRun
    ensures forall i: nat :: i < |items| ==>
              var (item, f) := (items[i], FateAt(items, files, w, i));
              if item.root == "torrent_import" || item.root == "site" || (item.root == "local" && w.preserved) then Verifies(item, w, f)
              else if item.root in {"internet", "hq", "pack"} then Decides(item, w, f)
              else Mirrors(item, w, f)
    ensures forall path :: (forall i :: 0 <= i < |items| ==> items[i].dest != path) ==> Held(Run(items, files, w), path) == Held(files, path)
  {
    hide Run, Verdicts, Verifies, Decides, Mirrors, FateAt;
    forall i: nat | i < |items|
      ensures var (item, f) := (items[i], FateAt(items, files, w, i));
              if item.root == "torrent_import" || item.root == "site" || (item.root == "local" && w.preserved) then Verifies(item, w, f)
              else if item.root in {"internet", "hq", "pack"} then Decides(item, w, f)
              else Mirrors(item, w, f)
    {
      var root := items[i].root;
      if root == "torrent_import" || root == "site" || (root == "local" && w.preserved) {
        VerifiedItem(items, files, w, i);
      } else if root in {"internet", "hq", "pack"} {
        DecidedItem(items, files, w, i);
      } else {
        MirroredItem(items, files, w, i);
      }
    }
    forall path | forall i :: 0 <= i < |items| ==> items[i].dest != path ensures Held(Run(items, files, w), path) == Held(files, path) {
      Untouched(items, files, w, path);
      assert forall fs :: Held(fs, path) == At(fs, path);
    }
  }

  /** A dry run forecasts the run: it counts every item as the run would, but for what only the network can tell. A `pack`
      item that the run would try to recover is counted as such, and a staged one that it would fetch as missing. */
  lemma DryRunForecasts(items: seq<Item>, files: Files, w: World, i: nat)
    requires (forall i, j :: 0 <= i < j < |items| ==> items[i].dest != items[j].dest) && i < |items| && !w.dryRun
    ensures var (item, run, dry) := (items[i], Verdicts(items, files, w)[i], Verdicts(items, files, w.(dryRun := true))[i]);
            var tries := item.root == "pack" && item.member.Some? && !w.noRefetch && item.size > 0 && Bytes(item, w).None?;
            && (dry == WouldRefetch <==> tries)
            && (dry != run <==> tries || (run == Refetched && dry == Missing))
            && (run == Refetched && dry == Missing ==> item.root in {"torrent_import", "site", "local"})
  {
    RunAt(items, files, w, i);
    RunAt(items, files, w.(dryRun := true), i);
    hide Run, Verdicts;
    ForecastsOne(items[i], files, w);
  }

  lemma ForecastsOne(item: Item, files: Files, w: World)
    requires !w.dryRun
    ensures var (run, dry) := (Processed(item, files, w).verdict, Processed(item, files, w.(dryRun := true)).verdict);
            var tries := item.root == "pack" && item.member.Some? && !w.noRefetch && item.size > 0 && Bytes(item, w).None?;
            && (dry == WouldRefetch <==> tries)
            && (dry != run <==> tries || (run == Refetched && dry == Missing))
            && (run == Refetched && dry == Missing ==> item.root in {"torrent_import", "site", "local"})
  {
    if HasAuthority(item.root) {
      hide Verified, Mirrored, RefetchMember;
    } else if IsPrestaged(item.root, w) {
      hide Decided, Mirrored, Refetch;
    } else {
      hide Verified, Decided;
    }
  }
}
