/** What each pass of the upgrade writes into the records it names, key by key, and that it writes nothing else. */
module UpgradeWrites {
  import opened Sequences
  import opened Json
  import opened TitleRule
  import opened Catalogue
  import opened UpgradeRecords
  import opened UpgradePasses
  import opened UpgradeMerges
  import opened UpgradeSteady
  import opened UpgradeRun
  import opened UpgradePaths
  import Collapse = AssetCollapse

  // ----- one amendment of one record -----

  /** Position `n` has the one amendment of the list that names the id. */
  ghost predicate OnlyOf(chs: seq<Amendment>, n: nat, id: string) {
    n < |chs| && chs[n].id == id && forall j :: 0 <= j < |chs| && chs[j].id == id ==> j == n
  }

  ghost predicate ComesLast(profile: seq<Asset>, k: nat) {
    k < |profile| && forall j :: k < j < |profile| ==> profile[j].id != profile[k].id
  }

  lemma {:induction false} AlongNothing(id: string, r: Record, chs: seq<Amendment>)
    requires forall j :: 0 <= j < |chs| ==> chs[j].id != id
    ensures Along(id, r, chs) == r
    decreases |chs|
  {
    hide Amended;
    if chs != [] { AlongNothing(id, r, chs[..|chs| - 1]); }
  }

  lemma OnlyAmended(profile: seq<Asset>, chs: seq<Amendment>, k: nat, n: nat)
    requires ComesLast(profile, k) && OnlyOf(chs, n, profile[k].id)
    ensures AmendAll(profile, chs)[k].fields == Amended(chs[n], profile[k].fields)
  {
    AmendLastAt(profile, chs, k);
    AlongLast(profile[k].id, profile[k].fields, chs, n);
    AlongNothing(profile[k].id, profile[k].fields, chs[..n]);
    hide AmendAll, Along, Amended;
  }

  /** A pass leaves alone every record it does not name, and of several records of one id all but the last. */
  lemma OthersUntouched(profile: seq<Asset>, chs: seq<Amendment>, k: nat)
    requires k < |profile| && (!Names(chs, profile[k].id) || exists j :: k < j < |profile| && profile[j].id == profile[k].id)
    ensures AmendAll(profile, chs)[k] == profile[k]
  {
    AmendLastAt(profile, chs, k);
    if !Names(chs, profile[k].id) {
      forall j | 0 <= j < |chs| ensures chs[j].id != profile[k].id {
        assert chs[j] in chs;
      }
      AlongNothing(profile[k].id, profile[k].fields, chs);
    }
    hide AmendAll, Along;
  }

  /** Outside the keys the two records agree. */
  ghost predicate SameBut(before: Record, after: Record, keys: set<string>) {
    forall key :: key !in keys ==> At(after, key) == At(before, key)
  }

  function MetaAt(r: Record, key: string): Option<Json> {
    if "metadata" in r && r["metadata"].Object? then At(r["metadata"].fields, key) else None
  }

  ghost predicate SameMetaBut(before: Record, after: Record, keys: set<string>) {
    && "metadata" in after && after["metadata"].Object?
    && forall key :: key !in keys ==> MetaAt(after, key) == MetaAt(before, key)
  }

  predicate Says(v: Option<Json>, text: string) {
    v == Some(Text(text))
  }

  // ----- declarations -----

  lemma DeclarationsWrite(profile: seq<Asset>, chs: Declarations, k: nat, n: nat)
    requires ComesLast(profile, k) && OnlyOf(chs, n, profile[k].id)
    ensures var (before, after) := (profile[k].fields, AmendAll(profile, chs)[k].fields);
            assert chs[n] in chs;
            At(after, "ai_provenance") == Some(chs[n].provenance) && SameBut(before, after, {"ai_provenance"})
  {
    OnlyAmended(profile, chs, k, n);
    assert chs[n] in chs;
    hide AmendAll;
  }

  // ----- replacements -----

  /** The record points at the pool file: its path, its name and extension, its size, title, licence; */
  ghost predicate Repoints(before: Record, after: Record, path: string, size: Json, title: string, name: string) {
    && IsAfterLast(path, '/', name)
    && Says(At(after, "file_path"), path) && Says(At(after, "source_root"), "hq") && Says(At(after, "source_path"), name)
    && At(after, "file_size_bytes") == Some(size) && Says(At(after, "title"), title)
    && (exists extension :: IsAfterLast(name, '.', extension) && Says(At(after, "file_extension"), extension))
    && Says(At(after, "license"), "CC0 1.0") && Says(At(after, "attribution"), "Kenney (kenney.nl)")
    && SameBut(before, after, {"file_path", "source_root", "source_path", "file_size_bytes", "file_extension", "title", "license",
                               "attribution", "metadata", "replaced_source_path"})
  }

  /** in its metadata its name, licence and, if the document has one, its hash. */
  ghost predicate RepointsMeta(before: Record, after: Record, sha: string, name: string) {
    && Says(MetaAt(after, "filename"), name) && Says(MetaAt(after, "license"), "CC0 1.0")
    && Says(MetaAt(after, "attribution"), "Kenney (kenney.nl)")
    && (if sha != "" then Says(MetaAt(after, "sha256"), sha) else MetaAt(after, "sha256") == MetaAt(before, "sha256"))
    && SameMetaBut(before, after, {"filename", "license", "attribution", "sha256"})
  }

  lemma ReplacementsWrite(profile: seq<Asset>, chs: Replacements, k: nat, n: nat) returns (name: string)
    requires ComesLast(profile, k) && OnlyOf(chs, n, profile[k].id)
    ensures assert chs[n] in chs;
            Repoints(profile[k].fields, AmendAll(profile, chs)[k].fields, chs[n].path, chs[n].size, chs[n].title, name)
    ensures assert chs[n] in chs; RepointsMeta(profile[k].fields, AmendAll(profile, chs)[k].fields, chs[n].newSha, name)
  {
    assert chs[n] in chs;
    hide *;
    name := AfterLast(chs[n].path, '/');
    OnlyAmended(profile, chs, k, n);
    AmendedIsReplaced(chs[n], profile[k].fields);
    ReplacedRepoints(chs[n], profile[k].fields);
    ReplacedRepointsMeta(chs[n], profile[k].fields);
  }

  lemma AmendedIsReplaced(ch: Amendment, r: Record)
    requires ch.Replace?
    ensures Amended(ch, r) == Replaced(ch, r)
  {
  }

  lemma ReplacedRepoints(ch: Amendment, r: Record)
    requires ch.Replace?
    ensures Repoints(r, Replaced(ch, r), ch.path, ch.size, ch.title, AfterLast(ch.path, '/'))
  {
    var (name, after) := (AfterLast(ch.path, '/'), Replaced(ch, r));
    var extension := AfterLast(name, '.');
    AfterLastIff(ch.path, '/', name);
    AfterLastIff(name, '.', extension);
    assert after["file_extension"] == Text(extension);
    hide AfterLast, IsAfterLast, ReplacedMeta;
    assert IsAfterLast(name, '.', extension) && Says(At(after, "file_extension"), extension);
  }

  lemma ReplacedRepointsMeta(ch: Amendment, r: Record)
    requires ch.Replace?
    ensures RepointsMeta(r, Replaced(ch, r), ch.newSha, AfterLast(ch.path, '/'))
  {
    assert Replaced(ch, r)["metadata"] == Object(ReplacedMeta(ch, r));
    hide AfterLast, Replaced;
    assert forall key :: MetaAt(r, key) == At(Meta(r), key);
  }

  // ----- fills -----

  predicate IsNothing(v: Option<Json>) {
    v.None? || v.value == Null || v.value == Text("") || v.value == List([]) || v.value == Object(map[])
  }

  /** A value goes where there is none or an empty one; an object goes one level down, into an object or where there is
      nothing at all. Whatever is there stays. */
  ghost predicate Fills(before: Option<Json>, after: Option<Json>, v: Json) {
    if !v.Object? then after == if IsNothing(before) then Some(v) else before
    else if before.Some? && !before.value.Object? then after == before
    else
      var held := if before.Some? then before.value.fields else map[];
      && after.Some? && after.value.Object?
      && forall key :: At(after.value.fields, key) ==
           if key in v.fields && IsNothing(At(held, key)) then At(v.fields, key) else At(held, key)
  }

  lemma FillsWrite(profile: seq<Asset>, chs: Fills, k: nat, n: nat)
    requires ComesLast(profile, k) && OnlyOf(chs, n, profile[k].id)
    ensures var (before, after) := (profile[k].fields, AmendAll(profile, chs)[k].fields);
            assert chs[n] in chs;
            && SameBut(before, after, chs[n].values.Keys)
            && forall key :: key in chs[n].values ==> Fills(At(before, key), At(after, key), chs[n].values[key])
  {
    OnlyAmended(profile, chs, k, n);
    assert chs[n] in chs;
    var (r, values) := (profile[k].fields, chs[n].values);
    hide AmendAll, Fills;
    forall key | key in values ensures Fills(At(r, key), At(Filled(r, values), key), values[key]) {
      ValueFills(At(r, key), values[key]);
      hide FilledValue;
    }
  }

  lemma ValueFills(held: Option<Json>, v: Json)
    ensures Fills(held, Some(FilledValue(held, v)), v)
  {
  }

  // ----- staged measurements -----

  /** The measured size and hash, and beside a size that was wrong what the origin served. */
  ghost predicate Measures(before: Record, after: Record, bytes: Json, origin: Option<Json>, sha: string) {
    && Get(after, "file_size_bytes") == bytes && SameBut(before, after, {"file_size_bytes", "metadata"})
    && (if sha != "" then Says(MetaAt(after, "sha256"), sha) else MetaAt(after, "sha256") == MetaAt(before, "sha256"))
    && (if origin.Some? && Get(before, "file_size_bytes") != bytes then MetaAt(after, "origin_bytes") == origin
        else MetaAt(after, "origin_bytes") == MetaAt(before, "origin_bytes"))
    && SameMetaBut(before, after, {"sha256", "origin_bytes"})
  }

  lemma StagedWrite(profile: seq<Asset>, chs: Stagings, k: nat, n: nat)
    requires ComesLast(profile, k) && OnlyOf(chs, n, profile[k].id)
    ensures assert chs[n] in chs;
            Measures(profile[k].fields, AmendAll(profile, chs)[k].fields, chs[n].bytes, chs[n].origin, chs[n].sha)
  {
    OnlyAmended(profile, chs, k, n);
    assert chs[n] in chs;
    hide AmendAll, Measures;
    StagedMeasures(chs[n], profile[k].fields);
  }

  lemma StagedMeasures(ch: Amendment, r: Record)
    requires ch.Stage?
    ensures Amended(ch, r) == Staged(ch, r) && Measures(r, Staged(ch, r), ch.bytes, ch.origin, ch.sha)
  {
  }

  // ----- merges -----

  /** A held record that a merge document names gets its media URL, if it has none and the document has one. */
  ghost predicate RepairsUrl(before: Record, after: Record, url: Option<Json>) {
    && SameBut(before, after, {"metadata"}) && (MetaAt(before, "media_url") != MetaAt(after, "media_url") ==> SameMetaBut(before, after, {"media_url"}))
    && (forall key :: key != "media_url" ==> MetaAt(after, key) == MetaAt(before, key))
    && MetaAt(after, "media_url") ==
       if !IsNothing(url) && url != Some(Scalar(0.0)) && (IsNothing(MetaAt(before, "media_url")) || MetaAt(before, "media_url") == Some(Scalar(0.0)))
       then url else MetaAt(before, "media_url")
  }

  lemma MergeRepairs(profile: seq<Asset>, assets: seq<Asset>, k: nat, n: nat)
    requires ComesLast(profile, k) && n < |assets| && assets[n].id == profile[k].id
    requires forall j :: 0 <= j < |assets| && assets[j].id == profile[k].id ==> j == n
    ensures k < |Merged(profile, assets)| && Merged(profile, assets)[k].id == profile[k].id
    ensures RepairsUrl(profile[k].fields, Merged(profile, assets)[k].fields, MetaAt(assets[n].fields, "media_url"))
  {
    OnlyAmended(profile, RepairsOf(assets), k, n);
    hide AmendAll, RepairsUrl, Appended;
    RepairIs(assets[n], profile[k].fields);
  }

  lemma RepairIs(a: Asset, r: Record)
    ensures RepairsUrl(r, Amended(RepairOf(a), r), MetaAt(a.fields, "media_url"))
  {
  }

  /** A record brought in keeps its own path; without one it is staged at the destination, under the path it is published at. */
  ghost predicate Arrives(a: Asset, e: Asset) {
    if HasPath(a.fields) then e == a
    else e.id == a.id && SameBut(a.fields, e.fields, {"source_root", "source_path"})
         && Says(At(e.fields, "source_root"), "site") && Get(e.fields, "source_path") == Get(a.fields, "file_path")
  }

  /** The title has a comma or an em dash in it. */
  predicate IsMarked(a: Asset) {
    "title" in a.fields && a.fields["title"].Text? && HasMark(a.fields["title"].text)
  }

  ghost predicate IsNew(profile: seq<Asset>, a: Asset) {
    forall e :: e in profile ==> e.id != a.id
  }

  /** The merge, exactly: refused when a record it would bring in has a comma or an em dash in its title; otherwise the records
      brought in come after those held. */
  lemma MergeBrings(profile: seq<Asset>, assets: seq<Asset>)
    ensures MergeRefused(profile, assets) <==> exists a :: a in assets && IsNew(profile, a) && IsMarked(a)
    ensures |Merged(profile, assets)| >= |profile|
    ensures forall e :: e in Merged(profile, assets)[|profile|..] ==> exists a :: a in assets && IsNew(profile, a) && Arrives(a, e)
    ensures forall a :: a in assets && IsNew(profile, a) ==> exists e :: e in Merged(profile, assets)[|profile|..] && Arrives(a, e)
  {
    var (ids, news) := (AssetIds(profile), Appended(AssetIds(profile), assets));
    assert Merged(profile, assets)[|profile|..] == news;
    forall a: Asset ensures a.id !in ids <==> IsNew(profile, a) {
    }
    hide *;
    forall a ensures TitleRefused(a) <==> IsMarked(a) {
      RefusedIff(a);
    }
    RefusedAre(profile, assets);
    forall e | e in news ensures exists a :: a in assets && IsNew(profile, a) && Arrives(a, e) {
      AppendedMembers(ids, assets, e);
      var a :| a in assets && a.id !in ids && e == Provenanced(a);
      ProvenancedArrives(a);
    }
    forall a | a in assets && IsNew(profile, a) ensures exists e :: e in news && Arrives(a, e) {
      AppendedMembers(ids, assets, Provenanced(a));
      ProvenancedArrives(a);
    }
  }

  lemma RefusedAre(profile: seq<Asset>, assets: seq<Asset>)
    ensures MergeRefused(profile, assets) <==> exists a :: a in assets && a.id !in AssetIds(profile) && TitleRefused(a)
  {
    hide TitleRefused, AssetIds;
  }

  lemma RefusedIff(a: Asset)
    ensures TitleRefused(a) <==> IsMarked(a)
  {
    AssetTitleHolds(TextAt(a.fields, "title"));
  }

  lemma ProvenancedArrives(a: Asset)
    ensures Arrives(a, Provenanced(a))
  {
  }

  lemma {:induction false} AppendedMembers(ids: set<string>, assets: seq<Asset>, e: Asset)
    ensures e in Appended(ids, assets) <==> exists a :: a in assets && a.id !in ids && e == Provenanced(a)
    decreases |assets|
  {
    hide Provenanced;
    if assets != [] {
      var n := |assets| - 1;
      AppendedMembers(ids, assets[..n], e);
      assert assets == assets[..n] + [assets[n]];
    }
  }

  /** The post is neither held nor moved away by a substitution. */
  ghost predicate IsBrought(p: Post, posts: seq<Post>, d: Documents) {
    && (forall q :: q in posts ==> q.id != p.id)
    && forall s :: s in Collapse.Substitutions(d.collapse) && s.newId.Some? ==> s.postId != p.id
  }

  lemma BroughtIs(p: Post, posts: seq<Post>, d: Documents)
    ensures IsBrought(p, posts, d) <==> p.id !in PostIds(posts) && p.id !in MovedIds(d)
  {
    hide Collapse.Substitutions;
  }

  /** The posts brought in are those of the documents that are neither held nor moved away; the others are held, or skipped
      and counted. */
  lemma PostsBrought(posts: seq<Post>, d: Documents)
    ensures |AllMergedPosts(posts, d)| >= |posts| && AllMergedPosts(posts, d)[..|posts|] == posts
    ensures forall p :: p in AllMergedPosts(posts, d)[|posts|..] <==> p in d.posts && IsBrought(p, posts, d)
    ensures |AllMergedPosts(posts, d)| - |posts| + SkippedPosts(PostIds(posts), MovedIds(d), d.posts) + HeldPosts(PostIds(posts), d.posts) == |d.posts|
  {
    var (have, moved) := (PostIds(posts), MovedIds(d));
    assert AllMergedPosts(posts, d) == posts + NewPosts(have, moved, d.posts);
    hide *;
    PostsBalance(have, moved, d.posts);
    forall p ensures p in NewPosts(have, moved, d.posts) <==> p in d.posts && IsBrought(p, posts, d) {
      BroughtIs(p, posts, d);
      NewPostsMembers(have, moved, d.posts, p);
    }
  }

  function HeldPosts(have: set<string>, posts: seq<Post>): nat
    decreases |posts|
  {
    if posts == [] then 0 else HeldPosts(have, posts[..|posts| - 1]) + if posts[|posts| - 1].id in have then 1 else 0
  }

  lemma {:induction false} NewPostsMembers(have: set<string>, moved: set<string>, posts: seq<Post>, p: Post)
    ensures p in NewPosts(have, moved, posts) <==> p in posts && p.id !in have && p.id !in moved
    decreases |posts|
  {
    if posts != [] {
      var n := |posts| - 1;
      NewPostsMembers(have, moved, posts[..n], p);
      assert posts == posts[..n] + [posts[n]];
    }
  }

  lemma {:induction false} PostsBalance(have: set<string>, moved: set<string>, posts: seq<Post>)
    ensures |NewPosts(have, moved, posts)| + SkippedPosts(have, moved, posts) + HeldPosts(have, posts) == |posts|
    decreases |posts|
  {
    if posts != [] { PostsBalance(have, moved, posts[..|posts| - 1]); }
  }

  // ----- the curation -----

  /** The dates and the member order the entry names, and nothing else. */
  ghost predicate Curates(before: Post, after: Post, c: Curation) {
    && after.id == before.id
    && after.members == (if c.members.Some? then c.members.value else before.members)
    && (c.createdAt.Some? ==> Get(after.other, "created_at") == c.createdAt.value)
    && (c.updatedAt.Some? ==> Get(after.other, "updated_at") == c.updatedAt.value)
    && (c.createdAt.None? ==> At(after.other, "created_at") == At(before.other, "created_at"))
    && (c.updatedAt.None? ==> At(after.other, "updated_at") == At(before.other, "updated_at"))
    && SameBut(before.other, after.other, {"created_at", "updated_at"})
  }

  lemma {:induction false} CurationWrites(posts: seq<Post>, cs: seq<Curation>, k: nat)
    requires k < |posts| && forall j :: k < j < |posts| ==> posts[j].id != posts[k].id
    requires forall i, j :: 0 <= i < j < |cs| ==> cs[i].id != cs[j].id
    ensures forall c :: c in cs && c.id == posts[k].id ==> Curates(posts[k], CurateAll(posts, cs)[k], c)
    ensures (forall c :: c in cs ==> c.id != posts[k].id) ==> CurateAll(posts, cs)[k] == posts[k]
    decreases |cs|
  {
    hide Curates, Curated, LastPost, PostIds;
    if cs != [] {
      var (n, before) := (|cs| - 1, CurateAll(posts, cs[..|cs| - 1]));
      CurationWrites(posts, cs[..n], k);
      assert cs == cs[..n] + [cs[n]];
      CurationStep(before, cs[n], k);
      CuratedIs(cs[n], posts[k]);
      hide CurateAll;
      forall c | c in cs && c.id == posts[k].id && c != cs[n] ensures c in cs[..n] && cs[n].id != posts[k].id {
        var i :| 0 <= i < n && cs[i] == c;
      }
      forall c | c in cs[..n] ensures c.id != cs[n].id {
        var i :| 0 <= i < n && cs[i] == c;
      }
    }
  }

  lemma CurationStep(posts: seq<Post>, c: Curation, k: nat)
    requires k < |posts| && forall j :: k < j < |posts| ==> posts[j].id != posts[k].id
    ensures CurateOne(posts, c)[k] == if c.id == posts[k].id then Curated(c, posts[k]) else posts[k]
  {
    hide Curated;
    assert posts[k].id in PostIds(posts);
  }

  lemma CuratedIs(c: Curation, p: Post)
    ensures Curates(p, Curated(c, p), c)
  {
  }

  /** Every post counted as curated has one to three values counted as written. */
  lemma {:induction false} ValuesAreOfPosts(posts: seq<Post>, cs: seq<Curation>)
    ensures CuratedPosts(posts, cs) <= CuratedValues(posts, cs) <= 3 * CuratedPosts(posts, cs)
    decreases |cs|
  {
    if cs != [] {
      var n := |cs| - 1;
      ValuesAreOfPosts(posts, cs[..n]);
      var before := CurateAll(posts, cs[..n]);
      var i := LastPost(before, cs[n].id);
      if i < |before| { WrittenIff(cs[n], before[i]); }
      hide Curated, ValuesWritten, LastPost;
      assert CurateAll(posts, cs) == CurateOne(before, cs[n]);
      if i < |before| { assert CurateOne(before, cs[n]) == before[i := Curated(cs[n], before[i])]; }
    }
  }

  lemma WrittenIff(c: Curation, p: Post)
    ensures Curated(c, p) == p <==> ValuesWritten(c, p) == 0
    ensures ValuesWritten(c, p) <= 3
  {
    if Curated(c, p) == p { assert Get(Curated(c, p).other, "created_at") == Get(p.other, "created_at"); }
  }
}
