/** The in-memory profile and posts that the upgrade passes rewrite in place. */
module Catalogue {
  import opened Sequences
  import opened Json

  /** An asset record: its id, and its other keys. */
  datatype Asset = Asset(id: string, fields: Record)

  /** A post: its id, its members in order (`asset_ids`), and its other keys. */
  datatype Post = Post(id: string, members: seq<string>, other: Record)

  /** The whole record as a JSON object. */
  function AsJson(a: Asset): Json {
    Object(a.fields["id" := Text(a.id)])
  }

  function AssetIds(profile: seq<Asset>): set<string> {
    set a | a in profile :: a.id
  }

  function PostIds(posts: seq<Post>): set<string> {
    set p | p in posts :: p.id
  }

  /** Indexing by id keeps the last record of an id. */
  function FindAsset(profile: seq<Asset>, id: string): (r: Option<Asset>)
    ensures r.Some? ==> r.value in profile && r.value.id == id
    ensures r.None? <==> id !in AssetIds(profile)
  {
    if profile == [] then None
    else
      var n := |profile| - 1;
      assert profile == profile[..n] + [profile[n]];
      if profile[n].id == id then Some(profile[n]) else FindAsset(profile[..n], id)
  }

  /** The position of the last post of an id, or the number of posts. */
  function LastPost(posts: seq<Post>, id: string): (i: nat)
    ensures i <= |posts| && (i < |posts| <==> id in PostIds(posts))
    ensures i < |posts| ==> posts[i].id == id && forall j :: i < j < |posts| ==> posts[j].id != id
  {
    if posts == [] then 0
    else
      var n := |posts| - 1;
      assert posts == posts[..n] + [posts[n]];
      if posts[n].id == id then n
      else if LastPost(posts[..n], id) < n then LastPost(posts[..n], id) else n + 1
  }

  /** The position of the last asset of an id, or the number of assets. */
  function LastAsset(profile: seq<Asset>, id: string): (i: nat)
    ensures i <= |profile| && (i < |profile| <==> id in AssetIds(profile))
    ensures i < |profile| ==> profile[i].id == id && forall j :: i < j < |profile| ==> profile[j].id != id
  {
    if profile == [] then 0
    else
      var n := |profile| - 1;
      assert profile == profile[..n] + [profile[n]];
      if profile[n].id == id then n
      else if LastAsset(profile[..n], id) < n then LastAsset(profile[..n], id) else n + 1
  }

  ghost predicate UniquePosts(posts: seq<Post>) {
    forall i, j :: 0 <= i < j < |posts| ==> posts[i].id != posts[j].id
  }

  ghost predicate UniqueAssets(profile: seq<Asset>) {
    forall i, j :: 0 <= i < j < |profile| ==> profile[i].id != profile[j].id
  }

  /** The two lists a run works on. */
  class Workspace {
    var profile: seq<Asset>
    var posts: seq<Post>

    constructor (profile: seq<Asset>, posts: seq<Post>)
      ensures this.profile == profile && this.posts == posts
    {
      this.profile, this.posts := profile, posts;
    }
  }

  lemma {:induction false} FindAssetUnique(profile: seq<Asset>, i: nat)
    requires UniqueAssets(profile) && i < |profile|
    ensures FindAsset(profile, profile[i].id) == Some(profile[i])
  {
    var n := |profile| - 1;
    if i < n { FindAssetUnique(profile[..n], i); }
  }

  lemma LastPostUnique(posts: seq<Post>, i: nat)
    requires UniquePosts(posts) && i < |posts|
    ensures LastPost(posts, posts[i].id) == i
  {
    assert posts[i].id in PostIds(posts);
  }
}
