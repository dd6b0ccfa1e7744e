/** Any number of migrations: when the accumulated document maps the id a post was born with to the id it has now. */
module MigrationHistory {
  import opened Sequences
  import opened Outcomes
  import opened Json
  import opened Catalogue
  import opened PostMigration
  import opened MigrationDocument
  import Guard = ManifestGuard

  // ----- posts that share an id -----

  /** Ids derived from the first member, for the instances below. */
  function FirstMember(members: seq<string>, other: Record): Option<string> {
    if members == [] || members[0] == "" then None else Some(members[0])
  }

  function Bundle(id: string, member: string): Post {
    Post(id, [member], map["post_kind" := Text("multi_asset")])
  }

  function IdsOf(posts: seq<Post>): (ids: seq<string>)
    ensures |ids| == |posts| && forall k :: 0 <= k < |posts| ==> ids[k] == posts[k].id
  {
    seq(|posts|, k requires 0 <= k < |posts| => posts[k].id)
  }

  function Applied(posts: seq<Post>, derive: Derivation): seq<Post> {
    AllMoved(posts, OldIds(Planned(posts, derive)), derive)
  }

  /** The tool writes: the plan resolves and is safe. */
  ghost predicate Writes(posts: seq<Post>, derive: Derivation) {
    Resolvable(posts, derive) && UniquePosts(Applied(posts, derive))
  }

  /** No content derives the empty id. */
  ghost predicate DerivesIds(derive: Derivation) {
    forall members, other :: derive(members, other) != Some("")
  }

  lemma {:induction false} PlannedOnce(posts: seq<Post>, derive: Derivation)
    requires forall i, j :: 0 <= i < j < |posts| ==> IdAfter(posts[i], derive) != IdAfter(posts[j], derive)
    ensures Distinct(Planned(posts, derive))
    decreases |posts|
  {
    if posts != [] {
      var n := |posts| - 1;
      PlannedOnce(posts[..n], derive);
      var rest := Planned(posts[..n], derive);
      forall m | m in rest && MoveOf(posts[n], derive) == [m] ensures false {
        NotPlannedTwice(posts, derive, m);
      }
    }
  }

  lemma NotPlannedTwice(posts: seq<Post>, derive: Derivation, m: Move)
    requires posts != [] && forall i, j :: 0 <= i < j < |posts| ==> IdAfter(posts[i], derive) != IdAfter(posts[j], derive)
    requires MoveOf(posts[|posts| - 1], derive) == [m]
    ensures m !in Planned(posts[..|posts| - 1], derive)
  {
    var n := |posts| - 1;
    PlannedMembers(posts[..n], derive, m);
    hide IdAfter, Planned;
    forall p | p in posts[..n] ensures MoveOf(p, derive) != [m] {
      var k :| 0 <= k < n && posts[k] == p;
    }
  }

  lemma AppliedIds(posts: seq<Post>, derive: Derivation, k: nat)
    requires k < |posts|
    ensures |IdsOf(Applied(posts, derive))| == |posts| && IdsOf(Applied(posts, derive))[k] == IdAfter(posts[k], derive)
  {
    AppliedPlan(posts, derive, k);
  }

  lemma PlanMovesBetween(posts: seq<Post>, derive: Derivation, m: Move)
    ensures m in Planned(posts, derive) <==> Differ(IdsOf(posts), IdsOf(Applied(posts, derive)), m)
  {
    var (ids, after, planned) := (IdsOf(posts), IdsOf(Applied(posts, derive)), Planned(posts, derive));
    hide Planned, Applied, IdAfter;
    PlannedMembers(posts, derive, m);
    forall k | 0 <= k < |posts| ensures k < |after| && after[k] == IdAfter(posts[k], derive) {
      AppliedIds(posts, derive, k);
    }
    if m in planned {
      var p :| p in posts && MoveOf(p, derive) == [m];
      var k :| 0 <= k < |posts| && posts[k] == p;
      assert ids[k] != after[k] && m == Move(ids[k], after[k]);
    }
    if Differ(ids, after, m) {
      var k :| 0 <= k < |ids| && k < |after| && ids[k] != after[k] && m == Move(ids[k], after[k]);
      assert posts[k] in posts && MoveOf(posts[k], derive) == [m];
    }
  }

  lemma PlannedNamed(posts: seq<Post>, derive: Derivation, m: Move)
    requires DerivesIds(derive) && m in Planned(posts, derive)
    ensures m.newId != ""
  {
    PlannedMembers(posts, derive, m);
  }

  /** What the tool writes is a safe plan. */
  lemma WrittenIsPlan(posts: seq<Post>, derive: Derivation)
    requires Writes(posts, derive) && DerivesIds(derive)
    ensures PlanOf(IdsOf(posts), IdsOf(Applied(posts, derive)), Planned(posts, derive))
  {
    hide Planned, Applied, IdAfter, Differ, Resolvable, DerivesIds;
    var (ids, after, planned) := (IdsOf(posts), IdsOf(Applied(posts, derive)), Planned(posts, derive));
    forall k | 0 <= k < |posts| ensures |after| == |posts| && after[k] == IdAfter(posts[k], derive) {
      AppliedIds(posts, derive, k);
    }
    SameCount(posts, derive);
    PlannedOnce(posts, derive);
    forall m | m in planned ensures m.newId != "" {
      PlannedNamed(posts, derive, m);
    }
    forall m ensures m in planned <==> Differ(ids, after, m) {
      PlanMovesBetween(posts, derive, m);
    }
  }

  lemma SameCount(posts: seq<Post>, derive: Derivation)
    ensures |Applied(posts, derive)| == |posts|
  {
  }

  /** A first migration leaves a usable document exactly if no two posts share an id, no post without one moves, and none
      moves onto an id this migration retires. */
  lemma FirstMigrationIff(posts: seq<Post>, derive: Derivation)
    requires Writes(posts, derive) && DerivesIds(derive)
    ensures Usable(IdsOf(Applied(posts, derive)), Accumulated([], Planned(posts, derive))) <==>
            UniquePosts(posts) && NamesOldIds(Planned(posts, derive)) && MovesToFree(Planned(posts, derive), [])
  {
    WrittenIsPlan(posts, derive);
    NothingRecorded(IdsOf(posts));
    MigrationUsableIff(IdsOf(posts), IdsOf(Applied(posts, derive)), [], Planned(posts, derive));
    hide Usable, Applied, Accumulated, MovesToFree, NamesOldIds;
    assert UniquePosts(posts) <==> SharedAreTargets(IdsOf(posts), []) by {
      if SharedAreTargets(IdsOf(posts), []) {
        forall i, j | 0 <= i < j < |posts| ensures posts[i].id != posts[j].id {
          assert IdsOf(posts)[i] == posts[i].id && IdsOf(posts)[j] == posts[j].id;
        }
      }
    }
  }

  lemma NothingRecorded(ids: seq<string>)
    ensures Tracks(ids, ids, [])
  {
  }

  lemma FirstMemberDerives()
    ensures DerivesIds(FirstMember)
  {
  }

  /** Two posts of one id. */
  const SHARED := [Bundle("a", "x"), Bundle("a", "y")]

  lemma SharedPlan()
    ensures Planned(SHARED, FirstMember) == [Move("a", "x"), Move("a", "y")] && Resolvable(SHARED, FirstMember)
  {
    var posts := SHARED;
    assert posts[..1][..0] == [] && posts[..1] == [posts[0]];
    assert MoveOf(posts[0], FirstMember) == [Move("a", "x")] && MoveOf(posts[1], FirstMember) == [Move("a", "y")];
    assert Planned(posts[..1], FirstMember) == [Move("a", "x")];
  }

  lemma SharedApplied()
    ensures IdsOf(SHARED) == ["a", "a"] && IdsOf(Applied(SHARED, FirstMember)) == ["x", "y"] && UniquePosts(Applied(SHARED, FirstMember))
  {
    AppliedIds(SHARED, FirstMember, 0);
    AppliedIds(SHARED, FirstMember, 1);
    SameCount(SHARED, FirstMember);
    hide Applied;
    assert IdsOf(SHARED) == ["a", "a"];
    assert IdsOf(Applied(SHARED, FirstMember)) == ["x", "y"];
  }

  /** Their first migration is safe and moves them onto free ids, and the document it leaves cannot be read. */
  lemma SharedOldId()
    ensures var planned := Planned(SHARED, FirstMember);
            && Writes(SHARED, FirstMember) && planned == [Move("a", "x"), Move("a", "y")] && MovesToFree(planned, [])
            && !OneToOne(Accumulated([], planned))
  {
    var (a, b) := (Move("a", "x"), Move("a", "y"));
    SharedPlan();
    SharedApplied();
    AccumulatedIs([], [a, b], a);
    AccumulatedIs([], [a, b], b);
    hide Accumulated, Planned, Applied, Resolvable, UniquePosts;
    if OneToOne(Accumulated([], [a, b])) { OneTarget(Accumulated([], [a, b]), a, b); }
  }

  /** The same posts where the first came as "b", and the document records it: the migration is safe and the document can
      be read and agrees with the posts, but it sends "b" to the post that came as "a". */
  lemma LostHop()
    ensures var (births, document) := (["b", "a"], [Move("b", "a")]);
            var (planned, after) := (Planned(SHARED, FirstMember), IdsOf(Applied(SHARED, FirstMember)));
            var next := Accumulated(document, planned);
            && Tracks(births, IdsOf(SHARED), document) && Writes(SHARED, FirstMember) && after == ["x", "y"]
            && next == [Move("b", "y")] && Usable(after, next) && !Tracks(births, after, next)
  {
    SharedPlan();
    SharedApplied();
    LostDocument();
    LostTracks();
    LostUsable();
    hide Accumulated, Planned, Applied, Resolvable, UniquePosts, Tracks, Usable;
  }

  lemma LostDocument()
    ensures Accumulated([Move("b", "a")], [Move("a", "x"), Move("a", "y")]) == [Move("b", "y")]
  {
    var (document, planned) := ([Move("b", "a")], [Move("a", "x"), Move("a", "y")]);
    assert HopFrom(planned, "a") == Some("y");
    assert document[1..] == [] && Chained(document, planned) == {"a"};
    assert planned[..1][..0] == [] && planned[..1] == [planned[0]];
    assert Unchained(planned[..1], {"a"}) == [];
    assert AllComposed(document, planned) + [] == [Move("b", "y")];
    assert [Move("b", "y")][1..] == [];
  }

  lemma LostTracks()
    ensures Tracks(["b", "a"], ["a", "a"], [Move("b", "a")])
  {
    var (births, ids, document) := (["b", "a"], ["a", "a"], [Move("b", "a")]);
    UsableIs(ids, document);
    assert births[0] != ids[0] && births[1] == ids[1] && Move(births[0], ids[0]) == document[0];
    hide Usable;
    assert ids[0] in ids;
    assert document[0].oldId !in ids;
    assert OneToOne(document);
  }

  lemma LostUsable()
    ensures Usable(["x", "y"], [Move("b", "y")]) && !Tracks(["b", "a"], ["x", "y"], [Move("b", "y")])
  {
    var (births, after, next) := (["b", "a"], ["x", "y"], [Move("b", "y")]);
    UsableIs(after, next);
    hide Usable;
    assert after[1] in after && OneToOne(next);
    assert births[0] != after[0] && Move(births[0], after[0]) !in next;
    assert Differ(births, after, Move(births[0], after[0]));
  }

  /** A post born "a", recorded as moved to "b", moves back: a safe plan, and a document that cannot be read. */
  lemma MovedBack()
    ensures var (posts, document) := ([Bundle("b", "a")], [Move("a", "b")]);
            var planned := Planned(posts, FirstMember);
            && Tracks(["a"], IdsOf(posts), document) && Writes(posts, FirstMember) && planned == [Move("b", "a")]
            && !MovesToFree(planned, document) && !OneToOne(Accumulated(document, planned))
  {
    var (document, planned) := ([Move("a", "b")], [Move("b", "a")]);
    BackPlan([Bundle("b", "a")]);
    BackTracks();
    assert Composed(document[0], planned) == Move("a", "a") by { assert HopFrom(planned, "b") == Some("a"); }
    hide Planned, Applied, Tracks, Resolvable, UniquePosts, Accumulated, OldIds, Composed;
    AccumulatedIs(document, planned, Move("a", "a"));
    NoSelfMove(Accumulated(document, planned));
    BackIsTaken();
  }

  lemma BackPlan(posts: seq<Post>)
    requires posts == [Bundle("b", "a")]
    ensures Planned(posts, FirstMember) == [Move("b", "a")] && Resolvable(posts, FirstMember) && IdsOf(posts) == ["b"]
    ensures UniquePosts(Applied(posts, FirstMember))
  {
    assert posts[..0] == [];
    assert |Applied(posts, FirstMember)| == 1;
  }

  lemma BackTracks()
    ensures Tracks(["a"], ["b"], [Move("a", "b")])
  {
    var (births, ids, document) := (["a"], ["b"], [Move("a", "b")]);
    UsableIs(ids, document);
    assert births[0] != ids[0] && Move(births[0], ids[0]) == document[0];
    hide Usable;
    assert ids[0] in ids;
    assert OneToOne(document);
  }

  lemma BackIsTaken()
    ensures !MovesToFree([Move("b", "a")], [Move("a", "b")])
  {
    assert [Move("a", "b")][0].oldId == "a" && [Move("b", "a")][0].newId == "a";
  }

  lemma NoSelfMove(document: seq<Move>)
    ensures Move("a", "a") in document ==> !OneToOne(document)
  {
  }

  // ----- histories -----

  /** The posts, the ids they came with, and the document kept beside them. */
  datatype History = History(posts: seq<Post>, births: seq<string>, document: seq<Move>)

  /** What happens to a profile. A migration is written; a post is added; its content is edited, its id kept; a post is
      removed, as the dedupe does; an id is changed by hand or by a collapse, and no document says so. */
  datatype Step =
    | Migrate
    | Add(post: Post)
    | Edit(at: nat, members: seq<string>, other: Record)
    | Remove(at: nat)
    | Rename(at: nat, id: string)

  /** One profile of `main` under `--write`: the plan, its checks, the document, and only then the ids. */
  method WriteMigration(w: Workspace, existing: seq<Move>, derive: Derivation) returns (r: Outcome<seq<Move>>)
    modifies w`posts
    ensures r.Ok? <==> Writes(old(w.posts), derive)
    ensures r.Ok? ==> w.posts == Applied(old(w.posts), derive) && r.value == Accumulated(existing, Planned(old(w.posts), derive))
    ensures !r.Ok? ==> r.Refused? && w.posts == old(w.posts)
  {
    hide UniquePosts, AllMoved, Accumulated, Planned;
    var moves :- Plan(w.posts, derive);
    var problems := CheckSafe(w.posts, moves, derive);
    if problems != [] {
      return Refused;
    }
    var document := AccumulateMoves(existing, moves);
    var changed := Apply(w, moves, derive);
    return Ok(document);
  }

  function Without<T>(s: seq<T>, at: nat): (r: seq<T>)
    requires at < |s|
    ensures |r| == |s| - 1 && forall k :: 0 <= k < |r| ==> r[k] == if k < at then s[k] else s[k + 1]
  {
    s[..at] + s[at + 1..]
  }

  /** A migration that is refused changes nothing. */
  ghost function Next(h: History, step: Step, derive: Derivation): History {
    match step
    case Migrate =>
      if Writes(h.posts, derive) then History(Applied(h.posts, derive), h.births, Accumulated(h.document, Planned(h.posts, derive))) else h
    case Add(post) => History(h.posts + [post], h.births + [post.id], h.document)
    case Edit(at, members, other) =>
      if at < |h.posts| then h.(posts := h.posts[at := Post(h.posts[at].id, members, other)]) else h
    case Remove(at) =>
      if at < |h.posts| && at < |h.births| then History(Without(h.posts, at), Without(h.births, at), h.document) else h
    case Rename(at, id) =>
      if at < |h.posts| then h.(posts := h.posts[at := h.posts[at].(id := id)]) else h
  }

  ghost predicate Tracked(h: History) {
    Tracks(h.births, IdsOf(h.posts), h.document)
  }

  /** What has to hold of a step, looking at the history before it. Nothing in the tools looks at any of this. */
  ghost predicate Allowed(h: History, step: Step, derive: Derivation)
    requires |h.births| == |h.posts|
  {
    match step
    case Migrate =>
      Writes(h.posts, derive) ==>
        && MovesToFree(Planned(h.posts, derive), h.document) && NamesOldIds(Planned(h.posts, derive))
        && SharedApart(h.births, IdsOf(h.posts), IdsOf(Applied(h.posts, derive)))
    case Add(post) => post.id !in OldIds(h.document)
    case Edit(_, _, _) => true
    case Remove(at) => at < |h.posts| && h.births[at] != h.posts[at].id ==> Repeated(h.births, IdsOf(h.posts), at)
    case Rename(at, id) => at < |h.posts| ==> id == h.posts[at].id
  }

  /** Another post came with the same id and has the same id now. */
  ghost predicate Repeated(births: seq<string>, ids: seq<string>, at: nat)
    requires |births| == |ids| && at < |ids|
  {
    exists k :: 0 <= k < |ids| && k != at && births[k] == births[at] && ids[k] == ids[at]
  }

  lemma AddTracksIff(births: seq<string>, ids: seq<string>, document: seq<Move>, id: string)
    requires Tracks(births, ids, document)
    ensures Tracks(births + [id], ids + [id], document) <==> id !in OldIds(document)
  {
    var (births', ids') := (births + [id], ids + [id]);
    UsableIs(ids, document);
    UsableIs(ids', document);
    hide Usable, OneToOne;
    forall m ensures Differ(births', ids', m) <==> Differ(births, ids, m) {
      if Differ(births, ids, m) {
        var k :| 0 <= k < |ids| && births[k] != ids[k] && m == Move(births[k], ids[k]);
        assert births'[k] != ids'[k] && m == Move(births'[k], ids'[k]);
      }
    }
    if id !in OldIds(document) {
      forall m | m in document ensures m.newId in ids' && m.oldId !in ids' {
        assert m.newId in ids;
      }
    } else {
      var m :| m in document && m.oldId == id;
      assert ids'[|ids|] == id;
    }
  }

  lemma DifferWithout(births: seq<string>, ids: seq<string>, at: nat, m: Move)
    requires |births| == |ids| && at < |ids|
    ensures Differ(births, ids, m) <==>
            Differ(Without(births, at), Without(ids, at), m) || (births[at] != ids[at] && m == Move(births[at], ids[at]))
  {
    var (births', ids') := (Without(births, at), Without(ids, at));
    if Differ(births, ids, m) {
      var k :| 0 <= k < |ids| && births[k] != ids[k] && m == Move(births[k], ids[k]);
      if k != at { HeldWithout(births, ids, at, k); }
    }
    if Differ(births', ids', m) {
      var k :| 0 <= k < |ids'| && births'[k] != ids'[k] && m == Move(births'[k], ids'[k]);
      var j := if k < at then k else k + 1;
      assert births[j] != ids[j] && m == Move(births[j], ids[j]);
    }
  }

  lemma RemoveTracksIff(births: seq<string>, ids: seq<string>, document: seq<Move>, at: nat)
    requires Tracks(births, ids, document) && at < |ids|
    ensures Tracks(Without(births, at), Without(ids, at), document) <==> (births[at] != ids[at] ==> Repeated(births, ids, at))
  {
    var (births', ids', own) := (Without(births, at), Without(ids, at), Move(births[at], ids[at]));
    UsableIs(ids, document);
    UsableIs(ids', document);
    if births[at] != ids[at] { RepeatedIs(births, ids, at); }
    forall m ensures Differ(births, ids, m) <==> Differ(births', ids', m) || (births[at] != ids[at] && m == own) {
      DifferWithout(births, ids, at, m);
    }
    forall m | Differ(births', ids', m) ensures m.newId in ids' {
    }
    forall id | id in ids' ensures id in ids {
    }
    hide Usable, OneToOne, Differ, Repeated, Without;
    if births[at] != ids[at] && !Differ(births', ids', own) { assert own in document; }
  }

  lemma HeldWithout(births: seq<string>, ids: seq<string>, at: nat, k: nat)
    requires |births| == |ids| && at < |ids| && k < |ids| && k != at && births[k] != ids[k]
    ensures Differ(Without(births, at), Without(ids, at), Move(births[k], ids[k]))
  {
    var j := if k < at then k else k - 1;
    assert Without(births, at)[j] == births[k] && Without(ids, at)[j] == ids[k];
  }

  lemma RepeatedIs(births: seq<string>, ids: seq<string>, at: nat)
    requires |births| == |ids| && at < |ids| && births[at] != ids[at]
    ensures Repeated(births, ids, at) <==> Differ(Without(births, at), Without(ids, at), Move(births[at], ids[at]))
  {
    var (births', ids') := (Without(births, at), Without(ids, at));
    if Repeated(births, ids, at) {
      var k :| 0 <= k < |ids| && k != at && births[k] == births[at] && ids[k] == ids[at];
      HeldWithout(births, ids, at, k);
    }
    if Differ(births', ids', Move(births[at], ids[at])) {
      var k :| 0 <= k < |ids'| && births'[k] != ids'[k] && Move(births[at], ids[at]) == Move(births'[k], ids'[k]);
      var j := if k < at then k else k + 1;
      assert births[j] == births[at] && ids[j] == ids[at];
    }
  }

  /** No document allows an id to change unrecorded. */
  lemma RenameTracksIff(births: seq<string>, ids: seq<string>, document: seq<Move>, at: nat, id: string)
    requires Tracks(births, ids, document) && at < |ids|
    ensures Tracks(births, ids[at := id], document) <==> id == ids[at]
  {
    var renamed := ids[at := id];
    UsableIs(ids, document);
    UsableIs(renamed, document);
    hide Usable;
    var (was, now) := (Move(births[at], ids[at]), Move(births[at], id));
    if id == ids[at] {
      assert renamed == ids;
    } else if Tracks(births, renamed, document) {
      assert renamed[at] == id;
      if births[at] != id { assert Differ(births, renamed, now); }
      if births[at] != ids[at] { assert Differ(births, ids, was); }
      if births[at] != id && births[at] != ids[at] { OneTarget(document, was, now); }
    }
  }

  lemma MigrateTracksIff(h: History, derive: Derivation)
    requires Tracked(h) && DerivesIds(derive)
    ensures Tracked(Next(h, Migrate, derive)) <==> Allowed(h, Migrate, derive)
  {
    if Writes(h.posts, derive) {
      WrittenIsPlan(h.posts, derive);
      MigrationTracksIff(h.births, IdsOf(h.posts), IdsOf(Applied(h.posts, derive)), h.document, Planned(h.posts, derive));
    }
    hide Writes, Applied, Accumulated, Planned, Tracks, MovesToFree, SharedApart, DerivesIds;
  }

  /** One step, exactly. */
  lemma StepTracksIff(h: History, step: Step, derive: Derivation)
    requires Tracked(h) && DerivesIds(derive)
    ensures Tracked(Next(h, step, derive)) <==> Allowed(h, step, derive)
  {
    var ids := IdsOf(h.posts);
    match step
    case Migrate =>
      MigrateTracksIff(h, derive);
    case Add(post) =>
      AddTracksIff(h.births, ids, h.document, post.id);
      assert IdsOf(h.posts + [post]) == ids + [post.id];
    case Edit(at, _, _) =>
      assert IdsOf(Next(h, step, derive).posts) == ids;
    case Remove(at) =>
      if at < |h.posts| {
        RemoveTracksIff(h.births, ids, h.document, at);
        assert IdsOf(Without(h.posts, at)) == Without(ids, at);
      }
    case Rename(at, id) =>
      if at < |h.posts| {
        RenameTracksIff(h.births, ids, h.document, at, id);
        assert IdsOf(Next(h, step, derive).posts) == ids[at := id];
      }
  }

  /** Every history along the run is tracked. */
  ghost predicate AllTracked(h: History, steps: seq<Step>, derive: Derivation)
    decreases |steps|
  {
    Tracked(h) && (steps == [] || AllTracked(Next(h, steps[0], derive), steps[1..], derive))
  }

  /** Every step of the run is allowed where it is taken. */
  ghost predicate AllAllowed(h: History, steps: seq<Step>, derive: Derivation)
    decreases |steps|
  {
    steps == [] || (|h.births| == |h.posts| && Allowed(h, steps[0], derive) && AllAllowed(Next(h, steps[0], derive), steps[1..], derive))
  }

  ghost function After(h: History, steps: seq<Step>, derive: Derivation): History
    decreases |steps|
  {
    if steps == [] then h else After(Next(h, steps[0], derive), steps[1..], derive)
  }

  lemma {:induction false} RunTracksIff(h: History, steps: seq<Step>, derive: Derivation)
    requires Tracked(h) && DerivesIds(derive)
    ensures AllTracked(h, steps, derive) <==> AllAllowed(h, steps, derive)
    ensures AllTracked(h, steps, derive) ==> Tracked(After(h, steps, derive))
    decreases |steps|
  {
    TrackedLengths(h);
    hide Tracked, Allowed, Next, DerivesIds;
    if steps != [] {
      StepTracksIff(h, steps[0], derive);
      if Tracked(Next(h, steps[0], derive)) {
        RunTracksIff(Next(h, steps[0], derive), steps[1..], derive);
      } else {
        assert !AllTracked(Next(h, steps[0], derive), steps[1..], derive);
      }
    }
  }

  lemma TrackedLengths(h: History)
    requires Tracked(h)
    ensures |h.births| == |h.posts|
  {
    hide Usable;
  }

  /** Over any run of migrations, additions, edits, removals and renames, from any profile that has never migrated, shared
      ids or not: every document along the run parses, agrees with the posts and records exactly the posts that have moved,
      if and only if every step is allowed. Then the last one maps the id every post came with to the id it has now, the
      unmoved to nothing. */
  lemma HistoryIsRecorded(posts: seq<Post>, steps: seq<Step>, derive: Derivation)
    requires DerivesIds(derive)
    ensures var start := History(posts, IdsOf(posts), []);
            && (AllTracked(start, steps, derive) <==> AllAllowed(start, steps, derive))
            && (AllAllowed(start, steps, derive) ==>
                  var h := After(start, steps, derive);
                  && OneToOne(h.document) && Guard.MovesDescribe(Mapping(h.document), IdSet(IdsOf(h.posts)))
                  && |h.births| == |h.posts|
                  && (forall k :: 0 <= k < |h.posts| ==>
                        if h.births[k] == h.posts[k].id then h.births[k] !in Mapping(h.document)
                        else h.births[k] in Mapping(h.document) && Mapping(h.document)[h.births[k]] == h.posts[k].id))
  {
    var start := History(posts, IdsOf(posts), []);
    NothingRecorded(IdsOf(posts));
    RunTracksIff(start, steps, derive);
    if AllAllowed(start, steps, derive) {
      var h := After(start, steps, derive);
      TrackedLengths(h);
      TrackedDescribes(h.births, IdsOf(h.posts), h.document);
      hide AllTracked, AllAllowed, After, Mapping, OneToOne, DerivesIds;
    }
  }

  /** So the publish guard finds, for a post published before the chain of migrations began, the post it is now. */
  lemma GuardFollowsHistory(h: History, k: nat, d: Record, source: map<Json, Record>)
    requires Tracked(h) && k < |h.posts| && source.Keys == IdSet(IdsOf(h.posts))
    ensures |h.births| == |h.posts|
    ensures Guard.FateOf(Text(h.births[k]), d, source, Mapping(h.document), map[]) ==
            if h.births[k] == h.posts[k].id then Guard.Kept(source[Text(h.posts[k].id)])
            else Guard.Moved(h.posts[k].id, source[Text(h.posts[k].id)])
  {
    TrackedLengths(h);
    TrackedDescribes(h.births, IdsOf(h.posts), h.document);
    MappingMembers(h.document);
    hide Mapping;
    assert IdsOf(h.posts)[k] in IdsOf(h.posts);
  }
}
