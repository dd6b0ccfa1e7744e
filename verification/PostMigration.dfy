/** Moving post ids onto the ids their content derives: `seed/scripts/migrate_post_ids.py`, and the reading of the
    document it keeps in `seed/scripts/manifest_guard.py`. */
module PostMigration {
  import opened Sequences
  import opened Outcomes
  import opened Json
  import opened Catalogue
  import opened Sorting
  import Guard = ManifestGuard

  /** The id a post's content derives, from its members and its other keys; nothing when the content cannot be keyed. The
      id itself plays no part. */
  type Derivation = (seq<string>, Record) -> Option<string>

  /** One recorded move. */
  datatype Move = Move(oldId: string, newId: string)

  function OldId(m: Move): string {
    m.oldId
  }

  predicate Migrated(p: Post) {
    Get(p.other, "post_kind") in {Text("team_roundup"), Text("project_sprint"), Text("cinematics_showreel"), Text("multi_asset")}
  }

  function Derived(p: Post, derive: Derivation): Option<string> {
    derive(p.members, p.other)
  }

  predicate Resolvable(posts: seq<Post>, derive: Derivation) {
    forall p :: p in posts && Migrated(p) ==> Derived(p, derive).Some?
  }

  /** The id a post has once everything derives. */
  function IdAfter(p: Post, derive: Derivation): string {
    if Migrated(p) && Derived(p, derive).Some? then Derived(p, derive).value else p.id
  }

  function MoveOf(p: Post, derive: Derivation): seq<Move> {
    if IdAfter(p, derive) == p.id then [] else [Move(p.id, IdAfter(p, derive))]
  }

  function Planned(posts: seq<Post>, derive: Derivation): seq<Move>
    decreases |posts|
  {
    if posts == [] then [] else Planned(posts[..|posts| - 1], derive) + MoveOf(posts[|posts| - 1], derive)
  }

  function OldIds(moves: seq<Move>): set<string> {
    set m | m in moves :: m.oldId
  }

  /** `plan`: every id that moves; a row of a migrated kind that cannot be keyed is fatal. */
  method Plan(posts: seq<Post>, derive: Derivation) returns (r: Outcome<seq<Move>>)
    ensures r == if Resolvable(posts, derive) then Ok(Planned(posts, derive)) else Refused
  {
    var moves: seq<Move> := [];
    for i := 0 to |posts|
      invariant Resolvable(posts[..i], derive) && moves == Planned(posts[..i], derive)
    {
      var p := posts[i];
      assert posts[..i + 1][..i] == posts[..i] && posts[..i + 1] == posts[..i] + [p];
      if Migrated(p) {
        var derived := Derived(p, derive);
        if derived.None? {
          assert p in posts;
          return Refused;
        }
        if derived.value != p.id {
          moves := moves + [Move(p.id, derived.value)];
        }
      }
    }
    assert posts[..|posts|] == posts;
    return Ok(moves);
  }

  lemma {:induction false} PlannedMembers(posts: seq<Post>, derive: Derivation, m: Move)
    ensures m in Planned(posts, derive) <==> exists p :: p in posts && MoveOf(p, derive) == [m]
    decreases |posts|
  {
    if posts != [] {
      var n := |posts| - 1;
      PlannedMembers(posts[..n], derive, m);
      hide MoveOf;
      assert posts == posts[..n] + [posts[n]];
      MovesOnce(posts[n], derive, m);
    }
  }

  lemma MovesOnce(p: Post, derive: Derivation, m: Move)
    ensures m in MoveOf(p, derive) <==> MoveOf(p, derive) == [m]
  {
  }

  // ----- is the plan safe -----

  datatype Problem = StillCollide | ClashWithUnmoved | RowCount

  /** What `apply` makes of one post. */
  function Moved(p: Post, olds: set<string>, derive: Derivation): Post {
    if p.id in olds then p.(id := IdAfter(p, derive)) else p
  }

  function AllMoved(posts: seq<Post>, olds: set<string>, derive: Derivation): (r: seq<Post>)
    ensures |r| == |posts| && forall i :: 0 <= i < |posts| ==> r[i] == Moved(posts[i], olds, derive)
    decreases |posts|
  {
    if posts == [] then []
    else AllMoved(posts[..|posts| - 1], olds, derive) + [Moved(posts[|posts| - 1], olds, derive)]
  }

  /** `check_safe`: no problem exactly when every id is held once after the move. */
  method CheckSafe(posts: seq<Post>, moves: seq<Move>, derive: Derivation) returns (problems: seq<Problem>)
    requires Resolvable(posts, derive) && moves == Planned(posts, derive)
    ensures problems == [] <==> UniquePosts(AllMoved(posts, OldIds(moves), derive))
    ensures ClashWithUnmoved in problems ==> StillCollide in problems
  {
    problems := [];
    var olds := OldIds(moves);
    var after: seq<string> := [];
    for i := 0 to |posts|
      invariant |after| == i && forall j :: 0 <= j < i ==> after[j] == Moved(posts[j], olds, derive).id
    {
      var p := posts[i];
      if p.id in olds && Migrated(p) {
        after := after + [Derived(p, derive).value];
      } else {
        after := after + [p.id];
      }
    }
    CollidesIff(posts, olds, derive, after);
    hide Moved, Planned, IdAfter, AllMoved, UniquePosts;
    if exists i, j :: 0 <= i < j < |after| && after[i] == after[j] {
      problems := problems + [StillCollide];
    }
    var movedNew := set m | m in moves :: m.newId;
    var untouched := set p | p in posts && p.id !in olds :: p.id;
    if movedNew * untouched != {} {
      problems := problems + [ClashWithUnmoved];
      ClashCollides(posts, derive, after);
    }
    if |after| != |posts| {
      problems := problems + [RowCount];
    }
  }

  lemma CollidesIff(posts: seq<Post>, olds: set<string>, derive: Derivation, after: seq<string>)
    requires |after| == |posts| && forall j :: 0 <= j < |posts| ==> after[j] == Moved(posts[j], olds, derive).id
    ensures UniquePosts(AllMoved(posts, olds, derive)) <==> !exists i, j :: 0 <= i < j < |after| && after[i] == after[j]
  {
    hide Moved;
    var moved := AllMoved(posts, olds, derive);
    assert forall j :: 0 <= j < |posts| ==> after[j] == moved[j].id;
  }

  /** A new id that a post staying put already holds is a collision too: the second check adds nothing to the first. */
  lemma ClashCollides(posts: seq<Post>, derive: Derivation, after: seq<string>)
    requires var olds := OldIds(Planned(posts, derive));
             |after| == |posts| && forall j :: 0 <= j < |posts| ==> after[j] == Moved(posts[j], olds, derive).id
    requires exists m, p :: m in Planned(posts, derive) && p in posts && p.id !in OldIds(Planned(posts, derive)) && m.newId == p.id
    ensures exists i, j :: 0 <= i < j < |after| && after[i] == after[j]
  {
    hide Planned;
    var moves := Planned(posts, derive);
    var m, p :| m in moves && p in posts && p.id !in OldIds(moves) && m.newId == p.id;
    PlannedMembers(posts, derive, m);
    var q :| q in posts && MoveOf(q, derive) == [m];
    var i :| 0 <= i < |posts| && posts[i] == q;
    var j :| 0 <= j < |posts| && posts[j] == p;
    assert q.id in OldIds(moves) && i != j && after[i] == after[j];
    if j < i { assert after[j] == after[i]; }
  }

  /** The rows of a migrated kind that hold one of the ids. */
  function MovingRows(posts: seq<Post>, olds: set<string>): nat
    decreases |posts|
  {
    if posts == [] then 0
    else
      var p := posts[|posts| - 1];
      MovingRows(posts[..|posts| - 1], olds) + if Migrated(p) && p.id in olds then 1 else 0
  }

  /** `apply`: the ids are rewritten in place. */
  method Apply(w: Workspace, moves: seq<Move>, derive: Derivation) returns (changed: nat)
    requires Resolvable(w.posts, derive)
    modifies w`posts
    ensures w.posts == AllMoved(old(w.posts), OldIds(moves), derive)
    ensures changed == MovingRows(old(w.posts), OldIds(moves))
  {
    changed := 0;
    var olds := OldIds(moves);
    ghost var posts := w.posts;
    for i := 0 to |w.posts|
      invariant |w.posts| == |posts| && changed == MovingRows(posts[..i], olds)
      invariant forall j :: 0 <= j < |posts| ==> w.posts[j] == if j < i then Moved(posts[j], olds, derive) else posts[j]
    {
      var p := w.posts[i];
      assert p == posts[i] && p in posts && posts[..i + 1][..i] == posts[..i];
      MovedIs(p, olds, derive);
      hide Moved, Migrated, Derived;
      if Migrated(p) && p.id in olds {
        w.posts := w.posts[i := p.(id := Derived(p, derive).value)];
        changed := changed + 1;
      }
    }
    hide Moved;
    assert posts[..|posts|] == posts;
    assert w.posts == AllMoved(posts, olds, derive);
  }

  /** The row is of a derived kind, and some move names its id. */
  ghost predicate RowMoves(p: Post, moves: seq<Move>) {
    HasDerivedId(p.other) && exists m :: m in moves && m.oldId == p.id
  }

  lemma RowMovesIff(p: Post, moves: seq<Move>)
    ensures RowMoves(p, moves) <==> Migrated(p) && p.id in OldIds(moves)
  {
    KindsAre(p);
    hide Migrated, HasDerivedId;
  }

  ghost function MovingAt(posts: seq<Post>, moves: seq<Move>): set<int> {
    set i | 0 <= i < |posts| && RowMoves(posts[i], moves)
  }

  /** What `apply` counts. */
  lemma {:induction false} MovingRowsAre(posts: seq<Post>, moves: seq<Move>)
    ensures MovingRows(posts, OldIds(moves)) == |MovingAt(posts, moves)|
    decreases |posts|
  {
    hide RowMoves, Migrated, OldIds;
    if posts != [] {
      var n := |posts| - 1;
      MovingRowsAre(posts[..n], moves);
      RowMovesIff(posts[n], moves);
      assert MovingAt(posts, moves) == MovingAt(posts[..n], moves) + if RowMoves(posts[n], moves) then {n} else {};
    }
  }

  lemma MovedIs(p: Post, olds: set<string>, derive: Derivation)
    requires Migrated(p) ==> Derived(p, derive).Some?
    ensures Moved(p, olds, derive) == if Migrated(p) && p.id in olds then p.(id := Derived(p, derive).value) else p
  {
  }

  /** With the plan's moves, every post comes to the id it derives. */
  lemma AppliedPlan(posts: seq<Post>, derive: Derivation, i: nat)
    requires i < |posts|
    ensures AllMoved(posts, OldIds(Planned(posts, derive)), derive)[i] == posts[i].(id := IdAfter(posts[i], derive))
  {
    hide Planned;
    if IdAfter(posts[i], derive) != posts[i].id {
      var m := Move(posts[i].id, IdAfter(posts[i], derive));
      PlannedMembers(posts, derive, m);
      assert posts[i] in posts && MoveOf(posts[i], derive) == [m];
    }
  }

  /** The four kinds whose ids are derived, and no others. */
  predicate HasDerivedId(r: Record) {
    "post_kind" in r && r["post_kind"].Text?
    && (|| r["post_kind"].text == "team_roundup" || r["post_kind"].text == "project_sprint"
        || r["post_kind"].text == "cinematics_showreel" || r["post_kind"].text == "multi_asset")
  }

  /** After the plan is applied a post of such a kind has the id its content derives, where it derives one; every other post
      has the id it had. */
  lemma MigratedIds(posts: seq<Post>, derive: Derivation, i: nat)
    requires i < |posts|
    ensures var (p, after) := (posts[i], AllMoved(posts, OldIds(Planned(posts, derive)), derive)[i]);
            var derived := derive(p.members, p.other);
            && after.members == p.members && after.other == p.other
            && after.id == if HasDerivedId(p.other) && derived.Some? then derived.value else p.id
  {
    AppliedPlan(posts, derive, i);
    KindsAre(posts[i]);
    hide AllMoved, Planned, Migrated, HasDerivedId;
  }

  lemma KindsAre(p: Post)
    ensures Migrated(p) <==> HasDerivedId(p.other)
  {
  }

  /** A migration is complete: nothing is left to move, and content is as it was. */
  lemma {:induction false} SecondPlanIsEmpty(posts: seq<Post>, derive: Derivation)
    requires Resolvable(posts, derive)
    ensures var after := AllMoved(posts, OldIds(Planned(posts, derive)), derive);
            && Resolvable(after, derive) && Planned(after, derive) == []
            && (forall i :: 0 <= i < |posts| ==> after[i].members == posts[i].members && after[i].other == posts[i].other)
  {
    var after := AllMoved(posts, OldIds(Planned(posts, derive)), derive);
    forall i | 0 <= i < |posts| ensures after[i] == posts[i].(id := IdAfter(posts[i], derive)) {
      AppliedPlan(posts, derive, i);
    }
    hide Planned, AllMoved;
    forall p | p in after ensures MoveOf(p, derive) == [] {
      var i :| 0 <= i < |after| && after[i] == p;
    }
    NothingPlanned(after, derive);
  }

  lemma {:induction false} NothingPlanned(posts: seq<Post>, derive: Derivation)
    requires forall p :: p in posts ==> MoveOf(p, derive) == []
    ensures Planned(posts, derive) == []
    decreases |posts|
  {
    if posts != [] { NothingPlanned(posts[..|posts| - 1], derive); }
  }

  // ----- the document -----

  /** The move a new plan makes of an id: the last one listed. */
  function HopFrom(planned: seq<Move>, id: string): Option<string>
    decreases |planned|
  {
    if planned == [] then None
    else if planned[|planned| - 1].oldId == id then Some(planned[|planned| - 1].newId)
    else HopFrom(planned[..|planned| - 1], id)
  }

  /** An earlier move, carried on by a planned one of the id it ended at. */
  function Composed(prior: Move, planned: seq<Move>): Move {
    var hop := HopFrom(planned, prior.newId);
    if hop.None? then prior else Move(prior.oldId, hop.value)
  }

  function Chained(existing: seq<Move>, planned: seq<Move>): set<string> {
    set p | p in existing && HopFrom(planned, p.newId).Some? :: p.newId
  }

  function AllComposed(existing: seq<Move>, planned: seq<Move>): (r: seq<Move>)
    ensures |r| == |existing| && forall i :: 0 <= i < |existing| ==> r[i] == Composed(existing[i], planned)
  {
    if existing == [] then [] else [Composed(existing[0], planned)] + AllComposed(existing[1..], planned)
  }

  function Unchained(planned: seq<Move>, chained: set<string>): seq<Move>
    decreases |planned|
  {
    if planned == [] then []
    else
      var m := planned[|planned| - 1];
      Unchained(planned[..|planned| - 1], chained) + if m.oldId in chained then [] else [m]
  }

  function Accumulated(existing: seq<Move>, planned: seq<Move>): seq<Move> {
    SortBy(OldId, AllComposed(existing, planned) + Unchained(planned, Chained(existing, planned)))
  }

  /** The first loop of `accumulate_moves`: every recorded move, carried on. */
  method ComposeAll(existing: seq<Move>, planned: seq<Move>) returns (out: seq<Move>, chained: set<string>)
    ensures out == AllComposed(existing, planned) && chained == Chained(existing, planned)
  {
    hide HopFrom;
    out, chained := [], {};
    for i := 0 to |existing|
      invariant |out| == i && forall j :: 0 <= j < i ==> out[j] == Composed(existing[j], planned)
      invariant chained == Chained(existing[..i], planned)
    {
      var prior := existing[i];
      assert existing[..i + 1] == existing[..i] + [prior];
      var hop := HopFrom(planned, prior.newId);
      if hop.None? {
        out := out + [prior];
      } else {
        chained := chained + {prior.newId};
        out := out + [Move(prior.oldId, hop.value)];
      }
    }
    assert existing[..|existing|] == existing;
  }

  /** `accumulate_moves`: chains are composed, not listed. */
  method AccumulateMoves(existing: seq<Move>, planned: seq<Move>) returns (document: seq<Move>)
    ensures document == Accumulated(existing, planned)
  {
    hide HopFrom, SortBy, AllComposed, Chained;
    var (out, chained) := ([], {});
    out, chained := ComposeAll(existing, planned);
    ghost var composed := out;
    for i := 0 to |planned|
      invariant out == composed + Unchained(planned[..i], chained)
    {
      assert planned[..i + 1][..i] == planned[..i];
      if planned[i].oldId !in chained {
        out := out + [planned[i]];
      }
    }
    assert planned[..|planned|] == planned;
    document := SortBy(OldId, out);
  }

  predicate NamesAMove(m: Move) {
    m.oldId != "" && m.newId != "" && m.oldId != m.newId
  }

  function NewIds(moves: seq<Move>): set<string> {
    set m | m in moves :: m.newId
  }

  /** Whole ids, each moved once and moved to once. */
  ghost predicate Injective(document: seq<Move>) {
    && (forall i :: 0 <= i < |document| ==> NamesAMove(document[i]))
    && (forall i, j :: 0 <= i < j < |document| ==> document[i].oldId != document[j].oldId)
    && (forall i, j :: 0 <= i < j < |document| ==> document[i].newId != document[j].newId)
  }

  /** The checks of `parse_migration_document`: a one-to-one mapping with no id on both sides. */
  ghost predicate OneToOne(document: seq<Move>) {
    Injective(document) && OldIds(document) !! NewIds(document)
  }

  function Mapping(document: seq<Move>): Guard.Moves
    decreases |document|
  {
    if document == [] then map[]
    else Mapping(document[..|document| - 1])[document[|document| - 1].oldId := document[|document| - 1].newId]
  }

  lemma InjectiveSnoc(document: seq<Move>, m: Move)
    ensures Injective(document + [m]) <==>
            Injective(document) && NamesAMove(m) && m.oldId !in OldIds(document) && m.newId !in NewIds(document)
    ensures OldIds(document + [m]) == OldIds(document) + {m.oldId} && NewIds(document + [m]) == NewIds(document) + {m.newId}
  {
    hide NamesAMove;
    var all := document + [m];
    assert all[|document|] == m;
    if Injective(all) {
      forall i | 0 <= i < |document| ensures NamesAMove(document[i]) && document[i].oldId != m.oldId && document[i].newId != m.newId {
        assert all[i] == document[i];
      }
      assert forall i, j :: 0 <= i < j < |document| ==> document[i] == all[i] && document[j] == all[j];
    }
  }

  lemma InjectivePrefix(document: seq<Move>, i: nat)
    requires i <= |document| && Injective(document)
    ensures Injective(document[..i])
  {
    hide NamesAMove;
  }

  /** The loop of `parse_migration_document`. */
  method ParseMigration(document: seq<Move>) returns (r: Outcome<Guard.Moves>)
    ensures r.Ok? <==> OneToOne(document)
    ensures if r.Ok? then r.value == Mapping(document) else r.Refused?
  {
    hide Injective, NamesAMove, NewIds;
    var mapping: Guard.Moves := map[];
    var targets: map<string, string> := map[];
    EmptyIsInjective();
    for i := 0 to |document|
      invariant mapping == Mapping(document[..i]) && mapping.Keys == OldIds(document[..i])
      invariant targets.Keys == NewIds(document[..i]) && Injective(document[..i])
    {
      var m := document[i];
      assert document[..i + 1][..i] == document[..i] && document[..i + 1] == document[..i] + [m];
      InjectiveSnoc(document[..i], m);
      if !NamesAMove(m) || m.oldId in mapping || m.newId in targets {
        if Injective(document) { InjectivePrefix(document, i + 1); }
        return Refused;
      }
      mapping := mapping[m.oldId := m.newId];
      targets := targets[m.newId := m.oldId];
    }
    assert document[..|document|] == document;
    if mapping.Keys !! targets.Keys {
      return Ok(mapping);
    }
    return Refused;
  }

  lemma EmptyIsInjective()
    ensures Injective([]) && NewIds([]) == {}
  {
  }

  /** What the parser accepts, spelled out: whole moves between different ids, no id moved twice, none moved to twice, and no
      chain, that is no new id that is also an old one. */
  lemma OneToOneIff(document: seq<Move>)
    ensures OneToOne(document) <==>
            && (forall m :: m in document ==> m.oldId != "" && m.newId != "" && m.oldId != m.newId)
            && (forall i, j :: 0 <= i < j < |document| ==> document[i].oldId != document[j].oldId && document[i].newId != document[j].newId)
            && (forall m, n :: m in document && n in document ==> m.newId != n.oldId)
  {
    assert OldIds(document) !! NewIds(document) <==> forall m, n :: m in document && n in document ==> m.newId != n.oldId by {
      if m, n :| m in document && n in document && m.newId == n.oldId {
        assert m.newId in OldIds(document) && m.newId in NewIds(document);
      }
      if id :| id in OldIds(document) && id in NewIds(document) {
        var n :| n in document && n.oldId == id;
        var m :| m in document && m.newId == id;
      }
    }
  }

  /** So the mapping it returns maps each old id to the new one, and following it twice is never possible. */
  lemma {:induction false} MappingIsFlat(document: seq<Move>)
    requires OneToOne(document)
    ensures forall m :: m in document ==> m.oldId in Mapping(document) && Mapping(document)[m.oldId] == m.newId
    ensures forall id :: id in Mapping(document) ==> Mapping(document)[id] !in Mapping(document)
  {
    MappingIs(document);
    OneToOneIff(document);
    hide OneToOne;
    var mapping := Mapping(document);
    forall id | id in mapping ensures mapping[id] !in mapping {
      var m :| m in document && m.oldId == id && m.newId == mapping[id];
    }
    forall m | m in document ensures mapping[m.oldId] == m.newId {
      var n :| n in document && n.oldId == m.oldId && n.newId == mapping[m.oldId];
    }
  }

  lemma {:induction false} MappingIs(document: seq<Move>)
    ensures forall id :: id in Mapping(document) ==> exists m :: m in document && m.oldId == id && m.newId == Mapping(document)[id]
    ensures forall m :: m in document ==> m.oldId in Mapping(document)
    decreases |document|
  {
    if document != [] {
      var n := |document| - 1;
      MappingIs(document[..n]);
      assert document == document[..n] + [document[n]];
      forall id | id in Mapping(document) ensures exists m :: m in document && m.oldId == id && m.newId == Mapping(document)[id] {
        if id == document[n].oldId {
          assert document[n] in document;
        } else {
          var m :| m in document[..n] && m.oldId == id && m.newId == Mapping(document[..n])[id];
          assert m in document;
        }
      }
    }
  }
}
