/** The document kept beside the posts: when one more migration leaves it usable, and when it leaves it right. */
module MigrationDocument {
  import opened Sequences
  import opened Json
  import opened Sorting
  import opened PostMigration
  import Guard = ManifestGuard

  /** A post whose id differs between the two lists. */
  ghost predicate Differ(before: seq<string>, after: seq<string>, m: Move) {
    exists k :: 0 <= k < |before| && k < |after| && before[k] != after[k] && m == Move(before[k], after[k])
  }

  /** The moves are exactly those of the posts whose ids differ. */
  ghost predicate MovesBetween(before: seq<string>, after: seq<string>, moves: seq<Move>) {
    |before| == |after| && forall m :: m in moves <==> Differ(before, after, m)
  }

  function IdSet(ids: seq<string>): set<Json> {
    set id | id in ids :: Text(id)
  }

  /** The document parses, and agrees with posts of these ids. */
  ghost predicate Usable(ids: seq<string>, document: seq<Move>) {
    OneToOne(document) && Guard.MovesDescribe(Mapping(document), IdSet(ids))
  }

  /** What the document is for: it is usable, and records exactly the posts whose id is not the one they came with, from
      that id to the present one. */
  ghost predicate Tracks(births: seq<string>, ids: seq<string>, document: seq<Move>) {
    MovesBetween(births, ids, document) && Usable(ids, document)
  }

  // ----- usable documents -----

  lemma {:induction false} MappingMembers(document: seq<Move>)
    ensures Mapping(document).Keys == OldIds(document)
    ensures forall id :: id in Mapping(document) ==> Move(id, Mapping(document)[id]) in document
    decreases |document|
  {
    if document != [] {
      var n := |document| - 1;
      MappingMembers(document[..n]);
      assert document == document[..n] + [document[n]];
    }
  }

  lemma OneTarget(document: seq<Move>, a: Move, b: Move)
    requires OneToOne(document) && a in document && b in document && (a.oldId == b.oldId || a.newId == b.newId)
    ensures a == b
  {
  }

  lemma MappingAt(document: seq<Move>)
    requires OneToOne(document)
    ensures Mapping(document).Keys == OldIds(document)
    ensures forall m :: m in document ==> m.oldId in Mapping(document) && Mapping(document)[m.oldId] == m.newId
  {
    MappingMembers(document);
    hide Mapping, OneToOne;
    forall m | m in document ensures m.oldId in Mapping(document) && Mapping(document)[m.oldId] == m.newId {
      assert m.oldId in OldIds(document);
      OneTarget(document, m, Move(m.oldId, Mapping(document)[m.oldId]));
    }
  }

  /** Usable, entry by entry. */
  lemma UsableIs(ids: seq<string>, document: seq<Move>)
    ensures Usable(ids, document) <==> OneToOne(document) && forall m :: m in document ==> m.newId in ids && m.oldId !in ids
  {
    if OneToOne(document) {
      MappingAt(document);
      MappingMembers(document);
      hide Mapping, OneToOne;
      assert forall id :: id in ids <==> Text(id) in IdSet(ids);
      if forall m :: m in document ==> m.newId in ids && m.oldId !in ids {
        forall id | id in Mapping(document) ensures Text(Mapping(document)[id]) in IdSet(ids) && Text(id) !in IdSet(ids) {
          assert Move(id, Mapping(document)[id]) in document;
        }
      }
    }
  }

  /** A tracked document maps every birth to the present id, and nothing else. */
  lemma TrackedDescribes(births: seq<string>, ids: seq<string>, document: seq<Move>)
    requires Tracks(births, ids, document)
    ensures Mapping(document).Keys == set k | 0 <= k < |ids| && births[k] != ids[k] :: births[k]
    ensures forall k :: 0 <= k < |ids| ==>
              if births[k] == ids[k] then births[k] !in Mapping(document)
              else births[k] in Mapping(document) && Mapping(document)[births[k]] == ids[k]
  {
    UsableIs(ids, document);
    MappingAt(document);
    MappingMembers(document);
    hide Mapping, OneToOne, Usable;
    forall k | 0 <= k < |ids|
      ensures if births[k] == ids[k] then births[k] !in Mapping(document)
              else births[k] in Mapping(document) && Mapping(document)[births[k]] == ids[k]
    {
      if births[k] != ids[k] { assert Differ(births, ids, Move(births[k], ids[k])); }
    }
    forall id | id in Mapping(document) ensures id in set k | 0 <= k < |ids| && births[k] != ids[k] :: births[k] {
      assert Differ(births, ids, Move(id, Mapping(document)[id]));
    }
  }

  // ----- what one migration makes of the document -----

  lemma {:induction false} HopIs(planned: seq<Move>, id: string)
    ensures HopFrom(planned, id).Some? <==> id in OldIds(planned)
    ensures HopFrom(planned, id).Some? ==> Move(id, HopFrom(planned, id).value) in planned
    decreases |planned|
  {
    if planned != [] {
      HopIs(planned[..|planned| - 1], id);
      assert planned == planned[..|planned| - 1] + [planned[|planned| - 1]];
    }
  }

  lemma {:induction false} UnchainedMembers(planned: seq<Move>, chained: set<string>, m: Move)
    ensures m in Unchained(planned, chained) <==> m in planned && m.oldId !in chained
    decreases |planned|
  {
    if planned != [] {
      UnchainedMembers(planned[..|planned| - 1], chained, m);
      assert planned == planned[..|planned| - 1] + [planned[|planned| - 1]];
    }
  }

  lemma ChainedIs(document: seq<Move>, planned: seq<Move>)
    ensures Chained(document, planned) == OldIds(planned) * NewIds(document)
  {
    forall id ensures id in Chained(document, planned) <==> id in OldIds(planned) * NewIds(document) {
      HopIs(planned, id);
    }
  }

  /** The next document: every recorded move carried on, and the planned moves of ids at which none had ended. */
  lemma AccumulatedIs(document: seq<Move>, planned: seq<Move>, m: Move)
    ensures m in Accumulated(document, planned) <==>
            || (exists p :: p in document && m == Composed(p, planned))
            || (m in planned && m.oldId !in NewIds(document))
  {
    var chained := Chained(document, planned);
    SortMember(OldId, AllComposed(document, planned) + Unchained(planned, chained), m);
    UnchainedMembers(planned, chained, m);
    ChainedIs(document, planned);
    hide SortBy, Unchained, Composed, Chained;
    if p :| p in document && m == Composed(p, planned) {
      var i :| 0 <= i < |document| && document[i] == p;
      assert AllComposed(document, planned)[i] == m;
    }
  }

  /** The ids the next document retires: those of the document, and those the plan moves that no recorded move ended at. */
  lemma RetiredNext(document: seq<Move>, planned: seq<Move>)
    ensures OldIds(Accumulated(document, planned)) == OldIds(document) + (OldIds(planned) - NewIds(document))
  {
    var next := Accumulated(document, planned);
    hide Accumulated, HopFrom;
    forall id ensures id in OldIds(next) <==> id in OldIds(document) + (OldIds(planned) - NewIds(document)) {
      if id in OldIds(next) {
        var m :| m in next && m.oldId == id;
        AccumulatedIs(document, planned, m);
      }
      if id in OldIds(document) {
        var p :| p in document && p.oldId == id;
        AccumulatedIs(document, planned, Composed(p, planned));
      } else if id in OldIds(planned) - NewIds(document) {
        var m :| m in planned && m.oldId == id;
        AccumulatedIs(document, planned, m);
      }
    }
  }

  /** No post moves onto an id the document has retired, nor onto one this migration retires: an id the plan moves away
      from, unless a recorded move had ended there. */
  predicate MovesToFree(planned: seq<Move>, document: seq<Move>) {
    forall m :: m in planned ==> m.newId !in OldIds(document) && (m.newId in OldIds(planned) ==> m.newId in NewIds(document))
  }

  /** So a plan that moves to free ids is one whose new ids the next document does not retire. */
  lemma FreeIff(document: seq<Move>, planned: seq<Move>)
    ensures MovesToFree(planned, document) <==> forall m :: m in planned ==> m.newId !in OldIds(Accumulated(document, planned))
  {
    RetiredNext(document, planned);
    hide OldIds, NewIds, Accumulated;
  }

  // ----- when the next document is usable -----

  /** A safe plan: every post whose id differs, each listed once; afterwards every id is held once. */
  ghost predicate PlanOf(ids: seq<string>, after: seq<string>, planned: seq<Move>) {
    MovesBetween(ids, after, planned) && Distinct(planned) && Distinct(after) && forall m :: m in planned ==> m.newId != ""
  }

  /** Two posts share an id only where a recorded move ends. */
  ghost predicate SharedAreTargets(ids: seq<string>, document: seq<Move>) {
    forall k, j :: 0 <= k < j < |ids| && ids[k] == ids[j] ==> ids[k] in NewIds(document)
  }

  predicate NamesOldIds(planned: seq<Move>) {
    forall m :: m in planned ==> m.oldId != ""
  }

  /** What a caller can check before the migration for the next document to be usable. */
  ghost predicate LeavesUsable(ids: seq<string>, document: seq<Move>, planned: seq<Move>) {
    MovesToFree(planned, document) && NamesOldIds(planned) && SharedAreTargets(ids, document)
  }

  /** The post that carries an entry of the next document: it has the entry's new id, and came from where the entry did. */
  lemma Carrier(ids: seq<string>, after: seq<string>, document: seq<Move>, planned: seq<Move>, m: Move) returns (k: nat, from: string)
    requires Usable(ids, document) && PlanOf(ids, after, planned) && m in Accumulated(document, planned)
    ensures k < |ids| && after[k] == m.newId && ids[k] == from
    ensures (Move(m.oldId, from) in document && (ids[k] == after[k] ==> from == m.newId))
            || (m in planned && from == m.oldId && from !in NewIds(document))
  {
    AccumulatedIs(document, planned, m);
    UsableIs(ids, document);
    hide Accumulated, Usable, HopFrom;
    if p :| p in document && m == Composed(p, planned) {
      from := p.newId;
      HopIs(planned, from);
      if HopFrom(planned, from).Some? {
        assert Differ(ids, after, Move(from, m.newId));
        k :| 0 <= k < |ids| && ids[k] != after[k] && Move(from, m.newId) == Move(ids[k], after[k]);
      } else {
        k :| 0 <= k < |ids| && ids[k] == from;
        assert ids[k] != after[k] <==> Differ(ids, after, Move(ids[k], after[k]));
      }
      assert Move(m.oldId, from) == p;
    } else {
      from := m.oldId;
      assert Differ(ids, after, m);
      k :| 0 <= k < |ids| && ids[k] != after[k] && m == Move(ids[k], after[k]);
    }
  }

  /** Under the condition no post is left with an id the next document retires. */
  lemma NoneHeldIsRetired(ids: seq<string>, after: seq<string>, document: seq<Move>, planned: seq<Move>, k: nat)
    requires Usable(ids, document) && PlanOf(ids, after, planned) && LeavesUsable(ids, document, planned) && k < |after|
    ensures after[k] !in OldIds(Accumulated(document, planned))
  {
    RetiredNext(document, planned);
    UsableIs(ids, document);
    hide Accumulated, Usable;
    if ids[k] != after[k] {
      assert Differ(ids, after, Move(ids[k], after[k]));
    } else if after[k] in OldIds(planned) {
      var m :| m in planned && m.oldId == after[k];
      assert Differ(ids, after, m);
      var j :| 0 <= j < |ids| && ids[j] != after[j] && m == Move(ids[j], after[j]);
      assert k != j && ids[k] == ids[j];
    }
  }

  lemma SameEntry(ids: seq<string>, after: seq<string>, document: seq<Move>, planned: seq<Move>, a: Move, b: Move)
    requires Usable(ids, document) && PlanOf(ids, after, planned) && LeavesUsable(ids, document, planned)
    requires a in Accumulated(document, planned) && b in Accumulated(document, planned) && a.newId == b.newId
    ensures a == b
  {
    var k, from := Carrier(ids, after, document, planned, a);
    var j, from' := Carrier(ids, after, document, planned, b);
    assert k == j && from == from';
    hide Accumulated, LeavesUsable;
    if Move(a.oldId, from) in document {
      assert from in NewIds(document);
      OneTarget(document, Move(a.oldId, from), Move(b.oldId, from));
    }
  }

  lemma {:induction false} UnchainedOnce(planned: seq<Move>, chained: set<string>)
    requires Distinct(planned)
    ensures Distinct(Unchained(planned, chained))
    decreases |planned|
  {
    if planned != [] {
      var n := |planned| - 1;
      UnchainedOnce(planned[..n], chained);
      var rest := Unchained(planned[..n], chained);
      forall i | 0 <= i < |rest| ensures rest[i] != planned[n] {
        UnchainedMembers(planned[..n], chained, rest[i]);
      }
    }
  }

  lemma UnchainedEntry(document: seq<Move>, planned: seq<Move>, m: Move)
    ensures m in Unchained(planned, Chained(document, planned)) ==>
              m in planned && m.oldId !in NewIds(document) && m in Accumulated(document, planned)
  {
    UnchainedMembers(planned, Chained(document, planned), m);
    ChainedIs(document, planned);
    AccumulatedIs(document, planned, m);
    hide Accumulated, Unchained, Chained;
  }

  lemma ComposedEntry(document: seq<Move>, planned: seq<Move>, i: nat)
    requires i < |document|
    ensures AllComposed(document, planned)[i].oldId == document[i].oldId
    ensures AllComposed(document, planned)[i] in Accumulated(document, planned)
  {
    AccumulatedIs(document, planned, AllComposed(document, planned)[i]);
    hide Accumulated;
  }

  /** Under the condition every old id is recorded once. */
  lemma AccumulatedDistinct(ids: seq<string>, after: seq<string>, document: seq<Move>, planned: seq<Move>)
    requires Usable(ids, document) && PlanOf(ids, after, planned) && LeavesUsable(ids, document, planned)
    ensures DistinctKeys(OldId, Accumulated(document, planned))
  {
    var chained := Chained(document, planned);
    var (left, right) := (AllComposed(document, planned), Unchained(planned, chained));
    UsableIs(ids, document);
    UnchainedOnce(planned, chained);
    hide Accumulated, Chained, Unchained, Composed, LeavesUsable, Usable;
    forall i, j | 0 <= i < j < |left| ensures OldId(left[i]) != OldId(left[j]) {
      ComposedEntry(document, planned, i);
      ComposedEntry(document, planned, j);
    }
    forall i, j | 0 <= i < |left| && 0 <= j < |right| ensures OldId(left[i]) != OldId(right[j]) {
      ComposedEntry(document, planned, i);
      UnchainedEntry(document, planned, right[j]);
      assert document[i] in document && Differ(ids, after, right[j]);
    }
    forall i, j | 0 <= i < j < |right| ensures OldId(right[i]) != OldId(right[j]) {
      UnchainedEntry(document, planned, right[i]);
      UnchainedEntry(document, planned, right[j]);
      DifferentSources(ids, after, document, planned, right[i], right[j]);
    }
    assert DistinctKeys(OldId, left + right);
    SortDistinct(OldId, left + right);
    AccumulatedSorts(document, planned);
  }

  lemma AccumulatedSorts(document: seq<Move>, planned: seq<Move>)
    ensures Accumulated(document, planned) == SortBy(OldId, AllComposed(document, planned) + Unchained(planned, Chained(document, planned)))
  {
  }

  lemma DifferentSources(ids: seq<string>, after: seq<string>, document: seq<Move>, planned: seq<Move>, a: Move, b: Move)
    requires PlanOf(ids, after, planned) && LeavesUsable(ids, document, planned)
    requires a in planned && b in planned && a != b && a.oldId !in NewIds(document)
    ensures a.oldId != b.oldId
  {
    assert Differ(ids, after, a) && Differ(ids, after, b);
    var k :| 0 <= k < |ids| && ids[k] != after[k] && a == Move(ids[k], after[k]);
    var j :| 0 <= j < |ids| && ids[j] != after[j] && b == Move(ids[j], after[j]);
    assert k != j;
  }

  /** Every entry of the next document names two ids. */
  lemma EntryNames(ids: seq<string>, after: seq<string>, document: seq<Move>, planned: seq<Move>, m: Move)
    requires Usable(ids, document) && PlanOf(ids, after, planned) && LeavesUsable(ids, document, planned)
    requires m in Accumulated(document, planned)
    ensures NamesAMove(m) && m.newId in after && m.newId !in OldIds(Accumulated(document, planned))
    ensures m.oldId !in after
  {
    var k, from := Carrier(ids, after, document, planned, m);
    NoneHeldIsRetired(ids, after, document, planned, k);
    forall j | 0 <= j < |after| ensures after[j] != m.oldId {
      NoneHeldIsRetired(ids, after, document, planned, j);
      assert m.oldId in OldIds(Accumulated(document, planned));
    }
    hide Accumulated, MovesToFree, SharedAreTargets;
    assert after[k] != m.oldId;
    if Move(m.oldId, from) in document {
      var i :| 0 <= i < |document| && document[i] == Move(m.oldId, from);
      assert NamesAMove(document[i]);
      if ids[k] != after[k] { assert Move(ids[k], after[k]) in planned by { assert Differ(ids, after, Move(ids[k], after[k])); } }
    }
  }

  lemma ConditionSuffices(ids: seq<string>, after: seq<string>, document: seq<Move>, planned: seq<Move>)
    requires Usable(ids, document) && PlanOf(ids, after, planned) && LeavesUsable(ids, document, planned)
    ensures Usable(after, Accumulated(document, planned))
  {
    var next := Accumulated(document, planned);
    AccumulatedDistinct(ids, after, document, planned);
    forall m | m in next ensures NamesAMove(m) && m.newId in after && m.newId !in OldIds(next) && m.oldId !in after {
      EntryNames(ids, after, document, planned, m);
    }
    hide Accumulated, LeavesUsable, Usable, NamesAMove;
    forall i, j | 0 <= i < j < |next| ensures next[i].oldId != next[j].oldId && next[i].newId != next[j].newId {
      assert OldId(next[i]) != OldId(next[j]);
      if next[i].newId == next[j].newId { SameEntry(ids, after, document, planned, next[i], next[j]); }
    }
    assert OneToOne(next);
    UsableIs(after, next);
  }

  lemma ConditionIsNeeded(ids: seq<string>, after: seq<string>, document: seq<Move>, planned: seq<Move>)
    requires Usable(ids, document) && PlanOf(ids, after, planned) && Usable(after, Accumulated(document, planned))
    ensures LeavesUsable(ids, document, planned)
  {
    var next := Accumulated(document, planned);
    UsableIs(after, next);
    FreeIff(document, planned);
    forall m ensures m in planned && m.oldId !in NewIds(document) ==> m in next {
      AccumulatedIs(document, planned, m);
    }
    hide Accumulated, MovesToFree;
    forall m | m in planned ensures m.newId !in OldIds(next) {
      assert Differ(ids, after, m);
    }
    forall m | m in planned ensures m.oldId != "" {
      OldIdNamed(document, next, m);
    }
    forall k, j | 0 <= k < j < |ids| && ids[k] == ids[j] ensures ids[k] in NewIds(document) {
      if ids[k] !in NewIds(document) {
        var (a, b) := (Move(ids[k], after[k]), Move(ids[j], after[j]));
        if ids[k] != after[k] { assert Differ(ids, after, a); }
        if ids[j] != after[j] { assert Differ(ids, after, b); }
        if a in next && b in next { OneTarget(next, a, b); }
      }
    }
  }

  lemma OldIdNamed(document: seq<Move>, next: seq<Move>, m: Move)
    requires OneToOne(document) && OneToOne(next) && (m in next || m.oldId in NewIds(document))
    ensures m.oldId != ""
  {
    if m in next {
      var i :| 0 <= i < |next| && next[i] == m;
      assert NamesAMove(next[i]);
    } else {
      var p :| p in document && p.newId == m.oldId;
      var i :| 0 <= i < |document| && document[i] == p;
      assert NamesAMove(document[i]);
    }
  }

  /** One more migration, exactly. A safe plan over a usable document leaves a usable document if and only if no post moves
      onto a retired id, no post without an id moves, and two posts share an id only where a recorded move ends. */
  lemma MigrationUsableIff(ids: seq<string>, after: seq<string>, document: seq<Move>, planned: seq<Move>)
    requires Usable(ids, document) && PlanOf(ids, after, planned)
    ensures Usable(after, Accumulated(document, planned)) <==> LeavesUsable(ids, document, planned)
  {
    hide *;
    if LeavesUsable(ids, document, planned) { ConditionSuffices(ids, after, document, planned); }
    if Usable(after, Accumulated(document, planned)) { ConditionIsNeeded(ids, after, document, planned); }
  }

  // ----- when it is right -----

  /** Post `k` is recorded and moves away; post `j` has never moved and stays. */
  predicate Parts(births: seq<string>, ids: seq<string>, after: seq<string>, k: nat, j: nat)
    requires |births| == |ids| == |after| && k < |ids| && j < |ids|
  {
    births[k] != ids[k] && ids[k] != after[k] && births[j] == ids[j] && ids[j] == after[j]
  }

  /** Of two posts that share an id, the one the document records moves away, and the other is and stays as it came. */
  ghost predicate SharedApart(births: seq<string>, ids: seq<string>, after: seq<string>)
    requires |births| == |ids| == |after|
  {
    forall k, j :: 0 <= k < j < |ids| && ids[k] == ids[j] ==> Parts(births, ids, after, k, j) || Parts(births, ids, after, j, k)
  }

  lemma PartsAway(births: seq<string>, ids: seq<string>, after: seq<string>, k: nat, j: nat)
    requires |births| == |ids| == |after| && SharedApart(births, ids, after)
    requires k < |ids| && j < |ids| && k != j && ids[k] == ids[j]
    ensures Parts(births, ids, after, k, j) || Parts(births, ids, after, j, k)
  {
  }

  /** The post has moved, before or now. */
  ghost predicate Touched(births: seq<string>, ids: seq<string>, after: seq<string>, m: Move) {
    exists k :: 0 <= k < |births| && k < |ids| && k < |after| && (births[k] != ids[k] || ids[k] != after[k]) && m == Move(births[k], after[k])
  }

  /** Where a recorded post goes. */
  lemma RecordedHop(births: seq<string>, ids: seq<string>, after: seq<string>, document: seq<Move>, planned: seq<Move>, k: nat)
    requires Tracks(births, ids, document) && MovesBetween(ids, after, planned) && SharedApart(births, ids, after)
    requires k < |ids| && births[k] != ids[k]
    ensures Composed(Move(births[k], ids[k]), planned) == Move(births[k], after[k])
  {
    HopIs(planned, ids[k]);
    hide Usable, HopFrom;
    if HopFrom(planned, ids[k]).Some? {
      var m := Move(ids[k], HopFrom(planned, ids[k]).value);
      assert Differ(ids, after, m);
      var j :| 0 <= j < |ids| && ids[j] != after[j] && m == Move(ids[j], after[j]);
      if j != k { PartsAway(births, ids, after, k, j); }
    } else {
      assert ids[k] != after[k] <==> Differ(ids, after, Move(ids[k], after[k]));
    }
  }

  /** Whether the planned move of a post that has never moved is kept. */
  lemma UnrecordedKept(births: seq<string>, ids: seq<string>, after: seq<string>, document: seq<Move>, k: nat)
    requires Tracks(births, ids, document) && |after| == |ids| && SharedApart(births, ids, after)
    requires k < |ids| && ids[k] != after[k]
    ensures ids[k] in NewIds(document) <==> births[k] != ids[k]
  {
    hide Usable;
    if births[k] != ids[k] { assert Differ(births, ids, Move(births[k], ids[k])); }
    if ids[k] in NewIds(document) {
      var p :| p in document && p.newId == ids[k];
      var j :| 0 <= j < |births| && births[j] != ids[j] && p == Move(births[j], ids[j]);
      if j != k { PartsAway(births, ids, after, k, j); }
    }
  }

  /** The document after a migration records, for every post that has ever moved, its birth and where it is now. */
  lemma AccumulatedMembers(births: seq<string>, ids: seq<string>, after: seq<string>, document: seq<Move>, planned: seq<Move>, m: Move)
    requires Tracks(births, ids, document) && MovesBetween(ids, after, planned) && SharedApart(births, ids, after)
    ensures m in Accumulated(document, planned) <==> Touched(births, ids, after, m)
  {
    AccumulatedIs(document, planned, m);
    hide Accumulated, Usable, Composed, SharedApart;
    if p :| p in document && m == Composed(p, planned) {
      assert Differ(births, ids, p);
      var k :| 0 <= k < |births| && births[k] != ids[k] && p == Move(births[k], ids[k]);
      RecordedHop(births, ids, after, document, planned, k);
    }
    if m in planned && m.oldId !in NewIds(document) {
      assert Differ(ids, after, m);
      var k :| 0 <= k < |ids| && ids[k] != after[k] && m == Move(ids[k], after[k]);
      UnrecordedKept(births, ids, after, document, k);
    }
    if Touched(births, ids, after, m) {
      var k :| 0 <= k < |births| && (births[k] != ids[k] || ids[k] != after[k]) && m == Move(births[k], after[k]);
      if births[k] != ids[k] {
        RecordedHop(births, ids, after, document, planned, k);
        assert Differ(births, ids, Move(births[k], ids[k]));
      } else {
        UnrecordedKept(births, ids, after, document, k);
        assert Differ(ids, after, m);
      }
    }
  }

  /** Posts set apart share only ids at which a recorded move ends. */
  lemma ApartAreTargets(births: seq<string>, ids: seq<string>, after: seq<string>, document: seq<Move>)
    requires Tracks(births, ids, document) && |after| == |ids| && SharedApart(births, ids, after)
    ensures SharedAreTargets(ids, document)
  {
    hide Usable;
    forall k, j | 0 <= k < j < |ids| && ids[k] == ids[j] ensures ids[k] in NewIds(document) {
      var i := if births[k] != ids[k] then k else j;
      assert Differ(births, ids, Move(births[i], ids[i]));
    }
  }

  /** In a usable document no touched post is back where it was born. */
  lemma TouchedDiffers(births: seq<string>, ids: seq<string>, after: seq<string>, m: Move)
    requires |births| == |ids| == |after| && m.newId in after && m.oldId !in after
    ensures Touched(births, ids, after, m) ==> Differ(births, after, m)
  {
  }

  lemma DiffersTouched(births: seq<string>, ids: seq<string>, after: seq<string>, m: Move)
    requires |births| == |ids| == |after|
    ensures Differ(births, after, m) ==> Touched(births, ids, after, m)
  {
  }

  lemma ApartSuffices(births: seq<string>, ids: seq<string>, after: seq<string>, document: seq<Move>, planned: seq<Move>)
    requires Tracks(births, ids, document) && PlanOf(ids, after, planned)
    requires MovesToFree(planned, document) && NamesOldIds(planned) && SharedApart(births, ids, after)
    ensures Tracks(births, after, Accumulated(document, planned))
  {
    var next := Accumulated(document, planned);
    ApartAreTargets(births, ids, after, document);
    MigrationUsableIff(ids, after, document, planned);
    UsableIs(after, next);
    hide Accumulated, Usable, MovesToFree, NamesOldIds, SharedAreTargets, SharedApart, OneToOne, Differ, Touched;
    forall m ensures m in next <==> Differ(births, after, m) {
      AccumulatedMembers(births, ids, after, document, planned, m);
      DiffersTouched(births, ids, after, m);
      if m in next { TouchedDiffers(births, ids, after, m); }
    }
  }

  /** Posts born with one id cannot all be recorded once their ids differ. */
  lemma BornApart(births: seq<string>, after: seq<string>, next: seq<Move>, k: nat, j: nat)
    requires Tracks(births, after, next) && Distinct(after) && k < j < |births|
    ensures births[k] != births[j]
  {
    UsableIs(after, next);
    hide Usable;
    if births[k] == births[j] {
      var (a, b) := (Move(births[k], after[k]), Move(births[j], after[j]));
      if births[k] != after[k] { assert Differ(births, after, a); }
      if births[j] != after[j] { assert Differ(births, after, b); }
      if a in next && b in next { OneTarget(next, a, b); }
    }
  }

  /** A post that shares the id of a recorded one, and has never moved, stays. */
  lemma OtherStays(births: seq<string>, ids: seq<string>, after: seq<string>, document: seq<Move>, planned: seq<Move>, k: nat, j: nat)
    requires Tracks(births, ids, document) && PlanOf(ids, after, planned) && Tracks(births, after, Accumulated(document, planned))
    requires k < |ids| && j < |ids| && k != j && ids[k] == ids[j] && births[k] != ids[k] && births[j] == ids[j]
    ensures Parts(births, ids, after, k, j)
  {
    RetiredNext(document, planned);
    UsableIs(ids, document);
    hide Accumulated, Usable;
    assert Differ(births, ids, Move(births[k], ids[k]));
    var (held, next) := (ids[j], after[j]);
    assert held != next ==> Differ(births, after, Move(held, next));
    assert held != next ==> held in OldIds(document);
    assert held !in OldIds(document);
  }

  lemma ApartIsNeeded(births: seq<string>, ids: seq<string>, after: seq<string>, document: seq<Move>, planned: seq<Move>)
    requires Tracks(births, ids, document) && PlanOf(ids, after, planned) && Tracks(births, after, Accumulated(document, planned))
    ensures SharedApart(births, ids, after)
  {
    var next := Accumulated(document, planned);
    UsableIs(ids, document);
    hide Accumulated, Usable, Parts;
    forall k, j | 0 <= k < j < |ids| && ids[k] == ids[j]
      ensures Parts(births, ids, after, k, j) || Parts(births, ids, after, j, k)
    {
      BornApart(births, after, next, k, j);
      if births[k] != ids[k] && births[j] != ids[j] {
        var (a, b) := (Move(births[k], ids[k]), Move(births[j], ids[j]));
        assert Differ(births, ids, a) && Differ(births, ids, b);
        OneTarget(document, a, b);
      } else if births[k] != ids[k] {
        OtherStays(births, ids, after, document, planned, k, j);
      } else {
        OtherStays(births, ids, after, document, planned, j, k);
      }
    }
  }

  /** One more migration, and what the document is for: a safe plan over a tracked history leaves a tracked history if and
      only if no post moves onto a retired id, no post without an id moves, and of two posts that share an id the recorded
      one moves and the other stays. */
  lemma MigrationTracksIff(births: seq<string>, ids: seq<string>, after: seq<string>, document: seq<Move>, planned: seq<Move>)
    requires Tracks(births, ids, document) && PlanOf(ids, after, planned)
    ensures Tracks(births, after, Accumulated(document, planned)) <==>
            MovesToFree(planned, document) && NamesOldIds(planned) && SharedApart(births, ids, after)
  {
    if Tracks(births, after, Accumulated(document, planned)) {
      ApartIsNeeded(births, ids, after, document, planned);
      MigrationUsableIff(ids, after, document, planned);
    }
    hide Accumulated, MovesToFree, SharedApart, Usable;
    if MovesToFree(planned, document) && NamesOldIds(planned) && SharedApart(births, ids, after) {
      ApartSuffices(births, ids, after, document, planned);
    }
  }
}
