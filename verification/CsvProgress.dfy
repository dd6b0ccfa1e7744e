/** What a preserved publish does get done: the plan for a file at its original bytes, with the document built from it, is
    to write the expected file exactly when there is something to change; and one run that writes suffices. */
module CsvProgress {
  import opened Sequences
  import opened Outcomes
  import opened Sorting
  import opened TitleRule
  import opened CsvSplit
  import opened CsvReader
  import opened CsvRetitle
  import opened CsvRows
  import opened CsvTable
  import opened CsvDocuments
  import opened CsvAgreement
  import opened CsvBinding
  import opened CsvPublish

  // ----- the binding of a built document holds -----

  /** Retirements that are all wanted have a row each of their own. */
  lemma {:induction false} WantedAreDistinct(entries: seq<Removal>, keys: seq<string>, acc: map<string, string>)
    requires Wanted(entries, keys, acc).Ok?
    ensures DistinctKeys(FILE, Present(entries, keys))
    ensures forall r :: r in Present(entries, keys) ==> r.filePath !in acc
  {
    if entries != [] {
      var (r, rest) := (entries[0], entries[1..]);
      var present := Present(rest, keys);
      if r.filePath in keys {
        WantedAreDistinct(rest, keys, acc[r.filePath := r.retiredId]);
        assert Present(entries, keys) == [r] + present;
        assert forall i :: 0 <= i < |present| ==> present[i].filePath !in acc[r.filePath := r.retiredId];
      } else {
        WantedAreDistinct(rest, keys, acc);
        assert Present(entries, keys) == [] + present == present;
      }
    }
  }

  lemma SortTwice(removals: seq<Removal>)
    requires DistinctKeys(FILE, removals)
    ensures SortBy(FILE, SortBy(FILE, removals)) == SortBy(FILE, removals)
  {
    var once := SortBy(FILE, removals);
    SortDistinct(FILE, removals);
    SortDistinct(FILE, once);
    SortIsPermutation(FILE, removals);
    SortIsPermutation(FILE, once);
    forall r ensures r in SortBy(FILE, once) <==> r in once {
      SortMember(FILE, once, r);
    }
    hide SortBy, Sorted;
    SortedIsUnique(FILE, SortBy(FILE, once), once);
  }

  /** The steps of a build that succeeded, as far as the removals go. */
  lemma BuiltFrom(h: Hashes, blob: string, entries: seq<Removal>, profile: string, collapse: Option<Binding>)
    returns (header: string, rows: seq<string>, fields: seq<string>, keys: seq<string>)
    requires BuildCsv(h, blob, entries, profile, collapse).Ok?
    ensures Split(blob) == Ok((header, rows)) && Fields(header) == Ok(fields) && FILE_PATH in fields
    ensures ReadKeys(rows, IndexOf(fields, FILE_PATH), Refused) == Ok(keys) && !HasDuplicate(keys) && Wanted(entries, keys, map[]).Ok?
    ensures var doc := BuildCsv(h, blob, entries, profile, collapse).value;
            && doc.removals == SortBy(FILE, RemovedRows(keys, Wanted(entries, keys, map[]).value))
            && doc.profile == profile && doc.collapse == collapse
  {
    hide Split, Fields, IndexOf, ReadKeys, Wanted, RetitlePass, Describe, SortBy, Kept, HasDuplicate, RemovedRows;
    var split := Split(blob).value;
    header, rows := split.0, split.1;
    fields := Fields(header).value;
    keys := ReadKeys(rows, IndexOf(fields, FILE_PATH), Refused).value;
  }

  lemma AuthorizedIs(entries: seq<Removal>, blob: string, header: string, rows: seq<string>, fields: seq<string>, keys: seq<string>)
    requires Split(blob) == Ok((header, rows)) && Fields(header) == Ok(fields) && FILE_PATH in fields
    requires ReadKeys(rows, IndexOf(fields, FILE_PATH), Refused) == Ok(keys)
    ensures Authorized(entries, blob) == Ok(SortBy(FILE, Present(entries, keys)))
  {
    ReadKeysIs(rows, IndexOf(fields, FILE_PATH), Refused);
    PresentKeysIs(rows, IndexOf(fields, FILE_PATH), keys);
    hide Split, Fields, IndexOf, ReadKeys, PresentKeys, SortBy, Present;
  }

  /** The document the builder makes, with the binding of the collapse document in hand. */
  ghost predicate IsBuilt(h: Hashes, doc: CsvDocument, blob: string, profile: string, collapse: Option<Collapse>) {
    BuildCsv(h, blob, EntriesOf(collapse), profile, BindingFor(h, collapse)) == Ok(doc)
  }

  /** Its removals are the authorised ones. */
  lemma BuiltRemovalsAre(h: Hashes, doc: CsvDocument, blob: string, profile: string, collapse: Option<Collapse>)
    requires IsBuilt(h, doc, blob, profile, collapse)
    ensures doc.profile == profile && doc.collapse == BindingFor(h, collapse)
    ensures Authorized(EntriesOf(collapse), blob) == Ok(doc.removals) && SortBy(FILE, doc.removals) == doc.removals
    ensures collapse.None? ==> doc.removals == []
  {
    var entries := EntriesOf(collapse);
    var header, rows, fields, keys := BuiltFrom(h, blob, entries, profile, BindingFor(h, collapse));
    WantedAreDistinct(entries, keys, map[]);
    BuilderRemovals(entries, keys);
    AuthorizedIs(entries, blob, header, rows, fields, keys);
    RemovedDistinct(keys, Wanted(entries, keys, map[]).value);
    hide Authorized, BuildCsv, Split, Fields, ReadKeys, Wanted, RemovedRows, HasDuplicate, IndexOf;
    SortTwice(Present(entries, keys));
  }

  lemma BuiltIsBound(h: Hashes, doc: CsvDocument, blob: string, profile: string, collapse: Option<Collapse>)
    requires IsBuilt(h, doc, blob, profile, collapse)
    ensures BindingReasons(h, doc, profile, collapse, Some(blob)) == Ok([])
    ensures BindingReasons(h, doc, profile, collapse, None) == Ok([])
  {
    BuiltRemovalsAre(h, doc, blob, profile, collapse);
    hide Authorized, IsBuilt, SortBy, BindingOf;
    NoReasons();
  }

  lemma BuiltIsRecomputed(h: Hashes, doc: CsvDocument, blob: string, profile: string, collapse: Option<Collapse>)
    requires IsBuilt(h, doc, blob, profile, collapse)
    ensures RetitleReasons(h, doc, blob, collapse) == Ok([])
  {
    BuiltRemovalsAre(h, doc, blob, profile, collapse);
    var header, rows, fields := BuiltCsvDescribes(h, blob, EntriesOf(collapse), profile, BindingFor(h, collapse));
    RecomputationDescribed(h, doc.frame, TRANSFORM_KIND, blob, header, rows, fields, FILE_PATH, Paths(doc.removals));
    hide Authorized, BuildCsv, Recomputation, SortBy, Describes;
    assert Paths([]) == {};
  }

  // ----- what the plan is -----

  /** A description without a change promises the file itself. */
  lemma PromiseIsSame(h: Hashes, frame: Frame, kind: string, blob: string, header: string, rows: seq<string>,
                      fields: seq<string>, column: string)
    requires Describes(h, frame, kind, blob, header, rows, fields, column, {}) && frame.retitles == []
    ensures Promised(header, rows, fields, column, {}) == blob
  {
    var (k, t) := (IndexOf(fields, column), IndexOf(fields, TITLE));
    KeptNone(rows, k);
    SortMembers(KEY, Entries(h, rows, k, t));
    hide Split, IndexOf, Fields, Kept, SortBy, HasTitleSeparator, AssetTitle, Retitled;
    forall i | 0 <= i < |rows| ensures NewRow(rows[i], k, t) == rows[i] {
      if Punctuated(rows[i], t) { EntryMembers(h, rows, k, t, Entry(h, rows[i], k, t)); }
      NewRowFields(rows[i], k, t);
    }
    assert NewRows(rows, k, t) == rows;
    SplitIsInverse(blob, header, rows);
    JoinIsFlatten(header, rows);
  }

  /** The expected file of a built document, and when it is another file than the original. */
  lemma ExpectedDiffersIff(h: Hashes, doc: CsvDocument, blob: string, profile: string, collapse: Option<Collapse>) returns (after: string)
    requires CollisionFree(h) && IsBuilt(h, doc, blob, profile, collapse)
    ensures TransformCsv(h, blob, doc) == Ok((after, [])) && h.sha(after) == doc.frame.expected.sha
    ensures VerifyCsv(h, doc, after, Some(blob)) == Ok([]) && h.sha(blob) == doc.frame.original.sha
    ensures after != blob <==> doc.removals != [] || doc.frame.retitles != []
  {
    CsvAgree(h, blob, EntriesOf(collapse), profile, BindingFor(h, collapse));
    var header, rows, fields := BuiltCsvDescribes(h, blob, EntriesOf(collapse), profile, BindingFor(h, collapse));
    TransformDescribed(h, doc, blob, header, rows, fields);
    hide BuildCsv, TransformCsv, VerifyCsv;
    after := Promised(header, rows, fields, FILE_PATH, Paths(doc.removals));
    if doc.removals != [] || doc.frame.retitles != [] {
      if doc.removals != [] { assert doc.removals[0].filePath in Paths(doc.removals); }
      PromiseDiffers(h, doc.frame, TRANSFORM_KIND, blob, header, rows, fields, FILE_PATH, Paths(doc.removals));
    } else {
      assert Paths([]) == {};
      PromiseIsSame(h, doc.frame, TRANSFORM_KIND, blob, header, rows, fields, FILE_PATH);
    }
    hide Describes, Promised;
  }

  /** Liveness of `preserved_csv_plan`. With the document built from the file and the inputs of the run itself, the plan for
      the original is to write the expected bytes if any row goes or any title changes, and nothing otherwise; the plan for
      the expected bytes is nothing. */
  lemma BuiltIsPublished(h: Hashes, doc: CsvDocument, blob: string, run: Publish) returns (after: string)
    requires CollisionFree(h) && IsBuilt(h, doc, blob, run.profile, run.collapse) && CsvParses(h, doc) && run.attested
    ensures h.sha(blob) == doc.frame.original.sha && h.sha(after) == doc.frame.expected.sha
    ensures doc.removals != [] || doc.frame.retitles != [] ==> CsvPlan(h, doc, Some(blob), run) == Write(after)
    ensures doc.removals == [] && doc.frame.retitles == [] ==> CsvPlan(h, doc, Some(blob), run) == Nothing && after == blob
    ensures CsvPlan(h, doc, Some(after), run) == Nothing
  {
    after := ExpectedDiffersIff(h, doc, blob, run.profile, run.collapse);
    BuiltIsBound(h, doc, blob, run.profile, run.collapse);
    BuiltIsRecomputed(h, doc, blob, run.profile, run.collapse);
    hide CsvParses, BindingReasons, RetitleReasons, VerifyCsv, TransformCsv, IsBuilt;
    assert h.sha(after) == h.sha(blob) ==> after == blob;
  }

  // ----- and what stops it -----

  predicate Stops(plan: Plan) {
    plan == Refuse || plan == Abort
  }

  lemma BoundDocument(h: Hashes, doc: CsvDocument, profile: string, collapse: Option<Collapse>, blob: Option<string>)
    requires BindingReasons(h, doc, profile, collapse, blob) == Ok([])
    ensures doc.profile == profile && doc.collapse == BindingFor(h, collapse)
  {
    hide Authorized, SortBy;
  }

  /** No preserved run goes on without the file, without the attestation of the frozen snapshot, under a document that does not
      parse, under one of another profile, or under one bound to another collapse document or to none. */
  lemma PlanStops(h: Hashes, doc: CsvDocument, dest: Option<string>, run: Publish)
    ensures dest.None? || !run.attested || !CsvParses(h, doc) || doc.profile != run.profile || doc.collapse != BindingFor(h, run.collapse)
            ==> Stops(CsvPlan(h, doc, dest, run))
  {
    if dest.Some? {
      var bound := if h.sha(dest.value) == doc.frame.original.sha then dest else None;
      if BindingReasons(h, doc, run.profile, run.collapse, bound) == Ok([]) {
        BoundDocument(h, doc, run.profile, run.collapse, bound);
      }
    }
    hide CsvParses, BindingReasons, RetitleReasons, TransformCsv, VerifyCsv;
  }

  /** A groups.csv needs its document and its document needs it; with neither there is nothing to do. */
  lemma GroupsPlanStops(h: Hashes, doc: Option<GroupsDocument>, dest: Option<string>, run: Publish)
    ensures doc.None? && dest.None? ==> GroupsPlan(h, doc, dest, run) == Nothing
    ensures doc.None? && dest.Some? ==> Stops(GroupsPlan(h, doc, dest, run))
    ensures doc.Some? && (dest.None? || !run.attested || !GroupsParses(h, doc.value)) ==> Stops(GroupsPlan(h, doc, dest, run))
  {
    hide GroupsParses, Recomputation, TransformGroups, VerifyGroups;
  }

  // ----- over runs -----

  lemma ExpectedStays(h: Hashes, doc: CsvDocument, dest: Option<string>, runs: seq<Publish>)
    requires CollisionFree(h) && IsExpected(h, doc, dest)
    ensures AfterRuns(h, doc, dest, runs) == dest
  {
    PublishRuns(h, doc, dest, runs);
  }

  lemma RunsStep(h: Hashes, doc: CsvDocument, dest: Option<string>, runs: seq<Publish>)
    requires runs != []
    ensures AfterRuns(h, doc, dest, runs) == AfterRuns(h, doc, Published(dest, CsvPlan(h, doc, dest, runs[0]), runs[0]), runs[1..])
  {
    hide CsvPlan;
  }

  /** Any number of runs over a file at its original bytes, one of them with the inputs the document was built from,
      attested and reaching its write step: the file ends as the expected one, whatever the other runs bring. */
  lemma {:induction false} OneRunSuffices(h: Hashes, doc: CsvDocument, blob: string, runs: seq<Publish>, n: nat)
    requires CollisionFree(h) && CsvParses(h, doc) && n < |runs| && runs[n].attested && runs[n].writes
    requires IsBuilt(h, doc, blob, runs[n].profile, runs[n].collapse)
    ensures var last := AfterRuns(h, doc, Some(blob), runs); last.Some? && h.sha(last.value) == doc.frame.expected.sha
    decreases n
  {
    hide CsvPlan, CsvParses, IsBuilt, AfterRuns, CollisionFree;
    var after := BuiltIsPublished(h, doc, blob, runs[n]);
    var next := Published(Some(blob), CsvPlan(h, doc, Some(blob), runs[0]), runs[0]);
    PublishStep(h, doc, Some(blob), runs[0]);
    RunsStep(h, doc, Some(blob), runs);
    if n == 0 || next != Some(blob) {
      ExpectedStays(h, doc, next, runs[1..]);
    } else {
      OneRunSuffices(h, doc, blob, runs[1..], n - 1);
    }
  }

  /** And it takes such a run: while every run either lacks the attestation, or is of another profile or collapse document, or
      does not reach its write step, the file stays as it is. */
  lemma {:induction false} OnlySuchARun(h: Hashes, doc: CsvDocument, dest: Option<string>, runs: seq<Publish>)
    requires forall i :: 0 <= i < |runs| ==>
               !runs[i].attested || !runs[i].writes || doc.profile != runs[i].profile || doc.collapse != BindingFor(h, runs[i].collapse)
    ensures AfterRuns(h, doc, dest, runs) == dest
    decreases |runs|
  {
    if runs != [] {
      PlanStops(h, doc, dest, runs[0]);
      hide CsvPlan, BindingFor;
      assert forall i :: 0 <= i < |runs[1..]| ==> runs[1..][i] == runs[i + 1];
      OnlySuchARun(h, doc, dest, runs[1..]);
    }
  }

  // ----- groups.csv -----

  lemma GroupsExpectedDiffersIff(h: Hashes, doc: GroupsDocument, blob: string) returns (after: string)
    requires CollisionFree(h) && BuildGroups(h, blob) == Ok(doc)
    ensures TransformGroups(h, blob, doc) == Ok((after, [])) && h.sha(after) == doc.frame.expected.sha
    ensures VerifyGroups(h, doc, after, Some(blob)) == Ok([]) && h.sha(blob) == doc.frame.original.sha
    ensures Recomputation(h, doc.frame.retitles, blob, GROUP_ID, {}) == Ok([])
    ensures after != blob <==> doc.frame.retitles != []
  {
    GroupsAgree(h, blob);
    var header, rows, fields := BuiltGroupsDescribes(h, blob);
    TransformGroupsDescribed(h, doc, blob, header, rows, fields);
    RecomputationDescribed(h, doc.frame, GROUPS_TRANSFORM_KIND, blob, header, rows, fields, GROUP_ID, {});
    hide BuildGroups, TransformGroups, VerifyGroups, Recomputation;
    after := Promised(header, rows, fields, GROUP_ID, {});
    if doc.frame.retitles != [] {
      PromiseDiffers(h, doc.frame, GROUPS_TRANSFORM_KIND, blob, header, rows, fields, GROUP_ID, {});
    } else {
      PromiseIsSame(h, doc.frame, GROUPS_TRANSFORM_KIND, blob, header, rows, fields, GROUP_ID);
    }
    hide Describes, Promised;
  }

  /** Liveness of `preserved_groups_plan`. */
  lemma BuiltGroupsArePublished(h: Hashes, doc: GroupsDocument, blob: string, run: Publish) returns (after: string)
    requires CollisionFree(h) && BuildGroups(h, blob) == Ok(doc) && GroupsParses(h, doc) && run.attested
    ensures h.sha(blob) == doc.frame.original.sha && h.sha(after) == doc.frame.expected.sha
    ensures doc.frame.retitles != [] ==> GroupsPlan(h, Some(doc), Some(blob), run) == Write(after)
    ensures doc.frame.retitles == [] ==> GroupsPlan(h, Some(doc), Some(blob), run) == Nothing && after == blob
    ensures GroupsPlan(h, Some(doc), Some(after), run) == Nothing
  {
    after := GroupsExpectedDiffersIff(h, doc, blob);
    hide GroupsParses, Recomputation, VerifyGroups, TransformGroups, BuildGroups;
    assert h.sha(after) == h.sha(blob) ==> after == blob;
  }

  lemma GroupsRunsStep(h: Hashes, doc: GroupsDocument, dest: Option<string>, runs: seq<Publish>)
    requires runs != []
    ensures GroupsAfterRuns(h, doc, dest, runs)
         == GroupsAfterRuns(h, doc, Published(dest, GroupsPlan(h, Some(doc), dest, runs[0]), runs[0]), runs[1..])
  {
    hide GroupsPlan;
  }

  /** The same for groups.csv. */
  lemma {:induction false} OneGroupsRunSuffices(h: Hashes, doc: GroupsDocument, blob: string, runs: seq<Publish>, n: nat)
    requires CollisionFree(h) && BuildGroups(h, blob) == Ok(doc) && GroupsParses(h, doc)
    requires n < |runs| && runs[n].attested && runs[n].writes
    ensures var last := GroupsAfterRuns(h, doc, Some(blob), runs); last.Some? && h.sha(last.value) == doc.frame.expected.sha
    decreases n
  {
    hide GroupsPlan, GroupsParses, BuildGroups, GroupsAfterRuns, CollisionFree;
    var after := BuiltGroupsArePublished(h, doc, blob, runs[n]);
    GroupsRunsStep(h, doc, Some(blob), runs);
    var plan := GroupsPlan(h, Some(doc), Some(blob), runs[0]);
    var next := Published(Some(blob), plan, runs[0]);
    if plan.Write? { GroupsWriteIsExpected(h, doc, blob, runs[0]); }
    if n == 0 || next != Some(blob) {
      GroupsPublishRuns(h, doc, next, runs[1..]);
    } else {
      OneGroupsRunSuffices(h, doc, blob, runs[1..], n - 1);
    }
  }
}
