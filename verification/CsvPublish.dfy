/** Publishing in preserved mode: the plan for `metadata.csv` and `groups.csv`, made before anything is written
    (`preserved_csv_plan`, `preserved_groups_plan` and the write step of `seed/scripts/populate_archive.py`). */
module CsvPublish {
  import opened Sequences
  import opened Outcomes
  import opened CsvSplit
  import opened CsvRows
  import opened CsvTable
  import opened CsvDocuments
  import opened CsvAgreement
  import opened CsvBinding

  datatype Plan = Refuse | Nothing | Write(after: string) | Abort

  /** What one run brings with it: the profile it publishes, the collapse document in hand, whether the frozen snapshot
      is attested, and whether the run reaches its write step at all (it is no dry run, and nothing else refused). */
  datatype Publish = Publish(profile: string, collapse: Option<Collapse>, attested: bool, writes: bool)

  function WriteUnlessSame(after: string, blob: string): Plan {
    if after == blob then Nothing else Write(after)
  }

  /** The last steps of both plans: apply, verify, and write only what differs. */
  function ApplyAndVerify(blob: string, applied: Outcome<(string, seq<Reason>)>, verified: string -> Outcome<seq<Reason>>): Plan {
    if !applied.Ok? then Abort
    else if applied.value.1 != [] then Refuse
    else
      var after := applied.value.0;
      var check := verified(after);
      if !check.Ok? then Abort else if check.value != [] then Refuse else WriteUnlessSame(after, blob)
  }

  /** `preserved_csv_plan`. */
  function CsvPlan(h: Hashes, doc: CsvDocument, dest: Option<string>, run: Publish): Plan {
    if !CsvParses(h, doc) || dest.None? then Refuse
    else
      var blob := dest.value;
      var preOp := h.sha(blob) == doc.frame.original.sha;
      var bound := BindingReasons(h, doc, run.profile, run.collapse, if preOp then Some(blob) else None);
      if !bound.Ok? then Abort
      else if bound.value != [] || !run.attested then Refuse
      else
        var retitled := if preOp then RetitleReasons(h, doc, blob, run.collapse) else Ok([]);
        if !retitled.Ok? then Abort
        else if retitled.value != [] then Refuse
        else if h.sha(blob) == doc.frame.expected.sha && !preOp then Nothing
        else ApplyAndVerify(blob, TransformCsv(h, blob, doc), after => VerifyCsv(h, doc, after, Some(blob)))
  }

  /** `preserved_groups_plan`: a file without a document is refused, a document without a file too. */
  function GroupsPlan(h: Hashes, doc: Option<GroupsDocument>, dest: Option<string>, run: Publish): Plan {
    if doc.None? then if dest.Some? then Refuse else Nothing
    else if !GroupsParses(h, doc.value) || dest.None? then Refuse
    else
      var d, blob := doc.value, dest.value;
      var preOp := h.sha(blob) == d.frame.original.sha;
      if !run.attested then Refuse
      else
        var bad := if preOp then Recomputation(h, d.frame.retitles, blob, GROUP_ID, {}) else Ok([]);
        if !bad.Ok? then Abort
        else if bad.value != [] then Refuse
        else if h.sha(blob) == d.frame.expected.sha && !preOp then Nothing
        else ApplyAndVerify(blob, TransformGroups(h, blob, d), after => VerifyGroups(h, d, after, Some(blob)))
  }

  /** What a planned run leaves at the destination. */
  function Published(dest: Option<string>, plan: Plan, run: Publish): Option<string> {
    if plan.Write? && run.writes then Some(plan.after) else dest
  }

  /** The two CSV files of the destination tree. */
  class Destination {
    var metadata: Option<string>
    var groups: Option<string>

    /** One preserved run: both plans are made, and refused, before either file is written. */
    method Run(h: Hashes, csv: CsvDocument, groupsDoc: Option<GroupsDocument>, run: Publish) returns (ok: bool)
      modifies this
      ensures var m, g := CsvPlan(h, csv, old(metadata), run), GroupsPlan(h, groupsDoc, old(groups), run);
              && ok == !(m.Refuse? || m.Abort? || g.Refuse? || g.Abort?)
              && metadata == (if ok then Published(old(metadata), m, run) else old(metadata))
              && groups == (if ok then Published(old(groups), g, run) else old(groups))
    {
      var m := CsvPlan(h, csv, metadata, run);
      if m.Refuse? || m.Abort? { return false; }
      var g := GroupsPlan(h, groupsDoc, groups, run);
      if g.Refuse? || g.Abort? { return false; }
      if m.Write? && run.writes { metadata := Some(m.after); }
      if g.Write? && run.writes { groups := Some(g.after); }
      return true;
    }
  }

  /** A written file is the expected one, and was made from the original. */
  lemma CsvWriteIsExpected(h: Hashes, doc: CsvDocument, blob: string, run: Publish)
    requires CsvPlan(h, doc, Some(blob), run).Write?
    ensures var after := CsvPlan(h, doc, Some(blob), run).after;
            && h.sha(blob) == doc.frame.original.sha && h.sha(after) == doc.frame.expected.sha && after != blob
            && TransformCsv(h, blob, doc) == Ok((after, [])) && VerifyCsv(h, doc, after, Some(blob)) == Ok([])
            && CsvParses(h, doc) && BindingReasons(h, doc, run.profile, run.collapse, Some(blob)) == Ok([])
            && RetitleReasons(h, doc, blob, run.collapse) == Ok([])
  {
    hide CsvParses, BindingReasons, RetitleReasons, VerifyCsv, TransformCsv;
    var after := CsvPlan(h, doc, Some(blob), run).after;
    VerifiedDigest(h, doc, after, Some(blob));
    AppliedFromOriginal(h, blob, doc);
  }

  lemma AppliedFromOriginal(h: Hashes, blob: string, doc: CsvDocument)
    requires TransformCsv(h, blob, doc).Ok? && TransformCsv(h, blob, doc).value.1 == []
    ensures h.sha(blob) == doc.frame.original.sha
  {
    hide Split, ApplyRetitles, ReadKeys;
  }

  /** Everything that is ever written was recomputable: the builder, given the run's own inputs, would have emitted the
      document and with it these bytes. */
  lemma WrittenIsAuthorised(h: Hashes, doc: CsvDocument, blob: string, run: Publish)
    requires CsvPlan(h, doc, Some(blob), run).Write? && UniqueFilePaths(blob)
    ensures BuildCsv(h, blob, EntriesOf(run.collapse), run.profile, BindingFor(h, run.collapse)).Ok?
    ensures var built := BuildCsv(h, blob, EntriesOf(run.collapse), run.profile, BindingFor(h, run.collapse)).value;
            TransformCsv(h, blob, built) == Ok((CsvPlan(h, doc, Some(blob), run).after, []))
  {
    hide *;
    CsvWriteIsExpected(h, doc, blob, run);
    AuthorityIsRecomputation(h, doc, run.profile, run.collapse, blob, CsvPlan(h, doc, Some(blob), run).after);
  }

  // ----- runs -----

  /** The destination after a list of runs with one document. */
  function AfterRuns(h: Hashes, doc: CsvDocument, dest: Option<string>, runs: seq<Publish>): Option<string>
    decreases |runs|
  {
    if runs == [] then dest
    else AfterRuns(h, doc, Published(dest, CsvPlan(h, doc, dest, runs[0]), runs[0]), runs[1..])
  }

  predicate IsExpected(h: Hashes, doc: CsvDocument, dest: Option<string>) {
    dest.Some? && h.sha(dest.value) == doc.frame.expected.sha
  }

  predicate IsOriginal(h: Hashes, doc: CsvDocument, dest: Option<string>) {
    dest.Some? && h.sha(dest.value) == doc.frame.original.sha
  }

  /** The expected file is never written again; nothing but the original is ever replaced. */
  lemma PublishStep(h: Hashes, doc: CsvDocument, dest: Option<string>, run: Publish)
    requires CollisionFree(h)
    ensures var next := Published(dest, CsvPlan(h, doc, dest, run), run);
            && (next != dest ==> IsOriginal(h, doc, dest) && IsExpected(h, doc, next))
            && (IsExpected(h, doc, dest) ==> !CsvPlan(h, doc, dest, run).Write?)
            && (!IsOriginal(h, doc, dest) ==> !CsvPlan(h, doc, dest, run).Write?)
  {
    if dest.Some? && CsvPlan(h, doc, dest, run).Write? {
      CsvWriteIsExpected(h, doc, dest.value, run);
    }
    hide CsvPlan;
  }

  /** Over any list of runs with one document, whatever collapse documents and attestations they bring, the published
      metadata.csv is only ever the file the runs began with or the expected one. Once it is the expected one it stays
      as it is, and any other starting content is left alone. */
  lemma {:induction false} PublishRuns(h: Hashes, doc: CsvDocument, dest: Option<string>, runs: seq<Publish>)
    requires CollisionFree(h)
    ensures var last := AfterRuns(h, doc, dest, runs);
            && (last == dest || (IsOriginal(h, doc, dest) && IsExpected(h, doc, last)))
            && (IsExpected(h, doc, dest) || !IsOriginal(h, doc, dest) ==> last == dest)
    decreases |runs|
  {
    hide CsvPlan;
    if runs != [] {
      PublishStep(h, doc, dest, runs[0]);
      PublishRuns(h, doc, Published(dest, CsvPlan(h, doc, dest, runs[0]), runs[0]), runs[1..]);
    }
  }

  /** Any content that is neither the original nor the expected file is refused, not passed over. */
  lemma ForeignFileRefused(h: Hashes, doc: CsvDocument, blob: string, run: Publish)
    requires !IsOriginal(h, doc, Some(blob)) && !IsExpected(h, doc, Some(blob))
    ensures CsvPlan(h, doc, Some(blob), run).Refuse? || CsvPlan(h, doc, Some(blob), run).Abort?
  {
    hide CsvParses, BindingReasons, RetitleReasons, VerifyCsv, Split, ApplyRetitles, ReadKeys;
  }

  /** The same for groups.csv. */
  lemma GroupsWriteIsExpected(h: Hashes, doc: GroupsDocument, blob: string, run: Publish)
    requires CollisionFree(h) && GroupsPlan(h, Some(doc), Some(blob), run).Write?
    ensures var after := GroupsPlan(h, Some(doc), Some(blob), run).after;
            && h.sha(blob) == doc.frame.original.sha && h.sha(after) == doc.frame.expected.sha && after != blob
            && h.sha(blob) != doc.frame.expected.sha && VerifyGroups(h, doc, after, Some(blob)) == Ok([])
  {
    hide GroupsParses, Recomputation, VerifyGroups, Split, ApplyRetitles;
    VerifiedGroupsDigest(h, doc, GroupsPlan(h, Some(doc), Some(blob), run).after, Some(blob));
  }

  lemma GroupsForeignFileRefused(h: Hashes, doc: GroupsDocument, blob: string, run: Publish)
    requires h.sha(blob) != doc.frame.original.sha && h.sha(blob) != doc.frame.expected.sha
    ensures GroupsPlan(h, Some(doc), Some(blob), run).Refuse? || GroupsPlan(h, Some(doc), Some(blob), run).Abort?
  {
    hide GroupsParses, Recomputation, VerifyGroups, Split, ApplyRetitles;
  }

  function GroupsAfterRuns(h: Hashes, doc: GroupsDocument, dest: Option<string>, runs: seq<Publish>): Option<string>
    decreases |runs|
  {
    if runs == [] then dest
    else GroupsAfterRuns(h, doc, Published(dest, GroupsPlan(h, Some(doc), dest, runs[0]), runs[0]), runs[1..])
  }

  lemma {:induction false} GroupsPublishRuns(h: Hashes, doc: GroupsDocument, dest: Option<string>, runs: seq<Publish>)
    requires CollisionFree(h)
    ensures var last := GroupsAfterRuns(h, doc, dest, runs);
            && (last != dest ==> dest.Some? && last.Some? && h.sha(dest.value) == doc.frame.original.sha
                                 && h.sha(last.value) == doc.frame.expected.sha)
            && (dest.Some? && h.sha(dest.value) == doc.frame.expected.sha ==> last == dest)
    decreases |runs|
  {
    if runs != [] {
      if dest.Some? && GroupsPlan(h, Some(doc), dest, runs[0]).Write? {
        GroupsWriteIsExpected(h, doc, dest.value, runs[0]);
      }
      assert dest.None? ==> GroupsPlan(h, Some(doc), dest, runs[0]) == Refuse;
      hide GroupsPlan;
      GroupsPublishRuns(h, doc, Published(dest, GroupsPlan(h, Some(doc), dest, runs[0]), runs[0]), runs[1..]);
    }
  }
}
