# The seed publish pipeline, in Dafny

The scripts under `seed/scripts` guard a published dataset that has no backup. They are document-driven: a document written
beforehand says what may change, and a run either makes exactly that change or refuses. This project models those scripts and
proves what they are for. `dafny verify dfyconfig.toml` verifies all of it.

| files | what they model |
|---|---|
| `TitleRule.dfy` | the rule that keeps commas and em dashes out of titles |
| `CsvSplit.dfy`, `CsvCells.dfy`, `CsvReader.dfy`, `CsvRetitle.dfy`, `CsvRows.dfy`, `CsvTable.dfy` | the quote-aware splitter, the strict cell scanner, the standard CSV reader, the rewrite of one cell, the passes over rows |
| `CsvDocuments.dfy`, `CsvBuild.dfy`, `CsvVerify.dfy`, `CsvAgreement.dfy`, `CsvAuthority.dfy`, `CsvBinding.dfy`, `CsvPublish.dfy`, `CsvProgress.dfy`, `CsvForms.dfy` | the expected-transform documents: builders, parsers, appliers, verifiers, what binds them to the collapse document, and runs of publishes |
| `LossEnumeration.dfy`, `AssetCollapse.dfy`, `CollapseRecords.dfy` | what a retirement costs, the stage that makes it, and what it accepts and does, in records |
| `ManifestGuard.dfy`, `GuardRuns.dfy`, `GuardRecords.dfy` | the publish guard, runs of guarded publishes, and its verdict in records |
| `PostMigration.dfy`, `MigrationDocument.dfy`, `MigrationHistory.dfy` | moving post ids, what one more migration makes of the document that records the moves, and histories |
| `DedupePosts.dfy`, `UpgradeRecords.dfy`, `UpgradePasses.dfy`, `UpgradeMerges.dfy`, `UpgradeRun.dfy`, `UpgradeSteady.dfy`, `UpgradeAssets.dfy`, `UpgradeAgain.dfy`, `UpgradeFixpoint.dfy`, `UpgradeIdempotent.dfy`, `UpgradeCheck.dfy`, `UpgradePaths.dfy`, `UpgradeWrites.dfy`, `UpgradeOutcomes.dfy`, `UpgradeInstances.dfy` | the upgrade pipeline, pass by pass and as a whole, what it writes key by key, what it remembers, what its `--check` tells, and the inputs on which a promise fails |
| `PngFilters.dfy`, `PngFiles.dfy` | the PNG reader and writer |
| `FbxWalk.dfy`, `FbxMedia.dfy` | the walk over binary FBX records, and the media it tells of |
| `Copier.dfy`, `CopierFates.dfy` | the per-record copy loop, and what it leaves of every file |
| `Sequences.dfy`, `Outcomes.dfy`, `Sorting.dfy`, `Json.dfy`, `Catalogue.dfy`, `Binary.dfy` | what they share |

Where a script loops over state, the model is a method with that loop, proved against a function on values, and the theorems
are about the function. What such a function means is then proved without it, in the keys, rows and bytes a reader knows:
`UpgradePaths`, `UpgradeWrites`, `UpgradeOutcomes`, `CollapseRecords`, `GuardRecords`, `CsvProgress`, `CsvForms`, `CopierFates`, `FbxMedia` and
the last sections of `TitleRule`, `PngFilters` and `PngFiles` say it with the constants written out. A step ends in a value, a refusal (`Refused`, an exception the caller reports) or a crash (`Crashed`,
an exception nobody catches, such as `csv.Error` or `IndexError`).

## What the proofs found

Some promises hold only under a condition; each is proved as an exact one.

- **Retirement.** The parser of a collapse document asks that every `post_id` be unique
  (`seed/scripts/asset_collapse.py:816-826`) and nothing of `new_post_id`. An accepted collapse ends with every object
  Applied and one post per id if and only if the ids it moves posts to are fresh
  (`AssetCollapse.CollapseSettlesIffFresh`); `AssetCollapse.ParserAdmitsSharedId` is a document that is not. The stage
  authenticates the last record of an id and removes every record of it, so what it removes is what the document
  authenticated if and only if no two different records share a retired id (`CollapseRecords.RemovedAreAuthenticatedIff`).
- **Publish guard.** A record is safe key by key if and only if the value is not empty and the key is not `field_values` or
  `metadata`, which are compared one level down: a string may take their place, an object of empty values the place of the
  string, and its empties are not missed (`GuardRuns.KeptByEveryRunIff`). While they stay objects their values are safe
  (`GuardRuns.NoRunLosesAValue`). The module text calls a measurement corrupted when both values are non-empty
  (`seed/scripts/manifest_guard.py:44-47`). The code files one for two values that differ
  (`seed/scripts/manifest_guard.py:402-408`), so it is one by that text if and only if the destination's value is not empty
  (`GuardRuns.CorruptedIff`); `GuardRuns.SuppliedMeasurement` is a publish refused for a value the destination lacks.
- **Migration.** The tool was written for posts that share an id (`seed/scripts/migrate_post_ids.py:19-22`), and the safety
  check makes allowance for them (`seed/scripts/migrate_post_ids.py:187-189`); the document does not. A first migration
  leaves a document that can be read only if no two posts shared an id (`MigrationHistory.FirstMigrationIff`);
  `MigrationHistory.SharedOldId` is a safe one that does not. Over a document the plan leaves it *usable*, parsed and in
  agreement with the posts, if and only if no post moves onto an id the document has retired, nor onto one the plan moves
  away from and no recorded move had ended at, no post without an id moves, and shared ids are ids at which recorded moves
  end (`MigrationDocument.MigrationUsableIff`). Usable is not *right*: in `MigrationHistory.LostHop` nothing is refused and the
  document sends an id to another post. It is right if and only if, moreover, of two posts that share an id the recorded one
  moves and the other stays (`MigrationDocument.MigrationTracksIff`). Nothing in the tool looks at any of this, and
  `MigrationHistory.MovedBack` is a safe plan that breaks the document without any shared id. The document is right all along
  a run of migrations, additions, edits, removals and renames if and only if each step meets its condition
  (`MigrationHistory.HistoryIsRecorded`): removing a recorded post breaks it, and so does every rename no document records.
  The second test of `check_safe` adds nothing to the first (`PostMigration.CheckSafe`).
- **Transform documents.** No check looks at the two byte counts (`CsvBinding.ByteCountsUnchecked`); everything else an
  accepted document says is what the builder says (`CsvBinding.AcceptedIsBuilt`). The inverse check inside `_retitle_pass`
  and the composition check inside `apply_replacements` can never fire (`CsvRetitle.RetitleInverse`,
  `UpgradePasses.ReplaceKeepsComposition`).
- **Upgrade, original paths.** A replacement remembers the path a local record had, once
  (`seed/scripts/apply_upgrade.py:299-300`). Corrections then see the same path as before if and only if the record did not
  hold `replaced_source_path` as an empty value, or the pool file has the very name of the path
  (`UpgradePaths.OriginalPathIff`): the key is there, so nothing is remembered, and it is empty, so the pool name is read.
- **Upgrade, `--check`.** A comment says every pass is a term of `--check` (`seed/scripts/apply_upgrade.py:1406-1408`). Where
  every term is zero a run changes nothing if and only if each record holds its last declaration, no record lacks an object
  that a fill or a measurement would default, and no merged record the profile lacks is listed twice
  (`UpgradeCheck.CleanCheckIff`). Each way it fails has an input: `UpgradeInstances.UnseenDeclaration`,
  `UpgradeInstances.UnseenMetadata`, `UpgradeInstances.UnseenObject`, and `UpgradeInstances.UnseenRetirement`, where a retired
  record listed twice pays for one the profile still holds.
- **Upgrade, post conditions.** They ask for every merged post under its own id, also one a substitution has moved. A run ends
  with all of them if and only if no merged post has an id that a substitution moves, unless another pending substitution
  moves its post onto that id, which fresh ids rule out (`UpgradeIdempotent.MovedPostIsAProblem`);
  `UpgradeInstances.MovedPostRun` ends with the problem, `UpgradeInstances.MovedOntoRun` is the exception.

## Hypotheses

- Digests are an abstract function; where it matters they are collision-free (`CsvRows.CollisionFree`,
  `Copier.CollisionFree`), over digests of any length, since no fixed length could be.
- Authority of a transform document: unique `file_path` values in the file before the operation.
- Idempotence of the upgrade: `UpgradeIdempotent.DocumentsAgree`, which looks at the documents alone. They bring non-empty
  values, name a record once (fills apart), no record is both replaced and measured, none that is retired is declared,
  replaced or measured; no correction feeds another or looks at what a fill, a replacement or an arriving record carries;
  the merge documents derive from a retired record exactly the one the collapse document authorises, its title would pass
  the merge, and the share does not bring it in alone; curation orders a substituted post as the substitution does. And, of
  the run itself: unique asset ids, fresh ids for moved posts, no problem reported. A fill that names nothing is reported again on the second run
  (`UpgradeIdempotent.CheckAfterRunIff`).
- What a clean `--check` tells: unique asset ids in the profile and a collapse document that parses; nothing of the others.
- Migration: the derivation gives no empty id.
- PNG: inflating gives back what was deflated. Copier: distinct destinations, and for the second run positive recorded sizes.

## Model

| member | source | states |
|---|---|---|
| `TitleRule.NormalizeTitle` | seed/scripts/title_rule.py:39-70 | the in-place loop equals the rule stated position by position: every separator on its own, spaced or tight by its neighbours in the text |
| `TitleRule.EmittedCharacters` | seed/scripts/title_rule.py:39-70 | every character written is a hyphen, a space, or a character of the text that is no separator |
| `TitleRule.NoSeparatorLeft` | seed/scripts/title_rule.py:39-70 | the output holds no separator |
| `TitleRule.NormalizedIsStable` | seed/scripts/title_rule.py:39-70 | on text without separators the rule is the identity; hence idempotent |
| `TitleRule.InkConserved` | seed/scripts/title_rule.py:39-70 | the characters that are not whitespace are those of the text in order, each separator replaced by one hyphen |
| `TitleRule.NoDoubleSpaceCreated` | seed/scripts/title_rule.py:39-70 | text without two whitespace characters in a row gives output without them |
| `TitleRule.NormalizedNotEmpty` | seed/scripts/title_rule.py:39-70 | a text with ink keeps ink: no title becomes empty |
| `TitleRule.NormalizedMeans` | seed/scripts/title_rule.py:39-70 | character by character, in the words of the rule: a separator that touches no whitespace becomes a hyphen, one that does ends as space, hyphen, space, the whitespace it touches goes, everything else is copied |
| `TitleRule.AssetTitleHolds` | seed/scripts/title_rule.py:33-70 | after the default rule no comma and no em dash is left, and a title is left alone if and only if it held neither |
| `CsvSplit.SplitCsvRecords` | seed/scripts/preserved_archive.py:479-503 | the index loop equals the recursive splitter, and refuses an empty file and one that ends inside quotes |
| `CsvSplit.RecordsAreTheFile` | seed/scripts/preserved_archive.py:479-503 | the records laid end to end are the file, and every record but the last is complete |
| `CsvSplit.RecordsOfFlatten` | seed/scripts/preserved_archive.py:479-503 | a list of records laid end to end splits into exactly that list |
| `CsvTable.SplitIsInverse` | seed/scripts/preserved_archive.py:479-503 | a file splits into a header and rows if and only if it is their concatenation and they are a whole record list |
| `CsvTable.ResplitsExactly` | seed/scripts/preserved_archive.py:826-866 | any kept rows, with any titles rewritten, split again into exactly themselves, newlines in quotes and a missing last newline included |
| `CsvCells.ScanCells` | seed/scripts/preserved_archive.py:1200-1236 | the two index loops succeed exactly on the strict cell grammar and return the spans of its cells |
| `CsvCells.ParseShownCells` | seed/scripts/preserved_archive.py:1200-1236 | cells printed with their quoting are read back as the same cells |
| `CsvCells.ParsedCells` | seed/scripts/preserved_archive.py:1200-1236 | whatever is read prints back as the body it was read from: spans tile it with single commas between |
| `CsvReader.CellReplaced` | seed/scripts/preserved_archive.py:506-511 | for the standard reader, replacing one cell changes that field and no other |
| `CsvReader.CalmUpTo` | seed/scripts/preserved_archive.py:506-511 | where the standard reader finds a field, every cell before it is free of stray line breaks |
| `CsvReader.ReaderAgreesWithScanner` | seed/scripts/preserved_archive.py:1200-1236 | the standard reader and the strict scanner find the same fields in a record |
| `CsvRetitle.RetitleRecord` | seed/scripts/preserved_archive.py:1245-1279 | the rewrite of one cell, with every refusal, equals its specification on values |
| `CsvRetitle.DecodeShown` | seed/scripts/preserved_archive.py:1239-1242 | decoding a printed cell gives back its text |
| `CsvRetitle.RetitleInverse` | seed/scripts/preserved_archive.py:1282-1313 | retitling back gives the original record exactly, so the inverse check of the pass can never fire |
| `CsvRetitle.RetitleByRule` | seed/scripts/preserved_archive.py:1245-1279 | a record whose cells can be located is never refused the title the rule makes of its own, and only such a record is accepted |
| `CsvRetitle.RetitledIsRecord` | seed/scripts/preserved_archive.py:1245-1279 | the rewritten record is again one whole record with the same ending |
| `CsvAuthority.RewriteOnlyTouchesTitle` | seed/scripts/preserved_archive.py:1245-1279 | the rewritten record keeps field count, every other field, and the quoting of the title cell |
| `CsvRows.RunRetitlePass` | seed/scripts/preserved_archive.py:1282-1313 | the loop over the kept rows equals the pass on values, refusals and exceptions included |
| `CsvRows.PassRowIs` | seed/scripts/preserved_archive.py:1282-1313 | what the pass makes of one row: its new bytes and the entry that documents them |
| `CsvRows.RunApplyRetitles` | seed/scripts/preserved_archive.py:1362-1405 | the loop over documented retitles equals its specification on values |
| `CsvRows.ApplyIsPass` | seed/scripts/preserved_archive.py:1362-1405 | applying the entries the pass wrote gives the rows the pass gave and misses none |
| `CsvRows.ApplyChangesTitles` | seed/scripts/preserved_archive.py:1362-1405 | an applied entry leaves the row with the documented title |
| `CsvBuild.BuildCsvTransform` | seed/scripts/preserved_archive.py:565-680 | the builder with its loops over keys, removals and survivors equals the builder on values |
| `CsvBuild.ApplyCsvTransform` | seed/scripts/preserved_archive.py:826-866 | the applier with its loop over the rows equals the applier on values |
| `CsvBuild.RetainSurvivors` | seed/scripts/preserved_archive.py:826-866 | the loop that drops documented rows keeps exactly the others, in order, or raises where a row cannot be read |
| `CsvBuild.BuiltParses` | seed/scripts/preserved_archive.py:731-815 | a built document passes the parser if and only if its inputs do: a named profile, a header, whole paths, ids and titles |
| `CsvVerify.VerifyCsvTransform` | seed/scripts/preserved_archive.py:869-956 | the verifier with its loops equals the verifier on values, every reason reported |
| `CsvVerify.VerifyGroupsTransform` | seed/scripts/preserved_archive.py:1747-1796 | the same for groups.csv, asset counts included |
| `CsvVerify.PostRetitleRefusals` | seed/scripts/preserved_archive.py:1408-1465 | grouping the rows by key once and looking entries up finds the same reasons as searching the rows for each entry |
| `CsvAgreement.CsvAgree` | seed/scripts/preserved_archive.py:869-956 | a built document applies to its original without refusal, gives the expected digest, and the verifier accepts exactly those bytes and no others, with the original at hand or not |
| `CsvAgreement.GroupsAgree` | seed/scripts/preserved_archive.py:1747-1796 | the same agreement for groups.csv |
| `CsvAgreement.TransformChangesTheFile` | seed/scripts/preserved_archive.py:869-956 | a transform with a removal or a retitle never gives back the original file |
| `CsvAgreement.ColumnUnchanged` | seed/scripts/preserved_archive.py:1607-1609 | rewriting titles leaves every other column as it is, the asset counts among them |
| `CsvAuthority.VerifierFrame` | seed/scripts/preserved_archive.py:869-956 | for any document, accepted bytes have the original header, lack exactly the documented rows, keep the order, differ in title cells alone with quoting kept, and hold no comma or em dash in a title |
| `CsvAuthority.GroupsVerifierFrame` | seed/scripts/preserved_archive.py:1747-1796 | for any document, accepted groups.csv bytes lose no row, differ in title cells alone and keep the asset_count column |
| `CsvBinding.AuthorityIsRecomputation` | seed/scripts/preserved_archive.py:1041-1128 | any parseable document that the binding and retitle checks pass produces the bytes of the document rebuilt from the same inputs, and says what that one says |
| `CsvBinding.AcceptedIsBuilt` | seed/scripts/preserved_archive.py:869-956 | a document under which the verifier accepts bytes is the rebuilt one but for its byte counts and the order of its removals |
| `CsvBinding.ByteCountsUnchecked` | seed/scripts/preserved_archive.py:869-956 | no check looks at the two byte counts: any values in their place parse, bind, apply and verify alike |
| `CsvPublish.Destination.Run` | seed/scripts/populate_archive.py:1964-1984 | one publish over the destination files: what the plans write, and nothing when either refuses |
| `CsvPublish.CsvWriteIsExpected` | seed/scripts/populate_archive.py:1317-1452 | a write happens only from the original bytes, to other bytes with the expected digest that the verifier accepts |
| `CsvPublish.WrittenIsAuthorised` | seed/scripts/populate_archive.py:1317-1452 | what is written is what the document rebuilt from the same inputs would write |
| `CsvPublish.PublishRuns` | seed/scripts/populate_archive.py:1317-1452 | over any number of publishes with one document the file is as it was or the expected one, and once expected it is never written again |
| `CsvPublish.ForeignFileRefused` | seed/scripts/populate_archive.py:1317-1452 | any other starting content is refused and left alone |
| `CsvPublish.GroupsPublishRuns` | seed/scripts/populate_archive.py:1534-1617 | the same over any number of publishes for groups.csv |
| `CsvPublish.GroupsForeignFileRefused` | seed/scripts/populate_archive.py:1534-1617 | groups.csv content that is neither the original nor the expected file is refused |
| `CsvProgress.BuiltIsPublished` | seed/scripts/populate_archive.py:1317-1452 | liveness: for the document built from the file with the run's own inputs the plan on the original is to write the expected bytes if a row goes or a title changes, else nothing; on the expected bytes it is nothing |
| `CsvProgress.OneRunSuffices` | seed/scripts/populate_archive.py:1317-1452 | over any runs from the original bytes, one of them attested, with those inputs and reaching its write step, the file ends as the expected one whatever the others bring |
| `CsvProgress.PlanStops` | seed/scripts/populate_archive.py:1317-1452 | without the file, the attestation, a document that parses, its profile or its collapse document no plan goes on |
| `CsvProgress.OnlySuchARun` | seed/scripts/populate_archive.py:1317-1452 | while every run lacks the attestation, the write step, the profile or the collapse document of the transform, the file stays as it is |
| `CsvProgress.BuiltGroupsArePublished` | seed/scripts/populate_archive.py:1534-1617 | the same liveness of the plan for groups.csv |
| `CsvProgress.OneGroupsRunSuffices` | seed/scripts/populate_archive.py:1534-1617 | and over runs: one attested run that writes leaves the expected groups.csv |
| `CsvProgress.GroupsPlanStops` | seed/scripts/populate_archive.py:1534-1617 | a groups.csv without its document is refused, a document without its file too, and an unattested or unparsable one; with neither there is nothing to do |
| `CsvForms.CsvParsesIff` | seed/scripts/preserved_archive.py:731-815 | what the parser of metadata.csv documents accepts, exactly, in the document's own keys, orders and constants |
| `CsvForms.GroupsParsesIff` | seed/scripts/preserved_archive.py:1687-1708 | what the parser of groups.csv documents accepts, exactly |
| `CsvForms.CsvBuildIff` | seed/scripts/preserved_archive.py:565-680 | the builder succeeds if and only if every row has a path of its own, no two removals name one row, and every row that stays has a title that can be rewritten if it must |
| `CsvForms.GroupsBuildIff` | seed/scripts/preserved_archive.py:1621-1684 | the groups.csv builder succeeds if and only if every row has the three columns, a key of its own that is not empty, and a title that can be rewritten if it must |
| `LossEnumeration.RecomputeLosses` | seed/scripts/asset_collapse.py:373-410 | the recursive walk, key by key, equals its specification |
| `LossEnumeration.LossAt` | seed/scripts/asset_collapse.py:373-410 | a path is enumerated if and only if the two records part there, and both values are recorded as they stand |
| `LossEnumeration.NoLossIffCarried` | seed/scripts/asset_collapse.py:373-410 | the enumeration is empty if and only if everything in the retired record is present and equal in the survivor, at every depth |
| `LossEnumeration.PatchRestores` | seed/scripts/asset_collapse.py:373-410 | the survivor with the enumerated values put back includes the retired record |
| `LossEnumeration.PatchKeeps` | seed/scripts/asset_collapse.py:373-410 | what no enumerated path covers is left alone |
| `AssetCollapse.Evaluate` | seed/scripts/asset_collapse.py:888-970 | the loop over every entry and substitution accepts exactly when no object is in a third state, and collects what is pending |
| `AssetCollapse.ApplyCollapse` | seed/scripts/asset_collapse.py:1004-1034 | a third state changes nothing; otherwise profile and posts become the collapsed ones, and the counts of records removed, posts rewritten and posts renamed are exact |
| `AssetCollapse.RetiredAreGone` | seed/scripts/asset_collapse.py:1004-1034 | afterwards every retired id is gone, every survivor is there as it was, and no other record has left |
| `AssetCollapse.CollapseSettlesIffFresh` | seed/scripts/asset_collapse.py:1004-1034 | on posts with one id each, every object is Applied afterwards with one post per id, if and only if the ids posts move to were fresh |
| `AssetCollapse.SecondCollapseIsNoOp` | seed/scripts/asset_collapse.py:1004-1034 | with fresh ids a second application is accepted and changes nothing |
| `AssetCollapse.SettledIsFixed` | seed/scripts/asset_collapse.py:1004-1034 | where every object is Applied the stage is a no-op |
| `AssetCollapse.ParserAdmitsSharedId` | seed/scripts/asset_collapse.py:731-831 | the parser asks only for unique post ids: a document it reads, accepted, after which two posts share an id |
| `AssetCollapse.StateOf` | seed/scripts/asset_collapse.py:888-970 | the two states of a substitution, on posts with one id each |
| `CollapseRecords.AcceptedIff` | seed/scripts/asset_collapse.py:888-970 | a collapse is accepted if and only if for every entry the survivor is held, the losses are exactly the paths where the two records part with both values as they stand, and the retired record, if held, is the one documented; and every substituted post is as found or as left, not both |
| `CollapseRecords.CollapsedProfileIs` | seed/scripts/asset_collapse.py:1004-1034 | of an accepted profile exactly the records of the retired ids go |
| `CollapseRecords.RemovedAreAuthenticatedIff` | seed/scripts/asset_collapse.py:1004-1034 | every record removed is the one its entry authenticates if and only if no two different records share a retired id |
| `CollapseRecords.CollapsedPostsAre` | seed/scripts/asset_collapse.py:1004-1034 | a post a substitution finds takes its new members and its new id if it has one, and keeps the rest; every other post is untouched |
| `CollapseRecords.NothingDangles` | seed/scripts/asset_collapse.py:484-533 | a post a substitution finds held the retired id; afterwards it does not, it holds the survivor, whose record is there, and no record of the retired id is |
| `ManifestGuard.Comparison.RecordChange` | seed/scripts/manifest_guard.py:361-373 | one disagreement is filed once, as an edit or as a loss |
| `ManifestGuard.Comparison.CompareRecord` | seed/scripts/manifest_guard.py:376-408 | the loops over keys and nested keys file exactly the findings of the declarative rule, no more and no fewer |
| `ManifestGuard.Compare` | seed/scripts/manifest_guard.py:423-519 | losses, changes, duplicates, migrated, collapsed and added ids are each exactly those of the rule; a contradicted migration document raises |
| `GuardRuns.PassesIffSurvives` | seed/scripts/manifest_guard.py:376-408 | a record passes if and only if every compared value stays a value and every measurement of the destination stays the same |
| `GuardRuns.CorruptedIff` | seed/scripts/manifest_guard.py:402-408 | a finding is a corrupted measurement exactly when a weighed value differs and is not emptied; it agrees with the module text if and only if the destination holds a value |
| `GuardRuns.SuppliedMeasurement` | seed/scripts/manifest_guard.py:44-47 | a measurement the source supplies where the destination has none: filed, and the publish refused |
| `GuardRuns.Guard` | seed/scripts/manifest_guard.py:423-519 | the gate accepts exactly the publishes the rule accepts |
| `GuardRuns.AcceptedIff` | seed/scripts/manifest_guard.py:423-519 | a publish is accepted if and only if every destination record is kept, moved or retired and what stays passes |
| `GuardRuns.TraceIsCarried` | seed/scripts/manifest_guard.py:423-519 | a record of any accepted run is traced to what is published now, or to a retirement that names it key for key |
| `GuardRuns.NoRunLosesAValue` | seed/scripts/manifest_guard.py:376-408 | over any run of accepted publishes a record is followed through its id and the recorded moves of it to what is published now or to its retirement; along the way every value stays a value, those inside field_values and metadata while these are objects, a byte count stays the same while each destination's source_root is absent, falsy, local, site, torrent_import or internet, and no measurement changes while one of the two roots is such and the hash is not of the internet |
| `GuardRuns.KeptByEveryRunIff` | seed/scripts/manifest_guard.py:376-408 | every run keeps a key if and only if its value is not empty and the key is not one of the two compared one level down |
| `GuardRecords.PassesIff` | seed/scripts/manifest_guard.py:376-408 | one record may become another if and only if, key by key and one level down inside field_values and metadata, a value stays a value and a guarded measurement that the source has stays the same |
| `GuardRecords.AcceptedRecordsIff` | seed/scripts/manifest_guard.py:423-519 | a publish is accepted if and only if every move goes from an id the source lacks to one it has, no two source records share an id, and every destination record, the last of its id, is kept or moved and may become what it becomes, or is retired key for key |
| `GuardRecords.MigratedIff` | seed/scripts/manifest_guard.py:423-519 | what is reported as migrated, exactly |
| `GuardRecords.CollapsedIff` | seed/scripts/manifest_guard.py:423-519 | what is reported as collapsed, exactly |
| `GuardRecords.AddedIff` | seed/scripts/manifest_guard.py:423-519 | what is reported as added, exactly |
| `PostMigration.Plan` | seed/scripts/migrate_post_ids.py:158-175 | every id that moves, or a refusal when a row of a migrated kind cannot be keyed |
| `PostMigration.CheckSafe` | seed/scripts/migrate_post_ids.py:178-212 | no problem if and only if every id is held once after the move; the clash check adds nothing to the collision check |
| `PostMigration.Apply` | seed/scripts/migrate_post_ids.py:215-223 | the rewrite in place: exactly the planned posts take the ids they derive |
| `PostMigration.SecondPlanIsEmpty` | seed/scripts/migrate_post_ids.py:158-175 | after a migration nothing is left to move and no content has changed |
| `PostMigration.MigratedIds` | seed/scripts/migrate_post_ids.py:158-175 | after the plan a post of one of the four derived kinds has the id its content derives, and every other post the id it had |
| `PostMigration.AccumulateMoves` | seed/scripts/migrate_post_ids.py:233-261 | the two loops equal their specification: recorded moves carried on, new ones added, in order of old id |
| `PostMigration.ParseMigration` | seed/scripts/manifest_guard.py:559-611 | the loop accepts exactly the one-to-one documents with no id on both sides, and returns their mapping |
| `PostMigration.OneToOneIff` | seed/scripts/manifest_guard.py:559-611 | what the parser accepts, exactly: whole moves between different ids, none moved twice or moved to twice, no new id that is an old one |
| `PostMigration.MappingIsFlat` | seed/scripts/manifest_guard.py:559-611 | the mapping sends each old id to its new one and can never be followed twice |
| `MigrationDocument.TrackedDescribes` | seed/scripts/manifest_guard.py:624-644 | a tracked document maps the birth id of every post that has moved to its present one, and nothing else |
| `MigrationDocument.AccumulatedMembers` | seed/scripts/migrate_post_ids.py:233-261 | where posts that share an id are apart, the next document records, for every post that has ever moved, the id it was born with and the id it has |
| `MigrationDocument.RetiredNext` | seed/scripts/migrate_post_ids.py:233-261 | the ids the next document retires are those of the document and the planned old ids at which no recorded move had ended |
| `MigrationDocument.MigrationUsableIff` | seed/scripts/migrate_post_ids.py:233-261 | a safe plan leaves a document that parses and agrees with the posts if and only if no planned new id is retired, every old id is named, and posts share an id only where a recorded move ends |
| `MigrationDocument.MigrationTracksIff` | seed/scripts/migrate_post_ids.py:233-261 | a safe plan leaves a document that is usable and records exactly the moved posts if and only if no planned new id is retired, every old id is named, and of two posts that share an id the recorded one moves and the other stays |
| `MigrationHistory.FirstMigrationIff` | seed/scripts/manifest_guard.py:582-604 | a first migration leaves a usable document if and only if no two posts shared an id, every moved post had one, and no new id is retired |
| `MigrationHistory.SharedOldId` | seed/scripts/migrate_post_ids.py:178-212 | two posts of one id: the plan is safe, and the document it leaves cannot be read |
| `MigrationHistory.LostHop` | seed/scripts/migrate_post_ids.py:250-260 | two posts of one id, one of them recorded: the document it leaves is accepted and names the wrong post |
| `MigrationHistory.MovedBack` | seed/scripts/migrate_post_ids.py:178-212 | a post moved back to the id it was born with: the plan is safe, and the document it leaves cannot be read |
| `MigrationHistory.WriteMigration` | seed/scripts/migrate_post_ids.py:418-479 | plan, checks, document and ids as one step: nothing changes when the plan fails or is unsafe |
| `MigrationHistory.StepTracksIff` | seed/scripts/manifest_guard.py:624-644 | a migration, an addition, an edit, a removal or an unrecorded rename keeps the document right if and only if its condition holds |
| `MigrationHistory.HistoryIsRecorded` | seed/scripts/migrate_post_ids.py:233-261 | from any profile, over any run of such steps, every document parses, agrees with the posts and records exactly the moved ones if and only if every step meets its condition; then birth ids map to present ones |
| `MigrationHistory.GuardFollowsHistory` | seed/scripts/manifest_guard.py:423-519 | so the publish guard finds, for a post published before the chain began, the post it is now |
| `DedupePosts.Dedupe` | seed/scripts/apply_upgrade.py:728-769 | the loops keep exactly the best row of each id, and return the number removed and the ids more than one row held |
| `DedupePosts.DedupedIsExact` | seed/scripts/apply_upgrade.py:728-769 | one row per id, the ids and the order kept, each row the one with the most members and the earliest among equals |
| `DedupePosts.DedupeIsIdempotent` | seed/scripts/apply_upgrade.py:728-769 | a second pass removes nothing; nothing is removed if and only if every id is held once |
| `UpgradePasses.ApplyCorrections` | seed/scripts/apply_upgrade.py:452-476 | every correction over every record, and the exact number moved |
| `UpgradePasses.ApplyDeclarations` | seed/scripts/apply_upgrade.py:479-563 | the declared records amended, and the ids nothing carries |
| `UpgradePasses.ApplyReplacements` | seed/scripts/apply_upgrade.py:234-338 | the replaced records, the exact drift count, and problems that are only ever ids nothing carries |
| `UpgradePasses.ReplaceKeepsComposition` | seed/scripts/apply_upgrade.py:350-368 | a replacement leaves the composition of a record alone, so the check after the write never fires |
| `UpgradePaths.ReplacementsRemember` | seed/scripts/apply_upgrade.py:299-300 | after the pass a replaced record of the local tree that has a path holds at replaced_source_path what it held there, or else that path; any other record gains no such key |
| `UpgradePaths.OriginalPathIff` | seed/scripts/apply_upgrade.py:471-471 | a replacement leaves the path corrections look at as it was if and only if the record did not hold the key as an empty value, or the pool file has that very name |
| `UpgradePaths.CorrectionSeesOriginal` | seed/scripts/apply_upgrade.py:452-476 | a correction applied after the swap moves the record if and only if it is on the team and the pattern occurs in the path it had before the swap |
| `UpgradePaths.RunRemembers` | seed/scripts/apply_upgrade.py:1215-1285 | after a whole run: a remembered path is as it was, a replaced local record remembers its path, and only a fill that brings the key gives it to a record with nothing to remember |
| `UpgradePaths.RunKeepsOriginalPath` | seed/scripts/apply_upgrade.py:1215-1285 | a whole run keeps the original path of a record, unless an empty key, a replaced record of another root or a fill of a first key stands in the way |
| `UpgradePaths.RunsRemember` | seed/scripts/apply_upgrade.py:1147-1517 | over any number of runs with any documents a remembered path, and the original path corrections see, stay as long as the record does |
| `UpgradeWrites.ReplacementsWrite` | seed/scripts/apply_upgrade.py:302-330 | a replaced record has the pool file's path, name, extension, size, title, licence and hash, in its metadata too, and every other key as it was |
| `UpgradeWrites.DeclarationsWrite` | seed/scripts/apply_upgrade.py:479-563 | a declared record has the provenance, and every other key as it was |
| `UpgradeWrites.OthersUntouched` | seed/scripts/apply_upgrade.py:272-280 | a pass leaves alone every record it does not name, and all but the last of an id |
| `UpgradePasses.ApplyStaged` | seed/scripts/apply_upgrade.py:876-938 | the measured records, and the exact counts of corrected sizes and hashes |
| `UpgradeWrites.StagedWrite` | seed/scripts/apply_upgrade.py:876-938 | a measured record has the size and the hash, and what the origin served where its size was wrong; every other key, in metadata too, as it was |
| `UpgradeMerges.MergeAdded` | seed/scripts/apply_upgrade.py:375-449 | a separator in a new title refuses before anything changes; otherwise held records are repaired, new ones appended, and the three counts exact |
| `UpgradeWrites.MergeBrings` | seed/scripts/apply_upgrade.py:375-449 | the merge is refused if and only if a record it would bring in has a comma or an em dash in its title; the records it brings in are exactly those of new ids, one without a path staged at the destination under the path it is published at |
| `UpgradeWrites.MergeRepairs` | seed/scripts/apply_upgrade.py:375-449 | a held record gets the document's media URL if it has none, and nothing else |
| `UpgradeMerges.MergePosts` | seed/scripts/apply_upgrade.py:566-596 | the posts the profile lacks are appended, but for moved ids; both counts are exact |
| `UpgradeWrites.PostsBrought` | seed/scripts/apply_upgrade.py:566-596 | the posts brought in are exactly those neither held nor moved away by a substitution; brought, skipped and held add up to the documents' posts |
| `UpgradeMerges.Reconcile` | seed/scripts/apply_upgrade.py:772-873 | records and values the profile lacks, counted, with the share of retired records, the fills that name nothing and those that name a retired record that is gone |
| `UpgradeMerges.FillRecord` | seed/scripts/apply_upgrade.py:846-861 | the loops over the keys of one fill write exactly the absent and empty values, and count them |
| `UpgradeWrites.FillsWrite` | seed/scripts/apply_upgrade.py:846-861 | a filled key takes the value where there was none or an empty one, one level down in an object; whatever was there stays, and so does every other key |
| `UpgradeMerges.Curate` | seed/scripts/apply_upgrade.py:634-725 | only the named values, only onto posts that exist, with the posts changed, the values written and the entries that found none |
| `UpgradeWrites.CurationWrites` | seed/scripts/apply_upgrade.py:634-725 | a curated post has the dates and the members its entry names, and every other key as it was; no other post is touched |
| `UpgradeRun.RunPasses` | seed/scripts/apply_upgrade.py:1215-1285 | the passes in the order of main, with every count, equal the run on values |
| `UpgradeRun.Committed.Upgrade` | seed/scripts/apply_upgrade.py:1147-1517 | the exit code, and that the committed files change only on a run that exits 0 with neither --check nor --dry-run |
| `UpgradeOutcomes.RefusedIff` | seed/scripts/apply_upgrade.py:1215-1285 | a run is refused if and only if a record it would bring in has a comma or an em dash in its title or the collapse document does not authenticate, in records and posts |
| `UpgradeOutcomes.ProblemsIff` | seed/scripts/apply_upgrade.py:1147-1517 | a run finds a problem if and only if a declared, replaced, measured, curated or merged object its documents name is not there, or the audit fails on what it leaves |
| `UpgradeOutcomes.ExitCodeIff` | seed/scripts/apply_upgrade.py:1488-1517 | the exit code is 2 when refused, 0 without a problem and, under --check, with all twelve counts zero and no unplaced fill, and 1 otherwise |
| `UpgradeRecords.AmendedSettles` | seed/scripts/apply_upgrade.py:234-338 | an amendment whose document brings values is settled once made |
| `UpgradeRecords.LaterKeepsSettled` | seed/scripts/apply_upgrade.py:772-873 | what one pass has settled no later pass of the run unsettles |
| `UpgradeRecords.SettledIsFixed` | seed/scripts/apply_upgrade.py:876-938 | a settled amendment changes nothing and fills nothing |
| `UpgradeRecords.CorrectedIsQuiet` | seed/scripts/apply_upgrade.py:452-476 | where no correction feeds another, none fires on what all of them have made |
| `UpgradeAssets.FedAt` | seed/scripts/apply_upgrade.py:1215-1250 | each record the collapse judges is one held before, corrected and amended by every pass in order, or one brought in and amended by the later ones |
| `UpgradeAssets.FedIsSteady` | seed/scripts/apply_upgrade.py:1215-1250 | no pass has anything left to do on any of them |
| `UpgradeAgain.FedAgain` | seed/scripts/apply_upgrade.py:375-449 | on a second run the profile is the first one, with the retired records brought back after it |
| `UpgradeFixpoint.SettlingAgain` | seed/scripts/apply_upgrade.py:1417-1468 | on a second run nothing is reconciled, measured or hashed, every value filled is filled into a record about to be retired, and the fills that name nothing are those the profile itself leaves unplaced |
| `UpgradeFixpoint.CollapseAgain` | seed/scripts/apply_upgrade.py:1417-1468 | the second collapse takes away exactly what the second merge brought back, and as many are pending as were appended |
| `UpgradeIdempotent.PostsAgain` | seed/scripts/apply_upgrade.py:566-596 | on a second run no post is merged, removed, substituted or curated |
| `UpgradeIdempotent.UpgradeIsIdempotent` | seed/scripts/apply_upgrade.py:1147-1517 | after a run that ends well, fills that name nothing included, a second run leaves profile and posts as they are, finds no problem, counts zero in every drift term and reports the same unplaced fills |
| `UpgradeIdempotent.CheckAfterRunIff` | seed/scripts/apply_upgrade.py:1488-1505 | after a run that ends well --check exits 0 if and only if that run reported no unplaced fill, that is, every fill names a record held or retired |
| `UpgradeIdempotent.MovedPostIsAProblem` | seed/scripts/apply_upgrade.py:1103-1106 | an accepted run ends with every merged post if and only if none has an id a substitution moves, unless another pending one moves onto it; with fresh ids, if and only if none has such an id; otherwise the run ends with a problem |
| `UpgradeInstances.MovedPostRun` | seed/scripts/apply_upgrade.py:1103-1106 | a document that parses, with fresh ids, whose run ends with that problem |
| `UpgradeInstances.MovedOntoRun` | seed/scripts/apply_upgrade.py:1103-1106 | a chain of substitutions after which the moved post is found again |
| `UpgradeCheck.CleanCheckIff` | seed/scripts/apply_upgrade.py:1405-1505 | where every term is zero a run leaves profile and posts as they are if and only if every record holds its last declaration and every object a fill or measurement defaults, and no merged record the profile lacks is listed twice |
| `UpgradeCheck.RetirementBalance` | seed/scripts/apply_upgrade.py:1436-1453 | what the pending terms cancel: retired records held and posts to rewrite are as many as merged records appended more than once |
| `UpgradeCheck.RecordStandsIff` | seed/scripts/apply_upgrade.py:1215-1250 | where nothing is counted a held record reaches the collapse unchanged exactly if it holds its declaration and its defaults |
| `UpgradeInstances.UnseenDeclaration` | seed/scripts/apply_upgrade.py:551-563 | a declaration the profile lacks: no term counts it, and a run writes it |
| `UpgradeInstances.UnseenMetadata` | seed/scripts/apply_upgrade.py:928 | a correct measurement of a record without metadata: no term counts the object it adds |
| `UpgradeInstances.UnseenObject` | seed/scripts/apply_upgrade.py:850-858 | a fill with an empty object: no term counts the key it adds |
| `UpgradeInstances.UnseenRetirement` | seed/scripts/apply_upgrade.py:1436-1453 | a retired record listed twice hides the removal of one the profile holds |
| `PngFilters.UnfilterSub` | seed/scripts/authored_plates.py:155-157 | filter 1 in place |
| `PngFilters.UnfilterUp` | seed/scripts/authored_plates.py:158-160 | filter 2 in place |
| `PngFilters.UnfilterAverage` | seed/scripts/authored_plates.py:161-164 | filter 3 in place |
| `PngFilters.UnfilterPaeth` | seed/scripts/authored_plates.py:165-173 | filter 4 in place |
| `PngFilters.UnfilterInverts` | seed/scripts/authored_plates.py:155-173 | unfiltering undoes the forward filters of RFC 2083, for every filter, row and row above |
| `PngFilters.FilterInverts` | seed/scripts/authored_plates.py:155-173 | and filtering undoes unfiltering |
| `PngFilters.UnfilteredMeans` | seed/scripts/authored_plates.py:155-173 | each restored byte is the stored one plus the byte three before, the byte above, half their sum, or the first of left, above and upper left nearest to their estimate, modulo 256 |
| `PngFiles.DecodeRows` | seed/scripts/authored_plates.py:145-178 | the loop over the rows, its growable buffer included, equals the decoder on values, with each way it can fail |
| `PngFiles.RowsRoundTrip` | seed/scripts/authored_plates.py:145-178 | decoding undoes encoding for every image and every filter on every row |
| `PngFiles.ReadChunks` | seed/scripts/authored_plates.py:128-143 | the loop over the chunks equals the reader on values |
| `PngFiles.ReadPng` | seed/scripts/authored_plates.py:124-178 | the whole reader |
| `PngFiles.PngRoundTrip` | seed/scripts/authored_plates.py:124-178 | any image, any filters, any cut of the compressed data into chunks: the reader gives back size and pixels |
| `PngFiles.WritePng` | seed/scripts/authored_plates.py:181-199 | the writer makes the file of one data chunk with filter 0 on every row, or raises where a number does not fit |
| `PngFiles.WriteThenRead` | seed/scripts/authored_plates.py:181-199 | reading what was written gives the image back, for every size the format can hold |
| `PngFiles.FileBytes` | seed/scripts/authored_plates.py:181-199 | the written file byte by byte: signature, header of 8-bit true colour, one data chunk, empty last chunk |
| `PngFiles.HeaderRead` | seed/scripts/authored_plates.py:133-138 | only a thirteen-byte header of 8-bit true colour without interlacing is taken |
| `FbxWalk.Reader.WalkFrom` | seed/scripts/populate_archive.py:438-478 | the loop and its recursion end on every input and find the media of the walk on values |
| `FbxWalk.ParseBinary` | seed/scripts/populate_archive.py:481-486 | the version chooses the header width; the media are those of the walk |
| `FbxWalk.WalkIsNested` | seed/scripts/populate_archive.py:438-478 | an accepted walk visits a nested forest, no deeper than the limit, and stops within its bounds |
| `FbxWalk.AllLaminar` | seed/scripts/populate_archive.py:438-478 | of any two records the later starts after the earlier has ended or lies whole in its body |
| `FbxWalk.ParsedForest` | seed/scripts/populate_archive.py:438-478 | for both header widths: every name and property list inside its record, records nested at most 33 deep or apart, and no more of them than headers fit |
| `FbxMedia.EntryMeans` | seed/scripts/populate_archive.py:438-478 | one record tells the media it is in, and no other, its relative name, its absolute name or that its bytes are embedded; a Video or a Texture opens a media of its own for the records inside it |
| `FbxMedia.ParsedMedia` | seed/scripts/populate_archive.py:481-486 | a file has exactly one media for each Video or Texture record, however deep; version 7500 and later have 25-byte headers |
| `Copier.Destination.RunItems` | seed/scripts/populate_archive.py:2101-2357 | the loop leaves the destination of the run on values, and every item in exactly one counter |
| `Copier.TallyIsPartition` | seed/scripts/populate_archive.py:2101-2357 | each counter counts the items of its outcome and the counters add up to the items |
| `Copier.InternetFileStands` | seed/scripts/populate_archive.py:2334-2341 | an internet file at its recorded size is never rewritten |
| `Copier.WrittenIsRecorded` | seed/scripts/populate_archive.py:2216-2357 | what is written for an authority root is the source at the recorded size or the zip member with the recorded hash |
| `Copier.CleanMeansDescribed` | seed/scripts/populate_archive.py:2460-2466 | after a run that exits 0 the verified, internet and hq files are what their records describe |
| `Copier.SecondRunStands` | seed/scripts/populate_archive.py:2101-2357 | after a run that exits 0 a second run over the same sources leaves every file as it is, whatever the network answers |
| `Copier.DryRunWritesNothing` | seed/scripts/populate_archive.py:2101-2357 | a dry run writes nothing |
| `CopierFates.MirroredItem` | seed/scripts/populate_archive.py:2216-2248 | a root neither staged nor decided by the record: the file becomes its source unless they are of one length; without a source it stays; with the counter it lands in |
| `CopierFates.DecidedItem` | seed/scripts/populate_archive.py:2249-2357 | an authority root: the source is taken only at the recorded size and only where the destination is not at it, a pack file may be recovered from its zip member, everything else stays; with the counter it lands in |
| `CopierFates.VerifiedItem` | seed/scripts/populate_archive.py:2125-2196 | a staged root: a file that is there is checked and never replaced, one that is absent or empty is fetched if what is served is what the record says |
| `CopierFates.RunLeaves` | seed/scripts/populate_archive.py:2101-2357 | so for every item of every run, and every path that is no item's destination stays |
| `CopierFates.DryRunForecasts` | seed/scripts/populate_archive.py:2101-2357 | a dry run counts every item as the run would, but for what only the network can tell |

## Left out

- Files, the network, clocks and processes: file contents are values, what a server sends is a parameter, and `safe_mkdir`, temporary files and retries are not modelled.
- SHA-256, CRC-32 and zlib are abstract functions; the hexadecimal form of digests is not modelled.
- JSON typing: the `isinstance` tests of the parsers, unknown keys, and values that cannot be dictionary keys. Numbers and booleans are one kind of value, as Python's `==` treats them. A record whose `metadata` is present and not an object is not modelled in the upgrade passes, which raise on it.
- Messages, report order, samples of ids and every printed line; only whether something is refused, and for which reason.
- UTF-8: a file is a sequence of characters, its byte count is its length, and undecodable bytes and the field size limit of the `csv` module are not modelled.
- Path aliasing, snapshots, and the byte authentication of retirements beyond its verdict (`attested` in `CsvPublish`).
- `remove_retired_paths`, pruning, companions and `_clean_companion_uri`: straight checks on paths.
- Dotted loss paths: a path is a sequence of keys, so two keys that only look alike when joined with dots stay apart. The measurement keys of the publish guard are told by their dotted form, as in the code.
- `derived_id` is any function of a post's content; the title parses and UUIDs behind it are in a file that is not part of this model. `title_for` is likewise a value of the replacement row.
- `audit` is an arbitrary predicate of the final lists, but for the clause about merged posts; the advisories of the curation are not modelled.
- `build_groups_transform` and `transform_groups` are modelled on values: their loops are those of the metadata.csv twins, which are modelled as loops.
- `canvas`, `rect`, `frame`, `blit`, `downsample`, `sample_palette`, the ASCII FBX parser, `kenney_hq.py`, `studio_balance.py`, `measure_staged.py` and `audit_uncatalogued.py` would only add easy members.
- TitleRule.NormalizeTitle: asks that no separator be whitespace or a hyphen, as is true of the separators every caller passes.
- ManifestGuard.Compare: findings are sets, so the order in which a report lists them is not stated.
- UpgradeRun.Committed.Upgrade: does not model the alias copies beside the profile.
- UpgradeMerges.Curate: does not model the advisories for posts whose membership has moved, which change nothing.
- DedupePosts.Dedupe: the duplicated ids are a set; that the report sorts them is not stated.
- Copier.Destination.RunItems: does not model companions, retirements and pruning around the loop, nor two records with one destination, nor two with one root and source path, which the profile's mapping makes one item with the later destination (`seed/scripts/populate_archive.py:1928-1932`).
- FbxWalk.ParsedForest: bounds the property list of a record; the payload of the one property that is read may run past it, since the code does not compare the two.
