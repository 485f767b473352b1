# Verified models of configuration, knowledge and benchmark code

This project models the parts of the repository whose correctness rests on loops, protocols and rewrites rather than
on wiring, and proves what they are for. Every statement below is about all inputs, all runs or all reachable states
of the model; nothing was executed. `dafny verify dfyconfig.toml` checks everything.

## What is modelled

**Env-to-database migration** (`env_file`, `pool_migration`, `config_migration`, `migration_safety`, `migration_run`,
`migration_examples`).
A file is a list of bindings, each with its key, value and source text. A run has three durable steps: the database
commit, the replacement of the secrets file, the replacement of the env file; it may stop after any of them. Names are
written in upper case throughout, database rows are identified by key and domain. The results are crash safety,
convergence of a rerun, preservation of every resolved setting, and when a second run is a no-op.

- A key spelled in two letter cases can be resolved differently by reading and by rewriting.
  `EnvFile.ReadingAgreesWithRewriting` says for every file exactly when the two agree, and
  `EnvFile.MixedCaseIsReadDifferently` shows three lines on which they do not; the migration results take one spelling
  per key.
- A finished `--trim-env` run is *not* always a fixed point. `MigrationSafety.SecondRun` gives the exact condition, and
  `MigrationExamples.DeepinfraIsForgotten` an env file of one line that violates it. A second run can also be refused:
  `MigrationSafety.SecondRunIsAccepted` says exactly when, `MigrationExamples.HundredConnectionsAreForgotten` gives one.
- What the migration results assume of the declarations and of numbers as text is met by a concrete catalog with decimal
  numbers (`MigrationExamples.SettingsAreProper`).

**Merged-cell tables** (`table_layout`, `table_text`, `table_pipes`, `table_markdown`, `table_rereading`). The parser's
event machine, the grid filled by nested loops, the escaping printer, and the pipe-table branch. The layout follows
section 4.9.12.1 of the WHATWG HTML Standard except that overlap is an error; the printed form is that of section 4.10
of the GitHub Flavored Markdown specification, with the code's own rule for what separates two cells.

**Act versions** (`timeline`, `timeline_laws`, `timeline_undo`, `act_store`, `act_commands`, `act_invariants`,
`act_runs`, `act_delivery`, `act_unit_of_work`). The tables for acts, versions, chunk projections and the vector outbox;
uploads and reviews as functions from one committed state to the next, and as methods that write statement by
statement. Every write is checked against the unique index on current versions, and none is ever refused by it.

- An edition that is put into an act, dated or not, with an end of its own or not, can overlap what is there:
  `TimelineLaws.PlacedEditionOverlaps` is an equivalence, and uploads without a date and relinked editions are its
  cases. Rebuilding a timeline can leave overlaps as well; `Timeline.RebuiltIsDisjoint` says exactly when.
- The docstring of `remove` promises to preserve explicit expiry dates. Uploading an edition and removing it again does
  not always: closing at the new start overwrites the expiry, which is then taken for a derived boundary.
  `TimelineUndo.RemovalUndoesUpload` says exactly when nothing is lost, `TimelineUndo.ExpiryIsLost` gives a timeline.
- The outbox is delivered as the dispatcher does it, by reading the row committed at that moment; the payload stored in
  the entry is covered by `ActRuns.DeliveryConverges`.

**Configuration updates** (`config_parameters`, `config_updates`). Any number of updaters that validate outside the
lock, recheck the version inside it and write, interleaved with the seeding steps.

- Normalising a string value is not idempotent, so the value that was validated and stored can differ from the one read
  back. `ConfigParameters.NormalizedTwice` says for which raw values it does not, `NormalizingIsNotIdempotent` gives one,
  and `ConfigUpdates.ValidatedIsCommitted` draws the consequence for what the provider accepted.

**Context packing** (`context_rendering`, `context_packing`). The renderer that regroups blocks by document and numbers
them, the greedy packer, and the loop that trims the tail and packs again, with its closed form.

**Checkpointed resume** (`comparison_resume`). Any history of starts, requests, failures, crashes and resumptions.

**Small transformers** (`sse_reader`, `document_citations`, `blank_lines`). The incremental event-stream reader, the
citation rewrite of a Markdown tree, the blank-line codemod.

`outcomes` and `characters` hold the option and result types and the character classes the others share.

## Model

| member | source | states |
|---|---|---|
| EnvFile.ReadingTakesTheLastBinding | server/app/infrastructure/config_migration.py:70-73 | with one spelling per key, the dictionary that is read gives every name the value of its last binding in the file |
| EnvFile.RewriteEnv | server/app/infrastructure/config_migration.py:81-111 | the loops build the text of the rewritten list of bindings: kept bindings verbatim, a line end if one is missing, then one line per update |
| EnvFile.RewrittenValues | server/app/infrastructure/config_migration.py:81-111 | rereading the result gives the old values without the removed names, overridden by the updates; a source's last binding wins |
| EnvFile.RewrittenIsWellFormed | server/app/infrastructure/config_migration.py:92-109 | no two bindings fuse, also when the old file's last line was not terminated |
| EnvFile.RewrittenKeepsTheRest | server/app/infrastructure/config_migration.py:87-92 | bindings that are neither removed nor updated survive in their order and unchanged, up to the line end of the last |
| EnvFile.RewritingIsIdempotent | server/app/infrastructure/config_migration.py:81-111 | applying the same rewrite again is the identity |
| EnvFile.RewrittenHasOneSpelling | server/app/infrastructure/config_migration.py:99-103 | a rewrite never introduces a second spelling of a name |
| EnvFile.ReadingAgreesWithRewriting | server/app/infrastructure/config_migration.py:70-103 | for every file, whatever the letter cases, reading and rewriting resolve it alike if and only if each name's last spelling to appear carries the value of the name's last binding |
| EnvFile.MixedCaseIsReadDifferently | server/app/infrastructure/config_migration.py:70-103 | the failing input: three lines, a name in lower, upper and again lower case, are read as the second and rewritten as the third |
| PoolMigration.PoolRows | server/app/infrastructure/config_migration.py:225-255 | an accepted result is empty exactly when no pool name was given, and otherwise has all four rows with positive connections and keepalive between 0 and connections for both pools |
| PoolMigration.PoolParameters | server/app/infrastructure/config_migration.py:225-255 | the loops that fill the dictionary compute those rows or fail where the specification does |
| PoolMigration.HalvingNeverFails | server/app/infrastructure/config_migration.py:200-255 | with only legacy names given the result is an error exactly when the legacy limits themselves are invalid, and the rows are the limits and their halves |
| ConfigMigration.MovesAreSecrets | server/app/infrastructure/config_migration.py:265-269 | the moved names are exactly the secret names with a value in the env file |
| MigrationRun.Deployment.Migrate | server/app/infrastructure/config_migration.py:339-400 | a run stopped after any number of durable steps leaves exactly the first that many parts of the planned target; refused and dry runs change nothing |
| MigrationRun.Deployment.Commit | server/app/infrastructure/config_migration.py:367-387 | the transaction turns the rows into the planned ones |
| MigrationRun.Insert | server/app/infrastructure/config_migration.py:381-384 | plain inserts add the missing rows and never meet an existing one |
| MigrationRun.Delete | server/app/infrastructure/config_migration.py:386-387 | the deletions remove the agreed storage rows and no other |
| MigrationSafety.SecretsStayReadable | server/app/infrastructure/config_migration.py:258-400 | at every crash point each secret is still readable with its old value and its sources still agree |
| MigrationSafety.EffectiveAfter | server/app/infrastructure/config_migration.py:351-398 | at every crash point a name's effective value is the old one, unless it was trimmed from an env file that was its only source |
| MigrationSafety.SettingsStayResolved | server/app/infrastructure/config_migration.py:286-400 | for every setting, row else environment else default resolves to the same value before and after every step, legacy pool names and agreed storage rows included |
| MigrationSafety.OtherRowsAreUntouched | server/app/infrastructure/config_migration.py:367-387 | no existing row outside the storage keys is changed or removed, and a new row always comes from a value in the environment |
| MigrationSafety.RemovedNamesAreKept | server/app/infrastructure/config_migration.py:359-398 | whatever the env file lost is in the secrets file with its value, or in the database, unless it is an obsolete name |
| MigrationSafety.RerunEndsTheSame | server/app/infrastructure/config_migration.py:339-400 | a rerun started before the env file was replaced is accepted and ends with the rows and the two files of an uninterrupted run |
| MigrationSafety.SecondRunIsAccepted | server/app/infrastructure/config_migration.py:225-255 | a second run after a finished one is refused, as an invalid value, if and only if it was trimmed and the pool names left in the secrets file and the process environment do not derive on their own |
| MigrationSafety.SecondRun | server/app/infrastructure/config_migration.py:272-400 | an accepted second run changes neither rows nor secrets, and leaves the env file alone if and only if the compose profile is settled |
| MigrationSafety.SecondUntrimmedRun | server/app/infrastructure/config_migration.py:339-400 | without trimming, a second run is accepted and changes nothing |
| MigrationExamples.TrimmedProviderIsForgotten | server/app/infrastructure/config_migration.py:272-283 | with nothing but a provider other than tei in the env file, a trimmed run and a second one are both accepted, and the second changes the env file again |
| MigrationExamples.DeepinfraIsForgotten | server/app/infrastructure/config_migration.py:272-283 | such a migration in full: a catalog, a one-line env file and the credentials |
| MigrationExamples.TrimmedLimitIsRefused | server/app/infrastructure/config_migration.py:200-223 | with the connection limit in the env file and a keepalive of 50 in the process environment, a trimmed run is accepted and a second one is refused |
| MigrationExamples.HundredConnectionsAreForgotten | server/app/infrastructure/config_migration.py:200-223 | such a migration in full |
| TableLayout.FillGrid | services/ocr_vl/tables.py:57-69 | the nested loops fill exactly the positions of the reference layout, each with its cell's text, or fail exactly when that layout does |
| TableLayout.FreeColumn | services/ocr_vl/tables.py:60-62 | the column search ends at the leftmost free column at or after the cursor |
| TableLayout.FillCell | services/ocr_vl/tables.py:64-68 | claiming a rectangle position by position succeeds exactly when none of its positions is taken |
| TableLayout.LayoutCharacterised | services/ocr_vl/tables.py:57-69 | a completed layout holds every cell once, in order, at the leftmost free column; a failed one stops at a cell with a taken position in its own top row |
| TableLayout.TakenBelowIsTakenHere | services/ocr_vl/tables.py:57-69 | a column taken in a later row is taken in every earlier row that is still open |
| TableLayout.ClearIffClearInOwnRow | services/ocr_vl/tables.py:64-67 | a rectangle is free if and only if its top row is |
| TableLayout.SingleColumnsNeverOverlap | services/ocr_vl/tables.py:57-69 | a table without column spans never fails |
| TableLayout.GreedyIsDisjoint | services/ocr_vl/tables.py:64-68 | no two rectangles of a layout share a position |
| TableLayout.TilesHaveTheirArea | services/ocr_vl/tables.py:64-69 | the number of filled positions is the sum of rowspan times colspan |
| TableLayout.FilledGridIsExact | services/ocr_vl/tables.py:57-73 | a successful grid is an exact tiling by the table's cells in their order |
| TableMarkdown.TableParser.constructor | services/ocr_vl/tables.py:11-16 | the parser starts empty with a one by one span |
| TableMarkdown.TableParser.HandleStartTag | services/ocr_vl/tables.py:18-28 | a start tag opens a row or a cell, records its spans or rejects them, or breaks a line in an open cell |
| TableMarkdown.TableParser.HandleEndTag | services/ocr_vl/tables.py:34-40 | an end tag closes a cell into the open row, or the row into the table |
| TableMarkdown.TableParser.Feed | services/ocr_vl/tables.py:18-56 | feeding events one by one is the fold of the step function and stops at the first invalid span |
| TableMarkdown.RunIsValid | services/ocr_vl/tables.py:22-26 | whatever the events, recorded spans lie between 1 and 100 |
| TableMarkdown.ParserReadsTables | services/ocr_vl/tables.py:18-40 | a table written out as tags is read back cell for cell |
| TableMarkdown.GridBounds | services/ocr_vl/tables.py:72-73 | height and width are one more than the largest row and column of the dictionary |
| TableMarkdown.PrintGrid | services/ocr_vl/tables.py:72-82 | the printing loops give one line per row of the layout with the rule second, each label repeated over its rectangle and gaps marked unreadable |
| TableMarkdown.Convert | services/ocr_vl/tables.py:43-82 | the whole conversion: which branch is taken, which error is raised, and what is printed |
| TableText.LineSplitsIntoItsCells | services/ocr_vl/tables.py:51-80 | a printed row of w cells splits at unescaped pipes into exactly w + 2 parts: nothing, the padded cells, nothing |
| TableText.CellIsRecovered | services/ocr_vl/tables.py:78-79 | a cell without line breaks is recovered by undoing the escape, whatever pipes and backslashes it holds |
| TableRereading.RowReadsBack | services/ocr_vl/tables.py:51-80 | every printed row reads back into its labels |
| TableRereading.PrintedTableIsFixed | services/ocr_vl/tables.py:43-82 | the printed table goes through the conversion unchanged when no cell holds a table tag or a line separator other than CR and LF |
| TableRereading.PipeTableIsFixed | services/ocr_vl/tables.py:44-54 | on content without an HTML table the conversion is idempotent |
| Timeline.LatestStart | server/app/domain/knowledge/acts/timeline.py:38-43 | the greatest start that is not after the day |
| Timeline.SuccessorDate | server/app/domain/knowledge/acts/timeline.py:45-54 | the least start after a date, if there is one |
| Timeline.InsertBoundary | server/app/domain/knowledge/acts/timeline.py:56-74 | the loop closes the editions that cover the new date and demotes current ones when the new edition is the latest |
| Timeline.SortedInOrder | server/app/domain/knowledge/acts/timeline.py:109-115 | sorting by start date and id gives a strict order |
| Timeline.SortedMembers | server/app/domain/knowledge/acts/timeline.py:109-115 | sorting loses and invents nothing |
| Timeline.RebuildTimeline | server/app/domain/knowledge/acts/timeline.py:131-158 | the loops rebuild ends and the current flag as specified, or fail when an edition would end before it starts |
| Timeline.RebuiltAt | server/app/domain/knowledge/acts/timeline.py:138-146 | position by position: each rebuilt edition ends at the earlier of its explicit end and the next start, and its dates are valid |
| Timeline.RebuiltCurrent | server/app/domain/knowledge/acts/timeline.py:148-156 | an edition is current if and only if it is the last one in force today |
| Timeline.RebuiltIsDisjoint | server/app/domain/knowledge/acts/timeline.py:131-158 | rebuilt editions are apart on every day if and only if no edition followed by an undated one meets a later one, which is seen from starts and ends before rebuilding |
| Timeline.DatedEditionsNeverMeet | server/app/domain/knowledge/acts/timeline.py:131-158 | that is so whenever every edition but the first in order has a start date |
| Timeline.RebuildingIsIdempotent | server/app/domain/knowledge/acts/timeline.py:113-158 | rebuilding a rebuilt timeline with the ends it makes explicit changes nothing |
| TimelineLaws.DatedUploadKeepsDisjoint | server/app/application/act_versioning/commands.py:207-222 | a dated upload keeps the periods of an act's editions apart |
| TimelineLaws.UndatedUploadOverlaps | server/app/application/act_versioning/commands.py:212-222 | an upload without a date keeps them apart if and only if no other edition is ever in force |
| TimelineLaws.PlacedEditionOverlaps | server/app/application/act_versioning/commands.py:207-222 | whatever its start and end, an edition placed into an act keeps periods apart if and only if no other edition comes into force during its period |
| TimelineLaws.RelinkedEditionOverlaps | server/app/application/act_versioning/commands.py:378-384 | a relinked edition with its own end, dated or not, keeps them apart if and only if no other edition comes into force after its start, if it has one, and before that end |
| TimelineLaws.UndatedEditionsStayOpen | server/app/domain/knowledge/acts/timeline.py:140-146 | the failing input: two undated editions without ends are rebuilt with overlapping periods |
| TimelineUndo.RemovalUndoesUpload | server/app/domain/knowledge/acts/timeline.py:56-158 | an upload, dated or not, followed by the removal of the new edition leaves what rebuilding the old timeline gives if and only if no edition loses its end, a condition on the old order and the new start |
| TimelineUndo.ExpiryIsLost | server/app/domain/knowledge/acts/timeline.py:56-158 | the failing input: an expiry on day 10 is gone after an upload for day 5 was removed again |
| TimelineUndo.DerivedEndsAreKept | server/app/domain/knowledge/acts/timeline.py:113-123 | nothing is lost from dated editions that all end where the next one starts |
| TimelineUndo.OrderIsUnique | server/app/domain/knowledge/acts/timeline.py:109-115 | a set of editions has one order only |
| ActStore.ScopeKeyDecides | server/app/domain/knowledge/acts/policy.py:14-34 | two documents have the same scope key if and only if they are in the same visibility scope |
| ActStore.ListMembers | server/app/infrastructure/repositories/misc/sqlalchemy_act_version_repository.py:100-113 | listing an act gives exactly its versions, each once |
| ActStore.SaveAllKeepsProjections | server/app/application/act_versioning/persistence.py:46-71 | saves keep every chunk equal to its version's row, the last outbox entry of each version equal to its row, and at most one current version per act |
| ActStore.SaveAllOverwrites | server/app/application/act_versioning/persistence.py:40-71 | a series of saves overwrites those rows and appends one entry each, in order |
| ActStore.SavingTheChangedIsEnough | server/app/application/act_versioning/persistence.py:40-44 | saving only the changed versions leaves the same rows and chunks as saving all of them |
| ActInvariants.TimelineSavesSucceed | server/app/domain/knowledge/acts/timeline.py:76-86 | demoting before promoting, a rebuilt timeline is saved without a conflict on the unique index |
| ActInvariants.UploadKeepsConsistency | server/app/application/act_versioning/commands.py:160-231 | an upload keeps the store consistent and leaves a version for the document; it fails only for a missing document or a clash of act identities, never on the unique index |
| ActInvariants.ReviewKeepsConsistency | server/app/application/act_versioning/commands.py:233-384 | a review keeps the store consistent and fails only for the reasons it checks itself, never on the unique index |
| ActRuns.ReachableVersions | server/app/application/act_versioning/commands.py:160-384 | in every reachable state no document has two versions, and the versions of one act have documents of the same scope and at most one is current |
| ActRuns.DeliveryConverges | server/app/application/act_versioning/persistence.py:58-71 | delivering the remaining entries in order from any consumed prefix leaves each saved version's payload equal to its row |
| ActRuns.UploadInvalidationIsComplete | server/app/application/act_versioning/commands.py:145-158 | every document whose version row an upload changed is in the set invalidated after the commit |
| ActRuns.ReviewInvalidationIsComplete | server/app/application/act_versioning/commands.py:243-277 | every document whose version row a review changed, in the old act or in the new, is in the set invalidated after the commit |
| ActRuns.LinkedDocument | server/app/application/act_versioning/answers.py:20-29 | invalidating an act covers the document of every version linked to it |
| ActDelivery.StepAnnounces | server/app/application/act_versioning/persistence.py:46-71 | every command only appends to the outbox, and each version whose row changed, in whatever column, gets a new entry |
| ActDelivery.NextCatchesUp | server/app/infrastructure/repositories/vector/outbox_dispatcher.py:162-187 | every event keeps this: an announced version is up to date in the vector store, or will be written again |
| ActDelivery.AcknowledgedMeansUpToDate | server/app/infrastructure/repositories/vector/outbox_dispatcher.py:47-187 | after any interleaving of commands, deliveries and retries, once all entries are acknowledged each saved version's payload is its row's |
| ActUnitOfWork.UnitOfWork.Save | server/app/application/act_versioning/persistence.py:46-71 | the row update, the two chunk updates and the outbox entry together are the specified save |
| ActUnitOfWork.UnitOfWork.SaveChanges | server/app/application/act_versioning/persistence.py:40-44 | the loop saves the changed versions in their order and stops at a refused one |
| ActUnitOfWork.UnitOfWork.FindOrCreateAct | server/app/application/act_versioning/commands.py:72-130 | the act found, dated from its title, or created, as specified |
| ActUnitOfWork.UnitOfWork.CreateVersion | server/app/application/act_versioning/commands.py:132-231 | an upload writes what the specification says and returns the document's version, or is rolled back |
| ActUnitOfWork.UnitOfWork.UpdateVersion | server/app/application/act_versioning/commands.py:233-277 | a review writes what the specification says, or is rolled back |
| ActUnitOfWork.UnitOfWork.RelinkVersion | server/app/application/act_versioning/commands.py:351-384 | relinking saves the new act's versions and returns the linked one |
| ActUnitOfWork.UnitOfWork.MoveVersion | server/app/application/act_versioning/commands.py:252-272 | the moved row is saved before the old act's remaining ones, with the specified result |
| ConfigParameters.NormalizedTwice | server/app/domain/runtime/config.py:44-52 | normalising a normalised value changes nothing if and only if, in the raw value without its outer blanks and then double quotes, no blank or double quote stands at an end behind single quotes only |
| ConfigParameters.NormalizingIsNotIdempotent | server/app/domain/runtime/config.py:44-52 | a value that is stored one way and read back another |
| ConfigParameters.SeedingKeepsValues | server/app/infrastructure/initialization.py:64-107 | seeding keeps type and value of every row that is not misplaced, deletes exactly the misplaced ones, and adds exactly the declared rows that were missing |
| ConfigParameters.SeedConfigDefaults | server/app/infrastructure/initialization.py:64-82 | the two loops delete, insert and recategorise as specified |
| ConfigParameters.SeedDomainConfigDefaults | server/app/infrastructure/initialization.py:85-107 | the nested loops over profiles insert what is missing |
| ConfigUpdates.ConfigStore.WriteUnderLock | server/app/application/admin/config_service.py:105-138 | recheck, lookup, normalisation, write and event under the lock, as specified |
| ConfigUpdates.CommitsAreExact | server/app/application/admin/config_service.py:96-155 | in every run a committed update leaves exactly the snapshot its updater validated, with one value replaced |
| ConfigUpdates.ValidatedIsCommitted | server/app/infrastructure/ml/config/provider_configuration.py:233-286 | what is decoded after a commit is what the provider validated if and only if the value reads back as it was normalised; then the provider accepts what was committed |
| ConfigUpdates.CommittersSawEveryChange | server/app/application/admin/config_service.py:96-155 | an updater that commits had seen every change committed before |
| ConfigUpdates.ChangesReplay | server/app/application/admin/config_service.py:121-135 | replaying the events in commit order gives the rows, and each old value is what its predecessor left |
| ConfigUpdates.OneOfManyWins | server/app/application/admin/config_service.py:108-113 | after a commit, an updater that validated the same version is refused if and only if the commit changed the value |
| ContextRendering.RegroupedIsGrouped | server/app/infrastructure/ml/rag/context_rendering.py:77-98 | regrouping twice is regrouping once and renders the same blocks |
| ContextRendering.GroupedPrefix | server/app/infrastructure/ml/rag/context_rendering.py:77-98 | a prefix of a regrouped list is regrouped, and renders to a prefix of its blocks with the same numbers |
| ContextPacking.SelectedDocsRendererIsProper | server/app/infrastructure/ml/rag/context_rendering.py:77-98 | the renderer cuts its text short when blocks are dropped from the end, and changes nothing when given its own list |
| ContextPacking.CountGrows | server/app/infrastructure/ml/rag/prompt_budget.py:10-16 | neither counter gets smaller when the context gets longer |
| ContextPacking.ReconstructCandidates | scripts/benchmark/replay_context_snapshots.py:54-68 | the loop keeps the first item of each key |
| ContextPacking.FirstOccurrencesAreKept | scripts/benchmark/replay_context_snapshots.py:59-68 | no two kept items share a key |
| ContextPacking.KeptWhereFirstSeen | scripts/benchmark/replay_context_snapshots.py:59-68 | what is kept for a key is its first occurrence |
| ContextPacking.KeptInOrder | scripts/benchmark/replay_context_snapshots.py:59-68 | the kept items stay in the order of their first occurrences |
| ContextPacking.SequentialPack | scripts/benchmark/replay_context_snapshots.py:71-83 | the loop takes each block that still fits and records the keys of the others |
| ContextPacking.PackingTakesAll | scripts/benchmark/replay_context_snapshots.py:71-83 | packing a regrouped list that fits as a whole takes all of it and rejects nothing |
| ContextPacking.LongestFitIsLongest | scripts/benchmark/replay_context_snapshots.py:111-127 | exactly the prefixes up to that length have a whole prompt that fits |
| ContextPacking.TrimAndRepack | scripts/benchmark/replay_context_snapshots.py:101-127 | the loop ends, returns the longest fitting prefix of the first greedy selection with one trace entry per pass, and the error of no fitting block is never reached |
| ContextPacking.UnifiedCounterNeedsOnePass | scripts/benchmark/replay_context_snapshots.py:108-122 | with the counter of the final check the first selection already fits |
| ContextPacking.LegacySelection | scripts/benchmark/replay_context_snapshots.py:86-127 | the selection is the longest prefix of the first greedy one that fits, and the whole of it with the unified counter |
| ContextPacking.OrderingPermutes | scripts/benchmark/replay_context_snapshots.py:96-99 | both orders offer every candidate exactly as often as it was given |
| ContextPacking.ByScoreSorts | scripts/benchmark/replay_context_snapshots.py:99 | the relevance order is a permutation with scores going down |
| ComparisonResume.RowsAreJobs | scripts/benchmark/compare_frozen_generation.py:140-290 | over every history, rows name jobs of the frozen product with the right seed and never one of them twice |
| ComparisonResume.HistoryOnlyGrows | scripts/benchmark/compare_frozen_generation.py:201-290 | whatever happens later, what was recorded stays, the file keeps belonging to its snapshot, and its provider is fixed once a row is recorded |
| ComparisonResume.FlightIsBounded | scripts/benchmark/compare_frozen_generation.py:208-258 | at no time are more requests in flight than the concurrency allows, nor one that is already recorded |
| ComparisonResume.CountDecides | scripts/benchmark/compare_frozen_generation.py:284-291 | the final count is right if and only if every job is recorded, and if and only if none of this run's jobs failed |
| ComparisonResume.ProductCount | scripts/benchmark/compare_frozen_generation.py:288 | with unique cases and models the product has as many keys as the check expects rows |
| ComparisonResume.StartDecides | scripts/benchmark/compare_frozen_generation.py:194-213 | after any history a start succeeds if and only if the snapshot is valid and the frozen one, the provider is that of the recorded rows, and the models answer if a job is left; it keeps every row and has exactly the jobs without one to do, or else changes nothing |
| ComparisonResume.Comparison.Open | scripts/benchmark/compare_frozen_generation.py:194-213 | a start reads, checks and saves the file, or leaves everything as it was |
| ComparisonResume.Comparison.Acquire | scripts/benchmark/compare_frozen_generation.py:215-216 | a waiting job becomes a request only when there is room |
| ComparisonResume.Comparison.Record | scripts/benchmark/compare_frozen_generation.py:239-258 | an answer is appended and saved in one step |
| ComparisonResume.Comparison.RecordFailure | scripts/benchmark/compare_frozen_generation.py:266-281 | a failed attempt is put on record and saved |
| ComparisonResume.Comparison.Conclude | scripts/benchmark/compare_frozen_generation.py:285-291 | the last save and the count |
| SseReader.Stream.Receive | client/src/shared/lib/sse.ts:69-90 | one turn of the read loop is the specified step on buffer, event and callbacks |
| SseReader.Stream.HandleLine | client/src/shared/lib/sse.ts:74-89 | one line sets the event, or makes its callback and clears the event, or does nothing |
| SseReader.Stream.ReadAll | client/src/shared/lib/sse.ts:67-91 | the loop over all chunks is the fold of that step |
| SseReader.ChunksAreOneText | client/src/shared/lib/sse.ts:67-91 | reading chunk by chunk comes to the same as reading the text in one piece |
| SseReader.ChunksDoNotMatter | client/src/shared/lib/sse.ts:67-91 | two ways of cutting one text into chunks make the same callbacks |
| SseReader.NameServesOneDataLine | client/src/shared/lib/sse.ts:76-88 | no event line names the event of two data lines |
| SseReader.OneCallPerDataLine | client/src/shared/lib/sse.ts:76-88 | each line makes at most one callback, chosen by the event line that names it, if any |
| SseReader.CrLfMeansTheSame | client/src/shared/lib/sse.ts:72-75 | text without carriage returns means the same when every LF becomes CR LF |
| DocumentCitations.SplitText | client/src/shared/lib/document-citations.ts:33-51 | the match loop makes the specified pieces |
| DocumentCitations.Visit | client/src/shared/lib/document-citations.ts:25-53 | the recursive visit rebuilds the tree as specified |
| DocumentCitations.TextIsKept | client/src/shared/lib/document-citations.ts:25-54 | the concatenated text of the tree is unchanged |
| DocumentCitations.PiecesAreTextsOrCitations | client/src/shared/lib/document-citations.ts:36-50 | a rewritten text becomes non-empty texts and links that show `[n]` for an n whose source has a valid document id |
| DocumentCitations.VisitedIsClean | client/src/shared/lib/document-citations.ts:36-50 | no resolvable `[n]` is left in rewritable text at any depth |
| DocumentCitations.RewritingTwiceIsRewritingOnce | client/src/shared/lib/document-citations.ts:18-56 | a second pass changes nothing |
| DocumentCitations.OtherChildrenStay | client/src/shared/lib/document-citations.ts:26-32 | a child that is not text keeps its place, and stays as it is under code, links and images |
| BlankLines.FixBody | server/tools/blank_lines.py:64-75 | the loop adds a blank line where a gap is needed and none starts the statement |
| BlankLines.FixBlock | server/tools/blank_lines.py:48-75 | inner blocks first, then the statements of the block |
| BlankLines.FixingFillsGaps | server/tools/blank_lines.py:64-101 | after the codemod every required gap, in any block, is filled |
| BlankLines.FixingOnlyInserts | server/tools/blank_lines.py:89-101 | a tree of any depth changes in no other way than by blank lines above statements |
| BlankLines.FixingInTurn | server/tools/blank_lines.py:64-101 | running it for target sets A then B is running it once for their union |
| BlankLines.EitherOrder | server/tools/blank_lines.py:64-101 | the order of two target sets does not matter |
| BlankLines.FixingIsIdempotent | server/tools/blank_lines.py:64-101 | fixing a fixed tree changes nothing |

## Left out

Assumptions, by model:

- Env files: dotenv's lexer is not modelled. Reading the concatenated texts of a well-formed list of bindings is taken to give that list back, and upper-casing the first occurrence of its key to change a binding's key and nothing else.
- Migration: `migration_parameter`, `int` and `str` are a codec with stated laws; the declarations enter as a catalog whose facts (which names are secret, dynamic, storage or obsolete, and the providers' defaults) are read off `setting_keys.py`, `dynamic_params.py` and `config.py`.
- Migration: rejected symlinks, missing and malformed files, backups, file modes, fsync and an editor that changes a file during the run are not modelled; replacing a file is one durable step, and writing a file with its own content is none.
- Migration: process environment names are taken to be in upper case already; the log lines are left out.
- Tables: html.parser's tokenisation enters as a list of events; `str.lower` is modelled on ASCII letters only; line splitting treats CR LF as two separators, which makes no difference because blank lines are dropped.
- Act versions: transactions are serialised, document scopes do not change, and versions and documents are never deleted; row ids are table positions.
- Act versions: reference extraction, `parse_date_guess` and the planner's trust threshold enter as arguments.
- Act versions: one dispatcher works on one batch at a time; with several dispatchers a late write of an old row could follow a newer one. Entries that are given up after their last attempt are not modelled.
- Act versions: the payload fallback for a version row that no longer exists, and entries of other kinds in the outbox, are left out.
- Configuration updates: preparing clients for a candidate snapshot, and `ConfigParameter.validate`, are predicates, the first of which looks at decoded values only; versions are digests taken to be injective; keys are compared in the case they are declared in; no key is declared both for all domains and for one.
- Configuration updates: updating without a provider configuration, where nothing is rechecked, is left out.
- Context packing: a block's header without its number and its sanitised content are given texts; scores are real numbers; chunk hashes are taken as keys.
- Resume: the order in which jobs start, the summary, the model catalog and the answer's other columns are left out; the snapshot's digest is taken to be injective.
- Event stream: decoding UTF-8, `JSON.parse` and `String.trim` are functions of the text; callbacks that throw are left out, as are aborts and HTTP errors.
- Citations: `Number` on digits is a function of them. The tree is a value, so the in-place assignment of a node's children and sharing between nodes are not captured.
- Blank lines: parsing and printing source code are left out; a tree is statements with leading lines and nested blocks.

Not modelled at all, because it would only add wiring or easier members:

- React pages and components, load tests, health and metrics scripts, model and vector-store information.
- Dependency containers, application start-up and shutdown.
- The other benchmark scripts, which repeat the resume protocol in simpler forms, and judging prompts.
- `server/tools/domain_imports.py`, whose meaning rests on scope metadata that is not part of this model.
- OCR inference, retrieval, reranking and generation.
