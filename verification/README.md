# Verified core of the Azure Support Agent

Azure Support Agent is an operations workbench whose backend streams model answers, migrates its own
database at start-up, checks its documentation, reads Azure Advisor and keeps OAuth sign-ins. This project
models the parts of it whose correctness depends on more than one function and proves what they promise.

| Modules | What they model |
|---|---|
| `Markers`, `ContentBlocks`, `ClaudeStream` | the finder of tool calls written as text, the holdback that keeps them out of the answer, the assembly of content blocks, the 401 retry and the final flush of one Claude turn |
| `Migrations`, `MigrationRaces` | any number of replicas running the migration entrypoint under an advisory lock (PostgreSQL manual, section 13.3.5), with failures and deaths at any step; a transaction keeps the version it read, so that overlapping ones repeat revisions |
| `Schema`, `GuardedUpgrades`, `Revisions` | guarded revisions 0006, 0011 and 0012, and what happens when they are cut off and started again |
| `Tenancy`, `TenancyTerms` | revision 0010 on live rows: names unique everywhere become names unique per tenant, and back |
| `PageWalk`, `Png`, `ScreenshotGate`, `DocsGate`, `GateVerdict` | the documentation gate: globs with `**`, the pruned directory walk, the PNG chunk walk (RFC 2083, sections 3.2 and 4.1.4), the table of approved images, the verdict |
| `AdvisorFetch`, `AdvisorPool`, `AdvisorQuery`, `AdvisorAnswer` | paging, retries and bounded concurrency of the Advisor tool, the scope of a query, the counts of its answer, and the three put together |
| `CatalogKeys` | unique keys for imported alerts and when the search for one ends |
| `Base64Url`, `TokenStore`, `RefreshRuns`, `SignInRuns`, `StoreRuns` | unpadded base64url (RFC 4648, section 5; RFC 7636, Appendix A), the two token stores, and their runs in which refreshes and code exchanges overlap |
| `Grains` | lookbacks, metric grains and the choice of a grain |
| `Collections`, `Numerals` | shared vocabulary |

Code that updates state in place is a class or a method with loops; each is tied to a function of its inputs
or of the old state, and lemmas prove what the source promises about that function. What such a function
means is said once more without it: of events by their positions, of schemas by columns and indexes, of paths
by components, of rows by fields, of bytes by their spelling.

## Where the code does less than its text says

Each of these is stated with a concrete case and with the exact condition under which the promise holds.

- The marker finder reports an index into the lower-cased text. U+0130 lower-cases to two characters, so each
  one in front of a marker moves the index right by one. Two things follow. The `<` of the marker is released
  if and only if a U+0130 precedes it (`MarkerIsReleasedIff`, `DottedCapitalLeaksABracket`). And when the index
  lies beyond the end of the marker, what lies between is never shown if the answer was cut there: the text
  shown does not depend on the cutting if and only if no more U+0130 precede the marker than it has
  characters, or nothing follows it (`CuttingDoesNotMatterIff`, `SteadyIff`, `CutLosesText`).
  `ShownIsVisibleIff` says when every cutting shows what it ought to, with and without calls.
- The migration lock excludes other replicas only while its own session lives. Whenever a replica holds it, the
  loss of that one session lets a second replica in if and only if there is one, and lets the transaction of one
  be overtaken by the other's commit if and only if a revision is left to run as well
  (`LostLockSessionLetsTwoIn`, `OvertakenIff`). What then happens depends on the update of Alembic's version row,
  which is a parameter of the model: if it asks for the version read before, the overtaken migration can only
  fail and every revision still takes effect once (`OvertakenFailsIff`, `CheckedRunsAreExact`); if not, it takes
  effect twice (`RevisionsRepeatIff`).
- The importer cuts candidate keys to 64 characters, so the search for a free suffix need not end: a taken
  key of full length has no successor (`FullLengthNeverEnds`). It ends if and only if a free key is among
  finitely many candidates (`SearchEndsIff`), the whole run if and only if that holds at each alert
  (`RunEndsIff`), and always when the suffix fits (`OneOfThemIsFree`, `RoomIsEnough`).
- A refresh whose response carries no refresh token writes back the one it read. The store holds the newest
  token issued to it at every moment of a run if and only if no such refresh ends after the stored token has
  changed, and no write that brings none could not read the file (`NewestIsHeldIff`,
  `StaleRefreshReplacesNewer`, `UnreadFileLosesRefresh`). A refresh under way during a sign-out brings the
  tokens back (`SignedOutIff`, `RefreshUndoesSignOut`).
- A completion clears whatever sign-in is pending when its code has been exchanged. Every success uses a pair
  of its own and clears that one alone if and only if no exchange that succeeds is overlapped by a new sign-in,
  a sign-out or another success, and none fails to delete its pair (`SignInsAreProperIff`,
  `TwoCompletionsSpendOnePair`, `NewSignInIsCleared`).
- A write of tokens is said to preserve prior fields when blank. It does if and only if an access token is given
  or none was stored: a blank one is written over it (`PriorFieldsAreKeptIff`, `BlankAccessIsWritten`).
- A grain with seconds prints as `PT…S`, which the lookback reader does not know: it reads as one day
  (`PrintedGrain`). It is therefore passed over for coarser ones although it is readable, and picked although it
  gives far more than 500 points and a coarser one would not (`SecondsArePassedOver`,
  `SecondsArePickedUnreadable`, `TooManyPoints`). The grain picked is the finest readable one by its true
  duration, or the coarsest, for every span if and only if each grain that is misread, for its seconds or for
  being longer than 93 days, is coarser than all others, in truth and as read (`PicksTheFinestIff`); for the
  spans of at most 93 days that a lookback can have the condition is weaker (`PicksTheFinestForLookbacksIff`).
- A lookback of a billion days or more raises an overflow although the documentation says it is capped
  (`PrintedFormsOverflowIff`, `ABillionDays`).
- Upgrading and downgrading revision 0010 gives a table with distinct names back, up to the name and place of
  its constraint on `name`, if and only if it had no tenant column, no index for one, and exactly one such
  constraint (`RoundTripIff`, `NoConstraintBecomesOne`, `TwoConstraintsBecomeOne`, `ForeignColumnIsDropped`).
  The upgrade lifts global uniqueness if and only if no constraint makes names unique, or one does and none makes
  them unique per tenant (`UpgradeLiftsUniquenessIff`, `BothConstraintsStay`). Both are stated for tables in
  which the two constraint names of the revision stand for their columns.
- The downgrade of 0010 is said to fail before it changes any constraint. It fails for a repeated name, changing
  nothing, and also where the constraint to be dropped goes by another name or the name to be created is taken;
  then another table may have been changed (`DowngradeFailsIff`, `FailedDowngradeChangesNothingIff`,
  `ForeignNameSticks`).
- What an Advisor query selects lies in the list of allowed subscriptions if and only if that list is not
  empty (`AllowedListRestrictsIff`, `NothingAllowedSelectsAll`).

## Model

| member | source | states |
|---|---|---|
| Markers.HoldbackIsLongestLessOne | backend/app/agent/tool_protocol.py:378-383 | the holdback is one less than the longest marker: none is longer, one is that long |
| Markers.FirstMarkerIsFirst | backend/app/agent/tool_protocol.py:386-394 | the reference position is a marker, and no marker stands before it |
| Markers.FindFunctionCallMarker | backend/app/agent/tool_protocol.py:386-394 | the loop over the markers returns the position of the first marker in the text, moved right by the number of U+0130 in front of it, or -1 if there is none |
| Markers.LowerCharIs | backend/app/agent/tool_protocol.py:388 | what lower-casing does to each character that matters |
| Markers.MarkersAre | backend/app/agent/tool_protocol.py:378 | the four markers |
| Markers.AnyCase | backend/app/agent/tool_protocol.py:388-391 | text that differs from lower-case text in the case of ASCII letters only is lowered to it |
| Markers.OccurrenceIsShifted | backend/app/agent/tool_protocol.py:388-391 | every occurrence in the lower-cased text is a marker spelled out in the text itself, displaced by exactly the U+0130 before it |
| Markers.FirstMarkerIsFinal | backend/app/agent/claude_provider.py:275-281 | once a marker is complete, no continuation of the text makes an earlier one |
| Markers.LateMarkerIsHeldBack | backend/app/agent/tool_protocol.py:381-383 | a marker completed only by later text begins within the held-back characters |
| ClaudeStream.StreamedIsReleased | backend/app/agent/claude_provider.py:267-285 | for every way of cutting the text: without a marker all but the last 15 characters are out; with one the text up to the reported index is, or what had arrived when the marker was found if that is less |
| ClaudeStream.NoMarkerIsEverReleased | backend/app/agent/claude_provider.py:274-285 | at every moment and for every continuation, what is out is a prefix of the answer that ends at or before its first marker |
| ClaudeStream.MarkerIsReleasedIff | backend/app/agent/claude_provider.py:274-285 | the released text stops before the marker if and only if no U+0130 precedes the marker |
| ClaudeStream.DottedCapitalLeaksABracket | backend/app/agent/claude_provider.py:276-280 | a concrete answer whose marker's first character is shown |
| ClaudeStream.Release | backend/app/agent/claude_provider.py:267-285 | one text delta changes the holdback state and releases text as the specification does |
| ClaudeStream.ShownWhenSteady | backend/app/agent/claude_provider.py:306-333 | of a steady answer the same text is shown however it is cut: all of it without calls, else up to the reported index |
| ClaudeStream.ShownIsVisibleIff | backend/app/agent/claude_provider.py:306-333 | every cutting shows the text before the marker when calls result, else the whole text, if and only if the answer is steady (no calls) or free of U+0130 before its marker (calls) |
| ClaudeStream.ShownWithCallsIff | backend/app/agent/claude_provider.py:306-333 | with calls this holds of each way of cutting by itself |
| ClaudeStream.SteadyIff | backend/app/agent/claude_provider.py:275-281 | steady means: no more U+0130 before the marker than the marker has characters, or nothing after it |
| ClaudeStream.CutBehindTheMarker | backend/app/agent/claude_provider.py:274-285 | any other answer shows less when cut behind its marker than in one piece, and exactly what |
| ClaudeStream.CutLosesText | backend/app/agent/claude_provider.py:306-333 | a concrete answer that loses its last character when cut in front of it |
| ClaudeStream.CuttingDoesNotMatterIff | backend/app/agent/claude_provider.py:267-333 | all ways of cutting an answer into deltas show the same text if and only if the answer is steady |
| ContentBlocks.BlockHasItsOwnEvents | backend/app/agent/claude_provider.py:253-287 | a content block depends on the events of its own index alone |
| ContentBlocks.InterleavingDoesNotMatter | backend/app/agent/claude_provider.py:253-321 | interleavings that keep each block's order yield the same native calls, in block order |
| ContentBlocks.CollectCalls | backend/app/agent/claude_provider.py:311-321 | the loop over the sorted blocks collects the tool-use blocks in index order |
| ContentBlocks.BlockIs | backend/app/agent/claude_provider.py:253-287 | a block carries the kind, id and name of its last start, and its JSON fragments since then, joined as they arrived |
| ContentBlocks.NativeCallsAre | backend/app/agent/claude_provider.py:311-321 | there is one call for every block whose last start is one of a tool, in the order of the indexes, and its arguments are decoded from those fragments |
| ClaudeStream.HandleEvent | backend/app/agent/claude_provider.py:253-290 | one event keeps holdback, blocks, usage and shown text in step with the events read so far |
| ClaudeStream.Receive | backend/app/agent/claude_provider.py:237-293 | a response is read to its end or first error event; up to there state and shown text are those of the decoded events |
| ClaudeStream.Conclude | backend/app/agent/claude_provider.py:306-337 | the end of the turn: held-back text is flushed or withheld, calls are native or parsed from the tail, the last event is `done` |
| ClaudeStream.TextsAre | backend/app/agent/claude_provider.py:263-274 | the text of the turn is the text deltas of every block, as they arrived |
| ClaudeStream.DecodedAre | backend/app/agent/claude_provider.py:238-248 | the events of the turn are those of the lines that carry one, as they arrived |
| ClaudeStream.UsageIs | backend/app/agent/claude_provider.py:288-290 | the count reported is the last one, or zero |
| ClaudeStream.Stream | backend/app/agent/claude_provider.py:203-337 | a whole turn with the 401 retry: it fails exactly on an error status or error event of the response served, and otherwise shows the visible text of that response and yields its calls: one for each tool block with its id, name and joined arguments, or without any those parsed from the marker on |
| Migrations.StepKeepsInv | backend/alembic/env.py:36-65 | every step of every replica keeps the invariant: only the holder has a transaction open, and its base is the committed version |
| Migrations.CommitKeepsInv | backend/alembic/env.py:36-39 | a commit continues log and schema because its base is the committed version, which is what the lock ensures |
| Migrations.EveryRunIsSafe | backend/alembic/env.py:36-65 | any run of any number of replicas with failures anywhere: one inside at most, schema matches recorded version, each revision took effect once in chain order, success means head |
| Migrations.UpgradedStepByStep | backend/alembic/env.py:36-39 | revision v is what leads from version v to the next |
| Migrations.EveryRunLeavesItsMarks | backend/alembic/env.py:36-65 | with revisions that write down their numbers, every run leaves the numbers from the old version to the new, once and in order, as in the log |
| Migrations.HolderCanMove | backend/alembic/env.py:59-65 | the holder can always begin, run its next revision, commit or unlock by itself |
| Migrations.LockIsFreed | backend/alembic/env.py:59-65 | the holder takes at most chain length plus three steps before the lock is free, whatever the others do |
| Migrations.UnlockIsRefusedIff | backend/alembic/env.py:44-65 | in every run of either design the unlock is refused exactly when its session is gone or a failed migration ran on it, and the outcome of the migration is reported exactly when it is not refused |
| MigrationRaces.LostLockSessionLetsTwoIn | backend/alembic/env.py:51-65 | from every state with a holder, losing the lock session once can lead to two replicas inside if and only if there are two |
| MigrationRaces.OvertakenIff | backend/alembic/env.py:45-65 | with the lock no transaction is overtaken; losing the lock session once lets one be if and only if another replica is there and a revision is left |
| MigrationRaces.OvertakenFailsIff | backend/alembic/env.py:36-39 | an overtaken migration that has run to the head can commit exactly if the version row is not checked, and can fail |
| MigrationRaces.RevisionsRepeatIff | backend/alembic/env.py:45-65 | from every state with a holder, losing the lock session once can make a revision take effect twice if and only if another replica is there, a revision is left, and the version row is not checked |
| MigrationRaces.CheckedRunsAreExact | backend/alembic/env.py:36-47 | if it is checked, schema, version and exactly-once hold in every run of either design, whatever becomes of the lock |
| MigrationRaces.CheckedRunsLeaveTheirMarks | backend/alembic/env.py:36-47 | so does every run with the version row checked |
| MigrationRaces.BothLeaveTheirMarks | backend/alembic/env.py:45-65 | a race without the check leaves them twice |
| GuardedUpgrades.SettledIsKept | backend/alembic/versions/0011_background_work_leases.py:28-54 | a step that has nothing left to do stays so across later steps that do not undo it |
| GuardedUpgrades.RunSettlesAll | backend/alembic/versions/0011_background_work_leases.py:125-165 | after a run every step of it has nothing left to do |
| GuardedUpgrades.RunIsDone | backend/alembic/versions/0011_background_work_leases.py:28-54 | after a run every table asked for is there, and in the tables that are there every column, every index whose columns are, and no index that was to go |
| GuardedUpgrades.RaisesIff | backend/alembic/versions/0011_background_work_leases.py:38-46 | a step raises exactly for a missing referenced table, a missing column of an unchecked index, or an index name taken elsewhere |
| GuardedUpgrades.RunIsWellFormed | backend/alembic/versions/0011_background_work_leases.py:28-54 | a run keeps column names apart in a table, index names apart in the schema, and indexes on columns that exist |
| GuardedUpgrades.Resumes | backend/alembic/versions/0011_background_work_leases.py:125-165 | a run begun again from what any prefix left behind ends in the schema, and with the error, of one clean run |
| GuardedUpgrades.InterruptionsDoNotMatter | backend/alembic/versions/0011_background_work_leases.py:125-165 | so does a run after any number of interrupted attempts |
| GuardedUpgrades.RunIsIdempotent | backend/alembic/versions/0011_background_work_leases.py:125-165 | running it twice is running it once |
| GuardedUpgrades.RunExtends | backend/alembic/versions/0011_background_work_leases.py:28-54 | a run loses no table, column or index except those asked to go, and adds nothing that was not asked for |
| GuardedUpgrades.CreatedWhole | backend/alembic/versions/0012_durable_job_registries.py:29-104 | a table that a run creates has all its columns |
| Revisions.AddMissingColumns | backend/alembic/versions/0011_background_work_leases.py:28-35 | the loop, which reads the existing columns once, runs the guarded column steps |
| Revisions.CreateIndexIfMissing | backend/alembic/versions/0011_background_work_leases.py:38-46 | one guarded index step, with or without the check on its columns |
| Revisions.DropIndexIfPresent | backend/alembic/versions/0011_background_work_leases.py:49-54 | one guarded index removal |
| Revisions.Upgrade0011 | backend/alembic/versions/0011_background_work_leases.py:125-165 | the upgrade runs its listed steps, on any schema; without an error each leased table that exists has its lease columns, the claims and queries are indexed, the old delivery index is gone |
| Revisions.AddRegistry | backend/alembic/versions/0012_durable_job_registries.py:29-110 | a table created only if missing, then its indexes |
| Revisions.Upgrade0012 | backend/alembic/versions/0012_durable_job_registries.py:28-110 | the upgrade runs its listed steps, on any schema; without an error the three registries are there with their indexes |
| Revisions.Upgrade0006 | backend/alembic/versions/0006_case_principal.py:30-42 | the upgrade runs its listed steps, on any schema; without an error cases that exist have the three columns and the index |
| Revisions.UpgradesResume | backend/alembic/versions/0012_durable_job_registries.py:20-110 | 0006, 0011 and 0012, from any subset of tables and after any interrupted attempts: same end as one clean run, idempotent, extending |
| Revisions.Achieves0011 | backend/alembic/versions/0011_background_work_leases.py:125-165 | what revision 0011 achieves, by table, column and index name |
| Tenancy.WithTenantKeepsRows | backend/alembic/versions/0010_access_control_tenants.py:20-36 | the tenant column comes with the default tenant for rows without one, and every record stays |
| Tenancy.ScopedIff | backend/alembic/versions/0010_access_control_tenants.py:42-68 | exchanging the constraints works exactly when no tenant has a name twice, and leaves the rows alone |
| Tenancy.UnscopedRestoresNames | backend/alembic/versions/0010_access_control_tenants.py:94-109 | rows with distinct names always get their global constraint back |
| Tenancy.WithoutTenantKeepsRows | backend/alembic/versions/0010_access_control_tenants.py:110-117 | dropping the column takes its index and constraints along and no record |
| Tenancy.RoundTripIsIdentity | backend/alembic/versions/0010_access_control_tenants.py:20-117 | a legacy table with one constraint on name: upgrade then downgrade gives it back but for that constraint's name and place |
| Tenancy.UpgradeLiftsUniquenessIff | backend/alembic/versions/0010_access_control_tenants.py:46-68 | names cease to be globally unique if and only if no constraint made them so, or one did and none was per tenant |
| Tenancy.BothConstraintsStay | backend/alembic/versions/0010_access_control_tenants.py:47-51 | a table that is unique both ways is passed over and stays globally unique |
| Tenancy.RoundTripConstraints | backend/alembic/versions/0010_access_control_tenants.py:42-109 | the round trip leaves one constraint on name where there was none, one less where there were several and none per tenant |
| Tenancy.RoundTripIff | backend/alembic/versions/0010_access_control_tenants.py:20-117 | the round trip gives a table back, up to name and place, if and only if it had no tenant column, no index for one, and exactly one constraint on name |
| Tenancy.ForeignColumnIsDropped | backend/alembic/versions/0010_access_control_tenants.py:116-117 | a tenant column that was there before does not come back |
| Tenancy.NoConstraintBecomesOne | backend/alembic/versions/0010_access_control_tenants.py:105-109 | an empty table without such a constraint comes back with one |
| Tenancy.TwoConstraintsBecomeOne | backend/alembic/versions/0010_access_control_tenants.py:52-65 | a table with two of them stays globally unique and comes back with one |
| Tenancy.EachTable | backend/alembic/versions/0010_access_control_tenants.py:21-27 | a loop over tables works if and only if each table's change does, and touches no other table |
| Tenancy.UpgradeScopesNames | backend/alembic/versions/0010_access_control_tenants.py:20-68 | the upgrade works exactly when no tenant has a name twice; then all records and tenants are kept and (tenant, name) is unique |
| TenancyTerms.UpgradeMeans | backend/alembic/versions/0010_access_control_tenants.py:20-68 | by name: the tenant column and its index, the default tenant, the constraint on (tenant_id, name), and that nothing else is lost |
| Tenancy.UniqueNamesUpgrade | backend/alembic/versions/0010_access_control_tenants.py:38-68 | from globally unique names the upgrade always works |
| Tenancy.UnscopedFailsIff | backend/alembic/versions/0010_access_control_tenants.py:99-109 | with distinct names the constraint exchange fails exactly if the per-tenant constraint goes by another name, or the name for the global one is taken |
| Tenancy.DowngradeFailsIff | backend/alembic/versions/0010_access_control_tenants.py:71-109 | on every database the downgrade fails exactly when a name repeats, having changed nothing, or a table is stuck in this way |
| Tenancy.ConventionalIsNotStuck | backend/alembic/versions/0010_access_control_tenants.py:99-109 | a table in which the two names stand for their columns never is |
| Tenancy.FailedDowngradeChangesNothingIff | backend/alembic/versions/0010_access_control_tenants.py:72-109 | a failed downgrade has changed nothing if and only if a name repeats, or every table reached is left as it is |
| Tenancy.ForeignNameSticks | backend/alembic/versions/0010_access_control_tenants.py:46-51 | a concrete database whose per-tenant constraint of another name is adopted, and whose downgrade stops half way |
| Tenancy.DowngradeRestoresNames | backend/alembic/versions/0010_access_control_tenants.py:71-117 | otherwise every record stays, the column is gone and names are unique again |
| TenancyTerms.DowngradeMeans | backend/alembic/versions/0010_access_control_tenants.py:93-117 | by name: the column and its index are gone, the constraint on name is back, and nothing else is lost |
| TenancyTerms.UnnamedConstraint | backend/alembic/versions/0010_access_control_tenants.py:41-65 | an unnamed constraint goes by the table and its first column |
| Tenancy.UpgradeThenDowngrade | backend/alembic/versions/0010_access_control_tenants.py:20-117 | both work on a sound database with distinct names; named tables come back as their round trip, the providers without their tenant column, all else unchanged |
| Tenancy.DatabaseComesBackIff | backend/alembic/versions/0010_access_control_tenants.py:20-117 | the database comes back, up to names and places of constraints, if and only if no table of the revision had a tenant column or its index and each named one has exactly one constraint on name |
| Tenancy.AccessDatabase.Upgrade | backend/alembic/versions/0010_access_control_tenants.py:20-68 | the two loops leave the tables, and the error, that the specification gives for the old tables |
| Tenancy.AccessDatabase.Downgrade | backend/alembic/versions/0010_access_control_tenants.py:71-117 | the check and the two loops leave the tables, and the error, that the specification gives |
| PageWalk.MatchesIffExpansion | docs/_validate_screenshots.py:45-51 | a path matches exactly when the pattern has an expansion that spells it, each `**` standing for any number of components |
| PageWalk.ExcludedIff | docs/_validate_screenshots.py:54-66 | a path is excluded exactly if a component is one to leave out, a component fits a pattern of one component, or a leading part of it can be laid out along a pattern, built-in or configured |
| PageWalk.ExclusionIsInherited | docs/_validate_screenshots.py:54-66 | exclusion of a path is exclusion of everything below it |
| PageWalk.HiddenFilesAddNothing | docs/_validate_screenshots.py:79-86 | the files under an excluded directory would add nothing to the result |
| PageWalk.Walk | docs/_validate_screenshots.py:79-108 | the walk that prunes comes to what visiting every file of the tree comes to |
| PageWalk.VisitFindsThePublished | docs/_validate_screenshots.py:82-108 | visiting files finds exactly the published pages, each with its body, broken ones included |
| PageWalk.AllFilesIff | docs/_validate_screenshots.py:79-83 | the files enumerated are exactly those of the tree |
| PageWalk.PublishedPages | docs/_validate_screenshots.py:73-109 | so the pruned walk finds exactly the published pages of the whole tree, said of the tree and the components of the path |
| PageWalk.NoPageFitsAnExclude | docs/_validate_screenshots.py:61-62 | no page has a component, at any depth, that fits an exclude of one component |
| Png.WalkChunks | docs/_validate_screenshots.py:203-218 | the loop ends on every input and reports what the recursive walk reports |
| Png.CompleteIsAccepted | docs/_validate_screenshots.py:203-218 | every serialised chunk list that ends in its first, empty IEND is accepted, and its metadata noticed |
| Png.EndedIff | docs/_validate_screenshots.py:203-218 | accepted exactly when the bytes after the signature are such a list |
| Png.NoProperPrefixIsAccepted | docs/_validate_screenshots.py:203-218 | no proper prefix of an accepted file is accepted |
| GateVerdict.TypesAreSpelled | docs/_validate_screenshots.py:208-214 | the chunk types, in letters |
| GateVerdict.NumberIs | docs/_validate_screenshots.py:206 | numbers have their most significant byte first |
| GateVerdict.SerialisedIs | docs/_validate_screenshots.py:205-213 | a chunk is its length, type, data and CRC in this order |
| GateVerdict.HeaderIff | docs/_validate_screenshots.py:199-201 | the header test, byte by byte |
| ScreenshotGate.InspectImage | docs/_validate_screenshots.py:189-220 | one image has no problem exactly when it is flawless and no duplicate |
| ScreenshotGate.RepeatedDigest | docs/_validate_screenshots.py:195-198 | removing the entry of a repeated digest keeps the table exact |
| ScreenshotGate.FreshDigest | docs/_validate_screenshots.py:198-222 | entering a new digest exactly for a flawless file keeps the table exact |
| ScreenshotGate.ApproveImages | docs/_validate_screenshots.py:178-222 | the one pass leaves digest d for file f exactly when f is flawless and no other hashed file has digest d; no problem exactly when that holds of every file |
| ScreenshotGate.OrderDoesNotMatter | docs/_validate_screenshots.py:178-222 | the approval table does not depend on the order of the manifest |
| ScreenshotGate.CheckPage | docs/_validate_screenshots.py:227-268 | a page has no problem exactly when it is well written, and books exactly the approved files it shows |
| ScreenshotGate.CheckPages | docs/_validate_screenshots.py:225-268 | over all pages: whether they are well written, which files are used and which pages are covered, exactly |
| ScreenshotGate.NamesCount | docs/_validate_screenshots.py:175-177 | comparing the two counts detects exactly the manifests that list a file twice |
| ScreenshotGate.FineFilesAreShown | docs/_validate_screenshots.py:224-268 | once all files are fine, being shown by way of the table is being shown by the image's own bytes or include |
| ScreenshotGate.Validate | docs/_validate_screenshots.py:162-282 | the error list is empty exactly when the site is publishable: every file a valid image of its own, every page well written and covered, every file shown, nothing left over |
| GateVerdict.PublishableIff | docs/_validate_screenshots.py:162-282 | what publishable means, entry by entry and page by page, from the bytes and the manifest alone |
| DocsGate.Gate | docs/_validate_screenshots.py:73-282 | walk and gate together, over the directory tree: no error exactly when every published page of the tree is sound and covered and the manifest is in order |
| GateVerdict.ManifestIff | docs/_validate_screenshots.py:168-223 | what the gate asks of the manifest, entry by entry |
| GateVerdict.TreeInOrderIff | docs/_validate_screenshots.py:224-275 | what it asks of the pages of the tree, page by page |
| DocsGate.AssetsAre | docs/_validate_screenshots.py:185-192 | a screenshot is excluded as any path is |
| DocsGate.ScannedIs | docs/_validate_screenshots.py:227-229 | a page is scanned under its own path, for its own body |
| AdvisorFetch.AtMostTwentyCalls | backend/app/advisor/agent_tool.py:66-79 | no schedule of faults makes a subscription cost more than twenty calls |
| AdvisorFetch.Limits | backend/app/advisor/agent_tool.py:14-17 | five pages, four attempts, 500 rows, four at a time |
| AdvisorFetch.TransientIff | backend/app/advisor/agent_tool.py:71-74 | an error is worth a retry exactly if one of the seven tokens stands in it, in letters of either case |
| AdvisorFetch.PageFailsIff | backend/app/advisor/agent_tool.py:69-79 | a page fails exactly on a permanent error after transient ones only, or on four transient ones |
| AdvisorFetch.FaultsDoNotMatter | backend/app/advisor/agent_tool.py:66-109 | unless a page it needs fails so, a fetch ends with what the subscription holds; else with an error and no rows |
| AdvisorFetch.FailsIffBroken | backend/app/advisor/agent_tool.py:66-79 | the attempts fail on some page exactly when the schedule exhausts one |
| AdvisorFetch.GatheredIsThePrefix | backend/app/advisor/agent_tool.py:84-109 | those are the first 500 rows of the first five pages |
| AdvisorFetch.PagesFollow | backend/app/advisor/agent_tool.py:66-108 | those pages are what stands at the links, one after the other |
| AdvisorFetch.FailureIsReported | backend/app/advisor/agent_tool.py:78-83 | a failed fetch reports the first 300 characters of an error it met, or that a page cannot be read, and keeps no rows |
| AdvisorFetch.FetchSubscription | backend/app/advisor/agent_tool.py:57-109 | the nested loops end as the call-by-call specification does, after as many calls |
| AdvisorPool.StepKeepsInv | backend/app/advisor/agent_tool.py:163-170 | permits and running fetches always add up to four, and each fetch stays on its course |
| AdvisorPool.AnyOrderIsAsGoodAsOneByOne | backend/app/advisor/agent_tool.py:163-170 | in every interleaving at most four are in flight and each result is that of the fetch alone, in its target's place |
| AdvisorPool.EachResultIsFaultFree | backend/app/advisor/agent_tool.py:57-170 | every result of every schedule is the fault-free one, or an error when a page does not get through |
| AdvisorPool.EveryScheduleEnds | backend/app/advisor/agent_tool.py:163-170 | no schedule is longer than 22 steps a subscription, and none is stuck before all are done |
| AdvisorQuery.ScopedIds | backend/app/advisor/agent_tool.py:123-136 | the base list covers exactly visible ∩ allowed ∩ scope, up to case, in visible spellings |
| AdvisorQuery.Narrow | backend/app/advisor/agent_tool.py:142-146 | a request is refused exactly when some id lies outside; else each requested id is taken once |
| AdvisorQuery.Select | backend/app/advisor/agent_tool.py:123-156 | queried and omitted together are exactly visible ∩ allowed ∩ scope ∩ requested; at most 25 are queried and none omitted before that |
| AdvisorQuery.SelectedMeans | backend/app/advisor/agent_tool.py:123-146 | each selected subscription is visible, and allowed, in scope and requested where there is such a list |
| AdvisorQuery.SelectedIsAll | backend/app/advisor/agent_tool.py:123-146 | every subscription of that kind is selected |
| AdvisorQuery.AllowedListRestrictsIff | backend/app/advisor/agent_tool.py:125-130 | queried and omitted subscriptions of a selection lie in the allowed list if and only if that list is not empty |
| AdvisorQuery.DistinctIds | backend/app/advisor/agent_tool.py:23-38 | every candidate is found up to case, none twice |
| AdvisorQuery.Tally | backend/app/advisor/agent_tool.py:208-214 | a counter says of each key in how many places it stands, and its counts add up to the number of keys |
| AdvisorQuery.Merge | backend/app/advisor/agent_tool.py:171-201 | what stays are the first rows of their kind among the wanted rows of the subscriptions that did not fail, in order; the errors are those that did |
| AdvisorQuery.MergedLosesNothing | backend/app/advisor/agent_tool.py:180-201 | every wanted row has a recommendation with the same subscription, type, resource and problem, up to case |
| AdvisorQuery.MergedRepeatsNothing | backend/app/advisor/agent_tool.py:192-200 | no two recommendations agree in all four |
| AdvisorQuery.MergedAddsNothing | backend/app/advisor/agent_tool.py:180-201 | every recommendation is one of those rows, of that subscription |
| AdvisorQuery.Summarise | backend/app/advisor/agent_tool.py:171-233 | each table says how many recommendations have a category, an impact, a subscription name, and sums to their number; succeeded plus failed is queried; complete exactly without failure or omission |
| AdvisorAnswer.ResultIsHeld | backend/app/advisor/agent_tool.py:57-170 | under Azure's own test for transient errors, each gathered result is what the subscription holds, or an error exactly where a page does not get through |
| AdvisorAnswer.UrlsDiffer | backend/app/advisor/agent_tool.py:62-65 | every subscription is asked at an address of its own |
| AdvisorAnswer.Answer | backend/app/advisor/agent_tool.py:163-233 | the payload of any schedule counts what the subscriptions hold, unless a page does not get through |
| CatalogKeys.CandidateIs | backend/scripts/import_amba_catalog.py:415 | a candidate is the key, an underscore and the number, cut to 64 characters |
| CatalogKeys.TheFirstCandidate | backend/scripts/import_amba_catalog.py:413-415 | a concrete candidate |
| CatalogKeys.CandidatesRepeat | backend/scripts/import_amba_catalog.py:412-416 | every candidate key already appears among finitely many suffixes, because of the cut |
| CatalogKeys.SearchEndsIff | backend/scripts/import_amba_catalog.py:412-416 | the search ends if and only if one of those candidates is free |
| CatalogKeys.FullLengthNeverEnds | backend/scripts/import_amba_catalog.py:414-416 | a taken key of 64 characters never gets a successor |
| CatalogKeys.OneOfThemIsFree | backend/scripts/import_amba_catalog.py:412-416 | with room for the suffix one of as many candidates as keys in use is free |
| CatalogKeys.FreeKey | backend/scripts/import_amba_catalog.py:412-417 | the loop ends with the alert's own key if free, else the first free candidate |
| CatalogKeys.KeyExistsIff | backend/scripts/import_amba_catalog.py:412-417 | an alert gets a key exactly when its base or one of finitely many candidates is free, and only one key |
| CatalogKeys.RunEndsIff | backend/scripts/import_amba_catalog.py:404-419 | the run over the alerts of a type gets past each one exactly if it has a key |
| CatalogKeys.RoomIsEnough | backend/scripts/import_amba_catalog.py:404-419 | with room for the suffix in every base the run always ends |
| CatalogKeys.AssignKeys | backend/scripts/import_amba_catalog.py:404-419 | whenever the run ends, the keys of a type are pairwise distinct, at most 64 characters, and each is the first free one at its turn |
| Base64Url.DecodeEncode | backend/app/agent/chatgpt_oauth.py:69-77 | decoding undoes encoding |
| Base64Url.SymbolIs | backend/app/agent/chatgpt_oauth.py:201-202 | the alphabet, symbol by symbol |
| Base64Url.IndexIs | backend/app/agent/chatgpt_oauth.py:69-77 | and how it is read |
| Base64Url.EncodesBits | backend/app/agent/chatgpt_oauth.py:201-202 | each group of three bytes is written as the symbols of its four six-bit digits |
| Base64Url.ShortGroups | backend/app/agent/chatgpt_oauth.py:201-202 | the standard's test vectors with a short last group |
| Base64Url.EncodingShape | backend/app/agent/chatgpt_oauth.py:201-202 | an encoding is URL-safe symbols followed by exactly the padding its length asks for |
| Base64Url.UnpaddedRoundTrip | backend/app/agent/chatgpt_oauth.py:69-77 | stripping the padding and putting `-len % 4` signs back restores the encoding, so every byte string comes back |
| TokenStore.DecryptUndoesEncrypt | backend/app/core/crypto.py:98-118 | decryption undoes encryption, the empty secret included |
| TokenStore.DecryptIs | backend/app/core/crypto.py:106-118 | what is read of sealed text, of older plain text, and of text that does not open |
| TokenStore.SecretsAreSealedOnce | backend/app/agent/chatgpt_oauth.py:90-113 | after a write each secret is empty or encrypted exactly once, and decrypts to what was given or else to what was held |
| TokenStore.PriorFieldsAreKeptIff | backend/app/agent/chatgpt_oauth.py:91-105 | a write keeps every field that is not given if and only if an access token is given or none was stored |
| TokenStore.BlankAccessIsWritten | backend/app/agent/chatgpt_oauth.py:98 | a concrete response without an access token that blanks the stored one |
| TokenStore.RefreshSurvivesIff | backend/app/agent/claude_oauth.py:79-107 | a stored refresh token survives a write exactly when the write fails, brings one, or could read and decrypt the stored one |
| TokenStore.UnreadFileLosesRefresh | backend/app/core/jsonstore.py:203-207 | a concrete write over an unreadable file that blanks the stored refresh token |
| TokenStore.RefreshAfterWrite | backend/app/agent/chatgpt_oauth.py:90-113 | what a write leaves to be read: the refresh token it brings, else the one it could read |
| TokenStore.RefreshIsWritten | backend/app/agent/claude_oauth.py:163-171 | what can be read after a refresh, field by field |
| TokenStore.SignInIsWritten | backend/app/agent/chatgpt_oauth.py:269-283 | what can be read after a sign-in, field by field |
| RefreshRuns.StepKeepsNewestIff | backend/app/agent/chatgpt_oauth.py:166-173 | one event keeps the newest refresh token exactly unless a stale refresh or a write over an unread file replaces it |
| RefreshRuns.NewestIsHeldIff | backend/app/agent/chatgpt_oauth.py:90-193 | over every interleaving the store always holds the newest token written since sign-out, if and only if neither of these happens |
| RefreshRuns.SerialRunsLoseNothing | backend/app/agent/claude_oauth.py:143-192 | refreshes that nothing overlaps, on a readable file, never lose a token |
| RefreshRuns.StaleRefreshReplacesNewer | backend/app/agent/claude_oauth.py:163-171 | a concrete run in which a refresh puts back an older token |
| RefreshRuns.SignedOutIff | backend/app/agent/claude_oauth.py:370-382 | a signed-out store stays empty exactly until a sign-in, or a refresh under way at the time, writes |
| RefreshRuns.RefreshUndoesSignOut | backend/app/agent/chatgpt_oauth.py:166-173 | a concrete run in which such a refresh brings the token back |
| SignInRuns.SignInsAreProperIff | backend/app/agent/chatgpt_oauth.py:303-321 | every success uses a pair of its own and clears that one alone, if and only if no exchange that succeeds was overlapped and none fails to delete its pair |
| SignInRuns.SuccessesAreBegun | backend/app/agent/chatgpt_oauth.py:303-321 | over every run no more sign-ins succeed than were begun, but for overlapped ones and pairs that could not be deleted |
| SignInRuns.ProperSuccessesAreBegun | backend/app/agent/chatgpt_oauth.py:303-321 | and none but those begun where every sign-in is proper |
| SignInRuns.TwoCompletionsSpendOnePair | backend/app/agent/claude_oauth.py:328-340 | a concrete run in which two completions succeed with one pair |
| SignInRuns.NewSignInIsCleared | backend/app/agent/claude_oauth.py:328-340 | a concrete run in which a completion clears the pair of a sign-in begun meanwhile |
| TokenStore.Store.WriteTokens | backend/app/agent/chatgpt_oauth.py:90-113 | a write replaces the whole record or leaves the file alone; the access token is written as given, any other field that is not given is kept |
| TokenStore.Store.NewPkce | backend/app/agent/chatgpt_oauth.py:205-215 | a new sign-in replaces the pending pair, unless it cannot be written |
| TokenStore.Store.BeginGetToken | backend/app/agent/claude_oauth.py:143-164 | the stored token, and what to refresh it with exactly if it is about to expire and has a refresh token |
| TokenStore.Store.EndGetToken | backend/app/agent/claude_oauth.py:164-174 | whatever the file has become meanwhile: a granted refresh is written over it and returned, any other answer changes nothing |
| TokenStore.Store.BeginForceRefresh | backend/app/agent/claude_oauth.py:177-183 | refused exactly without a refresh token |
| TokenStore.Store.EndForceRefresh | backend/app/agent/claude_oauth.py:183-192 | which error it reports, and that a failed refresh leaves the file alone |
| TokenStore.Store.BeginCompletion | backend/app/agent/claude_oauth.py:328-337 | the code is exchanged only with the pending verifier and never against a different non-empty state |
| TokenStore.Store.EndCompletion | backend/app/agent/claude_oauth.py:338-341 | success alone writes tokens, and clears whatever pair is pending by then |
| TokenStore.Store.SignOutNow | backend/app/agent/claude_oauth.py:370-382 | both files are forgotten, as far as they can be deleted |
| StoreRuns.EndRefresh | backend/app/agent/chatgpt_oauth.py:166-173 | the store's own method is the event of the runs |
| StoreRuns.StartRefresh | backend/app/agent/claude_oauth.py:177-183 | and so is its beginning |
| StoreRuns.EndExpired | backend/app/agent/claude_oauth.py:163-174 | a token that is about to expire is refreshed in the same way |
| StoreRuns.FinishSignIn | backend/app/agent/chatgpt_oauth.py:318-320 | the write of a sign-in is the event of the token file |
| StoreRuns.BeginSignIn | backend/app/agent/chatgpt_oauth.py:205-215 | a sign-in that begins is the event of the pending pair |
| StoreRuns.StartExchange | backend/app/agent/chatgpt_oauth.py:309-318 | an exchange starts with the pair pending then |
| StoreRuns.EndExchange | backend/app/agent/chatgpt_oauth.py:318-320 | so is the completion of a sign-in |
| StoreRuns.Forget | backend/app/agent/claude_oauth.py:370-382 | and the sign-out |
| Grains.Lookback | backend/app/agent/builtins.py:374-396 | overflows exactly when the amounts in the text come to a billion days; else it is positive and at most 93 days |
| Grains.AllPartsAreRead | backend/app/agent/builtins.py:382-386 | days, hours and minutes of the ISO form are read as such |
| Grains.ShortLookback | backend/app/agent/builtins.py:388-393 | a number, blanks and D, H or M is so many days, hours or minutes |
| Grains.FractionIs | backend/app/agent/builtins.py:384-386 | digits behind a point are a decimal fraction |
| Grains.PointIsRead | backend/app/agent/builtins.py:382-386 | a number is its whole digits and its decimal fraction |
| Grains.PrintedGrain | backend/app/agent/builtins.py:415-449 | what every printed grain reads back as: a day with seconds, else its duration, cut to 93 days, or an overflow |
| Grains.PrintedGrainReadsBackIff | backend/app/agent/builtins.py:415-449 | a printed grain reads back with its duration exactly for whole minutes up to 93 days |
| Grains.PrintedFormsOverflowIff | backend/app/agent/builtins.py:377-396 | days, hours and minutes overflow exactly from a billion days on |
| Grains.ABillionDays | backend/app/agent/builtins.py:377-396 | a concrete lookback that overflows |
| Grains.AtMost336Points | backend/app/agent/builtins.py:399-412 | for every lookback text that names less than a billion days the automatic interval gives at most 336 points |
| Grains.AutoIntervalIs | backend/app/agent/builtins.py:407-412 | which interval is chosen for which span |
| Grains.ClockIs | backend/app/agent/builtins.py:431-440 | hours, minutes and seconds of Azure's notation |
| Grains.DaysAndClockIs | backend/app/agent/builtins.py:422-440 | a number in front of a point counts days |
| Grains.SupportedGrains | backend/app/agent/builtins.py:457-462 | exactly the readable grains of the list, each once, in their order |
| Grains.FirstReadableIsBest | backend/app/agent/builtins.py:467-471 | the first readable grain in the stable ascending order is a finest readable one and of those the first allowed, and without any the last is a coarsest and of those the last |
| Grains.PickGrain | backend/app/agent/builtins.py:465-472 | by the duration its name reads as, the grain picked is a finest allowed one with at most 500 points, else a coarsest, else an hour; it says which of several; an overflow in a name ends it |
| Grains.PicksTheFinestIff | backend/app/agent/builtins.py:465-472 | for every span the pick is the finest readable by true duration, or the coarsest, if and only if each misread grain is coarser than all others, in truth and as read |
| Grains.PicksTheFinestForLookbacksIff | backend/app/agent/builtins.py:465-472 | the same for spans of at most 93 days: misread grains below 16071 seconds are coarsest and, where longer ones are misread, one is finest among the long ones both in truth and as read |
| Grains.SecondsArePassedOver | backend/app/agent/builtins.py:465-472 | a readable grain with seconds loses to a coarser one of whole minutes |
| Grains.SecondsArePickedUnreadable | backend/app/agent/builtins.py:465-472 | an unreadable grain with seconds wins over a readable one coarser than a day |
| Grains.TooManyPoints | backend/app/agent/builtins.py:465-472 | a concrete pick of 330 seconds for 93 days |

## Left out

- The HTTP exchange of a Claude turn, its authentication headers, and the conversion of messages and tools to Anthropic's format; an exception while headers are rebuilt for the retry.
- Lower-casing of characters other than ASCII letters, U+0130 and U+212A: no other lower case contains a character of a marker. The final-sigma rule changes no length.
- The parser of written tool calls and JSON decoding of events and arguments: parameters of `Stream`.
- SQLite and offline mode of the migration entrypoint. There, and where DDL is not transactional, the resumption lemmas take the place of the lock.
- Whether a waiting replica is served in turn: the lock is freed, but who gets it next is not modelled.
- Revisions 0001–0005, 0007–0009 and 0013, and the downgrades of 0006, 0011 and 0012.
- Revisions.Upgrade0012: the unique constraints and foreign-key details of the three tables; only the tables they refer to are modelled, because no guard looks at them.
- Tenancy.DowngradeFailsIff: which of the repeated names the error message shows.
- Reading of front matter, the scan of a page for includes and images, fences in a page body, the resolution of a legacy image address, splitting of a pattern at slashes, component matching, SHA-256 and the coverage percentage. The PNG walk checks no CRC and neither does the model.
- The clock of the Advisor retries, the extraction of row fields, the final sort and JSON rendering of the answer, trimming of requested ids, the search for a subscription id inside a resource id.
- Advisor payloads that are JSON but not objects.
- The slug, the text normalisation and the tier counts of the importer.
- JWT and JSON decoding, parsing of a pasted address or code, the randomness of Fernet and of verifiers, the cache and cross-replica locks of the JSON store, the time stamp of the last refresh.
- CatalogKeys.AssignKeys: requires that the run ends; where the loop of the source goes on for ever, `RunEndsIff` says so and no keys result.
- RefreshRuns.NewestIsHeldIff: a token in a response whose write fails is never stored, and is not counted as issued.
- SignInRuns.SignInsAreProperIff: pairs are taken to differ, since verifiers are random.
- MigrationRaces.CheckedRunsAreExact: how Alembic updates its version row is not part of this model, only the two ways in which it can; DDL that fails because another migration has run is one of the failures possible at any step.
- Tenancy.RoundTripIff, Tenancy.UpgradeLiftsUniquenessIff: tables in which `uq_X_name` or `uq_X_tenant_name` names a constraint on other columns are left out; `UnscopedFailsIff` and `DowngradeFailsIff` cover them.
- Rounding of binary64 numbers in durations, non-ASCII digits and white space, Python's `int` on grain parts (a parameter), and the search for the grain list inside an error message.
- Migrations.LockIsFreed: counts the holder's steps; that a replica which is neither dead nor blocked takes its next step is not part of the model.
