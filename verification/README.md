# AgentPalace: a verified model

AgentPalace keeps an agent's memory in a *palace*: drawers of text, filed under wings and
rooms, on the user's disk and, where configured, on remote servers. This project models the
parts of it where a mistake would lose or misplace data, and proves what they promise:

- the **offline migration** of a legacy home, its model cache and its client files, as a
  protocol of atomic filesystem steps that can be cut off after any of them;
- the **template scanner** that decides whether a new drawer is an update of an old one;
- the **project registry**, the **federation router**, the **locator resolver**, the
  **remote batcher**, the **MCP upsert** and the **drawer-id printer**.

| modules | what they model |
|---|---|
| `Options`, `FileTree`, `Json` | shared values |
| `MigrationPlan`, `MigrationProgress`, `MigrationSafety`, `MigrationRun`, `MigrationMeaning`, `MigrationOutcome`, `MigrationShortfalls` | the migration protocol: plans, recovery, safety, the stepwise program, the whole, what a run is refused for and what it leaves, and where it falls short |
| `TreeCopy`, `Staging`, `PathRemap` | the copy that is published as the new home |
| `Instructions`, `InstructionMigration`, `InstructionWords`, `EntryMigration`, `ClientDocuments`, `ClientOutcome` | the rewriting of client files |
| `TemplateMasking`, `MaskingTheorems`, `DigitShape`, `ScanLocality`, `DateTimes`, `GrammarReading`, `SignRule`, `DuplicateClassifier` | the scanner and the classifier |
| `ProjectRegistry`, `RegistryTheorems`, `RegistryMeaning` | the project registry |
| `Ids`, `Federation`, `DrawerIds` | identifiers, routes, drawer ids |
| `RemoteBatches`, `Locator`, `McpUpsert` | batching, locators, MCP registration |

`dafny verify dfyconfig.toml` checks everything.

## How the migration is modelled

A run is a function from the disk to a `Plan`: the durable steps it makes, in order, and
whether it reports success. The class `MigrationRun.Disk` is the program itself, call by call,
with a ghost trace of every state after every call; its methods are proved to end where their
plan ends and to pass through no state that is not one of the plan's. `Crashes` is then the
relation "reachable by any number of runs, each cut off in any state it passes through".

The central fact is `RunResume`: after the first durable step, planning afresh gives exactly the
rest of the old plan. Everything about recovery follows from it, and it rests on three things: the
cache is moved before the home, the marker inside the published tree identifies a move half done,
and a rewritten client file asks for no further rewriting (`Stable`, proved of the real rewriters
by `ClientDocuments.ClientsAreStable`).

Paths, hashes, Unicode tables, JSON and TOML text, and link resolution on a given disk are
parameters; each assumption about one is a named predicate (`Layout`, `Faithful`,
`FaithfulPaths`, `Sane`, `AlnumOk`, `LettersOk`, `SpaceOk`, `CanonOk`, `HashOk`).

## Where the code does less than it seems to promise

Each of these is a theorem about the code as it is, with the exact condition and an input.

- A run that reports failure may already have moved the whole cache: exactly when every check
  passed and the home then could not be staged (`FailureEffect`, `FailureWithEffect`; an input in
  `FailedRunMovedTheCache`).
- A successful run finishes exactly when it did not start with the home gone and the cache still
  in place (`SuccessMeansFinished`). A successful run that skips a cache always produces such a
  disk (`SkippingRunStrandsExactly`), and from then on no run with any flags touches the cache
  again (`SkippedCacheIsStranded`; an input in `SkippingRunStrandsTheCache`).
- "Original files retained as backups" holds of a client file exactly when there was no backup
  before, or the one there had the same contents: an old backup is never overwritten
  (`OriginalInBackup`; an input in `OriginalIsLost`).
- The registry's conflict check uses the new declaration's root and the given checkout only, but
  roots and aliases of the stored declaration are merged in afterwards. `RegisterSafeExactly`
  gives the exact condition under which registering keeps the registry safe, and
  `RootChangeBreaksSafety` a family of accepted registrations that break it, with and without a
  checkout.
- `register_project` can write a root that disagrees with the root in the id. Reading the file
  checks for that, so from then on every operation, removal included, is refused
  (`ReadableAfterRegister`, `UnreadableForever`; an input in `AcceptedButUnreadable`).
- Two parts of a monorepo may register the same checkout, but looking that path up is then
  ambiguous (`FindAfterRegister`; an input in `SharedButNotFound`).
- A number and its negative do not share a template after every character that is not
  alphanumeric: they do after all but `-`, `.`, `:` and `+` (`SharesExactlyAfterBreaks`, with an
  input for each of the four).
- A drawer id determines room, source hash and index for a known wing. Without the wing it
  determines the wing exactly when neither name has a slash inside (`WingIsRecoverableExactly`;
  an input in `WingIsNotRecoverable`).

## Model

| member | source | states |
|---|---|---|
| MigrationRun.Disk.RunWithCache | crates/agentpalace-cli/src/migrate.rs:82-163 | the stepwise program ends on the disk its plan ends on, with the plan's verdict, and every state it passes through, call by call, is a state of the plan |
| MigrationRun.Disk.MigrateAll | crates/agentpalace-cli/src/migrate.rs:150-157 | cache, home, clients, in that order, each from the disk the previous part left; a failure stops there |
| MigrationRun.Disk.MigrateHome | crates/agentpalace-cli/src/migrate.rs:153-157 | the home and then the client edits, refining their plan |
| MigrationRun.Disk.MigrateData | crates/agentpalace-cli/src/migrate.rs:229-288 | validate, stage, publish by one rename, retire by another: refines its plan in final disk, verdict and every intermediate state |
| MigrationRun.Disk.Stage | crates/agentpalace-cli/src/migrate.rs:234-283 | staging changes nothing that a later run reads, and leaves the complete marked copy in the staging directory exactly when it succeeds |
| MigrationRun.Disk.BackupAndWrite | crates/agentpalace-cli/src/migrate.rs:564-577 | the original is copied to its backup, unless one exists, before the rewritten text is renamed into place |
| MigrationRun.Disk.ClientEdits | crates/agentpalace-cli/src/migrate.rs:459-541 | reads every client before anything moves; the edits are those of the files to rewrite, in order, or a refusal |
| MigrationRun.Disk.WriteEdits | crates/agentpalace-cli/src/migrate.rs:155-157 | the client files are rewritten one at a time, refining their plan |
| MigrationProgress.MigrateResume | crates/agentpalace-cli/src/migrate.rs:201-288 | after its first durable step a pair of roots is still valid and its plan is the rest of the old plan |
| MigrationProgress.ClientResume | crates/agentpalace-cli/src/migrate.rs:564-577 | after the first client step, the edits still to make are planned as the rest of the old plan |
| MigrationProgress.RunResume | crates/agentpalace-cli/src/migrate.rs:82-163 | a run cut off after its first durable step and started again plans exactly the steps that were left, with the same verdict |
| MigrationProgress.Resume | crates/agentpalace-cli/src/migrate.rs:82-163 | the same from every state a run passes through |
| MigrationProgress.FinishedIsQuiet | crates/agentpalace-cli/src/migrate.rs:144-157 | after a complete run the same run has nothing to do |
| MigrationProgress.Recovery | crates/agentpalace-cli/src/migrate.rs:82-163 | however many runs are cut off and wherever, one uninterrupted rerun gives the disk and verdict of a single uninterrupted run, and any further run changes nothing |
| MigrationProgress.FirstStep | crates/agentpalace-cli/src/migrate.rs:150-157 | the next step is the cache's, or the home's once no cache being moved is left, or a client's once the home is gone |
| MigrationProgress.StepKeepsCacheBeforeHome | crates/agentpalace-cli/src/migrate.rs:111-115 | no step of a run that moves the cache retires the home while the cache is in place |
| MigrationProgress.RunKeepsCacheBeforeHome | crates/agentpalace-cli/src/migrate.rs:150-153 | the same in every state of a whole run |
| MigrationProgress.SuccessMeansFinished | crates/agentpalace-cli/src/migrate.rs:111-163 | a successful run leaves nothing at the legacy places and no client to rewrite if and only if it did not start with the home gone and the cache in place |
| MigrationProgress.SkippedCacheIsStranded | crates/agentpalace-cli/src/migrate.rs:111-115 | once the home is gone, no sequence of runs ever touches the cache again |
| MigrationProgress.SkippingRunStrandsExactly | crates/agentpalace-cli/src/migrate.rs:111-115 | a successful run that skips the cache ends with the home gone and the cache in place if and only if there was a cache to move |
| MigrationProgress.FailureEffect | crates/agentpalace-cli/src/migrate.rs:132-154 | a failing run changed something if and only if all checks passed, the cache had steps to make and the home could not be staged; and then it made exactly the cache's steps |
| MigrationSafety.StepSafe | crates/agentpalace-cli/src/migrate.rs:150-157 | every durable step of every run keeps the safety invariant |
| MigrationSafety.RunSafe | crates/agentpalace-cli/src/migrate.rs:82-163 | every state of a run from a safe disk is safe |
| MigrationSafety.SafetyOverAllRuns | crates/agentpalace-cli/src/migrate.rs:82-163 | for any runs with any flags cut off anywhere: home and cache are whole at their place or their backup, the new place holds what it held or the complete marked copy, each client is wholly old or wholly new with a backup, no client changes before the home is retired, and nothing else changes |
| MigrationSafety.OriginalNeverLost | crates/agentpalace-cli/src/migrate.rs:229-288 | for the home and for the cache: the original is always at its place or, alone, at its backup; when it is not at its place there is a directory at the new one whose marker has version 1 and names this source and destination |
| MigrationSafety.OriginalInBackup | crates/agentpalace-cli/src/migrate.rs:564-568 | a changed client holds exactly its rewritten text, and its original is in the backup if and only if no different backup was there before |
| MigrationMeaning.MeaningPreservedOverAllRuns | crates/agentpalace-cli/src/migrate.rs:229-329 | for the home and for the cache: whenever the new place is visible, at any cut-off point of any runs, every path in it reads as the legacy place read through its links, but for `bin`, the marker and the two rewritten files, which read as specified |
| MigrationMeaning.MigrationRecovers | crates/agentpalace-cli/src/migrate.rs:82-163 | with the real stager and client rewriters: recovery, quiet reruns, safety of the last disk, and the exact condition for being finished, from every cut-off state |
| MigrationMeaning.FailureWithEffect | crates/agentpalace-cli/src/migrate.rs:132-154 | with the real stager: exactly when a failing run has changed something, down to what in the legacy home made staging fail |
| MigrationMeaning.EveryCallIsSafe | crates/agentpalace-cli/src/migrate.rs:82-163 | every entry of the running program's trace satisfies the safety invariant |
| MigrationOutcome.RetireNeedsMarker | crates/agentpalace-cli/src/migrate.rs:201-229 | a home is retired only beside an absent destination or a directory whose marker has version 1 and names this source and this destination, and only without a backup |
| MigrationOutcome.RefusesToMerge | crates/agentpalace-cli/src/migrate.rs:213-219 | a destination without exactly that marker refuses the whole run, which then changes nothing |
| MigrationOutcome.PairIsChecked | crates/agentpalace-cli/src/migrate.rs:165-227 | what one pair of roots must be: no links, a readable directory, a marked destination if any, no backup, no `HF_HOME` inside |
| MigrationOutcome.RefusedUnlessChecked | crates/agentpalace-cli/src/migrate.rs:91-141 | a run gets past its checks if and only if the roots are apart, also through aliases, the executable is outside the old home and its backup, every pair to move passes and no client is refused; otherwise nothing changes; a preview of a run that passes succeeds and changes nothing |
| MigrationOutcome.SuccessMoves | crates/agentpalace-cli/src/migrate.rs:150-153 | after a success, for home and cache: nothing at the legacy place, the original at the backup, and at the new place what was there or the complete staged copy |
| MigrationOutcome.SuccessRewrites | crates/agentpalace-cli/src/migrate.rs:155-157 | after a success, for every client: exactly the rewritten text with the original at its backup unless one was there, or nothing changed |
| MigrationShortfalls.FailedRunMovedTheCache | crates/agentpalace-cli/src/migrate.rs:150-154 | at an input: a home with a socket and an empty cache; the run fails, and the cache has moved |
| MigrationShortfalls.SkippingRunStrandsTheCache | crates/agentpalace-cli/src/migrate.rs:111-115 | at an input: a home and a cache, both empty; a run that skips the cache and the plain run after it both succeed, and the cache is still at its legacy place |
| MigrationShortfalls.OriginalIsLost | crates/agentpalace-cli/src/migrate.rs:564-568 | at an input: a client with a backup from another time; after a successful run its original is neither in place nor in the backup |
| TreeCopy.CopyTreeWithin | crates/agentpalace-cli/src/migrate.rs:294-329 | the copying loop gives the recursive copy, or fails, as specified on trees |
| TreeCopy.CopyHasNoLinks | crates/agentpalace-cli/src/migrate.rs:303-316 | no link remains anywhere in the copy |
| TreeCopy.CopyPreservesReading | crates/agentpalace-cli/src/migrate.rs:290-329 | reading any path outside the top-level `bin` of the copy gives the bytes, or the absence, that reading the source through all its links gives |
| TreeCopy.PublishedCopyReadsAlike | crates/agentpalace-cli/src/migrate.rs:290-329 | the same after the copy is published at any place of any later disk, the source being gone |
| TreeCopy.CopyFailsExactly | crates/agentpalace-cli/src/migrate.rs:303-326 | the copy fails if and only if some visited entry is a special file, or a link that does not resolve, leaves the source, or leads to no regular file |
| TreeCopy.CopiedFromInside | crates/agentpalace-cli/src/migrate.rs:303-326 | of a copy that succeeds, every link outside `bin` resolved to a regular file inside the source: nothing from outside is copied in |
| TreeCopy.ResolutionSteps | crates/agentpalace-cli/src/migrate.rs:307-308 | how a path is resolved: upward steps, absolute and relative links, and dangling names |
| TreeCopy.CanonicalPathIsReal | crates/agentpalace-cli/src/migrate.rs:307-308 | a resolved path is one where something stands that is no link |
| PathRemap.RemapLands | crates/agentpalace-cli/src/migrate.rs:337-354 | a path inside the legacy home, `~` included, keeps its place relative to the home |
| PathRemap.RemapLeavesTheOldHome | crates/agentpalace-cli/src/migrate.rs:337-354 | after remapping no path leads into the legacy home; a text changes if and only if it did; remapping is idempotent |
| PathRemap.TildeMeansHome | crates/agentpalace-cli/src/migrate.rs:338-349 | `~/.mempalace` with any separators behind it is read as the user's legacy home and moves with it |
| PathRemap.NoTilde | crates/agentpalace-cli/src/migrate.rs:346-353 | every other text is the path it says, and stays as it is unless it is inside the legacy home |
| Staging.RewriteConfig | crates/agentpalace-cli/src/migrate.rs:241-269 | the stepwise rewriting of the configuration, with its loop over the remotes, gives the specified document or refuses a non-object |
| Staging.ConfigKeepsTheRest | crates/agentpalace-cli/src/migrate.rs:246-253 | no key is lost, a stored collection name is kept, a missing one becomes the legacy default, and every untouched key keeps its value |
| Staging.ServerKeepsTheRest | crates/agentpalace-cli/src/migrate.rs:254-256 | in the server section only the token file is remapped |
| Staging.RemotesAreConserved | crates/agentpalace-cli/src/migrate.rs:257-269 | remotes keep order and number; no legacy token variable is left, and each remote keeps everything else |
| Staging.ConfigLeavesTheOldHome | crates/agentpalace-cli/src/migrate.rs:251-256 | neither the palace path nor the token file of a staged configuration leads into the legacy home |
| Staging.ConfigReads | crates/agentpalace-cli/src/migrate.rs:239-272 | writing the configuration changes what one path reads, in trees that have a configuration or a palace, and nothing else |
| Staging.IdentityReads | crates/agentpalace-cli/src/migrate.rs:273-277 | rewriting the identity file changes what that path reads, where there is one, and nothing else |
| Staging.BuildStage | crates/agentpalace-cli/src/migrate.rs:237-277 | the sequence of writes gives the staged tree |
| Staging.StagedReadsAsExpected | crates/agentpalace-cli/src/migrate.rs:237-283 | every path of a staged tree reads as an independent specification over the legacy home says |
| Staging.StagedConfigSays | crates/agentpalace-cli/src/migrate.rs:239-272 | the staged `config.json`, decoded: the legacy one with palace path and token file remapped from the old home to the new, token variables renamed, the collection kept or set to the legacy default, and everything else kept; from nothing, the collection alone; absent without a configuration and a palace |
| Staging.StagedConfigLeavesTheOldHome | crates/agentpalace-cli/src/migrate.rs:250-256 | and no path of it leads into the legacy home |
| Staging.StagedIdentitySays | crates/agentpalace-cli/src/migrate.rs:273-277 | the staged `identity.txt`, decoded, is the legacy one migrated like an instruction file |
| Staging.StageFailsExactly | crates/agentpalace-cli/src/migrate.rs:229-283 | a tree cannot be staged if and only if an entry cannot be copied, the configuration is unreadable, no object, or has a directory in its place beside a palace, the identity file is unreadable, or a directory is in the marker's place |
| Instructions.FindFrom | crates/agentpalace-cli/src/migrate.rs:549-549 | the next occurrence of a pattern, the first one, or none at all |
| Instructions.RewriteLoop | crates/agentpalace-cli/src/migrate.rs:546-559 | the `last`/`result` loop over non-overlapping occurrences equals rewriting character by character |
| Instructions.PassLeavesQuiet | crates/agentpalace-cli/src/migrate.rs:546-559 | one pass leaves no unguarded occurrence of a pattern that it replaces or that was not there, even across the seams it creates |
| Instructions.Survives | crates/agentpalace-cli/src/migrate.rs:550-552 | an occurrence that a pass does not replace is found again after the same preceding character, and what follows is the rewriting of the rest |
| Instructions.SurviveApart | crates/agentpalace-cli/src/migrate.rs:550-552 | so two such occurrences have places of their own, in the same order |
| Instructions.Undo | crates/agentpalace-cli/src/migrate.rs:546-559 | a pass over a text without the new name can be undone exactly |
| InstructionMigration.MigrateInstructions | crates/agentpalace-cli/src/migrate.rs:545-562 | the three loops compute the specified composition of passes |
| InstructionMigration.MigrationClears | crates/agentpalace-cli/src/migrate.rs:545-562 | no word-initial `mempalace_` or `MEMPALACE_` and no backtick-led `mempalace ` is left |
| InstructionMigration.KeptExactlyWhenMigrated | crates/agentpalace-cli/src/migrate.rs:507-513 | a text is unchanged if and only if it has none of the three |
| InstructionMigration.MigrationIsIdempotent | crates/agentpalace-cli/src/migrate.rs:545-562 | migrating twice is migrating once |
| InstructionMigration.DurableNamesSurvive | crates/agentpalace-cli/src/migrate.rs:550-552 | an old prefix after a word character, as in a wing id, is found again after that character, at a place computed from its own |
| InstructionMigration.DurableNamesKeepOrder | crates/agentpalace-cli/src/migrate.rs:545-562 | two of them are found at two places, in the same order |
| InstructionMigration.MigrationCanBeUndone | crates/agentpalace-cli/src/migrate.rs:545-562 | a text with no new name in it is recovered exactly by the reverse passes, so nothing else is changed |
| InstructionWords.WordsRenamed | crates/agentpalace-cli/src/migrate.rs:545-562 | the words of the result, and the characters between them, are those of the text one by one, except that a word with an old prefix gets the new one and the old command between backtick and space the new one; so a name like `wing_mempalace_x` is kept whole |
| EntryMigration.RenameEnv | crates/agentpalace-cli/src/migrate.rs:412-433 | for any iteration order, renaming in place succeeds if and only if the renaming is injective on the keys, and then gives the renamed environment |
| EntryMigration.RenamingIsUnique | crates/agentpalace-cli/src/migrate.rs:412-433 | there is one result, whatever the order |
| EntryMigration.NoLegacyKeyRemains | crates/agentpalace-cli/src/migrate.rs:416-432 | no legacy key is left |
| EntryMigration.EntriesAreConserved | crates/agentpalace-cli/src/migrate.rs:416-432 | as many entries as before |
| EntryMigration.ValuesChangeByRemapOnly | crates/agentpalace-cli/src/migrate.rs:427-430 | a value is remapped exactly under `MEMPALACE_` keys that end in `_DIR` or `_PATH` and under `MEMPAL_PALACE_PATH`, and otherwise unchanged |
| EntryMigration.LegacyKeys | crates/agentpalace-cli/src/migrate.rs:416-420 | which keys are legacy, and the new name of each |
| ClientDocuments.EntryKeepsTheRest | crates/agentpalace-cli/src/migrate.rs:370-457 | a migrated registration keeps every field but command, arguments, environments and tool lists |
| ClientDocuments.NoLegacyVariableRemains | crates/agentpalace-cli/src/migrate.rs:412-446 | neither environment has a legacy variable, and a registration with a command has the new home's variable in the environment that its kind of command selects |
| ClientDocuments.NoOldToolRemains | crates/agentpalace-cli/src/migrate.rs:447-455 | no tool list names a tool by its old prefix |
| ClientDocuments.PathsLeaveTheOldHome | crates/agentpalace-cli/src/migrate.rs:370-440 | with the real path rewriting, no argument, `HF_HOME` or renamed `_DIR` or `_PATH` variable of a migrated registration leads into the legacy home |
| ClientDocuments.ChangedDocumentIsDone | crates/agentpalace-cli/src/migrate.rs:488-500 | a rewritten document needs no rewriting, keeps every other key and server, and has as many servers |
| ClientOutcome.LaunchersReplaced | crates/agentpalace-cli/src/migrate.rs:356-368 | the launchers that are replaced: six names, in any directory, with either separator |
| ClientOutcome.ContainsExactly | crates/agentpalace-cli/src/migrate.rs:383-383 | a part is contained exactly when it stands somewhere |
| ClientOutcome.EntryRefusedExactly | crates/agentpalace-cli/src/migrate.rs:370-446 | a registration is refused if and only if it is no object, its command is no known launcher or its arguments no list, there is neither command nor URL, two variables of a table would get one name, or the environment to extend is no table |
| ClientOutcome.EntryIsMoved | crates/agentpalace-cli/src/migrate.rs:370-457 | everything a migrated registration says: the new executable, the serve arguments of a split launcher and the old arguments remapped, every variable under its new name with paths moved and nothing else but the new home's variable, every tool in its place renamed, all else kept |
| ClientOutcome.DocumentOutcome | crates/agentpalace-cli/src/migrate.rs:488-500 | when a document is left alone, refused or changed; a changed one has the old registration, moved, under the new name, and everything else as it was |
| ClientOutcome.ChangedDocumentLaunchesTheNewServer | crates/agentpalace-cli/src/migrate.rs:459-500 | the server a changed document launches is the new executable, with no argument into the legacy home, no legacy variable and no old tool name |
| ClientOutcome.DocumentFile | crates/agentpalace-cli/src/migrate.rs:484-541 | a client document that cannot be read or migrated refuses the run; a changed one is written so that it reads back as the changed document; the rest is kept |
| ClientOutcome.InstructionFile | crates/agentpalace-cli/src/migrate.rs:507-514 | an instruction file that is no text refuses the run; one without old names, or no file, is kept; else it reads back as its migration |
| ClientDocuments.RewrittenClientIsKept | crates/agentpalace-cli/src/migrate.rs:459-541 | a rewritten client file, document or instructions, is kept by the next run |
| ClientDocuments.ClientsAreStable | crates/agentpalace-cli/src/migrate.rs:459-541 | so the stability that recovery rests on holds of the real client rewriters |
| TemplateMasking.DigitsEndLoop | crates/agentpalace-core/src/near_duplicate.rs:182-188 | the loop finds the end of the maximal digit run |
| TemplateMasking.ReadToken | crates/agentpalace-core/src/near_duplicate.rs:155-178 | one turn of the scanner reads the token the specification reads |
| TemplateMasking.MaskLoop | crates/agentpalace-core/src/near_duplicate.rs:152-180 | the loop stops, and gives the template and the numbers of the token sequence |
| MaskingTheorems.ScanLossless | crates/agentpalace-core/src/near_duplicate.rs:155-178 | the tokens concatenate to the scanned text |
| MaskingTheorems.MaskingIsIdempotent | crates/agentpalace-core/src/near_duplicate.rs:149-180 | a template has no ASCII digit, and scanning it again gives it back with no numbers |
| MaskingTheorems.TokensMeetTheGrammar | crates/agentpalace-core/src/near_duplicate.rs:196-247 | every timestamp token is a date, a clock time or both, every number token is a signed decimal, by an independent grammar, and a plain token is one non-digit |
| DigitShape.ScanShape | crates/agentpalace-core/src/near_duplicate.rs:155-247 | two texts with digits in the same places and equal elsewhere get the same tokens up to digits |
| DigitShape.NumbersAgree | crates/agentpalace-core/src/near_duplicate.rs:155-178 | their numbers are equal if and only if they agree at every position inside a number token |
| DigitShape.DigitShapeInvariance | crates/agentpalace-core/src/near_duplicate.rs:149-247 | same token boundaries and same template; same numbers exactly when no digit inside a number token differs |
| ScanLocality.ScanEmbed | crates/agentpalace-core/src/near_duplicate.rs:155-247 | a text scanned inside a longer one, up to a character that no token goes on with, gives the same tokens, unless a clock time follows the space after it |
| ScanLocality.ScanSplit | crates/agentpalace-core/src/near_duplicate.rs:155-247 | scanning splits before every character that is neither alphanumeric nor `-`, `.`, `:` or `+`, unless it is a space that a clock time follows |
| ScanLocality.ScanSuffix | crates/agentpalace-core/src/near_duplicate.rs:155-247 | scanning from a position that no sign rule looks behind is scanning the suffix |
| ScanLocality.ScanAfterCut | crates/agentpalace-core/src/near_duplicate.rs:155-247 | and after every such character, unless it is a space that a clock time follows |
| DateTimes.DateTimeIsOneTimestamp | crates/agentpalace-core/src/near_duplicate.rs:196-247 | every date-time of section 5.6 of RFC 3339 between text ends, spaces or other characters that are neither alphanumeric nor `-`, `.`, `:` or `+` is one timestamp token, and both sides are scanned as if alone |
| DateTimes.DateTimeMasked | crates/agentpalace-core/src/near_duplicate.rs:149-247 | so it is masked as one `<t>` and adds nothing to the numbers |
| GrammarReading.GrammarIsRead | crates/agentpalace-core/src/near_duplicate.rs:155-247 | the converse of the grammar theorem: every date, clock time, date with clock time and decimal number, with or without a sign, between breaks or text ends, is one token of its kind, and both sides are scanned as if alone |
| GrammarReading.TokensAreWhole | crates/agentpalace-core/src/near_duplicate.rs:182-247 | over a whole scan: no token that starts with a digit follows a number or a timestamp, and none that starts with a letter or digit follows a timestamp ending in `z` |
| SignRule.SignSharesTemplate | crates/agentpalace-core/src/near_duplicate.rs:156-168 | a minus before a number, at the text start or after a character that is neither alphanumeric nor `-`, `.`, `:` or `+`, changes nothing in the template and exactly that one number, which gets the sign |
| SignRule.SharesExactlyAfterBreaks | crates/agentpalace-core/src/near_duplicate.rs:141-148 | among the characters that are not alphanumeric, those after which a number and its negative always share a template are all but `-`, `.`, `:` and `+`; each of the four fails at an input |
| SignRule.SignsExactly | crates/agentpalace-core/src/near_duplicate.rs:156-160 | over a whole scan: a number with a sign is read at a place if and only if a minus stands there, a digit follows that starts no timestamp, and no alphanumeric character comes before; no other token takes in such a minus |
| DuplicateClassifier.MaskTemplate | crates/agentpalace-core/src/near_duplicate.rs:149-180 | normalisation and loop together compute the specified mask |
| DuplicateClassifier.NormaliseIsNormal | crates/agentpalace-core/src/near_duplicate.rs:150-151 | normalised text is lower case, with single spaces between words and none at the ends |
| DuplicateClassifier.NormalIsFixed | crates/agentpalace-core/src/near_duplicate.rs:150-151 | such text is its own normal form |
| DuplicateClassifier.NormaliseKeepsText | crates/agentpalace-core/src/near_duplicate.rs:150-151 | the visible characters of a normalised text are those of the text, in order, in lower case |
| DuplicateClassifier.MaskOfTemplate | crates/agentpalace-core/src/near_duplicate.rs:149-180 | masking a template, normalisation included, returns it unchanged with no numbers |
| DuplicateClassifier.RawDateTimeMasked | crates/agentpalace-core/src/near_duplicate.rs:149-247 | a raw text that normalises to a date-time, between any white space or text ends, is masked as one `<t>` and both sides as if alone |
| DuplicateClassifier.RawDateTimeForms | crates/agentpalace-core/src/near_duplicate.rs:150-151 | one word, or two with any white space between, normalise to the lower-case word, or the two with one space: so both ways to write a date-time, in any case, are covered |
| DuplicateClassifier.ClassifySameShape | crates/agentpalace-core/src/near_duplicate.rs:102-130 | drawers of one shape and different hashes are `ValuesChanged` if and only if a digit inside a number differs, and otherwise a later state of the same source exactly under the source's conditions |
| DuplicateClassifier.ClassifyExactly | crates/agentpalace-core/src/near_duplicate.rs:102-130 | each answer, for every pair of contents: exact if and only if the hashes are equal; otherwise by templates, numbers, source and six hours of age |
| RemoteBatches.BuildRemoteBatches | crates/agentpalace-cli/src/main.rs:2183-2216 | the batches are the files in order, none empty, each within the file limit and within the byte cap unless a single file, and no other such split has fewer batches |
| RemoteBatches.StaysAhead | crates/agentpalace-cli/src/main.rs:2183-2216 | greedy batches of a suffix are never more than the batches of any split of the whole |
| RemoteBatches.FullIsFewest | crates/agentpalace-cli/src/main.rs:2183-2216 | any split whose batches could take no further file is a smallest one |
| RemoteBatches.Limit | crates/agentpalace-cli/src/main.rs:2187-2189 | a limit of zero files means the default of 64 |
| RemoteBatches.FitsExactly | crates/agentpalace-cli/src/main.rs:2195-2203 | what a request may hold: some files, no more than the limit, and no more than 4194304 bytes of chunk text unless it is one file |
| ProjectRegistry.Registry.RegisterProject | crates/agentpalace-config/src/config.rs:819-886 | the new registry and the outcome: unreadable, conflict, or the merged declaration under its id |
| ProjectRegistry.Registry.RemoveProject | crates/agentpalace-config/src/config.rs:889-900 | the new registry and the outcome |
| ProjectRegistry.MergeLoop | crates/agentpalace-config/src/config.rs:871-878 | the loop over stored aliases gives the merge up to canonicalisation |
| RegistryMeaning.RegisterOutcome | crates/agentpalace-config/src/config.rs:819-862 | a registration is refused if and only if the registry is unreadable, or the checkout is one of another id that is not a different part of the same repository |
| RegistryMeaning.ReadableExactly | crates/agentpalace-config/src/config.rs:1183-1212 | a registry is readable if and only if no declared root disagrees with the root in its id |
| RegistryMeaning.RegisteredSays | crates/agentpalace-config/src/config.rs:862-884 | what is stored: each field as declared, or as stored where nothing is declared; the aliases of both and the checkout, no other; and no other id changes |
| RegistryMeaning.RemoveExactly | crates/agentpalace-config/src/config.rs:889-900 | removing takes out one id and nothing else |
| RegistryMeaning.SameRootAround | crates/agentpalace-config/src/config.rs:1111-1115 | slashes of either kind around a root do not matter |
| RegistryMeaning.SameRootBelowHere | crates/agentpalace-config/src/config.rs:1111-1115 | nor do current-directory steps in front or the kind of slash inside |
| RegistryMeaning.PlainRoot | crates/agentpalace-config/src/config.rs:1111-1115 | a plain name is a root as it is |
| RegistryMeaning.MatchesExactly | crates/agentpalace-config/src/config.rs:1050-1086 | when a declaration matches a path: a checkout, or the declared root of a repository with its identity or of one of its checkouts |
| RegistryMeaning.LookupOutcome | crates/agentpalace-config/src/config.rs:782-814 | what a lookup finds: the only match, ambiguity when two match, and without a match the hint, if it is declared and its identity is a repository's |
| RegistryTheorems.MergeHas | crates/agentpalace-config/src/config.rs:871-878 | a path is an alias of the merge if and only if it was one of either list |
| RegistryTheorems.MergeNoDuplicates | crates/agentpalace-config/src/config.rs:871-878 | the merge has no two aliases of one place |
| RegistryTheorems.MergeTwice | crates/agentpalace-config/src/config.rs:871-878 | merging the result in again changes nothing |
| RegistryTheorems.RegisterKeeps | crates/agentpalace-config/src/config.rs:819-886 | registering changes one id, loses no alias, never replaces a wing, room list, route or root by an empty one, and keeps aliases duplicate-free |
| RegistryTheorems.RegisterTwice | crates/agentpalace-config/src/config.rs:819-886 | registering twice is registering once |
| RegistryTheorems.ReadableAfterRegister | crates/agentpalace-config/src/config.rs:1183-1212 | the written registry can be read again if and only if the merged root agrees with the id |
| RegistryTheorems.UnreadableForever | crates/agentpalace-config/src/config.rs:1183-1212 | an unreadable registry refuses every operation and never changes |
| RegistryTheorems.AcceptedButUnreadable | crates/agentpalace-config/src/config.rs:819-886 | at an input: id `r#a` with root `b` is accepted by an empty registry and makes it unreadable |
| RegistryTheorems.RegisterSafeExactly | crates/agentpalace-config/src/config.rs:819-886 | a registration without extra aliases keeps the registry safe if and only if the merged root differs from that of every declaration it will share a checkout with |
| RegistryTheorems.StepSafe | crates/agentpalace-config/src/config.rs:819-900 | register and remove keep safety when each id keeps one root |
| RegistryTheorems.SafetyOverAllRuns | crates/agentpalace-config/src/config.rs:819-900 | over all runs of register and remove with fixed roots: ids sharing a checkout have one repository identity and different roots |
| RegistryTheorems.RootChangeBreaksSafety | crates/agentpalace-config/src/config.rs:840-882 | giving one of two sharing ids the other's root is accepted and breaks safety, whatever the checkout, unless another declaration has it |
| RegistryTheorems.FindAfterRegister | crates/agentpalace-config/src/config.rs:782-814 | a registered checkout is found under its id if and only if the registry is readable and no other declaration matches; otherwise the lookup is ambiguous |
| RegistryTheorems.SharedButNotFound | crates/agentpalace-config/src/config.rs:782-814 | at an input: two parts of one repository accepted for one checkout, which is then found under neither |
| Ids.ValidateId | crates/agentpalace-core/src/ids.rs:66-78 | accepts exactly the valid ids, and reports emptiness or the first bad character |
| Ids.NormalizedResult | crates/agentpalace-core/src/ids.rs:98-120 | normalising fails on blank input only, and otherwise gives a canonical, valid id |
| Ids.CanonicalIsFixed | crates/agentpalace-core/src/ids.rs:98-120 | a text is its own normal form if and only if it is canonical |
| Ids.NormalizedIsIdempotent | crates/agentpalace-core/src/ids.rs:98-120 | normalising twice is normalising once |
| Ids.NormalizedMeans | crates/agentpalace-core/src/ids.rs:98-120 | the canonical form: the trimmed text, character by character, behind the prefix unless it is there |
| Ids.CanonicalCharacter | crates/agentpalace-core/src/ids.rs:99-107 | capitals are lower-cased, what may stand is kept, the rest becomes an underscore |
| Ids.TrimMiddle | crates/agentpalace-core/src/ids.rs:100-100 | trimming leaves what is between the first and the last visible characters |
| Federation.LoadRemotes | crates/agentpalace-config/src/federation.rs:311-383 | accepts exactly lists of valid, distinctly named remotes, and gives each its server |
| Federation.LoadTable | crates/agentpalace-config/src/federation.rs:385-398 | accepts exactly tables whose rules all resolve, and keeps every key |
| Federation.LoadCoordination | crates/agentpalace-config/src/federation.rs:406-466 | accepts exactly tables of canonical wings with resolvable rules that do not write to both |
| Federation.LoadSection | crates/agentpalace-config/src/federation.rs:302-505 | accepts exactly the acceptable sections, and then gives their runtime form |
| Federation.Load | crates/agentpalace-config/src/federation.rs:302-505 | no section loads as local only; every accepted configuration is well formed |
| Federation.InferSingle | crates/agentpalace-config/src/federation.rs:551-570 | a remote is inferred if and only if there is exactly one, and it is that one |
| Federation.ResolvedIsOk | crates/agentpalace-config/src/federation.rs:508-547 | a resolved rule names a remote exactly when not local, a configured one, and writes elsewhere only when combined |
| Federation.LoadedIsWellFormed | crates/agentpalace-config/src/federation.rs:302-505 | what an acceptable section loads as is well formed in every table and in its default |
| Federation.RoutesAreOk | crates/agentpalace-config/src/federation.rs:621-732 | for every query and project override, the drawer, graph and coordination routes are well formed, and diary queries are local |
| Federation.OverridePrecedence | crates/agentpalace-config/src/federation.rs:621-666 | diary queries are local; a wing with a rule is routed by it; without one a resolvable override is routed as it is written; otherwise the default decides and writes are local |
| Federation.KgPrecedence | crates/agentpalace-config/src/federation.rs:671-676 | the graph is routed by its own rule, or else by the default |
| Federation.ResolvedAsWritten | crates/agentpalace-config/src/federation.rs:508-547 | a rule resolves if and only if it is local, names a configured remote, or names none and there is one; its route has its mode, that remote, and its write target if combined |
| Federation.PlainHttpIsLoopback | crates/agentpalace-config/src/federation.rs:573-584 | plain HTTP is accepted for `localhost` and `127.0.0.1` and no other host, with any port and path |
| Federation.PlainHttpInBrackets | crates/agentpalace-config/src/federation.rs:573-584 | and in brackets for these and `::1` |
| Federation.TokenPrecedence | crates/agentpalace-config/src/federation.rs:588-608 | a token found in the environment and not empty wins over the inline one; the timeout defaults to five seconds |
| Federation.RefusedExactly | crates/agentpalace-config/src/federation.rs:311-466 | which remotes and which coordination rules are refused |
| Federation.MineRemoteIsConfigured | crates/agentpalace-cli/src/main.rs:1910-1930 | for a loaded configuration every route that is remote, or combined with a write target that is not local, is mined remotely, and the remote looked up is the route's own and always there, so the missing-remote branch is unreachable |
| Federation.SpellingDoesNotMatter | crates/agentpalace-config/src/federation.rs:707-732 | every spelling of a wing routes like its canonical form |
| Federation.CoordinationGate | crates/agentpalace-config/src/federation.rs:707-732 | blank wings and the three reserved ones are local in every spelling, nothing writes to both, every other accepted rule is the one returned for its key, and the rest gets the default |
| Locator.FreshOrNotice | crates/agentpalace-core/src/locator.rs:53-109 | the text is the mined bytes of the unchanged file inside the root, or a stale notice |
| Locator.FreshIsReturned | crates/agentpalace-core/src/locator.rs:79-109 | an unchanged file is never called stale |
| Locator.NoticeExactly | crates/agentpalace-core/src/locator.rs:79-109 | which notice: missing when the file cannot be read inside the root, changed when it can |
| Locator.ResolvedKeeps | crates/agentpalace-core/src/locator.rs:119-152 | a record keeps everything but its text, and one without a locator keeps that too and is never stale |
| Locator.ResolvedTwice | crates/agentpalace-core/src/locator.rs:119-152 | resolving is idempotent in text and flag |
| Locator.ResolveRecords | crates/agentpalace-core/src/locator.rs:119-152 | the memoised, in-place resolver leaves every record and flag as the simple resolver would, leaves unlocated records alone, and reads exactly the files needed, each once |
| McpUpsert.MergeLoop | crates/agentpalace-cli/src/setup.rs:514-529 | the in-place merge loop gives the specified fields |
| McpUpsert.UpsertMcpEntry | crates/agentpalace-cli/src/setup.rs:492-541 | the document is the specified one, and a change is reported if and only if it differs from the input |
| McpUpsert.Signal | crates/agentpalace-cli/src/setup.rs:503-541 | the document is unchanged if and only if the entry was there and merging leaves it as it is |
| McpUpsert.UpsertIsIdempotent | crates/agentpalace-cli/src/setup.rs:492-541 | upserting twice is upserting once, for every JSON value |
| McpUpsert.UpsertKeepsTheRest | crates/agentpalace-cli/src/setup.rs:492-541 | every other top-level key of an object root and every sibling of an object section is kept |
| McpUpsert.UpsertKeepsSettings | crates/agentpalace-cli/src/setup.rs:514-529 | existing arguments, environment and command-array tails are kept; everything else follows the update |
| McpUpsert.NewServerIsTheEntry | crates/agentpalace-cli/src/setup.rs:511-532 | a server that was not there, or whose entry is no object, is registered by exactly the entry given |
| McpUpsert.MergeTwice | crates/agentpalace-cli/src/setup.rs:512-532 | merging the same entry twice is merging it once |
| DrawerIds.MinedIdIsValid | crates/agentpalace-core/src/hash.rs:23-31 | an id mined for valid wing and room never fails validation |
| DrawerIds.ValueOfPadded | crates/agentpalace-core/src/hash.rs:30-30 | the padded index reads back as the index, whatever its length |
| DrawerIds.PaddedLength | crates/agentpalace-core/src/hash.rs:30-30 | four digits up to 9999, and no leading zero beyond |
| DrawerIds.IdOfExample | crates/agentpalace-core/src/hash.rs:23-31 | what an id looks like, at an input |
| DrawerIds.ParseOfJoin | crates/agentpalace-core/src/hash.rs:23-31 | for a known wing, parsing an id gives back room, source hash and index |
| DrawerIds.MinedIdsAreUnique | crates/agentpalace-core/src/hash.rs:23-31 | equal ids of one wing have equal rooms, 12-character hashes and indices |
| DrawerIds.JoinDecides | crates/agentpalace-core/src/hash.rs:23-31 | two ids are equal if and only if wing and room, joined by a slash, read alike, and source hash and index are equal |
| DrawerIds.WingIsRecoverableExactly | crates/agentpalace-core/src/hash.rs:23-31 | an id determines its wing among all valid wings and rooms if and only if the wing has no slash after its first character and the room none before its last |
| DrawerIds.WingIsNotRecoverable | crates/agentpalace-core/src/hash.rs:23-31 | at an input: `a/b` with room `c` and `a` with room `b/c` are valid and have one id |

## Left out

- MigrationMeaning.MeaningPreservedOverAllRuns: links of the home are resolved on one given disk; a link inside the home that leads through the cache, which moves first, is not followed to its new place.
- MigrationRun.Disk.RunWithCache: each copy, rename and persist is one atomic step without a concurrent writer; a write error in the middle of a run is modelled as a cut-off run, not as a returned error.
- MigrationRun.Disk.RunWithCache: the disk holds a whole tree at each place, so a place inside another one (a client file inside the legacy home, say) is excluded by `Layout`; aliases through the filesystem enter by the fixed function `physical`.
- ClientDocuments.EntryKeepsTheRest: the registration is edited as a value, not in place; only its environment loop is modelled step by step.
- ClientDocuments.ClientsAreStable: JSON and TOML text is read and printed by functions assumed to be inverse to each other; formatting and comments of TOML are not modelled.
- PathRemap.RemapLands: a path text is split and printed by functions assumed to be inverse on proper paths; repeated separators inside the remainder are therefore not kept.
- MigrationRun.Disk.Stage: the writes made into the staging directory are an arbitrary list of intermediate trees, because nothing reads them back; what is staged in the end is the concrete tree of `Staging.StageTree` wherever `MigrationMeaning.Concrete` is assumed.
- TreeCopy.CopyTreeWithin: file permissions are not modelled.
- Staging.BuildStage: file permissions are not modelled.
- DuplicateClassifier.MaskTemplate: lower-casing is character by character; characters whose lower case has several characters, and the final sigma, are not modelled.
- RemoteBatches.BuildRemoteBatches: sizes are unbounded naturals.
- Federation.Load: error texts, warnings, the OAuth login mode and the configured default coordination wing are not modelled.
- RegistryTheorems.FindAfterRegister: git facts are given functions; the filesystem is fixed, so canonicalisation is idempotent.
- ProjectRegistry.Registry.RegisterProject: reading and writing the registry file is one step.
- The check that no AgentPalace process is running, preview texts and messages, and the discovery of client file locations from environment variables.
- `resolve_project_config`, which combines a registry lookup with reading a project file.
- Relation names and which relation blocks a write: finite tables.
- A2A and MCP task adapters, OAuth, token stores, HTTP and stdio transport, the demo hub: input and output to foreign services.
- Mining, pruning, ingest, maintenance and outbox execution, embedding profiles, freshness weights, command-line parsing, rendering and benchmarks.
