# sysforge: verified models

sysforge builds and installs AUR packages. Most of it drives pacman, git and
makepkg; this project models the parts that are algorithms of their own and
proves what they promise. pacman, makepkg, the PKGBUILD parser, `vercmp`, the
review prompt and the clock are oracles: functions or lists of answers that the
theorems quantify over.

- **The batch build** (`Packages`, `DepTokens`, `BatchOrder`, `OrderStability`,
  `BuildStates`, `StateText`, `StateFiles`, `Install`, `BuildLoop`, `RunHandover`,
  `RunRecords`, `BuildVerb`, `TwoPass`). A batch is ordered by its own
  dependencies, walked target by target with just-in-time installs, installed in
  one retried all-or-nothing transaction, and its build records are snapshotted,
  reverted and restored. The
  loops and the state file are methods on classes; each is tied to a function of
  the old state, and the theorems about whole runs are stated on those functions.
  Every helper loads the state file, changes its copy and saves it, so what a
  record loses on the way through the file is part of the theorems.
- **The add-only config merge** (`ConfigTree`, `ConfigMerge`, `ConfigPaths`,
  `ConfigShape`, `ConfigLayout`, `ConfigReparse`, `ConfigResync`, `SyncFile`). A
  container body is the list of its keys, tables, comments and blank lines in file order. A file is
  the tree that was written; what is read from it can be another one, because a
  bare key behind a header belongs to that table ("Table" in TOML v1.0.0).
- **The build-state repair** (`StateRepair`, `StateRepairRun`).
- **Graph walks** (`ClosureWalk`, `RequirerWalk`): the dependency closure of
  `sysforge doctor` and the closure of what a refused dependency takes with it.
- **The log clock** (`LogClock`): two log handles that share one "last date".
- **The override writer** (`OverrideText`, `OverrideRead`, `OverrideWriter`,
  `OverrideToml`, `OverrideFile`), with a reader for the rows it writes and one
  for the table they stand in: headers, keys, strings and inline tables of
  TOML v1.0.0, read apart from how the writer searches.
- **Update verdicts and drift promotion** (`UpdateVerdict`, `DriftPromotion`).

`Prelude` holds the vocabulary they share.

## What the code demands of its surroundings

- pkgbases are unique in a batch. The record theorems suppose at most one
  artifact and one recording build of a package in a run, and that a file name
  determines the package inside. Between a refusal and the install no other
  artifact of the package is built.
- The state file is one the program wrote: known fields only, and no boolean in a
  stash. Only `sandboxed` and `compiles` are booleans, and a build time is kept
  only in a ring that is not empty.
- A keyed entry of a config never holds a comment or white space item.
- Repair targets are distinct, and a target already on record is recorded under
  the directory it is rebuilt from (`StateRepair.Separate`). Only the exact-result
  theorems need this.
- The resolver lists no dependency under two different lists of requirers.
- The unified log and the package log are different files; their names differ
  after `sysforge` (`sysforge.log` and `sysforge-<verb>.log` against
  `sysforge_<pkgbase>.log`).
- Package names use letters, digits and `@._+-`.
- One update result per pkgbase.

## Where the code and its words differ

- `_strip_version` is to leave the name. It looks for one operator after the other
  in the whole token, so a version that holds an operator listed earlier becomes
  part of the name (`DepTokens.OperatorInVersion`); `DepTokens.NameStays` is the
  exact condition.
- `not_installed_by_pkgbase` says distinct reasons are joined. A reason that is
  itself a joined pair is never recognised, so a pair can be reported twice
  (`Install.RepeatedCompoundReason`); `Install.FoldIsDistinctIff` is the exact
  condition.
- A comment in `_order_targets_by_intra_deps` says that insertion order keeps
  unrelated members stable. It does not: `OrderStability.IndependentOvertakes` and
  `OrderStability.MentionOvertakes` are batches in which unrelated members change
  places, and `OrderStability.BuiltFirstIffEarlier` says for any two members which
  one is built first.
- `restore_reverted` is to put the real build facts back. The reverted table is
  written with every value as text, so a build outside the sandbox comes back as
  `"False"`, which reads as true (`StateFiles.FalseComesBackTrue`).
  `StateFiles.RefusedComesBackIff` is the exact condition, and
  `RunRecords.RefusedThenInstalled` states it for whole runs. A control character
  in a value or a name keeps the whole file from loading
  (`StateText.TextComesBack`, `StateFiles.RefusedLoadsIff`).
- A batch member that another one needs is to be installed before that one builds.
  A direct dependency is (`BuildVerb.DependencyHandedOver`). Through a refused
  target it is not: `BuildVerb.RefusedLinkBreaks` is a batch of three, and
  `RunHandover.HandedOverIff` the exact condition.
- `merge_container` says its anchor is a section that the live file has. It takes
  any live key of that name. Where the live one is a bare key, the next new
  section is spliced between bare keys (`ConfigShape.MixedKindsBreakOrder`), and
  the keys behind it are read as part of that section by the next sync. It may
  inject them again (`ConfigReparse.InjectedAgain`), leave them where they are now
  read (`ConfigResync.MovedForGood`), or not be able to read the file
  (`ConfigResync.UnreadableAfterwards`). `ConfigReparse.MergeIsIdempotentIff` says
  exactly when nothing moves, `ConfigResync.SecondMergeIff` exactly when the next
  sync injects nothing and when it cannot read the file.
- `write_package_compiler_override` promises an upsert. A header with a comment
  behind it gets a second one, a row is glued to a header without a newline, and a
  row whose key is spelled in another way gets a second one beside it; each time
  the file does not load any more (`OverrideToml.CommentedHeader`,
  `OverrideToml.UnendedHeader`). Nor does it if a value holds a character beyond
  the Basic Multilingual Plane (`OverrideToml.AstralCompiler`).
  `OverrideToml.WriteIsRead` is the exact condition.
  A bare row `a.b = …` is taken for the row of a package `a.b`, while TOML reads
  it as part of `a` (`OverrideToml.WriteSpares`, `OverrideToml.DeleteIsRead`).
- A comment in `toml_literal` says JSON's ASCII escapes are valid in a TOML basic
  string. Characters beyond the Basic Multilingual Plane become surrogate pairs,
  which TOML refuses; `OverrideRead.StringReadsBack` shows that they are the only
  ones.

## Model

| member | source | states |
|---|---|---|
| `DepTokens.StripMeans` | sysforge/primitives/aur_resolve.py:58-64 | stripping gives the text before the first place of the operator that is listed first among those that occur, or the token itself if none does |
| `DepTokens.ConstraintNames` | sysforge/primitives/aur_resolve.py:58-64 | a name without operator characters, followed by any of the six operators and a version without them, strips to that name |
| `DepTokens.NameStays` | sysforge/primitives/aur_resolve.py:58-64 | in front of any text such a name stays, and it alone is left exactly if the first listed operator in the text stands at its front |
| `DepTokens.OperatorInVersion` | sysforge/primitives/aur_resolve.py:36-37 | a version that holds an operator listed earlier becomes part of the name |
| `BatchOrder.NamesRead` | sysforge/build_core.py:780-795 | a target claims its pkgnames and what its resolved provides name, and looks up exactly what the resolved tokens of its depends, makedepends and checkdepends name |
| `BatchOrder.Providers` | sysforge/build_core.py:774-785 | each provided name belongs to the earliest target that claims it, and nothing else is registered |
| `BatchOrder.MemberDeps` | sysforge/build_core.py:787-797 | a target's edges are exactly the other batch members that own a name which one of its three dependency lists asks for |
| `BatchOrder.CollectIntraDeps` | sysforge/build_core.py:787-799 | the edge map holds exactly the build dependencies inside the batch, and no empty entry |
| `BatchOrder.PathPrecedes` | sysforge/build_core.py:742-761 | in an order that puts direct dependencies first, every transitive dependency comes first |
| `BatchOrder.CycleBlocksOrder` | sysforge/build_core.py:806-813 | if some order puts all dependencies first there is no cycle |
| `BatchOrder.StuckHasCycle` | sysforge/build_core.py:806-813 | a set of members that all wait on each other contains a dependency cycle |
| `BatchOrder.ReleaseIsNewlyReady` | sysforge/build_core.py:804-807 | marking a group done releases exactly the members whose last missing dependency was in the group, once each |
| `BatchOrder.RoundKeepsState` | sysforge/build_core.py:804-807 | a round of the sorter keeps its invariant: no repeats, dependencies first, and handed out or ready exactly when all dependencies are handed out |
| `BatchOrder.SortSucceedsIffAcyclic` | sysforge/build_core.py:804-813 | the sorter hands out every member exactly when the batch graph is acyclic, so the fallback needs a real cycle |
| `BatchOrder.RunSorter` | sysforge/build_core.py:804-807 | the predecessor-counting sorter computes the same order as the round-by-round specification |
| `BatchOrder.SourcesLead` | sysforge/build_core.py:804-807 | the order starts with exactly the members that have no batch dependency |
| `Prelude.LeIs` | sysforge/build_core.py:803 | names sort by the first code point in which they differ, and a prefix comes first |
| `OrderStability.ReleaseOrder` | sysforge/build_core.py:804-807 | the members one round releases stand by their last dependency, then by their place in the batch |
| `OrderStability.NodesByMention` | sysforge/build_core.py:802-803 | the sorter takes its nodes in the order in which they are first mentioned: target by target, each before its dependencies, these by name |
| `OrderStability.BuiltFirstIffEarlier` | sysforge/build_core.py:801-807 | of any two members of an acyclic batch, related or not, exactly one is built first: the one with the shorter longest chain of dependencies; without dependencies, the one mentioned first; else the one whose last dependency is built first, then the one given first |
| `OrderStability.IndependentOvertakes` | sysforge/build_core.py:802 | a batch in which a member without dependencies overtakes an unrelated one |
| `OrderStability.MentionOvertakes` | sysforge/build_core.py:802-803 | a batch in which a member overtakes an unrelated one because a third depends on it |
| `BatchOrder.OrderTargets` | sysforge/build_core.py:742-821 | the edges are exactly the build dependencies inside the batch; the result is a permutation, the sorted order when acyclic, and the given order when there is a cycle or no edge; in an acyclic batch the owner of a name that a dependency token of another target asks for stands before that target |
| `BuildStates.BuildState.RecordBuild` | sysforge/primitives/build_state.py:234-411 | a record keeps the sticky fields its caller did not pass, appends the measured build time to a ring of five, and drops the stash of that package |
| `BuildStates.BuildState.RevertRecord` | sysforge/primitives/build_state.py:420-456 | the new tables after a refused install: back to the snapshot with the build facts kept, the build stashed under its artifact |
| `BuildStates.BuildState.RestoreReverted` | sysforge/primitives/build_state.py:458-471 | installing an artifact pops its stash and reinstates the stashed record |
| `BuildStates.BuildState.Save` | sysforge/primitives/build_state.py:734-783 | the main table keeps booleans, the reverted table turns every value into text, and unknown fields are dropped |
| `StateFiles.RecordBuilds` | sysforge/build/makepkg_wrapper.py:1520-1546 | the file after a build: every pkgname recorded, then saved |
| `StateFiles.RestoreInstalled` | sysforge/build_core.py:500-521 | every file of an accepted transaction gets its stash restored, in order; the file is left as it is exactly where nothing is stashed for any of them, and else written anew |
| `StateFiles.RestoredRecords` | sysforge/build_core.py:500-521 | afterwards the packages on record are those before and those named in a stash of an installed file; exactly the stashes of installed files are gone, the others unchanged |
| `StateFiles.RevertUninstalled` | sysforge/build_core.py:541-568 | every refused file of a snapshotted package is reverted, in order; without one the file is left as it is |
| `StateFiles.ForgetUninstalled` | sysforge/build_core.py:464-483 | exactly the named records go; if none of them is on record the file is left as it is |
| `StateFiles.RefusedComesBackIff` | sysforge/primitives/build_state.py:734-783 | for every record: refused, saved, loaded and installed, it comes back as it was exactly if it holds no boolean or changed nothing but facts of the build, and a reader that asks for truth is misled exactly by the fields that were False |
| `StateText.TextComesBack` | sysforge/primitives/build_state.py:141-149 | a written value or name is read back exactly if it holds no control character but a tab and, in a value, line breaks |
| `StateFiles.RefusedLoadsIff` | sysforge/primitives/build_state.py:734-783 | the same through files that have to load: exactly if the file the build left loads, and the record never had to be stashed or holds no boolean and the name of the artifact can be written |
| `StateFiles.FalseComesBackTrue` | sysforge/primitives/build_state.py:771-774 | a first build outside the sandbox that is refused and later installed ends with the text False in its `sandboxed` field, which reads as true |
| `BuildStates.FieldsAcrossBuilds` | sysforge/primitives/build_state.py:340-408 | after any series of builds a sticky field holds what the last build that knew it passed, and any other field what the last build passed |
| `BuildStates.RingAfterBuild` | sysforge/primitives/build_state.py:396-407 | a measured build time goes to the end of the ring, and of more than five only the last five stay; without one the ring stays |
| `BuildStates.RingAcrossBuilds` | sysforge/primitives/build_state.py:396-407 | after any series of builds the ring holds the last five build times, those on record before included |
| `BuildStates.SavedIsClean` | sysforge/primitives/build_state.py:734-783 | saving and loading changes nothing a second time, and nothing at all in a file the program wrote |
| `BuildStates.RevertIsRecoverable` | sysforge/primitives/build_state.py:420-456 | a refusal restores the snapshot but for build_seconds and reviewed_commit, which are those of the build if it recorded them; what the build recorded is stashed exactly if it changed anything else, and else still on record |
| `BuildStates.SecondRevertIsIdle` | sysforge/primitives/build_state.py:434-440 | a second refusal keeps the existing stash and changes nothing |
| `BuildStates.RestoreRecovers` | sysforge/primitives/build_state.py:458-471 | installing an artifact ends with exactly the record that could be brought back for it |
| `Install.InstallBuilt` | sysforge/build_core.py:585-684 | a file is dropped exactly if its pkgname can be read and neither it nor a name it replaces is installed or asked for; every other one is installed or refused; on record afterwards are the packages that were, without the dropped ones, and those a restored record brings back; and all of it equals the specified transaction |
| `Install.RetryTransaction` | sysforge/build_core.py:644-684 | the retry loop terminates and computes the specified retry sequence |
| `Install.NotInstalledByPkgbase` | sysforge/build_core.py:571-582 | a pkgbase is reported exactly if one of its files was refused, with exactly the details given for its files; a file nobody built goes by its own name |
| `Install.FilterInstalled` | sysforge/build_core.py:626-631 | the keep-filter splits the input into kept and dropped files, each in the given order |
| `Install.TransactSplits` | sysforge/build_core.py:644-684 | each pending file ends installed or refused, exactly as often as it was pending |
| `Install.AttemptsShrink` | sysforge/build_core.py:618-620 | each retried transaction is a strict part of the one before, in its order |
| `Install.RefusalsAreExplained` | sysforge/build_core.py:656-681 | every refused file carries either the conflict text pacman gave for its own package in the attempt that set it aside, or the fixed text of a last attempt that blamed nobody present |
| `Install.InstalledIsOneTransaction` | sysforge/build_core.py:647-655 | what is reported installed is exactly the last transaction, and pacman accepted it |
| `Install.InstallConserves` | sysforge/build_core.py:622-684 | the deduplicated input splits exactly into installed, refused and dropped files |
| `Install.DroppedIffUnwanted` | sysforge/build_core.py:626-631 | the exact condition for a file to be dropped, and for it to be installed or refused |
| `Install.RecordsAfterInstall` | sysforge/build_core.py:632-655 | which packages are on record after a call |
| `Install.RequestedIsKept` | sysforge/build_core.py:628-634 | a file of a requested package is never dropped by the keep-filter |
| `Install.FoldKeepsEveryDetail` | sysforge/build_core.py:571-582 | no detail of any refused file is lost in the folded reasons |
| `Install.FoldKeepsOrder` | sysforge/build_core.py:578-581 | reasons stand in the order in which the files were refused |
| `Install.FoldIsDistinctIff` | sysforge/build_core.py:574-582 | the joined reasons are distinct exactly when no compound reason repeats a detail already seen |
| `Install.RepeatedCompoundReason` | sysforge/build_core.py:579-581 | two split members failing for the same two files report the pair twice |
| `BuildLoop.Accumulators.InstallDeps` | sysforge/build_core.py:1303-1353 | the state after a just-in-time install of the target's batch dependencies |
| `BuildLoop.Accumulators.PendingDeps` | sysforge/build_core.py:1310-1326 | exactly the files of the dependencies that no install call has seen, dependency by dependency in sorted order |
| `BuildLoop.Accumulators.Build` | sysforge/build_core.py:1361-1475 | after one makepkg call: pgo-skipped exactly if it was skipped; failed exactly if it raised, found an artifact that is forced or missing, or brought files that the skew gate refused; built otherwise, with its files collected |
| `BuildLoop.Accumulators.Run` | sysforge/build_core.py:1286-1494 | over the whole loop and the final bulk install: each target ends in the list its makepkg call sends it to, the lists in batch order, the files to be installed exactly those of the targets that were built; and the state is the specified one |
| `BuildLoop.BuildPartitions` | sysforge/build_core.py:1286-1475 | after any number of steps each attempted target is in exactly one of built, failed and pgo-skipped |
| `BuildLoop.RunEnds` | sysforge/build_core.py:1361-1475 | the same of the specified run: which list each target ends in, and whose files are collected |
| `RunHandover.HandedExactlyOnce` | sysforge/build_core.py:1309-1353 | over the whole run every built artifact is handed to exactly one install call, and none is reported both installed and not installed |
| `RunHandover.RequestedIsReported` | sysforge/build_core.py:1484-1494 | every built artifact of a requested package is reported installed or not installed |
| `RunHandover.DepsReadyBeforeBuild` | sysforge/build_core.py:1303-1353 | when a target's build starts, each transitive batch dependency has been attempted once and all its artifacts have been handed to an install call |
| `RunHandover.HandedOverIff` | sysforge/build_core.py:1303-1353 | when a target starts to build, a built artifact has been handed to an install call exactly if it belongs to a direct dependency of that target or of one attempted before |
| `RunRecords.FinalTrack` | sysforge/build_core.py:1494-1505 | what the run leaves in the file about one artifact: restored if installed, reverted and saved if refused |
| `RunRecords.InstalledBuildKeepsRecord` | sysforge/build_core.py:1494-1505 | an installed build ends with the record that build left in the file |
| `RunRecords.RefusedBuildIsReverted` | sysforge/build_core.py:541-568 | a refused build ends with the pre-run record, up to the facts of the build; what stays recoverable is its own record, as text if it had to be stashed |
| `RunRecords.ReusedArtifactRestores` | sysforge/build_core.py:500-521 | a later run that reuses and installs a refused artifact ends with exactly what the file kept of its build |
| `RunRecords.ReusedArtifactRefused` | sysforge/build_core.py:541-568 | refusing a reused artifact again changes nothing about its record or stash |
| `RunRecords.PassingByKeepsTrack` | sysforge/build_core.py:1286-1505 | a run that neither records a package nor brings forth a file of it leaves its record and stash alone |
| `RunRecords.LaterInstallRestores` | sysforge/build_core.py:500-568 | over any number of runs that refuse the artifact again or pass its package by, the run that finally installs it ends with exactly what the file kept of its build |
| `RunRecords.RefusedThenInstalled` | sysforge/build_core.py:500-568 | from the refused build to the install, over any such runs: the record ends as the build left it exactly if it holds no boolean or never had to be stashed |
| `BuildVerb.ReviewGate` | sysforge/build_core.py:1127-1168 | aborted exactly if a decision aborts; else kept, skipped and refused hold exactly the targets so decided, in the order of the batch and with the reasons given |
| `BuildVerb.GateCounts` | sysforge/build_core.py:1127-1168 | every target is kept, skipped or refused, once |
| `BuildVerb.DropRefused` | sysforge/build_core.py:1243-1257 | exactly the targets whose pkgbase or one of whose pkgnames is refused leave the batch, each with the reason of the first such name in sorted order; the others keep their order and all earlier refusals stay |
| `BuildVerb.RefusalKeepsOrder` | sysforge/build_core.py:1243-1265 | the filtered batch with restricted edges still puts dependencies first |
| `BuildVerb.LinksStay` | sysforge/build_core.py:1256-1265 | the edges kept after refusals are exactly the build dependencies between targets still in the batch |
| `BuildVerb.BuildBatch` | sysforge/build_core.py:1286-1511 | built, failed and pgo-skipped are the targets whose makepkg calls ended so; installed and not-installed are those of the specified run, and the file is that run's after the reverts |
| `BuildVerb.PkgbaseOf` | sysforge/build_core.py:1502-1504 | each built file belongs to the last built target that has it |
| `BuildVerb.BuildAndInstall` | sysforge/build_core.py:1005-1511 | when it aborts, where each target ends and why; the edges of the loop are exactly the build dependencies between targets still in the batch; the order it builds in; each target built, failed or pgo-skipped as its makepkg call ended; outcome and file are those of the specified run; every target of a run that is not aborted is in exactly one of five lists |
| `BuildVerb.DependencyHandedOver` | sysforge/build_core.py:1303-1353 | on the call itself: a member that a kept target directly build-depends on is built before it, and each file it brought has been given to an install call when the build of the dependent starts |
| `BuildVerb.AttemptedAcrossRefusals` | sysforge/build_core.py:1243-1265 | a batch member still built has been attempted before whatever transitively depends on it, also through targets a refusal removed |
| `BuildVerb.RefusedLinkBreaks` | sysforge/build_core.py:1243-1265 | three targets in a chain: if the middle one is refused, the first is built but not handed over when the last one builds |
| `TwoPass.SplitToolchainFirst` | sysforge/update_assemble.py:328-354 | each half holds exactly the targets owned or not owned by the toolchain, in the given order |
| `TwoPass.MergePartitions` | sysforge/build_core.py:146-167 | merging the outcomes of two halves partitions the whole batch |
| `TwoPass.BuildInPasses` | sysforge/update.py:1731-1745 | one whole call on each half in turn, the second on the file the first leaves and only if that did not abort, or one call on everything; the outcome joins the lists in pass order, a flag is set if one pass set it, and where both have a reason that of the second stands; every target in exactly one list |
| `ConfigMerge.MergeMembers` | tools/sync_config.py:179-250 | the keyed entries of the merged body are the live ones, tables merged, and the shipped ones whose key is new; nothing else |
| `ConfigMerge.MergeKeys` | tools/sync_config.py:179-250 | the merged keys are the union of both files' keys |
| `ConfigMerge.MergeUnique` | tools/sync_config.py:179-250 | keys stay unique at every depth |
| `ConfigMerge.MergeSaturates` | tools/sync_config.py:179-250 | after the merge every shipped key path is present at every depth, except below a name whose live value is not a table |
| `ConfigMerge.SaturatedIsFixed` | tools/sync_config.py:152-176 | a merge that finds everything in place leaves the body as it is |
| `ConfigMerge.AddedNothingIff` | tools/sync_config.py:179-250 | the returned list is empty exactly when nothing shipped is missing |
| `ConfigReparse.ReparsedIsSameIff` | tools/sync_config.py:184-188 | a written body is read back as it was exactly if bare keys come before sections at every depth |
| `ConfigReparse.PathsSurviveIff` | tools/sync_config.py:184-188 | reading a written body keeps every key path under the same condition |
| `ConfigReparse.MergeIsIdempotentIff` | tools/sync_config.py:179-250 | what the first merge wrote is read with every path in place, and a second merge changes nothing, exactly when the first one displaced nothing |
| `ConfigResync.SaturatedReads` | tools/sync_config.py:184-188 | of a body that lacks nothing shipped when it is written, nothing is missing when it is read, exactly if no bare key behind a section is one of the shipped body, at any depth of a shared table |
| `ConfigResync.ReadsUniqueIff` | tools/sync_config.py:184-188 | a written body parses exactly if no bare key behind a section is one that the table it is read into has already |
| `ConfigResync.SecondMergeIff` | tools/sync_config.py:179-250 | the file the first merge wrote parses, and the second merge injects nothing and changes nothing, exactly under these two conditions on the merged body |
| `ConfigResync.MovedForGood` | tools/sync_config.py:221-224 | live `ui = 1`, `color = 2`, shipped `[ui]`, `[net]`: the next sync reads `color` as `net.color` and has nothing to do |
| `ConfigResync.UnreadableAfterwards` | tools/sync_config.py:221-224 | live `ui = 1`, shipped `y = 1`, `[ui]`, `[net]` with a `y` of its own: the written file does not parse |
| `ConfigReparse.InjectedAgain` | tools/sync_config.py:221-224 | live `ui = 1`, shipped `y = 1`, `[ui]`, `[net]`: the written `y` is read as `net.y`, and the next merge injects it again |
| `ConfigPaths.AddedIsInjected` | tools/sync_config.py:179-250 | the returned list holds exactly the injected paths, at every depth |
| `ConfigPaths.AddedOnce` | tools/sync_config.py:200-250 | the list names each path once, in the order of the shipped keys |
| `ConfigPaths.ValuesSurvive` | tools/sync_config.py:180-184 | no value at a live path that is not a table changes |
| `ConfigShape.MergeEmbeds` | tools/sync_config.py:179-250 | the old live body, comments and blank lines included, is a subsequence of the new one at every depth |
| `ConfigShape.MergeBareFirstIff` | tools/sync_config.py:184-190 | bare keys still precede sections exactly when no new section is anchored on a live bare key that has bare keys behind it |
| `ConfigShape.MergeBareFirstDeepIff` | tools/sync_config.py:184-190 | bare keys precede sections at every depth of the merged tree exactly when nothing is displaced in any table both files have |
| `ConfigShape.SameKindDisplacesNothing` | tools/sync_config.py:184-190 | in particular when shared names are of the same kind in both files, at every depth |
| `ConfigShape.MixedKindsBreakOrder` | tools/sync_config.py:221-224 | a name that is a section in shipped and a bare key in live breaks the order |
| `ConfigLayout.LeadingCommentsStay` | tools/sync_config.py:212-219 | each injected item keeps its leading comment run directly before it |
| `ConfigLayout.SectionsFollowAnchors` | tools/sync_config.py:152-176 | each injected section stands right behind its shipped predecessor, with at most one blank line and its own comments between |
| `ConfigLayout.FirstSectionGoesLast` | tools/sync_config.py:158-163 | a new section without a shipped predecessor goes behind every live entry |
| `ConfigLayout.BareKeysInOrder` | tools/sync_config.py:212-219 | injected bare keys stand in shipped order |
| `ConfigLayout.SplicePads` | tools/sync_config.py:160-176 | an insertion leaves white space on both sides of what it inserts, adding a blank line only where there was none, and moves nothing else |
| `SyncFile.Container.FirstSectionIndex` | tools/sync_config.py:144-149 | the first section of a body, or its end |
| `SyncFile.Container.SpliceAfter` | tools/sync_config.py:152-176 | the run lands just behind the anchor, or at the end, padded only towards neighbours that are not white space |
| `SyncFile.Container.MergeContainer` | tools/sync_config.py:179-250 | the in-place merge computes the specified body and the specified list of paths |
| `SyncFile.Target.Sync` | tools/sync_config.py:253-322 | needs merge exactly if some header is active in shipped, commented out in live and not active in live; else the file is merged, so always when live has no commented-out header; a companion is left exactly then or if a shipped comment stands neither as a comment nor as an active line in the file left behind; nothing is written in a dry run or when a file does not parse |
| `SyncFile.Target.SyncTwice` | tools/sync_config.py:253-322 | the first sync leaves a file that reads as the merge exactly when the merge displaces nothing; the second cannot read it exactly when a stranded key collides, and else injects something exactly when a stranded key is shipped; otherwise it leaves the file alone |
| `StateRepair.RebuiltIsSound` | sysforge/state_cmd.py:337-353 | a rebuilt entry has no unexpanded variable and no retired token, belongs to the directory and carries every other field of its source |
| `StateRepair.PlanOfDir` | sysforge/state_cmd.py:275-362 | a directory has a plan exactly when something in it is broken and its PKGBUILD resolves |
| `StateRepair.FileLeavesOnlySkipped` | sysforge/state_cmd.py:259-441 | in the file a repair leaves, a `$` is left only in entries whose PKGBUILD is missing, does not parse, names nothing or holds one itself, and no retired build_mode anywhere |
| `StateRepair.VerdictMeans` | sysforge/state_cmd.py:275-320 | a directory with an entry that holds a `$` is not found if there is no PKGBUILD, planned if that parses, names its packages and holds no `$` in what is needed, and unresolvable otherwise; any other is intact |
| `StateRepair.StaysIff` | sysforge/state_cmd.py:356-362 | an old key that is not made anew stays exactly if its directory is not repaired or it is expanded and renamed, with every field but a retired build_mode unchanged |
| `StateRepair.SecondRepairIsIdle` | sysforge/state_cmd.py:259-441 | a second repair of the file the first one left plans no change, whatever order it reads it in, and leaves it alone |
| `StateRepair.TargetsAreRebuilt` | sysforge/state_cmd.py:425-434 | with distinct targets, every target ends with the record its plan made for it |
| `StateRepair.DroppedIsGone` | sysforge/state_cmd.py:356-362 | what a plan drops and does not make anew is gone |
| `StateRepair.UnplannedStays` | sysforge/state_cmd.py:364-377 | everything no plan drops stays, but for a retired build_mode |
| `StateRepair.IntactGroupsStay` | sysforge/state_cmd.py:275-277 | a group without a plan changes only in retired build_modes |
| `StateRepair.ProvenanceIsKept` | sysforge/state_cmd.py:322-354 | every entry afterwards is an old one or carries all non-identity fields of one old entry of its directory |
| `StateRepair.MemberIsRebuilt` | sysforge/state_cmd.py:327-354 | a member on record under its own name, or else its renamed one, is rebuilt under that name with the version of the PKGBUILD and every other field of its own old entry |
| `StateRepair.FixedIsThere` | sysforge/state_cmd.py:436-439 | the second pass never looks up an entry the first pass deleted |
| `StateRepairRun.GroupByDir` | sysforge/state_cmd.py:267-269 | the group of a directory holds exactly the entries recorded under it, in file order; entries without a directory are grouped under the empty name |
| `StateRepairRun.CreateRecords` | sysforge/state_cmd.py:327-354 | each member of the PKGBUILD gets the record that replaces its own old entry, else its renamed one, else the first broken one of the directory: which name it goes by, version and pkgbase, and every other field of that entry |
| `StateRepairRun.Judge` | sysforge/state_cmd.py:275-362 | the verdict on one directory, and when it is intact, not found, unresolvable or planned |
| `StateRepairRun.PlanAll` | sysforge/state_cmd.py:271-362 | pass 1: plans and reports of the specified verdicts, each list in ascending order of the directories |
| `StateRepairRun.StaleModes` | sysforge/state_cmd.py:364-377 | pass 2 finds exactly the entries with one of the two retired build_modes that no plan deletes, in file order |
| `StateRepairRun.Repair` | sysforge/state_cmd.py:259-441 | the whole command: load, plan, apply both passes, save; nothing is written in a dry run or when there is nothing to do; which directories are planned, reported as not found and reported as unresolvable |
| `ClosureWalk.WalkClosure` | sysforge/doctor.py:255-288 | exactly the packages to which a chain of dependency tokens leads from a root through installed packages that are no sonames, each once, nearest first; shallow mode lists chains of at most one |
| `ClosureWalk.ClosedHoldsBall` | sysforge/doctor.py:255-288 | a set closed under followed dependencies holds everything within any distance |
| `ClosureWalk.BallIsChains` | sysforge/doctor.py:267-286 | what lies within a number of steps is what a chain of at most as many dependencies leads to |
| `RequirerWalk.RequirerClosure` | sysforge/build_core.py:292-304 | the least set that holds the seeds and, with a name, everyone listed as requiring it in the last entry of that name |
| `RequirerWalk.KeptNeedsNoDropped` | sysforge/build_core.py:406-411 | after a refusal no kept dependency requires a dropped one |
| `LogClock.ReadStamp` | sysforge/log.py:125-139 | a stamped line, with its marker when the date moved, reads back with the clock's date |
| `LogClock.StepInStep` | sysforge/log.py:353-447 | every operation keeps each open log's last date equal to the shared one |
| `LogClock.StepReads` | sysforge/log.py:353-447 | reading a file after an operation gives what was read before and what the operation wrote into it |
| `LogClock.EveryLogReadsBack` | sysforge/log.py:118-139 | for every sequence of operations and any clock, each file reads back as what really happened: every header, stamped line and raw line written while it was open, in order, each stamped line with its day |
| `LogClock.FileLogs.constructor` | sysforge/log.py:65-71 | a process starts with no log open and nothing stamped |
| `LogClock.FileLogs.OpenUnifiedLog` | sysforge/log.py:353-375 | opening purges or appends and heads every open file |
| `LogClock.FileLogs.CloseUnifiedLog` | sysforge/log.py:378-391 | closing clears the file on success unless it persists |
| `LogClock.FileLogs.OpenPkgLog` | sysforge/log.py:394-405 | opening appends, heads every open file and notes the invocation |
| `LogClock.FileLogs.ClosePkgLog` | sysforge/log.py:408-420 | closing clears the file on success unless it persists |
| `LogClock.FileLogs.WriteLine` | sysforge/log.py:436-447 | a line is stamped once and written to every open file, or nowhere |
| `LogClock.FileLogs.WritePkgLog` | sysforge/log.py:423-433 | a raw line goes to the package log only |
| `OverrideText.RowIsOneLine` | sysforge/profile_writer.py:38-53 | a row is one line, whatever the values hold |
| `OverrideText.RowMatches` | sysforge/profile_writer.py:56-58 | the row written for a package matches that package and is no table header |
| `OverrideText.OneNamePerLine` | sysforge/profile_writer.py:56-58 | a line is the row of at most one package |
| `OverrideText.MatchesIff` | sysforge/profile_writer.py:56-58 | a line counts as the row of a package exactly if it is white space, the name bare or quoted, white space and an equals sign |
| `OverrideText.StripCuts` | sysforge/profile_writer.py:79-81 | stripping takes white space off both ends and nothing else |
| `OverrideRead.StringReadsBack` | sysforge/primitives/config.py:865-871 | a quoted string reads back as TOML exactly when it holds no character beyond the Basic Multilingual Plane |
| `OverrideRead.RowReadsBack` | sysforge/profile_writer.py:38-53 | the written row, read as TOML, binds the package to exactly the settings chosen, under the same condition on the values |
| `OverrideToml.RowReads` | sysforge/profile_writer.py:38-53 | the strings of the written row read exactly if no value holds a character beyond the Basic Multilingual Plane |
| `OverrideToml.WriteIsRead` | sysforge/profile_writer.py:61-129 | read as TOML afterwards, the package is bound to exactly the settings chosen if they hold no such character and there was no such table, or the writer recognises its ended header and the file loads and does not bind the package without the row the writer recognises; else the file does not load |
| `OverrideToml.WriteSpares` | sysforge/profile_writer.py:61-129 | writing to a file that loads leaves all other packages as they were exactly when the write binds its own and the row it replaces bound none of them |
| `OverrideToml.DeleteIsRead` | sysforge/profile_writer.py:132-155 | deleting from a file that loads unbinds the package exactly when it was unbound or the row the writer recognises was its only one, and leaves all others as they were exactly when that row bound none of them |
| `OverrideToml.CommentedHeader` | sysforge/profile_writer.py:79-97 | a header with a comment behind it gets a second one, and the file does not load any more |
| `OverrideToml.UnendedHeader` | sysforge/profile_writer.py:98-113 | a row is glued to a header without a newline, and the file does not load any more |
| `OverrideToml.AstralCompiler` | sysforge/profile_writer.py:47-53 | a compiler name with a character beyond the Basic Multilingual Plane, saved to an empty file, leaves a file that does not load |
| `OverrideWriter.WriteUpdates` | sysforge/profile_writer.py:61-129 | for the writer's own search: a write changes what it finds for this package and no other; it does not find the row exactly when the header it found is an unended last line |
| `OverrideWriter.WriteIsAnEdit` | sysforge/profile_writer.py:99-113 | in an existing section a write replaces the package's row or inserts one line behind the header, and every other line stays |
| `OverrideWriter.FreshIsAppended` | sysforge/profile_writer.py:83-97 | without a section of its own the file keeps its text, and header block, section header and row are appended behind a blank line |
| `OverrideWriter.WriteTwice` | sysforge/profile_writer.py:61-129 | writing twice is writing the second, exactly when the section header is no unended last line |
| `OverrideWriter.DeleteUndoesWrite` | sysforge/profile_writer.py:132-155 | deleting after writing a new row into an existing section restores the file, under the same condition |
| `OverrideWriter.DeleteUpdates` | sysforge/profile_writer.py:132-155 | for the writer's own search: a deleted package is found no more exactly when it had at most one row, and no other package is affected |
| `OverrideFile.ProfilesFile.Write` | sysforge/profile_writer.py:61-129 | the line editing computes the specified text, in which TOML reads the package bound to exactly the arguments under the condition of `OverrideToml.WriteIsRead`; a failed read or write leaves the file alone |
| `OverrideFile.ProfilesFile.Delete` | sysforge/profile_writer.py:132-155 | a row is removed and reported exactly when there is one and the file can be read and replaced |
| `UpdateVerdict.OldestInstalledVer` | sysforge/update_version.py:35-59 | none exactly if no member is installed; else the version of an installed member, and with a working vercmp no installed member is older |
| `UpdateVerdict.FailureKeepsFirst` | sysforge/update_version.py:35-59 | if vercmp never answers, the installed member that sorts first decides |
| `UpdateVerdict.VerdictIgnoresOrder` | sysforge/update_version.py:235-250 | the verdict does not depend on the order of the member names, even when vercmp fails |
| `UpdateVerdict.VerdictMeaning` | sysforge/update_version.py:318-341 | with all members installed: a rebuild exactly if a member that counts is older than the PKGBUILD, a downgrade exactly if all are newer; the version reported is that of the oldest; members count if the patched PKGBUILD declares them, or all do if there is none or it declares none |
| `UpdateVerdict.SkippedIff` | sysforge/update_version.py:318-322 | a check is skipped exactly if vercmp cannot compare the PKGBUILD with the oldest candidate |
| `UpdateVerdict.AssertionFailsIff` | sysforge/update_version.py:245-250 | the assertion fails exactly when no member is installed, or they disagree and the next build produces none of the installed ones |
| `DriftPromotion.NoticeAgrees` | sysforge/update.py:547-574 | the notice's queued set is exactly the drifted packages that are rebuilds with a PKGBUILD after both promotions |
| `DriftPromotion.QueuedIsBuiltUnlessUnsynced` | sysforge/update.py:1540-1562 | each queued package reaches the build list exactly when its sync did not fail |
| `DriftPromotion.ForcedIsPromoted` | sysforge/update.py:1434-1489 | a result is forced exactly when a promotion made it a rebuild |
| `DriftPromotion.ForcedIsNeverReused` | sysforge/build_core.py:1361-1436 | over a whole run, a forced target counts as built only if makepkg really built it |
| `DriftPromotion.PromoteDrift` | sysforge/update.py:1434-1489 | both passes over the results in place: a result becomes a forced rebuild exactly if it is up to date, has a PKGBUILD and a drift that is switched on names it; every other one stays |
| `DriftPromotion.PartitionFlagDrift` | sysforge/update.py:547-574 | the notice queues exactly the drifted packages with a PKGBUILD that are up to date or rebuilds, in order, and gives each other one the command that would rebuild it |

## Left out

- Running pacman, makepkg, git, sudo and `vercmp`, and parsing PKGBUILD and TOML text: oracles. `allow_break_deps`, `later_pkgnames` and interactive retries are inside the pacman answer.
- ABI, libLLVM and mesa checks: the skew gate is one boolean of a build's outcome. A build refused by that gate is not reverted by the code, so the record theorems speak of artifacts that reached an install call.
- Exceptions swallowed on a best-effort basis, failed writes of a log or of the state file, a Ctrl-C between packages, and two writers of one state file.
- `build_and_install` with no state directory: both callers pass one, and the model always has one.
- Review baselines, failure records, progress, timing, time estimates and all printed text.
- BuildStates.BuildState.RecordBuild: the failure records are not modelled, so neither is the one a build clears.
- BuildStates.BuildState.Save: a load finds what was saved. Names that collide with the tables `failures`, `reverted` and `reviewed` are not modelled, nor is the warning about lost updates. The theorems about runs suppose that the file loads; `StateFiles.RefusedLoadsIff` does not.
- SyncFile.Container.MergeContainer: a nested table is a value, merged in a container of its own and stored back, so the aliasing of nested containers is not captured. Paths are lists of keys, not dotted strings.
- SyncFile.Target.Sync: header and comment scans are functions of what is written; the companion's comment signatures are not computed. Dotted keys, tables defined out of order and the paths inside arrays of tables are not modelled.
- ConfigReparse.ReparsedIsSameIff: comments and blank lines behind a section stay where they were written unless a bare key follows; the parser counts them to the section, so the equality is up to their place.
- OverrideToml.WriteIsRead: the table is read line by line. Values over several lines, subtables and dotted or inline definitions of the table at top level are not modelled, nor is whether other rows are well-formed beyond their keys and strings; a carriage return counts as white space.
- OverrideFile.ProfilesFile.Write: lines end at a newline only, white space is the four ASCII characters, and the wording of the header comment is a parameter.
- RunHandover.DepsReadyBeforeBuild: the dependency paths are those of the edges the loop uses, which a refusal restricts to kept targets; for the others see `BuildVerb.AttemptedAcrossRefusals` and `RunHandover.HandedOverIff`.
- LogClock.EveryLogReadsBack: raw text that imitates a header or a marker is not modelled; a header is one item.
- StateRepairRun.Repair: the move of the old mesa profile store and the printed plan.
- UpdateVerdict.VerdictMeaning: the packages of `-git` kind, the repository fast path, sync failures and unresolved versions before the comparison.
- TwoPass.BuildInPasses: the re-read toolchain fingerprint.
- The argparse verbs, help, completions, the other doctor probes, bench, setup, search, uninstall and revert, plan rendering and the release checkers under tools.
