# A verified model of the managed deployment transaction

This project models the scripts that deploy the AOTA package onto a host file
tree with symbolic links, and proves what they promise:

- **File tree.** `FileStore` is a finite map from physical names to nodes with
  pathname resolution as in section 4.13 of POSIX.1-2017 (XBD), component by
  component, with a bound on the links one lookup follows. `FileOps` gives the
  system calls as functions from store to store, `Volumes` a mounted tree that
  they change in place, `SafePaths` the containment checks.
- **Symlink projections.** `ContractLoader` reads the declarations,
  `LinkDepth` counts link hops and `LinkLoops` says which loops the count sees,
  `Projections` decides when an alias is legal and shows which runs keep it
  legal, `Planner` collapses many logical writes into one write with an owner,
  `Dedup` says who owns what, `Execution` compares the collapsed execution with
  the naive one in every order.
- **Transaction.** `Backup`, `Restore`, `Rollback`, `Orphans`, `Staging`,
  `Copying`, `Deploy`, `Transaction` and `Outcomes` follow `deploy_package`
  from the first validation to the last check, with a possible interruption
  before and after every step, the exception handler that rolls back, and the
  rollback command that an operator gives later.
- **Backup names.** `BackupNames` proves when the lexicographic choice of the
  latest backup is the newest one.
- **Trees and archives.** `SkillTrees` and `SkillParity` hold the two
  enumerators of a skill tree and the tree comparison, `SkillCopies` what a
  deployment does to that comparison, `Archive` the tar archive with its
  manifest.
- **Cleanup.** `PathText` and `Cleanup` hold the normalising loop and the
  exact-path deletion of a controlled run.
- **Texts.** `Substrings` says what searching and replacing in the text of a
  path means for its components.
- **Samples and failures.** `Sample` is a small deployment, three copies with
  one alias and eleven removals, that meets every hypothesis of the transaction
  at once; every calm run on it is a success. `Uncovered`, `Drifted` and
  `Failures` have the inputs on which a promise fails. `Planting` makes file
  trees with given nodes, `Allowlist` an allowlist with its plan, and `Options`
  is the usual option type.

Main results: a failed run leaves every file as it was, but for a run with
projections in which a copy uncovers an undeclared plugin link, which is
exactly the run whose rollback fails (`Transaction`); rollback succeeds from
every later state in which its targets are free and the contract is safe, and
can be restarted (`Rollback`); a valid alias resolves exactly as its target
(`Projections`); a loop of links is reported as circular exactly when one of its
texts is absolute or all are single components (`LinkLoops`); writing once is
the same as writing through every alias, in every order, exactly when each entry
brings the file its owner brings (`Execution`); a finished run passes
verification exactly when nothing copied was removed again, and a second run,
under a plan built anew, changes nothing (`Outcomes`); the two enumerators
agree, the walk partitions the tree, and copying a skill leaves no difference
and just the old extra files (`SkillTrees`, `SkillCopies`); an archive passes
its own check exactly when no two archived names are one file (`Archive`); the
newest backup is the one chosen exactly up to suffix 99 and
for suffixes of nines (`BackupNames`); cleanup leaves exactly what no accepted
path covers (`Cleanup`).

Properties that are false of the code are stated with the input that breaks
them and with their exact condition:

- A run that cannot be made is not always undone: if a copy uncovers an
  undeclared plugin link and the plan has a projected entry, the re-check raises
  and so does the rollback, before its first record, and the copies stay
  (`NeitherMadeNorUndone`, `RollbackFailsExactly`).
- A restore loses modes above 0o777 (`SetuidIsLost`, `ResetExactly`).
- A loop through ".." can be missed (`LoopThroughDotDotIsMissed`,
  `CircularExactly`).
- A changed file of task-main is removed as an orphan when its renamed twin has
  the recorded content (`DriftedFileIsRemoved`, `CheckedAsRemovedExactly`).
- An original that was a link stops the rollback (`LinkOriginalStops`,
  `LinkOriginalsExactly`).
- A skill file in a directory called "plugin" is taken for a plugin file
  (`SkillFileIsRefused`, `TakenForPluginExactly`).
- An owner can be redirected itself, so that nobody performs the write
  (`SelfOwnedIsNotWritten`, `OwnersWriteExactly`).
- The skill comparison takes a link for the directory it stands in for
  (`LinkStandsIn`; an empty report means equal trees exactly if no link stands
  where the other tree has a regular file, `SameTreesExactly`).
- Hard links break the archive round trip (`OwnArchiveAcceptedExactly`): the
  manifest asks for an empty file where a file was met before, so an archive
  that passes does not hold its content (`AcceptedHoldsContent`).
- A hundredth backup in one second is not chosen (`HundredIsTheFirst`,
  `LatestIsNewestExactly`).
- A path ending in "." names a category (`DotNamesTheCategory`,
  `CategoriesKeptExactly`), and the checked path is not always the deleted one:
  "a /" is checked as "a " and deleted as "a" (`SpaceIsLeft`, `NormalTwice`).
- The cleanup leaves a dangling link, counts it as missing and reports success
  (`LinksExactly`).
- A profile name with a slash passes the contract loader
  (`SlashedProfileLoads`, `LoadedIsWellFormedExactly`).

Hypotheses that recur: `Quiet` (managed names run through no link, hold
regular files or nothing, do not contain one another and are not sources),
`AliasesStable` (the declared aliases are legal without the directories that
may be pruned), `ContractStable` (moreover, no undeclared plugin link shows up
even when all directories above the copied names are there), `Ready` and
`Runnable` (a plan over a quiet store with stable aliases whose entries are all
managed), `Undoable` (a backup whose originals were regular files or absent, and
a store in which its targets are free), `ContractSafe` (the recorded contract
holds and nothing that is put back can uncover a link). Of the contract the
transaction supposes the first only. `Sample.HypothesesCanBeMet` gives a
deployment with an alias that meets all of them at once.

## Model

| member | source | states |
|---|---|---|
| FileStore.WalkThen | scripts/_host_symlink_projection.py:132-205 | resolving a joined name is resolving the second part from where the first ends, with the link budget left over |
| FileStore.WalkEnds | scripts/_host_symlink_projection.py:132-205 | a name that resolves ends at a physical node that is no link |
| FileStore.ClearLookups | scripts/aota_forge_plan_package.py:454-461 | at a name that runs through no link, every question pathlib answers is a question about that one key |
| FileOps.InstallClear | scripts/aota_forge_plan_package.py:479-495 | a preserving copy to a clear name succeeds and changes that one file only, whatever was there |
| FileOps.UnlinkClear | scripts/aota_forge_plan_package.py:1062-1070 | unlinking a clear name succeeds and removes that one file only |
| Volumes.Volume.CopyPreserving | scripts/aota_forge_plan_package.py:479-495 | the copy in place: a link is copied as a link over what is there, a file with content and mode, anything else fails after the parents were made |
| SafePaths.ClearIsSafe | scripts/aota_forge_plan_package.py:343-350 | a name below the root that meets no link never escapes |
| SafePaths.SafeTargetExactly | scripts/aota_forge_plan_package.py:343-350 | for any name whose place can be found, whatever links it runs through: it passes exactly if its place, for a link the place it leads to, lies below the place of the root |
| SafePaths.SafeMissingExactly | scripts/aota_forge_plan_package.py:343-350 | a name in a missing directory passes exactly if what it says, from the last directory on the way that is there, lies below the place of the root |
| SafePaths.CheckBackupPath | scripts/aota_forge_plan_package.py:498-515 | the three loops together accept exactly the names below the root on which no prefix, from the top down, is a link |
| SafePaths.NoLinkAbove | scripts/aota_forge_plan_package.py:498-515 | the climbing loop ends at the top and finds a link above the root exactly if there is one |
| SafePaths.NoLinkDownTo | scripts/aota_forge_plan_package.py:498-515 | the loop from the path up to the root finds a link exactly if there is one |
| LinkDepth.SymlinkDepth | scripts/_host_symlink_projection.py:114-129 | the loop ends on every store and returns the hop count, the circular answer or the name-too-long error that the chain of names dictates |
| LinkDepth.DepthUnique | scripts/_host_symlink_projection.py:114-129 | that answer is unique |
| LinkLoops.CircularExactly | scripts/_host_symlink_projection.py:114-129 | "circular" is answered exactly when the chain stays on links in the root for two rounds and a loop it meets has an absolute text or only texts of one component; the texts of the links that the chain meets are short enough for the kernel, nothing is supposed of other links or of the answer |
| LinkLoops.UnseenIsTooLong | scripts/_host_symlink_projection.py:114-129 | on every other chain that never leaves the links in the root the names grow until one is too long |
| LinkLoops.NextLink | scripts/_host_symlink_projection.py:125-126 | which link comes next depends on the link alone, not on the name that led to it |
| LinkLoops.CanonicalLoopsAreSeen | scripts/_host_symlink_projection.py:114-129 | where link texts name places without "..", reached through no other link, every loop in the root is seen |
| LinkLoops.LoopThroughDotDotIsMissed | scripts/_host_symlink_projection.py:125-127 | the loop /a/l -> ../a/l is never seen as circular: names only grow, and the count ends in ENAMETOOLONG |
| ContractLoader.LoadContract | scripts/_host_symlink_projection.py:40-90 | it accepts exactly the lists in which every declaration is valid and no two name the same alias, keeps order and number, and what it gives has the shape the validator relies on exactly when no profile name has a slash |
| ContractLoader.DeclaredPaths | scripts/_host_symlink_projection.py:25-37 | a declared alias has components profiles, runtime profile, plugins, aota-tools, and its target plugins, aota-tools, so the final target check is redundant |
| ContractLoader.DeclaredExactly | scripts/_host_symlink_projection.py:46-73 | a declaration of an ordinary profile is valid exactly if every field is the expected one and both paths read as expected; only task-main may be deployed under another name, aota-task-main |
| ContractLoader.RelativeExactly | scripts/_host_symlink_projection.py:25-37 | a path text is accepted as given components exactly if it is relative, has no backslash and no wildcard, and has these components besides "." |
| ContractLoader.LoadedIsWellFormedExactly | scripts/_host_symlink_projection.py:59-75 | a loaded contract has the shape the validator relies on exactly when no declared profile name contains a slash |
| ContractLoader.SlashedProfileLoads | scripts/_host_symlink_projection.py:59-75 | the profile "a/b", if it is one, can be declared, and its alias then has a component too many |
| Projections.ParentChainHasSymlink | scripts/_host_symlink_projection.py:101-111 | true exactly if a name strictly between the root and the path is a link, or the path does not lie under the root |
| Projections.ValidateProjection | scripts/_host_symlink_projection.py:132-205 | "valid" exactly when root and target are physical directories, the alias is a physical link, it resolves to the target and does so in one hop; otherwise the reason is the first question that fails, each told from the store |
| Projections.VerdictUnique | scripts/_host_symlink_projection.py:132-205 | there is only one such answer |
| Projections.ParentChainExactly | scripts/_host_symlink_projection.py:150-151 | the parent chain of a name that is there has no link exactly if the name is physical |
| Projections.AliasResolvesAsTarget | scripts/_host_symlink_projection.py:132-205 | every name below a valid alias resolves as the same name below the target does, missing names and loops included, for one fixed extra number of hops |
| Projections.AliasReachesSameNode | scripts/_host_symlink_projection.py:132-205 | for every relative path, alias and target reach the same node whenever both stay within the hop limit |
| Projections.StraightLinkHolds | scripts/_host_symlink_projection.py:132-205 | a physical absolute link straight to the target directory is always a valid alias |
| Projections.ValidateContract | scripts/_host_symlink_projection.py:208-222 | passes exactly when every declared alias is valid and no profile carries an undeclared plugin link |
| Projections.FindNoUndeclared | scripts/_host_symlink_projection.py:208-222 | finds an undeclared plugin link under a real profiles directory exactly if there is one |
| Projections.ContractKept | scripts/_host_symlink_projection.py:208-222 | no run that keeps the links and unprunable directories, makes no new link, and makes directories only above the names it copies to can break the contract |
| Projections.AliasesKept | scripts/_host_symlink_projection.py:208-222 | such a run keeps every declared alias legal, so the contract holds exactly when no undeclared plugin link is there |
| Projections.ContractHoldsExactly | scripts/_host_symlink_projection.py:208-222 | the condition on undeclared links is exact: with all those directories made, the contract holds exactly when it does for them |
| Projections.UndeclaredGrow | scripts/_host_symlink_projection.py:208-222 | a store with fewer directories and links shows no more undeclared plugin links |
| Projections.FewerUncover | scripts/_host_symlink_projection.py:208-222 | an undeclared link that shows up among fewer made directories shows up among more |
| Planner.Plan.Apply | scripts/_host_symlink_projection.py:225-269 | fails with a collision or a missing owner exactly when the entries have one; otherwise exactly the copies of declared profiles with "/plugin/" in their id become aliases of root/plugins/aota-tools/relative, owned by the last copy to it, every other copy owns its own write, and lines and ids are listed as the ownership relation demands |
| Planner.NamesPluginExactly | scripts/_host_symlink_projection.py:239 | an id names a plugin file exactly if "/plugin/" occurs in its text |
| Planner.OwnersExistExactly | scripts/_host_symlink_projection.py:241-246 | no owner is missing exactly if some copy goes to the place of each plugin file in the global plugin directory |
| Planner.PlannedExactly | scripts/_host_symlink_projection.py:237-269 | what becomes of one entry: alias with physical target and owner, or own write, or none |
| Planner.ProjectionForExactly | scripts/_host_symlink_projection.py:228 | the declaration of a profile is the last one that names it |
| Planner.PluginFileIsPluginCopy | scripts/aota_forge_plan_package.py:195-206 | the ids that the assembly gives to the plugin files of a declared profile name plugin files |
| Planner.TakenForPluginExactly | scripts/aota_forge_plan_package.py:207-222 | the id of a skill file is taken for that of a plugin file exactly if a directory on its way, its skill or its profile is called "plugin" |
| Failures.SkillFileIsRefused | scripts/_host_symlink_projection.py:239-246 | a skill file at plugin/f is taken for a plugin file, and the planner fails for want of an owner |
| Planner.Plan.IndexDestinations | scripts/_host_symlink_projection.py:229-236 | detects two copies to one destination from different sources exactly, and indexes the last copy for each destination |
| Planner.Plan.Redirect | scripts/_host_symlink_projection.py:237-260 | succeeds exactly when every projected entry has an owner; then each entry is redirected and lists its aliases in plan order, also if it is its own or a redirected owner |
| Planner.Plan.RedirectOne | scripts/_host_symlink_projection.py:237-260 | one round of the loop, which fails exactly if the entry is projected and has no owner |
| Planner.Plan.RedirectEntry | scripts/_host_symlink_projection.py:247-260 | the entry becomes an alias, its owner gets one line, nothing else the planner does not own changes |
| Planner.MarkOwner | scripts/_host_symlink_projection.py:255-260 | redirecting one more entry adds one line and one id to its owner |
| Planner.MarkRedirected | scripts/_host_symlink_projection.py:247-260 | an entry that is redirected forgets the ids it has listed, and lists itself again if it is its own owner |
| Dedup.EveryCopyHasOneOwner | scripts/_host_symlink_projection.py:237-269 | after planning every copy entry names exactly one owner, a write-required copy whose destination is the entry's physical target |
| Dedup.OwnersWriteExactly | scripts/_host_symlink_projection.py:245-260 | the named owners perform their writes exactly when none of them is redirected itself |
| Failures.SelfOwnedIsNotWritten | scripts/_host_symlink_projection.py:237-260 | an entry already destined for the target it is projected to is accepted as its own owner, and then nothing writes the file |
| Dedup.OwnerListsEachAliasOnce | scripts/_host_symlink_projection.py:255-260 | an owner lists each of its aliases once, in order, and nothing else |
| Dedup.CountsAddUp | scripts/_host_symlink_projection.py:272-281 | logical count = physical count + deduplicated count exactly when write-required destinations are distinct |
| Dedup.SummaryExactly | scripts/_host_symlink_projection.py:272-281 | the four numbers count the copies, the distinct places that copies other than plugin files write, the profiles with a plugin file, and the plugin files |
| Execution.RunThroughLinks | scripts/_host_symlink_projection.py:237-269 | writing every copy entry through the links, in any order, succeeds and lands at the physical targets |
| Execution.RunOnce | scripts/aota_forge_plan_package.py:1024-1038 | writing only the write-required entries, in any order, succeeds and writes just their destinations |
| Execution.OnceIsEnoughExactly | scripts/_host_symlink_projection.py:225-269 | for every order of the entries: writing them all through the links leaves the same files as writing once exactly when the last entry to land on each target brings what its writer brings |
| Execution.EveryOrderExactly | scripts/_host_symlink_projection.py:225-269 | the two agree in every order exactly when each entry brings the file that the writer of its target brings |
| Execution.OnceIsEnough | scripts/_host_symlink_projection.py:245-252 | with shared sources all orders of both ways of writing end with the same files |
| Copying.WriteMapOrderFree | scripts/_host_symlink_projection.py:232-236 | with agreeing sources, what is written does not depend on the order of the entries; `Execution.OnceIsEnough` states it of the stores |
| Copying.CopyLands | scripts/aota_forge_plan_package.py:1032 | a copy that lands on a touched name puts the source's file there and changes no other file |
| Copying.AliasLandsAtTarget | scripts/aota_forge_plan_package.py:479-495 | a copy below a valid alias, with the directories it makes, is the copy below the target |
| Staging.StageInstall | scripts/aota_forge_plan_package.py:1024-1034 | a copy keeps the invariant of the run: links, spared directories and unmanaged files untouched, no new link |
| Staging.StageUnlink | scripts/aota_forge_plan_package.py:1062-1070 | a removal keeps it |
| Staging.StageRmdir | scripts/aota_forge_plan_package.py:1075-1082 | pruning an empty legacy directory keeps it and changes no file |
| Staging.StageKeepsAliases | scripts/aota_forge_plan_package.py:1031-1033 | at every stage of a run the declared aliases are legal, and a re-check fails exactly on an undeclared link |
| Staging.StageKeepsContract | scripts/aota_forge_plan_package.py:1031-1033 | if nothing shows up among the directories of the run, the contract holds at every stage |
| Backup.BackupEntries | scripts/aota_forge_plan_package.py:532-564 | succeeds exactly when every entry can be recorded and every alias follows its owner; then each original that is there lives below its safe root, also behind links, and records and payloads tell what was at each name, aliases sharing the owner's payload |
| Backup.BackupEntry | scripts/aota_forge_plan_package.py:538-564 | one entry: the payload is saved at files/id without touching earlier payloads; an original outside its safe root is refused |
| Backup.BackableIsContained | scripts/aota_forge_plan_package.py:343-350 | an original that the backup gets past lives below its safe root, whatever links its name runs through |
| Backup.RecordExactly | scripts/aota_forge_plan_package.py:454-476 | at a name that runs through no link there is a record unless a directory or special file is there, and it tells presence, type, mode and hash of that key |
| Backup.ClearIsSafeBackup | scripts/aota_forge_plan_package.py:498-515 | a clear name in the backup passes the backup path check |
| Backup.SafeBackupIsNoLink | scripts/aota_forge_plan_package.py:498-515 | a name that passes it is no link |
| Backup.LinkTextReads | scripts/aota_forge_plan_package.py:444-446 | reading the text that a link is hashed by gives its components and kind back |
| Backup.LastWithId | scripts/aota_forge_plan_package.py:531 | the entry an id stands for is the last one with that id, and none only if no entry has it |
| Restore.RestoreFile | scripts/aota_forge_plan_package.py:589-611 | restores exactly when the checks allow, a missing payload included; then the target is as recorded and nothing else changed, and a refusal changes nothing |
| Restore.CheckRestore | scripts/aota_forge_plan_package.py:589-603 | the checks before the first change, both directions |
| Restore.FreeTarget | scripts/aota_forge_plan_package.py:601-603 | afterwards the target is free and only it has changed |
| Rollback.RestoreRecord | scripts/aota_forge_plan_package.py:785-788 | one record: restored, or the rollback stops with nothing changed |
| Restore.RestoreCopied | scripts/aota_forge_plan_package.py:604-606 | from a freed target, copy and chmod put the recorded file back |
| Rollback.RestoreRecords | scripts/aota_forge_plan_package.py:785-788 | stops at the first record that, seen from the store before the rollback, cannot be restored; the earlier are restored and the later untouched |
| Rollback.FoundInTheLoop | scripts/aota_forge_plan_package.py:785-788 | whether a record can be restored when its turn comes can be told from the store before the rollback, links at targets included |
| Rollback.RestoredIsReset | scripts/aota_forge_plan_package.py:785-788 | restoring faithful records is resetting their names to the backed-up files, permission bits only |
| Rollback.RestartedRollback | scripts/aota_forge_plan_package.py:778-793 | stopped after any number of records, whatever links are at the targets, the rollback can be run again and ends with the files that one run ends with; the contract stays safe if nothing that is put back uncovers a link |
| Rollback.ResetExactly | scripts/aota_forge_plan_package.py:470-475 | the reset brings the files back exactly when no managed file has mode bits beyond 0o777; contents and presence come back always |
| Rollback.VerifyParity | scripts/aota_forge_plan_package.py:614-623 | passes exactly when each target has the recorded presence, type and digest; for names that run through no link this is told from the keys of the store |
| Rollback.ParityExactly | scripts/aota_forge_plan_package.py:614-623 | at such a name parity holds exactly if nothing is there that was not recorded, or a file of the recorded hash of its content, or a link of the recorded hash of its text |
| Rollback.ParityAfterRestore | scripts/aota_forge_plan_package.py:614-623 | from every later store in which the targets are free, the parity check cannot raise once all records are restored |
| Rollback.RollbackPackage | scripts/aota_forge_plan_package.py:778-793 | succeeds exactly when the contract holds before and after, every record can be restored and every key is as recorded, and only from sound payloads; from every later store in which the targets are free and the contract holds the files are those of the backup, and it succeeds exactly if the contract still holds then, which it does if it was safe |
| Rollback.RestoredPayloadsSound | scripts/aota_forge_plan_package.py:614-623 | after a rollback that gets past the parity check the last payload of each target is a regular file of the recorded hash: one damaged payload makes it raise |
| Rollback.UndoneFully | scripts/aota_forge_plan_package.py:785-791 | from such a store no record stops the loop and all later checks hold, the contract's if it was safe |
| Rollback.ContractAfterRestore | scripts/aota_forge_plan_package.py:790-791 | the recorded contract holds after the rollback, so its last validation cannot raise |
| Rollback.StopsAtTheLinkExactly | scripts/aota_forge_plan_package.py:595-597 | over otherwise plain records the rollback gets to the end exactly when no payload is a link, and otherwise stops at the first |
| Rollback.LinkOriginalsExactly | scripts/aota_forge_plan_package.py:538-549 | of a backup, everything is restored exactly when no original was a link |
| Failures.LinkOriginalStops | scripts/aota_forge_plan_package.py:228-239 | a plan that removes a legacy link and updates a file is backed up, and from every later store the rollback puts the file back and stops at the link |
| Orphans.RevalidateEvidence | scripts/aota_forge_plan_package.py:685-750 | passes exactly when the plan removes eleven files, those of the allowlist, recorded absolute paths bind, and for each item nothing is there or the file may go: of the recorded hash, in its skill, its source gone, declared nowhere |
| Orphans.FileHoldsExactly | scripts/aota_forge_plan_package.py:730-749 | told from the store: a checked name passes exactly if nothing is there, or a regular file of the recorded and captured hash physically below the skill directory, whose source is not in the store, on no list and with no flag |
| Orphans.ChecksAliasExactly | scripts/aota_forge_plan_package.py:708-718 | a file of task-main is checked at its renamed place exactly if that is taken, or the listed place is free and the renamed directory is there |
| Orphans.BindingExactly | scripts/aota_forge_plan_package.py:719-729 | the recorded absolute path matters only outside task-main and where the file is; there it must be the file's path, as it stands or renamed |
| Orphans.AuthorizedExactly | scripts/aota_forge_plan_package.py:690-696 | the allowlist is exact if and only if eleven files are removed and they are the listed ones, all under their own or all under their renamed paths |
| Orphans.PackagePathsExactly | scripts/aota_forge_plan_package.py:659-665 | the package declares a path exactly if some entry besides the cleanups copies to it or removes it |
| Orphans.RenamingTexts | scripts/aota_forge_plan_package.py:693-704 | renaming components is replacing "profiles/task-main/" in the text: at the start, the first one, or all |
| Orphans.CheckedIsVouched | scripts/aota_forge_plan_package.py:731-749 | the path the check looks at holds its recorded content or nothing and is no package destination; for other profiles than task-main it is the listed path |
| Drifted.DriftedFileIsRemoved | scripts/aota_forge_plan_package.py:702-716 | every calm run from a store in which a listed file of task-main has changed, while its renamed twin has the recorded content, is a success that removes the changed file |
| Deploy.CopyPhase | scripts/aota_forge_plan_package.py:1024-1038 | copies every write-required entry, or stops at the first whose source is missing or which uncovers an undeclared link, with the copies up to there made |
| Deploy.CheckCopy | scripts/aota_forge_plan_package.py:1027-1031 | on any store: the first of source, containment, link and contract that fails; a destination that passes lies below its root |
| Deploy.CopyEntry | scripts/aota_forge_plan_package.py:1024-1034 | one copy: it fails only on a missing source, with nothing changed, or in the re-check, with the file copied; the escape and link checks never fail |
| Deploy.CopiedStore | scripts/aota_forge_plan_package.py:1024-1038 | after any number of copies the store is the one computed from the start: its directories grown, its files overlaid |
| Deploy.RecheckExactly | scripts/aota_forge_plan_package.py:1031-1033 | after any number of copies the contract holds exactly when no undeclared link shows up among the directories they make |
| Deploy.NothingUncovered | scripts/aota_forge_plan_package.py:1031-1048 | if nothing shows up among the directories of all copies, the contract holds at every stage, pruning included |
| Deploy.AliasPhase | scripts/aota_forge_plan_package.py:1039-1042 | passes exactly when source and logical destination of every alias can be read |
| Deploy.ReadableExactly | scripts/aota_forge_plan_package.py:1039-1042 | through a legal alias, the destination can be read exactly if the physical target is a regular file |
| Deploy.ParityPhase | scripts/aota_forge_plan_package.py:1049-1057 | passes exactly when source and destination of every written entry have one digest; at names that run through no link exactly when both are regular files of one content |
| Deploy.MatchesExactly | scripts/aota_forge_plan_package.py:1049-1055 | at names that run through no link, source and destination match exactly if both are regular files of one content |
| Deploy.LinkHash | scripts/aota_forge_plan_package.py:444-446 | a link is compared by its text |
| Deploy.EditIsMismatch | scripts/aota_forge_plan_package.py:1049-1055 | one edited destination is a mismatch |
| Deploy.CheckCopied | scripts/aota_forge_plan_package.py:1048-1060 | after a complete copy the checks before removal can fail only through the evidence |
| Deploy.RemovePhase | scripts/aota_forge_plan_package.py:1062-1071 | removes exactly the files of the remove entries and never fails by itself |
| Deploy.RemoveEntry | scripts/aota_forge_plan_package.py:1062-1071 | one removal works, and is no error if the file is gone |
| Deploy.CheckRemoval | scripts/aota_forge_plan_package.py:1065-1069 | on any store: refused if the name leaves its root or is a directory; a name that passes lies below its root |
| Deploy.AbsencePhase | scripts/aota_forge_plan_package.py:1072-1074 | passes exactly when no removed name is there |
| Deploy.PrunePhase | scripts/aota_forge_plan_package.py:1075-1082 | the climbing loop ends and never fails; directories are gone only on the climbs from legacy directories that were there, up to one called "skills", and the lowest directory left on each climb is not empty or called "skills" |
| Deploy.PruneUp | scripts/aota_forge_plan_package.py:1080-1082 | the climb from one directory is made to its end: what is left lowest is "skills" or not empty |
| Deploy.LegacyTextExactly | scripts/aota_forge_plan_package.py:1076 | a removed file lies in a legacy directory exactly if "/skills/orchestration/" occurs in its text |
| Deploy.ClimbOnceMore | scripts/aota_forge_plan_package.py:1075-1082 | what one climb has tidied stays tidy after another, in any order |
| Deploy.AliasesCanBeRead | scripts/aota_forge_plan_package.py:1039-1042 | once the owners are written every alias can be read |
| Deploy.TryDeploy | scripts/aota_forge_plan_package.py:1021-1095 | ends completed, or at a check with a stated reason, or interrupted if the run is not calm; the contract check fails exactly if a copy that the run gets to uncovers a link |
| Transaction.RootRecordedExactly | scripts/aota_forge_plan_package.py:575 | the recorded projection root is the runtime root exactly when the first projected entry's relative path is one component |
| Transaction.BackupIsUndoable | scripts/aota_forge_plan_package.py:518-586 | a finished backup holds all that rollback needs, at every stage of the run and whatever the contract |
| Transaction.StoppedIsSafe | scripts/aota_forge_plan_package.py:781-793 | wherever the run stopped, if the recorded contract holds there, the rollback cannot break it |
| Transaction.DeployPackage | scripts/aota_forge_plan_package.py:1005-1098 | refused exactly when contract, evidence or backup fail, with nothing changed; completed; rolled back to the files before, modes above 0o777 aside; or, with a projected entry, not undone, and then a copy has uncovered a link or the recorded root is wrong |
| Transaction.Undo | scripts/aota_forge_plan_package.py:1096-1098 | from wherever the run stopped the handler restores the files before the run, or raises at its first or last look at the contract |
| Transaction.RollbackFailsExactly | scripts/aota_forge_plan_package.py:781-784 | a calm run that may start is not undone exactly if the plan has a projected entry and a copy that it gets to uncovers an undeclared link; then it stopped in the re-check and its copies remain; without projected entry it is rolled back |
| Uncovered.NeitherMadeNorUndone | scripts/aota_forge_plan_package.py:1031-1033 | a host with a declared alias, one projected entry and a profile link through a directory that a copy makes: every calm run stops in the re-check, cannot be rolled back, and leaves its copies |
| Drifted.SetuidIsLost | scripts/aota_forge_plan_package.py:470-475 | a host on which a failed assembly check rolls every calm run back, and a setuid file comes back with mode 755 |
| Outcomes.OnlyForeignChecksFail | scripts/aota_forge_plan_package.py:1024-1090 | with every source in place only the evidence and the assembly check can fail, or the contract alone, exactly if a copy uncovers a link |
| Outcomes.VerifyDeployment | scripts/aota_forge_plan_package.py:1107-1132 | passes exactly when the contract holds, every written entry matches and every removed name is absent; at names that run through no link exactly when every written destination holds the content of its source and no removed key is there |
| Outcomes.CompletedRunVerifies | scripts/aota_forge_plan_package.py:1107-1132 | after a completed run it passes exactly when nothing copied was removed again |
| Outcomes.ReadyAgain | scripts/aota_forge_plan_package.py:1005-1020 | what one run has completed meets the hypotheses of another under a plan built anew, with the same copies and some of the removals |
| Outcomes.SecondRunChangesNothing | scripts/aota_forge_plan_package.py:1005-1098 | however a second run, under a plan built anew, ends, it changes no file, modes above 0o777 aside if it is rolled back, and it never fails to roll back |
| Outcomes.CleanupIsListed | scripts/aota_forge_plan_package.py:690-697 | every cleanup entry stands on the allowlist, under its own or its renamed path |
| Outcomes.CheckedAsRemovedExactly | scripts/aota_forge_plan_package.py:702-716 | the file a cleanup entry removes is the one whose evidence was checked exactly when it is not a file of task-main whose renamed twin is there after the copies |
| Outcomes.OrphansRemovedAsRecorded | scripts/aota_forge_plan_package.py:1058-1071 | every other file that a completed run removes as an orphan was there unchanged from the start to its removal, is written by no copy entry, and when the last evidence was taken was of the recorded hash, in its skill, with its source gone and declared nowhere |
| Sample.SampleDeploys | scripts/aota_forge_plan_package.py:1005-1095 | on the sample host every calm run may start and is a success |
| Sample.HypothesesCanBeMet | scripts/aota_forge_plan_package.py:1005-1020 | there is such a host, and it meets every hypothesis of the transaction, an alias in the plan included |
| BackupNames.ChooseName | scripts/aota_forge_plan_package.py:522-528 | the loop ends, with the first free name of the second |
| BackupNames.StampsOrdered | scripts/aota_forge_plan_package.py:522 | the order of fixed-width timestamps is the order of time |
| BackupNames.SuffixAbove | scripts/aota_forge_plan_package.py:527 | a suffix up to 99, or one with only nines before its last digit, lies above all smaller ones |
| BackupNames.SuffixBelow | scripts/aota_forge_plan_package.py:527 | every other suffix lies below a smaller one |
| BackupNames.SuffixesCountUp | scripts/aota_forge_plan_package.py:523-527 | within one second later backups have larger suffixes |
| BackupNames.LatestIsNewestExactly | scripts/aota_forge_plan_package.py:1268-1269 | over every history without deletions and with a clock that never goes back, the greatest name is the newest backup exactly when its suffix is of that kind |
| BackupNames.HundredIsTheFirst | scripts/aota_forge_plan_package.py:527 | suffix 100 is the first that is not, it lies below 99 |
| SkillTrees.SameRule | scripts/capture-host-migration-docker-baseline.py:141-155 | the rule that classifies exclusions excludes exactly what the boolean rule excludes |
| SkillTrees.ExcludedExactly | scripts/profile_runtime_assembly.py:263-278 | excluded is exactly what has a cache directory on its way, a litter name, a compiled-Python ending behind a stem, or the shape of an editor backup |
| SkillTrees.CompiledExactly | scripts/profile_runtime_assembly.py:271 | the suffix is one of compiled Python exactly if the name is a non-empty stem and that ending |
| SkillTrees.ReasonExactly | scripts/capture-host-migration-docker-baseline.py:141-155 | an exclusion is put down to Python's cache exactly if __pycache__ is on its way or nothing but its compiled-Python name excludes it |
| SkillTrees.Walker.Visit | scripts/capture-host-migration-docker-baseline.py:165-200 | the recursion appends the kept leaves below the directory and the notes on the others, in order, each once |
| SkillTrees.Walker.VisitEntry | scripts/capture-host-migration-docker-baseline.py:172-200 | one directory entry; excluded directories are still entered |
| SkillTrees.WalkEntries | scripts/capture-host-migration-docker-baseline.py:158-207 | a directory is walked, a root that is a link is kept, a missing root or a file gives nothing |
| SkillTrees.WalkPartitions | scripts/capture-host-migration-docker-baseline.py:165-207 | every node that is no directory is in exactly one of the two lists, once, also below excluded directories |
| SkillTrees.ExpandSkillTree | scripts/profile_runtime_assembly.py:281-316 | the flat filter yields exactly the files and links that are not excluded, escaping links on demand, and raises exactly on a link that resolves nowhere |
| SkillTrees.EnumeratorsAgree | scripts/profile_runtime_assembly.py:281-316 | with escapes included its keys are exactly the files of the recursive walk |
| SkillParity.SkillTreeErrors | scripts/profile_runtime_assembly.py:319-336 | a missing source root alone, or exactly the missing, escaping or different files, the undeclared extras and the extra links that lead out; it raises exactly when a resolution or a hash does; without links the list is empty exactly when both trees hold the same canonical files |
| SkillParity.DiffersExactly | scripts/profile_runtime_assembly.py:327 | links allowed: where asking does not raise, a file is reported exactly if its copy does not lead to a regular file inside the runtime with the content of the source |
| SkillParity.StraysExactly | scripts/profile_runtime_assembly.py:330-335 | an extra file is reported as escaping exactly if its name leads out of the runtime |
| SkillParity.LeadExactly | scripts/profile_runtime_assembly.py:308-314 | a link is kept exactly if its place lies below the root |
| SkillParity.Expand | scripts/profile_runtime_assembly.py:281-316 | the enumeration of a directory of the file tree gives its canonical files |
| SkillParity.NoErrorsExactly | scripts/profile_runtime_assembly.py:319-336 | without links below the roots nothing raises, and nothing is reported exactly when the canonical files of both trees are equal |
| SkillCopies.CopiesBringParity | scripts/aota_forge_plan_package.py:207-222 | after the copies of a plan that copies a skill, the comparison reports no difference, and exactly the extra files and links that it reported before |
| SkillCopies.CopiesRaiseAlike | scripts/profile_runtime_assembly.py:319-336 | and it raises exactly if it did before |
| SkillParity.SameTreesExactly | scripts/profile_runtime_assembly.py:319-336 | links allowed: where nothing raises and nothing is reported, the canonical files of both trees are equal exactly if every source name is a regular file just when the copy's own directory holds one there |
| Failures.LinkStandsIn | scripts/profile_runtime_assembly.py:263-278 | with dir/f in the source and a link dir to such a directory in the copy, nothing is reported although the trees differ, if dir is excluded and dir/f is not, as for x.bak/f |
| Failures.BackupNamesShadow | scripts/profile_runtime_assembly.py:263-278 | such are every editor backup that is no cache directory and every file that is not excluded by itself |
| Archive.HashingReader.Read | scripts/capture-host-migration-docker-baseline.py:255-260 | what was read so far is what was hashed so far |
| Archive.AddEntry | scripts/capture-host-migration-docker-baseline.py:249-263 | one walked file: its member and its item, hard link if its inode was met before |
| Archive.CopyBlocks | scripts/capture-host-migration-docker-baseline.py:261 | copying in blocks and a rest passes on exactly the asked length, digest included, for every block size |
| Archive.StreamedDigest | scripts/capture-host-migration-docker-baseline.py:364-366 | the digest over blocks is the digest of the whole |
| Archive.ArchiveTree | scripts/capture-host-migration-docker-baseline.py:243-263 | one member and one manifest item for each walked file; a file met before under another name becomes a hard link without data |
| Archive.VerifyTarManifest | scripts/capture-host-migration-docker-baseline.py:351-371 | passes exactly when, for every item that is no link, the last member of that name is regular and has the recorded digest |
| Archive.OwnArchiveAcceptedExactly | scripts/capture-host-migration-docker-baseline.py:243-263 | an archive passes against its own manifest exactly when no two walked names are one file |
| Archive.AcceptedHoldsContent | scripts/capture-host-migration-docker-baseline.py:351-371 | any archive that passes against the manifest of a tree holds the whole content of every kept regular file, and an empty one where the file was met before under another name |
| PathText.Normalize | scripts/cleanup-controlled-run.py:96-102 | the collapsing loop ends without a doubled slash, at the one tight spelling of the components of the stripped input |
| PathText.NormalKeepsParts | scripts/cleanup-controlled-run.py:96-102 | the non-empty components and absoluteness of the stripped input are kept |
| PathText.NormalTwice | scripts/cleanup-controlled-run.py:111-112 | a second pass only cuts the end, and changes nothing exactly when the first left no space at the end |
| PathText.SpaceIsLeft | scripts/cleanup-controlled-run.py:111-112 | "a /" becomes "a " and then "a" |
| Cleanup.DeleteDirect | scripts/cleanup-controlled-run.py:288-303 | deleting a name that meets no link removes it and all below, and nothing else |
| Cleanup.RunPrunes | scripts/cleanup-controlled-run.py:285-306 | a run leaves exactly the nodes that no name covers; deleted and already missing add up to the number of names |
| Cleanup.OrderDoesNotMatter | scripts/cleanup-controlled-run.py:285-306 | the order of the names does not matter |
| Cleanup.NothingLeft | scripts/cleanup-controlled-run.py:308-313 | afterwards no name exists |
| Cleanup.AcceptedIsBelowRoot | scripts/cleanup-controlled-run.py:105-182 | an accepted manifest path names something below the runtime root, at least two components below unless some are "." |
| Cleanup.ShapeExactly | scripts/cleanup-controlled-run.py:118-165 | the text of a path passes exactly if it lies below the root, has no wildcard and names an artifact: two levels below the root in tmp and test-runs, three elsewhere, no grouping directory, no date |
| Cleanup.ReasonExactly | scripts/cleanup-controlled-run.py:132-165 | and the reason tells how it falls short |
| Cleanup.DateExactly | scripts/cleanup-controlled-run.py:26 | the date is an underscore, eight digits and a T anywhere in the name |
| Cleanup.ContainmentExactly | scripts/cleanup-controlled-run.py:167-182 | a path that leads somewhere is contained exactly if its place lies below the place of the root |
| Cleanup.LinksExactly | scripts/cleanup-controlled-run.py:221-232 | a link that leads somewhere is refused; a dangling one passes, is counted as already missing, and stays |
| Cleanup.CategoriesKeptExactly | scripts/cleanup-controlled-run.py:135-166 | the runtime root and all categories survive exactly when every accepted path that exists has two components besides "." |
| Cleanup.DotNamesTheCategory | scripts/cleanup-controlled-run.py:149-153 | root/tmp/. is accepted and deletes the category |
| Cleanup.Unique | scripts/cleanup-controlled-run.py:197-205 | each normalised path of the manifest once |
| Cleanup.CheckNames | scripts/cleanup-controlled-run.py:207-219 | splits the paths by the verdict, in order, each rejected one with its reason |
| Cleanup.IllNamedHas | scripts/cleanup-controlled-run.py:207-219 | a path is rejected for a reason exactly when it is on the list and that is its verdict |
| Cleanup.CheckLinks | scripts/cleanup-controlled-run.py:221-232 | drops exactly the links that lead somewhere, in order |
| Cleanup.DeleteAll | scripts/cleanup-controlled-run.py:285-306 | the loop and its counters are the run over the names |
| Cleanup.DeletePath | scripts/cleanup-controlled-run.py:288-306 | one path: missing, link, deleted or failed, with the tree that follows |
| Cleanup.AnyLeft | scripts/cleanup-controlled-run.py:308-313 | finds a path that is still there exactly if there is one |
| Cleanup.CleanUp | scripts/cleanup-controlled-run.py:189-330 | the accepted paths are exactly those the checks let pass, name artifacts and stay inside the root, each is deleted with all below, the counters add up and success is reported, on names that meet no link |

## Left out

- Backup.BackupEntries: the ids of recorded entries are distinct and none is a prefix of another, as those of the manifest are; the source does not check it.
- Backup.BackupEntry: likewise.
- Restore.RestoreFile: targets whose name runs through a link above its last component are not covered.
- Restore.CheckRestore: likewise.
- Rollback.RestoreRecord: likewise.
- Rollback.RestoreRecords: likewise.
- Rollback.RollbackPackage: likewise.
- SkillParity.SkillTreeErrors: the order of the list, and listings that change while they are read.
- SkillTrees.ExpandSkillTree: resolving a link loop raises, as it does before Python 3.13.
- Cleanup.RunPrunes: names with "..", which can depend on what was deleted before, names through a link, and operating system errors.
- Transaction.DeployPackage: an interruption falls between the steps; inside one copy only new empty directories could differ.
- Outcomes.OrphansRemovedAsRecorded: supposes that an item's path starts with the profile and the skill it names, as those of the evidence file do.
- Reading the manifest into entries (`build_entries`), the secret scan and `readiness`: the entry list is the input of the model.
- The backup lives on a volume of its own, so it never overlaps the runtime; its manifest and checksum files, and timestamps inside it, are not files of the model.
- Receipts, hash dictionaries, printed verdicts and the assembly check, whose answer is a parameter.
- `classify_projection_parity`, which compares two directory trees file by file, and the header checks of the evidence file.
- SHA-256 is an injective constructor of the hashed text; hash collisions do not exist.
- Temporary files of a copy: a rename puts the finished file in place in one step.
- Link texts are kept as components, so "a//b" and "a/./b" are not told apart, and the hop limit of lookups also bounds `Path.resolve`.
- The limit on the length of a name is applied in the hop count only.
- Runtime roots with ".." in them, and sources that are links when the deploy copies them.
- Unicode normalisation in the contract loader is a flag of the declaration; dates with digits other than 0-9, and manifest size limits of the cleanup, are not modelled.
- The report of glob rejections and unmatched run ids of the cleanup.
- Unreadable directories, the order of directory listings, devices beside the one the tree is on, and modes and link targets in tar members.
- Ownership, timestamps, concurrent outside writers.
