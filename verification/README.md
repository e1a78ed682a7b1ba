# pg-embedded-setup-unpriv: verified coordination and file work

The crate starts throw-away PostgreSQL clusters from many processes that share
one install tree and one binary cache. This project models the parts of it whose
correctness is hard to see from one function, and proves what they promise.
Verify it with `dafny verify dfyconfig.toml`.

## What is modelled

**The install-tree protocol** (`InstallProtocol`, `InstallSafety`, `InstallHistory`,
`InstallCache`, `InstallExclusion`, `InstallPlaces`, `InstallProgress`) is a transition system over
any number of processes, install trees and slot parents that share one cache. A
process claims a slot under the claim guard of its slot parent, takes
`.pg-embed-setup.lock` in its tree, looks in the cache under a shared lock, copies on
a hit or sets up and populates on a miss, runs the extension hook, starts, stops, and
plans and performs one or two rounds of full cleanup. A process with an explicit data
directory has no slot; it cleans up under the guard of the slot parent beside its
tree, or under none. Kernel locks belong to inodes: opening the setup lock, taking
it, unlinking it during a removal and creating it again are separate steps, and the
death of a process is a step that drops all its locks.

Main results: two processes never write one tree at once, in any run, exactly when all
that share it have slots under one slot parent; a removal never sees a live slotted
process on its tree exactly when every sharer of a slotted process's tree cleans up
under that process's guard, and such protected starts always hold the inode the lock
path names; a cache entry is finished at most once, only after every file of the
population was written, and is unchanged while it is copied; whatever a process reports
as done it has begun and done file by file, and a server runs only from a tree that its
own start completed; every state that is not finished can move without a fault, and no
run is longer than a bound. `InstallPlaces` restates the two conditions in terms of `PG_EMBED_ROOT`,
`PG_RUNTIME_DIR` and `PG_DATA_DIR`.

*Findings.* By the design record (docs/adr-005-per-cluster-data-directories.md:163-179)
a full cleanup, also of an explicit data directory, takes the guard and keeps the tree
while a slot in the root is live. The slots of one root get that from each other, but
three settings escape it. (1) A start with an
explicit data directory has no slot and is never seen as a peer. (2) With
`PG_DATA_DIR` at the slot parent itself, as docs/users-guide.md:90-91 sets it, a full
cleanup takes no guard and probes for nothing, and removes the tree and its lock file
under a slotted start (`DataDirAtSlotParentOverruns`). (3) With one `PG_RUNTIME_DIR`
for two roots, the slotted processes share a tree but not a guard
(`SharedRuntimeDirOverruns`).

**The extension installer** (`EntryPaths`, `ArchivePlan`, `InstallTrees`,
`ArchiveWrite`, `InstallOutcome`, `ExtensionInstall`). Pass one classifies and
validates entries in a loop; pass two is a class `InstallTree` whose methods
change a path-to-node map one system call at a time and record every state in a
ghost `history`. Proved: pass one accepts exactly the valid archives; every state
of the history is one in which each planned path is whole; a finished install is
the old tree overridden at exactly the planned paths; a failed one has changed
exactly what it lists, and created parents; planned paths of a finished install
never nest; a second install changes nothing; the budget always adds up. With no
system fault, an accepted archive with honest headers and no alias is installed
exactly when the old tree has the place of every file free and no two of the
places nest. `InstallArchive` joins these into one contract.

*A finding.* Pass one skips directory entries by kind, pass two matches entries by
path alone, so a directory entry such as `lib/a.so/` overwrites the planned file
`lib/a.so`. `AliasOverwritesFile` shows an accepted archive for every acceptable
name; `RightBytesIffNotOverwritten` says exactly when a file keeps its bytes.

**The cache copy** (`CacheCopy`) is a class `Target` changed one file operation at
a time; a stop may come before any of them. Proved: recovery after any number of
interrupted copies, exactness from a partial copy, idempotence, and that nothing
the target already holds is touched.

*Findings.* Judging an installed file by its size is sound exactly for targets
without a different file of the same size (`CopyIsExactIff`). A tree that was
itself copied from a cache carries the `.complete` marker with it, so populating
another entry from it can leave an entry that passes for complete before it is;
`MarkerIsSoundIff` gives the exact condition, and the protocol carries that case along.

**The ownership walk** (`OwnershipWalk`). The worklist loop is proved to call
`chown` once for every entry below the root and nothing else.

*Finding.* The documentation speaks of the tree's entries, but `chown` follows
links: a link keeps its owner and passes the new one to whatever it leads to, and
a dangling link fails the walk. `ExactIffNoLinks` and `StaysBelowIff` give the
exact conditions under which the walk does what its name says.

**Passwords** (`ClusterPassword`) over any sequence of bootstraps, crashes around
`initdb`, resets by the worker, reaps and full cleanups of one data directory and one
password file. An `initdb` may be killed before or after it sets the password, and the
directory it leaves may start if it has a version file and a configuration. Proved
over every run: the file of a directory that may start holds the password of its
cluster, if there is a file and the cluster has a password; without full cleanups
there always is one; and every bootstrap that is not explicit reports that password.

*Findings.* (1) A reported password can fail to log in: when `initdb` is killed
after `postgresql.conf` and before the password, the next bootstrap skips
initialization and starts what is there (`KilledInitdbLosesPassword`);
`AlwaysLogsInIff` gives the exact condition. (2) An explicit password is ignored
when the worker, with nothing installed yet, resets a marked directory without a
relation map, because `initdb` takes the password file that is there;
`CreatedLogsInIff` gives the exact condition. (3) A full cleanup that could not remove
the data directory still removes the password file in the tree, and then only an
explicit password helps (`ForgottenNeedsPassword`). (4) A second data directory on the
same password file is harmless exactly when it holds a cluster of its own
(`KeepsFirstIff`); with an empty one, one bootstrap loses the first cluster's password
(`SharedPasswordFileForgets`).

**Three small stateful pieces**: the watcher registry (`OrphanWatchers`), the
compare-exchange guard counter (`GuardCounter`) and the byte-bounded summary
(`ChangeSummary`).

## Model

| member | source | states |
|---|---|---|
| InstallSafety.EffectLocks | src/cluster/setup_lock.rs:143-169 | after every step each process holds exactly the locks that the guards alive in its phase own: the setup lock ends at a hit, is retaken by the hook, and lasts through the start on a miss |
| InstallSafety.StepKeepsInv | src/cluster/startup.rs:89-131 | every enabled step of any process keeps the invariant: locks follow scopes, no two processes hold clashing locks, inodes of protected starts are current, removals see no peer under their guard, cache entries are sound |
| InstallSafety.NoNewClash | src/cache/lock.rs:109-134 | taking a lock that nobody blocks never makes two holders clash, shared and exclusive modes included |
| InstallSafety.ReachableInv | src/cluster/cleanup.rs:163-216 | the invariant holds in every state of every run, guarded and unguarded cleanups included |
| InstallSafety.TreeWritersExclude | src/cluster/setup_lock.rs:74-183 | in every reachable state, two processes write one tree at once only if one is a start that is not protected (it has no slot, or a sharer does not look for its slot), or both are removals without a common guard |
| InstallSafety.RemovalSeesNoPeer | src/cluster/cleanup.rs:163-216 | while a full cleanup removes a tree, every process whose slot it looks for has not claimed yet or is gone |
| InstallSafety.ProtectedStartHoldsCurrentInode | src/cluster/setup_lock.rs:82-95 | a protected start that opened the setup lock has open the inode its path names, although a cleanup may have unlinked an earlier one |
| InstallSafety.EntryFinishedOnce | src/cluster/cache_integration.rs:196-275 | over all processes and trees a cache entry is populated to completion at most once, and carries the marker exactly then, unless a copied tree brought a marker along |
| InstallSafety.CopySeesOneEntry | src/cluster/cache_integration.rs:162-187 | whatever the others do, a reader that saw a hit copies one marked entry that does not change until the copy ends; it is a finished one unless a copied tree brought the marker along |
| InstallSafety.CacheWritersExclude | src/cache/lock.rs:109-134 | in every reachable state a process that checks or populates an entry under the exclusive lock shares it with no reader or writer, and one archive is fetched by one process at a time |
| InstallSafety.NoSlotDuringRemoval | src/bootstrap/prepare/cluster_slot/mod.rs:144-176 | no slot appears under a slot parent while a removal that looks for it holds the claim guard |
| InstallHistory.DoneWorkIsWhole | src/cache/operations/populate.rs:49-68 | in every run, a process that reports a copy, a setup, a population or an archive as done had begun it, and has since then done each of its files and nothing else |
| InstallHistory.ServersRunOnWholeTrees | src/cluster/extension_hook.rs:34-46 | in every run, a running server's own start has copied or set up the tree to the end, and installed as many archives as the hook had to, unless there were none declared |
| InstallHistory.SetupLockSpans | src/cluster/setup_lock.rs:143-169 | in every run, a start that set the tree up is still under the setup lock when it starts the server, one that copied it is not, and every write to the tree, archives included, is under the lock |
| InstallHistory.LifeIsInOrder | src/cluster/startup.rs:89-131 | in every run, whoever is ready has claimed or needed no slot, a failed start never ran a server, and a removal is part of a full stop after one ran |
| InstallCache.OnlyTheLastFileFinishes | src/cache/operations/populate.rs:61-64 | only a population with no file left to copy finishes an entry, with one last write, the marker |
| InstallCache.PopulationWritesEveryFile | src/cluster/cache_integration.rs:239-260 | whatever the others do, a population of `n` files that writes its marker found the entry unmarked and has written to it exactly `n + 1` times |
| InstallCache.MarkerStays | src/cache/operations/populate.rs:92-97 | over every run a marker that is there stays |
| InstallCache.MarkerComesFrom | src/cache/operations/populate.rs:49-68 | one step makes an entry carry the marker exactly when it carried it before, or a population writes it or copies one along |
| InstallCache.MarkerDecides | src/cluster/cache_integration.rs:176-246 | under its lock a reader copies, and a writer does without a population, exactly when the marker is there; a lock is wanted only for an entry that had it, or had it not |
| InstallCache.FreeIff | src/cache/lock.rs:109-134 | a lock can be taken exactly when nobody holds the same one, where readers of one entry do not exclude each other |
| InstallExclusion.UnseenStartIsOverrun | src/cluster/cleanup.rs:196-216 | whenever a process does not look for the slot of a start on its tree, some run removes the tree while that start sets up in it |
| InstallExclusion.ExclusionIffSlotted | src/bootstrap/prepare/layout.rs:35-50 | tree writes exclude each other in every run if and only if all that share a tree have slots under one slot parent |
| InstallExclusion.NoPeerIffProtected | src/cluster/cleanup.rs:163-216 | no removal sees a live slotted process on its tree in any run if and only if every sharer of a slotted process's tree cleans up under that process's guard |
| InstallPlaces.SlotParentLiesBeside | src/bootstrap/prepare/cluster_slot/mod.rs:270-279 | `<root>/data` is the slot parent beside `<root>/install` and beside a version directory in it, and no other tree has one |
| InstallPlaces.ExplicitCleanupGuard | src/cluster/cleanup.rs:196-205 | with the tree in its usual place, a cleanup of an explicit data directory takes the guard of the root's slot parent unless it is that directory |
| InstallPlaces.SettingsHavePlaces | src/bootstrap/prepare/mod.rs:149-174 | whatever the settings of the processes, some configuration describes them |
| InstallPlaces.ExclusionBySettings | src/bootstrap/prepare/mod.rs:149-174 | tree writes exclude each other if and only if all that share an install directory have the same root and no explicit data directory |
| InstallPlaces.NoPeerBySettings | src/bootstrap/prepare/cluster_slot/mod.rs:270-279 | no removal sees a live slotted process if and only if each sharer has the same root and no data directory of its own, or an explicit one other than the slot parent that lies beside the tree |
| InstallPlaces.DataDirAtSlotParentOverruns | src/cluster/cleanup.rs:196-205 | with the data directory at the slot parent, some run removes the tree under a slotted start of the same root |
| InstallPlaces.SharedRuntimeDirOverruns | src/bootstrap/prepare/mod.rs:162-169 | with one runtime directory for two roots, some run removes it under a slotted start of the other root |
| InstallProgress.HolderIsDeeper | src/cluster/startup.rs:89-131 | whoever holds a lock that another waits for waits, if at all, only for a lock deeper in the order claim guard, setup lock, cache locks |
| InstallProgress.NeverWaitsForItself | src/cluster/extension_hook.rs:34-46 | no process, the hook included, waits for a lock that it holds itself |
| InstallProgress.PeerDecides | src/cluster/cleanup.rs:163-216 | under the guard, a cleanup that does not fail removes the tree exactly when no other process holds a slot lock under that guard's parent |
| InstallProgress.CacheFailuresFallBack | src/cluster/cache_integration.rs:162-275 | a failing lookup or copy becomes a miss and a failing population is passed over, with the lock on the entry let go; no cache failure ends a start |
| InstallProgress.CleanupFailuresKeepTree | src/cluster/cleanup.rs:163-216 | a cleanup that gets no guard or cannot probe under it ends its round and removes nothing of the tree |
| InstallProgress.DeathDropsEverything | src/cluster/setup_lock.rs:74-183 | a process may die at any moment and then holds no lock, and a start may fail at any moment and then holds at most its slot |
| InstallProgress.StuckOnlyWhenFinished | src/cluster/startup.rs:89-131 | in a reachable state no fault-free step is possible if and only if every process has finished; keeping a tree without a live peer counts as a fault |
| InstallProgress.RunsAreFinite | src/extensions/archive.rs:39-64 | every run is at most as long as the sum of the processes' ranks, which each step lowers |
| CacheCopy.ProgressKeepsAgreement | src/cache/operations/copy.rs:80-104 | an interrupted copy leaves a target over which the copy can be made again |
| CacheCopy.RecoveryAfterInterruptions | src/cache/operations/copy.rs:80-165 | after any number of interrupted copies one completed copy yields the tree an uninterrupted copy of the first target would |
| CacheCopy.PartialCopyStays | src/cache/operations/copy.rs:106-119 | an interrupted copy of a partial copy is a partial copy |
| CacheCopy.PartialCopyCompletes | src/cache/operations/copy.rs:80-165 | from a partial copy, an empty target included, a completed copy reproduces the source and keeps what the source does not have |
| CacheCopy.SizesDecide | src/cache/operations/copy.rs:80-127 | of two files the target's stays if the sizes are equal and becomes the source's if not; what is missing is created, and what the source does not have is kept |
| CacheCopy.UnfinishedBySize | src/cache/operations/copy.rs:122-127 | a file is to be copied exactly when the target has no file of its size there |
| CacheCopy.OnlyLinksGo | src/cache/operations/copy.rs:151-165 | an interrupted copy loses no entry of the target but a link it was about to replace |
| CacheCopy.CopyIsExactIff | src/cache/operations/copy.rs:122-127 | a completed copy equals the source if and only if every target file of a source file's size has its bytes |
| CacheCopy.CopyIsIdempotent | src/cache/operations/copy.rs:106-127 | copying over a completed copy leaves nothing to do and changes nothing |
| CacheCopy.UnfinishedShrinks | src/cache/operations/copy.rs:122-165 | what a copy may touch only shrinks: an entry that is in place is never rewritten by a later copy |
| CacheCopy.VisitsAreProgress | src/cache/operations/copy.rs:80-104 | every state that a stopped copy into an empty entry passes through, its last file cut short or not, is an interrupted copy |
| CacheCopy.StopsAddUp | src/cluster/cache_integration.rs:239-260 | an entry left by a stopped population and gone over by another is again one of these states |
| CacheCopy.MarkerIsSoundIff | src/cache/operations/populate.rs:49-68 | no population, stopped any number of times, passes for complete before it is if and only if the source carries no completion marker, or has nothing but an empty one and an empty bin directory |
| CacheCopy.PassesIff | src/cache/operations/lookup.rs:32-40 | an entry passes for complete exactly when it holds `.complete` and a directory `bin` |
| CacheCopy.Target.WriteFile | src/cache/operations/copy.rs:113-117 | a file write cut short leaves a prefix of the source's bytes |
| CacheCopy.Target.CopyFile | src/cache/operations/copy.rs:106-127 | a file of the same length is left alone, one of another length or a missing one becomes the source's; over agreeing kinds it fails only when cut short |
| CacheCopy.Target.CopyLink | src/cache/operations/copy.rs:151-165 | an equal link is left alone, any other entry but a directory is replaced by the link |
| CacheCopy.Target.CopyDir | src/cache/operations/copy.rs:80-104 | the recursive copy leaves exactly the settled subtree, or an interrupted state of it, and touches only what was unfinished |
| CacheCopy.Target.CopyFromCache | src/cache/operations/copy.rs:44-55 | the whole copy equals the settled tree when it completes and is recoverable when it does not |
| CacheCopy.Target.PopulateCache | src/cache/operations/populate.rs:49-97 | with no marker in the source, an entry that passes for complete is the settled tree, wherever the population stopped, and holds the source if it started as a partial copy of it |
| EntryPaths.NormalComponents | src/extensions/layout.rs:43-53 | the component loop yields the plain names between the slashes, or rejects the path |
| EntryPaths.ClassifiedIsCanonical | src/extensions/layout.rs:37-63 | an accepted path lies in `lib/` or below `share/extension/` and has no empty, dot, parent or separator-bearing component |
| EntryPaths.ClassifyIsIdempotent | src/extensions/layout.rs:37-40 | every canonical path, written out, is accepted as itself |
| EntryPaths.TrailingSlashAliases | src/extensions/layout.rs:37-53 | a name with a trailing slash classifies to the same path as without it |
| EntryPaths.NoWayUp | src/extensions/layout.rs:43-53 | no path with a parent component anywhere, and no absolute path, is accepted |
| EntryPaths.NoBackslash | src/extensions/layout.rs:55-58 | no path with a backslash is accepted |
| EntryPaths.DotsVanish | src/extensions/layout.rs:43-53 | a doubled slash and an inner `.` make no difference |
| EntryPaths.LeadingDotVanishes | src/extensions/layout.rs:46-47 | a leading `./` makes no difference |
| EntryPaths.OnlyLibAndShare | src/extensions/layout.rs:60-63 | of the paths of plain names exactly `lib/<file>` and those below `share/extension/` are accepted, as themselves |
| ArchivePlan.SeenIffRepeated | src/extensions/install.rs:127-132 | a path is in the seen set exactly when adding it would make two regular entries share a path |
| ArchivePlan.FitsTheCapsIff | src/extensions/install.rs:189-215 | the caps are 67108864 declared bytes for each planned file and 268435456 for all |
| ArchivePlan.PlanListsRegularFiles | src/extensions/install.rs:145-173 | the plan of an acceptable archive has exactly the paths of its regular files |
| ArchivePlan.PlanArchive | src/extensions/install.rs:104-141 | pass one succeeds if and only if all entries are acceptable, paths are distinct, both caps hold and the planned names are the manifest's; the plan lists exactly the regular files in order, those in `lib` with mode 0o755 and all others with 0o644 |
| ArchivePlan.SortFilesSortsNames | src/extensions/install.rs:137-138 | the sorted plan keeps every file, and its names are the names in order |
| NameOrder.AtMostIsLexicographic | src/extensions/install.rs:137-138 | one name comes before another exactly when it is a prefix of it or has the smaller character where they first differ |
| NameOrder.SortedPairwise | src/extensions/install.rs:137-138 | names are in order exactly when each comes before all that follow it |
| NameOrder.SortedEqualIff | src/extensions/install.rs:218-233 | the sorted lists of plan and manifest are equal if and only if they hold the same names |
| ArchivePlan.PlannedIsCanonical | src/extensions/install.rs:145-173 | every planned path is canonical and has mode 0o755 (493) in `lib` and 0o644 (420) elsewhere |
| InstallTrees.InstallTree.RequireRealParents | src/extensions/tree.rs:150-176 | unless a parent cannot be inspected, the walk accepts exactly the destinations all of whose existing ancestors are directories |
| InstallTrees.InstallTree.CreateParents | src/extensions/tree.rs:179-189 | the missing ancestors, and nothing else, become directories; a fault leaves only upper ones |
| InstallTrees.InstallTree.InspectDestination | src/extensions/tree.rs:211-235 | a destination is identical exactly when a regular file of the same digest is there; a directory is not regular and a link is unreadable |
| InstallTrees.TempNameIff | src/extensions/tree.rs:242-272 | the names of temporaries are exactly those that begin with `.pg-embed-` and go on to end with `.tmp` |
| InstallTrees.InstallTree.CreateTempBeside | src/extensions/tree.rs:242-272 | the temporary is an empty file under a fresh temporary name beside the destination |
| InstallTrees.InstallTree.FillTemp | src/extensions/write.rs:206-218 | all intermediate states differ at the temporary alone; at the end it has the bytes, the mode and the owner |
| InstallTrees.InstallTree.Place | src/extensions/tree.rs:275-284 | the rename moves the file over anything but a directory, or leaves the tree alone |
| InstallTrees.PlacingIsPut | src/extensions/write.rs:189-199 | a filled temporary moved into place gives exactly the old tree with parents and the new file |
| InstallTrees.PutIsTree | src/extensions/tree.rs:150-189 | installing a file keeps the tree a tree |
| ArchiveWrite.WriteFile | src/extensions/write.rs:138-155 | one file: the tree becomes the old tree with the file put in, or the destination keeps its bytes; refused only when the place is not free, faulted only when the system failed; an identical copy needs no temporary; every state in between is whole |
| ArchiveWrite.ReadEntryBounded | src/extensions/write.rs:98-122 | an entry is read exactly when it fits both limits, and the budget falls by exactly the bytes read |
| ArchiveWrite.WriteAll | src/extensions/write.rs:29-64 | the tree is the result of the files written so far, give or take the failing one; budget plus bytes read is the archive cap; every state on the way is a safe crash state; no temporary is created when all files are identical |
| InstallOutcome.CompletedPathsDoNotNest | src/extensions/tree.rs:150-176 | after a finished pass no written path is a proper ancestor of another, whatever the entry order |
| InstallOutcome.WritableIffPlacesFree | src/extensions/tree.rs:150-176 | every file finds its place free when its turn comes if and only if the old tree has every place free and no two places nest |
| InstallOutcome.LastWriteWins | src/extensions/write.rs:48-62 | the last file written to a path decides what is there in the end |
| InstallOutcome.CompletedTreeIsOverridden | src/extensions/write.rs:29-64 | the finished tree is the old tree overridden at exactly the written paths, with the archive's bytes, modes and owner, plus created parents; no temporary is left |
| InstallOutcome.ReinstallChangesNothing | src/extensions/write.rs:138-183 | writing the same files again is never refused, finds all of them identical and leaves the tree as it is |
| InstallOutcome.CrashLeavesFilesWhole | src/extensions/write.rs:185-218 | for distinct paths, in every crash state each planned path holds its old node, the complete new file with final mode and owner, or its old bytes under repair (an absent path above another planned one may have become a directory, one named like a temporary may hold one); elsewhere only created parents and at most one temporary are new |
| InstallOutcome.NoHalfWrittenFile | src/extensions/write.rs:185-218 | in every such state a file at a planned path has the bytes it had or those of the archive, up to the digest |
| InstallOutcome.StrayLiesBeside | src/extensions/tree.rs:242-272 | and what else is new lies in the directory of a planned path under a temporary name |
| InstallOutcome.FailureKeepsTheRest | src/extensions/write.rs:189-199 | a pass that fails with its temporary discarded has changed exactly the written files and created parents; the failing file keeps its bytes |
| ExtensionInstall.MatchIsWanted | src/extensions/write.rs:51-56 | pass two finds each regular file's own entry, and with no alias nothing else |
| ExtensionInstall.AcceptedArchiveFits | src/extensions/install.rs:189-215 | an accepted archive with honest headers and no alias never breaches a cap in pass two |
| ExtensionInstall.AcceptedArchiveIsInstalled | src/extensions/install.rs:53-69 | a finished install of an accepted archive without aliases overrides exactly the manifest's paths, and a second one changes nothing |
| ExtensionInstall.LastEntryWins | src/extensions/write.rs:48-62 | whatever the kinds, the last entry that names a planned path decides its bytes |
| ExtensionInstall.InstalledModes | src/extensions/install.rs:167-171 | after a finished pass, aliases or not, every planned file of `lib` has mode 0o755, every other 0o644, and all have the owner of the tree |
| ExtensionInstall.RightBytesIffNotOverwritten | src/extensions/write.rs:51-56 | a regular file ends with its own bytes if and only if its last directory alias does not come after it with other bytes |
| ExtensionInstall.AliasOverwritesFile | src/extensions/install.rs:150-152 | for every acceptable name there is an accepted archive whose one file is installed empty |
| ExtensionInstall.InstallArchive | src/extensions/install.rs:53-69 | a rejected archive changes nothing and is one that is not valid; after a finished install every reported file has the mode of its directory and the owner of the tree; without aliases every state on the way is safe, a finished install overrides exactly the planned paths, and a failed write has changed only what it lists, parents and metadata; with honest headers and no system fault the archive is installed if and only if the old tree has all places free and no two nest, and a second installation creates no temporary and changes nothing |
| OwnershipWalk.Owners.ChownEntry | src/privileges.rs:198-201 | one call hands over the entry or what its link leads to, and fails on a dangling link |
| OwnershipWalk.Owners.EnsureTreeOwnedByUser | src/privileges.rs:131-178 | on success every entry strictly below the root was handed over exactly once and the count is their number; in every case only such entries were; it fails only on a fault, a dangling link or a root that is no directory |
| OwnershipWalk.ExactIffNoLinks | src/privileges.rs:131-178 | the walk changes the owner of exactly the entries below the root if and only if none of them is a link |
| OwnershipWalk.StaysBelowIff | src/privileges.rs:131-178 | nothing outside changes owner if and only if every link below leads below |
| ClusterPassword.ReadsBackIff | src/bootstrap/prepare/password.rs:225-273 | a stored password is read back as written if and only if it is not empty, fits the bound and ends in no line end |
| ClusterPassword.ReadableIsStored | src/bootstrap/prepare/password.rs:225-273 | reading yields a password exactly for a file of at most 4096 bytes with a byte that is no line end, reports it missing exactly when there is none, and empty exactly when such a file holds only line ends |
| ClusterPassword.FirstLineHolds | src/durability.rs:101-124 | the password that `initdb` takes is all of the file before its first line end |
| ClusterPassword.BootStaysSound | src/durability.rs:101-124 | one bootstrap keeps the disk sound and a stored password on file; a cluster it creates has the password of the file that was there, or the one it went on with when there was none |
| ClusterPassword.NextStaysSound | src/bootstrap/prepare/password.rs:166-197 | every bootstrap, crash, reset, reap and full cleanup keeps: the password file of a directory that may start, if there is one, holds the password of its cluster, if it has one |
| ClusterPassword.NextRemembers | src/bootstrap/prepare/password.rs:225-273 | all of these but a full cleanup keep a password on file for a marked directory |
| ClusterPassword.ForgottenNeedsPassword | src/bootstrap/prepare/password.rs:225-273 | with the file of a marked directory missing, unreadable, too long or empty, no bootstrap without an explicit password does anything |
| ClusterPassword.ReportsStoredOrGiven | src/bootstrap/prepare/password.rs:166-197 | a running bootstrap that is not explicit reports what the file of a marked directory holds less its line ends, and any other the password it was given |
| ClusterPassword.BootstrapsKeepData | src/bin/pg_worker.rs:269-300 | no bootstrap touches a directory with a relation map; the worker touches nothing when a marked directory's version is installed; without the worker only an empty directory is written to |
| ClusterPassword.RemovalsOnlyRemove | src/cluster/cleanup.rs:85-137 | a reap or a full cleanup adds nothing to a directory, and only a full cleanup may remove the password file |
| ClusterPassword.ReportedPasswordLogsInIff | src/bootstrap/prepare/password.rs:166-197 | the password a bootstrap reports logs in if and only if the cluster was created now or had a password, and an explicit password for a marked directory is the stored one, or with none stored the cluster's |
| ClusterPassword.AlwaysLogsInIff | src/durability.rs:101-104 | in each mode, every bootstrap that is not explicit reports a password that logs in if and only if the directory has its password set, should it be able to start, not be reset, and have a password file |
| ClusterPassword.CreatedLogsInIff | src/bin/pg_worker.rs:269-300 | every explicit bootstrap that creates the cluster reports a password that logs in if and only if it is not the worker, with nothing installed, on a marked directory without a relation map and with a stored password |
| ClusterPassword.EveryReportedPasswordLogsIn | src/bootstrap/prepare/mod.rs:109-138 | over every sequence, a running bootstrap that is not explicit or found no marked directory reports the stored password, and it logs in if and only if the cluster was created now or had its password set |
| ClusterPassword.KilledInitdbLosesPassword | src/durability.rs:128-178 | a run in which a killed `initdb` makes the next bootstrap report a password that does not log in |
| ClusterPassword.KeepsFirstIff | src/bootstrap/prepare/stale_password.rs:33-48 | no bootstrap of a second directory on the same file makes it lose the first cluster's password if and only if that directory holds a cluster |
| ClusterPassword.SharedPasswordFileForgets | src/bootstrap/prepare/stale_password.rs:33-48 | with a second, empty data directory on the same file one bootstrap makes the file forget the first cluster's password |
| ClusterPassword.Host.ReuseExistingPassword | src/bootstrap/prepare/password.rs:166-197 | which password the settings end with, the given one after every failure; for a marked directory it goes on without an explicit password only when the file can be read, is at most 4096 bytes long and holds more than line ends |
| ClusterPassword.Host.DiscardOrphanedPasswordFile | src/bootstrap/prepare/stale_password.rs:33-48 | the file goes exactly when the directory holds no cluster |
| ClusterPassword.Host.RecoverInvalidDataDir | src/bin/pg_worker.rs:269-285 | a directory that is not empty and has no relation map is removed, perhaps in part, and no other is touched |
| ClusterPassword.Host.Initialize | src/durability.rs:101-124 | the password file is written only when absent, and a new cluster takes its first line |
| ClusterPassword.Host.Setup | src/bin/pg_worker.rs:292-300 | by the worker or in process, setup leaves one of the disks the relation allows, and runs nothing on a directory that counts as set up |
| ClusterPassword.Host.CleanUp | src/cluster/cleanup.rs:85-137 | the data directory goes, perhaps in part, and a password file in the install tree with it |
| ClusterPassword.Host.Bootstrap | src/bootstrap/prepare/mod.rs:109-138 | one bootstrap of a sound disk is a step of the relation above and leaves a sound disk; one that is not explicit fails and changes nothing when a marked directory's password cannot be read |
| OrphanWatchers.OperationKeeps | src/bootstrap/prepare/orphan_watch_registry.rs:34-73 | every watch, release and failed start keeps: each spawned watcher is either the registered one of its directory or was ended exactly once |
| OrphanWatchers.OperationDecides | src/bootstrap/prepare/orphan_watch_registry.rs:34-73 | a watch that could be spawned leaves the new watcher registered, a release or a failed start leaves none, and the watchers of other directories stay |
| OrphanWatchers.WatchedIff | src/bootstrap/prepare/orphan_watch.rs:66-96 | over every sequence, a directory has a watcher if and only if one was spawned for it that no later release or failed start ended |
| OrphanWatchers.EverySequenceEndsEachOnce | src/cluster/startup.rs:117-123 | over every sequence, and a start that failed after arming leaves none registered |
| OrphanWatchers.Registry.Register | src/bootstrap/prepare/orphan_watch_registry.rs:34-41 | the new watcher is kept and the one it replaces, if any, is ended |
| OrphanWatchers.Registry.RemoveAndKill | src/bootstrap/prepare/orphan_watch_registry.rs:66-73 | the watcher is unregistered and ended, and found exactly when there was one |
| OrphanWatchers.Registry.WatchSlotOwner | src/bootstrap/prepare/orphan_watch.rs:66-96 | a watcher is spawned and registered only for an enabled slot |
| OrphanWatchers.Registry.Start | src/cluster/startup.rs:117-123 | a start that fails leaves no watcher for its directory |
| GuardCounter.CounterCountsGuards | src/worker_process/privileges.rs:229-236 | in every interleaving the counter is the number of guards whose decrement has not succeeded, and is positive exactly while there is one |
| GuardCounter.NeverDecrementsZero | src/worker_process/privileges.rs:258-277 | no exchange works from zero, so saturation never hides a lost decrement |
| GuardCounter.FailuresArePaidFor | src/worker_process/privileges.rs:258-277 | every exchange of a drop that goes on has failed, and there are at most as many as other threads' updates of the counter meanwhile |
| ChangeSummary.CutIsAtLastComma | src/env/summary.rs:38-56 | of the characters that begin before the limit the cut keeps those up to the last comma if its end lies beyond half the limit, and all of them otherwise |
| ChangeSummary.NoCommaNoCut | src/env/summary.rs:38-56 | without a comma among them it keeps them all |
| ChangeSummary.SuffixSaysWhatIsLeft | src/env/summary.rs:58-77 | the number of entries left is written as `+ N more`, after a comma if the text does not end in one; with none left the text ends in three dots |
| ChangeSummary.Utf8LenIsLeast | src/env/summary.rs:38-56 | a character counts the least number of bytes that UTF-8 can write its code in |
| Text.DecimalReadsBack | src/env/summary.rs:70-77 | the digits written for a number read back as that number, with no leading zero |
| ChangeSummary.FindPreferredCutPoint | src/env/summary.rs:38-56 | the loop's cut is a character boundary: after all characters that begin before the limit, or after the last comma if that lies in the latter half |
| ChangeSummary.TruncateEnvChangesSummary | src/env/summary.rs:7-36 | a short text is returned as it is, a long one as the trimmed prefix and its suffix |
| ChangeSummary.ShownPrefixIsBounded | src/env/summary.rs:38-56 | what is shown is a prefix that exceeds the limit by at most three bytes |
| ChangeSummary.ShownCountsBegun | src/env/summary.rs:7-36 | the number of shown entries is the number that begin before the cut |
| ChangeSummary.SummaryAccountsForEveryEntry | src/env/summary.rs:58-77 | the count is right if and only if the limit is positive, and then shown and reported remaining entries add up to all |

## Left out

- Protocol: modelled on values as a state machine, because its point is interleaving; one process is one cluster's life, and several slots in one operating-system process are several actors.
- Protocol: a worker subprocess that outlives its killed parent, the setup-only `run`, and the directories that bootstrap creates before it takes the lock.
- Protocol: an orphan watcher that still holds a slot lock; a probe error, which keeps the tree, may happen at any time instead.
- Protocol: an explicit data directory that is itself another process's slot, and a data directory whose lock file cannot be read.
- Protocol: real time and fairness; a timeout is a fault that may happen at any step, and progress means that some process can move and runs end.
- CacheCopy: file permissions, and what a link in the target names: copying through one may change anything.
- CacheCopy.MarkerIsSoundIff: speaks of copies that visit each entry after its directory, as the recursion does.
- OwnershipWalk: the root path itself is taken as resolved, with no link on the way.
- ClusterPassword: file contents are taken as valid text, one bootstrap runs at a time, and given passwords are one line, which callers outside the model guarantee.
- ClusterPassword: PostgreSQL itself; a server may start only from a directory with a version file and a configuration, and a finished `initdb` has set the password; the upstream `setup` step is taken to initialize as `initialize_cancellable` does, the upstream status that tells the worker whether anything is installed is a parameter, and `initdb` is taken to refuse an empty password.
- ArchivePlan.PlanArchive: decoding gzip and tar, and the digest of the archive file; an entry that cannot be decoded is `Corrupt` in both passes.
- InstallTrees: concurrent changes to the tree by another user, which the directory handle guards against; opening the root and reading its owner.
- InstallTrees.InstallTree.InspectDestination: a regular file that cannot be read counts as `Other` for good, not now and then.
- InstallOutcome.CompletedTreeIsOverridden: assumes that no old file has the digest of a new one with other bytes.
- ExtensionInstall.RightBytesIffNotOverwritten: takes the digest to be collision-free, as the installer does when it compares contents.
- GuardCounter: more guards than a machine word counts.
- ChangeSummary: the saturating doubling of the cut position.
- HTTP, process spawning, signals, privilege dropping, metrics and logging, SQL helpers, the asynchronous twins, Windows branches and release scripts: foreign calls or repetitions with little logic of their own.
