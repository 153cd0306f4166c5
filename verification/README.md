# A verified model of unified-cd's agent bookkeeping and authorization

unified-cd is a CI/CD system: a controller hands runs to agents, and an agent runs the steps of a
run on its host. This project models the parts of it that keep books over long, interleaved or
interrupted runs, and proves in Dafny what those books promise.

| file | models |
|---|---|
| `volume_search.dfy` | the choice of one named volume per volume entry of a job: a budgeted backtracking search with a counting shortcut, aliasing, and a preference against gated volumes |
| `volume_manager.dfy` | the allocator's table of holders, reserved and pinned paths |
| `volume_protocol.dfy` | every interleaving of runs that reserve, wait, give up, release and pin |
| `log_lines.dfy`, `log_pusher.dfy` | the step log: where the byte stream is cut, how lines are retried in order, dropped under a cap and accounted for |
| `archive.dfy`, `extract.dfy`, `archive_round_trip.dfy` | archiving a tree and extracting it again |
| `extract_record.dfy` | the record of what an extraction created |
| `mounts.dfy`, `container_paths.dfy` | the checks on volume directories, and host-side path resolution against the container's mount table, in both directions |
| `link_registry.dfy` | volume links on a native agent, findable after a crash at any point |
| `credentials.dfy` | rotation of the agent's refresh credential, recoverable after a crash at any point |
| `hooks.dfy` | registering and draining cache saves and `post:` hooks, and the text that accounts for a cut-off drain |
| `step_outputs.dfy` | step outputs written by concurrent steps, and the snapshots that share their inner maps |
| `sorting.dfy` | byte order of strings and sorting by it, which several of the above rely on |
| `authz_*.dfy` | permission bit sets, folders, grants and their index, and the policy compiler and matcher against a declarative meaning |

Objects that the program updates in place are classes here, and each method is proved against a
function of the old state; what is promised is then proved about those functions and about every
reachable state. Crash protocols keep every durable state they pass through in a ghost history, and
their invariants speak about all of it.

Some promises do not hold on every input. For those the model states when they do:

- A log line is kept whole if and only if no write reached the line ceiling with an unended line
  buffered before the last byte of output (`LogLines.LinesKeptIffNoForcedCut`;
  `LogLines.CeilingSplitsALine` is an input that breaks it).
- The record of what an extraction created is exact if and only if no reached entry creates a new file
  in a directory that existed before the extraction and then fails while writing it
  (`ExtractionRecord.ExtractionRecorded`; `ExtractionRecord.TruncatedFileIsForgotten` is such an
  archive). After a successful extraction it is always exact.
- An exclusion protects its whole subtree in every extraction if and only if it is not the file system
  root (`Extraction.ExclusionProtects`): excluding `/` excludes only the root itself.
- Host-side resolution agrees with the container on every workspace path if and only if, at each place of
  the workspace, the first and the last mount made there show the same directory
  (`MountMapping.AgreementExact`). Jobs that pass validation always agree; an absolute mount on the
  workspace root, which validation refuses, would not (`MountMapping.VolumeOverTheWorkspace`).
- A host path maps back to the container path it came from, for every path, if and only if no volume is
  mounted twice at or inside the workspace (`ContainerPaths.ContainerPathInverts`). A volume at the
  workspace root that is mounted again below it is a valid job that breaks it
  (`ContainerPaths.RootVolumeMountedAgain`).
- The startup sweep removes every link of this agent if and only if it could inspect them all
  (`LinkRegistry.Links.Sweep`): an entry whose inspection fails is forgotten although its link stays
  (`LinkRegistry.UninspectableLinkIsForgotten`). The comment on the sweep says that entries that could not
  be removed stay registered; that is so for failed removals only.
- Whichever members of a stage record a result, their order does not matter if and only if they are
  pairwise compatible (`StepValues.CompletionOrderExact`): of different steps or of different
  combinations, or saying the same. Using one name both plainly and in a matrix is not
  (`StepValues.MixedUseDependsOnOrder`).

## Model

| member | source | states |
|---|---|---|
| `VolumeSearch.PassExact` | internal/agent/volumes.go:614-678 | one search pass: an answer picks a usable candidate for each entry, all distinct unless aliasing is allowed, and is the first such choice in candidate order; no answer without the abandoned mark means no choice exists, also when the counting shortcut answered |
| `VolumeSearch.ExploreSound` | internal/agent/volumes.go:640-676 | whatever the search finds extends the partial choice it started from and is a complete assignment |
| `VolumeSearch.ExploreFindsFirst` | internal/agent/volumes.go:640-676 | if any assignment extends the partial choice, the search finds one, and none comes earlier in candidate order |
| `VolumeSearch.Searcher.Rec` | internal/agent/volumes.go:640-674 | the mutating search agrees with the unbounded one when that fits in the node budget, and otherwise stops abandoned one node past it; a failed branch leaves the taken set as it was |
| `VolumeSearch.AssignDistinct` | internal/agent/volumes.go:614-678 | the method gives the specified answer in at most budget + 1 calls, and exactly that many when abandoned |
| `VolumeSearch.CountUsable` | internal/agent/volumes.go:615-636 | the counting loop counts each listed usable name once |
| `VolumeSearch.Pigeonhole` | internal/agent/volumes.go:615-636 | distinct representatives need at least as many usable names as entries, so the shortcut rejects nothing solvable |
| `VolumeSearch.AssignmentIsDistinct` | internal/agent/volumes.go:607-613 | without aliasing, assignments are exactly systems of distinct representatives |
| `VolumeSearch.AliasingNeedsNoBacktracking` | internal/agent/volumes.go:656-674 | with every candidate usable, the aliasing pass succeeds with one call per entry and one more |
| `VolumeSearch.ChooseVolumes` | internal/agent/volumes.go:544-580 | the method computes the specified sequence of passes |
| `VolumeSearch.ChoiceExact` | internal/agent/volumes.go:523-580 | what is chosen is admissible over the free volumes; a wait without the abandoned mark means nothing admissible exists |
| `VolumeSearch.AbandonedMeansCostly` | internal/agent/volumes.go:514-580 | a wait is marked abandoned only if one of the searches it rests on takes more than 20000 calls; with more entries than names, only if the aliasing one does |
| `VolumeSearch.SmallJobIsDecided` | internal/agent/volumes.go:514-580 | for a job whose candidates allow at most 20000 calls nothing is abandoned, and it gets volumes if and only if something admissible is free |
| `VolumeSearch.CostBounded` | internal/agent/volumes.go:640-674 | a search takes at most one call and, for each candidate of the next entry, one search of the rest |
| `VolumeSearch.OneCandidateEach` | internal/agent/volumes.go:640-674 | with one candidate for each entry that is one call per entry and one more |
| `VolumeSearch.AliasOnlyWhenUnavoidable` | internal/agent/volumes.go:523-580 | two entries share a volume only if no distinct choice of declared candidates exists at all, free or not, and all of the later entry's candidates were taken before it |
| `VolumeSearch.AllFreeNeverWaits` | internal/agent/volumes.go:523-580 | with every declared candidate free something admissible exists, a small job is granted, and a wait means that a search for distinct volumes takes more than 20000 calls or that there are that many entries |
| `VolumeSearch.ChooseVolumesAvoiding` | internal/agent/volumes.go:589-606 | the method computes the specified two-pass choice |
| `VolumeSearch.AvoidingExact` | internal/agent/volumes.go:582-606 | avoiding keeps admissibility, succeeds whenever the plain choice does, waits only when nothing is admissible or the search was abandoned, and is abandoned only for jobs with more than 20000 possible calls |
| `VolumeSearch.AvoidedOnlyAsLastResort` | internal/agent/volumes.go:582-606 | an avoided volume is picked only if nothing admissible avoids it, or the job has more than 20000 possible calls |
| `VolumeManagement.ScanExact` | internal/agent/volumes.go:471-485 | a scan waits only if blocked or abandoned, is abandoned only for a large request with its paths free, and otherwise names free declared volumes and unreserved paths |
| `VolumeManagement.GatedOnlyAsLastResort` | internal/agent/volumes.go:471-485 | a scan takes a gated volume only if nothing admissible does without gated ones, or the request is too large to tell |
| `VolumeManagement.OwnVolumesDoNotBlock` | internal/agent/volumes.go:471-485 | volumes that are shared, unheld or held by the run itself never block it, and a request that is not too large is then granted |
| `VolumeManagement.ReleaseUndoesAcquire` | internal/agent/volumes.go:411-448 | releasing after acquiring restores the holder table exactly, also where the run held some of the volumes before, keeps only pinned paths and wakes every waiter |
| `VolumeManagement.VolumeManager.Prepare` | internal/agent/volumes.go:384-398 | a request is refused exactly for an empty run or an entry with no declared candidate; otherwise each entry keeps exactly its declared candidates, in order |
| `VolumeManagement.DeclaredInOrder` | internal/agent/volumes.go:384-398 | narrowing goes through the candidates in order and keeps of each name it or nothing |
| `VolumeManagement.VolumeManager.TryReserve` | internal/agent/volumes.go:411-448 | all or nothing: a wait changes nothing, an acquisition adds the run to each chosen volume and takes every path |
| `VolumeManagement.VolumeManager.Release` | internal/agent/volumes.go:429-438 | the first release undoes exactly what was taken, keeps pinned paths and changes the channel; a second one changes nothing |
| `VolumeManagement.VolumeManager.DropHolder` | internal/agent/volumes.go:766-771 | the run leaves the holders, and the volume leaves the table with its last holder |
| `VolumeProtocol.PinnedStaysReserved` | internal/agent/volumes.go:743-748 | a pinned path stays reserved through every later step of every run, and no run that had not yet called owns it afterwards |
| `VolumeManagement.GatingNeverBlocks` | internal/agent/volumes.go:487-501 | gating is only a preference: a request granted under one set of gated volumes is granted under any other, unless it is too large and that search is abandoned |
| `VolumeManagement.VolumeManager.Busy` | internal/agent/volumes.go:773-799 | exactly the held exclusive volumes and then the reserved paths, each part sorted and without repetition; a request that names none of them is not blocked, for any run |
| `VolumeProtocol.BlockedStaysBlocked` | internal/agent/volumes.go:351-379 | a step that frees nothing leaves a blocked run blocked |
| `VolumeProtocol.StepKeepsInv` | internal/agent/volumes.go:380-463 | every step of every run keeps the invariant: the table is exactly what holding runs took, one owner per path, and waiters on the current channel are blocked |
| `VolumeProtocol.ReachableInv` | internal/agent/volumes.go:380-463 | the invariant holds in every reachable state |
| `VolumeProtocol.Exclusion` | internal/agent/volumes.go:351-379 | in every reachable state an exclusive volume has at most one holder, a path at most one owner, and whoever is waited for does not wait |
| `VolumeProtocol.NoWaitCycle` | internal/agent/volumes.go:351-379 | no reachable state has a circle of runs waiting for each other |
| `VolumeProtocol.EveryWaitHasACause` | internal/agent/volumes.go:411-463 | no wake-up is missed: a run parked on the current channel after a complete scan, or with a request that is not too large, is blocked, by a pinned path or by a run that holds something it asks for |
| `VolumeProtocol.AllReleased` | internal/agent/volumes.go:743-771 | once nothing is held, the holder table is empty and the reserved paths are the pinned ones; a run still parked is too large and was abandoned, or needs a pinned path |
| `LogLines.SplitLines` | internal/agent/runner.go:606-619 | the splitting loop computes the recursive definition of lines |
| `LogLines.LinesRoundTrip` | internal/agent/runner.go:606-619 | joining the lines gives back the text, with a final newline, and no line holds one |
| `LogLines.LinesOfCleanCut` | internal/agent/runner.go:353-367 | cutting after a newline splits no line |
| `LogLines.LinesOfSplitLine` | internal/agent/runner.go:451-455 | cutting anywhere else makes one line more |
| `LogLines.CutLinesExact` | internal/agent/runner.go:509-551 | the lines cut are the lines of the stream exactly when every cut but the last is after a newline, and there are never fewer |
| `LogLines.ReplayKeepsStream` | internal/agent/runner.go:412-427 | over any writes and ticks, the chunks and the buffer together are the bytes written, in order |
| `LogLines.FlushTimingDoesNotMatter` | internal/agent/runner.go:353-427 | with writes of at most w bytes and lines shorter than the ceiling minus w, any interleaving of writes, ticks and a final flush cuts exactly the lines of the whole output |
| `LogLines.DefaultsKeepLines` | internal/agent/runner.go:302-314 | with the default thresholds, writes of up to 32 KiB and lines below 224 KiB are shipped whole |
| `LogLines.NoCompleteLineStays` | internal/agent/runner.go:328-427 | after a tick no complete line stays buffered, and after a write only below the flush threshold |
| `LogLines.UncleanIffForced` | internal/agent/runner.go:412-427 | a cut inside a line is a write that reached the ceiling with an unended line, and the other way round |
| `LogLines.LinesKeptIffNoForcedCut` | internal/agent/runner.go:412-455 | the lines cut are those of the output if and only if no such write came before the last byte |
| `LogLines.CeilingSplitsALine` | internal/agent/runner.go:451-455 | an input on which a line is shipped in pieces |
| `LogAccounting.Conservation` | internal/agent/runner.go:509-592 | lines cut = stored + waiting + counted as dropped + reported as dropped; with none dropped, stored then waiting lines are the lines cut, in order |
| `LogAccounting.OldestLeaves` | internal/agent/runner.go:377-386 | the oldest batch leaving the queue, stored or dropped, keeps the accounts |
| `LogPushing.LogPusher.FlushPending` | internal/agent/runner.go:377-386 | batches are stored oldest first up to the first failure; nothing is lost or overtaken |
| `LogPushing.LogPusher.AppendPending` | internal/agent/runner.go:586-592 | the newest batch stays, the queue is within its cap or one batch, and no more old batches go than the cap demands |
| `LogPushing.LogPusher.PendingSizeBytes` | internal/agent/runner.go:595-603 | the total length of all waiting lines |
| `LogPushing.LogPusher.FlushAll` | internal/agent/runner.go:509-582 | everything buffered is cut; if no call fails nothing waits, nothing is lost and every earlier drop has been reported; at most one call fails |
| `LogPushing.LogPusher.FlushComplete` | internal/agent/runner.go:353-367 | exactly the complete lines are cut and none stays buffered; if no call fails nothing waits |
| `LogPushing.LogPusher.FlushForced` | internal/agent/runner.go:451-475 | everything is cut; if no call fails a cut inside a line is followed by the notice that says so, and otherwise there is no notice |
| `LogPushing.LogPusher.Write` | internal/agent/runner.go:412-427 | what is cut depends only on the bytes, less than the ceiling stays buffered, and a loss means a failed call |
| `LogPushing.LogPusher.Flush` | internal/agent/runner.go:482-500 | nothing stays buffered; lines are left waiting only if time ran out or all four attempts failed, and there are never more than four |
| `LogPushing.LogPusher.Run` | internal/agent/runner.go:328-500 | a whole step: conservation at the end, lines kept if and only if no forced cut, every stored or waiting line is the mask of a line cut, without a failed call the stored lines are exactly those in order, and lines are left waiting only after four failed calls or a timeout |
| `ArchiveWriting.Walk` | internal/artifact/rooted.go:96-150 | the walk emits each path at or below its start outside excluded subtrees exactly once, in path order, so siblings by name and parents first |
| `ArchiveWriting.WriteArchive` | internal/artifact/rooted.go:54-162 | an archive fails exactly when the root cannot be opened or the path is outside it or missing; otherwise it holds exactly the visible paths, in order, with their kind and content |
| `ArchiveWriting.EntriesTell` | internal/artifact/rooted.go:100-147 | an entry gives its path below the base, and a directory, a file with its whole content or a symlink as what it is |
| `ArchiveWriting.ArchiveIsDetermined` | internal/artifact/rooted.go:96-150 | the same tree and exclusions always give the same archive: there is only one listing in order |
| `Extraction.Written.MkdirAll` | internal/artifact/written.go:39-63 | the directories are created and the top-most missing one is recorded, once and only if created |
| `Extraction.Written.Roots` | internal/artifact/written.go:65-97 | exactly the recorded paths not below a recorded directory, each once, sorted by their text |
| `Extraction.Written.IsCovered` | internal/artifact/written.go:76-85 | the upward loop finds a recorded directory above the path exactly when there is one |
| `Extraction.Extract` | internal/artifact/rooted.go:278-344 | a root that cannot be opened or a destination outside it fails and changes nothing; otherwise tree, record, link count and failure are those of the entries taken one by one |
| `Extraction.ExtractEntry` | internal/artifact/rooted.go:300-340 | one entry: its new tree, record, link count and failure |
| `Extraction.RefusedIffClimbsOut` | internal/artifact/rooted.go:300-303 | a name is refused exactly if at some point it has gone up further than it came down |
| `Extraction.ResolveCleans` | internal/artifact/rooted.go:300-300 | going down and up again, or staying, makes no difference anywhere in a name |
| `Extraction.LinksAndClimbers` | internal/artifact/rooted.go:300-321 | a name that climbs out is an error, and so is a link if links are refused, with the disk as before; otherwise a link is counted and no more |
| `Extraction.EntryTakesEffect` | internal/artifact/rooted.go:308-340 | a directory entry succeeds exactly if only directories are on the way; a file entry exactly if its content is whole, only directories are above it and it is none itself; and then it is there with that content |
| `Extraction.SuccessMeansNoneRefused` | internal/artifact/rooted.go:278-344 | an extraction that succeeds met no climbing name, no refused link and no truncated file outside exclusions |
| `Extraction.PutTouchesOnly` | internal/artifact/rooted.go:300-340 | an entry changes only the path it names and missing directories on the way, never under an exclusion |
| `Extraction.ExtractionIsConfined` | internal/artifact/rooted.go:278-344 | whatever the entries, nothing outside the root or at or below an exclusion changes, and no directory becomes a file or vanishes |
| `Extraction.ExcludingTheRootExcludesNothing` | internal/artifact/targz.go:115-122 | an exclusion of `/` does not protect a path below it |
| `Extraction.ExclusionProtects` | internal/artifact/targz.go:115-122 | an exclusion keeps its whole subtree unchanged in every extraction if and only if it is not the file system root |
| `ExtractionRecord.PutRecorded` | internal/artifact/rooted.go:313-340 | an entry keeps the record exact if and only if it is not a truncated new file in a directory that existed before the extraction |
| `ExtractionRecord.ExtractionRecorded` | internal/artifact/rooted.go:278-344 | over a whole archive the record is exact if and only if no reached entry is such a file; always after success |
| `ExtractionRecord.RootsExact` | internal/artifact/written.go:10-97 | with an exact record, what is at or below a root is exactly what was created, and no root is below another |
| `ExtractionRecord.TruncatedFileIsForgotten` | internal/artifact/rooted.go:325-340 | an archive that leaves a file on the disk under no root of the record |
| `ExtractionRecord.ExtractDir` | internal/artifact/rooted.go:232-249 | creating the destination and extracting into it, with a fresh record |
| `ExtractionRecord.ExtractedDirRoots` | internal/artifact/rooted.go:232-249 | after success, what was there stays and is under no root, and everything new is under one |
| `ArchiveRoundTrip.RoundTrip` | internal/artifact/rooted.go:71-344 | archiving and extracting into an empty directory succeeds and yields the archived tree without symlinks and without what either side excludes, nothing else, and the count of symlinks not excluded |
| `ArchiveRoundTrip.DirectoryRoundTrip` | internal/artifact/rooted.go:71-344 | extracting the archive of a directory makes the destination a copy of it: what was at each path below it is at the same path below the destination, unless it was a symlink or excluded, and nothing else |
| `ArchiveRoundTrip.FileRoundTrip` | internal/artifact/rooted.go:85-89 | extracting the archive of a single file puts it into the destination under its own name, and nothing else |
| `VolumePaths.Declare` | internal/agent/volumes.go:89-162 | volumes are accepted exactly when every name, mode, size and path is well-formed, all are out of the agent's own directories also with symlinks resolved, and no two share a name or data |
| `VolumePaths.WorkspaceApartFromVolumes` | internal/agent/volumes.go:196-221 | a directory the agent manages or sweeps never overlaps an accepted volume |
| `VolumePaths.ManagedAre` | internal/agent/volumes.go:207-219 | the directories refused are exactly working..., detached, in any case, and dot-prefixed ones |
| `VolumePaths.DefaultPathIsOutOfReach` | internal/agent/volumes.go:127-133 | the default place of a volume always passes |
| `MountMapping.PlanMounts` | internal/agent/volumes_mount.go:59-96 | mounts are refused exactly for the listed reasons, and otherwise each names its volume's directory and its own place; no shared volume is the workspace and no relative place climbs out |
| `MountMapping.IsolatedVolumeMounts` | internal/agent/volumes_mount.go:728-749 | the container's extra mounts, and a workspace volume exactly when some mount is at the workspace itself |
| `MountMapping.RelativeVolumeMounts` | internal/agent/volumes_mount.go:662-682 | the references to volumes inside the workspace |
| `MountMapping.ResolveInVolumeMount` | internal/agent/volumes_mount.go:695-719 | the loop finds the deepest reference that holds the path, the earliest of equals |
| `MountMapping.ResolvedIsLookup` | internal/agent/volumes_mount.go:695-719 | the host-side search is the earlier-wins deepest lookup in the container's whole mount table |
| `MountMapping.HostAgreesWithContainer` | internal/agent/volumes_mount.go:684-749 | if no two mounts share a place, every workspace path resolves to the file the container sees there |
| `MountMapping.ValidatedPlaces` | internal/dsl/volumes.go:157-241 | a job that passes validation mounts everything at its own place |
| `MountMapping.AgreementExact` | internal/agent/volumes_mount.go:684-749 | host and container agree on every workspace path if and only if the first and the last mount at each place of the workspace show the same directory |
| `MountMapping.VolumeOverTheWorkspace` | internal/agent/volumes_mount.go:662-682 | an absolute mount on the workspace root would be seen by the container and not by the host |
| `ContainerPaths.ContainerPathOf` | internal/agent/backend_host.go:532-558 | the loop finds the deepest reference whose directory holds the host path, else the workspace |
| `ContainerPaths.GoesBackWhenNoHostTwice` | internal/agent/backend_host.go:532-558 | with directories apart, none referenced twice and none the work directory, resolving and mapping back gives the container path again |
| `ContainerPaths.SecondPlaceIsLost` | internal/agent/backend_host.go:532-558 | a volume's second mount maps back to its first |
| `ContainerPaths.WorkDirIsLost` | internal/agent/backend_host.go:532-558 | a root volume mounted again inside the workspace maps the workspace itself into that mount |
| `ContainerPaths.ClaimApart` | internal/agent/volumes.go:134-142 | the checks on volume directories keep all directories of a claim apart, the work directory included |
| `ContainerPaths.ValidatedPlacedApart` | internal/dsl/volumes.go:157-241 | a job that passes validation has all its mounts at different places, as mapping back requires |
| `ContainerPaths.PlanClaim` | internal/agent/volumes_mount.go:59-96 | a planned claim mounts only configured volumes, from their own directories, on a sound configuration |
| `ContainerPaths.ContainerPathInverts` | internal/agent/backend_host.go:532-558 | for every configured agent and every job with its mounts at different places, with or without a volume at the workspace root: mapping back inverts resolving on every path if and only if no volume is mounted twice at or inside the workspace |
| `ContainerPaths.RootVolumeMountedAgain` | internal/agent/backend_host.go:532-558 | a valid job on which a workspace file maps to a place inside another mount |
| `LinkRegistry.Links.InstallLink` | internal/agent/volumes_mount.go:232-261 | at every crash point every link is registered; nothing foreign is replaced; success leaves the link there and registered; without failing operations only something foreign refuses |
| `LinkRegistry.Links.RemoveOurLink` | internal/agent/volumes_mount.go:265-286 | only this agent's link is removed, crash-safe at every point; without failing operations it is gone and forgotten |
| `LinkRegistry.Links.Record` | internal/agent/volumes_mount.go:418-437 | success means registered, and a failure changes nothing |
| `LinkRegistry.Links.Forget` | internal/agent/volumes_mount.go:440-456 | every occurrence leaves the registry, or, if the write fails, nothing changes |
| `LinkRegistry.Links.SweepOne` | internal/agent/volumes_mount.go:481-493 | one entry: an inspectable link of this agent goes, and the entry with it; a failed removal changes nothing |
| `LinkRegistry.Links.Sweep` | internal/agent/volumes_mount.go:467-496 | without removal errors exactly the inspectable links of this agent go, so all of them if and only if all can be inspected; with every update written the registry ends empty; at every crash point the rest is registered |
| `LinkRegistry.Restart` | internal/agent/volumes_mount.go:457-496 | from any crash point of the methods above, a sweep without errors leaves no link of this agent and everything foreign |
| `LinkRegistry.UninspectableLinkIsForgotten` | internal/agent/volumes_mount.go:478-493 | a link that cannot be inspected stays on the disk while the registry ends empty |
| `LinkRegistry.StepsOfOthers` | internal/agent/volumes_mount.go:395-456 | a durable step on one path is what the other slots rely on |
| `Credentials.CredentialStore.Write` | internal/agent/credentials.go:563-637 | at every crash point the old or the new credential is whole; success leaves the new one and no backup; a leftover backup refuses; without failing operations nothing else but an empty field does; and if the backup can be put back a failed write leaves a whole credential in place |
| `Credentials.CredentialStore.Replace` | internal/agent/credentials.go:584-636 | the same from the backup check to the end of the rotation |
| `Credentials.CredentialStore.Install` | internal/agent/credentials.go:614-628 | the rename into place, or the backup back, losing nothing |
| `Credentials.CredentialStore.RestoreBackup` | internal/agent/credentials.go:614-627 | putting the backup back keeps every state crash-safe and, where it works, the backup is in place |
| `Credentials.CredentialStore.Load` | internal/agent/credentials.go:294-403 | a load uses the old or the new credential, whole, in place, unexpired and of every identity asked for; without failing operations a good current one is the one used, enrollment is for an agent with neither file, and no backup is left |
| `Credentials.PickMeans` | internal/agent/credentials.go:327-363 | a good current credential, else a good backup, else enrollment exactly without either file, else an error |
| `Credentials.Validate` | internal/agent/credentials.go:376-387 | accepted exactly with every identity asked for and a later expiry |
| `Credentials.CrashAndLoad` | internal/agent/credentials.go:294-637 | after a crash at any point the previous or next credential is recovered complete, which one is determined by the files, and no backup is left |
| `Credentials.RecoverAndRotate` | internal/agent/credentials.go:294-637 | after such a recovery the next rotation succeeds |
| `Hooks.Claim.Register` | internal/agent/orchestrator.go:1016-1025 | a registered hook joins its own list at the end |
| `Hooks.Claim.Drain` | internal/agent/orchestrator.go:1115-1218 | a drain takes everything registered and leaves nothing; items are saves in order then posts in reverse, run up to the deadline and skipped after it; a drain the deadline cut off is recorded with a text that accounts for every item it did not finish |
| `Hooks.RunHook` | internal/agent/orchestrator.go:1169-1178 | an item is skipped exactly if the deadline passed before it, and marked interrupted exactly if it passed during it |
| `Hooks.StartedBefore` | internal/agent/orchestrator.go:1169-1172 | of the items of a drain exactly those start whose turn comes before the deadline |
| `Hooks.RunHooks` | internal/agent/orchestrator.go:1180-1218 | both loops together account for every item in order |
| `Hooks.InterruptedIsLast` | internal/agent/orchestrator.go:1169-1178 | at most one item is interrupted, and it is the last executed |
| `Hooks.DrainIsTold` | internal/agent/orchestrator.go:1126-1133 | whatever a drain skipped is named or counted in its record and the interrupted item is named |
| `Hooks.RunPhases` | internal/agent/orchestrator.go:1220-1288 | each hook registered before or during `finally` is handed to exactly one drain, and each drain's record accounts for what it cut off |
| `Hooks.DrainOrderIsPermutation` | internal/agent/orchestrator.go:1180-1218 | the drain order holds each registered item exactly once |
| `Hooks.NewItemGoesBetween` | internal/agent/orchestrator.go:1180-1218 | a newly registered item goes behind every save and before every post hook registered so far, so saves run in order and post hooks last registered first |
| `Hooks.SkippedAreAttributed` | internal/agent/orchestrator.go:149-172 | the first five skipped items are named in the truncation text, and the number of the others is given |
| `Hooks.LabelsDiffer` | internal/agent/orchestrator.go:1200-1200 | a label tells which item it is |
| `Hooks.InterruptedIsAttributed` | internal/agent/orchestrator.go:149-172 | the interrupted item is named, and the text is empty exactly when there is nothing to attribute |
| `StepValues.PairCommutesExactly` | internal/agent/stepoutputs.go:22-74 | two members that finish in either order leave the same record, whatever was recorded before, if and only if they are compatible |
| `StepValues.CompletionOrderExact` | internal/agent/pipeline.go:170-187 | whichever members of a stage record a result and in whatever order, the record is the same, if and only if they are pairwise compatible |
| `StepValues.RecordedReads` | internal/agent/stepoutputs.go:22-74 | a plain result is the whole data of its step; a combination is read back under its key, and other keys, outputs and steps stay as they were |
| `StepValues.MixedUseDependsOnOrder` | internal/agent/stepoutputs.go:22-56 | one name used plainly and in a matrix makes the order show |
| `StepContext.MergeCells` | internal/agent/stepoutputs.go:22-56 | the loop over outputs merges a combination into each, in new maps |
| `StepContext.Applied` | internal/agent/stepoutputs.go:22-74 | outputs and child run ID of one finished member, without writing any existing inner map |
| `StepContext.SafeStepCtx.Snapshot` | internal/agent/pipeline.go:22-49 | a new outer map with the current contents |
| `StepContext.SafeStepCtx.Record` | internal/agent/pipeline.go:53-105 | the live view becomes the recorded one, and only the outer map is written |
| `StepContext.ViewKept` | internal/agent/pipeline.go:22-105 | what is seen through a map stays, if no inner map that existed is written |
| `StepContext.SnapshotsAreStable` | internal/agent/pipeline.go:22-105 | a snapshot shows the same outputs however many members finish after it |
| `Permissions.HasUnion` | internal/authz/set.go:28-28 | the bitwise or is the union of permissions |
| `Permissions.HasIntersect` | internal/authz/set.go:31-31 | the bitwise and is the intersection |
| `Permissions.HasFolderPart` | internal/authz/set.go:34-34 | the mask keeps exactly the folder-scopable permissions |
| `Permissions.HasWith` | internal/authz/set.go:18-25 | exactly a known permission is added |
| `Permissions.HasAll` | internal/authz/set.go:9-9 | the full set holds exactly the catalogue |
| `Permissions.Extensional` | internal/authz/set.go:9-37 | two sets over the catalogue that hold the same permissions are the same word |
| `Permissions.EmptyIffNothing` | internal/authz/set.go:37-37 | the zero word is exactly the set that holds nothing |
| `Permissions.OrFits` | internal/authz/set.go:28-28 | a union of words of n bits has n bits, so it never leaves the uint32 |
| `Permissions.FolderScopableAre` | internal/authz/catalogue.go:10-46 | the folder-scopable permissions are the nine about jobs, runs and schedules |
| `Folders.NormalizeIsIdempotent` | internal/authz/folder.go:11-27 | a normalised folder is accepted, unchanged and not empty |
| `Folders.NormalizeExact` | internal/authz/folder.go:11-27 | a key is accepted exactly if it holds no white space and no pattern character and is a folder, one or more proper segments joined by slashes, with any number of slashes around it; that folder is the result |
| `Folders.Ancestors` | internal/authz/folder.go:35-43 | exactly the non-empty folders that cover the job, outermost first |
| `GrantSpec.IndexAgrees` | internal/authz/grants.go:27-40 | the derived index says of every folder and permission what the source list says |
| `GrantSpec.HeldConcat` | internal/authz/grants.go:43-52 | joining source lists is disjunction |
| `GrantSpec.OrderedIsStable` | internal/authz/grants.go:70-87 | reported sources are sorted by depth, global first, and keep insertion order at each depth |
| `GrantSpec.StableOrderIsUnique` | internal/authz/grants.go:70-87 | no other list does |
| `GrantSpec.OrderedNonEmpty` | internal/authz/grants.go:70-106 | a source is reported exactly when the permission is held |
| `GrantSpec.FirstReported` | internal/authz/grants.go:90-96 | the reported source is the first added among the shallowest that grant |
| `GrantSpec.ReportedIsOutermost` | internal/authz/grants.go:70-96 | the reported source is global if any granting one is, else on a folder that contains every other granting folder, and the first added there |
| `GrantSpec.RestrictHeld` | internal/authz/grants.go:128-134 | restricted grants hold exactly what was held and is under the ceiling |
| `GrantSpec.RestrictOrdered` | internal/authz/grants.go:128-134 | they report the same sources in the same order, each cut and suffixed |
| `GrantSpec.RestrictedSources` | internal/authz/grants.go:128-134 | each source reported under a ceiling keeps its folder, has the suffix added to its reason and holds what is under the ceiling |
| `GrantSets.Grants.Add` | internal/authz/grants.go:27-40 | a non-empty grant is appended and the index stays in step |
| `GrantSets.Grants.Can` | internal/authz/grants.go:56-66 | the answer from the index is what the source list means, on every permission and job |
| `GrantSets.Grants.OrderedSources` | internal/authz/grants.go:70-87 | the method computes the specified order |
| `GrantSets.Grants.Decide` | internal/authz/grants.go:90-96 | held or not, with the first source reported |
| `GrantSets.Grants.Explain` | internal/authz/grants.go:99-106 | every source in Decide's order, none exactly when not held |
| `GrantSets.Grants.Union` | internal/authz/grants.go:43-52 | a new value that holds what either holds; the inputs stay |
| `GrantSets.Grants.Restrict` | internal/authz/grants.go:128-134 | a new value that holds what is held and under the ceiling |
| `GrantSets.Names` | internal/authz/set.go:40-49 | exactly the permissions held, each once, in ascending order of their dotted names |
| `GrantSets.ParseSet` | internal/authz/grants.go:185-195 | succeeds exactly when every name is known, and then holds exactly the names |
| `GrantSets.View` | internal/authz/grants.go:143-151 | names what is held globally and on each folder, and omits empty folders |
| `GrantSets.FromView` | internal/authz/grants.go:156-183 | succeeds exactly when every name is known, every folder acceptable and every folder permission folder-scopable, and then grants what the view means, with every source called "view", and can be viewed again |
| `GrantSets.ViewRoundTrip` | internal/authz/grants.go:143-183 | writing and reading back succeeds and decides every permission and job the same, for normalised folders with folder-scopable sets |
| `Policies.RolesNest` | internal/authz/catalogue.go:94-107 | each role may do what the one below it may |
| `Policies.AdminOnly` | internal/authz/catalogue.go:94-107 | eleven listed permissions, all global-only, are exactly those that only admin has |
| `Policies.BundleMeans` | internal/authz/catalogue.go:94-107 | the viewer bundle holds exactly five listed permissions, the developer bundle exactly fifteen, the admin bundle the catalogue |
| `Policies.SetOfMeans` | internal/authz/policy.go:275-303 | a compiled set holds exactly what one of the entry's names grants in that scope |
| `Policies.CompileGrants` | internal/authz/policy.go:275-303 | a list of entries is accepted exactly when each is, and compiled in order |
| `Policies.CompileEntry` | internal/authz/policy.go:277-301 | an entry is refused for no names, an unknown name, or a global-only permission on a folder, and for nothing else |
| `Policies.CompileScope` | internal/authz/policy.go:263-273 | a scope is accepted exactly when its groups and users are |
| `Policies.CompileFolders` | internal/authz/policy.go:240-259 | folders are accepted exactly when each is well-formed and no two normalise to the same |
| `Policies.LegacyRoleLines` | internal/authz/policy.go:308-328 | exactly the legacy keys with an unknown role, in order |
| `Policies.Compile` | internal/authz/policy.go:222-261 | without a policy nothing is refused and unknown legacy roles are warned about; with one it is accepted exactly with an issuer, no unknown legacy role and acceptable scopes |
| `Policies.AcceptedPolicy` | internal/authz/policy.go:222-303 | in an accepted policy every entry names something, every permission is known, folders grant only folder-scopable permissions, have an entry and occur once under any spelling |
| `Policies.Match` | internal/authz/policy.go:333-361 | valid grants from every matching entry, in order, with their reasons, and whether any entry matched |
| `Policies.ReasonText` | internal/authz/policy.go:339-357 | a reason names the scope, the kind of entry and its key |
| `Policies.MeaningPreserved` | internal/authz/policy.go:222-361 | compile then match preserves meaning: held if and only if some configured entry whose key is a roles value, the email or the sub is global or on a proper ancestor folder and one of its names, a listed role or a permission, grants it there |
| `Policies.Authorize` | internal/authz/policy.go:222-361 | the whole decision from configuration to answer equals that meaning |

## Left out

- `Reserve`, `ReserveContext` and `ReservePath` (single-resource forms), the volume lock records and usage measurement: easier forms of the same table, or diagnostics.
- The blocking loop of `ReserveSet` is modelled by the steps of `VolumeProtocol`: a call, a wake-up after the channel changed, giving up. Fairness between waiters is not promised by the code and not stated. `onWait`, log texts and the cleaning of path keys are left out.
- VolumeProtocol.StepKeepsInv: a run makes one reservation call, and pins only paths it holds, as the callers do.
- VolumeProtocol.EveryWaitHasACause: a run with more than 20000 possible calls whose scan was abandoned at the node budget may be parked although an assignment exists.
- VolumePaths.Declare: parsing a size and creating the directories are not modelled; resolving symlinks is an arbitrary function; case is folded for ASCII letters only.
- LogPushing.LogPusher.Write: a failed bulk append is taken to store nothing; masking is an uninterpreted function of a line; timeouts are arbitrary failures; time stamps and stream names are left out.
- ArchiveWriting.WriteArchive: permission bits, tar headers and zstd framing are not modelled, nor read errors during the walk, nor a root that is itself a symlink.
- Extraction.Extract: the destination holds no symlinks, so the confinement of `os.Root` is not exercised; creating directories either works or is obstructed; the only other I/O failure is content that ends early. The extractor for unconfined destinations is left out.
- Extraction.Written.Roots: a missing record (nil) is left out.
- MountMapping.HostAgreesWithContainer: POSIX paths only; case folding and junctions on Windows and macOS are not modelled, nor a native agent's own link path checks.
- GrantSets.FromView: which of several errors is reported is left out, since errors carry no text.
- LinkRegistry.Links.InstallLink: creating the parent directory is not modelled, and the registry is readable; a slot shares the registry with others that work on other paths.
- Credentials.CredentialStore.Load: finding the credential file and its directory's permissions, and network exchange and enrollment; renames are atomic and ordered.
- Hooks.RunPhases: the steps themselves, run status, and the text around the attribution.
- StepContext.SafeStepCtx.Record: one critical section at a time; `RunPipeline`, `runParallel` and `runOne` with their choice of an error, and `if:`, matrix and template evaluation, are left out as easy or foreign.
- Policies.Compile: YAML decoding and error texts; a legacy line is the key it is about; a permission is its position in the catalogue or an unknown name.
- Policies.Match: the quoting of keys in reasons.
- Permissions.HasUnion: a set is the value of the machine word with arithmetic bit operations; OrFits shows that 32 bits suffice.
- The controller, Kubernetes, containers, heartbeats, workspace garbage collection, enrollment, the command line and the web interface.
