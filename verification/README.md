# Staaash: storage journal, sync planner, change feed and admission queue

A Dafny model of the parts of Staaash that keep people's files safe, with
proofs about them. `dafny verify dfyconfig.toml` checks everything.

- **The durable storage-mutation journal and its executor.** A mutation is a
  list of filesystem steps and one metadata commit. `Paths`, `Disk`, `Steps`
  and `Executor` model the filesystem, the steps with every check of the executor,
  and its two loops. `Forwards` and `Deletes` say when exactly each kind of step
  is carried out, and that cleanup takes only what was captured; `Effects` what a
  successful step changes,
  `Serialisability` that steps of mutations with apart paths commute,
  `Conservation` and `Recovery` that no contents leave the disk before the
  commit, `Interrupted` and `CrashRecovery` that crashes change nothing about
  the outcome. `Rollback` says what undo restores, `Rerun` and `RerunCases` when it
  may be cut off and run again, and `AbortRetry` what a retry does after it was
  cut off. `ArtifactPublish` and `PlanUndo` apply this to plans of the
  application: replacing a file, keeping one of two versions, restoring a folder.
- **The journal's tables.** `StorageKeys`, `ResourceLocks` and `LockedPaths`
  are the tree-shaped locks; `Journal`, `JournalStore`, `Leases` and `Fencing` the
  rows, leases and tokens; `JournalledRuns` ties the rows to the runs on the disk;
  `Ordering`, `Manifest` and `ManifestText` are the tree digests.
- **The change feed and the client's mirror of the server tree.**
  `ChangeFeed` computes the diff, `RemoteItems` and `RemoteTree` apply it,
  `ClientFeed`, `MirrorRows`, `FetchedFolders` and `Mirror` put the two together,
  `MirrorStart` starts a client from snapshots,
  `Replay` and `CutDelivery` cover rows that come again, `FeedPaging` paging and
  pruning.
- **The desktop planner.** `SyncTypes` and `Planner` are the decision itself;
  `PlanSafety`, `PlanDiscipline` and `PlanMeaning` are about single plans,
  `PlanAnswers` and `MovePlanning` say exactly what a plan holds;
  `SyncRounds` and `Convergence` about planning and carrying out until nothing
  is left.
- **The admission queue.** `OwnerQueue`.

Where the source changes something in place the model is a class or a method
with loops (`Executor`, `RemoteTree`, `JournalStore.Store`,
`OwnerQueue.Admission`, the loops of the planner and the feed), proved to do
what a function says; the results are then proved about those functions, over
all runs.

## What the proofs found

Some natural statements are false of the code. For these there is a lemma with
a concrete case, and the condition under which they hold: exact, unless it says
otherwise.

- Diff then patch is the identity exactly when every item that is renamed in
  place while its folder moves is below a folder the client comes to fetch;
  which folders those are is worked out from the two trees and the row order
  (`Mirror.DiffThenPatch`, `FetchedFolders.FetchesExactly`, `Mirror.NameLost`).
- A page whose folders are not all fetched, because a request fails or the
  client stops, comes again, and then nothing is fetched: the contents of the
  other folders stay missing. The client ends right exactly if the folders
  fetched in time hold all that the rows do not bring
  (`CutDelivery.ReplayAfterCut`, `CutDelivery.ContentsNeverCome`).
- Replaying the feed over the tree it produced is harmless exactly when no item
  missing from the tree was last put into a folder of the tree; while a shown
  folder is not fetched yet this fails (`Replay.ReplayChangesNothingExactly`,
  `Replay.ShownFolderNotYetFetched`). The comment at
  `apps/desktop/src/engine/remote.ts:46-51` says it always holds.
- Undo finishes exactly when no folder stands at or inside a path of an earlier
  step, made by a later step or left by an attempt that was refused or cut off;
  the folders made on the way to a target are never removed
  (`Rollback.RollbackRestores`, `Rollback.FolderInTheWay`).
- An undo that is cut off and run again ends the same exactly when undoing a
  step never disturbs a later one: never puts something where the later step's
  target was left free, nor takes, fills or empties what the later step's undo
  has put back (`Rerun.RerunsExactly`). Moves there and back disturb each other
  harmlessly (`RerunCases.SwapsRerun`); that the condition is needed is proved
  unless the newest disturbing step has something taken back like that. There no
  condition on the paths alone decides: of two plans with the same paths one
  reruns and the other stops (`RerunCases.PathsDoNotDecide`).
  Folder restores meet it, with targets that nest; replacing a file and keeping
  one of two versions do not, and their second undo stops for an operator (`PlanUndo.FillingMayRerun`,
  `PlanUndo.ReplaceCannotRerun`, `PlanUndo.KeepingCannotRerun`). The comment at
  `packages/db/src/storage-mutation-executor.ts:1067-1069` says a crash in the
  middle of an undo can be resumed.
- Undo clears no marks, so a retry after an undo that was cut off takes the
  undone steps for done, carries out the rest and may commit
  (`AbortRetry.CommitsOverUndone`): replacing a file it commits over the old
  contents (`PlanUndo.ReplaceCommitsOld`). Where the undone steps disturb none of
  each other and are apart from the rest, it is right exactly if none of them
  moves a file (`AbortRetry.RetryIsRightExactly`).
- A `mkdir` that was done but not journalled is recognised exactly when the
  plan gave it the digest of an empty folder (`Interrupted.ReplayMkdir`,
  `Interrupted.MkdirNotRecognised`).
- Pruning by age never makes a client skip a row unawares exactly if no row that
  stays is older in sequence than one that goes; every cutoff is harmless
  exactly if creation times are in order before the newest row. They need not
  be: a row's time is the start of its transaction, its number is given out later,
  under a lock (`FeedPaging.PruneSkipsNoneExactly`, `FeedPaging.EveryPruneLeavesTail`,
  `FeedPaging.OutOfTimeSkips`).
- The older, line-based manifest encoding confuses two trees, one of which has a
  name with a line break (`ManifestText.LinesConfuse`). Among trees without such
  names it confuses none; that a line break always does harm is not claimed
  (`ManifestText.OlderDigestStandsForTree`).

## What the model takes for granted

- A lease renewal and the filesystem call after it are one step; a commit that
  reports an error has landed or never will; the read and the update of a retry
  are one step (`packages/db/src/storage-mutations.ts:1918-1938`).
- Every transaction is one atomic guarded step; the clock values passed in are
  arbitrary.
- Hashes never collide, so a checksum stands for a file's contents and a tree
  digest for the tree below a folder (`ManifestText.DigestStandsForTree` is the
  reason this is sound for the current encoding, and for names without a line
  break `ManifestText.OlderDigestStandsForTree` for the older one). A folder's size counts as 0.
- Disks are compared by their files where undo is concerned: folders made on
  the way to a target stay (`packages/db/src/storage-mutation-executor.ts:489-509`).
- Storage keys are normalised, and names hold no `/`. A step's key is its list
  of names.
- File and folder ids are unique across both tables and an id keeps its type;
  a mutation's rows reach the client in one page; fetched folders are answered
  from the tree after the mutation; no pair folder lies inside another. Over
  runs of mutations every delivery is complete; `CutDelivery` is about one that
  is not.
- On the desktop, `pathKey` is the identity and no entry has the empty path.
  Convergence is about two-way pairs of files in folders that are already in
  sync, with checksums known, nothing excluded or held, nobody else changing
  anything, and equal stat meaning equal contents; new names, ids and inodes
  are free when picked.
- The rows' `asked` and `locks` fields and the log's `history` record the past
  and decide nothing.

## Model

| member | source | states |
|---|---|---|
| Executor.Executor.ApplySteps | packages/db/src/storage-mutation-executor.ts:897-949 | the loop over the steps leaves the disk, the marks and the outcome of one pass over the phase, stopping at the first step that does not succeed |
| Executor.Executor.UndoForwardSteps | packages/db/src/storage-mutation-executor.ts:1070-1088 | the undo loop goes over the marked forward steps newest first, stops at the first that fails, and clears no mark |
| Forwards.RenamesExactly | packages/db/src/storage-mutation-executor.ts:602-676 | a rename is carried out exactly when only its source is there, it is the file or tree planned for, no file stands on the way and the target is not inside it; found done when only the target is and is that one; every other case stops with the disk as it was, or, into itself, is refused with the folders made |
| Forwards.MakesExactly | packages/db/src/storage-mutation-executor.ts:678-711 | a folder is made exactly where nothing is, and taken for made where it holds just the captured tree; a step without digest or key, a file in its place or on the way stops |
| Forwards.UndoesExactly | packages/db/src/storage-mutation-executor.ts:1052-1088 | undo changes the disk only for marked forward steps: a rename goes the other way under the same checks, a made folder goes exactly if nothing is in it |
| Deletes.DeletesExactly | packages/db/src/storage-mutation-executor.ts:713-840 | a delete is carried out exactly if what is there was captured -- the file with these contents, type and size; the folder with this tree, or its own quarantine; a folder with nothing in it -- and then, path by path, what goes is the node with its tree and the artifact folders left empty; otherwise the disk stays and an operator is needed |
| Deletes.NothingToDelete | packages/db/src/storage-mutation-executor.ts:810-830 | a delete of something that is gone is over; one without a key or with a file on the way stops |
| Deletes.OwnedExactly | packages/db/src/storage-mutation-executor.ts:847-862 | a half-deleted tree may be deleted exactly if a marked rename of the same mutation put it into quarantine |
| Deletes.CleanupTakesOnlyCaptured | packages/db/src/storage-mutation-executor.ts:897-949 | over a whole cleanup pass nothing is added or changed, each file that goes had the contents a delete step captured or lay in an owned quarantine, and at the end nothing is left at any delete's key |
| Deletes.FinalizingTakesOnlyCaptured | packages/db/src/storage-mutation-executor.ts:713-840 | the same over any run of cut-off calls, crashes and retries from finalization on |
| Disk.WithFoldersAt | packages/db/src/storage-mutation-executor.ts:458-509 | making the folders on the way to a path adds exactly the missing ones and touches nothing that is there |
| Disk.RenamedAt | packages/db/src/storage-mutation-executor.ts:649-676 | a rename carries the node and everything inside it to the target, and leaves the rest |
| Disk.ContentsAt | packages/db/src/storage-mutation-executor.ts:187-219 | the tree below a folder holds exactly the nodes inside it, by their relative path |
| Effects.DoneMeans | packages/db/src/storage-mutation-executor.ts:614-711 | a forward step that succeeds moves one subtree to a free path apart from it, or makes one folder, or changes nothing; path by path, nothing else but missing folders on the way |
| Effects.StaysTree | packages/db/src/storage-mutation-executor.ts:614-711 | forward steps keep every node in a directory |
| Serialisability.Untouched | packages/db/src/storage-mutation-executor.ts:614-711 | a step leaves the node, the tree and the way to every path apart from its own as they were |
| Serialisability.SameVerdict | packages/db/src/storage-mutation-executor.ts:614-711 | whether a step succeeds, stops or is refused, and its effect, do not depend on another mutation's step on apart paths, however that one ends |
| Serialisability.Commute | packages/db/src/storage-mutation-executor.ts:614-676 | two steps with apart paths commute, moves of whole subtrees included, also when one of them fails |
| Serialisability.Serial | packages/db/src/storage-mutation-executor.ts:897-949 | however two mutations with apart paths take turns, each stops exactly where it would alone, the other goes on, and the disk is that of one wholly before the other |
| Conservation.BagMoved | packages/db/src/storage-mutation-executor.ts:649-676 | carrying files one to one to other paths keeps the multiset of their contents |
| Conservation.ForwardKeepsBytes | packages/db/src/storage-mutation-executor.ts:628-711 | however a forward step ends, the multiset of file contents on the disk is the same |
| Conservation.UndoKeepsBytes | packages/db/src/storage-mutation-executor.ts:1052-1088 | undoing a step keeps the multiset of file contents and removes no folder that has something in it |
| Interrupted.ReplayRename | packages/db/src/storage-mutation-executor.ts:649-676 | a rename that was done is recognised when carried out again, by what exists and by the fingerprint |
| Interrupted.ReplayMkdir | packages/db/src/storage-mutation-executor.ts:678-711 | a folder that was made is recognised exactly when the step has the digest of an empty folder |
| Interrupted.MkdirNotRecognised | packages/db/src/storage-mutation-executor.ts:678-711 | a folder made for a digest that is not empty, and not journalled, stops the step the second time |
| Interrupted.ResumeForward | packages/db/src/storage-mutation-executor.ts:649-711 | a forward step cut off between any two calls, or finished and not journalled, ends as if carried out once |
| Interrupted.ResumeDelete | packages/db/src/storage-mutation-executor.ts:810-840 | a delete cut off anywhere ends as if carried out once, or stops exactly at a half-deleted tree that the mutation does not own |
| Interrupted.PrunedTwice | packages/db/src/storage-mutation-executor.ts:381-424 | removing empty artifact folders in two goes is the same as in one |
| Interrupted.PartwayAgain | packages/db/src/storage-mutation-executor.ts:810-895 | cutting off a second attempt leaves nothing that cutting off the first could not have left |
| Recovery.NextFrom | packages/db/src/storage-mutation-executor.ts:864-868 | the step an attempt takes up is the first unmarked one of its phase |
| Recovery.CrashForgetsWork | packages/db/src/storage-mutation-executor.ts:928-947 | a step that was done and not journalled is marked by nobody unless it is carried out again |
| Recovery.AttemptIsPass | packages/db/src/storage-mutation-executor.ts:897-949 | an attempt that nothing disturbs does what the loop over the steps does: same disk, same marks, and it ends or stops as the loop does |
| Recovery.StopsForGood | packages/db/src/storage-mutation-executor.ts:1213-1240 | once an undo has stopped for an operator, nothing the mutation does changes the disk or a mark again |
| Recovery.KeepsWhole | packages/db/src/storage-mutation-executor.ts:1155-1213 | no event of an attempt -- call, crash, mark, commit, undo, abort -- breaks the tree or loses contents before finalization |
| Recovery.NothingLostBeforeCommit | packages/db/src/storage-mutation-executor.ts:842-868 | over every run of any plan, all contents stay on the disk until finalization, which only a committed mutation reaches; an aborted one never committed |
| CrashRecovery.PassIsClean | packages/db/src/storage-mutation-executor.ts:897-949 | when a forward pass and then a cleanup pass succeed, they go step by step through the clean disks, each step succeeding |
| CrashRecovery.StaysOnCourse | packages/db/src/storage-mutation-executor.ts:897-949 | with n steps of the phase journalled, the disk is the clean disk after n steps, after n+1, or part of the way between, after every event |
| CrashRecovery.CrashesChangeNothing | packages/db/src/storage-mutation-executor.ts:1155-1213 | the same over any sequence of work, cut-off calls, marks, crashes and re-claims without an abort attempt |
| CrashRecovery.CompletionIsClean | packages/db/src/storage-mutation-executor.ts:1314-1367 | a mutation that completes has the disk and the marks of one uninterrupted forward-then-cleanup pass; one that stops for an operator stops at a half-deleted tree |
| CrashRecovery.StopsAtHalfTree | packages/db/src/storage-mutation-executor.ts:728-755 | in cleanup an attempt stops for an operator exactly at a half-deleted tree that is not its own quarantine |
| Rollback.UndoMove | packages/db/src/storage-mutation-executor.ts:1070-1088 | undoing a move puts the whole subtree back; only folders made on its way stay |
| Rollback.UndoStopped | packages/db/src/storage-mutation-executor.ts:1052-1088 | a folder left at or inside a path of the step stops its undo |
| Rollback.RollbackRestores | packages/db/src/storage-mutation-executor.ts:1070-1088 | with every change marked, and whatever folders an unmarked attempt has left, undo finishes exactly if no folder is in the way, and then every file is back at its path with its contents |
| Rollback.RollbackAfterFailure | packages/db/src/storage-mutation-executor.ts:1213-1240 | the same from where an abort is decided: right after a step was refused or cut off, with the folders it made |
| Rollback.ApartIsClear | packages/db/src/storage-mutation-executor.ts:1070-1088 | steps with apart paths are never in each other's way |
| Rerun.RerunEndsTheSame | packages/db/src/storage-mutation-executor.ts:1070-1088 | on any tree, undo cut off after any of the steps and run again ends the same when the paths are apart |
| Rerun.RerunsExactly | packages/db/src/storage-mutation-executor.ts:1066-1088 | undo cut off after any of the steps and run again ends as in one go exactly if no step disturbs a later one, which a look at each pair of steps decides; that the condition is needed is shown unless the newest step that fails it has something taken back from where it put it to where it took it |
| Rerun.RerunStops | packages/db/src/storage-mutation-executor.ts:1066-1088 | once undoing a step has made a later step no longer undone, the second undo does not get past it |
| Rerun.CutTwice | packages/db/src/storage-mutation-executor.ts:1070-1088 | where no step disturbs a later one, a second cut leaves the lower of the two levels, so any number of cuts does no harm |
| RerunCases.SwapsRerun | packages/db/src/storage-mutation-executor.ts:1070-1088 | however often something is moved there and back, the undo may be cut off and run again anywhere |
| RerunCases.RoundTripReruns | packages/db/src/storage-mutation-executor.ts:1070-1088 | a move and the move back disturb each other, and their undo may still be run again |
| RerunCases.PathsDoNotDecide | packages/db/src/storage-mutation-executor.ts:1066-1088 | two plans with the same actions on the same paths, without a plain move back: the undo of one may be run again wherever it was cut off, that of the other stops |
| PlanUndo.FillingMayRerun | apps/web/server/files/service.ts:4049-4079 | a plan that only moves things into free places, such as a folder restore with its nested targets, can have its undo cut off and run again anywhere |
| PlanUndo.FillingMayNest | apps/web/server/files/service.ts:4049-4079 | the smallest such plan, a folder made and a file moved into it, has paths that are not apart |
| PlanUndo.TakingOverCannotRerun | apps/web/server/files/service.ts:4673-4690 | a plan that puts something where an earlier step made room is undone whole in one go, but not after every cut |
| PlanUndo.ReplaceCannotRerun | apps/web/server/files/service.ts:5332-5360 | replacing a file: one undo restores every file; cut off once the old contents are back, the second undo finds both versions and stops for an operator |
| PlanUndo.KeepingCannotRerun | apps/web/server/files/service.ts:4672-4690 | keeping the copy instead of the original: one undo restores every file, and a second one after it stops for an operator |
| PlanUndo.ReplaceCommitsOld | apps/web/server/files/service.ts:5332-5360 | replacing a file, the abort cut off once the old contents are back: the next attempt commits, with the old contents in place of the new |
| AbortRetry.CommitsOverUndone | packages/db/src/storage-mutation-executor.ts:864-868 | an abort that dies in the middle of its undo: the retry takes the marked steps for done, carries out the others and commits; where none is left, over the files as they were after the steps still standing |
| AbortRetry.RetryIsRightExactly | packages/db/src/storage-mutation-executor.ts:864-868 | where the steps undone disturb none of each other and are apart from those left, the retry goes through whenever the attempt would have without the undo, and leaves the same files exactly if no step undone moves a file |
| RerunCases.DistinctIsNotEnough | packages/db/src/storage-mutation-executor.ts:1070-1088 | with different but nested paths the second undo stops |
| Rollback.FolderInTheWay | packages/db/src/storage-mutation-executor.ts:489-509 | two marked steps whose undo stops, because the second made a folder where the first file was |
| ArtifactPublish.ReplaceRuns | apps/worker/src/durable-storage-mutation.ts:96-133 | stage, back up, publish and delete the backup each succeed in turn when the files are where they are said to be |
| ArtifactPublish.PublishIsClean | apps/worker/src/durable-storage-mutation.ts:73-134 | the plan, run cleanly, changes two paths: the staged file is gone and the published path holds it |
| ArtifactPublish.PublishSurvivesCrashes | apps/worker/src/durable-storage-mutation.ts:73-134 | over any crashes and retries it never gets stuck, and once complete the new file is in place and the old contents are gone |
| StorageKeys.BelowMeansComponents | packages/db/src/storage-mutations.ts:1285-1287 | a key starts with another and a slash exactly when its components properly extend the other's |
| StorageKeys.AncestorsAreBeginnings | packages/db/src/storage-mutations.ts:1251-1254 | the listed ancestors of a key are exactly the keys whose components begin its own |
| StorageKeys.JoinSplit | packages/db/src/storage-mutations.ts:1251-1254 | splitting a key at the slashes and joining it again gives the key |
| ResourceLocks.QueryDecidesOverlap | packages/db/src/storage-mutations.ts:1274-1288 | the ancestor list and the prefix query together decide exactly whether one key contains the other |
| ResourceLocks.PrepareRefusesExactly | packages/db/src/storage-mutations.ts:1299-1326 | prepare is refused for an overlap, a held key or the global lock, and for nothing else |
| ResourceLocks.PrepareKeepsTree | packages/db/src/storage-mutations.ts:1426-1447 | after prepare no two mutations hold overlapping owner keys and a global lock is held alone |
| ResourceLocks.ClaimKeepsTree | packages/db/src/storage-mutations.ts:1515-1575 | the same after a claim that takes further locks |
| ResourceLocks.ReleaseKeepsTree | packages/db/src/storage-mutations.ts:1779-1782 | the same after a mutation gives its locks up |
| LockedPaths.OverlapMeansInside | packages/db/src/storage-mutations.ts:1227-1244 | two path locks of an owner overlap exactly when one path is the other or contains it |
| LockedPaths.DerivedKeysCollideExactly | packages/db/src/storage-mutations.ts:1232-1244 | the locks two user mutations of an owner derive collide exactly if paths of theirs meet, or one of them has no path and takes the whole account |
| LockedPaths.LockedRunsAreSerial | packages/db/src/storage-mutations.ts:1232-1297 | the same for two mutations of one owner that hold their derived locks |
| Journal.KeepsInv | packages/db/src/storage-mutations.ts:1497-2032 | every operation keeps leases, statuses, commit marks, unique idempotency keys and held locks consistent |
| Journal.OthersStay | packages/db/src/storage-mutations.ts:1497-2032 | an operation on one mutation leaves every other row and its locks alone |
| JournalStore.Store.Prepare | packages/db/src/storage-mutations.ts:1192-1214 | a new mutation is prepared exactly if its id and key are new and its locks are free, with the whole row stated; a key in use is answered with the mutation that has it or refused for another request, and anything else changes nothing |
| JournalStore.Store.Claim | packages/db/src/storage-mutations.ts:1497-1592 | a claim succeeds exactly for a mutation nobody has in time whose turn it is, with the further locks free; then the lease, the next token and the locks are set together, otherwise nothing changes |
| JournalStore.Store.OthersHold | packages/db/src/storage-mutations.ts:1519-1527 | tells whether another mutation holds one of the keys |
| JournalStore.Store.AddLocks | packages/db/src/storage-mutations.ts:1558-1569 | adds the keys that are not held yet to the mutation's locks, and no others |
| JournalStore.Store.ClaimFinalization | packages/db/src/storage-mutations.ts:1786-1836 | a committed or finalizing mutation is claimed for cleanup exactly if nobody has it in time and its wait is over, with the next token |
| JournalStore.Store.MarkApplied | packages/db/src/storage-mutations.ts:1645-1667 | exactly under the lease of a mutation under way, this step and no other is marked |
| JournalStore.Store.CommitMetadata | packages/db/src/storage-mutations.ts:1693-1752 | the commit goes through only from running and under the lease, and is stamped |
| JournalStore.Store.BeginFinalization | packages/db/src/storage-mutations.ts:1754-1784 | finalization starts exactly from committed under the lease, and gives up the mutation's locks and no others |
| JournalStore.Store.CompleteMutation | packages/db/src/storage-mutations.ts:1838-1889 | completion makes the row succeeded, ends the lease and gives up the mutation's locks and no others |
| JournalStore.Store.RetryLater | packages/db/src/storage-mutations.ts:1891-1942 | exactly the worker that has the lease puts the mutation back, a committed one as finalizing, another as retrying, with a wait that doubles with each attempt up to 1024 seconds |
| JournalStore.Store.RequireRecovery | packages/db/src/storage-mutations.ts:1944-1974 | exactly under the lease the mutation is handed to an operator: its lease ends, its locks stay taken |
| JournalStore.Store.AbortMutation | packages/db/src/storage-mutations.ts:1980-2032 | only an uncommitted running mutation aborts; its idempotency key and locks are free again |
| JournalStore.Store.RenewLease | packages/db/src/storage-mutations.ts:1617-1643 | exactly under the lease of a mutation under way its time is made longer |
| JournalStore.Store.RetryAtOnce | packages/db/src/storage-mutations.ts:2603-2616 | an operator cuts the wait of a retrying or finalizing mutation short exactly while nobody has it |
| Leases.FreeExactly | packages/db/src/storage-mutations.ts:1299-1326 | the check for locks passes exactly if no other mutation holds an overlapping owner key and the global lock is not in the way |
| Leases.RefusedExactly | packages/db/src/storage-mutations.ts:1299-1326 | a refusal asks for recovery exactly over the global lock, and reports work in progress exactly over an overlap |
| Leases.OwnerKeysExactly | packages/db/src/storage-mutations.ts:1246-1249 | a key belongs to an owner exactly if it names one after the prefix |
| Leases.ClaimExactly | packages/db/src/storage-mutations.ts:1497-1592 | a claim takes effect exactly for a mutation that is prepared or retrying with its wait over, or running with its lease run out, that nobody has in time, with the further locks free |
| Leases.ClaimFinalExactly | packages/db/src/storage-mutations.ts:1786-1836 | the same for a committed or finalizing mutation |
| Leases.LeaseKeepsOthersOut | packages/db/src/storage-mutations.ts:1536-1556 | while a worker has a mutation, no run of claims in that time, other workers' writes, operators and other mutations changes its row or its locks |
| JournalledRuns.WriteKeepsTied | packages/db/src/storage-mutations.ts:1497-2032 | each journal operation that takes effect is the event of the run it stands for: marks are the executor's marks, and the status tells how far the run is |
| JournalledRuns.JournalTellsTheDisk | packages/db/src/storage-mutation-executor.ts:897-949 | from prepare on, through any workers, takeovers, crashes and other mutations, the journal has marked exactly the steps the executor takes for applied, and until cleanup begins every file's contents are on the disk |
| Fencing.RunsOnward | packages/db/src/storage-mutations.ts:1497-2032 | over any run tokens only grow, terminal rows are never left and a commit is never taken back |
| Fencing.OnlyNewestWrites | packages/db/src/storage-mutations.ts:1594-1615 | a write that takes effect carries the newest token, of the worker that holds the lease, in time |
| Fencing.TakenOverForGood | packages/db/src/storage-mutations.ts:1536-1556 | once another worker has claimed, nothing the earlier one writes takes effect, whatever happens in between |
| Fencing.CommitsOrAbortsOnce | packages/db/src/storage-mutations.ts:1693-1752 | over any run a mutation commits or is aborted at most once, never both |
| Fencing.KeyCommitsOnce | packages/db/src/storage-mutations.ts:1206-1214 | over any run at most one mutation asked for under an idempotency key commits, also when an abort frees the key |
| Fencing.OpenMutationsAreApart | packages/db/src/storage-mutations.ts:1299-1326 | mutations that are not finalized never hold overlapping locks; a global lock excludes every other mutation's |
| Fencing.OpenMutationsAreSerial | packages/db/src/storage-mutations.ts:1232-1297 | in every reachable state, two open mutations of an owner with their derived locks change the disk serially |
| Fencing.FromTheStart | packages/db/src/storage-mutations.ts:1192-2032 | over every run from an empty journal the invariant holds, a key commits at most once and a mutation ends at most once |
| Ordering.CompareKeys | packages/db/src/storage-mutation-executor.ts:255-271 | the comparator orders keys by their names, one by one, a beginning first |
| Ordering.BeforeExactly | packages/db/src/storage-mutation-executor.ts:255-271 | one key comes first exactly if at the first name in which they differ it ends, or has the name with the smaller character |
| Manifest.Visit | packages/db/src/storage-mutation-executor.ts:187-219 | the recursive directory visit with one growing list gives the records of the name-sorted walk |
| Manifest.WalkAscends | packages/db/src/storage-mutation-executor.ts:187-219 | the walk lists records in strictly ascending key order |
| Manifest.CapturedIsWalked | packages/db/src/storage-mutation-executor.ts:244-278 | for every tree with unique sibling names, the flat list in any order, sorted by key, is exactly the walk |
| Manifest.RecordsTell | packages/db/src/storage-mutation-executor.ts:187-219 | a record is in the manifest exactly if it tells what the tree has at its path: a folder, or a file with this size and checksum |
| ManifestText.RecordsDiffer | packages/db/src/storage-mutation-executor.ts:203-213 | different entries never give the same record, whatever characters their names hold |
| ManifestText.EncodedDiffer | packages/db/src/storage-mutation-executor.ts:221-227 | different lists of records never give the same length-prefixed text |
| ManifestText.DigestStandsForTree | packages/db/src/storage-mutation-executor.ts:234-242 | two trees with the same encoded manifest have the same at every path, sizes and checksums included |
| ManifestText.LinesDiffer | packages/db/src/storage-mutation-executor.ts:229-230 | the older line-based encoding tells lists of records without a line break apart |
| ManifestText.OlderDigestStandsForTree | packages/db/src/storage-mutation-executor.ts:237-242 | the same for the older encodings of two trees whose names hold no line break |
| ManifestText.LinesConfuse | packages/db/src/storage-mutation-executor.ts:229-230 | the older line-based encoding gives two different trees the same text |
| ChangeFeed.CollectKinds | packages/db/src/storage-changes.ts:137-164 | the loop over both snapshots finds the kind of change of every item |
| ChangeFeed.KindExactly | packages/db/src/storage-changes.ts:137-164 | which kind of change an item has seen, each kind exactly when |
| ChangeFeed.RowsExactly | packages/db/src/storage-changes.ts:180-198 | an item has a row exactly if it has changed and not just along with its folder, and the row is its last state |
| ChangeFeed.AppendStorageChanges | packages/db/src/storage-changes.ts:166-203 | the emitted rows are exactly those not covered by their parent, each once, parents before children |
| RemoteTree.RemoteTree.constructor | apps/desktop/src/engine/remote.ts:56-61 | a tree built from the stored rows holds exactly them, indexed |
| RemoteTree.RemoteTree.Clear | apps/desktop/src/engine/remote.ts:64-68 | forgetting empties items, index and store together |
| RemoteTree.RemoteTree.SetRoots | apps/desktop/src/engine/remote.ts:70-72 | changing the pair folders changes no item |
| RemoteTree.RemoteTree.Index | apps/desktop/src/engine/remote.ts:74-81 | storing an item keeps the child sets the exact inverse of the parents |
| RemoteTree.RemoteTree.Put | apps/desktop/src/engine/remote.ts:83-86 | the stored rows follow the items |
| RemoteTree.RemoteTree.Subtree | apps/desktop/src/engine/remote.ts:89-95 | on an acyclic tree the growing walk ends with exactly the folder and everything below it |
| RemoteTree.RemoteTree.RemoveSubtree | apps/desktop/src/engine/remote.ts:97-106 | exactly the descendants go, from items, index and store, and nothing else |
| RemoteTree.RemoteTree.IsInScope | apps/desktop/src/engine/remote.ts:109-116 | the bounded walk up says whether a pair folder is above |
| RemoteItems.InScopeMeans | apps/desktop/src/engine/remote.ts:109-116 | in scope is exactly to have a pair folder among the first 4096 folders on the way up |
| RemoteTree.RemoteTree.ReplaceUnder | apps/desktop/src/engine/remote.ts:119-128 | each item of the snapshot is stored as it came, and of the old ones just those stay, unchanged, that were not below the pair folder |
| RemoteItems.ReplacedMeans | apps/desktop/src/engine/remote.ts:119-128 | the same for the values, whatever the snapshot holds twice: the last one counts |
| RemoteTree.RemoteTree.AddUnder | apps/desktop/src/engine/remote.ts:131-138 | fetched items are added, never over a newer one |
| RemoteTree.RemoteTree.Apply | apps/desktop/src/engine/remote.ts:146-174 | one row changes the tree as specified and asks for the contents of a folder that came into view |
| RemoteTree.RemoteTree.Set | apps/desktop/src/engine/remote.ts:177-183 | a direct answer is stored if a pair folder is above it; otherwise the item goes with all below it, and nothing else |
| ClientFeed.ApplyPage | apps/desktop/src/engine/engine.ts:375-392 | the rows of a page are applied in order and the folders to fetch collected |
| ClientFeed.AddAnswers | apps/desktop/src/engine/engine.ts:393-400 | the fetched folders' contents are added one after another |
| Mirror.EveryTreeAcyclic | packages/db/src/storage-changes.ts:199-203 | parent-first order keeps the client's tree acyclic after every row |
| FetchedFolders.FetchesExactly | apps/desktop/src/engine/engine.ts:375-401 | which items a client holds after the rows, and which folders it is told to fetch, follow from the two trees, the pair folders and the row order as `HeldAt` and `Fetched` say |
| Mirror.DiffThenPatch | apps/desktop/src/engine/remote.ts:146-174 | diff then patch gives the live after-tree up to revisions exactly when every item renamed inside a moving folder is below a folder that comes to be fetched |
| Mirror.PlainChangesMirror | apps/desktop/src/engine/remote.ts:146-174 | where no shown item is renamed in place inside a moving folder, it always does |
| Mirror.MirrorsOverRuns | apps/desktop/src/engine/remote.ts:46-51 | a client that starts as the mirror of the live tree stays one over any run of mutations |
| MirrorStart.MirrorsFromTheStart | apps/desktop/src/engine/engine.ts:307-401 | a client that starts empty and takes a snapshot of every pair folder mirrors the live tree, and keeps doing so over any run of mutations |
| MirrorStart.RestoredPairMirrors | apps/desktop/src/engine/engine.ts:334-352 | the snapshot of a pair folder that is back, whatever the client still held below it, makes the client right about it beside the others |
| Mirror.NameLost | packages/db/src/storage-changes.ts:182-190 | a child renamed while its folder moves keeps its old name at the client |
| Replay.ReplayChangesNothingExactly | apps/desktop/src/engine/remote.ts:146-174 | replaying rows over a tree that has seen them changes nothing exactly if none last put a missing item into the tree |
| Replay.ReplayedTailChangesNothingExactly | apps/desktop/src/engine/remote.ts:46-51 | the same for any tail of a feed over the tree the feed led to |
| Replay.RankedFeedReplays | apps/desktop/src/engine/remote.ts:46-51 | the same from a rooted tree, when the rows agree on what is nearer the top |
| Replay.ShownFolderNotYetFetched | apps/desktop/src/engine/remote.ts:146-174 | a case in which a replay adds an item |
| CutDelivery.ReplayFetchesNothing | apps/desktop/src/engine/engine.ts:375-406 | when the fetches of a page are cut off after any of them and the page comes again, nothing changes and no folder is fetched |
| CutDelivery.ReplayAfterCut | apps/desktop/src/engine/engine.ts:375-406 | such a client ends with the live tree exactly if the folders fetched in time hold all that the rows do not bring |
| CutDelivery.ContentsNeverCome | apps/desktop/src/engine/engine.ts:375-406 | a folder and its file restored together, the fetch cut off: the page comes again, asks for nothing, and the file stays missing |
| FeedPaging.PageIsComplete | packages/db/src/storage-changes.ts:266-295 | over any tail of the log, whatever the creation times, a page holds exactly the owner's rows between the cursor asked for and the one returned, which moves on |
| FeedPaging.PruneKeepsTail | packages/db/src/storage-changes.ts:297-314 | pruning leaves the newest part of the log exactly if no row that stays is older in sequence than one that goes |
| FeedPaging.EveryPruneLeavesTail | packages/db/prisma/migrations/20261023000000_sync_feed/migration.sql:36-54 | every cutoff leaves the newest part of the log exactly if the creation times, which are transaction starts, are in order before the newest row |
| FeedPaging.PruneSkipsNoneExactly | packages/db/src/storage-changes.ts:266-314 | after a prune every page that is answered, to whomever and from wherever, leaves out nothing exactly if no row is out of order for the cutoff |
| FeedPaging.SkippedUnawares | packages/db/src/storage-changes.ts:266-314 | for each row pruned from the middle: its owner, just before it, is answered with a page that goes past it without it |
| FeedPaging.PagingIsGapFree | packages/db/src/storage-changes.ts:244-314 | over appends with any creation times, prunes that are in order and polls, a client receives each of its owner's rows exactly once in order, or starts over |
| FeedPaging.InTimePrunesInOrder | packages/db/src/storage-changes.ts:297-314 | where all rows are in order of time, so is every prune of a run |
| FeedPaging.OutOfTimeSkips | packages/db/src/storage-changes.ts:297-314 | a log of one owner in which a prune makes a page skip a row |
| SyncTypes.IsCovered | apps/desktop/src/engine/plan.ts:102-107 | tells whether a path or one of its folders is in a set |
| SyncTypes.DirtyFolders | apps/desktop/src/engine/plan.ts:110-123 | exactly the folders on the way to an unclean path, although the walk up stops early |
| Planner.PlanMoves | apps/desktop/src/engine/plan.ts:307-322 | the loop over the base, shallowest first, plans the moves and collects the paths mid-move |
| Planner.FindDirtySides | apps/desktop/src/engine/plan.ts:325-346 | the folders that changed on each side, or hold something left alone |
| Planner.MakePlan | apps/desktop/src/engine/plan.ts:528-575 | the loop over all paths gives the plan of `PlanOf`: hold, then moves alone, then every path by depth |
| PlanSafety.CleanMeansQuiet | apps/desktop/src/engine/plan.ts:325-346 | a folder that is not dirty holds nothing changed and nothing excluded on that side |
| PlanSafety.DeletionsAreSafe | apps/desktop/src/engine/plan.ts:366-520 | in every mode, each file a plan trashes, alone or in a folder, or replaces matches the base by stat or checksum, on both sides |
| PlanSafety.NothingHiddenGoes | apps/desktop/src/engine/plan.ts:325-346 | with scans that list the folders on the way, no path left alone by sync, of either side, lies in a folder that a plan trashes |
| PlanDiscipline.ModeIsKept | apps/desktop/src/engine/plan.ts:427-520 | download folders never write to the server; upload folders never write here and never trash there |
| PlanDiscipline.OneActionAPath | apps/desktop/src/engine/plan.ts:545-574 | each path gets at most one action, and moves come alone |
| PlanDiscipline.NothingInForbiddenPlaces | apps/desktop/src/engine/plan.ts:553-560 | no action is at or under an excluded or mid-move path, or under a folder the same plan trashes |
| PlanDiscipline.EveryMoveIsProper | apps/desktop/src/engine/plan.ts:307-322 | every move of a plan has two different ends, neither of them at or under a path left alone by sync |
| PlanDiscipline.MovesNeverMeet | apps/desktop/src/engine/plan.ts:307-322 | of any two moves the later one neither starts nor ends at or inside an end of the earlier |
| PlanMeaning.PlannedMovesAreReal | apps/desktop/src/engine/plan.ts:236-300 | what a plan moves has really moved on the other side, is untouched, and overwrites nothing |
| PlanMeaning.EmptyPlanMeansSettled | apps/desktop/src/engine/plan.ts:528-621 | in every mode a plan with nothing to do means every path it looks at is as that mode wants it |
| PlanAnswers.HoldsExactly | apps/desktop/src/engine/plan.ts:218-228 | a plan is held for this computer or the server exactly if at least ten files were synced, that side has nothing, the mode would empty the other one and nobody has agreed; a held plan does nothing |
| PlanAnswers.LookupsAreLast | apps/desktop/src/engine/plan.ts:149-190 | of entries with one path, id or new inode the last one counts in the planner's lookups |
| PlanAnswers.DirtyMeans | apps/desktop/src/engine/plan.ts:325-346 | a folder is kept as changed exactly if something in it is new, changed or left alone on that side |
| PlanAnswers.AnswersExactly | apps/desktop/src/engine/plan.ts:349-621 | for every path in view of a plan without moves, every kind and every mode: exactly which action the plan has, from what the two sides and the base hold there, whether the id or the inode is still about, and what is inside a folder |
| PlanAnswers.HashesExactly | apps/desktop/src/engine/plan.ts:578-621 | the files to be read first are exactly those whose decision waits for their checksum |
| MovePlanning.RealMovesArePlanned | apps/desktop/src/engine/plan.ts:236-322 | whatever one side has moved and the other left alone is moved there too, or waits for its folder, unless one of its ends is left alone by sync or at or inside an end of another move |
| MovePlanning.WaitsForMove | apps/desktop/src/engine/plan.ts:307-322 | a path taken out of the plan as mid-move is an end of such a move |
| MovePlanning.ShallowMovesFirst | apps/desktop/src/engine/plan.ts:311-312 | a folder is moved before what is in it |
| Convergence.OwnPath | apps/desktop/src/engine/pair-sync.ts:324-594 | each handler settles its path, or after setting a copy aside leaves it one download from settled |
| Convergence.OthersKeep | apps/desktop/src/engine/pair-sync.ts:324-594 | each handler leaves every other path alone but for the free name of a copy |
| SyncRounds.TrashForgetsTree | apps/desktop/src/engine/store.ts:235-242 | what is trashed is forgotten with all that was in it, and nothing else is |
| SyncRounds.HandledSettles | apps/desktop/src/engine/pair-sync.ts:324-594 | what a link, download or upload saves in the base leaves nothing to do for the path, in every mode, for folders as well, with or without a server checksum |
| Convergence.ActionCarries | apps/desktop/src/engine/pair-sync.ts:398-446 | no handler loses contents that differ from the base or are on both sides |
| Convergence.PlanIsAnswers | apps/desktop/src/engine/plan.ts:528-621 | the plan is, for every path, the answer of the plain two-way rule on its three versions, and nothing else |
| Convergence.RoundsTakeOnlyKnown | apps/desktop/src/engine/plan.ts:366-520 | whatever a round trashes or replaces is, on the side it is taken from, no change against the base |
| Convergence.RoundTakesOneOff | apps/desktop/src/engine/pair-sync.ts:654-756 | a round, its actions in any order, takes one off every path's rank, keeps the setting and loses no version |
| Convergence.NothingLeftMeansInSync | apps/desktop/src/engine/plan.ts:427-472 | when nothing is left both sides hold the same files with the same contents |
| Convergence.EditedOnBothSides | apps/desktop/src/engine/pair-sync.ts:398-446 | a file edited on both sides is such a setting, and both its versions are ones to keep |
| Convergence.TwoRoundsConverge | apps/desktop/src/engine/pair-sync.ts:654-756 | two rounds lead to an empty plan, both sides equal, and every version that differed from the base is on both |
| OwnerQueue.Keeps | packages/db/src/storage-transactions.ts:160-274 | every event keeps the chain of an owner's tickets and the counter consistent |
| OwnerQueue.OneAtATimeInOrder | packages/db/src/storage-transactions.ts:195-219 | over any run, while an owner's operation is under way all its earlier tickets are over, cancelled ones included |
| OwnerQueue.CounterIsExact | packages/db/src/storage-transactions.ts:160-175 | the counter is always the number of live waiters and never more than 32 |
| OwnerQueue.NoPlaceIsLost | packages/db/src/storage-transactions.ts:160-175 | over any run, once every operation is over the counter is back at nothing |
| OwnerQueue.SomebodyCanMove | packages/db/src/storage-transactions.ts:195-219 | down the chain from any unresolved ticket there is one that can go on right now |
| OwnerQueue.TailIsNewest | packages/db/src/storage-transactions.ts:204-211 | the tail kept for an owner is one of its own tickets, and none of its tickets is newer |
| OwnerQueue.TicketGoesOn | packages/db/src/storage-transactions.ts:195-274 | a ticket is changed by its own events alone, and goes from queued to its turn only by entering, and never back |
| OwnerQueue.GivenUpForGood | packages/db/src/storage-transactions.ts:176-218 | a request that gives up while queued gives its place back, and in no run does its turn come |
| OwnerQueue.Admission.Arrive | packages/db/src/storage-transactions.ts:195-208 | a request is turned away exactly if it has to wait and the counter is full, and then leaves no trace; otherwise its ticket chains on the owner's newest |
| OwnerQueue.Admission.EndWait | packages/db/src/storage-transactions.ts:176-218 | the turn comes exactly for a queued ticket whose predecessor's tail has resolved, giving up works for any queued one; either frees its place, and anything else changes nothing |
| OwnerQueue.Admission.WaitToRetry | packages/db/src/storage-transactions.ts:221-251 | a refused operation keeps one place while it waits, and is over exactly if it has none and there is none |
| OwnerQueue.Admission.Finish | packages/db/src/storage-transactions.ts:253-274 | the end of an operation frees its place |
| OwnerQueue.Admission.ResolveTail | packages/db/src/storage-transactions.ts:199-203 | a tail resolves exactly when its own operation is over and the tail before it has resolved |
| OwnerQueue.Admission.ForgetTail | packages/db/src/storage-transactions.ts:205-207 | a resolved tail is forgotten exactly if no newer one has taken its place |

## Left out

- Executor.Executor.ApplySteps: `remove_empty_directory` and file sizes are checked as in the code, but modification times, fsync, real paths, symbolic links and the capability probe are not part of this model.
- Recovery.NothingLostBeforeCommit: undo steps may happen in any order and an abort at any time before the commit, which allows more than the code does; when an abort is decided (attempt counts, error classes) is not modelled.
- Recovery.KeepsWhole: mutations run one at a time on the modelled disk; that others may run beside it is `Serialisability`, for forward steps only.
- CrashRecovery.CompletionIsClean: about plans whose clean run succeeds; a step that the operating system refuses is retried forever in the model.
- Rerun.RerunsExactly: cut off between steps; an undo rename cut off inside leaves at most folders, which `Interrupted.ResumeForward` covers. That the condition is needed is proved where the newest step that disturbs a later one has nothing taken back from where it put it to where it took it; for the others only that it is enough; there no condition on the paths alone is exact (`RerunCases.PathsDoNotDecide`), and moves there and back are settled by themselves.
- Rollback.RollbackRestores: about plans whose marked steps all changed the disk; a marked `mkdir` that found its empty folder already there, which undo takes away and which an earlier step's digest may hold, is left out.
- PlanUndo.FillingMayRerun: about plans whose steps all changed the disk; a `mkdir` of a folder that was there already is left out.
- AbortRetry.RetryIsRightExactly: steps left that share paths with those undone are covered by `AbortRetry.CommitsOverUndone` only, which says over what is committed and not when that is right.
- CutDelivery.ReplayAfterCut: one delivery at a time, and answers from the tree after the mutation; later feed rows for the missing items can still bring single items in.
- Replay.RankedFeedReplays: one ranking for the whole feed, and no rows for the pair folders themselves; a row that puts a folder into one of its own folders would make the tree cyclic, and nothing in a row alone rules that out.
- JournalStore.Store.Prepare: quota, entity revisions, namespaces and the upload-session link can refuse a prepare for further reasons; those refusals change nothing and are left out.
- JournalledRuns.JournalTellsTheDisk: the executor writes the journal in its order (`InOrder`); that nothing but the worker with the lease touches the disk is the renewal before each call, taken for granted above.
- MirrorStart.MirrorsFromTheStart: all snapshots are of one tree; a mutation between two of them, whose rows come afterwards, is not modelled.
- PlanAnswers.AnswersExactly: for paths in folders the same plan trashes, left alone or mid-move there is no action, which `PlanDiscipline.NothingInForbiddenPlaces` says.
- JournalStore.Store.CommitMetadata: the metadata update itself is opaque; only that it happens once is modelled.
- Manifest.Visit: names are sequences of characters; their UTF-16 order and UTF-8 byte length are taken as the order and length of the characters.
- Mirror.DiffThenPatch: up to revisions, because a covered child gets no row and keeps its older revision at the client; database restores, which move the feed back, are not modelled.
- FeedPaging.PagingIsGapFree: a client that starts over is taken to get a snapshot of that moment.
- Planner.MakePlan: case folding and Unicode normalisation of paths, the issue list and the text of conflict names are left out; identical paths stand for colliding ones.
- Convergence.TwoRoundsConverge: folders that are created, moved or trashed, the one-way modes, the settling delay, full disks, full servers and refused requests are not carried out; the stop rules for a repeated plan and for twenty rounds are never reached in two rounds and are left out.
- `keep-mine`, `move-local`, `move-remote`, `mkdir` and `create-remote-folder` handlers: planned, with the plan's properties proved, but not carried out.
- `apps/desktop/src/engine/store.ts`: the remote rows are a field of `RemoteTree`; nested transactions, uploads in progress and settings are left out.
- `OwnerQueue`: time itself; a timeout is a giving up at any moment, promise resolution an event of its own.
- The recovery handler of the worker, batch moves and parent mutations, upload sessions, quota and the older lock files: outside the four components.
- `conflictCopyName` and lease durations: a free name and an end of the lease are picked from outside.
