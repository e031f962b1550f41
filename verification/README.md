# Kode Stream: models and proofs

Kode Stream is a local and cloud workspace server. Behind its HTTP interface lie a number of
self-contained protocols and algorithms; this project models them in Dafny and proves what they
are for. `dafny verify dfyconfig.toml` checks everything.

| files | what they model |
|---|---|
| `JiraIssueCache` | the Jira issue cache: single-flight fetches, waiters, abandonment, generations, invalidation and a bounded cache with expiry, as one atomic step for each critical section |
| `SessionRecords`, `SessionLaunch` | the durable session records and the launch of embedded AI sessions: reserve, start, publish, compensate, with exits and observer callbacks from other goroutines |
| `TerminalBuffer` | the replay buffer of a terminal session and its subscribers |
| `Disk`, `SingleFile`, `Generation` | a file system in which any step may fail, the three publishers of one file, and the publication of the eight files of the data directory |
| `CanvasStore`, `CanvasChanges`, `CanvasSnapshots`, `CanvasBatches`, `CanvasFileRepository`, `CanvasSqlRepository`, `CanvasAgreement` | canvas layouts: what each operation does, the check of the file, the two repositories, and when they agree |
| `CanvasProjection`, `CanvasView`, `CanvasIdentity` | what a canvas shows, and why no plan is ever shown twice |
| `VerificationRetention`, `VerificationJobs` | verification jobs: slots, runs, and the pruning of finished jobs |
| `TopKSearch` | the streaming item search |
| `Relationships`, `PageLinks`, `WikiGraph`, `WikiEdges` | wiki links, backlinks and the graph |
| `NaturalOrder`, `NaturalNames`, `FileTree` | the natural order of names and the budgeted file tree |
| `GitParsers` | the readers of Git's NUL-separated output |
| `ShellQuoting` | the launch script and its reading by a POSIX shell |
| `CanonicalRoots`, `RootSelection` | the reduction of overlapping search roots |
| `MutationLock` | the lock on changes to a workspace |
| `Options`, `Collections`, `Strings`, `NulKeys`, `Sorting` | what several of these share |

Code that changes state in steps is modelled by classes and methods with loops. Where goroutines
interleave, there is a state machine beside the class: every method is proved to be one step of it,
and the results are about all its runs. Clocks, randomness, hashes, case folding and path
arithmetic are parameters; what the environment may do to an operation, above all fail, is left
open and every case is covered.

Some promises do not hold of the code without a condition. Each has its exact condition and a
concrete case outside it:

- Writing a session record keeps keys unique exactly as `SessionRecords.UpsertKeepsValid` says;
  `SessionRecords.UpsertMayShareALaterKey` is a case where it does not, and the launch protocol is
  proved to stay within the condition. `SessionRecords.ValidationDecidesValidity` and
  `SessionRecords.ValidListRefused` do the same for the check of a whole list.
- A refused launch frees its key exactly as `SessionLaunch.EmbeddedSessions.StartEmbedded` says;
  `SessionLaunch.UnreportedReservationHoldsTheKey` is the case where it does not.
- An invalidation of a workspace reaches exactly its keys as `JiraIssueCache.KeysHaveOneOwner` says;
  `JiraIssueCache.BarredKeysAreReached` is a pair of workspaces of which one reaches the other's.
- The wiki graph has all its edges exactly as `WikiEdges.GraphIsComplete` says;
  `WikiEdges.WikiLacksAnEdge` is a wiki that lacks one.
- The file and SQL canvas repositories agree on a batch exactly as `CanvasAgreement.PatchBoth` says;
  `CanvasAgreement.Disagree` is a canvas and a batch on which they do not.

## Model

| member | source | states |
|---|---|---|
| `JiraIssueCache.EveryRunIsSafe` | internal/jira/jira_service.go:121-199 | in every interleaving of readers, refreshes, completions, departures, expiry and invalidations: at most 256 entries; every entry came from a finished fetch of its key begun after the last invalidation of every workspace owning the key; the generations stored for a key strictly grow; a key has at most one unfinished flight, the one readers find; its channel closes exactly once |
| `JiraIssueCache.NeverStoredAfterInvalidation` | internal/jira/jira_service.go:58-71 | a fetch begun before an invalidation of its workspace is never stored after it, whatever steps come between |
| `JiraIssueCache.OnlyCurrentFetchesAreStored` | internal/jira/jira_service.go:187-199 | an entry appears or changes only when a fetch that was neither abandoned nor overtaken completes with a storable state; the entry is that state with its full lifetime and the generation is appended to the key's log |
| `JiraIssueCache.InvalidationOvertakes` | internal/jira/jira_service.go:66-70 | an invalidation overtakes every fetch of the workspace that exists, finished or not |
| `JiraIssueCache.StaysOvertaken` | internal/jira/jira_service.go:150-169 | a fetch once overtaken by a later generation of its key stays overtaken for ever |
| `JiraIssueCache.RunKeepsInv` | internal/jira/jira_service.go:121-251 | every run keeps the invariant that ties flights, waiters, generations, stored logs and entries together |
| `JiraIssueCache.ReadKeepsInv` | internal/jira/jira_service.go:135-157 | the lookup keeps it, in each of its three outcomes: hit, join, new flight |
| `JiraIssueCache.CompleteKeepsInv` | internal/jira/jira_service.go:187-199 | so does a completion, stored or discarded |
| `JiraIssueCache.InvalidateKeepsInv` | internal/jira/jira_service.go:58-71 | so does an invalidation |
| `JiraIssueCache.PutBound` | internal/jira/jira_service.go:238-251 | inserting after pruning and evicting an oldest entry never exceeds 256 entries |
| `JiraIssueCache.JiraService.PruneCache` | internal/jira/jira_service.go:231-237 | exactly the entries not yet expired remain |
| `JiraIssueCache.JiraService.OldestKey` | internal/jira/jira_service.go:241-247 | the evicted entry is one of least expiry |
| `JiraIssueCache.JiraService.PutCache` | internal/jira/jira_service.go:238-251 | prunes, evicts one oldest entry only when full, inserts with a five-minute lifetime |
| `JiraIssueCache.JiraService.Read` | internal/jira/jira_service.go:133-157 | serves from the cache if and only if the key has an entry that has not expired at either look, and then its state with nothing else changed; otherwise joins the key's flight or starts one |
| `JiraIssueCache.JiraService.BeginRefresh` | internal/jira/jira_service.go:159-162 | a forced refresh takes the next generation of its key and leaves cache and flights alone |
| `JiraIssueCache.JiraService.CompleteFetch` | internal/jira/jira_service.go:163-199 | the fetch finishes and leaves the flight table if it is there; it is stored if and only if it is worth keeping, was not abandoned and still has its key's generation |
| `JiraIssueCache.JiraService.LeaveFlight` | internal/jira/jira_service.go:175-183 | the last waiter to leave abandons the flight |
| `JiraIssueCache.JiraService.InvalidateWorkspace` | internal/jira/jira_service.go:58-71 | drops exactly the entries, and advances exactly the generations, of the keys that start with the workspace's ID and a bar |
| `JiraIssueCache.StoredIsServed` | internal/jira/jira_service.go:133-199 | after a completion that stores at time n, a read of its key at any time from n up to n + 300 seconds is a hit with that state |
| `JiraIssueCache.ExpiredIsFetched` | internal/jira/jira_service.go:133-157 | a read that finds its entry expired at either look, and no flight, starts a new fetch that later readers find |
| `JiraIssueCache.StoringKeeps` | internal/jira/jira_service.go:238-251 | what storing leaves in a cache of at most 256 entries: the new entry, and of the others those not expired but for one of least expiry when there are 256 of them |
| `JiraIssueCache.CompletionStores` | internal/jira/jira_service.go:187-199 | a completion stores its result for 300 seconds if it is worth keeping and its fetch was neither abandoned nor overtaken; otherwise the cache stays as it is |
| `JiraIssueCache.OwnKeysAreReached` | internal/jira/jira_service.go:58-71 | the keys the service builds for a workspace are reached by its invalidation |
| `JiraIssueCache.KeysHaveOneOwner` | internal/jira/jira_service.go:58-71 | with workspace IDs free of bars, an invalidation reaches exactly the keys built for its workspace |
| `JiraIssueCache.BarredKeysAreReached` | internal/jira/jira_service.go:58-71 | with a bar in an ID, the keys of another workspace are reached too: a concrete pair |
| `SessionRecords.UpsertWrites` | internal/ai/session_record_repository.go:122-144 | an accepted upsert replaces the record of its ID or appends it, and leaves every other record as it was |
| `SessionRecords.UpsertKeepsValid` | internal/ai/session_record_repository.go:122-144 | the list stays free of shared IDs and keys if and only if no other record of the workspace holds the key |
| `SessionRecords.UpsertMayShareALaterKey` | internal/ai/session_record_repository.go:133-140 | a concrete case where it does not: a stale copy of an earlier record takes the key of a later one |
| `SessionRecords.NewRecordNeedsFreeKey` | internal/ai/session_record_repository.go:122-144 | a record with a new ID is accepted if and only if its key is free |
| `SessionRecords.KeptKeyFits` | internal/ai/session_record_repository.go:122-144 | a record that has no key, or the key its ID already holds, is always accepted and always fits |
| `SessionRecords.ValidationDecidesValidity` | internal/ai/session_record_repository.go:165-186 | the NUL-joined check accepts exactly the valid lists in which records share a joined key only if they share workspace and key |
| `SessionRecords.NulFreeWorkspacesPass` | internal/ai/session_record_repository.go:165-186 | workspace IDs without NUL characters are enough for that: then the check accepts exactly the valid lists |
| `SessionRecords.ValidListRefused` | internal/ai/session_record_repository.go:165-186 | a concrete valid list that the check refuses: two keys that join to one string |
| `SessionRecords.FileSessionRecordRepository.UpsertRecord` | internal/ai/session_record_repository.go:122-144 | the scan stops at the ID or at the key, whichever comes first, and stores or refuses accordingly |
| `SessionRecords.FileSessionRecordRepository.Validate` | internal/ai/session_record_repository.go:165-186 | accepts if and only if no ID and no joined non-empty key occurs twice |
| `SessionLaunch.EveryRunIsSafe` | internal/ai/ai_embedded_service.go:102-207 | in every interleaving of launches, exits, cancellations, late observer callbacks and compensation, with every write free to fail: no two records of a workspace share a non-empty key; at most one launch per key keeps a running process; every running process was launched; a compensated record stays failed with an empty key and no process |
| `SessionLaunch.CompensationIsFinal` | internal/ai/session_record_service.go:132-145 | once compensated, a record is failed and keyless at every later point of the run |
| `SessionLaunch.CompensationFreesTheKey` | internal/ai/ai_embedded_service.go:192-207 | after a compensation that reached the file, reported or not, no record holds the key, so a retry starts afresh |
| `SessionLaunch.UnreportedReservationHoldsTheKey` | internal/ai/session_record_service.go:232-237 | a reservation that reached the file but was reported as an error is not compensated: its record stays starting without a session, and every later request for the key finds it and changes nothing |
| `SessionLaunch.SuccessIsFoundAgain` | internal/ai/session_record_service.go:220-230 | after a successful launch its key finds its record, and a second request changes nothing |
| `SessionLaunch.RunKeepsInv` | internal/ai/ai_embedded_service.go:102-190 | every run keeps the launch invariant |
| `SessionLaunch.ReserveKeepsInv` | internal/ai/session_record_service.go:232-237 | so does reserving a record |
| `SessionLaunch.PublishKeepsInv` | internal/ai/session_record_service.go:116-130 | so does publishing running from a copy read before other writers acted |
| `SessionLaunch.ObserveKeepsInv` | internal/ai/session_record_service.go:132-146 | so does the reading half of a late observer callback |
| `SessionLaunch.SyncKeepsInv` | internal/ai/session_record_service.go:147-155 | and its writing half, from the copy it read, whatever a launch has written between |
| `SessionLaunch.CompensateKeepsInv` | internal/ai/ai_embedded_service.go:192-207 | so does a compensation, written or lost |
| `SessionLaunch.FindIsHolder` | internal/ai/session_record_repository.go:76-93 | what a key lookup finds is the one record that holds the key |
| `SessionLaunch.EmbeddedSessions.ReadForSync` | internal/ai/session_record_service.go:132-146 | the callback copies the record with the state it saw, unless the record is missing, or failed without a key while something other than a failure was seen |
| `SessionLaunch.EmbeddedSessions.WriteSynced` | internal/ai/session_record_service.go:147-155 | it then writes its copy with the session's state |
| `SessionLaunch.EmbeddedSessions.SyncSessionRecord` | internal/ai/session_record_service.go:132-155 | a record that is there and not compensated then has the state that was seen, unless the write was lost; a compensated one is unchanged |
| `SessionLaunch.EmbeddedSessions.ReadReservation` | internal/ai/session_record_service.go:116-124 | the first half of publishing running: a copy of the reservation, or a failure that stops the process |
| `SessionLaunch.EmbeddedSessions.WriteReservation` | internal/ai/session_record_service.go:125-130 | the second half, written from that copy |
| `SessionLaunch.EmbeddedSessions.SpawnProcess` | internal/ai/ai_terminal_repository.go:107-176 | a started process is running, a failed start leaves a failed session without one |
| `SessionLaunch.EmbeddedSessions.StopSession` | internal/ai/ai_terminal_repository.go:317-336 | an active session becomes cancelled and loses its process |
| `SessionLaunch.EmbeddedSessions.MarkLaunchFailed` | internal/ai/ai_embedded_service.go:192-207 | the record becomes failed with an empty key |
| `SessionLaunch.EmbeddedSessions.StartEmbedded` | internal/ai/ai_embedded_service.go:102-190 | a whole launch reuses the holder of the key and changes nothing; otherwise it ends with a running process and its running record if and only if every step went well, and else leaves no process; a refused launch frees its key if and only if the reservation never reached the file, or was reported as written and the compensation reached it |
| `SessionLaunch.ExitIsRecorded` | internal/ai/session_record_service.go:132-155 | in a run: after the exit of a running session and its callback, written, the record says exited and keeps workspace and key |
| `SessionLaunch.ExitEnds` | internal/ai/ai_terminal_repository.go:352-367 | an exit leaves a running session exited, a stopped one as it was, and either without a process; it touches nothing else |
| `SessionLaunch.CancelEnds` | internal/ai/ai_terminal_repository.go:317-336 | so a cancellation, for an active session |
| `SessionLaunch.CompensationIsWritten` | internal/ai/ai_embedded_service.go:192-207 | a compensation that reaches the file leaves the record failed, with an empty key and its workspace |
| `TerminalBuffer.EveryRunIsSafe` | internal/ai/ai_terminal_repository.go:250-265 | in every interleaving of publish, subscribe, receive and unsubscribe: the buffer is the last min(total, limit) bytes of the output; replay, received and queued chunks of a subscriber that lost none are one contiguous segment, reaching the end of the output while it is subscribed; chunks are lost exactly to channels that some publish of the run found full; no channel is closed twice or sent to after its close |
| `TerminalBuffer.LastOfLast` | internal/ai/ai_terminal_repository.go:369-375 | keeping the last bytes step by step keeps the last bytes of everything |
| `TerminalBuffer.RunKeepsInv` | internal/ai/ai_terminal_repository.go:250-395 | every run keeps the invariant of buffer and channels |
| `TerminalBuffer.Managed.PublishOutput` | internal/ai/ai_terminal_repository.go:369-383 | appends and keeps the last bytes up to the limit; a subscriber with fewer than 32 chunks waiting gets the chunk, one with 32 loses it, and nobody else is touched |
| `TerminalBuffer.Managed.AddSubscriber` | internal/ai/ai_terminal_repository.go:250-265 | a new open channel, empty, whose replay is the buffer at that moment; the others are untouched |
| `TerminalBuffer.Managed.RemoveSubscriber` | internal/ai/ai_terminal_repository.go:385-395 | closes the channel only if it is still subscribed |
| `SingleFile.Replace` | internal/ai/durable_file.go:70-111 | the target changes in one rename: new contents if and only if no step failed, old contents otherwise, and nothing else at any step |
| `SingleFile.Restore` | internal/ai/durable_file.go:144-175 | rolls a target back to given contents; reports success exactly when no step failed |
| `SingleFile.RollBack` | internal/filesystem/guardedwrite/write.go:145-150 | restores what was there before, absence included |
| `SingleFile.PublishDurableFile` | internal/ai/durable_file.go:49-129 | for every failure schedule: at each step the target holds exactly the previous or the new generation; published means new, failed means previous; published if and only if no step failed and the old file is within the read limit; an unrestored target takes two failures |
| `SingleFile.SaveIndex` | internal/knowledge/store.go:115-253 | the same for the knowledge index, published if and only if no step failed |
| `SingleFile.ReplaceExisting` | internal/filesystem/guardedwrite/write.go:48-208 | the same for a guarded replacement: it succeeds if and only if no step failed, the sizes are within the limit and the hash is that of the current contents; which refusal each other case gets |
| `SingleFile.ReplaceAll` | internal/filesystem/guardedwrite/write.go:48-208 | any sequence of calls for any files gives a log in which every call found what the last call for its file had left, and which says what every file holds |
| `SingleFile.ReplaceChecked` | internal/filesystem/guardedwrite/write.go:92-174 | its core after the checks: one rename, confirmed or rolled back; published if and only if no step failed |
| `SingleFile.SavesChain` | internal/filesystem/guardedwrite/write.go:59-90 | in such a log successful saves of a file form a hash chain: after a success, another names the hash of what the last write between them left |
| `SingleFile.SecondWriterIsStale` | internal/filesystem/guardedwrite/write.go:88-90 | of two writers starting from one version the second fails, unless the first or a call between them wrote that version back, or one of the same hash |
| `Generation.CopyIfExists` | internal/storage/sync.go:771-792 | a copy, or nothing for a missing source; succeeds exactly when no step failed |
| `Generation.BackUp` | internal/storage/sync.go:672-683 | after success every backup equals its target, absent ones included; at no step is anything but the backups touched |
| `Generation.RestoreTarget` | internal/storage/sync.go:718-769 | a target restored from its backup, or removed when there is none |
| `Generation.RollBack` | internal/storage/sync.go:718-742 | tries every target; those not reported are back to what they were; none is reported unless a step failed |
| `Generation.PublishOne` | internal/storage/sync.go:703-716 | one staged file takes the place of its target, or nothing changes |
| `Generation.RenameAdvances` | internal/storage/sync.go:703-716 | such a step publishes one target more and leaves the rest of the stage waiting |
| `Generation.Publish` | internal/storage/sync.go:703-742 | for every failure schedule: success means every target is its staged file, failure means every target not reported is what it was; at every step each target is its old or its staged contents; succeeds if and only if all is staged and no step failed; nothing but targets and stage is touched |
| `Generation.BackUpAndPublish` | internal/storage/sync.go:672-769 | the same with the backup taken first: at every step from the start each target is its old or its staged contents, and nothing but targets, stage and backups is touched |
| `Generation.DataDirPlanIsWellFormed` | internal/storage/sync.go:672-701 | the eight files of the data directory, their stage and their backups are all different, as those results require |
| `CanvasStore.RunEvolves` | internal/canvas/file_repository.go:70-278 | over every run of initialise, patch, remove and viewport steps the store stays valid, an entity reference never changes, a changed placement's revision strictly grows, nothing disappears and nothing hidden comes back |
| `CanvasStore.SecondWriterConflicts` | internal/canvas/file_repository.go:445-455 | two writers naming the same revision of a placement never both succeed, whatever runs between them |
| `CanvasStore.TargetedRevision` | internal/canvas/file_repository.go:429-487 | an accepted write named the stored revision and leaves a greater one |
| `CanvasStore.StepKeepsValid` | internal/canvas/file_repository.go:70-278 | every operation, accepted or not, leaves a valid store |
| `CanvasStore.PatchKeepsValid` | internal/canvas/file_repository.go:429-487 | an accepted batch keeps the store valid, its limit of 300 placements included |
| `CanvasStore.LayoutKeepsValid` | internal/canvas/file_repository.go:90-103 | so does a new layout with its seed |
| `CanvasStore.HideKeepsValid` | internal/canvas/file_repository.go:231-242 | so does hiding a placement |
| `CanvasStore.ViewportKeepsValid` | internal/canvas/file_repository.go:265-275 | so does saving a viewport |
| `CanvasStore.PatchesEvolve` | internal/canvas/file_repository.go:462-480 | a batch changes existing placements only as allowed |
| `CanvasStore.NewLayoutIsValid` | internal/canvas/repository.go:62-87 | a layout that can be made is valid |
| `CanvasStore.RowsOfPatches` | internal/canvas/file_repository.go:458-480 | a batch writes exactly one row for each patch, made against the store it found |
| `CanvasChanges.BatchIsDone` | internal/canvas/file_repository.go:457-480 | after an accepted batch each patched placement is where its patch says, collapsed as it says; one that was there keeps reference and hiddenness and its revision grows by one, a new one has the patch's reference, is visible and has revision 1; no other placement and no layout changes |
| `CanvasChanges.BatchIsTaken` | internal/canvas/file_repository.go:429-487 | a batch is accepted if and only if it has 1 to 50 patches, for different nodes of a known layout, each within a million of the origin and naming the stored revision (0 and a fitting reference for a new one), and at most 300 placements result |
| `CanvasChanges.RemovalIs` | internal/canvas/file_repository.go:231-242 | a removal is accepted if and only if it names the stored revision, which can still grow; it hides that placement and changes nothing else |
| `CanvasChanges.ViewingIs` | internal/canvas/file_repository.go:265-275 | a viewport is accepted if and only if it is within a million of the origin at a zoom of 0.1 to 2 and names the stored version; it replaces the viewport and changes nothing else |
| `CanvasChanges.CreateIsDone` | internal/canvas/file_repository.go:90-103 | a new layout starts at the origin with version 1 and just its seed; nothing else changes |
| `CanvasChanges.NewLayoutIs` | internal/canvas/repository.go:62-87 | owner, workspace and branch are trimmed, the latter two may not be empty, and the ID is the digest of the three joined by NULs |
| `CanvasChanges.StoredValues` | internal/canvas/repository.go:135-196 | which layouts and placements may be stored, field by field |
| `CanvasSnapshots.Validate` | internal/canvas/repository.go:89-133 | accepts exactly the snapshots with valid, distinct layouts and fitting, distinct, at most 300 placements each |
| `CanvasSnapshots.ValidateLayouts` | internal/canvas/repository.go:98-112 | the layout loop accepts exactly the valid lists and indexes them by ID |
| `CanvasSnapshots.ValidatePlacements` | internal/canvas/repository.go:113-131 | the placement loop, counting as it goes, accepts exactly the valid lists |
| `CanvasSnapshots.SnapshotIsStore` | internal/canvas/repository.go:89-133 | two lists pass the check if and only if they stand for a valid store whose joined keys are as different as its layouts and placements |
| `CanvasSnapshots.LayoutKeysTellApart` | internal/canvas/repository.go:105-109 | with owners and workspace IDs free of NULs, two layouts share a joined key exactly when owner, workspace and branch are the same |
| `CanvasSnapshots.CountIsPlaced` | internal/canvas/file_repository.go:431-437 | counting list entries counts the layout's rows |
| `CanvasBatches.IndexNodes` | internal/canvas/file_repository.go:430-437 | the index finds every placement of the layout and the count is their number |
| `CanvasBatches.CheckBatch` | internal/canvas/file_repository.go:438-455 | passes if and only if the node IDs are distinct and not empty and every expected revision is the stored one |
| `CanvasBatches.PutRow` | internal/canvas/file_repository.go:458-478 | moves the row in place or appends it; refuses exactly an invalid placement or one too many |
| `CanvasBatches.ApplyAll` | internal/canvas/file_repository.go:457-480 | writes the whole batch, or stops at a patch for which no store would accept the batch |
| `CanvasBatches.ApplyPatches` | internal/canvas/file_repository.go:429-487 | check all, then apply all: accepts exactly the acceptable batches, and the list then holds exactly the batch's table |
| `CanvasBatches.BatchAccepted` | internal/canvas/file_repository.go:429-487 | what the two loops check together is acceptability |
| `CanvasBatches.CountBound` | internal/canvas/file_repository.go:468-472 | the running count never exceeds the final one, so stopping early refuses no acceptable batch |
| `CanvasFileRepository.FileRepository.InitializeDefault` | internal/canvas/file_repository.go:70-110 | is the store's initialise step, refused besides when joined keys would meet; creates only when there is no default |
| `CanvasFileRepository.FileRepository.PatchPlacements` | internal/canvas/file_repository.go:183-211 | is the store's patch step, accepted if and only if the store accepts the batch and the joined keys stay apart; an accepted batch does all of its patches, field by field, and nothing else; a rejection leaves the file as it is |
| `CanvasFileRepository.FileRepository.RemovePlacement` | internal/canvas/file_repository.go:216-244 | is the store's remove step: accepted exactly when the stored revision is named, and then just that placement is hidden |
| `CanvasFileRepository.FileRepository.SaveViewport` | internal/canvas/file_repository.go:249-278 | is the store's viewport step: accepted exactly when the viewport may be seen and the stored version is named, and then just the viewport changes |
| `CanvasFileRepository.FileRepository.Save` | internal/canvas/file_repository.go:330-335 | stores exactly the snapshots that validate |
| `CanvasFileRepository.InitialisedSnapshot` | internal/canvas/file_repository.go:90-103 | the enlarged snapshot validates if and only if the store accepts the new layout with its seed and the joined keys are apart, and it then stands for the store's step |
| `CanvasFileRepository.PatchedSnapshot` | internal/canvas/file_repository.go:183-211 | so for the snapshot after a batch |
| `CanvasFileRepository.BatchJoins` | internal/canvas/file_repository.go:183-211 | for a batch this can be seen beforehand: the file accepts it if and only if the store does and the joined keys of the placements there are and of those it names are apart |
| `CanvasFileRepository.HiddenSnapshot` | internal/canvas/file_repository.go:231-242 | hiding leaves a valid snapshot if and only if the revision can still grow |
| `CanvasFileRepository.ViewedSnapshot` | internal/canvas/file_repository.go:265-275 | and so for the version of a layout |
| `CanvasSqlRepository.SqlRepository.PatchPlacements` | internal/storage/sqlite_canvas_repositories.go:229-301 | checking and writing one patch at a time accepts exactly the batches the store accepts and is its patch step; an accepted batch does all of its patches, field by field, and nothing else; a rejection leaves the tables as they were |
| `CanvasSqlRepository.SqlRepository.PatchTable` | internal/storage/sqlite_canvas_repositories.go:241-292 | the loop of the transaction accepts exactly the acceptable batches and writes all of one or none |
| `CanvasSqlRepository.SqlRepository.PatchOne` | internal/storage/sqlite_canvas_repositories.go:251-292 | one pass either extends the written prefix by one patch or proves that no store would accept the batch |
| `CanvasSqlRepository.PatchRefused` | internal/storage/sqlite_canvas_repositories.go:252-276 | each reason for refusing a patch refuses the batch |
| `CanvasSqlRepository.SnapshotOfTwo` | internal/storage/sqlite_canvas_repositories.go:274-276 | validating a placement with its layout as a snapshot is validating the placement |
| `CanvasAgreement.PatchBoth` | internal/storage/sqlite_canvas_repositories.go:229-301 | from the same canvas the tables take exactly the batches the store accepts and the file takes those whose joined keys are apart; unless a batch falls between the two they go on agreeing |
| `CanvasAgreement.NulFreeIdsAgree` | internal/canvas/repository.go:122-126 | with NUL-free layout IDs no batch falls between them |
| `CanvasAgreement.RepositoriesAgree` | internal/canvas/repository.go:62-87 | on every canvas that runs of the operations make, whose layout IDs end in a hexadecimal digest, they agree about every batch |
| `CanvasAgreement.Disagree` | internal/canvas/repository.go:122-126 | a concrete canvas, which passes the file's check, and a batch for it that the tables take and the file refuses |
| `CanvasProjection.NoPlanShownTwice` | internal/canvas/service.go:470-601 | with plan placements under their items' node IDs, no plan is shown by two nodes, whatever mixture of current and orphaned placements there is |
| `CanvasProjection.UnplacedMeaning` | internal/canvas/service.go:585-598 | a plan is offered as unplaced if and only if no placement has its node ID and no visible orphan was re-anchored to it |
| `CanvasProjection.ConnectionsJoinNodes` | internal/canvas/service.go:629-655 | both ends of a connection are projected nodes, they differ, and the target is a session |
| `CanvasProjection.PlacedIs` | internal/canvas/service.go:516-584 | a node ID counts as placed if and only if a placement has it or an orphan led to its plan |
| `CanvasProjection.ProjectionIsTidy` | internal/canvas/service.go:516-584 | a plan node is where its item belongs or was adopted because nothing was there |
| `CanvasProjection.ProjectPlacement` | internal/canvas/service.go:523-584 | the decisions for one placement, in order, give the node or none and mark an adopted plan as placed |
| `CanvasProjection.DerivedConnections` | internal/canvas/service.go:629-655 | exactly the session nodes whose plan is on the canvas are connected, sorted |
| `CanvasProjection.ListUnplaced` | internal/canvas/service.go:585-598 | exactly the entities that are not placed, in order |
| `CanvasProjection.ProjectContext` | internal/canvas/service.go:470-601 | the loops compute the projection about which the above is proved |
| `CanvasView.ProjectionIsTold` | internal/canvas/service.go:470-655 | for any placements: the nodes are, in order, those of the placements that are not hidden, not foreign and not superseded, each with the identity, place, state and entity its placement calls for; the unplaced entities are the workspace, plans and sessions without a place, in order; the connections are those of launched sessions, by ID |
| `CanvasView.NodesAreTold` | internal/canvas/service.go:516-584 | which placements have a node and what it shows: forbidden, a workspace, the plan of its ID or of its path, the session of its ID, or stale |
| `CanvasView.UnplacedIsTold` | internal/canvas/service.go:585-598 | which entities are offered, with their references field by field |
| `CanvasView.ConnectionsAreTold` | internal/canvas/service.go:629-655 | one connection for each readable session node launched from another node's plan |
| `CanvasView.TicketPaths` | internal/canvas/service.go:603-627 | a plan lies at `plans/`, a service and a ticket, none of them blank |
| `CanvasView.PathKeyIs` | internal/canvas/service.go:617-619 | the key of a path is the path without slashes around it, with backslashes as slashes |
| `CanvasIdentity.RunKeepsMatch` | internal/canvas/service.go:216-302 | in every run of operations as the service issues them, a plan placement goes by the node ID of its item, although patches are made canonical before other writers act |
| `CanvasIdentity.PatchesKeepMatch` | internal/canvas/service.go:238-302 | a batch made canonical against an earlier state inserts nothing that does not match |
| `CanvasIdentity.ProjectionAfterRun` | internal/canvas/service.go:126-205 | after any such run no plan is shown twice on any canvas |
| `CanvasIdentity.CanonicalizeNewPlacementPatches` | internal/canvas/service.go:238-302 | whatever the branch answers to each question: refuses exactly when some new placement gets no answer; otherwise every new placement gets the workspace, or the first ticket or session that it names, as its reference, and others are untouched |
| `CanvasIdentity.CanonicalizedIsCanonical` | internal/canvas/service.go:243-300 | its result is canonical for the state it was made against |
| `CanvasIdentity.ResolvedMatches` | internal/canvas/service.go:258-297 | a resolved reference goes with the patch's node ID |
| `CanvasIdentity.InitialPlacements` | internal/canvas/service.go:397-434 | the workspace at the origin, then plans and sessions in rows of three at fixed distances, up to 300, each with its reference field by field |
| `CanvasIdentity.ResolveMeans` | internal/canvas/service.go:258-297 | a new placement resolves to a reference if and only if the answer holds what its node ID and reference name, and then to the first such |
| `VerificationRetention.PruningBounds` | internal/verification/verification_service.go:883-914 | at most max(limit, workspaces with a finished job) finished jobs stay |
| `VerificationRetention.OldestGoFirst` | internal/verification/verification_service.go:897-914 | a kept job that finished, at a real time, before a removed one is its workspace's latest |
| `VerificationRetention.PruneTerminalJobs` | internal/verification/verification_service.go:883-914 | keeps every queued and running job and a latest one of each workspace; keeps another finished job only within the retention and the limit; removes one only if it is older than the retention or there were more than the limit |
| `VerificationRetention.CollectTerminals` | internal/verification/verification_service.go:891-903 | finds every finished job and, for each workspace, one that finished last, in any map order |
| `VerificationRetention.DropJobs` | internal/verification/verification_service.go:905-914 | the loop's reasons hold for every job it has met, whatever the order of ties |
| `VerificationRetention.OnePass` | internal/verification/verification_service.go:906-913 | one pass keeps those reasons true for the jobs met before |
| `VerificationRetention.DroppedIsPruned` | internal/verification/verification_service.go:883-914 | the loop's end state is an allowed pruning |
| `VerificationRetention.SortByFinish` | internal/verification/verification_service.go:904 | the same jobs by finish time |
| `VerificationRetention.PruningIsFair` | internal/verification/verification_service.go:883-914 | that fate of each job, in terms of finish times and numbers |
| `VerificationRetention.PruningKeepsLatest` | internal/verification/verification_service.go:891-903 | for each workspace with finished jobs exactly one is kept as its latest, and none of them finished later |
| `VerificationJobs.EveryRunIsSafe` | internal/verification/verification_service.go:267-278 | in every interleaving: queued and running jobs never exceed the taken slots nor those the capacity; a run that started the runtime called `Down` exactly once, last; a finished job passed, with exit code 0, if and only if prepare, up, health and verify succeeded; otherwise it says test and 20 if verify failed, boot and 10 if up or health did, and infra and 30 if nothing but a failing prepare was called |
| `VerificationJobs.EndedRunIsClean` | internal/verification/verification_service.go:370-457 | no run ends having called `Up` without its one `Down` |
| `VerificationJobs.FinishedJobTellsTheTruth` | internal/verification/verification_service.go:370-457 | status, failure type and exit code of every finished job are those its calls require: none and 0, test and 20, boot and 10, or infra and 30; and the finish time is set |
| `VerificationJobs.SlotsBoundJobs` | internal/verification/verification_service.go:267-278 | active jobs are bounded by the slot tokens, and these by the capacity |
| `VerificationJobs.PruningInARun` | internal/verification/verification_service.go:883-914 | in a run the bound and the order of pruning hold outright, since finished jobs have a finish time |
| `VerificationJobs.RunKeepsInv` | internal/verification/verification_service.go:221-457 | every run keeps the invariant of jobs, runs and slots |
| `VerificationJobs.Service.Start` | internal/verification/verification_service.go:267-278 | succeeds exactly when a slot is free, and then adds a queued job; otherwise changes nothing |
| `VerificationJobs.Service.RunStep` | internal/verification/verification_service.go:668-680 | records the call and its result, and goes on to the next call, to the failure (infra for prepare) or to the cleaning up (boot for up and health, test for verify); `Down` ends the run as passed |
| `VerificationJobs.Service.FailJob` | internal/verification/verification_service.go:841-853 | records failure type, its exit code of 30, 10 or 20, and a failure step |
| `VerificationJobs.Service.FinishJob` | internal/verification/verification_service.go:382-389 | sets the final status and the finish time |
| `VerificationJobs.Service.PruneJobs` | internal/verification/verification_service.go:883-914 | is an allowed pruning step |
| `VerificationJobs.Service.RunJob` | internal/verification/verification_service.go:370-457 | a whole run ends, has cleaned up, and its job is finished with the status, failure type and exit code that its calls require |
| `TopKSearch.Search` | internal/search/search_service.go:34-94 | for any number of items and any ties: at most 20 results if no number is asked for, and never more than 100; each says its item, title or else identifier, and score; higher scores come first, then titles whatever their case, then the order of the items; an item that scores is missing only if as many results as asked for all rank before it; queries over 200 characters are refused |
| `TopKSearch.Consider` | internal/search/search_service.go:46-62 | one candidate more keeps the bounded list the front of the whole sort |
| `TopKSearch.BetterIsAnOrder` | internal/search/search_service.go:96-101 | the order of results, score and then folded title, is a strict weak one |
| `TopKSearch.SearchFinds` | internal/search/search_service.go:34-94 | the front of the sorted candidates is just that |
| `Sorting.SortIsStable` | internal/search/search_service.go:96-101 | the sort orders by any strict weak order and keeps ties as they were |
| `Sorting.SortIsUnique` | internal/search/search_service.go:96-101 | and is the only such list, whatever algorithm finds it |
| `Sorting.CutBeforeInsert` | internal/search/search_service.go:57-60 | what is cut off a sorted list never comes back, whatever is inserted later |
| `Sorting.SortOrigins` | internal/search/search_service.go:96-101 | every element moves to one place, and ties keep the order of their places |
| `Strings.StringLessMeans` | internal/search/search_service.go:96-101 | strings are ordered as in a dictionary: the first character that differs decides, and a prefix comes first |
| `Strings.TrimMeans` | internal/search/search_service.go:35 | trimming takes away the white space on both sides and nothing else |
| `Relationships.BacklinksAreLinks` | internal/knowledge/relationships.go:32-49 | a page is in another's backlinks if and only if one of its links resolves there; backlinks are sorted and unique |
| `Relationships.ArcsAreExactlyLinks` | internal/knowledge/relationships.go:32-46 | the link loop visits exactly the pairs of pages a link joins |
| `Relationships.EdgesAreComplete` | internal/knowledge/relationships.go:43-44 | the edge map holds every edge if and only if no two edges share a joined key |
| `Relationships.NulFreeSlugsTellApart` | internal/knowledge/relationships.go:43-44 | slugs without NUL characters are enough for that |
| `Relationships.GraphDegrees` | internal/knowledge/relationships.go:78-104 | inbound and outbound degrees each add up to the number of edges |
| `Relationships.ResolvingIsIdempotent` | internal/knowledge/relationships.go:10-63 | resolving the result again gives the same pages, edges and graph, on which serving the stored pages relies |
| `Relationships.FirstsAreDistinct` | internal/knowledge/relationships.go:13-25 | one page remains for each slug, and every slug keeps one |
| `Relationships.UniqueStringsAre` | internal/knowledge/parser.go:175-187 | the same strings, once each, increasing |
| `PageLinks.LinkLeads` | internal/knowledge/relationships.go:65-76 | for distinct slugs: a link whose raw target is a slug leads to that page, even if it ends in `.md`; any other that ends in `.md`, in any case, to the last page at the path it names from its source; and the rest nowhere |
| `PageLinks.PagesAreDone` | internal/knowledge/relationships.go:32-49 | resolution marks exactly the links that lead somewhere, with the slug of the page; a page's backlinks are exactly the slugs of the pages with a link to it, strictly increasing; nothing else changes |
| `PageLinks.CanonicalIs` | internal/knowledge/relationships.go:10-25 | of each slug the page of the least path stays, of equal paths the first; pages are in path order without backlinks |
| `PageLinks.GraphIsDone` | internal/knowledge/relationships.go:51-104 | one node for each page, counting the edges that end and start there, by domain, title and slug; every edge stands for a link, and edges are strictly increasing by source and target |
| `WikiGraph.ResolveRelationships` | internal/knowledge/relationships.go:10-63 | the loops keep one page for each slug, mark exactly the links that lead somewhere, list exactly the pages that link to each page, and give the sorted edges and their graph |
| `WikiGraph.FollowLink` | internal/knowledge/relationships.go:34-45 | a link that leads nowhere changes nothing; one that leads to a page is marked with its slug, that page gets one backlink and the edge is recorded, and nothing else changes |
| `WikiGraph.CollectEdges` | internal/knowledge/relationships.go:51-60 | the values of the edge map in strictly increasing order, whatever the map's order |
| `WikiGraph.BuildGraph` | internal/knowledge/relationships.go:78-104 | one node for each slug with the degrees the edges give |
| `WikiGraph.WholeGraphIsClosed` | internal/knowledge/relationships.go:78-104 | every edge joins two nodes and the degrees add up, so cutting leaves a closed graph |
| `WikiGraph.GraphContext` | internal/knowledge/knowledge_service.go:593-624 | what is served is the graph of the stored pages: whole, or its first 2000 nodes and the first 10000 edges between them, marked |
| `WikiGraph.ServedIsClosed` | internal/knowledge/knowledge_service.go:600-623 | a served graph is within both limits and closed, keeps true totals, says when it was cut, and lacks an edge between its nodes only when full |
| `WikiGraph.ServedIsDone` | internal/knowledge/knowledge_service.go:593-624 | which nodes and edges a cut graph keeps, in order, and when it is marked |
| `WikiEdges.GraphIsComplete` | internal/knowledge/relationships.go:10-63 | for any pages: the graph has an edge for every link that resolves if and only if links between different pages have different joined keys |
| `WikiEdges.GraphMeaning` | internal/knowledge/relationships.go:10-63 | then a link of p resolves to q, p is a backlink of q and there is an edge from p to q: all three or none |
| `WikiEdges.NulFreeSlugsAreToldApart` | internal/knowledge/relationships.go:43-44 | slugs without NUL characters are enough for that |
| `WikiEdges.WikiLacksAnEdge` | internal/knowledge/relationships.go:32-63 | a concrete wiki of four pages in which two links resolve and are backlinks, and the graph has one edge |
| `NaturalOrder.NaturalLessIsAWeakOrder` | internal/filesystem/content/fileaccess.go:181-197 | irreflexive, transitive and with transitive ties on all names, saturated numbers included |
| `NaturalOrder.NaturalTies` | internal/filesystem/content/fileaccess.go:181-197 | two names tie exactly when their parts agree: case, leading zeros and oversized numbers aside |
| `NaturalOrder.PartsAreWellFormed` | internal/filesystem/content/fileaccess.go:205-222 | parts alternate between digits and other text, and none is empty |
| `NaturalOrder.PartOrder` | internal/filesystem/content/fileaccess.go:186-193 | single parts are ordered so that a text lies before or after all numbers alike |
| `NaturalOrder.NaturalParts` | internal/filesystem/content/fileaccess.go:205-222 | the scanning loops compute those parts |
| `NaturalOrder.NaturalLessThan` | internal/filesystem/content/fileaccess.go:181-197 | the comparing loop computes that order |
| `NaturalNames.NaturalLessMeans` | internal/filesystem/content/fileaccess.go:181-222 | the first runs of two names decide, numbers by value and anything else by its lower-case characters, and where they tie what follows them does |
| `NaturalNames.NumbersCompare` | internal/filesystem/content/fileaccess.go:186-190 | of two runs of digits the one with fewer significant digits, or as many and the lower first difference, is the lower number; numbers from 9223372036854775807 on are alike |
| `NaturalNames.NumeralOfDecimal` | internal/filesystem/content/fileaccess.go:205-222 | reading a number in decimal notation gives the number |
| `NaturalNames.EmptyIsFirst` | internal/filesystem/content/fileaccess.go:196 | an empty name comes before all others |
| `FileTree.BuildTree` | internal/filesystem/content/fileaccess.go:137-179 | an unmarked folder lists every entry in order; every node is paid for by the budget; a listing is short only when the budget is spent; nothing is marked while budget and depth last; fails only on an unreadable folder |
| `FileTree.Tree` | internal/filesystem/content/fileaccess.go:35-42 | at most 10000 nodes at no more than 64 levels below the first, all 10000 when the listing is short, and nothing marked while both last |
| `FileTree.SortedInOrder` | internal/filesystem/content/fileaccess.go:146-151 | no file before a folder, names in natural order among each, and every entry as often as before |
| `GitParsers.StatusRoundTrip` | internal/git/git_repository.go:320-357 | for all NUL-free non-empty paths and valid codes, reading a printed status gives its changes in order with both paths of a move, and status, staging and conflict as the letters say |
| `GitParsers.ActivityRoundTrip` | internal/git/git_repository.go:429-475 | for all 40-character hashes, NUL-free fields and at most `limit` commits, reading a printed log gives commits, times, authors, messages and paths in order, with the status the code's letter says, whatever empty records lie between |
| `GitParsers.SplitTerminated` | internal/git/git_repository.go:327 | splitting at NULs undoes terminating with them |
| `GitParsers.ReadStatus` | internal/git/git_repository.go:320-357 | the record loop computes the changes and both flags |
| `GitParsers.ReadActivity` | internal/git/git_repository.go:429-475 | the loop computes that reading, errors included |
| `GitParsers.ChangeMeans` | internal/git/git_repository.go:1022-1046 | the meaning of the two codes, letter by letter |
| `GitParsers.StatusMeans` | internal/git/git_repository.go:1003-1020 | the first letter of a code decides: added, deleted, renamed, copied, and modified for anything else |
| `GitParsers.LastMove` | internal/git/git_repository.go:334-338 | a move that ends the output is a change without a first path |
| `GitParsers.BrokenIsMalformed` | internal/git/git_repository.go:429-475 | after any printed commits, a bad date, a path before any commit, a missing path or a move without its second path makes the log malformed |
| `ShellQuoting.WriteWrapper` | internal/ai/ai_launch_service.go:518-536 | the text of the script; a shell reading it from its first line to its end finds, after the script's own four lines, exactly the executable and the arguments, then the saving of the exit code, the verification callback if there is one, and the exit with that code |
| `ShellQuoting.ScriptIsRead` | internal/ai/ai_launch_service.go:518-536 | every line of the script is read as the tokens meant, whatever workspace, executable, arguments, callback body and address contain |
| `ShellQuoting.CommandLineIsReadBack` | internal/ai/ai_launch_service.go:523-528 | read by the POSIX quoting and token rules, the emitted line has one token for the executable and one for each argument, in order: a quoted word with exactly its text that is not expanded, for all strings |
| `ShellQuoting.CallbackIsRead` | internal/ai/ai_launch_service.go:553 | the callback line is read as its fixed words, redirections and operators, with the body and the address as two quoted words, for all strings |
| `ShellQuoting.FinishIsRead` | internal/ai/ai_launch_service.go:530-535 | after the command come the callback, if any, and the exit, and nothing else |
| `ShellQuoting.WorkspaceIsReadBack` | internal/ai/ai_launch_service.go:523 | the first command enters the workspace, whatever its name, or leaves the script |
| `ShellQuoting.ReadReplaced` | internal/ai/ai_launch_service.go:722 | inside quotes the replaced text is read back as the value |
| `CanonicalRoots.CanonicalRoots` | internal/search/content_search_service.go:138-196 | returns the reduced roots of the inputs, or the first refusal |
| `CanonicalRoots.FilterInPlace` | internal/search/content_search_service.go:175-185 | writing over the slice being read keeps exactly the roots not below the candidate |
| `CanonicalRoots.ReduceIsAntichain` | internal/search/content_search_service.go:174-189 | no root lies below another, for any order and overlap of inputs |
| `CanonicalRoots.ReduceCovers` | internal/search/content_search_service.go:174-189 | the roots cover exactly the union of the inputs' subtrees |
| `CanonicalRoots.ReduceChooses` | internal/search/content_search_service.go:174-189 | every root is one of the inputs |
| `CanonicalRoots.CandidatesFit` | internal/search/content_search_service.go:167-173 | every accepted input lies in the workspace |
| `RootSelection.RootsAreTold` | internal/search/content_search_service.go:138-196 | for every list of inputs: the paths, in order, of the taken inputs whose directory lies below no other taken one, the first of those with the same directory; or the error of the first input that is refused |
| `RootSelection.JudgeMeans` | internal/search/content_search_service.go:145-173 | which inputs are taken, skipped and refused, and with which error |
| `RootSelection.ReduceChoosesOut` | internal/search/content_search_service.go:174-189 | the reduction keeps exactly the candidates that no other one holds |
| `RootSelection.UnderMeans` | internal/search/content_search_service.go:171 | below a root is the root itself, or the root, a slash and more |
| `MutationLock.EveryRunExcludes` | internal/git/git_repository.go:693-713 | in every interleaving at most one action runs, and whoever holds a token can put it in at once |
| `MutationLock.RunKeepsToken` | internal/git/git_repository.go:701-713 | there is exactly one token: in the channel, with its creator or with the action |
| `MutationLock.SomeoneCanMove` | internal/git/git_repository.go:706-711 | a waiting action can go, or another can return the token |
| `MutationLock.Lock.Select` | internal/git/git_repository.go:706-710 | with the context done and a token there either branch is taken; without cancellation the action goes, alone and with the token gone |
| `MutationLock.Lock.GiveBack` | internal/git/git_repository.go:711 | the token goes back when the action ends |

## Left out

- HTTP controllers, the user interface, provider and Jira clients, the database engine, processes, terminals and the YAML and JSON codecs: input and output.
- Jira generations: the 64-bit counter's wrap-around; the model counts without bound.
- Jira flights: what readers that join an unfinished fetch are told, since invalidation does not reach them; the results are about what is stored. Flight objects are indices in a list, and the end of a forced refresh is the same step as the end of a flight.
- Session records: the fields besides ID, workspace, key and state; `ReplaceAll`; the reconciliation at start-up, which takes no lock and runs before any launch.
- Session records leaving "exited" or "cancelled": the code allows it, so only compensated records are claimed to be final.
- Terminal sessions: the timer that ends a session nobody watches, and a second call of one unsubscribe function.
- Canvas file storage: its `save` renames the target away first, so it is modelled as one step that happens or does not; upgrading old snapshot versions.
- Canvas timestamps, and the SQL versions of initialise, remove and viewport: initialise checks its arguments in another order than the file does, and viewport reads and writes outside one transaction.
- Canvas projection: what a node displays beyond its entity, and the actions it allows. Among connections with one ID the code's order is open; the model keeps them as they came.
- Guarded writes: writers outside the process. The hash is any function, so what is proved of contents is proved up to collisions.
- Data directory: the knowledge index, which is backed up but not among the eight published files; the database direction.
- Verification: artifacts, logs, fingerprints, step durations, and the cancelling of a run's context, which only makes its calls fail. Durations do not saturate.
- Search: how an item's score is computed from its fields; the order of results does not depend on it. Cancellation of a search.
- Wiki pages: warnings, and the fields of a page that only travel along. The code resolves links in slices it shares with its caller; the model returns new ones.
- Natural order: names are characters rather than bytes, which compare alike; case folding is a parameter that keeps digits apart from other characters.
- File tree: node IDs and paths; a folder changing while it is read.
- Git: the branch header line, times beyond whether they parse, and byte encodings.
- Shell: what an expansion yields; the reader only notes that a word will be expanded, and gives up at nested commands and braced parameters. Here-documents, of which the lines read have none; how the callback's body and address are made, which are parameters, and what the shell's grammar makes of the tokens.
- Content search roots: cleaning a path and following links are parameters.
