# Task-coordination core: model and proofs

terminal-todo keeps one store per project (tasks, an append-only event log, acquisition receipts and
two ID counters) in one file that any number of agents and people read and rewrite at once. This
project models that core and proves what its users rely on.

How it is laid out:

- `StoreModel`, `TaskReference`, `Decimal`, `Readiness`, `Transitions` hold the values and, branch by
  branch, what each operation does to the value of a store, refusals included.
- `TaskStore`, `CoordinationOps`, `UpdateOps`, `RemovalOps`, `Unblocking`, `Acquisition` perform the
  operations the way the program does, on one `TaskStore` object whose fields are overwritten in
  loops, and are proved to do exactly what their transition says. `DependencyGraph`, `Allocation`,
  `Diagnosis`, `EventPager`, `Doctor`, `Progress`, `Lineage` and `OperationMatching` do the same for
  the searches, walks, sorts and counts. Iteration over a Go map is a choice of any remaining key.
- `Invariant`, `Soundness`, `StepEffects` and `Runs` prove the store invariant over every run of
  operations by any actors, and the run properties: exclusive leases, final completion, idempotent
  acquisition, earned completions, a gap-free log. `ReceiptSurvival` says how long a receipt lives.
- `Refusals` and `FieldEffects` read the operations the other way round: for each error what leads to it,
  for each field of a task what becomes of it, over all operations, in terms of what is stored and asked.
- `Transactions`, `FileProtocol` and `SharedRuns` model the file itself: processes that lock, load,
  sweep, mutate, write a temporary file and rename it, interleaved in any order and crashing anywhere.
- `RefusedUpdates`, `Batches` and `RefusedBatches` say exactly what is left and what is written when an
  update, or a batch of completions or releases, is refused.
- `Lifecycle`, `DependencyEdits`, `Pruning`, `EventFollowing` and `Drain` prove what several operations
  achieve together.

Time is a parameter (milliseconds, at least 1, one reading per transaction), the resolver of references
to other repositories is any function of the reference, and a missing resolver is the one that answers
no. What the callers check before a transaction (a non-empty actor for claim and acquire, a priority
between 0 and 1 for add) is the predicate `Admitted`; an operation that is not admitted changes nothing,
though the transaction around it still commits what it swept. Where a method requires every task to be
stored under its own ID, the code relies on it too (it looks tasks up by the ID they carry), and every
run keeps it.

Three places where the code does not do what one might expect, each stated as a lemma:

- Three transactions are not all-or-nothing. An update edits as it goes: when its context no longer fits
  it is refused after its edges, title, priority and capabilities were set, and when the same transaction
  swept a lease those are written (`RefusedUpdateIsCommitted`; exactly when a refusal is traceless:
  `RefusedUpdateTracelessIff` and `RefusedUpdateCommitsIff`). `todo done` and `todo release` with several
  IDs keep what was done before the refused one in the same way (`RefusedDoneCommits` and
  `RefusedReleaseCommits`). For a release it takes only one expired lease among the IDs, which is both
  swept and refused (`RefusedReleaseIsCommitted`). The operations named by `ChecksFirst` are
  all-or-nothing (`AllOrExactlyTheSweep`).
- Compacting with a receipt window longer than the clock has run drops the receipts inside the window,
  because the cutoff wraps around (`FinishedReceiptDroppedIff`).
- The status counts of a progress report add up to its total exactly when every status is one of the
  four named ones (`ProgressAddsUp`, `CountsPartition`); the invariant guarantees that they are.

## Model

| member | source | states |
|---|---|---|
| Runs.RunsFromEmptyAreGood | internal/cli/cmd_doctor.go:159-224 | whatever sequence of admitted steps is applied to a new store, the full store invariant holds afterwards, every receipt names an existing task and the event log has no gap |
| Doctor.StoreInvariantProblems | internal/cli/cmd_doctor.go:159-224 | there is a report exactly when no entry of the task map is nil; it is empty exactly when the store invariant holds, every problem listed is a real violation and every violation is listed (of a cyclic graph, one real cycle) |
| Doctor.CheckTasks | internal/cli/cmd_doctor.go:163-208 | the per-entry problems are exactly the nil entries and the violations of single tasks, and the maximum ID is the maximum |
| StepEffects.EveryStepEffect | internal/cli/coordination_ops.go:35-272 | any admitted step on any sound store: IDs are never reused, completion is final and comes only with all local prerequisites completed before, a live lease of someone else is untouched, finished prerequisites stay finished, receipts are kept or dropped but never changed, the log only grows at the end and shrinks at the front |
| StepEffects.EveryStepSound | internal/cli/cmd_doctor.go:159-224 | every admitted step, successful or refused, keeps the store invariant |
| Soundness.ClaimSound | internal/cli/coordination_ops.go:35-63 | claiming keeps the invariant (owner and lease exactly while in progress) |
| Soundness.DecomposeSound | internal/cli/coordination_ops.go:205-272 | decomposing keeps the invariant: fresh children close no cycle and leave no dangling edge |
| Soundness.UpdateSound | internal/cli/coordination_ops.go:380-431 | an update keeps the invariant even when it is refused half way |
| Soundness.AddSound | internal/cli/cmd_add.go:71-99 | adding a task keeps the invariant: references are canonical, exist, and cannot form a cycle |
| Soundness.PruneSound | internal/cli/coordination_ops.go:538-573 | pruning keeps the invariant |
| Soundness.RemoveSound | internal/cli/cmd_rm.go:17-45 | removal keeps the invariant: nothing left behind depends on what went |
| Soundness.SweepSound | store/store.go:281-304 | the lease sweep keeps the invariant |
| Runs.LiveLeaseIsExclusive | internal/cli/coordination_errors.go:92-145 | over any run before the lease expires, in which the owner takes no step on the task, the task keeps its owner, status and lease and is not removed |
| Runs.CompletedIsFinal | internal/cli/coordination_ops.go:69-97 | a completed task stays completed, with the same completion time, until it is removed |
| Runs.CompletionIsEarned | internal/cli/coordination_ops.go:69-97 | a task found completed at the end of a run was so at its start, or some step of the run completed it from a store in which all its local prerequisites were completed |
| Runs.PrereqsDoneStayDone | internal/cli/cmd_rm.go:30-40 | once all local prerequisites of a task are complete they stay so over any run that does not edit that task's dependencies, removals and prunes of other tasks included |
| Runs.AcquireReplays | internal/cli/allocation.go:313-321 | after any later run on which the receipt survives, the same request and fingerprint returns the task field for field as granted and changes nothing; another fingerprint is a conflict and changes nothing |
| ReceiptSurvival.ReceiptGoneIff | store/store.go:252-264 | a receipt is gone after a step exactly when the step removes or prunes its task, or compacts past it while its task is complete |
| ReceiptSurvival.ReceiptSurvivesRun | internal/cli/cmd_compact.go:91-104 | a receipt survives every run that leaves its task in place, unless the task is finished and a compaction reaches past the receipt |
| ReceiptSurvival.AcquireReplaysOnLiveTask | internal/cli/allocation.go:313-321 | so an acquisition replays after any run that leaves its task there and unfinished, or there with no compaction past the receipt |
| Runs.ReceiptNamesItsTask | store/store.go:252-264 | every stored receipt names an existing task, and once that task is removed its ID never names a task again |
| Runs.RemovedStaysRemoved | store/store.go:179-194 | an ID that was issued and is gone is never issued again |
| FileProtocol.FileIsTheCommittedHistory | store/store.go:384-482 | for every interleaving of processes and every crash, the file is never half-written and holds exactly the committed transactions applied in rename order, each a sweep, its operations up to the first refused one and the write stamp; that is a store with the invariant, and whoever holds the write lock is alone |
| FileProtocol.CommitsApplyToTheLatest | store/store.go:340-369 | what a process renames into place is its transaction applied to everything committed before, so no update is lost; this includes a `LoadCurrent` that decided on a stale unlocked snapshot |
| FileProtocol.ReturnedStoresWereCommitted | store/store.go:324-369 | every store a process returns is one that was committed after the process began; an update's has its own transaction last, and its operations succeeded; a load's has no lease expired at its first or its second reading of the clock |
| FileProtocol.UndisturbedUpdateCommits | store/store.go:384-415 | an update of any number of operations, alone with the lock free, runs to its commit, and returns what it wrote if they succeeded and the error otherwise |
| FileProtocol.UndisturbedRefusalLeavesFile | store/store.go:402-409 | an update alone with the lock free that is refused with nothing to sweep ends refused, with the file, the history and the locks as they were |
| FileProtocol.UndisturbedLoadReturns | store/store.go:324-369 | a load alone with the lock free always ends with a store and without a lock: the file's own without a write if no lease has run out, otherwise the swept and stamped store, which is committed under the write lock if a lease has still run out then |
| FileProtocol.StoppedBeforeCommit | store/store.go:417-482 | a process that dies or fails before its rename leaves file and history alone and holds no lock any more |
| FileProtocol.HistoryIsARun | store/store.go:384-415 | a committed history is a run of sweeps, of each transaction's operations up to its first refused one, and of write stamps, so what is proved of runs holds of the file |
| FileProtocol.EffectIsTheTransaction | store/store.go:397-414 | a committed update has the effect of the sequential transaction of its operations, and one that commits nothing leaves the file as it was |
| FileProtocol.OneStepTransaction | store/store.go:384-415 | with one operation that transaction is the one the all-or-nothing results speak of |
| FileProtocol.DoneIsAJob | internal/cli/cmd_done.go:20-30 | the transaction of `todo done` on any IDs is that of its completions as operations, so it is among the jobs |
| FileProtocol.ReleaseIsAJob | internal/cli/cmd_release.go:24-33 | and so is that of `todo release` |
| SharedRuns.LeaseHoldsInTheFile | store/store.go:384-415 | a live lease stored in the file stays exclusive against all concurrent processes until it expires |
| Transactions.AllOrExactlyTheSweep | store/store.go:384-415 | a transaction around claim, complete, release, block, unblock, log, decompose, renew, handoff, acquire, add or removal commits its whole effect, or exactly the lease sweep, or nothing |
| RefusedUpdates.UpdateRefusedWhen | internal/cli/coordination_ops.go:380-422 | an update is refused exactly when it is stopped at once (no task, another owner, edges not acceptable), its title is empty, its priority is out of range, or its context does not fit |
| RefusedUpdates.RefusedUpdateTracelessIff | internal/cli/coordination_ops.go:389-422 | a refused update leaves the store as it was exactly when it was stopped at once, or its edges and every field edit before the refused one set what was already there |
| RefusedUpdates.RefusedUpdateCommitsIff | store/store.go:402-409 | its transaction leaves the file alone or commits exactly the sweep precisely when nothing had expired or the refusal is traceless on the swept store |
| RefusedUpdates.RefusedUpdateIsCommitted | internal/cli/coordination_ops.go:395-422 | a request that passes every check made before the transaction and is refused for its context, whose new title is written because a lease was swept |
| RefusedBatches.RefusedBatchCommits | store/store.go:402-409 | a refused batch leaves the file alone if nothing had expired, otherwise writes the swept store after exactly the operations before item `n`, which fails there with the error returned; so it commits no more than the sweep exactly when nothing had expired or the first item is refused |
| RefusedBatches.RefusedDoneCommits | internal/cli/cmd_done.go:20-30 | the same of `todo done`: the IDs before the refused one are completed in what is written, and no other task changes |
| RefusedBatches.RefusedReleaseCommits | internal/cli/cmd_release.go:24-33 | the same of `todo release` |
| RefusedBatches.RefusedReleaseIsCommitted | internal/cli/cmd_release.go:24-33 | releasing a live lease together with an expired one is refused for the expired one, and the release of the live one is written |
| Transactions.SweepIdempotent | store/store.go:281-304 | after a sweep nothing is expired, and a second sweep does nothing |
| Transactions.SweepLogsEachOnce | store/store.go:281-304 | the sweep appends exactly one event per expired lease, naming its former owner, in ID order |
| StepEffects.SweepTasks | store/store.go:281-304 | the sweep puts exactly the tasks with an expired lease back to pending and touches no other |
| DependencyGraph.DAG.DetectCycle | dag/dag.go:77-125 | terminates on every graph, reports an error exactly when the graph with the proposed edges has a directed cycle, and the reported path ends in a real one |
| DependencyGraph.CycleSearch.Visit | dag/dag.go:94-116 | the recursive search: without an error every node it reached is left in an order in which all its successors were left before it |
| DependencyGraph.DAG.BuildFromTasks | dag/dag.go:49-59 | the graph holds exactly the edges the dependency lists denote, whatever order the tasks are visited in |
| DependencyGraph.DAG.AddEdge | dag/dag.go:45-47 | one edge is added and none lost |
| TaskReference.CanonicalRoundTrip | internal/cli/coordination_ops.go:626-635 | the canonical form exists exactly for references that denote something, denotes the same task, is idempotent and parses back through both parsers |
| TaskReference.CanonicalIffSameTask | internal/cli/coordination_ops.go:616-635 | two accepted references have one canonical form exactly when they denote the same alias and ID |
| TaskReference.ParseTaskURIAccepts | dag/dag.go:19-37 | a URI is accepted exactly when it is the scheme, a legal alias and digits for an ID above 0 and below 2^64 |
| TaskReference.LocalParsersAgree | dag/dag.go:62-75 | the local parser and the URI parser agree on which URIs are local and on their IDs |
| Decimal.ParseFormatRoundTrip | dag/dag.go:29-36 | printing an ID and parsing it gives it back exactly for IDs below 2^64 |
| CoordinationOps.ClaimTask | internal/cli/coordination_ops.go:35-63 | exactly the transition `Claim`, guards in order, refusals included |
| CoordinationOps.CompleteTask | internal/cli/coordination_ops.go:69-97 | exactly the transition `Complete`, whose grant and result are stated in fields by `CompleteGrantedIff` and `LifecycleLeaves` |
| CoordinationOps.ReleaseTask | internal/cli/coordination_ops.go:105-131 | exactly the transition `Release`, with its 32-bit retry count |
| CoordinationOps.BlockTask | internal/cli/coordination_ops.go:137-156 | exactly the transition `Block` |
| CoordinationOps.UnblockTask | internal/cli/coordination_ops.go:164-180 | exactly the transition `Unblock` |
| CoordinationOps.LogTask | internal/cli/coordination_ops.go:185-196 | exactly the transition `Note` |
| CoordinationOps.RenewLease | internal/cli/lease.go:17-38 | exactly the transition `Renew` |
| CoordinationOps.HandoffTask | internal/cli/handoff.go:13-41 | exactly the transition `Handoff` |
| CoordinationOps.ProjectedExtraCount | internal/cli/input_limits.go:157-165 | the count is the size the merged map will have |
| CoordinationOps.AddTask | internal/cli/cmd_add.go:71-99 | exactly the transition `Add`: the first bad reference is reported, local references are stored canonically |
| CoordinationOps.DecomposeTask | internal/cli/coordination_ops.go:205-272 | exactly the transition `Decompose`; the children get consecutive new IDs and a refusal leaves no child behind; a parent that its children would overwrite is refused as a cycle |
| Refusals.LifecycleRefusedIff | internal/cli/coordination_errors.go:79-145 | for each of the eight lifecycle operations and each error, the exact condition on status, owner, lease, prerequisites and request under which it is refused with that error, and then it changes nothing |
| Refusals.ClaimGrantedIff | internal/cli/coordination_ops.go:35-63 | a claim is granted exactly for a task that is neither completed nor blocked, whose local prerequisites are all completed and whose remote ones are all answered yes, and that is unowned, the actor's own or past its lease |
| Refusals.CompleteGrantedIff | internal/cli/coordination_ops.go:69-97 | a completion is granted exactly for an uncompleted task whose local prerequisites are all completed and whose remote ones are all answered yes, and that is unowned or the actor's own |
| Refusals.AddRefusedIff | internal/cli/cmd_add.go:71-99 | adding is refused exactly for a reference that denotes nothing or a missing local task, the first one deciding the error; the cycle check never fires on a sound store |
| Refusals.DecomposeRefusedIff | internal/cli/coordination_ops.go:211-249 | decomposing is refused exactly for a missing, completed or foreign task or one that would get more than 128 dependencies; the cycle check never fires on a sound store |
| Refusals.RemoveRefusedIff | internal/cli/cmd_rm.go:17-45 | removal is granted exactly when every ID names a task nobody works on and no remaining task depends on one that goes; the first bad ID decides the error, then the dependents |
| Refusals.AcquireRefusedIff | internal/cli/allocation.go:313-335 | an acquisition is refused exactly for a request ID used for something else, else for a worker with its load exhausted, else when no pending task has its prerequisites met and asks only for what the worker provides |
| FieldEffects.LifecycleLeaves | internal/cli/coordination_ops.go:35-196 | what each granted lifecycle operation leaves in each field of its task (status, owner, lease, completion time, reason, retries, last error, context, log), the events it appends, and that no other task, field, receipt or counter changes |
| FieldEffects.AddLeaves | internal/cli/cmd_add.go:71-99 | the new task has the next ID and exactly the title, priority, capabilities, tags and references asked for, local references in canonical form, and is free and without history |
| FieldEffects.DecomposeLeaves | internal/cli/coordination_ops.go:251-260 | child number i has the i-th new ID, the i-th title and capabilities, the parent as lineage and no dependencies; all other tasks are untouched |
| FieldEffects.DecomposedParent | internal/cli/coordination_ops.go:260-271 | the parent keeps its dependencies, with the children's references in order at the end, and is pending and free; one event counts the children |
| FieldEffects.AcquireLeaves | internal/cli/allocation.go:313-354 | a fresh acquisition leases one task, with its log entry, event and the one new receipt holding the task as leased; a repeated one changes nothing and returns the receipt's task |
| FieldEffects.SweepLeaves | store/store.go:281-304 | exactly the tasks in progress with a lease of at most now return to pending, without owner and lease, and nothing else about them changes |
| FieldEffects.SweepAnnounces | store/store.go:281-304 | one event each, by ascending ID, naming the former owner |
| FieldEffects.RemoveLeaves | internal/cli/cmd_rm.go:41-45 | exactly the named tasks and the receipts that name them go, with one event per ID in the order given |
| Lifecycle.ClaimShutsOthersOut | internal/cli/coordination_errors.go:92-145 | after a claim another actor can claim the task exactly when the lease has run out, every other operation another actor asks of it is refused without a trace whatever its arguments, so is any removal, and the owner can claim again |
| Lifecycle.RenewMovesExpiry | internal/cli/lease.go:17-38 | a renewed lease is live exactly until its new expiry |
| Lifecycle.ReleaseUndoesClaim | internal/cli/coordination_ops.go:105-131 | releasing a claimed task restores it, apart from one retry and two log entries |
| Lifecycle.HandoffFreesWithContext | internal/cli/handoff.go:13-41 | a handoff before expiry returns the task free with the context merged and no retry charged; after expiry it is refused |
| Lifecycle.UnblockUndoesBlock | internal/cli/coordination_ops.go:137-180 | a blocked task, in progress before or not, says why and cannot be claimed by anyone; unblocking gives it back free, and exactly as it was if it was free, apart from two log entries |
| Lifecycle.DecomposedWaitsForChildren | internal/cli/coordination_ops.go:252-271 | with the dependency list decomposition leaves, the parent is not ready in any store before every child exists and is complete |
| Lifecycle.CreatedReadyIff | internal/cli/cmd_add.go:75-98 | a new task is ready exactly when everything it was created after is complete |
| UpdateOps.UpdateTask | internal/cli/coordination_ops.go:380-431 | exactly the transition `Update`: owner, edges, title, priority, capabilities, extra, in that order, each edit kept when a later one is refused |
| FieldEffects.UpdateLeaves | internal/cli/coordination_ops.go:380-431 | a granted update sets exactly the fields it names (the title trimmed, its context values winning over those there) and the edited edges, on that task alone, and announces it exactly if it names a field |
| FieldEffects.TrimSpaceMeaning | internal/cli/coordination_ops.go:395-400 | trimming takes off all white space at the ends and nothing else |
| UpdateOps.ApplyDependencyEdits | internal/cli/coordination_ops.go:435-526 | exactly the transition `EditDependencies`, the events of removed edges in the order the set iteration meets them |
| DependencyEdits.EditSucceedsWhen | internal/cli/coordination_ops.go:435-505 | an edit succeeds exactly when all references can be read, each removal names an edge, each new local edge names a task, the list does not outgrow its limit and the projected graph has no cycle; otherwise the store is unchanged |
| DependencyEdits.EditLeavesTarget | internal/cli/coordination_ops.go:435-526 | afterwards the edges are the sorted duplicate-free list of (old minus removed) plus added, in canonical form, and nothing else about any task changed |
| DependencyEdits.EditLogsEachEdgeOnce | internal/cli/coordination_ops.go:507-524 | a successful edit only appends to the log, and what it appends names exactly the edges that came as added and exactly those that went as removed, one event per edge |
| DependencyEdits.EditEventsSigned | internal/cli/coordination_ops.go:507-524 | these events carry the next IDs, the time, the task and the actor, and added edges come before removed ones |
| DependencyEdits.EditStaysWithinLimit | internal/cli/coordination_ops.go:478-482 | the list never grows past the larger of 128 and its previous length |
| DependencyEdits.RemoveEditsMeaning | internal/cli/coordination_ops.go:449-463 | the removal loop succeeds exactly when all removals can be read and name edges, and then leaves the set difference |
| DependencyEdits.AddEditsMeaning | internal/cli/coordination_ops.go:464-477 | the addition loop succeeds exactly when all additions can be read and the new local ones exist, and then leaves the union |
| RemovalOps.PruneCompletedTasks | internal/cli/coordination_ops.go:538-573 | exactly the transition `Prune`; the removed tasks are listed by ascending ID |
| Pruning.PruneRemovesExactlyCompleted | internal/cli/coordination_ops.go:538-573 | the completed tasks and the receipts that name them go and no others, each survivor loses exactly its edges to them, no new cycle or dangling edge appears, and the log is as it was |
| Pruning.PruneKeepsVerdicts | internal/cli/coordination_ops.go:527-561 | for every resolver that depends only on what a reference denotes, a survivor's dependencies are complete after the prune exactly when they were before |
| RemovalOps.RemoveTasks | internal/cli/cmd_rm.go:17-45 | exactly the transition `Remove`: all IDs are checked, then dependents, then each is logged and removed |
| RemovalOps.CompactTaskStore | internal/cli/cmd_compact.go:82-108 | exactly the transition `Compact`; the two counts are the events and the receipts the store loses by it, and a dry run reports the same and changes nothing |
| RemovalOps.CompactKeepsNewest | internal/cli/cmd_compact.go:82-89 | what remains of the log is its newest part, as many events as were asked for if there are that many, all of them without a number; nothing but events and receipts changes |
| RemovalOps.FinishedReceiptDroppedIff | internal/cli/cmd_compact.go:91-104 | a finished task's receipt is dropped exactly when it is a full millisecond older than the window, or the window is longer than the clock |
| RemovalOps.LiveReceiptKept | internal/cli/cmd_compact.go:97-100 | the receipt of an existing unfinished task is never dropped, nor any receipt when no window is given |
| TaskStores.TaskStore.AddTask | store/store.go:179-194 | a pending task under the next ID; the counter moves on |
| TaskStores.TaskStore.AddEvent | store/store.go:204-220 | one event under the next event ID at the end of the log |
| TaskStores.TaskStore.EventsSince | store/store.go:222-236 | the whole log for 0, otherwise the suffix from the first newer event |
| TaskStores.TaskStore.AddLog | store/store.go:238-250 | one entry appended to the task's log, or nothing for a missing task |
| TaskStores.TaskStore.RemoveTask | store/store.go:252-264 | the task and exactly the receipts that name it go |
| TaskStores.TaskStore.HasExpiredLeases | store/store.go:371-379 | true exactly when some lease has expired |
| TaskStores.TaskStore.CleanExpiredLeases | store/store.go:281-304 | exactly `Sweep`, and the count is the number of expired leases, whatever order the map is walked in |
| Allocation.GetReadyTasks | dag/dag.go:131-145 | every ready task exactly once: the pending ones whose local prerequisites are all completed and whose remote ones are all answered yes |
| Allocation.RankedReadyTasks | internal/cli/allocation.go:128-148 | the one listing of the compatible ready tasks; of any two the earlier has the higher priority, or the same and the lower ID |
| Diagnosis.DiagnoseAllocation | internal/cli/allocation.go:150-258 | each count is the size of the set it is about, the lists are the bounded reports of the requested, blocking and missing values, and the reason is the first that applies |
| Diagnosis.ReasonIff | internal/cli/allocation.go:236-256 | each reason is reported exactly when it is so: load exhausted, else a task to take, else pending work that all waits for prerequisites, else startable work that asks for more than the worker provides, else work in others' hands, in progress, or none pending |
| Diagnosis.BlockersMean | internal/cli/allocation.go:164-185 | a reference is a reported blocker exactly when a pending task lists it and it names a local task that is not there completed, or is a remote one not answered yes |
| Diagnosis.RetriedAndBlockedCounted | internal/cli/allocation.go:164-221 | the retried counter is about pending tasks with a retry count above 0, the blocked one about tasks with that status |
| Diagnosis.BoundValues | internal/cli/allocation.go:260-280 | the first 20 values in sorted order, each shortened, with the true total, truncated exactly when one was left off or shortened |
| Diagnosis.ReportsSmallest | internal/cli/allocation.go:260-280 | entry i shows the value with exactly i smaller ones beside it; at most 20 are shown and all are counted |
| Diagnosis.CountsPartition | internal/cli/allocation.go:164-221 | pending is ready plus dependency-blocked, ready is compatible plus mismatched, in progress is own plus others', and the four kinds fill the store exactly when every status is a named one |
| Acquisition.AcquireFromStore | internal/cli/allocation.go:313-354 | exactly the transition `Acquire`, with the diagnosis attached to exactly the two refusals for lack of work |
| Acquisition.FreshAcquireIffReady | internal/cli/allocation.go:236-240 | a fresh request succeeds exactly when the diagnosis says ready, and is refused for capacity exactly when it says so |
| Acquisition.FreshAcquireLeasesBest | internal/cli/allocation.go:322-353 | the leased task is pending, waits for nothing and asks only for what the worker provides; every other such task has a lower priority, or the same and a higher ID; no other task is touched, and the actor never goes above a positive load limit |
| Readiness.BestUnique | internal/cli/allocation.go:141-146 | there is only one best task, so the order of the map cannot matter |
| EventPager.BuildEventPage | internal/cli/event_protocol.go:57-116 | the page over the stably sorted log, each event sent with its fields and its time as text, the bisection finding the index the linear scan finds |
| EventPager.PageAgreesWithScan | store/store.go:222-236 | a page is the first part of what the linear scan returns, and `has_more` says exactly whether more follows |
| EventPager.CursorDescribesLog | internal/cli/event_protocol.go:57-116 | the cursor repeats where the reader asked from and names the oldest retained event (0 for an empty log) and the last ID issued |
| EventPager.GapIsExactlyTheDropped | internal/cli/event_protocol.go:83-97 | the reported gap is exactly the IDs after the cursor that were issued and are no longer retained |
| EventFollowing.FollowingAccountsForEverything | internal/cli/event_protocol.go:57-116 | following `next_since` until there is no more, with any steps between the pages, each issued ID is delivered exactly once in order or reported as dropped, never both |
| EventFollowing.FollowingEnds | internal/cli/event_protocol.go:57-116 | on a log at rest the page without `has_more` is reached, after exactly as many pages as the events after the start need |
| EventFollowing.RetainedWasDelivered | internal/cli/cmd_compact.go:82-89 | every event still in the log at the end and newer than the start was delivered, as it is |
| EventFollowing.DeliveredWasThere | internal/cli/event_protocol.go:57-116 | everything a page delivers was in the log when the page was read |
| Batches.CompleteTasks | internal/cli/cmd_done.go:20-30 | completions in order, the first refusal ends the batch |
| Batches.ReleaseTasks | internal/cli/cmd_release.go:24-33 | releases in order, the first refusal ends the batch |
| Unblocking.NewlyReadyAfter | internal/cli/coordination_ops.go:581-615 | the ready tasks that depend on one of the completed ones, by ID |
| Unblocking.NewlyReadyIsTheDifference | internal/cli/coordination_ops.go:575-615 | for any batch of successful completions this is exactly what is ready now and was not before |
| Unblocking.WhatIf | internal/cli/cmd_whatif.go:52-82 | the tasks ready in the simulation and blocked before, and the number still blocked |
| Unblocking.WhatIfPredicts | internal/cli/cmd_whatif.go:52-82 | for a task that can be completed the prediction is the report made after the completion |
| Unblocking.GetBlockedTasks | dag/dag.go:174-198 | exactly the unfinished tasks with an unmet dependency, each with its unmet references |
| Unblocking.BlockedIff | dag/dag.go:174-198 | these are the uncompleted tasks with a local prerequisite that is not there completed or a remote one not answered yes |
| Unblocking.UnmetDepsMean | dag/dag.go:182-192 | the unmet references of a task are listed in the order of its dependencies, each exactly when nothing completed stands for it |
| Drain.SomethingIsReady | dag/dag.go:131-168 | no deadlock: with only local dependencies and nothing in progress or blocked, some pending task is ready |
| Drain.EveryRoundCompletesOne | internal/cli/allocation.go:313-354 | a capable worker that acquires under fresh request IDs and completes, each in its own transaction, finishes exactly one more task per round, each after its dependencies, even when leases expire in between |
| Drain.QueueDrains | internal/cli/allocation.go:313-354 | exactly as many rounds as there were pending tasks complete everything, and no fewer do |
| Progress.BootstrapObjectiveProgress | internal/cli/bootstrap.go:281-327 | the counts are those of the reflexive-transitive closure of existing local dependencies (or of the whole project); the walk terminates on cycles |
| Progress.ProgressAddsUp | internal/cli/bootstrap.go:308-325 | the four counts add up to the total exactly when every status is a named one; the percentage is at most 100 and is 100 exactly when all is complete |
| Lineage.LineageDescendants | internal/cli/cmd_lineage.go:66-90 | the depth-first listing with siblings by ascending ID; exactly the tasks reachable by lineage, each once, never the root; terminates on circular records |
| Lineage.ListingHoldsDescendants | internal/cli/cmd_lineage.go:66-90 | that listing holds exactly the descendants, each once and each after its parent |
| Lineage.SortedChildrenAscend | internal/cli/cmd_lineage.go:71-73 | siblings are taken by ascending ID |
| Lineage.ListedInPreorder | internal/cli/cmd_lineage.go:74-88 | the listing is in preorder: each sibling not met before directly follows what its earlier siblings brought in, and is followed by its own descendants only |
| Lineage.ChildrenDescend | internal/cli/coordination_ops.go:252-260 | every child a decomposition files descends from the decomposed task |
| Lineage.CalculateLineageProgress | internal/cli/cmd_lineage.go:92-110 | each count is the number of listed tasks with that status, and the percentage is the completed share, between 0 and 100 |
| Lineage.CountsFillList | internal/cli/cmd_lineage.go:92-106 | the four counts never exceed the list and fill it exactly when every status is a named one |
| OperationMatching.OrderedOperationIndexes | internal/cli/cmd_conformance_assertions.go:528-541 | succeeds exactly when the expected operations occur in order, and returns the least such positions |
| OperationMatching.OrderedAlternativeIndexes | internal/cli/cmd_conformance_assertions.go:543-564 | the same with the last operation at or after the checkpoint |

## Left out

- Acquisition.AcquireFromStore: the deep copy of `cloneTask`, because a task is a value in the map and two holders cannot share one. Nothing is lost to the store: every transaction decodes the file afresh (store/store.go:397-399), so a receipt could share memory with its task only until the end of the transaction that grants it, and that transaction changes the task no further.
- Doctor.StoreInvariantProblems: the wording of the problems, which are datatype values here, and their order, which between tasks is that of the map. Everywhere else the task map has no nil entries.
- Nil maps and the schema migrations of old files.
- `Save`, backup and restore: blind overwrites that reset the counters.
- The encoding of the file, permissions, `fsync` and power failure; the file is a committed value and a crash is the death of a process. A failure after the rename counts as committed.
- How lock requests queue: the lock is many readers or one writer, granted in any order, freed when its holder dies.
- More than one clock reading within a transaction, and clock readings of 0.
- IDs at 2^64: steps that would go past it are not admitted, where the program would wrap around.
- Rendering of timestamps and shortening of long values are parameters, `render` and `shorten`.
- EventPager.BuildEventPage: the cap on the page size, because callers apply it; any limit is allowed here.
- Priorities are real numbers; float rounding and NaN, which is rejected before storage, are not modelled.
- OperationMatching.OrderedAlternativeIndexes: parsing of timestamps and the search of a scenario for its checkpoint, which are parameters.
- Acquisition fingerprints are opaque values; SHA-256 is not modelled.
- Remote repository lookup, agent registry and configuration: resolver and plain parameters.
- Command line, help, JSON-RPC and MCP framing, conformance host runner, integration files, input-size limits other than the projected cardinalities: they read and print text around the operations modelled here.
