# A verified model of TensorGrid's services

TensorGrid runs large models over a cluster of ordinary machines. Its services are in-memory
state machines and small algorithms; this Dafny project models seven of them and proves what
they guarantee over all inputs, all runs and all interleavings of concurrent calls. Run
`dafny verify dfyconfig.toml` to verify everything.

| service | files | what is hard about it |
|---|---|---|
| Tensor directory | `DirectoryModel`, `DirectoryIndex`, `DirectoryQueries`, `DirectoryEffects`, `DirectoryLocks`, `DirectoryAlone`, `DirectoryService` | a primary map and an inverse index under two locks: every run is linearizable, and the index agrees with the map as a multiset |
| Scheduler | `SchedulerModel`, `SchedulerLocks`, `SchedulerSessions`, `SchedulerConservation`, `SchedulerLists`, `SchedulerReuse`, `SchedulerSelection`, `SchedulerReplies`, `SchedulerService` | a reservation loop without rollback that is all-or-nothing in every reachable state |
| Planner | `Float32`, `Planner`, `PlannerProofs`, `PlannerPlans` | an exact cover computed through single-precision division |
| GGUF parser | `GgufFormat`, `Utf8`, `GgufParser`, `GgufProofs`, `GgufFiles`, `GgufReader` | nested length-prefixed binary values: the parser accepts exactly the format |
| Pairing manager | `CertificateText`, `Pairing`, `PairingProofs`, `PairingRuns` | challenges, certificates and revocation over whole runs with a clock |
| Fine-tuning jobs | `FineTuning`, `FineTuningSteps`, `FineTuningProofs`, `FineTuningFreeze`, `FineTuningProgress`, `FineTuningAccuracy`, `FineTuningRestart` | user commands racing with training tasks over one lock |
| Failure detector | `FailureDetector`, `FailureRuns` | a timed machine of heartbeats and sweeps |

`Wrappers`, `Integers`, `ClusterTypes`, `Selections`, `Sums` and `Locks` are shared.

Each service is given twice where it changes state: as functions on values, about which the
theorems are proved, and as a class whose methods update its fields the way the program does,
proved to compute those functions. Where reader-writer locks decide what other calls can see,
a third form runs any number of calls side by side, one lock operation or one data access a
step; a call that has to wait leaves the state unchanged, and the locks may be granted in any
order. Clock readings, random ids, and the results of cryptographic functions are parameters.

What the proofs found out about the program, each with its exact condition:

- Registering a tensor id that is already present leaves stale ids in the node index
  (`DirectoryQueries.ReRegistrationLeavesAStaleId`). The index agrees after every call of a
  history if and only if every registered id was new (`DirectoryIndex.AgreesThroughoutIff`);
  it always lists at least what is there.
- The scheduler never has to roll back: all selected nodes carry the same load at all times, so
  a reservation fails at its first node or not at all.
- A session id that is stored again while its session is stored loses one unit on every selected
  node for good (`SchedulerReuse.ReusedIdLosesAUnit`, `SchedulerSessions.LeakedNeverFalls`). When
  every call has returned, the nodes carry exactly the stored sessions if and only if this never
  happened (`SchedulerSessions.QuietLoad`); and a schedule and its later release restore the
  counters, whatever ran in between, if and only if it did not happen to their id
  (`SchedulerConservation.SessionRestoresTheCountersIff`).
- The planner's split is exact up to 2^24 layers; one more layer on one node is lost, because
  the layer count is rounded (`PlannerProofs.LargeModelLosesALayer`). `PlannerProofs.PlanCoversIff`
  says when a plan is complete.
- A training task that notices a pause keeps its read guard while it waits, so no command,
  including the resume it waits for, ever gets the lock again
  (`FineTuningProofs.ParkedTaskFreezesTheService`, with a run in
  `FineTuningFreeze.PausedJobFreezesTheService`). From any state the tasks alone can bring that
  about if and only if a task waits already or some paused job has a task that will look at its
  status again, and no command but a further pause adds to it (`FineTuningFreeze.FreezesIff`).
  Right after a successful pause that means a task of the paused job with an epoch still to
  begin, or such a task of a job paused before
  (`FineTuningFreeze.JustPausedServiceFreezesIff`).
- A cancelled job can still become Completed, if and only if a task of it is past its last look
  at the status and no task is parked (`FineTuningProofs.CancelledJobCompletesIff`).
- After a second start a job can show its epochs going back, and end Completed with an epoch
  short of the total, if and only if it has two epochs or more
  (`FineTuningRestart.SecondStartSetsBackIff`).

`register_tensor` and `add_placement` read `placement.node_id` after moving `placement`; the
model reads the node id before. 32-bit additions in the planner wrap, as in a release build.

## Model

| member | source | states |
|---|---|---|
| DirectoryLocks.RunsAreLinearizable | services/tensor-directory/src/lib.rs:50-283 | Every run of any number of overlapping calls, one lock operation or data access a step, has a sequential history of whole calls that gives every response; each operation is in it as exactly the calls it completed (a transfer as its check and then its addition); the stored data is what the history leads to whenever the primary map is not write-locked. |
| DirectoryLocks.HistoryRespectsRealTime | services/tensor-directory/src/lib.rs:50-283 | If one operation had returned before another was invoked, all its calls come first in that history. |
| DirectoryLocks.IndexHoldsWhenUnlocked | services/tensor-directory/src/lib.rs:74-82 | Whenever the primary map is not write-locked, the index lists every tensor at least once for each placement on a node, and exactly as often as it has placements if every registered id was new. |
| DirectoryLocks.LocksExclude | services/tensor-directory/src/lib.rs:92-227 | A call that writes never holds either lock together with another call that holds it. |
| DirectoryLocks.AccessMovesOn | services/tensor-directory/src/lib.rs:74-88 | Between its locks, a writing call has done an exactly known part of its work to the data it started from. |
| DirectoryLocks.ReplyCompletes | services/tensor-directory/src/lib.rs:190-222 | When a writing call replies, the data and the reply are those of the whole call run alone, including the eviction loop round by round. |
| DirectoryIndex.EvictIsExact | services/tensor-directory/src/lib.rs:190-222 | An eviction returns, each once, exactly the tensors all of whose placements were on the node, whatever repeats or stale ids the index holds; every other tensor keeps its other placements in order, its version growing by the number of times the node listed it; only the node's own list leaves the index. |
| DirectoryIndex.EvictAllIs | services/tensor-directory/src/lib.rs:204-216 | The eviction loop over an arbitrary list of ids, with repeats and stale ids: which entries are gone, what the others look like, and that the result has no duplicates. |
| DirectoryIndex.ApplyKeepsCovers | services/tensor-directory/src/lib.rs:50-222 | No call makes the index list a tensor less often for a node than it has placements there. |
| DirectoryIndex.ApplyKeepsAgreesIff | services/tensor-directory/src/lib.rs:74-82 | A call keeps the index in exact agreement with the placements, as multisets, if and only if it is not a registration of an id that is present. |
| DirectoryIndex.HistoryKeepsCovers | services/tensor-directory/src/lib.rs:50-222 | Over every history, with any re-registrations, index counts are at least the placement counts. |
| DirectoryIndex.HistoryKeepsAgrees | services/tensor-directory/src/lib.rs:50-222 | Over every history whose registrations use absent ids, the multiplicity of each tensor in each node's list equals its number of placements there. |
| DirectoryIndex.AgreesThroughoutIff | services/tensor-directory/src/lib.rs:50-222 | The index agrees after every call of a history if and only if every registered id was new. |
| DirectoryIndex.TwoPartCounts | services/tensor-directory/src/lib.rs:74-154 | What registration, addition and removal do to every placement count and every index count. |
| DirectoryQueries.OnNodeIsAFullScan | services/tensor-directory/src/lib.rs:164-176 | Listing a node returns each entry once for each of its placements there: as a multiset, a scan of the whole map. |
| DirectoryQueries.OnNodeMissesNothing | services/tensor-directory/src/lib.rs:164-176 | After arbitrary histories the listing may repeat entries but misses no placement. |
| DirectoryQueries.PlacementsDoubleCount | services/tensor-directory/src/lib.rs:230-232 | When index and placements agree, the total number of placements equals the total length of the index lists. |
| DirectoryQueries.StatsDoubleCount | services/tensor-directory/src/lib.rs:225-240 | The statistics after a history of fresh registrations: `total_placements` is the sum of the index list lengths and `node_count` the number of nodes that hold a placement. |
| DirectoryQueries.StepRaisesVersion | services/tensor-directory/src/lib.rs:103-222 | A call that neither drops nor re-registers a tensor leaves its entry alone or raises its version. |
| DirectoryQueries.VersionNamesPlacements | services/tensor-directory/src/lib.rs:103-222 | While a tensor is neither dropped nor re-registered, its version never falls, and equal versions at two moments mean equal entries, hence equal placement lists. |
| DirectoryQueries.ReRegistrationLeavesAStaleId | services/tensor-directory/src/lib.rs:75-82 | A concrete history of two registrations of one id after which a node still lists a tensor it holds no placement of. |
| DirectoryQueries.RemoveUndoesAdd | services/tensor-directory/src/lib.rs:103-161 | Removing a node right after adding the only placement on it restores the directory up to the version. |
| DirectoryQueries.FirstOnIs | services/tensor-directory/src/lib.rs:261-263 | The source of a transfer is the first placement on the source node, and there is none only if no placement is there. |
| DirectoryQueries.TransferAddsAReplica | services/tensor-directory/src/lib.rs:257-277 | A transfer keeps every placement and adds one replica on the destination, on the device of the first placement on the source, and one index entry. |
| DirectoryIndex.OffNodeKeeps | services/tensor-directory/src/lib.rs:139 | What `retain` leaves of the placements: those off the node, at increasing positions of the old list, and no others. |
| DirectoryIndex.WithoutKeeps | services/tensor-directory/src/lib.rs:151 | The same for the node's list of ids. |
| DirectoryEffects.RegisterStores | services/tensor-directory/src/lib.rs:50-82 | Every field of the stored entry, the one list that grows by the id, and nothing else changed. |
| DirectoryEffects.AddAppends | services/tensor-directory/src/lib.rs:103-126 | The placement comes last, the version goes up by one, the node's list grows by the id, and nothing else changes; without the tensor the call is refused and changes nothing. |
| DirectoryEffects.RemoveTakesOut | services/tensor-directory/src/lib.rs:129-161 | The placements off the node stay in their order and the version goes up by one, or the tensor goes if all were on the node; the node's list keeps its other ids in order, or goes. |
| DirectoryEffects.EvictedInOrder | services/tensor-directory/src/lib.rs:201-216 | The evicted ids come in the order of the node's list, each where the list first names it. |
| DirectoryEffects.OnNodeReplies | services/tensor-directory/src/lib.rs:164-176 | The entries come in the order of the list, for exactly the positions whose id is registered; nothing changes. |
| DirectoryEffects.GetTensorReplies | services/tensor-directory/src/lib.rs:91-100 | The entry, or none exactly if the tensor is not there. |
| DirectoryEffects.CheckReplies | services/tensor-directory/src/lib.rs:255-263 | A transfer is refused for want of the tensor exactly if it is missing, and for want of a source exactly if no placement is on the source node. |
| DirectoryEffects.StatsCount | services/tensor-directory/src/lib.rs:225-240 | All four statistics, counted over any lists that name the tensors, the mutable ones and the indexed nodes once each. |
| DirectoryAlone.CallAlone | services/tensor-directory/src/lib.rs:50-240 | In every run: a call invoked while no lock is held, and left alone, goes through all its lock and data steps, returns what the whole call replies and leaves what it leaves. |
| DirectoryAlone.FinishesAlone | services/tensor-directory/src/lib.rs:50-283 | Every call, and both halves of a transfer, can finish from any point of any run by its own steps if no other call holds a lock. |
| DirectoryAlone.ReturnedTransferIs | services/tensor-directory/src/lib.rs:243-283 | In every run a transfer that has returned was refused by its check, or has added exactly the replica its check prepared and returns the reply to that addition. |
| DirectoryAlone.WaitsIff | services/tensor-directory/src/lib.rs:92-227 | Listings, statistics and checks wait for a lock exactly while it is held exclusively, all other calls exactly while anyone holds it. |
| DirectoryService.TensorDirectory.RegisterTensor | services/tensor-directory/src/lib.rs:50-88 | The two in-place updates reach the specified state, and keep exact agreement when the id is new. |
| DirectoryService.TensorDirectory.AddPlacement | services/tensor-directory/src/lib.rs:103-126 | The update or the error, and exact agreement kept. |
| DirectoryService.TensorDirectory.RemovePlacement | services/tensor-directory/src/lib.rs:129-161 | The removal, with the entry dropped when nothing is left, or the error; exact agreement kept. |
| DirectoryService.TensorDirectory.EvictFromNode | services/tensor-directory/src/lib.rs:190-222 | The loop over the removed list returns exactly the tensors that were only on the node. |
| DirectoryService.TensorDirectory.EvictListed | services/tensor-directory/src/lib.rs:204-216 | The loop that changes the map while it collects the evicted ids equals the recursive specification. |
| DirectoryService.TensorDirectory.GetTensorsOnNode | services/tensor-directory/src/lib.rs:164-176 | Looks up the listed ids in order, skipping ids without an entry. |
| DirectoryService.TensorDirectory.GetStats | services/tensor-directory/src/lib.rs:225-240 | Counts by loops what the specification sums. |
| DirectoryService.TensorDirectory.TransferTensor | services/tensor-directory/src/lib.rs:243-283 | A check, then an addition, with its two errors. |
| SchedulerLocks.LoadIsEven | services/scheduler/src/lib.rs:79-153 | In every reachable state of any number of overlapping calls with any session ids: at most three sessions are stored, only selected nodes have entries, and outside the reserve and release loops every selected node carries the same load of at most three units, which is the number of sessions stored, being stored or removed, or overwritten. |
| SchedulerLocks.ReservationIsAllOrNothing | services/scheduler/src/lib.rs:256-285 | A refused reservation was at its first node, every selected node carried three units, and nothing has changed, although there is no rollback. |
| SchedulerLocks.ChangesKeepEven | services/scheduler/src/lib.rs:127-153 | Every single change of the ledger, in the middle of either loop, keeps the ledger even up to the nodes that loop has done. |
| SchedulerLocks.ReleaseNeverUnderflows | services/scheduler/src/lib.rs:138-145 | While a release runs, every node it has yet to visit carries at least what will be subtracted, in all three counters. |
| SchedulerLocks.LedgerIsConserved | services/scheduler/src/lib.rs:79-153 | Between two moments without a loop under way, the counters of every selected node move by one unit for each reservation and back by one for each release completed in between. |
| SchedulerSessions.SessionIsConserved | services/scheduler/src/lib.rs:79-153 | The same for each session id: between two moments at which no call has the session in its hands, its reservations are its releases, plus or minus whether it is stored, plus the times it was stored over itself. |
| SchedulerSessions.SessionGivesBackIff | services/scheduler/src/lib.rs:117-145 | A session stored at neither moment has given back exactly what it took in between if and only if its id was not stored over itself meanwhile, whatever else ran. |
| SchedulerConservation.CountersAreTheSessions | services/scheduler/src/lib.rs:79-153 | Whenever no loop is under way, every selected node carries as many units as were reserved less those released, summed over the session ids; for each id that is one if it is stored, one for each call that has it in its hands, and one for each time it was stored over itself. |
| SchedulerConservation.SessionRestoresTheCountersIff | services/scheduler/src/lib.rs:79-153 | Between two moments outside the loops at which a session is neither stored nor in a call's hands, the counters have moved by what the other sessions reserved less what they released if and only if the session was not stored over itself. |
| SchedulerSessions.QuietLoad | services/scheduler/src/lib.rs:117-119 | When every call has returned, all selected nodes carry exactly the stored sessions if and only if nothing was lost, and that is if and only if no step stored a session over one with the same id; otherwise they carry one unit more for each time. |
| SchedulerSessions.NothingLeakedIff | services/scheduler/src/lib.rs:117-119 | Nothing is lost exactly if no step of the run found the id it stores already stored. |
| SchedulerSessions.LeakedNeverFalls | services/scheduler/src/lib.rs:79-153 | No later call gives a lost unit back. |
| SchedulerReuse.ReusedIdLosesAUnit | services/scheduler/src/lib.rs:79-153 | For every cluster with a Healthy node and every admitted request: a run that schedules an id twice and releases it once, every call succeeding, after which no session is stored, none is listed as active, and every selected node still carries one unit. |
| SchedulerReuse.ScheduleAlone | services/scheduler/src/lib.rs:79-125 | A schedule that runs alone below the load limit goes through all its steps to the reserved and stored session. |
| SchedulerReuse.ReleaseAlone | services/scheduler/src/lib.rs:128-153 | And a release of a stored session to its removal from the store and from every selected node. |
| SchedulerLists.ActiveListsAre | services/scheduler/src/lib.rs:138-145 | Outside the loops all selected nodes have the same list of active sessions: the completed reservations in order, less those whose session was released later, so each id as often as it was reserved since its last release. |
| SchedulerLocks.RunExtends | services/scheduler/src/lib.rs:79-153 | The record of completed reservations and releases only grows along a run. |
| SchedulerLocks.StatisticsAreConsistent | services/scheduler/src/lib.rs:307-330 | Reported totals are the common load times the number of selected nodes, and the reported sessions are at most that load. |
| SchedulerLocks.LedgerHoldersNeverWait | services/scheduler/src/lib.rs:118-136 | The sessions lock is only taken by a call that does not hold the ledger, and no call waits for a lock while it holds the ledger. |
| SchedulerLocks.NeverStuck | services/scheduler/src/lib.rs:79-153 | In every reachable state with an unfinished call, some call can take a step. |
| SchedulerModel.SelectionIsTheBest | services/scheduler/src/lib.rs:175-201 | Every selected node is Healthy, and no Healthy node left out has a higher score. |
| SchedulerModel.SelectionSize | services/scheduler/src/lib.rs:180-198 | At most three nodes are selected, all different, and none exactly if no node is Healthy. |
| SchedulerSelection.SelectionIs | services/scheduler/src/lib.rs:180-198 | The selection completely: Healthy nodes in descending order of score, equal scores in iteration order, and a Healthy node is left out only behind three chosen ones. |
| SchedulerSelection.SelectionCount | services/scheduler/src/lib.rs:194-198 | The smaller of three and the number of Healthy nodes are chosen. |
| SchedulerReplies.CallsAnswer | services/scheduler/src/lib.rs:79-173 | In every run of overlapping calls: a schedule is rejected exactly if memory does not suffice, finds no nodes exactly if none is Healthy, and otherwise is refused by a chosen node or answers a session with 30 percent, 4 GiB and 2 GiB on each chosen node; every stored session is such a session. |
| SchedulerReplies.CountersInNumbers | services/scheduler/src/lib.rs:233-253 | Outside the loops every chosen node has reserved k times 30 percent, 4 GiB and 2 GiB, with k at most three. |
| SchedulerReplies.WaitsIff | services/scheduler/src/lib.rs:117-136 | The statistics wait for a lock exactly while it is held exclusively, schedules and releases exactly while anyone holds it. |
| SchedulerModel.OthersKeep | services/scheduler/src/lib.rs:143 | A release leaves the other sessions of the list in their order. |
| SchedulerModel.SortIsStable | services/scheduler/src/lib.rs:191 | Nodes of equal score keep their iteration order, so the selection is a constant of the run. |
| SchedulerModel.SortSorts | services/scheduler/src/lib.rs:191 | The result is in descending order and a permutation. |
| SchedulerModel.ReserveAllOnEven | services/scheduler/src/lib.rs:256-285 | On an even ledger the loop reserves on all nodes or refuses at the first, in whatever order the map yields them. |
| SchedulerModel.RefusalChangesNothing | services/scheduler/src/lib.rs:264-276 | At load three the node has an entry already, so the refusal does not even create one. |
| SchedulerModel.ReleaseUndoesReserve | services/scheduler/src/lib.rs:138-145 | Releasing a node after reserving it for a new session restores its entry, active sessions included. |
| SchedulerModel.OthersAre | services/scheduler/src/lib.rs:143 | A release takes every occurrence of the session out of the active list and nothing else. |
| SchedulerModel.TotalOfEven | services/scheduler/src/lib.rs:312-323 | An even ledger adds up to its load times the number of selected nodes. |
| SchedulerService.Scheduler.ReserveResources | services/scheduler/src/lib.rs:256-285 | Succeeds exactly while the load is below three; then every node is reserved, otherwise nothing changes. |
| SchedulerService.Scheduler.ReserveEach | services/scheduler/src/lib.rs:263-282 | The loop, in an arbitrary order of the nodes, with its early return. |
| SchedulerService.Scheduler.Schedule | services/scheduler/src/lib.rs:79-125 | Exactly when a session is scheduled, each error, and the new sessions and ledger; on failure nothing changes. |
| SchedulerService.Scheduler.ReleaseSession | services/scheduler/src/lib.rs:128-153 | The session and its reservations are gone, or it was not there and nothing changes. |
| SchedulerService.Scheduler.ReleaseResources | services/scheduler/src/lib.rs:138-145 | The loop releases every node of the session once, in any order. |
| SchedulerService.Scheduler.GetStats | services/scheduler/src/lib.rs:307-330 | The totals are the load times the number of selected nodes. |
| PlannerProofs.LayersPerNodeIsExact | services/planner/src/lib.rs:140 | For up to 2^24 layers and nodes, the ceiling of the single-precision quotient is the exact ceiling: rounding neither drops onto the whole number below nor passes the one above. |
| PlannerProofs.PlanCoversIff | services/planner/src/lib.rs:118-250 | For all inputs: the stages' layers, one after another, are 0, 1, 2, ... without gap or repeat, and they are the whole model if and only if the blocks reach its last layer without wrapping at 32 bits or a CPU-only node takes the rest. |
| PlannerProofs.SmallPlansCover | services/planner/src/lib.rs:118-250 | Up to 2^24 layers and nodes, and with some node Healthy, every strategy gives a plan that covers the model exactly, and the CPU stage of a hybrid plan is never added. |
| PlannerProofs.PlanExistsIff | services/planner/src/lib.rs:118-133 | For every model, strategy and arithmetic a plan exists if and only if some node is Healthy, and otherwise the error says so. |
| PlannerPlans.PlanStages | services/planner/src/lib.rs:118-250 | Every plan stage by stage, whatever the arithmetic: the nodes that take part, in their order, get consecutive blocks on their first GPU or their CPU until nodes or layers run out or the counter would wrap; the rest goes to the first Healthy node without a GPU exactly if the plan is hybrid over GPU nodes and there is one. |
| PlannerPlans.LayersPerNodeIs | services/planner/src/lib.rs:140 | Layers per node, one rounding after another, for all 32-bit numbers. |
| PlannerPlans.StageWeightIs | services/planner/src/lib.rs:355-363 | A stage's weight, one rounding after another, with the cut to 64 bits. |
| PlannerProofs.ExactEstimateCovers | services/planner/src/lib.rs:138-244 | With any estimate that gives the exact ceiling, the stages are those of the loop and hold the whole model, so the CPU stage at 219-241 is never added. |
| PlannerProofs.ExactEstimateBalances | services/planner/src/lib.rs:138-174 | And the first stage has the ceiling of the average, no stage more. |
| PlannerProofs.PlanIsPlaced | services/planner/src/lib.rs:118-250 | In every plan: no stage is empty, stage ids are positions, stages are on different nodes, and those are Healthy nodes of the cluster. |
| PlannerProofs.StageShape | services/planner/src/lib.rs:143-171 | Stage j holds the j-th block of the per-node number of layers, cut at the end of the model, on node j. |
| PlannerProofs.StagesAreConsecutive | services/planner/src/lib.rs:143-171 | The layers of the stages concatenate to those before the loop's counter. |
| PlannerProofs.PipelineCoversIff | services/planner/src/lib.rs:143-171 | The loop reaches the last layer if and only if the blocks cover the model before the 32-bit counter wraps. |
| PlannerProofs.LargeModelLosesALayer | services/planner/src/lib.rs:140 | A model of 2^24 + 1 layers on one node: its last layer is in no stage. |
| PlannerProofs.PlansAreBalanced | services/planner/src/lib.rs:138-174 | With some node Healthy there is a plan whose largest stage is the first and has exactly the ceiling of the average. |
| PlannerProofs.NoSplitIsBetter | services/planner/src/lib.rs:138-174 | Every way of giving L layers to N nodes gives some node at least the ceiling of L / N. |
| PlannerProofs.StageWeightIsNear | services/planner/src/lib.rs:355-363 | A stage's weight is its exact share up to three roundings of relative error 2^-24 and the cut to whole bytes. |
| PlannerProofs.WeightsNearlyConserved | services/planner/src/lib.rs:152-157 | With k stages, W bytes and u = 2^-24 the weights sum to more than W(1 - 4u) - k and at most W(1 + 4u). |
| PlannerProofs.ExactWeightsNearlyConserved | services/planner/src/lib.rs:355-363 | In exact arithmetic the weights of stages that cover the model sum to at most the total and fall short by less than the number of stages. |
| Planner.BuildStages | services/planner/src/lib.rs:143-171 | The loop with its skip of empty stages equals the recursive specification. |
| Planner.PartitionModel | services/planner/src/lib.rs:118-250 | Strategy dispatch, fallbacks, CPU tail and the error. |
| Float32.RoundIsNearest | services/planner/src/lib.rs:140 | The rounding used is the nearest multiple of the spacing, ties to the even one (section 4.3.1 of IEEE 754-2019). |
| Float32.RoundIff | services/planner/src/lib.rs:140 | A number is the rounding if and only if it is that multiple of the spacing in the binade of the exact number: the rounding exists and is the only one. |
| Float32.RoundRelative | services/planner/src/lib.rs:361-362 | Its relative error is at most 2^-24. |
| Float32.RoundMonotone | services/fine-tuning/src/lib.rs:291-293 | It is monotone. |
| Float32.RoundExact | services/planner/src/lib.rs:140 | Whole numbers up to 2^24 are represented exactly. |
| GgufFiles.ParseIff | crates/model-format/src/lib.rs:18-53 | Parsing succeeds with a model if and only if the bytes start with a layout of a file and the model is that file's: nothing else is accepted and no layout is refused. |
| GgufFiles.ParseUndoesEncode | crates/model-format/src/lib.rs:18-53 | Parsing an encoded file gives its model back, for every encodable file, arbitrarily nested arrays and any trailing bytes. |
| GgufFiles.ParseKeepsTheFields | crates/model-format/src/lib.rs:25-53 | Version and tensors of the result are those of the file, and its keys are exactly those of the file's pairs. |
| GgufFormat.ModelIff | crates/model-format/src/lib.rs:35-52 | Version, tensors, keys and last values determine the model. |
| GgufFiles.InvalidMagicIff | crates/model-format/src/lib.rs:20-26 | The file is refused for its magic number exactly if its first four bytes are there and are not GGUF. |
| GgufFiles.StringReplies | crates/model-format/src/lib.rs:96-101 | A string is cut off exactly if its length or its bytes are missing, and refused exactly if they are there and not UTF-8. |
| GgufFiles.ValueErrors | crates/model-format/src/lib.rs:76-93 | A value of a type above 12 is refused for its type, and no other type is, at any depth of nesting. |
| GgufFiles.TensorErrors | crates/model-format/src/lib.rs:113-135 | A tensor is refused only for a premature end, for its name, or for a type that is not in the table. |
| GgufFiles.TagsAre | crates/model-format/src/lib.rs:77-92 | The type number of every kind of value. |
| GgufFiles.DtypesAre | crates/model-format/src/lib.rs:138-154 | The eleven tensor types by number. |
| GgufFormat.LittleEndian | crates/model-format/src/lib.rs:27-31 | Numbers are read with the lowest byte first. |
| GgufFormat.SignedIs | crates/model-format/src/lib.rs:78-90 | Signed numbers are two's complement. |
| Utf8.Utf8Iff | crates/model-format/src/lib.rs:96-101 | The text check accepts exactly the UTF-8 encodings of sequences of code points without surrogates (section 3 of RFC 3629). |
| GgufFiles.PrefixesAreRejected | crates/model-format/src/lib.rs:18-135 | Every strict prefix of a file is rejected, and always as a premature end of file. |
| GgufFiles.FilesAreUnambiguous | crates/model-format/src/lib.rs:18-53 | The contents of a file and the place where it ends are determined by the bytes. |
| GgufFiles.ParseKeepsTheLastPair | crates/model-format/src/lib.rs:36-40 | Of several pairs with one key the last one's value is kept. |
| GgufFiles.FileReads | crates/model-format/src/lib.rs:18-53 | The file parser accepts exactly the layouts, and no error other than a premature end depends on bytes further on. |
| GgufFiles.PairReads | crates/model-format/src/lib.rs:63-73 | The same for a key-value pair. |
| GgufFiles.TensorReads | crates/model-format/src/lib.rs:113-135 | The same for a tensor description. |
| GgufFiles.DtypeTable | crates/model-format/src/lib.rs:138-154 | The table of tensor types and its inverse, with 10 to 12 the integer types. |
| GgufFormat.LastPairWins | crates/model-format/src/lib.rs:36-40 | A key is present exactly if some pair has it, with the value of the last such pair. |
| GgufFormat.FileIsEncoded | crates/model-format/src/lib.rs:18-53 | The encoder written from the format produces layouts. |
| GgufProofs.ValueAccepted | crates/model-format/src/lib.rs:76-93 | Every layout of a value is accepted with exactly its bytes used, whatever follows: for a Boolean any non-zero byte, for an empty array any element type. |
| GgufProofs.ValueMeant | crates/model-format/src/lib.rs:76-93 | Whatever is accepted as a value is a layout of it, by induction on the bytes left through nested arrays. |
| GgufProofs.ValueFinal | crates/model-format/src/lib.rs:76-93 | An error other than a premature end stays when bytes are added. |
| GgufProofs.ElementsAccepted | crates/model-format/src/lib.rs:104-110 | The elements of an array, read one after another. |
| GgufProofs.ElementsMeant | crates/model-format/src/lib.rs:104-110 | The elements that were read are a layout of that many values of the one element type. |
| GgufProofs.StringReads | crates/model-format/src/lib.rs:96-101 | Strings are a 64-bit length and that many bytes of valid UTF-8. |
| GgufProofs.ScalarIsLaidOut | crates/model-format/src/lib.rs:78-90 | Every byte pattern of a fixed-width type is a layout of the value read from it, with two's complement for signed ones. |
| GgufProofs.LaidOutIsScalar | crates/model-format/src/lib.rs:78-90 | And every layout of a fixed-width value is read as that value. |
| GgufProofs.PrefixIsCutOff | crates/model-format/src/lib.rs:56-60 | For any parser that reads a layout: strict prefixes are cut off. |
| GgufProofs.LayoutsAreUnambiguous | crates/model-format/src/lib.rs:18-53 | For any parser that reads a layout: no layout of one value starts a layout of another. |
| GgufReader.Reader.ReadValue | crates/model-format/src/lib.rs:76-93 | The reader that advances over the file gives the value, the error and the position of the specification; the recursion ends because every value uses bytes, whatever lengths the file claims. |
| GgufReader.Reader.ReadScalar | crates/model-format/src/lib.rs:78-90 | One branch for each fixed-width type. |
| GgufReader.Reader.ReadArray | crates/model-format/src/lib.rs:104-110 | The loop that pushes elements, or stops at the first error. |
| GgufReader.Reader.ReadString | crates/model-format/src/lib.rs:96-101 | Length, bytes, UTF-8 check. |
| GgufReader.Reader.ReadKvPair | crates/model-format/src/lib.rs:63-73 | Key, value type, value. |
| GgufReader.Reader.ReadTensorInfo | crates/model-format/src/lib.rs:113-135 | Name, dimensions, type, offset, with an unknown type refused last. |
| GgufReader.Reader.ReadMetadata | crates/model-format/src/lib.rs:36-40 | The loop that inserts pairs into the map as it reads them. |
| GgufReader.Reader.ReadModel | crates/model-format/src/lib.rs:18-53 | The whole parser: magic, version, counts, metadata, tensors. |
| PairingProofs.CleanupIsTransparent | crates/secure-pairing/src/lib.rs:128-143 | With a clock that never goes back, a run and the same run without its cleanups give the same replies (an overdue challenge may be reported missing instead of expired) and store the same certificates. |
| PairingProofs.ChallengesAreSingleUse | crates/secure-pairing/src/lib.rs:135-137 | Between two responses that find the same challenge it was generated again: the first response uses it up, successful or not. |
| PairingProofs.CertificatesAnswerChallenges | crates/secure-pairing/src/lib.rs:128-155 | Whoever gets a certificate answered a challenge generated for its node id at most 300 seconds before, with a valid signature of all its 32 bytes, and nobody had answered it in between. |
| PairingProofs.StoredCertificatesWereIssued | crates/secure-pairing/src/lib.rs:158-193 | Every stored certificate was issued by one call of the run, with the fields of that call, and its node was not revoked since. |
| PairingProofs.PendingHasAnOrigin | crates/secure-pairing/src/lib.rs:105-125 | Every pending challenge was generated by one call of the run and not touched since. |
| PairingRuns.CertifiedIff | crates/secure-pairing/src/lib.rs:128-155 | In every run a response earns a certificate if and only if it answers, within 300 seconds and with a good signature of all its bytes, a challenge that was generated for its node and neither answered, replaced nor cleaned up since. |
| PairingRuns.RegisteredIff | crates/secure-pairing/src/lib.rs:185-263 | In every run a node is registered if and only if some response earned it a certificate and no later call revoked it. |
| PairingRuns.PendingIff | crates/secure-pairing/src/lib.rs:105-137 | In every run a challenge is pending if and only if it was generated, not answered or replaced since, and no cleanup came more than 300 seconds later. |
| PairingRuns.ResponseReplies | crates/secure-pairing/src/lib.rs:132-155 | Each error of a response with its condition, in the order of the checks. |
| PairingRuns.ShortResponse | crates/secure-pairing/src/lib.rs:133 | A response of fewer than eight bytes ends the call before anything changes. |
| PairingRuns.GenerateReplies | crates/secure-pairing/src/lib.rs:105-125 | The challenge is sent with the node id it is for, and registers nobody. |
| PairingRuns.CertificateIs | crates/secure-pairing/src/lib.rs:157-183 | Every field of an issued certificate: it is valid for 365 days, and signed by the coordinator over the hash of its text. |
| PairingRuns.CertificateAcceptedIff | crates/secure-pairing/src/lib.rs:231-257 | A certificate is accepted if and only if it has not expired and its signature of the hashed text holds. |
| PairingProofs.CertifiedOnce | crates/secure-pairing/src/lib.rs:128-195 | With fresh node ids a node is certified at most once. |
| PairingProofs.RevocationIsPermanent | crates/secure-pairing/src/lib.rs:260-263 | With fresh node ids a registered node that is revoked is never registered again. |
| PairingProofs.IssuedCertificateAcceptedIff | crates/secure-pairing/src/lib.rs:231-257 | A certificate from a response is accepted by its coordinator at every time up to its expiry one year later, and at no later time. |
| PairingProofs.HonestNodeIsCertified | crates/secure-pairing/src/lib.rs:105-195 | A node that signs its challenge is certified if and only if its response is looked at within 300 seconds, whatever calls for other nodes, revocations and cleanups come in between. |
| PairingProofs.AcceptedCertificatesWereIssued | crates/secure-pairing/src/lib.rs:231-257 | A certificate that carries a signature of the coordinator is accepted if and only if it is, in every field, the certificate that signature was made for, and has not expired; provided hash and signature tell the two texts apart. |
| PairingProofs.SomeRunMeetsTheAssumptions | crates/secure-pairing/src/lib.rs:231-257 | For every made-up certificate there is a run, with genuine signatures, that meets all of these assumptions, so they do not contradict each other. |
| CertificateText.CertificateDataIsInjective | crates/secure-pairing/src/lib.rs:161-168 | The text that is hashed and signed determines node, cluster, key and both times. |
| CertificateText.ChallengeIdIsInjective | crates/secure-pairing/src/lib.rs:117 | The identifier of a challenge determines the node id and the first eight bytes. |
| CertificateText.FieldsAre | crates/secure-pairing/src/lib.rs:161-168 | The five fields in their order, joined by colons. |
| CertificateText.HexAt | crates/secure-pairing/src/lib.rs:164 | Two lower-case hexadecimal digits a byte, the high one first. |
| CertificateText.SignedDecimalReads | crates/secure-pairing/src/lib.rs:165-166 | Times are printed as decimal digits that read as the number, after a minus sign if it is negative. |
| CertificateText.UuidTextIs | crates/secure-pairing/src/lib.rs:162-163 | Ids are printed as 8, 4, 4, 4 and 12 digits joined by hyphens. |
| CertificateText.SignedDecimalIsInjective | crates/secure-pairing/src/lib.rs:161-168 | Signed decimal printing loses nothing. |
| CertificateText.UuidTextIsInjective | crates/secure-pairing/src/lib.rs:117 | Nor does the hyphenated form of an id. |
| Pairing.PairingManager.GenerateChallenge | crates/secure-pairing/src/lib.rs:105-125 | Stores the challenge under its identifier. |
| Pairing.PairingManager.VerifyResponse | crates/secure-pairing/src/lib.rs:128-196 | Every error in its order, the challenge removed before the checks, and the certificate stored; a response shorter than eight bytes panics before anything changes. |
| Pairing.PairingManager.VerifyCertificate | crates/secure-pairing/src/lib.rs:231-257 | Expiry first, then the signature of the text's hash. |
| Pairing.PairingManager.CleanupExpiredChallenges | crates/secure-pairing/src/lib.rs:271-277 | Keeps exactly the challenges that are not overdue. |
| Pairing.PairingManager.RevokeNode | crates/secure-pairing/src/lib.rs:260-263 | Removes the node's keys and nothing else. |
| FineTuningProofs.ParkedTaskFreezesTheService | services/fine-tuning/src/lib.rs:256-280 | Once a task waits for a resume it holds its read guard, so in every continuation no job changes, its own job stays paused, and it waits forever. |
| FineTuningFreeze.FreezesIff | services/fine-tuning/src/lib.rs:254-295 | From any state the tasks alone can stop the service for good if and only if a task waits for a resume already or a task of a paused job will look at the status again; runs with any commands but a pause can reach it in no other case. |
| FineTuningFreeze.JustPausedServiceFreezesIff | services/fine-tuning/src/lib.rs:151-168 | Right after a successful pause, in every reachable state, that is: a task of the paused job will look at the status again, or one of another paused job would have before. Otherwise the lock stays free for a resume. |
| FineTuningFreeze.PausedJobFreezesTheService | services/fine-tuning/src/lib.rs:254-280 | A run that reaches a waiting task: create, start, pause, one look at the status; whatever follows, the job stays paused. |
| FineTuningProofs.AtMostOneMoreEpoch | services/fine-tuning/src/lib.rs:151-208 | While a job stays paused or cancelled each of its tasks records at most one more epoch: the one it was training, none otherwise. |
| FineTuningProofs.NoNewTaskWhileHalted | services/fine-tuning/src/lib.rs:121-147 | And it gets no new task. |
| FineTuningProofs.CancelledJobCompletedBy | services/fine-tuning/src/lib.rs:254-308 | A cancelled job is completed only by a task that was past its last look at the status when the job was cancelled. |
| FineTuningProofs.CancelledJobCanComplete | services/fine-tuning/src/lib.rs:300-308 | A run in which that happens. |
| FineTuningProofs.CancelledJobCompletesIff | services/fine-tuning/src/lib.rs:254-308 | In every reachable state: a cancelled job can still be completed, without being deleted, if and only if a task of it is past its last look at the status and no task is parked. |
| FineTuningProofs.JustCancelledJobCompletesIff | services/fine-tuning/src/lib.rs:191-208 | Right after a successful cancellation such a task is all it takes. |
| FineTuningSteps.CommandSucceedsIff | services/fine-tuning/src/lib.rs:83-243 | Each of the six commands succeeds if and only if the job is there with one of the statuses listed, a creation if model and dataset are there. |
| FineTuningSteps.CommandSets | services/fine-tuning/src/lib.rs:83-243 | What a command that succeeds sets: the exact next status, the starting time of a start, all fields of a new job, the entry gone after a deletion; all other fields, jobs and tasks stay. |
| FineTuningSteps.RefusalIs | services/fine-tuning/src/lib.rs:83-243 | A refused command changes nothing, and its error says why. |
| FineTuningSteps.StartSpawns | services/fine-tuning/src/lib.rs:127-145 | A start adds one task, before its first epoch, or after its loop if there are no epochs. |
| FineTuningSteps.ResumeUndoesPause | services/fine-tuning/src/lib.rs:151-188 | A pause and a resume before any task notices leave everything as it was. |
| FineTuningSteps.StartedJobCompletes | services/fine-tuning/src/lib.rs:121-308 | Every start that succeeds, left alone from then on, completes the job with all its epochs. |
| FineTuningSteps.LookIs | services/fine-tuning/src/lib.rs:256-266 | Before an epoch a task ends if its job is cancelled, waits if it is paused, and trains otherwise. |
| FineTuningSteps.WaitIs | services/fine-tuning/src/lib.rs:266-277 | A waiting task goes on, ends or waits on by the status of its job. |
| FineTuningSteps.RecordIs | services/fine-tuning/src/lib.rs:286-295 | An epoch changes the job's epoch, progress and loss, to the values of that epoch, and nothing else. |
| FineTuningSteps.FinishIs | services/fine-tuning/src/lib.rs:300-308 | The end of the loop changes status, progress and completion time, and nothing else. |
| FineTuningProofs.CompletedIsFinal | services/fine-tuning/src/lib.rs:121-208 | A completed job stays completed until it is deleted, whatever commands and tasks do. |
| FineTuningProofs.StatusMoves | services/fine-tuning/src/lib.rs:121-308 | All moves between statuses, each with the command or the section that makes it: Running from Pending by a start and from Paused by a start or a resume, Paused from Running, Cancelled from all but Completed, Completed by a task that is through with its loop. |
| FineTuningProofs.CancelledIsFinal | services/fine-tuning/src/lib.rs:121-208 | A cancelled job is never started again: until it is deleted it stays cancelled or is completed. |
| FineTuningProgress.LastEpochShows | services/fine-tuning/src/lib.rs:291-293 | In single precision too, the last epoch shows 100 percent and loss zero, for every number of epochs. |
| FineTuningProgress.SingleStartMovesForward | services/fine-tuning/src/lib.rs:286-295 | In a run that starts the job at most once, epoch and progress never decrease, and the loss never increases after the first epoch. |
| FineTuningProgress.SingleStartKeepsJobSound | services/fine-tuning/src/lib.rs:98-110 | In such a run the epoch is at most the total, progress and loss are those of the epoch, the job never fails, and a completed job has all epochs, 100 percent and a completion time. |
| FineTuningProgress.SecondStartSetsBack | services/fine-tuning/src/lib.rs:127-134 | A run with two starts in which the epoch goes back from two to one. |
| FineTuningRestart.SecondStartSetsBackIff | services/fine-tuning/src/lib.rs:127-145 | After a second start of any job, some continuation lets its epoch fall if and only if it has two epochs or more; and under the same condition, and only then, some continuation leaves it with numbers that do not fit its status. |
| FineTuningRestart.TwoTasksSetBack | services/fine-tuning/src/lib.rs:254-308 | From two live tasks of one job the epoch falls from the last one to one, with the job Completed. |
| FineTuningRestart.SmallRun | services/fine-tuning/src/lib.rs:254-308 | A job of at most one epoch only moves forward, however often it is started. |
| FineTuningProgress.ProgressGrows | services/fine-tuning/src/lib.rs:291 | The single-precision progress grows with the epoch and stays within 100. |
| FineTuningProgress.LossFalls | services/fine-tuning/src/lib.rs:293 | The single-precision loss falls with the epoch. |
| FineTuningAccuracy.ProgressIsNear | services/fine-tuning/src/lib.rs:291 | At every epoch the shown progress is 100 e / t up to a relative error of 5 * 2^-24, for every number of epochs. |
| FineTuningAccuracy.LossIsNear | services/fine-tuning/src/lib.rs:293 | At every epoch the shown loss is 2 (1 - e / t) up to 2^-20. |
| FineTuningAccuracy.ProgressIff | services/fine-tuning/src/lib.rs:291 | The progress, one rounding after another: two conversions, a quotient, a product. |
| FineTuningAccuracy.LossIff | services/fine-tuning/src/lib.rs:293 | The loss, one rounding after another. |
| FineTuningProgress.TaskWasStarted | services/fine-tuning/src/lib.rs:138-145 | Every training task comes from a start of its own. |
| FineTuning.FineTuningService.CreateJob | services/fine-tuning/src/lib.rs:83-118 | The new job, or the error for a missing model or dataset. |
| FineTuning.FineTuningService.StartJob | services/fine-tuning/src/lib.rs:121-148 | From Pending or Paused only; spawns a task. |
| FineTuning.FineTuningService.PauseJob | services/fine-tuning/src/lib.rs:151-168 | From Running only. |
| FineTuning.FineTuningService.ResumeJob | services/fine-tuning/src/lib.rs:171-188 | From Paused only, to Running. |
| FineTuning.FineTuningService.CancelJob | services/fine-tuning/src/lib.rs:191-208 | From any status but Completed and Cancelled. |
| FineTuning.FineTuningService.DeleteJob | services/fine-tuning/src/lib.rs:226-243 | From any status but Running. |
| FineTuning.FineTuningService.CheckStatus | services/fine-tuning/src/lib.rs:256-280 | What a task does when it looks at its job before an epoch. |
| FineTuning.FineTuningService.WaitForResume | services/fine-tuning/src/lib.rs:266-277 | One round of the wait loop. |
| FineTuning.FineTuningService.RecordEpoch | services/fine-tuning/src/lib.rs:287-295 | The update after an epoch, and nothing if the job is gone. |
| FineTuning.FineTuningService.Complete | services/fine-tuning/src/lib.rs:301-308 | The update after the loop. |
| FineTuning.FineTuningService.RunTraining | services/fine-tuning/src/lib.rs:246-311 | The whole loop over the epochs, run without interference, completes the job with the numbers of its last epoch. |
| FailureDetector.ListedWithin36Seconds | services/coordinator/src/main.rs:116-151 | With sweeps every five seconds and free locks, a listed node's last heartbeat is less than 36 seconds old, a Healthy node's less than 16. |
| FailureDetector.ListedNodesAreFresh | services/coordinator/src/main.rs:116-151 | The same for any sweep period and any bound on waits for the lock; listed nodes are Healthy or Suspect, never Unavailable. |
| FailureDetector.AliveNodeIsNeverRemoved | services/coordinator/src/main.rs:138-150 | A node whose successive heartbeats are less than 31 seconds apart stays listed, whenever the sweeps come. |
| FailureDetector.SilentNodeIsRemoved | services/coordinator/src/main.rs:138-150 | A node that falls silent is gone within 31 seconds and one period, and no later event, heartbeats included, lists it again unless it is a registration of its id. |
| FailureDetector.UnlistedStaysUnlisted | services/coordinator/src/api.rs:144-169 | Over every run without a registration of its id, an id that is not listed stays unlisted, whatever heartbeats are sent for it. |
| FailureRuns.ListedIff | services/coordinator/src/main.rs:116-151 | In every run a node is listed if and only if some registration listed it and no sweep since read the clock 31 seconds or more after its last heartbeat. |
| FailureRuns.ListedNodeIs | services/coordinator/src/api.rs:115-158 | In every run a listed node shows time and resources of its last heartbeat, and is Suspect exactly if a sweep since then read the clock 11 seconds or more after it, Healthy otherwise. |
| FailureRuns.HeartbeatIs | services/coordinator/src/api.rs:154-162 | A heartbeat makes its node Healthy with the new time and resources, leaves all others alone, and does nothing for a node that is not listed. |
| FailureRuns.RegistrationIs | services/coordinator/src/api.rs:92-116 | A registration lists its node as Healthy and leaves all others alone. |
| FailureDetector.SweepRemovesIff | services/coordinator/src/main.rs:138-150 | A sweep removes a node exactly if it was silent for at least 31 seconds when the sweep read the clock, turns a Healthy one Suspect exactly from 11 seconds on, and changes nothing else about it. |
| FailureDetector.StepKeepsFresh | services/coordinator/src/api.rs:115-158 | Registration, heartbeat and sweep keep every listed node's age at the last sweep within the limits. |
| FailureDetector.ClusterState.Sweep | services/coordinator/src/main.rs:123-150 | The loop that marks nodes and collects the silent ones, and the loop that removes them. |
| FailureDetector.ClusterState.MarkNodes | services/coordinator/src/main.rs:127-143 | The marking loop, in any order of the nodes. |
| FailureDetector.ClusterState.RegisterNode | services/coordinator/src/api.rs:92-116 | Lists the node as Healthy with the time read before the lock. |
| FailureDetector.ClusterState.SendHeartbeat | services/coordinator/src/api.rs:144-169 | Refreshes a listed node and makes it Healthy, or one of the two errors. |

## Left out

- Tensor directory: freedom from deadlock is not claimed, because `evict_from_node` and `get_tensors_on_node` take the two locks in the other order than the remaining calls.
- Tensor directory: `created_at` and `last_accessed`, `get_tensors_by_session`, `get_tensors_for_replication`, metrics and logging; versions are unbounded where the program has 64 bits.
- Lock queues: the order in which waiting calls get a lock, and fairness. Any order is allowed, so what is proved of every run holds for every order.
- SchedulerLocks.NeverStuck: some call can move if the locks are granted in a suitable order; that a particular queue grants them in such an order is not claimed.
- Scheduler: the value of a node's score; only the order of the scores is used, and a score that is not a number would end the program.
- Scheduler: throughput estimates and metrics; CPU shares are whole percents and memories whole GiB, which represents every amount that occurs.
- Planner: choice of the strategy, KV-cache plan and performance estimate; the overflow panic of a debug build.
- GGUF parser: failure to allocate the length a file claims, the depth of the call stack, and read errors other than a premature end; sizes are 64 bits wide.
- GGUF parser: the accessor functions and `calculate_size`, which are single expressions.
- GgufFiles.ParseUndoesEncode: metadata comes back as the map the parser keeps, so the order of pairs and overwritten duplicates of a key do not.
- Pairing: the cryptographic functions themselves (Ed25519, SHA-256, random numbers), `generate_fingerprint` and `sign_challenge`; times beyond 64 bits.
- PairingProofs.CleanupIsTransparent: the two error messages for an overdue challenge are not told apart, because the program gives one or the other depending on whether a cleanup came first.
- PairingProofs.RevocationIsPermanent: rests on ids never being drawn twice.
- PairingProofs.AcceptedCertificatesWereIssued: for certificates whose signature the coordinator made; that nobody else can make one is what Ed25519 is relied on for.
- Fine-tuning: configuration fields other than the number of epochs, `list_jobs` and `get_stats`, the length of sleeps, and aborting a task at an await point.
- FineTuningProgress.SingleStartMovesForward: for jobs started at most once; `FineTuningRestart.SecondStartSetsBackIff` says when a second start breaks it.
- Failure detector: node statuses that no call of the coordinator sets, resource totals of the logical cluster, and clocks that go back.
- FailureDetector.AliveNodeIsNeverRemoved: for ids that are not registered a second time, as ids are random.
- Model registry, topology profiling, runtime adapters, transports and user interfaces: device queries, file-system effects, stubs and library calls.
