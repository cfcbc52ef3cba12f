# Shared-NPU control plane: a verified model

This project models the control plane of `ubs-virt-enpu`, which lets several vNPUs share a
physical NPU, and proves what keeps its books straight over every interleaving.  Each
module stands for one component:

- `TimeSliceLedger`, `Rotation`, `PriorityWindow`: the time-slice scheduler. Sibling
  processes share one ledger per vNPU; ownership rotates; two priority classes take turns.
- `EpochProtocol`, `EpochTheorems`, `EpochHazards`, `EpochExactlyOnce`, `EpochMemory`: the
  swap-out command. The manager publishes an epoch, processes acknowledge without locks, the
  watchdog acknowledges for the gone.
- `SwapData`, `TrackerTable`, `Accounting`, `AccountingClamps`, `ElasticBorrow`: device
  memory. Bytes move out and back, records are indexed, two levels of counters follow, and
  borrowing is admitted.
- `DieNode`, `Rollback`, `DieChoice`, `Placement`, `PlacementStrays`: placing a vNPU on a
  die with an undo log.
- `McsGate`, `McsRegistry`: the launch gate and the live-allocation table of MCS.
- `BucketRing`, `CaptureStats`: windowed statistics and attribution of captured launches.
- `Arithmetic`, `Search`, `Sums`: shared facts about division, linear search and weighted sums.

A protocol is a state machine: a state, steps with a guard, and runs as sequences of steps.
Plain fields count the history, so that laws speak of whole runs.  Code that updates
memory in place is a class whose methods are proved against the same functions.

Where a property fails, the model keeps the code as it is, exhibits a run that fails, and
states the exact condition:

| failure | run | exact condition |
|---|---|---|
| a process 256 turns late closes a turn | `LagBreaksTheLaw`, `LateChargeBreaksTheLaw` | `CloseKeepsLawIff` |
| a store lands on the next epoch | `LateStoreCompletesTooEarly`, `LateStoreStalls` | `IssueSafeIff` |
| a marked slot is never acknowledged | `ReusedSlotLosesAck`, `StaleAckLosesCommand` | `AckedOnceIff`, `IssueAcksOnceIff` |
| the refcount is not what is owed and in flight | `ReusedSlotLosesAck`, `LateDecrementHidesDebt` | `RefcountExactIff` |
| a vNPU is provisioned during a command | `ProvisionDropsCommand` | `ProvisionSafeIff` |
| a swap-out overtakes the counting of an allocation | `CountedTwice`, `CountedTwiceInTotal` | `OwnExactIff`, `TotalExactIff`, `OwnClampsIff`, `TotalClampsIff` |
| a process goes between its two counter updates | `GoneHalfCounted` | `ReleaseKeepsIff`, `TotalIsOffBy` |
| elastic admissions overlap | `OverlapOvercommits` | `KeepsTotalIff` |
| one normal launch per burst, as a comment has it | `BoundIsTight` | `OnePerBurstIff` |
| the MCS table erases in the middle of a probe run | `FreedButStillCounted` | `EraseKeepsIntactIff`, `FreeKeepsExactIff` |
| a live key of the MCS table shrinks | `ShrunkStillCounted` | `AllocKeepsExactIff` |
| a registration cannot be persisted | `StrayTakesPlaceAway`, `StrayBreaksTheLaw` | `StrayReleaseIff` |
| a rollback changes the parent mask | `SecondUndoSetsBit` | `ParentMaskRestoredIff` |
| a live pointer is added again | `AddedTwiceDisagrees` | `AddKeepsAgreementIff` |
| a task group begins inside an open one | `BegunTwiceDrops` | `BeginKeepsIff`, `CountsAddUpIff` |
| a model holds a group twice, or more than 64 | `GroupTwiceCountsTwice` | `ModelTotalDistinctIff`, `ModelTotalWithinLimitIff` |
| a ring is shorter than its window | `ShippedIsNotExact` | `ExactIff` |

## Assumptions

- Mutex sections are one step, locks succeed, and no process dies inside one.
- Manager and watchdog operations hold the manager's lock; registration is one step; the
  a slot is registered again only when the process that had it takes no further step.
- A new command is issued only when the last one is completed.  Epochs do not wrap.
- The swap buffer of a process is as large as its unswapped records; swap-in device calls
  succeed.  Device calls of a swap-out may fail at any point.
- Hash maps behave as maps; oversubscription ratios are exact reals; byte counts, other
  than the ledger's 64-bit words and 8-bit turns, do not overflow.  A memory counter below
  zero is read as its 64-bit complement, which exceeds what any swap-out moves.
- Dies are told apart by distinct minor ids; a default pod or container name is not also
  given explicitly.

## Model

| member | source | states |
|---|---|---|
| `TimeSliceLedger.SchedContext.constructor` | ubs-virt-enpu/vcann-rt/src/core_limiter.c:721-740 | a fresh context owes nothing and has its injected-for marker on the turn before the first |
| `TimeSliceLedger.SchedContext.AddAndConsume` | ubs-virt-enpu/vcann-rt/src/core_limiter.c:372-417 | the mutex section: the first process of a turn injects the quota, grants the positive part and leaves the rest as debt; later ones only announce themselves |
| `TimeSliceLedger.SchedContext.CloseTurn` | ubs-virt-enpu/vcann-rt/src/core_limiter.c:651-663 | the leader section: only a process whose turn is still current charges the longest sync, hands the device to the next vNPU if there is one, and advances the 8-bit turn |
| `TimeSliceLedger.EachPhaseHasItsStep` | ubs-virt-enpu/vcann-rt/src/core_limiter.c:582-668 | in every state each process has its one next step of the loop, and may die |
| `TimeSliceLedger.InjectInIntegers` | ubs-virt-enpu/vcann-rt/src/core_limiter.c:396-408 | despite 64-bit wrap-around and the signed cast, the slice is the positive part of ledger plus quota in plain integers and the debt bound carries over |
| `TimeSliceLedger.EnterKeepsInv` | ubs-virt-enpu/vcann-rt/src/core_limiter.c:386-413 | entering a turn keeps quota once per turn and time conserved |
| `TimeSliceLedger.CloseKeepsInv` | ubs-virt-enpu/vcann-rt/src/core_limiter.c:651-663 | closing a turn keeps quota once per turn and time conserved, and leaves no more debt than the longest overrun |
| `TimeSliceLedger.LedgerLaw` | ubs-virt-enpu/vcann-rt/src/core_limiter.c:372-432 | in every lag-free interleaving of any number of sibling processes, with crashes: one injection per turn across wrap-around, slices plus debts charged equal injections times quota plus outstanding debt, debt between 0 and the largest overrun |
| `TimeSliceLedger.ShareBetweenTurns` | ubs-virt-enpu/vcann-rt/src/core_limiter.c:582-668 | between turns the vNPU has had turns times quota plus what it owes, and owes at most one overrun |
| `TimeSliceLedger.TurnsChargeTheirLongestSync` | ubs-virt-enpu/vcann-rt/src/core_limiter.c:386-413 | in every run: what has been charged is the sum over the closed turns of the longest sync posted in each since its injection, and the barrier counters are the processes that entered and reported since |
| `TimeSliceLedger.EmptyTurnRuns` | ubs-virt-enpu/vcann-rt/src/core_limiter.c:618-663 | a pass in a turn without a slice posts and charges nothing and closes the turn all the same |
| `TimeSliceLedger.DebtBoundIsTight` | ubs-virt-enpu/vcann-rt/src/core_limiter.c:651-655 | for every overrun there is a run that reaches the bound |
| `TimeSliceLedger.CloseKeepsLawIff` | ubs-virt-enpu/vcann-rt/src/core_limiter.c:651-662 | a close keeps the whole law exactly when the closer is not the leader, or the turn has had its quota and what it charges fits, with the debt, into one overrun |
| `TimeSliceLedger.SliceProtects` | ubs-virt-enpu/vcann-rt/src/core_limiter.c:651-662 | a close breaks the law only 256 or more turns late, and in a turn that has had its quota only with a slice of another turn while this one has none |
| `TimeSliceLedger.LagBreaksTheLaw` | ubs-virt-enpu/vcann-rt/src/core_limiter.c:651-662 | a process 256 turns late closes a turn that was never injected, for every quota |
| `TimeSliceLedger.LateChargeBreaksTheLaw` | ubs-virt-enpu/vcann-rt/src/core_limiter.c:625-662 | two processes 256 turns late charge an old sync to a turn without a slice, so that more is owed than any overrun, for every quota below a third of 2^63 |
| `Rotation.SelectNextOwner` | ubs-virt-enpu/vcann-rt/src/core_limiter.c:288-301 | the specified next owner, and none exactly when nobody is eligible |
| `Rotation.NextOrNone` | ubs-virt-enpu/vcann-rt/src/core_limiter.c:288-301 | the next owner is the first eligible vNPU after the owner in cyclic order, and there is none exactly when nobody is eligible |
| `Rotation.NextMember` | ubs-virt-enpu/vcann-rt/src/core_limiter.c:288-301 | from any member of a rotation ownership goes to the cyclically next one |
| `Rotation.AfterHandovers` | ubs-virt-enpu/vcann-rt/src/core_limiter.c:288-312 | the owner and the number of wraps after any number of handovers |
| `Rotation.FairRotation` | ubs-virt-enpu/vcann-rt/src/core_limiter.c:288-312 | any k consecutive handovers among k members visit each exactly once, end where they began and wrap exactly once, so fixed-share idles once per cycle |
| `Rotation.VnpuIdling` | ubs-virt-enpu/vcann-rt/src/core_limiter.c:274-286 | with its early exit, the idle time is what the quotas leave of 100 percent of the period, rounded down, and nothing when they exceed it |
| `Rotation.CycleNearPeriod` | ubs-virt-enpu/vcann-rt/src/core_limiter.c:274-286 | when quotas sum to at most 100, the slices of all k members and one idle lie within k ns below the period, and are the period when 100 divides it |
| `Rotation.CyclesTakePeriods` | ubs-virt-enpu/vcann-rt/src/core_limiter.c:755-772 | c cycles started at any member take exactly c cycle times, with the 100 ms period exactly c periods |
| `PriorityWindow.AdmissionAllowed` | ubs-virt-enpu/vcann-rt/src/core_limiter.c:128-157 | a launch is admitted unless a vNPU of the other class has shown itself within 3 ms and submitted within 5 ms, on either side of the clock; then normal inside and high outside the window |
| `PriorityWindow.AdmittedIff` | ubs-virt-enpu/vcann-rt/src/core_limiter.c:128-157 | the specification of admission says just that |
| `PriorityWindow.ExactlyOneAdmitted` | ubs-virt-enpu/vcann-rt/src/core_limiter.c:138-157 | under contention exactly one class is admitted at every instant; an uncontested class always is |
| `PriorityWindow.PeriodGivesWindow` | ubs-virt-enpu/vcann-rt/src/core_limiter.c:152-154 | under continuous contention any stretch of one period, wherever it starts, admits normal for exactly the window and high for the rest |
| `PriorityWindow.NormalWaitIsBounded` | ubs-virt-enpu/vcann-rt/src/core_limiter.c:165-180 | a normal waiter polling at least once per window length is admitted within one period of its first poll |
| `PriorityWindow.HighWaitIsBounded` | ubs-virt-enpu/vcann-rt/src/core_limiter.c:165-180 | a high-priority waiter is admitted within the window length and one polling gap |
| `EpochProtocol.IssueMarksActive` | ubs-virt-enpu/enpu-manager/core/src/shm_manager.c:628-651 | a command writes the new epoch into the markers of exactly the active slots of its vNPU, counts them, and is completed at once exactly when there are none |
| `EpochProtocol.IssueKeepsInv` | ubs-virt-enpu/enpu-manager/core/src/shm_manager.c:594-659 | issuing an epoch marks exactly the active slots of the target, with a refcount to match |
| `EpochProtocol.ProxyKeepsInv` | ubs-virt-enpu/enpu-manager/core/src/shm_manager.c:740-791 | an acknowledgement by the watchdog keeps exactly-once, the refcount law and the meaning of completed |
| `EpochProtocol.ExchangeKeepsInv` | ubs-virt-enpu/vcann-rt/src/shm_manager.c:308-312 | the exchange lets either the process or the watchdog acknowledge, never both |
| `EpochProtocol.RecheckKeepsInv` | ubs-virt-enpu/vcann-rt/src/shm_manager.c:281-294 | only an acker that sees no owing slot goes on to complete the command |
| `EpochProtocol.StepKeepsInv` | ubs-virt-enpu/vcann-rt/src/shm_manager.c:259-319 | every step of processes, resolver and watchdog keeps the protocol invariant |
| `EpochTheorems.EpochSafety` | ubs-virt-enpu/vcann-rt/src/shm_manager.c:259-319 | in every safe run of any number of slots: completed only when no slot owes the epoch; each marked slot still owes, or has been acknowledged once, or has lost its marker, and only one of these; the refcount is what is owed, in flight, lost and stuck, less late decrements |
| `EpochTheorems.NoLostCompletion` | ubs-virt-enpu/vcann-rt/src/shm_manager.c:281-319 | once nobody owes the epoch and no acker is mid-step the command is completed, unless a marker was erased or a dead acker slot reused; and one watchdog poll completes it exactly when nobody owes |
| `EpochTheorems.PollCompletesIff` | ubs-virt-enpu/enpu-manager/core/src/shm_manager.c:793-831 | the completion scan completes the command exactly when no slot owes it |
| `EpochTheorems.FreedSlotIsFree` | ubs-virt-enpu/enpu-manager/core/src/pod_watchdog.c:95-106 | a slot that is unregistered, reaped or reset is marked by no later command and can be registered once its process is gone; then it is marked again |
| `EpochTheorems.CrashedTakesNoStep` | ubs-virt-enpu/enpu-manager/core/src/pod_watchdog.c:117-187 | a process that has died takes no step of its own and leaves shared memory as it was |
| `EpochTheorems.WatchdogConverges` | ubs-virt-enpu/enpu-manager/core/src/pod_watchdog.c:117-187 | after any mix of deaths, unregistrations and resets one watchdog pass and its poll complete the command as soon as only gone processes owe it |
| `EpochTheorems.CompletionStaysPossible` | ubs-virt-enpu/enpu-manager/core/src/pod_watchdog.c:258-274 | from every state of every safe run the pending command can still be completed |
| `EpochHazards.IssueSafeIff` | ubs-virt-enpu/vcann-rt/src/shm_manager.c:281-296 | issuing a command is sound, whatever step follows, exactly when no process is between its re-check and its last store |
| `EpochHazards.ProvisionSafeIff` | ubs-virt-enpu/enpu-manager/core/src/shm_manager.c:479-499 | provisioning a vNPU, which stores completed, keeps the protocol invariant, and every safe continuation sound, exactly when no slot owes the current command |
| `EpochHazards.ProvisionDropsCommand` | ubs-virt-enpu/enpu-manager/core/src/shm_manager.c:479-499 | a reachable state in which provisioning completes a command that nobody has acknowledged, so that the next can be issued |
| `EpochHazards.LateStoreCompletesTooEarly` | ubs-virt-enpu/vcann-rt/src/shm_manager.c:281-296 | a reachable state in which a late store completes the next command while a slot still owes it |
| `EpochHazards.LateStoreStalls` | ubs-virt-enpu/vcann-rt/src/shm_manager.c:281-296 | a reachable state in which a late store unpublishes the next command |
| `EpochHazards.StalledForever` | ubs-virt-enpu/enpu-manager/core/src/shm_manager.c:793-831 | a command that is pending but no longer published is never completed by any process, proxy or poll |
| `EpochExactlyOnce.AckedOnceIff` | ubs-virt-enpu/vcann-rt/src/shm_manager.c:308-319 | after a safe command, in every safe run up to the next one: no slot is acknowledged twice, and a marked slot that owes nothing has been acknowledged exactly once if and only if no registration, reset or acknowledgement of another epoch has erased its marker |
| `EpochExactlyOnce.IssueAcksOnceIff` | ubs-virt-enpu/vcann-rt/src/shm_manager.c:308-312 | a command acknowledges a marked slot exactly once in all its safe continuations, the slot changing hands apart, if and only if it is issued while the process of the slot is not about to acknowledge another epoch |
| `EpochExactlyOnce.RefcountExactIff` | ubs-virt-enpu/vcann-rt/src/shm_manager.c:310-315 | in every safe run the refcount is what is owed and in flight if and only if late decrements make up for erased markers and decrements that never come |
| `EpochExactlyOnce.ReusedSlotLosesAck` | ubs-virt-enpu/vcann-rt/src/npu_manager.c:290-297 | a reachable state in which a slot changed hands before the watchdog came: nobody owes the command, nobody is about to complete it and its refcount is one; a poll completes it unacknowledged |
| `EpochExactlyOnce.StaleAckLosesCommand` | ubs-virt-enpu/vcann-rt/src/shm_manager.c:308-312 | a reachable state in which the acknowledgement of an old epoch takes a newer marker, and the command completes although its live process has never seen it |
| `EpochExactlyOnce.LateDecrementHidesDebt` | ubs-virt-enpu/vcann-rt/src/shm_manager.c:314-315 | a reachable state in which a late decrement leaves a refcount of zero while a slot owes the command |
| `EpochMemory.Die.AckDone` | ubs-virt-enpu/vcann-rt/src/shm_manager.c:259-277 | the scan returns whether no slot of the vNPU carries the epoch |
| `EpochMemory.Die.WriteSwapOut` | ubs-virt-enpu/enpu-manager/core/src/shm_manager.c:594-659 | the manager loop marks exactly the active slots of the vNPU and publishes the command of the protocol step |
| `EpochMemory.Die.ProxyAckProcess` | ubs-virt-enpu/enpu-manager/core/src/shm_manager.c:740-791 | the proxy acknowledgement of the protocol step |
| `EpochMemory.Die.TryCompleteSwapCmd` | ubs-virt-enpu/enpu-manager/core/src/shm_manager.c:793-831 | the completion scan of the protocol step |
| `EpochMemory.Die.TryAckSwapCmd` | ubs-virt-enpu/vcann-rt/src/shm_manager.c:298-319 | an undisturbed acknowledgement clears the marker once and completes the last one; epoch zero and a marker of another epoch are reported as failures |
| `EpochMemory.Die.PollAndCleanup` | ubs-virt-enpu/enpu-manager/core/src/pod_watchdog.c:117-187 | the watchdog loop acknowledges for every gone slot and then polls |
| `EpochMemory.VisitAllIsSweep` | ubs-virt-enpu/enpu-manager/core/src/pod_watchdog.c:117-187 | the watchdog loop is the pass that the protocol theorems speak of |
| `EpochMemory.StepsAckAlone` | ubs-virt-enpu/vcann-rt/src/shm_manager.c:298-319 | the five steps of an acknowledgement, run undisturbed, are the effect of the method |
| `SwapData.AlignFixedIff` | ubs-virt-enpu/vcann-rt/src/swap_executor.c:148-153 | rounding to the granularity leaves exactly its multiples unchanged |
| `SwapData.AlignIsMultiple` | ubs-virt-enpu/vcann-rt/src/swap_executor.c:148-153 | rounding up is idempotent, never shrinks and yields a multiple |
| `SwapData.SwapOutLayout` | ubs-virt-enpu/vcann-rt/src/swap_executor.c:55-126 | whatever copies fail, the swapped records lie in pairwise disjoint consecutive ranges from the offset on, each holding the bytes of its memory |
| `SwapData.SwapOutMarks` | ubs-virt-enpu/vcann-rt/src/swap_executor.c:55-126 | exactly the records with a pointer whose calls all succeeded are marked swapped, physical ones included |
| `SwapData.SwapOutReports` | ubs-virt-enpu/vcann-rt/src/swap_executor.c:48-133 | the reported amount is the bytes of exactly these records |
| `SwapData.SkippedStays` | ubs-virt-enpu/vcann-rt/src/swap_executor.c:58-62 | a record swapped out already, or without a pointer, stays as it is, in every state |
| `SwapData.SwapOutUnmaps` | ubs-virt-enpu/vcann-rt/src/swap_executor.c:55-126 | exactly their memory, and that of records failing after the unmap, leaves the device |
| `SwapData.SwapInMaps` | ubs-virt-enpu/vcann-rt/src/swap_hook.c:160-189 | swap-in maps exactly the swapped pointers back and touches no other memory |
| `SwapData.SwapInBytes` | ubs-virt-enpu/vcann-rt/src/swap_executor.c:135-186 | each swapped record gets the bytes of its own range back |
| `SwapData.SwapInSizes` | ubs-virt-enpu/vcann-rt/src/swap_executor.c:135-186 | each restored record has the size of the memory it gets: as recorded for physical memory, else the next multiple of the granularity |
| `SwapData.RecordsRoundTrip` | ubs-virt-enpu/vcann-rt/src/swap_hook.c:160-189 | out and back, every record is as before with a new handle if it was moved |
| `SwapData.BytesRoundTrip` | ubs-virt-enpu/vcann-rt/src/swap_executor.c:135-186 | out and back, the device holds exactly what it held, except what a failed free had already unmapped |
| `SwapData.Executor.CopyToHost` | ubs-virt-enpu/vcann-rt/src/swap_executor.c:66-109 | the copy overwrites exactly its range of the buffer |
| `SwapData.Executor.SwapOutOne` | ubs-virt-enpu/vcann-rt/src/swap_executor.c:58-120 | one turn of the loop on the real buffer is the specified turn |
| `SwapData.Executor.SwapOutRecords` | ubs-virt-enpu/vcann-rt/src/swap_executor.c:48-133 | the loop computes the specified pass and reports the bytes moved |
| `SwapData.Executor.SwapInRecords` | ubs-virt-enpu/vcann-rt/src/swap_hook.c:160-189 | the restore loop computes the specified restoration |
| `Accounting.RestoreKeeps` | ubs-virt-enpu/vcann-rt/src/swap_hook.c:156-189 | restoring by the recorded swap size keeps both levels in balance, also for records counted only meanwhile |
| `Accounting.OwnMinusShare` | ubs-virt-enpu/vcann-rt/src/npu_manager.c:308-325 | what the two counters of one process differ by |
| `Accounting.StepKeepsInv` | ubs-virt-enpu/vcann-rt/src/swap_hook.c:66-77 | every counter update of every interleaving keeps the law |
| `Accounting.AccountingLaw` | ubs-virt-enpu/vcann-rt/src/swap_monitor_thread.c:124-146 | in every run of any number of processes and threads: a quiet process counts its unswapped records plus what its swap-outs clamped; when all are quiet the vNPU counter is all unswapped records plus what was clamped there plus what departed processes left behind |
| `Accounting.KeptGrowsIff` | ubs-virt-enpu/vcann-rt/src/swap_monitor_thread.c:130-141 | the clamped bytes of a process grow exactly when a swap-out of it subtracts less than it moved |
| `Accounting.OwnExactIff` | ubs-virt-enpu/vcann-rt/src/swap_monitor_thread.c:129-134 | from a free slot on, a quiet process counts exactly its unswapped records if and only if no swap-out of it has clamped on its counter |
| `Accounting.TotalExactIff` | ubs-virt-enpu/vcann-rt/src/swap_monitor_thread.c:135-141 | while no process has gone, a quiet vNPU counter is exactly the unswapped records if and only if no swap-out has clamped on it |
| `Accounting.TotalIsOffBy` | ubs-virt-enpu/vcann-rt/src/swap_monitor_thread.c:135-141 | in every run, processes gone or not, a quiet vNPU counter is off by exactly what clamping swap-outs kept in it, less what departing processes had clamped or only half applied |
| `AccountingClamps.OwnClampsIff` | ubs-virt-enpu/vcann-rt/src/swap_monitor_thread.c:130-134 | at any read, a swap-out takes too little off the process counter exactly when more bytes were moved uncounted than stay counted, and the counter is not below zero |
| `AccountingClamps.TotalClampsIff` | ubs-virt-enpu/vcann-rt/src/swap_monitor_thread.c:135-139 | the same for the vNPU counter, over all processes, pending frees and swaps under way |
| `AccountingClamps.ClampBitesIff` | ubs-virt-enpu/vcann-rt/src/swap_monitor_thread.c:111-134 | foreseen before the swap-out starts: it moves more uncounted bytes than it leaves counted ones, pending frees and bytes kept before |
| `AccountingClamps.ReleaseKeepsIff` | ubs-virt-enpu/enpu-manager/core/src/pod_watchdog.c:169-185 | releasing a process leaves nothing in the vNPU counter exactly when its half-applied updates and its clamped bytes cancel out |
| `AccountingClamps.CalmRunsAreExact` | ubs-virt-enpu/vcann-rt/src/swap_monitor_thread.c:124-146 | in every run that swaps out and releases only between counted allocations nothing is clamped or left behind, no counter is negative, and both levels are exact |
| `AccountingClamps.CountedTwice` | ubs-virt-enpu/vcann-rt/src/swap_hook.c:63-77 | a run in which an allocation tracked before and counted after a swap-out ends up counted twice in both counters, for every size |
| `AccountingClamps.CountedTwiceInTotal` | ubs-virt-enpu/vcann-rt/src/swap_hook.c:63-77 | a run in which one counted by its process only ends up counted twice in the vNPU counter only |
| `AccountingClamps.GoneHalfCounted` | ubs-virt-enpu/vcann-rt/src/npu_manager.c:308-325 | a run in which a process goes between its two updates and leaves the vNPU counter below zero with no process left |
| `TrackerTable.AddKeepsAgreementIff` | ubs-virt-enpu/vcann-rt/src/memory_tracker.c:135-176 | adding keeps index and linear search in agreement exactly when the pointer is not live |
| `TrackerTable.AddedTwiceDisagrees` | ubs-virt-enpu/vcann-rt/src/memory_tracker.c:135-176 | a pointer added twice makes the index and a linear search disagree, in every table |
| `TrackerTable.AddedKeeps` | ubs-virt-enpu/vcann-rt/src/memory_tracker.c:135-176 | an add of a fresh pointer, with or without growing, keeps agreement |
| `TrackerTable.RemovedKeeps` | ubs-virt-enpu/vcann-rt/src/memory_tracker.c:178-220 | a shifting remove keeps agreement |
| `TrackerTable.IndexAgreesWithSearch` | ubs-virt-enpu/vcann-rt/src/memory_tracker.c:92-240 | after every sequence of fresh adds and removes the index finds what a linear search finds |
| `TrackerTable.AddEffect` | ubs-virt-enpu/vcann-rt/src/memory_tracker.c:135-176 | when an add appends, when it doubles the array, and when it reports success |
| `TrackerTable.AddsNeverLackRoom` | ubs-virt-enpu/vcann-rt/src/memory_tracker.c:143-173 | as long as growing succeeds, no add ever fails for want of room |
| `TrackerTable.Tracker.Expand` | ubs-virt-enpu/vcann-rt/src/memory_tracker.c:92-133 | copies the records in order and rebuilds the index over them |
| `TrackerTable.Tracker.AddRecord` | ubs-virt-enpu/vcann-rt/src/memory_tracker.c:135-176 | appends and indexes the record; reports failure when refused or when growing fails, in the latter case having recorded all the same |
| `TrackerTable.Tracker.RemoveRecord` | ubs-virt-enpu/vcann-rt/src/memory_tracker.c:178-220 | takes out the first record of the pointer, moving the later ones down in order |
| `TrackerTable.Tracker.FindRecord` | ubs-virt-enpu/vcann-rt/src/memory_tracker.c:222-240 | the lookup through the index returns the record that a linear search would |
| `ElasticBorrow.GetDynamicFree` | ubs-virt-enpu/vcann-rt/src/shm_manager.c:174-206 | the total without all requests and without all that is borrowed, never below zero |
| `ElasticBorrow.AdmittedFits` | ubs-virt-enpu/vcann-rt/src/mem_limiter.c:37-68 | every admitted borrowing allocation leaves all borrowed memory within the total less the requests, and every admitted allocation leaves the use within the total |
| `ElasticBorrow.BorrowsIff` | ubs-virt-enpu/vcann-rt/src/mem_limiter.c:61-65 | beyond a positive request admission is exact: granted exactly when all that is then borrowed fits beside the requests |
| `ElasticBorrow.WithinRequestIff` | ubs-virt-enpu/vcann-rt/src/mem_limiter.c:46-59 | within the limit, and within the request or without one, an allocation is granted exactly when the device has room; beyond the limit never |
| `ElasticBorrow.WithinRequestBorrows` | ubs-virt-enpu/vcann-rt/src/mem_limiter.c:53-59 | an allocation within a positive request borrows nothing; with a zero request the bound survives exactly when the dynamic free memory would have covered it |
| `ElasticBorrow.CountedAndFreed` | ubs-virt-enpu/vcann-rt/src/mem_limiter.c:70-93 | whatever is admitted can be counted, and whatever is counted can be given back |
| `ElasticBorrow.UseWithinTotal` | ubs-virt-enpu/vcann-rt/src/mem_limiter.c:70-93 | in every run of admissions, swap-ins, frees and swap-outs from an unused device with at most one admission uncounted at a time, the use stays within the total |
| `ElasticBorrow.OverlapOvercommits` | ubs-virt-enpu/vcann-rt/src/mem_limiter.c:70-93 | a run from an unused device in which two admissions before either is counted borrow the same memory, for every amount |
| `ElasticBorrow.KeepsTotalIff` | ubs-virt-enpu/vcann-rt/src/mem_limiter.c:70-93 | runs with at most k uncounted admissions at a time keep the use within the total if and only if k is at most one |
| `McsGate.HasHighPriorityActive` | ubs-virt-enpu/mcs/src/mcs_sched.c:135-170 | whether another, high-priority vNPU launched within the timeout on either side of now |
| `McsGate.RoundPassesIff` | ubs-virt-enpu/mcs/src/mcs_sched.c:223-232 | from every state a waiter gets through exactly when no high-priority vNPU is active or the counter has reached the limit; then it can launch, which starts the count again, and otherwise nothing changes |
| `McsGate.MustWait` | ubs-virt-enpu/mcs/src/mcs_sched.c:223-226 | the waiting condition: another, high-priority vNPU is active and the counter is below the limit, which is exactly when such a round does not pass |
| `McsGate.AntiStarvationBound` | ubs-virt-enpu/mcs/src/mcs_sched.c:204-233 | in every interleaving of n normal processes, m contended launches of one process are paid for by m times the limit high-priority launches, and the launches of all together stay within n times that rate |
| `McsGate.BoundIsTight` | ubs-virt-enpu/mcs/src/mcs_sched.c:223-231 | one burst can entitle every one of n waiters |
| `McsGate.OnePerBurstIff` | ubs-virt-enpu/mcs/src/mcs_sched.c:228-231 | the documented bound of one normal launch per burst holds exactly with at most one normal process |
| `McsGate.ExclusiveBound` | ubs-virt-enpu/mcs/src/mcs_sched.c:223-231 | with gate and reset as one step the bound holds for all normal launches together |
| `McsGate.WaiterPasses` | ubs-virt-enpu/mcs/src/mcs_sched.c:223-226 | after the limit of high-priority launches without a reset the next read lets a waiter through |
| `McsRegistry.LiveUsageBound` | ubs-virt-enpu/mcs/common/memory.c:76-123 | in every run of hooked allocations and frees, keys recurring or not, the counter is at least the bytes of all recorded live allocations and at most the quota |
| `McsRegistry.InsertKeepsIntact` | ubs-virt-enpu/mcs/common/memory.c:76-100 | recording never makes another key unreachable |
| `McsRegistry.EraseKeepsIntactIff` | ubs-virt-enpu/mcs/common/memory.c:104-123 | erasing without a tombstone keeps every other key reachable exactly when no other probe run goes through the slot |
| `McsRegistry.TidyUsageIsExact` | ubs-virt-enpu/mcs/common/memory.c:139-157 | with fresh keys and such frees only, the counter is exactly the live bytes |
| `McsRegistry.FreeKeepsExactIff` | ubs-virt-enpu/mcs/common/memory.c:104-123 | from every reachable state with an exact counter a free keeps it exact if and only if the key is not live, has no size, or is found as recorded |
| `McsRegistry.AllocKeepsExactIff` | ubs-virt-enpu/mcs/common/memory.c:70-100 | from every reachable state with an exact counter an accepted allocation keeps it exact if and only if its key is not live, had no size, or is found as recorded and does not shrink |
| `McsRegistry.ShrunkStillCounted` | ubs-virt-enpu/mcs/common/memory.c:70-94 | a live key handed out again with a smaller size stays counted with the larger one |
| `McsRegistry.FreedButStillCounted` | ubs-virt-enpu/mcs/common/memory.c:104-123 | whenever two keys collide, in a table of any size, freeing them in order leaves the second counted with nothing live |
| `McsRegistry.CountedUntilTouched` | ubs-virt-enpu/mcs/common/memory.c:76-123 | the slot of a key that is not live stays counted in every run that neither hands the key out again nor frees it |
| `McsRegistry.CountedInEveryContinuation` | ubs-virt-enpu/mcs/common/memory.c:76-123 | so does the second of the two colliding keys |
| `McsRegistry.ShippedHashCollides` | ubs-virt-enpu/mcs/common/memory.c:65-68 | the shipped hash has such keys for every table size |
| `McsRegistry.Tracker.TrackInsert` | ubs-virt-enpu/mcs/common/memory.c:76-100 | the probing loop finds the specified slot and returns the change of the counter |
| `McsRegistry.Tracker.TrackErase` | ubs-virt-enpu/mcs/common/memory.c:104-123 | the probing loop clears the specified slot and returns its size |
| `McsRegistry.Tracker.OnAlloc` | ubs-virt-enpu/mcs/common/memory.c:139-157 | guard, recording and counting are the allocation step of the runs |
| `McsRegistry.Tracker.OnFree` | ubs-virt-enpu/mcs/src/mcs_mem.c:62-69 | erasing and clamped lowering are the free step of the runs |
| `DieNode.Node.MarkVnpuOccupied` | ubs-virt-enpu/enpu-manager/core/src/npu_tree.c:582-613 | takes a free id out of the mask and the die out of the mask of its parent, refuses any other |
| `DieNode.Node.MarkVnpuFree` | ubs-virt-enpu/enpu-manager/core/src/npu_tree.c:615-646 | puts the id back into the mask and, unless it was there, the die into the mask of its parent |
| `DieNode.Node.UpdateQuota` | ubs-virt-enpu/enpu-manager/core/src/npu_tree.c:648-673 | adds the signed deltas to both quotas |
| `DieNode.Node.AttachPolicy` | ubs-virt-enpu/enpu-manager/core/src/npu_tree.c:675-708 | appends the policy and counts the vNPU unless the table is full |
| `DieNode.Node.DetachPolicy` | ubs-virt-enpu/enpu-manager/core/src/npu_tree.c:710-742 | removes the first entry of the id, keeping the order of the others |
| `DieNode.Node.AvailableVnpuId` | ubs-virt-enpu/enpu-manager/core/src/npu_tree.c:744-764 | the least free id, always below 64, or none |
| `DieNode.Node.ValidatePolicy` | ubs-virt-enpu/enpu-manager/core/src/npu_tree.c:934-954 | whether all normal-priority vNPUs have the policy |
| `DieNode.AttachUndone` | ubs-virt-enpu/enpu-manager/core/src/npu_tree.c:675-742 | detaching undoes attaching a new id, also when the table was full |
| `DieNode.OccupyUndone` | ubs-virt-enpu/enpu-manager/core/src/npu_tree.c:582-646 | freeing undoes occupying a free id |
| `Rollback.StepUndone` | ubs-virt-enpu/enpu-manager/core/src/rollback_log.c:93-196 | each logged step is undone exactly, but for the parent mask |
| `Rollback.RollbackIsInverse` | ubs-virt-enpu/enpu-manager/core/src/rollback_log.c:198-258 | for every log of successful steps on any dies, undoing in reverse order restores masks, quotas, policy lists in order, entries, config files and registry; parent masks gain the bits of the marked dies |
| `Rollback.ParentMaskRestoredIff` | ubs-virt-enpu/enpu-manager/core/src/npu_tree.c:603-607 | the parent masks too are restored exactly when the bits of all marked dies were set before |
| `Rollback.SecondUndoSetsBit` | ubs-virt-enpu/enpu-manager/core/src/npu_tree.c:635-639 | undoing a second vNPU on a die sets the parent bit that the first one had cleared |
| `Rollback.RollbackReportsIff` | ubs-virt-enpu/enpu-manager/core/src/config_manager.c:257-268 | although everything is undone, rollback reports success exactly when no config file had been written, because deleting one returns a path length |
| `Rollback.Log.Append` | ubs-virt-enpu/enpu-manager/core/src/rollback_log.c:44-91 | appends up to 16 steps and refuses the next |
| `Rollback.Log.RollBack` | ubs-virt-enpu/enpu-manager/core/src/rollback_log.c:198-258 | the reverse loop computes the specified undo, goes on after failures, and empties the log |
| `DieChoice.StrictTotalOrder` | ubs-virt-enpu/enpu-manager/core/src/evaluator_share.c:45-110 | on the candidates of one request each comparator is irreflexive, total, antisymmetric and transitive |
| `DieChoice.BeforeIsSmallerRank` | ubs-virt-enpu/enpu-manager/core/src/evaluator_share.c:45-110 | each comparator prefers exactly the lexicographically smaller rank: high priority spreads, then takes most memory; normal keeps off oversubscribed dies, then packs or spreads; minor id last |
| `DieChoice.MixedPrioritiesConflict` | ubs-virt-enpu/enpu-manager/core/src/evaluator_share.c:91-98 | between requests of different priority the comparator contradicts itself; the evaluator compares only candidates of one request |
| `DieChoice.CandidatesAreEligible` | ubs-virt-enpu/enpu-manager/core/src/evaluator_share.c:156-249 | the candidates are exactly the leaves that pass all filters, each once, with its least free id |
| `DieChoice.CollectCandidates` | ubs-virt-enpu/enpu-manager/core/src/evaluator_share.c:156-249 | the scan collects them in order |
| `DieChoice.EligibleIff` | ubs-virt-enpu/enpu-manager/core/src/evaluator_share.c:156-239 | a die can take a request exactly when it is a wanted one with a valid card number, oversubscribed if the limit exceeds the request, and has room for the limits within (1 + ratio) times its memory, for both quotas and for an id |
| `DieChoice.PickFirst` | ubs-virt-enpu/enpu-manager/core/src/evaluator_share.c:296-311 | the first compatible candidate of the sorted list |
| `DieChoice.FirstIsLeast` | ubs-virt-enpu/enpu-manager/core/src/evaluator_share.c:294-311 | whatever the sort does with ties, the pick is the least compatible candidate |
| `DieChoice.LeastIsUnique` | ubs-virt-enpu/enpu-manager/core/src/evaluator_share.c:294-311 | that candidate is unique |
| `DieChoice.ChoiceIgnoresLeafOrder` | ubs-virt-enpu/enpu-manager/core/src/evaluator_share.c:159-311 | the chosen die and id do not depend on the order of the leaves |
| `DieChoice.ChoiceHasLeastRank` | ubs-virt-enpu/enpu-manager/core/src/evaluator_share.c:45-110 | the chosen die has, among the eligible compatible ones, the least rank in terms of its own fields: high priority by vNPU count, then most memory, then minor id; normal by oversubscription, then count and AI cores by strategy, then minor id |
| `DieChoice.EvaluateShare` | ubs-virt-enpu/enpu-manager/core/src/evaluator_share.c:112-322 | in automatic mode the eligible compatible die of least rank with its least free id, with a wanted card the first eligible one if compatible; errors otherwise |
| `Placement.Prepare` | ubs-virt-enpu/enpu-manager/core/src/npu_allocator.c:85-141 | exactly which requests pass, and what carries over: high priority reserves no AI core and becomes best-effort, all else stays as asked; fixed-share requests what it may use, a request never exceeds its limit |
| `Placement.PreparedIsValidIff` | ubs-virt-enpu/enpu-manager/core/src/evaluator_share.c:119-135 | of the requests that pass, the evaluation turns down exactly those without memory |
| `Placement.AcceptedCanProceed` | ubs-virt-enpu/enpu-manager/core/src/npu_allocator.c:749-876 | under the law every accepted allocation can carry out all six steps, and may fail after any of them |
| `Placement.AllSteps` | ubs-virt-enpu/enpu-manager/core/src/npu_allocator.c:749-876 | the joint effect of the six steps |
| `Placement.FailedAllocationUndone` | ubs-virt-enpu/enpu-manager/core/src/npu_allocator.c:749-872 | an allocation whose later step fails leaves everything as it was but the parent mask bit |
| `Placement.PlacedKeepsInv` | ubs-virt-enpu/enpu-manager/core/src/npu_allocator.c:749-876 | a completed allocation keeps the ledger of every die |
| `Placement.ReleaseUndoesPlacement` | ubs-virt-enpu/enpu-manager/core/src/npu_allocator.c:749-925 | releasing what has just been placed restores masks, quotas, policies in order, shared memory, config files and registry, and sets the parent bit of the die |
| `Placement.ReleasedKeepsInv` | ubs-virt-enpu/enpu-manager/core/src/npu_allocator.c:886-925 | a release keeps the ledger of every die |
| `Placement.CountLaw` | ubs-virt-enpu/enpu-manager/core/src/npu_tree.c:693-702 | vNPU count, policy entries and occupied bits agree and never exceed 64 |
| `Placement.PlacementLaw` | ubs-virt-enpu/enpu-manager/core/src/npu_allocator.c:559-925 | in every run of allocations, failed allocations and releases without a persistence failure: quotas add up to the totals and stay non-negative, limits within floor((1+ratio)*total), each within the total and above its request only on an oversubscribed die, one policy among normal vNPUs, counts agree, ids below 64 |
| `Placement.ChoiceIsAccepted` | ubs-virt-enpu/enpu-manager/core/src/evaluator_share.c:267-311 | the evaluator only returns dies and ids of which this holds |
| `Placement.PersistFailureLeavesEntry` | ubs-virt-enpu/enpu-manager/core/src/allocation_registry.c:124-132 | a registration that cannot be persisted is rolled back except for its registry entry |
| `PlacementStrays.StepKeeps` | ubs-virt-enpu/enpu-manager/core/src/npu_allocator.c:559-925 | every allocation, failed or not, and every release but that of a stray on a taken id keeps the ledger of the registry without its strays |
| `PlacementStrays.StrayLaw` | ubs-virt-enpu/enpu-manager/core/src/npu_allocator.c:559-925 | in every run, persistence failures included, all that PlacementLaw states holds of the registry without its strays, as long as no stray whose id is taken is released |
| `PlacementStrays.StrayReleaseIff` | ubs-virt-enpu/enpu-manager/core/src/npu_allocator.c:900-914 | wherever a stray stands in the registry and whatever came since, its release keeps the ledger exactly when its id has not been given to another vNPU |
| `PlacementStrays.StrayTakesPlaceAway` | ubs-virt-enpu/enpu-manager/core/src/allocation_registry.c:124-132 | from every lawful state: a persistence failure, an allocation that gets the same id and the release of the stray leave a registered vNPU whose id is free and whose entry is gone |
| `PlacementStrays.StrayBreaksTheLaw` | ubs-virt-enpu/enpu-manager/core/src/allocation_registry.c:124-132 | such a run from empty dies |
| `BucketRing.RingHolds` | ubs-virt-enpu/vcann-rt/src/vnpu_stats.c:467-491 | each bucket holds the newest start of its index and the sum of exactly the events in it |
| `BucketRing.QueryCounts` | ubs-virt-enpu/vcann-rt/src/vnpu_stats.c:493-523 | for every shape and monotone log a query counts exactly the events in taken buckets that no later one has overwritten |
| `BucketRing.QueryPassesOver` | ubs-virt-enpu/vcann-rt/src/vnpu_stats.c:493-523 | a query passes over buckets never used, older than the window or dated after it |
| `BucketRing.ExactIff` | ubs-virt-enpu/vcann-rt/src/vnpu_stats.c:467-523 | the ring agrees with the full log on every query exactly when buckets times duration exceed the window |
| `BucketRing.ShippedIsNotExact` | ubs-virt-enpu/vcann-rt/src/include/vnpu_stats.h:27-29 | the shipped twelve buckets of 50 ms do not cover the 1000 ms window |
| `BucketRing.Stats.RecordLaunches` | ubs-virt-enpu/vcann-rt/src/vnpu_stats.c:467-491 | recording updates both sums as specified |
| `BucketRing.Stats.QueryStats` | ubs-virt-enpu/vcann-rt/src/vnpu_stats.c:493-523 | the loop returns both specified sums |
| `CaptureStats.EventRefines` | ubs-virt-enpu/vcann-rt/src/core_limiter.c:1189-1295 | every event changes the counters as it changes the sums of a book that keeps the launches themselves |
| `CaptureStats.RunRefines` | ubs-virt-enpu/vcann-rt/src/core_limiter.c:996-1295 | over every run, bracketed or not, the counters are the sums of that book |
| `CaptureStats.AttributedOrDropped` | ubs-virt-enpu/vcann-rt/src/core_limiter.c:1189-1295 | in every run, by any measure of launches: what is attributed and what begins inside open groups threw away is what was launched outside of update intervals |
| `CaptureStats.AttributedOnce` | ubs-virt-enpu/vcann-rt/src/core_limiter.c:1276-1295 | in every bracketed run each launch outside of update intervals is attributed exactly once, by any measure of launches |
| `CaptureStats.BeginKeepsIff` | ubs-virt-enpu/vcann-rt/src/core_limiter.c:1189-1257 | a begin keeps what is attributed exactly when the stream has no open group with launches in it |
| `CaptureStats.BegunTwiceDrops` | ubs-virt-enpu/vcann-rt/src/core_limiter.c:1189-1199 | a group begun twice loses its launch |
| `CaptureStats.CountsAddUpIff` | ubs-virt-enpu/vcann-rt/src/core_limiter.c:1276-1295 | all counters together equal the number of these launches if and only if no begin fell into an open group with launches |
| `CaptureStats.CountsAddUp` | ubs-virt-enpu/vcann-rt/src/core_limiter.c:1276-1295 | in every bracketed run they do |
| `CaptureStats.ModelTotalIff` | ubs-virt-enpu/vcann-rt/src/core_limiter.c:1080-1087 | counted per occurrence of a handle, a model total is its direct launches and the latest build or update of its groups exactly when the groups beyond the 64th have no block dimension |
| `CaptureStats.ModelTotalDistinctIff` | ubs-virt-enpu/vcann-rt/src/core_limiter.c:1080-1087 | with each group counted once, exactly when what the total counts again among the first 64 handles equals what it misses beyond them |
| `CaptureStats.ModelTotalWithinLimitIff` | ubs-virt-enpu/vcann-rt/src/core_limiter.c:1080-1087 | with at most 64 handles, exactly when no group with launches occurs twice |
| `CaptureStats.GroupTwiceCountsTwice` | ubs-virt-enpu/vcann-rt/src/core_limiter.c:1201-1244 | a run in which a model holds a group twice and counts its launch twice |
| `CaptureStats.ModelTotalBlockDim` | ubs-virt-enpu/vcann-rt/src/core_limiter.c:1080-1087 | the loop computes that total |
| `CaptureStats.Keeper.DispatchLaunch` | ubs-virt-enpu/vcann-rt/src/core_limiter.c:1276-1295 | a launch goes to the open group or update, else to the capture, else to the single operators |
| `CaptureStats.Keeper.BeginGroup` | ubs-virt-enpu/vcann-rt/src/core_limiter.c:1189-1199 | opens a group with empty sums |
| `CaptureStats.Keeper.FinishGroup` | ubs-virt-enpu/vcann-rt/src/core_limiter.c:1201-1244 | stores the group value and hands its count and handle to the stream |
| `CaptureStats.Keeper.BeginUpdate` | ubs-virt-enpu/vcann-rt/src/core_limiter.c:1246-1257 | opens an update of a group |
| `CaptureStats.Keeper.FinishUpdate` | ubs-virt-enpu/vcann-rt/src/core_limiter.c:1259-1274 | replaces the group value |
| `CaptureStats.Keeper.TransferToModel` | ubs-virt-enpu/vcann-rt/src/core_limiter.c:1025-1076 | moves sums and up to 64 handles to the model and clears the stream |

## Left out

- Crashes inside a mutex section and the robust-mutex takeover paths.
- The adaptive slide window, time-slice borrowing, utilisation sampling and kernel duration averages: they follow device readings.
- `wait_for_sibling_sync`: its timeout is covered by letting a process close a turn whether or not its siblings have reported.
- The swap-in command action and `swap_out_cmd`, through which a process asks the manager for room.
- The choice of the vNPU to swap out in `swap_resolver.c`, and the TLSF allocator of the swap pool.
- vNPU entries added or removed while a command targets them.
- Freeing physical memory whose record a swap-out has just overtaken.
- Swap-in failures: the counters are then raised by the whole recorded size.
- Splitting the final re-check of an acknowledgement into its four reads.
- Concurrent recorders of one statistics bucket: recording is one step.
- `mcs_shm_init` and the other shared-memory attach paths.
- Recovery of allocations from the checkpoint and the path for externally written configuration.
- `Placement.PlacementLaw`: excludes runs with a persistence failure; `PlacementStrays.StrayLaw` covers them.
- `EpochMemory.Die.PollAndCleanup`: the acknowledgements and the completion scan only; reaping a dead process's slot and counters is in `EpochProtocol.Reap` and in the `Release` step of `Accounting`, and its swap buffer is left out.
- `TimeSliceLedger.SchedContext.CloseTurn`: the idling of a fixed-share handover that wraps is in `Rotation`.
- `Accounting.TotalExactIff`: excludes runs in which a process goes; `Accounting.TotalIsOffBy` covers them.
- `Placement.Prepare`: takes the card check against the number of leaves as part of the evaluation, which finds no eligible leaf.
- `DieChoice.EvaluateShare`: sorts by insertion where the source calls the C library; the lemmas hold for every sorted permutation.
- `McsRegistry.LiveUsageBound`: speaks of recorded allocations; one that finds the table full goes uncounted in the source too.
- Runtime hooks, symbol loading, device management wrappers, logging, configuration files and storage.
- `ub-device-manager` and `virt-awaresched`.
