# A verified model of klink

klink is a Kubernetes operator. A `WorkloadDependency` (WD) names a *dependent* workload and the workloads it *depends on*;
when a dependency stays unhealthy for a window, klink takes the dependent to zero replicas, remembers the count, and puts it
back after recovery. This project models that controller in Dafny and proves what it promises over whole runs.
`dafny verify dfyconfig.toml` checks everything.

## How it is built

| file | contents |
|---|---|
| `Types.dfy`, `Workloads.dfy` | spec, status, the four workload kinds, reads and writes on them |
| `Machine.dfy` | one reconcile of one WD as a decision: workload write, status write, requeue |
| `Runs.dfy`, `Hysteresis.dfy`, `Response.dfy`, `Conservation.dfy`, `Enforcement.dfy` | theorems over every finite run of one WD |
| `Readiness.dfy` | the readiness percentage in binary64 arithmetic |
| `Conditions.dfy`, `StatusWrites.dfy` | the conditions list and the status write with its conflict retries |
| `Graphs.dfy`, `Cycles.dfy`, `Admission.dfy` | the cycle search, and what it achieves over the life of a cluster |
| `Clusters.dfy`, `Projection.dfy`, `Deadlock.dfy`, `Mutual.dfy`, `Standstill.dfy` | many WDs over shared workloads, with API faults |
| `Wire.dfy`, `Namespaces.dfy` | what decisions mean on the stored fields, in literal values; what leaving a namespace out means |
| `Index.dfy`, `Gate.dfy` | the field indexes and the admission webhook of gate mode |
| `Controller.dfy` | the reconciler as imperative code over mutable objects, proved equal to the cluster functions |
| `Counterexamples.dfy`, `ClusterCounterexamples.dfy` | runs and clusters that show why conditions are needed |

Three layers are tied together. `Controller.Reconciler.Reconcile` updates objects field by field, in the order the controller
does, with every read, patch, update and status attempt able to fail; it is proved equal to the function `Clusters.Reconcile`.
`Clusters.ReconcileIsStep` shows that, when the writes after a patch go through, such a reconcile is one step of the WD's own
machine. `Projection.ClusterRunProjects` then turns every cluster run in which the status writes of a WD meet no conflict into a run
of that machine, so the theorems about single runs hold for each WD of any cluster. What conflicts and failed status writes do is the
subject of `StatusWrites.dfy` and of `Projection.CountSurvivesExactlyWhen`.

A *run* is any finite sequence of reconciles with arbitrary inputs: between two reconciles anything may have happened to the
clock, the spec, the pause annotation, the dependent and the dependencies. An *enforcing* reconcile (`Active`) is in strict or soft
mode, not paused, and read everything. A reconcile is *interrupted* (`Interrupts`) when it is paused, misses its dependent, defers to a
Rollout in flight or runs in gate or observe mode; one that is neither enforcing nor interrupted failed to read something. A *plain*
stretch (`Plain`) has only enforcing reconciles, no Rollout in flight, patches
accepted and stored counts in the int32 range. A *punctual* stretch never comes later than the requeue asked for. Times are integers
in nanoseconds, with one clock reading per reconcile.

## What the code does differently from its documentation

- Recovery need not be continuous: `HealthySince` is not cleared by a later unhealthy observation. `Hysteresis.RecoveryExactlyWhen`
  gives the exact condition, `Counterexamples.RecoveryIsNotContinuous` a run.
- A pause, a missing dependent, a Rollout in flight or a switch to gate or observe mode drops the phase `Suspended` without restoring.
  `Conservation.AbandonsExactlyWhenInterrupted` is exact; deletion then leaves the workload at zero
  (`Conservation.DeletionGivesBackExactlyWhen`, `Counterexamples.PauseStrandsOnDeletion`).
- Mutual dependencies can deadlock. No group that depends only on itself is ever `Suspended` as a whole
  (`Deadlock.NeverAllSuspended`), but a pause leaves a workload at zero without `Suspended`, and resuming it while the other side is
  co-suspended records `Healthy` without a restore: `ClusterCounterexamples.PauseDeadlocksPair` is a run to a pair at zero on both sides.
  `Mutual.NeverAllHeld` and `Mutual.NeverAllAtZero` show that this needs an abandoned suspension, and
  `Mutual.ReconcileKeepsTrackedExactlyWhen` says exactly which reconciles abandon one. `Standstill.ComesBackExactlyWhen` says exactly which
  groups at zero klink brings back: those with a member that is not *trapped*, that is, among itself and the members it needs there are
  none that are not `Suspended` and need nobody else who is not. A mutual pair comes back only if both are `Suspended`
  (`Standstill.MutualStuckExactlyWhen`). All others stay at zero whatever klink does (`Standstill.StuckForever`).
- A pause also undoes `Released` (`Counterexamples.PauseLetsReleasedFlap`). `Hysteresis.ReleasedStaysExactlyWhen` is exact: without an
  enforcing healthy observation the phase stays `Released` if and only if no reconcile is interrupted.
- An all-healthy observation in gate mode does not reset the degraded window (`Counterexamples.GateObservationDoesNotReset`). A running
  window is reset if and only if an enforcing reconcile sees health (`Hysteresis.WindowResetsExactlyWhen`, `Hysteresis.WindowRunsOnExactlyWhen`).
- `DegradedSince` is not tracked while a dependent Rollout is progressing, although a comment says so
  (`Counterexamples.ProgressingStartsNoWindow`). A window starts if and only if an enforcing reconcile sees unhealth, outside
  `Suspended` and `Released`, with no Rollout in flight (`Hysteresis.WindowStartsExactlyWhen`).
- Strict mode does not revert manual scaling when `maxSuspendDuration` is set (`Enforcement.StrictReenforcesExactlyWhenUncapped`,
  `Counterexamples.CapDefeatsStrict`).
- A deleted WD never resumes its CronJob (`Conservation.DeletionNeverResumesCronJob`, with the run
  `Counterexamples.DeletionLeavesCronJobSuspended`).
- After a conflict a cleared `SavedReplicas`, `DegradedSince` or `HealthySince` can come back (`StatusWrites.ClearIsLostExactlyWhen`). A
  lost clear of `DegradedSince` defeats the degraded window (`Counterexamples.LostClearDefeatsWindow`), one of `SavedReplicas` leaves the
  count both on the server and saved (`Counterexamples.LostClearKeepsCount`).
- When a status write fails after a patch to zero, the count is lost (`ClusterCounterexamples.RejectedStatusLosesCount`);
  `Projection.CountSurvivesExactlyWhen` is exact over all API faults.
- The percentage can fall one short of the true one: 29 of 100 ready counts as 28 percent (`Readiness.TwentyNineOfHundred`). For
  `ready <= replicas` this happens if and only if exactly 29, 57 or 58 percent are ready (`Readiness.PercentIsFloorExactlyWhen`), and a
  threshold up to 100 is judged wrongly if and only if it is 29, 57 or 58 and exactly that share is ready
  (`Readiness.ThresholdExactlyWhen`, `Gate.HealthyExactlyWhen`).
- Cycles are looked for within one namespace only (`ClusterCounterexamples.NamespacesAreCheckedApart`). Admitting a WD keeps the admitted
  WDs of all namespaces free of cycles if and only if its spec closes none with their edges (`Admission.HarmlessEverywhereExactlyWhen`).
- A failed listing skips the check (`ClusterCounterexamples.FailedListingAdmitsCycle`). A reconcile keeps a namespace free of cycles if and
  only if it does not admit, unchecked, a spec that closes one (`Admission.ReconcileKeepsAcyclicExactlyWhen`).
- Gate and controller disagree exactly when the desired count is left to its default and its replica is ready enough
  (`Gate.GateAgreesExactlyWhen`, with the input `Gate.DefaultedCountDivides`).

## Model

| member | source | states |
|---|---|---|
| Types.FirstWindowDecides | internal/controller/workloaddependency_controller.go:806-813 | only the first dependency with a positive window decides the degraded window |
| Types.FirstRecoveryWindowDecides | internal/controller/workloaddependency_controller.go:815-822 | the same for the recovery window |
| Types.DefaultWindows | internal/controller/workloaddependency_controller.go:806-822 | without a positive window the defaults are 30s to suspend and 60s to restore |
| Workloads.ToInt32 | internal/controller/rollout.go:50-56 | the stored int64 count is narrowed to the int32 with the same low 32 bits |
| Runs.ReachableWellFormed | internal/controller/workloaddependency_controller.go:422-440 | in every reachable status SuspendedAt is set exactly in Suspended, DegradedSince and HealthySince are never both set, the saved count is never zero, and Released holds none |
| Hysteresis.DegradedSinceWitness | internal/controller/workloaddependency_controller.go:422-426 | DegradedSince is the time of a reconcile that saw unhealth, with no enforcing healthy observation since |
| Hysteresis.SuspensionNeedsFullWindow | internal/controller/workloaddependency_controller.go:422-439 | in every run, entering Suspended comes a full window after an unhealthy observation, and no enforcing reconcile in between saw health |
| Hysteresis.UninterruptedSuspensionNeedsFullWindow | internal/controller/workloaddependency_controller.go:428-439 | in runs without interruptions, with any failed reads and patches, every reconcile of that window that could read everything saw unhealth |
| Hysteresis.WindowResetsExactlyWhen | internal/controller/workloaddependency_controller.go:479-492 | a running window is reset if and only if an enforcing reconcile sees health; otherwise it keeps its start |
| Hysteresis.WindowStartsExactlyWhen | internal/controller/workloaddependency_controller.go:148-159 | a window starts, at the time of the reconcile, if and only if an enforcing reconcile sees unhealth outside Suspended and Released; a Progressing Rollout starts none |
| Hysteresis.WindowRunsOnExactlyWhen | internal/controller/workloaddependency_controller.go:422-433 | over any stretch a running window keeps its start throughout if and only if no enforcing reconcile saw health |
| Hysteresis.HealthySinceWitness | internal/controller/workloaddependency_controller.go:494-498 | while Suspended, HealthySince is the time of the first healthy observation of this suspension |
| Hysteresis.RecoveryNeedsFullWindow | internal/controller/workloaddependency_controller.go:494-513 | a recovery restore comes a full recovery window after a healthy observation of the same suspension and sees health itself |
| Hysteresis.RecoveryExactlyWhen | internal/controller/workloaddependency_controller.go:442-477 | a healthy reconcile restores if and only if the recovery window has passed since the first healthy observation, whatever was seen in between |
| Hysteresis.SuspendedAtIsEntryTime | internal/controller/workloaddependency_controller.go:686-694 | SuspendedAt stays the time of entry for as long as the suspension lasts |
| Hysteresis.ReleaseNeedsFullDuration | internal/controller/workloaddependency_controller.go:190-211 | in every run, a forced restore comes at least maxSuspendDuration after the suspension was entered |
| Hysteresis.ReleasedStaysExactlyWhen | internal/controller/workloaddependency_controller.go:92-188 | after a forced restore and without a healthy observation, the phase stays Released throughout if and only if no reconcile is interrupted |
| Hysteresis.ReleasedNeverFlaps | internal/controller/workloaddependency_controller.go:178-188 | after a forced restore, in a stretch without interruptions and with any failed reads and patches, the next suspension is preceded by a healthy observation and then a full window in which every reconcile that could read everything saw unhealth |
| Response.UnhealthIsAnsweredInTime | internal/controller/workloaddependency_controller.go:422-439 | continuous unhealth, first seen at t0 with no window running, takes the dependent to rest within [t0+window, t0+window+1s], and nothing is written before |
| Response.FirstUnhealthyAfter | internal/controller/workloaddependency_controller.go:479-492 | no window is running after any history that is fresh or saw health outside a suspension and saw no unhealth since, failed reads and interruptions included |
| Response.HealthIsAnsweredInTime | internal/controller/workloaddependency_controller.go:494-513 | continuous health first seen at h0 in a suspension brings the workload back within [h0+window, h0+window+1s]: a CronJob no longer suspended, a replica workload with its saved count; nothing is written before |
| Response.CapIsKeptInTime | internal/controller/workloaddependency_controller.go:190-215 | a capped suspension ends with the workload brought back no earlier than the cap and no later than max(cap+1s, 15s) after entry |
| Response.CapEndsEverySuspension | internal/controller/workloaddependency_controller.go:190-215 | with a cap, in a punctual plain stretch with any mix of observations, a suspension writes nothing while it lasts and cannot go on past max(cap+1s, 15s) plus the recovery window after entry |
| Response.StrictRevertsInTime | internal/controller/workloaddependency_controller.go:450-476 | strict mode leaves the workload at rest again at most 15s later, whatever was done to it |
| Response.AlwaysComesBack | internal/controller/workloaddependency_controller.go:742-745 | in every run with a forward clock a reconcile is retried or asks for a positive delay of at most 30s, or a second more than the longest window or cap, and at every moment of a punctual stretch the latest reconcile is no longer ago than that |
| Wire.HandsOffInFull | internal/controller/workloaddependency_controller.go:92-176 | the outcome in literal values of a pause, a failed read, a missing dependent, a rollout in flight, observe and gate mode: recorded phase, unchanged fields, requeue of 15s or an error |
| Wire.HealthyInFull | internal/controller/workloaddependency_controller.go:479-514 | the outcome of an enforcing healthy reconcile in every status: fields, requeue, and a recovery exactly when the recovery window is over and no patch failed |
| Wire.UnhealthyInFull | internal/controller/workloaddependency_controller.go:178-216 | the outcome of an enforcing unhealthy reconcile in every status: 30s after a forced restore, the wait for the cap or the window plus 1s, the start of the window, release and suspension |
| Wire.FailedPatchChangesNothing | internal/controller/workloaddependency_controller.go:435-437 | a reconcile whose workload write fails leaves the status as it was and is an error |
| Wire.SoftLeavesOverrides | internal/controller/workloaddependency_controller.go:442-477 | in an uncapped soft suspension an unhealthy reconcile changes nothing and comes back after 15s |
| Wire.SuspendsOnTheWire | internal/controller/workloaddependency_controller.go:516-593 | a due suspension sets the desired count to 0 and saves the one wanted before, 1 when absent and none when it was 0, sets suspend on a CronJob, and leaves a Progressing Rollout alone |
| Wire.RolloutIsScaledExactlyWhen | internal/controller/workloaddependency_controller.go:148-159 | a due suspension scales a running Rollout to zero if and only if its phase is not Progressing |
| Wire.ReenforcesOnTheWire | internal/controller/workloaddependency_controller.go:442-477 | uncapped strict mode takes the workload to rest again, and a count somebody set meanwhile replaces the saved one |
| Wire.EveryEndBringsBack | internal/controller/workloaddependency_controller.go:595-665 | every recovery and every release writes the saved count, or suspend=false to a suspended CronJob, and clears saved count, SuspendedAt and HealthySince |
| Wire.CronJobIsResumed | internal/controller/workloaddependency_controller.go:604-609 | after a recovery or a release a CronJob is not suspended |
| Conservation.SavedIsOwed | internal/controller/workloaddependency_controller.go:540-589 | in every run the saved count equals the last non-zero count overwritten and not yet put back, is never zero, and restores write exactly it |
| Conservation.CountIsConserved | internal/controller/workloaddependency_controller.go:540-661 | when only klink scales the dependent, its original count is on the server, or the server has zero and the status has the original |
| Conservation.DeletionGivesBackExactlyWhen | internal/controller/workloaddependency_controller.go:227-259 | deletion after any run returns the original count if and only if none is saved or the phase is Suspended |
| Conservation.AbandonsExactlyWhenInterrupted | internal/controller/workloaddependency_controller.go:92-106 | a reconcile leaves Suspended while holding a saved count if and only if it is paused, misses the dependent, defers to a Rollout or is in gate or observe mode |
| Conservation.NothingStranded | internal/controller/workloaddependency_controller.go:479-514 | in runs without interruptions, with any failed reads and patches, while the latest write took the dependent to zero, the phase is Suspended and a positive count is saved |
| Conservation.DeletionStrandsNothing | internal/controller/workloaddependency_controller.go:227-259 | after such a run, deletion finds the dependent gone, or puts back what is owed, or the latest write was not a zero |
| Conservation.DeletionNeverResumesCronJob | internal/controller/workloaddependency_controller.go:230-252 | no count is ever saved for a CronJob, so deletion never writes it |
| Enforcement.ZeroWritesAreJustified | internal/controller/workloaddependency_controller.go:428-437 | in every run a write to rest is made by an enforcing unhealthy reconcile on a running dependent, after the window or as uncapped strict re-enforcement, and it ends Suspended |
| Enforcement.RestoresAreJustified | internal/controller/workloaddependency_controller.go:500-513 | every other write ends a suspension by recovery or by its cap, puts back the saved count and leaves none |
| Enforcement.ZeroWriteHasCulprit | internal/controller/workloaddependency_controller.go:111-158 | on the cluster, under all faults, a workload taken to rest has a dependency that is missing, or unhealthy and not suspended by klink |
| Enforcement.PhaseTellsTruth | internal/controller/workloaddependency_controller.go:92-188 | at every point of every run the status is the first one or was recorded by an earlier reconcile whose reading justifies its phase, and no reconcile since was interrupted or wrote anything |
| Enforcement.HandsOffNeverWrites | internal/controller/workloaddependency_controller.go:160-176 | runs in gate or observe mode never write a workload, deletion included |
| Enforcement.SoftActsOncePerSuspension | internal/controller/workloaddependency_controller.go:442-477 | two writes to rest in soft mode are separated by a state that is not Suspended |
| Enforcement.StrictReenforcesExactlyWhenUncapped | internal/controller/workloaddependency_controller.go:190-216 | strict mode takes a raised workload back to rest if and only if no cap is set |
| Readiness.RoundError | internal/controller/workloaddependency_controller.go:390-390 | one binary64 rounding has relative error at most 2^-53 |
| Readiness.RoundInteger | internal/controller/workloaddependency_controller.go:390-390 | rounding is exact on representable integers |
| Readiness.PercentIsFloor | internal/controller/workloaddependency_controller.go:377-394 | the truncated percentage is floor(100*ready/replicas), or one less and only where that quotient is an integer |
| Readiness.PercentIsFloorExactlyWhen | internal/controller/workloaddependency_controller.go:390-390 | for ready <= replicas the computed percentage is the true one rounded down if and only if not exactly 29, 57 or 58 percent are ready |
| Readiness.FullReadinessIsHundred | internal/controller/workloaddependency_controller.go:390-394 | all replicas ready gives exactly 100 |
| Readiness.TruncatesTowardZero | internal/controller/workloaddependency_controller.go:390-390 | the percentage only changes sign when one of the counts does |
| Readiness.ThresholdMeaning | internal/controller/workloaddependency_controller.go:390-394 | reaching the threshold implies 100*ready >= minPercent*replicas; missing it implies <= |
| Readiness.ThresholdExactlyWhen | internal/controller/workloaddependency_controller.go:390-394 | a threshold up to 100, or any threshold for ready <= replicas, is judged as the true share demands if and only if it is not 29, 57 or 58 with exactly that share ready |
| Readiness.RoundDoubles | internal/controller/workloaddependency_controller.go:390-390 | doubling commutes with binary64 rounding, which is why 29 falls short with 58 |
| Readiness.TwentyNineOfHundred | internal/webhook/gate.go:206-210 | 29 of 100 ready is computed as 28 percent |
| Conditions.SetCondition | internal/controller/workloaddependency_controller.go:750-804 | the loop updates or appends the Ready entry, moves its time only on a change, and keeps every other entry |
| Conditions.ReadyFollowsHistory | internal/controller/workloaddependency_controller.go:750-804 | after any history of calls there is at most one entry, Ready: True/DependenciesHealthy, False/DependencyDegraded, False/DependentSuspended, Unknown/Paused or Unknown/DependentNotFound after the latest of those five phases, with the time its present stretch began; Released and Observed leave it alone |
| Conditions.OtherEntriesStay | internal/controller/workloaddependency_controller.go:771-803 | in any list a call keeps every entry but the first Ready one, moves its time only when status or reason change, and appends it when missing |
| StatusWrites.WriteFromClosed | internal/controller/workloaddependency_controller.go:713-733 | the retry loop stops at the first answer that is not a conflict, or after three, and builds on the object re-read last |
| StatusWrites.WrittenMeans | internal/controller/workloaddependency_controller.go:686-709 | on success the phase is the requested one, SuspendedAt is set exactly in Suspended, and every field set on entry is stored |
| StatusWrites.UncontendedWriteIsExact | internal/controller/workloaddependency_controller.go:711-719 | without a conflict the caller's status is stored exactly and nothing else of the object changes |
| StatusWrites.ClearIsLostExactlyWhen | internal/controller/workloaddependency_controller.go:697-707 | without a conflict every clear is stored; after one, a cleared saved count, DegradedSince or HealthySince is stored as the object re-read last carried it, so it comes back exactly when that object had it |
| StatusWrites.FailedWriteChangesNothing | internal/controller/workloaddependency_controller.go:720-733 | a write that fails or runs out of retries leaves the server as the other writers left it |
| Clusters.ReconcileIsStep | internal/controller/workloaddependency_controller.go:57-223 | with reliable writes a reconcile steps its own status, applies the decided write to its dependent and changes nothing else |
| Wire.DependencyOkByFields | internal/controller/workloaddependency_controller.go:332-395 | a dependency stands in nobody's way exactly when the object of the kind, namespace and name it means exists and its fields are fine: ready share with 0 meaning 100 percent, suspend flag, Rollout phase, or held by klink |
| Wire.EvaluatesInOrder | internal/controller/workloaddependency_controller.go:111-144 | the verdict is that of looking at the dependencies one after the other: a read fails the reconcile exactly when no earlier dependency is missing |
| Wire.TouchesOnlyItsDependent | internal/controller/workloaddependency_controller.go:97-102 | under every fault a reconcile changes no workload but the one of the kind, namespace (its own when omitted) and name its WD names |
| Wire.ReadsItsDependent | internal/controller/workloaddependency_controller.go:97-109 | and that is the one it reads |
| Wire.AtMostThreeUpdates | internal/controller/workloaddependency_controller.go:713-733 | at most three status updates are sent: success at the first, second or third stores the phase, three conflicts exhaust it, anything else fails it at once |
| Wire.AnswerAfterUpdate | internal/controller/workloaddependency_controller.go:720-745 | the answer is the requeue asked for on success, at once after three conflicts, and an error otherwise |
| Wire.AdmissionInFull | internal/controller/workloaddependency_controller.go:72-90 | a spec that closes a cycle is recorded as Unknown without finalizer and not called again; every other gets the finalizer and is called again at once |
| Wire.DeletionInFull | internal/controller/workloaddependency_controller.go:227-259 | a restore due on deletion is made or retried after 5s with nothing changed; then the object is gone, or stays with an error when updating it fails |
| Namespaces.ReconcileOut | internal/controller/workloaddependency_controller.go:97-102 | under every fault, reconciling with all omitted namespaces written out has the same workload writes, statuses and answers |
| Namespaces.EdgesOut | internal/controller/cycles.go:124-138 | an omitted namespace and the WD's own give the same edges to the cycle check |
| Namespaces.IndexesOut | internal/controller/workloaddependency_controller.go:838-866 | and the same keys in both indexes |
| Namespaces.DeniesOut | internal/webhook/gate.go:128-161 | and the same verdict of the gate |
| Projection.ClusterRunProjects | internal/controller/workloaddependency_controller.go:57-223 | every cluster run in which the first status update of each reconcile of a WD is accepted, with any faults in the reconciles of others, is for that WD a run of its machine on what its reconciles read |
| Projection.CountSurvivesExactlyWhen | internal/controller/workloaddependency_controller.go:697-733 | under every API fault the count stays accounted for if and only if no write was made, or fewer than three conflicts precede an accepted status update and, after a restore, none does |
| Projection.CountIsConservedOnCluster | internal/controller/workloaddependency_controller.go:540-661 | over every cluster run in which only klink scales a dependent and the answers to its status updates are those that keep the count, its original count is on the server or saved, never both |
| Projection.GoneOnlyAfterRestore | internal/controller/workloaddependency_controller.go:227-259 | whatever fails, a Suspended WD goes away only when its dependent is missing or has just been given the saved count |
| Projection.DeletionReturnsCountExactlyWhen | internal/controller/workloaddependency_controller.go:227-259 | deletion on the cluster returns the original count if and only if none is saved or the phase is Suspended |
| Deadlock.HeldDependencyIsOk | internal/controller/workloaddependency_controller.go:332-375 | a dependency that another Suspended WD holds at rest is not unhealthy, for every kind |
| Deadlock.ReconcileIsSafe | internal/controller/workloaddependency_controller.go:413-440 | every reconcile keeps suspended members' workloads held and the group not wholly suspended |
| Deadlock.NeverAllSuspended | internal/controller/workloaddependency_controller.go:364-440 | no interleaving of reconciles whose status writes meet no conflict, pauses, mode changes and deletions gives all members of a group that depend only on one another the phase Suspended |
| Mutual.ReconcileKeepsTrackedExactlyWhen | internal/controller/workloaddependency_controller.go:92-106 | a reconcile leaves a member owed a count without a suspension if and only if it interrupts a member that holds one |
| Mutual.NeverAllHeld | internal/controller/workloaddependency_controller.go:364-440 | over every run in which no suspension is abandoned, some member of a closed group is owed nothing |
| Mutual.NeverAllAtZero | internal/controller/workloaddependency_controller.go:540-661 | when klink alone scales the members, some member has its original count at all times of such a run: a mutual pair is never at zero on both sides |
| Standstill.StuckForever | internal/controller/workloaddependency_controller.go:484-492 | a closed group at zero in which every member is trapped stays at zero under every sequence of reconciles, at any times and with any failed reads and patches |
| Standstill.SeesOkExactlyWhen | internal/controller/workloaddependency_controller.go:364-411 | in a group at zero a member that can read everything sees its dependencies as fine exactly when everybody it needs is Suspended |
| Standstill.ComesBackExactlyWhen | internal/controller/workloaddependency_controller.go:397-440 | some sequence of reconciles with a forward clock restores a member of a closed group at zero if and only if some member is not trapped |
| Standstill.MutualStuckExactlyWhen | internal/controller/workloaddependency_controller.go:397-411 | where everybody depends on everybody else, as in a mutual pair, everybody is trapped if and only if not everybody is Suspended |
| Mutual.AllSuspendedHeals | internal/controller/workloaddependency_controller.go:494-513 | over every cluster run from a group Suspended on all sides, either a member has been restored, or each member whose reconciles are punctual is still inside its recovery window with the next reconcile due at most 1s after it |
| Deadlock.RingIsClosedGroup | internal/controller/cycles.go:45-46 | rings of two or more WDs, mutual pairs included, are such groups |
| Graphs.RotateIsCycle | internal/controller/cycles.go:38-46 | a cycle may be started at any of its workloads |
| Graphs.AddingKeepsAcyclic | internal/controller/cycles.go:75-101 | looking only at cycles through the new edges is enough |
| Graphs.KeyStringInjective | internal/controller/cycles.go:34-36 | the printed kind/namespace/name identifies the workload for slash-free kinds and namespaces |
| Cycles.BuildGraph | internal/controller/cycles.go:53-66 | the adjacency map holds exactly the edges of all listed WDs but the one being checked |
| Cycles.AddEdges | internal/controller/cycles.go:68-73 | the map gains exactly the edges of one WD |
| Cycles.Search.Dfs | internal/controller/cycles.go:104-122 | a returned path leads to the target through unvisited distinct workloads; otherwise everything newly visited is closed and misses the target; it ends because unvisited workloads decrease |
| Cycles.SearchFrom | internal/controller/cycles.go:78-100 | the search from one first hop finds a cycle through that hop exactly when there is one |
| Cycles.FindCycle | internal/controller/cycles.go:47-102 | a result is a simple cycle of three or more workloads leaving the new dependent along a new edge, and there is none exactly when nothing is returned |
| Cycles.DetectCycle | internal/controller/cycles.go:47-102 | the same for the printed path; a failed listing is reported as such |
| Admission.ListingGivesOtherEdges | internal/controller/cycles.go:48-66 | in whatever order the namespace is listed, the check sees the same edges |
| Admission.AdmittingKeepsAcyclic | internal/controller/workloaddependency_controller.go:72-90 | adding the finalizer after a clean check of the admitted edges and any others keeps the admitted WDs of every namespace free of cycles |
| Admission.ReconcileKeepsAcyclicExactlyWhen | internal/controller/workloaddependency_controller.go:72-90 | a reconcile keeps every namespace acyclic if and only if it does not admit, after a failed listing, a spec that closes a cycle with the admitted edges |
| Admission.AdmittedNeverCyclic | internal/controller/workloaddependency_controller.go:72-90 | over every sequence of creations, deletions and reconciles, with any faults and conflicts, the admitted WDs of a namespace never form a cycle of three or more workloads, unless a failed listing lets in a spec that closes one |
| Admission.HarmlessExactlyWhen | internal/controller/workloaddependency_controller.go:75-78 | admitting a spec keeps the graph acyclic if and only if it closes no cycle with the admitted edges, which is when proceeding after a failed listing is safe |
| Admission.HarmlessEverywhereExactlyWhen | internal/controller/cycles.go:47-66 | adding the finalizer keeps the admitted WDs of all namespaces together free of cycles if and only if the spec closes none with their edges |
| Index.IndexKeyInjective | internal/controller/workloaddependency_controller.go:838-866 | namespace/name keys identify namespace and name for slash-free namespaces |
| Index.SlashMakesKeysCollide | internal/controller/workloaddependency_controller.go:838-866 | with a slash in a namespace two workloads share a key, so the condition is needed |
| Index.IsSuspendedByKlink | internal/controller/workloaddependency_controller.go:397-411 | the indexed lookup equals a scan of all WDs for a Suspended one with that dependent |
| Index.FindWDsForWorkload | internal/controller/workloaddependency_controller.go:885-923 | every WD referencing the workload is enqueued exactly once and no other, and a failed listing adds nothing |
| Gate.Denies | internal/webhook/gate.go:94-164 | a request is denied if and only if it is a readable scale-up, the listing succeeded and a matching gate-mode WD has a dependency that was read and is unhealthy |
| Gate.AnyBlocks | internal/webhook/gate.go:128-161 | the loop over WDs finds one that blocks exactly when there is one |
| Gate.AnyUnhealthy | internal/webhook/gate.go:140-160 | the loop over dependencies finds one read and unhealthy exactly when there is one |
| Gate.GateReadsSameKindExactlyWhen | internal/webhook/gate.go:166-195 | the gate looks up the same kind as the controller if and only if the kind is not CronJob |
| Gate.GateAgreesExactlyWhen | internal/webhook/gate.go:166-211 | for every kind but CronJob they read the same object; the gate never calls healthy what the controller does not, and the converse fails exactly when the desired count is defaulted and its replica is ready enough |
| Gate.DefaultedCountDivides | internal/webhook/gate.go:197-211 | one ready replica and no desired count: healthy to the controller, unhealthy to the gate |
| Gate.HealthyMeansReady | internal/controller/workloaddependency_controller.go:364-394 | a replica workload called healthy has replicas and the required share of them ready |
| Gate.ReadyMeansHealthy | internal/controller/workloaddependency_controller.go:377-394 | more than the required share ready is always healthy |
| Gate.HealthyExactlyWhen | internal/controller/workloaddependency_controller.go:364-394 | for thresholds up to 100 a replica workload is healthy to the controller if and only if it wants replicas and the required share is ready, exactly 29, 57 and 58 percent excepted |
| Controller.WorkloadObject.GetReplicas | internal/controller/workloaddependency_controller.go:276-300 | on the object's fields, the desired count of the stored workload: 1 when absent, -1 for a CronJob, narrowed for a Rollout |
| Controller.WorkloadObject.SetReplicas | internal/controller/workloaddependency_controller.go:276-305 | sets the desired count, without effect on a CronJob |
| Controller.WorkloadObject.SetSuspend | internal/controller/workloaddependency_controller.go:298-305 | sets the suspend flag of a CronJob, without effect on other kinds |
| Controller.WDObject.PutBack | internal/controller/workloaddependency_controller.go:686-709 | applies phase, SuspendedAt, conditions and the fields captured on entry to the object held |
| Controller.Reconciler.SetStatus | internal/controller/workloaddependency_controller.go:667-746 | the retry loop leaves the server and answers exactly as the status write function, with one update per conflict plus one and at most three |
| Controller.Reconciler.SuspendWorkload | internal/controller/workloaddependency_controller.go:516-593 | remembers the overwritten count, takes the workload to rest unless it is, and fails only with the patch |
| Controller.Reconciler.RestoreWorkload | internal/controller/workloaddependency_controller.go:595-665 | puts back the saved count or resumes the CronJob, and fails only with the patch |
| Controller.Reconciler.HandleDegraded | internal/controller/workloaddependency_controller.go:413-440 | performs the decision for an unhealthy reconcile outside a suspension |
| Controller.Reconciler.HandleCap | internal/controller/workloaddependency_controller.go:190-215 | performs the decision for a capped suspension |
| Controller.Reconciler.HandleSuspended | internal/controller/workloaddependency_controller.go:442-477 | performs the decision for an uncapped suspension |
| Controller.Reconciler.HandleHealthy | internal/controller/workloaddependency_controller.go:479-514 | performs the decision for a healthy reconcile; the cleared DegradedSince is not stored while waiting |
| Controller.Reconciler.DependencyStatus | internal/controller/workloaddependency_controller.go:332-395 | the health of one dependency, with the lookup for who suspended it made only when it is at rest |
| Controller.Reconciler.EvaluateDependencies | internal/controller/workloaddependency_controller.go:111-144 | the loop is all-ok exactly when every dependency is found and healthy or co-suspended; a read error counts only if no earlier dependency is missing |
| Controller.Reconciler.HandleDeletion | internal/controller/workloaddependency_controller.go:225-259 | the finalizer goes only after the restore succeeded or was unnecessary |
| Controller.Reconciler.Admit | internal/controller/workloaddependency_controller.go:72-90 | reports a cycle exactly when the spec closes one, otherwise adds the finalizer, also after a failed listing |
| Controller.Reconciler.Reconcile | internal/controller/workloaddependency_controller.go:57-223 | the whole reconcile, under every combination of faults, equals the cluster function |
| Counterexamples.RecoveryIsNotContinuous | internal/controller/workloaddependency_controller.go:442-477 | a plain run restores one second after an unhealthy observation |
| Counterexamples.GateObservationDoesNotReset | internal/controller/workloaddependency_controller.go:170-176 | a run suspends although health was reported in gate mode within the window |
| Counterexamples.PauseLetsReleasedFlap | internal/controller/workloaddependency_controller.go:92-95 | a run suspends again two seconds after a forced restore, with no healthy observation |
| Counterexamples.PauseStrandsOnDeletion | internal/controller/workloaddependency_controller.go:227-230 | a run after which deletion leaves three owed replicas at zero |
| Counterexamples.DeletionLeavesCronJobSuspended | internal/controller/workloaddependency_controller.go:230-252 | a run that suspends a CronJob, after which deletion leaves it suspended |
| Counterexamples.ProgressingStartsNoWindow | internal/controller/workloaddependency_controller.go:148-159 | a run that is unhealthy for 40s, more than the window, is not suspended, because the dependent Rollout was progressing at first |
| Counterexamples.CapDefeatsStrict | internal/controller/workloaddependency_controller.go:190-215 | a run in strict mode that leaves a suspended workload scaled up to five |
| Counterexamples.LostClearDefeatsWindow | internal/controller/workloaddependency_controller.go:697-727 | one conflict brings DegradedSince back, and the next unhealthy reconcile suspends 20s after health was seen |
| Counterexamples.LostClearKeepsCount | internal/controller/workloaddependency_controller.go:697-727 | one conflict after a restore leaves the count on the server and in the status |
| ClusterCounterexamples.PauseDeadlocksPair | internal/controller/workloaddependency_controller.go:92-95 | a run from two fresh WDs, with one pause and resume, to a mutual pair at zero on both sides for good |
| ClusterCounterexamples.RaisedWorkloadDefeatsPair | internal/controller/workloaddependency_controller.go:364-394 | a run from two fresh WDs in which one held workload is raised from outside and both WDs become Suspended |
| ClusterCounterexamples.RejectedStatusLosesCount | internal/controller/workloaddependency_controller.go:720-733 | a run after which a rejected status update leaves a workload at zero with no count saved |
| ClusterCounterexamples.NamespacesAreCheckedApart | internal/controller/cycles.go:49-51 | three WDs in three namespaces are all admitted although they close a cycle together |
| ClusterCounterexamples.FailedListingAdmitsCycle | internal/controller/workloaddependency_controller.go:72-90 | a run of admissions after which a reconcile whose listing fails admits a WD that closes a cycle in its namespace |

## Left out

- Deadlock.NeverAllSuspended: assumes that others neither delete nor scale up a Deployment or StatefulSet held for a Suspended member, that the writes after a patch succeed, and that no WD outside the group manages those workloads; `ClusterCounterexamples.RaisedWorkloadDefeatsPair` shows the first is needed.
- Standstill.ComesBackExactlyWhen: is about uncapped Deployments and StatefulSets whose names no other WD's dependent shares; with `maxSuspendDuration` set a suspension ends by itself (`Response.CapEndsEverySuspension`).
- Projection.ClusterRunProjects: does not cover status writes of the WD itself that meet a conflict, because such a write does not store what the machine decided; `StatusWrites.WriteFromClosed` says what it stores.
- Admission.AdmittedNeverCyclic: speaks of one namespace at a time and of admitted specs left alone, because the code checks no more.
- Response.UnhealthIsAnsweredInTime: the response bounds hold for plain punctual stretches; after an API error the work queue's back-off decides, which is not part of this model.
- Readiness.PercentIsFloorExactlyWhen: with more replicas ready than wanted the exceptions are not listed; thresholds up to 100 are judged correctly there (`Readiness.ThresholdExactlyWhen`).
- Readiness.PercentIsFloor: counts are below 2^31; converting a percentage above the int32 range, which Go leaves to the platform, is not modelled.
- An object deleted while other finalizers keep it alive is restored again at every reconcile; in the model it is gone once klink's finalizer is.
- Namespaces contain no slash, which Kubernetes guarantees; `Controller.Reconciler.Reconcile` asks for it so that the field indexes can be relied on.
- Reads are current and a reconcile is atomic: cache staleness, leader election and work queue internals are not modelled; interference during a status write is.
- Messages, events, notifications, metrics and log lines: no behaviour depends on them.
- `FormatCycle` and other text formatting beyond the workload keys.
- HTTP and JSON decoding of the gate webhook: old and new replica counts are inputs.
- The WorkloadDependency validator, TLS and the webhook server: independent field checks and library plumbing that would only add easy members.
