# Verified model of the runner's pipelines and canary rollouts

The runner executes pipelines and progressive rollouts as Kubernetes objects. A PipelineRun holds a
DAG of tasks; its reconciler creates a TaskRun for every task that may start; the TaskRun reconciler
runs a Job, waits for approvals, or follows a Rollout; operators cancel runs, approve tasks and rerun
single tasks. A Rollout walks a plan of weights and pauses, scales a stable and a canary Deployment,
and obeys operator commands. This project models both machines in Dafny and proves what holds over
all their runs, together with three algorithms the runner relies on: the downstream closure of a
rerun, the chunking of logs, and the canonical form of a task list.

## How it is laid out

Every operation that works by changing things is a method in the form of the Go code, with its loops
and updates: the scan loop of `LogStream.SplitChunks`, the queue of `Downstream.DownstreamTasks`, the
in-place summaries and delete loops of the class `ClusterObject.Cluster`, the field updates of the
class `RolloutObject.RolloutController`. Its `ensures` ties the result or the whole new state to a
function of the inputs or the old state. Those functions are the steps of two step systems, and the
lemmas are about all their runs.

- Pipelines: `PipelineTypes`, `Scheduler`, `TaskRunController`, `Approvals`, `Downstream` hold the
  entities and decisions; `TaskHistories` is about a TaskRun's status after any history, `JobRetries`
  and `RolloutReferences` about retries and reruns cut by a failing write. `PipelineSystem` is the
  step system, with the cancel teardown and the rerun cut after every API call, so that crashes and
  all other steps interleave; `Reports` is about its reconcile. About its runs:
  `CancelSafety`, `CancelPasses`, `CancelLimits` (cancel), `PipelineSafety`, `PipelineTheorems`,
  `RerunLimits`, `RerunRecovery`, `SerialStages` (dependencies, reruns, serial order),
  `CreationOrder`, `PipelineProgress`, `Acyclicity` (what gets created and completes), `Failures`.
  `ClusterObject` ties the imperative code to it.
- Rollouts: `Canary` is the pure engine; `RolloutSystem` is the step system, in which pod readiness,
  probe results, stuck Deployments, the clock and operator commands are arbitrary inputs;
  `RolloutSafety`, `RolloutThreshold`, `RolloutDrift`, `RolloutCompletion`, `RolloutProbe`,
  `RolloutRevival` and `RolloutPause` are about its runs; `RolloutObject` is the reconciler.
- `LogStream` and `Snapshot` stand alone.

Names: the run phases `NotStarted`, `Waiting`, `Active`, `Complete`, `Broken` are the Go code's empty
phase, Pending, Running, Succeeded and Failed; the Rollout phase `New` is its empty phase. `Consistent`
is the invariant of all interleavings, and holds of a freshly applied run. `Armed` says a cancel
request is on an unfinished run and no pass is about to clear it. `Doomed` lists what a rerun in
progress has still to delete.

A *steady* run (`PipelineSafety.Steady`) is one in which no Succeeded TaskRun regresses (no rejection
is sent to one, no Rollout behind one leaves Healthy) and no rerun is abandoned halfway. It is
*orderly* (`PipelineSafety.Orderly`) if moreover, in an unfinished run, a rerun's target does not
succeed again before the rerun is over, unless the rerun's delete order respects all edges; and,
where serial order is at stake, nothing is rerun. Reconciles, failures, retries, approvals, cancels,
crashes and lost write races are unrestricted. What an abandoned rerun leaves is
`PipelineSafety.AbortedRerun`; that the condition on the target is needed exactly there is
`RerunLimits.RerunIsSoundIff`.

## Where the code differs from its documentation

The model follows the code. Each of these is a lemma that says exactly when, or a concrete input.

- A rollback decided by health checks is described as ending the canary, but `RollingBack` is not
  held: the next reconcile scales the canary up again (`RolloutSafety.HealthRollbackDoesNotLast`).
- Pause stamps are described as one clock per pause step, but an older stamp that still parses is
  never replaced: no unpromoted rollout gets past its second timed pause
  (`RolloutSafety.SecondTimedPauseHolds`, `RolloutCompletion.CompletesIffWalkable`).
- A weight that rounds down to no pod can never be passed (`RolloutCompletion.CompletesIffWalkable`).
- A promotion changes the weight and does not scale, so the next step is judged by the old pods
  (`RolloutSafety.PromotedStepIsJudgedAtOldScale`).
- A failure is counted by a failed check only, but a promotion with the threshold used up makes a
  missing pod count (`RolloutThreshold.PromotedRollbackCountsNothing`, and
  `RolloutThreshold.PromotionKeepsCountIff` for when).
- Without an explicit replica count the "real" count is read from the Deployment that the rollout
  scales down: the total shrinks (`RolloutDrift.TotalStaysIff`), and a plan that goes to 100 percent
  ends Healthy without a single pod (`RolloutDrift.FourPodsAreLost`, and
  `RolloutDrift.HealthyWithoutPodsIff` for when). A rollback does not give the pods back
  (`RolloutDrift.RollbackRestoresNothing`).
- A step is described as not advanced unless the canary has passed its check, but a reconcile within
  30 seconds of a failed check passes bare readiness (`RolloutProbe.HealthyWithoutProbe`); every plan
  that can complete can complete with all probes failing (`RolloutProbe.CompletesAgainstProbesIff`).
- A step with a weight and a pause is described as shifting the weight and then pausing, but the
  weight is not applied at the pause (`RolloutCompletion.PauseIsHeldAtItsWeightIff` for when it is
  the one held at).
- Stamping the cancel request is described as free of races, but a request can be lost when a rerun
  revives the run while an older request is being cleared (`CancelLimits.RequestIsLost`, and
  `CancelSafety.RequestIsKeptIff` for when).
- Every cancel step is described as idempotent and safe to retry. It is safe, but a pass that was
  interrupted after a delete makes the retry report a Succeeded task as Skipped
  (`CancelPasses.InterruptedPassForgetsSuccess`, and `CancelPasses.RetriedPassReports` for when).
- A rejection is described as failing the run, but a later approval by somebody new can turn the
  rejected task into a Succeeded one (`Approvals.RejectionIsOverturned`).
- Approvals are for Approval tasks, but the handler asks neither for the type nor for the phase: an
  approval turns a failed Job's task into a Succeeded one and the run goes on
  (`Failures.ApprovedFailureIsForgotten`, and `Approvals.FinishedUntilOverturned` for when).
- Serial stages run one task at a time, but a rerun does not look at serial order
  (`SerialStages.BothSerialTasksRun` and `SecondRerunOverlaps`, and
  `SerialStages.RerunBreaksSerialOrder` for when).
- A rerun is described as having its downstream tasks recreated. On a Succeeded run they never are
  (`RerunRecovery.RerunOfCompleteRunIsLost`, and `RerunRecovery.RecreatedIffUnfinished`); and when
  the target succeeds again before the handler is done, a recreated task can be left with a missing
  dependency (`RerunLimits.OvertakenRerunBreaksDependencies`, and
  `RerunLimits.RerunIsSoundIff`).
- A rerun is described as reviving a Failed run, but its last write is lost when a cancel request is
  stamped or cleared meanwhile, and the run stays Failed (`RerunRecovery.RevivedIffUntouched`).
- A retry and a rerun delete the Job before they clear the reference; when that update is lost, the
  TaskRun waits for a Job that is gone (`JobRetries.LostUpdateStrands`, and `JobRetries.StrandedIff`).
- A Job's task is described as failing after its last retry, but a rejection fails it at once, with
  its Job running or not created (`Approvals.RejectedBuildHasNoFailedJob`).
- A task's retry policy does not reach its TaskRun (`Approvals.ScheduledTasksAreNotRetried`).
- Dependencies are described as Succeeded, but the task of a canary fails again when its Rollout stops
  being Healthy, and what depends on it goes on (`PipelineSafety.RegressedCanaryBreaksDependencies`,
  and `PipelineSafety.RegressionKeepsClosureIff` for when).
- Failed and RolledBack are described as end states of a rollout, but every known command leaves them
  (`RolloutRevival.CommandLeavesFinishedIff`), and a promotion scales the canary up again
  (`RolloutRevival.PromotionRevivesFinished`).
- A snapshot is described as sensitive to every field, but it does not see those outside its seven,
  such as retries, required approvals and the rollout (`Snapshot.OtherFieldsAreInvisible`).
- The phase WaitingApproval can outlive the approval (`Failures.WaitingOutlivesApproval`).

## Model

| member | source | states |
|---|---|---|
| Scheduler.FindRunnableTasks | internal/controller/pipelinerun_controller.go:164-182 | exactly the tasks that have no TaskRun, whose dependencies are Succeeded and that are not serially blocked, in declaration order |
| Scheduler.OrderIndex | internal/controller/pipelinerun_controller.go:208-215 | the first position of a task of that name, -1 exactly when there is none |
| Scheduler.PendingApprovalIsFirst | internal/controller/pipelinerun_controller.go:246-260 | the approval reported is that of the first Approval task, in declaration order, that is Pending with an initialised approval, and there is none exactly when no task is |
| Scheduler.SummarizeTasks | internal/controller/pipelinerun_controller.go:262-282 | one row per task in declaration order: its TaskRun's state, or Pending without a reference |
| Scheduler.CreateAllAdds | internal/controller/pipelinerun_controller.go:141-149 | creating a batch adds exactly its names with fresh TaskRuns; what exists already is left alone |
| Reports.ReconcileCreates | internal/controller/pipelinerun_controller.go:132-149 | a reconcile of an open run creates, up to the call that fails and in declaration order, exactly the tasks that do not exist, whose dependencies have succeeded and, in a Serial stage, whose earlier Serial tasks have; nothing while an approval is pending or a task has failed; each TaskRun is what its task says, without retry policy |
| Reports.ReconcileReports | internal/controller/pipelinerun_controller.go:107-159 | an uncut reconcile of an open run writes one row per task in order with what its TaskRun says, the approval of the first task waiting for one, and the phase: WaitingApproval, else Failed after any failure, else Running with something to start, else Succeeded with all succeeded, else as before, Pending at first |
| Reports.EndedRunIsLeftAlone | internal/controller/pipelinerun_controller.go:83-92 | a run that has ended, or that a cancel is requested on, is neither scheduled nor written by this path |
| Reports.WriteIsNoticed | internal/controller/pipelinerun_controller.go:42-48 | a status write raises the resource version exactly when it changes something, and stores what was given |
| PipelineSafety.SerialBlockedIsPrerequisite | internal/controller/pipelinerun_controller.go:187-206 | a task is serially blocked exactly when an earlier Serial sibling of its stage has not succeeded |
| PipelineSafety.CanStartIsReady | internal/controller/pipelinerun_controller.go:164-225 | a task may start exactly when it has no TaskRun and everything it waits for, by DependsOn or serial order, has succeeded |
| PipelineSafety.ReconcileRunCreates | internal/controller/pipelinerun_controller.go:132-149 | a reconcile, wherever it is cut short, changes no existing TaskRun, and each one it creates had nothing left to wait for |
| PipelineSafety.DeletedAreNotRecreated | internal/dispatch/rerun_handler.go:89-97 | while a rerun runs and its target has not succeeded again, a reconcile recreates nothing that was deleted: each deleted task has a parent reset or deleted before it |
| PipelineSafety.StepIsSafe | internal/controller/pipelinerun_controller.go:132-149 | dependency closure, up to what a rerun in progress will delete, is kept by every orderly step of every actor |
| PipelineSafety.RunIsSafe | internal/controller/pipelinerun_controller.go:74-160 | the same over every orderly run from any safe state |
| PipelineSafety.AbortedRerun | internal/dispatch/rerun_handler.go:92-97 | a rerun that gives up at a delete, its target still down, leaves every TaskRun with its dependencies exactly when nothing it had still to delete exists |
| PipelineSafety.RegressionKeepsClosureIff | internal/controller/taskrun_controller.go:268-286 | a step that takes a TaskRun out of Succeeded keeps dependencies in place exactly when every existing TaskRun that depends on it is about to be deleted by a rerun |
| PipelineSafety.RegressedCanaryBreaksDependencies | internal/controller/taskrun_controller.go:268-286 | a Succeeded canary task whose Rollout rolls back becomes Failed while what depends on it stays |
| PipelineTheorems.DependenciesHold | internal/controller/pipelinerun_controller.go:132-149 | in every orderly run, reruns and cancels interleaved, each TaskRun's dependencies exist and are Succeeded, unless a cancel tears the run down or a rerun is about to delete it |
| PipelineTheorems.RerunLeavesNoDownstream | internal/dispatch/rerun_handler.go:89-97 | after the last delete no task downstream of the target exists, whatever ran in between, if the target did not succeed again meanwhile |
| PipelineTheorems.UndisturbedRerun | internal/dispatch/rerun_handler.go:73-110 | an uninterrupted rerun resets the target, removes everything downstream, touches nothing else, and revives exactly a Failed run |
| RerunLimits.RerunIsSoundIff | internal/dispatch/rerun_handler.go:89-110 | in every run of a schedulable pipeline whose dependencies were kept so far, whatever its tasks' phases: a rerun keeps dependencies in place under every interleaving in which no Succeeded task regresses, if and only if its delete order respects all edges, or the run is finished or being cancelled when it begins |
| RerunLimits.OvertakenRerunBreaksDependencies | internal/dispatch/rerun_handler.go:73-97 | a concrete run in which the target succeeds again before the last delete and a task is left without its dependency |
| SerialStages.SerialExclusion | internal/controller/pipelinerun_controller.go:173-206 | in every orderly run without reruns, cancels included, at most one of two siblings of a Serial stage is unfinished, and beside a later one the earlier one has succeeded; unless a cancel tears the run down, the later one does not exist otherwise |
| SerialStages.RerunBreaksSerialOrder | internal/dispatch/rerun_handler.go:91-97 | from any state: after a rerun two tasks of its target's Serial stage are unfinished exactly when two others are, or one other is and the target stays, the others not depending on the target; where none overlapped before, exactly when some other, earlier or later, is unfinished and independent (and the target does not depend on itself) |
| SerialStages.RerunOutcome | internal/dispatch/rerun_handler.go:73-97 | a rerun removes exactly the TaskRuns that depend on the target, resets the target, and leaves every other one as it is |
| SerialStages.BothSerialTasksRun | internal/dispatch/rerun_handler.go:73-97 | two independent Serial tasks, the first Succeeded and the second Running: rerunning the first makes both Running |
| SerialStages.SecondRerunOverlaps | internal/dispatch/rerun_handler.go:73-97 | two independent Serial tasks, both Succeeded: rerunning the first leaves one unfinished, rerunning the second then both |
| CreationOrder.CreationBetweenReruns | internal/controller/pipelinerun_controller.go:132-149 | from any state without a rerun in progress, in every run that begins none, whatever tasks, approvals, rejections and cancels do: TaskRuns are created at most once, never for what exists, and after everything they wait for that was not there before |
| CreationOrder.CreationIsLinearExtension | internal/controller/pipelinerun_controller.go:132-149 | from the beginning of a run: creation order is a linear extension of DependsOn with serial order, and a Succeeded run has created exactly its tasks |
| CreationOrder.CompleteIsSchedulable | internal/controller/pipelinerun_controller.go:132-159 | whatever happens, reruns included, a run succeeds only if its tasks can be ordered after everything they wait for |
| Failures.FailureStopsScheduling | internal/controller/pipelinerun_controller.go:126-130 | after a task of any type has failed, until a rerun, an approval of that very task that completes a quorum, or a reconcile that does not see a canary failed, no interleaving creates anything or completes the run, and an uncut reconcile reports Failed, or WaitingApproval while an approval is pending |
| Failures.FailureEndsBy | internal/controller/pipelinerun_controller.go:237-244 | without a rerun, a failed task of any type leaves Failed exactly by a completing approval, or, a canary, by a reconcile that creates its Rollout or sees it not failed |
| Failures.FailureCreatesNothing | internal/controller/pipelinerun_controller.go:126-130 | with a failed task of any type a reconcile creates nothing, wherever it is cut, and does not complete the run |
| Failures.FailureEndsByApproval | internal/dispatch/approve_handler.go:60-75 | without a rerun, a failed Job-backed task leaves Failed exactly by an approval that completes a quorum for it |
| Failures.ApprovedFailureIsForgotten | internal/dispatch/approve_handler.go:47-82 | one approval sent to a failed Build task makes it Succeeded, and the next reconcile creates what depends on it |
| Failures.WaitingOutlivesApproval | internal/controller/pipelinerun_controller.go:118-159 | a reconcile that finds no approval pending still leaves WaitingApproval exactly when the run had it, nothing failed, nothing is ready and not everything succeeded |
| PipelineProgress.SomethingCanStart | internal/controller/pipelinerun_controller.go:132-182 | in a schedulable DAG, when all TaskRuns are Succeeded and some task is unstarted, some task is runnable |
| PipelineProgress.ReconcileProgresses | internal/controller/pipelinerun_controller.go:132-159 | such a reconcile creates at least one TaskRun and leaves the run unfinished |
| PipelineProgress.RoundsComplete | internal/controller/pipelinerun_controller.go:132-159 | from any settled state, one round more than there are unstarted tasks completes the run |
| PipelineProgress.SchedulableRunsComplete | internal/controller/pipelinerun_controller.go:132-159 | a schedulable run is Succeeded, with every task created exactly once, after Tasks + 1 reconciles that each find all TaskRuns Succeeded, however they succeeded |
| PipelineProgress.TaskCanSucceed | internal/controller/taskrun_controller.go:50-157 | every TaskRun, in whatever state, has a history without rejection that leads it to Succeeded |
| PipelineProgress.CanSettleAndComplete | internal/controller/pipelinerun_controller.go:132-159 | from every unfinished, uncancelled state of a schedulable pipeline, a rerun in progress or not, all tasks can be created and succeed |
| PipelineProgress.CompletesIffSchedulable | internal/controller/pipelinerun_controller.go:132-159 | some run, with whatever actions, completes if and only if the tasks can be ordered after everything they wait for; and then one without reruns or regressions |
| Acyclicity.SchedulableIffAcyclic | internal/controller/pipelinerun_controller.go:164-225 | such an order exists if and only if all dependencies are declared and DependsOn with serial order has no cycle |
| Acyclicity.CompletesIffAcyclic | internal/controller/pipelinerun_controller.go:132-159 | some run, with whatever actions, completes if and only if the dependencies are declared and acyclic together with serial order |
| CancelSafety.StepIsConsistent | internal/controller/pipelinerun_cancel.go:24-73 | kept by every step of every actor: a teardown in progress has a request on an unfinished run and covers all TaskRuns, a Cancelled run has none, and a rerun never holds a run version newer than the stored one |
| CancelSafety.CancelIsCrashSafe | internal/controller/pipelinerun_cancel.go:24-73 | from a request on, on an unfinished run that no pass is about to clear of one, no interleaving, crashes and lost writes included, creates a TaskRun; the request stays until the run is Cancelled, and then no TaskRun is left |
| CancelSafety.RequestIsKeptIff | internal/controller/pipelinerun_cancel.go:24-73 | a request on an unfinished run is kept by every interleaving until the run is Cancelled if and only if no pass is about to clear it |
| CancelSafety.ClearIsOvertakenByRevival | internal/dispatch/rerun_handler.go:99-110 | a pass is about to clear the request of an unfinished run only when a rerun revives the run between the pass's look at the phase and its clear |
| CancelLimits.RequestIsLost | internal/dispatch/cancel_handler.go:18-67 | a concrete interleaving of a rerun, the clear of a stale request and a new request, in which the new one is lost and a task is created |
| CancelSafety.PersistedCancel | internal/controller/pipelinerun_cancel.go:40-97 | the write that ends a pass leaves Cancelled, no TaskRuns, no approval, who cancelled, and one row per task in order: finished tasks as they were, others Failed, never created ones Skipped, with the reason; when the run has changed since it was read the write is lost and the request stays |
| CancelSafety.UndisturbedPassCancels | internal/controller/pipelinerun_cancel.go:24-144 | from every state with a request, one uninterrupted pass cancels the run and clears the request |
| CancelPasses.PassOutcome | internal/controller/pipelinerun_cancel.go:40-73 | where a pass that fails at any of its API calls, or at none, leaves the run and the TaskRuns |
| CancelPasses.RetriedPassReports | internal/controller/pipelinerun_cancel.go:51-97 | after a pass that failed at any delete, with tasks going on in between, the next pass reports a task as the first would have exactly when it had no TaskRun, or its TaskRun was not deleted yet and was neither retried nor finished differently since |
| CancelPasses.RetriedPassReportsTheSame | internal/controller/pipelinerun_cancel.go:51-97 | with nothing in between, the whole report is the same exactly when no declared task was deleted before the failure |
| CancelSafety.TerminalPhasesStay | internal/controller/pipelinerun_controller.go:83-92 | Cancelled and Succeeded are never left, Failed only by the write of a rerun, and nothing is created meanwhile |
| RerunRecovery.RerunOfCompleteRunIsLost | internal/dispatch/rerun_handler.go:89-110 | what a rerun deletes from a Succeeded run is never created again, whatever follows |
| RerunRecovery.RecreatedIffUnfinished | internal/dispatch/rerun_handler.go:89-110 | a task that a rerun deletes from a schedulable pipeline can be created again if and only if the run had not succeeded and no cancel request is pending that nobody is clearing |
| RerunRecovery.RevivedIffUntouched | internal/dispatch/rerun_handler.go:99-110 | over every interleaving: a rerun of a Failed run revives it exactly when no new cancel request was stamped and none cleared since the rerun read the run; otherwise it stays Failed and creates nothing until another rerun's write |
| RerunRecovery.RerunRestartsTarget | internal/dispatch/rerun_handler.go:58-87 | whatever its type and phase, a rerun's target is Pending with no Job, Rollout, retries or approval and the same purpose; the next reconcile finds neither old object and has it Running with a new one, or, an approval, waiting with nobody recorded |
| CancelPasses.InterruptedPassForgetsSuccess | internal/controller/pipelinerun_cancel.go:51-97 | a concrete interruption after which a Succeeded task is reported as Skipped |
| ClusterObject.Cluster.ReconcileRun | internal/controller/pipelinerun_controller.go:83-160 | a reconcile that fails at any API call, or none, is one step of the system: same TaskRuns, same status, same writes |
| ClusterObject.Cluster.CreateTaskRuns | internal/controller/pipelinerun_controller.go:141-149 | the loop creates exactly the tasks before the failing call, in order |
| ClusterObject.Cluster.CancelledTaskSummary | internal/controller/pipelinerun_cancel.go:78-97 | rewriting the rows in place gives, for every task, its row with an unfinished phase made final |
| ClusterObject.Cluster.DeleteTaskRuns | internal/controller/pipelinerun_cancel.go:113-130 | the loop removes exactly the names before the failing call |
| ClusterObject.Cluster.ApplyCancel | internal/controller/pipelinerun_cancel.go:40-73 | a pass failing at any API call, or none, is that prefix of the teardown in the step system |
| ClusterObject.Cluster.ClearCancel | internal/controller/pipelinerun_cancel.go:29-38 | on a finished run only the request is cleared; status and TaskRuns stay |
| ClusterObject.Cluster.HandleCancel | internal/dispatch/cancel_handler.go:40-67 | stamps the request on an unfinished run, leaves a finished one alone, never touches the status |
| ClusterObject.Cluster.ReconcileTask | internal/controller/taskrun_controller.go:50-157 | initialising approvals, creating, observing and retrying Jobs and mirroring Rollouts, step by step, is one step of the system |
| ClusterObject.Cluster.InitializeApproval | internal/controller/taskrun_controller.go:56-79 | an approval task becomes Pending with an initialised approval and keeps a decision already made |
| ClusterObject.Cluster.ReconcileDeploy | internal/controller/taskrun_controller.go:236-287 | the Rollout is created once, then its phase is mirrored, also out of a finished phase |
| ClusterObject.Cluster.ReconcileJob | internal/controller/taskrun_controller.go:89-156 | a Job is created, observed, and retried or given up by the retry policy; a finished TaskRun is left alone |
| ClusterObject.Cluster.HandleDecision | internal/dispatch/approve_handler.go:47-82 | recording a decision is one step of the system; the same approver twice changes nothing |
| ClusterObject.Cluster.HandleRerun | internal/dispatch/rerun_handler.go:48-115 | the handler with its walk, reset, deletes and revival is the whole rerun of the step system; an unknown task is ignored |
| Downstream.Dependents | internal/dispatch/rerun_handler.go:121-127 | the map lists a name under a dependency exactly when there is such an edge |
| Downstream.DownstreamTasks | internal/dispatch/rerun_handler.go:120-144 | terminates on every graph and returns exactly the tasks reachable over reversed DependsOn edges, each once and after a parent |
| Downstream.Enqueue | internal/dispatch/rerun_handler.go:134-141 | the inner loop records and queues each dependent not seen before, and keeps the walk's invariant |
| Downstream.DownstreamIsReachable | internal/dispatch/rerun_handler.go:117-144 | a list without repetition that is closed under edges and puts a parent first holds exactly the tasks with a path from the start |
| TaskRunController.ReconcileKeepsSucceeded | internal/controller/taskrun_controller.go:268-286 | a reconcile keeps Succeeded exactly unless it is a canary Release whose Rollout is not created yet or is seen not Healthy |
| TaskRunController.FinishedIsFinal | internal/controller/taskrun_controller.go:89-92 | reconciles alone change nothing of a finished Job-backed TaskRun and create no further Job for it |
| TaskHistories.JobStory | internal/controller/taskrun_controller.go:89-156 | over every history without a decision since the last rerun: a Job-backed task is Succeeded exactly when a Job was observed to succeed while its reference was stored, Failed exactly when one more has failed than may be retried, else Running from its first reconcile; the reference and the retry count follow the Jobs |
| TaskHistories.RunningWhileJobIsOut | internal/controller/taskrun_controller.go:117-156 | decisions or not: an unfinished task with a Job is Running, and a Job that is gone or has neither succeeded nor failed changes nothing |
| TaskHistories.CanaryStory | internal/controller/taskrun_controller.go:236-287 | over every such history: a canary task is Running until its Rollout is seen, then Succeeded exactly if it was Healthy when seen last, Failed with its message exactly if Degraded, RollingBack, Failed or RolledBack, and Running otherwise |
| TaskHistories.ApprovalStory | internal/dispatch/approve_handler.go:49-75 | over every mix of reconciles, decisions and reruns: phase, message, rejecter, number required and approvers of an approval task, said from who decided since the last rerun and the number configured |
| TaskHistories.ConfiguredQuorum | internal/dispatch/approve_handler.go:85-90 | an approval task made by the scheduler needs as many distinct approvers as its pipeline task says, one if it says nothing |
| TaskHistories.PurposeIsKept | internal/controller/taskrun_controller.go:50-157 | no history changes what a TaskRun was created for |
| TaskHistories.DecidedApprovalIsLeftAlone | internal/controller/taskrun_controller.go:73-78 | a reconcile leaves an approval task alone that is neither new nor Pending |
| JobRetries.StrandedIff | internal/dispatch/rerun_handler.go:58-87 | over every history of reconciles, reruns and decisions with updates going through or lost: a TaskRun waits for a Job that is gone exactly when the update of a retry or rerun was lost after the Job was deleted, and no rerun or final decision came since |
| JobRetries.StrandedForGood | internal/controller/taskrun_controller.go:117-121 | reconciles alone never change such a TaskRun again, retries left or not |
| JobRetries.LostUpdateStrands | internal/controller/taskrun_controller.go:130-147 | one failed Job with a retry left, or one rerun of a running task, and one lost update: Running for ever |
| RolloutReferences.StrandedIff | internal/dispatch/rerun_handler.go:66-87 | over every history of reconciles, reruns and decisions with updates going through or lost: a canary task waits for a Rollout that is gone exactly when a rerun's update was lost after the Rollout was deleted, and no rerun went through since |
| RolloutReferences.StrandedForGood | internal/controller/taskrun_controller.go:268-271 | reconciles alone never change such a task again |
| RolloutReferences.RerunCreatesRollout | internal/controller/taskrun_controller.go:243-266 | a rerun that goes through and one reconcile: a Rollout is there, referred to, and the task is Running |
| Approvals.DecideKeepsSucceeded | internal/dispatch/approve_handler.go:60-75 | a decision takes a task out of Succeeded exactly when it is a rejection |
| Approvals.ApprovalSucceedsIfComplete | internal/dispatch/approve_handler.go:64-75 | an approval makes a task of any type and phase Succeeded exactly when it is a new approver's and completes the count |
| Approvals.FinishedUntilOverturned | internal/dispatch/approve_handler.go:47-75 | over every mix of reconciles, decisions and reruns, a finished Job-backed TaskRun keeps its phase exactly until a rerun, a rejection of a Succeeded one, or an approval of a Failed one that completes a quorum |
| Approvals.RetryBound | internal/controller/taskrun_controller.go:89-156 | over every mix of reconciles, decisions and reruns, since the last rerun: Jobs created are retries plus a current one, at most MaxRetries retries and MaxRetries + 1 failed Jobs, an unfinished task has as many failed Jobs as retries; Failed without a rejection means MaxRetries + 1 failed Jobs, and is reached exactly then when nobody decides |
| Approvals.RejectedBuildHasNoFailedJob | internal/dispatch/approve_handler.go:60-63 | a rejection fails a Build task before any Job, or while its Job runs, with no failed Job |
| Approvals.ScheduledTasksAreNotRetried | internal/controller/pipelinerun_controller.go:332-357 | a TaskRun made by the scheduler carries no retry policy: over every such mix it gets at most one Job, and without a decision fails exactly with it |
| Approvals.RecordedApprovers | internal/dispatch/approve_handler.go:49-75 | over every mix of reconciles, decisions and reruns, the recorded approvers are, without repetition, those who approved since the last rerun, and the required count is the configured one |
| Approvals.ApproversOnlyGrow | internal/dispatch/approve_handler.go:65-70 | between reruns the list of approvers only grows at its end |
| Approvals.Quorum | internal/dispatch/approve_handler.go:60-75 | Succeeded needs RequiredCount distinct approvers since the last rerun; without a rejection it is reached exactly with them, and Failed is reached only by a rejection |
| Approvals.RejectionIsOverturned | internal/dispatch/approve_handler.go:60-75 | the next decision makes a rejected task Succeeded exactly when it is a new approver's approval that completes the quorum |
| Approvals.RejectedYetSucceeded | internal/dispatch/approve_handler.go:60-75 | a concrete history with a rejection that ends in Succeeded |
| LogStream.SplitChunks | pkg/logstream/logstream.go:26-64 | the chunks concatenate to all lines in order with newlines, are a legal cutting at line boundaries under the cap given, or 8192 without a positive one, and no legal cutting has fewer |
| LogStream.GreedyIsOptimal | pkg/logstream/logstream.go:28-58 | no cutting into groups within the cap or of one line has fewer groups than the greedy one, for every cap |
| LogStream.ChunkShape | pkg/logstream/logstream.go:23-30 | a chunk ends a line and is within the cap or is one whole oversized line |
| LogStream.ScanIsLosslessIff | pkg/logstream/logstream.go:43-50 | scanning into lines and writing them back ends the last line and changes nothing else if and only if no carriage return stands directly before a newline or at the end |
| Snapshot.SnapshotSpec | internal/dispatch/snapshot.go:19-51 | the result is a canonical form of the task list: tasks sorted by name, DependsOn sorted, seven fields projected |
| Snapshot.CanonicalFormIdentifiesTasks | internal/dispatch/snapshot.go:13-51 | canonical forms are equal if and only if the tasks are the same up to the order of the list and of each DependsOn, on the seven fields |
| Snapshot.OtherFieldsAreInvisible | internal/dispatch/snapshot.go:13-51 | task lists that differ only in retries, required approvals and rollout have the same canonical form |
| Snapshot.SortedStringsAreUnique | internal/dispatch/snapshot.go:40-41 | two sorted lists of the same strings are equal, so the sorting algorithm does not matter |
| Snapshot.StringLessIsLexicographic | internal/dispatch/snapshot.go:24 | one string is smaller exactly when after a common prefix it ends first or has the smaller character |
| Canary.WeightReplicasIsFloor | pkg/canary/engine.go:202-207 | for a percentage and a non-negative int32 total: the floor of the share, between 0 and the total, and the int32 conversion loses nothing |
| Canary.QuotientIsTruncated | pkg/canary/engine.go:202-207 | the division drops the fraction towards zero |
| Canary.NothingOfNothing | pkg/canary/engine.go:202-207 | without a positive total nothing is requested; the conversion keeps every int32 and wraps beyond |
| Canary.DecisionsConserve | pkg/canary/engine.go:46-186 | every decision splits the total between stable and canary by its weight, stays within the plan and moves at most one step |
| Canary.AdvancesAtWeightIff | pkg/canary/engine.go:121-185 | at a step's weight the engine advances exactly when pods are wanted, all are available and the canary is healthy, to the next step and its weight |
| Canary.ScalesToWeightFirst | pkg/canary/engine.go:107-119 | before the weight is reached nothing is judged: the decision is to scale to it |
| RolloutSafety.RunStaysInBounds | internal/controller/rollout_controller.go:70-229 | over all runs, commands included, the step index never leaves the plan nor moves back, and the weight is 0 or one of the plan's |
| RolloutSafety.RequestedPodsSumToTotal | internal/controller/rollout_controller.go:233-243 | over all runs, commands included, with a fixed total, the two Deployments request exactly that many pods |
| RolloutDrift.TotalNeverGrows | internal/controller/rollout_controller.go:251-280 | without an explicit count, in every run, commands included, the live total never grows |
| RolloutDrift.TotalIsResolved | internal/controller/rollout_controller.go:251-280 | the total is the one configured, else that of the live stable Deployment, else 2 |
| RolloutDrift.TotalStaysIff | internal/controller/rollout_controller.go:251-280 | it stays in every run if and only if the first step that is not skipped is a pause or asks for less than one pod of the initial total |
| RolloutDrift.DrainedIffEverFull | internal/controller/rollout_controller.go:233-280 | the stable Deployment is scaled to nothing exactly when the weight has been 100, and stays so |
| RolloutDrift.HealthyWithoutPodsIfFull | internal/controller/rollout_controller.go:233-280 | a rollout that became Healthy requests no pod at all exactly when its weight was ever 100 |
| RolloutDrift.HealthyWithoutPodsIff | internal/controller/rollout_controller.go:164-280 | a rollout that became Healthy without an operator ends with no pod in either Deployment if and only if its plan has a step of 100 that is no pause, or is one directly after a weight step |
| RolloutDrift.FourPodsAreLost | internal/controller/rollout_controller.go:164-280 | one step to 100, four stable pods, a well-behaved canary: Healthy with no pods after three reconciles |
| RolloutDrift.RollbackRestoresNothing | internal/controller/rollout_controller.go:93-116 | after a rollback the stable Deployment has the live total of that moment, never more than at the beginning, and the canary none |
| RolloutDrift.RollbackLosesTwoOfFour | internal/controller/rollout_controller.go:93-116 | four stable pods, one step to 50, a rollback: RolledBack with two stable pods and no canary |
| RolloutSafety.ReplicasFollowWeight | internal/controller/rollout_controller.go:164-209 | without commands the canary has floor(weight * total / 100) replicas and the stable Deployment the rest; once RolledBack none and all |
| RolloutSafety.RunIsGated | pkg/canary/engine.go:71-185 | without promotions, every step below the index was passed by an evaluation of its own, and the one pause stamp was written by this run for its step |
| RolloutSafety.HealthyMeansEveryStepPassed | pkg/canary/engine.go:71-185 | without promotions, Healthy means every weight step was judged at its weight, ready and healthy, and every timed pause lasted more than its duration minus one second and ended healthy |
| RolloutSafety.SecondTimedPauseHolds | internal/controller/rollout_controller.go:144-162 | without promotions, no run gets past the second timed pause of a plan |
| RolloutThreshold.DecisionsFollowCount | pkg/canary/engine.go:121-166 | in every run, commands included, an evaluation leaves RollingBack, or Failed without auto-rollback, exactly when the failed checks with all pods ready since the last evaluation of another kind have reached a positive threshold |
| RolloutThreshold.CountStaysRightUnlessOvercounted | pkg/canary/engine.go:129-140 | an evaluation makes a right count wrong exactly when it finds a pod missing at its step's own weight, with auto-rollback and the threshold used up |
| RolloutThreshold.CountIsExact | pkg/canary/engine.go:121-166 | in every run, commands included, ConsecutiveFailures is the number of those checks, and never above the threshold, as long as no consumed promotion upsets it |
| RolloutThreshold.PromotionKeepsCountIff | internal/controller/rollout_controller.go:633-648 | a promotion keeps the count right in every run without further commands if and only if it does not lead to a weight step with the threshold used up, nor to one of weight 0 with one check missing and pods left to fail it |
| RolloutThreshold.PromotedRollbackCountsNothing | pkg/canary/engine.go:129-140 | after a health rollback, a promotion to a weight step and one reconcile without a ready pod roll back again and count one failure more than there were |
| RolloutProbe.WeightStepPassesIff | internal/controller/rollout_controller.go:169-184 | at its weight a step is passed exactly when all pods are ready and the probe passes if due; against a failing probe exactly when pods are ready and the last check is less than 30 seconds old |
| RolloutProbe.ProbeIsDue | internal/controller/rollout_controller.go:180-184 | the first check is due, and one 30 seconds after the last, not earlier |
| RolloutProbe.HealthyWithoutProbe | internal/controller/rollout_controller.go:169-184 | one step to 50, two replicas, three reconciles within two seconds, no probe ever passing: Healthy |
| RolloutProbe.CompletesAgainstProbesIff | internal/controller/rollout_controller.go:169-229 | a plan that can become Healthy without an operator at all, and only such a plan, can do so on a forward clock with every probe failing |
| RolloutPause.PauseHolds | internal/controller/rollout_controller.go:594-609 | from any state neither Healthy, Degraded nor aborted, a consumed pause holds over all events but a promotion or rollback: step, weight and failures stay, the phase is Paused, and each reconcile without a command leaves floor(weight * total / 100) canary pods and the rest stable |
| RolloutPause.IgnoredCommands | internal/controller/rollout_controller.go:594-663 | a pause of a Healthy or Degraded rollout, a promotion of an aborted one and an unknown command change nothing but the pending command |
| RolloutPause.PromotionEndsHold | internal/controller/rollout_controller.go:610-648 | a promotion of a rollout that is not aborted ends the hold and moves to the next step and its weight, or completes it past the last step, without scaling |
| RolloutPause.RollbackAborts | internal/controller/rollout_controller.go:649-660 | a rollback aborts from any state; the next reconcile leaves RolledBack, weight 0, no canary pod and the whole total stable |
| RolloutPause.PausedIsHeld | internal/controller/rollout_controller.go:118-134 | a reconcile of a paused rollout writes Paused, keeps the rest of the status, and scales to its weight |
| RolloutPause.NewRolloutStartsOver | internal/controller/rollout_controller.go:76-83 | a Rollout seen for the first time starts at step 0 and weight 0 |
| RolloutPause.StuckCanaryIsRolledBack | internal/controller/rollout_controller.go:186-199 | a reconcile past the holds rolls back a stuck canary exactly with auto-rollback and a canary that was there before; of the status only phase and completion change |
| RolloutPause.DecisionIsWritten | internal/controller/rollout_controller.go:201-228 | any other reconcile past the holds stores the replicas of the Deployments, the second of a check that was due, and completion once Healthy or Failed |
| RolloutPause.PauseIsStamped | internal/controller/rollout_controller.go:144-162 | a timed pause without stamp gets that of its step and second, and nothing else happens; an indefinite one is held without |
| RolloutPause.TimedPauseEndsIff | pkg/canary/engine.go:71-91 | a timed pause is left exactly with a stamp of its step, its whole duration since the stamped second, and a ready and healthy canary |
| RolloutSafety.HealthRollbackDoesNotLast | internal/controller/rollout_controller.go:136-142 | after a health rollback the next reconcile scales to the step's weight again, unless the canary is found stuck |
| RolloutSafety.FinishedIsFinal | internal/controller/rollout_controller.go:136-142 | without commands nothing changes a Failed or RolledBack rollout any more |
| RolloutRevival.CommandLeavesFinishedIff | internal/controller/rollout_controller.go:572-669 | a consumed command keeps a Failed or RolledBack rollout finished exactly when it is unknown |
| RolloutRevival.PromotionRevivesFinished | internal/controller/rollout_controller.go:610-648 | a promoted finished rollout without canary pods is scaled up to the promoted weight by the next evaluation, unless that is at a weight step with the threshold used up; past the last step it becomes Healthy |
| RolloutSafety.OperatorRollbackIsIrrevocable | internal/controller/rollout_controller.go:93-116 | from any state, after a rollback command is consumed and any events, the first reconcile without a pending command pins the rollout: nothing gives the canary a replica or the status a weight again |
| RolloutSafety.PromotedStepIsJudgedAtOldScale | internal/controller/rollout_controller.go:633-648 | after a promotion the Deployments are as before, and the new step is passed exactly when the old pods are ready and healthy |
| RolloutCompletion.CompletedIsWalkable | pkg/canary/engine.go:46-186 | a rollout that became Healthy without an operator had a plan with a pod at every weight, no indefinite pause and at most one timed one |
| RolloutCompletion.GoodStep | pkg/canary/engine.go:46-186 | on such a plan every reconcile with a well-behaved canary decreases the measure 2 * (len - index), less 1 at the step's weight, plus 1 for an unwritten stamp |
| RolloutCompletion.WalkCompletes | pkg/canary/engine.go:46-186 | such a rollout with a well-behaved canary is Healthy within 2 * len(Steps) + 1 evaluations, and one reconcile that writes the stamp of a timed pause |
| RolloutCompletion.CompletesIffWalkable | pkg/canary/engine.go:46-186 | a rollout can become Healthy without an operator if and only if its plan is such |
| RolloutCompletion.PauseIsHeldAtItsWeightIff | pkg/canary/engine.go:71-91 | a step with weight and pause is held at its own weight exactly when a weight step comes directly before it, or the weight was that already |
| RolloutObject.RolloutController.Reconcile | internal/controller/rollout_controller.go:70-229 | one reconcile with its command, holds, stamp, health gate, stuck canary and evaluation is one step of the system: whole status, annotations and both Deployments |
| RolloutObject.RolloutController.ApplyControlCommand | internal/controller/rollout_controller.go:572-669 | a pending command is consumed and applied to the stored status; without one nothing changes |
| RolloutObject.RolloutController.EnsureWorkload | internal/controller/rollout_controller.go:251-280 | the total comes from the spec, else the live stable Deployment, else 2; a missing Deployment is created at that size |
| RolloutObject.RolloutController.EnsureCanary | internal/controller/rollout_controller.go:317-359 | a missing canary Deployment is created with no replicas |
| RolloutObject.RolloutController.HoldAborted | internal/controller/rollout_controller.go:93-116 | an aborted rollout is scaled to 0 and total and becomes RolledBack at weight 0 |
| RolloutObject.RolloutController.HoldPaused | internal/controller/rollout_controller.go:118-134 | a paused rollout keeps its step and weight and is scaled to them |
| RolloutObject.RolloutController.Advance | internal/controller/rollout_controller.go:164-228 | past the holds: the stuck canary is rolled back, otherwise the decision is applied in full |

## Left out

- Kubernetes itself: watches, caches and their staleness, owner references, garbage collection. Listing, deciding and creating are one atomic step, as are reading and writing one TaskRun; a deleted TaskRun takes its Job or Rollout with it.
- Namespaces and labels: a run's TaskRuns are looked up in one map, as if the run's namespace were its target namespace.
- PipelineSystem.Step: at most one rerun is in progress at a time; its reading of the run and the reset of the target are one step, so a conflict on that first write is modelled in JobRetries only.
- Scheduler.BuildTaskRun: the fields of a TaskRun that only its Job reads (command, arguments, repository, parameters, artifacts, timeout) are left out, as are RBAC and CA objects; when ensuring RBAC fails the reconcile is the one cut before its first create.
- Scheduler.SummarizeTasks: start and completion times and the Rollout snapshot of a row are not modelled.
- TaskRunController.Reconcile: backoff times, metrics and log streaming are not modelled; the branch for a missing rollout spec in reconcileDeploy cannot be reached from Reconcile. Deleting a Job and clearing its reference are one step here and two in JobRetries.Next.
- RolloutObject.RolloutController.Reconcile: the reads, patches and status update of one reconcile all succeed; clearing a command and applying it is one step. Requeue times, messages, conditions, start time, Service, Ingress and alerts are not modelled.
- Health probes (HTTP, Prometheus): their result is an input.
- Pause stamps: the text form of the annotation is not modelled; a stamp is a step and a whole second.
- Integer width: the int32 conversion of replica counts is explicit and shown to lose nothing; step indices, retry and failure counters are unbounded.
- Snapshot.SnapshotSpec: JSON encoding and hashing are not modelled; what is proved is about the sequence that is encoded. Insertion sorts stand for the library's sorts, and the lemmas hold for every sort.
- LogStream.SplitChunks: the scanner's buffer limit and read errors appear as a flag beside the lines read before the failure; sending the chunks is left out.
- Hub connection, status reports, resynchronisation, apply and rollout-control handlers: runs and commands are arbitrary inputs; payload validation is left out.
