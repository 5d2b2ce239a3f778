/**
 The TaskRun reconciler (internal/controller/taskrun_controller.go): approval
 initialisation, Job creation and retries, and the mirror of a Rollout's phase.
 */
module TaskRunController {
  import opened Wrappers
  import opened PipelineTypes
  import opened RolloutTypes

  datatype JobStatus = JobStatus(succeeded: int, failed: int)

  datatype RolloutView = RolloutView(phase: RolloutPhase, message: string)

  /** What one reconcile finds on the cluster; None when the object is gone. */
  datatype Observation = Observation(job: Option<JobStatus>, rollout: Option<RolloutView>)

  function RequiredCount(tr: TaskRun): int {
    match tr.requiredApprovals
    case Some(n) => n
    case None => 1
  }

  function MaxRetries(tr: TaskRun): int {
    match tr.maxRetries
    case Some(n) => n
    case None => 0
  }

  predicate JobBacked(tr: TaskRun) {
    tr.kind != Approval && !(tr.kind == Release && tr.canary)
  }

  predicate Finished(tr: TaskRun) {
    tr.phase == TaskPhase.Succeeded || tr.phase == TaskPhase.Failed
  }

  function ReconcileApproval(tr: TaskRun): TaskRun {
    var phase := if tr.phase == TaskPhase.Unset then TaskPhase.Pending else tr.phase;
    if phase != TaskPhase.Pending then tr
    else if tr.approval.Some? then tr.(phase := phase)
    else tr.(phase := phase, approval := Some(ApprovalStatus(RequiredCount(tr), [], "")))
  }

  function ReconcileDeploy(tr: TaskRun, rollout: Option<RolloutView>): TaskRun {
    if !tr.rolloutRef then tr.(phase := TaskPhase.Running, rolloutRef := true)
    else match rollout
      case None => tr
      case Some(ro) =>
        match ro.phase
        case Healthy => tr.(phase := TaskPhase.Succeeded)
        case Degraded => tr.(phase := TaskPhase.Failed, message := ro.message)
        case RollingBack => tr.(phase := TaskPhase.Failed, message := ro.message)
        case Failed => tr.(phase := TaskPhase.Failed, message := ro.message)
        case RolledBack => tr.(phase := TaskPhase.Failed, message := ro.message)
        case _ => tr.(phase := TaskPhase.Running)
  }

  function ReconcileJob(tr: TaskRun, job: Option<JobStatus>): TaskRun {
    if Finished(tr) then tr
    else if !tr.jobRef then tr.(phase := TaskPhase.Running, jobRef := true)
    else match job
      case None => tr
      case Some(status) =>
        if status.succeeded > 0 then tr.(phase := TaskPhase.Succeeded)
        else if status.failed > 0 then
          if tr.retryCount < MaxRetries(tr) then tr.(retryCount := tr.retryCount + 1, jobRef := false)
          else tr.(phase := TaskPhase.Failed)
        else tr
  }

  function Reconcile(tr: TaskRun, seen: Observation): TaskRun {
    if tr.kind == Approval then ReconcileApproval(tr)
    else if tr.kind == Release && tr.canary then ReconcileDeploy(tr, seen.rollout)
    else ReconcileJob(tr, seen.job)
  }

  /** The reset a rerun applies to its target. */
  function Reset(tr: TaskRun): TaskRun {
    tr.(phase := TaskPhase.Pending, jobRef := false, rolloutRef := false, retryCount := 0,
        message := "rerun requested", approval := None)
  }

  /** Only a canary whose Rollout stops being Healthy takes a TaskRun out of Succeeded. */
  lemma ReconcileKeepsSucceeded(tr: TaskRun, seen: Observation)
    requires tr.phase == TaskPhase.Succeeded
    ensures Reconcile(tr, seen).phase == TaskPhase.Succeeded <==>
      || tr.kind != Release || !tr.canary
      || (tr.rolloutRef && (seen.rollout.Some? ==> seen.rollout.value.phase == Healthy))
  {
  }

  // --- The retry bound ---

  /** A Job-backed TaskRun together with the Jobs created for it and the failures observed, since its last reset. */
  datatype Tracked = Tracked(tr: TaskRun, jobsCreated: nat, jobsFailed: nat)

  function TrackedStep(h: Tracked, seen: Observation): Tracked {
    var live := !Finished(h.tr);
    Tracked(
      Reconcile(h.tr, seen),
      if live && !h.tr.jobRef then h.jobsCreated + 1 else h.jobsCreated,
      if live && h.tr.jobRef && seen.job.Some? && seen.job.value.succeeded <= 0 && seen.job.value.failed > 0
      then h.jobsFailed + 1 else h.jobsFailed)
  }

  function TrackedRun(h: Tracked, history: seq<Observation>): Tracked {
    if history == [] then h
    else TrackedStep(TrackedRun(h, history[..|history| - 1]), history[|history| - 1])
  }

  function Attempts(tr: TaskRun): int {
    (if MaxRetries(tr) > 0 then MaxRetries(tr) else 0) + 1
  }

  /** Succeeded and Failed are final for a Job-backed TaskRun until a rerun resets it. */
  lemma {:induction false} FinishedIsFinal(h: Tracked, history: seq<Observation>)
    requires JobBacked(h.tr) && Finished(h.tr)
    ensures TrackedRun(h, history) == h
  {
    if history != [] {
      FinishedIsFinal(h, history[..|history| - 1]);
    }
  }
}
