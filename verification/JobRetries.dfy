/**
 Where deleting a Job and updating the TaskRun that refers to it come apart: a retry
 (internal/controller/taskrun_controller.go) and a rerun (internal/dispatch/rerun_handler.go)
 both delete the Job first, and only then write a status without the reference.
 */
module JobRetries {
  import opened Wrappers
  import opened PipelineTypes
  import opened TaskRunController
  import Approvals

  /**
   What happens to a Job-backed TaskRun; written says whether the status update goes through.
   A reconcile also meets the state of the Job, if it is there.
   */
  datatype Event =
    | Reconciled(status: JobStatus, written: bool)
    | Rerun(written: bool)
    | Decided(approver: string, rejected: bool, written: bool)

  /** A stored Job-backed TaskRun, and whether its Job is on the cluster. */
  datatype Backed = Backed(tr: TaskRun, job: bool)

  /** The reconcile finds the Job failed and a retry left. */
  predicate Retries(b: Backed, status: JobStatus) {
    && !Finished(b.tr) && b.tr.jobRef && b.job
    && status.succeeded <= 0 && status.failed > 0 && b.tr.retryCount < MaxRetries(b.tr)
  }

  /** The status that is stored when the update goes through. */
  function Update(b: Backed, e: Event): TaskRun {
    match e
    case Reconciled(status, _) => ReconcileJob(b.tr, if b.job then Some(status) else None)
    case Rerun(_) => Reset(b.tr)
    case Decided(approver, rejected, _) => Approvals.Decide(b.tr, approver, rejected)
  }

  /** The Job is created before the reference to it is stored, and deleted before the reference is cleared. */
  function JobAfter(b: Backed, e: Event): bool {
    match e
    case Reconciled(status, _) =>
      if !Finished(b.tr) && !b.tr.jobRef then true else b.job && !Retries(b, status)
    case Rerun(_) => b.job && !b.tr.jobRef
    case Decided(_, _, _) => b.job
  }

  function Next(b: Backed, e: Event): Backed {
    Backed(if e.written then Update(b, e) else b.tr, JobAfter(b, e))
  }

  function All(b: Backed, history: seq<Event>): Backed {
    if history == [] then b else Next(All(b, history[..|history| - 1]), history[|history| - 1])
  }

  /** The TaskRun waits for a Job that is gone: every reconcile returns when it does not find it. */
  predicate Stranded(b: Backed) {
    !Finished(b.tr) && b.tr.jobRef && !b.job
  }

  /** A retry or a rerun deletes the Job of an unfinished TaskRun, and its update is lost. */
  predicate Strands(b: Backed, e: Event) {
    && !e.written && !Finished(b.tr) && b.tr.jobRef && b.job
    && (e.Rerun? || (e.Reconciled? && Retries(b, e.status)))
  }

  /** A rerun whose update goes through, or a decision that finishes the task. */
  predicate Frees(b: Backed, e: Event) {
    e.written && (e.Rerun? || (e.Decided? && (e.rejected || Approvals.Completes(b.tr, e.approver))))
  }

  lemma StrandedStep(b: Backed, e: Event)
    requires JobBacked(b.tr)
    ensures Stranded(Next(b, e)) <==> Strands(b, e) || (Stranded(b) && !Frees(b, e))
    ensures JobBacked(Next(b, e).tr)
    ensures Stranded(b) && e.Reconciled? ==> Next(b, e) == b
  {
  }

  predicate LeftStranded(b: Backed, history: seq<Event>) {
    history != [] &&
    var front, e := history[..|history| - 1], history[|history| - 1];
    Strands(All(b, front), e) || (LeftStranded(b, front) && !Frees(All(b, front), e))
  }

  /**
   Over every history of reconciles, reruns and decisions, each with its update going through
   or lost: a TaskRun ends up waiting for a Job that is gone exactly when the update of a retry
   or of a rerun was lost after the Job was deleted, and no rerun or final decision came since.
   */
  lemma {:induction false} StrandedIff(b: Backed, history: seq<Event>)
    requires JobBacked(b.tr) && !Stranded(b)
    ensures Stranded(All(b, history)) <==> LeftStranded(b, history)
    ensures JobBacked(All(b, history).tr)
  {
    if history != [] {
      hide Stranded, Next, Strands, Frees, JobBacked;
      var front := history[..|history| - 1];
      StrandedIff(b, front);
      StrandedStep(All(b, front), history[|history| - 1]);
    }
  }

  /** Reconciles alone never change anything again, retries left or not. */
  lemma {:induction false} StrandedForGood(b: Backed, history: seq<Event>)
    requires JobBacked(b.tr) && Stranded(b) && forall e | e in history :: e.Reconciled?
    ensures All(b, history) == b
  {
    if history != [] {
      hide Stranded, Next;
      StrandedForGood(b, history[..|history| - 1]);
      assert history[|history| - 1] in history;
      StrandedStep(b, history[|history| - 1]);
    }
  }

  /** One Job fails with a retry left, and the update is lost; or a running task is rerun, and the update is lost. */
  lemma LostUpdateStrands(tr: TaskRun, history: seq<Event>)
    requires JobBacked(tr) && tr.phase == TaskPhase.Running && tr.jobRef && forall e | e in history :: e.Reconciled?
    ensures tr.retryCount == 0 && tr.maxRetries == Some(1) ==>
      All(Next(Backed(tr, true), Reconciled(JobStatus(0, 1), false)), history) == Backed(tr, false)
    ensures All(Next(Backed(tr, true), Rerun(false)), history) == Backed(tr, false)
  {
    StrandedForGood(Backed(tr, false), history);
  }
}
