/**
 Approval decisions (internal/dispatch/approve_handler.go) and the quorum they
 establish together with the TaskRun reconciler's initialisation and reruns.
 */
module Approvals {
  import opened Wrappers
  import opened PipelineTypes
  import opened TaskRunController
  import opened Downstream
  import Scheduler

  /** The stored effect of one decision. The handler looks neither at the task's type nor at its phase. */
  function Decide(tr: TaskRun, approver: string, rejected: bool): TaskRun {
    var approval := if tr.approval.Some? then tr.approval.value else ApprovalStatus(RequiredCount(tr), [], "");
    if rejected then
      tr.(approval := Some(approval.(rejectedBy := approver)), phase := TaskPhase.Failed,
          message := "rejected by " + approver)
    else if approver in approval.approvedBy then tr
    else
      var approvedBy := approval.approvedBy + [approver];
      var decided := tr.(approval := Some(approval.(approvedBy := approvedBy)));
      if |approvedBy| >= approval.requiredCount
      then decided.(phase := TaskPhase.Succeeded, message := "approved")
      else decided
  }

  /** An approval by this person completes the quorum; without a recorded approval the configured count is required. */
  predicate Completes(tr: TaskRun, approver: string) {
    && approver !in ApprovedBy(tr)
    && |ApprovedBy(tr)| + 1 >= if tr.approval.Some? then tr.approval.value.requiredCount else RequiredCount(tr)
  }

  lemma ApprovalSucceedsIfComplete(tr: TaskRun, approver: string)
    requires tr.phase != TaskPhase.Succeeded
    ensures Decide(tr, approver, false).phase == TaskPhase.Succeeded <==> Completes(tr, approver)
  {
  }

  /** A decision takes a TaskRun out of Succeeded exactly when it is a rejection. */
  lemma DecideKeepsSucceeded(tr: TaskRun, approver: string, rejected: bool)
    requires tr.phase == TaskPhase.Succeeded
    ensures Decide(tr, approver, rejected).phase == TaskPhase.Succeeded <==> !rejected
  {
  }

  datatype Event =
    | Observe(seen: Observation)
    | Decision(approver: string, rejected: bool)
    | Rerun

  function Apply(tr: TaskRun, e: Event): TaskRun {
    match e
    case Observe(seen) => Reconcile(tr, seen)
    case Decision(approver, rejected) => Decide(tr, approver, rejected)
    case Rerun => Reset(tr)
  }

  function ApplyAll(tr: TaskRun, history: seq<Event>): TaskRun {
    if history == [] then tr else Apply(ApplyAll(tr, history[..|history| - 1]), history[|history| - 1])
  }

  /** Who approved since the last rerun, read off the history alone. */
  function Approvers(history: seq<Event>): set<string> {
    if history == [] then {} else
      var before := Approvers(history[..|history| - 1]);
      match history[|history| - 1]
      case Rerun => {}
      case Decision(approver, false) => before + {approver}
      case _ => before
  }

  /** Whether somebody rejected since the last rerun. */
  predicate Rejected(history: seq<Event>) {
    history != [] &&
    match history[|history| - 1]
    case Rerun => false
    case Decision(_, true) => true
    case _ => Rejected(history[..|history| - 1])
  }

  function ApprovedBy(tr: TaskRun): seq<string> {
    if tr.approval.Some? then tr.approval.value.approvedBy else []
  }

  ghost predicate NewApproval(tr: TaskRun) {
    tr.kind == Approval && tr.phase == TaskPhase.Unset && tr.approval.None?
  }

  lemma {:induction false} SizeWithoutDuplicates(s: seq<string>)
    requires NoDuplicates(s)
    ensures |set x | x in s| == |s|
  {
    if s != [] {
      var front, last := s[..|s| - 1], s[|s| - 1];
      SizeWithoutDuplicates(front);
      assert (set x | x in s) == (set x | x in front) + {last};
    }
  }

  /** How many people have to approve: the number configured, else one. */
  function Needed(required: Option<int>): int {
    match required
    case Some(n) => n
    case None => 1
  }

  /** What a TaskRun's status says about its approvers, against who did approve. */
  ghost predicate Records(tr: TaskRun, start: TaskRun, approvers: set<string>) {
    && tr.kind == Approval && tr.requiredApprovals == start.requiredApprovals
    && (tr.approval.Some? ==> tr.approval.value.requiredCount == Needed(start.requiredApprovals))
    && NoDuplicates(ApprovedBy(tr))
    && (forall a :: a in ApprovedBy(tr) <==> a in approvers)
  }

  lemma RecordsStep(tr: TaskRun, start: TaskRun, approvers: set<string>, e: Event)
    requires Records(tr, start, approvers)
    ensures Records(Apply(tr, e), start,
      match e case Rerun => {} case Decision(a, false) => approvers + {a} case _ => approvers)
  {
  }

  /** The recorded approvers are the distinct people who approved since the last rerun. */
  lemma {:induction false} RecordedApprovers(start: TaskRun, history: seq<Event>)
    requires NewApproval(start)
    ensures Records(ApplyAll(start, history), start, Approvers(history))
  {
    hide Apply;
    if history != [] {
      var front := history[..|history| - 1];
      RecordedApprovers(start, front);
      RecordsStep(ApplyAll(start, front), start, Approvers(front), history[|history| - 1]);
    }
  }

  /** Between reruns the list of approvers only grows at its end. */
  lemma ApproversOnlyGrow(tr: TaskRun, e: Event)
    requires tr.kind == Approval && !e.Rerun?
    ensures ApprovedBy(tr) <= ApprovedBy(Apply(tr, e))
  {
  }

  lemma NumberOfApprovers(start: TaskRun, history: seq<Event>)
    requires NewApproval(start)
    ensures |ApprovedBy(ApplyAll(start, history))| == |Approvers(history)|
  {
    RecordedApprovers(start, history);
    var approvedBy := ApprovedBy(ApplyAll(start, history));
    SizeWithoutDuplicates(approvedBy);
    assert (set a | a in approvedBy) == Approvers(history);
  }

  /**
   Over every mix of reconciles, decisions and reruns, an approval task is Succeeded only
   if enough distinct people approved since the last rerun. While nobody rejected, it is
   Succeeded as soon as they did, and Failed is reached by a rejection only.
   */
  lemma {:induction false} Quorum(start: TaskRun, history: seq<Event>)
    requires NewApproval(start)
    ensures var tr, approvers := ApplyAll(start, history), Approvers(history);
      && (tr.phase == TaskPhase.Succeeded ==> |approvers| >= 1 && |approvers| >= Needed(start.requiredApprovals))
      && (!Rejected(history) ==>
            (tr.phase == TaskPhase.Succeeded <==> |approvers| >= 1 && |approvers| >= Needed(start.requiredApprovals)))
      && (tr.phase == TaskPhase.Failed ==> Rejected(history))
      && tr.phase in {TaskPhase.Unset, TaskPhase.Pending, TaskPhase.Succeeded, TaskPhase.Failed}
  {
    if history != [] {
      var front := history[..|history| - 1];
      Quorum(start, front);
      RecordedApprovers(start, front);
      NumberOfApprovers(start, front);
      NumberOfApprovers(start, history);
    }
  }

  /**
   A rejection is not final. The next decision turns the rejected task into a Succeeded
   one exactly when it approves, comes from somebody new, and completes the quorum.
   */
  lemma RejectionIsOverturned(start: TaskRun, history: seq<Event>, approver: string, rejected: bool)
    requires NewApproval(start) && ApplyAll(start, history).phase == TaskPhase.Failed
    ensures ApplyAll(start, history + [Decision(approver, rejected)]).phase == TaskPhase.Succeeded <==>
      !rejected && approver !in Approvers(history) && |Approvers(history)| + 1 >= Needed(start.requiredApprovals)
  {
    var longer := history + [Decision(approver, rejected)];
    assert longer[..|history|] == history;
    RecordedApprovers(start, history);
    NumberOfApprovers(start, history);
  }

  /** One approver required: Bob rejects, Alice approves, and the task has succeeded. */
  lemma RejectedYetSucceeded(start: TaskRun)
    requires NewApproval(start) && start.requiredApprovals == Some(1)
    ensures ApplyAll(start, [Decision("bob", true), Decision("alice", false)]).phase == TaskPhase.Succeeded
  {
    var history := [Decision("bob", true)];
    assert history[..0] == [];
    assert ApplyAll(start, history) == Decide(start, "bob", true);
    assert Approvers(history) == {};
    RejectionIsOverturned(start, history, "alice", false);
    assert history + [Decision("alice", false)] == [Decision("bob", true), Decision("alice", false)];
  }

  // --- Decisions about tasks that are not approvals ---

  /** The events that take a finished Job-backed task out of its phase: the handler does not ask for the type. */
  predicate Overturns(tr: TaskRun, e: Event) {
    match e
    case Observe(_) => false
    case Decision(_, true) => tr.phase == TaskPhase.Succeeded
    case Decision(approver, false) => tr.phase == TaskPhase.Failed && Completes(tr, approver)
    case Rerun => true
  }

  lemma FinishedStep(tr: TaskRun, e: Event)
    requires JobBacked(tr) && Finished(tr)
    ensures Apply(tr, e).phase != tr.phase <==> Overturns(tr, e)
    ensures !e.Rerun? ==> Finished(Apply(tr, e)) && Apply(tr, e).jobRef == tr.jobRef
  {
  }

  lemma JobBackedStep(tr: TaskRun, e: Event)
    ensures JobBacked(Apply(tr, e)) <==> JobBacked(tr)
  {
  }

  /** The phase is that of the start all the time. */
  predicate KeepsPhase(start: TaskRun, history: seq<Event>) {
    && ApplyAll(start, history).phase == start.phase
    && (history == [] || KeepsPhase(start, history[..|history| - 1]))
  }

  predicate NeverOverturned(start: TaskRun, history: seq<Event>) {
    history == [] ||
    var front, e := history[..|history| - 1], history[|history| - 1];
    NeverOverturned(start, front) && !Overturns(ApplyAll(start, front), e)
  }

  lemma {:induction false} JobBackedStays(start: TaskRun, history: seq<Event>)
    ensures JobBacked(ApplyAll(start, history)) <==> JobBacked(start)
  {
    hide Apply, JobBacked;
    if history != [] {
      JobBackedStays(start, history[..|history| - 1]);
      JobBackedStep(ApplyAll(start, history[..|history| - 1]), history[|history| - 1]);
    }
  }

  /**
   Over every mix of reconciles, decisions and reruns, a Job-backed task that has finished
   keeps its phase exactly until an event overturns it: a rerun, a rejection of a Succeeded
   one, or an approval of a Failed one that completes a quorum.
   */
  lemma {:induction false} FinishedUntilOverturned(start: TaskRun, history: seq<Event>)
    requires JobBacked(start) && Finished(start)
    ensures KeepsPhase(start, history) <==> NeverOverturned(start, history)
  {
    hide Apply, Overturns, JobBacked;
    if history != [] {
      var front, e := history[..|history| - 1], history[|history| - 1];
      FinishedUntilOverturned(start, front);
      JobBackedStays(start, front);
      if KeepsPhase(start, front) {
        FinishedStep(ApplyAll(start, front), e);
      }
    }
  }

  // --- The retry bound ---

  /** The Jobs and failures counted since the last rerun; the counts do not know about decisions. */
  function CountEvent(h: Tracked, e: Event): Tracked {
    match e
    case Observe(seen) => TrackedStep(h, seen)
    case Decision(_, _) => h.(tr := Apply(h.tr, e))
    case Rerun => Tracked(Apply(h.tr, e), 0, 0)
  }

  function CountAll(start: TaskRun, history: seq<Event>): Tracked {
    if history == [] then Tracked(start, 0, 0)
    else CountEvent(CountAll(start, history[..|history| - 1]), history[|history| - 1])
  }

  /** Whether anybody decided on the task since the last rerun. */
  predicate Decided(history: seq<Event>) {
    history != [] &&
    match history[|history| - 1]
    case Rerun => false
    case Decision(_, _) => true
    case Observe(_) => Decided(history[..|history| - 1])
  }

  /** A Job-backed TaskRun that is fresh or reset. */
  predicate NewJob(tr: TaskRun) {
    JobBacked(tr) && !Finished(tr) && !tr.jobRef && tr.retryCount == 0
  }

  /** The counts of a TaskRun with at most attempts Jobs, and what Failed means for them. */
  predicate WithinRetries(h: Tracked, start: TaskRun, decided: bool, rejected: bool) {
    && JobBacked(h.tr) && h.tr.maxRetries == start.maxRetries
    && h.jobsCreated == h.tr.retryCount + (if h.tr.jobRef then 1 else 0)
    && 0 <= h.tr.retryCount < Attempts(start) && h.jobsFailed <= Attempts(start)
    && (!Finished(h.tr) ==> h.jobsFailed == h.tr.retryCount)
    && (h.jobsFailed == Attempts(start) ==> Finished(h.tr))
    && (h.tr.phase == TaskPhase.Failed && !rejected ==> h.jobsFailed == Attempts(start))
    && (!decided ==>
          && (h.tr.phase == TaskPhase.Failed <==> h.jobsFailed == Attempts(start))
          && h.jobsFailed == h.tr.retryCount + (if h.tr.phase == TaskPhase.Failed then 1 else 0)
          && (Finished(h.tr) ==> h.tr.jobRef))
  }

  lemma RetriesStep(h: Tracked, start: TaskRun, decided: bool, rejected: bool, e: Event)
    requires WithinRetries(h, start, decided, rejected)
    ensures WithinRetries(CountEvent(h, e), start,
      match e case Rerun => false case Decision(_, _) => true case _ => decided,
      match e case Rerun => false case Decision(_, true) => true case _ => rejected)
  {
  }

  /**
   Over every mix of reconciles, decisions and reruns of a fresh or reset Job-backed TaskRun,
   since the last rerun: each Job created has been retried, but a current one; there are at
   most MaxRetries retries and MaxRetries + 1 failed Jobs, and so many only if it is finished.
   Failed without a rejection means that many failed Jobs; without any decision it is reached
   exactly then.
   */
  lemma {:induction false} RetryBound(start: TaskRun, history: seq<Event>)
    requires NewJob(start)
    ensures CountAll(start, history).tr == ApplyAll(start, history)
    ensures WithinRetries(CountAll(start, history), start, Decided(history), Rejected(history))
  {
    if history != [] {
      hide WithinRetries;
      var front := history[..|history| - 1];
      RetryBound(start, front);
      RetriesStep(CountAll(start, front), start, Decided(front), Rejected(front), history[|history| - 1]);
    }
  }

  /** TaskRuns that the scheduler creates carry no retry policy: their first failed Job is final. */
  lemma ScheduledTasksAreNotRetried(t: TaskSpec, history: seq<Event>)
    requires t.kind != Approval && !(t.kind == Release && t.canary)
    ensures var h := CountAll(Scheduler.BuildTaskRun(t), history);
      && h.jobsCreated <= 1 && h.jobsFailed <= 1 && (h.jobsFailed == 1 ==> Finished(h.tr))
      && (h.tr.phase == TaskPhase.Failed && !Rejected(history) ==> h.jobsFailed == 1)
      && (!Decided(history) ==> (h.tr.phase == TaskPhase.Failed <==> h.jobsFailed == 1))
  {
    RetryBound(Scheduler.BuildTaskRun(t), history);
  }

  /** A rejection fails a Job's task at once: before any Job, or while its Job is running and has not failed. */
  lemma RejectedBuildHasNoFailedJob(start: TaskRun)
    requires NewJob(start) && start.kind == Build
    ensures var early := CountAll(start, [Decision("bob", true)]);
      early.tr.phase == TaskPhase.Failed && early.jobsCreated == 0 && early.jobsFailed == 0
    ensures var running := CountAll(start, [Observe(Observation(None, None)), Decision("bob", true)]);
      running.tr.phase == TaskPhase.Failed && running.jobsCreated == 1 && running.jobsFailed == 0
  {
    var created := [Observe(Observation(None, None))];
    var history := created + [Decision("bob", true)];
    assert history[..1] == created && created[..0] == [] && [Decision("bob", true)][..0] == [];
    assert CountAll(start, created) == TrackedStep(Tracked(start, 0, 0), Observation(None, None));
    assert CountAll(start, history).tr == Decide(CountAll(start, created).tr, "bob", true);
  }
}
