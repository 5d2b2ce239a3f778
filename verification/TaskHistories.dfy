/**
 What a TaskRun's status is after any history, said from the history alone: the Jobs that
 were observed, the Rollout that was seen last, the people who decided.
 */
module TaskHistories {
  import opened Wrappers
  import opened PipelineTypes
  import opened RolloutTypes
  import opened TaskRunController
  import opened Approvals
  import Scheduler

  /** What the reconciles since the last rerun have seen. */
  function Seen(history: seq<Event>): seq<Observation> {
    if history == [] then [] else
      match history[|history| - 1]
      case Rerun => []
      case Observe(seen) => Seen(history[..|history| - 1]) + [seen]
      case Decision(_, _) => Seen(history[..|history| - 1])
  }

  /** Whether a rerun is among the events. */
  predicate Reran(history: seq<Event>) {
    history != [] && (history[|history| - 1].Rerun? || Reran(history[..|history| - 1]))
  }

  /** The phase before any reconcile: that of the start, or Pending after a rerun. */
  function FirstPhase(start: TaskRun, history: seq<Event>): TaskPhase {
    if Reran(history) then TaskPhase.Pending else start.phase
  }

  /** What a TaskRun was created for never changes. */
  lemma {:induction false} PurposeIsKept(start: TaskRun, history: seq<Event>)
    ensures var tr := ApplyAll(start, history);
      && tr.taskName == start.taskName && tr.kind == start.kind && tr.canary == start.canary
      && tr.maxRetries == start.maxRetries && tr.requiredApprovals == start.requiredApprovals
  {
    if history != [] {
      PurposeIsKept(start, history[..|history| - 1]);
      OneEventKeepsPurpose(ApplyAll(start, history[..|history| - 1]), history[|history| - 1]);
      hide Apply;
    }
  }

  lemma OneEventKeepsPurpose(tr: TaskRun, e: Event)
    ensures var tr' := Apply(tr, e);
      && tr'.taskName == tr.taskName && tr'.kind == tr.kind && tr'.canary == tr.canary
      && tr'.maxRetries == tr.maxRetries && tr'.requiredApprovals == tr.requiredApprovals
  {
  }

  // --- Jobs ---

  /** One Job after the other: whether one is out, how many have failed, whether one has succeeded. */
  datatype Jobs = Jobs(out: bool, failed: nat, succeeded: bool)

  function RetriesOf(tr: TaskRun): nat {
    match tr.maxRetries
    case Some(n) => if n > 0 then n else 0
    case None => 0
  }

  /** The Jobs that observations tell of: each is created, looked at until it ends, and retried if it may be. */
  function Watch(seen: seq<Observation>, retries: nat): Jobs {
    if seen == [] then Jobs(false, 0, false) else
      var before, o := Watch(seen[..|seen| - 1], retries), seen[|seen| - 1];
      if before.succeeded || before.failed > retries then before
      else if !before.out then before.(out := true)
      else if o.job.None? then before
      else if o.job.value.succeeded > 0 then before.(succeeded := true)
      else if o.job.value.failed > 0 then Jobs(before.failed + 1 > retries, before.failed + 1, false)
      else before
  }

  /** The status of a Job-backed TaskRun that nobody has decided on. */
  predicate TellsOfJobs(tr: TaskRun, first: TaskPhase, seen: seq<Observation>, retries: nat) {
    var jobs := Watch(seen, retries);
    && tr.jobRef == jobs.out && jobs.failed <= retries + 1
    && tr.retryCount == (if jobs.failed > retries then retries else jobs.failed)
    && tr.phase == (if jobs.succeeded then TaskPhase.Succeeded
                    else if jobs.failed > retries then TaskPhase.Failed
                    else if seen != [] then TaskPhase.Running else first)
    && (jobs.succeeded ==> jobs.failed <= retries) && tr.approval.None?
  }

  lemma JobStoryStep(tr: TaskRun, first: TaskPhase, seen: seq<Observation>, retries: nat, o: Observation)
    requires JobBacked(tr) && retries == RetriesOf(tr)
    requires first in {TaskPhase.Unset, TaskPhase.Pending, TaskPhase.Running}
    requires TellsOfJobs(tr, first, seen, retries)
    ensures TellsOfJobs(Reconcile(tr, o), first, seen + [o], retries)
  {
    assert (seen + [o])[..|seen|] == seen;
  }

  /**
   Over every history in which nobody decided since the last rerun, the status of a Job-backed
   task tells of its Jobs: Succeeded exactly when one was observed to succeed while its reference
   was stored, Failed exactly when one more has failed than may be retried, else Running; the
   reference is stored exactly while a Job is out or was the last one.
   */
  lemma {:induction false} JobStory(start: TaskRun, history: seq<Event>)
    requires NewJob(start) && start.approval.None?
    requires start.phase in {TaskPhase.Unset, TaskPhase.Pending, TaskPhase.Running}
    requires !Decided(history)
    ensures TellsOfJobs(ApplyAll(start, history), FirstPhase(start, history), Seen(history), RetriesOf(start))
  {
    PurposeIsKept(start, history);
    if history != [] {
      hide Reconcile, TellsOfJobs, Watch;
      var front, e := history[..|history| - 1], history[|history| - 1];
      PurposeIsKept(start, front);
      match e {
        case Observe(seen) =>
          JobStory(start, front);
          JobStoryStep(ApplyAll(start, front), FirstPhase(start, front), Seen(front), RetriesOf(start), seen);
        case Rerun =>
          ResetTellsOfNoJob(ApplyAll(start, front), RetriesOf(start));
        case Decision(_, _) =>
      }
    } else {
      assert Watch([], RetriesOf(start)) == Jobs(false, 0, false);
    }
  }

  lemma ResetTellsOfNoJob(tr: TaskRun, retries: nat)
    ensures TellsOfJobs(Reset(tr), TaskPhase.Pending, [], retries)
  {
  }

  /**
   Decisions or not: while its Job is out a task that has not finished is Running; a Job that
   has neither succeeded nor failed, or that is not there, changes nothing.
   */
  lemma {:induction false} RunningWhileJobIsOut(start: TaskRun, history: seq<Event>)
    requires NewJob(start)
    ensures var tr := ApplyAll(start, history);
      && (tr.jobRef && !Finished(tr) ==> tr.phase == TaskPhase.Running)
      && (forall o: Observation | tr.jobRef &&
            (o.job.None? || (o.job.value.succeeded <= 0 && o.job.value.failed <= 0)) :: Reconcile(tr, o) == tr)
  {
    PurposeIsKept(start, history);
    if history != [] {
      RunningWhileJobIsOut(start, history[..|history| - 1]);
      PurposeIsKept(start, history[..|history| - 1]);
    }
  }

  // --- Canaries ---

  function LastRollout(seen: seq<Observation>): Option<RolloutView> {
    if seen == [] then None
    else if seen[|seen| - 1].rollout.Some? then seen[|seen| - 1].rollout
    else LastRollout(seen[..|seen| - 1])
  }

  predicate EndsBadly(phase: RolloutPhase) {
    phase in {Degraded, RollingBack, RolloutPhase.Failed, RolledBack}
  }

  /** The first reconcile creates the Rollout; what later ones see of it is what the task says. */
  predicate TellsOfRollout(tr: TaskRun, first: TaskPhase, seen: seq<Observation>) {
    && tr.rolloutRef == (seen != [])
    && (seen == [] ==> tr.phase == first)
    && (seen != [] ==>
          match LastRollout(seen[1..])
          case None => tr.phase == TaskPhase.Running
          case Some(ro) =>
            && (tr.phase == TaskPhase.Succeeded <==> ro.phase == Healthy)
            && (tr.phase == TaskPhase.Failed <==> EndsBadly(ro.phase))
            && (tr.phase == TaskPhase.Running <==> ro.phase in {New, Progressing, Paused})
            && (EndsBadly(ro.phase) ==> tr.message == ro.message))
  }

  lemma RolloutStoryStep(tr: TaskRun, first: TaskPhase, seen: seq<Observation>, o: Observation)
    requires tr.kind == Release && tr.canary && TellsOfRollout(tr, first, seen)
    ensures TellsOfRollout(Reconcile(tr, o), first, seen + [o])
  {
    if seen != [] {
      assert (seen + [o])[1..] == seen[1..] + [o];
      assert (seen[1..] + [o])[..|seen| - 1] == seen[1..];
    }
  }

  /**
   Over every history in which nobody decided since the last rerun, a canary task is Running
   until its Rollout has been seen, and then what the Rollout was when it was seen last.
   */
  lemma {:induction false} CanaryStory(start: TaskRun, history: seq<Event>)
    requires start.kind == Release && start.canary && !start.rolloutRef && !Decided(history)
    ensures TellsOfRollout(ApplyAll(start, history), FirstPhase(start, history), Seen(history))
  {
    if history != [] {
      hide Reconcile;
      var front, e := history[..|history| - 1], history[|history| - 1];
      PurposeIsKept(start, front);
      match e {
        case Observe(seen) =>
          hide TellsOfRollout;
          CanaryStory(start, front);
          RolloutStoryStep(ApplyAll(start, front), FirstPhase(start, front), Seen(front), seen);
        case Rerun =>
        case Decision(_, _) =>
      }
    }
  }

  // --- Approvals ---

  /** The last word since the last rerun: a rejection, or an approval by somebody new that makes up the number. */
  function Verdict(history: seq<Event>, needed: int): (verdict: Option<TaskPhase>)
    ensures verdict.Some? ==> verdict.value in {TaskPhase.Succeeded, TaskPhase.Failed}
  {
    if history == [] then None else
      var front := history[..|history| - 1];
      match history[|history| - 1]
      case Rerun => None
      case Observe(_) => Verdict(front, needed)
      case Decision(_, true) => Some(TaskPhase.Failed)
      case Decision(a, false) =>
        if a !in Approvers(front) && |Approvers(front)| + 1 >= needed then Some(TaskPhase.Succeeded)
        else Verdict(front, needed)
  }

  function LastRejecter(history: seq<Event>): string {
    if history == [] then "" else
      match history[|history| - 1]
      case Rerun => ""
      case Decision(a, true) => a
      case _ => LastRejecter(history[..|history| - 1])
  }

  /** What the status says about the last thing that changed it. */
  function Words(history: seq<Event>, needed: int, first: string): string {
    if history == [] then first else
      var front := history[..|history| - 1];
      match history[|history| - 1]
      case Rerun => "rerun requested"
      case Observe(_) => Words(front, needed, first)
      case Decision(a, true) => "rejected by " + a
      case Decision(a, false) =>
        if a !in Approvers(front) && |Approvers(front)| + 1 >= needed then "approved" else Words(front, needed, first)
  }

  /** Nothing has happened since the last rerun. */
  predicate Untouched(history: seq<Event>) {
    history == [] || history[|history| - 1].Rerun?
  }

  /** The status of an approval task: the verdict, and who approved and rejected. */
  ghost predicate TellsOfDecisions(tr: TaskRun, start: TaskRun, history: seq<Event>, needed: int) {
    var verdict := Verdict(history, needed);
    && (tr.approval.None? <==> Untouched(history)) && tr.message == Words(history, needed, start.message)
    && tr.phase == (if verdict.Some? then verdict.value
                    else if Seen(history) != [] then TaskPhase.Pending else FirstPhase(start, history))
    && (tr.approval.Some? ==>
          && tr.approval.value.requiredCount == needed && tr.approval.value.rejectedBy == LastRejecter(history)
          && forall a :: a in tr.approval.value.approvedBy <==> a in Approvers(history))
  }

  lemma ReconcileInStory(tr: TaskRun, start: TaskRun, history: seq<Event>, needed: int, seen: Observation)
    requires tr.kind == Approval && NewApproval(start) && needed == Needed(tr.requiredApprovals)
    requires TellsOfDecisions(tr, start, history, needed) && |ApprovedBy(tr)| == |Approvers(history)|
    ensures TellsOfDecisions(Reconcile(tr, seen), start, history + [Observe(seen)], needed)
  {
    var longer := history + [Observe(seen)];
    assert longer[..|history|] == history;
    assert Seen(longer) == Seen(history) + [seen] && Verdict(longer, needed) == Verdict(history, needed);
    assert Words(longer, needed, start.message) == Words(history, needed, start.message);
    assert Approvers(longer) == Approvers(history) && LastRejecter(longer) == LastRejecter(history);
    NothingRecorded(history);
    FirstPhaseIsOpen(start, history);
    hide Verdict, Approvers, LastRejecter, FirstPhase, Words;
  }

  lemma NothingRecorded(history: seq<Event>)
    ensures Untouched(history) ==> Approvers(history) == {} && LastRejecter(history) == ""
  {
  }

  lemma FirstPhaseIsOpen(start: TaskRun, history: seq<Event>)
    requires NewApproval(start)
    ensures FirstPhase(start, history) in {TaskPhase.Unset, TaskPhase.Pending}
  {
  }

  /** What one decision does to the status, given who has approved so far. */
  lemma DecideOn(tr: TaskRun, approver: string, rejected: bool, needed: int, approvers: set<string>)
    requires needed == Needed(tr.requiredApprovals) && (tr.approval.Some? ==> tr.approval.value.requiredCount == needed)
    requires |ApprovedBy(tr)| == |approvers| && forall a :: a in ApprovedBy(tr) <==> a in approvers
    ensures var tr' := Decide(tr, approver, rejected);
      && tr'.approval.Some? && tr'.approval.value.requiredCount == needed
      && tr'.approval.value.rejectedBy ==
           (if rejected then approver else if tr.approval.Some? then tr.approval.value.rejectedBy else "")
      && (forall a :: a in tr'.approval.value.approvedBy <==> a in approvers || (!rejected && a == approver))
      && tr'.phase ==
           (if rejected then TaskPhase.Failed
            else if approver !in approvers && |approvers| + 1 >= needed then TaskPhase.Succeeded else tr.phase)
      && tr'.message ==
           if rejected then "rejected by " + approver
           else if approver !in approvers && |approvers| + 1 >= needed then "approved" else tr.message
  {
  }

  lemma WordsAfterDecision(history: seq<Event>, approver: string, rejected: bool, needed: int, first: string)
    ensures var longer := history + [Decision(approver, rejected)];
      && Seen(longer) == Seen(history) && (Reran(longer) <==> Reran(history)) && !Untouched(longer)
      && Approvers(longer) == (if rejected then Approvers(history) else Approvers(history) + {approver})
      && LastRejecter(longer) == (if rejected then approver else LastRejecter(history))
      && Verdict(longer, needed) ==
        (if rejected then Some(TaskPhase.Failed)
         else if approver !in Approvers(history) && |Approvers(history)| + 1 >= needed then Some(TaskPhase.Succeeded)
         else Verdict(history, needed))
      && Words(longer, needed, first) ==
        if rejected then "rejected by " + approver
        else if approver !in Approvers(history) && |Approvers(history)| + 1 >= needed then "approved"
        else Words(history, needed, first)
  {
    assert (history + [Decision(approver, rejected)])[..|history|] == history;
  }

  lemma DecisionInStory(
      tr: TaskRun, start: TaskRun, history: seq<Event>, needed: int, approver: string, rejected: bool)
    requires tr.kind == Approval && NewApproval(start) && needed == Needed(tr.requiredApprovals)
    requires TellsOfDecisions(tr, start, history, needed) && |ApprovedBy(tr)| == |Approvers(history)|
    ensures TellsOfDecisions(Decide(tr, approver, rejected), start, history + [Decision(approver, rejected)], needed)
  {
    hide Verdict, Approvers, LastRejecter, Reran, Seen, Decide, NewApproval, Needed, Words;
    WordsAfterDecision(history, approver, rejected, needed, start.message);
    NothingRecorded(history);
    DecideOn(tr, approver, rejected, needed, Approvers(history));
  }

  lemma RerunInStory(tr: TaskRun, start: TaskRun, history: seq<Event>, needed: int)
    ensures TellsOfDecisions(Reset(tr), start, history + [Rerun], needed)
  {
    var longer := history + [Rerun];
    assert longer[|history|] == Rerun;
  }

  lemma DecisionStoryStep(tr: TaskRun, start: TaskRun, history: seq<Event>, needed: int, e: Event)
    requires tr.kind == Approval && NewApproval(start) && needed == Needed(tr.requiredApprovals)
    requires TellsOfDecisions(tr, start, history, needed) && |ApprovedBy(tr)| == |Approvers(history)|
    ensures TellsOfDecisions(Apply(tr, e), start, history + [e], needed)
  {
    hide TellsOfDecisions;
    match e
    case Observe(seen) => ReconcileInStory(tr, start, history, needed, seen);
    case Decision(approver, rejected) => DecisionInStory(tr, start, history, needed, approver, rejected);
    case Rerun => RerunInStory(tr, start, history, needed);
  }

  /**
   Over every mix of reconciles, decisions and reruns, an approval task is what the last word
   makes it, Pending without one, says so in its message, and has recorded the number configured,
   who rejected last, and exactly those who approved since the last rerun.
   */
  lemma {:induction false} ApprovalStory(start: TaskRun, history: seq<Event>)
    requires NewApproval(start)
    ensures TellsOfDecisions(ApplyAll(start, history), start, history, Needed(start.requiredApprovals))
  {
    PurposeIsKept(start, history);
    if history != [] {
      hide Apply, TellsOfDecisions;
      var front, e := history[..|history| - 1], history[|history| - 1];
      ApprovalStory(start, front);
      PurposeIsKept(start, front);
      NumberOfApprovers(start, front);
      assert front + [e] == history;
      DecisionStoryStep(ApplyAll(start, front), start, front, Needed(start.requiredApprovals), e);
    }
  }

  /** An approval task that has been decided on is left alone by reconciles. */
  lemma DecidedApprovalIsLeftAlone(tr: TaskRun, seen: Observation)
    requires tr.kind == Approval && tr.phase !in {TaskPhase.Unset, TaskPhase.Pending}
    ensures Reconcile(tr, seen) == tr
  {
  }

  /** The number that counts is the one in the pipeline's task: one when there is none. */
  lemma ConfiguredQuorum(t: TaskSpec, history: seq<Event>, n: int)
    requires t.kind == Approval && (t.requiredApprovals == Some(n) || (t.requiredApprovals == None && n == 1))
    ensures var tr := ApplyAll(Scheduler.BuildTaskRun(t), history);
      && (tr.approval.Some? ==> tr.approval.value.requiredCount == n)
      && (tr.phase == TaskPhase.Succeeded ==> |Approvers(history)| >= n && |Approvers(history)| >= 1)
      && (!Rejected(history) ==>
            (tr.phase == TaskPhase.Succeeded <==> |Approvers(history)| >= n && |Approvers(history)| >= 1))
  {
    ApprovalStory(Scheduler.BuildTaskRun(t), history);
    Quorum(Scheduler.BuildTaskRun(t), history);
  }
}
