/** When a rerun revives a failed run, and whether what it deletes can ever be created again. */
module RerunRecovery {
  import opened Wrappers
  import opened PipelineTypes
  import opened Downstream
  import opened PipelineSystem
  import opened CancelSafety
  import opened PipelineTheorems
  import opened CreationOrder
  import opened PipelineProgress
  import TaskRunController
  import Approvals

  lemma ReachableIsDeclared(tasks: seq<TaskSpec>, start: string, name: string)
    requires Reachable(tasks, start, name)
    ensures name in Names(tasks)
  {
    var p :| PathBetween(tasks, p, start, name);
    assert Edge(tasks, p[|p| - 2], p[|p| - 2 + 1]);
    EdgeTargetIsDeclared(tasks, p[|p| - 2], name);
  }

  /** After an undisturbed rerun nothing downstream exists; a Failed run is going again, any other as before. */
  lemma AfterRerun(s: State, target: string, order: seq<string>, name: string)
    requires Consistent(s) && s.rerun == NoRerun && target in s.taskRuns
    requires DownstreamOrder(s.run.tasks, target, order) && Reachable(s.run.tasks, target, name)
    ensures var after := Run(s, WholeRerun(target, order));
      && Consistent(after) && name !in after.taskRuns && after.taskRuns.Keys <= s.taskRuns.Keys
      && after.run.tasks == s.run.tasks && after.run.cancel == s.run.cancel && after.teardown == s.teardown
      && after.run.phase == (if s.run.phase == Broken then Active else s.run.phase)
      && s.run.phase != Cancelled
  {
    UndisturbedRerun(s, target, order);
    DownstreamIsReachable(s.run.tasks, target, order, name);
    RunIsConsistent(s, WholeRerun(target, order));
  }

  /** What a rerun deletes from a run that has succeeded is never created again: the run is not revived. */
  lemma RerunOfCompleteRunIsLost(s: State, target: string, order: seq<string>, name: string, actions: seq<Action>)
    requires Consistent(s) && s.run.phase == Complete && s.rerun == NoRerun && target in s.taskRuns
    requires DownstreamOrder(s.run.tasks, target, order) && Reachable(s.run.tasks, target, name)
    ensures var s' := Run(Run(s, WholeRerun(target, order)), actions);
      s'.run.phase == Complete && name !in s'.taskRuns
  {
    AfterRerun(s, target, order, name);
    TerminalPhasesStay(Run(s, WholeRerun(target, order)), actions);
  }

  /** Nobody has asked for a cancel, or a pass is about to clear the request. */
  predicate Unrequested(s: State) {
    s.run.cancel.None? || s.teardown == Clearing
  }

  lemma UnfinishedCanRecreate(s: State, name: string) returns (actions: seq<Action>)
    requires Consistent(s) && Unrequested(s) && !Terminal(s.run.phase) && name in Names(s.run.tasks)
    requires UniqueNames(s.run.tasks) && Schedulable(s.run.tasks) && s.taskRuns.Keys <= Names(s.run.tasks)
    ensures name in Run(s, actions).taskRuns
  {
    var cleared := Step(s, CancelClear);
    assert Quiet(cleared);
    var order :| TopologicalOrder(s.run.tasks, order);
    var rest := CanSettleAndComplete(cleared, order);
    actions := [CancelClear] + rest;
    RunFromFirst(s, CancelClear, rest);
  }

  /**
   What a rerun deletes can be created again if and only if the run had not succeeded and
   no cancel is requested; everything else can be made to succeed. The pipeline is one that
   can be scheduled at all.
   */
  lemma RecreatedIffUnfinished(s: State, target: string, order: seq<string>, name: string)
    requires Consistent(s) && s.rerun == NoRerun && target in s.taskRuns
    requires DownstreamOrder(s.run.tasks, target, order) && Reachable(s.run.tasks, target, name)
    requires UniqueNames(s.run.tasks) && Schedulable(s.run.tasks) && s.taskRuns.Keys <= Names(s.run.tasks)
    ensures (exists actions :: name in Run(Run(s, WholeRerun(target, order)), actions).taskRuns) <==>
      s.run.phase != Complete && Unrequested(s)
  {
    hide Step, Run, Consistent, DownstreamOrder, Schedulable, UniqueNames, Reachable;
    var after := Run(s, WholeRerun(target, order));
    AfterRerun(s, target, order, name);
    ReachableIsDeclared(s.run.tasks, target, name);
    if s.run.phase == Complete {
      forall actions ensures name !in Run(after, actions).taskRuns {
        RerunOfCompleteRunIsLost(s, target, order, name, actions);
      }
    } else if Unrequested(s) {
      var actions := UnfinishedCanRecreate(after, name);
    } else {
      forall actions ensures name !in Run(after, actions).taskRuns {
        CancelIsCrashSafe(after, actions);
      }
    }
  }

  // --- What a rerun makes of its target ---

  /** Pending, with nothing left of what it had done, and still for the same purpose. */
  predicate StartsOver(tr: TaskRun, before: TaskRun) {
    && tr.taskName == before.taskName && tr.kind == before.kind && tr.canary == before.canary
    && tr.maxRetries == before.maxRetries && tr.requiredApprovals == before.requiredApprovals
    && tr.phase == TaskPhase.Pending && !tr.jobRef && !tr.rolloutRef && tr.retryCount == 0
    && tr.approval == None && tr.message == "rerun requested"
  }

  /** At work again: with a new Job or Rollout, or, an approval, waiting with nobody recorded. */
  predicate WorksAgain(tr: TaskRun) {
    var canary := tr.kind == Release && tr.canary;
    && tr.retryCount == 0
    && (tr.kind == Approval ==>
          && tr.phase == TaskPhase.Pending && !tr.jobRef && !tr.rolloutRef
          && tr.approval == Some(ApprovalStatus(Approvals.Needed(tr.requiredApprovals), [], "")))
    && (tr.kind != Approval ==>
          tr.phase == TaskPhase.Running && tr.approval == None && tr.rolloutRef == canary && tr.jobRef == !canary)
  }

  /**
   A rerun starts its target over, whatever its type and its phase. The next reconcile, which
   finds neither the old Job nor the old Rollout, has it at work again.
   */
  lemma RerunRestartsTarget(s: State, target: string, order: seq<string>)
    requires s.rerun == NoRerun && target in s.taskRuns && DownstreamOrder(s.run.tasks, target, order)
    requires !Reachable(s.run.tasks, target, target)
    ensures var after := Run(s, WholeRerun(target, order));
      var next := Step(after, ReconcileTask(target, TaskRunController.Observation(None, None)));
      && target in after.taskRuns && StartsOver(after.taskRuns[target], s.taskRuns[target])
      && next == after.(taskRuns := after.taskRuns[target := next.taskRuns[target]])
      && WorksAgain(next.taskRuns[target])
  {
    UndisturbedRerun(s, target, order);
    DownstreamIsReachable(s.run.tasks, target, order, target);
    hide Run, DownstreamOrder, Reachable;
  }

  // --- When a failed run is revived ---

  /** The action writes the failed run: a new cancel request, or the clear of one. */
  predicate Touches(s: State, a: Action) {
    || (a.StampCancel? && s.run.cancel != Some(a.operator))
    || (a == CancelClear && s.teardown == Clearing && s.run.cancel.Some?)
  }

  ghost predicate NeverTouched(s: State, actions: seq<Action>) {
    actions == [] ||
    var front, a := actions[..|actions| - 1], actions[|actions| - 1];
    NeverTouched(s, front) && !Touches(Run(s, front), a)
  }

  lemma FailedRunStep(s: State, a: Action)
    requires Consistent(s) && s.run.phase == Broken && a != RerunRevive
    ensures var s' := Step(s, a);
      s'.run.phase == Broken && s'.run.version == s.run.version + if Touches(s, a) then 1 else 0
  {
  }

  /** The handler goes on with the same list and the same copy of the run. */
  lemma HandlerStep(s: State, a: Action)
    requires s.rerun.Rerunning? && a != RerunRevive && a != RerunAbort
    ensures var s' := Step(s, a); s'.rerun.Rerunning? && s'.rerun == s.rerun.(next := s'.rerun.next)
  {
  }

  lemma {:induction false} FailedRunUnderRerun(s: State, actions: seq<Action>)
    requires Consistent(s) && s.run.phase == Broken && s.rerun.Rerunning?
    requires RerunRevive !in actions && RerunAbort !in actions
    ensures var end := Run(s, actions);
      && Consistent(end) && end.run.phase == Broken
      && end.rerun.Rerunning? && end.rerun == s.rerun.(next := end.rerun.next)
      && end.run.version >= s.run.version && (end.run.version == s.run.version <==> NeverTouched(s, actions))
  {
    hide Step, Consistent, Touches;
    if actions != [] {
      var front, a := actions[..|actions| - 1], actions[|actions| - 1];
      FailedRunUnderRerun(s, front);
      FailedRunStep(Run(s, front), a);
      HandlerStep(Run(s, front), a);
      StepIsConsistent(Run(s, front), a);
    }
  }

  lemma ReviveEffect(s: State)
    requires s.rerun.Rerunning? && s.rerun.next == |s.rerun.order| && s.rerun.failedRun && s.run.phase == Broken
    ensures var s' := Step(s, RerunRevive);
      && s'.rerun == NoRerun && s'.taskRuns == s.taskRuns && s'.created == s.created
      && s'.run.phase == if s.rerun.version == s.run.version then Active else Broken
  {
  }

  /**
   The last write of a rerun revives the failed run exactly when, since the rerun read it, no
   new cancel request was stamped and none was cleared. Otherwise the write is lost: the run
   stays Failed, with its target reset and everything downstream deleted, and nothing is
   created until another rerun's write.
   */
  lemma RevivedIffUntouched(s: State, target: string, order: seq<string>, actions: seq<Action>, more: seq<Action>)
    requires Consistent(s) && s.run.phase == Broken && s.rerun == NoRerun && target in s.taskRuns
    requires DownstreamOrder(s.run.tasks, target, order)
    requires RerunRevive !in actions && RerunAbort !in actions && RerunRevive !in more
    requires var end := Run(Step(s, RerunBegin(target, order)), actions);
      end.rerun.Rerunning? && end.rerun.next == |order|
    ensures var begun := Step(s, RerunBegin(target, order));
      var after := Step(Run(begun, actions), RerunRevive);
      && after.run.phase == (if NeverTouched(begun, actions) then Active else Broken)
      && (!NeverTouched(begun, actions) ==>
            Run(after, more).run.phase == Broken && Run(after, more).created == after.created)
  {
    hide Step, DownstreamOrder, Consistent;
    var begun := Step(s, RerunBegin(target, order));
    RerunBeginEffect(s, target, order);
    StepIsConsistent(s, RerunBegin(target, order));
    FailedRunUnderRerun(begun, actions);
    var end := Run(begun, actions);
    ReviveEffect(end);
    StepIsConsistent(end, RerunRevive);
    if !NeverTouched(begun, actions) {
      TerminalPhasesStay(Step(end, RerunRevive), more);
    }
  }
}
