/** What a failed task means for its run, and when a decision undoes that. */
module Failures {
  import opened PipelineTypes
  import opened RolloutTypes
  import opened Scheduler
  import opened PipelineSystem
  import opened CancelSafety
  import opened PipelineSafety
  import opened CreationOrder
  import TaskRunController
  import Approvals

  /** Failed, whatever its type: a Job given up, an approval rejected, a canary rolled back. */
  predicate FailedTask(existing: TaskRuns, n: string) {
    n in existing && existing[n].phase == TaskPhase.Failed
  }

  predicate FailedJob(existing: TaskRuns, n: string) {
    FailedTask(existing, n) && TaskRunController.JobBacked(existing[n])
  }

  /** The action is an approval that completes a quorum for n, which the handler accepts for every type of task. */
  predicate Approves(s: State, a: Action, n: string) {
    a.Decide? && a.name == n && !a.rejected && n in s.taskRuns && Approvals.Completes(s.taskRuns[n], a.approver)
  }

  /** The action is a reconcile of a canary task that creates its Rollout, or does not see it failed. */
  predicate Recovers(s: State, a: Action, n: string) {
    && a.ReconcileTask? && a.name == n && n in s.taskRuns
    && s.taskRuns[n].kind == Release && s.taskRuns[n].canary
    && (!s.taskRuns[n].rolloutRef || (a.seen.rollout.Some?
          && a.seen.rollout.value.phase !in {Degraded, RollingBack, RolloutPhase.Failed, RolledBack}))
  }

  ghost predicate NeverLifted(s: State, actions: seq<Action>, n: string) {
    actions == [] ||
    var front, a := actions[..|actions| - 1], actions[|actions| - 1];
    NeverLifted(s, front, n) && !Approves(Run(s, front), a, n) && !Recovers(Run(s, front), a, n)
  }

  /** Without a rerun, a failed task leaves Failed exactly so; an approval makes it Succeeded. */
  lemma FailureEndsBy(s: State, a: Action, n: string)
    requires FailedTask(s.taskRuns, n) && !a.RerunBegin?
    ensures var after := Step(s, a).taskRuns;
      n in after ==>
        && (FailedTask(after, n) <==> !Approves(s, a, n) && !Recovers(s, a, n))
        && (Approves(s, a, n) ==> Done(after, n))
  {
    if a.Decide? && a.name == n && !a.rejected {
      Approvals.ApprovalSucceedsIfComplete(s.taskRuns[n], a.approver);
    }
  }

  /** For a Job-backed task there is only the approval. */
  lemma FailureEndsByApproval(s: State, a: Action, n: string)
    requires FailedJob(s.taskRuns, n) && !a.RerunBegin?
    ensures var after := Step(s, a).taskRuns;
      n in after ==> if Approves(s, a, n) then Done(after, n) else FailedJob(after, n)
  {
    FailureEndsBy(s, a, n);
  }

  /** The run can create nothing: a task has failed, or the run is being or has been cancelled. */
  ghost predicate Stopped(s: State, n: string) {
    && Consistent(s) && s.rerun == NoRerun
    && (FailedTask(s.taskRuns, n) || Armed(s) || s.run.phase == Cancelled)
  }

  /** A failed task of any type: a reconcile creates nothing, wherever it is cut. */
  lemma FailureCreatesNothing(s: State, cut: nat, n: string)
    requires FailedTask(s.taskRuns, n)
    ensures var s' := Step(s, ReconcileRun(cut));
      && s'.created == s.created && s'.taskRuns == s.taskRuns && s'.rerun == s.rerun
      && (s'.run.phase == Complete ==> s.run.phase == Complete)
  {
    assert HasFailedTask(s.taskRuns);
    assert Batch(s.run, s.taskRuns) == [];
  }

  lemma StoppedStep(s: State, a: Action, n: string)
    requires Stopped(s, n) && !a.RerunBegin? && !Approves(s, a, n) && !Recovers(s, a, n)
    ensures var s' := Step(s, a);
      && Stopped(s', n) && s'.created == s.created && s'.taskRuns.Keys <= s.taskRuns.Keys
      && (s'.run.phase == Complete ==> s.run.phase == Complete)
  {
    StepIsConsistent(s, a);
    if Armed(s) {
      ArmedStep(s, a);
    } else if s.run.phase == Cancelled {
      CancelledStep(s, a);
    } else if a.ReconcileRun? {
      FailureCreatesNothing(s, a.cut, n);
    } else {
      FailureEndsBy(s, a, n);
    }
  }

  /**
   A failed task of any type stops the run, whatever the other tasks, approvals and cancels do:
   until something is rerun, an approval of that very task completes a quorum, or it is a
   canary and is not seen failed any more, nothing is created and the run does not become
   Complete. A reconcile that is not cut short reports Broken, or WaitingApproval while an
   approval task is Pending with its approval initialised.
   */
  lemma {:induction false} FailureStopsScheduling(s: State, actions: seq<Action>, n: string)
    requires Consistent(s) && s.rerun == NoRerun && FailedTask(s.taskRuns, n)
    requires RerunFree(actions) && NeverLifted(s, actions, n)
    ensures var end := Run(s, actions);
      && Stopped(end, n) && end.created == s.created && end.taskRuns.Keys <= s.taskRuns.Keys
      && (end.run.phase == Complete ==> s.run.phase == Complete)
      && (n in end.taskRuns && end.run.cancel.None? && end.teardown == Idle && !Terminal(end.run.phase) ==>
            Step(end, ReconcileRun(1)).run.phase ==
              if exists t | t in end.run.tasks :: ApprovalIsPending(t, end.taskRuns) then WaitingApproval else Broken)
  {
    hide Step, Stopped, Approves, Recovers;
    if actions == [] {
      assert Stopped(s, n) by {
        FailedIsStopped(s, n);
      }
    } else {
      var front, a := actions[..|actions| - 1], actions[|actions| - 1];
      FailureStopsScheduling(s, front, n);
      assert a in actions;
      StoppedStep(Run(s, front), a, n);
    }
    FailureIsReported(Run(s, actions), n);
  }

  lemma FailedIsStopped(s: State, n: string)
    requires Consistent(s) && s.rerun == NoRerun && FailedTask(s.taskRuns, n)
    ensures Stopped(s, n)
  {
  }

  /** An approval task waits for people. */
  predicate ApprovalIsPending(t: TaskSpec, existing: TaskRuns) {
    && t.kind == Approval && t.name in existing
    && existing[t.name].phase == TaskPhase.Pending && existing[t.name].approval.Some?
  }

  lemma FailureIsReported(s: State, n: string)
    requires Stopped(s, n)
    ensures n in s.taskRuns && s.run.cancel.None? && s.teardown == Idle && !Terminal(s.run.phase) ==>
      Step(s, ReconcileRun(1)).run.phase ==
        if exists t | t in s.run.tasks :: ApprovalIsPending(t, s.taskRuns) then WaitingApproval else Broken
  {
    if n in s.taskRuns && s.run.cancel.None? && !Terminal(s.run.phase) {
      assert HasFailedTask(s.taskRuns);
      assert Batch(s.run, s.taskRuns) == [];
      assert forall t :: ApprovalIsPending(t, s.taskRuns) <==> AwaitsApproval(t, s.taskRuns);
    }
  }

  // --- An approved failure ---

  /** u depends on t, whose only Job has failed; the run has not been reconciled since. */
  ghost predicate BuildHasFailed(s: State, t: TaskSpec, u: TaskSpec) {
    && s.run.tasks == [t, u] && t.name != u.name && t.kind == Build && u.kind == Build && u.stage == ""
    && t.dependsOn == [] && u.dependsOn == [t.name] && t.requiredApprovals.None?
    && s.taskRuns == map[t.name := BuildTaskRun(t).(phase := TaskPhase.Failed, jobRef := true)]
    && s.run.phase == Active && s.run.cancel.None? && s.teardown == Idle && s.rerun == NoRerun
  }

  /** One approval, sent to a failed Build task, makes it Succeeded, and the run goes on with what depends on it. */
  lemma ApprovedFailureIsForgotten(s: State, t: TaskSpec, u: TaskSpec)
    requires BuildHasFailed(s, t, u)
    ensures FailedJob(s.taskRuns, t.name)
    ensures var end := Run(s, [Decide(t.name, "alice", false), ReconcileRun(3)]);
      && Done(end.taskRuns, t.name) && u.name in end.taskRuns && u.name !in s.taskRuns && end.run.phase == Active
  {
    var approved := Step(s, Decide(t.name, "alice", false));
    assert Done(approved.taskRuns, t.name) && approved.taskRuns.Keys == {t.name} && approved.run == s.run;
    OnlySecondIsReady(approved, t, u);
    CancelSafety.RunFromFirst(s, Decide(t.name, "alice", false), [ReconcileRun(3)]);
    RunSnoc(approved, [], ReconcileRun(3));
    assert [Decide(t.name, "alice", false)] + [ReconcileRun(3)] == [Decide(t.name, "alice", false), ReconcileRun(3)];
    assert [] + [ReconcileRun(3)] == [ReconcileRun(3)];
  }

  /** With t done, a reconcile creates u. */
  lemma OnlySecondIsReady(s: State, t: TaskSpec, u: TaskSpec)
    requires s.run.tasks == [t, u] && t.name != u.name && u.stage == "" && u.dependsOn == [t.name] && t.kind == Build
    requires s.taskRuns.Keys == {t.name} && Done(s.taskRuns, t.name)
    requires s.run.cancel.None? && s.teardown == Idle && !Terminal(s.run.phase)
    ensures var s' := Step(s, ReconcileRun(3));
      && s'.taskRuns.Keys == {t.name, u.name} && s'.taskRuns[t.name] == s.taskRuns[t.name]
      && s'.run.phase == Active && s'.run.cancel.None?
  {
    assert s.run.tasks[0] == t && s.run.tasks[1] == u;
    assert CanStart(u, s.run.tasks, s.taskRuns);
    OnlyOneIsReady(s, u, 3);
  }

  // --- The phase WaitingApproval ---

  /** A task is ready exactly when it does not exist and everything it waits for has succeeded. */
  lemma NothingIsReady(tasks: seq<TaskSpec>, existing: TaskRuns)
    requires UniqueNames(tasks)
    ensures Runnable(tasks, tasks, existing) == [] <==> (forall t | t in tasks && t.name !in existing ::
      exists d :: Prerequisite(tasks, true, d, t.name) && !Done(existing, d))
  {
    hide Runnable, CanStart, Prerequisite;
    var ready := Runnable(tasks, tasks, existing);
    RunnableIsExact(tasks, tasks, existing);
    forall t | t in tasks
      ensures t in ready <==>
        (t.name !in existing && forall d :: Prerequisite(tasks, true, d, t.name) ==> Done(existing, d))
    {
      CanStartIsReady(tasks, t, existing);
    }
    if ready != [] {
      assert ready[0] in ready;
    }
  }

  /**
   The phase WaitingApproval can outlive the approval. A reconcile that finds no approval
   pending still leaves it exactly when the run had it before, nothing has failed, no task
   is ready, and not all tasks have succeeded.
   */
  lemma WaitingOutlivesApproval(s: State, cut: nat)
    requires UniqueNames(s.run.tasks) && s.run.cancel.None? && s.teardown == Idle && !Terminal(s.run.phase)
    requires FindPendingApproval(s.run.tasks, s.taskRuns).None? && cut > |s.run.tasks|
    ensures var run := Step(s, ReconcileRun(cut)).run;
      && run.currentApproval.None?
      && (run.phase == WaitingApproval <==>
            && s.run.phase == WaitingApproval && !HasFailedTask(s.taskRuns)
            && !AllTasksSucceeded(s.run.tasks, s.taskRuns)
            && forall t | t in s.run.tasks && t.name !in s.taskRuns ::
                 exists d :: Prerequisite(s.run.tasks, true, d, t.name) && !Done(s.taskRuns, d))
  {
    hide Runnable, FindPendingApproval, HasFailedTask, AllTasksSucceeded, CreateAll, Summaries;
    hide Prerequisite, UniqueNames;
    RunnableIsExact(s.run.tasks, s.run.tasks, s.taskRuns);
    NothingIsReady(s.run.tasks, s.taskRuns);
  }
}
