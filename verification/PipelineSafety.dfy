/**
 Dependency and serial order over whole runs of the pipeline system, with reruns and
 cancels interleaved.
 */
module PipelineSafety {
  import opened Wrappers
  import opened PipelineTypes
  import opened RolloutTypes
  import opened Scheduler
  import opened Downstream
  import opened PipelineSystem
  import opened CancelSafety
  import TaskRunController
  import Approvals

  // --- What a task waits for ---

  /** d is declared before n, both Serial tasks of one stage. */
  ghost predicate SerialBefore(tasks: seq<TaskSpec>, d: string, n: string) {
    exists i, j :: 0 <= i < j < |tasks|
      && tasks[i].name == d && tasks[j].name == n && SerialSiblings(tasks[j], tasks[i])
  }

  /** n waits for d: it depends on it or, when serial order counts too, follows it in a Serial stage. */
  ghost predicate Prerequisite(tasks: seq<TaskSpec>, serial: bool, d: string, n: string) {
    Edge(tasks, d, n) || (serial && SerialBefore(tasks, d, n))
  }

  lemma OrderIndexIsPosition(tasks: seq<TaskSpec>, i: nat)
    requires UniqueNames(tasks) && i < |tasks|
    ensures OrderIndex(tasks, tasks[i].name) == i
  {
  }

  lemma BlockerIsBefore(tasks: seq<TaskSpec>, i: nat, j: nat)
    requires UniqueNames(tasks) && i < |tasks| && j < |tasks| && SerialSiblings(tasks[j], tasks[i])
    ensures OrderIndex(tasks, tasks[i].name) < OrderIndex(tasks, tasks[j].name)
      <==> SerialBefore(tasks, tasks[i].name, tasks[j].name)
  {
    OrderIndexIsPosition(tasks, i);
    OrderIndexIsPosition(tasks, j);
    hide OrderIndex;
    if a, b :| 0 <= a < b < |tasks| && tasks[a].name == tasks[i].name && tasks[b].name == tasks[j].name {
      assert a == i && b == j;
    }
  }

  lemma SerialBlockedIsPrerequisite(tasks: seq<TaskSpec>, j: nat, existing: TaskRuns)
    requires UniqueNames(tasks) && j < |tasks|
    ensures SerialBlocked(tasks[j], tasks, existing)
      <==> exists d :: SerialBefore(tasks, d, tasks[j].name) && !Done(existing, d)
  {
    hide OrderIndex, Done;
    var t := tasks[j];
    if SerialBlocked(t, tasks, existing) {
      var other :| other in tasks && SerialSiblings(t, other)
        && OrderIndex(tasks, other.name) < OrderIndex(tasks, t.name) && !Done(existing, other.name);
      var i :| 0 <= i < |tasks| && tasks[i] == other;
      BlockerIsBefore(tasks, i, j);
    }
    if d :| SerialBefore(tasks, d, t.name) && !Done(existing, d) {
      var i, k :| 0 <= i < k < |tasks| && tasks[i].name == d && tasks[k].name == t.name
        && SerialSiblings(tasks[k], tasks[i]);
      assert k == j;
      BlockerIsBefore(tasks, i, j);
      assert tasks[i] in tasks;
    }
  }

  /** A task may start exactly when it has not, and everything it waits for has succeeded. */
  lemma CanStartIsReady(tasks: seq<TaskSpec>, t: TaskSpec, existing: TaskRuns)
    requires UniqueNames(tasks) && t in tasks
    ensures CanStart(t, tasks, existing)
      <==> t.name !in existing && forall d :: Prerequisite(tasks, true, d, t.name) ==> Done(existing, d)
  {
    var j :| 0 <= j < |tasks| && tasks[j] == t;
    SerialBlockedIsPrerequisite(tasks, j, existing);
    forall d ensures Edge(tasks, d, t.name) <==> d in t.dependsOn {
      if Edge(tasks, d, t.name) {
        var u :| u in tasks && u.name == t.name && d in u.dependsOn;
        var k :| 0 <= k < |tasks| && tasks[k] == u;
        assert k == j;
      }
    }
  }

  // --- The invariant ---

  /** The TaskRuns a rerun in progress has still to delete. */
  function Doomed(s: State): seq<string> {
    if s.rerun.Rerunning? && s.rerun.next <= |s.rerun.order| then s.rerun.order[s.rerun.next..] else []
  }

  /** Every existing TaskRun has all it waited for existing and Succeeded, or is about to be deleted. */
  ghost predicate Closed(s: State, serial: bool) {
    forall d, n :: n in s.taskRuns && Prerequisite(s.run.tasks, serial, d, n)
      ==> Done(s.taskRuns, d) || n in Doomed(s)
  }

  /** No task of the order depends on itself or on a later one. */
  ghost predicate Topological(tasks: seq<TaskSpec>, order: seq<string>) {
    forall i, j | 0 <= i <= j < |order| :: !Edge(tasks, order[j], order[i])
  }

  /**
   During a rerun: its order respects all edges, or what it has reset or deleted is not back.
   While the run is finished nothing comes back, whatever the target does.
   */
  ghost predicate RerunHolds(s: State, serial: bool) {
    s.rerun.Rerunning? ==>
      && !serial
      && DownstreamOrder(s.run.tasks, s.rerun.target, s.rerun.order)
      && s.rerun.next <= |s.rerun.order|
      && (Topological(s.run.tasks, s.rerun.order) || StillGone(s) || (Terminal(s.run.phase) && StayDeleted(s)))
  }

  ghost predicate StayDeleted(s: State)
    requires s.rerun.Rerunning? && s.rerun.next <= |s.rerun.order|
  {
    forall i | 0 <= i < s.rerun.next :: s.rerun.order[i] !in s.taskRuns
  }

  ghost predicate StillGone(s: State)
    requires s.rerun.Rerunning? && s.rerun.next <= |s.rerun.order|
  {
    !Done(s.taskRuns, s.rerun.target) && StayDeleted(s)
  }

  ghost predicate Safe(s: State, serial: bool) {
    && Consistent(s) && UniqueNames(s.run.tasks)
    && (Armed(s) || s.run.phase == Cancelled || (Closed(s, serial) && RerunHolds(s, serial)))
  }

  /** A Succeeded TaskRun stays Succeeded: no canary regresses and nobody rejects it. No rerun is aborted halfway. */
  predicate Steady(s: State, a: Action) {
    match a
    case ReconcileTask(name, seen) =>
      Done(s.taskRuns, name) && s.taskRuns[name].kind == Release && s.taskRuns[name].canary ==>
        s.taskRuns[name].rolloutRef && (seen.rollout.Some? ==> seen.rollout.value.phase == Healthy)
    case Decide(name, _, rejected) => rejected ==> !Done(s.taskRuns, name)
    case RerunAbort => false
    case _ => true
  }

  ghost predicate AllSteady(s: State, actions: seq<Action>) {
    actions == [] ||
    var front, a := actions[..|actions| - 1], actions[|actions| - 1];
    AllSteady(s, front) && Steady(Run(s, front), a)
  }

  /**
   The steps the guarantee is about: steady ones; and in an unfinished run the target of a
   rerun does not succeed again before the rerun is over, unless its order respects all edges.
   With serial order counted, there is no rerun.
   */
  ghost predicate Orderly(s: State, a: Action, serial: bool) {
    && Steady(s, a) && (a.RerunBegin? ==> !serial)
    && (s.rerun.Rerunning? && !Topological(s.run.tasks, s.rerun.order) && !Terminal(s.run.phase) ==>
          !Done(Step(s, a).taskRuns, s.rerun.target))
  }

  ghost predicate AllOrderly(s: State, actions: seq<Action>, serial: bool) {
    actions == [] ||
    var front, a := actions[..|actions| - 1], actions[|actions| - 1];
    AllOrderly(s, front, serial) && Orderly(Run(s, front), a, serial)
  }

  // --- Step by step ---

  /** A reconcile changes no existing TaskRun; the ones it creates have nothing left to wait for. */
  lemma ReconcileRunCreates(s: State, cut: nat)
    requires UniqueNames(s.run.tasks)
    ensures var s' := Step(s, ReconcileRun(cut));
      && (forall n | n in s.taskRuns :: n in s'.taskRuns && s'.taskRuns[n] == s.taskRuns[n])
      && (forall d, n :: n in s'.taskRuns && n !in s.taskRuns && Prerequisite(s.run.tasks, true, d, n)
            ==> Done(s.taskRuns, d))
      && s'.rerun == s.rerun && s'.run.tasks == s.run.tasks
  {
    if s.teardown == Idle && s.run.cancel.None? && !Terminal(s.run.phase) {
      var s' := Step(s, ReconcileRun(cut));
      var batch := Batch(s.run, s.taskRuns);
      var creates := batch[..if cut < |batch| then cut else |batch|];
      RunnableIsExact(s.run.tasks, s.run.tasks, s.taskRuns);
      CreateAllAdds(s.taskRuns, creates);
      forall d, n | n in s'.taskRuns && n !in s.taskRuns && Prerequisite(s.run.tasks, true, d, n)
        ensures Done(s.taskRuns, d)
      {
        var t :| t in creates && t.name == n;
        assert t in batch;
        CanStartIsReady(s.run.tasks, t, s.taskRuns);
      }
    }
  }

  lemma DeletedAreNotRecreated(s: State, cut: nat)
    requires UniqueNames(s.run.tasks)
    requires s.rerun.Rerunning? && s.rerun.next <= |s.rerun.order| && StillGone(s)
    requires ParentFirst(s.run.tasks, s.rerun.target, s.rerun.order)
    ensures forall i | 0 <= i < s.rerun.next :: s.rerun.order[i] !in Step(s, ReconcileRun(cut)).taskRuns
  {
    ReconcileRunCreates(s, cut);
    forall i | 0 <= i < s.rerun.next ensures s.rerun.order[i] !in Step(s, ReconcileRun(cut)).taskRuns {
      DeletedStaysDeleted(s, i);
      var d :| Edge(s.run.tasks, d, s.rerun.order[i]) && !Done(s.taskRuns, d);
      assert Prerequisite(s.run.tasks, true, d, s.rerun.order[i]);
    }
  }

  lemma ReconcileRunIsSafe(s: State, cut: nat, serial: bool)
    requires UniqueNames(s.run.tasks) && Closed(s, serial) && RerunHolds(s, serial)
    requires Orderly(s, ReconcileRun(cut), serial)
    ensures Closed(Step(s, ReconcileRun(cut)), serial) && RerunHolds(Step(s, ReconcileRun(cut)), serial)
  {
    var s' := Step(s, ReconcileRun(cut));
    if Terminal(s.run.phase) {
      assert s' == s;
    } else {
      ReconcileRunCreates(s, cut);
      assert Doomed(s') == Doomed(s);
      forall d, n | n in s'.taskRuns && Prerequisite(s.run.tasks, serial, d, n)
        ensures Done(s'.taskRuns, d) || n in Doomed(s')
      {
        assert Prerequisite(s.run.tasks, true, d, n);
      }
      if s.rerun.Rerunning? && StillGone(s) {
        DeletedAreNotRecreated(s, cut);
      }
    }
  }

  /** A deleted TaskRun waits for its parent, which was reset or deleted before it. */
  lemma DeletedStaysDeleted(s: State, i: nat)
    requires s.rerun.Rerunning? && s.rerun.next <= |s.rerun.order| && StillGone(s) && i < s.rerun.next
    requires ParentFirst(s.run.tasks, s.rerun.target, s.rerun.order)
    ensures exists d :: Edge(s.run.tasks, d, s.rerun.order[i]) && !Done(s.taskRuns, d)
  {
    var order := s.rerun.order;
    assert HasParent(s.run.tasks, s.rerun.target, order[..i], order[i]);
    var p :| (p == s.rerun.target || p in order[..i]) && Edge(s.run.tasks, p, order[i]);
    if p != s.rerun.target {
      var j :| 0 <= j < i && order[j] == p;
    }
  }

  lemma TaskStepIsSafe(s: State, a: Action, serial: bool)
    requires UniqueNames(s.run.tasks) && Closed(s, serial) && RerunHolds(s, serial)
    requires Orderly(s, a, serial) && (a.ReconcileTask? || a.Decide?)
    ensures Closed(Step(s, a), serial) && RerunHolds(Step(s, a), serial)
  {
    var s' := Step(s, a);
    if a.name in s.taskRuns && Done(s.taskRuns, a.name) {
      if a.ReconcileTask? {
        TaskRunController.ReconcileKeepsSucceeded(s.taskRuns[a.name], a.seen);
      } else {
        Approvals.DecideKeepsSucceeded(s.taskRuns[a.name], a.approver, a.rejected);
      }
    }
    assert forall d | Done(s.taskRuns, d) :: Done(s'.taskRuns, d);
    assert Doomed(s') == Doomed(s);
  }

  lemma RerunBeginIsSafe(s: State, target: string, order: seq<string>, serial: bool)
    requires UniqueNames(s.run.tasks) && Closed(s, serial) && RerunHolds(s, serial)
    requires Orderly(s, RerunBegin(target, order), serial)
    ensures var s' := Step(s, RerunBegin(target, order)); Closed(s', serial) && RerunHolds(s', serial)
  {
    var s' := Step(s, RerunBegin(target, order));
    if s'.rerun != s.rerun {
      assert order[0..] == order;
      assert Doomed(s') == order;
      forall d, n | n in s'.taskRuns && Prerequisite(s.run.tasks, serial, d, n)
        ensures Done(s'.taskRuns, d) || n in Doomed(s')
      {
        if d == target {
          assert Edge(s.run.tasks, target, n);
        }
      }
    }
  }

  /** A TaskRun that waits for the next one to be deleted is still to be deleted itself. */
  lemma DependentIsDoomed(s: State, n: string)
    requires s.rerun.Rerunning? && s.rerun.next < |s.rerun.order|
    requires ClosedUnderEdges(s.run.tasks, s.rerun.target, s.rerun.order)
    requires Topological(s.run.tasks, s.rerun.order) || StayDeleted(s)
    requires n in s.taskRuns && n != s.rerun.order[s.rerun.next]
    requires Edge(s.run.tasks, s.rerun.order[s.rerun.next], n)
    ensures n in s.rerun.order[s.rerun.next + 1..]
  {
    var order, next := s.rerun.order, s.rerun.next;
    var i :| 0 <= i < |order| && order[i] == n;
    assert i > next;
    assert order[next + 1..][i - next - 1] == n;
  }

  lemma RerunDeleteIsSafe(s: State, serial: bool)
    requires UniqueNames(s.run.tasks) && Closed(s, serial) && RerunHolds(s, serial)
    requires Orderly(s, RerunDelete, serial)
    ensures Closed(Step(s, RerunDelete), serial) && RerunHolds(Step(s, RerunDelete), serial)
  {
    var s' := Step(s, RerunDelete);
    if s'.rerun != s.rerun {
      var order, next := s.rerun.order, s.rerun.next;
      assert order[next..] == [order[next]] + order[next + 1..];
      forall d, n | n in s'.taskRuns && Prerequisite(s.run.tasks, serial, d, n)
        ensures Done(s'.taskRuns, d) || n in order[next + 1..]
      {
        if d == order[next] {
          DependentIsDoomed(s, n);
        }
      }
    }
  }

  lemma StepIsSafe(s: State, a: Action, serial: bool)
    requires Safe(s, serial) && Orderly(s, a, serial)
    ensures Safe(Step(s, a), serial)
  {
    StepIsConsistent(s, a);
    StepKeepsTasks(s, a);
    if Armed(s) {
      ArmedStep(s, a);
    } else if s.run.phase == Cancelled {
      CancelledStep(s, a);
    } else {
      match a
      case ReconcileRun(cut) => ReconcileRunIsSafe(s, cut, serial);
      case ReconcileTask(_, _) => TaskStepIsSafe(s, a, serial);
      case Decide(_, _, _) => TaskStepIsSafe(s, a, serial);
      case RerunBegin(target, order) => RerunBeginIsSafe(s, target, order, serial);
      case RerunDelete => RerunDeleteIsSafe(s, serial);
      case RerunRevive =>
        assert s.rerun.Rerunning? && s.rerun.next == |s.rerun.order| ==> Doomed(s) == [];
      case _ =>
    }
  }

  lemma {:induction false} RunIsSafe(s: State, actions: seq<Action>, serial: bool)
    requires Safe(s, serial) && AllOrderly(s, actions, serial)
    ensures Safe(Run(s, actions), serial)
  {
    hide Step, Safe, Orderly;
    if actions != [] {
      RunIsSafe(s, actions[..|actions| - 1], serial);
      StepIsSafe(Run(s, actions[..|actions| - 1]), actions[|actions| - 1], serial);
    }
  }

  // --- What an aborted rerun leaves ---

  /** A TaskRun that was to be deleted goes back to something reset, deleted or missing. */
  lemma {:induction false} DoomedHasUnmetDependency(s: State, i: nat)
    requires s.rerun.Rerunning? && s.rerun.next <= i < |s.rerun.order| && StillGone(s)
    requires ParentFirst(s.run.tasks, s.rerun.target, s.rerun.order) && s.rerun.order[i] in s.taskRuns
    ensures exists d, n :: n in s.taskRuns && Edge(s.run.tasks, d, n) && !Done(s.taskRuns, d)
  {
    var order := s.rerun.order;
    assert HasParent(s.run.tasks, s.rerun.target, order[..i], order[i]);
    var p :| (p == s.rerun.target || p in order[..i]) && Edge(s.run.tasks, p, order[i]);
    if p != s.rerun.target {
      var j :| 0 <= j < i && order[j] == p;
      if s.rerun.next <= j && p in s.taskRuns {
        DoomedHasUnmetDependency(s, j);
      }
    }
  }

  /**
   A rerun that gives up at a delete, its target not having succeeded again, leaves every
   TaskRun with its dependencies exactly when nothing it had still to delete exists.
   */
  lemma AbortedRerun(s: State)
    requires s.rerun.Rerunning? && s.rerun.next <= |s.rerun.order| && Closed(s, false) && StillGone(s)
    requires ParentFirst(s.run.tasks, s.rerun.target, s.rerun.order)
    ensures Closed(Step(s, RerunAbort), false)
      <==> forall i | s.rerun.next <= i < |s.rerun.order| :: s.rerun.order[i] !in s.taskRuns
  {
    var s', order := Step(s, RerunAbort), s.rerun.order;
    if i :| s.rerun.next <= i < |order| && order[i] in s.taskRuns {
      DoomedHasUnmetDependency(s, i);
      var d, n :| n in s.taskRuns && Edge(s.run.tasks, d, n) && !Done(s.taskRuns, d);
      assert Prerequisite(s'.run.tasks, false, d, n) && Doomed(s') == [];
    } else {
      forall d, n | n in s'.taskRuns && Prerequisite(s'.run.tasks, false, d, n) ensures Done(s'.taskRuns, d) {
        assert n !in order[s.rerun.next..];
      }
    }
  }

  // --- What a regression breaks ---

  /**
   A step takes a Succeeded TaskRun out of Succeeded: a canary whose Rollout stops being
   Healthy, or a rejection. Dependencies stay in place exactly when everything that exists and
   depends on it is about to be deleted by a rerun.
   */
  lemma RegressionKeepsClosureIff(s: State, a: Action)
    requires Closed(s, false) && (a.ReconcileTask? || a.Decide?)
    requires Done(s.taskRuns, a.name) && !Done(Step(s, a).taskRuns, a.name)
    ensures Closed(Step(s, a), false) <==>
      forall n | n in s.taskRuns && Edge(s.run.tasks, a.name, n) :: n in Doomed(s)
  {
    var s' := Step(s, a);
    assert s'.taskRuns.Keys == s.taskRuns.Keys && s'.run == s.run && Doomed(s') == Doomed(s);
    assert forall d | d != a.name :: Done(s'.taskRuns, d) <==> Done(s.taskRuns, d);
    if Closed(s', false) {
      forall n | n in s.taskRuns && Edge(s.run.tasks, a.name, n) ensures n in Doomed(s) {
        assert Prerequisite(s'.run.tasks, false, a.name, n);
      }
    }
  }

  /** The Rollout behind a Succeeded canary task rolls back: the task has failed, and what depends on it goes on. */
  lemma RegressedCanaryBreaksDependencies(s: State, d: string, n: string, message: string)
    requires Closed(s, false) && s.rerun == NoRerun
    requires Done(s.taskRuns, d) && s.taskRuns[d].kind == Release && s.taskRuns[d].canary && s.taskRuns[d].rolloutRef
    requires n in s.taskRuns && Edge(s.run.tasks, d, n)
    ensures var seen := TaskRunController.Observation(None, Some(TaskRunController.RolloutView(RollingBack, message)));
      var s' := Step(s, ReconcileTask(d, seen));
      s'.taskRuns[d].phase == TaskPhase.Failed && n in s'.taskRuns && !Closed(s', false)
  {
    var seen := TaskRunController.Observation(None, Some(TaskRunController.RolloutView(RollingBack, message)));
    RegressionKeepsClosureIff(s, ReconcileTask(d, seen));
  }
}
