/** Serial stages: one unfinished task at a time, unless something is rerun. */
module SerialStages {
  import opened Wrappers
  import opened PipelineTypes
  import opened Scheduler
  import opened Downstream
  import opened PipelineSystem
  import opened CancelSafety
  import opened PipelineSafety
  import opened PipelineTheorems
  import TaskRunController
  import Approvals

  predicate Unfinished(existing: TaskRuns, n: string) {
    n in existing && !Done(existing, n)
  }

  /** b exists beside a only when a has succeeded. */
  predicate InTurn(existing: TaskRuns, a: string, b: string) {
    a in existing && b in existing ==> Done(existing, a)
  }

  /** A step that creates nothing keeps tasks in turn: what has succeeded stays so as long as it exists. */
  lemma StaysInTurn(s: State, action: Action, a: string, b: string)
    requires InTurn(s.taskRuns, a, b) && Steady(s, action) && s.rerun == NoRerun && !action.RerunBegin?
    requires Step(s, action).taskRuns.Keys <= s.taskRuns.Keys
    ensures InTurn(Step(s, action).taskRuns, a, b)
  {
    if Done(s.taskRuns, a) {
      if action.ReconcileTask? && action.name == a {
        TaskRunController.ReconcileKeepsSucceeded(s.taskRuns[a], action.seen);
      } else if action.Decide? && action.name == a {
        Approvals.DecideKeepsSucceeded(s.taskRuns[a], action.approver, action.rejected);
      }
      assert a in Step(s, action).taskRuns ==> a in s.taskRuns;
    }
    assert b in Step(s, action).taskRuns ==> b in s.taskRuns;
    if action.ReconcileRun? {
      ReconcileAddsNothing(s, action.cut);
    }
  }

  lemma ReconcileAddsNothing(s: State, cut: nat)
    requires Step(s, ReconcileRun(cut)).taskRuns.Keys <= s.taskRuns.Keys
    ensures Step(s, ReconcileRun(cut)).taskRuns == s.taskRuns
  {
    if s.teardown == Idle && s.run.cancel.None? && !Terminal(s.run.phase) {
      var batch := Batch(s.run, s.taskRuns);
      CreateAllAdds(s.taskRuns, batch[..if cut < |batch| then cut else |batch|]);
    }
  }

  /** Where no request is pending, the later sibling exists only after the earlier one succeeded. */
  lemma LaterSiblingWaits(s: State, i: nat, j: nat)
    requires Safe(s, true) && !Armed(s)
    requires i < j < |s.run.tasks| && SerialSiblings(s.run.tasks[j], s.run.tasks[i])
    ensures s.run.tasks[j].name in s.taskRuns ==> Done(s.taskRuns, s.run.tasks[i].name)
  {
    assert SerialBefore(s.run.tasks, s.run.tasks[i].name, s.run.tasks[j].name);
    assert Prerequisite(s.run.tasks, true, s.run.tasks[i].name, s.run.tasks[j].name);
  }

  /** A pending request stops creation; an action that leads there creates nothing. */
  lemma ArmingCreatesNothing(s: State, action: Action)
    requires Consistent(s) && Armed(Step(s, action))
    ensures Step(s, action).taskRuns.Keys <= s.taskRuns.Keys || action.RerunBegin?
  {
  }

  /**
   In every run without reruns, cancels included, at most one of two siblings of a Serial stage
   exists and has not succeeded: beside the later one the earlier one has. Unless a cancel is
   tearing the run down, the later one does not exist without the earlier one either.
   */
  lemma {:induction false} SerialExclusion(s: State, actions: seq<Action>, i: nat, j: nat)
    requires Fresh(s) && UniqueNames(s.run.tasks) && AllOrderly(s, actions, true)
    requires i < j < |s.run.tasks| && SerialSiblings(s.run.tasks[j], s.run.tasks[i])
    ensures var s', a, b := Run(s, actions), s.run.tasks[i].name, s.run.tasks[j].name;
      && InTurn(s'.taskRuns, a, b) && !(Unfinished(s'.taskRuns, a) && Unfinished(s'.taskRuns, b))
      && (!Armed(s') && b in s'.taskRuns ==> Done(s'.taskRuns, a))
  {
    FreshIsConsistent(s);
    FreshIsSafe(s, true);
    RunIsSafe(s, actions, true);
    RunKeepsTasks(s, actions);
    hide Step, Safe, Steady, Armed, Fresh;
    if !Armed(Run(s, actions)) {
      LaterSiblingWaits(Run(s, actions), i, j);
    } else if actions != [] {
      var front, action := actions[..|actions| - 1], actions[|actions| - 1];
      SerialExclusion(s, front, i, j);
      RunIsSafe(s, front, true);
      NoRerunInSerialRun(s, front);
      ArmingCreatesNothing(Run(s, front), action);
      StaysInTurn(Run(s, front), action, s.run.tasks[i].name, s.run.tasks[j].name);
    }
  }

  lemma {:induction false} NoRerunInSerialRun(s: State, actions: seq<Action>)
    requires Fresh(s) && AllOrderly(s, actions, true)
    ensures Run(s, actions).rerun == NoRerun
  {
    if actions != [] {
      NoRerunInSerialRun(s, actions[..|actions| - 1]);
    }
  }

  // --- What a rerun does to a Serial stage ---

  /** Two different tasks of target's Serial stage are unfinished at the same time. */
  ghost predicate Overlap(tasks: seq<TaskSpec>, existing: TaskRuns, target: nat)
    requires target < |tasks|
  {
    exists i, j :: 0 <= i < j < |tasks|
      && SerialSiblings(tasks[target], tasks[i]) && SerialSiblings(tasks[target], tasks[j])
      && Unfinished(existing, tasks[i].name) && Unfinished(existing, tasks[j].name)
  }

  /** Another task of target's Serial stage is unfinished and does not depend on target. */
  ghost predicate Survivor(tasks: seq<TaskSpec>, existing: TaskRuns, target: nat, j: nat)
    requires target < |tasks|
  {
    && j < |tasks| && j != target && SerialSiblings(tasks[target], tasks[j])
    && Unfinished(existing, tasks[j].name) && !Reachable(tasks, tasks[target].name, tasks[j].name)
  }

  ghost predicate SomeSurvivor(tasks: seq<TaskSpec>, existing: TaskRuns, target: nat)
    requires target < |tasks|
  {
    exists j :: Survivor(tasks, existing, target, j)
  }

  ghost predicate TwoSurvivors(tasks: seq<TaskSpec>, existing: TaskRuns, target: nat)
    requires target < |tasks|
  {
    exists i, j :: i < j && Survivor(tasks, existing, target, i) && Survivor(tasks, existing, target, j)
  }

  lemma FindOverlap(tasks: seq<TaskSpec>, existing: TaskRuns, target: nat) returns (i: nat, j: nat)
    requires target < |tasks| && Overlap(tasks, existing, target)
    ensures i < j < |tasks| && SerialSiblings(tasks[target], tasks[i]) && SerialSiblings(tasks[target], tasks[j])
    ensures Unfinished(existing, tasks[i].name) && Unfinished(existing, tasks[j].name)
  {
    var a, b :| 0 <= a < b < |tasks|
      && SerialSiblings(tasks[target], tasks[a]) && SerialSiblings(tasks[target], tasks[b])
      && Unfinished(existing, tasks[a].name) && Unfinished(existing, tasks[b].name);
    i, j := a, b;
  }

  /** What an undisturbed rerun makes of a TaskRun. */
  lemma RerunOutcome(s: State, target: string, order: seq<string>, n: string)
    requires s.rerun == NoRerun && target in s.taskRuns && DownstreamOrder(s.run.tasks, target, order)
    ensures var after := Run(s, WholeRerun(target, order)).taskRuns;
      && (n in after <==> n in s.taskRuns && !Reachable(s.run.tasks, target, n))
      && (n in after && n != target ==> after[n] == s.taskRuns[n])
      && (n in after && n == target ==> after[n] == TaskRunController.Reset(s.taskRuns[n]))
  {
    UndisturbedRerun(s, target, order);
    DownstreamIsReachable(s.run.tasks, target, order, n);
  }

  /** An overlap after the rerun is one of survivors, or of one survivor with the target. */
  lemma OverlapAfterRerun(s: State, target: nat, order: seq<string>)
    requires s.rerun == NoRerun && UniqueNames(s.run.tasks)
    requires target < |s.run.tasks| && s.run.tasks[target].name in s.taskRuns
    requires DownstreamOrder(s.run.tasks, s.run.tasks[target].name, order)
    requires Overlap(s.run.tasks, Run(s, WholeRerun(s.run.tasks[target].name, order)).taskRuns, target)
    ensures TwoSurvivors(s.run.tasks, s.taskRuns, target) || (SomeSurvivor(s.run.tasks, s.taskRuns, target)
      && !Reachable(s.run.tasks, s.run.tasks[target].name, s.run.tasks[target].name))
  {
    var tasks, name := s.run.tasks, s.run.tasks[target].name;
    var i, j := FindOverlap(tasks, Run(s, WholeRerun(name, order)).taskRuns, target);
    hide Run, Overlap;
    RerunOutcome(s, name, order, tasks[i].name);
    RerunOutcome(s, name, order, tasks[j].name);
    if i == target {
      assert Survivor(tasks, s.taskRuns, target, j);
    } else {
      assert Survivor(tasks, s.taskRuns, target, i);
      assert j != target ==> Survivor(tasks, s.taskRuns, target, j);
    }
  }

  lemma SurvivorOverlaps(s: State, target: nat, order: seq<string>, j: nat)
    requires s.rerun == NoRerun && UniqueNames(s.run.tasks)
    requires target < |s.run.tasks| && s.run.tasks[target].name in s.taskRuns
    requires SerialSiblings(s.run.tasks[target], s.run.tasks[target])
    requires DownstreamOrder(s.run.tasks, s.run.tasks[target].name, order)
    requires Survivor(s.run.tasks, s.taskRuns, target, j)
    ensures var tasks, name := s.run.tasks, s.run.tasks[target].name;
      var after := Run(s, WholeRerun(name, order)).taskRuns;
      Unfinished(after, tasks[j].name) && (!Reachable(tasks, name, name) ==> Overlap(tasks, after, target))
  {
    var tasks, name := s.run.tasks, s.run.tasks[target].name;
    var after := Run(s, WholeRerun(name, order)).taskRuns;
    RerunOutcome(s, name, order, name);
    RerunOutcome(s, name, order, tasks[j].name);
    hide Run, Reachable;
    if !Reachable(tasks, name, name) {
      assert Unfinished(after, tasks[if j < target then j else target].name);
      assert Unfinished(after, tasks[if j < target then target else j].name);
    }
  }

  /**
   A rerun ignores serial order. From any state it leaves two tasks of its target's Serial
   stage unfinished at the same time exactly when two others are, or when one other is and the
   target stays, none of the others depending on the target. So where nothing overlapped
   before, it does exactly when some other task of the stage, earlier or later, is unfinished
   and does not depend on the target. (A target that depends on itself is deleted too.)
   */
  lemma RerunBreaksSerialOrder(s: State, target: nat, order: seq<string>)
    requires s.rerun == NoRerun && UniqueNames(s.run.tasks)
    requires target < |s.run.tasks| && s.run.tasks[target].name in s.taskRuns
    requires SerialSiblings(s.run.tasks[target], s.run.tasks[target])
    requires DownstreamOrder(s.run.tasks, s.run.tasks[target].name, order)
    ensures var tasks, name := s.run.tasks, s.run.tasks[target].name;
      var after := Run(s, WholeRerun(name, order)).taskRuns;
      var joins := SomeSurvivor(tasks, s.taskRuns, target) && !Reachable(tasks, name, name);
      && (Overlap(tasks, after, target) <==> TwoSurvivors(tasks, s.taskRuns, target) || joins)
      && (!Overlap(tasks, s.taskRuns, target) ==> (Overlap(tasks, after, target) <==> joins))
  {
    var tasks, name := s.run.tasks, s.run.tasks[target].name;
    var after := Run(s, WholeRerun(name, order)).taskRuns;
    hide Run, Reachable;
    if Overlap(tasks, after, target) {
      OverlapAfterRerun(s, target, order);
    }
    if j :| Survivor(tasks, s.taskRuns, target, j) {
      SurvivorOverlaps(s, target, order, j);
    }
    if i, j :| i < j && Survivor(tasks, s.taskRuns, target, i) && Survivor(tasks, s.taskRuns, target, j) {
      SurvivorOverlaps(s, target, order, i);
      SurvivorOverlaps(s, target, order, j);
      assert Overlap(tasks, s.taskRuns, target) && Overlap(tasks, after, target);
    }
  }

  // --- Two independent Serial tasks ---

  /** Neither depends on anything, and nothing is being rerun. */
  ghost predicate IndependentPair(s: State, a: TaskSpec, b: TaskSpec) {
    && s.run.tasks == [a, b] && a.name != b.name && SerialSiblings(a, b)
    && a.kind == Build && b.kind == Build && a.dependsOn == [] && b.dependsOn == []
    && s.taskRuns.Keys == {a.name, b.name} && s.rerun == NoRerun
    && s.taskRuns[a.name].kind == Build && s.taskRuns[b.name].kind == Build
  }

  /** Rerunning one of them resets it and nothing else. */
  lemma PairRerun(s: State, a: TaskSpec, b: TaskSpec, name: string)
    requires IndependentPair(s, a, b) && (name == a.name || name == b.name)
    ensures DownstreamOrder(s.run.tasks, name, [])
    ensures var after := Run(s, WholeRerun(name, []));
      && after.taskRuns == s.taskRuns[name := TaskRunController.Reset(s.taskRuns[name])]
      && after.run.tasks == s.run.tasks && after.rerun == NoRerun && IndependentPair(after, a, b)
  {
    forall d, n ensures !Edge(s.run.tasks, d, n) {
      assert forall t | t in s.run.tasks :: t.dependsOn == [];
    }
    UndisturbedRerun(s, name, []);
    WithoutNone(s.taskRuns[name := TaskRunController.Reset(s.taskRuns[name])]);
  }

  /** The first has succeeded and the second is running. The first is rerun, and its Job starts: now both run. */
  lemma BothSerialTasksRun(s: State, a: TaskSpec, b: TaskSpec)
    requires IndependentPair(s, a, b) && Done(s.taskRuns, a.name) && s.taskRuns[b.name].phase == TaskPhase.Running
    ensures var seen := TaskRunController.Observation(None, None);
      var end := Step(Run(s, WholeRerun(a.name, [])), ReconcileTask(a.name, seen));
      && DownstreamOrder(s.run.tasks, a.name, []) && end.taskRuns.Keys == {a.name, b.name}
      && end.taskRuns[a.name].phase == TaskPhase.Running && end.taskRuns[b.name].phase == TaskPhase.Running
  {
    PairRerun(s, a, b, a.name);
    hide Run, DownstreamOrder;
  }

  /**
   Both have succeeded. Rerunning the first leaves one unfinished task, and no later one; but
   rerunning the second then leaves both unfinished.
   */
  lemma SecondRerunOverlaps(s: State, a: TaskSpec, b: TaskSpec)
    requires IndependentPair(s, a, b) && Done(s.taskRuns, a.name) && Done(s.taskRuns, b.name)
    ensures var first := Run(s, WholeRerun(a.name, []));
      var second := Run(first, WholeRerun(b.name, []));
      && DownstreamOrder(s.run.tasks, a.name, []) && DownstreamOrder(first.run.tasks, b.name, [])
      && !Overlap([a, b], first.taskRuns, 1) && Overlap([a, b], second.taskRuns, 1)
  {
    PairRerun(s, a, b, a.name);
    var first := Run(s, WholeRerun(a.name, []));
    PairRerun(first, a, b, b.name);
    var second := Run(first, WholeRerun(b.name, []));
    hide Run, DownstreamOrder;
    assert Unfinished(second.taskRuns, [a, b][0].name) && Unfinished(second.taskRuns, [a, b][1].name);
    assert Done(first.taskRuns, [a, b][1].name);
  }
}
