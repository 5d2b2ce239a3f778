/** What the safety invariant means for pipelines: dependencies and reruns. */
module PipelineTheorems {
  import opened PipelineTypes
  import opened Downstream
  import opened PipelineSystem
  import opened CancelSafety
  import opened PipelineSafety
  import TaskRunController

  lemma FreshIsSafe(s: State, serial: bool)
    requires Fresh(s) && UniqueNames(s.run.tasks)
    ensures Safe(s, serial)
  {
  }

  /**
   Dependency closure: in every orderly run, with reruns and cancels interleaved, each
   TaskRun has all its dependencies existing and Succeeded, unless a cancel is tearing the
   run down or a rerun in progress is about to delete it.
   */
  lemma DependenciesHold(s: State, actions: seq<Action>, d: string, n: string)
    requires Fresh(s) && UniqueNames(s.run.tasks) && AllOrderly(s, actions, false)
    ensures var s' := Run(s, actions);
      n in s'.taskRuns && Edge(s.run.tasks, d, n) && !Armed(s') && n !in Doomed(s') ==> Done(s'.taskRuns, d)
  {
    RunIsSafe(s, actions, false);
    RunKeepsTasks(s, actions);
    if Edge(s.run.tasks, d, n) {
      assert Prerequisite(s.run.tasks, false, d, n);
    }
  }

  // --- Reruns ---

  ghost predicate StaysDown(s: State, actions: seq<Action>, target: string) {
    !Done(Run(s, actions).taskRuns, target) &&
    (actions == [] || StaysDown(s, actions[..|actions| - 1], target))
  }

  ghost predicate InRerun(s: State, target: string, order: seq<string>) {
    && s.rerun.Rerunning? && s.rerun.target == target && s.rerun.order == order && s.rerun.next <= |order|
    && StillGone(s) && UniqueNames(s.run.tasks) && ParentFirst(s.run.tasks, target, order)
  }

  lemma InRerunStep(s: State, a: Action, target: string, order: seq<string>)
    requires InRerun(s, target, order) && !Done(Step(s, a).taskRuns, target)
    requires a != RerunRevive && a != RerunAbort
    ensures InRerun(Step(s, a), target, order)
  {
    StepKeepsTasks(s, a);
    if a.ReconcileRun? {
      DeletedAreNotRecreated(s, a.cut);
      ReconcileRunCreates(s, a.cut);
    } else {
      assert forall n | n in Step(s, a).taskRuns :: n in s.taskRuns;
    }
  }

  lemma {:induction false} RerunKeepsGone(s: State, actions: seq<Action>, target: string, order: seq<string>)
    requires InRerun(s, target, order)
    requires StaysDown(s, actions, target) && RerunRevive !in actions && RerunAbort !in actions
    ensures InRerun(Run(s, actions), target, order)
  {
    hide Step, InRerun;
    if actions != [] {
      var front := actions[..|actions| - 1];
      RerunKeepsGone(s, front, target, order);
      InRerunStep(Run(s, front), actions[|actions| - 1], target, order);
    }
  }

  /**
   When the rerun handler has gone through its list, no task downstream of the target
   exists, whatever ran in between, provided the target did not succeed again meanwhile.
   */
  lemma RerunLeavesNoDownstream(s: State, target: string, order: seq<string>, actions: seq<Action>, name: string)
    requires UniqueNames(s.run.tasks) && s.rerun == NoRerun && target in s.taskRuns
    requires DownstreamOrder(s.run.tasks, target, order)
    requires StaysDown(Step(s, RerunBegin(target, order)), actions, target)
    requires RerunRevive !in actions && RerunAbort !in actions
    ensures var s' := Run(Step(s, RerunBegin(target, order)), actions);
      s'.rerun.Rerunning? && s'.rerun.order == order &&
      (s'.rerun.next == |order| && Reachable(s.run.tasks, target, name) ==> name !in s'.taskRuns)
  {
    var begun := Step(s, RerunBegin(target, order));
    RerunKeepsGone(begun, actions, target, order);
    DownstreamIsReachable(s.run.tasks, target, order, name);
    if name in order {
      var i :| 0 <= i < |order| && order[i] == name;
    }
  }

  function RerunDeletes(n: nat): seq<Action> {
    seq(n, _ => RerunDelete)
  }

  lemma {:induction false} RerunDeletesRun(s: State, n: nat)
    requires s.rerun.Rerunning? && s.rerun.next + n <= |s.rerun.order|
    ensures Run(s, RerunDeletes(n)) == s.(
      taskRuns := Without(s.taskRuns, s.rerun.order[s.rerun.next..s.rerun.next + n]),
      rerun := s.rerun.(next := s.rerun.next + n))
  {
    hide Step, Without;
    var order, next := s.rerun.order, s.rerun.next;
    if n == 0 {
      assert order[next..next] == [];
      WithoutNone(s.taskRuns);
    } else {
      RerunDeletesRun(s, n - 1);
      assert RerunDeletes(n) == RerunDeletes(n - 1) + [RerunDelete];
      RunSnoc(s, RerunDeletes(n - 1), RerunDelete);
      RerunDeleteEffect(Run(s, RerunDeletes(n - 1)));
      WithoutOneMore(s.taskRuns, order, next, next + n - 1);
    }
  }

  lemma RerunDeleteEffect(s: State)
    requires s.rerun.Rerunning? && s.rerun.next < |s.rerun.order|
    ensures Step(s, RerunDelete) == s.(
      taskRuns := s.taskRuns - {s.rerun.order[s.rerun.next]}, rerun := s.rerun.(next := s.rerun.next + 1))
  {
  }

  lemma RerunBeginEffect(s: State, target: string, order: seq<string>)
    requires s.rerun == NoRerun && target in s.taskRuns && DownstreamOrder(s.run.tasks, target, order)
    ensures Step(s, RerunBegin(target, order)) == s.(
      taskRuns := s.taskRuns[target := TaskRunController.Reset(s.taskRuns[target])],
      rerun := Rerunning(target, order, 0, s.run.phase == Broken, s.run.version))
  {
    hide DownstreamOrder;
  }

  function WholeRerun(target: string, order: seq<string>): seq<Action> {
    [RerunBegin(target, order)] + RerunDeletes(|order|) + [RerunRevive]
  }

  /** An undisturbed rerun: target reset, everything downstream gone, nothing else touched, a failed run revived. */
  lemma UndisturbedRerun(s: State, target: string, order: seq<string>)
    requires s.rerun == NoRerun && target in s.taskRuns && DownstreamOrder(s.run.tasks, target, order)
    ensures var s' := Run(s, WholeRerun(target, order));
      && s'.rerun == NoRerun && s'.created == s.created && s'.teardown == s.teardown
      && s'.taskRuns == Without(s.taskRuns[target := TaskRunController.Reset(s.taskRuns[target])], order)
      && s'.run == (if s.run.phase == Broken
                    then Write(s.run, s.run.(phase := Active, message := "rerun requested")) else s.run)
  {
    var begun := Step(s, RerunBegin(target, order));
    RunFromFirst(s, RerunBegin(target, order), RerunDeletes(|order|));
    RunSnoc(s, [RerunBegin(target, order)] + RerunDeletes(|order|), RerunRevive);
    RerunDeletesRun(begun, |order|);
    assert order[0..|order|] == order;
  }
}
