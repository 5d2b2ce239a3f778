/**
 Progress of the scheduler: a pipeline can complete exactly when its dependencies,
 together with the order of its Serial stages, have a topological order; and then it
 completes within one reconcile more than it has tasks.
 */
module PipelineProgress {
  import opened Wrappers
  import opened PipelineTypes
  import opened RolloutTypes
  import opened Scheduler
  import opened PipelineSystem
  import opened PipelineSafety
  import opened CreationOrder
  import TaskRunController
  import Approvals
  import Downstream

  ghost predicate Settled(existing: TaskRuns) {
    forall n | n in existing :: Done(existing, n)
  }

  /** Not finished, not cancelled, and only declared tasks exist. A rerun may be in progress. */
  ghost predicate Quiet(s: State) {
    && !Terminal(s.run.phase) && s.run.cancel.None? && s.teardown == Idle
    && s.taskRuns.Keys <= Names(s.run.tasks) && UniqueNames(s.run.tasks)
  }

  function FirstMissing(order: seq<string>, existing: TaskRuns): (i: nat)
    ensures i <= |order| && (forall j | 0 <= j < i :: order[j] in existing)
    ensures i < |order| ==> order[i] !in existing
  {
    if order == [] || order[0] !in existing then 0 else FirstMissing(order[1..], existing) + 1
  }

  /** Whenever everything that exists has succeeded and some task has not started, a task can start. */
  lemma SomethingCanStart(tasks: seq<TaskSpec>, existing: TaskRuns, order: seq<string>)
    requires UniqueNames(tasks) && TopologicalOrder(tasks, order) && Settled(existing)
    requires exists n :: n in Names(tasks) && n !in existing
    ensures Runnable(tasks, tasks, existing) != []
  {
    var missing :| missing in Names(tasks) && missing !in existing;
    var i := FirstMissing(order, existing);
    assert missing in order;
    assert i < |order| && order[i] in Names(tasks);
    var t :| t in tasks && t.name == order[i];
    forall d | Prerequisite(tasks, true, d, t.name) ensures Done(existing, d) {
      assert Prerequisite(tasks, true, d, order[i]);
      assert d in order[..i];
    }
    CanStartIsReady(tasks, t, existing);
    RunnableIsExact(tasks, tasks, existing);
  }

  /** An uncut reconcile. */
  function Reconcile(s: State): Action {
    ReconcileRun(|s.run.tasks| + 1)
  }

  /** An uncut reconcile of a quiet, settled run creates everything runnable and writes its status. */
  lemma ReconcileCreates(s: State)
    requires Quiet(s) && Settled(s.taskRuns)
    ensures var s', batch := Step(s, Reconcile(s)), Runnable(s.run.tasks, s.run.tasks, s.taskRuns);
      && s'.taskRuns == CreateAll(s.taskRuns, batch)
      && s'.run == Write(s.run, Scheduled(s.run, s.taskRuns))
      && s'.teardown == s.teardown && s'.rerun == s.rerun
      && FindPendingApproval(s.run.tasks, s.taskRuns).None? && !HasFailedTask(s.taskRuns)
  {
    var batch := Batch(s.run, s.taskRuns);
    assert batch == Runnable(s.run.tasks, s.run.tasks, s.taskRuns);
    RunnableIsExact(s.run.tasks, s.run.tasks, s.taskRuns);
    assert batch[..|batch|] == batch;
  }

  /** What it creates is declared, and what exists stays. */
  lemma ReconcileAdds(s: State)
    requires Quiet(s) && Settled(s.taskRuns)
    ensures var s' := Step(s, Reconcile(s));
      && s.taskRuns.Keys <= s'.taskRuns.Keys <= Names(s.run.tasks)
      && (forall n | n in s.taskRuns :: s'.taskRuns[n] == s.taskRuns[n])
  {
    ReconcileCreates(s);
    var batch := Runnable(s.run.tasks, s.run.tasks, s.taskRuns);
    RunnableIsExact(s.run.tasks, s.run.tasks, s.taskRuns);
    CreateAllAdds(s.taskRuns, batch);
  }

  lemma {:induction false} NothingCanStart(candidates: seq<TaskSpec>, tasks: seq<TaskSpec>, existing: TaskRuns)
    requires forall t | t in candidates :: t.name in existing
    ensures Runnable(candidates, tasks, existing) == []
  {
    if candidates != [] {
      NothingCanStart(candidates[..|candidates| - 1], tasks, existing);
    }
  }

  /** When every task exists and has succeeded, the reconcile completes the run. */
  lemma ReconcileCompletes(s: State)
    requires Quiet(s) && Settled(s.taskRuns) && s.taskRuns.Keys == Names(s.run.tasks)
    ensures var s' := Step(s, Reconcile(s)); s'.run.phase == Complete && s'.taskRuns == s.taskRuns
  {
    ReconcileCreates(s);
    assert forall t | t in s.run.tasks :: t.name in Names(s.run.tasks) && Done(s.taskRuns, t.name);
    NothingCanStart(s.run.tasks, s.run.tasks, s.taskRuns);
  }

  lemma ReconcileStaysQuiet(s: State)
    requires Quiet(s) && Settled(s.taskRuns)
    requires Runnable(s.run.tasks, s.run.tasks, s.taskRuns) != []
    ensures Quiet(Step(s, Reconcile(s)))
  {
    ReconcileCreates(s);
    ReconcileAdds(s);
    assert Scheduled(s.run, s.taskRuns).phase == Active;
  }

  /** Otherwise, if the tasks are schedulable, it creates at least one and the run goes on. */
  lemma ReconcileProgresses(s: State, order: seq<string>)
    requires Quiet(s) && Settled(s.taskRuns) && TopologicalOrder(s.run.tasks, order)
    requires s.taskRuns.Keys != Names(s.run.tasks)
    ensures var s' := Step(s, Reconcile(s)); Quiet(s') && s.taskRuns.Keys < s'.taskRuns.Keys
  {
    var missing :| missing in Names(s.run.tasks) && missing !in s.taskRuns;
    SomethingCanStart(s.run.tasks, s.taskRuns, order);
    ReconcileStaysQuiet(s);
    ReconcileGrows(s);
  }

  lemma ReconcileGrows(s: State)
    requires Quiet(s) && Settled(s.taskRuns)
    requires Runnable(s.run.tasks, s.run.tasks, s.taskRuns) != []
    ensures s.taskRuns.Keys < Step(s, Reconcile(s)).taskRuns.Keys
  {
    var batch := Runnable(s.run.tasks, s.run.tasks, s.taskRuns);
    ReconcileCreates(s);
    RunnableIsExact(s.run.tasks, s.run.tasks, s.taskRuns);
    CreateAllAdds(s.taskRuns, batch);
    var t := batch[0];
    assert t in batch && t.name in Names(batch) && t.name !in s.taskRuns;
    assert t.name in Step(s, Reconcile(s)).taskRuns.Keys;
  }

  // --- The bound, against every environment ---

  predicate TaskActions(env: seq<Action>) {
    forall a | a in env :: a.ReconcileTask? || a.Decide?
  }

  lemma {:induction false} TaskActionsKeepRun(s: State, env: seq<Action>)
    requires TaskActions(env)
    ensures var s' := Run(s, env); s' == s.(taskRuns := s'.taskRuns) && s'.taskRuns.Keys == s.taskRuns.Keys
  {
    if env != [] {
      TaskActionsKeepRun(s, env[..|env| - 1]);
      assert env[|env| - 1] in env;
    }
  }

  /** A reconcile, then any activity of the tasks. */
  ghost function Round(s: State, env: seq<Action>): State {
    Run(Step(s, Reconcile(s)), env)
  }

  ghost function Rounds(s: State, envs: seq<seq<Action>>): State
    decreases |envs|
  {
    if envs == [] then s else Rounds(Round(s, envs[0]), envs[1..])
  }

  /** Each round ends when every task it finds has succeeded, in whatever way. */
  ghost predicate SettledRounds(s: State, envs: seq<seq<Action>>)
    decreases |envs|
  {
    envs == [] ||
    (TaskActions(envs[0]) && Settled(Round(s, envs[0]).taskRuns) && SettledRounds(Round(s, envs[0]), envs[1..]))
  }

  lemma {:induction false} CompleteStays(s: State, envs: seq<seq<Action>>)
    requires s.run.phase == Complete && SettledRounds(s, envs)
    ensures Rounds(s, envs).run == s.run && Rounds(s, envs).taskRuns.Keys == s.taskRuns.Keys
    decreases |envs|
  {
    if envs != [] {
      TaskActionsKeepRun(Step(s, Reconcile(s)), envs[0]);
      CompleteStays(Round(s, envs[0]), envs[1..]);
    }
  }

  lemma {:induction false} RoundsComplete(s: State, envs: seq<seq<Action>>, order: seq<string>)
    requires Quiet(s) && Settled(s.taskRuns) && TopologicalOrder(s.run.tasks, order) && SettledRounds(s, envs)
    requires |envs| > |Names(s.run.tasks) - s.taskRuns.Keys|
    ensures var s' := Rounds(s, envs); s'.run.phase == Complete && s'.taskRuns.Keys == Names(s.run.tasks)
    decreases |envs|
  {
    var reconciled := Step(s, Reconcile(s));
    StepKeepsTasks(s, Reconcile(s));
    TaskActionsKeepRun(reconciled, envs[0]);
    var next := Round(s, envs[0]);
    if s.taskRuns.Keys == Names(s.run.tasks) {
      ReconcileCompletes(s);
      CompleteStays(next, envs[1..]);
    } else {
      ReconcileProgresses(s, order);
      var left, left' := Names(s.run.tasks) - s.taskRuns.Keys, Names(s.run.tasks) - next.taskRuns.Keys;
      assert left' < left;
      SmallerSet(left', left);
      RoundsComplete(next, envs[1..], order);
    }
  }

  lemma {:induction false} SmallerSet<T>(a: set<T>, b: set<T>)
    requires a < b
    ensures |a| < |b|
  {
    var x :| x in b && x !in a;
    var rest := b - {x};
    assert a <= rest && |rest| == |b| - 1;
    SubsetSize(a, rest);
  }

  lemma {:induction false} SubsetSize<T>(a: set<T>, b: set<T>)
    requires a <= b
    ensures |a| <= |b|
  {
    if a != {} {
      var x :| x in a;
      SubsetSize(a - {x}, b - {x});
    }
  }

  lemma {:induction false} NamesSize(tasks: seq<TaskSpec>)
    ensures |Names(tasks)| <= |tasks|
  {
    if tasks != [] {
      var front, t := tasks[..|tasks| - 1], tasks[|tasks| - 1];
      NamesSize(front);
      assert tasks == front + [t];
      assert Names(tasks) == Names(front) + {t.name};
    }
  }

  lemma {:induction false} RunAppend(s: State, a: seq<Action>, b: seq<Action>)
    ensures Run(s, a + b) == Run(Run(s, a), b)
    ensures AllSteady(s, a) && AllSteady(Run(s, a), b) ==> AllSteady(s, a + b)
  {
    hide Step, Steady;
    if b == [] {
      assert a + b == a;
    } else {
      var front, last := b[..|b| - 1], b[|b| - 1];
      RunAppend(s, a, front);
      assert (a + b)[..|a + b| - 1] == a + front;
    }
  }

  lemma OneReconcile(s: State)
    ensures Run(s, [Reconcile(s)]) == Step(s, Reconcile(s)) && AllSteady(s, [Reconcile(s)])
  {
    var first := [Reconcile(s)];
    assert first[..0] == [] && first[0] == Reconcile(s);
    assert Run(s, first[..0]) == s && AllSteady(s, first[..0]);
  }

  /** What the scheduler and the tasks do. */
  predicate SchedulerActions(actions: seq<Action>) {
    forall a | a in actions :: a.ReconcileRun? || a.ReconcileTask? || a.Decide?
  }

  lemma {:induction false} RoundsAreRun(s: State, envs: seq<seq<Action>>) returns (actions: seq<Action>)
    requires SettledRounds(s, envs)
    ensures SchedulerActions(actions) && Rounds(s, envs) == Run(s, actions)
    decreases |envs|
  {
    hide Step;
    if envs == [] {
      actions := [];
    } else {
      OneReconcile(s);
      RunAppend(s, [Reconcile(s)], envs[0]);
      var rest := RoundsAreRun(Round(s, envs[0]), envs[1..]);
      RunAppend(s, [Reconcile(s)] + envs[0], rest);
      actions := [Reconcile(s)] + envs[0] + rest;
    }
  }

  /**
   However the tasks succeed between reconciles, |Tasks| + 1 reconciles that each find all
   existing tasks Succeeded bring a schedulable run to Complete, and have created every task
   exactly once.
   */
  lemma SchedulableRunsComplete(s: State, envs: seq<seq<Action>>)
    requires Fresh(s) && UniqueNames(s.run.tasks) && Schedulable(s.run.tasks)
    requires SettledRounds(s, envs) && |envs| == |s.run.tasks| + 1
    ensures var end := Rounds(s, envs);
      && end.run.phase == Complete && end.taskRuns.Keys == Names(s.run.tasks)
      && Downstream.NoDuplicates(end.created) && forall n :: n in end.created <==> n in Names(s.run.tasks)
  {
    var order :| TopologicalOrder(s.run.tasks, order);
    NamesSize(s.run.tasks);
    assert Names(s.run.tasks) - s.taskRuns.Keys == Names(s.run.tasks);
    RoundsComplete(s, envs, order);
    var actions := RoundsAreRun(s, envs);
    CreationIsLinearExtension(s, actions);
  }

  // --- Some environment lets every task succeed ---

  /** An event of one TaskRun as an action of the system. */
  function Lift(name: string, e: Approvals.Event): Action
    requires !e.Rerun?
  {
    match e
    case Observe(seen) => ReconcileTask(name, seen)
    case Decision(approver, rejected) => Decide(name, approver, rejected)
  }

  function LiftAll(name: string, history: seq<Approvals.Event>): seq<Action>
    requires forall e | e in history :: !e.Rerun?
  {
    seq(|history|, i requires 0 <= i < |history| => Lift(name, history[i]))
  }

  /** Nobody rejects, and nothing is done to the TaskRun after it has succeeded. */
  ghost predicate Smooth(tr: TaskRun, history: seq<Approvals.Event>) {
    history == [] ||
    var front, e := history[..|history| - 1], history[|history| - 1];
    && Smooth(tr, front) && Approvals.ApplyAll(tr, front).phase != TaskPhase.Succeeded
    && (e.Observe? || (e.Decision? && !e.rejected))
  }

  lemma {:induction false} SmoothIsLiftable(tr: TaskRun, history: seq<Approvals.Event>)
    requires Smooth(tr, history)
    ensures forall e | e in history :: !e.Rerun?
  {
    if history != [] {
      SmoothIsLiftable(tr, history[..|history| - 1]);
      assert history == history[..|history| - 1] + [history[|history| - 1]];
    }
  }

  lemma LiftedStep(s: State, name: string, e: Approvals.Event)
    requires name in s.taskRuns && !Done(s.taskRuns, name)
    requires e.Observe? || (e.Decision? && !e.rejected)
    ensures Step(s, Lift(name, e)) == s.(taskRuns := s.taskRuns[name := Approvals.Apply(s.taskRuns[name], e)])
    ensures Steady(s, Lift(name, e))
  {
  }

  lemma {:induction false} LiftedRun(s: State, name: string, history: seq<Approvals.Event>)
    requires name in s.taskRuns && Smooth(s.taskRuns[name], history)
    requires forall e | e in history :: !e.Rerun?
    ensures var env := LiftAll(name, history);
      && TaskActions(env) && AllSteady(s, env)
      && Run(s, env) == s.(taskRuns := s.taskRuns[name := Approvals.ApplyAll(s.taskRuns[name], history)])
  {
    hide Step, Steady, Approvals.Apply;
    if history == [] {
      assert s.taskRuns[name := s.taskRuns[name]] == s.taskRuns;
    } else {
      var front, e := history[..|history| - 1], history[|history| - 1];
      LiftedRun(s, name, front);
      var env, before := LiftAll(name, history), Run(s, LiftAll(name, front));
      assert env == LiftAll(name, front) + [Lift(name, e)];
      assert env[..|env| - 1] == LiftAll(name, front);
      LiftedStep(before, name, e);
      var tr := Approvals.ApplyAll(s.taskRuns[name], front);
      assert before.taskRuns[name] == tr;
      assert s.taskRuns[name := tr][name := Approvals.Apply(tr, e)] == s.taskRuns[name := Approvals.Apply(tr, e)];
    }
  }

  function Person(i: nat): string {
    seq(i + 1, _ => 'p')
  }

  /** k people whose names are longer than `longest` and get longer. */
  function ApprovalHistory(longest: nat, k: nat): seq<Approvals.Event> {
    if k == 0 then [] else ApprovalHistory(longest, k - 1) + [Approvals.Decision(Person(longest + k), false)]
  }

  /** How many approvals are missing; a decision that records one is always needed. */
  function Missing(tr: TaskRun): nat {
    var required := if tr.approval.Some? then tr.approval.value.requiredCount else TaskRunController.RequiredCount(tr);
    var missing := required - |Approvals.ApprovedBy(tr)|;
    if missing > 1 then missing else 1
  }

  predicate ShortNames(names: seq<string>, longest: nat) {
    forall a | a in names :: |a| <= longest
  }

  /** Distinct people approve one after the other: the task succeeds with the last required one. */
  lemma {:induction false} ApprovalsComeIn(tr: TaskRun, longest: nat, k: nat)
    requires tr.phase != TaskPhase.Succeeded && k <= Missing(tr)
    requires ShortNames(Approvals.ApprovedBy(tr), longest + 1)
    ensures Smooth(tr, ApprovalHistory(longest, k))
    ensures var tr' := Approvals.ApplyAll(tr, ApprovalHistory(longest, k));
      && ShortNames(Approvals.ApprovedBy(tr'), longest + k + 1)
      && (tr'.phase == TaskPhase.Succeeded <==> k == Missing(tr))
      && (k < Missing(tr) ==> Missing(tr') == Missing(tr) - k)
  {
    hide Approvals.ApplyAll, Approvals.Apply, Smooth, Missing, ShortNames, Approvals.ApprovedBy;
    if k == 0 {
      NothingHappens(tr);
    } else {
      ApprovalsComeIn(tr, longest, k - 1);
      var front, e := ApprovalHistory(longest, k - 1), Approvals.Decision(Person(longest + k), false);
      ApplyAllSnoc(tr, front, e);
      SmoothSnoc(tr, front, e);
      ApprovalComesIn(Approvals.ApplyAll(tr, front), longest + k);
    }
  }

  lemma NothingHappens(tr: TaskRun)
    ensures Approvals.ApplyAll(tr, []) == tr && Smooth(tr, []) && Missing(tr) > 0
  {
  }

  lemma ApplyAllSnoc(tr: TaskRun, front: seq<Approvals.Event>, e: Approvals.Event)
    ensures Approvals.ApplyAll(tr, front + [e]) == Approvals.Apply(Approvals.ApplyAll(tr, front), e)
  {
    assert (front + [e])[..|front|] == front;
  }

  lemma ApprovalComesIn(tr: TaskRun, longest: nat)
    requires tr.phase != TaskPhase.Succeeded && ShortNames(Approvals.ApprovedBy(tr), longest)
    ensures var tr' := Approvals.Apply(tr, Approvals.Decision(Person(longest), false));
      && ShortNames(Approvals.ApprovedBy(tr'), longest + 1)
      && (tr'.phase == TaskPhase.Succeeded <==> Missing(tr) == 1)
      && (Missing(tr) > 1 ==> Missing(tr') == Missing(tr) - 1)
  {
    assert |Person(longest)| == longest + 1 && Person(longest) !in Approvals.ApprovedBy(tr);
  }

  function Longest(names: seq<string>): (n: nat)
    ensures ShortNames(names, n)
  {
    if names == [] then 0 else
      var rest, last := Longest(names[..|names| - 1]), names[|names| - 1];
      assert names == names[..|names| - 1] + [last];
      if |last| > rest then |last| else rest
  }

  /**
   Every TaskRun can succeed: an approval task by approvals, a canary by its Rollout, a Job by
   its success. A Job-backed task that has failed needs an approval too, or a rerun.
   */
  lemma TaskCanSucceed(tr: TaskRun) returns (history: seq<Approvals.Event>)
    requires tr.phase != TaskPhase.Succeeded
    ensures Smooth(tr, history)
    ensures Approvals.ApplyAll(tr, history).phase == TaskPhase.Succeeded
  {
    if tr.kind == Approval || (TaskRunController.JobBacked(tr) && tr.phase == TaskPhase.Failed) {
      var longest := Longest(Approvals.ApprovedBy(tr));
      ApprovalsComeIn(tr, longest, Missing(tr));
      history := ApprovalHistory(longest, Missing(tr));
    } else if if TaskRunController.JobBacked(tr) then tr.jobRef else tr.rolloutRef {
      history := [SUCCESS];
      SuccessIsSeen(tr);
    } else {
      history := [START] + [SUCCESS];
      ApplyAllSnoc(tr, [], START);
      SmoothSnoc(tr, [], START);
      assert [] + [START] == [START];
      var started := Approvals.Apply(tr, START);
      SuccessIsSeen(started);
      ApplyAllSnoc(tr, [START], SUCCESS);
      SmoothSnoc(tr, [START], SUCCESS);
    }
  }

  const START := Approvals.Observe(TaskRunController.Observation(None, None))
  const SUCCESS := Approvals.Observe(TaskRunController.Observation(
    Some(TaskRunController.JobStatus(1, 0)), Some(TaskRunController.RolloutView(Healthy, ""))))

  /** A reconcile sees the Job's or the Rollout's success. */
  lemma SuccessIsSeen(tr: TaskRun)
    requires tr.phase != TaskPhase.Succeeded && tr.kind != Approval
    requires if TaskRunController.JobBacked(tr) then tr.jobRef && tr.phase != TaskPhase.Failed else tr.rolloutRef
    ensures Smooth(tr, [SUCCESS]) && Approvals.ApplyAll(tr, [SUCCESS]).phase == TaskPhase.Succeeded
    ensures Approvals.Apply(tr, SUCCESS).phase == TaskPhase.Succeeded
  {
    ApplyAllSnoc(tr, [], SUCCESS);
    SmoothSnoc(tr, [], SUCCESS);
    assert [] + [SUCCESS] == [SUCCESS];
  }

  lemma SmoothSnoc(tr: TaskRun, front: seq<Approvals.Event>, e: Approvals.Event)
    ensures Smooth(tr, front + [e]) <==>
      Smooth(tr, front) && Approvals.ApplyAll(tr, front).phase != TaskPhase.Succeeded
      && (e.Observe? || (e.Decision? && !e.rejected))
  {
    assert (front + [e])[..|front|] == front;
  }

  lemma OneTaskCanSettle(s: State, name: string) returns (env: seq<Action>)
    requires name in s.taskRuns
    ensures TaskActions(env) && AllSteady(s, env)
    ensures Done(Run(s, env).taskRuns, name)
    ensures Run(s, env) == s.(taskRuns := s.taskRuns[name := Run(s, env).taskRuns[name]])
  {
    if Done(s.taskRuns, name) {
      env := [];
      assert s.taskRuns[name := s.taskRuns[name]] == s.taskRuns;
    } else {
      var history := TaskCanSucceed(s.taskRuns[name]);
      SmoothIsLiftable(s.taskRuns[name], history);
      LiftedRun(s, name, history);
      env := LiftAll(name, history);
    }
  }

  lemma {:induction false} TasksCanSettle(s: State, names: set<string>) returns (env: seq<Action>)
    requires names <= s.taskRuns.Keys
    requires forall n | n in s.taskRuns && n !in names :: Done(s.taskRuns, n)
    ensures TaskActions(env) && AllSteady(s, env) && Settled(Run(s, env).taskRuns)
    decreases |names|
  {
    hide Step, Steady, AllSteady;
    if names == {} {
      env := NothingToSettle(s);
    } else {
      var name :| name in names;
      var first := OneTaskCanSettle(s, name);
      var middle := Run(s, first);
      assert forall n | n in s.taskRuns && n != name :: middle.taskRuns[n] == s.taskRuns[n];
      var rest := TasksCanSettle(middle, names - {name});
      env := first + rest;
      RunAppend(s, first, rest);
    }
  }

  lemma NothingToSettle(s: State) returns (env: seq<Action>)
    requires Settled(s.taskRuns)
    ensures TaskActions(env) && AllSteady(s, env) && Settled(Run(s, env).taskRuns)
  {
    env := [];
  }

  /** A reconcile and an environment in which everything there succeeds. */
  lemma SettlingRound(s: State) returns (actions: seq<Action>)
    requires Quiet(s) && Settled(s.taskRuns)
    ensures SchedulerActions(actions) && AllSteady(s, actions) && Settled(Run(s, actions).taskRuns)
    ensures var reconciled := Step(s, Reconcile(s));
      && Run(s, actions) == reconciled.(taskRuns := Run(s, actions).taskRuns)
      && Run(s, actions).taskRuns.Keys == reconciled.taskRuns.Keys
  {
    OneReconcile(s);
    var reconciled := Step(s, Reconcile(s));
    var env := TasksCanSettle(reconciled, reconciled.taskRuns.Keys);
    TaskActionsKeepRun(reconciled, env);
    RunAppend(s, [Reconcile(s)], env);
    actions := [Reconcile(s)] + env;
  }

  /** From a quiet, settled state of a schedulable pipeline all tasks can be created and succeed. */
  lemma {:induction false} CanComplete(s: State, order: seq<string>) returns (actions: seq<Action>)
    requires Quiet(s) && Settled(s.taskRuns) && TopologicalOrder(s.run.tasks, order)
    ensures SchedulerActions(actions) && AllSteady(s, actions)
    ensures var end := Run(s, actions);
      && end.run.phase == Complete && end.rerun == s.rerun && end.teardown == Idle && end.run.cancel.None?
      && end.taskRuns.Keys == Names(s.run.tasks) && Settled(end.taskRuns)
    decreases Names(s.run.tasks) - s.taskRuns.Keys
  {
    StepKeepsTasks(s, Reconcile(s));
    ReconcileCreates(s);
    actions := SettlingRound(s);
    if s.taskRuns.Keys == Names(s.run.tasks) {
      ReconcileCompletes(s);
    } else {
      ReconcileProgresses(s, order);
      var next := Run(s, actions);
      var rest := CanComplete(next, order);
      RunAppend(s, actions, rest);
      actions := actions + rest;
    }
  }

  /** The same from a quiet state in which some tasks have not succeeded yet. */
  lemma CanSettleAndComplete(s: State, order: seq<string>) returns (actions: seq<Action>)
    requires Quiet(s) && TopologicalOrder(s.run.tasks, order)
    ensures SchedulerActions(actions) && AllSteady(s, actions)
    ensures var end := Run(s, actions);
      && end.run.phase == Complete && end.rerun == s.rerun && end.teardown == Idle && end.run.cancel.None?
      && end.taskRuns.Keys == Names(s.run.tasks) && Settled(end.taskRuns)
  {
    var env := TasksCanSettle(s, s.taskRuns.Keys);
    TaskActionsKeepRun(s, env);
    var rest := CanComplete(Run(s, env), order);
    RunAppend(s, env, rest);
    actions := env + rest;
  }

  /** A rerun in progress needs no care: its order respects all edges, or the run is finished. */
  ghost predicate Harmless(s: State, serial: bool) {
    s.rerun.Rerunning? ==> !serial && (Topological(s.run.tasks, s.rerun.order) || Terminal(s.run.phase))
  }

  lemma StaysHarmless(s: State, a: Action, serial: bool)
    requires Harmless(s, serial) && !a.RerunBegin?
    ensures Harmless(Step(s, a), serial)
  {
    StepKeepsTasks(s, a);
    hide Topological;
  }

  /** Steady actions that begin no rerun are orderly, unless one that needs care is already in progress. */
  lemma {:induction false} SteadyIsOrderly(s: State, actions: seq<Action>, serial: bool)
    requires AllSteady(s, actions) && RerunFree(actions) && Harmless(s, serial)
    ensures AllOrderly(s, actions, serial) && Harmless(Run(s, actions), serial)
  {
    if actions != [] {
      hide Step, Steady;
      var front, a := actions[..|actions| - 1], actions[|actions| - 1];
      SteadyIsOrderly(s, front, serial);
      assert a in actions;
      StaysHarmless(Run(s, front), a, serial);
    }
  }

  /**
   A run can complete if and only if its tasks are schedulable. Nothing that happens to an
   unschedulable one completes it; a schedulable one completes without reruns and without
   any Succeeded task regressing.
   */
  lemma CompletesIffSchedulable(s: State)
    requires Fresh(s) && UniqueNames(s.run.tasks)
    ensures Schedulable(s.run.tasks) <==> exists actions :: Run(s, actions).run.phase == Complete
    ensures Schedulable(s.run.tasks) ==>
      exists actions :: AllOrderly(s, actions, true) && Run(s, actions).run.phase == Complete
  {
    if order :| TopologicalOrder(s.run.tasks, order) {
      var actions := CanComplete(s, order);
      SteadyIsOrderly(s, actions, true);
    }
    if actions :| Run(s, actions).run.phase == Complete {
      CompleteIsSchedulable(s, actions);
    }
  }
}
