/**
 Where a rerun goes wrong when its target succeeds again before the handler is done: the
 exact condition on the order of its deletes, and the smallest pipeline that breaks it.
 */
module RerunLimits {
  import opened Wrappers
  import opened PipelineTypes
  import opened Scheduler
  import opened Downstream
  import opened PipelineSystem
  import opened PipelineSafety
  import opened CancelSafety
  import opened PipelineTheorems
  import opened CreationOrder
  import opened PipelineProgress
  import TaskRunController

  const NOTHING := TaskRunController.Observation(None, None)
  const JOB_DONE := TaskRunController.Observation(Some(TaskRunController.JobStatus(1, 0)), None)

  predicate Plain(t: TaskSpec) {
    t.kind == Build && t.stage == ""
  }

  /** b is declared before c and depends on c; both depend on t. All three have succeeded. */
  ghost predicate Triangle(s: State, t: TaskSpec, b: TaskSpec, c: TaskSpec) {
    && s.run.tasks == [t, b, c] && Plain(t) && Plain(b) && Plain(c)
    && t.name != b.name && t.name != c.name && b.name != c.name
    && t.dependsOn == [] && b.dependsOn == [t.name, c.name] && c.dependsOn == [t.name]
    && s.run.phase == Active && s.run.cancel.None? && s.teardown == Idle && s.rerun == NoRerun
    && s.taskRuns.Keys == {t.name, b.name, c.name}
    && (forall n | n in s.taskRuns :: s.taskRuns[n].phase == TaskPhase.Succeeded && s.taskRuns[n].kind == Build)
  }

  lemma TriangleEdges(s: State, t: TaskSpec, b: TaskSpec, c: TaskSpec, d: string, n: string)
    requires Triangle(s, t, b, c)
    ensures Edge(s.run.tasks, d, n)
      <==> (d == t.name && (n == b.name || n == c.name)) || (d == c.name && n == b.name)
  {
    if Edge(s.run.tasks, d, n) {
      var u :| u in s.run.tasks && u.name == n && d in u.dependsOn;
      assert u == t || u == b || u == c;
    }
    assert s.run.tasks[1] == b && s.run.tasks[2] == c;
    assert b.dependsOn[0] == t.name && b.dependsOn[1] == c.name && c.dependsOn[0] == t.name;
  }

  lemma TriangleOrder(s: State, t: TaskSpec, b: TaskSpec, c: TaskSpec)
    requires Triangle(s, t, b, c)
    ensures DownstreamOrder(s.run.tasks, t.name, [b.name, c.name])
    ensures !Topological(s.run.tasks, [b.name, c.name])
  {
    var order := [b.name, c.name];
    TriangleEdges(s, t, b, c, t.name, b.name);
    TriangleEdges(s, t, b, c, t.name, c.name);
    TriangleEdges(s, t, b, c, c.name, b.name);
    forall i | 0 <= i < |order| ensures HasParent(s.run.tasks, t.name, order[..i], order[i]) {
      assert Edge(s.run.tasks, t.name, order[i]);
    }
    forall p, n | (p == t.name || p in order) && Edge(s.run.tasks, p, n) ensures n in order {
      TriangleEdges(s, t, b, c, p, n);
      assert order[0] == b.name && order[1] == c.name;
    }
    assert Edge(s.run.tasks, order[1], order[0]);
  }

  /** With t and c succeeded and b gone, b is all there is to create. */
  ghost predicate OnlyMiddleIsMissing(s: State, t: TaskSpec, b: TaskSpec, c: TaskSpec) {
    && s.run.tasks == [t, b, c] && Plain(t) && Plain(b) && Plain(c)
    && t.name != b.name && t.name != c.name && b.name != c.name && b.dependsOn == [t.name, c.name]
    && s.run.phase == Active && s.run.cancel.None? && s.teardown == Idle
    && s.taskRuns.Keys == {t.name, c.name} && Done(s.taskRuns, t.name) && Done(s.taskRuns, c.name)
  }

  lemma MiddleIsRecreated(s: State, t: TaskSpec, b: TaskSpec, c: TaskSpec)
    requires OnlyMiddleIsMissing(s, t, b, c)
    ensures var s' := Step(s, ReconcileRun(4));
      s'.taskRuns.Keys == {t.name, b.name, c.name} && s'.rerun == s.rerun && s'.run.tasks == s.run.tasks
  {
    assert s.run.tasks[1] == b;
    assert CanStart(b, s.run.tasks, s.taskRuns);
    hide Step;
    OnlyOneIsReady(s, b, 4);
  }

  /** The handler resets t and deletes b; then t's job runs again and is done. */
  lemma TargetIsBack(s: State, t: TaskSpec, b: TaskSpec, c: TaskSpec)
    requires Triangle(s, t, b, c)
    ensures var begun := Step(s, RerunBegin(t.name, [b.name, c.name]));
      var half := Step(begun, RerunDelete);
      var again := Step(Step(half, ReconcileTask(t.name, NOTHING)), ReconcileTask(t.name, JOB_DONE));
      && again.run == s.run && again.teardown == Idle
      && again.rerun.Rerunning? && again.rerun.order == [b.name, c.name] && again.rerun.next == 1
      && again.taskRuns.Keys == {t.name, c.name} && Done(again.taskRuns, t.name) && Done(again.taskRuns, c.name)
  {
    hide Step;
    var half := Step(Step(s, RerunBegin(t.name, [b.name, c.name])), RerunDelete);
    FirstDelete(s, t, b, c);
    JobRunsAgain(half, t.name);
  }

  lemma FirstDelete(s: State, t: TaskSpec, b: TaskSpec, c: TaskSpec)
    requires Triangle(s, t, b, c)
    ensures var half := Step(Step(s, RerunBegin(t.name, [b.name, c.name])), RerunDelete);
      && half.run == s.run && half.teardown == Idle
      && half.rerun.Rerunning? && half.rerun.order == [b.name, c.name] && half.rerun.next == 1
      && half.taskRuns.Keys == {t.name, c.name} && Done(half.taskRuns, c.name)
      && half.taskRuns[t.name].phase == TaskPhase.Pending && half.taskRuns[t.name].kind == Build
      && !half.taskRuns[t.name].jobRef
  {
    TriangleOrder(s, t, b, c);
    hide Step, DownstreamOrder;
    RerunBeginEffect(s, t.name, [b.name, c.name]);
    RerunDeleteEffect(Step(s, RerunBegin(t.name, [b.name, c.name])));
  }

  lemma JobRunsAgain(s: State, n: string)
    requires n in s.taskRuns && s.taskRuns[n].phase == TaskPhase.Pending
    requires s.taskRuns[n].kind == Build && !s.taskRuns[n].jobRef
    ensures var again := Step(Step(s, ReconcileTask(n, NOTHING)), ReconcileTask(n, JOB_DONE));
      again == s.(taskRuns := again.taskRuns) && again.taskRuns.Keys == s.taskRuns.Keys && Done(again.taskRuns, n)
      && forall m | m in s.taskRuns && m != n :: again.taskRuns[m] == s.taskRuns[m]
  {
    var started := Step(s, ReconcileTask(n, NOTHING));
    assert started.taskRuns[n].jobRef && started.taskRuns[n].phase == TaskPhase.Running;
  }

  /**
   The handler deletes b, whose dependency c is still there. Before it deletes c, the
   target succeeds again and a reconcile recreates b. When the handler is done, b exists
   and its dependency c does not. The order of deletes, though from the walk, does not
   respect the edge from c to b; the target does not stay down; so both of the conditions
   under which a rerun keeps dependencies closed fail.
   */
  lemma OvertakenRerunBreaksDependencies(s: State, t: TaskSpec, b: TaskSpec, c: TaskSpec)
    requires Triangle(s, t, b, c)
    ensures var begun := Step(s, RerunBegin(t.name, [b.name, c.name]));
      var half := Step(begun, RerunDelete);
      var again := Step(Step(half, ReconcileTask(t.name, NOTHING)), ReconcileTask(t.name, JOB_DONE));
      var end := Step(Step(Step(again, ReconcileRun(4)), RerunDelete), RerunRevive);
      && end.rerun == NoRerun && b.name in end.taskRuns
      && Edge(s.run.tasks, c.name, b.name) && c.name !in end.taskRuns
  {
    hide Step;
    TriangleEdges(s, t, b, c, c.name, b.name);
    TargetIsBack(s, t, b, c);
    var half := Step(Step(s, RerunBegin(t.name, [b.name, c.name])), RerunDelete);
    var again := Step(Step(half, ReconcileTask(t.name, NOTHING)), ReconcileTask(t.name, JOB_DONE));
    MiddleIsRecreated(again, t, b, c);
    AfterLastDelete(Step(again, ReconcileRun(4)), [b.name, c.name]);
  }

  lemma AfterLastDelete(s: State, order: seq<string>)
    requires s.rerun.Rerunning? && s.rerun.order == order && |order| == 2 && s.rerun.next == 1
    ensures var end := Step(Step(s, RerunDelete), RerunRevive);
      end.rerun == NoRerun && end.taskRuns == s.taskRuns - {order[1]}
  {
  }

  // --- The exact condition ---

  /** A run of a pipeline that can be scheduled, in which dependencies were kept so far; tasks may be in any phase. */
  ghost predicate Rerunnable(s: State) {
    Safe(s, false) && s.rerun == NoRerun && Schedulable(s.run.tasks) && s.taskRuns.Keys <= Names(s.run.tasks)
  }

  /** Every TaskRun has its dependencies, or is about to be deleted by the rerun, or the run by a cancel. */
  ghost predicate Sound(s: State) {
    Armed(s) || s.run.phase == Cancelled || Closed(s, false)
  }

  lemma DependenciesAreDeclared(tasks: seq<TaskSpec>, d: string, n: string)
    requires Schedulable(tasks) && Edge(tasks, d, n)
    ensures d in Names(tasks) && d != n
  {
    var order :| TopologicalOrder(tasks, order);
    EdgeTargetIsDeclared(tasks, d, n);
    var i :| 0 <= i < |order| && order[i] == n;
    assert Prerequisite(tasks, true, d, order[i]);
    assert d in order[..i];
  }

  lemma HarmlessRerunIsSafe(s: State, target: string, order: seq<string>, actions: seq<Action>)
    requires Rerunnable(s) && (Topological(s.run.tasks, order) || Terminal(s.run.phase) || Armed(s))
    requires RerunFree(actions) && AllSteady(Step(s, RerunBegin(target, order)), actions)
    ensures Sound(Run(Step(s, RerunBegin(target, order)), actions))
  {
    var begun := Step(s, RerunBegin(target, order));
    StepIsSafe(s, RerunBegin(target, order), false);
    if Armed(s) {
      CancelIsCrashSafe(begun, actions);
    } else {
      SteadyIsOrderly(begun, actions, false);
      RunIsSafe(begun, actions, false);
    }
  }

  lemma {:induction false} DeletesAreSteady(s: State, n: nat)
    ensures AllSteady(s, RerunDeletes(n)) && RerunFree(RerunDeletes(n))
  {
    hide Step;
    if n > 0 {
      DeletesAreSteady(s, n - 1);
      assert RerunDeletes(n)[..n - 1] == RerunDeletes(n - 1);
    }
  }

  /** The state of a rerun, a stale cancel request cleared, after its first n deletes. */
  lemma HalfRerun(s: State, target: string, order: seq<string>, n: nat)
    requires Rerunnable(s) && !Terminal(s.run.phase) && !Armed(s)
    requires target in s.taskRuns && DownstreamOrder(s.run.tasks, target, order) && n <= |order|
    ensures var half := Run(Step(Step(s, RerunBegin(target, order)), CancelClear), RerunDeletes(n));
      && Quiet(half) && half.run.tasks == s.run.tasks && Schedulable(s.run.tasks) && NoDuplicates(order)
      && half.rerun == Rerunning(target, order, n, false, s.run.version)
  {
    RerunDeletesRun(Step(Step(s, RerunBegin(target, order)), CancelClear), n);
  }

  /**
   An edge back from a later name: delete up to it, let the target succeed and everything be
   rebuilt, then delete it. What depends on it stays.
   */
  lemma BackEdgeBreaks(s: State, target: string, order: seq<string>, i: nat, j: nat) returns (actions: seq<Action>)
    requires Rerunnable(s) && !Terminal(s.run.phase) && !Armed(s)
    requires target in s.taskRuns && DownstreamOrder(s.run.tasks, target, order)
    requires i < j < |order| && Edge(s.run.tasks, order[j], order[i])
    ensures var begun := Step(s, RerunBegin(target, order));
      RerunFree(actions) && AllSteady(begun, actions) && !Sound(Run(begun, actions))
  {
    hide Step, Run, AllSteady, Sound, Rerunnable, DownstreamOrder, Quiet, Edge, NoDuplicates, TopologicalOrder, Settled;
    var begun := Step(s, RerunBegin(target, order));
    OneSteadyStep(begun, CancelClear);
    var cleared := Step(begun, CancelClear);
    HalfRerun(s, target, order, j);
    DeletesAreSteady(cleared, j);
    var half := Run(cleared, RerunDeletes(j));
    var topological :| TopologicalOrder(s.run.tasks, topological);
    var rebuild := CanSettleAndComplete(half, topological);
    var rebuilt := Run(half, rebuild);
    RunKeepsTasks(half, rebuild);
    RunAppend(begun, [CancelClear], RerunDeletes(j));
    RunAppend(begun, [CancelClear] + RerunDeletes(j), rebuild);
    OneSteadyStep(rebuilt, RerunDelete);
    RunAppend(begun, ([CancelClear] + RerunDeletes(j)) + rebuild, [RerunDelete]);
    actions := (([CancelClear] + RerunDeletes(j)) + rebuild) + [RerunDelete];
    EdgeTargetIsDeclared(s.run.tasks, order[j], order[i]);
    LastDeleteBreaks(rebuilt, i);
  }

  lemma OneSteadyStep(s: State, a: Action)
    requires Steady(s, a)
    ensures Run(s, [a]) == Step(s, a) && AllSteady(s, [a])
  {
    var one := [a];
    assert one[..0] == [] && one[0] == a;
    assert Run(s, one[..0]) == s && AllSteady(s, one[..0]);
  }

  lemma LastDeleteBreaks(s: State, i: nat)
    requires s.rerun.Rerunning? && i < s.rerun.next < |s.rerun.order| && NoDuplicates(s.rerun.order)
    requires s.run.cancel.None? && s.run.phase != Cancelled
    requires Edge(s.run.tasks, s.rerun.order[s.rerun.next], s.rerun.order[i]) && s.rerun.order[i] in s.taskRuns
    ensures !Sound(Step(s, RerunDelete))
  {
    var order, next := s.rerun.order, s.rerun.next;
    RerunDeleteEffect(s);
    var s' := Step(s, RerunDelete);
    assert Prerequisite(s'.run.tasks, false, order[next], order[i]);
    assert order[i] in s'.taskRuns && order[next] !in s'.taskRuns;
    assert order[i] !in order[next + 1..];
  }

  /**
   A rerun keeps every TaskRun's dependencies in place, whatever runs in between, if and only
   if its delete order respects all edges, so that no task is deleted before one it depends
   on, or the run is finished or cancelled when it begins, so that nothing is created. In
   between, no Succeeded task regresses and no other rerun begins.
   */
  lemma RerunIsSoundIff(s: State, target: string, order: seq<string>)
    requires Rerunnable(s) && target in s.taskRuns && DownstreamOrder(s.run.tasks, target, order)
    ensures var begun := Step(s, RerunBegin(target, order));
      Topological(s.run.tasks, order) || Terminal(s.run.phase) || Armed(s) <==>
        forall actions :: RerunFree(actions) && AllSteady(begun, actions) ==> Sound(Run(begun, actions))
  {
    hide Step, Run, AllSteady, Sound, Rerunnable, DownstreamOrder, Armed;
    var begun := Step(s, RerunBegin(target, order));
    if Topological(s.run.tasks, order) || Terminal(s.run.phase) || Armed(s) {
      forall actions | RerunFree(actions) && AllSteady(begun, actions) ensures Sound(Run(begun, actions)) {
        HarmlessRerunIsSafe(s, target, order, actions);
      }
    } else {
      var i, j :| 0 <= i <= j < |order| && Edge(s.run.tasks, order[j], order[i]);
      NoSelfEdge(s, order, i, j);
      var actions := BackEdgeBreaks(s, target, order, i, j);
    }
  }

  lemma NoSelfEdge(s: State, order: seq<string>, i: nat, j: nat)
    requires Rerunnable(s) && i <= j < |order| && Edge(s.run.tasks, order[j], order[i])
    ensures i != j
  {
    DependenciesAreDeclared(s.run.tasks, order[j], order[i]);
  }
}
