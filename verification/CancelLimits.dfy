/** How a cancel request on an unfinished run can get lost: a rerun revives the run while a stale request is cleared. */
module CancelLimits {
  import opened Wrappers
  import opened PipelineTypes
  import opened Scheduler
  import opened Downstream
  import opened PipelineSystem
  import opened PipelineTheorems
  import TaskRunController
  import RerunLimits
  import Failures

  /** u depends on t; t has failed, and so has the run, on which a cancel request arrived too late. */
  ghost predicate FailedWithStaleRequest(s: State, t: TaskSpec, u: TaskSpec) {
    && s.run.tasks == [t, u] && t.name != u.name && t.kind == Build && u.kind == Build && u.stage == ""
    && t.dependsOn == [] && u.dependsOn == [t.name]
    && s.taskRuns == map[t.name := BuildTaskRun(t).(phase := TaskPhase.Failed, jobRef := true)]
    && s.run.phase == Broken && s.run.cancel == Some("early") && s.teardown == Idle && s.rerun == NoRerun
  }

  lemma OnlySecondIsDownstream(s: State, t: TaskSpec, u: TaskSpec)
    requires FailedWithStaleRequest(s, t, u)
    ensures DownstreamOrder(s.run.tasks, t.name, [u.name])
  {
    forall d, n ensures Edge(s.run.tasks, d, n) <==> d == t.name && n == u.name {
      assert s.run.tasks[1] == u && u.dependsOn[0] == t.name;
    }
    assert Edge(s.run.tasks, t.name, u.name);
    assert HasParent(s.run.tasks, t.name, [u.name][..0], u.name);
  }

  /** The clear begins on the failed run; then the rerun's last write revives it. */
  lemma RevivedDuringClear(s: State)
    requires s.run.phase == Broken && s.run.cancel.Some? && s.teardown == Idle
    requires s.rerun.Rerunning? && s.rerun.next == |s.rerun.order|
    requires s.rerun.failedRun && s.rerun.version == s.run.version
    ensures Step(Step(s, CancelBegin([])), RerunRevive) == s.(
      run := s.run.(phase := Active, message := "rerun requested", version := s.run.version + 1),
      teardown := Clearing, rerun := NoRerun)
  {
    assert Step(s, CancelBegin([])) == s.(teardown := Clearing);
  }

  lemma ClearTakesAnyRequest(s: State, operator: string)
    requires s.teardown == Clearing
    ensures var requested := Step(s, StampCancel(operator));
      var cleared := Step(requested, CancelClear);
      && requested.run.cancel == Some(operator) && requested == s.(run := requested.run)
      && requested.run.phase == s.run.phase && cleared.run.phase == s.run.phase && cleared.run.tasks == s.run.tasks
      && cleared == s.(run := cleared.run, teardown := Idle) && cleared.run.cancel.None?
  {
  }

  /** The state in which the second request has been stamped and then cleared. */
  lemma SecondRequestIsCleared(s: State, t: TaskSpec, u: TaskSpec)
    requires FailedWithStaleRequest(s, t, u)
    ensures var deleted := Step(Step(s, RerunBegin(t.name, [u.name])), RerunDelete);
      var revived := Step(Step(deleted, CancelBegin([])), RerunRevive);
      var requested := Step(revived, StampCancel("operator"));
      var cleared := Step(requested, CancelClear);
      && requested.run.phase == Active && requested.run.cancel == Some("operator")
      && requested.taskRuns.Keys == {t.name}
      && cleared.run.phase == Active && cleared.run.cancel.None? && cleared.teardown == Idle
      && cleared.run.tasks == s.run.tasks && cleared.taskRuns.Keys == {t.name}
      && cleared.taskRuns[t.name].phase == TaskPhase.Pending && !cleared.taskRuns[t.name].jobRef
      && cleared.taskRuns[t.name].kind == Build
  {
    OnlySecondIsDownstream(s, t, u);
    hide Step, DownstreamOrder;
    RerunBeginEffect(s, t.name, [u.name]);
    var begun := Step(s, RerunBegin(t.name, [u.name]));
    RerunDeleteEffect(begun);
    var deleted := Step(begun, RerunDelete);
    assert deleted.taskRuns == map[t.name := TaskRunController.Reset(s.taskRuns[t.name])];
    RevivedDuringClear(deleted);
    ClearTakesAnyRequest(Step(Step(deleted, CancelBegin([])), RerunRevive), "operator");
  }

  /**
   A rerun of the failed task; while a reconcile clears the stale request, the rerun revives
   the run and an operator asks for a cancel again. The clear removes the new request: the
   run is going and uncancelled, and creates the next task.
   */
  lemma RequestIsLost(s: State, t: TaskSpec, u: TaskSpec)
    requires FailedWithStaleRequest(s, t, u)
    ensures var deleted := Step(Step(s, RerunBegin(t.name, [u.name])), RerunDelete);
      var revived := Step(Step(deleted, CancelBegin([])), RerunRevive);
      var requested := Step(revived, StampCancel("operator"));
      var cleared := Step(requested, CancelClear);
      var done := Step(Step(cleared, ReconcileTask(t.name, RerunLimits.NOTHING)),
                       ReconcileTask(t.name, RerunLimits.JOB_DONE));
      var end := Step(done, ReconcileRun(3));
      && requested.run.phase == Active && requested.run.cancel == Some("operator") && u.name !in requested.taskRuns
      && end.run.phase == Active && end.run.cancel.None? && u.name in end.taskRuns
  {
    SecondRequestIsCleared(s, t, u);
    hide Step;
    var deleted := Step(Step(s, RerunBegin(t.name, [u.name])), RerunDelete);
    var revived := Step(Step(deleted, CancelBegin([])), RerunRevive);
    var cleared := Step(Step(revived, StampCancel("operator")), CancelClear);
    RerunLimits.JobRunsAgain(cleared, t.name);
    var done := Step(Step(cleared, ReconcileTask(t.name, RerunLimits.NOTHING)),
                     ReconcileTask(t.name, RerunLimits.JOB_DONE));
    Failures.OnlySecondIsReady(done, t, u);
  }
}
