/**
 The pipeline controllers and handlers in their own, imperative form, working on the
 objects of one pipeline run. Each method is tied to the step system.
 */
module ClusterObject {
  import opened Wrappers
  import opened PipelineTypes
  import opened RolloutTypes
  import opened Scheduler
  import opened Downstream
  import opened PipelineSystem
  import opened PipelineTheorems
  import opened CancelPasses
  import opened TaskRunController

  class Cluster {
    var run: PipelineRun
    var taskRuns: TaskRuns
    ghost var created: seq<string>

    constructor (name: string, tasks: seq<TaskSpec>)
      ensures Fresh(View()) && run.name == name && run.tasks == tasks
    {
      run := PipelineRun(name, tasks, None, NotStarted, "", None, [], 0);
      taskRuns := map[];
      created := [];
    }

    ghost function View(): State
      reads this
    {
      State(run, taskRuns, created, Idle, NoRerun)
    }

    /** Writes the run's status back; nothing is stored when nothing changed. */
    method UpdateRun(changed: PipelineRun)
      modifies this`run
      ensures run == Write(old(run), changed)
    {
      if changed.(version := run.version) != run {
        run := changed.(version := run.version + 1);
      }
    }

    /**
     A reconcile of a run without cancel request: list, decide, create, write the status.
     The API call with number `cut` fails and ends it; a large cut lets it finish.
     */
    method ReconcileRun(cut: nat)
      requires run.cancel.None?
      modifies this
      ensures View() == Step(old(View()), Action.ReconcileRun(cut))
    {
      var pr := run;
      if Terminal(pr.phase) {
        return;
      }
      if pr.phase == NotStarted {
        pr := pr.(phase := Waiting);
      }
      var existing := taskRuns;
      var summaries := SummarizeTasks(pr.name, pr.tasks, existing);
      pr := pr.(summaries := summaries);
      var approval := FindPendingApproval(pr.tasks, existing);
      if approval.Some? {
        pr := pr.(phase := WaitingApproval, currentApproval := approval);
        if cut > 0 {
          UpdateRun(pr);
        }
        return;
      }
      pr := pr.(currentApproval := None);
      if HasFailedTask(existing) {
        pr := pr.(phase := Broken);
        if cut > 0 {
          UpdateRun(pr);
        }
        return;
      }
      var runnable := FindRunnableTasks(pr.tasks, existing);
      var failed := CreateTaskRuns(runnable, cut);
      if failed {
        return;
      }
      if |runnable| > 0 {
        pr := pr.(phase := Active);
      } else if AllTasksSucceeded(pr.tasks, existing) {
        pr := pr.(phase := Complete);
      }
      if cut > |runnable| {
        UpdateRun(pr);
      }
    }

    /** The creation loop; it stops at the call that fails. */
    method CreateTaskRuns(runnable: seq<TaskSpec>, cut: nat) returns (failed: bool)
      modifies this`taskRuns, this`created
      ensures failed <==> cut < |runnable|
      ensures var creates := runnable[..if cut < |runnable| then cut else |runnable|];
        taskRuns == CreateAll(old(taskRuns), creates) && created == old(created) + TaskNames(creates)
    {
      for i := 0 to |runnable|
        invariant i <= cut
        invariant taskRuns == CreateAll(old(taskRuns), runnable[..i])
        invariant created == old(created) + TaskNames(runnable[..i])
      {
        if i == cut {
          return true;
        }
        var t := runnable[i];
        assert runnable[..i + 1][..i] == runnable[..i];
        assert TaskNames(runnable[..i + 1]) == TaskNames(runnable[..i]) + [t.name];
        if t.name !in taskRuns {
          taskRuns := taskRuns[t.name := BuildTaskRun(t)];
        }
        created := created + [t.name];
      }
      failed := false;
    }

    /** The summary of a cancelled run: the usual one, with unfinished rows rewritten in place. */
    method CancelledTaskSummary(listed: TaskRuns, message: string) returns (summaries: seq<Summary>)
      ensures summaries == CancelledSummaries(run, listed, message)
    {
      summaries := SummarizeTasks(run.name, run.tasks, listed);
      for i := 0 to |summaries|
        invariant |summaries| == |run.tasks|
        invariant forall k | 0 <= k < i ::
          summaries[k] == CancelledRow(Summarize(run.name, run.tasks[k], listed), message)
        invariant forall k | i <= k < |summaries| :: summaries[k] == Summarize(run.name, run.tasks[k], listed)
      {
        var row := summaries[i];
        if TerminalTask(row.phase) {
          continue;
        }
        row := row.(message := message);
        if row.taskRunRef == "" {
          summaries := summaries[i := row.(phase := TaskPhase.Skipped)];
          continue;
        }
        summaries := summaries[i := row.(phase := TaskPhase.Failed)];
      }
    }

    /** The delete loop over the listed TaskRuns, in whatever order the listing has. */
    method DeleteTaskRuns(names: seq<string>, failAt: nat) returns (failed: bool)
      modifies this`taskRuns
      ensures failed <==> failAt < |names|
      ensures taskRuns == Without(old(taskRuns), names[..if failAt < |names| then failAt else |names|])
    {
      WithoutNone(taskRuns);
      assert names[..0] == [];
      for i := 0 to |names|
        invariant i <= failAt && taskRuns == Without(old(taskRuns), names[..i])
      {
        if i == failAt {
          return true;
        }
        WithoutOneMore(old(taskRuns), names, 0, i);
        assert names[0..i] == names[..i] && names[0..i + 1] == names[..i + 1];
        taskRuns := taskRuns - {names[i]};
      }
      assert names[..|names|] == names;
      failed := false;
    }

    /**
     A reconcile that finds a cancel request on an unfinished run, undisturbed but for its
     own failure at API call failAt, is that prefix of a teardown in the step system.
     */
    method ApplyCancel(names: seq<string>, failAt: nat) returns (err: bool)
      requires run.cancel.Some? && !Terminal(run.phase) && Lists(names, taskRuns)
      modifies this
      ensures err <==> failAt <= |names| + 1
      ensures View() == Run(old(View()), Pass(names, failAt))
    {
      hide Run, Step, Pass, Without;
      PassOutcome(View(), names, failAt);
      var operator, pr, listed := run.cancel.value, run, taskRuns;
      var message := "cancelled";
      if operator != "" {
        message := "cancelled by " + operator;
      }
      pr := pr.(phase := Cancelled, currentApproval := None, message := message);
      err := DeleteTaskRuns(names, failAt);
      if err {
        return;
      }
      assert names[..|names|] == names;
      var summaries := CancelledTaskSummary(listed, message);
      pr := pr.(summaries := summaries);
      if failAt == |names| {
        return true;
      }
      UpdateRun(pr);
      if failAt == |names| + 1 {
        return true;
      }
      UpdateRun(run.(cancel := None));
    }

    /** On a finished run a cancel request is only cleared. */
    method ClearCancel()
      requires run.cancel.Some? && Terminal(run.phase)
      modifies this
      ensures run == old(run).(cancel := None, version := old(run).version + 1)
      ensures taskRuns == old(taskRuns) && created == old(created)
    {
      UpdateRun(run.(cancel := None));
    }

    /** The cancel handler stamps the request; it never touches the status. */
    method HandleCancel(operator: string)
      modifies this`run
      ensures View() == if Terminal(old(run).phase) then old(View()) else Step(old(View()), StampCancel(operator))
    {
      if Terminal(run.phase) {
        return;
      }
      UpdateRun(run.(cancel := Some(operator)));
    }

    /** The TaskRun reconciler on one TaskRun. */
    method ReconcileTask(name: string, seen: Observation)
      modifies this`taskRuns
      ensures View() == Step(old(View()), Action.ReconcileTask(name, seen))
    {
      if name !in taskRuns {
        return;
      }
      var tr := taskRuns[name];
      assert taskRuns[name := tr] == taskRuns;
      if tr.kind == Approval {
        InitializeApproval(name);
      } else if tr.kind == Release && tr.canary {
        ReconcileDeploy(name, seen.rollout);
      } else {
        ReconcileJob(name, seen.job);
      }
    }

    /** An approval task waits for a decision; its approval status is initialised. */
    method InitializeApproval(name: string)
      requires name in taskRuns
      modifies this`taskRuns
      ensures taskRuns == old(taskRuns)[name := ReconcileApproval(old(taskRuns)[name])]
    {
      var tr := taskRuns[name];
      assert taskRuns[name := tr] == taskRuns;
      if tr.phase == TaskPhase.Unset {
        tr := tr.(phase := TaskPhase.Pending);
      }
      if tr.approval.None? {
        var required := 1;
        if tr.requiredApprovals.Some? {
          required := tr.requiredApprovals.value;
        }
        tr := tr.(approval := Some(ApprovalStatus(required, [], "")));
      }
      if tr.phase == TaskPhase.Pending {
        taskRuns := taskRuns[name := tr];
      }
    }

    /** Creates the Rollout, or mirrors its phase. */
    method ReconcileDeploy(name: string, rollout: Option<RolloutView>)
      requires name in taskRuns
      modifies this`taskRuns
      ensures taskRuns == old(taskRuns)[name := TaskRunController.ReconcileDeploy(old(taskRuns)[name], rollout)]
    {
      var tr := taskRuns[name];
      assert taskRuns[name := tr] == taskRuns;
      if !tr.rolloutRef {
        tr := tr.(phase := TaskPhase.Running);
        tr := tr.(rolloutRef := true);
        taskRuns := taskRuns[name := tr];
        return;
      }
      if rollout.None? {
        return;
      }
      var ro := rollout.value;
      if ro.phase == Healthy {
        tr := tr.(phase := TaskPhase.Succeeded);
      } else if ro.phase in {Degraded, RollingBack, RolloutPhase.Failed, RolledBack} {
        tr := tr.(phase := TaskPhase.Failed, message := ro.message);
      } else {
        tr := tr.(phase := TaskPhase.Running);
      }
      taskRuns := taskRuns[name := tr];
    }

    /** Creates the Job, or observes it: done, to be retried, or failed. */
    method ReconcileJob(name: string, seen: Option<JobStatus>)
      requires name in taskRuns
      modifies this`taskRuns
      ensures taskRuns == old(taskRuns)[name := TaskRunController.ReconcileJob(old(taskRuns)[name], seen)]
    {
      var tr := taskRuns[name];
      assert taskRuns[name := tr] == taskRuns;
      if tr.phase == TaskPhase.Succeeded || tr.phase == TaskPhase.Failed {
        return;
      }
      if !tr.jobRef {
        tr := tr.(phase := TaskPhase.Running);
        tr := tr.(jobRef := true);
        taskRuns := taskRuns[name := tr];
        return;
      }
      if seen.None? {
        return;
      }
      var job := seen.value;
      if job.succeeded > 0 {
        tr := tr.(phase := TaskPhase.Succeeded);
      } else if job.failed > 0 {
        var maxRetries := 0;
        if tr.maxRetries.Some? {
          maxRetries := tr.maxRetries.value;
        }
        if tr.retryCount < maxRetries {
          tr := tr.(retryCount := tr.retryCount + 1);
          tr := tr.(jobRef := false);
        } else {
          tr := tr.(phase := TaskPhase.Failed);
        }
      }
      taskRuns := taskRuns[name := tr];
    }

    /** The approve handler on one TaskRun. */
    method HandleDecision(name: string, approver: string, rejected: bool)
      modifies this`taskRuns
      ensures View() == Step(old(View()), Decide(name, approver, rejected))
    {
      if name !in taskRuns {
        return;
      }
      var tr := taskRuns[name];
      assert taskRuns[name := tr] == taskRuns;
      var approval := if tr.approval.Some? then tr.approval.value else ApprovalStatus(RequiredCount(tr), [], "");
      if rejected {
        approval := approval.(rejectedBy := approver);
        tr := tr.(phase := TaskPhase.Failed, message := "rejected by " + approver);
      } else {
        for i := 0 to |approval.approvedBy|
          invariant approver !in approval.approvedBy[..i]
        {
          if approval.approvedBy[i] == approver {
            return;
          }
        }
        approval := approval.(approvedBy := approval.approvedBy + [approver]);
        if |approval.approvedBy| >= approval.requiredCount {
          tr := tr.(phase := TaskPhase.Succeeded, message := "approved");
        }
      }
      tr := tr.(approval := Some(approval));
      taskRuns := taskRuns[name := tr];
    }

    /** The rerun handler, undisturbed: it walks the DAG, resets, deletes, revives. */
    method HandleRerun(target: string) returns (order: seq<string>)
      modifies this
      ensures target !in old(taskRuns) ==> View() == old(View())
      ensures target in old(taskRuns) ==>
        && DownstreamOrder(old(run).tasks, target, order)
        && View() == Run(old(View()), WholeRerun(target, order))
    {
      order := [];
      if target !in taskRuns {
        return;
      }
      ghost var start := View();
      var pr := run;
      var tr := taskRuns[target];
      tr := tr.(phase := TaskPhase.Pending);
      tr := tr.(jobRef := false, rolloutRef := false, retryCount := 0);
      tr := tr.(message := "rerun requested", approval := None);
      taskRuns := taskRuns[target := tr];
      order := DownstreamTasks(pr.tasks, target);
      var failed := DeleteTaskRuns(order, |order|);
      assert order[..|order|] == order;
      if pr.phase == Broken {
        UpdateRun(pr.(phase := Active, message := "rerun requested"));
      }
      UndisturbedRerun(start, target, order);
    }
  }
}
