/** What a reconcile of a run creates and reports, said from the tasks and TaskRuns it finds. */
module Reports {
  import opened Wrappers
  import opened PipelineTypes
  import opened Scheduler
  import opened PipelineSystem
  import opened PipelineSafety
  import opened CreationOrder
  import Failures

  predicate HasSucceeded(existing: TaskRuns, n: string) {
    n in existing && existing[n].phase == TaskPhase.Succeeded
  }

  /**
   What the next reconcile would start: the task does not exist; everything it depends on has
   succeeded; and if it is a Serial task of a stage, so has every Serial task of that stage
   that is declared before it.
   */
  ghost predicate Ready(run: PipelineRun, existing: TaskRuns, t: TaskSpec) {
    && t in run.tasks && t.name !in existing
    && (forall d | d in t.dependsOn :: HasSucceeded(existing, d))
    && forall i, j | 0 <= i < j < |run.tasks| && run.tasks[j] == t && t.stage != "" && t.executionMode == "Serial" ::
         run.tasks[i].stage == t.stage && run.tasks[i].executionMode == "Serial" ==>
           HasSucceeded(existing, run.tasks[i].name)
  }

  predicate SomeApprovalIsPending(run: PipelineRun, existing: TaskRuns) {
    exists t | t in run.tasks :: Failures.ApprovalIsPending(t, existing)
  }

  predicate SomeTaskHasFailed(existing: TaskRuns) {
    exists n | n in existing :: existing[n].phase == TaskPhase.Failed
  }

  /** Nobody is at work on the run, and it has not ended. */
  predicate Open(s: State) {
    s.teardown == Idle && s.run.cancel.None? && s.run.phase in {NotStarted, Waiting, Active, WaitingApproval}
  }

  /** The tasks come in the order in which they are declared. */
  predicate InDeclarationOrder(tasks: seq<TaskSpec>, batch: seq<TaskSpec>) {
    forall i, j | 0 <= i < j < |batch| :: OrderIndex(tasks, batch[i].name) < OrderIndex(tasks, batch[j].name)
  }

  lemma {:induction false} RunnableInOrder(tasks: seq<TaskSpec>, n: nat, existing: TaskRuns)
    requires UniqueNames(tasks) && n <= |tasks|
    ensures InDeclarationOrder(tasks, Runnable(tasks[..n], tasks, existing))
    ensures forall t | t in Runnable(tasks[..n], tasks, existing) :: OrderIndex(tasks, t.name) < n
  {
    if n > 0 {
      assert tasks[..n][..n - 1] == tasks[..n - 1];
      RunnableInOrder(tasks, n - 1, existing);
      OrderIndexIsPosition(tasks, n - 1);
      hide OrderIndex, CanStart, UniqueNames;
      assert Runnable(tasks[..n], tasks, existing) == Runnable(tasks[..n - 1], tasks, existing)
        + if CanStart(tasks[n - 1], tasks, existing) then [tasks[n - 1]] else [];
    }
  }

  /** While no approval is pending and nothing has failed the batch is what is ready, in declaration order. */
  lemma BatchIsWhatIsReady(run: PipelineRun, existing: TaskRuns)
    requires UniqueNames(run.tasks)
    ensures var batch := Batch(run, existing);
      && InDeclarationOrder(run.tasks, batch) && |batch| <= |run.tasks|
      && (if SomeApprovalIsPending(run, existing) || SomeTaskHasFailed(existing) then batch == []
          else forall t :: t in batch <==> Ready(run, existing, t))
  {
    assert run.tasks[..|run.tasks|] == run.tasks;
    RunnableInOrder(run.tasks, |run.tasks|, existing);
    RunnableIsExact(run.tasks, run.tasks, existing);
    assert forall t :: Failures.ApprovalIsPending(t, existing) <==> AwaitsApproval(t, existing);
    hide Runnable, CanStart, OrderIndex, FindPendingApproval;
    forall t | t in run.tasks ensures CanStart(t, run.tasks, existing) <==> Ready(run, existing, t) {
      CanStartIsReadyTask(run, existing, t);
    }
    hide Ready;
    assert forall t :: Ready(run, existing, t) ==> t in run.tasks by {
      forall t | Ready(run, existing, t) ensures t in run.tasks {
        ReadyIsDeclared(run, existing, t);
      }
    }
  }

  /**
   A reconcile of an open run creates the ready tasks in declaration order, up to the API call
   that fails; nothing while an approval is pending or after a failure. Each TaskRun is what
   its task says, without a retry policy. The status is written only by a reconcile that
   is not cut.
   */
  lemma ReconcileCreates(s: State, cut: nat) returns (batch: seq<TaskSpec>)
    requires UniqueNames(s.run.tasks) && Open(s)
    ensures InDeclarationOrder(s.run.tasks, batch)
    ensures if SomeApprovalIsPending(s.run, s.taskRuns) || SomeTaskHasFailed(s.taskRuns) then batch == []
            else forall t :: t in batch <==> Ready(s.run, s.taskRuns, t)
    ensures var s', creates := Step(s, ReconcileRun(cut)), batch[..if cut < |batch| then cut else |batch|];
      && s'.created == s.created + TaskNames(creates)
      && s'.taskRuns.Keys == s.taskRuns.Keys + Names(creates)
      && (forall n | n in s.taskRuns :: s'.taskRuns[n] == s.taskRuns[n])
      && (forall t | t in creates :: t.name in s'.taskRuns && IsNew(s'.taskRuns[t.name], t))
      && (cut <= |batch| ==> s'.run == s.run)
  {
    hide Step, Runnable, CanStart, UniqueNames, InDeclarationOrder, Ready;
    hide CreateAll, Names, TaskNames, IsNew, BatchIsReady;
    batch := Batch(s.run, s.taskRuns);
    BatchIsWhatIsReady(s.run, s.taskRuns);
    hide Batch;
    var creates := batch[..if cut < |batch| then cut else |batch|];
    OpenStep(s, cut);
    BatchWaitsForNothing(s.run, s.taskRuns, creates);
    CreateAllAdds(s.taskRuns, creates);
    var after := CreateAll(s.taskRuns, creates);
    forall t | t in creates ensures t.name in after && IsNew(after[t.name], t) {
      var i :| 0 <= i < |creates| && creates[i] == t;
      NewAsDeclared(s, creates, i);
    }
  }

  /** A run that has succeeded, failed or been cancelled, or that a cancel is requested on, is left alone. */
  lemma EndedRunIsLeftAlone(s: State, cut: nat)
    requires s.run.phase in {Complete, Broken, Cancelled} || s.run.cancel.Some?
    ensures Step(s, ReconcileRun(cut)) == s
  {
  }

  /** The step of an open run. */
  lemma OpenStep(s: State, cut: nat)
    requires Open(s)
    ensures var batch, s' := Batch(s.run, s.taskRuns), Step(s, ReconcileRun(cut));
      var creates := batch[..if cut < |batch| then cut else |batch|];
      && s'.taskRuns == CreateAll(s.taskRuns, creates) && s'.created == s.created + TaskNames(creates)
      && s'.run == if cut > |batch| then Write(s.run, Scheduled(s.run, s.taskRuns)) else s.run
  {
  }

  predicate IsNew(tr: TaskRun, t: TaskSpec) {
    && tr.taskName == t.name && tr.kind == t.kind && tr.canary == t.canary
    && tr.requiredApprovals == t.requiredApprovals && tr.maxRetries == None
    && tr.phase == TaskPhase.Unset && !tr.jobRef && !tr.rolloutRef && tr.retryCount == 0
    && tr.message == "" && tr.approval == None
  }

  lemma NewAsDeclared(s: State, creates: seq<TaskSpec>, i: nat)
    requires BatchIsReady(s.run.tasks, s.taskRuns, creates) && i < |creates|
    ensures var after := CreateAll(s.taskRuns, creates);
      creates[i].name in after && IsNew(after[creates[i].name], creates[i])
  {
    CreateAllAdds(s.taskRuns, creates);
    var after, n := CreateAll(s.taskRuns, creates), creates[i].name;
    assert creates[i] in creates && n in Names(creates);
    var u :| u in creates && u.name == n && after[n] == BuildTaskRun(u);
    var j :| 0 <= j < |creates| && creates[j] == u;
    assert i == j;
  }

  /** The row says what the TaskRun says, under the name it has on the cluster; a missing one is Pending. */
  predicate ReportsOn(row: Summary, run: string, t: TaskSpec, existing: TaskRuns) {
    && row.name == t.name
    && (if t.name in existing
        then var tr := existing[t.name];
          && row.taskRunRef == run + "-" + t.name && row.phase == tr.phase
          && row.retryCount == tr.retryCount && row.message == tr.message
        else row.taskRunRef == "" && row.phase == TaskPhase.Pending && row.retryCount == 0 && row.message == "")
  }

  /** What the run waits for: the approval of the first task that is Pending with one, and none otherwise. */
  ghost predicate IsCurrentApproval(run: PipelineRun, existing: TaskRuns, approval: Option<ApprovalStatus>) {
    match approval
    case None => !SomeApprovalIsPending(run, existing)
    case Some(a) =>
      exists i | 0 <= i < |run.tasks| ::
        && Failures.ApprovalIsPending(run.tasks[i], existing) && existing[run.tasks[i].name].approval == Some(a)
        && forall j | 0 <= j < i :: !Failures.ApprovalIsPending(run.tasks[j], existing)
  }

  lemma CurrentApprovalIsFirst(run: PipelineRun, existing: TaskRuns)
    ensures IsCurrentApproval(run, existing, FindPendingApproval(run.tasks, existing))
  {
    PendingApprovalIsFirst(run.tasks, existing);
    assert forall t :: Failures.ApprovalIsPending(t, existing) <==> AwaitsApproval(t, existing);
    hide FindPendingApproval, AwaitsApproval, Failures.ApprovalIsPending;
  }

  lemma ReadyIsRunnable(run: PipelineRun, existing: TaskRuns)
    requires UniqueNames(run.tasks)
    ensures (exists t :: Ready(run, existing, t)) <==> Runnable(run.tasks, run.tasks, existing) != []
  {
    var ready := Runnable(run.tasks, run.tasks, existing);
    RunnableIsExact(run.tasks, run.tasks, existing);
    hide Runnable, CanStart, Ready;
    forall t | t in run.tasks ensures CanStart(t, run.tasks, existing) <==> Ready(run, existing, t) {
      CanStartIsReadyTask(run, existing, t);
    }
    if ready != [] {
      assert ready[0] in ready;
    }
    if t :| Ready(run, existing, t) {
      assert t in run.tasks by {
        ReadyIsDeclared(run, existing, t);
      }
    }
  }

  lemma CanStartIsReadyTask(run: PipelineRun, existing: TaskRuns, t: TaskSpec)
    requires UniqueNames(run.tasks) && t in run.tasks
    ensures CanStart(t, run.tasks, existing) <==> Ready(run, existing, t)
  {
    var j :| 0 <= j < |run.tasks| && run.tasks[j] == t;
    assert forall d :: HasSucceeded(existing, d) <==> Done(existing, d);
    SerialIsRespected(run, existing, j);
    hide SerialBlocked, UniqueNames;
    assert forall k | 0 <= k < |run.tasks| && run.tasks[k] == t :: k == j by {
      OnlyPosition(run.tasks, j);
    }
  }

  lemma OnlyPosition(tasks: seq<TaskSpec>, j: nat)
    requires UniqueNames(tasks) && j < |tasks|
    ensures forall k | 0 <= k < |tasks| && tasks[k] == tasks[j] :: k == j
  {
  }

  lemma SerialIsRespected(run: PipelineRun, existing: TaskRuns, j: nat)
    requires UniqueNames(run.tasks) && j < |run.tasks|
    ensures var t := run.tasks[j];
      !SerialBlocked(t, run.tasks, existing) <==>
        (t.stage != "" && t.executionMode == "Serial" ==>
          forall i | 0 <= i < j :: run.tasks[i].stage == t.stage && run.tasks[i].executionMode == "Serial" ==>
            HasSucceeded(existing, run.tasks[i].name))
  {
    forall i | 0 <= i < |run.tasks| ensures OrderIndex(run.tasks, run.tasks[i].name) == i {
      OrderIndexIsPosition(run.tasks, i);
    }
    hide OrderIndex, UniqueNames;
  }

  lemma ReadyIsDeclared(run: PipelineRun, existing: TaskRuns, t: TaskSpec)
    requires Ready(run, existing, t)
    ensures t in run.tasks
  {
  }

  lemma PendingIsFound(run: PipelineRun, existing: TaskRuns)
    ensures SomeApprovalIsPending(run, existing) <==> FindPendingApproval(run.tasks, existing).Some?
  {
    assert forall t :: Failures.ApprovalIsPending(t, existing) <==> AwaitsApproval(t, existing);
  }

  lemma ScheduledPhase(run: PipelineRun, existing: TaskRuns)
    requires UniqueNames(run.tasks)
    ensures Scheduled(run, existing).phase ==
      if SomeApprovalIsPending(run, existing) then WaitingApproval
      else if SomeTaskHasFailed(existing) then Broken
      else if exists t :: Ready(run, existing, t) then Active
      else if forall t | t in run.tasks :: HasSucceeded(existing, t.name) then Complete
      else if run.phase == NotStarted then Waiting else run.phase
  {
    ReadyIsRunnable(run, existing);
    PendingIsFound(run, existing);
    hide Runnable, Ready, SomeApprovalIsPending, FindPendingApproval, Summaries, UniqueNames;
  }

  /**
   An uncut reconcile of an open run reports: one row per task, in order; the approval it waits
   for; and as phase WaitingApproval with one pending, else Broken after any failure, else
   Active when something is ready, else Complete when all have succeeded, else the phase it had.
   */
  lemma ReconcileReports(s: State, cut: nat)
    requires UniqueNames(s.run.tasks) && Open(s) && cut > |s.run.tasks|
    ensures var run := Step(s, ReconcileRun(cut)).run;
      && run.name == s.run.name && run.tasks == s.run.tasks && run.cancel == None && run.message == s.run.message
      && |run.summaries| == |s.run.tasks|
      && (forall i | 0 <= i < |s.run.tasks| :: ReportsOn(run.summaries[i], s.run.name, s.run.tasks[i], s.taskRuns))
      && IsCurrentApproval(s.run, s.taskRuns, run.currentApproval)
      && run.phase ==
          if SomeApprovalIsPending(s.run, s.taskRuns) then WaitingApproval
          else if SomeTaskHasFailed(s.taskRuns) then Broken
          else if exists t :: Ready(s.run, s.taskRuns, t) then Active
          else if forall t | t in s.run.tasks :: HasSucceeded(s.taskRuns, t.name) then Complete
          else if s.run.phase == NotStarted then Waiting else s.run.phase
  {
    hide Step, Write, Scheduled, Batch, Ready, ReportsOn, IsCurrentApproval;
    hide UniqueNames, HasSucceeded, CreateAll, TaskNames;
    OpenStep(s, cut);
    BatchIsWhatIsReady(s.run, s.taskRuns);
    ScheduledPhase(s.run, s.taskRuns);
    CurrentApprovalIsFirst(s.run, s.taskRuns);
    ScheduledRows(s.run, s.taskRuns);
    hide SomeApprovalIsPending, SomeTaskHasFailed, FindPendingApproval;
    WriteIsNoticed(s.run, Scheduled(s.run, s.taskRuns));
  }

  lemma RowsReport(run: PipelineRun, existing: TaskRuns)
    ensures var rows := Summaries(run.name, run.tasks, existing);
      && |rows| == |run.tasks|
      && forall i | 0 <= i < |run.tasks| :: ReportsOn(rows[i], run.name, run.tasks[i], existing)
  {
  }

  lemma ScheduledRows(run: PipelineRun, existing: TaskRuns)
    ensures var after := Scheduled(run, existing);
      && after.name == run.name && after.tasks == run.tasks
      && after.cancel == run.cancel && after.message == run.message
      && after.currentApproval == FindPendingApproval(run.tasks, existing)
      && |after.summaries| == |run.tasks|
      && forall i | 0 <= i < |run.tasks| :: ReportsOn(after.summaries[i], run.name, run.tasks[i], existing)
  {
    hide Summaries, ReportsOn, Runnable, HasFailedTask, AllTasksSucceeded, FindPendingApproval;
    RowsReport(run, existing);
  }

  /** A write is seen by everybody who read the run before, unless it changes nothing: then it is none. */
  lemma WriteIsNoticed(stored: PipelineRun, changed: PipelineRun)
    ensures var after := Write(stored, changed);
      && after == changed.(version := after.version) && after.version >= stored.version
      && (after.version == stored.version <==> changed == stored.(version := changed.version))
  {
  }
}
