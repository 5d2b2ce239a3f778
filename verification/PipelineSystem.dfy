/**
 A pipeline run as a step system: the PipelineRun reconciler, its cancel teardown
 (internal/controller/pipelinerun_cancel.go), the TaskRun reconciler, approval
 decisions, and the rerun handler (internal/dispatch/rerun_handler.go), interleaved.

 The teardown and the rerun are cut where the code can be interrupted or overtaken:
 after every delete, the status write and the annotation clear. A status write
 carries the resource version that was read and fails when the object has changed.
 */
module PipelineSystem {
  import opened Wrappers
  import opened PipelineTypes
  import opened Scheduler
  import opened Downstream
  import TaskRunController
  import Approvals

  /** The local variables of a cancel pass: the TaskRuns it listed and those not deleted yet. */
  datatype CancelPass =
    | Idle
    | Deleting(listed: TaskRuns, remaining: seq<string>, operator: string, version: nat)
    | Clearing

  /** The local variables of a rerun; failedRun and version come from the copy of the run it read. */
  datatype RerunPass =
    | NoRerun
    | Rerunning(target: string, order: seq<string>, next: nat, failedRun: bool, version: nat)

  /** created lists the names of the TaskRuns that were ever created, in order. */
  datatype State = State(
    run: PipelineRun,
    taskRuns: TaskRuns,
    created: seq<string>,
    teardown: CancelPass,
    rerun: RerunPass)

  datatype Action =
    | ReconcileRun(cut: nat)
    | ReconcileTask(name: string, seen: TaskRunController.Observation)
    | Decide(name: string, approver: string, rejected: bool)
    | StampCancel(operator: string)
    | CancelBegin(names: seq<string>)
    | CancelDelete
    | CancelPersist
    | CancelClear
    | CancelCrash
    | RerunBegin(target: string, order: seq<string>)
    | RerunDelete
    | RerunRevive
    | RerunAbort

  /** A write bumps the resource version unless it changes nothing. */
  function Write(stored: PipelineRun, changed: PipelineRun): PipelineRun {
    if changed.(version := stored.version) == stored then stored else changed.(version := stored.version + 1)
  }

  // --- Scheduling ---

  /** The tasks a reconcile creates: none while an approval is pending or after a failure. */
  function Batch(run: PipelineRun, existing: TaskRuns): seq<TaskSpec> {
    if FindPendingApproval(run.tasks, existing).Some? || HasFailedTask(existing) then []
    else Runnable(run.tasks, run.tasks, existing)
  }

  /** The status a reconcile computes. */
  function Scheduled(run: PipelineRun, existing: TaskRuns): PipelineRun {
    var started := run.(
      phase := if run.phase == NotStarted then Waiting else run.phase,
      summaries := Summaries(run.name, run.tasks, existing));
    var approval := FindPendingApproval(run.tasks, existing);
    if approval.Some? then started.(phase := WaitingApproval, currentApproval := approval)
    else
      var ungated := started.(currentApproval := None);
      if HasFailedTask(existing) then ungated.(phase := Broken)
      else if Runnable(run.tasks, run.tasks, existing) != [] then ungated.(phase := Active)
      else if AllTasksSucceeded(run.tasks, existing) then ungated.(phase := Complete)
      else ungated
  }

  function TaskNames(tasks: seq<TaskSpec>): seq<string> {
    seq(|tasks|, i requires 0 <= i < |tasks| => tasks[i].name)
  }

  /**
   One reconcile of a run nobody cancels. It may be cut short: the first `cut` tasks of
   the batch are created, and the status is written only when cut is beyond the batch.
   */
  function ReconcileRunStep(s: State, cut: nat): State {
    if s.teardown != Idle || s.run.cancel.Some? || Terminal(s.run.phase) then s
    else
      var batch := Batch(s.run, s.taskRuns);
      var creates := batch[..if cut < |batch| then cut else |batch|];
      s.(taskRuns := CreateAll(s.taskRuns, creates),
         created := s.created + TaskNames(creates),
         run := if cut > |batch| then Write(s.run, Scheduled(s.run, s.taskRuns)) else s.run)
  }

  // --- Cancel ---

  function CancelMessage(operator: string): string {
    if operator != "" then "cancelled by " + operator else "cancelled"
  }

  predicate TerminalTask(phase: TaskPhase) {
    phase in {TaskPhase.Succeeded, TaskPhase.Failed, TaskPhase.Skipped}
  }

  /** An unfinished row becomes Skipped when it never had a TaskRun, Failed otherwise. */
  function CancelledRow(row: Summary, message: string): Summary {
    if TerminalTask(row.phase) then row
    else if row.taskRunRef == "" then row.(phase := TaskPhase.Skipped, message := message)
    else row.(phase := TaskPhase.Failed, message := message)
  }

  function CancelledSummaries(run: PipelineRun, listed: TaskRuns, message: string): seq<Summary> {
    seq(|run.tasks|, i requires 0 <= i < |run.tasks| =>
      CancelledRow(Summarize(run.name, run.tasks[i], listed), message))
  }

  function CancelledRun(run: PipelineRun, listed: TaskRuns, operator: string): PipelineRun {
    run.(phase := Cancelled, currentApproval := None, message := CancelMessage(operator),
         summaries := CancelledSummaries(run, listed, CancelMessage(operator)))
  }

  ghost predicate Lists(names: seq<string>, existing: TaskRuns) {
    NoDuplicates(names) && (forall n :: n in names <==> n in existing)
  }

  /** A reconcile that finds the annotation: a finished run only gets it cleared. */
  ghost function CancelBeginStep(s: State, names: seq<string>): State {
    if s.teardown != Idle || s.run.cancel.None? then s
    else if Terminal(s.run.phase) then s.(teardown := Clearing)
    else if Lists(names, s.taskRuns)
    then s.(teardown := Deleting(s.taskRuns, names, s.run.cancel.value, s.run.version))
    else s
  }

  function CancelDeleteStep(s: State): State {
    if s.teardown.Deleting? && s.teardown.remaining != []
    then s.(taskRuns := s.taskRuns - {s.teardown.remaining[0]},
            teardown := s.teardown.(remaining := s.teardown.remaining[1..]))
    else s
  }

  function CancelPersistStep(s: State): State {
    if !s.teardown.Deleting? || s.teardown.remaining != [] then s
    else if s.run.version != s.teardown.version then s.(teardown := Idle)
    else s.(run := Write(s.run, CancelledRun(s.run, s.teardown.listed, s.teardown.operator)), teardown := Clearing)
  }

  function CancelClearStep(s: State): State {
    if s.teardown != Clearing then s
    else s.(run := Write(s.run, s.run.(cancel := None)), teardown := Idle)
  }

  // --- Rerun ---

  ghost function RerunBeginStep(s: State, target: string, order: seq<string>): State {
    if s.rerun != NoRerun || target !in s.taskRuns || !DownstreamOrder(s.run.tasks, target, order) then s
    else s.(taskRuns := s.taskRuns[target := TaskRunController.Reset(s.taskRuns[target])],
            rerun := Rerunning(target, order, 0, s.run.phase == Broken, s.run.version))
  }

  function RerunDeleteStep(s: State): State {
    if s.rerun.Rerunning? && s.rerun.next < |s.rerun.order|
    then s.(taskRuns := s.taskRuns - {s.rerun.order[s.rerun.next]}, rerun := s.rerun.(next := s.rerun.next + 1))
    else s
  }

  /** Only a run that was Failed when the rerun read it is revived. */
  function RerunReviveStep(s: State): State {
    if !s.rerun.Rerunning? || s.rerun.next < |s.rerun.order| then s
    else if s.rerun.failedRun && s.rerun.version == s.run.version
    then s.(run := Write(s.run, s.run.(phase := Active, message := "rerun requested")), rerun := NoRerun)
    else s.(rerun := NoRerun)
  }

  // --- The system ---

  ghost function Step(s: State, a: Action): State {
    match a
    case ReconcileRun(cut) => ReconcileRunStep(s, cut)
    case ReconcileTask(name, seen) =>
      if name in s.taskRuns
      then s.(taskRuns := s.taskRuns[name := TaskRunController.Reconcile(s.taskRuns[name], seen)]) else s
    case Decide(name, approver, rejected) =>
      if name in s.taskRuns
      then s.(taskRuns := s.taskRuns[name := Approvals.Decide(s.taskRuns[name], approver, rejected)]) else s
    case StampCancel(operator) => s.(run := Write(s.run, s.run.(cancel := Some(operator))))
    case CancelBegin(names) => CancelBeginStep(s, names)
    case CancelDelete => CancelDeleteStep(s)
    case CancelPersist => CancelPersistStep(s)
    case CancelClear => CancelClearStep(s)
    case CancelCrash => s.(teardown := Idle)
    case RerunBegin(target, order) => RerunBeginStep(s, target, order)
    case RerunDelete => RerunDeleteStep(s)
    case RerunRevive => RerunReviveStep(s)
    case RerunAbort => s.(rerun := NoRerun)
  }

  ghost function Run(s: State, actions: seq<Action>): State {
    if actions == [] then s else Step(Run(s, actions[..|actions| - 1]), actions[|actions| - 1])
  }

  /** A run just applied: no status, no TaskRuns, nobody working on it. */
  predicate Fresh(s: State) {
    && s.run.phase == NotStarted && s.run.cancel.None? && s.taskRuns == map[] && s.created == []
    && s.teardown == Idle && s.rerun == NoRerun
  }

  /** One task is ready and all others exist: a reconcile that is not cut short creates just that one. */
  lemma OnlyOneIsReady(s: State, u: TaskSpec, cut: nat)
    requires s.teardown == Idle && s.run.cancel.None? && !Terminal(s.run.phase) && cut > |s.run.tasks|
    requires FindPendingApproval(s.run.tasks, s.taskRuns).None? && !HasFailedTask(s.taskRuns)
    requires u in s.run.tasks && CanStart(u, s.run.tasks, s.taskRuns)
    requires forall t | t in s.run.tasks :: t == u || t.name in s.taskRuns
    ensures var s' := Step(s, ReconcileRun(cut));
      && s'.taskRuns.Keys == s.taskRuns.Keys + {u.name} && s'.rerun == s.rerun
      && (forall n | n in s.taskRuns :: s'.taskRuns[n] == s.taskRuns[n])
      && s'.run.tasks == s.run.tasks && s'.run.phase == Active && s'.run.cancel.None?
  {
    hide Runnable, CanStart, FindPendingApproval, HasFailedTask, AllTasksSucceeded, Summaries, CreateAll, Names;
    var batch := Runnable(s.run.tasks, s.run.tasks, s.taskRuns);
    RunnableIsExact(s.run.tasks, s.run.tasks, s.taskRuns);
    assert CanStart(u, s.run.tasks, s.taskRuns) && u in batch;
    OnlyName(batch, u, s);
    CreateAllAdds(s.taskRuns, batch);
    assert batch[..|batch|] == batch;
  }

  lemma OnlyName(batch: seq<TaskSpec>, u: TaskSpec, s: State)
    requires u in batch && forall t | t in batch :: CanStart(t, s.run.tasks, s.taskRuns) && t in s.run.tasks
    requires forall t | t in s.run.tasks :: t == u || t.name in s.taskRuns
    ensures Names(batch) == {u.name}
  {
  }

  lemma StepKeepsTasks(s: State, a: Action)
    ensures Step(s, a).run.tasks == s.run.tasks
  {
  }

  lemma {:induction false} RunKeepsTasks(s: State, actions: seq<Action>)
    ensures Run(s, actions).run.tasks == s.run.tasks
  {
    hide Step;
    if actions != [] {
      var front := actions[..|actions| - 1];
      RunKeepsTasks(s, front);
      StepKeepsTasks(Run(s, front), actions[|actions| - 1]);
    }
  }

  lemma RunSnoc(s: State, actions: seq<Action>, a: Action)
    ensures Run(s, actions + [a]) == Step(Run(s, actions), a)
  {
    assert (actions + [a])[..|actions|] == actions;
  }

  function Without(existing: TaskRuns, names: seq<string>): TaskRuns {
    existing - (set n | n in names)
  }

  lemma WithoutOneMore(existing: TaskRuns, names: seq<string>, from: nat, to: nat)
    requires from <= to < |names|
    ensures Without(existing, names[from..to]) - {names[to]} == Without(existing, names[from..to + 1])
  {
    assert names[from..to + 1] == names[from..to] + [names[to]];
  }

  lemma WithoutNone(existing: TaskRuns)
    ensures Without(existing, []) == existing
  {
  }
}
