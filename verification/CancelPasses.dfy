/** Whole passes of a cancel teardown: where a failing one leaves everything, and what a retry reports. */
module CancelPasses {
  import opened Wrappers
  import opened PipelineTypes
  import opened Scheduler
  import opened PipelineSystem
  import opened CancelSafety
  import opened PipelineProgress

  /** The calls of a teardown: deletes of the listed TaskRuns, then the status write, then the annotation clear. */
  function Pass(names: seq<string>, failAt: nat): seq<Action> {
    var begun := [CancelBegin(names)] + Deletes(if failAt < |names| then failAt else |names|);
    if failAt <= |names| then begun + [CancelCrash]
    else if failAt == |names| + 1 then begun + [CancelPersist] + [CancelCrash]
    else begun + [CancelPersist] + [CancelClear]
  }

  /** The state of a pass after its listing and n deletes. */
  lemma PassDeletes(s: State, names: seq<string>, n: nat)
    requires s.teardown == Idle && s.run.cancel.Some? && !Terminal(s.run.phase) && Lists(names, s.taskRuns)
    requires n <= |names|
    ensures Run(s, [CancelBegin(names)] + Deletes(n)) == s.(
      taskRuns := Without(s.taskRuns, names[..n]),
      teardown := Deleting(s.taskRuns, names[n..], s.run.cancel.value, s.run.version))
  {
    hide Without;
    RunFromFirst(s, CancelBegin(names), Deletes(n));
    DeletesRun(Step(s, CancelBegin(names)), n);
  }

  lemma CrashEffect(s: State)
    ensures Step(s, CancelCrash) == s.(teardown := Idle)
  {
  }

  lemma PersistEffect(s: State)
    requires s.teardown.Deleting? && s.teardown.remaining == [] && s.teardown.version == s.run.version
    ensures Step(s, CancelPersist) == s.(
      run := Write(s.run, CancelledRun(s.run, s.teardown.listed, s.teardown.operator)), teardown := Clearing)
  {
  }

  lemma ClearEffect(s: State)
    requires s.teardown == Clearing
    ensures Step(s, CancelClear) == s.(run := Write(s.run, s.run.(cancel := None)), teardown := Idle)
  {
  }

  /** Where a pass that fails at its API call failAt leaves everything. */
  lemma PassOutcome(s: State, names: seq<string>, failAt: nat)
    requires s.teardown == Idle && s.run.cancel.Some? && !Terminal(s.run.phase) && Lists(names, s.taskRuns)
    ensures Run(s, Pass(names, failAt)) ==
      if failAt <= |names| then s.(taskRuns := Without(s.taskRuns, names[..failAt]))
      else
        var cancelled := Write(s.run, CancelledRun(s.run, s.taskRuns, s.run.cancel.value));
        s.(taskRuns := Without(s.taskRuns, names),
           run := if failAt == |names| + 1 then cancelled else Write(cancelled, cancelled.(cancel := None)))
  {
    hide Step, Run, Without, CancelledRun, Write;
    var deletes := if failAt < |names| then failAt else |names|;
    PassDeletes(s, names, deletes);
    var begun := [CancelBegin(names)] + Deletes(deletes);
    if failAt <= |names| {
      RunSnoc(s, begun, CancelCrash);
      CrashEffect(Run(s, begun));
    } else {
      assert names[..|names|] == names && names[|names|..] == [];
      RunSnoc(s, begun, CancelPersist);
      PersistEffect(Run(s, begun));
      var persisted := Run(s, begun + [CancelPersist]);
      RunSnoc(s, begun + [CancelPersist], CancelCrash);
      CrashEffect(persisted);
      RunSnoc(s, begun + [CancelPersist], CancelClear);
      ClearEffect(persisted);
    }
  }

  // --- What a retry reports ---

  lemma WriteStores(stored: PipelineRun, changed: PipelineRun)
    ensures Write(stored, changed).(version := 0) == changed.(version := 0)
  {
  }

  /** A pass that is not disturbed: all its API calls succeed. */
  ghost function Uninterrupted(s: State, names: seq<string>): State {
    Run(s, Pass(names, |names| + 2))
  }

  lemma UninterruptedReports(s: State, names: seq<string>)
    requires Armed(s) && s.teardown == Idle && Lists(names, s.taskRuns)
    ensures Uninterrupted(s, names).run.phase == Cancelled
    ensures Uninterrupted(s, names).run.summaries
      == CancelledSummaries(s.run, s.taskRuns, CancelMessage(s.run.cancel.value))
  {
    hide Run, Pass, Write, CancelledSummaries, Without;
    PassOutcome(s, names, |names| + 2);
    var cancelled := Write(s.run, CancelledRun(s.run, s.taskRuns, s.run.cancel.value));
    WriteStores(s.run, CancelledRun(s.run, s.taskRuns, s.run.cancel.value));
    WriteStores(cancelled, cancelled.(cancel := None));
  }

  lemma UninterruptedRow(s: State, names: seq<string>, i: nat)
    requires Armed(s) && s.teardown == Idle && Lists(names, s.taskRuns) && i < |s.run.tasks|
    ensures var end := Uninterrupted(s, names).run;
      && end.phase == Cancelled && |end.summaries| == |s.run.tasks|
      && end.summaries[i] ==
        CancelledRow(Summarize(s.run.name, s.run.tasks[i], s.taskRuns), CancelMessage(s.run.cancel.value))
  {
    hide Uninterrupted, CancelledRow, Summarize, CancelMessage, Lists;
    UninterruptedReports(s, names);
  }

  /** A pass that fails at its delete k, and the tasks going on until the next pass. */
  ghost function Interrupted(s: State, names: seq<string>, k: nat, between: seq<Action>): State {
    Run(Run(s, Pass(names, k)), between)
  }

  lemma InterruptedLeaves(s: State, names: seq<string>, k: nat, between: seq<Action>)
    requires Armed(s) && s.teardown == Idle && Lists(names, s.taskRuns) && k <= |names| && TaskActions(between)
    ensures var left := Interrupted(s, names, k, between);
      && left.run == s.run && left.teardown == Idle && Armed(left)
      && forall n :: n in left.taskRuns <==> n in s.taskRuns && n !in names[..k]
  {
    hide Run, Pass;
    PassOutcome(s, names, k);
    TaskActionsKeepRun(Run(s, Pass(names, k)), between);
  }

  /** What a cancel makes of a TaskRun: its phase and message, when it has finished. */
  function Verdict(tr: TaskRun, message: string): (TaskPhase, string) {
    if TerminalTask(tr.phase) then (tr.phase, tr.message) else (TaskPhase.Failed, message)
  }

  lemma RowsAreEqualIff(run: PipelineRun, first: TaskRuns, second: TaskRuns, message: string, t: TaskSpec)
    requires t.name in second ==> t.name in first
    ensures var before, after := Summarize(run.name, t, first), Summarize(run.name, t, second);
      CancelledRow(after, message) == CancelledRow(before, message) <==>
        (t.name in first ==>
          && t.name in second && second[t.name].retryCount == first[t.name].retryCount
          && Verdict(second[t.name], message) == Verdict(first[t.name], message))
  {
    assert '-' in TaskRunName(run.name, t.name);
  }

  /**
   A pass fails at its delete k; the tasks may go on; then another pass is made. Its report on
   a task is that of the pass left undisturbed exactly when the task had no TaskRun at all, or
   its TaskRun was not deleted yet and has since neither been retried nor finished differently.
   */
  lemma RetriedPassReports(
      s: State, names: seq<string>, k: nat, between: seq<Action>, again: seq<string>, i: nat)
    requires Armed(s) && s.teardown == Idle && Lists(names, s.taskRuns) && k <= |names| && TaskActions(between)
    requires Lists(again, Interrupted(s, names, k, between).taskRuns) && i < |s.run.tasks|
    ensures var left, message := Interrupted(s, names, k, between), CancelMessage(s.run.cancel.value);
      var once, twice := Uninterrupted(s, names).run, Uninterrupted(left, again).run;
      var n := s.run.tasks[i].name;
      && twice.phase == Cancelled && |twice.summaries| == |once.summaries| == |s.run.tasks|
      && (n in left.taskRuns <==> n in s.taskRuns && n !in names[..k])
      && (twice.summaries[i] == once.summaries[i] <==>
            (n in s.taskRuns ==>
              && n in left.taskRuns && left.taskRuns[n].retryCount == s.taskRuns[n].retryCount
              && Verdict(left.taskRuns[n], message) == Verdict(s.taskRuns[n], message)))
  {
    hide Run, Interrupted, Uninterrupted, Lists, Verdict, CancelledRow, Summarize, TaskActions, CancelMessage;
    InterruptedLeaves(s, names, k, between);
    var left := Interrupted(s, names, k, between);
    UninterruptedRow(s, names, i);
    UninterruptedRow(left, again, i);
    RowsAreEqualIff(s.run, s.taskRuns, left.taskRuns, CancelMessage(s.run.cancel.value), s.run.tasks[i]);
  }

  /** When nothing happens in between, the reports are equal exactly when no declared task was deleted yet. */
  lemma RetriedPassReportsTheSame(s: State, names: seq<string>, k: nat, again: seq<string>)
    requires Armed(s) && s.teardown == Idle && Lists(names, s.taskRuns) && k <= |names|
    requires Lists(again, Interrupted(s, names, k, []).taskRuns)
    ensures Uninterrupted(Interrupted(s, names, k, []), again).run.summaries == Uninterrupted(s, names).run.summaries
      <==> forall t | t in s.run.tasks :: t.name !in names[..k]
  {
    PassOutcome(s, names, k);
    var left := Interrupted(s, names, k, []);
    assert left.taskRuns == Without(s.taskRuns, names[..k]);
    hide Run, Interrupted, Uninterrupted, Verdict;
    UninterruptedReports(s, names);
    InterruptedLeaves(s, names, k, []);
    UninterruptedReports(left, again);
    var once, twice := Uninterrupted(s, names).run.summaries, Uninterrupted(left, again).run.summaries;
    forall i | 0 <= i < |s.run.tasks|
      ensures twice[i] == once[i] <==> s.run.tasks[i].name !in names[..k]
    {
      RetriedPassReports(s, names, k, [], again, i);
    }
    if twice == once {
      forall t | t in s.run.tasks ensures t.name !in names[..k] {
        var i :| 0 <= i < |s.run.tasks| && s.run.tasks[i] == t;
      }
    }
  }

  /** One task, already Succeeded; the first pass deletes it and fails; the next one reports it as Skipped. */
  lemma InterruptedPassForgetsSuccess(s: State, name: string)
    requires Armed(s) && s.teardown == Idle
    requires |s.run.tasks| == 1 && s.run.tasks[0].name == name
    requires s.taskRuns.Keys == {name} && s.taskRuns[name].phase == TaskPhase.Succeeded
    ensures var end := Uninterrupted(Interrupted(s, [name], 1, []), []).run;
      end.phase == Cancelled && |end.summaries| == 1 && end.summaries[0].phase == TaskPhase.Skipped
  {
    var left := Interrupted(s, [name], 1, []);
    hide Interrupted, Uninterrupted;
    InterruptedLeaves(s, [name], 1, []);
    UninterruptedRow(left, [], 0);
  }
}
