/** What the cancel protocol guarantees over every interleaving, crashes included. */
module CancelSafety {
  import opened PipelineTypes
  import opened Scheduler
  import opened PipelineSystem
  import Downstream

  /** What every step keeps. */
  ghost predicate Consistent(s: State) {
    && (s.teardown.Deleting? ==>
          s.run.cancel.Some? && !Terminal(s.run.phase) && forall n | n in s.taskRuns :: n in s.teardown.remaining)
    && (s.run.phase == Cancelled ==> s.taskRuns == map[])
    && (s.rerun.Rerunning? ==>
          && s.rerun.next <= |s.rerun.order|
          && s.rerun.version <= s.run.version
          && (s.rerun.version == s.run.version ==> (s.rerun.failedRun <==> s.run.phase == Broken)))
  }

  /** A cancel request is on an unfinished run and no pass is about to clear it. */
  predicate Armed(s: State) {
    s.run.cancel.Some? && !Terminal(s.run.phase) && s.teardown != Clearing
  }

  lemma FreshIsConsistent(s: State)
    requires Fresh(s)
    ensures Consistent(s) && !Armed(s)
  {
  }

  lemma DeleteIsConsistent(s: State)
    requires Consistent(s)
    ensures Consistent(Step(s, CancelDelete))
  {
    if s.teardown.Deleting? && s.teardown.remaining != [] {
      var s' := Step(s, CancelDelete);
      assert forall n | n in s'.taskRuns :: n in s.teardown.remaining && n != s.teardown.remaining[0];
    }
  }

  lemma StepIsConsistent(s: State, a: Action)
    requires Consistent(s)
    ensures Consistent(Step(s, a))
  {
    if a == CancelDelete {
      DeleteIsConsistent(s);
    } else {
      hide Scheduled, Batch, CreateAll, CancelledSummaries, Downstream.DownstreamOrder, TaskNames;
    }
  }

  lemma {:induction false} RunIsConsistent(s: State, actions: seq<Action>)
    requires Consistent(s)
    ensures Consistent(Run(s, actions))
  {
    hide Step, Consistent;
    if actions != [] {
      RunIsConsistent(s, actions[..|actions| - 1]);
      StepIsConsistent(Run(s, actions[..|actions| - 1]), actions[|actions| - 1]);
    }
  }

  lemma ArmedStep(s: State, a: Action)
    requires Consistent(s) && Armed(s)
    ensures var s' := Step(s, a);
      && (Armed(s') || s'.run.phase == Cancelled)
      && s'.taskRuns.Keys <= s.taskRuns.Keys && s'.created == s.created
  {
  }

  lemma CancelledStep(s: State, a: Action)
    requires Consistent(s) && s.run.phase == Cancelled
    ensures var s' := Step(s, a); s'.run.phase == Cancelled && s'.taskRuns == map[] && s'.created == s.created
  {
    StepIsConsistent(s, a);
  }

  /**
   Crash safety: from the moment a cancel request is on an unfinished run, no step of any
   interleaving creates a TaskRun, however often the teardown is interrupted or loses a
   write race; the request stays until the run is Cancelled, and then no TaskRun is left.
   */
  lemma {:induction false} CancelIsCrashSafe(s: State, actions: seq<Action>)
    requires Consistent(s) && Armed(s)
    ensures var s' := Run(s, actions);
      && Consistent(s') && (Armed(s') || s'.run.phase == Cancelled)
      && s'.taskRuns.Keys <= s.taskRuns.Keys && s'.created == s.created
      && (s'.run.phase == Cancelled ==> s'.taskRuns == map[])
  {
    hide Step;
    if actions != [] {
      var front, a := actions[..|actions| - 1], actions[|actions| - 1];
      CancelIsCrashSafe(s, front);
      StepIsConsistent(Run(s, front), a);
      if Armed(Run(s, front)) {
        ArmedStep(Run(s, front), a);
      } else {
        CancelledStep(Run(s, front), a);
      }
    }
  }

  /** A request on an unfinished run, or the run it has cancelled. */
  predicate Honoured(s: State) {
    s.run.phase == Cancelled || (s.run.cancel.Some? && !Terminal(s.run.phase))
  }

  /**
   A request on an unfinished run is kept by every interleaving until the run is Cancelled,
   if and only if no pass is about to clear it.
   */
  lemma RequestIsKeptIff(s: State)
    requires Consistent(s) && s.run.cancel.Some? && !Terminal(s.run.phase)
    ensures s.teardown != Clearing <==> forall actions :: Honoured(Run(s, actions))
  {
    if s.teardown != Clearing {
      forall actions ensures Honoured(Run(s, actions)) {
        CancelIsCrashSafe(s, actions);
      }
    } else {
      RunSnoc(s, [], CancelClear);
      assert !Honoured(Run(s, [] + [CancelClear]));
    }
  }

  /** The write that ends a rerun finds the run as it was read, and revives it. */
  predicate Revives(s: State, a: Action) {
    && a == RerunRevive && s.rerun.Rerunning? && s.rerun.next == |s.rerun.order|
    && s.rerun.failedRun && s.rerun.version == s.run.version
  }

  /** A pass is about to clear an unfinished run's request only when a rerun revives the run during the clear. */
  lemma ClearIsOvertakenByRevival(s: State, a: Action)
    requires Consistent(s) && (s.teardown == Clearing ==> Terminal(s.run.phase))
    ensures var s' := Step(s, a);
      s'.teardown == Clearing && !Terminal(s'.run.phase) <==> s.teardown == Clearing && Revives(s, a)
  {
  }

  /** A step leaves a final phase only as the write of a rerun that found the run Broken, and creates nothing. */
  lemma TerminalStep(s: State, a: Action)
    requires Consistent(s) && Terminal(s.run.phase)
    requires s.run.phase == Broken ==> a != RerunRevive
    ensures var s' := Step(s, a);
      s'.run.phase == s.run.phase && s'.created == s.created && s'.taskRuns.Keys <= s.taskRuns.Keys
  {
  }

  /** Cancelled and Complete are never left; Broken is left only by the write of a rerun. */
  lemma {:induction false} TerminalPhasesStay(s: State, actions: seq<Action>)
    requires Consistent(s) && Terminal(s.run.phase)
    requires s.run.phase == Broken ==> RerunRevive !in actions
    ensures var s' := Run(s, actions);
      s'.run.phase == s.run.phase && s'.created == s.created && s'.taskRuns.Keys <= s.taskRuns.Keys
  {
    hide Step;
    if actions != [] {
      var front := actions[..|actions| - 1];
      TerminalPhasesStay(s, front);
      RunIsConsistent(s, front);
      TerminalStep(Run(s, front), actions[|actions| - 1]);
    }
  }

  // --- A completed pass ---

  /** A row of a cancelled run: finished tasks as they were; others Failed, or Skipped when never created, and why. */
  predicate ReportsCancelled(row: Summary, run: string, name: string, listed: TaskRuns, operator: string) {
    var message := if operator != "" then "cancelled by " + operator else "cancelled";
    && row.name == name
    && (name !in listed ==> row == Summary(name, "", TaskPhase.Skipped, 0, message))
    && (name in listed ==>
          var tr := listed[name];
          && row.taskRunRef == run + "-" + name && row.retryCount == tr.retryCount
          && (if tr.phase in {TaskPhase.Succeeded, TaskPhase.Failed, TaskPhase.Skipped}
              then row.phase == tr.phase && row.message == tr.message
              else row.phase == TaskPhase.Failed && row.message == message))
  }

  lemma RowReportsCancelled(run: string, t: TaskSpec, listed: TaskRuns, operator: string)
    ensures ReportsCancelled(
      CancelledRow(Summarize(run, t, listed), CancelMessage(operator)), run, t.name, listed, operator)
  {
    assert '-' in TaskRunName(run, t.name);
  }

  /**
   The write that ends a pass leaves nothing running, says who cancelled, and has one finished
   row per task, in order. If the run has changed since the pass read it, the write is lost: the
   run is as it was, and the request stays for another pass.
   */
  lemma PersistedCancel(s: State)
    requires Consistent(s) && s.teardown.Deleting? && s.teardown.remaining == []
    ensures var s', operator := Step(s, CancelPersist), s.teardown.operator;
      if s.run.version != s.teardown.version then s' == s.(teardown := Idle)
      else
        && s'.run.phase == Cancelled && s'.taskRuns == map[] && s'.teardown == Clearing
        && s'.run.currentApproval.None? && s'.run.version == s.run.version + 1 && s'.run.cancel == s.run.cancel
        && s'.run.message == (if operator != "" then "cancelled by " + operator else "cancelled")
        && |s'.run.summaries| == |s.run.tasks|
        && forall i | 0 <= i < |s.run.tasks| ::
            ReportsCancelled(s'.run.summaries[i], s.run.name, s.run.tasks[i].name, s.teardown.listed, operator)
  {
    var s' := Step(s, CancelPersist);
    if s.run.version == s.teardown.version {
      assert s'.run.phase == Cancelled;
      hide ReportsCancelled, CancelledRow, Summarize;
      forall i | 0 <= i < |s.run.tasks|
        ensures ReportsCancelled(
          s'.run.summaries[i], s.run.name, s.run.tasks[i].name, s.teardown.listed, s.teardown.operator)
      {
        RowReportsCancelled(s.run.name, s.run.tasks[i], s.teardown.listed, s.teardown.operator);
      }
    }
  }

  function Deletes(n: nat): seq<Action> {
    seq(n, _ => CancelDelete)
  }

  lemma DeleteEffect(s: State)
    requires s.teardown.Deleting? && s.teardown.remaining != []
    ensures Step(s, CancelDelete) == s.(
      taskRuns := s.taskRuns - {s.teardown.remaining[0]},
      teardown := s.teardown.(remaining := s.teardown.remaining[1..]))
  {
  }

  /** What n deletes of an undisturbed pass do. */
  lemma {:induction false} DeletesRun(s: State, n: nat)
    requires s.teardown.Deleting? && n <= |s.teardown.remaining|
    ensures Run(s, Deletes(n)) == s.(
      taskRuns := Without(s.taskRuns, s.teardown.remaining[..n]),
      teardown := s.teardown.(remaining := s.teardown.remaining[n..]))
  {
    hide Step, Without;
    var names := s.teardown.remaining;
    if n == 0 {
      assert names[..0] == [] && names[0..] == names;
      WithoutNone(s.taskRuns);
    } else {
      DeletesRun(s, n - 1);
      assert Deletes(n) == Deletes(n - 1) + [CancelDelete];
      RunSnoc(s, Deletes(n - 1), CancelDelete);
      DeleteEffect(Run(s, Deletes(n - 1)));
      assert names[n - 1..][0] == names[n - 1] && names[n - 1..][1..] == names[n..];
      WithoutOneMore(s.taskRuns, names, 0, n - 1);
      assert names[0..n - 1] == names[..n - 1] && names[0..n] == names[..n];
    }
  }

  /** From every armed state without a pass in progress, one undisturbed pass cancels the run and clears the request. */
  lemma UndisturbedPassCancels(s: State, names: seq<string>)
    requires Consistent(s) && Armed(s) && s.teardown == Idle && Lists(names, s.taskRuns)
    ensures var s' := Run(s, [CancelBegin(names)] + Deletes(|names|) + [CancelPersist, CancelClear]);
      && s'.run.phase == Cancelled && s'.taskRuns == map[] && s'.run.cancel.None? && s'.teardown == Idle
      && s'.run.summaries == CancelledSummaries(s.run, s.taskRuns, CancelMessage(s.run.cancel.value))
  {
    var begun := Step(s, CancelBegin(names));
    StepIsConsistent(s, CancelBegin(names));
    DeletesRun(begun, |names|);
    RunIsConsistent(begun, Deletes(|names|));
    var deleted := Run(begun, Deletes(|names|));
    PersistedCancel(deleted);
    RunFromFirst(s, CancelBegin(names), Deletes(|names|));
    var passed := [CancelBegin(names)] + Deletes(|names|);
    RunSnoc(s, passed, CancelPersist);
    RunSnoc(s, passed + [CancelPersist], CancelClear);
    assert passed + [CancelPersist] + [CancelClear] == passed + [CancelPersist, CancelClear];
  }

  lemma {:induction false} RunFromFirst(s: State, a: Action, rest: seq<Action>)
    ensures Run(s, [a] + rest) == Run(Step(s, a), rest)
  {
    hide Step;
    if rest == [] {
      assert [a] + rest == [] + [a];
      RunSnoc(s, [], a);
    } else {
      var front, last := rest[..|rest| - 1], rest[|rest| - 1];
      RunFromFirst(s, a, front);
      assert [a] + rest == ([a] + front) + [last];
      RunSnoc(s, [a] + front, last);
    }
  }
}
