/** In which order TaskRuns are created, over all runs: approvals, rejections, regressions and cancels included. */
module CreationOrder {
  import opened PipelineTypes
  import opened Scheduler
  import opened Downstream
  import opened PipelineSystem
  import opened CancelSafety
  import opened PipelineSafety

  /** Each name comes after everything it waits for, apart from what was there before. */
  ghost predicate PrerequisitesFirst(tasks: seq<TaskSpec>, before: set<string>, names: seq<string>) {
    forall i, d {:trigger Prerequisite(tasks, true, d, names[i])} ::
      0 <= i < |names| && Prerequisite(tasks, true, d, names[i]) ==> d in before || d in names[..i]
  }

  /** Such names without repetition, and none that was there before. */
  ghost predicate LinearExtension(tasks: seq<TaskSpec>, before: set<string>, names: seq<string>) {
    && NoDuplicates(names) && (forall n | n in names :: n !in before)
    && PrerequisitesFirst(tasks, before, names)
  }

  /** All tasks, in an order in which each comes after everything it waits for. */
  ghost predicate TopologicalOrder(tasks: seq<TaskSpec>, order: seq<string>) {
    LinearExtension(tasks, {}, order) && forall n :: n in order <==> n in Names(tasks)
  }

  ghost predicate Schedulable(tasks: seq<TaskSpec>) {
    exists order :: TopologicalOrder(tasks, order)
  }

  // --- One more name, one more batch ---

  lemma PrerequisitesFirstSnoc(tasks: seq<TaskSpec>, before: set<string>, names: seq<string>, n: string)
    requires PrerequisitesFirst(tasks, before, names)
    requires forall d :: Prerequisite(tasks, true, d, n) ==> d in before || d in names
    ensures PrerequisitesFirst(tasks, before, names + [n])
  {
    var longer := names + [n];
    forall i, d | 0 <= i < |longer| && Prerequisite(tasks, true, d, longer[i])
      ensures d in before || d in longer[..i]
    {
      if i < |names| {
        assert longer[..i] == names[..i];
      } else {
        assert longer[..i] == names;
      }
    }
  }

  lemma LinearExtensionSnoc(tasks: seq<TaskSpec>, before: set<string>, names: seq<string>, n: string)
    requires LinearExtension(tasks, before, names) && n !in names && n !in before
    requires forall d :: Prerequisite(tasks, true, d, n) ==> d in before || d in names
    ensures LinearExtension(tasks, before, names + [n])
  {
    hide Prerequisite, PrerequisitesFirst;
    PrerequisitesFirstSnoc(tasks, before, names, n);
  }

  /** The batch's names are declared, distinct and new, and everything they wait for exists. */
  ghost predicate BatchIsReady(tasks: seq<TaskSpec>, existing: TaskRuns, batch: seq<TaskSpec>) {
    forall i | 0 <= i < |batch| ::
      && batch[i].name !in existing && batch[i].name in Names(tasks)
      && (forall j | 0 <= j < i :: batch[j].name != batch[i].name)
      && forall d :: Prerequisite(tasks, true, d, batch[i].name) ==> d in existing
  }

  lemma TaskNamesSnoc(batch: seq<TaskSpec>)
    requires batch != []
    ensures TaskNames(batch) == TaskNames(batch[..|batch| - 1]) + [batch[|batch| - 1].name]
  {
  }

  lemma {:induction false} PrerequisitesFirstAppend(
      tasks: seq<TaskSpec>, existing: TaskRuns, before: set<string>, names: seq<string>, batch: seq<TaskSpec>)
    requires PrerequisitesFirst(tasks, before, names) && BatchIsReady(tasks, existing, batch)
    requires forall n | n in existing :: n in before || n in names
    ensures PrerequisitesFirst(tasks, before, names + TaskNames(batch))
  {
    hide Prerequisite, PrerequisitesFirst;
    if batch == [] {
      assert names + TaskNames(batch) == names;
    } else {
      var front, t := batch[..|batch| - 1], batch[|batch| - 1];
      PrerequisitesFirstAppend(tasks, existing, before, names, front);
      TaskNamesSnoc(batch);
      assert names + TaskNames(batch) == (names + TaskNames(front)) + [t.name];
      PrerequisitesFirstSnoc(tasks, before, names + TaskNames(front), t.name);
    }
  }

  lemma {:induction false} LinearExtensionAppend(
      tasks: seq<TaskSpec>, existing: TaskRuns, before: set<string>, names: seq<string>, batch: seq<TaskSpec>)
    requires LinearExtension(tasks, before, names) && BatchIsReady(tasks, existing, batch)
    requires forall n :: n in existing <==> n in before || n in names
    ensures LinearExtension(tasks, before, names + TaskNames(batch))
  {
    hide Prerequisite, PrerequisitesFirst;
    PrerequisitesFirstAppend(tasks, existing, before, names, batch);
  }

  /** Runnable tasks of a list with distinct names have distinct names. */
  lemma {:induction false} RunnableAreDistinct(candidates: seq<TaskSpec>, tasks: seq<TaskSpec>, existing: TaskRuns)
    requires UniqueNames(candidates)
    ensures UniqueNames(Runnable(candidates, tasks, existing))
  {
    if candidates != [] {
      var front, t := candidates[..|candidates| - 1], candidates[|candidates| - 1];
      RunnableAreDistinct(front, tasks, existing);
      RunnableIsExact(front, tasks, existing);
      forall u | u in Runnable(front, tasks, existing) ensures u.name != t.name {
        var k :| 0 <= k < |front| && front[k] == u;
      }
    }
  }

  lemma BatchNames(existing: TaskRuns, batch: seq<TaskSpec>)
    ensures forall n :: n in CreateAll(existing, batch) <==> n in existing || n in TaskNames(batch)
  {
    CreateAllAdds(existing, batch);
    forall n ensures n in TaskNames(batch) <==> n in Names(batch) {
      if n in Names(batch) {
        var t :| t in batch && t.name == n;
        var i :| 0 <= i < |batch| && batch[i] == t;
        assert TaskNames(batch)[i] == n;
      }
    }
  }

  lemma BatchWaitsForNothing(run: PipelineRun, existing: TaskRuns, creates: seq<TaskSpec>)
    requires UniqueNames(run.tasks) && creates <= Batch(run, existing)
    ensures BatchIsReady(run.tasks, existing, creates)
  {
    var batch := Batch(run, existing);
    RunnableIsExact(run.tasks, run.tasks, existing);
    RunnableAreDistinct(run.tasks, run.tasks, existing);
    forall i | 0 <= i < |creates|
      ensures creates[i] in run.tasks && creates[i].name !in existing
      ensures forall d :: Prerequisite(run.tasks, true, d, creates[i].name) ==> d in existing
    {
      assert creates[i] == batch[i];
      CanStartIsReady(run.tasks, creates[i], existing);
    }
  }

  /** What a reconcile adds to the history and to the TaskRuns. */
  lemma ReconcileBatch(s: State, cut: nat) returns (creates: seq<TaskSpec>)
    requires UniqueNames(s.run.tasks)
    ensures BatchIsReady(s.run.tasks, s.taskRuns, creates)
    ensures var s' := Step(s, ReconcileRun(cut));
      && s'.created == s.created + TaskNames(creates)
      && (forall n :: n in s'.taskRuns <==> n in s.taskRuns || n in TaskNames(creates))
      && s'.rerun == s.rerun && (s'.run.phase == Complete ==>
           s.run.phase == Complete || forall n | n in Names(s.run.tasks) :: n in s.taskRuns)
  {
    if s.teardown != Idle || s.run.cancel.Some? || Terminal(s.run.phase) {
      creates := [];
      assert s.created + TaskNames([]) == s.created;
    } else {
      var batch := Batch(s.run, s.taskRuns);
      creates := batch[..if cut < |batch| then cut else |batch|];
      BatchWaitsForNothing(s.run, s.taskRuns, creates);
      BatchNames(s.taskRuns, creates);
      if Scheduled(s.run, s.taskRuns).phase == Complete {
        CompleteHasAll(s.run, s.taskRuns);
      }
    }
  }

  lemma CompleteHasAll(run: PipelineRun, existing: TaskRuns)
    requires Scheduled(run, existing).phase == Complete && run.phase != Complete
    ensures forall n | n in Names(run.tasks) :: Done(existing, n)
  {
    assert AllTasksSucceeded(run.tasks, existing);
  }

  // --- Between reruns ---

  predicate RerunFree(actions: seq<Action>) {
    forall a | a in actions :: !a.RerunBegin?
  }

  /** What was created since s0 agrees with what exists, until a cancel deletes it. */
  ghost predicate RecordedSince(s0: State, s: State) {
    && s.run.tasks == s0.run.tasks && s.rerun == NoRerun && s0.created <= s.created
    && var added := s.created[|s0.created|..];
      && LinearExtension(s0.run.tasks, s0.taskRuns.Keys, added)
      && (forall n | n in added :: n in Names(s0.run.tasks))
      && (Armed(s) || s.run.phase == Cancelled
            || forall n :: n in s.taskRuns <==> n in s0.taskRuns.Keys || n in added)
  }

  lemma CreatesAreDeclared(tasks: seq<TaskSpec>, existing: TaskRuns, creates: seq<TaskSpec>)
    requires BatchIsReady(tasks, existing, creates)
    ensures forall n | n in TaskNames(creates) :: n in Names(tasks)
  {
    hide Names, Prerequisite;
    forall n | n in TaskNames(creates) ensures n in Names(tasks) {
      var i :| 0 <= i < |creates| && TaskNames(creates)[i] == n;
      assert creates[i].name == n;
    }
  }

  lemma ReconcileRecords(s0: State, s: State, cut: nat)
    requires UniqueNames(s0.run.tasks) && RecordedSince(s0, s) && !Armed(s) && s.run.phase != Cancelled
    ensures RecordedSince(s0, Step(s, ReconcileRun(cut)))
  {
    StepKeepsTasks(s, ReconcileRun(cut));
    var added := s.created[|s0.created|..];
    var creates := ReconcileBatch(s, cut);
    hide Step, Prerequisite, LinearExtension, BatchIsReady, TaskNames, Names, UniqueNames;
    LinearExtensionAppend(s.run.tasks, s.taskRuns, s0.taskRuns.Keys, added, creates);
    CreatesAreDeclared(s.run.tasks, s.taskRuns, creates);
    RecordedLater(s0, s, Step(s, ReconcileRun(cut)), TaskNames(creates));
  }

  lemma RecordedLater(s0: State, s: State, s': State, more: seq<string>)
    requires RecordedSince(s0, s) && !Armed(s) && s.run.phase != Cancelled
    requires s'.run.tasks == s.run.tasks && s'.rerun == s.rerun && s'.created == s.created + more
    requires forall n :: n in s'.taskRuns <==> n in s.taskRuns || n in more
    requires forall n | n in more :: n in Names(s0.run.tasks)
    requires LinearExtension(s0.run.tasks, s0.taskRuns.Keys, s.created[|s0.created|..] + more)
    ensures RecordedSince(s0, s')
  {
    hide LinearExtension, Names;
    assert s'.created[|s0.created|..] == s.created[|s0.created|..] + more;
  }

  /** No other step creates anything, nor deletes anything outside cancels and reruns. */
  lemma OtherStepKeepsNames(s: State, a: Action)
    requires Consistent(s) && s.rerun == NoRerun && !Armed(s) && !a.RerunBegin? && !a.ReconcileRun?
    ensures var s' := Step(s, a);
      && s'.taskRuns.Keys == s.taskRuns.Keys && s'.created == s.created
      && s'.rerun == NoRerun && s'.run.tasks == s.run.tasks
  {
  }

  lemma OtherStepRecords(s0: State, s: State, a: Action)
    requires Consistent(s) && RecordedSince(s0, s) && !Armed(s) && s.run.phase != Cancelled
    requires !a.RerunBegin? && !a.ReconcileRun?
    ensures RecordedSince(s0, Step(s, a))
  {
    hide Step, LinearExtension, Names, Consistent;
    OtherStepKeepsNames(s, a);
    assert forall n :: n in Step(s, a).taskRuns <==> n in s.taskRuns;
  }

  lemma StepRecords(s0: State, s: State, a: Action)
    requires UniqueNames(s0.run.tasks) && Consistent(s) && RecordedSince(s0, s) && !a.RerunBegin?
    ensures RecordedSince(s0, Step(s, a))
  {
    hide Consistent, LinearExtension;
    if Armed(s) {
      ArmedStep(s, a);
      StepKeepsTasks(s, a);
    } else if s.run.phase == Cancelled {
      CancelledStep(s, a);
      StepKeepsTasks(s, a);
    } else if a.ReconcileRun? {
      ReconcileRecords(s0, s, a.cut);
    } else {
      OtherStepRecords(s0, s, a);
    }
  }

  /**
   From any state without a rerun in progress and over every run that starts none: TaskRuns
   are created at most once each, never for what already exists, and always after everything
   they wait for that was not there before, also within the batch of one reconcile.
   */
  lemma {:induction false} CreationBetweenReruns(s: State, actions: seq<Action>)
    requires Consistent(s) && UniqueNames(s.run.tasks) && s.rerun == NoRerun && RerunFree(actions)
    ensures RecordedSince(s, Run(s, actions))
  {
    hide Step, Consistent, RecordedSince;
    if actions == [] {
      NothingRecorded(s);
    } else {
      var front, a := actions[..|actions| - 1], actions[|actions| - 1];
      assert a in actions;
      CreationBetweenReruns(s, front);
      RunIsConsistent(s, front);
      StepRecords(s, Run(s, front), a);
    }
  }

  lemma NothingRecorded(s: State)
    requires s.rerun == NoRerun
    ensures RecordedSince(s, s)
  {
  }

  /** A run from its beginning, without reruns: creation is a linear extension of the DAG and of serial order. */
  lemma CreationIsLinearExtension(s: State, actions: seq<Action>)
    requires Fresh(s) && UniqueNames(s.run.tasks) && RerunFree(actions)
    ensures LinearExtension(s.run.tasks, {}, Run(s, actions).created)
    ensures Run(s, actions).run.phase == Complete ==>
      forall n :: n in Run(s, actions).created <==> n in Names(s.run.tasks)
  {
    FreshIsConsistent(s);
    CreationBetweenReruns(s, actions);
    RunRemembers(s, actions);
    var end := Run(s, actions);
    assert s.taskRuns.Keys == {} && end.created[0..] == end.created;
  }

  // --- Reruns included ---

  /** Everything that exists, and everything once the run is Complete, was created after what it waits for. */
  ghost predicate Remembered(s: State) {
    && PrerequisitesFirst(s.run.tasks, {}, s.created)
    && (forall n | n in s.taskRuns :: n in s.created) && (forall n | n in s.created :: n in Names(s.run.tasks))
    && (s.run.phase == Complete ==> forall n | n in Names(s.run.tasks) :: n in s.created)
  }

  lemma ReconcileRemembers(s: State, cut: nat)
    requires UniqueNames(s.run.tasks) && Remembered(s)
    ensures Remembered(Step(s, ReconcileRun(cut)))
  {
    StepKeepsTasks(s, ReconcileRun(cut));
    var creates := ReconcileBatch(s, cut);
    hide Step, Prerequisite, PrerequisitesFirst;
    PrerequisitesFirstAppend(s.run.tasks, s.taskRuns, {}, s.created, creates);
    CreatesAreDeclared(s.run.tasks, s.taskRuns, creates);
  }

  /** No other step creates anything or completes a run. */
  lemma OtherStepOnlyDeletes(s: State, a: Action)
    requires !a.ReconcileRun?
    ensures var s' := Step(s, a);
      && s'.created == s.created && s'.taskRuns.Keys <= s.taskRuns.Keys && s'.run.tasks == s.run.tasks
      && (s'.run.phase == Complete ==> s.run.phase == Complete)
  {
  }

  lemma OtherStepRemembers(s: State, a: Action)
    requires Remembered(s) && !a.ReconcileRun?
    ensures Remembered(Step(s, a))
  {
    hide Step, PrerequisitesFirst, Names;
    OtherStepOnlyDeletes(s, a);
    assert forall n | n in Step(s, a).taskRuns :: n in s.taskRuns;
  }

  lemma {:induction false} RunRemembers(s: State, actions: seq<Action>)
    requires Fresh(s) && UniqueNames(s.run.tasks)
    ensures Remembered(Run(s, actions)) && Run(s, actions).run.tasks == s.run.tasks
  {
    RunKeepsTasks(s, actions);
    hide Step, PrerequisitesFirst;
    if actions == [] {
      assert PrerequisitesFirst(s.run.tasks, {}, []) by {
        NoNames(s.run.tasks);
      }
    } else {
      hide Remembered;
      var front, a := actions[..|actions| - 1], actions[|actions| - 1];
      RunRemembers(s, front);
      if a.ReconcileRun? {
        ReconcileRemembers(Run(s, front), a.cut);
      } else {
        OtherStepRemembers(Run(s, front), a);
      }
    }
  }

  lemma NoNames(tasks: seq<TaskSpec>)
    ensures PrerequisitesFirst(tasks, {}, [])
  {
  }

  function FirstOccurrences(names: seq<string>): seq<string> {
    if names == [] then [] else
      var front := FirstOccurrences(names[..|names| - 1]);
      if names[|names| - 1] in front then front else front + [names[|names| - 1]]
  }

  lemma PrerequisitesFirstFront(tasks: seq<TaskSpec>, before: set<string>, names: seq<string>)
    requires PrerequisitesFirst(tasks, before, names) && names != []
    ensures var front, last := names[..|names| - 1], names[|names| - 1];
      && PrerequisitesFirst(tasks, before, front)
      && forall d | Prerequisite(tasks, true, d, last) :: d in before || d in front
  {
    hide Prerequisite;
    var front := names[..|names| - 1];
    forall i, d | 0 <= i < |front| && Prerequisite(tasks, true, d, front[i])
      ensures d in before || d in front[..i]
    {
      assert front[i] == names[i] && front[..i] == names[..i];
    }
  }

  lemma {:induction false} FirstOccurrencesExtend(tasks: seq<TaskSpec>, names: seq<string>)
    requires PrerequisitesFirst(tasks, {}, names)
    ensures LinearExtension(tasks, {}, FirstOccurrences(names))
    ensures forall n :: n in FirstOccurrences(names) <==> n in names
  {
    if names == [] {
      NoNames(tasks);
    } else {
      hide Prerequisite, PrerequisitesFirst, LinearExtension;
      var front, last := names[..|names| - 1], names[|names| - 1];
      PrerequisitesFirstFront(tasks, {}, names);
      FirstOccurrencesExtend(tasks, front);
      assert forall d | Prerequisite(tasks, true, d, last) :: d in FirstOccurrences(front);
      if last !in FirstOccurrences(front) {
        LinearExtensionSnoc(tasks, {}, FirstOccurrences(front), last);
      }
      forall n ensures n in names <==> n in front || n == last {
        assert names == front + [last];
      }
    }
  }

  /** Whatever happens to a run, reruns and regressions included: it becomes Complete only if it is schedulable. */
  lemma CompleteIsSchedulable(s: State, actions: seq<Action>)
    requires Fresh(s) && UniqueNames(s.run.tasks) && Run(s, actions).run.phase == Complete
    ensures Schedulable(s.run.tasks)
  {
    RunRemembers(s, actions);
    var order := FirstOccurrences(Run(s, actions).created);
    FirstOccurrencesExtend(s.run.tasks, Run(s, actions).created);
    assert TopologicalOrder(s.run.tasks, order);
  }
}
