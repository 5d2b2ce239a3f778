/**
 The failure threshold over all runs, operator commands included: what the count of
 consecutive failures means, and the one command that upsets it.
 */
module RolloutThreshold {
  import opened Wrappers
  import opened RolloutTypes
  import opened Canary
  import opened RolloutSystem
  import opened RolloutSafety

  /** Reaching the threshold rolls back. */
  predicate RollsBack(spec: RolloutSpec) {
    spec.autoRollback && spec.failureThreshold > 0
  }

  function FailedWith(spec: RolloutSpec, ro: Rollout, log: seq<Entry>, input: Input): nat {
    FailedChecks(spec, log + EntriesOf(spec, ro, Reconcile(input)))
  }

  // --- What holds whatever operators do ---

  /** The status counts no less than the log; it counts more only beyond the threshold. */
  predicate CountsEnough(spec: RolloutSpec, ro: Rollout, log: seq<Entry>) {
    var failed := FailedChecks(spec, log);
    ro.status.failures == failed || (RollsBack(spec) && spec.failureThreshold <= failed < ro.status.failures)
  }

  /** An evaluation at its step's own weight that finds a canary pod missing, with the threshold used up before. */
  predicate Overcounts(spec: RolloutSpec, ro: Rollout, e: Entry) {
    && RollsBack(spec) && ro.status.failures >= spec.failureThreshold
    && Missed(spec, e) && !PodsReady(e.ready, e.desired)
  }

  lemma DecisionFollowsCount(spec: RolloutSpec, ro: Rollout, log: seq<Entry>, input: Input)
    requires CountsEnough(spec, ro, log) && Advances(spec, ro) && !Stuck(spec, ro, input)
    ensures var d, failed := Judge(spec, ro, input), FailedWith(spec, ro, log, input);
      var reached := spec.failureThreshold > 0 && failed >= spec.failureThreshold;
      && (d.phase == RollingBack <==> spec.autoRollback && reached)
      && (d.phase == Failed <==> !spec.autoRollback && reached)
      && Step(spec, ro, Reconcile(input)).status.phase == d.phase
      && CountsEnough(spec, Step(spec, ro, Reconcile(input)), log + EntriesOf(spec, ro, Reconcile(input)))
  {
    DecisionCounts(spec, ro, input);
    var e := EntriesOf(spec, ro, Reconcile(input))[0];
    FailedChecksSnoc(spec, log, e);
    hide Judge, EntriesOf, Missed, FailedChecks;
    assert Step(spec, ro, Reconcile(input)) == ApplyDecision(ro, Judge(spec, ro, input), input.now);
  }

  /** A count that is right becomes wrong exactly by such an evaluation. */
  lemma CountStaysRightUnlessOvercounted(spec: RolloutSpec, ro: Rollout, log: seq<Entry>, input: Input)
    requires ro.status.failures == FailedChecks(spec, log) && Advances(spec, ro) && !Stuck(spec, ro, input)
    ensures var e := EntriesOf(spec, ro, Reconcile(input))[0];
      Step(spec, ro, Reconcile(input)).status.failures == FailedWith(spec, ro, log, input) <==>
        !Overcounts(spec, ro, e)
  {
    DecisionCounts(spec, ro, input);
    var e := EntriesOf(spec, ro, Reconcile(input))[0];
    FailedChecksSnoc(spec, log, e);
    hide Judge, EntriesOf, Missed, FailedChecks;
    assert Step(spec, ro, Reconcile(input)) == ApplyDecision(ro, Judge(spec, ro, input), input.now);
  }

  lemma StepCountsEnough(spec: RolloutSpec, ro: Rollout, log: seq<Entry>, e: Event)
    requires CountsEnough(spec, ro, log)
    ensures CountsEnough(spec, Step(spec, ro, e), log + EntriesOf(spec, ro, e))
  {
    if e.Reconcile? && Advances(spec, ro) && !Stuck(spec, ro, e.input) {
      DecisionFollowsCount(spec, ro, log, e.input);
    } else {
      QuietStepKeepsCount(spec, ro, log, e);
    }
  }

  /** Commands, holds and stamps leave the count and the failures alone. */
  lemma QuietStepKeepsCount(spec: RolloutSpec, ro: Rollout, log: seq<Entry>, e: Event)
    requires e.Reconcile? ==> !Advances(spec, ro) || Stuck(spec, ro, e.input)
    ensures Step(spec, ro, e).status.failures == ro.status.failures
    ensures FailedChecks(spec, log + EntriesOf(spec, ro, e)) == FailedChecks(spec, log)
  {
    var entries := EntriesOf(spec, ro, e);
    if entries == [] {
      assert log + entries == log;
    } else {
      FailedChecksSnoc(spec, log, entries[0]);
      assert entries == [entries[0]];
    }
    hide FailedChecks, Judge;
  }

  lemma {:induction false} RunCountsEnough(spec: RolloutSpec, ro: Rollout, events: seq<Event>)
    requires Fresh(ro)
    ensures CountsEnough(spec, Run(spec, ro, events), Log(spec, ro, events))
  {
    if events != [] {
      hide Step, EntriesOf, CountsEnough;
      var front := events[..|events| - 1];
      RunCountsEnough(spec, ro, front);
      StepCountsEnough(spec, Run(spec, ro, front), Log(spec, ro, front), events[|events| - 1]);
    }
  }

  /**
   In every run, commands included, an evaluation decides RollingBack (Failed without
   auto-rollback) exactly when the failed checks with all pods ready since the last evaluation
   of another kind have reached a positive threshold. The status then says so.
   */
  lemma DecisionsFollowCount(spec: RolloutSpec, ro: Rollout, events: seq<Event>, input: Input)
    requires Fresh(ro)
    requires var end := Run(spec, ro, events); Advances(spec, end) && !Stuck(spec, end, input)
    ensures var end, log := Run(spec, ro, events), Log(spec, ro, events + [Reconcile(input)]);
      var phase := Step(spec, end, Reconcile(input)).status.phase;
      var reached := spec.failureThreshold > 0 && FailedChecks(spec, log) >= spec.failureThreshold;
      && (phase == RollingBack <==> spec.autoRollback && reached)
      && (phase == Failed <==> !spec.autoRollback && reached)
  {
    hide CountsEnough, Advances, Stuck, Judge, EntriesOf, FailedChecks;
    RunCountsEnough(spec, ro, events);
    DecisionFollowsCount(spec, Run(spec, ro, events), Log(spec, ro, events), input);
    assert (events + [Reconcile(input)])[..|events|] == events;
  }

  // --- When the status counts exactly ---

  /** Nothing is evaluated until an operator intervenes. */
  predicate Held(ro: Rollout) {
    ro.ann.aborted || ro.ann.paused || Finished(ro)
  }

  predicate AtOwnWeight(spec: RolloutSpec, ro: Rollout) {
    WeightStep(spec, ro.status.stepIndex) && spec.steps[ro.status.stepIndex].setWeight == Some(ro.status.weight)
  }

  /**
   The count is that of the log and within the threshold. When it is used up, nothing is
   judged at its own weight next. At weight 0 there is no pod to fail the last check left.
   */
  predicate Exact(spec: RolloutSpec, ro: Rollout, log: seq<Entry>) {
    && ro.status.failures == FailedChecks(spec, log)
    && (ro.status.phase == New ==> ro.status.stepIndex == 0 && ro.status.weight == 0)
    && (RollsBack(spec) ==>
          && ro.status.failures <= spec.failureThreshold
          && (ro.status.failures == spec.failureThreshold ==> Held(ro) || !AtOwnWeight(spec, ro))
          && (AtOwnWeight(spec, ro) && ro.status.weight == 0 && Desired(ro) > 0 ==>
                ro.status.failures < spec.failureThreshold - 1))
  }

  /**
   A promotion to a weight step with the threshold used up; or one to a step of weight 0,
   with one failed check missing and canary pods still there to fail it.
   */
  predicate Upsets(spec: RolloutSpec, ro: Rollout) {
    var next := ro.status.stepIndex + 1;
    && RollsBack(spec) && !ro.ann.aborted && WeightStep(spec, next)
    && (|| ro.status.failures >= spec.failureThreshold
        || (&& ro.status.failures == spec.failureThreshold - 1
            && spec.steps[next].setWeight == Some(0) && Desired(ro) > 0))
  }

  lemma JudgedStaysExact(spec: RolloutSpec, ro: Rollout, log: seq<Entry>, input: Input)
    requires Exact(spec, ro, log) && Advances(spec, ro) && !Stuck(spec, ro, input)
    ensures Exact(spec, Step(spec, ro, Reconcile(input)), log + EntriesOf(spec, ro, Reconcile(input)))
  {
    DecisionCounts(spec, ro, input);
    var e := EntriesOf(spec, ro, Reconcile(input))[0];
    FailedChecksSnoc(spec, log, e);
    DecisionKeepsOwnWeight(spec, ro, input);
    hide Judge, EntriesOf, FailedChecks, Evaluate;
    var ro' := Step(spec, ro, Reconcile(input));
    assert ro' == ApplyDecision(ro, Judge(spec, ro, input), input.now);
  }

  /** A decision for weight 0 leaves no canary pod. */
  lemma DecisionKeepsOwnWeight(spec: RolloutSpec, ro: Rollout, input: Input)
    ensures var d := Judge(spec, ro, input); d.weight == 0 ==> d.canaryReplicas == 0
    ensures Judge(spec, ro, input).phase != New
  {
    NothingOfZero(Total(spec, ro));
    hide WeightReplicas;
  }

  lemma CommandStaysExact(spec: RolloutSpec, ro: Rollout, log: seq<Entry>, command: Command)
    requires Exact(spec, ro, log) && (command == Promote ==> !Upsets(spec, ro))
    ensures Exact(spec, ApplyCommand(spec, ro, command), log)
  {
    hide FailedChecks;
  }

  lemma HoldStaysExact(spec: RolloutSpec, ro: Rollout, log: seq<Entry>, input: Input)
    requires Exact(spec, ro, log) && ro.ann.action.None?
    requires !Advances(spec, ro) || Stuck(spec, ro, input)
    ensures Exact(spec, Step(spec, ro, Reconcile(input)), log)
  {
    NothingOfZero(Total(spec, ro));
    hide FailedChecks, WeightReplicas, Judge;
  }

  lemma StepStaysExact(spec: RolloutSpec, ro: Rollout, log: seq<Entry>, e: Event)
    requires Exact(spec, ro, log)
    requires e.Reconcile? && ro.ann.action == Some(Promote) ==> !Upsets(spec, ro)
    ensures Exact(spec, Step(spec, ro, e), log + EntriesOf(spec, ro, e))
  {
    if e.Reconcile? && Advances(spec, ro) && !Stuck(spec, ro, e.input) {
      JudgedStaysExact(spec, ro, log, e.input);
    } else {
      QuietStepKeepsCount(spec, ro, log, e);
      if e.Reconcile? && ro.ann.action.None? {
        HoldStaysExact(spec, ro, log, e.input);
      } else if e.Reconcile? {
        CommandStaysExact(spec, ro, log, ro.ann.action.value);
      }
      hide FailedChecks, EntriesOf, ApplyCommand, Advances, Stuck;
    }
  }

  /** No promotion that upsets the count is consumed. */
  predicate NeverUpset(spec: RolloutSpec, ro: Rollout, events: seq<Event>) {
    events == [] ||
    var front, e := events[..|events| - 1], events[|events| - 1];
    var before := Run(spec, ro, front);
    NeverUpset(spec, ro, front) && !(e.Reconcile? && before.ann.action == Some(Promote) && Upsets(spec, before))
  }

  lemma {:induction false} RunStaysExact(spec: RolloutSpec, ro: Rollout, log: seq<Entry>, events: seq<Event>)
    requires Exact(spec, ro, log) && NeverUpset(spec, ro, events)
    ensures Exact(spec, Run(spec, ro, events), log + Log(spec, ro, events))
  {
    hide Step, EntriesOf, Exact, Upsets;
    if events == [] {
      assert log + Log(spec, ro, events) == log;
    } else {
      var front, e := events[..|events| - 1], events[|events| - 1];
      RunStaysExact(spec, ro, log, front);
      StepStaysExact(spec, Run(spec, ro, front), log + Log(spec, ro, front), e);
      assert log + Log(spec, ro, events) == log + Log(spec, ro, front) + EntriesOf(spec, Run(spec, ro, front), e);
    }
  }

  /**
   In every run, commands included, in which no promotion upsets it, ConsecutiveFailures is
   the number of failed checks with all pods ready since the last evaluation of another kind,
   and it never passes the threshold of a rollout that rolls back.
   */
  lemma CountIsExact(spec: RolloutSpec, ro: Rollout, events: seq<Event>)
    requires Fresh(ro) && NeverUpset(spec, ro, events)
    ensures var failures := Run(spec, ro, events).status.failures;
      && failures == FailedChecks(spec, Log(spec, ro, events))
      && (RollsBack(spec) ==> failures <= spec.failureThreshold)
  {
    RunStaysExact(spec, ro, [], events);
    assert [] + Log(spec, ro, events) == Log(spec, ro, events);
  }

  // --- When it does not ---

  const NO_POD := Input(0, 0, false, false)

  /** A check that all pods are ready for, and that fails. */
  function FailingCheck(ro: Rollout): Input {
    Input(if ro.status.lastHealthCheck.Some? then ro.status.lastHealthCheck.value + HEALTH_CHECK_INTERVAL else 0,
          Desired(ro), false, false)
  }

  /** With the threshold used up, a canary that is not ready is counted as one more failure. */
  lemma MissingPodIsCounted(spec: RolloutSpec, ro: Rollout, log: seq<Entry>)
    requires RollsBack(spec) && ro.status.failures == spec.failureThreshold == FailedChecks(spec, log)
    requires NoCommands(ro) && !Finished(ro) && ro.status.phase != New && AtOwnWeight(spec, ro)
    ensures var ro' := Step(spec, ro, Reconcile(NO_POD));
      && ro'.status.phase == RollingBack && ro'.status.failures == spec.failureThreshold + 1
      && FailedWith(spec, ro, log, NO_POD) == spec.failureThreshold
  {
    DecisionCounts(spec, ro, NO_POD);
    var e := EntriesOf(spec, ro, Reconcile(NO_POD))[0];
    FailedChecksSnoc(spec, log, e);
    hide Judge, FailedChecks;
  }

  lemma LastCheckFails(spec: RolloutSpec, ro: Rollout, log: seq<Entry>)
    requires RollsBack(spec) && ro.status.failures == spec.failureThreshold - 1 == FailedChecks(spec, log)
    requires NoCommands(ro) && !Finished(ro) && ro.status.phase != New && AtOwnWeight(spec, ro)
    requires ro.status.weight == 0 && Desired(ro) > 0
    ensures var check := FailingCheck(ro);
      var ro' := Step(spec, ro, Reconcile(check));
      && NoCommands(ro') && ro'.status.phase == RollingBack && AtOwnWeight(spec, ro')
      && ro'.status.failures == spec.failureThreshold == FailedWith(spec, ro, log, check)
  {
    var check := FailingCheck(ro);
    DecisionCounts(spec, ro, check);
    var e := EntriesOf(spec, ro, Reconcile(check))[0];
    FailedChecksSnoc(spec, log, e);
    hide Judge, FailedChecks;
  }

  lemma LogSnoc(spec: RolloutSpec, ro: Rollout, events: seq<Event>, e: Event)
    ensures Run(spec, ro, events + [e]) == Step(spec, Run(spec, ro, events), e)
    ensures Log(spec, ro, events + [e]) == Log(spec, ro, events) + EntriesOf(spec, Run(spec, ro, events), e)
  {
    assert (events + [e])[..|events|] == events;
  }

  lemma LogOfTwo(spec: RolloutSpec, ro: Rollout, a: Event, b: Event)
    ensures Run(spec, ro, [a, b]) == Step(spec, Step(spec, ro, a), b)
    ensures Log(spec, ro, [a, b]) == EntriesOf(spec, ro, a) + EntriesOf(spec, Step(spec, ro, a), b)
  {
    LogSnoc(spec, ro, [], a);
    LogSnoc(spec, ro, [a], b);
    assert [] + [a] == [a] && [a] + [b] == [a, b];
    assert Run(spec, ro, []) == ro && Log(spec, ro, []) == [];
    hide Step, EntriesOf, Log;
  }

  /** What consuming an upsetting promotion leaves. */
  lemma Promoted(spec: RolloutSpec, ro: Rollout)
    requires ro.ann.action == Some(Promote) && Upsets(spec, ro)
    ensures var ro' := Step(spec, ro, Reconcile(NO_POD));
      && NoCommands(ro') && !Finished(ro') && ro'.status.phase != New && AtOwnWeight(spec, ro')
      && ro'.status.failures == ro.status.failures && ro'.canary == ro.canary
      && EntriesOf(spec, ro, Reconcile(NO_POD)) == []
      && spec.steps[ro.status.stepIndex + 1].setWeight == Some(ro'.status.weight)
  {
  }

  lemma UpsetCountGoesWrong(spec: RolloutSpec, ro: Rollout, log: seq<Entry>) returns (events: seq<Event>)
    requires Exact(spec, ro, log) && ro.ann.action == Some(Promote) && Upsets(spec, ro)
    ensures OperatorFree(events)
    ensures Run(spec, ro, events).status.failures > FailedChecks(spec, log + Log(spec, ro, events))
  {
    hide Run, Log, Step, EntriesOf, FailedChecks, AtOwnWeight;
    Promoted(spec, ro);
    var promoted := Step(spec, ro, Reconcile(NO_POD));
    if ro.status.failures == spec.failureThreshold {
      events := [Reconcile(NO_POD), Reconcile(NO_POD)];
      LogOfTwo(spec, ro, Reconcile(NO_POD), Reconcile(NO_POD));
      MissingPodIsCounted(spec, promoted, log);
      assert Log(spec, ro, events) == EntriesOf(spec, promoted, Reconcile(NO_POD));
    } else {
      events := LastCheckGoesWrong(spec, ro, log);
    }
  }

  /** The other case: the last check fails at weight 0, and then a pod is missing. */
  lemma LastCheckGoesWrong(spec: RolloutSpec, ro: Rollout, log: seq<Entry>) returns (events: seq<Event>)
    requires Exact(spec, ro, log) && ro.ann.action == Some(Promote) && Upsets(spec, ro)
    requires ro.status.failures != spec.failureThreshold
    ensures OperatorFree(events)
    ensures Run(spec, ro, events).status.failures > FailedChecks(spec, log + Log(spec, ro, events))
  {
    hide Run, Log, Step, EntriesOf, FailedChecks, AtOwnWeight;
    Promoted(spec, ro);
    var promoted := Step(spec, ro, Reconcile(NO_POD));
    var check := FailingCheck(promoted);
    var two := [Reconcile(NO_POD), Reconcile(check)];
    LogOfTwo(spec, ro, Reconcile(NO_POD), Reconcile(check));
    LastCheckFails(spec, promoted, log);
    var failed := Step(spec, promoted, Reconcile(check));
    var log2 := log + EntriesOf(spec, promoted, Reconcile(check));
    MissingPodIsCounted(spec, failed, log2);
    events := two + [Reconcile(NO_POD)];
    LogSnoc(spec, ro, two, Reconcile(NO_POD));
    assert log + Log(spec, ro, events) == log2 + EntriesOf(spec, failed, Reconcile(NO_POD));
  }

  lemma {:induction false} OneCommandIsConsumed(spec: RolloutSpec, ro: Rollout, events: seq<Event>)
    requires OperatorFree(events) && !Upsets(spec, ro)
    ensures NeverUpset(spec, ro, events)
    ensures events != [] ==> Run(spec, ro, events).ann.action.None?
  {
    if events != [] {
      var front, e := events[..|events| - 1], events[|events| - 1];
      OneCommandIsConsumed(spec, ro, front);
      assert e in events;
      hide Upsets;
    }
  }

  /**
   The exact condition. A promotion about to be consumed leaves the count right in every
   run without further commands, if and only if it does not upset it.
   */
  lemma PromotionKeepsCountIff(spec: RolloutSpec, ro: Rollout, log: seq<Entry>)
    requires Exact(spec, ro, log) && ro.ann.action == Some(Promote)
    ensures !Upsets(spec, ro) <==> forall events :: OperatorFree(events) ==>
      Run(spec, ro, events).status.failures == FailedChecks(spec, log + Log(spec, ro, events))
  {
    hide Run, Log, Upsets, NeverUpset, FailedChecks;
    if Upsets(spec, ro) {
      var events := UpsetCountGoesWrong(spec, ro, log);
    } else {
      forall events | OperatorFree(events)
        ensures Run(spec, ro, events).status.failures == FailedChecks(spec, log + Log(spec, ro, events))
      {
        OneCommandIsConsumed(spec, ro, events);
        RunStaysExact(spec, ro, log, events);
      }
    }
  }

  /**
   After a health rollback, a promotion to a weight step and a reconcile that finds no pod
   ready roll back again and count a failure, although no check has failed.
   */
  lemma PromotedRollbackCountsNothing(spec: RolloutSpec, ro: Rollout, events: seq<Event>)
    requires FixedTotal(spec) && Fresh(ro) && OperatorFree(events)
    requires Run(spec, ro, events).status.phase == RollingBack
    requires WeightStep(spec, Run(spec, ro, events).status.stepIndex + 1)
    ensures var rolledBack, log := Run(spec, ro, events), Log(spec, ro, events);
      var promoted := Step(spec, Step(spec, rolledBack, Operator(Promote)), Reconcile(NO_POD));
      var again := Step(spec, promoted, Reconcile(NO_POD));
      && rolledBack.status.failures == spec.failureThreshold == FailedChecks(spec, log)
      && again.status.phase == RollingBack && again.status.failures == spec.failureThreshold + 1
      && FailedWith(spec, promoted, log, NO_POD) == spec.failureThreshold
  {
    hide FailedChecks, Run, Log, Counted, Coupled, InBounds, Step, EntriesOf, AtOwnWeight;
    RunIsCounted(spec, ro, events);
    ReplicasFollowWeight(spec, ro, events);
    var rolledBack, log := Run(spec, ro, events), Log(spec, ro, events);
    ThresholdIsUsedUp(spec, rolledBack, log);
    var requested := Step(spec, rolledBack, Operator(Promote));
    Promoted(spec, requested);
    MissingPodIsCounted(spec, Step(spec, requested, Reconcile(NO_POD)), log);
  }

  lemma ThresholdIsUsedUp(spec: RolloutSpec, ro: Rollout, log: seq<Entry>)
    requires FixedTotal(spec) && Counted(spec, ro, log) && Coupled(spec, ro) && ro.status.phase == RollingBack
    ensures RollsBack(spec) && ro.status.failures == spec.failureThreshold == FailedChecks(spec, log)
    ensures var requested := Step(spec, ro, Operator(Promote));
      && requested == ro.(ann := ro.ann.(action := Some(Promote)))
      && (WeightStep(spec, ro.status.stepIndex + 1) ==> Upsets(spec, requested))
  {
  }
}
