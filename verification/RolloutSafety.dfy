/** What holds in every run of a rollout: bounds, replica counts, gates, holds. */
module RolloutSafety {
  import opened Wrappers
  import opened RolloutTypes
  import opened Canary
  import opened RolloutSystem

  // --- Bounds, commands included ---

  ghost predicate InBounds(spec: RolloutSpec, ro: Rollout) {
    && ro.status.stepIndex <= |spec.steps| && KnownWeight(spec, ro.status.weight)
    && (ro.status.phase == New ==> ro.status.stepIndex == 0 && ro.status.weight == 0)
  }

  lemma CommandStaysInBounds(spec: RolloutSpec, ro: Rollout, command: Command)
    requires InBounds(spec, ro)
    ensures var ro' := ApplyCommand(spec, ro, command);
      InBounds(spec, ro') && ro.status.stepIndex <= ro'.status.stepIndex
  {
  }

  lemma DecisionStaysInBounds(spec: RolloutSpec, ro: Rollout, input: Input)
    requires InBounds(spec, ro)
    ensures var d := Judge(spec, ro, input);
      && ro.status.stepIndex <= d.stepIndex <= |spec.steps| && KnownWeight(spec, d.weight) && d.phase != New
  {
  }

  lemma StepStaysInBounds(spec: RolloutSpec, ro: Rollout, e: Event)
    requires InBounds(spec, ro)
    ensures InBounds(spec, Step(spec, ro, e)) && ro.status.stepIndex <= Step(spec, ro, e).status.stepIndex
  {
    hide ApplyCommand, Judge, KnownWeight;
    assert KnownWeight(spec, 0) by {
      ZeroIsKnown(spec);
    }
    if e.Reconcile? {
      if ro.ann.action.Some? {
        CommandStaysInBounds(spec, ro, ro.ann.action.value);
      } else {
        DecisionStaysInBounds(spec, ro, e.input);
      }
    }
  }

  lemma ZeroIsKnown(spec: RolloutSpec)
    ensures KnownWeight(spec, 0)
  {
  }

  /** Whatever operators do, the step index never leaves the plan nor moves back; the weight is 0 or a planned one. */
  lemma {:induction false} RunStaysInBounds(spec: RolloutSpec, ro: Rollout, events: seq<Event>)
    requires InBounds(spec, ro)
    ensures InBounds(spec, Run(spec, ro, events)) && ro.status.stepIndex <= Run(spec, ro, events).status.stepIndex
  {
    hide Step, InBounds;
    if events != [] {
      var front := events[..|events| - 1];
      RunStaysInBounds(spec, ro, front);
      StepStaysInBounds(spec, Run(spec, ro, front), events[|events| - 1]);
    }
  }

  // --- Requested pods ---

  predicate FixedTotal(spec: RolloutSpec) {
    Valid(spec) && spec.replicas.Some?
  }

  /** The requested pods of both Deployments sum to the total, with the canary's share within it. */
  predicate Balanced(spec: RolloutSpec, ro: Rollout)
    requires spec.replicas.Some?
  {
    ro.canary.Some? ==>
      && 0 <= ro.canary.value <= spec.replicas.value
      && ro.stable == Some(spec.replicas.value - ro.canary.value)
  }

  lemma StepBalances(spec: RolloutSpec, ro: Rollout, e: Event)
    requires FixedTotal(spec) && InBounds(spec, ro) && Balanced(spec, ro)
    ensures Balanced(spec, Step(spec, ro, e))
  {
    hide Evaluate, WeightReplicas;
    var total := spec.replicas.value;
    KnownWeightIsPercentage(spec, ro.status.weight);
    WeightReplicasIsFloor(Initialized(ro.status).weight, total);
    if e.Reconcile? {
      DecisionsConserve(spec, Initialized(ro.status), ro.ann.pauseStart, Ready(ro, e.input), Desired(ro), total,
        IsHealthy(ro, e.input), e.input.now);
    }
  }

  /** With a fixed total, every run, commands included, keeps requesting exactly that many pods. */
  lemma {:induction false} RequestedPodsSumToTotal(spec: RolloutSpec, ro: Rollout, events: seq<Event>)
    requires FixedTotal(spec) && Fresh(ro)
    ensures InBounds(spec, Run(spec, ro, events)) && Balanced(spec, Run(spec, ro, events))
  {
    RunStaysInBounds(spec, ro, events);
    hide Step, InBounds;
    if events != [] {
      var front := events[..|events| - 1];
      RequestedPodsSumToTotal(spec, ro, front);
      StepBalances(spec, Run(spec, ro, front), events[|events| - 1]);
    }
  }

  // --- Replica coupling, without operators ---

  predicate NoCommands(ro: Rollout) {
    ro.ann.action.None? && !ro.ann.aborted && !ro.ann.paused
  }

  /** The Deployments have the replicas that the status's weight asks for; a finished rollback has none. */
  predicate Coupled(spec: RolloutSpec, ro: Rollout)
    requires spec.replicas.Some?
  {
    && NoCommands(ro)
    && (ro.canary.None? ==> ro.status.phase == New && ro.status.weight == 0)
    && (ro.canary.Some? ==>
          && ro.status.phase != New && ro.stable == Some(spec.replicas.value - ro.canary.value)
          && ro.canary.value ==
               if ro.status.phase == RolledBack then 0 else WeightReplicas(ro.status.weight, spec.replicas.value))
  }

  lemma JudgedStaysCoupled(spec: RolloutSpec, ro: Rollout, input: Input)
    requires FixedTotal(spec) && Coupled(spec, ro) && Advances(spec, ro) && !Stuck(spec, ro, input)
    ensures Coupled(spec, Step(spec, ro, Reconcile(input)))
  {
    hide Evaluate, WeightReplicas;
    DecisionSplits(spec, Initialized(ro.status), ro.ann.pauseStart, Ready(ro, input), Desired(ro), Total(spec, ro),
      IsHealthy(ro, input), input.now);
    JudgedIsGoingOn(spec, ro, input);
    var d := Judge(spec, ro, input);
    assert d.canaryReplicas + d.stableReplicas == spec.replicas.value;
    assert d.canaryReplicas == WeightReplicas(d.weight, spec.replicas.value);
    hide Judge, IsHealthy, Initialized;
    assert Step(spec, ro, Reconcile(input)) == ApplyDecision(ro, d, input.now);
  }

  lemma JudgedIsGoingOn(spec: RolloutSpec, ro: Rollout, input: Input)
    ensures Judge(spec, ro, input).phase !in {RolledBack, New}
  {
    hide WeightReplicas;
  }

  lemma StepStaysCoupled(spec: RolloutSpec, ro: Rollout, input: Input)
    requires FixedTotal(spec) && InBounds(spec, ro) && Coupled(spec, ro)
    ensures Coupled(spec, Step(spec, ro, Reconcile(input)))
  {
    if Advances(spec, ro) && !Stuck(spec, ro, input) {
      JudgedStaysCoupled(spec, ro, input);
    } else {
      hide WeightReplicas, Judge;
    }
  }

  /**
   In every run without operators the canary Deployment has floor(weight * total / 100)
   replicas and the stable one the rest; once RolledBack, none and all.
   */
  lemma {:induction false} ReplicasFollowWeight(spec: RolloutSpec, ro: Rollout, events: seq<Event>)
    requires FixedTotal(spec) && Fresh(ro) && OperatorFree(events)
    ensures Coupled(spec, Run(spec, ro, events)) && InBounds(spec, Run(spec, ro, events))
  {
    RunStaysInBounds(spec, ro, events);
    hide InBounds, Step;
    if events != [] {
      var front, e := events[..|events| - 1], events[|events| - 1];
      ReplicasFollowWeight(spec, ro, front);
      assert e in events;
      StepStaysCoupled(spec, Run(spec, ro, front), e.input);
    }
  }

  // --- The gate ---

  predicate WeightStep(spec: RolloutSpec, i: nat) {
    i < |spec.steps| && spec.steps[i].pause.None? && spec.steps[i].setWeight.Some?
  }

  /** An evaluation that found the canary ready and healthy at the step's own weight. */
  predicate PassesWeight(spec: RolloutSpec, e: Entry, i: nat) {
    && WeightStep(spec, i) && e.Judged? && e.stepIndex == i && e.weight == spec.steps[i].setWeight.value
    && e.desired > 0 && e.ready >= e.desired && e.healthy
  }

  /** An evaluation that found a stamp of the step at least the pause's duration old, and a healthy canary. */
  predicate PassesPause(spec: RolloutSpec, e: Entry, i: nat) {
    && TimedPause(spec, i) && e.Judged? && e.stepIndex == i
    && PauseElapsed(e.stamp, i, spec.steps[i].pause.value.duration.value, e.healthy, e.now)
  }

  ghost predicate Passed(spec: RolloutSpec, log: seq<Entry>, i: nat)
    requires i < |spec.steps|
  {
    if spec.steps[i].pause.Some? then exists e :: e in log && PassesPause(spec, e, i)
    else spec.steps[i].setWeight.Some? ==> exists e :: e in log && PassesWeight(spec, e, i)
  }

  /** The stamp was written by this run, for that step and in that second. */
  ghost predicate StampedIn(log: seq<Entry>, stamp: Stamp) {
    exists e :: e in log && e.Stamped? && e.stepIndex == stamp.stepIndex && e.now / SECOND == stamp.second
  }

  ghost predicate Gated(spec: RolloutSpec, ro: Rollout, log: seq<Entry>) {
    && ro.status.stepIndex <= |spec.steps|
    && ro.ann.action != Some(Promote)
    && (ro.status.phase == New ==> ro.status.stepIndex == 0)
    && (ro.status.phase == Healthy ==> ro.status.stepIndex == |spec.steps|)
    && (forall i | 0 <= i < ro.status.stepIndex :: Passed(spec, log, i))
    && (ro.ann.pauseStart.Some? ==> StampedIn(log, ro.ann.pauseStart.value))
    && (forall e | e in log && e.Judged? && e.stamp.Some? :: e.stamp == ro.ann.pauseStart)
  }

  lemma PassedStays(spec: RolloutSpec, log: seq<Entry>, more: seq<Entry>, i: nat)
    requires i < |spec.steps| && Passed(spec, log, i)
    ensures Passed(spec, log + more, i)
  {
    if spec.steps[i].pause.Some? {
      var e :| e in log && PassesPause(spec, e, i);
      assert e in log + more;
    } else if spec.steps[i].setWeight.Some? {
      var e :| e in log && PassesWeight(spec, e, i);
      assert e in log + more;
    }
  }

  /** An evaluation advances only over a step that its own log entry passes. */
  lemma AdvancePasses(spec: RolloutSpec, ro: Rollout, input: Input)
    requires Advances(spec, ro) && !Stuck(spec, ro, input)
    requires ro.status.stepIndex <= |spec.steps| && (ro.status.phase == New ==> ro.status.stepIndex == 0)
    ensures var ro', entries := Step(spec, ro, Reconcile(input)), EntriesOf(spec, ro, Reconcile(input));
      && ro.status.stepIndex <= ro'.status.stepIndex <= ro.status.stepIndex + 1 <= |spec.steps| + 1
      && ro'.status.stepIndex <= |spec.steps|
      && (ro'.status.stepIndex == ro.status.stepIndex + 1 ==> Passed(spec, entries, ro.status.stepIndex))
      && (ro'.status.phase == Healthy ==> ro'.status.stepIndex == |spec.steps|)
      && ro'.ann == ro.ann && ro'.status.phase != New
  {
    var ro', entries := Step(spec, ro, Reconcile(input)), EntriesOf(spec, ro, Reconcile(input));
    assert entries[0] in entries;
    if ro'.status.stepIndex == ro.status.stepIndex + 1 {
      var i := ro.status.stepIndex;
      assert PassesPause(spec, entries[0], i) || PassesWeight(spec, entries[0], i)
        || (spec.steps[i].pause.None? && spec.steps[i].setWeight.None?);
    }
  }

  lemma StampStays(log: seq<Entry>, more: seq<Entry>, stamp: Stamp)
    requires StampedIn(log, stamp)
    ensures StampedIn(log + more, stamp)
  {
    var e :| e in log && e.Stamped? && e.stepIndex == stamp.stepIndex && e.now / SECOND == stamp.second;
    assert e in log + more;
  }

  lemma StepStaysGated(spec: RolloutSpec, ro: Rollout, log: seq<Entry>, e: Event)
    requires Gated(spec, ro, log) && e != Operator(Promote)
    ensures Gated(spec, Step(spec, ro, e), log + EntriesOf(spec, ro, e))
  {
    var ro', entries := Step(spec, ro, e), EntriesOf(spec, ro, e);
    forall i | 0 <= i < ro.status.stepIndex ensures Passed(spec, log + entries, i) {
      PassedStays(spec, log, entries, i);
    }
    if ro.ann.pauseStart.Some? {
      StampStays(log, entries, ro.ann.pauseStart.value);
    }
    if e.Reconcile? && Advances(spec, ro) && !Stuck(spec, ro, e.input) {
      AdvancePasses(spec, ro, e.input);
      if ro'.status.stepIndex == ro.status.stepIndex + 1 {
        PassedLater(spec, log, entries, ro.status.stepIndex);
      }
    } else if e.Reconcile? && NoCommands(ro) && !Finished(ro) && NeedsStamp(spec, ro) {
      assert entries[0] in log + entries;
    }
  }

  lemma PassedLater(spec: RolloutSpec, log: seq<Entry>, more: seq<Entry>, i: nat)
    requires i < |spec.steps| && Passed(spec, more, i)
    ensures Passed(spec, log + more, i)
  {
    if spec.steps[i].pause.Some? {
      var e :| e in more && PassesPause(spec, e, i);
      assert e in log + more;
    } else if spec.steps[i].setWeight.Some? {
      var e :| e in more && PassesWeight(spec, e, i);
      assert e in log + more;
    }
  }

  lemma {:induction false} RunIsGated(spec: RolloutSpec, ro: Rollout, events: seq<Event>)
    requires Fresh(ro) && PromoteFree(events)
    ensures Gated(spec, Run(spec, ro, events), Log(spec, ro, events))
  {
    if events == [] {
    } else {
      hide Step, Gated, EntriesOf;
      var front := events[..|events| - 1];
      RunIsGated(spec, ro, front);
      StepStaysGated(spec, Run(spec, ro, front), Log(spec, ro, front), events[|events| - 1]);
    }
  }

  /**
   The gate: unless an operator promotes, a rollout is Healthy only after every step was
   earned. Each weight step had an evaluation at that step and weight with canary pods
   wanted, all ready, and healthy; no pause was indefinite; and each timed pause was left
   by an evaluation with a healthy canary more than its duration minus one second after
   the stamp of that very step was written.
   */
  lemma HealthyMeansEveryStepPassed(spec: RolloutSpec, ro: Rollout, events: seq<Event>, i: nat)
    requires Fresh(ro) && PromoteFree(events) && i < |spec.steps|
    requires Run(spec, ro, events).status.phase == Healthy
    ensures var log := Log(spec, ro, events);
      && (WeightStep(spec, i) ==> exists e :: e in log && PassesWeight(spec, e, i))
      && (spec.steps[i].pause.Some? ==>
            && TimedPause(spec, i)
            && exists entry, exit :: entry in log && exit in log && PassesPause(spec, exit, i)
                 && entry.Stamped? && entry.stepIndex == i
                 && exit.now - entry.now > spec.steps[i].pause.value.duration.value - SECOND)
  {
    RunIsGated(spec, ro, events);
    var end, log := Run(spec, ro, events), Log(spec, ro, events);
    assert Passed(spec, log, i);
    if spec.steps[i].pause.Some? {
      var exit :| exit in log && PassesPause(spec, exit, i);
      assert exit.stamp == end.ann.pauseStart;
      var entry :| entry in log && entry.Stamped? && entry.stepIndex == i
        && entry.now / SECOND == exit.stamp.value.second;
      assert entry.now - entry.now / SECOND * SECOND < SECOND;
    }
  }

  /**
   The stamp of the first timed pause is never replaced, so it is never that of a second
   one: unless an operator promotes, no run gets past the second timed pause of a plan.
   */
  lemma SecondTimedPauseHolds(spec: RolloutSpec, ro: Rollout, events: seq<Event>, i: nat, j: nat)
    requires Fresh(ro) && PromoteFree(events) && i < j && TimedPause(spec, i) && TimedPause(spec, j)
    ensures Run(spec, ro, events).status.stepIndex <= j && Run(spec, ro, events).status.phase != Healthy
  {
    RunIsGated(spec, ro, events);
    var end, log := Run(spec, ro, events), Log(spec, ro, events);
    if end.status.stepIndex > i {
      assert Passed(spec, log, i);
      var first :| first in log && PassesPause(spec, first, i);
      assert forall e | e in log && e.Judged? && e.stamp.Some? :: e.stamp == first.stamp;
      OneStampPassesOnePause(spec, log, first, i, j);
    }
  }

  lemma OneStampPassesOnePause(spec: RolloutSpec, log: seq<Entry>, first: Entry, i: nat, j: nat)
    requires PassesPause(spec, first, i) && TimedPause(spec, j) && i != j
    requires forall e | e in log && e.Judged? && e.stamp.Some? :: e.stamp == first.stamp
    ensures !Passed(spec, log, j)
  {
    forall e | e in log ensures !PassesPause(spec, e, j) {
    }
  }

  // --- Failure counting, without operators ---

  /** An evaluation at the step's weight that did not pass. */
  predicate Missed(spec: RolloutSpec, e: Entry) {
    && e.Judged? && WeightStep(spec, e.stepIndex) && e.weight == spec.steps[e.stepIndex].setWeight.value
    && !(PodsReady(e.ready, e.desired) && e.healthy)
  }

  /** Failed checks with all pods ready since the last evaluation that advanced, rescaled, skipped or paused. */
  function FailedChecks(spec: RolloutSpec, log: seq<Entry>): nat {
    if log == [] then 0 else
      var front, e := log[..|log| - 1], log[|log| - 1];
      if e.Stamped? then FailedChecks(spec, front)
      else if !Missed(spec, e) then 0
      else FailedChecks(spec, front) + (if PodsReady(e.ready, e.desired) then 1 else 0)
  }

  /** Past the threshold the rollout stops; before, the count is below it. */
  ghost predicate Counted(spec: RolloutSpec, ro: Rollout, log: seq<Entry>) {
    && ro.status.failures == FailedChecks(spec, log)
    && (spec.failureThreshold > 0 ==> ro.status.failures <= spec.failureThreshold)
    && (ro.status.phase in {RollingBack, Failed} ==>
          spec.failureThreshold > 0 && ro.status.failures == spec.failureThreshold
          && (ro.status.phase == RollingBack <==> spec.autoRollback))
    && (spec.failureThreshold > 0 && ro.status.failures == spec.failureThreshold ==>
          ro.status.phase in {RollingBack, Failed, RolledBack})
    && (ro.status.phase == RollingBack ==>
          ro.status.weight == 0 && WeightStep(spec, ro.status.stepIndex)
          && spec.steps[ro.status.stepIndex].setWeight != Some(0))
    && (ro.status.phase == New ==> ro.status.stepIndex == 0)
  }

  lemma FailedChecksSnoc(spec: RolloutSpec, log: seq<Entry>, e: Entry)
    ensures FailedChecks(spec, log + [e]) ==
      if e.Stamped? then FailedChecks(spec, log)
      else if !Missed(spec, e) then 0
      else FailedChecks(spec, log) + (if PodsReady(e.ready, e.desired) then 1 else 0)
  {
    assert (log + [e])[..|log|] == log;
  }

  /** What an evaluation does to the count and the phase, by what it judged. */
  lemma DecisionCounts(spec: RolloutSpec, ro: Rollout, input: Input)
    requires Advances(spec, ro) && !Stuck(spec, ro, input)
    ensures var d, e := Judge(spec, ro, input), EntriesOf(spec, ro, Reconcile(input))[0];
      var failed := ro.status.failures + (if PodsReady(e.ready, e.desired) then 1 else 0);
      var status := Initialized(ro.status);
      && EntriesOf(spec, ro, Reconcile(input)) == [e] && e.Judged?
      && (!Missed(spec, e) ==> d.failures == 0 && d.phase in {Progressing, Paused, Healthy})
      && (Missed(spec, e) ==>
            && e.weight == status.weight && e.stepIndex == status.stepIndex == d.stepIndex && e.desired == Desired(ro)
            && if spec.failureThreshold > 0 && failed >= spec.failureThreshold
               then if spec.autoRollback
                    then d.phase == RollingBack && d.failures == ro.status.failures + 1 && d.weight == 0
                    else d.phase == Failed && d.failures == failed
               else d.phase == Progressing && d.failures == failed)
  {
  }

  lemma JudgedStaysCounted(spec: RolloutSpec, ro: Rollout, log: seq<Entry>, input: Input)
    requires FixedTotal(spec) && Coupled(spec, ro) && Counted(spec, ro, log)
    requires Advances(spec, ro) && !Stuck(spec, ro, input)
    ensures Counted(spec, Step(spec, ro, Reconcile(input)), log + EntriesOf(spec, ro, Reconcile(input)))
  {
    WeightReplicasIsFloor(0, spec.replicas.value);
    DecisionCounts(spec, ro, input);
    var e := EntriesOf(spec, ro, Reconcile(input))[0];
    FailedChecksSnoc(spec, log, e);
    hide Judge, EntriesOf;
    var ro' := Step(spec, ro, Reconcile(input));
    assert ro' == ApplyDecision(ro, Judge(spec, ro, input), input.now);
    if Missed(spec, e) {
      assert ro.status.phase != RollingBack;
      assert PodsReady(e.ready, e.desired) ==> e.weight != 0;
    }
  }

  lemma StepStaysCounted(spec: RolloutSpec, ro: Rollout, log: seq<Entry>, input: Input)
    requires FixedTotal(spec) && Coupled(spec, ro) && Counted(spec, ro, log)
    ensures Counted(spec, Step(spec, ro, Reconcile(input)), log + EntriesOf(spec, ro, Reconcile(input)))
  {
    if Advances(spec, ro) && !Stuck(spec, ro, input) {
      JudgedStaysCounted(spec, ro, log, input);
    } else {
      hide Judge;
      var entries := EntriesOf(spec, ro, Reconcile(input));
      if entries == [] {
        assert log + entries == log;
      } else {
        FailedChecksSnoc(spec, log, entries[0]);
        assert entries == [entries[0]];
      }
    }
  }

  /** Without operators the stored phase shows at all times whether the threshold is reached. */
  lemma {:induction false} RunIsCounted(spec: RolloutSpec, ro: Rollout, events: seq<Event>)
    requires FixedTotal(spec) && Fresh(ro) && OperatorFree(events)
    ensures Counted(spec, Run(spec, ro, events), Log(spec, ro, events))
  {
    if events == [] {
    } else {
      hide Step, Counted, EntriesOf, Coupled, InBounds;
      var front, e := events[..|events| - 1], events[|events| - 1];
      RunIsCounted(spec, ro, front);
      ReplicasFollowWeight(spec, ro, front);
      assert e in events;
      StepStaysCounted(spec, Run(spec, ro, front), Log(spec, ro, front), e.input);
    }
  }

  // --- Rollbacks ---

  /** The reconcile after a health rollback rescales to the step's weight. */
  lemma RollingBackResumes(spec: RolloutSpec, ro: Rollout, log: seq<Entry>, input: Input)
    requires FixedTotal(spec) && Coupled(spec, ro) && Counted(spec, ro, log) && ro.status.phase == RollingBack
    ensures ro.status.stepIndex < |spec.steps| && spec.steps[ro.status.stepIndex].setWeight.Some?
    ensures var target := spec.steps[ro.status.stepIndex].setWeight.value;
      Step(spec, ro, Reconcile(input)) ==
        if input.replicaFailure then RollBackStuck(spec, ro)
        else ApplyDecision(ro, At(Progressing, ro.status.stepIndex, target, spec.replicas.value, 0), input.now)
  {
    hide WeightReplicas;
    assert ro.canary.Some?;
  }

  /**
   A rollback decided by health checks does not last: in every run without operators, the
   next reconcile scales the canary up again, unless a stuck canary Deployment is found.
   */
  lemma HealthRollbackDoesNotLast(spec: RolloutSpec, ro: Rollout, events: seq<Event>, input: Input)
    requires FixedTotal(spec) && Fresh(ro) && OperatorFree(events)
    requires Run(spec, ro, events).status.phase == RollingBack
    ensures var end := Run(spec, ro, events); var next := Step(spec, end, Reconcile(input));
      && end.canary == Some(0) && end.status.weight == 0
      && (next.status.phase == RolledBack <==> input.replicaFailure)
      && (!input.replicaFailure ==>
            next.status.phase == Progressing && next.status.weight > 0
            && end.status.stepIndex < |spec.steps|
            && spec.steps[end.status.stepIndex].setWeight == Some(next.status.weight)
            && next.canary == Some(WeightReplicas(next.status.weight, spec.replicas.value)))
  {
    RunIsCounted(spec, ro, events);
    ReplicasFollowWeight(spec, ro, events);
    WeightReplicasIsFloor(0, spec.replicas.value);
    RollingBackResumes(spec, Run(spec, ro, events), Log(spec, ro, events), input);
    hide Step, WeightReplicas;
  }

  /** Without commands, Failed and RolledBack are final: nothing changes any more. */
  lemma {:induction false} FinishedIsFinal(spec: RolloutSpec, ro: Rollout, events: seq<Event>)
    requires ro.status.phase in {RolloutPhase.Failed, RolledBack} && NoCommands(ro) && OperatorFree(events)
    ensures Run(spec, ro, events) == ro
  {
    if events != [] {
      FinishedIsFinal(spec, ro, events[..|events| - 1]);
      assert events[|events| - 1] in events;
    }
  }

  predicate Pinned(ro: Rollout) {
    ro.ann.aborted && ro.canary == Some(0) && ro.status.weight == 0
  }

  lemma PinnedStep(spec: RolloutSpec, ro: Rollout, e: Event)
    requires ro.ann.aborted
    ensures Step(spec, ro, e).ann.aborted && (Pinned(ro) ==> Pinned(Step(spec, ro, e)))
  {
  }

  lemma {:induction false} PinnedStays(spec: RolloutSpec, ro: Rollout, events: seq<Event>)
    requires Pinned(ro)
    ensures Pinned(Run(spec, ro, events))
  {
    hide Step;
    if events != [] {
      PinnedStays(spec, ro, events[..|events| - 1]);
      PinnedStep(spec, Run(spec, ro, events[..|events| - 1]), events[|events| - 1]);
    }
  }

  lemma {:induction false} AbortedStays(spec: RolloutSpec, ro: Rollout, events: seq<Event>)
    requires ro.ann.aborted
    ensures Run(spec, ro, events).ann.aborted
  {
    hide Step;
    if events != [] {
      AbortedStays(spec, ro, events[..|events| - 1]);
      PinnedStep(spec, Run(spec, ro, events[..|events| - 1]), events[|events| - 1]);
    }
  }

  /**
   An operator's rollback is irrevocable. From any state, once the command has been consumed,
   whatever follows, the first reconcile that finds no further command pins the rollout: no
   later commands, probe results or reconciles ever give the canary a replica or the status a
   weight again.
   */
  lemma OperatorRollbackIsIrrevocable(
      spec: RolloutSpec, ro: Rollout, consumed: Input, between: seq<Event>, held: Input, events: seq<Event>)
    requires var rolledBack := Step(spec, Step(spec, ro, Operator(Rollback)), Reconcile(consumed));
      Run(spec, rolledBack, between).ann.action.None?
    ensures var rolledBack := Step(spec, Step(spec, ro, Operator(Rollback)), Reconcile(consumed));
      var pinned := Step(spec, Run(spec, rolledBack, between), Reconcile(held));
      var end := Run(spec, pinned, events);
      end.canary == Some(0) && end.status.weight == 0 && end.ann.aborted
  {
    var rolledBack := Step(spec, Step(spec, ro, Operator(Rollback)), Reconcile(consumed));
    assert rolledBack.ann.aborted;
    AbortedStays(spec, rolledBack, between);
    var pinned := Step(spec, Run(spec, rolledBack, between), Reconcile(held));
    assert Pinned(pinned);
    PinnedStays(spec, pinned, events);
  }

  /**
   A promotion does not scale. It moves on to the next step and its weight, but the next
   evaluation judges that step by the pods of the weight before: the step is passed exactly
   when those are ready and healthy, however many pods its own weight asks for.
   */
  lemma PromotedStepIsJudgedAtOldScale(spec: RolloutSpec, ro: Rollout, consumed: Input, input: Input)
    requires FixedTotal(spec) && InBounds(spec, ro) && Coupled(spec, ro)
    requires ro.canary.Some? && ro.status.phase != RolledBack && WeightStep(spec, ro.status.stepIndex + 1)
    ensures var next, pods := ro.status.stepIndex + 1, WeightReplicas(ro.status.weight, spec.replicas.value);
      var promoted := Step(spec, Step(spec, ro, Operator(Promote)), Reconcile(consumed));
      var judged := Step(spec, promoted, Reconcile(input));
      && promoted.status.stepIndex == next && Some(promoted.status.weight) == spec.steps[next].setWeight
      && promoted.canary == Some(pods) && promoted.stable == Some(spec.replicas.value - pods)
      && (judged.status.stepIndex == next + 1 <==>
            && !(input.replicaFailure && spec.autoRollback)
            && PodsReady(input.ready, pods) && (Probed(ro.status, input.now) ==> input.probe))
  {
    hide WeightReplicas;
  }
}
