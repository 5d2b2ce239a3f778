/**
 What the operator commands do: a pause holds, a promotion ends the hold, a rollback aborts;
 and what a reconcile writes when no command holds the rollout.
 */
module RolloutPause {
  import opened Wrappers
  import opened RolloutTypes
  import opened Canary
  import opened RolloutSystem
  import opened RolloutSafety

  /** Commands may come, but none to promote or roll back. */
  predicate OnlyPauses(events: seq<Event>) {
    Operator(Promote) !in events && Operator(Rollback) !in events
  }

  function Consumed(spec: RolloutSpec, ro: Rollout, command: Command, input: Input): Rollout {
    Step(spec, Step(spec, ro, Operator(command)), Reconcile(input))
  }

  /** Held at a step and weight by an operator. */
  predicate HeldAt(ro: Rollout, stepIndex: nat, weight: int) {
    && ro.ann.paused && !ro.ann.aborted && ro.ann.action !in {Some(Promote), Some(Rollback)}
    && ro.status.phase == Paused && ro.status.stepIndex == stepIndex && ro.status.weight == weight
  }

  lemma HeldStep(spec: RolloutSpec, ro: Rollout, stepIndex: nat, weight: int, e: Event)
    requires HeldAt(ro, stepIndex, weight) && e != Operator(Promote) && e != Operator(Rollback)
    ensures HeldAt(Step(spec, ro, e), stepIndex, weight)
  {
  }

  lemma {:induction false} RunIsHeld(spec: RolloutSpec, ro: Rollout, stepIndex: nat, weight: int, events: seq<Event>)
    requires HeldAt(ro, stepIndex, weight) && OnlyPauses(events)
    ensures HeldAt(Run(spec, ro, events), stepIndex, weight)
  {
    hide Step, HeldAt;
    if events != [] {
      var front, e := events[..|events| - 1], events[|events| - 1];
      RunIsHeld(spec, ro, stepIndex, weight, front);
      assert e in events;
      HeldStep(spec, Run(spec, ro, front), stepIndex, weight, e);
    }
  }

  /**
   A pause holds. From any state that is neither Healthy nor Degraded nor aborted: once the
   command is consumed, over all events but a promotion or a rollback, step and weight stay and
   the phase is Paused; and each reconcile that consumes no command leaves the canary the whole
   part of weight * total / 100 pods, and the stable Deployment the rest.
   */
  lemma PauseHolds(
      spec: RolloutSpec, ro: Rollout, consumed: Input, events: seq<Event>, held: Input)
    requires FixedTotal(spec) && InBounds(spec, ro)
    requires ro.status.phase != Healthy && ro.status.phase != Degraded && !ro.ann.aborted && OnlyPauses(events)
    ensures var end := Run(spec, Consumed(spec, ro, Pause, consumed), events);
      && HeldAt(end, ro.status.stepIndex, ro.status.weight)
      && (end.ann.action.None? ==>
            var next, total := Step(spec, end, Reconcile(held)), spec.replicas.value;
            && HeldAt(next, ro.status.stepIndex, ro.status.weight)
            && next.canary.Some? && next.stable == Some(total - next.canary.value) && 0 <= next.canary.value <= total
            && 100 * next.canary.value <= ro.status.weight * total < 100 * (next.canary.value + 1)
            && next.status.failures == ro.status.failures)
  {
    var paused := Consumed(spec, ro, Pause, consumed);
    assert HeldAt(paused, ro.status.stepIndex, ro.status.weight);
    RunIsHeld(spec, paused, ro.status.stepIndex, ro.status.weight, events);
    FailuresAreKept(spec, paused, events);
    KnownWeightIsPercentage(spec, ro.status.weight);
    WeightReplicasIsFloor(ro.status.weight, spec.replicas.value);
    hide WeightReplicas, Run, KnownWeight, Valid;
  }

  lemma {:induction false} FailuresAreKept(spec: RolloutSpec, ro: Rollout, events: seq<Event>)
    requires HeldAt(ro, ro.status.stepIndex, ro.status.weight) && OnlyPauses(events)
    ensures Run(spec, ro, events).status.failures == ro.status.failures
  {
    if events != [] {
      var front := events[..|events| - 1];
      FailuresAreKept(spec, ro, front);
      RunIsHeld(spec, ro, ro.status.stepIndex, ro.status.weight, front);
      assert events[|events| - 1] in events;
      hide WeightReplicas, Judge;
    }
  }

  /** A pause of a Healthy or Degraded rollout, and an unknown command, change nothing but that the command is gone. */
  lemma IgnoredCommands(spec: RolloutSpec, ro: Rollout, command: Command, input: Input)
    requires command == Unknown || (command == Pause && ro.status.phase in {Healthy, Degraded})
      || (command == Promote && ro.ann.aborted)
    ensures Consumed(spec, ro, command, input) == ro.(ann := ro.ann.(action := None))
  {
  }

  /**
   A promotion ends the hold, and moves on by one step with the weight of the next one if it
   has any; past the last step it completes the rollout. The Deployments are left alone.
   */
  lemma PromotionEndsHold(spec: RolloutSpec, ro: Rollout, input: Input)
    requires !ro.ann.aborted
    ensures var ro', next := Consumed(spec, ro, Promote, input), ro.status.stepIndex + 1;
      && ro'.ann == Annotations(None, false, false, ro.ann.pauseStart)
      && ro'.stable == ro.stable && ro'.canary == ro.canary && ro'.status.failures == ro.status.failures
      && ro'.status.lastHealthCheck == ro.status.lastHealthCheck
      && (ro.status.stepIndex < |spec.steps| ==>
            && ro'.status.phase == Progressing && ro'.status.stepIndex == next
            && (next < |spec.steps| && spec.steps[next].setWeight.Some? ==>
                  spec.steps[next].setWeight == Some(ro'.status.weight))
            && (next == |spec.steps| || spec.steps[next].setWeight.None? ==> ro'.status.weight == ro.status.weight)
            && ro'.status.completed == ro.status.completed)
      && (ro.status.stepIndex >= |spec.steps| ==>
            && ro'.status.phase == Healthy && ro'.status.completed
            && ro'.status.stepIndex == ro.status.stepIndex && ro'.status.weight == ro.status.weight)
  {
  }

  /** A rollback ends the hold for good, from any state; the next reconcile without a command scales it to nothing. */
  lemma RollbackAborts(spec: RolloutSpec, ro: Rollout, consumed: Input, held: Input)
    ensures var ro' := Consumed(spec, ro, Rollback, consumed);
      && ro'.ann == Annotations(None, false, true, ro.ann.pauseStart) && ro'.status.phase == RollingBack
      && ro'.status.stepIndex == ro.status.stepIndex && ro'.status.weight == ro.status.weight
      && ro'.stable == ro.stable && ro'.canary == ro.canary
      && var end := Step(spec, ro', Reconcile(held));
        && end.status.phase == RolledBack && end.status.weight == 0 && end.status.completed
        && end.status.canaryReplicas == 0 && end.canary == Some(0)
        && (spec.replicas.Some? ==> end.stable == spec.replicas && Some(end.status.stableReplicas) == spec.replicas)
  {
  }

  /** A reconcile of a rollout with the pause flag, whatever its phase: it pauses at the step and weight it has. */
  lemma PausedIsHeld(spec: RolloutSpec, ro: Rollout, input: Input)
    requires ro.ann.paused && !ro.ann.aborted && ro.ann.action.None? && ro.status.phase != New
    ensures var ro', total := Step(spec, ro, Reconcile(input)), Total(spec, ro);
      && ro'.status == ro.status.(phase := Paused) && ro'.ann == ro.ann
      && ro'.canary == Some(WeightReplicas(ro.status.weight, total))
      && ro'.stable == Some(total - WeightReplicas(ro.status.weight, total))
  {
    hide WeightReplicas;
  }

  /** A Rollout seen for the first time starts at the first step without weight, whatever its status says. */
  lemma NewRolloutStartsOver(spec: RolloutSpec, ro: Rollout, input: Input)
    requires ro.status.phase == New && NoCommands(ro)
    ensures var first := ro.(status := ro.status.(phase := Progressing, stepIndex := 0, weight := 0));
      var ro' := Step(spec, ro, Reconcile(input));
      ro'.ann == Step(spec, first, Reconcile(input)).ann
      && (Advances(spec, ro) ==> ro' == Step(spec, first, Reconcile(input)))
  {
    hide WeightReplicas;
  }

  // --- Reconciles without a command ---

  /**
   A stuck canary is rolled back exactly when the rollout rolls back by itself: the canary gets
   no pod, and of the status only phase and completion change. A canary that was just created
   is not stuck.
   */
  lemma StuckCanaryIsRolledBack(spec: RolloutSpec, ro: Rollout, input: Input)
    requires Advances(spec, ro) && ro.status.phase != New
    ensures var ro' := Step(spec, ro, Reconcile(input));
      && (ro'.status.phase == RolledBack <==> ro.canary.Some? && input.replicaFailure && spec.autoRollback)
      && (ro'.status.phase == RolledBack ==>
            && ro'.status == ro.status.(phase := RolledBack, completed := true)
            && ro'.canary == Some(0) && ro'.ann == ro.ann
            && (spec.replicas.Some? ==> ro'.stable == spec.replicas))
  {
    hide WeightReplicas;
  }

  /**
   Any other reconcile that gets past the holds writes what it decided: the status has the
   replicas of the Deployments, the time of the check to the second if one was due, and is
   completed once Healthy or Failed. The annotations stay.
   */
  lemma DecisionIsWritten(spec: RolloutSpec, ro: Rollout, input: Input)
    requires Advances(spec, ro) && !Stuck(spec, ro, input)
    ensures var ro' := Step(spec, ro, Reconcile(input));
      && ro'.ann == ro.ann
      && ro'.canary == Some(ro'.status.canaryReplicas) && ro'.stable == Some(ro'.status.stableReplicas)
      && ro'.status.lastHealthCheck ==
           (if ro.status.lastHealthCheck.None? || input.now - ro.status.lastHealthCheck.value >= 30_000_000_000
            then Some(input.now / 1_000_000_000 * 1_000_000_000) else ro.status.lastHealthCheck)
      && (ro'.status.completed <==> ro.status.completed || ro'.status.phase in {Healthy, RolloutPhase.Failed})
  {
    hide WeightReplicas;
  }

  /** A timed pause is stamped with its step and second, once, by a reconcile that does nothing else. */
  lemma PauseIsStamped(spec: RolloutSpec, ro: Rollout, input: Input)
    requires NoCommands(ro) && ro.status.phase !in {New, RolloutPhase.Failed, RolledBack}
    requires ro.status.stepIndex < |spec.steps| && spec.steps[ro.status.stepIndex].pause.Some?
    ensures spec.steps[ro.status.stepIndex].pause.value.duration.Some? && ro.ann.pauseStart.None? ==>
      Step(spec, ro, Reconcile(input)) ==
        ro.(ann := ro.ann.(pauseStart := Some(Stamp(ro.status.stepIndex, input.now / 1_000_000_000))))
    ensures spec.steps[ro.status.stepIndex].pause.value.duration.None? && !Stuck(spec, ro, input) ==>
      var ro' := Step(spec, ro, Reconcile(input));
      ro'.status.phase == Paused && ro'.status.stepIndex == ro.status.stepIndex && ro'.status.weight == ro.status.weight
  {
    hide WeightReplicas;
  }

  /**
   A stamped timed pause is left exactly when the stamp is that of the step, its whole duration
   has passed since the stamped second, and the canary is ready and healthy; else it is held.
   */
  lemma TimedPauseEndsIff(spec: RolloutSpec, ro: Rollout, input: Input)
    requires Advances(spec, ro) && !Stuck(spec, ro, input) && ro.status.phase != New
    requires TimedPause(spec, ro.status.stepIndex)
    ensures var ro' := Step(spec, ro, Reconcile(input));
      var duration := spec.steps[ro.status.stepIndex].pause.value.duration.value;
      var over := ro.ann.pauseStart.Some? && ro.ann.pauseStart.value.stepIndex == ro.status.stepIndex
        && input.now >= ro.ann.pauseStart.value.second * 1_000_000_000 + duration
        && ro.canary.Some? && ro.canary.value > 0 && input.ready >= ro.canary.value
        && (Probed(ro.status, input.now) ==> input.probe);
      && ro'.status.stepIndex == (if over then ro.status.stepIndex + 1 else ro.status.stepIndex)
      && ro'.status.phase == (if over then Progressing else Paused)
      && ro'.status.weight == ro.status.weight && ro'.status.failures == 0
  {
    hide WeightReplicas;
  }
}
