/**
 Failed and RolledBack are end states of a rollout, but operator commands leave them
 (applyControlCommand in internal/controller/rollout_controller.go asks for the phase only
 when it pauses, and then not for these two).
 */
module RolloutRevival {
  import opened Wrappers
  import opened RolloutTypes
  import opened Canary
  import opened RolloutSystem
  import opened RolloutSafety
  import RolloutThreshold

  /** Every known command takes a finished rollout out of its end state. */
  lemma CommandLeavesFinishedIff(spec: RolloutSpec, ro: Rollout, command: Command, input: Input)
    requires Finished(ro) && NoCommands(ro)
    ensures Finished(Step(spec, Step(spec, ro, Operator(command)), Reconcile(input))) <==> command == Unknown
  {
  }

  /** What a promotion makes of a finished rollout with steps left: it is at the next step, with its weight. */
  lemma PromotionMovesOn(spec: RolloutSpec, ro: Rollout, input: Input)
    requires Finished(ro) && NoCommands(ro) && ro.status.stepIndex < |spec.steps|
    ensures var ro' := Step(spec, Step(spec, ro, Operator(Promote)), Reconcile(input));
      var next := ro.status.stepIndex + 1;
      && NoCommands(ro') && ro'.status.phase == Progressing && ro'.status.stepIndex == next
      && ro'.status.failures == ro.status.failures && ro'.stable == ro.stable && ro'.canary == ro.canary
      && ro'.ann.pauseStart == ro.ann.pauseStart
      && ro'.status.weight == if next < |spec.steps| && spec.steps[next].setWeight.Some?
                              then spec.steps[next].setWeight.value else ro.status.weight
  {
  }

  lemma EvaluationWithoutPods(spec: RolloutSpec, ro: Rollout, input: Input)
    requires NoCommands(ro) && ro.status.phase == Progressing && ro.canary == Some(0)
    requires WeightStep(spec, ro.status.stepIndex) ==>
      spec.steps[ro.status.stepIndex].setWeight == Some(ro.status.weight)
    requires !NeedsStamp(spec, ro) && !Stuck(spec, ro, input)
    ensures var ro' := Step(spec, ro, Reconcile(input));
      var usedUp := RolloutThreshold.RollsBack(spec) && ro.status.failures >= spec.failureThreshold;
      && ro'.canary == Some(
           if WeightStep(spec, ro.status.stepIndex) && usedUp then 0
           else WeightReplicas(ro.status.weight, Total(spec, ro)))
      && (ro'.status.phase == Healthy <==> ro.status.stepIndex >= |spec.steps|)
  {
    hide WeightReplicas;
  }

  /**
   A finished rollout without a canary pod is promoted, and reconciled once more. It is going
   again, and its canary is scaled up to the promoted weight, unless that belongs to a weight
   step and the threshold of a rollout that rolls back is used up. Past the last step it is
   even Healthy, at the weight that a stuck canary had left in the status.
   */
  lemma PromotionRevivesFinished(spec: RolloutSpec, ro: Rollout, consumed: Input, input: Input)
    requires Finished(ro) && NoCommands(ro) && ro.status.stepIndex < |spec.steps| && ro.canary == Some(0)
    requires var promoted := Step(spec, Step(spec, ro, Operator(Promote)), Reconcile(consumed));
      !NeedsStamp(spec, promoted) && !Stuck(spec, promoted, input)
    ensures var promoted := Step(spec, Step(spec, ro, Operator(Promote)), Reconcile(consumed));
      var judged := Step(spec, promoted, Reconcile(input));
      var usedUp := RolloutThreshold.RollsBack(spec) && ro.status.failures >= spec.failureThreshold;
      && judged.canary == Some(
           if WeightStep(spec, ro.status.stepIndex + 1) && usedUp then 0
           else WeightReplicas(promoted.status.weight, Total(spec, ro)))
      && (judged.status.phase == Healthy <==> ro.status.stepIndex + 1 == |spec.steps|)
  {
    PromotionMovesOn(spec, ro, consumed);
    var promoted := Step(spec, Step(spec, ro, Operator(Promote)), Reconcile(consumed));
    assert Total(spec, promoted) == Total(spec, ro);
    hide Step;
    EvaluationWithoutPods(spec, promoted, input);
  }
}
