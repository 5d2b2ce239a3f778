/** The canary engine (pkg/canary/engine.go): pure decisions over a rollout's state. */
module Canary {
  import opened Wrappers
  import opened RolloutTypes

  /** Times are nanoseconds; a pause stamp is kept to whole seconds. */
  const SECOND := 1_000_000_000

  /** A step's Pause; without a duration it is indefinite. */
  datatype PauseStep = PauseStep(duration: Option<int>)

  datatype CanaryStep = CanaryStep(setWeight: Option<int>, pause: Option<PauseStep>)

  datatype RolloutSpec = RolloutSpec(
    steps: seq<CanaryStep>,
    replicas: Option<int>,
    failureThreshold: int,
    autoRollback: bool)

  datatype RolloutStatus = RolloutStatus(
    phase: RolloutPhase,
    stepIndex: nat,
    weight: int,
    stableReplicas: int,
    canaryReplicas: int,
    failures: int,
    lastHealthCheck: Option<int>,
    completed: bool)

  /** The pause-start annotation: the step it was written for and the second of entry. */
  datatype Stamp = Stamp(stepIndex: nat, second: int)

  datatype Decision = Decision(
    phase: RolloutPhase,
    stepIndex: nat,
    weight: int,
    canaryReplicas: int,
    stableReplicas: int,
    failures: int)

  /** Go's integer division by a positive divisor truncates toward zero. */
  function TruncatedQuotient(x: int, y: int): int
    requires y > 0
  {
    if x >= 0 then x / y else -((-x) / y)
  }

  /** The conversion to int32, which keeps the low 32 bits. */
  function ToInt32(x: int): int {
    (x + 0x8000_0000) % 0x1_0000_0000 - 0x8000_0000
  }

  function WeightReplicas(weight: int, total: int): int {
    if total <= 0 then 0 else ToInt32(TruncatedQuotient(weight * total, 100))
  }

  function At(phase: RolloutPhase, stepIndex: nat, weight: int, total: int, failures: int): Decision {
    Decision(phase, stepIndex, weight, WeightReplicas(weight, total), total - WeightReplicas(weight, total), failures)
  }

  function RollbackDecision(status: RolloutStatus, total: int): Decision {
    Decision(RollingBack, status.stepIndex, 0, 0, total, status.failures + 1)
  }

  predicate PodsReady(ready: int, desired: int) {
    desired > 0 && ready >= desired
  }

  /** A pause is over when its own stamp is old enough and the canary is healthy. */
  predicate PauseElapsed(stamp: Option<Stamp>, stepIndex: nat, duration: int, healthy: bool, now: int) {
    && stamp.Some? && stamp.value.stepIndex == stepIndex
    && now - stamp.value.second * SECOND >= duration
    && healthy
  }

  function EvaluatePause(
      pause: PauseStep, status: RolloutStatus, stamp: Option<Stamp>, total: int, healthy: bool, now: int): Decision
  {
    if pause.duration.Some? && PauseElapsed(stamp, status.stepIndex, pause.duration.value, healthy, now)
    then At(Progressing, status.stepIndex + 1, status.weight, total, 0)
    else At(Paused, status.stepIndex, status.weight, total, 0)
  }

  /** At the step's weight: wait, give up past the failure threshold, or advance. */
  function EvaluateAtWeight(
      spec: RolloutSpec, status: RolloutStatus, target: int, ready: int, desired: int, total: int, healthy: bool)
    : Decision
  {
    if PodsReady(ready, desired) && healthy then
      var next := status.stepIndex + 1;
      var nextWeight :=
        if next < |spec.steps| && spec.steps[next].setWeight.Some? then spec.steps[next].setWeight.value else target;
      At(Progressing, next, nextWeight, total, 0)
    else
      var failures := if PodsReady(ready, desired) then status.failures + 1 else status.failures;
      if spec.failureThreshold > 0 && failures >= spec.failureThreshold then
        if spec.autoRollback then RollbackDecision(status, total)
        else At(Failed, status.stepIndex, target, total, failures)
      else At(Progressing, status.stepIndex, target, total, failures)
  }

  function Evaluate(
      spec: RolloutSpec, status: RolloutStatus, stamp: Option<Stamp>,
      ready: int, desired: int, total: int, healthy: bool, now: int): Decision
  {
    if status.stepIndex >= |spec.steps| then At(Healthy, status.stepIndex, status.weight, total, 0)
    else
      var step := spec.steps[status.stepIndex];
      if step.pause.Some? then EvaluatePause(step.pause.value, status, stamp, total, healthy, now)
      else if step.setWeight.None? then At(Progressing, status.stepIndex + 1, status.weight, total, 0)
      else if status.weight != step.setWeight.value
      then At(Progressing, status.stepIndex, step.setWeight.value, total, 0)
      else EvaluateAtWeight(spec, status, step.setWeight.value, ready, desired, total, healthy)
  }

  /** Dividing by a positive number drops the fraction, towards zero for negative numbers too. */
  lemma QuotientIsTruncated(x: int, y: int)
    requires y > 0
    ensures var q := TruncatedQuotient(x, y);
      if x >= 0 then q * y <= x < (q + 1) * y else (q - 1) * y < x <= q * y
  {
  }

  /** Without a positive total nothing is requested for any weight; an int32 stays what it is. */
  lemma NothingOfNothing(weight: int, total: int)
    ensures total <= 0 ==> WeightReplicas(weight, total) == 0
    ensures -0x8000_0000 <= weight < 0x8000_0000 ==> ToInt32(weight) == weight
    ensures ToInt32(0x8000_0000) == -0x8000_0000
  {
  }

  /** Weights are percentages, as the API validates; the replica count, if given, is an int32 and not negative. */
  predicate Valid(spec: RolloutSpec) {
    && (forall i | 0 <= i < |spec.steps| :: spec.steps[i].setWeight.Some? ==> 0 <= spec.steps[i].setWeight.value <= 100)
    && (spec.replicas.Some? ==> 0 <= spec.replicas.value < 0x8000_0000)
  }

  /** A percentage of the total is rounded down, lies between nothing and the total, and fits in an int32. */
  lemma WeightReplicasIsFloor(weight: int, total: int)
    requires 0 <= weight <= 100 && 0 <= total < 0x8000_0000
    ensures var n := WeightReplicas(weight, total);
      0 <= n <= total && 100 * n <= weight * total < 100 * (n + 1) && (weight == 0 ==> n == 0)
  {
    var product := weight * total;
    assert 0 <= product <= 100 * total by {
      ProductBound(weight, total);
    }
    var n := product / 100;
    assert 0 <= n <= total;
    assert ToInt32(n) == n;
    if weight == 0 {
      assert product == 0;
    }
  }

  lemma ProductBound(weight: int, total: int)
    requires 0 <= weight <= 100 && 0 <= total
    ensures 0 <= weight * total <= 100 * total
  {
    assert (100 - weight) * total >= 0;
  }

  /**
   The engine's gate at a step's own weight: it advances exactly when canary pods are wanted,
   all are available and the canary is healthy; then to the next step and its weight, if it has
   one. Otherwise it stays, or rolls back to nothing.
   */
  lemma AdvancesAtWeightIff(
      spec: RolloutSpec, status: RolloutStatus, stamp: Option<Stamp>,
      ready: int, desired: int, total: int, healthy: bool, now: int)
    requires status.stepIndex < |spec.steps| && spec.steps[status.stepIndex].pause.None?
    requires spec.steps[status.stepIndex].setWeight == Some(status.weight)
    ensures var d, next := Evaluate(spec, status, stamp, ready, desired, total, healthy, now), status.stepIndex + 1;
      var passes := desired > 0 && ready >= desired && healthy;
      && d.stepIndex == (if passes then next else status.stepIndex)
      && (passes ==>
            && d.phase == Progressing && d.failures == 0
            && (next < |spec.steps| && spec.steps[next].setWeight.Some? ==>
                  spec.steps[next].setWeight == Some(d.weight))
            && (next == |spec.steps| || spec.steps[next].setWeight.None? ==> d.weight == status.weight))
      && (!passes ==> d.weight == if d.phase == RollingBack then 0 else status.weight)
  {
    hide WeightReplicas;
  }

  /** Before a step's weight is reached nothing is judged: the decision is to scale to it. */
  lemma ScalesToWeightFirst(
      spec: RolloutSpec, status: RolloutStatus, stamp: Option<Stamp>,
      ready: int, desired: int, total: int, healthy: bool, now: int)
    requires status.stepIndex < |spec.steps| && spec.steps[status.stepIndex].pause.None?
    requires spec.steps[status.stepIndex].setWeight.Some?
    requires spec.steps[status.stepIndex].setWeight != Some(status.weight)
    ensures var d := Evaluate(spec, status, stamp, ready, desired, total, healthy, now);
      && d.phase == Progressing && d.stepIndex == status.stepIndex && d.failures == 0
      && Some(d.weight) == spec.steps[status.stepIndex].setWeight
  {
    hide WeightReplicas;
  }

  /** The weight is 0 or one that some step asks for. */
  ghost predicate KnownWeight(spec: RolloutSpec, weight: int) {
    weight == 0 || exists i :: 0 <= i < |spec.steps| && spec.steps[i].setWeight == Some(weight)
  }

  lemma KnownWeightIsPercentage(spec: RolloutSpec, weight: int)
    requires Valid(spec) && KnownWeight(spec, weight)
    ensures 0 <= weight <= 100
  {
  }

  lemma NothingOfZero(total: int)
    ensures WeightReplicas(0, total) == 0
  {
  }

  /** A decision splits the total by its weight. */
  lemma DecisionSplits(
      spec: RolloutSpec, status: RolloutStatus, stamp: Option<Stamp>,
      ready: int, desired: int, total: int, healthy: bool, now: int)
    ensures var d := Evaluate(spec, status, stamp, ready, desired, total, healthy, now);
      && d.canaryReplicas + d.stableReplicas == total
      && d.canaryReplicas == WeightReplicas(d.weight, total)
  {
    NothingOfZero(total);
    hide WeightReplicas;
  }

  lemma DecisionStaysOnPlan(
      spec: RolloutSpec, status: RolloutStatus, stamp: Option<Stamp>,
      ready: int, desired: int, total: int, healthy: bool, now: int)
    requires status.stepIndex <= |spec.steps| && KnownWeight(spec, status.weight)
    ensures var d := Evaluate(spec, status, stamp, ready, desired, total, healthy, now);
      && status.stepIndex <= d.stepIndex <= |spec.steps| && d.stepIndex <= status.stepIndex + 1
      && KnownWeight(spec, d.weight)
  {
    hide WeightReplicas;
  }

  /** Every decision splits the total between stable and canary and stays within the plan. */
  lemma DecisionsConserve(
      spec: RolloutSpec, status: RolloutStatus, stamp: Option<Stamp>,
      ready: int, desired: int, total: int, healthy: bool, now: int)
    requires Valid(spec) && 0 <= total < 0x8000_0000
    requires status.stepIndex <= |spec.steps| && KnownWeight(spec, status.weight)
    ensures var d := Evaluate(spec, status, stamp, ready, desired, total, healthy, now);
      && 0 <= d.canaryReplicas <= total && d.canaryReplicas + d.stableReplicas == total
      && status.stepIndex <= d.stepIndex <= |spec.steps| && d.stepIndex <= status.stepIndex + 1
      && KnownWeight(spec, d.weight)
      && d.canaryReplicas == WeightReplicas(d.weight, total)
  {
    hide Evaluate, WeightReplicas, KnownWeight;
    var d := Evaluate(spec, status, stamp, ready, desired, total, healthy, now);
    DecisionSplits(spec, status, stamp, ready, desired, total, healthy, now);
    DecisionStaysOnPlan(spec, status, stamp, ready, desired, total, healthy, now);
    KnownWeightIsPercentage(spec, d.weight);
    WeightReplicasIsFloor(d.weight, total);
  }
}
