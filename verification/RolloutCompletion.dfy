/**
 Which rollouts can complete on their own: an exact condition on the plan, and the
 number of reconciles they take when the canary behaves.
 */
module RolloutCompletion {
  import opened Wrappers
  import opened RolloutTypes
  import opened Canary
  import opened RolloutSystem
  import opened RolloutSafety

  /** The weight with which the walk arrives at step i: a weight step leaves the next step's weight, if it has one. */
  function ArrivalWeight(spec: RolloutSpec, i: nat): int
    requires i <= |spec.steps|
  {
    if i == 0 then 0
    else if !WeightStep(spec, i - 1) then ArrivalWeight(spec, i - 1)
    else if i < |spec.steps| && spec.steps[i].setWeight.Some? then spec.steps[i].setWeight.value
    else spec.steps[i - 1].setWeight.value
  }

  predicate Passable(spec: RolloutSpec, i: nat)
    requires spec.replicas.Some? && i < |spec.steps|
  {
    if spec.steps[i].pause.Some?
    then TimedPause(spec, i) && WeightReplicas(ArrivalWeight(spec, i), spec.replicas.value) > 0
    else spec.steps[i].setWeight.Some? ==> WeightReplicas(spec.steps[i].setWeight.value, spec.replicas.value) > 0
  }

  /**
   The plan can be walked: every weight step asks for at least one canary pod; there is no
   indefinite pause and at most one timed one, which is reached with a canary pod running.
   */
  predicate Walkable(spec: RolloutSpec)
    requires spec.replicas.Some?
  {
    && (forall i | 0 <= i < |spec.steps| :: Passable(spec, i))
    && (forall i, j | 0 <= i < j < |spec.steps| :: !(TimedPause(spec, i) && TimedPause(spec, j)))
  }

  // --- A run that completes has walked a walkable plan ---

  /** Away from weight steps the weight is still the one of arrival. */
  predicate HoldsArrival(spec: RolloutSpec, ro: Rollout) {
    var i := ro.status.stepIndex;
    i <= |spec.steps| && !WeightStep(spec, i) ==> ro.status.weight == ArrivalWeight(spec, i)
  }

  /** Every evaluation wanted as many canary pods as its weight asks for, and paused at the weight of arrival. */
  ghost predicate LogIsCoupled(spec: RolloutSpec, log: seq<Entry>)
    requires spec.replicas.Some?
  {
    forall e | e in log && e.Judged? ::
      && e.desired == WeightReplicas(e.weight, spec.replicas.value)
      && (e.healthy ==> e.desired > 0)
      && (e.stepIndex <= |spec.steps| && !WeightStep(spec, e.stepIndex) ==>
            e.weight == ArrivalWeight(spec, e.stepIndex))
  }

  lemma StepHoldsArrival(spec: RolloutSpec, ro: Rollout, input: Input)
    requires InBounds(spec, ro) && NoCommands(ro) && HoldsArrival(spec, ro)
    ensures HoldsArrival(spec, Step(spec, ro, Reconcile(input)))
  {
    var ro' := Step(spec, ro, Reconcile(input));
    if ro'.status.stepIndex == ro.status.stepIndex + 1 {
      assert ArrivalWeight(spec, ro'.status.stepIndex) ==
        if !WeightStep(spec, ro.status.stepIndex) then ArrivalWeight(spec, ro.status.stepIndex)
        else if ro'.status.stepIndex < |spec.steps| && spec.steps[ro'.status.stepIndex].setWeight.Some?
        then spec.steps[ro'.status.stepIndex].setWeight.value
        else spec.steps[ro.status.stepIndex].setWeight.value;
    }
  }

  lemma StepLogIsCoupled(spec: RolloutSpec, ro: Rollout, input: Input)
    requires FixedTotal(spec) && InBounds(spec, ro) && Coupled(spec, ro) && HoldsArrival(spec, ro)
    ensures LogIsCoupled(spec, EntriesOf(spec, ro, Reconcile(input)))
  {
    WeightReplicasIsFloor(0, spec.replicas.value);
  }

  lemma {:induction false} RunHoldsArrival(spec: RolloutSpec, ro: Rollout, events: seq<Event>)
    requires Fresh(ro) && OperatorFree(events)
    ensures HoldsArrival(spec, Run(spec, ro, events)) && NoCommands(Run(spec, ro, events))
  {
    if events != [] {
      var front, e := events[..|events| - 1], events[|events| - 1];
      RunHoldsArrival(spec, ro, front);
      RunStaysInBounds(spec, ro, front);
      assert e in events;
      StepHoldsArrival(spec, Run(spec, ro, front), e.input);
      hide InBounds, HoldsArrival;
    }
  }

  /**
   A step with both a weight and a pause only pauses. Without an operator its own weight is
   what it is held at exactly when a weight step comes directly before it, or the weight was
   that already.
   */
  lemma PauseIsHeldAtItsWeightIff(spec: RolloutSpec, ro: Rollout, events: seq<Event>, i: nat)
    requires Fresh(ro) && OperatorFree(events) && i < |spec.steps| && Run(spec, ro, events).status.stepIndex == i
    requires spec.steps[i].pause.Some? && spec.steps[i].setWeight.Some?
    ensures var weight, before := spec.steps[i].setWeight.value, if i == 0 then 0 else ArrivalWeight(spec, i - 1);
      Run(spec, ro, events).status.weight == weight <==> (i > 0 && WeightStep(spec, i - 1)) || weight == before
  {
    RunHoldsArrival(spec, ro, events);
  }

  lemma {:induction false} RunIsCoupled(spec: RolloutSpec, ro: Rollout, events: seq<Event>)
    requires FixedTotal(spec) && Fresh(ro) && OperatorFree(events)
    ensures HoldsArrival(spec, Run(spec, ro, events)) && LogIsCoupled(spec, Log(spec, ro, events))
  {
    if events == [] {
      assert ro.status.weight == ArrivalWeight(spec, 0);
    } else {
      hide Step, HoldsArrival, EntriesOf, Coupled, InBounds;
      var front, e := events[..|events| - 1], events[|events| - 1];
      RunIsCoupled(spec, ro, front);
      ReplicasFollowWeight(spec, ro, front);
      assert e in events;
      CoupledIsQuiet(spec, Run(spec, ro, front));
      StepHoldsArrival(spec, Run(spec, ro, front), e.input);
      StepLogIsCoupled(spec, Run(spec, ro, front), e.input);
    }
  }

  lemma CoupledIsQuiet(spec: RolloutSpec, ro: Rollout)
    requires spec.replicas.Some? && Coupled(spec, ro)
    ensures NoCommands(ro)
  {
  }

  lemma CompletedIsWalkable(spec: RolloutSpec, ro: Rollout, events: seq<Event>)
    requires FixedTotal(spec) && Fresh(ro) && OperatorFree(events)
    requires Run(spec, ro, events).status.phase == Healthy
    ensures Walkable(spec)
  {
    assert PromoteFree(events);
    RunIsGated(spec, ro, events);
    RunIsCoupled(spec, ro, events);
    var log := Log(spec, ro, events);
    forall i | 0 <= i < |spec.steps| ensures Passable(spec, i) {
      assert Passed(spec, log, i);
    }
    forall i, j | 0 <= i < j < |spec.steps| ensures !(TimedPause(spec, i) && TimedPause(spec, j)) {
      if TimedPause(spec, i) && TimedPause(spec, j) {
        SecondTimedPauseHolds(spec, ro, events, i, j);
      }
    }
  }

  // --- A walkable plan completes ---

  /** The evaluation depends on the canary's health: at a pause whose stamp is written, or at the step's weight. */
  predicate AsksForHealth(spec: RolloutSpec, ro: Rollout) {
    var i := ro.status.stepIndex;
    && i < |spec.steps| && !NeedsStamp(spec, ro)
    && (spec.steps[i].pause.Some? || spec.steps[i].setWeight == Some(ro.status.weight))
  }

  /** The canary behaves: nothing stuck, all pods ready, no probe that matters fails, a started pause has elapsed. */
  predicate Good(spec: RolloutSpec, ro: Rollout, input: Input) {
    && !input.replicaFailure && input.ready >= Desired(ro)
    && (AsksForHealth(spec, ro) && Probed(ro.status, input.now) ==> input.probe)
    && (TimedPause(spec, ro.status.stepIndex) && ro.ann.pauseStart.Some? ==>
          input.now - ro.ann.pauseStart.value.second * SECOND
            >= spec.steps[ro.status.stepIndex].pause.value.duration.value)
  }

  predicate AllGood(spec: RolloutSpec, ro: Rollout, events: seq<Event>) {
    events == [] ||
    var front, e := events[..|events| - 1], events[|events| - 1];
    AllGood(spec, ro, front) && e.Reconcile? && Good(spec, Run(spec, ro, front), e.input)
  }

  /** What good reconciles keep: a stamp can only be that of the plan's one timed pause. */
  ghost predicate OnTheWay(spec: RolloutSpec, ro: Rollout)
    requires spec.replicas.Some?
  {
    && InBounds(spec, ro) && Coupled(spec, ro) && HoldsArrival(spec, ro)
    && ro.status.phase in {New, Progressing, Paused, Healthy}
    && (ro.ann.pauseStart.Some? ==> TimedPause(spec, ro.ann.pauseStart.value.stepIndex))
  }

  predicate HasTimedPause(spec: RolloutSpec) {
    exists i | 0 <= i < |spec.steps| :: TimedPause(spec, i)
  }

  /** How many reconciles a good run takes: two evaluations a step, one to conclude, one to stamp a timed pause. */
  function Bound(spec: RolloutSpec): nat {
    2 * |spec.steps| + 1 + (if HasTimedPause(spec) then 1 else 0)
  }

  /** Evaluations left before all steps are passed, and the reconcile that writes the stamp. */
  function Remaining(spec: RolloutSpec, ro: Rollout): int {
    var i := ro.status.stepIndex;
    2 * (|spec.steps| - i)
      - (if WeightStep(spec, i) && ro.status.weight == spec.steps[i].setWeight.value then 1 else 0)
      + (if ro.ann.pauseStart.None? && HasTimedPause(spec) then 1 else 0)
  }

  /** Where the canary stands at its step: the pods it asks for are there and healthy. */
  lemma GoodIsHealthy(spec: RolloutSpec, ro: Rollout, input: Input)
    requires FixedTotal(spec) && Walkable(spec) && OnTheWay(spec, ro) && Good(spec, ro, input)
    requires AsksForHealth(spec, ro)
    ensures IsHealthy(ro, input)
  {
    var i, total := ro.status.stepIndex, spec.replicas.value;
    assert Passable(spec, i);
    WeightReplicasIsFloor(0, total);
    assert WeightReplicas(ro.status.weight, total) > 0;
  }

  lemma GoodStep(spec: RolloutSpec, ro: Rollout, input: Input)
    requires FixedTotal(spec) && Walkable(spec) && OnTheWay(spec, ro) && Good(spec, ro, input)
    ensures var ro' := Step(spec, ro, Reconcile(input));
      && OnTheWay(spec, ro')
      && (ro.status.stepIndex == |spec.steps| ==> ro'.status.phase == Healthy && ro'.status.stepIndex == |spec.steps|)
      && (ro.status.stepIndex < |spec.steps| ==> Remaining(spec, ro') < Remaining(spec, ro))
  {
    var i := ro.status.stepIndex;
    StepStaysInBounds(spec, ro, Reconcile(input));
    StepStaysCoupled(spec, ro, input);
    StepHoldsArrival(spec, ro, input);
    hide InBounds, Coupled, HoldsArrival;
    assert NoCommands(ro) && (ro.status.phase == New ==> i == 0 && ro.status.weight == 0) by {
      OnTheWayIsQuiet(spec, ro);
    }
    assert i <= |spec.steps| by {
      OnTheWayIsQuiet(spec, ro);
    }
    if i < |spec.steps| {
      assert Passable(spec, i);
      if AsksForHealth(spec, ro) {
        GoodIsHealthy(spec, ro, input);
      }
      if TimedPause(spec, i) && ro.ann.pauseStart.Some? {
        OneTimedPause(spec, i, ro.ann.pauseStart.value.stepIndex);
      }
    }
  }

  lemma OnTheWayIsQuiet(spec: RolloutSpec, ro: Rollout)
    requires spec.replicas.Some? && OnTheWay(spec, ro)
    ensures NoCommands(ro) && ro.status.stepIndex <= |spec.steps|
    ensures ro.status.phase == New ==> ro.status.stepIndex == 0 && ro.status.weight == 0
  {
  }

  lemma OneTimedPause(spec: RolloutSpec, i: nat, j: nat)
    requires spec.replicas.Some? && Walkable(spec) && TimedPause(spec, i) && TimedPause(spec, j)
    ensures i == j
  {
  }

  lemma FreshIsOnTheWay(spec: RolloutSpec, ro: Rollout)
    requires FixedTotal(spec) && Fresh(ro)
    ensures OnTheWay(spec, ro) && Remaining(spec, ro) < Bound(spec)
  {
    assert ArrivalWeight(spec, 0) == 0;
  }

  /** After n good reconciles either all steps are passed, or n less remain. */
  lemma {:induction false} GoodRun(spec: RolloutSpec, ro: Rollout, events: seq<Event>)
    requires FixedTotal(spec) && Walkable(spec) && Fresh(ro) && AllGood(spec, ro, events)
    ensures var end := Run(spec, ro, events);
      && OnTheWay(spec, end)
      && (end.status.stepIndex < |spec.steps| ==> Remaining(spec, end) < Bound(spec) - |events|)
      && (|events| >= Bound(spec) ==> end.status.phase == Healthy && end.status.stepIndex == |spec.steps|)
  {
    FreshIsOnTheWay(spec, ro);
    if events != [] {
      var front, e := events[..|events| - 1], events[|events| - 1];
      GoodRun(spec, ro, front);
      var before := Run(spec, ro, front);
      hide Step, OnTheWay, Walkable, Good;
      GoodStep(spec, before, e.input);
      AtMostAllSteps(spec, before);
      AtMostAllSteps(spec, Run(spec, ro, events));
    }
  }

  lemma AtMostAllSteps(spec: RolloutSpec, ro: Rollout)
    requires spec.replicas.Some? && OnTheWay(spec, ro)
    ensures ro.status.stepIndex <= |spec.steps|
    ensures ro.status.stepIndex < |spec.steps| ==> Remaining(spec, ro) >= 1
  {
  }

  /**
   A walkable rollout whose canary behaves is Healthy within 2 * len(Steps) + 1 evaluations,
   and one more reconcile that writes the stamp when the plan has a timed pause.
   */
  lemma WalkCompletes(spec: RolloutSpec, ro: Rollout, events: seq<Event>)
    requires FixedTotal(spec) && Walkable(spec) && Fresh(ro) && AllGood(spec, ro, events)
    requires |events| >= Bound(spec)
    ensures Run(spec, ro, events).status.phase == Healthy
  {
    GoodRun(spec, ro, events);
  }

  function GoodInput(spec: RolloutSpec, ro: Rollout): (input: Input)
    ensures Good(spec, ro, input)
  {
    var i := ro.status.stepIndex;
    var entered := if ro.ann.pauseStart.Some? then ro.ann.pauseStart.value.second * SECOND else 0;
    var duration := if TimedPause(spec, i) then spec.steps[i].pause.value.duration.value else 0;
    Input(entered + duration, Desired(ro), true, false)
  }

  lemma {:induction false} GoodEventsExist(spec: RolloutSpec, ro: Rollout, n: nat) returns (events: seq<Event>)
    ensures |events| == n && AllGood(spec, ro, events) && OperatorFree(events)
  {
    hide Step, Good;
    if n == 0 {
      events := [];
    } else {
      var front := GoodEventsExist(spec, ro, n - 1);
      var e := Reconcile(GoodInput(spec, Run(spec, ro, front)));
      events := front + [e];
      assert events[..n - 1] == front;
    }
  }

  /** A rollout with a fixed total can reach Healthy without an operator if and only if its plan is walkable. */
  lemma CompletesIffWalkable(spec: RolloutSpec, ro: Rollout)
    requires FixedTotal(spec) && Fresh(ro)
    ensures Walkable(spec) <==> exists events :: OperatorFree(events) && Run(spec, ro, events).status.phase == Healthy
  {
    if Walkable(spec) {
      var events := GoodEventsExist(spec, ro, Bound(spec));
      WalkCompletes(spec, ro, events);
    }
    if events :| OperatorFree(events) && Run(spec, ro, events).status.phase == Healthy {
      CompletedIsWalkable(spec, ro, events);
    }
  }
}
