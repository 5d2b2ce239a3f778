/**
 Rollouts without an explicit replica count: the total is read from the stable Deployment,
 which the rollout itself scales down (ensureWorkload and applyDecision in
 internal/controller/rollout_controller.go).
 */
module RolloutDrift {
  import opened Wrappers
  import opened RolloutTypes
  import opened Canary
  import opened RolloutSystem
  import opened RolloutSafety

  /** The total is a live one, and an int32. */
  predicate LiveTotal(spec: RolloutSpec, ro: Rollout) {
    Valid(spec) && spec.replicas.None? && 0 <= Total(spec, ro) < 0x8000_0000
  }

  /** The total is the one configured, else that of the Deployment that is there, else two. */
  lemma TotalIsResolved(spec: RolloutSpec, ro: Rollout)
    ensures spec.replicas.Some? ==> Total(spec, ro) == spec.replicas.value
    ensures spec.replicas.None? && ro.stable.Some? ==> Total(spec, ro) == ro.stable.value
    ensures spec.replicas.None? && ro.stable.None? ==> Total(spec, ro) == 2
  {
  }

  /** What all operator-free runs without an explicit count keep. */
  ghost predicate Drifting(spec: RolloutSpec, ro: Rollout) {
    && LiveTotal(spec, ro) && InBounds(spec, ro) && NoCommands(ro)
    && (ro.status.weight == 100 ==> ro.stable == Some(0))
    && (ro.status.phase == Healthy ==> ro.stable.Some? && (ro.stable == Some(0) ==> ro.canary == Some(0)))
  }

  lemma FullWeightTakesAll(weight: int, total: int)
    requires 0 <= weight <= 100 && 0 < total < 0x8000_0000
    ensures WeightReplicas(weight, total) == total <==> weight == 100
  {
    WeightReplicasIsFloor(weight, total);
    if weight < 100 {
      assert (100 - weight) * total > 0;
    } else {
      assert ToInt32(total) == total;
    }
  }

  /** The decision of a reconcile, whose canary pods the live total loses. */
  lemma DecisionDrains(spec: RolloutSpec, ro: Rollout, input: Input)
    requires Drifting(spec, ro) && Advances(spec, ro) && !Stuck(spec, ro, input)
    ensures var ro', total := Step(spec, ro, Reconcile(input)), Total(spec, ro);
      && InBounds(spec, ro') && NoCommands(ro') && 0 <= ro'.status.weight <= 100
      && ro'.canary == Some(WeightReplicas(ro'.status.weight, total))
      && 0 <= ro'.canary.value <= total && ro'.stable == Some(total - ro'.canary.value)
      && (ro'.status.phase == Healthy ==> ro'.status.weight == Initialized(ro.status).weight)
  {
    StepStaysInBounds(spec, ro, Reconcile(input));
    DecisionsConserve(spec, Initialized(ro.status), ro.ann.pauseStart, Ready(ro, input), Desired(ro),
      Total(spec, ro), IsHealthy(ro, input), input.now);
    var d := Judge(spec, ro, input);
    KnownWeightIsPercentage(spec, d.weight);
    HealthyKeepsWeight(spec, ro, input);
    hide Judge, InBounds, WeightReplicas, Valid, KnownWeight;
  }

  lemma HealthyKeepsWeight(spec: RolloutSpec, ro: Rollout, input: Input)
    ensures var d := Judge(spec, ro, input); d.phase == Healthy ==> d.weight == Initialized(ro.status).weight
  {
    hide WeightReplicas;
  }

  lemma StepStaysDrifting(spec: RolloutSpec, ro: Rollout, input: Input)
    requires Drifting(spec, ro)
    ensures var ro', total := Step(spec, ro, Reconcile(input)), Total(spec, ro);
      && Drifting(spec, ro') && Total(spec, ro') <= total
      && (total > 0 ==> (Total(spec, ro') == 0 <==> ro'.status.weight == 100))
  {
    StepStaysInBounds(spec, ro, Reconcile(input));
    hide InBounds, WeightReplicas;
    if Advances(spec, ro) && !Stuck(spec, ro, input) {
      DecisionDrains(spec, ro, input);
      if Total(spec, ro) > 0 {
        FullWeightTakesAll(Step(spec, ro, Reconcile(input)).status.weight, Total(spec, ro));
      }
      hide Step;
    } else {
      NewIsAtZero(spec, ro);
    }
  }

  lemma NewIsAtZero(spec: RolloutSpec, ro: Rollout)
    requires InBounds(spec, ro)
    ensures ro.status.phase == New ==> ro.status.weight == 0
  {
  }

  lemma FreshIsDrifting(spec: RolloutSpec, ro: Rollout)
    requires Fresh(ro) && LiveTotal(spec, ro)
    ensures Drifting(spec, ro)
  {
  }

  lemma {:induction false} RunStaysDrifting(spec: RolloutSpec, ro: Rollout, events: seq<Event>)
    requires Drifting(spec, ro) && OperatorFree(events)
    ensures Drifting(spec, Run(spec, ro, events))
  {
    hide Step, Drifting, Total;
    if events != [] {
      var front, e := events[..|events| - 1], events[|events| - 1];
      RunStaysDrifting(spec, ro, front);
      assert e in events;
      StepStaysDrifting(spec, Run(spec, ro, front), e.input);
    }
  }

  lemma DriftingIsLive(spec: RolloutSpec, ro: Rollout)
    requires Drifting(spec, ro)
    ensures 0 <= Total(spec, ro)
  {
  }

  // --- When all pods are lost ---

  /** The rollout had full weight at some point of the run. */
  predicate EverFull(spec: RolloutSpec, ro: Rollout, events: seq<Event>) {
    Run(spec, ro, events).status.weight == 100 || (events != [] && EverFull(spec, ro, events[..|events| - 1]))
  }

  /** The stable Deployment loses its last pod exactly when the weight reaches 100, and never gets it back. */
  lemma {:induction false} DrainedIffEverFull(spec: RolloutSpec, ro: Rollout, events: seq<Event>)
    requires Fresh(ro) && LiveTotal(spec, ro) && Total(spec, ro) > 0 && OperatorFree(events)
    ensures Total(spec, Run(spec, ro, events)) == 0 <==> EverFull(spec, ro, events)
  {
    FreshIsDrifting(spec, ro);
    if events != [] {
      var front, e := events[..|events| - 1], events[|events| - 1];
      DrainedIffEverFull(spec, ro, front);
      RunStaysDrifting(spec, ro, front);
      assert e in events;
      StepStaysDrifting(spec, Run(spec, ro, front), e.input);
      FullIsEmpty(spec, Run(spec, ro, events));
      FullIsEmpty(spec, Run(spec, ro, front));
      hide Step;
      DriftingIsLive(spec, Run(spec, ro, events));
    }
  }

  lemma FullIsEmpty(spec: RolloutSpec, ro: Rollout)
    requires Drifting(spec, ro)
    ensures ro.status.weight == 100 ==> Total(spec, ro) == 0
  {
  }

  /** A rollout that has become Healthy requests no pod at all exactly when it had full weight before. */
  lemma HealthyWithoutPodsIfFull(spec: RolloutSpec, ro: Rollout, events: seq<Event>)
    requires Fresh(ro) && LiveTotal(spec, ro) && Total(spec, ro) > 0 && OperatorFree(events)
    requires Run(spec, ro, events).status.phase == Healthy
    ensures var end := Run(spec, ro, events);
      end.stable == Some(0) && end.canary == Some(0) <==> EverFull(spec, ro, events)
  {
    FreshIsDrifting(spec, ro);
    RunStaysDrifting(spec, ro, events);
    DrainedIffEverFull(spec, ro, events);
  }

  /** The step brings its 100 percent about: a weight step, or a pause directly after one. */
  predicate TakesFull(spec: RolloutSpec, i: nat) {
    && i < |spec.steps| && spec.steps[i].setWeight == Some(100)
    && (spec.steps[i].pause.None? || (i > 0 && WeightStep(spec, i - 1)))
  }

  ghost predicate GoesToFull(spec: RolloutSpec) {
    exists i :: TakesFull(spec, i)
  }

  /** The weight changes to 100 only by such a step, at it or on the way to it. */
  lemma FullComesFromStep(spec: RolloutSpec, ro: Rollout, input: Input)
    requires NoCommands(ro) && ro.status.weight != 100
    requires Step(spec, ro, Reconcile(input)).status.weight == 100
    ensures GoesToFull(spec)
  {
    hide WeightReplicas;
    var i := Initialized(ro.status).stepIndex;
    assert TakesFull(spec, i) || TakesFull(spec, i + 1);
  }

  lemma {:induction false} EverFullGoesToFull(spec: RolloutSpec, ro: Rollout, events: seq<Event>)
    requires Fresh(ro) && LiveTotal(spec, ro) && OperatorFree(events) && EverFull(spec, ro, events)
    ensures GoesToFull(spec)
  {
    if events != [] {
      hide Step, GoesToFull;
      var front, e := events[..|events| - 1], events[|events| - 1];
      if EverFull(spec, ro, front) {
        EverFullGoesToFull(spec, ro, front);
      } else {
        FreshIsDrifting(spec, ro);
        RunStaysDrifting(spec, ro, front);
        assert e in events;
        FullComesFromStep(spec, Run(spec, ro, front), e.input);
      }
    }
  }

  /** Past a weight step, the weight of the next one has been taken. */
  lemma NextWeightIsTaken(spec: RolloutSpec, ro: Rollout, input: Input, i: nat)
    requires NoCommands(ro) && WeightStep(spec, i) && i + 1 < |spec.steps|
    requires ro.status.phase == New ==> ro.status.stepIndex == 0
    requires ro.status.stepIndex <= i && Step(spec, ro, Reconcile(input)).status.stepIndex > i
    ensures spec.steps[i + 1].setWeight.Some? ==>
      Some(Step(spec, ro, Reconcile(input)).status.weight) == spec.steps[i + 1].setWeight
  {
    hide WeightReplicas;
  }

  lemma {:induction false} PassedWeightStepTakesNext(spec: RolloutSpec, ro: Rollout, events: seq<Event>, i: nat)
    requires Fresh(ro) && LiveTotal(spec, ro) && OperatorFree(events)
    requires WeightStep(spec, i) && TakesFull(spec, i + 1) && Run(spec, ro, events).status.stepIndex > i
    ensures EverFull(spec, ro, events)
  {
    var front, e := events[..|events| - 1], events[|events| - 1];
    FreshIsDrifting(spec, ro);
    RunStaysDrifting(spec, ro, front);
    var before := Run(spec, ro, front);
    assert Drifting(spec, before) && e in events;
    assert before.status.phase == New ==> before.status.stepIndex == 0;
    hide Step;
    if before.status.stepIndex > i {
      PassedWeightStepTakesNext(spec, ro, front, i);
    } else {
      NextWeightIsTaken(spec, before, e.input, i);
    }
  }

  /** A weight step of 100 is left only after an evaluation at that weight. */
  lemma {:induction false} JudgedFullWasFull(spec: RolloutSpec, ro: Rollout, events: seq<Event>, e: Entry)
    requires OperatorFree(events) && e in Log(spec, ro, events) && e.Judged? && e.weight == 100
    ensures EverFull(spec, ro, events)
  {
    hide Step;
    var front, last := events[..|events| - 1], events[|events| - 1];
    if e in Log(spec, ro, front) {
      JudgedFullWasFull(spec, ro, front, e);
    } else {
      assert e in EntriesOf(spec, Run(spec, ro, front), last);
    }
  }

  lemma HealthyPlanWasFull(spec: RolloutSpec, ro: Rollout, events: seq<Event>, i: nat)
    requires Fresh(ro) && LiveTotal(spec, ro) && OperatorFree(events)
    requires Run(spec, ro, events).status.phase == Healthy && TakesFull(spec, i)
    ensures EverFull(spec, ro, events)
  {
    assert PromoteFree(events);
    if spec.steps[i].pause.None? {
      HealthyMeansEveryStepPassed(spec, ro, events, i);
      var e :| e in Log(spec, ro, events) && PassesWeight(spec, e, i);
      JudgedFullWasFull(spec, ro, events, e);
    } else {
      RunIsGated(spec, ro, events);
      PassedWeightStepTakesNext(spec, ro, events, i - 1);
    }
  }

  /**
   A condition on the plan alone: a rollout that has become Healthy without an operator ends
   with no pod in either Deployment if and only if some step sets the weight to 100, and is no
   pause or comes directly after a weight step.
   */
  lemma HealthyWithoutPodsIff(spec: RolloutSpec, ro: Rollout, events: seq<Event>)
    requires Fresh(ro) && LiveTotal(spec, ro) && Total(spec, ro) > 0 && OperatorFree(events)
    requires Run(spec, ro, events).status.phase == Healthy
    ensures var end := Run(spec, ro, events);
      end.stable == Some(0) && end.canary == Some(0) <==> GoesToFull(spec)
  {
    HealthyWithoutPodsIfFull(spec, ro, events);
    if EverFull(spec, ro, events) {
      EverFullGoesToFull(spec, ro, events);
    }
    if i :| TakesFull(spec, i) {
      HealthyPlanWasFull(spec, ro, events, i);
    }
  }

  /** One step to 100 percent, four stable pods, a canary that behaves: three reconciles later there are none. */
  lemma FourPodsAreLost(spec: RolloutSpec, ro: Rollout)
    requires spec.steps == [CanaryStep(Some(100), None)] && spec.replicas.None?
    requires Fresh(ro) && ro.stable == Some(4)
    ensures var first := Step(spec, ro, Reconcile(Input(0, 0, true, false)));
      var second := Step(spec, first, Reconcile(Input(0, 4, true, false)));
      var end := Step(spec, second, Reconcile(Input(0, 0, true, false)));
      end.status.phase == Healthy && end.stable == Some(0) && end.canary == Some(0)
  {
    assert WeightReplicas(100, 4) == 4 && WeightReplicas(100, 0) == 0;
    var first := Step(spec, ro, Reconcile(Input(0, 0, true, false)));
    assert first.canary == Some(4) && first.stable == Some(0) && first.status.weight == 100;
    var second := Step(spec, first, Reconcile(Input(0, 4, true, false)));
    assert second.status.stepIndex == 1 && second.stable == Some(0);
  }

  // --- When the total stays ---

  /** The first step that says anything; steps without weight or pause are skipped. */
  function FirstProper(spec: RolloutSpec, i: nat): (f: nat)
    requires i <= |spec.steps|
    ensures i <= f <= |spec.steps|
    ensures forall k | i <= k < f :: spec.steps[k].pause.None? && spec.steps[k].setWeight.None?
    ensures f < |spec.steps| ==> spec.steps[f].pause.Some? || spec.steps[f].setWeight.Some?
    decreases |spec.steps| - i
  {
    if i < |spec.steps| && spec.steps[i].pause.None? && spec.steps[i].setWeight.None?
    then FirstProper(spec, i + 1) else i
  }

  /** The plan never starts a canary pod: its first proper step is a pause or asks for less than one pod. */
  predicate StartsNoPod(spec: RolloutSpec, total: int) {
    var f := FirstProper(spec, 0);
    WeightStep(spec, f) ==> WeightReplicas(spec.steps[f].setWeight.value, total) == 0
  }

  /** At or before the first proper step, with no canary pod. */
  ghost predicate Stalled(spec: RolloutSpec, ro: Rollout, total: int) {
    var f := FirstProper(spec, 0);
    && NoCommands(ro) && Total(spec, ro) == total && ro.status.stepIndex <= f
    && (ro.canary.Some? ==> ro.canary.value == 0)
    && (ro.status.phase == New ==> ro.status.weight == 0)
    && (ro.status.weight != 0 ==>
          WeightStep(spec, f) && ro.status.stepIndex == f && spec.steps[f].setWeight == Some(ro.status.weight))
  }

  lemma StepStaysStalled(spec: RolloutSpec, ro: Rollout, input: Input, total: int)
    requires spec.replicas.None? && StartsNoPod(spec, total) && Stalled(spec, ro, total)
    requires WeightReplicas(0, total) == 0
    ensures Stalled(spec, Step(spec, ro, Reconcile(input)), total)
  {
    hide WeightReplicas;
  }

  lemma {:induction false} RunStaysStalled(spec: RolloutSpec, ro: Rollout, events: seq<Event>, total: int)
    requires spec.replicas.None? && StartsNoPod(spec, total) && Stalled(spec, ro, total) && OperatorFree(events)
    requires WeightReplicas(0, total) == 0
    ensures Stalled(spec, Run(spec, ro, events), total)
  {
    hide Step, Stalled, StartsNoPod, WeightReplicas;
    if events != [] {
      var front, e := events[..|events| - 1], events[|events| - 1];
      RunStaysStalled(spec, ro, front, total);
      assert e in events;
      StepStaysStalled(spec, Run(spec, ro, front), e.input, total);
    }
  }

  const IDLE := Input(0, 0, false, false)

  function Idles(n: nat): seq<Event> {
    seq(n, _ => Reconcile(IDLE))
  }

  /** Nothing has happened but that the first n steps were skipped. */
  predicate Skipped(spec: RolloutSpec, ro: Rollout, n: nat, total: int) {
    && NoCommands(ro) && !Finished(ro) && Total(spec, ro) == total
    && Initialized(ro.status).stepIndex == n && Initialized(ro.status).weight == 0
  }

  lemma OneIsSkipped(spec: RolloutSpec, ro: Rollout, n: nat, total: int)
    requires spec.replicas.None? && n < FirstProper(spec, 0) && Skipped(spec, ro, n, total)
    ensures Skipped(spec, Step(spec, ro, Reconcile(IDLE)), n + 1, total)
  {
    NothingOfZero(total);
    hide WeightReplicas;
    assert spec.steps[n].pause.None? && spec.steps[n].setWeight.None?;
    hide FirstProper;
  }

  /** Steps that say nothing are skipped one by one. */
  lemma {:induction false} StepsAreSkipped(spec: RolloutSpec, ro: Rollout, n: nat)
    requires spec.replicas.None? && Fresh(ro) && n <= FirstProper(spec, 0)
    ensures Skipped(spec, Run(spec, ro, Idles(n)), n, Total(spec, ro))
  {
    if n > 0 {
      hide Step, FirstProper, Skipped, Total;
      StepsAreSkipped(spec, ro, n - 1);
      IdlesSnoc(spec, ro, n - 1);
      OneIsSkipped(spec, Run(spec, ro, Idles(n - 1)), n - 1, Total(spec, ro));
    }
  }

  /** At the first proper step, its weight is scaled to. */
  lemma FirstWeightIsScaled(spec: RolloutSpec, ro: Rollout, f: nat, total: int)
    requires spec.replicas.None? && Skipped(spec, ro, f, total) && WeightStep(spec, f)
    requires spec.steps[f].setWeight.value != 0
    ensures Total(spec, Step(spec, ro, Reconcile(IDLE)))
      == total - WeightReplicas(spec.steps[f].setWeight.value, total)
  {
    hide WeightReplicas;
  }

  lemma FirstWeightTakesPods(spec: RolloutSpec, total: int)
    requires Valid(spec) && 0 <= total < 0x8000_0000 && !StartsNoPod(spec, total)
    ensures var f := FirstProper(spec, 0);
      WeightStep(spec, f) && spec.steps[f].setWeight.value != 0
      && WeightReplicas(spec.steps[f].setWeight.value, total) > 0
  {
    var weight := spec.steps[FirstProper(spec, 0)].setWeight.value;
    NothingOfZero(total);
    WeightReplicasIsFloor(weight, total);
  }

  lemma FirstPodIsTaken(spec: RolloutSpec, ro: Rollout)
    requires Fresh(ro) && LiveTotal(spec, ro) && !StartsNoPod(spec, Total(spec, ro))
    ensures Total(spec, Run(spec, ro, Idles(FirstProper(spec, 0) + 1))) < Total(spec, ro)
  {
    hide WeightReplicas, Step, Run, FirstProper, StartsNoPod, Valid, Skipped, Fresh, Total;
    var f, total := FirstProper(spec, 0), Total(spec, ro);
    FirstWeightTakesPods(spec, total);
    StepsAreSkipped(spec, ro, f);
    IdlesSnoc(spec, ro, f);
    FirstWeightIsScaled(spec, Run(spec, ro, Idles(f)), f, total);
  }

  lemma IdlesSnoc(spec: RolloutSpec, ro: Rollout, n: nat)
    ensures Run(spec, ro, Idles(n + 1)) == Step(spec, Run(spec, ro, Idles(n)), Reconcile(IDLE))
  {
    assert Idles(n + 1)[..n] == Idles(n);
  }

  /** Without an operator the live total stays in every run if and only if the plan starts no canary pod. */
  lemma TotalStaysIff(spec: RolloutSpec, ro: Rollout)
    requires Fresh(ro) && LiveTotal(spec, ro)
    ensures StartsNoPod(spec, Total(spec, ro)) <==>
      forall events :: OperatorFree(events) ==> Total(spec, Run(spec, ro, events)) == Total(spec, ro)
  {
    var total := Total(spec, ro);
    WeightReplicasIsFloor(0, total);
    if StartsNoPod(spec, total) {
      forall events | OperatorFree(events) ensures Total(spec, Run(spec, ro, events)) == total {
        RunStaysStalled(spec, ro, events, total);
      }
    } else {
      FirstPodIsTaken(spec, ro);
      assert OperatorFree(Idles(FirstProper(spec, 0) + 1));
    }
  }

  // --- Commands included ---

  lemma StepShrinks(spec: RolloutSpec, ro: Rollout, e: Event)
    requires LiveTotal(spec, ro) && InBounds(spec, ro)
    ensures LiveTotal(spec, Step(spec, ro, e)) && Total(spec, Step(spec, ro, e)) <= Total(spec, ro)
  {
    var total := Total(spec, ro);
    KnownWeightIsPercentage(spec, ro.status.weight);
    WeightReplicasIsFloor(ro.status.weight, total);
    WeightReplicasIsFloor(0, total);
    if e.Reconcile? {
      DecisionsConserve(spec, Initialized(ro.status), ro.ann.pauseStart, Ready(ro, e.input), Desired(ro), total,
        IsHealthy(ro, e.input), e.input.now);
    }
    hide Evaluate, WeightReplicas, KnownWeight, Valid;
  }

  /** The live total never grows, whatever operators do. */
  lemma {:induction false} TotalNeverGrows(spec: RolloutSpec, ro: Rollout, events: seq<Event>)
    requires LiveTotal(spec, ro) && InBounds(spec, ro)
    ensures LiveTotal(spec, Run(spec, ro, events)) && Total(spec, Run(spec, ro, events)) <= Total(spec, ro)
  {
    hide Step, LiveTotal, InBounds, Total;
    if events != [] {
      var front := events[..|events| - 1];
      TotalNeverGrows(spec, ro, front);
      RunStaysInBounds(spec, ro, front);
      StepShrinks(spec, Run(spec, ro, front), events[|events| - 1]);
    }
  }

  /**
   An operator's rollback does not give the pods back: it leaves the stable Deployment with
   the total that was left when it came, and the canary with none.
   */
  lemma RollbackRestoresNothing(
      spec: RolloutSpec, ro: Rollout, events: seq<Event>, consumed: Input, held: Input)
    requires LiveTotal(spec, ro) && InBounds(spec, ro)
    ensures var before := Run(spec, ro, events);
      var end := Step(spec, Step(spec, Step(spec, before, Operator(Rollback)), Reconcile(consumed)), Reconcile(held));
      && end.status.phase == RolledBack && end.canary == Some(0)
      && end.stable == Some(Total(spec, before)) && Total(spec, before) <= Total(spec, ro)
  {
    TotalNeverGrows(spec, ro, events);
  }

  /** Four stable pods and a step to 50 percent: two are left after a rollback. */
  lemma RollbackLosesTwoOfFour(spec: RolloutSpec, ro: Rollout, consumed: Input, held: Input)
    requires spec.steps == [CanaryStep(Some(50), None)] && spec.replicas.None? && Fresh(ro) && ro.stable == Some(4)
    ensures var scaled := Step(spec, ro, Reconcile(IDLE));
      var end := Step(spec, Step(spec, Step(spec, scaled, Operator(Rollback)), Reconcile(consumed)), Reconcile(held));
      end.status.phase == RolledBack && end.stable == Some(2) && end.canary == Some(0)
  {
    assert WeightReplicas(50, 4) == 2;
    hide WeightReplicas;
    var scaled := Step(spec, ro, Reconcile(IDLE));
    assert scaled.stable == Some(2) && scaled.canary == Some(2);
  }
}
