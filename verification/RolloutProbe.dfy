/**
 The active probe of a rollout runs at most every 30 seconds; in between, ready pods count as
 healthy (internal/controller/rollout_controller.go). So no probe is needed to pass a step.
 */
module RolloutProbe {
  import opened Wrappers
  import opened RolloutTypes
  import opened Canary
  import opened RolloutSystem
  import opened RolloutSafety
  import opened RolloutCompletion

  predicate NoProbePasses(events: seq<Event>) {
    forall e | e in events :: e.Reconcile? && !e.input.probe
  }

  /** The clock does not run backwards, and starts no earlier than `start`. */
  predicate Chronological(events: seq<Event>, start: int) {
    && (forall e | e in events :: e.Reconcile? && e.input.now >= start)
    && (forall i, j | 0 <= i < j < |events| :: events[i].Reconcile? && events[j].Reconcile? ==>
          events[i].input.now <= events[j].input.now)
  }

  /** A check 30 seconds after the last one is due, and the first one is; one nanosecond earlier it is not. */
  lemma ProbeIsDue(status: RolloutStatus, last: int)
    requires status.lastHealthCheck == Some(last)
    ensures Probed(status, last + 30_000_000_000) && !Probed(status, last + 29_999_999_999)
    ensures forall now :: Probed(status.(lastHealthCheck := None), now)
  {
  }

  /** At its weight a step is passed exactly when all pods are ready and the probe passes, if one is due. */
  lemma WeightStepPassesIff(spec: RolloutSpec, ro: Rollout, input: Input)
    requires Advances(spec, ro) && !Stuck(spec, ro, input)
    requires var status := Initialized(ro.status);
      WeightStep(spec, status.stepIndex) && spec.steps[status.stepIndex].setWeight == Some(status.weight)
    ensures var next, passed := Step(spec, ro, Reconcile(input)).status, Initialized(ro.status).stepIndex + 1;
      && (next.stepIndex == passed <==>
            PodsReady(Ready(ro, input), Desired(ro)) && (Probed(ro.status, input.now) ==> input.probe))
      && (!input.probe ==> (next.stepIndex == passed <==>
            && PodsReady(Ready(ro, input), Desired(ro))
            && ro.status.lastHealthCheck.Some?
            && input.now - ro.status.lastHealthCheck.value < HEALTH_CHECK_INTERVAL))
  {
    hide WeightReplicas;
  }

  /** One step to 50 percent and two replicas: the first reconcile scales, and spends the probe. */
  predicate HalfPlan(spec: RolloutSpec) {
    spec.steps == [CanaryStep(Some(50), None)] && spec.replicas == Some(2)
  }

  lemma HalfIsScaled(spec: RolloutSpec, ro: Rollout)
    requires HalfPlan(spec) && Fresh(ro)
    ensures var ro' := Step(spec, ro, Reconcile(Input(0, 0, false, false)));
      && NoCommands(ro') && ro'.canary == Some(1) && ro'.status.phase == Progressing
      && ro'.status.stepIndex == 0 && ro'.status.weight == 50 && ro'.status.lastHealthCheck == Some(0)
  {
    assert WeightReplicas(50, 2) == 1;
    hide WeightReplicas;
  }

  lemma HalfIsPassed(spec: RolloutSpec, ro: Rollout)
    requires HalfPlan(spec) && NoCommands(ro) && ro.canary == Some(1) && ro.status.phase == Progressing
    requires ro.status.stepIndex == 0 && ro.status.weight == 50 && ro.status.lastHealthCheck == Some(0)
    ensures var ro' := Step(spec, ro, Reconcile(Input(SECOND, 1, false, false)));
      NoCommands(ro') && ro'.status.phase == Progressing && ro'.status.stepIndex == 1
  {
    hide WeightReplicas;
  }

  /** Three reconciles within two seconds, and no probe ever passes: Healthy. */
  lemma HealthyWithoutProbe(spec: RolloutSpec, ro: Rollout)
    requires HalfPlan(spec) && Fresh(ro)
    ensures var events := [Reconcile(Input(0, 0, false, false)), Reconcile(Input(SECOND, 1, false, false)),
                           Reconcile(Input(2 * SECOND, 1, false, false))];
      NoProbePasses(events) && Run(spec, ro, events).status.phase == Healthy
  {
    hide Step, Run;
    var a, b, c := Reconcile(Input(0, 0, false, false)), Reconcile(Input(SECOND, 1, false, false)),
                   Reconcile(Input(2 * SECOND, 1, false, false));
    HalfIsScaled(spec, ro);
    var scaled := Step(spec, ro, a);
    HalfIsPassed(spec, scaled);
    var passed := Step(spec, scaled, b);
    PastLastStepIsHealthy(spec, passed, c.input);
    RunOfThree(spec, ro, a, b, c);
  }

  lemma PastLastStepIsHealthy(spec: RolloutSpec, ro: Rollout, input: Input)
    requires Advances(spec, ro) && !Stuck(spec, ro, input) && Initialized(ro.status).stepIndex >= |spec.steps|
    ensures Step(spec, ro, Reconcile(input)).status.phase == Healthy
  {
  }

  lemma RunOfThree(spec: RolloutSpec, ro: Rollout, a: Event, b: Event, c: Event)
    ensures Run(spec, ro, [a, b, c]) == Step(spec, Step(spec, Step(spec, ro, a), b), c)
  {
    hide Step;
    RunFromFirst(spec, ro, a, [b, c]);
    RunFromFirst(spec, Step(spec, ro, a), b, [c]);
    RunFromFirst(spec, Step(spec, Step(spec, ro, a), b), c, []);
    assert [a] + [b, c] == [a, b, c] && [b] + [c] == [b, c] && [c] + [] == [c];
  }

  lemma {:induction false} RunFromFirst(spec: RolloutSpec, ro: Rollout, e: Event, rest: seq<Event>)
    ensures Run(spec, ro, [e] + rest) == Run(spec, Step(spec, ro, e), rest)
  {
    hide Step;
    var all := [e] + rest;
    if rest == [] {
      assert all[..0] == [] && all[0] == e;
    } else {
      var front := rest[..|rest| - 1];
      RunFromFirst(spec, ro, e, front);
      assert all[..|all| - 1] == [e] + front;
    }
  }

  // --- A plan that can complete at all completes against a probe that always fails ---

  /** On the way, with no failed check counted so far. */
  ghost predicate Unfailed(spec: RolloutSpec, ro: Rollout)
    requires spec.replicas.Some?
  {
    OnTheWay(spec, ro) && ro.status.failures == 0
  }

  /** A time, not before `start`, at which a started pause has elapsed. */
  function Due(spec: RolloutSpec, ro: Rollout, start: int): (now: int)
    ensures now >= start
  {
    var i := ro.status.stepIndex;
    if TimedPause(spec, i) && ro.ann.pauseStart.Some? then
      var elapsed := ro.ann.pauseStart.value.second * SECOND + spec.steps[i].pause.value.duration.value;
      if elapsed > start then elapsed else start
    else start
  }

  /** Pods not ready: a due probe fails without being counted, and is not due again for a while. */
  lemma ProbeIsSpent(spec: RolloutSpec, ro: Rollout, now: int)
    requires FixedTotal(spec) && Walkable(spec) && Unfailed(spec, ro) && AsksForHealth(spec, ro)
    ensures var ro' := Step(spec, ro, Reconcile(Input(now, 0, false, false)));
      && Unfailed(spec, ro') && Remaining(spec, ro') == Remaining(spec, ro)
      && ro'.status.stepIndex == ro.status.stepIndex && ro'.ann == ro.ann
      && (Probed(ro.status, now) ==> !Probed(ro'.status, now))
  {
    var input := Input(now, 0, false, false);
    StepStaysInBounds(spec, ro, Reconcile(input));
    StepStaysCoupled(spec, ro, input);
    OnTheWayIsQuiet(spec, ro);
    StepHoldsArrival(spec, ro, input);
    NoPodIsNotReady(spec, ro);
    hide InBounds, Coupled, HoldsArrival, WeightReplicas, Walkable;
  }

  lemma NoPodIsNotReady(spec: RolloutSpec, ro: Rollout)
    requires spec.replicas.Some? && OnTheWay(spec, ro)
    ensures ro.canary.Some? ==> ro.status.phase != New
    ensures !PodsReady(0, Desired(ro))
  {
  }

  lemma GoodStepFailsNothing(spec: RolloutSpec, ro: Rollout, input: Input)
    requires FixedTotal(spec) && Walkable(spec) && Unfailed(spec, ro) && Good(spec, ro, input)
    ensures Step(spec, ro, Reconcile(input)).status.failures == 0
  {
    if AsksForHealth(spec, ro) {
      GoodIsHealthy(spec, ro, input);
    }
    OnTheWayIsQuiet(spec, ro);
    hide OnTheWay, WeightReplicas, Walkable;
  }

  /** One or two reconciles against a failing probe get the rollout on. */
  lemma GetsOn(spec: RolloutSpec, ro: Rollout, start: int) returns (events: seq<Event>, now: int)
    requires FixedTotal(spec) && Walkable(spec) && Unfailed(spec, ro)
    ensures now >= start && 1 <= |events| <= 2
    ensures forall e | e in events :: e.Reconcile? && e.input.now == now && !e.input.probe
    ensures var ro' := Run(spec, ro, events);
      && Unfailed(spec, ro')
      && (ro.status.stepIndex < |spec.steps| ==> Remaining(spec, ro') < Remaining(spec, ro))
      && (ro.status.stepIndex == |spec.steps| ==> ro'.status.phase == Healthy && ro'.status.stepIndex == |spec.steps|)
  {
    hide Step, OnTheWay, Walkable, Good, Remaining, AsksForHealth;
    now := Due(spec, ro, start);
    var ready := Reconcile(Input(now, Desired(ro), false, false));
    if AsksForHealth(spec, ro) && Probed(ro.status, now) {
      var spent := Reconcile(Input(now, 0, false, false));
      ProbeIsSpent(spec, ro, now);
      var ro1 := Step(spec, ro, spent);
      var input := Input(now, Desired(ro1), false, false);
      UnprobedIsGood(spec, ro1, now, start);
      GoodStep(spec, ro1, input);
      GoodStepFailsNothing(spec, ro1, input);
      events := [spent] + [Reconcile(input)];
      RunFromFirst(spec, ro, spent, [Reconcile(input)]);
      RunFromFirst(spec, ro1, Reconcile(input), []);
      assert [Reconcile(input)] + [] == [Reconcile(input)];
    } else {
      UnprobedIsGood(spec, ro, now, start);
      GoodStep(spec, ro, ready.input);
      GoodStepFailsNothing(spec, ro, ready.input);
      events := [ready];
      RunFromFirst(spec, ro, ready, []);
      assert [ready] + [] == [ready];
    }
  }

  lemma UnprobedIsGood(spec: RolloutSpec, ro: Rollout, now: int, start: int)
    requires now == Due(spec, ro, start) && !(AsksForHealth(spec, ro) && Probed(ro.status, now))
    ensures Good(spec, ro, Input(now, Desired(ro), false, false))
  {
  }

  lemma {:induction false} GetsThere(spec: RolloutSpec, ro: Rollout, start: int) returns (events: seq<Event>)
    requires FixedTotal(spec) && Walkable(spec) && Unfailed(spec, ro)
    ensures NoProbePasses(events) && Chronological(events, start)
    ensures Run(spec, ro, events).status.phase == Healthy
    decreases if ro.status.stepIndex < |spec.steps| then Remaining(spec, ro) else 0
  {
    hide Step, OnTheWay, Walkable, Remaining;
    AtMostAllSteps(spec, ro);
    var first, now := GetsOn(spec, ro, start);
    if ro.status.stepIndex >= |spec.steps| {
      events := first;
    } else {
      var next := Run(spec, ro, first);
      AtMostAllSteps(spec, next);
      var rest := GetsThere(spec, next, now);
      events := first + rest;
      RunAppend(spec, ro, first, rest);
    }
  }

  lemma {:induction false} RunAppend(spec: RolloutSpec, ro: Rollout, a: seq<Event>, b: seq<Event>)
    ensures Run(spec, ro, a + b) == Run(spec, Run(spec, ro, a), b)
  {
    hide Step;
    if b == [] {
      assert a + b == a;
    } else {
      var front := b[..|b| - 1];
      RunAppend(spec, ro, a, front);
      assert (a + b)[..|a + b| - 1] == a + front;
    }
  }

  /**
   A rollout with a fixed total can reach Healthy without an operator and without a single
   passing probe, on a clock that runs forward, if and only if its plan is walkable: if and
   only if it can reach Healthy without an operator at all.
   */
  lemma CompletesAgainstProbesIff(spec: RolloutSpec, ro: Rollout)
    requires FixedTotal(spec) && Fresh(ro)
    ensures Walkable(spec) <==> exists events ::
      NoProbePasses(events) && Chronological(events, 0) && Run(spec, ro, events).status.phase == Healthy
  {
    hide Run, Walkable, OnTheWay;
    if Walkable(spec) {
      FreshIsOnTheWay(spec, ro);
      var events := GetsThere(spec, ro, 0);
    }
    if events :| NoProbePasses(events) && Chronological(events, 0) && Run(spec, ro, events).status.phase == Healthy {
      CompletedIsWalkable(spec, ro, events);
    }
  }
}
