/**
 The Rollout reconciler (internal/controller/rollout_controller.go) as a step system:
 the Rollout's status and annotations, the replica counts of its two Deployments, and
 operator commands arriving between reconciles.
 */
module RolloutSystem {
  import opened Wrappers
  import opened RolloutTypes
  import opened Canary

  const DEFAULT_REPLICAS := 2
  const HEALTH_CHECK_INTERVAL := 30 * SECOND

  datatype Command = Pause | Promote | Rollback | Unknown

  datatype Annotations = Annotations(action: Option<Command>, paused: bool, aborted: bool, pauseStart: Option<Stamp>)

  /** stable and canary are the requested replicas of the two Deployments, None before they exist. */
  datatype Rollout = Rollout(status: RolloutStatus, ann: Annotations, stable: Option<int>, canary: Option<int>)

  /** What one reconcile meets: the clock, available canary pods, the active probe, a stuck canary. */
  datatype Input = Input(now: int, ready: int, probe: bool, replicaFailure: bool)

  datatype Event = Operator(command: Command) | Reconcile(input: Input)

  // --- Operator commands ---

  function ApplyPromote(spec: RolloutSpec, ro: Rollout): Rollout {
    if ro.ann.aborted then ro
    else
      var next := ro.status.stepIndex + 1;
      var resumed := ro.(ann := ro.ann.(paused := false));
      if ro.status.stepIndex >= |spec.steps|
      then resumed.(status := ro.status.(phase := Healthy, completed := true))
      else resumed.(status := ro.status.(
        phase := Progressing,
        stepIndex := next,
        weight := if next < |spec.steps| && spec.steps[next].setWeight.Some?
                  then spec.steps[next].setWeight.value else ro.status.weight))
  }

  /** Consumes a command; the status it acts on is the stored one. */
  function ApplyCommand(spec: RolloutSpec, ro: Rollout, command: Command): Rollout {
    var cleared := ro.(ann := ro.ann.(action := None));
    match command
    case Pause =>
      if ro.status.phase == Healthy || ro.status.phase == Degraded then cleared
      else cleared.(ann := cleared.ann.(paused := true), status := ro.status.(phase := Paused))
    case Promote => ApplyPromote(spec, cleared)
    case Rollback =>
      cleared.(ann := cleared.ann.(paused := false, aborted := true), status := ro.status.(phase := RollingBack))
    case Unknown => cleared
  }

  // --- Reconcile ---

  function Initialized(status: RolloutStatus): RolloutStatus {
    if status.phase == New then status.(phase := Progressing, stepIndex := 0, weight := 0) else status
  }

  function ResolveTotal(specReplicas: Option<int>, liveReplicas: Option<int>): int {
    if specReplicas.Some? then specReplicas.value
    else if liveReplicas.Some? then liveReplicas.value
    else DEFAULT_REPLICAS
  }

  function Total(spec: RolloutSpec, ro: Rollout): int {
    ResolveTotal(spec.replicas, ro.stable)
  }

  /** Scales both Deployments, which exist by then. */
  function Scaled(ro: Rollout, stableReplicas: int, canaryReplicas: int): Rollout {
    ro.(stable := Some(stableReplicas), canary := Some(canaryReplicas))
  }

  function AbortedHold(spec: RolloutSpec, ro: Rollout): Rollout {
    var total := Total(spec, ro);
    Scaled(ro, total, 0).(status := Initialized(ro.status).(
      phase := RolledBack, weight := 0, canaryReplicas := 0, stableReplicas := total, completed := true))
  }

  function PausedHold(spec: RolloutSpec, ro: Rollout): Rollout {
    var total, status := Total(spec, ro), Initialized(ro.status);
    var canaryReplicas := WeightReplicas(status.weight, total);
    Scaled(ro, total - canaryReplicas, canaryReplicas).(status := status.(phase := Paused))
  }

  predicate TimedPause(spec: RolloutSpec, i: nat) {
    i < |spec.steps| && spec.steps[i].pause.Some? && spec.steps[i].pause.value.duration.Some?
  }

  function Desired(ro: Rollout): int {
    if ro.canary.Some? then ro.canary.value else 0
  }

  /** A canary Deployment created in this reconcile has no available pods yet. */
  function Ready(ro: Rollout, input: Input): int {
    if ro.canary.Some? then input.ready else 0
  }

  predicate Probed(status: RolloutStatus, now: int) {
    status.lastHealthCheck.None? || now - status.lastHealthCheck.value >= HEALTH_CHECK_INTERVAL
  }

  /** Pod readiness, and the active probe when one is due. */
  predicate IsHealthy(ro: Rollout, input: Input) {
    PodsReady(Ready(ro, input), Desired(ro)) && (Probed(ro.status, input.now) ==> input.probe)
  }

  function Judge(spec: RolloutSpec, ro: Rollout, input: Input): Decision {
    Evaluate(spec, Initialized(ro.status), ro.ann.pauseStart, Ready(ro, input), Desired(ro), Total(spec, ro),
             IsHealthy(ro, input), input.now)
  }

  predicate Stuck(spec: RolloutSpec, ro: Rollout, input: Input) {
    ro.canary.Some? && input.replicaFailure && spec.autoRollback
  }

  /** The replica-failure path writes the phase and the completion, not the decision's other fields. */
  function RollBackStuck(spec: RolloutSpec, ro: Rollout): Rollout {
    Scaled(ro, Total(spec, ro), 0).(status := Initialized(ro.status).(phase := RolledBack, completed := true))
  }

  function ApplyDecision(ro: Rollout, d: Decision, now: int): Rollout {
    var status := Initialized(ro.status);
    Scaled(ro, d.stableReplicas, d.canaryReplicas).(status := RolloutStatus(
      d.phase, d.stepIndex, d.weight, d.stableReplicas, d.canaryReplicas, d.failures,
      if Probed(ro.status, now) then Some(now / SECOND * SECOND) else status.lastHealthCheck,
      status.completed || d.phase in {Healthy, Failed, RolledBack}))
  }

  predicate Finished(ro: Rollout) {
    ro.status.phase == Failed || ro.status.phase == RolledBack
  }

  /** A timed pause was entered and no parsable stamp is there. */
  predicate NeedsStamp(spec: RolloutSpec, ro: Rollout) {
    TimedPause(spec, Initialized(ro.status).stepIndex) && ro.ann.pauseStart.None?
  }

  /** The reconcile gets past all holds. */
  predicate Advances(spec: RolloutSpec, ro: Rollout) {
    ro.ann.action.None? && !ro.ann.aborted && !ro.ann.paused && !Finished(ro) && !NeedsStamp(spec, ro)
  }

  function ReconcileStep(spec: RolloutSpec, ro: Rollout, input: Input): Rollout {
    if ro.ann.action.Some? then ApplyCommand(spec, ro, ro.ann.action.value)
    else if ro.ann.aborted then AbortedHold(spec, ro)
    else if ro.ann.paused then PausedHold(spec, ro)
    else if Finished(ro) then ro
    else if NeedsStamp(spec, ro) then
      ro.(ann := ro.ann.(pauseStart := Some(Stamp(Initialized(ro.status).stepIndex, input.now / SECOND))))
    else if Stuck(spec, ro, input) then RollBackStuck(spec, ro)
    else ApplyDecision(ro, Judge(spec, ro, input), input.now)
  }

  function Step(spec: RolloutSpec, ro: Rollout, e: Event): Rollout {
    match e
    case Operator(command) => ro.(ann := ro.ann.(action := Some(command)))
    case Reconcile(input) => ReconcileStep(spec, ro, input)
  }

  function Run(spec: RolloutSpec, ro: Rollout, events: seq<Event>): Rollout {
    if events == [] then ro else Step(spec, Run(spec, ro, events[..|events| - 1]), events[|events| - 1])
  }

  // --- The history of a run ---

  /** An evaluation with everything it saw, or the writing of a pause stamp. */
  datatype Entry =
    | Judged(stepIndex: nat, weight: int, ready: int, desired: int, healthy: bool, now: int, stamp: Option<Stamp>)
    | Stamped(stepIndex: nat, now: int)

  function EntriesOf(spec: RolloutSpec, ro: Rollout, e: Event): seq<Entry> {
    if e.Operator? || ro.ann.action.Some? || ro.ann.aborted || ro.ann.paused || Finished(ro) then []
    else if NeedsStamp(spec, ro) then [Stamped(Initialized(ro.status).stepIndex, e.input.now)]
    else if Stuck(spec, ro, e.input) then []
    else
      var status := Initialized(ro.status);
      [Judged(status.stepIndex, status.weight, Ready(ro, e.input), Desired(ro), IsHealthy(ro, e.input), e.input.now,
              ro.ann.pauseStart)]
  }

  function Log(spec: RolloutSpec, ro: Rollout, events: seq<Event>): seq<Entry> {
    if events == [] then [] else
      var front := events[..|events| - 1];
      Log(spec, ro, front) + EntriesOf(spec, Run(spec, ro, front), events[|events| - 1])
  }

  // --- Where runs start ---

  /** A Rollout just created; a stable Deployment may already be there, a canary is not. */
  predicate Fresh(ro: Rollout) {
    && ro.status.phase == New && ro.status.stepIndex == 0 && ro.status.weight == 0 && ro.status.failures == 0
    && ro.status.lastHealthCheck.None? && !ro.status.completed
    && ro.ann == Annotations(None, false, false, None) && ro.canary.None?
  }

  predicate OperatorFree(events: seq<Event>) {
    forall e | e in events :: e.Reconcile?
  }

  predicate PromoteFree(events: seq<Event>) {
    Operator(Promote) !in events
  }
}
