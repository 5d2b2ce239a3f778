/**
 The Rollout reconciler in its own, imperative form
 (internal/controller/rollout_controller.go): an object whose methods update the status,
 the annotations and the two Deployments. Each method is tied to the step system.
 */
module RolloutObject {
  import opened Wrappers
  import opened RolloutTypes
  import opened Canary
  import opened RolloutSystem

  class RolloutController {
    const spec: RolloutSpec
    var status: RolloutStatus
    var action: Option<Command>
    var paused: bool
    var aborted: bool
    var pauseStart: Option<Stamp>
    var stable: Option<int>
    var canary: Option<int>

    constructor (spec: RolloutSpec, stable: Option<int>)
      ensures this.spec == spec && this.stable == stable && Fresh(View())
    {
      this.spec := spec;
      this.status := RolloutStatus(New, 0, 0, 0, 0, 0, None, false);
      this.action, this.paused, this.aborted, this.pauseStart := None, false, false, None;
      this.stable, this.canary := stable, None;
    }

    function View(): Rollout
      reads this
    {
      Rollout(status, Annotations(action, paused, aborted, pauseStart), stable, canary)
    }

    /** An operator command is stamped; one that was not consumed yet is overwritten. */
    method StampCommand(command: Command)
      modifies this`action
      ensures View() == Step(spec, old(View()), Operator(command))
    {
      action := Some(command);
    }

    /** Consumes a pending command; acted tells the reconcile to stop there. */
    method ApplyControlCommand() returns (acted: bool)
      modifies this
      ensures acted <==> old(action).Some?
      ensures View() == if acted then ApplyCommand(spec, old(View()), old(action).value) else old(View())
    {
      if action.None? {
        return false;
      }
      var command := action.value;
      action := None;
      match command {
        case Pause =>
          if status.phase != Healthy && status.phase != Degraded {
            paused := true;
            status := status.(phase := Paused);
          }
        case Promote =>
          if !aborted {
            paused := false;
            if status.stepIndex >= |spec.steps| {
              status := status.(phase := Healthy, completed := true);
            } else {
              var next := status.stepIndex + 1;
              var weight := status.weight;
              if next < |spec.steps| {
                if spec.steps[next].setWeight.Some? {
                  weight := spec.steps[next].setWeight.value;
                }
              }
              status := status.(stepIndex := next, weight := weight, phase := Progressing);
            }
          }
        case Rollback =>
          paused := false;
          aborted := true;
          status := status.(phase := RollingBack);
        case Unknown =>
      }
      return true;
    }

    /** The total, with the stable Deployment created at that size when it is missing. */
    method EnsureWorkload() returns (total: int)
      modifies this`stable
      ensures total == Total(spec, old(View()))
      ensures stable == (if old(stable).Some? then old(stable) else Some(total))
    {
      total := ResolveTotal(spec.replicas, stable);
      if stable.None? {
        stable := Some(total);
      }
    }

    /** The canary Deployment is created with no replicas. */
    method EnsureCanary() returns (existed: bool)
      modifies this`canary
      ensures existed <==> old(canary).Some?
      ensures canary == Some(Desired(old(View())))
    {
      existed := canary.Some?;
      if !existed {
        canary := Some(0);
      }
    }

    method ScaleBoth(stableReplicas: int, canaryReplicas: int)
      requires stable.Some? && canary.Some?
      modifies this`stable, this`canary
      ensures stable == Some(stableReplicas) && canary == Some(canaryReplicas)
    {
      if stable != Some(stableReplicas) {
        stable := Some(stableReplicas);
      }
      if canary != Some(canaryReplicas) {
        canary := Some(canaryReplicas);
      }
    }

    /** One reconcile is one step of the system. */
    method Reconcile(input: Input)
      modifies this
      ensures View() == Step(spec, old(View()), Event.Reconcile(input))
    {
      var acted := ApplyControlCommand();
      if acted {
        return;
      }
      var current := Initialized(status);
      if aborted {
        HoldAborted(current);
        return;
      }
      if paused {
        HoldPaused(current);
        return;
      }
      if current.phase == Failed || current.phase == RolledBack {
        return;
      }
      if TimedPause(spec, current.stepIndex) && pauseStart.None? {
        pauseStart := Some(Stamp(current.stepIndex, input.now / SECOND));
        return;
      }
      Advance(current, input);
    }

    method HoldAborted(current: RolloutStatus)
      requires current == Initialized(status)
      modifies this`status, this`stable, this`canary
      ensures View() == AbortedHold(spec, old(View()))
    {
      var total := EnsureWorkload();
      var existed := EnsureCanary();
      ScaleBoth(total, 0);
      status := current.(phase := RolledBack, weight := 0, canaryReplicas := 0, stableReplicas := total,
                         completed := true);
    }

    method HoldPaused(current: RolloutStatus)
      requires current == Initialized(status)
      modifies this`status, this`stable, this`canary
      ensures View() == PausedHold(spec, old(View()))
    {
      var total := EnsureWorkload();
      var existed := EnsureCanary();
      ScaleBoth(total - WeightReplicas(current.weight, total), WeightReplicas(current.weight, total));
      status := current.(phase := Paused);
    }

    /** Health gate, stuck canary, evaluation. */
    method Advance(current: RolloutStatus, input: Input)
      requires current == Initialized(status) && Advances(spec, View())
      modifies this`status, this`stable, this`canary
      ensures View() == ReconcileStep(spec, old(View()), input)
    {
      hide Evaluate, WeightReplicas;
      var total := EnsureWorkload();
      var existed := EnsureCanary();
      var ready := if existed then input.ready else 0;
      var desired := canary.value;
      var healthy := ready >= desired && desired > 0;
      var probed := Probed(current, input.now);
      if probed {
        healthy := healthy && input.probe;
      }
      if existed && input.replicaFailure && spec.autoRollback {
        var back := RollbackDecision(current, total);
        ScaleBoth(back.stableReplicas, back.canaryReplicas);
        status := current.(phase := RolledBack, completed := true);
        return;
      }
      var d := Evaluate(spec, current, pauseStart, ready, desired, total, healthy, input.now);
      assert d == Judge(spec, old(View()), input) && !Stuck(spec, old(View()), input);
      hide Judge;
      ScaleBoth(d.stableReplicas, d.canaryReplicas);
      status := current.(
        phase := d.phase, stepIndex := d.stepIndex, weight := d.weight,
        stableReplicas := d.stableReplicas, canaryReplicas := d.canaryReplicas, failures := d.failures);
      if probed {
        status := status.(lastHealthCheck := Some(input.now / SECOND * SECOND));
      }
      if d.phase == Healthy || d.phase == Failed || d.phase == RolledBack {
        status := status.(completed := true);
      }
    }
  }
}
