/**
 A canary task and the Rollout it refers to. A rerun deletes the Rollout first, and only then
 writes a status without the reference (internal/dispatch/rerun_handler.go).
 */
module RolloutReferences {
  import opened Wrappers
  import opened PipelineTypes
  import opened TaskRunController
  import Approvals

  /** What happens to a canary task; written says whether the status update goes through. */
  datatype Event =
    | Reconciled(view: RolloutView, written: bool)
    | Rerun(written: bool)
    | Decided(approver: string, rejected: bool, written: bool)

  /** A stored canary TaskRun, and whether its Rollout is on the cluster. */
  datatype Backed = Backed(tr: TaskRun, rollout: bool)

  function Update(b: Backed, e: Event): TaskRun {
    match e
    case Reconciled(view, _) => Reconcile(b.tr, Observation(None, if b.rollout then Some(view) else None))
    case Rerun(_) => Reset(b.tr)
    case Decided(approver, rejected, _) => Approvals.Decide(b.tr, approver, rejected)
  }

  /** The Rollout is created before the reference to it is stored, and deleted before the reference is cleared. */
  function RolloutAfter(b: Backed, e: Event): bool {
    match e
    case Reconciled(_, _) => b.rollout || !b.tr.rolloutRef
    case Rerun(_) => b.rollout && !b.tr.rolloutRef
    case Decided(_, _, _) => b.rollout
  }

  function Next(b: Backed, e: Event): Backed {
    Backed(if e.written then Update(b, e) else b.tr, RolloutAfter(b, e))
  }

  function All(b: Backed, history: seq<Event>): Backed {
    if history == [] then b else Next(All(b, history[..|history| - 1]), history[|history| - 1])
  }

  predicate IsCanary(tr: TaskRun) {
    tr.kind == Release && tr.canary
  }

  /** The task waits for a Rollout that is gone: every reconcile returns when it does not find it. */
  predicate Stranded(b: Backed) {
    b.tr.rolloutRef && !b.rollout
  }

  predicate Strands(b: Backed, e: Event) {
    e == Rerun(false) && b.tr.rolloutRef && b.rollout
  }

  lemma StrandedStep(b: Backed, e: Event)
    requires IsCanary(b.tr)
    ensures Stranded(Next(b, e)) <==> Strands(b, e) || (Stranded(b) && e != Rerun(true))
    ensures IsCanary(Next(b, e).tr)
    ensures Stranded(b) && e.Reconciled? ==> Next(b, e) == b
  {
  }

  predicate LeftStranded(b: Backed, history: seq<Event>) {
    history != [] &&
    var front, e := history[..|history| - 1], history[|history| - 1];
    Strands(All(b, front), e) || (LeftStranded(b, front) && e != Rerun(true))
  }

  /**
   Over every history of reconciles, reruns and decisions, each with its update going through
   or lost: a canary task ends up waiting for a Rollout that is gone exactly when the update of
   a rerun was lost after the Rollout was deleted, and no rerun went through since.
   */
  lemma {:induction false} StrandedIff(b: Backed, history: seq<Event>)
    requires IsCanary(b.tr) && !Stranded(b)
    ensures Stranded(All(b, history)) <==> LeftStranded(b, history)
    ensures IsCanary(All(b, history).tr)
  {
    if history != [] {
      hide Stranded, Next, Strands, IsCanary;
      var front := history[..|history| - 1];
      StrandedIff(b, front);
      StrandedStep(All(b, front), history[|history| - 1]);
    }
  }

  /** Reconciles alone never change anything again. */
  lemma {:induction false} StrandedForGood(b: Backed, history: seq<Event>)
    requires IsCanary(b.tr) && Stranded(b) && forall e | e in history :: e.Reconciled?
    ensures All(b, history) == b
  {
    if history != [] {
      hide Stranded, Next;
      StrandedForGood(b, history[..|history| - 1]);
      assert history[|history| - 1] in history;
      StrandedStep(b, history[|history| - 1]);
    }
  }

  /** A rerun that goes through, then a reconcile: a new Rollout is there, and the task is Running. */
  lemma RerunCreatesRollout(b: Backed, view: RolloutView)
    requires IsCanary(b.tr)
    ensures var after := All(b, [Rerun(true), Reconciled(view, true)]);
      after.rollout && after.tr.rolloutRef && after.tr.phase == TaskPhase.Running
  {
    var history := [Rerun(true), Reconciled(view, true)];
    assert history[..1] == [Rerun(true)] && [Rerun(true)][..0] == [];
    assert All(b, [Rerun(true)]) == Next(b, Rerun(true));
  }
}
