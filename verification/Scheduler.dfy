/**
 DAG scheduling decisions of the PipelineRun reconciler
 (internal/controller/pipelinerun_controller.go): which tasks may start, and what
 the run's summary says.
 */
module Scheduler {
  import opened Wrappers
  import opened PipelineTypes

  predicate DependenciesSatisfied(dependsOn: seq<string>, existing: TaskRuns) {
    forall d | d in dependsOn :: Done(existing, d)
  }

  /** The first position of a task of that name, -1 when there is none. */
  function OrderIndex(tasks: seq<TaskSpec>, name: string): (index: int)
    ensures -1 <= index < |tasks|
    ensures index >= 0 ==> tasks[index].name == name && forall i | 0 <= i < index :: tasks[i].name != name
    ensures index == -1 ==> forall i | 0 <= i < |tasks| :: tasks[i].name != name
  {
    if tasks == [] then -1
    else if tasks[0].name == name then 0
    else
      var rest := OrderIndex(tasks[1..], name);
      if rest == -1 then -1 else rest + 1
  }

  predicate SerialSiblings(a: TaskSpec, b: TaskSpec) {
    a.stage != "" && a.stage == b.stage && a.executionMode == SERIAL && b.executionMode == SERIAL
  }

  /** An earlier Serial task of the same stage has not succeeded yet. */
  predicate SerialBlocked(t: TaskSpec, tasks: seq<TaskSpec>, existing: TaskRuns) {
    exists other | other in tasks ::
      && SerialSiblings(t, other)
      && OrderIndex(tasks, other.name) < OrderIndex(tasks, t.name)
      && !Done(existing, other.name)
  }

  predicate CanStart(t: TaskSpec, tasks: seq<TaskSpec>, existing: TaskRuns) {
    && t.name !in existing
    && DependenciesSatisfied(t.dependsOn, existing)
    && !SerialBlocked(t, tasks, existing)
  }

  /** The tasks among candidates that may start, in their order. */
  function Runnable(candidates: seq<TaskSpec>, tasks: seq<TaskSpec>, existing: TaskRuns): seq<TaskSpec> {
    if candidates == [] then [] else
      var front, t := candidates[..|candidates| - 1], candidates[|candidates| - 1];
      Runnable(front, tasks, existing) + (if CanStart(t, tasks, existing) then [t] else [])
  }

  lemma {:induction false} RunnableIsExact(candidates: seq<TaskSpec>, tasks: seq<TaskSpec>, existing: TaskRuns)
    ensures forall t :: t in Runnable(candidates, tasks, existing) <==> t in candidates && CanStart(t, tasks, existing)
    ensures |Runnable(candidates, tasks, existing)| <= |candidates|
  {
    if candidates != [] {
      var front, t := candidates[..|candidates| - 1], candidates[|candidates| - 1];
      RunnableIsExact(front, tasks, existing);
      assert candidates == front + [t];
    }
  }

  method FindRunnableTasks(tasks: seq<TaskSpec>, existing: TaskRuns) returns (runnable: seq<TaskSpec>)
    ensures runnable == Runnable(tasks, tasks, existing)
    ensures forall t :: t in runnable <==> t in tasks && CanStart(t, tasks, existing)
  {
    runnable := [];
    for i := 0 to |tasks|
      invariant runnable == Runnable(tasks[..i], tasks, existing)
    {
      var t := tasks[i];
      assert tasks[..i + 1][..i] == tasks[..i];
      if t.name in existing || !DependenciesSatisfied(t.dependsOn, existing) {
        continue;
      }
      if SerialBlocked(t, tasks, existing) {
        continue;
      }
      runnable := runnable + [t];
    }
    assert tasks[..|tasks|] == tasks;
    RunnableIsExact(tasks, tasks, existing);
  }

  predicate AllTasksSucceeded(tasks: seq<TaskSpec>, existing: TaskRuns) {
    forall t | t in tasks :: Done(existing, t.name)
  }

  predicate HasFailedTask(existing: TaskRuns) {
    exists n | n in existing :: existing[n].phase == TaskPhase.Failed
  }

  predicate AwaitsApproval(t: TaskSpec, existing: TaskRuns) {
    && t.kind == Approval && t.name in existing
    && existing[t.name].phase == TaskPhase.Pending && existing[t.name].approval.Some?
  }

  /** The approval of the first task that waits for one. */
  function FindPendingApproval(tasks: seq<TaskSpec>, existing: TaskRuns): (approval: Option<ApprovalStatus>)
    ensures approval.Some? <==> exists t | t in tasks :: AwaitsApproval(t, existing)
  {
    if tasks == [] then None
    else if AwaitsApproval(tasks[0], existing) then existing[tasks[0].name].approval
    else FindPendingApproval(tasks[1..], existing)
  }

  /** None when no task waits, else the approval of the first task that does. */
  lemma {:induction false} PendingApprovalIsFirst(tasks: seq<TaskSpec>, existing: TaskRuns)
    ensures match FindPendingApproval(tasks, existing)
      case None => forall t | t in tasks :: !AwaitsApproval(t, existing)
      case Some(approval) =>
        exists i | 0 <= i < |tasks| ::
          && AwaitsApproval(tasks[i], existing) && existing[tasks[i].name].approval == Some(approval)
          && forall j | 0 <= j < i :: !AwaitsApproval(tasks[j], existing)
  {
    if tasks != [] && !AwaitsApproval(tasks[0], existing) {
      var rest := tasks[1..];
      PendingApprovalIsFirst(rest, existing);
      if FindPendingApproval(rest, existing).Some? {
        var k :| 0 <= k < |rest| && AwaitsApproval(rest[k], existing)
          && existing[rest[k].name].approval == FindPendingApproval(rest, existing)
          && forall j | 0 <= j < k :: !AwaitsApproval(rest[j], existing);
        assert AwaitsApproval(tasks[k + 1], existing);
        forall j | 0 <= j < k + 1 ensures !AwaitsApproval(tasks[j], existing) {
          assert j > 0 ==> tasks[j] == rest[j - 1];
        }
      }
    }
  }

  function TaskRunName(run: string, task: string): string {
    run + "-" + task
  }

  /** A task's row of the summary: its TaskRun's state, or Pending without a reference. */
  function Summarize(run: string, t: TaskSpec, existing: TaskRuns): Summary {
    if t.name in existing
    then Summary(t.name, TaskRunName(run, t.name), existing[t.name].phase, existing[t.name].retryCount,
                 existing[t.name].message)
    else Summary(t.name, "", TaskPhase.Pending, 0, "")
  }

  function Summaries(run: string, tasks: seq<TaskSpec>, existing: TaskRuns): seq<Summary> {
    seq(|tasks|, i requires 0 <= i < |tasks| => Summarize(run, tasks[i], existing))
  }

  method SummarizeTasks(run: string, tasks: seq<TaskSpec>, existing: TaskRuns) returns (summaries: seq<Summary>)
    ensures summaries == Summaries(run, tasks, existing)
  {
    summaries := [];
    for i := 0 to |tasks|
      invariant summaries == Summaries(run, tasks, existing)[..i]
    {
      var t := tasks[i];
      if t.name !in existing {
        summaries := summaries + [Summary(t.name, "", TaskPhase.Pending, 0, "")];
      } else {
        var tr := existing[t.name];
        summaries := summaries + [Summary(t.name, TaskRunName(run, t.name), tr.phase, tr.retryCount, tr.message)];
      }
    }
  }

  /** What a TaskRun is created with; RetryPolicy is not carried over. */
  function BuildTaskRun(t: TaskSpec): TaskRun {
    TaskRun(t.name, t.kind, None, t.requiredApprovals, t.canary,
            TaskPhase.Unset, false, false, 0, "", None)
  }

  /** Create on the API server: a name that exists already is left alone. */
  function Create(existing: TaskRuns, t: TaskSpec): TaskRuns {
    if t.name in existing then existing else existing[t.name := BuildTaskRun(t)]
  }

  function CreateAll(existing: TaskRuns, batch: seq<TaskSpec>): TaskRuns {
    if batch == [] then existing
    else Create(CreateAll(existing, batch[..|batch| - 1]), batch[|batch| - 1])
  }

  lemma NamesSnoc(batch: seq<TaskSpec>)
    requires batch != []
    ensures Names(batch) == Names(batch[..|batch| - 1]) + {batch[|batch| - 1].name}
  {
    assert batch == batch[..|batch| - 1] + [batch[|batch| - 1]];
  }

  /** Creating a batch adds exactly its names, each with a fresh TaskRun, and changes no other. */
  lemma {:induction false} CreateAllAdds(existing: TaskRuns, batch: seq<TaskSpec>)
    ensures var after := CreateAll(existing, batch);
      && after.Keys == existing.Keys + Names(batch)
      && (forall n | n in existing :: after[n] == existing[n])
      && (forall n | n in after && n !in existing ::
            exists t :: t in batch && t.name == n && after[n] == BuildTaskRun(t))
  {
    hide Names, BuildTaskRun;
    if batch == [] {
      assert Names(batch) == {} by {
        NamesOfNone();
      }
    } else {
      var front, t := batch[..|batch| - 1], batch[|batch| - 1];
      CreateAllAdds(existing, front);
      NamesSnoc(batch);
      var middle, after := CreateAll(existing, front), CreateAll(existing, batch);
      forall n | n in after && n !in existing
        ensures exists u :: u in batch && u.name == n && after[n] == BuildTaskRun(u)
      {
        if n in middle {
          var u :| u in front && u.name == n && middle[n] == BuildTaskRun(u);
          assert u in batch;
        } else {
          assert t in batch;
        }
      }
    }
  }

  lemma NamesOfNone()
    ensures Names([]) == {}
  {
  }
}
