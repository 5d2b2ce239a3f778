/**
 The objects of a pipeline run (api/v1alpha1/pipelinerun_types.go and
 api/v1alpha1/taskrun_types.go), with the fields the controllers decide on.
 */
module PipelineTypes {
  import opened Wrappers

  datatype TaskType = Build | Release | Approval | Test

  datatype TaskPhase = Unset | Pending | Running | Succeeded | Failed | Skipped

  datatype RunPhase = NotStarted | Waiting | Active | WaitingApproval | Complete | Broken | Cancelled

  const SERIAL := "Serial"

  /** One node of the DAG. requiredApprovals and maxRetries stand for the optional ApprovalConfig and RetryPolicy. */
  datatype TaskSpec = TaskSpec(
    name: string,
    kind: TaskType,
    stage: string,
    executionMode: string,
    image: string,
    scriptPath: string,
    dependsOn: seq<string>,
    maxRetries: Option<int>,
    requiredApprovals: Option<int>,
    canary: bool)

  datatype ApprovalStatus = ApprovalStatus(requiredCount: int, approvedBy: seq<string>, rejectedBy: string)

  /** A TaskRun as the API server stores it: what it was created from, then its status. */
  datatype TaskRun = TaskRun(
    taskName: string,
    kind: TaskType,
    maxRetries: Option<int>,
    requiredApprovals: Option<int>,
    canary: bool,
    phase: TaskPhase,
    jobRef: bool,
    rolloutRef: bool,
    retryCount: int,
    message: string,
    approval: Option<ApprovalStatus>)

  /** One row of the task summary that is streamed to the hub. */
  datatype Summary = Summary(name: string, taskRunRef: string, phase: TaskPhase, retryCount: int, message: string)

  /** A PipelineRun; cancel is the operator named by the cancel annotation pair, version the resource version. */
  datatype PipelineRun = PipelineRun(
    name: string,
    tasks: seq<TaskSpec>,
    cancel: Option<string>,
    phase: RunPhase,
    message: string,
    currentApproval: Option<ApprovalStatus>,
    summaries: seq<Summary>,
    version: nat)

  type TaskRuns = map<string, TaskRun>

  predicate Terminal(phase: RunPhase) {
    phase in {RunPhase.Complete, RunPhase.Broken, RunPhase.Cancelled}
  }

  predicate Done(existing: TaskRuns, name: string) {
    name in existing && existing[name].phase == TaskPhase.Succeeded
  }

  ghost predicate UniqueNames(tasks: seq<TaskSpec>) {
    forall i, j | 0 <= i < j < |tasks| :: tasks[i].name != tasks[j].name
  }

  function Names(tasks: seq<TaskSpec>): set<string> {
    set t | t in tasks :: t.name
  }

  /** The edge from a task to one that lists it in DependsOn. */
  ghost predicate Edge(tasks: seq<TaskSpec>, dep: string, name: string) {
    exists t :: t in tasks && t.name == name && dep in t.dependsOn
  }
}
