/**
 * The tables shared by everything that starts a hook: executions and the jobs that run
 * them. A row's id is its position, so a new row always has a new id.
 */
module HookTables {
  import opened Prelude
  import opened Samples

  type HookId = nat
  type TriggerId = nat
  type ExecutionId = nat
  type JobId = nat
  type WorkerId = nat

  datatype ExecutionStatus = Pending | Running | Success | Failed | TimedOut

  datatype Execution = Execution(
    hook: HookId, trigger: TriggerId, telemetry: SampleId, dryRun: bool, status: ExecutionStatus)

  datatype JobStatus = Waiting | Active | Completed | Abandoned

  datatype Job = Job(
    execution: ExecutionId, status: JobStatus, attempts: nat, nextAttemptAt: int,
    lockedAt: Option<int>, lockedBy: Option<WorkerId>)

  datatype Hook = Hook(id: HookId, enabled: bool, triggerType: string, vehicle: Option<VehicleId>)

  function NewJob(execution: ExecutionId, now: int): Job {
    Job(execution, Waiting, 0, now, None, None)
  }

  function NewExecution(hook: HookId, trigger: TriggerId, telemetry: SampleId, dryRun: bool): Execution {
    Execution(hook, trigger, telemetry, dryRun, Pending)
  }

  /** Each execution is run by exactly one job: the one created beside it. */
  ghost predicate Paired(executions: seq<Execution>, jobs: seq<Job>) {
    && |jobs| == |executions|
    && forall j :: 0 <= j < |jobs| ==> jobs[j].execution == j
  }
}
