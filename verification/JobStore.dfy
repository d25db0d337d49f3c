/** The job and hook-state tables, and what each worker transaction does to them. */
module JobStore {
  import opened Prelude
  import opened Samples
  import opened HookTables

  /** A hook's stored JSON state: a list that its code may map to any other. */
  type StateValue = seq<nat>
  const EMPTY_STATE: StateValue := []

  datatype HookState = HookState(value: StateValue, version: nat)

  datatype Tables = Tables(executions: seq<Execution>, jobs: seq<Job>, states: map<HookId, HookState>)

  const LEASE_SECONDS := 180

  predicate Expired(job: Job, now: int) {
    job.status == Active && job.lockedAt.Some? && job.lockedAt.value < now - LEASE_SECONDS
  }

  predicate Claimable(job: Job, now: int) {
    && job.status == Waiting && job.nextAttemptAt <= now
    && (job.lockedAt.None? || job.lockedAt.value < now - LEASE_SECONDS)
  }

  function FailIf(executions: seq<Execution>, e: ExecutionId, statuses: set<ExecutionStatus>): seq<Execution> {
    if e < |executions| && executions[e].status in statuses then executions[e := executions[e].(status := Failed)]
    else executions
  }

  function Settled(jobs: seq<Job>, j: JobId, status: JobStatus): seq<Job>
    requires j < |jobs|
  {
    jobs[j := jobs[j].(status := status)]
  }

  // ------------------------------------------------------------------ transactions

  function Queued(t: Tables, hook: HookId, trigger: TriggerId, telemetry: SampleId, dryRun: bool, now: int): Tables {
    t.(executions := t.executions + [NewExecution(hook, trigger, telemetry, dryRun)],
       jobs := t.jobs + [NewJob(|t.executions|, now)])
  }

  function RecoveredJob(t: Tables, j: JobId, now: int): Tables
    requires j < |t.jobs|
  {
    if Expired(t.jobs[j], now) then
      t.(jobs := Settled(t.jobs, j, Abandoned), executions := FailIf(t.executions, t.jobs[j].execution, {Running}))
    else t
  }

  function RecoveredFirst(t: Tables, count: nat, now: int): (r: Tables)
    requires count <= |t.jobs|
    ensures |r.jobs| == |t.jobs|
  {
    if count == 0 then t else RecoveredJob(RecoveredFirst(t, count - 1, now), count - 1, now)
  }

  function Recovered(t: Tables, now: int): Tables {
    RecoveredFirst(t, |t.jobs|, now)
  }

  function Claimed(t: Tables, j: JobId, now: int, worker: WorkerId): Tables
    requires j < |t.jobs|
  {
    t.(jobs := t.jobs[j := t.jobs[j].(status := Active, lockedAt := Some(now), lockedBy := Some(worker),
                                      attempts := t.jobs[j].attempts + 1)])
  }

  function Skipped(t: Tables, j: JobId): Tables
    requires j < |t.jobs|
  {
    t.(jobs := Settled(t.jobs, j, Completed))
  }

  function Started(t: Tables, e: ExecutionId): Tables
    requires e < |t.executions|
  {
    t.(executions := t.executions[e := t.executions[e].(status := Running)])
  }

  function Finished(t: Tables, j: JobId, e: ExecutionId, status: ExecutionStatus, hook: HookId,
                    write: Option<HookState>): Tables
    requires j < |t.jobs| && e < |t.executions|
  {
    t.(executions := t.executions[e := t.executions[e].(status := status)],
       jobs := t.jobs[j := t.jobs[j].(status := Completed, lockedAt := None, lockedBy := None)],
       states := if write.Some? then t.states[hook := write.value] else t.states)
  }

  function FailureRecorded(t: Tables, j: JobId): Tables
    requires j < |t.jobs|
  {
    t.(jobs := Settled(t.jobs, j, Abandoned),
       executions := FailIf(t.executions, t.jobs[j].execution, {Pending, Running}))
  }

  // ------------------------------------------------------------------ the services

  class Database {
    var executions: seq<Execution>
    var jobs: seq<Job>
    var states: map<HookId, HookState>

    ghost function Value(): Tables
      reads this
    {
      Tables(executions, jobs, states)
    }

    method RecoverExpiredLeases(now: int) returns (count: nat)
      modifies this`executions, this`jobs
      ensures Value() == Recovered(old(Value()), now)
      ensures count > 0 <==> exists j :: 0 <= j < |old(jobs)| && Expired(old(jobs)[j], now)
    {
      count := 0;
      var j := 0;
      while j < |jobs|
        invariant 0 <= j <= |jobs| == |old(jobs)|
        invariant Value() == RecoveredFirst(old(Value()), j, now)
        invariant forall k :: j <= k < |jobs| ==> jobs[k] == old(jobs)[k]
        invariant count > 0 <==> exists k :: 0 <= k < j && Expired(old(jobs)[k], now)
      {
        var job := jobs[j];
        if Expired(job, now) {
          jobs := jobs[j := job.(status := Abandoned)];
          if job.execution < |executions| && executions[job.execution].status == Running {
            executions := executions[job.execution := executions[job.execution].(status := Failed)];
          }
          count := count + 1;
        }
        j := j + 1;
      }
    }

    /** The oldest claimable job, if there is one, becomes this worker's. */
    method ClaimJob(now: int, worker: WorkerId) returns (claimed: Option<JobId>)
      modifies this`executions, this`jobs
      ensures var settled := Recovered(old(Value()), now);
        match claimed
        case Some(j) =>
          && j < |settled.jobs| && Claimable(settled.jobs[j], now)
          && (forall k :: 0 <= k < j ==> !Claimable(settled.jobs[k], now))
          && Value() == Claimed(settled, j, now, worker)
          && settled.jobs[j].status == Waiting && settled.jobs[j].nextAttemptAt <= now
          && (settled.jobs[j].lockedAt.Some? ==> settled.jobs[j].lockedAt.value + 180 < now)
        case None =>
          && (forall k :: 0 <= k < |settled.jobs| ==> !Claimable(settled.jobs[k], now))
          && Value() == settled
    {
      var recovered := RecoverExpiredLeases(now);
      var j := 0;
      while j < |jobs|
        invariant 0 <= j <= |jobs| && Value() == Recovered(old(Value()), now)
        invariant forall k :: 0 <= k < j ==> !Claimable(jobs[k], now)
      {
        if Claimable(jobs[j], now) {
          jobs := jobs[j := jobs[j].(status := Active, lockedAt := Some(now), lockedBy := Some(worker),
                                     attempts := jobs[j].attempts + 1)];
          return Some(j);
        }
        j := j + 1;
      }
      claimed := None;
    }

    method FinishExecution(j: JobId, e: ExecutionId, status: ExecutionStatus, hook: HookId,
                           existing: Option<HookState>, result: Option<StateValue>)
      requires j < |jobs| && e < |executions|
      requires result.Some? ==> status == Success
      modifies this
      ensures Value() == Finished(old(Value()), j, e, status, hook, NextRow(existing, result))
    {
      executions := executions[e := executions[e].(status := status)];
      if result.Some? {
        var row := HookState(result.value, 1);
        if existing.Some? {
          row := row.(version := existing.value.version + 1);
        }
        states := states[hook := row];
      }
      jobs := jobs[j := jobs[j].(status := Completed)];
      jobs := jobs[j := jobs[j].(lockedAt := None, lockedBy := None)];
    }

    method RecordFailure(j: JobId)
      requires j < |jobs|
      modifies this`executions, this`jobs
      ensures Value() == FailureRecorded(old(Value()), j)
    {
      var e := jobs[j].execution;
      jobs := jobs[j := jobs[j].(status := Abandoned)];
      if e < |executions| && executions[e].status in {Pending, Running} {
        executions := executions[e := executions[e].(status := Failed)];
      }
    }
  }

  /** The row a successful run stores: the next version of what it found, or version 1. */
  function NextRow(existing: Option<HookState>, result: Option<StateValue>): Option<HookState> {
    if result.None? then None
    else Some(HookState(result.value, if existing.Some? then existing.value.version + 1 else 1))
  }

  /** A job may be claimed that waits and is due, unless it was locked within the last 180 seconds. */
  lemma ClaimableIsExact(job: Job, now: int)
    ensures Claimable(job, now) <==>
      && job.status == Waiting && job.nextAttemptAt <= now
      && (job.lockedAt.Some? ==> job.lockedAt.value + 180 < now)
  {}

  /** Lease recovery touches only expired jobs: every other job, and every hook state, is as before. */
  lemma {:induction false} RecoveryTouchesOnlyExpired(t: Tables, count: nat, now: int)
    requires count <= |t.jobs|
    ensures var r := RecoveredFirst(t, count, now);
      && r.states == t.states && |r.executions| == |t.executions|
      && (forall j :: 0 <= j < |t.jobs| ==>
            r.jobs[j] == if j < count && Expired(t.jobs[j], now) then t.jobs[j].(status := Abandoned) else t.jobs[j])
      && (forall e :: 0 <= e < |t.executions| ==>
            || r.executions[e] == t.executions[e]
            || (t.executions[e].status == Running && r.executions[e] == t.executions[e].(status := Failed)))
  {
    if count > 0 {
      RecoveryTouchesOnlyExpired(t, count - 1, now);
    }
  }
}
