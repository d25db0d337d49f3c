/**
 * Batch ingestion on the server: store each sample once, merge it into the vehicle's
 * current-state row, and queue one hook execution per matching hook, in one transaction.
 */
module Ingestion {
  import opened Prelude
  import opened Ordering
  import opened Samples
  import opened HookTables

  datatype Telemetry = Telemetry(
    id: SampleId, vehicle: VehicleId, deviceId: DeviceId, boot: BootId, sequence: int, recordedAt: int,
    position: Option<Position>, metrics: Metrics, deviceData: Metrics)

  datatype VehicleState = VehicleState(
    telemetryId: SampleId, updatedAt: int, position: Option<Position>,
    latestMetrics: Metrics, deviceState: Metrics)

  type States = map<VehicleId, VehicleState>

  datatype Trigger = Trigger(
    kind: string, occurredAt: int, vehicle: VehicleId, device: DeviceId,
    telemetryId: SampleId, telemetryIds: seq<SampleId>)

  const TELEMETRY_RECEIVED := "telemetry.received"
  const MANUAL_TEST := "manual.test"

  datatype Tables = Tables(
    telemetry: seq<Telemetry>, states: States, triggers: seq<Trigger>,
    executions: seq<Execution>, jobs: seq<Job>, hooks: seq<Hook>)

  function Stored(device: DeviceId, vehicle: VehicleId, boot: BootId, sample: Sample): Telemetry {
    Telemetry(sample.id, vehicle, device, boot, sample.sequence, sample.recordedAt,
              sample.position, sample.metrics, sample.device)
  }

  function StoredRows(device: DeviceId, vehicle: VehicleId, boot: BootId, samples: seq<Sample>): (rows: seq<Telemetry>)
    ensures |rows| == |samples|
    ensures forall i :: 0 <= i < |rows| ==>
      rows[i].vehicle == vehicle && rows[i].deviceId == device && rows[i].boot == boot
  {
    seq(|samples|, i requires 0 <= i < |samples| => Stored(device, vehicle, boot, samples[i]))
  }

  predicate HasId(table: seq<Telemetry>, id: SampleId) {
    exists i :: 0 <= i < |table| && table[i].id == id
  }

  function Ids(rows: seq<Telemetry>): (ids: seq<SampleId>)
    ensures |ids| == |rows|
  {
    seq(|rows|, i requires 0 <= i < |rows| => rows[i].id)
  }

  ghost predicate UniqueIds(table: seq<Telemetry>) {
    forall i, j :: 0 <= i < j < |table| ==> table[i].id != table[j].id
  }

  function ArrivalKey(row: Telemetry): Key {
    (row.recordedAt, row.sequence)
  }

  // ------------------------------------------------------------------ specification

  /** The rows of a batch that the primary key lets in, in batch order. */
  function NewRows(table: seq<Telemetry>, batch: seq<Telemetry>): seq<Telemetry>
    decreases |batch|
  {
    if batch == [] then []
    else if HasId(table, batch[0].id) then NewRows(table, batch[1..])
    else [batch[0]] + NewRows(table + [batch[0]], batch[1..])
  }

  /** The rows of a batch that the primary key refuses, in batch order. */
  function RefusedRows(table: seq<Telemetry>, batch: seq<Telemetry>): seq<Telemetry>
    decreases |batch|
  {
    if batch == [] then []
    else if HasId(table, batch[0].id) then [batch[0]] + RefusedRows(table, batch[1..])
    else RefusedRows(table + [batch[0]], batch[1..])
  }

  function Merge(states: States, row: Telemetry): States {
    if row.vehicle in states && states[row.vehicle].updatedAt > row.recordedAt then states
    else
      var previous := if row.vehicle in states then states[row.vehicle] else VehicleState(0, 0, None, map[], map[]);
      states[row.vehicle := VehicleState(row.id, row.recordedAt, row.position,
        previous.latestMetrics + row.metrics, previous.deviceState + row.deviceData)]
  }

  function MergeAll(states: States, rows: seq<Telemetry>): States
    decreases |rows|
  {
    if rows == [] then states
    else Merge(MergeAll(states, rows[..|rows| - 1]), rows[|rows| - 1])
  }

  predicate Matches(hook: Hook, vehicle: VehicleId) {
    hook.enabled && hook.triggerType == TELEMETRY_RECEIVED && (hook.vehicle == None || hook.vehicle == Some(vehicle))
  }

  function MatchingHooks(hooks: seq<Hook>, vehicle: VehicleId): seq<HookId> {
    if hooks == [] then []
    else if Matches(hooks[0], vehicle) then [hooks[0].id] + MatchingHooks(hooks[1..], vehicle)
    else MatchingHooks(hooks[1..], vehicle)
  }

  function ExecutionsFor(hookIds: seq<HookId>, trigger: TriggerId, telemetry: SampleId): seq<Execution> {
    seq(|hookIds|, i requires 0 <= i < |hookIds| => NewExecution(hookIds[i], trigger, telemetry, false))
  }

  function JobsFor(first: ExecutionId, count: nat, now: int): seq<Job> {
    seq(count, i requires 0 <= i < count => NewJob(first + i, now))
  }

  /** One trigger for the whole accepted batch, with an execution and a job per matching hook. */
  function WithTrigger(t: Tables, rows: seq<Telemetry>, now: int): Tables {
    if rows == [] then t
    else
      var latest := rows[|rows| - 1];
      var matching := MatchingHooks(t.hooks, latest.vehicle);
      t.(triggers := t.triggers + [Trigger(TELEMETRY_RECEIVED, latest.recordedAt, latest.vehicle, latest.deviceId,
                                           latest.id, Ids(rows))],
         executions := t.executions + ExecutionsFor(matching, |t.triggers|, latest.id),
         jobs := t.jobs + JobsFor(|t.executions|, |matching|, now))
  }

  function Ingested(t: Tables, batch: seq<Telemetry>, now: int): Tables {
    var added := NewRows(t.telemetry, batch);
    WithTrigger(t.(telemetry := t.telemetry + added, states := MergeAll(t.states, added)),
                Sort(ArrivalKey, added), now)
  }

  function ManuallyQueued(t: Tables, hook: HookId, row: Telemetry, dryRun: bool, now: int): Tables {
    t.(triggers := t.triggers + [Trigger(MANUAL_TEST, now, row.vehicle, row.deviceId, row.id, [row.id])],
       executions := t.executions + [NewExecution(hook, |t.triggers|, row.id, dryRun)],
       jobs := t.jobs + [NewJob(|t.executions|, now)])
  }

  /** Where a loop over a batch stands: what it has done, and what is left, make the whole. */
  ghost predicate Halfway(start: seq<Telemetry>, now: seq<Telemetry>, batch: seq<Telemetry>, rest: seq<Telemetry>,
                          stored: seq<Telemetry>, refused: seq<Telemetry>) {
    && stored + NewRows(now, rest) == NewRows(start, batch)
    && refused + RefusedRows(now, rest) == RefusedRows(start, batch)
  }

  lemma OneRowFurther(start: seq<Telemetry>, now: seq<Telemetry>, batch: seq<Telemetry>, rest: seq<Telemetry>,
                      stored: seq<Telemetry>, refused: seq<Telemetry>)
    requires rest != [] && Halfway(start, now, batch, rest, stored, refused)
    ensures if HasId(now, rest[0].id) then Halfway(start, now, batch, rest[1..], stored, refused + [rest[0]])
      else Halfway(start, now + [rest[0]], batch, rest[1..], stored + [rest[0]], refused)
  {
    if HasId(now, rest[0].id) {
      assert refused + ([rest[0]] + RefusedRows(now, rest[1..])) == refused + [rest[0]] + RefusedRows(now, rest[1..]);
    } else {
      var added := NewRows(now + [rest[0]], rest[1..]);
      assert stored + ([rest[0]] + added) == stored + [rest[0]] + added;
    }
  }

  // ------------------------------------------------------------------ the service

  class Database {
    var telemetry: seq<Telemetry>
    var states: States
    var triggers: seq<Trigger>
    var executions: seq<Execution>
    var jobs: seq<Job>
    var hooks: seq<Hook>

    ghost function Value(): Tables
      reads this
    {
      Tables(telemetry, states, triggers, executions, jobs, hooks)
    }

    method UpdateCurrentState(row: Telemetry)
      modifies this`states
      ensures states == Merge(old(states), row)
    {
      if row.vehicle in states && states[row.vehicle].updatedAt > row.recordedAt {
        return;
      }
      var previousMetrics, previousDevice: Metrics := map[], map[];
      if row.vehicle in states {
        previousMetrics := states[row.vehicle].latestMetrics;
        previousDevice := states[row.vehicle].deviceState;
      }
      states := states[row.vehicle := VehicleState(row.id, row.recordedAt, row.position,
        previousMetrics + row.metrics, previousDevice + row.deviceData)];
    }

    method QueueMatching(latest: Telemetry, trigger: TriggerId, now: int)
      modifies this`executions, this`jobs
      ensures var matching := MatchingHooks(hooks, latest.vehicle);
        && executions == old(executions) + ExecutionsFor(matching, trigger, latest.id)
        && jobs == old(jobs) + JobsFor(|old(executions)|, |matching|, now)
    {
      ghost var done: seq<HookId> := [];
      for i := 0 to |hooks|
        invariant done + MatchingHooks(hooks[i..], latest.vehicle) == MatchingHooks(hooks, latest.vehicle)
        invariant executions == old(executions) + ExecutionsFor(done, trigger, latest.id)
        invariant jobs == old(jobs) + JobsFor(|old(executions)|, |done|, now)
      {
        assert hooks[i..][1..] == hooks[i + 1..];
        if Matches(hooks[i], latest.vehicle) {
          var execution := |executions|;
          executions := executions + [NewExecution(hooks[i].id, trigger, latest.id, false)];
          jobs := jobs + [NewJob(execution, now)];
          assert ExecutionsFor(done + [hooks[i].id], trigger, latest.id)
              == ExecutionsFor(done, trigger, latest.id) + [NewExecution(hooks[i].id, trigger, latest.id, false)];
          done := done + [hooks[i].id];
        }
      }
      assert hooks[|hooks|..] == [];
      assert done == MatchingHooks(hooks, latest.vehicle);
    }

    method EnqueueHooks(rows: seq<Telemetry>, now: int)
      modifies this`triggers, this`executions, this`jobs
      ensures Value() == WithTrigger(old(Value()), rows, now)
    {
      if rows == [] { return; }
      var latest := rows[|rows| - 1];
      var ids := [];
      for i := 0 to |rows|
        invariant ids == Ids(rows)[..i]
      {
        ids := ids + [rows[i].id];
      }
      assert ids == Ids(rows);
      triggers := triggers
        + [Trigger(TELEMETRY_RECEIVED, latest.recordedAt, latest.vehicle, latest.deviceId, latest.id, ids)];
      QueueMatching(latest, |triggers| - 1, now);
    }

    // One savepoint: the insert either lands or is refused by the primary key.
    method StoreSample(row: Telemetry) returns (landed: bool)
      modifies this`telemetry, this`states
      ensures landed <==> !HasId(old(telemetry), row.id)
      ensures telemetry == if landed then old(telemetry) + [row] else old(telemetry)
      ensures states == if landed then Merge(old(states), row) else old(states)
    {
      landed := !HasId(telemetry, row.id);
      if landed {
        telemetry := telemetry + [row];
        UpdateCurrentState(row);
      }
    }

    method StoreSamples(rows: seq<Telemetry>)
      returns (stored: seq<Telemetry>, accepted: seq<SampleId>, duplicates: seq<SampleId>)
      modifies this`telemetry, this`states
      ensures stored == NewRows(old(telemetry), rows)
      ensures telemetry == old(telemetry) + stored && states == MergeAll(old(states), stored)
      ensures accepted == Ids(stored) && duplicates == Ids(RefusedRows(old(telemetry), rows))
    {
      stored, accepted, duplicates := [], [], [];
      ghost var refused: seq<Telemetry> := [];
      for i := 0 to |rows|
        invariant Halfway(old(telemetry), telemetry, rows, rows[i..], stored, refused)
        invariant telemetry == old(telemetry) + stored
        invariant states == MergeAll(old(states), stored)
        invariant accepted == Ids(stored) && duplicates == Ids(refused)
      {
        var row := rows[i];
        OneRowFurther(old(telemetry), telemetry, rows, rows[i..], stored, refused);
        assert rows[i..][0] == row && rows[i..][1..] == rows[i + 1..];
        var landed := StoreSample(row);
        if landed {
          assert (stored + [row])[..|stored|] == stored;
          stored := stored + [row];
          accepted := accepted + [row.id];
        } else {
          refused := refused + [row];
          duplicates := duplicates + [row.id];
        }
      }
    }

    method IngestBatch(device: DeviceId, vehicle: VehicleId, boot: BootId, samples: seq<Sample>, now: int)
      returns (accepted: seq<SampleId>, duplicates: seq<SampleId>)
      modifies this
      ensures var batch := StoredRows(device, vehicle, boot, samples);
        && Value() == Ingested(old(Value()), batch, now)
        && accepted == Ids(NewRows(old(telemetry), batch))
        && duplicates == Ids(RefusedRows(old(telemetry), batch))
    {
      var stored;
      stored, accepted, duplicates := StoreSamples(StoredRows(device, vehicle, boot, samples));
      EnqueueHooks(Sort(ArrivalKey, stored), now);
    }

    method QueueManualExecution(hook: HookId, row: Telemetry, dryRun: bool, now: int) returns (execution: ExecutionId)
      modifies this
      ensures Value() == ManuallyQueued(old(Value()), hook, row, dryRun, now)
      ensures executions == old(executions) + [Execution(hook, |old(triggers)|, row.id, dryRun, Pending)]
      ensures jobs == old(jobs) + [Job(|old(executions)|, Waiting, 0, now, None, None)]
      ensures execution == |old(executions)|
    {
      triggers := triggers + [Trigger(MANUAL_TEST, now, row.vehicle, row.deviceId, row.id, [row.id])];
      execution := |executions|;
      executions := executions + [NewExecution(hook, |triggers| - 1, row.id, dryRun)];
      jobs := jobs + [NewJob(execution, now)];
    }
  }
}
