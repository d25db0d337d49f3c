/**
 * Which hooks a stored batch runs, row by row of the hook table, and what it queues for them; and
 * what a manual run queues.
 */
module HookQueueing {
  import opened Prelude
  import opened Ordering
  import opened Samples
  import opened HookTables
  import opened Ingestion
  import opened IngestionLaws

  // ------------------------------------------------------------------ counting

  /** How many rows of the hook table with this id are enabled, for telemetry, and for this vehicle or any. */
  function RowsThatWant(hooks: seq<Hook>, h: HookId, vehicle: VehicleId): nat {
    if hooks == [] then 0
    else
      RowsThatWant(hooks[1..], h, vehicle) +
        if hooks[0].id == h && hooks[0].enabled && hooks[0].triggerType == "telemetry.received"
          && (hooks[0].vehicle.None? || hooks[0].vehicle.value == vehicle)
        then 1 else 0
  }

  /** How many executions of a hook a trigger has. */
  function RunsOf(executions: seq<Execution>, trigger: TriggerId, h: HookId): nat {
    if executions == [] then 0
    else
      RunsOf(executions[1..], trigger, h) +
        if executions[0].trigger == trigger && executions[0].hook == h then 1 else 0
  }

  function Occurrences(ids: seq<HookId>, h: HookId): nat {
    if ids == [] then 0 else Occurrences(ids[1..], h) + if ids[0] == h then 1 else 0
  }

  lemma {:induction false} MatchingAreWanted(hooks: seq<Hook>, h: HookId, vehicle: VehicleId)
    ensures Occurrences(MatchingHooks(hooks, vehicle), h) == RowsThatWant(hooks, h, vehicle)
  {
    if hooks != [] {
      MatchingAreWanted(hooks[1..], h, vehicle);
      var rest := MatchingHooks(hooks[1..], vehicle);
      assert ([hooks[0].id] + rest)[1..] == rest;
    }
  }

  lemma {:induction false} RunsOfAppend(a: seq<Execution>, b: seq<Execution>, trigger: TriggerId, h: HookId)
    ensures RunsOf(a + b, trigger, h) == RunsOf(a, trigger, h) + RunsOf(b, trigger, h)
  {
    if a == [] {
      assert a + b == b;
    } else {
      assert (a + b)[1..] == a[1..] + b;
      RunsOfAppend(a[1..], b, trigger, h);
    }
  }

  lemma {:induction false} NoRunsOfOthers(executions: seq<Execution>, trigger: TriggerId, h: HookId)
    requires forall i :: 0 <= i < |executions| ==> executions[i].trigger != trigger
    ensures RunsOf(executions, trigger, h) == 0
  {
    if executions != [] {
      assert executions[0].trigger != trigger;
      NoRunsOfOthers(executions[1..], trigger, h);
    }
  }

  lemma {:induction false} OneRunEach(ids: seq<HookId>, trigger: TriggerId, telemetry: SampleId, h: HookId)
    ensures RunsOf(ExecutionsFor(ids, trigger, telemetry), trigger, h) == Occurrences(ids, h)
  {
    if ids != [] {
      OneRunEach(ids[1..], trigger, telemetry, h);
      assert ExecutionsFor(ids, trigger, telemetry)[1..] == ExecutionsFor(ids[1..], trigger, telemetry);
    }
  }

  // ------------------------------------------------------------------ the last new sample

  predicate NotAfter(a: Sample, b: Sample) {
    a.recordedAt < b.recordedAt || (a.recordedAt == b.recordedAt && a.sequence <= b.sequence)
  }

  /** No stored row and no earlier sample of the batch has its id. */
  predicate IsNew(table: seq<Telemetry>, samples: seq<Sample>, i: nat) {
    && i < |samples|
    && (forall row :: row in table ==> row.id != samples[i].id)
    && (forall j :: 0 <= j < i ==> samples[j].id != samples[i].id)
  }

  /** Sample `k` is new, and the last new one by time and sequence; of equals, the one sent last. */
  ghost predicate LastNew(table: seq<Telemetry>, samples: seq<Sample>, k: nat) {
    && IsNew(table, samples, k)
    && forall i: nat :: IsNew(table, samples, i) ==>
         NotAfter(samples[i], samples[k]) && (i > k ==> !NotAfter(samples[k], samples[i]))
  }

  predicate IsNewRow(table: seq<Telemetry>, batch: seq<Telemetry>, i: nat) {
    i < |batch| && !HasId(table, batch[i].id) && forall j :: 0 <= j < i ==> batch[j].id != batch[i].id
  }

  lemma {:induction false} NewRowsOfLonger(table: seq<Telemetry>, batch: seq<Telemetry>, row: Telemetry)
    ensures NewRows(table, batch + [row])
         == NewRows(table, batch) + if HasId(table + batch, row.id) then [] else [row]
    decreases |batch|
  {
    if batch == [] {
      assert table + batch == table && ([] + [row])[1..] == [] && (batch + [row])[0] == row;
      assert (batch + [row])[1..] == [];
    } else {
      assert (batch + [row])[1..] == batch[1..] + [row] && (batch + [row])[0] == batch[0];
      if HasId(table, batch[0].id) {
        NewRowsOfLonger(table, batch[1..], row);
        KnownIdAddsNothing(table, batch, row.id);
      } else {
        NewRowsOfLonger(table + [batch[0]], batch[1..], row);
        assert table + [batch[0]] + batch[1..] == table + batch;
      }
    }
  }

  lemma KnownIdAddsNothing(table: seq<Telemetry>, batch: seq<Telemetry>, id: SampleId)
    requires batch != [] && HasId(table, batch[0].id)
    ensures HasId(table + batch, id) <==> HasId(table + batch[1..], id)
  {
    if HasId(table + batch, id) {
      var i :| 0 <= i < |table + batch| && (table + batch)[i].id == id;
      if i < |table| {
        assert (table + batch[1..])[i].id == id;
      } else if i == |table| {
        var k :| 0 <= k < |table| && table[k].id == id;
        assert (table + batch[1..])[k].id == id;
      } else {
        assert (table + batch[1..])[i - 1].id == id;
      }
    }
    if HasId(table + batch[1..], id) {
      var i :| 0 <= i < |table + batch[1..]| && (table + batch[1..])[i].id == id;
      assert (table + batch)[if i < |table| then i else i + 1].id == id;
    }
  }

  /** Where in the batch the new rows stand. */
  function Places(table: seq<Telemetry>, batch: seq<Telemetry>): seq<nat>
    decreases |batch|
  {
    if batch == [] then []
    else
      var before := Places(table, batch[..|batch| - 1]);
      if IsNewRow(table, batch, |batch| - 1) then before + [|batch| - 1] else before
  }

  /** They are the places of new rows, all of them, in order. */
  ghost predicate ArePlaces(table: seq<Telemetry>, batch: seq<Telemetry>, places: seq<nat>, rows: seq<Telemetry>) {
    && |places| == |rows|
    && (forall m :: 0 <= m < |places| ==> IsNewRow(table, batch, places[m]) && batch[places[m]] == rows[m])
    && (forall m, n :: 0 <= m < n < |places| ==> places[m] < places[n])
    && (forall i: nat :: IsNewRow(table, batch, i) ==> i in places)
  }

  lemma NewRowOfPrefix(table: seq<Telemetry>, batch: seq<Telemetry>, i: nat)
    requires batch != [] && i < |batch| - 1
    ensures IsNewRow(table, batch, i) <==> IsNewRow(table, batch[..|batch| - 1], i)
  {}

  lemma {:induction false} PlacesFit(table: seq<Telemetry>, batch: seq<Telemetry>)
    ensures ArePlaces(table, batch, Places(table, batch), NewRows(table, batch))
    decreases |batch|
  {
    if batch != [] {
      var last := |batch| - 1;
      var before, row := batch[..last], batch[last];
      PlacesFit(table, before);
      assert before + [row] == batch;
      NewRowsOfLonger(table, before, row);
      LastIsNew(table, batch);
      forall i: nat | i < last ensures IsNewRow(table, batch, i) <==> IsNewRow(table, before, i) {
        NewRowOfPrefix(table, batch, i);
      }
    }
  }

  lemma LastIsNew(table: seq<Telemetry>, batch: seq<Telemetry>)
    requires batch != []
    ensures var last := |batch| - 1;
      IsNewRow(table, batch, last) <==> !HasId(table + batch[..last], batch[last].id)
  {
    var last := |batch| - 1;
    var all := table + batch[..last];
    if HasId(all, batch[last].id) {
      var i :| 0 <= i < |all| && all[i].id == batch[last].id;
      if i < |table| { assert table[i].id == batch[last].id; } else { assert batch[i - |table|].id == batch[last].id; }
    } else {
      HasIdGrows(table, batch[..last], batch[last].id);
      forall j | 0 <= j < last ensures batch[j].id != batch[last].id {
        assert all[|table| + j] == batch[j];
      }
    }
  }

  lemma {:induction false} LastOfSorted<T>(key: T -> Key, s: seq<T>) returns (k: nat)
    requires s != []
    ensures |Sort(key, s)| == |s| && k < |s| && Sort(key, s)[|s| - 1] == s[k]
    ensures forall i :: 0 <= i < |s| ==> AtMost(key(s[i]), key(s[k])) && (i > k ==> Below(key(s[i]), key(s[k])))
  {
    SortPermutes(key, s);
    if |s| == 1 {
      k := 0;
    } else {
      var rest := Sort(key, s[1..]);
      SortPermutes(key, s[1..]);
      var before := LastOfSorted(key, s[1..]);
      assert forall i :: 0 <= i < |s[1..]| ==> s[1..][i] == s[i + 1];
      InsertLast(key, s[0], rest);
      k := if Below(key(s[1..][before]), key(s[0])) then 0 else before + 1;
    }
  }

  lemma {:induction false} InsertLast<T>(key: T -> Key, x: T, s: seq<T>)
    requires s != [] && Sorted(key, s)
    ensures |Insert(key, x, s)| == |s| + 1
    ensures Insert(key, x, s)[|s|] == if Below(key(s[|s| - 1]), key(x)) then x else s[|s| - 1]
  {
    InsertKeeps(key, x, s);
    if AtMost(key(x), key(s[0])) {
      assert |s| > 1 ==> AtMost(key(s[0]), key(s[|s| - 1]));
    } else if |s| > 1 {
      InsertLast(key, x, s[1..]);
    } else {
      assert Insert(key, x, s[1..]) == [x];
    }
  }

  lemma RowsAreNewAlike(table: seq<Telemetry>, samples: seq<Sample>, batch: seq<Telemetry>, i: nat)
    requires |batch| == |samples| && forall k :: 0 <= k < |batch| ==> batch[k].id == samples[k].id
    ensures IsNewRow(table, batch, i) <==> IsNew(table, samples, i)
  {
    if i < |batch| {
      if HasId(table, batch[i].id) {
        var k :| 0 <= k < |table| && table[k].id == batch[i].id;
        assert table[k] in table;
      } else {
        forall row | row in table ensures row.id != samples[i].id {
          var k :| 0 <= k < |table| && table[k] == row;
        }
      }
    }
  }

  /** The place of the last row by time and sequence comes last, of equal ones too. */
  lemma LastPlace(table: seq<Telemetry>, batch: seq<Telemetry>, places: seq<nat>, rows: seq<Telemetry>, m: nat, i: nat)
    requires ArePlaces(table, batch, places, rows) && m < |rows| && IsNewRow(table, batch, i)
    requires forall n :: 0 <= n < |rows| ==>
      AtMost(ArrivalKey(rows[n]), ArrivalKey(rows[m])) && (n > m ==> Below(ArrivalKey(rows[n]), ArrivalKey(rows[m])))
    ensures AtMost(ArrivalKey(batch[i]), ArrivalKey(batch[places[m]]))
    ensures i > places[m] ==> Below(ArrivalKey(batch[i]), ArrivalKey(batch[places[m]]))
  {
    var n :| 0 <= n < |places| && places[n] == i;
    assert rows[n] == batch[i] && rows[m] == batch[places[m]];
  }

  /** No new row comes after this one, and no later one equals it. */
  ghost predicate IsLastNewRow(table: seq<Telemetry>, batch: seq<Telemetry>, k: nat) {
    && IsNewRow(table, batch, k)
    && forall i: nat :: IsNewRow(table, batch, i) ==>
         && AtMost(ArrivalKey(batch[i]), ArrivalKey(batch[k]))
         && (i > k ==> Below(ArrivalKey(batch[i]), ArrivalKey(batch[k])))
  }

  lemma LastPlaceIsLast(table: seq<Telemetry>, batch: seq<Telemetry>, places: seq<nat>, rows: seq<Telemetry>, m: nat)
    requires ArePlaces(table, batch, places, rows) && m < |rows|
    requires forall n :: 0 <= n < |rows| ==>
      AtMost(ArrivalKey(rows[n]), ArrivalKey(rows[m])) && (n > m ==> Below(ArrivalKey(rows[n]), ArrivalKey(rows[m])))
    ensures IsLastNewRow(table, batch, places[m]) && batch[places[m]] == rows[m]
  {
    forall i: nat | IsNewRow(table, batch, i)
      ensures AtMost(ArrivalKey(batch[i]), ArrivalKey(batch[places[m]]))
      ensures i > places[m] ==> Below(ArrivalKey(batch[i]), ArrivalKey(batch[places[m]]))
    {
      LastPlace(table, batch, places, rows, m, i);
    }
  }

  lemma SomeRowIsAdded(table: seq<Telemetry>, batch: seq<Telemetry>, places: seq<nat>, rows: seq<Telemetry>, i: nat)
    requires ArePlaces(table, batch, places, rows) && IsNewRow(table, batch, i)
    ensures rows != []
  {
    assert i in places;
  }

  lemma LastOfPlaces(table: seq<Telemetry>, batch: seq<Telemetry>, places: seq<nat>, rows: seq<Telemetry>)
      returns (k: nat)
    requires ArePlaces(table, batch, places, rows) && rows != []
    ensures IsLastNewRow(table, batch, k)
    ensures |Sort(ArrivalKey, rows)| == |rows| && Sort(ArrivalKey, rows)[|rows| - 1] == batch[k]
  {
    var m := LastOfSorted(ArrivalKey, rows);
    LastPlaceIsLast(table, batch, places, rows, m);
    k := places[m];
  }

  lemma NewRowsArePlaced(table: seq<Telemetry>, batch: seq<Telemetry>, i: nat) returns (places: seq<nat>)
    requires IsNewRow(table, batch, i)
    ensures ArePlaces(table, batch, places, NewRows(table, batch)) && NewRows(table, batch) != []
  {
    places := Places(table, batch);
    PlacesFit(table, batch);
    SomeRowIsAdded(table, batch, places, NewRows(table, batch), i);
  }

  lemma LastNewRow(table: seq<Telemetry>, batch: seq<Telemetry>, rows: seq<Telemetry>, i: nat) returns (k: nat)
    requires IsNewRow(table, batch, i) && rows == NewRows(table, batch)
    ensures IsLastNewRow(table, batch, k)
    ensures |Sort(ArrivalKey, rows)| == |rows| > 0 && Sort(ArrivalKey, rows)[|rows| - 1] == batch[k]
  {
    var places := NewRowsArePlaced(table, batch, i);
    k := LastOfPlaces(table, batch, places, rows);
  }

  /** Sorting what a batch adds puts the last new sample at the end. */
  lemma LatestIsLastNew(table: seq<Telemetry>, device: DeviceId, vehicle: VehicleId, boot: BootId, samples: seq<Sample>)
      returns (k: nat)
    requires exists i: nat :: IsNew(table, samples, i)
    ensures LastNew(table, samples, k)
    ensures var batch := StoredRows(device, vehicle, boot, samples);
      var sorted := Sort(ArrivalKey, NewRows(table, batch));
      sorted != [] && sorted[|sorted| - 1] == batch[k]
  {
    var batch := StoredRows(device, vehicle, boot, samples);
    forall i: nat ensures IsNewRow(table, batch, i) <==> IsNew(table, samples, i) {
      RowsAreNewAlike(table, samples, batch, i);
    }
    var some: nat :| IsNew(table, samples, some);
    assert IsNewRow(table, batch, some);
    k := LastNewRow(table, batch, NewRows(table, batch), some);
    forall i: nat | IsNew(table, samples, i)
      ensures NotAfter(samples[i], samples[k]) && (i > k ==> !NotAfter(samples[k], samples[i]))
    {
      assert IsNewRow(table, batch, i);
    }
  }

  // ------------------------------------------------------------------ what a batch queues

  /** Later steps only add rows, and what they add belongs to later triggers. */
  ghost predicate Extends(t: Tables, u: Tables) {
    && t.triggers <= u.triggers && t.executions <= u.executions && t.jobs <= u.jobs
    && forall i :: |t.executions| <= i < |u.executions| ==> u.executions[i].trigger >= |t.triggers|
  }

  lemma StepExtends(t: Tables, step: ServerStep)
    ensures Extends(t, Served(t, step))
  {}

  lemma {:induction false} StepsExtend(t: Tables, more: seq<ServerStep>)
    ensures Extends(t, ServedAll(t, more))
    decreases |more|
  {
    if more != [] {
      var before := ServedAll(t, more[..|more| - 1]);
      StepsExtend(t, more[..|more| - 1]);
      StepExtends(before, more[|more| - 1]);
      ExtendsFurther(t, before, ServedAll(t, more));
    }
  }

  lemma ExtendsFurther(t: Tables, u: Tables, v: Tables)
    requires Extends(t, u) && Extends(u, v)
    ensures Extends(t, v)
  {
    forall i | |t.executions| <= i < |v.executions| ensures v.executions[i].trigger >= |t.triggers| {
      if i < |u.executions| { assert v.executions[i] == u.executions[i]; }
    }
  }

  lemma RunsStay(t: Tables, u: Tables, trigger: TriggerId, h: HookId)
    requires Extends(t, u) && trigger < |t.triggers|
    ensures RunsOf(u.executions, trigger, h) == RunsOf(t.executions, trigger, h)
  {
    var extra := u.executions[|t.executions|..];
    assert u.executions == t.executions + extra;
    RunsOfAppend(t.executions, extra, trigger, h);
    NoRunsOfOthers(extra, trigger, h);
  }

  /** What one execution of a batch and its job are: for this sample, not a dry run, pending, and due at once. */
  predicate QueuedFor(t: Tables, x: ExecutionId, trigger: TriggerId, telemetry: SampleId, now: int) {
    && x < |t.executions| && x < |t.jobs|
    && t.executions[x] == Execution(t.executions[x].hook, trigger, telemetry, false, Pending)
    && t.jobs[x] == Job(x, Waiting, 0, now, None, None)
  }

  ghost predicate AllQueuedFor(t: Tables, trigger: TriggerId, telemetry: SampleId, now: int) {
    forall x: ExecutionId :: x < |t.executions| && t.executions[x].trigger == trigger ==>
      QueuedFor(t, x, trigger, telemetry, now)
  }

  lemma BatchQueues(before: Tables, batch: ServerStep, k: nat)
    requires ServerSound(before) && batch.Batch? && k < |batch.samples|
    requires var rows := StoredRows(batch.device, batch.vehicle, batch.boot, batch.samples);
      var sorted := Sort(ArrivalKey, NewRows(before.telemetry, rows));
      sorted != [] && sorted[|sorted| - 1] == rows[k]
    ensures var t, trigger := Served(before, batch), |before.triggers|;
      && |t.triggers| == trigger + 1 && TriggerNames(t.triggers[trigger], batch, k)
      && AllQueuedFor(t, trigger, batch.samples[k].id, batch.now)
      && forall h :: RunsOf(t.executions, trigger, h) == RowsThatWant(before.hooks, h, batch.vehicle)
  {
    var t, trigger := Served(before, batch), |before.triggers|;
    var matching := MatchingHooks(before.hooks, batch.vehicle);
    var made := ExecutionsFor(matching, trigger, batch.samples[k].id);
    assert t.executions == before.executions + made;
    assert t.jobs == before.jobs + JobsFor(|before.executions|, |matching|, batch.now);
    forall h ensures RunsOf(t.executions, trigger, h) == RowsThatWant(before.hooks, h, batch.vehicle) {
      RunsOfAppend(before.executions, made, trigger, h);
      NoRunsOfOthers(before.executions, trigger, h);
      OneRunEach(matching, trigger, batch.samples[k].id, h);
      MatchingAreWanted(before.hooks, h, batch.vehicle);
    }
    forall x: ExecutionId | x < |t.executions| && t.executions[x].trigger == trigger
      ensures QueuedFor(t, x, trigger, batch.samples[k].id, batch.now)
    {
      assert x >= |before.executions| && t.executions[x] == made[x - |before.executions|];
      var added := JobsFor(|before.executions|, |matching|, batch.now);
      assert |before.jobs| == |before.executions| && t.jobs[x] == added[x - |before.jobs|];
      assert added[x - |before.jobs|] == NewJob(x, batch.now);
    }
  }

  /** The trigger names the reading, its time, the vehicle and the device. */
  predicate TriggerNames(trigger: Trigger, batch: ServerStep, k: nat)
    requires batch.Batch? && k < |batch.samples|
  {
    && trigger.kind == "telemetry.received" && trigger.occurredAt == batch.samples[k].recordedAt
    && trigger.vehicle == batch.vehicle && trigger.device == batch.device && trigger.telemetryId == batch.samples[k].id
  }

  /**
   * A batch with a new sample makes one trigger, for the last new one, for the batch's vehicle and
   * device. For ever after, each hook has as many executions under it as there were rows of that
   * hook that were enabled, for telemetry and for this vehicle or any; each is for that reading,
   * with a waiting job of its own, due at once. A batch with no new sample queues nothing.
   */
  lemma {:induction false} TriggerRunsWantingHooks(steps: seq<ServerStep>, before: Tables, batch: ServerStep,
                                                   more: seq<ServerStep>)
    requires before == ServedAll(EMPTY_TABLES, steps) && batch.Batch?
    requires exists i: nat :: IsNew(before.telemetry, batch.samples, i)
    ensures var t, trigger := ServedAll(Served(before, batch), more), |before.triggers|;
      exists k: nat ::
        && LastNew(before.telemetry, batch.samples, k)
        && trigger < |t.triggers| && TriggerNames(t.triggers[trigger], batch, k)
        && AllQueuedFor(t, trigger, batch.samples[k].id, batch.now)
        && forall h :: RunsOf(t.executions, trigger, h) == RowsThatWant(before.hooks, h, batch.vehicle)
  {
    ServerStaysSound(steps);
    var k := LatestIsLastNew(before.telemetry, batch.device, batch.vehicle, batch.boot, batch.samples);
    BatchQueues(before, batch, k);
    var once, t, trigger := Served(before, batch), ServedAll(Served(before, batch), more), |before.triggers|;
    StepsExtend(once, more);
    QueuedStay(once, t, trigger, batch.samples[k].id, batch.now);
    forall h ensures RunsOf(t.executions, trigger, h) == RowsThatWant(before.hooks, h, batch.vehicle) {
      RunsStay(once, t, trigger, h);
    }
    assert TriggerNames(t.triggers[trigger], batch, k);
  }

  lemma QueuedStay(t: Tables, u: Tables, trigger: TriggerId, telemetry: SampleId, now: int)
    requires Extends(t, u) && trigger < |t.triggers| && AllQueuedFor(t, trigger, telemetry, now)
    ensures AllQueuedFor(u, trigger, telemetry, now)
  {
    forall x: ExecutionId | x < |u.executions| && u.executions[x].trigger == trigger
      ensures QueuedFor(u, x, trigger, telemetry, now)
    {
      assert x < |t.executions| && u.executions[x] == t.executions[x];
      assert QueuedFor(t, x, trigger, telemetry, now) && u.jobs[x] == t.jobs[x];
    }
  }

  lemma {:induction false} OldBatchQueuesNothing(t: Tables, batch: ServerStep)
    requires batch.Batch? && forall i: nat :: !IsNew(t.telemetry, batch.samples, i)
    ensures Served(t, batch) == t
  {
    var rows := StoredRows(batch.device, batch.vehicle, batch.boot, batch.samples);
    PlacesFit(t.telemetry, rows);
    var places := Places(t.telemetry, rows);
    if places != [] {
      assert IsNewRow(t.telemetry, rows, places[0]);
      RowsAreNewAlike(t.telemetry, batch.samples, rows, places[0]);
    }
    assert NewRows(t.telemetry, rows) == [];
    assert t.telemetry + [] == t.telemetry;
  }

  /** A manual run makes a trigger for its reading, one pending execution of the hook and its job, due at once. */
  lemma ManualRunQueues(t: Tables, hook: HookId, row: nat, dryRun: bool, at: int)
    requires row < |t.telemetry|
    ensures var u, reading := Served(t, RunManually(hook, row, dryRun, at)), t.telemetry[row];
      && u.triggers == t.triggers
           + [Trigger("manual.test", at, reading.vehicle, reading.deviceId, reading.id, [reading.id])]
      && u.executions == t.executions + [Execution(hook, |t.triggers|, reading.id, dryRun, Pending)]
      && u.jobs == t.jobs + [Job(|t.executions|, Waiting, 0, at, None, None)]
      && u.telemetry == t.telemetry && u.states == t.states && u.hooks == t.hooks
  {}
}
