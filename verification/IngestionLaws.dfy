/** What ingestion promises over every run of batches, hook edits and manual executions. */
module IngestionLaws {
  import opened Prelude
  import opened Ordering
  import opened Samples
  import opened HookTables
  import opened Ingestion

  // ------------------------------------------------------------------ storing once

  lemma OneRowMore(table: seq<Telemetry>, row: Telemetry)
    requires UniqueIds(table) && !HasId(table, row.id)
    ensures UniqueIds(table + [row]) && HasId(table + [row], row.id)
  {
    assert (table + [row])[|table|].id == row.id;
  }

  lemma {:induction false} StoredIdsAreUnique(table: seq<Telemetry>, batch: seq<Telemetry>)
    requires UniqueIds(table)
    ensures UniqueIds(table + NewRows(table, batch))
    decreases |batch|
  {
    if batch == [] {
      assert table + [] == table;
    } else if HasId(table, batch[0].id) {
      StoredIdsAreUnique(table, batch[1..]);
    } else {
      OneRowMore(table, batch[0]);
      StoredIdsAreUnique(table + [batch[0]], batch[1..]);
      NewRowsInOrder(table, batch);
    }
  }

  lemma NewRowsInOrder(table: seq<Telemetry>, batch: seq<Telemetry>)
    requires batch != [] && !HasId(table, batch[0].id)
    ensures table + NewRows(table, batch) == (table + [batch[0]]) + NewRows(table + [batch[0]], batch[1..])
  {}

  lemma {:induction false} StoredIdsCoverBatch(table: seq<Telemetry>, batch: seq<Telemetry>, i: nat)
    requires i < |batch|
    ensures HasId(table + NewRows(table, batch), batch[i].id)
    decreases |batch|
  {
    if HasId(table, batch[0].id) {
      HasIdGrows(table, NewRows(table, batch), batch[0].id);
      if i > 0 { StoredIdsCoverBatch(table, batch[1..], i - 1); }
    } else {
      var grown := table + [batch[0]];
      NewRowsInOrder(table, batch);
      assert grown[|table|].id == batch[0].id;
      HasIdGrows(grown, NewRows(grown, batch[1..]), batch[0].id);
      if i > 0 { StoredIdsCoverBatch(grown, batch[1..], i - 1); }
    }
  }

  /** After a batch the table still holds each id once, and it holds every id of the batch. */
  lemma StoringKeepsIdsUnique(table: seq<Telemetry>, batch: seq<Telemetry>)
    requires UniqueIds(table)
    ensures UniqueIds(table + NewRows(table, batch))
    ensures forall i :: 0 <= i < |batch| ==> HasId(table + NewRows(table, batch), batch[i].id)
  {
    StoredIdsAreUnique(table, batch);
    forall i | 0 <= i < |batch| ensures HasId(table + NewRows(table, batch), batch[i].id) {
      StoredIdsCoverBatch(table, batch, i);
    }
  }

  lemma HasIdGrows(table: seq<Telemetry>, more: seq<Telemetry>, id: SampleId)
    ensures HasId(table, id) ==> HasId(table + more, id)
  {
    if HasId(table, id) {
      var i :| 0 <= i < |table| && table[i].id == id;
      assert (table + more)[i].id == id;
    }
  }

  /** A new row comes from the batch, carries that row's content, and was not stored before. */
  lemma {:induction false} NewRowsComeFromBatch(table: seq<Telemetry>, batch: seq<Telemetry>)
    ensures forall row :: row in NewRows(table, batch) ==> row in batch && !HasId(table, row.id)
    decreases |batch|
  {
    if batch != [] {
      if HasId(table, batch[0].id) {
        NewRowsComeFromBatch(table, batch[1..]);
      } else {
        NewRowsComeFromBatch(table + [batch[0]], batch[1..]);
        forall row | row in NewRows(table, batch) ensures row in batch && !HasId(table, row.id) {
          if row in NewRows(table + [batch[0]], batch[1..]) {
            HasIdGrows(table, [batch[0]], row.id);
          }
        }
      }
    }
  }

  /** Every row of a batch is answered exactly once, as accepted or as duplicate. */
  lemma {:induction false} EveryRowIsAnsweredOnce(table: seq<Telemetry>, batch: seq<Telemetry>)
    ensures multiset(NewRows(table, batch)) + multiset(RefusedRows(table, batch)) == multiset(batch)
    decreases |batch|
  {
    if batch != [] {
      assert batch == [batch[0]] + batch[1..];
      EveryRowIsAnsweredOnce(if HasId(table, batch[0].id) then table else table + [batch[0]], batch[1..]);
    }
  }

  /** Of a batch that holds each id once, what is stored is in the order it was sent in, and so is what is refused. */
  lemma {:induction false} BatchOrderIsKept(table: seq<Telemetry>, batch: seq<Telemetry>)
    requires UniqueIds(batch)
    ensures NewRows(table, batch) == Filter((row: Telemetry) => !HasId(table, row.id), batch)
    ensures RefusedRows(table, batch) == Filter((row: Telemetry) => HasId(table, row.id), batch)
    decreases |batch|
  {
    if batch != [] {
      assert forall i :: 0 <= i < |batch[1..]| ==> batch[1..][i] == batch[i + 1];
      if HasId(table, batch[0].id) {
        BatchOrderIsKept(table, batch[1..]);
      } else {
        var grown := table + [batch[0]];
        BatchOrderIsKept(grown, batch[1..]);
        forall row | row in batch[1..] ensures HasId(grown, row.id) <==> HasId(table, row.id) {
          OtherIdsStay(table, batch[0], row.id);
        }
        SameFilter((row: Telemetry) => !HasId(grown, row.id), (row: Telemetry) => !HasId(table, row.id), batch[1..]);
        SameFilter((row: Telemetry) => HasId(grown, row.id), (row: Telemetry) => HasId(table, row.id), batch[1..]);
      }
    }
  }

  lemma OtherIdsStay(table: seq<Telemetry>, row: Telemetry, id: SampleId)
    requires id != row.id
    ensures HasId(table + [row], id) <==> HasId(table, id)
  {
    HasIdGrows(table, [row], id);
    if HasId(table + [row], id) {
      var i :| 0 <= i < |table + [row]| && (table + [row])[i].id == id;
      assert table[i].id == id;
    }
  }

  lemma {:induction false} SameFilter<T>(p: T -> bool, q: T -> bool, s: seq<T>)
    requires forall x :: x in s ==> p(x) == q(x)
    ensures Filter(p, s) == Filter(q, s)
  {
    if s != [] { SameFilter(p, q, s[1..]); }
  }

  lemma {:induction false} NothingNewInStoredBatch(table: seq<Telemetry>, batch: seq<Telemetry>)
    requires forall i :: 0 <= i < |batch| ==> HasId(table, batch[i].id)
    ensures NewRows(table, batch) == []
  {
    if batch != [] {
      NothingNewInStoredBatch(table, batch[1..]);
    }
  }

  /** Sending a batch again changes no table: no row, no merge, no trigger, no execution, no job. */
  lemma ResentBatchChangesNothing(t: Tables, batch: seq<Telemetry>, now: int, later: int)
    requires UniqueIds(t.telemetry)
    ensures Ingested(Ingested(t, batch, now), batch, later) == Ingested(t, batch, now)
  {
    var once := Ingested(t, batch, now);
    StoringKeepsIdsUnique(t.telemetry, batch);
    NothingNewInStoredBatch(once.telemetry, batch);
    assert once.telemetry + [] == once.telemetry;
  }

  // ------------------------------------------------------------------ the current-state row

  function Arrivals(table: seq<Telemetry>, vehicle: VehicleId): seq<Telemetry> {
    Filter((row: Telemetry) => row.vehicle == vehicle, table)
  }

  /** Arrival `i` is at least as new as everything that arrived before it. */
  ghost predicate Newest(a: seq<Telemetry>, i: int) {
    0 <= i < |a| && forall j :: 0 <= j < i ==> a[j].recordedAt <= a[i].recordedAt
  }

  /** Arrival `i` is the last one, among those newer than all before them, to report `name`. */
  ghost predicate LastReport(a: seq<Telemetry>, field: Telemetry -> Metrics, name: string, i: int) {
    && Newest(a, i)
    && name in field(a[i])
    && forall j :: i < j < |a| && Newest(a, j) ==> name !in field(a[j])
  }

  ghost predicate Reported(a: seq<Telemetry>, field: Telemetry -> Metrics, values: Metrics) {
    && (forall name :: name in values ==>
          exists i :: LastReport(a, field, name, i) && values[name] == field(a[i])[name])
    && (forall i, name :: Newest(a, i) && name in field(a[i]) ==> name in values)
  }

  /** Arrival `i` has the greatest time, and is the last to have it. */
  ghost predicate LastOfGreatestTime(a: seq<Telemetry>, i: int) {
    && 0 <= i < |a|
    && (forall j :: 0 <= j < |a| ==> a[j].recordedAt <= a[i].recordedAt)
    && (forall j :: i < j < |a| ==> a[j].recordedAt < a[i].recordedAt)
  }

  function MetricsOf(row: Telemetry): Metrics { row.metrics }
  function DeviceDataOf(row: Telemetry): Metrics { row.deviceData }

  ghost predicate DescribesArrivals(state: VehicleState, a: seq<Telemetry>) {
    && (exists i :: LastOfGreatestTime(a, i) && state.telemetryId == a[i].id
          && state.updatedAt == a[i].recordedAt && state.position == a[i].position)
    && Reported(a, MetricsOf, state.latestMetrics)
    && Reported(a, DeviceDataOf, state.deviceState)
  }

  /** The reference for one vehicle: no row before the first arrival, then a plain function of the arrivals. */
  ghost predicate Current(states: States, a: seq<Telemetry>, vehicle: VehicleId) {
    if a == [] then vehicle !in states
    else vehicle in states && DescribesArrivals(states[vehicle], a)
  }

  lemma NewestAfterArrival(a: seq<Telemetry>, row: Telemetry)
    ensures forall i :: 0 <= i < |a| ==> (Newest(a + [row], i) <==> Newest(a, i))
    ensures Newest(a + [row], |a|) <==> forall j :: 0 <= j < |a| ==> a[j].recordedAt <= row.recordedAt
  {
    var b := a + [row];
    forall i | 0 <= i < |a| ensures Newest(b, i) <==> Newest(a, i) {
      assert forall j :: 0 <= j <= i ==> b[j] == a[j];
    }
    assert forall j :: 0 <= j < |a| ==> b[j] == a[j];
  }

  /** The last report of a metric stays the last unless the arrival is as new as all before it and reports it too. */
  lemma LastReportStays(a: seq<Telemetry>, row: Telemetry, field: Telemetry -> Metrics, name: string, i: int)
    requires LastReport(a, field, name, i)
    requires name !in field(row) || exists j :: 0 <= j < |a| && a[j].recordedAt > row.recordedAt
    ensures LastReport(a + [row], field, name, i) && (a + [row])[i] == a[i]
  {
    var b := a + [row];
    NewestAfterArrival(a, row);
    forall j | i < j < |b| && Newest(b, j) ensures name !in field(b[j]) {
      if j < |a| { assert Newest(a, j) && b[j] == a[j]; }
    }
  }

  lemma ReportedAfterOldArrival(a: seq<Telemetry>, row: Telemetry, field: Telemetry -> Metrics, values: Metrics)
    requires Reported(a, field, values)
    requires exists j :: 0 <= j < |a| && a[j].recordedAt > row.recordedAt
    ensures Reported(a + [row], field, values)
  {
    var b := a + [row];
    NewestAfterArrival(a, row);
    forall name | name in values
      ensures exists i :: LastReport(b, field, name, i) && values[name] == field(b[i])[name]
    {
      var i :| LastReport(a, field, name, i) && values[name] == field(a[i])[name];
      LastReportStays(a, row, field, name, i);
    }
    forall i, name | Newest(b, i) && name in field(b[i]) ensures name in values {
      assert i < |a| && Newest(a, i) && b[i] == a[i];
    }
  }

  lemma ReportedAfterNewArrival(a: seq<Telemetry>, row: Telemetry, field: Telemetry -> Metrics, values: Metrics)
    requires Reported(a, field, values)
    requires forall j :: 0 <= j < |a| ==> a[j].recordedAt <= row.recordedAt
    ensures Reported(a + [row], field, values + field(row))
  {
    var b := a + [row];
    var merged := values + field(row);
    NewestAfterArrival(a, row);
    assert b[|a|] == row;
    forall name | name in merged
      ensures exists i :: LastReport(b, field, name, i) && merged[name] == field(b[i])[name]
    {
      if name in field(row) {
        assert LastReport(b, field, name, |a|);
      } else {
        var i :| LastReport(a, field, name, i) && values[name] == field(a[i])[name];
        LastReportStays(a, row, field, name, i);
      }
    }
    forall i, name | Newest(b, i) && name in field(b[i]) ensures name in merged {
      if i < |a| { assert Newest(a, i) && b[i] == a[i]; }
    }
  }

  lemma FirstMergeDescribes(states: States, row: Telemetry)
    requires row.vehicle !in states
    ensures row.vehicle in Merge(states, row) && DescribesArrivals(Merge(states, row)[row.vehicle], [] + [row])
  {
    var none: seq<Telemetry> := [];
    assert Reported(none, MetricsOf, map[]) && Reported(none, DeviceDataOf, map[]);
    ReportedAfterNewArrival(none, row, MetricsOf, map[]);
    ReportedAfterNewArrival(none, row, DeviceDataOf, map[]);
    assert map[] + row.metrics == row.metrics && map[] + row.deviceData == row.deviceData;
    assert LastOfGreatestTime(none + [row], 0) && (none + [row])[0] == row;
  }

  lemma OldMergeDescribes(state: VehicleState, a: seq<Telemetry>, row: Telemetry)
    requires a != [] && DescribesArrivals(state, a) && state.updatedAt > row.recordedAt
    ensures DescribesArrivals(state, a + [row])
  {
    var i :| LastOfGreatestTime(a, i) && state.telemetryId == a[i].id
      && state.updatedAt == a[i].recordedAt && state.position == a[i].position;
    ReportedAfterOldArrival(a, row, MetricsOf, state.latestMetrics);
    ReportedAfterOldArrival(a, row, DeviceDataOf, state.deviceState);
    assert (a + [row])[i] == a[i] && LastOfGreatestTime(a + [row], i);
  }

  lemma NewMergeDescribes(state: VehicleState, a: seq<Telemetry>, row: Telemetry)
    requires a != [] && DescribesArrivals(state, a) && state.updatedAt <= row.recordedAt
    ensures
      var next := VehicleState(row.id, row.recordedAt, row.position,
        state.latestMetrics + row.metrics, state.deviceState + row.deviceData);
      DescribesArrivals(next, a + [row])
  {
    ReportedAfterNewArrival(a, row, MetricsOf, state.latestMetrics);
    ReportedAfterNewArrival(a, row, DeviceDataOf, state.deviceState);
    assert (a + [row])[|a|] == row && LastOfGreatestTime(a + [row], |a|);
  }

  lemma MergeDescribes(states: States, a: seq<Telemetry>, row: Telemetry)
    requires Current(states, a, row.vehicle)
    ensures Current(Merge(states, row), a + [row], row.vehicle)
  {
    if a == [] {
      FirstMergeDescribes(states, row);
    } else if states[row.vehicle].updatedAt > row.recordedAt {
      OldMergeDescribes(states[row.vehicle], a, row);
    } else {
      NewMergeDescribes(states[row.vehicle], a, row);
    }
  }

  ghost predicate AllCurrent(states: States, table: seq<Telemetry>) {
    forall vehicle: VehicleId :: Current(states, Arrivals(table, vehicle), vehicle)
  }

  lemma ArrivalsAfter(table: seq<Telemetry>, row: Telemetry, vehicle: VehicleId)
    ensures Arrivals(table + [row], vehicle)
         == if row.vehicle == vehicle then Arrivals(table, vehicle) + [row] else Arrivals(table, vehicle)
  {
    FilterAppend((r: Telemetry) => r.vehicle == vehicle, table, [row]);
    assert [row][1..] == [];
  }

  lemma {:induction false} MergingKeepsCurrent(states: States, table: seq<Telemetry>, rows: seq<Telemetry>)
    requires AllCurrent(states, table)
    ensures AllCurrent(MergeAll(states, rows), table + rows)
    decreases |rows|
  {
    if rows == [] {
      assert table + rows == table;
    } else {
      var before, row := rows[..|rows| - 1], rows[|rows| - 1];
      MergingKeepsCurrent(states, table, before);
      assert table + rows == (table + before) + [row];
      forall vehicle: VehicleId
        ensures Current(MergeAll(states, rows), Arrivals(table + rows, vehicle), vehicle)
      {
        ArrivalsAfter(table + before, row, vehicle);
        assert Current(MergeAll(states, before), Arrivals(table + before, vehicle), vehicle);
        if row.vehicle == vehicle {
          MergeDescribes(MergeAll(states, before), Arrivals(table + before, vehicle), row);
        }
      }
    }
  }

  // ------------------------------------------------------------------ triggers

  /** How many times telemetry triggers list an id. */
  function Listings(triggers: seq<Trigger>, id: SampleId): nat {
    if triggers == [] then 0
    else (if triggers[0].kind == TELEMETRY_RECEIVED then multiset(triggers[0].telemetryIds)[id] else 0)
         + Listings(triggers[1..], id)
  }

  lemma {:induction false} ListingsAppend(triggers: seq<Trigger>, trigger: Trigger, id: SampleId)
    ensures Listings(triggers + [trigger], id)
         == Listings(triggers, id)
            + if trigger.kind == TELEMETRY_RECEIVED then multiset(trigger.telemetryIds)[id] else 0
  {
    if triggers == [] {
      assert triggers + [trigger] == [trigger];
      assert [trigger][1..] == [];
    } else {
      assert (triggers + [trigger])[1..] == triggers[1..] + [trigger];
      ListingsAppend(triggers[1..], trigger, id);
    }
  }

  ghost predicate EachListedOnce(t: Tables) {
    forall id: SampleId :: Listings(t.triggers, id) == if HasId(t.telemetry, id) then 1 else 0
  }

  /** By time, and by sequence at the same time. */
  ghost predicate Chronological(rows: seq<Telemetry>) {
    forall i, j :: 0 <= i < j < |rows| ==>
      || rows[i].recordedAt < rows[j].recordedAt
      || (rows[i].recordedAt == rows[j].recordedAt && rows[i].sequence <= rows[j].sequence)
  }

  lemma SortedIsChronological(rows: seq<Telemetry>)
    requires Sorted(ArrivalKey, rows)
    ensures Chronological(rows)
  {
    forall i, j | 0 <= i < j < |rows| ensures AtMost(ArrivalKey(rows[i]), ArrivalKey(rows[j])) {}
  }

  /** A telemetry trigger lists stored rows in (time, sequence) order and points at the last of them. */
  ghost predicate ListsInOrder(table: seq<Telemetry>, trigger: Trigger) {
    exists rows: seq<Telemetry> ::
      && rows != [] && Chronological(rows) && (forall row :: row in rows ==> row in table)
      && trigger.telemetryIds == Ids(rows)
      && trigger.telemetryId == rows[|rows| - 1].id && trigger.occurredAt == rows[|rows| - 1].recordedAt
  }

  ghost predicate TriggersOrdered(t: Tables) {
    forall i :: 0 <= i < |t.triggers| && t.triggers[i].kind == TELEMETRY_RECEIVED ==>
      ListsInOrder(t.telemetry, t.triggers[i])
  }

  lemma {:induction false} IdCounts(rows: seq<Telemetry>, id: SampleId)
    requires UniqueIds(rows)
    ensures multiset(Ids(rows))[id] == if HasId(rows, id) then 1 else 0
  {
    if rows != [] {
      IdCounts(rows[1..], id);
      assert Ids(rows) == [rows[0].id] + Ids(rows[1..]);
      if HasId(rows[1..], id) {
        var i :| 0 <= i < |rows[1..]| && rows[1..][i].id == id;
        assert rows[i + 1].id == id;
      }
      if HasId(rows, id) && rows[0].id != id {
        var i :| 0 <= i < |rows| && rows[i].id == id;
        assert rows[1..][i - 1].id == id;
      }
    }
  }

  lemma {:induction false} InsertKeepsIds(row: Telemetry, rows: seq<Telemetry>)
    ensures multiset(Ids(Insert(ArrivalKey, row, rows))) == multiset(Ids(rows)) + multiset{row.id}
  {
    if rows == [] || AtMost(ArrivalKey(row), ArrivalKey(rows[0])) {
      assert Ids([row] + rows) == [row.id] + Ids(rows);
    } else {
      InsertKeepsIds(row, rows[1..]);
      var rest := Insert(ArrivalKey, row, rows[1..]);
      assert Ids([rows[0]] + rest) == [rows[0].id] + Ids(rest);
      assert Ids(rows) == [rows[0].id] + Ids(rows[1..]);
    }
  }

  lemma {:induction false} SortKeepsIds(rows: seq<Telemetry>)
    ensures multiset(Ids(Sort(ArrivalKey, rows))) == multiset(Ids(rows))
  {
    if rows != [] {
      SortKeepsIds(rows[1..]);
      InsertKeepsIds(rows[0], Sort(ArrivalKey, rows[1..]));
      assert Ids(rows) == [rows[0].id] + Ids(rows[1..]);
    }
  }

  lemma IngestKeepsListings(t: Tables, batch: seq<Telemetry>, now: int)
    requires UniqueIds(t.telemetry) && EachListedOnce(t)
    ensures EachListedOnce(Ingested(t, batch, now))
  {
    var added := NewRows(t.telemetry, batch);
    var after := Ingested(t, batch, now);
    StoringKeepsIdsUnique(t.telemetry, batch);
    if added == [] {
      assert t.telemetry + added == t.telemetry;
    } else {
      var sorted := Sort(ArrivalKey, added);
      SortPermutes(ArrivalKey, added);
      SortKeepsIds(added);
      forall i, j | 0 <= i < j < |added| ensures added[i].id != added[j].id {
        assert (t.telemetry + added)[|t.telemetry| + i] == added[i];
        assert (t.telemetry + added)[|t.telemetry| + j] == added[j];
      }
      forall id: SampleId ensures Listings(after.triggers, id) == if HasId(after.telemetry, id) then 1 else 0 {
        ListingsAppend(t.triggers, after.triggers[|t.triggers|], id);
        IdCounts(added, id);
        HasIdSplits(t.telemetry, added, id);
      }
    }
  }

  lemma HasIdSplits(table: seq<Telemetry>, added: seq<Telemetry>, id: SampleId)
    requires UniqueIds(table + added)
    ensures HasId(table + added, id) <==> HasId(table, id) || HasId(added, id)
    ensures !(HasId(table, id) && HasId(added, id))
  {
    var all := table + added;
    if HasId(table, id) {
      var i :| 0 <= i < |table| && table[i].id == id;
      assert all[i].id == id;
      if HasId(added, id) {
        var j :| 0 <= j < |added| && added[j].id == id;
        assert all[|table| + j].id == id;
      }
    }
    if HasId(added, id) {
      var j :| 0 <= j < |added| && added[j].id == id;
      assert all[|table| + j].id == id;
    }
    if HasId(all, id) {
      var i :| 0 <= i < |all| && all[i].id == id;
      assert if i < |table| then table[i].id == id else added[i - |table|].id == id;
    }
  }

  lemma ListsInOrderGrows(table: seq<Telemetry>, more: seq<Telemetry>, trigger: Trigger)
    requires ListsInOrder(table, trigger)
    ensures ListsInOrder(table + more, trigger)
  {
    var rows: seq<Telemetry> :|
      && rows != [] && Chronological(rows) && (forall row :: row in rows ==> row in table)
      && trigger.telemetryIds == Ids(rows)
      && trigger.telemetryId == rows[|rows| - 1].id && trigger.occurredAt == rows[|rows| - 1].recordedAt;
    assert forall row :: row in rows ==> row in table + more;
  }

  lemma IngestKeepsOrder(t: Tables, batch: seq<Telemetry>, now: int)
    requires TriggersOrdered(t)
    ensures TriggersOrdered(Ingested(t, batch, now))
  {
    var added := NewRows(t.telemetry, batch);
    var after := Ingested(t, batch, now);
    var sorted := Sort(ArrivalKey, added);
    SortPermutes(ArrivalKey, added);
    SortMembers(ArrivalKey, added);
    forall i | 0 <= i < |after.triggers| && after.triggers[i].kind == TELEMETRY_RECEIVED
      ensures ListsInOrder(after.telemetry, after.triggers[i])
    {
      if i < |t.triggers| {
        assert after.triggers[i] == t.triggers[i];
        ListsInOrderGrows(t.telemetry, added, t.triggers[i]);
      } else {
        SortedIsChronological(sorted);
        assert after.triggers[i].telemetryIds == Ids(sorted);
        assert forall row :: row in sorted ==> row in after.telemetry;
      }
    }
  }

  // ------------------------------------------------------------------ whole runs

  datatype ServerStep =
    | Batch(device: DeviceId, vehicle: VehicleId, boot: BootId, samples: seq<Sample>, now: int)
    | EditHooks(hooks: seq<Hook>)
    | RunManually(hook: HookId, row: nat, dryRun: bool, at: int)

  function Served(t: Tables, step: ServerStep): Tables {
    match step
    case Batch(device, vehicle, boot, samples, now) => Ingested(t, StoredRows(device, vehicle, boot, samples), now)
    case EditHooks(hooks) => t.(hooks := hooks)
    case RunManually(hook, row, dryRun, at) =>
      if row < |t.telemetry| then ManuallyQueued(t, hook, t.telemetry[row], dryRun, at) else t
  }

  function ServedAll(t: Tables, steps: seq<ServerStep>): Tables
    decreases |steps|
  {
    if steps == [] then t else Served(ServedAll(t, steps[..|steps| - 1]), steps[|steps| - 1])
  }

  const EMPTY_TABLES := Tables([], map[], [], [], [], [])

  ghost predicate ServerSound(t: Tables) {
    && UniqueIds(t.telemetry)
    && AllCurrent(t.states, t.telemetry)
    && EachListedOnce(t)
    && TriggersOrdered(t)
    && Paired(t.executions, t.jobs)
    && (forall i :: 0 <= i < |t.executions| ==> t.executions[i].trigger < |t.triggers|)
  }

  lemma PairedAfterJobs(executions: seq<Execution>, jobs: seq<Job>, made: seq<Execution>, now: int)
    requires Paired(executions, jobs)
    ensures Paired(executions + made, jobs + JobsFor(|executions|, |made|, now))
  {
    var all := jobs + JobsFor(|executions|, |made|, now);
    forall j | 0 <= j < |all| ensures all[j].execution == j {
      if j < |jobs| {
        assert all[j] == jobs[j];
      } else {
        var k := j - |jobs|;
        assert all[j] == JobsFor(|executions|, |made|, now)[k];
        assert JobsFor(|executions|, |made|, now)[k] == NewJob(|executions| + k, now);
      }
    }
  }

  lemma IngestKeepsPaired(t: Tables, batch: seq<Telemetry>, now: int)
    requires Paired(t.executions, t.jobs)
    requires forall i :: 0 <= i < |t.executions| ==> t.executions[i].trigger < |t.triggers|
    ensures var after := Ingested(t, batch, now);
      && Paired(after.executions, after.jobs)
      && (forall i :: 0 <= i < |after.executions| ==> after.executions[i].trigger < |after.triggers|)
  {
    var after := Ingested(t, batch, now);
    var sorted := Sort(ArrivalKey, NewRows(t.telemetry, batch));
    if sorted != [] {
      var latest := sorted[|sorted| - 1];
      var matching := MatchingHooks(t.hooks, latest.vehicle);
      assert after.jobs == t.jobs + JobsFor(|t.executions|, |matching|, now);
      assert after.executions == t.executions + ExecutionsFor(matching, |t.triggers|, latest.id);
      PairedAfterJobs(t.executions, t.jobs, ExecutionsFor(matching, |t.triggers|, latest.id), now);
    }
  }

  lemma ServedKeepsSound(t: Tables, step: ServerStep)
    requires ServerSound(t)
    ensures ServerSound(Served(t, step))
  {
    match step
    case Batch(device, vehicle, boot, samples, now) =>
      var batch := StoredRows(device, vehicle, boot, samples);
      StoringKeepsIdsUnique(t.telemetry, batch);
      MergingKeepsCurrent(t.states, t.telemetry, NewRows(t.telemetry, batch));
      IngestKeepsListings(t, batch, now);
      IngestKeepsOrder(t, batch, now);
      IngestKeepsPaired(t, batch, now);
    case EditHooks(hooks) =>
    case RunManually(hook, row, dryRun, at) =>
      if row < |t.telemetry| {
        var after := Served(t, step);
        forall id: SampleId ensures Listings(after.triggers, id) == if HasId(after.telemetry, id) then 1 else 0 {
          ListingsAppend(t.triggers, after.triggers[|t.triggers|], id);
        }
      }
  }

  lemma {:induction false} ServerStaysSound(steps: seq<ServerStep>)
    ensures ServerSound(ServedAll(EMPTY_TABLES, steps))
    decreases |steps|
  {
    if steps != [] {
      ServerStaysSound(steps[..|steps| - 1]);
      ServedKeepsSound(ServedAll(EMPTY_TABLES, steps[..|steps| - 1]), steps[|steps| - 1]);
    }
  }

  /** The current-state row is a plain function of the order in which samples were stored. */
  lemma CurrentStateIsFunctionOfArrivals(steps: seq<ServerStep>, vehicle: VehicleId)
    ensures var t := ServedAll(EMPTY_TABLES, steps);
      Current(t.states, Arrivals(t.telemetry, vehicle), vehicle)
  {
    ServerStaysSound(steps);
  }

  ghost predicate InTimeOrder(a: seq<Telemetry>) {
    forall i, j :: 0 <= i < j < |a| ==> a[i].recordedAt <= a[j].recordedAt
  }

  /** When samples arrive in time order every metric shows its last reported value. */
  lemma InOrderArrivalsShowLastValues(steps: seq<ServerStep>, t: Tables, vehicle: VehicleId,
                                      a: seq<Telemetry>, name: string, i: nat)
    requires t == ServedAll(EMPTY_TABLES, steps) && a == Arrivals(t.telemetry, vehicle)
    requires InTimeOrder(a) && i < |a| && name in a[i].metrics
    requires forall j :: i < j < |a| ==> name !in a[j].metrics
    ensures vehicle in t.states && name in t.states[vehicle].latestMetrics
    ensures t.states[vehicle].latestMetrics[name] == a[i].metrics[name]
    ensures t.states[vehicle].updatedAt == a[|a| - 1].recordedAt
  {
    CurrentStateIsFunctionOfArrivals(steps, vehicle);
    LastValuesWhenInOrder(t.states[vehicle], a, name, i);
  }

  lemma LastReportWhenInOrder(a: seq<Telemetry>, name: string, i: nat, k: int)
    requires InTimeOrder(a) && i < |a| && name in a[i].metrics
    requires forall j :: i < j < |a| ==> name !in a[j].metrics
    requires LastReport(a, MetricsOf, name, k)
    ensures k == i
  {
    assert Newest(a, i) && name in MetricsOf(a[i]);
  }

  lemma LastValuesWhenInOrder(state: VehicleState, a: seq<Telemetry>, name: string, i: nat)
    requires DescribesArrivals(state, a)
    requires InTimeOrder(a) && i < |a| && name in a[i].metrics
    requires forall j :: i < j < |a| ==> name !in a[j].metrics
    ensures name in state.latestMetrics && state.latestMetrics[name] == a[i].metrics[name]
    ensures state.updatedAt == a[|a| - 1].recordedAt
  {
    LastMetricWhenInOrder(state.latestMetrics, a, name, i);
    LastTimeWhenInOrder(state, a);
  }

  lemma LastTimeWhenInOrder(state: VehicleState, a: seq<Telemetry>)
    requires exists m :: LastOfGreatestTime(a, m) && state.updatedAt == a[m].recordedAt
    requires InTimeOrder(a)
    ensures a != [] && state.updatedAt == a[|a| - 1].recordedAt
  {}

  lemma LastMetricWhenInOrder(values: Metrics, a: seq<Telemetry>, name: string, i: nat)
    requires Reported(a, MetricsOf, values)
    requires InTimeOrder(a) && i < |a| && name in a[i].metrics
    requires forall j :: i < j < |a| ==> name !in a[j].metrics
    ensures name in values && values[name] == a[i].metrics[name]
  {
    assert Newest(a, i) && name in MetricsOf(a[i]);
    var k :| LastReport(a, MetricsOf, name, k) && values[name] == MetricsOf(a[k])[name];
    LastReportWhenInOrder(a, name, i, k);
  }

  /** Every stored id is listed by exactly one telemetry trigger, in order; no other id is listed. */
  lemma {:induction false} EveryStoredIdInOneTrigger(steps: seq<ServerStep>, id: SampleId)
    ensures var t := ServedAll(EMPTY_TABLES, steps);
      && Listings(t.triggers, id) == (if HasId(t.telemetry, id) then 1 else 0)
      && TriggersOrdered(t)
  {
    ServerStaysSound(steps);
  }

  function ExecutionsOf(executions: seq<Execution>, trigger: TriggerId): seq<Execution> {
    Filter((e: Execution) => e.trigger == trigger, executions)
  }

  lemma {:induction false} ExecutionsOfNone(executions: seq<Execution>, trigger: TriggerId)
    requires forall i :: 0 <= i < |executions| ==> executions[i].trigger != trigger
    ensures ExecutionsOf(executions, trigger) == []
  {
    if executions != [] {
      ExecutionsOfNone(executions[1..], trigger);
    }
  }

  lemma {:induction false} ExecutionsOfAll(executions: seq<Execution>, trigger: TriggerId)
    requires forall i :: 0 <= i < |executions| ==> executions[i].trigger == trigger
    ensures ExecutionsOf(executions, trigger) == executions
  {
    if executions != [] {
      ExecutionsOfAll(executions[1..], trigger);
      assert executions == [executions[0]] + executions[1..];
    }
  }

  lemma LaterStepsAddNothing(t: Tables, step: ServerStep, trigger: TriggerId)
    requires trigger < |t.triggers|
    ensures ExecutionsOf(Served(t, step).executions, trigger) == ExecutionsOf(t.executions, trigger)
    ensures |Served(t, step).triggers| >= |t.triggers|
  {
    var after := Served(t, step).executions;
    assert after[..|t.executions|] == t.executions;
    var extra := after[|t.executions|..];
    assert after == t.executions + extra;
    ExecutionsOfNone(extra, trigger);
    FilterAppend((e: Execution) => e.trigger == trigger, t.executions, extra);
    assert ExecutionsOf(t.executions, trigger) + [] == ExecutionsOf(t.executions, trigger);
  }

  lemma BatchMakesTrigger(before: Tables, rows: seq<Telemetry>, vehicle: VehicleId, now: int)
    requires NewRows(before.telemetry, rows) != []
    requires forall row :: row in rows ==> row.vehicle == vehicle
    requires forall i :: 0 <= i < |before.executions| ==> before.executions[i].trigger < |before.triggers|
    ensures |Ingested(before, rows, now).triggers| == |before.triggers| + 1
    ensures exists id: SampleId ::
      ExecutionsOf(Ingested(before, rows, now).executions, |before.triggers|)
      == ExecutionsFor(MatchingHooks(before.hooks, vehicle), |before.triggers|, id)
  {
    var trigger := |before.triggers|;
    var added := NewRows(before.telemetry, rows);
    SortPermutes(ArrivalKey, added);
    SortMembers(ArrivalKey, added);
    NewRowsComeFromBatch(before.telemetry, rows);
    var latest := Sort(ArrivalKey, added)[|added| - 1];
    var made := ExecutionsFor(MatchingHooks(before.hooks, vehicle), trigger, latest.id);
    assert Ingested(before, rows, now).executions == before.executions + made;
    OnlyNewExecutions(before.executions, made, trigger);
  }

  lemma OnlyNewExecutions(executions: seq<Execution>, made: seq<Execution>, trigger: TriggerId)
    requires forall i :: 0 <= i < |executions| ==> executions[i].trigger != trigger
    requires forall i :: 0 <= i < |made| ==> made[i].trigger == trigger
    ensures ExecutionsOf(executions + made, trigger) == made
  {
    ExecutionsOfNone(executions, trigger);
    ExecutionsOfAll(made, trigger);
    FilterAppend((e: Execution) => e.trigger == trigger, executions, made);
    assert [] + made == made;
  }

  /** Once made, a trigger's executions never change, whatever the server does next. */
  lemma {:induction false} TriggerKeepsItsExecutions(t: Tables, more: seq<ServerStep>, trigger: TriggerId)
    requires trigger < |t.triggers|
    ensures ExecutionsOf(ServedAll(t, more).executions, trigger) == ExecutionsOf(t.executions, trigger)
    ensures |ServedAll(t, more).triggers| >= |t.triggers|
    decreases |more|
  {
    if more != [] {
      TriggerKeepsItsExecutions(t, more[..|more| - 1], trigger);
      LaterStepsAddNothing(ServedAll(t, more[..|more| - 1]), more[|more| - 1], trigger);
    }
  }

  /**
   * A batch that stores something makes one trigger, and for ever after that trigger has
   * exactly one execution per hook that was enabled and matching when the batch arrived.
   */
  lemma TriggerHasOneExecutionPerMatchingHook(
      steps: seq<ServerStep>, before: Tables, batch: ServerStep, more: seq<ServerStep>)
    requires before == ServedAll(EMPTY_TABLES, steps) && batch.Batch?
    requires NewRows(before.telemetry, StoredRows(batch.device, batch.vehicle, batch.boot, batch.samples)) != []
    ensures exists id: SampleId ::
      ExecutionsOf(ServedAll(Served(before, batch), more).executions, |before.triggers|)
      == ExecutionsFor(MatchingHooks(before.hooks, batch.vehicle), |before.triggers|, id)
  {
    ServerStaysSound(steps);
    var rows := StoredRows(batch.device, batch.vehicle, batch.boot, batch.samples);
    BatchMakesTrigger(before, rows, batch.vehicle, batch.now);
    TriggerKeepsItsExecutions(Served(before, batch), more, |before.triggers|);
  }

  /** In every run each execution has exactly one job: the one with its own number. */
  lemma ExecutionsAndJobsPaired(steps: seq<ServerStep>)
    ensures Paired(ServedAll(EMPTY_TABLES, steps).executions, ServedAll(EMPTY_TABLES, steps).jobs)
  {
    ServerStaysSound(steps);
  }
}
