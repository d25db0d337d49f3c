/**
 * Agents and server together. Requests and responses travel through a network that may
 * lose, delay, reorder and repeat them; a request that timed out may still commit later.
 */
module Delivery {
  import opened Prelude
  import opened Samples
  import Q = AgentQueue
  import opened Ingestion
  import opened IngestionLaws

  datatype Request = Request(device: DeviceId, boot: BootId, samples: seq<Sample>)
  datatype Response = Response(device: DeviceId, ids: seq<SampleId>)

  const UPLOAD_LIMIT := 500

  type Agents = map<DeviceId, Q.Agent>

  datatype System = System(
    agents: Agents,       // every enrolled agent
    vehicles: map<DeviceId, VehicleId>,   // the vehicle each device reports for
    server: Tables,
    requests: multiset<Request>,
    responses: multiset<Response>)

  datatype Event =
    | Collect(device: DeviceId, reading: Sample, now: int, written: bool)
    | Send(device: DeviceId)
    | Commit(request: Request, at: int)
    | RepeatRequest(again: Request)
    | LoseRequest(lost: Request)
    | Acknowledge(response: Response)
    | RepeatResponse(echo: Response)
    | LoseResponse(dropped: Response)
    | Restart(device: DeviceId, newBoot: BootId, readable: bool)
    | ServerEdit(edit: ServerStep)

  // A sample id is a random UUID: no agent ever draws one that another sample has.
  ghost predicate IdTaken(agents: Agents, id: SampleId) {
    exists d :: d in agents && Q.Collected(agents[d], id)
  }

  function Batched(s: System, request: Request): seq<Telemetry>
    requires request.device in s.vehicles
  {
    StoredRows(request.device, s.vehicles[request.device], request.boot, request.samples)
  }

  // What the schema of the batch endpoint accepts.
  ghost predicate Acceptable(samples: seq<Sample>) {
    1 <= |samples| <= 500 && DistinctIds(samples)
  }

  ghost function Next(s: System, e: Event): System {
    match e
    case Collect(device, reading, now, written) =>
      if device in s.agents && !IdTaken(s.agents, reading.id) then
        s.(agents := s.agents[device := Q.After(s.agents[device], Q.Collect(reading, now, written))])
      else s
    case Send(device) =>
      if device in s.agents then
        var samples := Q.PendingSamples(s.agents[device].rows, UPLOAD_LIMIT);
        if samples == [] then s
        else s.(requests := s.requests + multiset{Request(device, s.agents[device].boot, samples)})
      else s
    case Commit(request, at) =>
      if request in s.requests && request.device in s.vehicles && Acceptable(request.samples) then
        var batch := Batched(s, request);
        var answer := Ids(NewRows(s.server.telemetry, batch)) + Ids(RefusedRows(s.server.telemetry, batch));
        s.(server := Ingested(s.server, batch, at),
           requests := s.requests - multiset{request},
           responses := s.responses + multiset{Response(request.device, answer)})
      else s
    case RepeatRequest(request) =>
      if request in s.requests then s.(requests := s.requests + multiset{request}) else s
    case LoseRequest(request) => s.(requests := s.requests - multiset{request})
    case Acknowledge(response) =>
      if response in s.responses && response.device in s.agents then
        s.(agents := s.agents[response.device :=
             Q.After(s.agents[response.device], Q.Acknowledge(IdSet(response.ids)))],
           responses := s.responses - multiset{response})
      else s
    case RepeatResponse(response) =>
      if response in s.responses then s.(responses := s.responses + multiset{response}) else s
    case LoseResponse(response) => s.(responses := s.responses - multiset{response})
    case Restart(device, newBoot, readable) =>
      if device in s.agents then
        s.(agents := s.agents[device := Q.After(s.agents[device], Q.Restart(newBoot, readable))])
      else s
    case ServerEdit(edit) =>
      // Hook edits and manual executions; readings come only from requests.
      if edit.Batch? then s else s.(server := Served(s.server, edit))
  }

  ghost function Run(s: System, events: seq<Event>): System
    decreases |events|
  {
    if events == [] then s else Next(Run(s, events[..|events| - 1]), events[|events| - 1])
  }

  /** Any set of enrolled devices, nothing collected, nothing stored, nothing in flight. */
  function Start(vehicles: map<DeviceId, VehicleId>): System {
    System(map d | d in vehicles :: Q.FRESH_AGENT, vehicles, EMPTY_TABLES, multiset{}, multiset{})
  }

  // ------------------------------------------------------------------ invariant

  predicate SameReading(row: Telemetry, device: DeviceId, sample: Sample) {
    && row.id == sample.id && row.deviceId == device && row.sequence == sample.sequence
    && row.recordedAt == sample.recordedAt && row.position == sample.position
    && row.metrics == sample.metrics && row.deviceData == sample.device
  }

  ghost predicate Holds(table: seq<Telemetry>, device: DeviceId, sample: Sample) {
    exists row :: row in table && SameReading(row, device, sample)
  }

  ghost predicate AgentsHeld(agents: Agents) {
    forall d :: d in agents ==> Q.Held(agents[d])
  }

  ghost predicate IdsGloballyUnique(agents: Agents) {
    forall d, e, id :: d in agents && e in agents && Q.Collected(agents[d], id) && Q.Collected(agents[e], id)
      ==> d == e
  }

  /** A request was collected by the device it claims to come from. */
  ghost predicate Genuine(agents: Agents, r: Request) {
    && r.device in agents && Acceptable(r.samples)
    && forall x :: x in r.samples ==> x in agents[r.device].collected
  }

  ghost predicate RequestsGenuine(agents: Agents, requests: multiset<Request>) {
    forall r :: r in requests ==> Genuine(agents, r)
  }

  /** A stored row was collected by the device it names. */
  ghost predicate RowGenuine(agents: Agents, row: Telemetry) {
    && row.deviceId in agents
    && exists x :: x in agents[row.deviceId].collected && SameReading(row, row.deviceId, x)
  }

  ghost predicate StoredGenuine(agents: Agents, table: seq<Telemetry>) {
    forall row :: row in table ==> RowGenuine(agents, row)
  }

  /** An answer names only committed ids. */
  ghost predicate AnswersCommitted(responses: multiset<Response>, table: seq<Telemetry>) {
    forall r, id :: r in responses && id in r.ids ==> HasId(table, id)
  }

  /** Whatever an acknowledgement removed, the server has. */
  ghost predicate AcknowledgedStored(agents: Agents, table: seq<Telemetry>) {
    forall d, id :: d in agents && id in agents[d].acknowledged ==> HasId(table, id)
  }

  ghost predicate Safe(s: System) {
    && s.agents.Keys == s.vehicles.Keys
    && AgentsHeld(s.agents)
    && IdsGloballyUnique(s.agents)
    && RequestsGenuine(s.agents, s.requests)
    && StoredGenuine(s.agents, s.server.telemetry)
    && AnswersCommitted(s.responses, s.server.telemetry)
    && AcknowledgedStored(s.agents, s.server.telemetry)
    && UniqueIds(s.server.telemetry)
  }

  // ------------------------------------------------------------------ steps keep it

  /** An agent that only adds to what it collected keeps everything said about what is in flight or stored. */
  lemma MoreCollectedKeepsGenuine(agents: Agents, d: DeviceId, agent: Q.Agent, requests: multiset<Request>,
                                  table: seq<Telemetry>)
    requires d in agents && forall x :: x in agents[d].collected ==> x in agent.collected
    requires RequestsGenuine(agents, requests) && StoredGenuine(agents, table)
    ensures RequestsGenuine(agents[d := agent], requests) && StoredGenuine(agents[d := agent], table)
  {
    forall r | r in requests ensures Genuine(agents[d := agent], r) {
      assert Genuine(agents, r);
    }
    forall row | row in table ensures RowGenuine(agents[d := agent], row) {
      assert RowGenuine(agents, row);
    }
  }

  lemma NewIdKeepsUnique(agents: Agents, d: DeviceId, agent: Q.Agent, newId: SampleId)
    requires d in agents && IdsGloballyUnique(agents) && !IdTaken(agents, newId)
    requires forall id :: Q.Collected(agent, id) ==> id == newId || Q.Collected(agents[d], id)
    ensures IdsGloballyUnique(agents[d := agent])
  {
    var after := agents[d := agent];
    forall a, b, id | a in after && b in after && Q.Collected(after[a], id) && Q.Collected(after[b], id)
      ensures a == b
    {
      if id == newId {
        assert a != d ==> !Q.Collected(agents[a], id);
        assert b != d ==> !Q.Collected(agents[b], id);
      } else {
        assert Q.Collected(agents[a], id) && Q.Collected(agents[b], id);
      }
    }
  }

  lemma CollectedAfterCollect(agent: Q.Agent, reading: Sample, now: int, written: bool, id: SampleId)
    requires Q.Collected(Q.After(agent, Q.Collect(reading, now, written)), id)
    ensures id == reading.id || Q.Collected(agent, id)
  {
    var after := Q.After(agent, Q.Collect(reading, now, written));
    var i :| 0 <= i < |after.collected| && after.collected[i].id == id;
    if i < |agent.collected| { assert agent.collected[i].id == id; }
  }

  /** A new sample's id is taken by its agent alone. */
  lemma CollectKeepsUnique(agents: Agents, d: DeviceId, reading: Sample, now: int, written: bool)
    requires d in agents && IdsGloballyUnique(agents) && !IdTaken(agents, reading.id)
    ensures IdsGloballyUnique(agents[d := Q.After(agents[d], Q.Collect(reading, now, written))])
  {
    var after := Q.After(agents[d], Q.Collect(reading, now, written));
    forall id | Q.Collected(after, id) ensures id == reading.id || Q.Collected(agents[d], id) {
      CollectedAfterCollect(agents[d], reading, now, written, id);
    }
    NewIdKeepsUnique(agents, d, after, reading.id);
  }

  lemma CollectIsSafe(s: System, e: Event)
    requires Safe(s) && e.Collect?
    ensures Safe(Next(s, e))
  {
    var Collect(device, reading, now, written) := e;
    if device in s.agents && !IdTaken(s.agents, reading.id) {
      var before := s.agents[device];
      var after := Q.After(before, Q.Collect(reading, now, written));
      Q.StepKeepsHeld(before, Q.Collect(reading, now, written));
      CollectKeepsUnique(s.agents, device, reading, now, written);
      MoreCollectedKeepsGenuine(s.agents, device, after, s.requests, s.server.telemetry);
      assert after.acknowledged == before.acknowledged;
    }
  }

  lemma PendingIsGenuine(agent: Q.Agent)
    requires Q.Held(agent)
    ensures var samples := Q.PendingSamples(agent.rows, UPLOAD_LIMIT);
      && |samples| <= 500 && DistinctIds(samples)
      && forall x :: x in samples ==> x in agent.collected
  {
    var keep := (x: Sample) => x.id !in agent.acknowledged;
    FilterMembers(keep, agent.collected);
    Q.FilterDistinct(agent.collected, keep);
    Q.PendingIsQueued(agent.rows, UPLOAD_LIMIT);
  }

  lemma SendIsSafe(s: System, e: Event)
    requires Safe(s) && e.Send?
    ensures Safe(Next(s, e))
  {
    var device := e.device;
    if device in s.agents {
      PendingIsGenuine(s.agents[device]);
      var samples := Q.PendingSamples(s.agents[device].rows, UPLOAD_LIMIT);
      if samples != [] {
        assert Genuine(s.agents, Request(device, s.agents[device].boot, samples));
      }
    }
  }

  lemma GrownTableKeeps(agents: Agents, responses: multiset<Response>, table: seq<Telemetry>, added: seq<Telemetry>)
    requires AnswersCommitted(responses, table) && AcknowledgedStored(agents, table)
    ensures AnswersCommitted(responses, table + added) && AcknowledgedStored(agents, table + added)
  {
    forall id | HasId(table, id) ensures HasId(table + added, id) {
      HasIdGrows(table, added, id);
    }
  }

  lemma BatchIsGenuine(agents: Agents, vehicle: VehicleId, request: Request, row: Telemetry)
    requires Genuine(agents, request)
    requires row in StoredRows(request.device, vehicle, request.boot, request.samples)
    ensures RowGenuine(agents, row)
  {
    var batch := StoredRows(request.device, vehicle, request.boot, request.samples);
    var i :| 0 <= i < |batch| && batch[i] == row;
    assert SameReading(row, request.device, request.samples[i]);
  }

  lemma AnswerNamesBatch(table: seq<Telemetry>, batch: seq<Telemetry>, id: SampleId)
    requires id in Ids(NewRows(table, batch)) + Ids(RefusedRows(table, batch))
    requires forall i :: 0 <= i < |batch| ==> HasId(table + NewRows(table, batch), batch[i].id)
    ensures HasId(table + NewRows(table, batch), id)
  {
    EveryRowIsAnsweredOnce(table, batch);
    var added, refused := NewRows(table, batch), RefusedRows(table, batch);
    var row :| (row in added || row in refused) && row.id == id;
    assert row in multiset(added) + multiset(refused);
    assert row in batch;
    var i :| 0 <= i < |batch| && batch[i] == row;
  }

  lemma CommitIsSafe(s: System, e: Event)
    requires Safe(s) && e.Commit?
    ensures Safe(Next(s, e))
  {
    if e.request in s.requests {
      assert Genuine(s.agents, e.request);
      CommitTableIsSafe(s, e.request);
      var batch := Batched(s, e.request);
      var table := s.server.telemetry;
      assert Next(s, e).server.telemetry == table + NewRows(table, batch);
    }
  }

  /** What a commit stores is genuine, new, and covers every id of its answer. */
  lemma CommitTableIsSafe(s: System, request: Request)
    requires Safe(s) && Genuine(s.agents, request) && request.device in s.vehicles
    ensures var batch := Batched(s, request);
      var table := s.server.telemetry;
      var grown := table + NewRows(table, batch);
      && UniqueIds(grown) && StoredGenuine(s.agents, grown) && AcknowledgedStored(s.agents, grown)
      && var answer := Response(request.device, Ids(NewRows(table, batch)) + Ids(RefusedRows(table, batch)));
         AnswersCommitted(s.responses + multiset{answer}, grown)
  {
    var batch := Batched(s, request);
    var table := s.server.telemetry;
    var added := NewRows(table, batch);
    var answer := Response(request.device, Ids(added) + Ids(RefusedRows(table, batch)));
    StoringKeepsIdsUnique(table, batch);
    NewRowsComeFromBatch(table, batch);
    GrownTableKeeps(s.agents, s.responses, table, added);
    forall id | id in answer.ids ensures HasId(table + added, id) {
      AnswerNamesBatch(table, batch, id);
    }
    forall row | row in added ensures RowGenuine(s.agents, row) {
      BatchIsGenuine(s.agents, s.vehicles[request.device], request, row);
    }
  }

  /** Steps that change neither what an agent collected nor what it acknowledged, or only by stored ids. */
  lemma AgentStepIsSafe(s: System, d: DeviceId, step: Q.Step)
    requires Safe(s) && d in s.agents && !step.Collect?
    requires step.Acknowledge? ==> forall id :: id in step.ids ==> HasId(s.server.telemetry, id)
    ensures Safe(s.(agents := s.agents[d := Q.After(s.agents[d], step)]))
  {
    var before, after := s.agents[d], Q.After(s.agents[d], step);
    Q.StepKeepsHeld(before, step);
    assert after.collected == before.collected;
    MoreCollectedKeepsGenuine(s.agents, d, after, s.requests, s.server.telemetry);
    SameCollectedKeepsUnique(s.agents, d, after);
  }

  lemma SameCollectedKeepsUnique(agents: Agents, d: DeviceId, agent: Q.Agent)
    requires d in agents && IdsGloballyUnique(agents) && agent.collected == agents[d].collected
    ensures IdsGloballyUnique(agents[d := agent])
  {
    var after := agents[d := agent];
    forall a, b, id | a in after && b in after && Q.Collected(after[a], id) && Q.Collected(after[b], id)
      ensures a == b
    {
      assert Q.Collected(agents[a], id) && Q.Collected(agents[b], id);
    }
  }

  lemma FewerMessagesIsSafe(s: System, requests: multiset<Request>, responses: multiset<Response>)
    requires Safe(s)
    requires forall r :: r in requests ==> r in s.requests
    requires forall r :: r in responses ==> r in s.responses
    ensures Safe(s.(requests := requests, responses := responses))
  {}

  lemma AcknowledgeIsSafe(s: System, e: Event)
    requires Safe(s) && e.Acknowledge?
    ensures Safe(Next(s, e))
  {
    var response := e.response;
    if response in s.responses && response.device in s.agents {
      var step := Q.Acknowledge(IdSet(response.ids));
      AgentStepIsSafe(s, response.device, step);
      var acked := s.(agents := s.agents[response.device := Q.After(s.agents[response.device], step)]);
      FewerMessagesIsSafe(acked, acked.requests, acked.responses - multiset{response});
    }
  }

  lemma RestartIsSafe(s: System, e: Event)
    requires Safe(s) && e.Restart?
    ensures Safe(Next(s, e))
  {
    if e.device in s.agents {
      var step := Q.Restart(e.newBoot, e.readable);
      AgentStepIsSafe(s, e.device, step);
      assert Next(s, e) == s.(agents := s.agents[e.device := Q.After(s.agents[e.device], step)]);
    }
  }

  lemma RequestNetworkIsSafe(s: System, e: Event)
    requires Safe(s) && (e.RepeatRequest? || e.LoseRequest?)
    ensures Safe(Next(s, e))
  {
    var requests := Next(s, e).requests;
    assert forall r :: r in requests ==> r in s.requests;
    FewerMessagesIsSafe(s, requests, s.responses);
    assert Next(s, e) == s.(requests := requests, responses := s.responses);
  }

  lemma ResponseNetworkIsSafe(s: System, e: Event)
    requires Safe(s) && (e.RepeatResponse? || e.LoseResponse?)
    ensures Safe(Next(s, e))
  {
    var responses := Next(s, e).responses;
    assert Next(s, e) == s.(responses := responses);
    forall r, id | r in responses && id in r.ids ensures HasId(s.server.telemetry, id) {
      assert r in s.responses;
    }
  }

  lemma ServerEditIsSafe(s: System, e: Event)
    requires Safe(s) && e.ServerEdit?
    ensures Safe(Next(s, e))
  {}

  lemma StepIsSafe(s: System, e: Event)
    requires Safe(s)
    ensures Safe(Next(s, e))
  {
    match e
    case Collect(_, _, _, _) => CollectIsSafe(s, e);
    case Send(_) => SendIsSafe(s, e);
    case Commit(_, _) => CommitIsSafe(s, e);
    case Acknowledge(_) => AcknowledgeIsSafe(s, e);
    case Restart(_, _, _) => RestartIsSafe(s, e);
    case RepeatRequest(_) => RequestNetworkIsSafe(s, e);
    case LoseRequest(_) => RequestNetworkIsSafe(s, e);
    case RepeatResponse(_) => ResponseNetworkIsSafe(s, e);
    case LoseResponse(_) => ResponseNetworkIsSafe(s, e);
    case ServerEdit(_) => ServerEditIsSafe(s, e);
  }

  lemma {:induction false} RunIsSafe(vehicles: map<DeviceId, VehicleId>, events: seq<Event>)
    ensures Safe(Run(Start(vehicles), events))
    decreases |events|
  {
    if events == [] {
      assert forall d :: d in vehicles ==> Q.Unacknowledged(Q.FRESH_AGENT) == [];
    } else {
      RunIsSafe(vehicles, events[..|events| - 1]);
      StepIsSafe(Run(Start(vehicles), events[..|events| - 1]), events[|events| - 1]);
    }
  }

  // ------------------------------------------------------------------ main results

  /**
   * In every run, every collected sample is still in its agent's queue or is stored on the
   * server with the content that was collected; and the server holds each id at most once.
   */
  lemma {:induction false} NoSampleIsLost(vehicles: map<DeviceId, VehicleId>, events: seq<Event>, device: DeviceId,
                                          sample: Sample)
    requires var s := Run(Start(vehicles), events);
      device in s.agents && sample in s.agents[device].collected
    ensures var s := Run(Start(vehicles), events);
      && (sample in Q.RowSamples(s.agents[device].rows) || Holds(s.server.telemetry, device, sample))
      && UniqueIds(s.server.telemetry)
  {
    RunIsSafe(vehicles, events);
    QueuedOrStored(Run(Start(vehicles), events), device, sample);
  }

  lemma QueuedOrStored(s: System, device: DeviceId, sample: Sample)
    requires Safe(s) && device in s.agents && sample in s.agents[device].collected
    ensures sample in Q.RowSamples(s.agents[device].rows) || Holds(s.server.telemetry, device, sample)
  {
    var agent := s.agents[device];
    FilterMembers((x: Sample) => x.id !in agent.acknowledged, agent.collected);
    assert Q.Held(agent);
    if sample.id in agent.acknowledged {
      assert HasId(s.server.telemetry, sample.id);
      StoredIdIsHeld(s, device, sample);
    }
  }

  lemma StoredIdIsHeld(s: System, device: DeviceId, sample: Sample)
    requires Safe(s) && device in s.agents && sample in s.agents[device].collected
    requires HasId(s.server.telemetry, sample.id)
    ensures Holds(s.server.telemetry, device, sample)
  {
    var i :| 0 <= i < |s.server.telemetry| && s.server.telemetry[i].id == sample.id;
    StoredIsWhatWasCollected(s, device, sample, s.server.telemetry[i]);
  }

  /** Ids identify readings end to end: a stored row with a sample's id is that sample. */
  lemma StoredIsWhatWasCollected(s: System, device: DeviceId, sample: Sample, row: Telemetry)
    requires Safe(s) && device in s.agents && sample in s.agents[device].collected
    requires row in s.server.telemetry && row.id == sample.id
    ensures SameReading(row, device, sample)
  {
    assert RowGenuine(s.agents, row);
    var x :| x in s.agents[row.deviceId].collected && SameReading(row, row.deviceId, x);
    assert Q.Held(s.agents[row.deviceId]) && Q.Held(s.agents[device]);
    var i :| 0 <= i < |s.agents[row.deviceId].collected| && s.agents[row.deviceId].collected[i] == x;
    var j :| 0 <= j < |s.agents[device].collected| && s.agents[device].collected[j] == sample;
    assert Q.Collected(s.agents[row.deviceId], sample.id) && Q.Collected(s.agents[device], sample.id);
    assert row.deviceId == device && i == j;
  }

  /** The queue and the table together account for the collected ids and for nothing else. */
  lemma QueueAndTableConserveIds(vehicles: map<DeviceId, VehicleId>, events: seq<Event>, id: SampleId)
    ensures var s := Run(Start(vehicles), events);
      IdTaken(s.agents, id) <==>
        HasId(s.server.telemetry, id) || exists d :: d in s.agents && Q.HasRow(s.agents[d].rows, id)
  {
    RunIsSafe(vehicles, events);
    IdsConserved(Run(Start(vehicles), events), id);
  }

  lemma TakenIsQueuedOrStored(s: System, d: DeviceId, id: SampleId)
    requires Safe(s) && d in s.agents && Q.Collected(s.agents[d], id)
    ensures HasId(s.server.telemetry, id) || Q.HasRow(s.agents[d].rows, id)
  {
    var i :| 0 <= i < |s.agents[d].collected| && s.agents[d].collected[i].id == id;
    var sample := s.agents[d].collected[i];
    QueuedOrStored(s, d, sample);
    if sample in Q.RowSamples(s.agents[d].rows) {
      var k :| 0 <= k < |s.agents[d].rows| && s.agents[d].rows[k].sample == sample;
    } else {
      var row :| row in s.server.telemetry && SameReading(row, d, sample);
    }
  }

  lemma StoredIsTaken(s: System, id: SampleId)
    requires StoredGenuine(s.agents, s.server.telemetry) && HasId(s.server.telemetry, id)
    ensures IdTaken(s.agents, id)
  {
    var i :| 0 <= i < |s.server.telemetry| && s.server.telemetry[i].id == id;
    var row := s.server.telemetry[i];
    assert RowGenuine(s.agents, row);
    var x :| x in s.agents[row.deviceId].collected && SameReading(row, row.deviceId, x);
    assert Q.Collected(s.agents[row.deviceId], id);
  }

  lemma QueuedIsTaken(agent: Q.Agent, id: SampleId)
    requires Q.Held(agent) && Q.HasRow(agent.rows, id)
    ensures Q.Collected(agent, id)
  {
    var k :| 0 <= k < |agent.rows| && agent.rows[k].sample.id == id;
    FilterMembers((x: Sample) => x.id !in agent.acknowledged, agent.collected);
    assert Q.RowSamples(agent.rows)[k] in agent.collected;
  }

  lemma IdsConserved(s: System, id: SampleId)
    requires Safe(s)
    ensures IdTaken(s.agents, id) <==>
      HasId(s.server.telemetry, id) || exists d :: d in s.agents && Q.HasRow(s.agents[d].rows, id)
  {
    if IdTaken(s.agents, id) {
      var d :| d in s.agents && Q.Collected(s.agents[d], id);
      TakenIsQueuedOrStored(s, d, id);
    }
    if HasId(s.server.telemetry, id) {
      StoredIsTaken(s, id);
    }
    if d :| d in s.agents && Q.HasRow(s.agents[d].rows, id) {
      QueuedIsTaken(s.agents[d], id);
    }
  }

  /** No step ever takes a sample out of a queue unless the server has already committed it. */
  lemma {:induction false} RemovalNeedsCommit(vehicles: map<DeviceId, VehicleId>, events: seq<Event>, s: System,
                                              e: Event, device: DeviceId, sample: Sample)
    requires s == Run(Start(vehicles), events)
    requires device in s.agents && device in Next(s, e).agents
    requires sample in Q.RowSamples(s.agents[device].rows)
    requires sample !in Q.RowSamples(Next(s, e).agents[device].rows)
    ensures Holds(s.server.telemetry, device, sample)
  {
    RunIsSafe(vehicles, events);
    StepIsSafe(s, e);
    var agent := s.agents[device];
    assert Q.Held(agent);
    FilterMembers((x: Sample) => x.id !in agent.acknowledged, agent.collected);
    if !HasId(s.server.telemetry, sample.id) {
      UnansweredSampleStays(s, e, device, sample);
    }
    StoredIdIsHeld(s, device, sample);
  }

  lemma NetworkKeepsBoth(s: System, request: Request, response: Response)
    ensures Next(s, RepeatRequest(request)).agents == Next(s, LoseRequest(request)).agents == s.agents
    ensures Next(s, RepeatRequest(request)).server == Next(s, LoseRequest(request)).server == s.server
    ensures Next(s, RepeatResponse(response)).agents == Next(s, LoseResponse(response)).agents == s.agents
    ensures Next(s, RepeatResponse(response)).server == Next(s, LoseResponse(response)).server == s.server
  {}

  lemma SendKeepsBoth(s: System, device: DeviceId)
    ensures Next(s, Send(device)).agents == s.agents && Next(s, Send(device)).server == s.server
  {}

  lemma ServerKeepsAgents(s: System, request: Request, at: int, edit: ServerStep)
    ensures Next(s, Commit(request, at)).agents == s.agents && Next(s, ServerEdit(edit)).agents == s.agents
  {}

  lemma QuietEventKeepsAgents(s: System, e: Event)
    requires !e.Collect? && !e.Acknowledge? && !e.Restart?
    ensures Next(s, e).agents == s.agents
  {
    var none := Request(0, 0, []);
    match e
    case Send(device) => SendKeepsBoth(s, device);
    case Commit(request, at) => ServerKeepsAgents(s, request, at, Batch(0, 0, 0, [], 0));
    case RepeatRequest(request) => NetworkKeepsBoth(s, request, Response(0, []));
    case LoseRequest(request) => NetworkKeepsBoth(s, request, Response(0, []));
    case RepeatResponse(response) => NetworkKeepsBoth(s, none, response);
    case LoseResponse(response) => NetworkKeepsBoth(s, none, response);
    case ServerEdit(edit) => ServerKeepsAgents(s, none, 0, edit);
  }

  lemma AgentKeepsRows(agent: Q.Agent, e: Q.Step)
    requires e.Collect? || e.Restart?
    ensures agent.rows <= Q.After(agent, e).rows
  {}

  lemma OtherEventKeepsRows(s: System, e: Event, device: DeviceId)
    requires device in s.agents && (e.Acknowledge? ==> e.response.device != device)
    ensures device in Next(s, e).agents && s.agents[device].rows <= Next(s, e).agents[device].rows
  {
    if e.Collect? {
      AgentKeepsRows(s.agents[device], Q.Collect(e.reading, e.now, e.written));
    } else if e.Restart? {
      AgentKeepsRows(s.agents[device], Q.Restart(e.newBoot, e.readable));
    } else if e.Acknowledge? {
      assert device in Next(s, e).agents && Next(s, e).agents[device] == s.agents[device];
    } else {
      QuietEventKeepsAgents(s, e);
    }
  }

  lemma UnansweredSampleStays(s: System, e: Event, device: DeviceId, sample: Sample)
    requires AnswersCommitted(s.responses, s.server.telemetry)
    requires device in s.agents && sample in Q.RowSamples(s.agents[device].rows)
    requires !HasId(s.server.telemetry, sample.id)
    ensures device in Next(s, e).agents && sample in Q.RowSamples(Next(s, e).agents[device].rows)
  {
    if e.Acknowledge? && e.response.device == device {
      if e.response in s.responses {
        KeptUnlessListed(s.agents[device].rows, IdSet(e.response.ids), sample);
      }
    } else {
      OtherEventKeepsRows(s, e, device);
      RowsKept(s.agents[device].rows, Next(s, e).agents[device].rows, sample);
    }
  }

  lemma RowsKept(before: Q.Table, after: Q.Table, sample: Sample)
    requires before <= after && sample in Q.RowSamples(before)
    ensures sample in Q.RowSamples(after)
  {
    var i :| 0 <= i < |before| && before[i].sample == sample;
    assert Q.RowSamples(after)[i] == sample;
  }

  lemma KeptUnlessListed(rows: Q.Table, ids: set<SampleId>, sample: Sample)
    requires sample in Q.RowSamples(rows) && sample.id !in ids
    ensures sample in Q.RowSamples(Q.Without(rows, ids))
  {
    Q.WithoutSamples(rows, ids);
    FilterMembers((x: Sample) => x.id !in ids, Q.RowSamples(rows));
  }

  /**
   * The server half of any distributed run is a run of the ingestion service, so everything
   * proved of the service (one trigger per stored id, the current-state row) holds here too.
   */
  lemma {:induction false} ServerRunsIngestion(vehicles: map<DeviceId, VehicleId>, events: seq<Event>)
    ensures exists steps: seq<ServerStep> :: Run(Start(vehicles), events).server == ServedAll(EMPTY_TABLES, steps)
    decreases |events|
  {
    if events == [] {
      assert Start(vehicles).server == ServedAll(EMPTY_TABLES, []);
    } else {
      var before := Run(Start(vehicles), events[..|events| - 1]);
      ServerRunsIngestion(vehicles, events[..|events| - 1]);
      var steps: seq<ServerStep> :| before.server == ServedAll(EMPTY_TABLES, steps);
      ServerStepIsIngestion(before, events[|events| - 1], steps);
    }
  }

  lemma AgentEventKeepsServer(s: System, e: Event)
    requires e.Collect? || e.Acknowledge? || e.Restart?
    ensures Next(s, e).server == s.server
  {
    match e
    case Collect(_, _, _, _) =>
    case Acknowledge(_) =>
    case Restart(_, _, _) =>
  }

  lemma OtherEventKeepsServer(s: System, e: Event)
    requires !e.Commit? && !e.ServerEdit?
    ensures Next(s, e).server == s.server
  {
    var none := Request(0, 0, []);
    match e
    case Send(device) => SendKeepsBoth(s, device);
    case RepeatRequest(request) => NetworkKeepsBoth(s, request, Response(0, []));
    case LoseRequest(request) => NetworkKeepsBoth(s, request, Response(0, []));
    case RepeatResponse(response) => NetworkKeepsBoth(s, none, response);
    case LoseResponse(response) => NetworkKeepsBoth(s, none, response);
    case _ => AgentEventKeepsServer(s, e);
  }

  /** What the server does at a commit or an edit, or nothing when the event is none of its own. */
  ghost function StepOf(s: System, e: Event): Option<ServerStep> {
    match e
    case Commit(request, at) =>
      if request in s.requests && request.device in s.vehicles && Acceptable(request.samples) then
        Some(Batch(request.device, s.vehicles[request.device], request.boot, request.samples, at))
      else None
    case ServerEdit(edit) => if edit.Batch? then None else Some(edit)
    case _ => None
  }

  lemma CommitIsStep(s: System, request: Request, at: int)
    ensures var step := StepOf(s, Commit(request, at));
      Next(s, Commit(request, at)).server == if step.Some? then Served(s.server, step.value) else s.server
  {}

  lemma EventIsStep(s: System, e: Event)
    ensures Next(s, e).server == if StepOf(s, e).Some? then Served(s.server, StepOf(s, e).value) else s.server
  {
    if e.Commit? { CommitIsStep(s, e.request, e.at); }
    else if !e.ServerEdit? { OtherEventKeepsServer(s, e); }
  }

  lemma ServerStepIsIngestion(before: System, e: Event, steps: seq<ServerStep>)
    requires before.server == ServedAll(EMPTY_TABLES, steps)
    ensures exists longer: seq<ServerStep> :: Next(before, e).server == ServedAll(EMPTY_TABLES, longer)
  {
    EventIsStep(before, e);
    if StepOf(before, e).Some? {
      var longer := steps + [StepOf(before, e).value];
      assert longer[..|steps|] == steps;
      assert Next(before, e).server == ServedAll(EMPTY_TABLES, longer);
    }
  }
}
