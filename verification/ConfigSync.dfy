/** The agent's stored configuration, and agents and server kept in step over a lossy network. */
module ConfigSync {
  import opened Prelude
  import opened Samples
  import opened Bits
  import opened Masks
  import opened ConfigServer

  // ------------------------------------------------------------------ the agent's checks

  predicate ValidInterval(interval: Interval) {
    && 1 <= interval.defaultSeconds <= MAX_SECONDS
    // Zero means no separate parked cadence.
    && (interval.parkedSeconds == 0 || 1 <= interval.parkedSeconds <= MAX_SECONDS)
  }

  // Seconds between samples in the state the vehicle is in.
  function Seconds(interval: Interval, inUse: bool): int {
    if !inUse && interval.parkedSeconds > 0 then interval.parkedSeconds else interval.defaultSeconds
  }

  function Longest(interval: Interval): int {
    if interval.parkedSeconds > interval.defaultSeconds then interval.parkedSeconds else interval.defaultSeconds
  }

  // Reading the definition's JSON fails on a number that no float is near to.
  predicate ReadsMask(mask: Option<Mask>) {
    mask.Some? && mask.value.NumberMask? ==> !Overflows(mask.value.n)
  }

  predicate DecodableSignal(signal: AgentSignal) {
    && signal.name != "" && signal.sourceType == "can" && 0 <= signal.canId <= MAX_CAN_ID
    && signal.decoder.dataType in DATA_TYPES && ReadsMask(signal.decoder.mask)
  }

  predicate DecodableComputed(computed: Computed) {
    computed.name != "" && computed.operation == "multiply" && |computed.inputs| == 2
  }

  predicate Decodable(definition: AgentDefinition) {
    && definition.id != ""
    && (forall i :: 0 <= i < |definition.signals| ==> DecodableSignal(definition.signals[i]))
    && (forall i :: 0 <= i < |definition.computed| ==> DecodableComputed(definition.computed[i]))
  }

  predicate Validate(c: Config) {
    && c.version >= 1
    && ValidInterval(c.sampling) && ValidInterval(c.upload)
    && match c.definition
       case Some(definition) => c.profile.Some? && c.profile.value != "" && Decodable(definition)
         && definition.id == c.profile.value
       case None => c.profile.None?
  }

  /** A valid configuration never asks for a wait of zero, and no wait exceeds its longest. */
  lemma ValidCadenceIsBounded(c: Config, inUse: bool)
    requires Validate(c)
    ensures 1 <= Seconds(c.sampling, inUse) <= Longest(c.sampling) <= MAX_SECONDS
    ensures 1 <= Seconds(c.upload, inUse) <= Longest(c.upload) <= MAX_SECONDS
  {}

  /** What the configuration file holds. */
  datatype File = Missing | Unreadable | Holds(config: Config)

  function Loaded(file: File): Option<Config> {
    if file.Holds? && Validate(file.config) then Some(file.config) else None
  }

  function FileAfter(file: File, candidate: Config, writable: bool): File {
    if !Validate(candidate) then file
    else if Loaded(file).Some? && candidate.version <= Loaded(file).value.version then file
    else if writable then Holds(candidate) else file
  }

  function Installed(file: File, candidate: Config, writable: bool): Result<Config> {
    if !Validate(candidate) then Error("invalid configuration")
    else if Loaded(file).Some? && candidate.version < Loaded(file).value.version then
      Error("refusing configuration version rollback")
    else if Loaded(file).Some? && candidate.version == Loaded(file).value.version then Ok(Loaded(file).value)
    else if writable then Ok(candidate) else Error("write failed")
  }

  class ConfigurationStore {
    var file: File

    constructor ()
      ensures file == Missing
    {
      file := Missing;
    }

    method Load() returns (result: Result<Config>)
      ensures result.Ok? <==> Loaded(file).Some?
      ensures result.Ok? ==> result.value == Loaded(file).value
    {
      if !file.Holds? { return Error("cannot load last-known-good configuration"); }
      if !Validate(file.config) { return Error("cannot load last-known-good configuration"); }
      result := Ok(file.config);
    }

    // The write replaces the file whole or, when the disk refuses, not at all.
    method InstallIfNewer(candidate: Config, writable: bool) returns (result: Result<Config>)
      modifies this
      ensures file == FileAfter(old(file), candidate, writable)
      ensures result == Installed(old(file), candidate, writable)
    {
      if !Validate(candidate) { return Error("invalid configuration"); }
      var current := Load();
      if current.Ok? {
        if candidate.version < current.value.version {
          return Error("refusing configuration version rollback");
        }
        if candidate.version == current.value.version { return current; }
      }
      if !writable { return Error("write failed"); }
      file := Holds(candidate);
      result := Ok(candidate);
    }
  }

  /** A successful install leaves what it returned in the file, and its version never falls. */
  lemma InstallIsMonotone(file: File, candidate: Config, writable: bool)
    ensures Installed(file, candidate, writable).Ok? ==>
      Loaded(FileAfter(file, candidate, writable)) == Some(Installed(file, candidate, writable).value)
    ensures Installed(file, candidate, writable).Error? ==> FileAfter(file, candidate, writable) == file
    ensures Loaded(file).Some? ==>
      && Loaded(FileAfter(file, candidate, writable)).Some?
      && Loaded(FileAfter(file, candidate, writable)).value.version >= Loaded(file).value.version
  {}

  // ------------------------------------------------------------------ server and agent agree on validity

  /** A mask that is a text, or an integer less than half a last place below 2^1024 in size. */
  predicate MaskInReach(mask: Option<Mask>) {
    mask.Some? && mask.value.NumberMask? ==>
      var limit := Pow2(FLOAT_BITS) - Pow2(FLOAT_BITS - 54);
      -limit < mask.value.n < limit
  }

  /** The vehicle's profile is not the empty string, and its masks are in reach. */
  predicate Acceptable(c: Config) {
    && c.profile != Some("")
    && (c.definition.Some? ==>
          forall i :: 0 <= i < |c.definition.value.signals| ==> MaskInReach(c.definition.value.signals[i].decoder.mask))
  }

  lemma ReadsMasksInReach(mask: Option<Mask>)
    ensures ReadsMask(mask) <==> MaskInReach(mask)
  {
    if mask.Some? && mask.value.NumberMask? { LargestAt(mask.value.n, FLOAT_BITS); }
  }

  /** A cadence of one second to a day; zero stands for no cadence of its own while parked. */
  predicate IsCadence(interval: Interval) {
    && interval.defaultSeconds >= 1 && interval.defaultSeconds <= 86400
    && interval.parkedSeconds >= 0 && interval.parkedSeconds <= 86400
  }

  /** A definition that the agent's decoder can be built from. */
  predicate CanBeBuilt(definition: AgentDefinition) {
    && (forall signal :: signal in definition.signals ==>
          && |signal.name| > 0 && signal.sourceType == "can" && signal.canId >= 0 && signal.canId <= 536870911
          && signal.decoder.dataType in
               {"uint8", "uint16", "uint32", "int8", "int16", "int32", "bytes", "boolean"}
          && MaskInReach(signal.decoder.mask))
    && (forall computed :: computed in definition.computed ==>
          |computed.name| > 0 && computed.operation == "multiply" && |computed.inputs| == 2)
  }

  /** What an agent takes from a server, one condition a line. */
  predicate Takes(c: Config) {
    && c.version > 0
    && IsCadence(c.sampling) && IsCadence(c.upload)
    && (c.profile.None? <==> c.definition.None?)
    && (c.profile.Some? ==> |c.profile.value| > 0)
    && (c.profile.Some? && c.definition.Some? ==>
          c.definition.value.id == c.profile.value && CanBeBuilt(c.definition.value))
  }

  lemma ValidIsTaken(c: Config)
    ensures Validate(c) <==> Takes(c)
  {
    if c.definition.Some? {
      var signals, computed := c.definition.value.signals, c.definition.value.computed;
      forall i | 0 <= i < |signals|
        ensures ReadsMask(signals[i].decoder.mask) <==> MaskInReach(signals[i].decoder.mask)
      {
        ReadsMasksInReach(signals[i].decoder.mask);
      }
      assert forall i :: 0 <= i < |signals| ==> signals[i] in signals;
      assert forall i :: 0 <= i < |computed| ==> computed[i] in computed;
    }
  }

  /**
   * Of a configuration that the agent takes, an older version than the stored one is refused, the same
   * version gives what is stored, and a newer one replaces it if the disk lets it; nothing else
   * changes the file.
   */
  lemma InstallIsExact(file: File, c: Config, writable: bool)
    ensures var stored := file.Holds? && Takes(file.config);
      && (Installed(file, c, writable).Ok? <==>
          Takes(c) && if stored && c.version <= file.config.version then c.version == file.config.version else writable)
      && (Installed(file, c, writable).Ok? && stored && c.version == file.config.version ==>
            Installed(file, c, writable).value == file.config)
      && (Installed(file, c, writable).Ok? && (stored ==> c.version > file.config.version) ==>
            Installed(file, c, writable).value == c)
      && FileAfter(file, c, writable) ==
         if Takes(c) && writable && (stored ==> c.version > file.config.version) then Holds(c) else file
  {
    ValidIsTaken(c);
    if file.Holds? { ValidIsTaken(file.config); }
  }

  /** Of what the server's schema admits, the agent's checks leave only the mask to decide. */
  lemma AdmittedSignalsDecode(definition: Definition)
    requires ValidParts(definition.signals, definition.computed) && definition.id != ""
    ensures var projected := ForAgent(definition);
      Decodable(projected) <==>
        forall i :: 0 <= i < |projected.signals| ==> MaskInReach(projected.signals[i].decoder.mask)
  {
    var projected := ForAgent(definition);
    forall i | 0 <= i < |projected.signals|
      ensures DecodableSignal(projected.signals[i]) <==> MaskInReach(projected.signals[i].decoder.mask)
    {
      assert ValidSignal(definition.signals[i]);
      ReadsMasksInReach(projected.signals[i].decoder.mask);
    }
    forall i | 0 <= i < |projected.computed| ensures DecodableComputed(projected.computed[i]) {
      assert ValidComputed(definition.computed[i]);
    }
  }

  /**
   * Of a well-formed server, a device is served a configuration its agent accepts exactly when the
   * profile is not the empty string, which the selection endpoint lets through, and none of the
   * profile's numeric masks, which the schema does not bound, is beyond the floats.
   */
  lemma ServedConfigIsValid(t: Tables, d: DeviceId)
    requires SoundTables(t) && d in t.devices
    ensures Validate(DeviceConfig(t, d)) <==> Acceptable(DeviceConfig(t, d))
  {
    var device := t.devices[d];
    var profile := t.vehicles[device.vehicle];
    assert Selectable(t, profile);
    if profile.Some? && profile.value != "" {
      var definition := if profile.value in t.builtIns then t.builtIns[profile.value] else t.profiles[profile.value];
      assert SoundDefinition(profile.value, definition);
      AdmittedSignalsDecode(definition);
    }
  }

  /** The refused case is reachable: assigning the empty profile is accepted by the server. */
  lemma EmptyProfileIsServedInvalid(t: Tables, d: DeviceId)
    requires SoundTables(t) && d in t.devices
    ensures var after := Edited(t, AssignProfile(t.devices[d].vehicle, Some("")));
      d in after.devices && !Validate(DeviceConfig(after, d))
  {
    var after := Edited(t, AssignProfile(t.devices[d].vehicle, Some("")));
    EditKeepsSound(t, AssignProfile(t.devices[d].vehicle, Some("")));
    ServedConfigIsValid(after, d);
  }

  /** A signal whose mask is the integer 2^1024. */
  function HugeMask(): Signal {
    var mask := NumberMask(Pow2(FLOAT_BITS));
    Signal(AgentSignal("speed", "can", 0, Layout(0, "uint8", "big", None, false, None, Some(mask), None, 0), 0), "")
  }

  lemma HugeMaskIsOutOfReach()
    ensures ValidSignal(HugeMask()) && !MaskInReach(HugeMask().decoding.decoder.mask)
  {}

  /** With this profile created and assigned, the device is served it. */
  lemma HugeMaskIsServed(t: Tables, d: DeviceId, id: ProfileId, write: ProfileWrite)
    requires SoundTables(t) && d in t.devices && id != "" && id !in t.profiles && id !in t.builtIns
    requires write.signals == [HugeMask()] && ValidParts(write.signals, write.computed)
    ensures var after := Edited(Edited(t, CreateProfile(id, write)), AssignProfile(t.devices[d].vehicle, Some(id)));
      && d in after.devices && SoundTables(after) && after.devices[d].vehicle in after.vehicles
      && DeviceConfig(after, d).profile == Some(id)
      && DeviceConfig(after, d).definition == Some(ForAgent(Written(id, write, 1)))
  {
    var created := Edited(t, CreateProfile(id, write));
    EditKeepsSound(t, CreateProfile(id, write));
    assert t.vehicles[t.devices[d].vehicle] != Some(id) by { assert Selectable(t, t.vehicles[t.devices[d].vehicle]); }
    EditKeepsSound(created, AssignProfile(t.devices[d].vehicle, Some(id)));
  }

  /** The other refused case is reachable too: the schema admits the mask, and the agent cannot read it. */
  lemma HugeMaskIsServedInvalid(t: Tables, d: DeviceId, id: ProfileId)
    requires SoundTables(t) && d in t.devices && id != "" && id !in t.profiles && id !in t.builtIns
    ensures var write := ProfileWrite("p", "", [HugeMask()], []);
      var after := Edited(Edited(t, CreateProfile(id, write)), AssignProfile(t.devices[d].vehicle, Some(id)));
      d in after.devices && after.devices[d].vehicle in after.vehicles && !Validate(DeviceConfig(after, d))
  {
    var write := ProfileWrite("p", "", [HugeMask()], []);
    HugeMaskIsOutOfReach();
    HugeMaskIsServed(t, d, id, write);
    var after := Edited(Edited(t, CreateProfile(id, write)), AssignProfile(t.devices[d].vehicle, Some(id)));
    ServedConfigIsValid(after, d);
    assert ForAgent(Written(id, write, 1)).signals[0] == HugeMask().decoding;
  }

  // ------------------------------------------------------------------ what is set reaches the agent

  /** A cadence set on the server is the cadence the agent waits, in use and parked. */
  lemma CadenceReachesAgent(t: Tables, d: DeviceId, name: string, cadence: Cadence, inUse: bool)
    requires SoundTables(t) && d in t.devices && ValidCadence(cadence)
    ensures var after := Edited(t, UpdateDevice(d, name, cadence));
      && d in after.devices && after.devices[d].vehicle in after.vehicles
      && var c := DeviceConfig(after, d);
         && Seconds(c.sampling, inUse) == (if inUse then cadence.sampling else cadence.parkedSampling)
         && Seconds(c.upload, inUse) == (if inUse then cadence.upload else cadence.parkedUpload)
  {
    EditKeepsSound(t, UpdateDevice(d, name, cadence));
  }

  /**
   * A profile edit reaches every device of every vehicle that uses the profile, under its own id,
   * signal by signal and without what only people read; every other device is served as before.
   */
  lemma ProfileReachesAgents(t: Tables, d: DeviceId, id: ProfileId, data: ProfileWrite)
    requires SoundTables(t) && d in t.devices && id in t.profiles && id !in t.builtIns && id != ""
    requires ValidParts(data.signals, data.computed)
    ensures var after := Edited(t, UpdateProfile(id, data));
      && d in after.devices && after.devices[d].vehicle in after.vehicles
      && var c := DeviceConfig(after, d);
         if t.vehicles[t.devices[d].vehicle] == Some(id) then
           && c.version == t.devices[d].version + 1 && c.profile == Some(id)
           && c.definition.Some? && c.definition.value.id == id && c.definition.value.computed == data.computed
           && |c.definition.value.signals| == |data.signals|
           && forall i :: 0 <= i < |data.signals| ==> c.definition.value.signals[i] == data.signals[i].decoding
         else c == DeviceConfig(t, d)
  {
    EditKeepsSound(t, UpdateProfile(id, data));
    var after := Edited(t, UpdateProfile(id, data));
    if t.vehicles[t.devices[d].vehicle] != Some(id) {
      SameInputsSameConfig(t, after, d);
    }
  }

  // ------------------------------------------------------------------ runs

  datatype Message = Message(device: DeviceId, config: Config)

  datatype System = System(
    history: seq<Tables>,               // every server state so far, the current one last
    files: map<DeviceId, File>,         // each agent's configuration file
    inFlight: multiset<Message>)

  datatype Event =
    | EditServer(edit: Edit)
    | Fetch(device: DeviceId)           // the server answers an agent's request (or an enrolment)
    | Deliver(message: Message, writable: bool)
    | Repeat(again: Message)
    | Lose(lost: Message)

  function Current(s: System): Tables
    requires s.history != []
  {
    s.history[|s.history| - 1]
  }

  function FileOf(s: System, d: DeviceId): File {
    if d in s.files then s.files[d] else Missing
  }

  function Next(s: System, e: Event): System
    requires s.history != []
  {
    match e
    case EditServer(edit) => s.(history := s.history + [Edited(Current(s), edit)])
    case Fetch(d) =>
      if d in Current(s).devices && Current(s).devices[d].vehicle in Current(s).vehicles then
        s.(inFlight := s.inFlight + multiset{Message(d, DeviceConfig(Current(s), d))})
      else s
    case Deliver(m, writable) =>
      if m in s.inFlight then
        s.(files := s.files[m.device := FileAfter(FileOf(s, m.device), m.config, writable)],
           inFlight := s.inFlight - multiset{m})
      else s
    case Repeat(m) => if m in s.inFlight then s.(inFlight := s.inFlight + multiset{m}) else s
    case Lose(m) => s.(inFlight := s.inFlight - multiset{m})
  }

  function Run(start: Tables, events: seq<Event>): (s: System)
    ensures s.history != []
    decreases |events|
  {
    if events == [] then System([start], map[], multiset{})
    else Next(Run(start, events[..|events| - 1]), events[|events| - 1])
  }

  /** State `i` of the history served this content to this device. */
  ghost predicate ServedAt(history: seq<Tables>, i: int, d: DeviceId, c: Config) {
    && 0 <= i < |history| && d in history[i].devices && history[i].devices[d].vehicle in history[i].vehicles
    && DeviceConfig(history[i], d) == c
  }

  ghost predicate WasServed(history: seq<Tables>, d: DeviceId, c: Config) {
    exists i :: ServedAt(history, i, d, c)
  }

  ghost predicate Linked(history: seq<Tables>) {
    && |history| >= 1 && SoundTables(history[0])
    && forall i :: 0 <= i < |history| - 1 ==> Link(history, i)
  }

  ghost predicate Link(history: seq<Tables>, i: int)
    requires 0 <= i < |history| - 1
  {
    OneEdit(history[i], history[i + 1])
  }

  ghost predicate OneEdit(t: Tables, u: Tables) {
    exists e: Edit :: u == Edited(t, e)
  }

  ghost predicate MessagesServed(history: seq<Tables>, inFlight: multiset<Message>) {
    forall m :: m in inFlight ==> WasServed(history, m.device, m.config)
  }

  ghost predicate FilesServed(history: seq<Tables>, files: map<DeviceId, File>) {
    forall d :: d in files ==>
      && !files[d].Unreadable?
      && (files[d].Holds? ==> WasServed(history, d, files[d].config) && Validate(files[d].config))
  }

  ghost predicate Faithful(s: System) {
    && Linked(s.history)
    && MessagesServed(s.history, s.inFlight)
    && FilesServed(s.history, s.files)
  }

  lemma LongerHistoryServes(history: seq<Tables>, t: Tables, d: DeviceId, c: Config)
    requires WasServed(history, d, c)
    ensures WasServed(history + [t], d, c)
  {
    var i :| ServedAt(history, i, d, c);
    assert ServedAt(history + [t], i, d, c);
  }

  lemma LinkedGrows(history: seq<Tables>, e: Edit)
    requires Linked(history)
    ensures Linked(history + [Edited(history[|history| - 1], e)])
  {
    var longer := history + [Edited(history[|history| - 1], e)];
    forall i | 0 <= i < |longer| - 1 ensures Link(longer, i) {
      if i < |history| - 1 {
        assert Link(history, i);
      }
    }
  }

  lemma EditIsFaithful(s: System, edit: Edit)
    requires Faithful(s)
    ensures Faithful(Next(s, EditServer(edit)))
  {
    var t := Edited(Current(s), edit);
    LinkedGrows(s.history, edit);
    forall m | m in s.inFlight ensures WasServed(s.history + [t], m.device, m.config) {
      LongerHistoryServes(s.history, t, m.device, m.config);
    }
    forall d | d in s.files && s.files[d].Holds? ensures WasServed(s.history + [t], d, s.files[d].config) {
      LongerHistoryServes(s.history, t, d, s.files[d].config);
    }
  }

  lemma FetchIsFaithful(s: System, d: DeviceId)
    requires Faithful(s)
    ensures Faithful(Next(s, Fetch(d)))
  {
    if d in Current(s).devices && Current(s).devices[d].vehicle in Current(s).vehicles {
      assert ServedAt(s.history, |s.history| - 1, d, DeviceConfig(Current(s), d));
    }
  }

  lemma DeliverIsFaithful(s: System, m: Message, writable: bool)
    requires Faithful(s)
    ensures Faithful(Next(s, Deliver(m, writable)))
  {
    var next := Next(s, Deliver(m, writable));
    if m in s.inFlight {
      var file := FileAfter(FileOf(s, m.device), m.config, writable);
      assert WasServed(s.history, m.device, m.config);
      assert file == FileOf(s, m.device) || (file == Holds(m.config) && Validate(m.config));
    }
  }

  lemma StepIsFaithful(s: System, e: Event)
    requires Faithful(s)
    ensures Faithful(Next(s, e))
  {
    match e
    case EditServer(edit) => EditIsFaithful(s, edit);
    case Fetch(d) => FetchIsFaithful(s, d);
    case Deliver(m, writable) => DeliverIsFaithful(s, m, writable);
    case Repeat(m) =>
    case Lose(m) =>
  }

  lemma {:induction false} RunIsFaithful(start: Tables, events: seq<Event>)
    requires SoundTables(start)
    ensures Faithful(Run(start, events))
    decreases |events|
  {
    if events != [] {
      RunIsFaithful(start, events[..|events| - 1]);
      StepIsFaithful(Run(start, events[..|events| - 1]), events[|events| - 1]);
    }
  }

  lemma {:induction false} HistoryIsSound(history: seq<Tables>, i: nat)
    requires Linked(history) && i < |history|
    ensures SoundTables(history[i])
  {
    if i > 0 {
      HistoryIsSound(history, i - 1);
      assert Link(history, i - 1);
      var e: Edit :| history[i] == Edited(history[i - 1], e);
      EditKeepsSound(history[i - 1], e);
    }
  }

  /** `u` follows `t` for a device: its version has not fallen, and if equal so is the content. */
  ghost predicate Follows(t: Tables, u: Tables, d: DeviceId) {
    && d in t.devices && t.devices[d].vehicle in t.vehicles
    && d in u.devices && u.devices[d].vehicle in u.vehicles
    && t.devices[d].version <= u.devices[d].version
    && (t.devices[d].version == u.devices[d].version ==> DeviceConfig(t, d) == DeviceConfig(u, d))
  }

  lemma FollowsItself(t: Tables, d: DeviceId)
    requires SoundTables(t) && d in t.devices
    ensures Follows(t, t, d) && d in t.enrolled
  {}

  lemma LinkFollows(t: Tables, u: Tables, d: DeviceId)
    requires SoundTables(t) && OneEdit(t, u) && d in t.enrolled && d in u.devices
    ensures Follows(t, u, d)
  {
    var e: Edit :| u == Edited(t, e);
    EditNeverReenrolls(t, e, d);
    EditBumps(t, e, d);
  }

  /** Two states of one history, in order: versions do not fall, and equal versions mean equal content. */
  lemma {:induction false} HistoryVersions(history: seq<Tables>, i: nat, j: nat, d: DeviceId)
    requires Linked(history) && i <= j < |history| && d in history[i].devices && d in history[j].devices
    ensures Follows(history[i], history[j], d)
    decreases j - i
  {
    HistoryIsSound(history, i);
    FollowsItself(history[i], d);
    if i < j {
      HistoryEnrolled(history, i, j - 1);
      LastLinkFollows(history, j, d);
      HistoryVersions(history, i, j - 1, d);
    }
  }

  lemma LastLinkFollows(history: seq<Tables>, j: nat, d: DeviceId)
    requires Linked(history) && 0 < j < |history| && d in history[j - 1].enrolled && d in history[j].devices
    ensures Follows(history[j - 1], history[j], d)
  {
    HistoryIsSound(history, j - 1);
    assert Link(history, j - 1);
    LinkFollows(history[j - 1], history[j], d);
  }

  lemma {:induction false} HistoryEnrolled(history: seq<Tables>, i: nat, j: nat)
    requires Linked(history) && i <= j < |history|
    ensures history[i].enrolled <= history[j].enrolled
    decreases j - i
  {
    if i < j {
      HistoryEnrolled(history, i, j - 1);
      assert Link(history, j - 1);
    }
  }

  lemma OneContentPerVersion(history: seq<Tables>, d: DeviceId, a: Config, b: Config)
    requires Linked(history) && WasServed(history, d, a) && WasServed(history, d, b) && a.version == b.version
    ensures a == b
  {
    var i: nat :| ServedAt(history, i, d, a);
    var j: nat :| ServedAt(history, j, d, b);
    if i <= j { HistoryVersions(history, i, j, d); } else { HistoryVersions(history, j, i, d); }
  }

  lemma ServedIsNotAhead(history: seq<Tables>, d: DeviceId, c: Config)
    requires Linked(history) && WasServed(history, d, c) && d in history[|history| - 1].devices
    ensures c.version <= history[|history| - 1].devices[d].version
  {
    var i: nat :| ServedAt(history, i, d, c);
    HistoryVersions(history, i, |history| - 1, d);
  }

  lemma StoredVersionKept(s: System, e: Event, d: DeviceId)
    requires Faithful(s) && FileOf(s, d).Holds?
    ensures FileOf(Next(s, e), d).Holds?
    ensures FileOf(Next(s, e), d).config.version >= FileOf(s, d).config.version
  {
    if e.Deliver? && e.message in s.inFlight && e.message.device == d {
      InstallIsMonotone(FileOf(s, d), e.message.config, e.writable);
    }
  }

  lemma StoredWasServed(s: System, d: DeviceId)
    requires Faithful(s) && FileOf(s, d).Holds?
    ensures WasServed(s.history, d, FileOf(s, d).config)
  {}

  lemma StoredMatchesVersion(history: seq<Tables>, d: DeviceId, c: Config, i: nat)
    requires Linked(history) && WasServed(history, d, c)
    requires i < |history| && d in history[i].devices && history[i].devices[d].version == c.version
    ensures ServedAt(history, i, d, c)
  {
    HistoryIsSound(history, i);
    FollowsItself(history[i], d);
    assert ServedAt(history, i, d, DeviceConfig(history[i], d));
    OneContentPerVersion(history, d, c, DeviceConfig(history[i], d));
  }

  lemma CurrentAnswerIsValid(history: seq<Tables>, d: DeviceId, c: Config)
    requires Linked(history) && ServedAt(history, |history| - 1, d, c) && Acceptable(c)
    ensures Validate(c)
  {
    HistoryIsSound(history, |history| - 1);
    ServedConfigIsValid(history[|history| - 1], d);
  }

  lemma CurrentAnswerInstalls(history: seq<Tables>, file: File, d: DeviceId, c: Config)
    requires Linked(history) && ServedAt(history, |history| - 1, d, c) && Validate(c)
    requires file.Holds? ==> WasServed(history, d, file.config)
    ensures FileAfter(file, c, true) == Holds(c)
  {
    if file.Holds? {
      ServedIsNotAhead(history, d, file.config);
      if file.config.version == c.version { OneContentPerVersion(history, d, file.config, c); }
    }
  }

  lemma SyncInstallsAnswer(s: System, d: DeviceId, c: Config)
    requires Faithful(s) && ServedAt(s.history, |s.history| - 1, d, c)
    requires Message(d, c) in s.inFlight && Acceptable(c)
    ensures FileOf(Next(s, Deliver(Message(d, c), true)), d) == Holds(c)
  {
    CurrentAnswerIsValid(s.history, d, c);
    if FileOf(s, d).Holds? { StoredWasServed(s, d); }
    CurrentAnswerInstalls(s.history, FileOf(s, d), d, c);
  }

  // ------------------------------------------------------------------ main results

  /**
   * In every run, whatever an agent has stored was served to it, and is exactly what the
   * server serves that device in any state, past or present, that carries the same version.
   */
  lemma {:induction false} StoredIsWhatThatVersionServes(start: Tables, events: seq<Event>, d: DeviceId)
    requires SoundTables(start)
    ensures var s := Run(start, events);
      FileOf(s, d).Holds? ==>
        && WasServed(s.history, d, FileOf(s, d).config)
        && ServesWhatIsStored(s.history, d, FileOf(s, d).config)
  {
    var s := Run(start, events);
    RunIsFaithful(start, events);
    if FileOf(s, d).Holds? {
      StoredWasServed(s, d);
      forall i: nat | i < |s.history| && d in s.history[i].devices
          && s.history[i].devices[d].version == FileOf(s, d).config.version
        ensures ServedAt(s.history, i, d, FileOf(s, d).config)
      {
        StoredMatchesVersion(s.history, d, FileOf(s, d).config, i);
      }
    }
  }

  /** Every state that carries this configuration's version serves this configuration. */
  ghost predicate ServesWhatIsStored(history: seq<Tables>, d: DeviceId, c: Config) {
    forall i: nat :: i < |history| && d in history[i].devices && history[i].devices[d].version == c.version
      ==> ServedAt(history, i, d, c)
  }

  /** No event makes an agent's stored version fall, however late a response arrives. */
  lemma {:induction false} StoredVersionNeverFalls(start: Tables, events: seq<Event>, e: Event, d: DeviceId)
    requires SoundTables(start)
    ensures var s := Run(start, events);
      FileOf(s, d).Holds? ==>
        FileOf(Next(s, e), d).Holds? && FileOf(Next(s, e), d).config.version >= FileOf(s, d).config.version
  {
    var s := Run(start, events);
    RunIsFaithful(start, events);
    if FileOf(s, d).Holds? { StoredVersionKept(s, e, d); }
  }

  /** A sync with the server's present answer makes agent and server equal. */
  lemma SyncMakesEqual(start: Tables, events: seq<Event>, s: System, d: DeviceId, c: Config)
    requires SoundTables(start) && s == Run(start, events)
    requires ServedAt(s.history, |s.history| - 1, d, c)
    requires Message(d, c) in s.inFlight && Acceptable(c)
    ensures FileOf(Next(s, Deliver(Message(d, c), true)), d) == Holds(c)
  {
    RunIsFaithful(start, events);
    SyncInstallsAnswer(s, d, c);
  }
}
