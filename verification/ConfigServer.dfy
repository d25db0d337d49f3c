/**
 * The configuration each device is served: cadence, assigned profile and the profile's
 * definition, under a per-device version number that server edits bump.
 */
module ConfigServer {
  import opened Prelude
  import opened Samples
  import opened Masks

  type ProfileId = string

  /** Where a value is in the payload; `details` stands for its scale, offset and enumeration. */
  datatype Layout = Layout(
    byteOffset: int, dataType: string, endianness: string, length: Option<int>, signed: bool,
    bit: Option<int>, mask: Option<Mask>, shift: Option<int>, details: nat)

  /** What a decoder reads of a signal; `details` stands for its unit and bounds. */
  datatype AgentSignal = AgentSignal(name: string, sourceType: string, canId: int, decoder: Layout, details: nat)

  datatype Signal = Signal(decoding: AgentSignal, displayName: string)

  datatype Computed = Computed(name: string, operation: string, inputs: seq<string>, details: nat)

  datatype Definition = Definition(
    id: ProfileId, name: string, description: string, version: nat,
    signals: seq<Signal>, computed: seq<Computed>)

  datatype AgentDefinition = AgentDefinition(id: ProfileId, signals: seq<AgentSignal>, computed: seq<Computed>)

  datatype ProfileWrite = ProfileWrite(name: string, description: string, signals: seq<Signal>, computed: seq<Computed>)

  datatype Interval = Interval(defaultSeconds: int, parkedSeconds: int)

  datatype Config = Config(
    version: int, sampling: Interval, upload: Interval,
    profile: Option<ProfileId>, definition: Option<AgentDefinition>)

  datatype Cadence = Cadence(sampling: int, upload: int, parkedSampling: int, parkedUpload: int)

  datatype Device = Device(vehicle: VehicleId, name: string, cadence: Cadence, version: int)

  datatype Tables = Tables(
    devices: map<DeviceId, Device>,
    vehicles: map<VehicleId, Option<ProfileId>>,
    profiles: map<ProfileId, Definition>,
    builtIns: map<ProfileId, Definition>,
    enrolled: set<DeviceId>)             // every device id ever issued

  const DATA_TYPES := {"uint8", "uint16", "uint32", "int8", "int16", "int32", "bytes", "boolean"}
  const MAX_CAN_ID := 0x1fffffff
  const MAX_SECONDS := 86400

  // ------------------------------------------------------------------ the server's schema

  predicate InName(c: char) {
    'a' <= c <= 'z' || '0' <= c <= '9' || c == '_' || c == '.' || c == '-'
  }

  // ^[a-z][a-z0-9_.-]*$, up to 120 characters.
  predicate MetricName(name: string) {
    1 <= |name| <= 120 && 'a' <= name[0] <= 'z' && forall i :: 0 <= i < |name| ==> InName(name[i])
  }

  predicate Within(value: Option<int>, low: int, high: int) {
    value.Some? ==> low <= value.value <= high
  }

  // A mask is any integer, or any text.
  predicate ValidLayout(layout: Layout) {
    && layout.dataType in DATA_TYPES && layout.endianness in {"big", "little"}
    && 0 <= layout.byteOffset <= 63 && Within(layout.length, 1, 64) && Within(layout.bit, 0, 7)
    && Within(layout.shift, 0, 63)
  }

  predicate ValidSignal(signal: Signal) {
    && MetricName(signal.decoding.name) && signal.decoding.sourceType == "can"
    && 0 <= signal.decoding.canId <= MAX_CAN_ID && ValidLayout(signal.decoding.decoder) && |signal.displayName| <= 120
  }

  predicate ValidComputed(computed: Computed) {
    MetricName(computed.name) && computed.operation == "multiply" && |computed.inputs| == 2
  }

  predicate ValidParts(signals: seq<Signal>, computed: seq<Computed>) {
    && 1 <= |signals| <= 100 && |computed| <= 50
    && (forall i :: 0 <= i < |signals| ==> ValidSignal(signals[i]))
    && (forall i :: 0 <= i < |computed| ==> ValidComputed(computed[i]))
  }

  predicate ValidCadence(c: Cadence) {
    && 1 <= c.sampling <= MAX_SECONDS && 1 <= c.upload <= MAX_SECONDS
    && 1 <= c.parkedSampling <= MAX_SECONDS && 1 <= c.parkedUpload <= MAX_SECONDS
  }

  function ForAgent(definition: Definition): AgentDefinition {
    AgentDefinition(definition.id,
      seq(|definition.signals|, i requires 0 <= i < |definition.signals| => definition.signals[i].decoding),
      definition.computed)
  }

  function ProfileDefinition(t: Tables, profile: Option<ProfileId>): Option<AgentDefinition> {
    if profile == None || profile.value == "" then None
    else if profile.value in t.builtIns then Some(ForAgent(t.builtIns[profile.value]))
    else if profile.value in t.profiles then Some(ForAgent(t.profiles[profile.value]))
    else None
  }

  function DeviceConfig(t: Tables, d: DeviceId): Config
    requires d in t.devices && t.devices[d].vehicle in t.vehicles
  {
    var device := t.devices[d];
    var profile := t.vehicles[device.vehicle];
    Config(device.version,
           Interval(device.cadence.sampling, device.cadence.parkedSampling),
           Interval(device.cadence.upload, device.cadence.parkedUpload),
           profile, ProfileDefinition(t, profile))
  }

  // ------------------------------------------------------------------ what is served, field by field

  /** What agents are sent of a definition: its id, its computed metrics and how to decode each signal. */
  predicate Projects(served: AgentDefinition, stored: Definition) {
    && served.id == stored.id && served.computed == stored.computed && |served.signals| == |stored.signals|
    && forall i :: 0 <= i < |stored.signals| ==> served.signals[i] == stored.signals[i].decoding
  }

  predicate ServesRow(device: Device, choice: Option<ProfileId>, c: Config) {
    && c.version == device.version && c.profile == choice
    && c.sampling == Interval(device.cadence.sampling, device.cadence.parkedSampling)
    && c.upload == Interval(device.cadence.upload, device.cadence.parkedUpload)
  }

  /** A shipped profile is served before a stored one of the same id, and no profile without an id. */
  predicate ServesChoice(t: Tables, choice: Option<ProfileId>, served: Option<AgentDefinition>) {
    match choice
    case None => served == None
    case Some(id) =>
      if id != "" && id in t.builtIns then served.Some? && Projects(served.value, t.builtIns[id])
      else if id != "" && id in t.profiles then served.Some? && Projects(served.value, t.profiles[id])
      else served == None
  }

  /** A device is served its own row, its vehicle's choice and that profile, signal by signal. */
  lemma ServedFieldByField(t: Tables, d: DeviceId)
    requires d in t.devices && t.devices[d].vehicle in t.vehicles
    ensures ServesRow(t.devices[d], t.vehicles[t.devices[d].vehicle], DeviceConfig(t, d))
    ensures ServesChoice(t, t.vehicles[t.devices[d].vehicle], DeviceConfig(t, d).definition)
  {}

  // ------------------------------------------------------------------ edits

  datatype Edit =
    | AddVehicle(vehicle: VehicleId, profile: Option<ProfileId>)
    | RemoveVehicle(vehicle: VehicleId)
    | Enroll(device: DeviceId, vehicle: VehicleId, name: string, cadence: Cadence)
    | RemoveDevice(device: DeviceId)
    | UpdateDevice(device: DeviceId, name: string, cadence: Cadence)
    | CreateProfile(id: ProfileId, data: ProfileWrite)
    | UpdateProfile(id: ProfileId, data: ProfileWrite)
    | DeleteProfile(id: ProfileId)
    | AssignProfile(vehicle: VehicleId, profile: Option<ProfileId>)

  function Written(id: ProfileId, data: ProfileWrite, version: nat): Definition {
    Definition(id, data.name, data.description, version, data.signals, data.computed)
  }

  // UPDATE devices SET config_version = config_version + 1 for the devices of some vehicles.
  function Bumped(devices: map<DeviceId, Device>, vehicles: set<VehicleId>): map<DeviceId, Device> {
    map d | d in devices ::
      if devices[d].vehicle in vehicles then devices[d].(version := devices[d].version + 1) else devices[d]
  }

  function Assigned(t: Tables, id: ProfileId): set<VehicleId> {
    set v | v in t.vehicles && t.vehicles[v] == Some(id)
  }

  // A profile may be selected when it is absent, empty, or resolves to a definition.
  predicate Selectable(t: Tables, profile: Option<ProfileId>) {
    profile == None || profile.value == "" || ProfileDefinition(t, profile) != None
  }

  function Edited(t: Tables, e: Edit): Tables {
    match e
    case AddVehicle(v, profile) =>
      if v in t.vehicles || !Selectable(t, profile) then t else t.(vehicles := t.vehicles[v := profile])
    case RemoveVehicle(v) =>
      t.(vehicles := t.vehicles - {v}, devices := map d | d in t.devices && t.devices[d].vehicle != v :: t.devices[d])
    case Enroll(d, v, name, cadence) =>
      if d in t.enrolled || v !in t.vehicles || !ValidCadence(cadence) then t
      else t.(devices := t.devices[d := Device(v, name, cadence, 1)], enrolled := t.enrolled + {d})
    case RemoveDevice(d) => t.(devices := t.devices - {d})
    case UpdateDevice(d, name, cadence) =>
      if d !in t.devices || !ValidCadence(cadence) then t
      else
        var device := t.devices[d];
        t.(devices := t.devices[d := Device(device.vehicle, name, cadence,
             if device.cadence != cadence then device.version + 1 else device.version)])
    case CreateProfile(id, data) =>
      if id == "" || id in t.builtIns || id in t.profiles || !ValidParts(data.signals, data.computed) then t
      else t.(profiles := t.profiles[id := Written(id, data, 1)])
    case UpdateProfile(id, data) =>
      if id in t.builtIns || id !in t.profiles || !ValidParts(data.signals, data.computed) then t
      else t.(profiles := t.profiles[id := Written(id, data, t.profiles[id].version + 1)],
              devices := Bumped(t.devices, Assigned(t, id)))
    case DeleteProfile(id) =>
      if id in t.builtIns || id !in t.profiles then t
      else t.(devices := Bumped(t.devices, Assigned(t, id)),
              vehicles := map v | v in t.vehicles :: if t.vehicles[v] == Some(id) then None else t.vehicles[v],
              profiles := t.profiles - {id})
    case AssignProfile(v, profile) =>
      if v !in t.vehicles || !Selectable(t, profile) || t.vehicles[v] == profile then t
      else t.(vehicles := t.vehicles[v := profile], devices := Bumped(t.devices, {v}))
  }

  function EditedAll(t: Tables, edits: seq<Edit>): Tables
    decreases |edits|
  {
    if edits == [] then t else Edited(EditedAll(t, edits[..|edits| - 1]), edits[|edits| - 1])
  }

  // ------------------------------------------------------------------ the services

  class Database {
    var devices: map<DeviceId, Device>
    var vehicles: map<VehicleId, Option<ProfileId>>
    var profiles: map<ProfileId, Definition>
    const builtIns: map<ProfileId, Definition>
    var enrolled: set<DeviceId>

    constructor (shipped: map<ProfileId, Definition>)
      ensures Value() == Tables(map[], map[], map[], shipped, {})
    {
      builtIns := shipped;
      devices, vehicles, profiles, enrolled := map[], map[], map[], {};
    }

    ghost function Value(): Tables
      reads this
    {
      Tables(devices, vehicles, profiles, builtIns, enrolled)
    }

    method EnrollDevice(device: DeviceId, vehicle: VehicleId, name: string, cadence: Cadence) returns (config: Config)
      requires device !in enrolled && device !in devices && vehicle in vehicles && ValidCadence(cadence)
      modifies this
      ensures Value() == Edited(old(Value()), Enroll(device, vehicle, name, cadence))
      ensures device in devices && config == DeviceConfig(Value(), device) && config.version == 1
    {
      devices := devices[device := Device(vehicle, name, cadence, 1)];
      enrolled := enrolled + {device};
      config := GetConfig(device);
    }

    method GetConfig(device: DeviceId) returns (config: Config)
      requires device in devices && devices[device].vehicle in vehicles
      ensures config == DeviceConfig(Value(), device)
      ensures ServesRow(devices[device], vehicles[devices[device].vehicle], config)
      ensures ServesChoice(Value(), vehicles[devices[device].vehicle], config.definition)
    {
      var row := devices[device];
      var profile := vehicles[row.vehicle];
      var definition := None;
      if profile.Some? && profile.value != "" {
        if profile.value in builtIns {
          definition := Some(ForAgent(builtIns[profile.value]));
        } else if profile.value in profiles {
          definition := Some(ForAgent(profiles[profile.value]));
        }
      }
      config := Config(row.version, Interval(row.cadence.sampling, row.cadence.parkedSampling),
                       Interval(row.cadence.upload, row.cadence.parkedUpload), profile, definition);
    }

    method UpdateSettings(device: DeviceId, name: string, cadence: Cadence) returns (changed: bool)
      requires device in devices && ValidCadence(cadence)
      modifies this`devices
      ensures Value() == Edited(old(Value()), UpdateDevice(device, name, cadence))
      ensures changed <==> devices[device].version > old(devices)[device].version
    {
      var row := devices[device].(name := name);
      changed := row.cadence.sampling != cadence.sampling || row.cadence.upload != cadence.upload
        || row.cadence.parkedSampling != cadence.parkedSampling || row.cadence.parkedUpload != cadence.parkedUpload;
      row := row.(cadence := cadence);
      if changed {
        row := row.(version := row.version + 1);
      }
      devices := devices[device := row];
    }

    method BumpDevicesOf(affected: set<VehicleId>)
      modifies this`devices
      ensures devices == Bumped(old(devices), affected)
    {
      var remaining := devices.Keys;
      while remaining != {}
        invariant remaining <= devices.Keys == old(devices).Keys
        invariant forall d :: d in devices ==>
          devices[d] == if d in remaining then old(devices)[d] else Bumped(old(devices), affected)[d]
        decreases |remaining|
      {
        var d :| d in remaining;
        if devices[d].vehicle in affected {
          devices := devices[d := devices[d].(version := devices[d].version + 1)];
        }
        remaining := remaining - {d};
      }
    }

    method EditProfile(id: ProfileId, data: ProfileWrite)
      requires id !in builtIns && id in profiles && ValidParts(data.signals, data.computed)
      modifies this`devices, this`profiles
      ensures Value() == Edited(old(Value()), UpdateProfile(id, data))
    {
      var currentVersion := profiles[id].version;
      profiles := profiles[id := Written(id, data, currentVersion + 1)];
      BumpDevicesOf(set v | v in vehicles && vehicles[v] == Some(id));
      assert (set v | v in vehicles && vehicles[v] == Some(id)) == Assigned(old(Value()), id);
    }

    method RemoveProfile(id: ProfileId)
      requires id !in builtIns && id in profiles
      modifies this
      ensures Value() == Edited(old(Value()), DeleteProfile(id))
    {
      BumpDevicesOf(set v | v in vehicles && vehicles[v] == Some(id));
      assert (set v | v in vehicles && vehicles[v] == Some(id)) == Assigned(old(Value()), id);
      vehicles := map v | v in vehicles :: if vehicles[v] == Some(id) then None else vehicles[v];
      profiles := profiles - {id};
    }

    method SelectProfile(vehicle: VehicleId, profile: Option<ProfileId>)
      requires vehicle in vehicles && Selectable(Value(), profile)
      modifies this
      ensures Value() == Edited(old(Value()), AssignProfile(vehicle, profile))
    {
      if profile == vehicles[vehicle] { return; }
      vehicles := vehicles[vehicle := profile];
      BumpDevicesOf({vehicle});
    }
  }

  // ------------------------------------------------------------------ a version determines the content

  predicate SoundDefinition(id: ProfileId, definition: Definition) {
    definition.id == id && id != "" && ValidParts(definition.signals, definition.computed)
  }

  ghost predicate ProfilesSound(builtIns: map<ProfileId, Definition>, profiles: map<ProfileId, Definition>) {
    && (forall p :: p in builtIns ==> SoundDefinition(p, builtIns[p]))
    && (forall p :: p in profiles ==> SoundDefinition(p, profiles[p]) && p !in builtIns)
  }

  predicate DeviceSound(t: Tables, d: DeviceId, device: Device) {
    && device.vehicle in t.vehicles && device.version >= 1 && ValidCadence(device.cadence) && d in t.enrolled
  }

  ghost predicate SoundTables(t: Tables) {
    && ProfilesSound(t.builtIns, t.profiles)
    && (forall v :: v in t.vehicles ==> Selectable(t, t.vehicles[v]))
    && (forall d :: d in t.devices ==> DeviceSound(t, d, t.devices[d]))
  }

  lemma ProfileEditKeepsSound(t: Tables, e: Edit)
    requires SoundTables(t) && (e.CreateProfile? || e.UpdateProfile? || e.DeleteProfile?)
    ensures SoundTables(Edited(t, e))
  {
    var after := Edited(t, e);
    forall d | d in after.devices ensures DeviceSound(after, d, after.devices[d]) {
      assert DeviceSound(t, d, t.devices[d]);
    }
    forall v | v in after.vehicles ensures Selectable(after, after.vehicles[v]) {
      assert Selectable(t, t.vehicles[v]);
    }
  }

  predicate EditsRows(e: Edit) {
    !e.CreateProfile? && !e.UpdateProfile? && !e.DeleteProfile?
  }

  lemma RowEditKeepsProfiles(t: Tables, e: Edit)
    requires EditsRows(e)
    ensures Edited(t, e).profiles == t.profiles && Edited(t, e).builtIns == t.builtIns
  {}

  lemma RowEditKeepsDevices(t: Tables, e: Edit, d: DeviceId)
    requires EditsRows(e) && d in Edited(t, e).devices && (d in t.devices ==> DeviceSound(t, d, t.devices[d]))
    ensures DeviceSound(Edited(t, e), d, Edited(t, e).devices[d])
  {}

  lemma RowEditKeepsChoices(t: Tables, e: Edit, v: VehicleId)
    requires EditsRows(e) && v in Edited(t, e).vehicles && (v in t.vehicles ==> Selectable(t, t.vehicles[v]))
    ensures Selectable(Edited(t, e), Edited(t, e).vehicles[v])
  {
    RowEditKeepsProfiles(t, e);
  }

  lemma RowEditKeepsSound(t: Tables, e: Edit)
    requires SoundTables(t) && EditsRows(e)
    ensures SoundTables(Edited(t, e))
  {
    var after := Edited(t, e);
    RowEditKeepsProfiles(t, e);
    forall d | d in after.devices ensures DeviceSound(after, d, after.devices[d]) {
      RowEditKeepsDevices(t, e, d);
    }
    forall v | v in after.vehicles ensures Selectable(after, after.vehicles[v]) {
      RowEditKeepsChoices(t, e, v);
    }
  }

  lemma EditKeepsSound(t: Tables, e: Edit)
    requires SoundTables(t)
    ensures SoundTables(Edited(t, e))
  {
    if EditsRows(e) { RowEditKeepsSound(t, e); } else { ProfileEditKeepsSound(t, e); }
  }

  /** What a device is served depends only on its own row, its vehicle's choice and that profile. */
  lemma SameInputsSameConfig(t: Tables, u: Tables, d: DeviceId)
    requires d in t.devices && t.devices[d].vehicle in t.vehicles
    requires d in u.devices && u.devices[d].vehicle in u.vehicles
    requires u.devices[d].version == t.devices[d].version && u.devices[d].cadence == t.devices[d].cadence
    requires u.vehicles[u.devices[d].vehicle] == t.vehicles[t.devices[d].vehicle]
    requires ProfileDefinition(u, t.vehicles[t.devices[d].vehicle])
      == ProfileDefinition(t, t.vehicles[t.devices[d].vehicle])
    ensures DeviceConfig(u, d) == DeviceConfig(t, d)
  {}

  lemma {:induction false} ProfileEditBumps(t: Tables, e: Edit, d: DeviceId)
    requires SoundTables(t) && d in t.devices && (e.UpdateProfile? || e.DeleteProfile? || e.CreateProfile?)
    ensures d in Edited(t, e).devices && SoundTables(Edited(t, e))
    ensures Edited(t, e).devices[d].version >= t.devices[d].version
    ensures Edited(t, e).devices[d].version == t.devices[d].version ==>
      DeviceConfig(Edited(t, e), d) == DeviceConfig(t, d)
  {
    EditKeepsSound(t, e);
    var after := Edited(t, e);
    if after.devices[d].version == t.devices[d].version {
      assert Selectable(t, t.vehicles[t.devices[d].vehicle]);
      SameInputsSameConfig(t, after, d);
    }
  }

  lemma RowEditBumps(t: Tables, e: Edit, d: DeviceId)
    requires EditsRows(e) && d in t.devices && d in Edited(t, e).devices
    requires DeviceSound(t, d, t.devices[d]) && DeviceSound(Edited(t, e), d, Edited(t, e).devices[d])
    ensures Edited(t, e).devices[d].version >= t.devices[d].version
    ensures Edited(t, e).devices[d].version == t.devices[d].version ==>
      DeviceConfig(Edited(t, e), d) == DeviceConfig(t, d)
  {
    RowEditKeepsProfiles(t, e);
    if Edited(t, e).devices[d].version == t.devices[d].version {
      SameInputsSameConfig(t, Edited(t, e), d);
    }
  }

  /** One edit: a device's version does not fall, and stays only if its content stays. */
  lemma {:induction false} EditBumps(t: Tables, e: Edit, d: DeviceId)
    requires SoundTables(t) && d in t.devices && d in Edited(t, e).devices
    ensures SoundTables(Edited(t, e))
    ensures Edited(t, e).devices[d].version >= t.devices[d].version
    ensures Edited(t, e).devices[d].version == t.devices[d].version ==>
      DeviceConfig(Edited(t, e), d) == DeviceConfig(t, d)
  {
    EditKeepsSound(t, e);
    if EditsRows(e) { RowEditBumps(t, e, d); } else { ProfileEditBumps(t, e, d); }
  }

  /** A device id, once gone, never comes back: an earlier device that is still here was here throughout. */
  lemma EditNeverReenrolls(t: Tables, e: Edit, d: DeviceId)
    requires SoundTables(t) && d in t.enrolled && d in Edited(t, e).devices
    ensures d in t.devices
  {}

  lemma EditKeepsEnrolled(t: Tables, e: Edit)
    ensures t.enrolled <= Edited(t, e).enrolled
  {}

  lemma {:induction false} EditsKeepSound(t: Tables, edits: seq<Edit>)
    requires SoundTables(t)
    ensures SoundTables(EditedAll(t, edits)) && t.enrolled <= EditedAll(t, edits).enrolled
    decreases |edits|
  {
    if edits != [] {
      var before := EditedAll(t, edits[..|edits| - 1]);
      EditsKeepSound(t, edits[..|edits| - 1]);
      EditKeepsSound(before, edits[|edits| - 1]);
      EditKeepsEnrolled(before, edits[|edits| - 1]);
    }
  }

  /**
   * Between any two reachable states, a device's version never falls, and if it is the same
   * number the served configuration is the same content.
   */
  lemma {:induction false} VersionDeterminesContent(t: Tables, edits: seq<Edit>, d: DeviceId)
    requires SoundTables(t) && d in t.devices && d in EditedAll(t, edits).devices
    ensures SoundTables(EditedAll(t, edits))
    ensures EditedAll(t, edits).devices[d].version >= t.devices[d].version
    ensures EditedAll(t, edits).devices[d].version == t.devices[d].version
      ==> DeviceConfig(EditedAll(t, edits), d) == DeviceConfig(t, d)
    decreases |edits|
  {
    if edits != [] {
      var before := EditedAll(t, edits[..|edits| - 1]);
      var e := edits[|edits| - 1];
      EditsKeepSound(t, edits[..|edits| - 1]);
      EditNeverReenrolls(before, e, d);
      VersionDeterminesContent(t, edits[..|edits| - 1], d);
      EditBumps(before, e, d);
    }
  }

  // ------------------------------------------------------------------ what each edit leaves

  /** In a sound state a chosen profile is served under its own id, shipped or stored. */
  lemma ChosenProfileIsServed(t: Tables, d: DeviceId, id: ProfileId)
    requires SoundTables(t) && d in t.devices && t.vehicles[t.devices[d].vehicle] == Some(id) && id != ""
    ensures id in t.builtIns || id in t.profiles
    ensures var served := DeviceConfig(t, d).definition;
      served.Some? && served.value.id == id
        && Projects(served.value, if id in t.builtIns then t.builtIns[id] else t.profiles[id])
  {
    assert DeviceSound(t, d, t.devices[d]) && Selectable(t, t.vehicles[t.devices[d].vehicle]);
    ServedFieldByField(t, d);
  }

  /** The devices of some vehicles, and no others, are one version on; nothing else of a device has changed. */
  ghost predicate MovedOn(before: map<DeviceId, Device>, after: map<DeviceId, Device>, vehicles: set<VehicleId>) {
    && after.Keys == before.Keys
    && forall d :: d in before ==>
         after[d] == Device(before[d].vehicle, before[d].name, before[d].cadence,
                            if before[d].vehicle in vehicles then before[d].version + 1 else before[d].version)
  }

  /** A profile edit replaces the profile and numbers it, and moves on the devices of the vehicles that use it. */
  lemma ProfileEditLeaves(t: Tables, id: ProfileId, data: ProfileWrite)
    requires id in t.profiles && id !in t.builtIns && ValidParts(data.signals, data.computed)
    ensures var u := Edited(t, UpdateProfile(id, data));
      && u.profiles == t.profiles[id := Definition(id, data.name, data.description, t.profiles[id].version + 1,
                                                   data.signals, data.computed)]
      && u.vehicles == t.vehicles && u.builtIns == t.builtIns && u.enrolled == t.enrolled
      && MovedOn(t.devices, u.devices, set v | v in t.vehicles && t.vehicles[v] == Some(id))
  {}

  /** A deletion takes the profile and every choice of it away, and moves on the devices of those vehicles. */
  lemma ProfileDeletionLeaves(t: Tables, id: ProfileId)
    requires id in t.profiles && id !in t.builtIns
    ensures var u := Edited(t, DeleteProfile(id));
      && u.profiles == t.profiles - {id} && u.builtIns == t.builtIns && u.enrolled == t.enrolled
      && u.vehicles.Keys == t.vehicles.Keys
      && (forall v :: v in t.vehicles ==> u.vehicles[v] == if t.vehicles[v] == Some(id) then None else t.vehicles[v])
      && MovedOn(t.devices, u.devices, set v | v in t.vehicles && t.vehicles[v] == Some(id))
  {}

  /** A new choice of no profile, the empty one or an existing one is taken and moves on the vehicle's devices. */
  lemma ChoiceLeaves(t: Tables, v: VehicleId, choice: Option<ProfileId>)
    ensures var u := Edited(t, AssignProfile(v, choice));
      if v in t.vehicles && t.vehicles[v] != choice
        && (choice == None || choice.value == "" || choice.value in t.builtIns || choice.value in t.profiles)
      then
        && u.vehicles == t.vehicles[v := choice] && MovedOn(t.devices, u.devices, {v})
        && u.profiles == t.profiles && u.builtIns == t.builtIns && u.enrolled == t.enrolled
      else u == t
  {}

  /** An enrolment adds one device of its vehicle, at version one, and leaves every other row. */
  lemma EnrollmentLeaves(t: Tables, d: DeviceId, v: VehicleId, name: string, cadence: Cadence)
    requires d !in t.enrolled && d !in t.devices && v in t.vehicles && ValidCadence(cadence)
    ensures var u := Edited(t, Enroll(d, v, name, cadence));
      && u.vehicles == t.vehicles && u.profiles == t.profiles && u.devices.Keys == t.devices.Keys + {d}
      && (forall k :: k in t.devices ==> u.devices[k] == t.devices[k])
      && u.devices[d].vehicle == v && u.devices[d].name == name && u.devices[d].cadence == cadence
      && u.devices[d].version == 1 && u.enrolled == t.enrolled + {d}
  {}

  /** New settings of a device replace its name and cadence, and number it when the cadence is another. */
  lemma SettingsLeave(t: Tables, d: DeviceId, name: string, cadence: Cadence)
    requires d in t.devices && ValidCadence(cadence)
    ensures var row := t.devices[d];
      var same := cadence.sampling == row.cadence.sampling && cadence.upload == row.cadence.upload
        && cadence.parkedSampling == row.cadence.parkedSampling && cadence.parkedUpload == row.cadence.parkedUpload;
      Edited(t, UpdateDevice(d, name, cadence))
        == t.(devices := t.devices[d :=
             Device(row.vehicle, name, cadence, if same then row.version else row.version + 1)])
  {}
}
