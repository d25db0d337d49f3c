/**
 * Device settings edited from rows read earlier. The service reads the device's row, and its
 * update names the columns that differ from what it read, the version among them as one more
 * than the version it read. Any number of such edits may be under way; every other edit, which
 * raises versions in the database itself, is one step.
 */
module ConfigRaces {
  import opened Prelude
  import opened Samples
  import opened ConfigServer
  import opened ConfigSync

  type Transaction = nat

  /** A row as it was read, and how many states there had been. */
  datatype Snapshot = Snapshot(device: DeviceId, row: Device, at: nat)

  datatype Server = Server(history: seq<Tables>, pending: map<Transaction, Snapshot>)

  datatype Step =
    | Change(edit: Edit)
    | ReadRow(reader: Transaction, device: DeviceId)
    | WriteRow(writer: Transaction, name: string, cadence: Cadence)

  function Now(s: Server): Tables
    requires s.history != []
  {
    s.history[|s.history| - 1]
  }

  function Column(read: int, wanted: int, present: int): int {
    if wanted != read then wanted else present
  }

  function Columns(read: Cadence, wanted: Cadence, present: Cadence): Cadence {
    Cadence(Column(read.sampling, wanted.sampling, present.sampling),
            Column(read.upload, wanted.upload, present.upload),
            Column(read.parkedSampling, wanted.parkedSampling, present.parkedSampling),
            Column(read.parkedUpload, wanted.parkedUpload, present.parkedUpload))
  }

  function RowWritten(read: Device, present: Device, name: string, cadence: Cadence): Device {
    Device(present.vehicle, if name != read.name then name else present.name,
           Columns(read.cadence, cadence, present.cadence),
           if cadence != read.cadence then read.version + 1 else present.version)
  }

  // An update whose row has been deleted meanwhile fails and changes nothing.
  function Saved(t: Tables, read: Snapshot, name: string, cadence: Cadence): Tables {
    if read.device !in t.devices || !ValidCadence(cadence) then t
    else t.(devices := t.devices[read.device := RowWritten(read.row, t.devices[read.device], name, cadence)])
  }

  function After(s: Server, step: Step): (r: Server)
    requires s.history != []
    ensures r.history != []
  {
    match step
    case Change(edit) =>
      if edit.UpdateDevice? then s else s.(history := s.history + [Edited(Now(s), edit)])
    case ReadRow(tx, d) =>
      if d in Now(s).devices then s.(pending := s.pending[tx := Snapshot(d, Now(s).devices[d], |s.history|)]) else s
    case WriteRow(tx, name, cadence) =>
      if tx !in s.pending then s
      else s.(history := s.history + [Saved(Now(s), s.pending[tx], name, cadence)], pending := s.pending - {tx})
  }

  function Ran(start: Tables, steps: seq<Step>): (s: Server)
    ensures s.history != []
    decreases |steps|
  {
    if steps == [] then Server([start], map[]) else After(Ran(start, steps[..|steps| - 1]), steps[|steps| - 1])
  }

  // ------------------------------------------------------------------ writes that nothing overtook

  /** A bump of the device has been committed since its row was read. */
  predicate Overtaken(t: Tables, read: Snapshot) {
    read.device in t.devices && t.devices[read.device].version != read.row.version
  }

  /** A write of a new cadence finds the version it read. */
  predicate InTime(s: Server, step: Step)
    requires s.history != []
  {
    step.WriteRow? && step.writer in s.pending && step.cadence != s.pending[step.writer].row.cadence ==>
      !Overtaken(Now(s), s.pending[step.writer])
  }

  ghost predicate AllInTime(start: Tables, steps: seq<Step>) {
    forall k :: 0 <= k < |steps| ==> InTime(Ran(start, steps[..k]), steps[k])
  }

  /** The row was read in one of the states before now. */
  predicate ReadFrom(history: seq<Tables>, read: Snapshot) {
    && 1 <= read.at <= |history|
    && read.device in history[read.at - 1].devices && history[read.at - 1].devices[read.device] == read.row
  }

  ghost predicate Orderly(s: Server) {
    && Linked(s.history)
    && (forall tx :: tx in s.pending ==> ReadFrom(s.history, s.pending[tx]))
  }

  lemma ReadsStay(s: Server, t: Tables)
    requires forall tx :: tx in s.pending ==> ReadFrom(s.history, s.pending[tx])
    ensures forall tx :: tx in s.pending ==> ReadFrom(s.history + [t], s.pending[tx])
  {}

  /** With the version it read still there, the cadence it read is still there. */
  lemma VersionKeepsCadence(history: seq<Tables>, read: Snapshot)
    requires Linked(history) && ReadFrom(history, read)
    requires
      var t := history[|history| - 1];
      read.device in t.devices && t.devices[read.device].version == read.row.version
    ensures history[|history| - 1].devices[read.device].cadence == read.row.cadence
  {
    HistoryVersions(history, read.at - 1, |history| - 1, read.device);
  }

  /** A write in time is the edit as one step, but perhaps for the name. */
  lemma WriteIsEdit(history: seq<Tables>, read: Snapshot, name: string, cadence: Cadence)
    requires Linked(history) && ReadFrom(history, read)
    requires cadence != read.row.cadence ==> !Overtaken(history[|history| - 1], read)
    ensures OneEdit(history[|history| - 1], Saved(history[|history| - 1], read, name, cadence))
  {
    var t, d := history[|history| - 1], read.device;
    HistoryIsSound(history, |history| - 1);
    var u := Saved(t, read, name, cadence);
    if d in t.devices && ValidCadence(cadence) {
      assert DeviceSound(t, d, t.devices[d]);
      if cadence != read.row.cadence { VersionKeepsCadence(history, read); }
      assert u == Edited(t, UpdateDevice(d, u.devices[d].name, u.devices[d].cadence));
    } else {
      assert u == Edited(t, UpdateDevice(d, name, Cadence(0, 0, 0, 0)));
    }
  }

  lemma LinkedBy(history: seq<Tables>, t: Tables)
    requires Linked(history) && OneEdit(history[|history| - 1], t)
    ensures Linked(history + [t])
  {
    var e: Edit :| t == Edited(history[|history| - 1], e);
    LinkedGrows(history, e);
  }

  lemma StepStaysOrderly(s: Server, step: Step)
    requires s.history != [] && Orderly(s) && InTime(s, step)
    ensures Orderly(After(s, step))
  {
    match step
    case Change(edit) =>
      LinkedGrows(s.history, edit);
      ReadsStay(s, Edited(Now(s), edit));
    case ReadRow(tx, d) =>
    case WriteRow(tx, name, cadence) =>
      if tx in s.pending {
        WriteIsEdit(s.history, s.pending[tx], name, cadence);
        LinkedBy(s.history, Saved(Now(s), s.pending[tx], name, cadence));
        ReadsStay(s, Saved(Now(s), s.pending[tx], name, cadence));
      }
  }

  lemma InTimePrefix(start: Tables, steps: seq<Step>)
    requires steps != [] && AllInTime(start, steps)
    ensures AllInTime(start, steps[..|steps| - 1])
    ensures InTime(Ran(start, steps[..|steps| - 1]), steps[|steps| - 1])
  {
    var before := steps[..|steps| - 1];
    forall k | 0 <= k < |before| ensures InTime(Ran(start, before[..k]), before[k]) {
      assert before[..k] == steps[..k];
    }
  }

  lemma {:induction false} RunIsOrderly(start: Tables, steps: seq<Step>)
    requires SoundTables(start) && AllInTime(start, steps)
    ensures Orderly(Ran(start, steps))
    decreases |steps|
  {
    if steps != [] {
      InTimePrefix(start, steps);
      RunIsOrderly(start, steps[..|steps| - 1]);
      StepStaysOrderly(Ran(start, steps[..|steps| - 1]), steps[|steps| - 1]);
    }
  }

  // ------------------------------------------------------------------ versions and content

  /** Whatever two states serve this device under one number is one content. */
  ghost predicate Determines(history: seq<Tables>, d: DeviceId) {
    forall a, b :: WasServed(history, d, a) && WasServed(history, d, b) && a.version == b.version ==> a == b
  }

  lemma OrderlyDetermines(history: seq<Tables>, d: DeviceId)
    requires Linked(history)
    ensures Determines(history, d)
  {
    forall a, b | WasServed(history, d, a) && WasServed(history, d, b) && a.version == b.version ensures a == b {
      OneContentPerVersion(history, d, a, b);
    }
  }

  /** In every run of overlapping edits in which each new cadence is written in time, versions determine content. */
  lemma {:induction false} TimelyWritesDetermine(start: Tables, steps: seq<Step>, d: DeviceId)
    requires SoundTables(start) && AllInTime(start, steps)
    ensures Determines(Ran(start, steps).history, d)
  {
    RunIsOrderly(start, steps);
    OrderlyDetermines(Ran(start, steps).history, d);
  }

  // ------------------------------------------------------------------ and only then

  /** No edit raises a version by more than one. */
  lemma EditRaisesByOne(t: Tables, e: Edit, d: DeviceId)
    requires SoundTables(t) && d in t.devices && d in Edited(t, e).devices
    ensures Edited(t, e).devices[d].version <= t.devices[d].version + 1
  {}

  lemma LinkRaisesByOne(history: seq<Tables>, i: nat, d: DeviceId)
    requires Linked(history) && i + 1 < |history| && d in history[i].devices && d in history[i + 1].devices
    ensures history[i + 1].devices[d].version <= history[i].devices[d].version + 1
  {
    HistoryIsSound(history, i);
    assert Link(history, i);
    var e: Edit :| history[i + 1] == Edited(history[i], e);
    EditRaisesByOne(history[i], e, d);
  }

  lemma StillThere(history: seq<Tables>, i: nat, j: nat, d: DeviceId)
    requires Linked(history) && i < j < |history| && d in history[i].devices && d in history[j].devices
    ensures d in history[j - 1].devices
  {
    HistoryIsSound(history, i);
    FollowsItself(history[i], d);
    HistoryEnrolled(history, i, j - 1);
    LastLinkFollows(history, j, d);
  }

  /** Between a lower version and a higher one every number has had its state. */
  lemma {:induction false} EveryVersionHadItsState(history: seq<Tables>, i: nat, j: nat, d: DeviceId) returns (m: nat)
    requires Linked(history) && i <= j < |history| && d in history[i].devices && d in history[j].devices
    requires history[j].devices[d].version > history[i].devices[d].version
    ensures i <= m <= j && d in history[m].devices && history[m].devices[d].version == history[i].devices[d].version + 1
    decreases j
  {
    StillThere(history, i, j, d);
    LinkRaisesByOne(history, j - 1, d);
    if history[j].devices[d].version == history[i].devices[d].version + 1 {
      m := j;
    } else {
      m := EveryVersionHadItsState(history, i, j - 1, d);
    }
  }

  /** A cadence other than two given ones, different from the first in the sampling interval alone. */
  function OtherCadence(read: Cadence, taken: Cadence): (c: Cadence)
    requires ValidCadence(read)
    ensures ValidCadence(c) && c != read && c.sampling != read.sampling && c.sampling != taken.sampling
  {
    var free := if read.sampling != 1 && taken.sampling != 1 then 1
                else if read.sampling != 2 && taken.sampling != 2 then 2 else 3;
    read.(sampling := free)
  }

  lemma LateWriteRepeats(history: seq<Tables>, read: Snapshot) returns (cadence: Cadence)
    requires Linked(history) && ReadFrom(history, read) && Overtaken(history[|history| - 1], read)
    ensures ValidCadence(cadence)
    ensures !Determines(history + [Saved(history[|history| - 1], read, read.row.name, cadence)], read.device)
  {
    var d, last := read.device, |history| - 1;
    HistoryIsSound(history, read.at - 1);
    HistoryIsSound(history, last);
    HistoryVersions(history, read.at - 1, last, d);
    var m := EveryVersionHadItsState(history, read.at - 1, last, d);
    HistoryIsSound(history, m);
    assert DeviceSound(history[read.at - 1], d, read.row) && DeviceSound(history[m], d, history[m].devices[d]);
    assert DeviceSound(history[last], d, history[last].devices[d]);
    cadence := OtherCadence(read.row.cadence, history[m].devices[d].cadence);
    var u := Saved(history[last], read, read.row.name, cadence);
    var longer := history + [u];
    assert ServedAt(longer, m, d, DeviceConfig(history[m], d));
    assert ServedAt(longer, last + 1, d, DeviceConfig(u, d));
    assert DeviceConfig(u, d).version == DeviceConfig(history[m], d).version;
    assert DeviceConfig(u, d).sampling != DeviceConfig(history[m], d).sampling;
  }

  /** Whatever settings the transaction writes, versions go on determining content. */
  ghost predicate AnyWriteDetermines(s: Server, tx: Transaction)
    requires s.history != [] && tx in s.pending
  {
    forall name, cadence :: Determines(After(s, WriteRow(tx, name, cadence)).history, s.pending[tx].device)
  }

  lemma LateWriteIsUnsafe(s: Server, tx: Transaction)
    requires s.history != [] && Orderly(s) && tx in s.pending && Overtaken(Now(s), s.pending[tx])
    ensures !AnyWriteDetermines(s, tx)
  {
    var cadence := LateWriteRepeats(s.history, s.pending[tx]);
    assert !Determines(After(s, WriteRow(tx, s.pending[tx].row.name, cadence)).history, s.pending[tx].device);
  }

  lemma TimelyWriteIsSafe(s: Server, tx: Transaction)
    requires s.history != [] && Orderly(s) && tx in s.pending && !Overtaken(Now(s), s.pending[tx])
    ensures AnyWriteDetermines(s, tx)
  {
    forall name, cadence ensures Determines(After(s, WriteRow(tx, name, cadence)).history, s.pending[tx].device) {
      StepStaysOrderly(s, WriteRow(tx, name, cadence));
      OrderlyDetermines(After(s, WriteRow(tx, name, cadence)).history, s.pending[tx].device);
    }
  }

  /**
   * After any run in which every write came in time, a device's versions go on determining its
   * content, whatever an edit under way will write, if and only if no bump of the device has been
   * committed since that edit read the row.
   */
  lemma {:induction false} WriteIsSafeExactly(start: Tables, steps: seq<Step>, tx: Transaction)
    requires SoundTables(start) && AllInTime(start, steps) && tx in Ran(start, steps).pending
    ensures var s := Ran(start, steps);
      AnyWriteDetermines(s, tx) <==> !Overtaken(Now(s), s.pending[tx])
  {
    RunIsOrderly(start, steps);
    if Overtaken(Now(Ran(start, steps)), Ran(start, steps).pending[tx]) {
      LateWriteIsUnsafe(Ran(start, steps), tx);
    } else {
      TimelyWriteIsSafe(Ran(start, steps), tx);
    }
  }

  predicate BumpedAt(history: seq<Tables>, i: nat, d: DeviceId) {
    && 0 < i < |history| && d in history[i - 1].devices && d in history[i].devices
    && history[i].devices[d].version != history[i - 1].devices[d].version
  }

  ghost predicate BumpedSince(history: seq<Tables>, read: Snapshot) {
    exists i: nat :: read.at <= i < |history| && BumpedAt(history, i, read.device)
  }

  lemma {:induction false} NeverBumped(history: seq<Tables>, read: Snapshot, j: nat)
    requires Linked(history) && ReadFrom(history, read) && !BumpedSince(history, read)
    requires read.at - 1 <= j < |history| && read.device in history[j].devices
    ensures history[j].devices[read.device].version == read.row.version
    decreases j
  {
    if j >= read.at {
      StillThere(history, read.at - 1, j, read.device);
      NeverBumped(history, read, j - 1);
      assert !BumpedAt(history, j, read.device);
    }
  }

  lemma BumpShows(history: seq<Tables>, read: Snapshot, i: nat)
    requires Linked(history) && ReadFrom(history, read) && read.device in history[|history| - 1].devices
    requires read.at <= i < |history| && BumpedAt(history, i, read.device)
    ensures history[|history| - 1].devices[read.device].version > read.row.version
  {
    HistoryVersions(history, read.at - 1, i - 1, read.device);
    HistoryVersions(history, i - 1, i, read.device);
    HistoryVersions(history, i, |history| - 1, read.device);
  }

  /** The version differs from the one read exactly when some step since has changed it. */
  lemma OvertakenMeansBumped(history: seq<Tables>, read: Snapshot)
    requires Linked(history) && ReadFrom(history, read)
    ensures Overtaken(history[|history| - 1], read)
      <==> read.device in history[|history| - 1].devices && BumpedSince(history, read)
  {
    if read.device in history[|history| - 1].devices {
      if BumpedSince(history, read) {
        var i: nat :| read.at <= i < |history| && BumpedAt(history, i, read.device);
        BumpShows(history, read, i);
      } else {
        NeverBumped(history, read, |history| - 1);
      }
    }
  }

  /** Two cadence edits that read the same row: the second to write repeats the first one's version. */
  lemma OverlappingEditsRepeatVersion(start: Tables, d: DeviceId, first: Cadence, second: Cadence)
    requires SoundTables(start) && d in start.devices && ValidCadence(first) && ValidCadence(second)
    requires first.sampling != second.sampling
    requires first.sampling != start.devices[d].cadence.sampling && second.sampling != start.devices[d].cadence.sampling
    ensures var name := start.devices[d].name;
      var steps := [] + [ReadRow(0, d)] + [ReadRow(1, d)] + [WriteRow(0, name, first)] + [WriteRow(1, name, second)];
      !Determines(Ran(start, steps).history, d)
  {
    var name, read := start.devices[d].name, Snapshot(d, start.devices[d], 1);
    assert DeviceSound(start, d, start.devices[d]);
    var t1 := Saved(start, read, name, first);
    var t2 := Saved(t1, read, name, second);
    OneStepMore(start, [], ReadRow(0, d));
    OneStepMore(start, [] + [ReadRow(0, d)], ReadRow(1, d));
    OneStepMore(start, [] + [ReadRow(0, d)] + [ReadRow(1, d)], WriteRow(0, name, first));
    OneStepMore(start, [] + [ReadRow(0, d)] + [ReadRow(1, d)] + [WriteRow(0, name, first)], WriteRow(1, name, second));
    TwoWrites(start, d, read, name, first, second);
    var history := [start, t1, t2];
    assert ServedAt(history, 1, d, DeviceConfig(t1, d)) && ServedAt(history, 2, d, DeviceConfig(t2, d));
    assert DeviceConfig(t1, d).sampling != DeviceConfig(t2, d).sampling;
  }

  lemma OneStepMore(start: Tables, steps: seq<Step>, step: Step)
    ensures Ran(start, steps + [step]) == After(Ran(start, steps), step)
  {
    assert (steps + [step])[..|steps|] == steps;
  }

  lemma TwoWrites(start: Tables, d: DeviceId, read: Snapshot, name: string, first: Cadence, second: Cadence)
    requires d in start.devices && read == Snapshot(d, start.devices[d], 1)
    ensures var t1 := Saved(start, read, name, first);
      var s := After(After(Server([start], map[]), ReadRow(0, d)), ReadRow(1, d));
      After(After(s, WriteRow(0, name, first)), WriteRow(1, name, second)).history
        == [start, t1, Saved(t1, read, name, second)]
  {}

  /** A profile edit between the read and the write: the number it gave the device is given again. */
  lemma StaleReadRepeatsVersion(start: Tables, d: DeviceId, id: ProfileId, data: ProfileWrite, cadence: Cadence)
    requires SoundTables(start) && d in start.devices && start.vehicles[start.devices[d].vehicle] == Some(id)
    requires id in start.profiles && ValidParts(data.signals, data.computed)
    requires ValidCadence(cadence) && cadence != start.devices[d].cadence
    ensures var name := start.devices[d].name;
      var steps := [] + [ReadRow(0, d)] + [Change(UpdateProfile(id, data))] + [WriteRow(0, name, cadence)];
      !Determines(Ran(start, steps).history, d)
  {
    var name, e := start.devices[d].name, UpdateProfile(id, data);
    OneStepMore(start, [], ReadRow(0, d));
    OneStepMore(start, [] + [ReadRow(0, d)], Change(e));
    OneStepMore(start, [] + [ReadRow(0, d)] + [Change(e)], WriteRow(0, name, cadence));
    var bumped := Edited(start, e);
    var written := Saved(bumped, Snapshot(d, start.devices[d], 1), name, cadence);
    EditThenWrite(start, d, e, name, cadence);
    StaleWriteServes(start, d, id, data, cadence);
    var history := [start, bumped, written];
    assert ServedAt(history, 1, d, DeviceConfig(bumped, d)) && ServedAt(history, 2, d, DeviceConfig(written, d));
  }

  lemma EditThenWrite(start: Tables, d: DeviceId, e: Edit, name: string, cadence: Cadence)
    requires d in start.devices && !e.UpdateDevice?
    ensures var s := After(After(Server([start], map[]), ReadRow(0, d)), Change(e));
      After(s, WriteRow(0, name, cadence)).history
        == [start, Edited(start, e), Saved(Edited(start, e), Snapshot(d, start.devices[d], 1), name, cadence)]
  {}

  lemma StaleWriteServes(t: Tables, d: DeviceId, id: ProfileId, data: ProfileWrite, cadence: Cadence)
    requires SoundTables(t) && d in t.devices && t.vehicles[t.devices[d].vehicle] == Some(id)
    requires id in t.profiles && ValidParts(data.signals, data.computed)
    requires ValidCadence(cadence) && cadence != t.devices[d].cadence
    ensures var bumped := Edited(t, UpdateProfile(id, data));
      var written := Saved(bumped, Snapshot(d, t.devices[d], 1), t.devices[d].name, cadence);
      && d in bumped.devices && bumped.devices[d].vehicle in bumped.vehicles
      && d in written.devices && written.devices[d].vehicle in written.vehicles
      && DeviceConfig(bumped, d).version == DeviceConfig(written, d).version
      && DeviceConfig(bumped, d) != DeviceConfig(written, d)
  {
    assert DeviceSound(t, d, t.devices[d]);
    var bumped := Edited(t, UpdateProfile(id, data));
    assert bumped.devices[d] == t.devices[d].(version := t.devices[d].version + 1);
    var written := Saved(bumped, Snapshot(d, t.devices[d], 1), t.devices[d].name, cadence);
    assert written.devices[d].cadence == cadence;
  }
}
