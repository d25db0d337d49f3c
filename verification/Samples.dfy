/** The records that travel from an agent to the server. */
module Samples {
  import opened Prelude

  // Identifiers are opaque: only equality matters.
  type SampleId = nat
  type DeviceId = nat
  type VehicleId = nat
  type BootId = nat

  /** A JSON scalar published under a metric name. */
  datatype Value = Null | Number(number: real) | Flag(flag: bool) | Text(text: string)

  type Metrics = map<string, Value>

  datatype Position = Position(
    latitude: real, longitude: real,
    altitude: Option<real>, speed: Option<real>, heading: Option<real>, accuracy: Option<real>)

  datatype Sample = Sample(
    id: SampleId, sequence: int, recordedAt: int,
    position: Option<Position>, metrics: Metrics, device: Metrics)

  function IdSet(ids: seq<SampleId>): set<SampleId> {
    set id | id in ids
  }

  ghost predicate DistinctIds(samples: seq<Sample>) {
    forall i, j :: 0 <= i < j < |samples| ==> samples[i].id != samples[j].id
  }
}
