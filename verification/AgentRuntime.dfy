/**
 * The running agent: one pass of collecting a sample and one of uploading. Each is a step of the
 * agent's life, so what holds over every life holds of it.
 */
module AgentRuntime {
  import opened Prelude
  import opened Samples
  import A = Activity
  import Q = AgentQueue

  function SourceName(source: A.Source): string {
    match source
    case Readiness => "readiness"
    case Engine => "engine"
    case Speed => "speed"
    case Movement => "movement"
    case Idle => "idle"
    case Grace => "grace"
  }

  /** A reading with the verdict on the vehicle published beside the agent's own health. */
  function Published(reading: Sample, verdict: (bool, A.Source)): Sample {
    reading.(device :=
      reading.device["vehicle_in_use" := Flag(verdict.0)]["activity_source" := Text(SourceName(verdict.1))])
  }

  /**
   * What a sample says of the vehicle beside its readings: whether it is in use, and by which
   * evidence, in the words of the protocol. Everything else in it is the reading's.
   */
  lemma PublishedSays(distance: A.Distance, grace: int, state: A.State, reading: Sample, now: int)
    ensures var sample := Published(reading, A.Verdict(distance, grace, state, A.Observation(reading, now)));
      var turns := A.Unstated(reading.metrics) && A.Turns(reading.metrics);
      var drives := A.Unstated(reading.metrics) && !turns && A.Drives(reading);
      var away := A.Unstated(reading.metrics) && !turns && !drives && A.Away(distance, state.anchor, reading);
      && "vehicle_in_use" in sample.device && "activity_source" in sample.device
      && (sample.device["activity_source"] == Text("readiness") <==> A.Ready(reading.metrics))
      && (sample.device["activity_source"] == Text("engine") <==> turns)
      && (sample.device["activity_source"] == Text("speed") <==> drives)
      && (sample.device["activity_source"] == Text("movement") <==> away)
      && (sample.device["vehicle_in_use"] == Flag(false) <==> sample.device["activity_source"] == Text("idle"))
      && (sample.device["vehicle_in_use"] == Flag(true) <==> sample.device["activity_source"] != Text("idle"))
    ensures var sample := Published(reading, A.Verdict(distance, grace, state, A.Observation(reading, now)));
      && sample == reading.(device := sample.device)
      && (forall k :: k in reading.device && k != "vehicle_in_use" && k != "activity_source" ==>
            k in sample.device && sample.device[k] == reading.device[k])
  {
    A.EvidenceIsExact(distance, state.anchor, reading);
    A.VerdictIsExact(distance, grace, state, A.Observation(reading, now));
    SourceNamesDiffer();
  }

  /** No two sources have the same name. */
  lemma SourceNamesDiffer()
    ensures forall a, b :: SourceName(a) == SourceName(b) ==> a == b
    ensures SourceName(A.Readiness) == "readiness" && SourceName(A.Engine) == "engine"
    ensures SourceName(A.Speed) == "speed" && SourceName(A.Movement) == "movement"
    ensures SourceName(A.Idle) == "idle" && SourceName(A.Grace) == "grace"
  {
    assert |"readiness"| == 9 && |"engine"| == 6 && |"movement"| == 8 && |"idle"| == 4;
    assert "speed"[0] != "grace"[0];
  }

  /** The server's answer to a batch: the ids it stored and the ids it already had. */
  datatype Answer = Answer(accepted: seq<SampleId>, duplicates: seq<SampleId>)

  class Agent {
    const queue: Q.Queue
    const activity: A.ActivityDetector
    const bootId: BootId
    var sequence: int
    var inUse: bool
    ghost var collected: seq<Sample>
    ghost var acknowledged: set<SampleId>

    /** A start or a restart: the sequence continues from the largest one still queued, if that can be read. */
    constructor (queue: Q.Queue, bootId: BootId, distance: A.Distance, grace: int, readable: bool,
                 ghost before: Q.Agent)
      requires before.rows == queue.rows
      ensures this.queue == queue && this.bootId == bootId && fresh(activity)
      ensures activity.Value() == A.START && activity.distance == distance && activity.grace == grace
      ensures Value() == Q.After(before, Q.Restart(bootId, readable))
    {
      this.queue, this.bootId := queue, bootId;
      activity := new A.ActivityDetector(distance, grace);
      inUse := false;
      collected, acknowledged := before.collected, before.acknowledged;
      new;
      sequence := 0;
      if readable {
        sequence := queue.LastSequence();
      }
    }

    ghost function Value(): Q.Agent
      reads this, queue
    {
      Q.Agent(queue.rows, sequence, bootId, collected, acknowledged)
    }

    /** Take one reading, decide whether the vehicle is in use, and queue the sample if the write succeeds. */
    method Collect(reading: Sample, now: int, queuedAt: int, writable: bool) returns (sample: Sample)
      requires !Q.Collected(Value(), reading.id)
      modifies this, queue, activity
      ensures activity.Value() == A.Observed(activity.distance, old(activity.Value()), A.Observation(reading, now))
      ensures
        var seen := A.Observation(reading, now);
        var verdict := A.Verdict(activity.distance, activity.grace, old(activity.Value()), seen);
        && inUse == verdict.0
        && sequence == old(sequence) + 1
        && sample == Published(reading, verdict).(sequence := sequence)
        && Value() == Q.After(old(Value()), Q.Collect(Published(reading, verdict), queuedAt, writable))
    {
      sample := reading.(sequence := sequence + 1);
      var source;
      inUse, source := activity.Observe(sample, now);
      sample := sample.(device :=
        sample.device["vehicle_in_use" := Flag(inUse)]["activity_source" := Text(SourceName(source))]);
      sequence := sequence + 1;
      if writable {
        queue.Enqueue(sample, queuedAt);
        collected := collected + [sample];
      }
    }

    /** Send the oldest queued samples and remove what the answer names; without an answer, remove nothing. */
    method Upload(limit: int, answer: Option<Answer>) returns (sent: seq<Sample>, removed: nat)
      modifies this, queue
      ensures sent == Q.PendingSamples(old(queue.rows), limit)
      ensures |sent| == if 0 <= limit < |old(queue.rows)| then limit else |old(queue.rows)|
      ensures sent == [] || answer.None? ==> Value() == old(Value()) && removed == 0
      ensures sent != [] && answer.Some? ==>
        Value() == Q.After(old(Value()), Q.Acknowledge(IdSet(answer.value.accepted + answer.value.duplicates)))
      ensures removed == |old(queue.rows)| - |queue.rows|
    {
      sent := queue.Pending(limit);
      removed := 0;
      if sent == [] || answer.None? { return; }
      var ids := answer.value.accepted + answer.value.duplicates;
      ghost var named := IdSet(ids);
      acknowledged := acknowledged + set id | id in named && Q.HasRow(queue.rows, id);
      removed := queue.Acknowledge(ids);
    }
  }
}
