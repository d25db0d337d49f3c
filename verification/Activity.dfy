/** Whether the vehicle is in use: evidence in a sample, a grace period, and displacement from an anchor. */
module Activity {
  import opened Prelude
  import opened Samples

  datatype Source = Readiness | Engine | Speed | Movement | Idle | Grace

  const READINESS := ["vehicle.ready", "charging.active"]
  const MOVING_KMH := 3.0
  const MOVED_METERS := 60.0

  // Durations and instants are in nanoseconds.
  const DEFAULT_GRACE := 180_000_000_000

  type Distance = (Position, Position) -> real

  function NumberOf(value: Value): Option<real> {
    match value
    case Number(n) => Some(n)
    case Flag(flag) => Some(if flag then 1.0 else 0.0)
    case Null | Text(_) => None
  }

  predicate Truthy(value: Value) {
    match value
    case Flag(flag) => flag
    case Text(text) => text == "true" || text == "1" || text == "on"
    case Number(n) => n != 0.0
    case Null => false
  }

  // A metric that is absent reads as no number.
  function Metric(metrics: Metrics, name: string): Option<real> {
    if name in metrics then NumberOf(metrics[name]) else None
  }

  /** The first readiness signal present, in the order they are listed. */
  function ReadinessSignal(metrics: Metrics): Option<Value> {
    if READINESS[0] in metrics then Some(metrics[READINESS[0]])
    else if READINESS[1] in metrics then Some(metrics[READINESS[1]])
    else None
  }

  predicate Moving(speed: Option<real>) {
    speed.Some? && speed.value >= MOVING_KMH
  }

  predicate Displaced(distance: Distance, anchor: Option<Position>, position: Position) {
    anchor.Some? && distance(anchor.value, position) >= MOVED_METERS
  }

  /** What a sample shows by itself and by its distance from the anchor; no source when nothing. */
  function Evidence(distance: Distance, anchor: Option<Position>, sample: Sample): Option<Source> {
    var rpm := Metric(sample.metrics, "engine.rpm");
    if ReadinessSignal(sample.metrics).Some? then
      if Truthy(ReadinessSignal(sample.metrics).value) then Some(Readiness) else None
    else if rpm.Some? && rpm.value > 0.0 then Some(Engine)
    else if Moving(Metric(sample.metrics, "vehicle.speed")) then Some(Speed)
    else if sample.position.None? then None
    else if Moving(sample.position.value.speed) then Some(Speed)
    else if Displaced(distance, anchor, sample.position.value) then Some(Movement)
    else None
  }

  datatype State = State(lastEvidence: Option<int>, anchor: Option<Position>)

  const START := State(None, None)

  datatype Observation = Observation(sample: Sample, now: int)

  function Observed(distance: Distance, state: State, o: Observation): State {
    var found := Evidence(distance, state.anchor, o.sample).Some?;
    State(
      if found then Some(o.now) else state.lastEvidence,
      if o.sample.position.Some? && (found || state.anchor.None?) then o.sample.position else state.anchor)
  }

  function Effective(grace: int): (g: int)
    ensures g > 0
  {
    if grace <= 0 then DEFAULT_GRACE else grace
  }

  function Verdict(distance: Distance, grace: int, state: State, o: Observation): (bool, Source) {
    var evidence := Evidence(distance, state.anchor, o.sample);
    if evidence.Some? then (true, evidence.value)
    else if state.lastEvidence.Some? && o.now - state.lastEvidence.value < Effective(grace) then (true, Grace)
    else (false, Idle)
  }

  class ActivityDetector {
    const distance: Distance
    const grace: int
    var lastEvidence: Option<int>
    var anchor: Option<Position>

    constructor (distance: Distance, grace: int)
      ensures this.distance == distance && this.grace == grace && Value() == START
    {
      this.distance, this.grace := distance, grace;
      lastEvidence, anchor := None, None;
    }

    ghost function Value(): State
      reads this
    {
      State(lastEvidence, anchor)
    }

    method Observe(sample: Sample, now: int) returns (inUse: bool, source: Source)
      modifies this
      ensures Value() == Observed(distance, old(Value()), Observation(sample, now))
      ensures (inUse, source) == Verdict(distance, grace, old(Value()), Observation(sample, now))
    {
      var found := Look(sample);
      if sample.position.Some? && (found.Some? || anchor.None?) {
        anchor := sample.position;
      }
      if found.Some? {
        lastEvidence := Some(now);
        return true, found.value;
      }
      var patience := grace;
      if patience <= 0 { patience := DEFAULT_GRACE; }
      if lastEvidence.Some? && now - lastEvidence.value < patience {
        return true, Grace;
      }
      return false, Idle;
    }

    method Look(sample: Sample) returns (found: Option<Source>)
      ensures found == Evidence(distance, anchor, sample)
    {
      for i := 0 to |READINESS|
        invariant forall k :: 0 <= k < i ==> READINESS[k] !in sample.metrics
      {
        if READINESS[i] in sample.metrics {
          return if Truthy(sample.metrics[READINESS[i]]) then Some(Readiness) else None;
        }
      }
      var rpm := Metric(sample.metrics, "engine.rpm");
      if rpm.Some? && rpm.value > 0.0 { return Some(Engine); }
      var speed := Metric(sample.metrics, "vehicle.speed");
      if speed.Some? && speed.value >= MOVING_KMH { return Some(Speed); }
      if sample.position.Some? {
        var position := sample.position.value;
        if position.speed.Some? && position.speed.value >= MOVING_KMH { return Some(Speed); }
        if anchor.Some? && distance(anchor.value, position) >= MOVED_METERS { return Some(Movement); }
      }
      return None;
    }
  }

  // ------------------------------------------------------------------ what counts as evidence

  /** The values a readiness signal states "on" with. */
  predicate StatesOn(value: Value) {
    || value == Flag(true) || value == Text("true") || value == Text("1") || value == Text("on")
    || (value.Number? && value.number != 0.0)
  }

  predicate Ready(metrics: Metrics) {
    if "vehicle.ready" in metrics then StatesOn(metrics["vehicle.ready"])
    else "charging.active" in metrics && StatesOn(metrics["charging.active"])
  }

  /** No profile signal says whether the vehicle is in use. */
  predicate Unstated(metrics: Metrics) {
    "vehicle.ready" !in metrics && "charging.active" !in metrics
  }

  // A flag reads as one or zero, so a stated true turns the engine and never reaches a speed.
  predicate Turns(metrics: Metrics) {
    && "engine.rpm" in metrics
    && (metrics["engine.rpm"] == Flag(true) || (metrics["engine.rpm"].Number? && metrics["engine.rpm"].number > 0.0))
  }

  predicate Drives(sample: Sample) {
    || ("vehicle.speed" in sample.metrics && sample.metrics["vehicle.speed"].Number?
        && sample.metrics["vehicle.speed"].number >= 3.0)
    || (sample.position.Some? && sample.position.value.speed.Some? && sample.position.value.speed.value >= 3.0)
  }

  predicate Away(distance: Distance, anchor: Option<Position>, sample: Sample) {
    anchor.Some? && sample.position.Some? && distance(anchor.value, sample.position.value) >= 60.0
  }

  /**
   * A readiness signal decides alone, the vehicle's before the charger's. Without one a turning
   * engine is evidence, then a speed of 3 km/h by the vehicle or the receiver, then 60 meters from
   * the anchor; nothing else is.
   */
  lemma EvidenceIsExact(distance: Distance, anchor: Option<Position>, sample: Sample)
    ensures var found := Evidence(distance, anchor, sample);
      && (found == Some(Readiness) <==> Ready(sample.metrics))
      && (found == Some(Engine) <==> Unstated(sample.metrics) && Turns(sample.metrics))
      && (found == Some(Speed) <==> Unstated(sample.metrics) && !Turns(sample.metrics) && Drives(sample))
      && (found == Some(Movement) <==>
         Unstated(sample.metrics) && !Turns(sample.metrics) && !Drives(sample) && Away(distance, anchor, sample))
      && found != Some(Idle) && found != Some(Grace)
  {
    assert READINESS[0] == "vehicle.ready" && READINESS[1] == "charging.active";
  }

  /** Evidence of any kind. */
  predicate ShowsUse(distance: Distance, anchor: Option<Position>, sample: Sample) {
    || Ready(sample.metrics)
    || (Unstated(sample.metrics) && (Turns(sample.metrics) || Drives(sample) || Away(distance, anchor, sample)))
  }

  /** The verdict: evidence now, or evidence less than the grace period ago, which is three minutes unless set. */
  lemma VerdictIsExact(distance: Distance, grace: int, state: State, o: Observation)
    ensures var (inUse, source) := Verdict(distance, grace, state, o);
      var patience := if grace > 0 then grace else 180_000_000_000;
      var lately := state.lastEvidence.Some? && o.now - state.lastEvidence.value < patience;
      && (inUse <==> ShowsUse(distance, state.anchor, o.sample) || lately)
      && (source == Grace <==> !ShowsUse(distance, state.anchor, o.sample) && lately)
      && (source == Idle <==> !inUse)
  {
    EvidenceIsExact(distance, state.anchor, o.sample);
  }

  /** What is remembered: when evidence was last seen, and where the vehicle stood then, or first. */
  lemma MemoryIsExact(distance: Distance, state: State, o: Observation)
    ensures var next := Observed(distance, state, o);
      var shown := ShowsUse(distance, state.anchor, o.sample);
      && next.lastEvidence == (if shown then Some(o.now) else state.lastEvidence)
      && (o.sample.position.None? || (state.anchor.Some? && !shown) ==> next.anchor == state.anchor)
      && (o.sample.position.Some? && (state.anchor.None? || shown) ==> next.anchor == o.sample.position)
  {
    EvidenceIsExact(distance, state.anchor, o.sample);
  }

  // ------------------------------------------------------------------ whole runs

  function After(distance: Distance, run: seq<Observation>): State
    decreases |run|
  {
    if run == [] then START else Observed(distance, After(distance, run[..|run| - 1]), run[|run| - 1])
  }

  predicate EvidenceAt(distance: Distance, run: seq<Observation>, i: int) {
    0 <= i < |run| && Evidence(distance, After(distance, run[..i]).anchor, run[i].sample).Some?
  }

  predicate InUseAt(distance: Distance, grace: int, run: seq<Observation>, i: nat)
    requires i < |run|
  {
    Verdict(distance, grace, After(distance, run[..i]), run[i]).0
  }

  ghost predicate ClockNeverGoesBack(run: seq<Observation>) {
    forall i, j :: 0 <= i <= j < |run| ==> run[i].now <= run[j].now
  }

  lemma OneObservationMore(distance: Distance, run: seq<Observation>, o: Observation)
    ensures After(distance, run + [o]) == Observed(distance, After(distance, run), o)
    ensures forall i :: 0 <= i < |run| ==> (EvidenceAt(distance, run + [o], i) <==> EvidenceAt(distance, run, i))
    ensures EvidenceAt(distance, run + [o], |run|) <==> Evidence(distance, After(distance, run).anchor, o.sample).Some?
  {
    var longer := run + [o];
    assert longer[..|run|] == run;
    forall i | 0 <= i < |run| ensures EvidenceAt(distance, longer, i) <==> EvidenceAt(distance, run, i) {
      assert longer[..i] == run[..i] && longer[i] == run[i];
    }
  }

  /** The last observation with evidence. */
  ghost predicate LastEvidence(distance: Distance, run: seq<Observation>, i: int) {
    EvidenceAt(distance, run, i) && forall j :: i < j < |run| ==> !EvidenceAt(distance, run, j)
  }

  lemma {:induction false} LastEvidenceIsKept(distance: Distance, run: seq<Observation>)
    ensures match After(distance, run).lastEvidence
      case None => forall i :: !EvidenceAt(distance, run, i)
      case Some(at) => exists i :: LastEvidence(distance, run, i) && run[i].now == at
    decreases |run|
  {
    if run != [] {
      var before, o := run[..|run| - 1], run[|run| - 1];
      assert before + [o] == run;
      LastEvidenceIsKept(distance, before);
      OneObservationMore(distance, before, o);
      if EvidenceAt(distance, run, |before|) {
        assert LastEvidence(distance, run, |before|);
      } else if After(distance, before).lastEvidence.Some? {
        var i :| LastEvidence(distance, before, i) && before[i].now == After(distance, before).lastEvidence.value;
        assert LastEvidence(distance, run, i) && run[i].now == before[i].now;
      }
    }
  }

  lemma EvidenceOfPrefix(distance: Distance, run: seq<Observation>, k: nat, i: nat)
    requires i < k <= |run|
    ensures EvidenceAt(distance, run[..k], i) <==> EvidenceAt(distance, run, i)
  {
    assert run[..k][..i] == run[..i];
  }

  /** Observation `j` is evidence that is less than one grace period old at observation `i`. */
  ghost predicate RecentEvidence(distance: Distance, grace: int, run: seq<Observation>, i: nat, j: int)
    requires i < |run|
  {
    j <= i && EvidenceAt(distance, run, j) && run[i].now - run[j].now < Effective(grace)
  }

  /**
   * With a clock that never goes back, the vehicle counts as in use at a sample exactly when
   * some sample so far had evidence less than one grace period ago.
   */
  lemma InUseMeansRecentEvidence(distance: Distance, grace: int, run: seq<Observation>, i: nat)
    requires ClockNeverGoesBack(run) && i < |run|
    ensures InUseAt(distance, grace, run, i) <==> exists j :: RecentEvidence(distance, grace, run, i, j)
  {
    var before := run[..i];
    LastEvidenceIsKept(distance, before);
    forall k | 0 <= k < i ensures EvidenceAt(distance, before, k) <==> EvidenceAt(distance, run, k) {
      EvidenceOfPrefix(distance, run, i, k);
    }
    if EvidenceAt(distance, run, i) {
      assert RecentEvidence(distance, grace, run, i, i);
    } else if After(distance, before).lastEvidence.Some? {
      var last :| LastEvidence(distance, before, last)
        && before[last].now == After(distance, before).lastEvidence.value;
      if InUseAt(distance, grace, run, i) {
        assert RecentEvidence(distance, grace, run, i, last);
      } else {
        assert forall j :: RecentEvidence(distance, grace, run, i, j) ==> j <= last;
      }
    }
  }

  // ------------------------------------------------------------------ the anchor

  predicate Positioned(run: seq<Observation>, i: int) {
    0 <= i < |run| && run[i].sample.position.Some?
  }

  ghost predicate FirstPositioned(run: seq<Observation>, i: int) {
    Positioned(run, i) && forall j :: 0 <= j < i ==> !Positioned(run, j)
  }

  ghost predicate Anchors(distance: Distance, run: seq<Observation>, i: int) {
    Positioned(run, i) && (EvidenceAt(distance, run, i) || FirstPositioned(run, i))
  }

  ghost predicate LatestAnchor(distance: Distance, run: seq<Observation>, i: int) {
    Anchors(distance, run, i) && forall j :: i < j < |run| ==> !Anchors(distance, run, j)
  }

  /** The anchor is where the latest positioned sample was that had evidence or was the first. */
  lemma {:induction false} AnchorMeaning(distance: Distance, run: seq<Observation>)
    ensures match After(distance, run).anchor
      case None => forall i :: !Positioned(run, i)
      case Some(place) => exists i :: LatestAnchor(distance, run, i) && run[i].sample.position == Some(place)
    decreases |run|
  {
    if run != [] {
      var before, o := run[..|run| - 1], run[|run| - 1];
      assert before + [o] == run;
      AnchorMeaning(distance, before);
      OneObservationMore(distance, before, o);
      AnchorsOfLonger(distance, before, o);
      if Anchors(distance, run, |before|) {
        assert LatestAnchor(distance, run, |before|);
      } else if After(distance, before).anchor.Some? {
        var i :| LatestAnchor(distance, before, i) && before[i].sample.position == After(distance, before).anchor;
        assert LatestAnchor(distance, run, i) && run[i].sample.position == before[i].sample.position;
      }
    }
  }

  lemma AnchorsOfLonger(distance: Distance, run: seq<Observation>, o: Observation)
    ensures forall i :: 0 <= i < |run| ==> (Positioned(run + [o], i) <==> Positioned(run, i))
    ensures forall i :: 0 <= i < |run| ==> (Anchors(distance, run + [o], i) <==> Anchors(distance, run, i))
  {
    OneObservationMore(distance, run, o);
  }

  /** While no sample has evidence, an anchor stays where it is. */
  lemma {:induction false} AnchorStays(distance: Distance, run: seq<Observation>, i: nat, j: nat)
    requires i <= j <= |run| && After(distance, run[..i]).anchor.Some?
    requires forall k :: i <= k < j ==> !EvidenceAt(distance, run, k)
    ensures After(distance, run[..j]).anchor == After(distance, run[..i]).anchor
    decreases j
  {
    if i < j {
      AnchorStays(distance, run, i, j - 1);
      assert run[..j][..j - 1] == run[..j - 1];
      assert !EvidenceAt(distance, run, j - 1);
    }
  }

  /**
   * Slow drift cannot escape: through a stretch without evidence, however long, every positioned
   * sample without a readiness signal lies under sixty meters from the one anchor.
   */
  lemma SlowDriftStaysNear(distance: Distance, run: seq<Observation>, i: nat, j: nat)
    requires i <= j < |run| && After(distance, run[..i]).anchor.Some?
    requires forall k :: i <= k <= j ==> !EvidenceAt(distance, run, k)
    requires Positioned(run, j) && ReadinessSignal(run[j].sample.metrics).None?
    ensures distance(After(distance, run[..i]).anchor.value, run[j].sample.position.value) < MOVED_METERS
  {
    AnchorStays(distance, run, i, j);
    assert !EvidenceAt(distance, run, j);
  }

  /** Sixty meters from the anchor, a sample without a readiness signal puts the vehicle in use. */
  lemma MovingAwayIsNoticed(distance: Distance, grace: int, run: seq<Observation>, j: nat)
    requires j < |run| && Positioned(run, j) && ReadinessSignal(run[j].sample.metrics).None?
    requires Displaced(distance, After(distance, run[..j]).anchor, run[j].sample.position.value)
    ensures InUseAt(distance, grace, run, j)
    ensures After(distance, run[..j + 1]).anchor == run[j].sample.position
  {
    assert run[..j + 1][..j] == run[..j];
  }
}
