/** The agent's durable sample queue: one SQLite table, kept in insertion order. */
module AgentQueue {
  import opened Prelude
  import opened Ordering
  import opened Samples

  datatype Row = Row(sample: Sample, queuedAt: int)

  type Table = seq<Row>

  predicate HasRow(rows: Table, id: SampleId) {
    exists i :: 0 <= i < |rows| && rows[i].sample.id == id
  }

  function RowSamples(rows: Table): (samples: seq<Sample>)
    ensures |samples| == |rows|
  {
    seq(|rows|, i requires 0 <= i < |rows| => rows[i].sample)
  }

  function OrderKey(row: Row): Key {
    (row.sample.sequence, row.queuedAt)
  }

  // INSERT OR IGNORE with the id as primary key.
  function Enqueued(rows: Table, sample: Sample, now: int): Table {
    if HasRow(rows, sample.id) then rows else rows + [Row(sample, now)]
  }

  // DELETE of every row whose id is listed.
  function Without(rows: Table, ids: set<SampleId>): Table {
    Filter((row: Row) => row.sample.id !in ids, rows)
  }

  // A negative SQLite LIMIT means no limit.
  function Limited<T>(s: seq<T>, limit: int): seq<T> {
    if limit < 0 || |s| <= limit then s else s[..limit]
  }

  // SELECT payload ORDER BY sequence, queued_at LIMIT limit.
  function PendingSamples(rows: Table, limit: int): seq<Sample> {
    RowSamples(Limited(Sort(OrderKey, rows), limit))
  }

  // COALESCE(MAX(sequence), 0).
  function LargestSequence(rows: Table): int {
    if rows == [] then 0
    else if |rows| == 1 then rows[0].sample.sequence
    else
      var rest := LargestSequence(rows[1..]);
      if rest > rows[0].sample.sequence then rest else rows[0].sample.sequence
  }

  lemma {:induction false} LargestSequenceIsMaximum(rows: Table)
    requires rows != []
    ensures forall i :: 0 <= i < |rows| ==> rows[i].sample.sequence <= LargestSequence(rows)
    ensures exists i :: 0 <= i < |rows| && rows[i].sample.sequence == LargestSequence(rows)
  {
    if |rows| > 1 {
      LargestSequenceIsMaximum(rows[1..]);
      var i :| 0 <= i < |rows[1..]| && rows[1..][i].sample.sequence == LargestSequence(rows[1..]);
      assert rows[i + 1].sample.sequence == LargestSequence(rows[1..]);
      assert rows[0].sample.sequence <= LargestSequence(rows);
    } else {
      assert rows[0].sample.sequence == LargestSequence(rows);
    }
  }

  class Queue {
    var rows: Table

    constructor ()
      ensures rows == []
    {
      rows := [];
    }

    method Enqueue(sample: Sample, now: int)
      modifies this
      ensures rows == Enqueued(old(rows), sample, now)
      ensures if exists row :: row in old(rows) && row.sample.id == sample.id then rows == old(rows)
              else rows == old(rows) + [Row(sample, now)]
    {
      var i := 0;
      while i < |rows|
        invariant 0 <= i <= |rows| && rows == old(rows)
        invariant forall k :: 0 <= k < i ==> rows[k].sample.id != sample.id
      {
        if rows[i].sample.id == sample.id { return; }
        i := i + 1;
      }
      rows := rows + [Row(sample, now)];
    }

    method Pending(limit: int) returns (result: seq<Sample>)
      ensures result == PendingSamples(rows, limit)
      ensures |result| == if 0 <= limit < |rows| then limit else |rows|
    {
      var selected := Limited(Sort(OrderKey, rows), limit);
      SortPermutes(OrderKey, rows);
      result := [];
      for i := 0 to |selected|
        invariant result == RowSamples(selected)[..i]
      {
        result := result + [selected[i].sample];
      }
    }

    method Acknowledge(ids: seq<SampleId>) returns (deleted: nat)
      modifies this
      ensures rows == Without(old(rows), IdSet(ids))
      ensures forall row :: row in rows <==> row in old(rows) && row.sample.id !in ids
      ensures deleted == |old(rows)| - |rows|
    {
      deleted := 0;
      WithoutNothing(rows);
      assert IdSet(ids[..0]) == {};
      for k := 0 to |ids|
        invariant rows == Without(old(rows), IdSet(ids[..k]))
        invariant deleted == |old(rows)| - |rows|
      {
        var remaining := Without(rows, {ids[k]});
        WithoutTwice(old(rows), IdSet(ids[..k]), {ids[k]});
        assert ids[..k + 1] == ids[..k] + [ids[k]];
        assert IdSet(ids[..k]) + {ids[k]} == IdSet(ids[..k + 1]);
        WithoutShrinks(rows, {ids[k]});
        deleted := deleted + (|rows| - |remaining|);
        rows := remaining;
      }
      assert ids[..|ids|] == ids;
      FilterMembers((row: Row) => row.sample.id !in IdSet(ids), old(rows));
    }

    method Depth() returns (count: nat)
      ensures count == |rows|
    {
      count := |rows|;
    }

    method LastSequence() returns (sequence: int)
      ensures sequence == LargestSequence(rows)
    {
      if rows == [] { return 0; }
      sequence := rows[|rows| - 1].sample.sequence;
      var i := |rows| - 1;
      while i > 0
        invariant 0 <= i < |rows|
        invariant sequence == LargestSequence(rows[i..])
      {
        assert rows[i - 1..][1..] == rows[i..];
        i := i - 1;
        if rows[i].sample.sequence >= sequence { sequence := rows[i].sample.sequence; }
      }
      assert rows[0..] == rows;
    }
  }

  lemma {:induction false} WithoutNothing(rows: Table)
    ensures Without(rows, {}) == rows
  {
    if rows != [] {
      WithoutNothing(rows[1..]);
      assert rows == [rows[0]] + rows[1..];
    }
  }

  lemma {:induction false} WithoutTwice(rows: Table, a: set<SampleId>, b: set<SampleId>)
    ensures Without(Without(rows, a), b) == Without(rows, a + b)
  {
    if rows != [] {
      WithoutTwice(rows[1..], a, b);
      if rows[0].sample.id !in a {
        assert Without(rows, a) == [rows[0]] + Without(rows[1..], a);
        assert Without(rows, a)[1..] == Without(rows[1..], a);
      }
    }
  }

  lemma {:induction false} WithoutShrinks(rows: Table, ids: set<SampleId>)
    ensures |Without(rows, ids)| <= |rows|
  {
    if rows != [] {
      WithoutShrinks(rows[1..], ids);
    }
  }

  // ---------------------------------------------------------------- what is read first

  /** The row comes no later than the other: by sequence, then by when it was queued. */
  predicate NoLater(a: Row, b: Row) {
    a.sample.sequence < b.sample.sequence || (a.sample.sequence == b.sample.sequence && a.queuedAt <= b.queuedAt)
  }

  /** Rows of a table, each once for each time it is there, in order, and none before them is left out. */
  ghost predicate FirstRows(rows: Table, taken: Table) {
    && multiset(taken) <= multiset(rows)
    && (forall i, j :: 0 <= i < j < |taken| ==> NoLater(taken[i], taken[j]))
    && (forall row, t :: row in multiset(rows) - multiset(taken) && t in taken ==> NoLater(t, row))
  }

  lemma SplitCounts<T>(s: seq<T>, n: nat)
    requires n <= |s|
    ensures multiset(s) == multiset(s[..n]) + multiset(s[n..])
  {
    assert s == s[..n] + s[n..];
  }

  lemma SortedNoLater(sorted: Table, i: nat, j: nat)
    requires Sorted(OrderKey, sorted) && i < j < |sorted|
    ensures NoLater(sorted[i], sorted[j])
  {
    assert AtMost(OrderKey(sorted[i]), OrderKey(sorted[j]));
  }

  lemma PrefixIsBeforeRest(sorted: Table, n: nat, t: Row, row: Row)
    requires Sorted(OrderKey, sorted) && n <= |sorted| && t in sorted[..n] && row in sorted[n..]
    ensures NoLater(t, row)
  {
    var i :| 0 <= i < |sorted[..n]| && sorted[..n][i] == t;
    var j :| 0 <= j < |sorted[n..]| && sorted[n..][j] == row;
    SortedNoLater(sorted, i, n + j);
  }

  lemma PrefixIsFirst(rows: Table, sorted: Table, n: nat)
    requires multiset(sorted) == multiset(rows) && Sorted(OrderKey, sorted) && n <= |sorted|
    ensures FirstRows(rows, sorted[..n])
  {
    SplitCounts(sorted, n);
    var taken := sorted[..n];
    assert multiset(rows) - multiset(taken) == multiset(sorted[n..]);
    forall i, j | 0 <= i < j < |taken| ensures NoLater(taken[i], taken[j]) {
      SortedNoLater(sorted, i, j);
    }
    forall row, t | row in multiset(rows) - multiset(taken) && t in taken ensures NoLater(t, row) {
      assert row in multiset(sorted[n..]);
      PrefixIsBeforeRest(sorted, n, t, row);
    }
  }

  /** A pending read returns as many rows as asked for, or all, and the first ones, of any table. */
  lemma PendingTakesFirst(rows: Table, limit: int)
    ensures var n := if 0 <= limit < |rows| then limit else |rows|;
      exists taken :: |taken| == n && FirstRows(rows, taken) && PendingSamples(rows, limit) == RowSamples(taken)
  {
    var n := if 0 <= limit < |rows| then limit else |rows|;
    var sorted := Sort(OrderKey, rows);
    SortPermutes(OrderKey, rows);
    PrefixIsFirst(rows, sorted, n);
    assert Limited(sorted, limit) == sorted[..n];
  }

  // ---------------------------------------------------------------- one agent's life

  /**
   * What one agent holds, with two history variables: every sample it queued, in
   * collection order, and the ids removed by an acknowledgement.
   */
  datatype Agent = Agent(rows: Table, sequence: int, boot: BootId, collected: seq<Sample>, acknowledged: set<SampleId>)

  datatype Step =
    | Collect(reading: Sample, now: int, written: bool)   // the reading's own sequence is replaced
    | Acknowledge(ids: set<SampleId>)
    | Restart(newBoot: BootId, readable: bool)            // whether the largest sequence could be read

  const FRESH_AGENT := Agent([], 0, 0, [], {})

  function NewSample(agent: Agent, reading: Sample): Sample {
    reading.(sequence := agent.sequence + 1)
  }

  predicate Collected(agent: Agent, id: SampleId) {
    exists i :: 0 <= i < |agent.collected| && agent.collected[i].id == id
  }

  function After(agent: Agent, step: Step): Agent {
    match step
    case Collect(reading, now, written) =>
      // Ids are random, so a new sample never repeats an earlier id.
      if Collected(agent, reading.id) then agent
      else
        var sample := NewSample(agent, reading);
        var counted := agent.(sequence := agent.sequence + 1);
        // A failed write still consumes the sequence number.
        if written then
          counted.(rows := Enqueued(agent.rows, sample, now), collected := agent.collected + [sample])
        else counted
    case Acknowledge(ids) =>
      agent.(rows := Without(agent.rows, ids),
             acknowledged := agent.acknowledged + set id | id in ids && HasRow(agent.rows, id))
    case Restart(newBoot, readable) =>
      // The error of a failed read is dropped, and counting starts again.
      agent.(sequence := if readable then LargestSequence(agent.rows) else 0, boot := newBoot)
  }

  function Life(agent: Agent, steps: seq<Step>): Agent
    decreases |steps|
  {
    if steps == [] then agent
    else After(Life(agent, steps[..|steps| - 1]), steps[|steps| - 1])
  }

  /** The reference: collected samples that no acknowledgement removed, oldest first. */
  function Unacknowledged(agent: Agent): seq<Sample> {
    Filter((sample: Sample) => sample.id !in agent.acknowledged, agent.collected)
  }

  ghost predicate Increasing(samples: seq<Sample>) {
    forall i, j :: 0 <= i < j < |samples| ==> samples[i].sequence < samples[j].sequence
  }

  /** The queue holds exactly the unacknowledged samples. */
  ghost predicate Held(agent: Agent) {
    && RowSamples(agent.rows) == Unacknowledged(agent)
    && DistinctIds(agent.collected)
    && (forall id :: id in agent.acknowledged ==> Collected(agent, id))
  }

  /** Their numbers rise in the order they were collected, up to the agent's count. */
  ghost predicate Ordered(agent: Agent) {
    && agent.sequence >= 0
    && Increasing(RowSamples(agent.rows))
    && (forall i :: 0 <= i < |agent.rows| ==> 1 <= agent.rows[i].sample.sequence <= agent.sequence)
  }

  lemma {:induction false} WithoutSamples(rows: Table, ids: set<SampleId>)
    ensures RowSamples(Without(rows, ids)) == Filter((s: Sample) => s.id !in ids, RowSamples(rows))
  {
    if rows != [] {
      WithoutSamples(rows[1..], ids);
      assert RowSamples(rows)[1..] == RowSamples(rows[1..]);
      var rest := Without(rows[1..], ids);
      assert RowSamples([rows[0]] + rest) == [rows[0].sample] + RowSamples(rest);
    }
  }

  lemma {:induction false} FilterTwice(samples: seq<Sample>, a: set<SampleId>, b: set<SampleId>)
    ensures Filter((s: Sample) => s.id !in b, Filter((s: Sample) => s.id !in a, samples))
         == Filter((s: Sample) => s.id !in a + b, samples)
  {
    var fa, fb, fab := (s: Sample) => s.id !in a, (s: Sample) => s.id !in b, (s: Sample) => s.id !in a + b;
    if samples != [] {
      FilterTwice(samples[1..], a, b);
      if fa(samples[0]) {
        assert Filter(fa, samples) == [samples[0]] + Filter(fa, samples[1..]);
        assert Filter(fa, samples)[1..] == Filter(fa, samples[1..]);
      }
    }
  }

  /** Only ids present in the sequence matter to a filter by id. */
  lemma {:induction false} FilterSame(samples: seq<Sample>, a: set<SampleId>, b: set<SampleId>)
    requires forall s :: s in samples ==> (s.id in a <==> s.id in b)
    ensures Filter((s: Sample) => s.id !in a, samples) == Filter((s: Sample) => s.id !in b, samples)
  {
    if samples != [] {
      FilterSame(samples[1..], a, b);
    }
  }

  lemma {:induction false} FilterIncreasing(samples: seq<Sample>, keep: Sample -> bool)
    requires Increasing(samples)
    ensures Increasing(Filter(keep, samples))
  {
    if samples != [] {
      FilterIncreasing(samples[1..], keep);
      FilterMembers(keep, samples[1..]);
      var rest := Filter(keep, samples[1..]);
      forall j | 0 <= j < |rest| ensures samples[0].sequence < rest[j].sequence {
        assert rest[j] in samples[1..];
        var k :| 0 <= k < |samples[1..]| && samples[1..][k] == rest[j];
        assert samples[k + 1] == rest[j];
      }
    }
  }

  // ---------------------------------------------------------------- what the queue holds

  lemma CollectKeepsHeld(agent: Agent, reading: Sample, now: int)
    requires Held(agent)
    requires !Collected(agent, reading.id)
    ensures Held(After(agent, Collect(reading, now, true)))
    ensures After(agent, Collect(reading, now, true)).rows == agent.rows + [Row(NewSample(agent, reading), now)]
  {
    var keep := (s: Sample) => s.id !in agent.acknowledged;
    var next := After(agent, Collect(reading, now, true));
    var sample := NewSample(agent, reading);
    FilterMembers(keep, agent.collected);
    forall i | 0 <= i < |agent.rows| ensures agent.rows[i].sample.id != reading.id {
      assert RowSamples(agent.rows)[i] in agent.collected;
    }
    assert RowSamples(next.rows) == RowSamples(agent.rows) + [sample];
    FilterAppend(keep, agent.collected, [sample]);
    assert [sample][1..] == [];
    assert Filter(keep, [sample]) == [sample];
    forall id | id in next.acknowledged ensures Collected(next, id) {
      var i :| 0 <= i < |agent.collected| && agent.collected[i].id == id;
      assert next.collected[i].id == id;
    }
  }

  lemma AcknowledgeKeepsHeld(agent: Agent, ids: set<SampleId>)
    requires Held(agent)
    ensures Held(After(agent, Acknowledge(ids)))
  {
    var next := After(agent, Acknowledge(ids));
    var removed := set id | id in ids && HasRow(agent.rows, id);
    var pending := Unacknowledged(agent);
    WithoutSamples(agent.rows, ids);
    FilterTwice(agent.collected, agent.acknowledged, removed);
    forall s | s in pending ensures s.id in ids <==> s.id in removed {
      var i :| 0 <= i < |pending| && pending[i] == s;
      assert agent.rows[i].sample == RowSamples(agent.rows)[i];
    }
    FilterSame(pending, ids, removed);
    FilterMembers((s: Sample) => s.id !in agent.acknowledged, agent.collected);
    forall id | id in next.acknowledged ensures Collected(next, id) {
      if id in removed {
        var i :| 0 <= i < |agent.rows| && agent.rows[i].sample.id == id;
        assert RowSamples(agent.rows)[i] in agent.collected;
      }
    }
  }

  /** Every step keeps exactly the unacknowledged samples queued, a restart whose read fails included. */
  lemma StepKeepsHeld(agent: Agent, step: Step)
    requires Held(agent)
    ensures Held(After(agent, step))
  {
    match step
    case Collect(reading, now, written) =>
      if !Collected(agent, reading.id) {
        CollectKeepsHeld(agent, reading, now);
        assert !written ==> Unacknowledged(After(agent, step)) == Unacknowledged(agent);
      }
    case Acknowledge(ids) => AcknowledgeKeepsHeld(agent, ids);
    case Restart(_, _) =>
  }

  lemma {:induction false} LifeIsHeld(steps: seq<Step>)
    ensures Held(Life(FRESH_AGENT, steps))
    decreases |steps|
  {
    if steps != [] {
      LifeIsHeld(steps[..|steps| - 1]);
      StepKeepsHeld(Life(FRESH_AGENT, steps[..|steps| - 1]), steps[|steps| - 1]);
    }
  }

  lemma {:induction false} FilterDistinct(samples: seq<Sample>, keep: Sample -> bool)
    requires DistinctIds(samples)
    ensures DistinctIds(Filter(keep, samples))
  {
    if samples != [] {
      FilterDistinct(samples[1..], keep);
      FilterMembers(keep, samples[1..]);
      var rest := Filter(keep, samples[1..]);
      forall j | 0 <= j < |rest| ensures samples[0].id != rest[j].id {
        assert rest[j] in samples[1..];
        var k :| 0 <= k < |samples[1..]| && samples[1..][k] == rest[j];
        assert samples[k + 1] == rest[j];
      }
    }
  }

  /** What a pending read returns is queued, and no id comes twice. */
  lemma PendingIsQueued(rows: Table, limit: int)
    requires DistinctIds(RowSamples(rows))
    ensures DistinctIds(PendingSamples(rows, limit))
    ensures forall x :: x in PendingSamples(rows, limit) ==> x in RowSamples(rows)
  {
    var sorted := Sort(OrderKey, rows);
    SortPermutes(OrderKey, rows);
    forall i, j | 0 <= i < j < |sorted| ensures sorted[i].sample.id != sorted[j].sample.id {
      assert forall a :: 0 <= a < |rows| ==> RowSamples(rows)[a] == rows[a].sample;
      DistinctKeysTransfer((row: Row) => (row.sample.id, 0), rows, sorted, i, j);
    }
    SortMembers(OrderKey, rows);
    forall x | x in PendingSamples(rows, limit) ensures x in RowSamples(rows) {
      var i :| 0 <= i < |PendingSamples(rows, limit)| && PendingSamples(rows, limit)[i] == x;
      assert sorted[i] in rows;
      var k :| 0 <= k < |rows| && rows[k] == sorted[i];
      assert RowSamples(rows)[k] == x;
    }
  }

  // ---------------------------------------------------------------- the order it is read in

  /** A read of the largest sequence that fails finds the queue empty. */
  predicate InOrder(agent: Agent, step: Step) {
    step.Restart? && !step.readable ==> agent.rows == []
  }

  ghost predicate AllInOrder(agent: Agent, steps: seq<Step>) {
    forall k :: 0 <= k < |steps| ==> InOrder(Life(agent, steps[..k]), steps[k])
  }

  lemma CollectKeepsOrdered(agent: Agent, reading: Sample, now: int, written: bool)
    requires Held(agent) && Ordered(agent) && !Collected(agent, reading.id)
    ensures Ordered(After(agent, Collect(reading, now, written)))
  {
    CollectKeepsHeld(agent, reading, now);
    var next := After(agent, Collect(reading, now, written));
    forall i, j | 0 <= i < j < |next.rows|
      ensures RowSamples(next.rows)[i].sequence < RowSamples(next.rows)[j].sequence
    {
      if j < |agent.rows| {
        assert RowSamples(agent.rows)[i].sequence < RowSamples(agent.rows)[j].sequence;
      } else {
        assert agent.rows[i].sample.sequence <= agent.sequence;
      }
    }
  }

  lemma AcknowledgeKeepsOrdered(agent: Agent, ids: set<SampleId>)
    requires Ordered(agent)
    ensures Ordered(After(agent, Acknowledge(ids)))
  {
    WithoutSamples(agent.rows, ids);
    FilterIncreasing(RowSamples(agent.rows), (s: Sample) => s.id !in ids);
    FilterMembers((row: Row) => row.sample.id !in ids, agent.rows);
    var rows := Without(agent.rows, ids);
    forall i | 0 <= i < |rows| ensures 1 <= rows[i].sample.sequence <= agent.sequence {
      assert rows[i] in agent.rows;
    }
  }

  lemma StepKeepsOrdered(agent: Agent, step: Step)
    requires Held(agent) && Ordered(agent) && InOrder(agent, step)
    ensures Ordered(After(agent, step))
  {
    match step
    case Collect(reading, now, written) =>
      if !Collected(agent, reading.id) { CollectKeepsOrdered(agent, reading, now, written); }
    case Acknowledge(ids) => AcknowledgeKeepsOrdered(agent, ids);
    case Restart(_, _) =>
      if agent.rows != [] { LargestSequenceIsMaximum(agent.rows); }
  }

  lemma InOrderPrefix(agent: Agent, steps: seq<Step>)
    requires steps != [] && AllInOrder(agent, steps)
    ensures AllInOrder(agent, steps[..|steps| - 1])
    ensures InOrder(Life(agent, steps[..|steps| - 1]), steps[|steps| - 1])
  {
    var before := steps[..|steps| - 1];
    forall k | 0 <= k < |before| ensures InOrder(Life(agent, before[..k]), before[k]) {
      assert before[..k] == steps[..k];
    }
  }

  lemma {:induction false} LifeStaysOrdered(agent: Agent, steps: seq<Step>)
    requires Held(agent) && Ordered(agent) && AllInOrder(agent, steps)
    ensures Held(Life(agent, steps)) && Ordered(Life(agent, steps))
    decreases |steps|
  {
    if steps != [] {
      var before := steps[..|steps| - 1];
      InOrderPrefix(agent, steps);
      LifeStaysOrdered(agent, before);
      StepKeepsHeld(Life(agent, before), steps[|steps| - 1]);
      StepKeepsOrdered(Life(agent, before), steps[|steps| - 1]);
    }
  }

  /**
   * Over any run of collections (failed writes included), acknowledgements of any ids and
   * restarts, a pending read returns exactly the oldest unacknowledged samples in collection
   * order, whatever the queue's own clock said, and queued sequences are distinct. The read of the
   * largest sequence may fail at a restart that finds the queue empty.
   */
  lemma {:induction false} PendingIsOldestUnacknowledged(steps: seq<Step>, limit: int)
    requires AllInOrder(FRESH_AGENT, steps)
    ensures var agent := Life(FRESH_AGENT, steps);
      var waiting, read := Unacknowledged(agent), PendingSamples(agent.rows, limit);
      && read <= waiting && |read| == (if 0 <= limit < |waiting| then limit else |waiting|)
      && Increasing(RowSamples(agent.rows))
  {
    assert Held(FRESH_AGENT) && Ordered(FRESH_AGENT);
    LifeStaysOrdered(FRESH_AGENT, steps);
    OrderedQueueReads(Life(FRESH_AGENT, steps), limit);
  }

  lemma OrderedQueueReads(agent: Agent, limit: int)
    requires Held(agent) && Ordered(agent)
    ensures PendingSamples(agent.rows, limit) == Limited(Unacknowledged(agent), limit)
  {
    var rows := agent.rows;
    forall i, j | 0 <= i < j < |rows| ensures AtMost(OrderKey(rows[i]), OrderKey(rows[j])) {
      assert RowSamples(rows)[i].sequence < RowSamples(rows)[j].sequence;
    }
    SortOfSorted(OrderKey, rows);
  }

  /** Counting goes on from the largest queued sequence, and from zero when nothing is queued or it cannot be read. */
  lemma RestartCountsFrom(agent: Agent, boot: BootId, readable: bool)
    ensures var counted := After(agent, Restart(boot, readable)).sequence;
      if readable && agent.rows != [] then
        && (forall row :: row in agent.rows ==> row.sample.sequence <= counted)
        && exists row :: row in agent.rows && row.sample.sequence == counted
      else counted == 0
    ensures After(agent, Restart(boot, readable)).rows == agent.rows
  {
    if agent.rows != [] {
      LargestSequenceIsMaximum(agent.rows);
      var i :| 0 <= i < |agent.rows| && agent.rows[i].sample.sequence == LargestSequence(agent.rows);
      assert agent.rows[i] in agent.rows;
    }
  }

  /** After a failed read the next sample gets the number 1, which some queued sample has or is above. */
  lemma NextSampleIsOutOfOrder(agent: Agent, boot: BootId, reading: Sample)
    requires Held(agent) && Ordered(agent) && agent.rows != [] && !Collected(agent, reading.id)
    ensures var collected := After(After(agent, Restart(boot, false)), Collect(reading, 0, true));
      !Increasing(RowSamples(collected.rows))
  {
    var restarted := After(agent, Restart(boot, false));
    CollectKeepsHeld(restarted, reading, 0);
    var rows := After(restarted, Collect(reading, 0, true)).rows;
    assert RowSamples(rows)[0] == agent.rows[0].sample && RowSamples(rows)[|agent.rows|].sequence == 1;
  }

  /** An id above all of them. */
  function FreshId(samples: seq<Sample>): (id: SampleId)
    ensures forall i :: 0 <= i < |samples| ==> samples[i].id < id
  {
    if samples == [] then 0
    else
      var above := FreshId(samples[..|samples| - 1]);
      if samples[|samples| - 1].id < above then above else samples[|samples| - 1].id + 1
  }

  ghost predicate StaysIncreasing(agent: Agent, steps: seq<Step>) {
    AllInOrder(agent, steps) ==> Increasing(RowSamples(Life(agent, steps).rows))
  }

  /**
   * When at a restart the largest sequence cannot be read, queued sequences stay distinct and in
   * collection order from then on, whatever follows, if and only if the queue is empty.
   */
  lemma {:induction false} FailedReadIsHarmlessExactly(steps: seq<Step>, boot: BootId)
    requires AllInOrder(FRESH_AGENT, steps)
    ensures var agent := Life(FRESH_AGENT, steps);
      (forall more :: StaysIncreasing(After(agent, Restart(boot, false)), more)) <==> agent.rows == []
  {
    var agent := Life(FRESH_AGENT, steps);
    assert Held(FRESH_AGENT) && Ordered(FRESH_AGENT);
    LifeStaysOrdered(FRESH_AGENT, steps);
    var restarted := After(agent, Restart(boot, false));
    if agent.rows == [] {
      forall more ensures StaysIncreasing(restarted, more) {
        if AllInOrder(restarted, more) { LifeStaysOrdered(restarted, more); }
      }
    } else {
      var reading := Sample(FreshId(agent.collected), 0, 0, None, map[], map[]);
      NextSampleIsOutOfOrder(agent, boot, reading);
      assert [Collect(reading, 0, true)][..0] == [];
      assert Life(restarted, [Collect(reading, 0, true)]) == After(restarted, Collect(reading, 0, true));
      assert !StaysIncreasing(restarted, [Collect(reading, 0, true)]);
    }
  }
}
