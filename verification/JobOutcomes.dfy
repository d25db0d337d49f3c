/**
 * What the steps of a job leave in its rows, in every reachable state: when it can be claimed, what
 * a claim, a start, an end, a recorded failure and a lease that runs out make of it.
 */
module JobOutcomes {
  import opened Prelude
  import opened Samples
  import opened HookTables
  import opened JobStore
  import opened HookWorkers
  import opened HookStateLaws

  // ------------------------------------------------------------------ the end of a job

  /** Every execution but `x` and every job but `j` is as before. */
  ghost predicate OtherRowsStay(t: Tables, u: Tables, x: ExecutionId, j: JobId) {
    && |u.executions| == |t.executions| && |u.jobs| == |t.jobs|
    && (forall y :: 0 <= y < |t.executions| && y != x ==> u.executions[y] == t.executions[y])
    && (forall k :: 0 <= k < |t.jobs| && k != j ==> u.jobs[k] == t.jobs[k])
  }

  /** The execution is what it was, but for its status. */
  predicate OnlyStatus(before: Execution, after: Execution) {
    && after.hook == before.hook && after.trigger == before.trigger
    && after.telemetry == before.telemetry && after.dryRun == before.dryRun
  }

  predicate ReadyToCommit(t: Tables, p: Phase, late: bool) {
    && (if late then p.Unlocked? else p.Ended?)
    && !(p.write.Insert? && p.hook in t.states)
  }

  function CommitOf(w: WorkerId, late: bool): Event {
    if late then CommitLate(w) else CommitAndUnlock(w)
  }

  lemma CommitFinishes(s: System, w: WorkerId, late: bool)
    requires ReadyToCommit(s.tables, PhaseOf(s, w), late)
    requires PhaseOf(s, w).job < |s.tables.jobs| && PhaseOf(s, w).execution < |s.tables.executions|
    ensures var p, u := PhaseOf(s, w), Next(s, CommitOf(w, late)).tables;
      u == Finished(s.tables, p.job, p.execution, StatusOf(p.outcome), p.hook, RowOf(p.write))
  {}

  /**
   * Right after a commit the execution is a success exactly when its child succeeded, timed out
   * when the child did, and failed otherwise; its job is completed and unlocked; a success has
   * stored its row and nothing else has; and no other row of any table is touched.
   */
  lemma CommitSettles(past: seq<Event>, w: WorkerId, late: bool)
    requires ReadyToCommit(Run(past).tables, PhaseOf(Run(past), w), late)
    ensures var s := Run(past);
      var p, t, u := PhaseOf(s, w), s.tables, Next(s, CommitOf(w, late)).tables;
      var x, j := p.execution, p.job;
      && x == j < |t.executions| && j < |t.jobs| && OtherRowsStay(t, u, x, j)
      && OnlyStatus(t.executions[x], u.executions[x])
      && (u.executions[x].status == Success <==> p.outcome.Succeeded?)
      && (u.executions[x].status == TimedOut <==> p.outcome.ChildTimedOut?)
      && (u.executions[x].status == Failed <==> p.outcome.ChildFailed? || p.outcome.LeakedSecret?)
      && u.jobs[j] == t.jobs[j].(status := Completed, lockedAt := None, lockedBy := None)
      && (forall h :: h != p.hook ==> StateOf(u, h) == StateOf(t, h))
      && (if p.outcome.Succeeded? then !p.write.NoWrite? && p.hook in u.states && u.states[p.hook] == p.write.row
          else u.states == t.states)
  {
    RunIsConsistent(past);
    RunIsSerial(past);
    var s := Run(past);
    var p := PhaseOf(s, w);
    assert PhaseFits(s.tables, p) && RunFits(s.tables, s.lockOrder, s.updates, s.seen, p);
    CommitFinishes(s, w, late);
  }

  /** A first row that has appeared meanwhile makes the commit fail, and nothing is stored. */
  lemma RefusedCommitStoresNothing(s: System, w: WorkerId, late: bool)
    requires var p := PhaseOf(s, w);
      (if late then p.Unlocked? else p.Ended?) && p.write.Insert? && p.hook in s.tables.states
    ensures var r := Next(s, CommitOf(w, late));
      r.tables == s.tables && r.updates == s.updates && PhaseOf(r, w) == Raised(PhaseOf(s, w).job)
  {}

  // ------------------------------------------------------------------ successes and their record

  /** The successful executions are exactly those whose update has been committed. */
  ghost predicate SuccessesKept(t: Tables, updates: Updates) {
    forall x :: x in updates <==> 0 <= x < |t.executions| && t.executions[x].status == Success
  }

  /** Nothing became a success, and no success became anything else. */
  ghost predicate SameSuccesses(t: Tables, u: Tables) {
    forall x: ExecutionId ::
      (x < |u.executions| && u.executions[x].status == Success) <==>
      (x < |t.executions| && t.executions[x].status == Success)
  }

  lemma RecoveryKeepsSuccesses(t: Tables, now: int)
    ensures SameSuccesses(t, Recovered(t, now))
  {
    RecoveryTouchesOnlyExpired(t, |t.jobs|, now);
  }

  lemma RecoveringStepKeepsSuccesses(s: System, e: Event)
    requires e.Claim? || e.FindNothing?
    ensures SameSuccesses(s.tables, Next(s, e).tables) && Next(s, e).updates == s.updates
  {
    RecoveryKeepsSuccesses(s.tables, s.now);
  }

  lemma FailureKeepsSuccesses(t: Tables, j: JobId)
    requires j < |t.jobs|
    ensures SameSuccesses(t, FailureRecorded(t, j))
  {}

  lemma RowStepKeepsSuccesses(s: System, e: Event)
    requires e.ReadExecution? || e.RecordFailure?
    ensures SameSuccesses(s.tables, Next(s, e).tables) && Next(s, e).updates == s.updates
  {
    var p := PhaseOf(s, e.worker);
    if e.RecordFailure? && p.Raised? && p.job < |s.tables.jobs| { FailureKeepsSuccesses(s.tables, p.job); }
  }

  lemma QueuedKeepsSuccesses(t: Tables, hook: HookId, trigger: TriggerId, telemetry: SampleId, dryRun: bool, now: int)
    ensures SameSuccesses(t, Queued(t, hook, trigger, telemetry, dryRun, now))
  {}

  lemma QueueStepKeepsSuccesses(s: System, e: Event)
    requires e.Queue? || e.Retry?
    ensures SameSuccesses(s.tables, Next(s, e).tables) && Next(s, e).updates == s.updates
  {
    match e
    case Queue(hook, trigger, telemetry, dryRun) =>
      QueuedKeepsSuccesses(s.tables, hook, trigger, telemetry, dryRun, s.now);
    case Retry(x) =>
      if x < |s.tables.executions| {
        var o := s.tables.executions[x];
        QueuedKeepsSuccesses(s.tables, o.hook, o.trigger, o.telemetry, o.dryRun, s.now);
      }
  }

  /** A child starts for an execution that has no success yet. */
  lemma StartKeepsSuccesses(s: System, w: WorkerId)
    requires SuccessesKept(s.tables, s.updates) && RunsFit(s.tables, s.lockOrder, s.updates, s.seen, s.workers)
    ensures var r := Next(s, StartChild(w)); SuccessesKept(r.tables, r.updates)
  {
    var p := PhaseOf(s, w);
    if p.InLock? { assert RunFits(s.tables, s.lockOrder, s.updates, s.seen, p); }
  }

  lemma CommittedKeepsSuccesses(s: System, w: WorkerId, p: Phase)
    requires SuccessesKept(s.tables, s.updates) && RunsFit(s.tables, s.lockOrder, s.updates, s.seen, s.workers)
    requires w in s.workers && p == s.workers[w] && (p.Ended? || p.Unlocked?)
    ensures var r := Committed(s, w, p); SuccessesKept(r.tables, r.updates)
  {
    assert RunFits(s.tables, s.lockOrder, s.updates, s.seen, p);
  }

  lemma TablesLeftKeepUpdates(s: System, e: Event)
    requires LeavesTables(e)
    ensures Next(s, e).updates == s.updates
  {}

  lemma {:induction false} StepKeepsSuccesses(s: System, e: Event)
    requires Serial(s) && SuccessesKept(s.tables, s.updates)
    ensures SuccessesKept(Next(s, e).tables, Next(s, e).updates)
  {
    if e.StartChild? { StartKeepsSuccesses(s, e.worker); }
    else if e.CommitAndUnlock? {
      if PhaseOf(s, e.worker).Ended? { CommittedKeepsSuccesses(s, e.worker, PhaseOf(s, e.worker)); }
    } else if e.CommitLate? {
      if PhaseOf(s, e.worker).Unlocked? { CommittedKeepsSuccesses(s, e.worker, PhaseOf(s, e.worker)); }
    } else if LeavesTables(e) {
      TablesLeft(s, e);
      TablesLeftKeepUpdates(s, e);
    } else if e.Queue? || e.Retry? { QueueStepKeepsSuccesses(s, e); }
    else if e.Claim? || e.FindNothing? { RecoveringStepKeepsSuccesses(s, e); }
    else { RowStepKeepsSuccesses(s, e); }
  }

  /**
   * In every run, whatever lease recovery, exceptions and retries do, an execution is a success if
   * and only if its update was committed: nothing later takes a success back.
   */
  lemma {:induction false} SuccessIsCommitted(events: seq<Event>)
    ensures SuccessesKept(Run(events).tables, Run(events).updates)
    decreases |events|
  {
    if events != [] {
      var before := events[..|events| - 1];
      SuccessIsCommitted(before);
      RunIsSerial(before);
      StepKeepsSuccesses(Run(before), events[|events| - 1]);
    }
  }

  // ------------------------------------------------------------------ leases

  /** The job was locked more than three minutes ago and has not ended. */
  predicate LeaseRanOut(job: Job, now: int) {
    job.status == Active && job.lockedAt.Some? && now - job.lockedAt.value > 180
  }

  /**
   * What recovery makes of every row: a job whose lease ran out has failed, its execution too if it
   * was running, and nothing else has changed.
   */
  ghost predicate RecoveredExactly(t: Tables, u: Tables, count: nat, now: int) {
    && |u.jobs| == |t.jobs| && |u.executions| == |t.executions| && u.states == t.states
    && (forall j :: 0 <= j < |t.jobs| ==> JobRecovered(t, u, j, count, now))
    && (forall x :: 0 <= x < |t.executions| ==> ExecutionRecovered(t, u, x, count, now))
  }

  predicate JobRecovered(t: Tables, u: Tables, j: int, count: nat, now: int)
    requires 0 <= j < |t.jobs| && |u.jobs| == |t.jobs|
  {
    u.jobs[j] == if j < count && LeaseRanOut(t.jobs[j], now) then t.jobs[j].(status := Abandoned) else t.jobs[j]
  }

  predicate ExecutionRecovered(t: Tables, u: Tables, x: int, count: nat, now: int)
    requires 0 <= x < |t.executions| && |u.executions| == |t.executions|
  {
    u.executions[x] ==
      if x < count && x < |t.jobs| && LeaseRanOut(t.jobs[x], now) && t.executions[x].status == Running then
        t.executions[x].(status := Failed)
      else t.executions[x]
  }

  lemma {:induction false} RecoveryIsExactSoFar(t: Tables, count: nat, now: int)
    requires Paired(t.executions, t.jobs) && count <= |t.jobs|
    ensures RecoveredExactly(t, RecoveredFirst(t, count, now), count, now)
  {
    if count > 0 {
      RecoveryIsExactSoFar(t, count - 1, now);
      var before, after := RecoveredFirst(t, count - 1, now), RecoveredFirst(t, count, now);
      assert JobRecovered(t, before, count - 1, count - 1, now);
      forall j | 0 <= j < |t.jobs| ensures JobRecovered(t, after, j, count, now) {
        assert JobRecovered(t, before, j, count - 1, now);
      }
      forall x | 0 <= x < |t.executions| ensures ExecutionRecovered(t, after, x, count, now) {
        assert ExecutionRecovered(t, before, x, count - 1, now);
      }
    }
  }

  lemma RecoveryIsExact(t: Tables, now: int)
    requires Paired(t.executions, t.jobs)
    ensures RecoveredExactly(t, Recovered(t, now), |t.jobs|, now)
  {
    RecoveryIsExactSoFar(t, |t.jobs|, now);
  }

  // ------------------------------------------------------------------ waiting and claiming

  /** A job that waits has never been tried, is locked by nobody and is due, and its execution is pending. */
  predicate Fresh(t: Tables, j: JobId, now: int) {
    && j < |t.jobs| && j < |t.executions| && t.executions[j].status == Pending
    && t.jobs[j].execution == j && t.jobs[j].attempts == 0 && t.jobs[j].nextAttemptAt <= now
    && t.jobs[j].lockedAt == None && t.jobs[j].lockedBy == None
  }

  ghost predicate WaitingAreFresh(t: Tables, now: int) {
    forall j: JobId :: j < |t.jobs| && t.jobs[j].status == Waiting ==> Fresh(t, j, now)
  }

  /** What waited after a step waited before it, or is new, and its rows have not changed. */
  ghost predicate WaitingUntouched(t: Tables, u: Tables, now: int) {
    forall j: JobId :: j < |u.jobs| && u.jobs[j].status == Waiting ==>
      if j < |t.jobs| then j < |t.executions| && j < |u.executions| && u.jobs[j] == t.jobs[j]
                           && u.executions[j] == t.executions[j]
      else Fresh(u, j, now)
  }

  lemma UntouchedStayFresh(t: Tables, u: Tables, before: int, now: int)
    requires WaitingAreFresh(t, before) && before <= now && WaitingUntouched(t, u, now)
    ensures WaitingAreFresh(u, now)
  {
    forall j: JobId | j < |u.jobs| && u.jobs[j].status == Waiting ensures Fresh(u, j, now) {
      if j < |t.jobs| { assert Fresh(t, j, before); }
    }
  }

  lemma RecoveryLeavesWaiting(t: Tables, now: int)
    requires Paired(t.executions, t.jobs)
    ensures WaitingUntouched(t, Recovered(t, now), now)
  {
    RecoveryIsExact(t, now);
    var u := Recovered(t, now);
    forall j: JobId | j < |u.jobs| && u.jobs[j].status == Waiting
      ensures j < |t.executions| && j < |u.executions| && u.jobs[j] == t.jobs[j] && u.executions[j] == t.executions[j]
    {
      assert JobRecovered(t, u, j, |t.jobs|, now) && ExecutionRecovered(t, u, j, |t.jobs|, now);
    }
  }

  lemma QueuedIsFresh(t: Tables, hook: HookId, trigger: TriggerId, telemetry: SampleId, dryRun: bool, now: int)
    requires Paired(t.executions, t.jobs)
    ensures WaitingUntouched(t, Queued(t, hook, trigger, telemetry, dryRun, now), now)
  {}

  lemma QueueStepLeavesWaiting(s: System, e: Event)
    requires Paired(s.tables.executions, s.tables.jobs) && (e.Queue? || e.Retry?)
    ensures WaitingUntouched(s.tables, Next(s, e).tables, s.now) && Next(s, e).now == s.now
  {
    match e
    case Queue(hook, trigger, telemetry, dryRun) => QueuedIsFresh(s.tables, hook, trigger, telemetry, dryRun, s.now);
    case Retry(x) =>
      if x < |s.tables.executions| {
        var o := s.tables.executions[x];
        QueuedIsFresh(s.tables, o.hook, o.trigger, o.telemetry, o.dryRun, s.now);
      }
  }

  lemma ClaimedLeavesWaiting(t: Tables, j: JobId, now: int, w: WorkerId)
    requires Paired(t.executions, t.jobs) && j < |Recovered(t, now).jobs|
    ensures WaitingUntouched(t, Claimed(Recovered(t, now), j, now, w), now)
  {
    RecoveryLeavesWaiting(t, now);
    RecoveryTouchesOnlyExpired(t, |t.jobs|, now);
  }

  lemma RecoveringStepLeavesWaiting(s: System, e: Event)
    requires Paired(s.tables.executions, s.tables.jobs) && (e.Claim? || e.FindNothing?)
    ensures WaitingUntouched(s.tables, Next(s, e).tables, s.now) && Next(s, e).now == s.now
  {
    RecoveryLeavesWaiting(s.tables, s.now);
    if e.Claim? && e.job < |Recovered(s.tables, s.now).jobs| {
      ClaimedLeavesWaiting(s.tables, e.job, s.now, e.worker);
    }
  }

  /** What a worker does to its job's rows touches no job that waits. */
  lemma WorkerRowsLeaveWaiting(s: System, e: Event)
    requires e.ReadExecution? || e.StartChild? || e.RecordFailure?
    requires Paired(s.tables.executions, s.tables.jobs) && PhaseFits(s.tables, PhaseOf(s, e.worker))
    ensures WaitingUntouched(s.tables, Next(s, e).tables, s.now) && Next(s, e).now == s.now
  {
    match e
    case ReadExecution(_) =>
    case StartChild(_) =>
    case RecordFailure(_) =>
  }

  lemma CommittedLeavesWaiting(s: System, w: WorkerId, p: Phase)
    requires Paired(s.tables.executions, s.tables.jobs) && PhaseFits(s.tables, p) && (p.Ended? || p.Unlocked?)
    ensures WaitingUntouched(s.tables, Committed(s, w, p).tables, s.now) && Committed(s, w, p).now == s.now
  {}

  lemma LeftTablesLeaveWaiting(s: System, e: Event)
    requires Paired(s.tables.executions, s.tables.jobs) && LeavesTables(e)
    ensures WaitingUntouched(s.tables, Next(s, e).tables, s.now) && Next(s, e).now >= s.now
  {
    TablesLeft(s, e);
    match e
    case Tick(_) =>
    case Lock(_) =>
    case EndChild(_, _, _) =>
    case UnlockFirst(_) =>
    case Raise(_) =>
    case Crash(_) =>
    case DropLock(_) =>
    case OrphanExits(_) =>
  }

  lemma StepLeavesWaiting(s: System, e: Event)
    requires Consistent(s)
    ensures WaitingUntouched(s.tables, Next(s, e).tables, s.now) && Next(s, e).now >= s.now
  {
    if LeavesTables(e) { LeftTablesLeaveWaiting(s, e); }
    else if e.Queue? || e.Retry? { QueueStepLeavesWaiting(s, e); }
    else if e.Claim? || e.FindNothing? { RecoveringStepLeavesWaiting(s, e); }
    else {
      assert PhaseFits(s.tables, PhaseOf(s, e.worker));
      if e.CommitAndUnlock? {
        if PhaseOf(s, e.worker).Ended? { CommittedLeavesWaiting(s, e.worker, PhaseOf(s, e.worker)); }
      } else if e.CommitLate? {
        if PhaseOf(s, e.worker).Unlocked? { CommittedLeavesWaiting(s, e.worker, PhaseOf(s, e.worker)); }
      } else { WorkerRowsLeaveWaiting(s, e); }
    }
  }

  lemma {:induction false} WaitingStaysFresh(events: seq<Event>)
    ensures WaitingAreFresh(Run(events).tables, Run(events).now)
    decreases |events|
  {
    if events != [] {
      var before, e := Run(events[..|events| - 1]), events[|events| - 1];
      WaitingStaysFresh(events[..|events| - 1]);
      RunIsConsistent(events[..|events| - 1]);
      StepLeavesWaiting(before, e);
      UntouchedStayFresh(before.tables, Next(before, e).tables, before.now, before.now);
      LaterIsFresh(Next(before, e).tables, before.now, Next(before, e).now);
    }
  }

  lemma LaterIsFresh(t: Tables, now: int, later: int)
    requires WaitingAreFresh(t, now) && now <= later
    ensures WaitingAreFresh(t, later)
  {
    forall j: JobId | j < |t.jobs| && t.jobs[j].status == Waiting ensures Fresh(t, j, later) {
      assert Fresh(t, j, now);
    }
  }

  /**
   * In every reachable state an idle worker can take exactly the jobs that wait. The job is then
   * locked by it from now on and has been tried once, and every other row is as recovery leaves it.
   */
  lemma ClaimTakesExactly(past: seq<Event>, w: WorkerId, j: JobId)
    requires PhaseOf(Run(past), w).Idle?
    ensures var s := Run(past);
      var t, r := s.tables, Next(s, Claim(w, j));
      && (PhaseOf(r, w) == HasJob(j) <==> j < |t.jobs| && t.jobs[j].status == Waiting)
      && (if j < |t.jobs| && t.jobs[j].status == Waiting then
            && |r.tables.jobs| == |t.jobs|
            && r.tables.jobs[j] == Job(j, Active, 1, t.jobs[j].nextAttemptAt, Some(s.now), Some(w))
            && RecoveredExactly(t, r.tables.(jobs := r.tables.jobs[j := t.jobs[j]]), |t.jobs|, s.now)
          else r == s)
  {
    var s := Run(past);
    var t := s.tables;
    RunIsConsistent(past);
    WaitingStaysFresh(past);
    RecoveryIsExact(t, s.now);
    if j < |t.jobs| {
      assert JobRecovered(t, Recovered(t, s.now), j, |t.jobs|, s.now);
      if t.jobs[j].status == Waiting {
        assert Fresh(t, j, s.now);
        var settled := Recovered(t, s.now);
        assert Claimed(settled, j, s.now, w).jobs[j := t.jobs[j]] == settled.jobs;
      }
    }
  }

  // ------------------------------------------------------------------ the other steps of a job

  /** A claimed job whose execution has ended meanwhile is completed without a child; another goes on to its lock. */
  lemma ReadGoesOnOrCompletes(past: seq<Event>, w: WorkerId)
    requires PhaseOf(Run(past), w).HasJob?
    ensures var s := Run(past);
      var t, j, r := s.tables, PhaseOf(s, w).job, Next(s, ReadExecution(w));
      && j < |t.jobs| && j < |t.executions|
      && (if t.executions[j].status == Pending || t.executions[j].status == Running then
            r.tables == t && PhaseOf(r, w) == AtLock(j, j, t.executions[j].hook)
          else
            && r.tables == t.(jobs := t.jobs[j := t.jobs[j].(status := Completed)])
            && PhaseOf(r, w) == Idle)
  {
    RunIsConsistent(past);
    assert PhaseFits(Run(past).tables, PhaseOf(Run(past), w));
  }

  /** A child's execution is running from its start, and nothing else in the tables changes. */
  lemma StartRuns(past: seq<Event>, w: WorkerId)
    requires PhaseOf(Run(past), w).InLock?
    ensures var s := Run(past);
      var x, u := PhaseOf(s, w).execution, Next(s, StartChild(w)).tables;
      && x < |s.tables.executions| && |u.executions| == |s.tables.executions|
      && u.jobs == s.tables.jobs && u.states == s.tables.states
      && u.executions[x].status == Running && OnlyStatus(s.tables.executions[x], u.executions[x])
      && forall y :: 0 <= y < |u.executions| && y != x ==> u.executions[y] == s.tables.executions[y]
  {
    RunIsConsistent(past);
    assert PhaseFits(Run(past).tables, PhaseOf(Run(past), w));
  }

  /** A recorded failure fails the job, and the execution unless it has ended. */
  lemma RecordedFailureFails(past: seq<Event>, w: WorkerId)
    requires PhaseOf(Run(past), w).Raised?
    ensures var s := Run(past);
      var t, u, j := s.tables, Next(s, RecordFailure(w)).tables, PhaseOf(s, w).job;
      && j < |t.jobs| && j < |t.executions| && OtherRowsStay(t, u, j, j) && u.states == t.states
      && u.jobs[j] == t.jobs[j].(status := Abandoned)
      && OnlyStatus(t.executions[j], u.executions[j])
      && u.executions[j].status ==
           if t.executions[j].status == Pending || t.executions[j].status == Running then Failed
           else t.executions[j].status
  {
    RunIsConsistent(past);
    assert PhaseFits(Run(past).tables, PhaseOf(Run(past), w));
  }

  /** A retry of a failed or timed-out execution is another one for the same reading, with a job due now. */
  lemma RetryStartsOver(s: System, x: ExecutionId)
    requires x < |s.tables.executions|
    ensures var t, u, o := s.tables, Next(s, Retry(x)).tables, s.tables.executions[x];
      if o.status == Failed || o.status == TimedOut then
        && u.states == t.states
        && u.executions == t.executions + [Execution(o.hook, o.trigger, o.telemetry, o.dryRun, Pending)]
        && u.jobs == t.jobs + [Job(|t.executions|, Waiting, 0, s.now, None, None)]
      else u == t
  {}
}
