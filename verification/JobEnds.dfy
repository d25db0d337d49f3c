/**
 * When the end of a job is final. A worker that outlasts its lease is recorded as failed by
 * another worker's recovery, and as completed when it commits after all.
 */
module JobEnds {
  import opened Prelude
  import opened HookTables
  import opened JobStore
  import opened HookWorkers
  import opened HookPaths

  predicate IsSettled(t: Tables, j: JobId) {
    j < |t.jobs| && t.jobs[j].status in {Completed, Abandoned}
  }

  /** The commit ahead of a worker would insert a row that has appeared meanwhile, and fail. */
  predicate Doomed(t: Tables, p: Phase) {
    (p.Ended? || p.Unlocked?) && p.write.Insert? && p.hook in t.states
  }

  predicate MayStillCommit(t: Tables, p: Phase, j: JobId) {
    !p.Idle? && !p.Raised? && p.job == j && !Doomed(t, p)
  }

  /** Some worker has the job and its commit still ahead. */
  ghost predicate Outstanding(s: System, j: JobId) {
    exists w :: w in s.workers && MayStillCommit(s.tables, s.workers[w], j)
  }

  // ------------------------------------------------------------------ nobody's job stays settled

  predicate SameEnd(t: Tables, u: Tables, j: JobId)
    requires j < |t.jobs|
  {
    j < |u.jobs| && u.jobs[j].status == t.jobs[j].status
  }

  lemma RecoveryKeepsEnd(t: Tables, now: int, j: JobId)
    requires IsSettled(t, j)
    ensures SameEnd(t, Recovered(t, now), j) && Recovered(t, now).states == t.states
  {
    RecoveryTouchesOnlyExpired(t, |t.jobs|, now);
  }

  lemma TableStepKeepsEnd(s: System, e: Event, j: JobId)
    requires IsSettled(s.tables, j)
    requires (e.Tick? || e.Queue? || e.Retry? || e.FindNothing? || e.OrphanExits? || e.DropLock?)
    ensures SameEnd(s.tables, Next(s, e).tables, j)
    ensures Next(s, e).workers == s.workers && Next(s, e).tables.states == s.tables.states
  {
    if e.FindNothing? { RecoveryKeepsEnd(s.tables, s.now, j); }
  }

  lemma ClaimKeepsEnd(s: System, e: Event, j: JobId, w: WorkerId)
    requires IsSettled(s.tables, j) && e.Claim? && w == e.worker
    requires !MayStillCommit(s.tables, PhaseOf(s, w), j)
    ensures SameEnd(s.tables, Next(s, e).tables, j) && !MayStillCommit(Next(s, e).tables, PhaseOf(Next(s, e), w), j)
  {
    RecoveryTouchesOnlyExpired(s.tables, |s.tables.jobs|, s.now);
    RecoveryKeepsEnd(s.tables, s.now, j);
  }

  lemma PhaseStepKeepsEnd(s: System, e: Event, j: JobId, w: WorkerId)
    requires e.Lock? || e.StartChild? || e.EndChild? || e.UnlockFirst? || e.Raise? || e.Crash?
    requires IsSettled(s.tables, j) && w == e.worker && !MayStillCommit(s.tables, PhaseOf(s, w), j)
    ensures SameEnd(s.tables, Next(s, e).tables, j) && !MayStillCommit(Next(s, e).tables, PhaseOf(Next(s, e), w), j)
  {}

  /** With the job a worker can only record a failure, and a completed job no worker has. */
  lemma RowStepKeepsEnd(s: System, e: Event, j: JobId, w: WorkerId)
    requires e.ReadExecution? || e.RecordFailure?
    requires IsSettled(s.tables, j) && w == e.worker && !MayStillCommit(s.tables, PhaseOf(s, w), j)
    requires PhaseFits(s.tables, PhaseOf(s, w))
    ensures SameEnd(s.tables, Next(s, e).tables, j) && !MayStillCommit(Next(s, e).tables, PhaseOf(Next(s, e), w), j)
  {}

  lemma CommitStepKeepsEnd(s: System, e: Event, j: JobId, w: WorkerId)
    requires e.CommitAndUnlock? || e.CommitLate?
    requires IsSettled(s.tables, j) && w == e.worker && !MayStillCommit(s.tables, PhaseOf(s, w), j)
    ensures SameEnd(s.tables, Next(s, e).tables, j) && !MayStillCommit(Next(s, e).tables, PhaseOf(Next(s, e), w), j)
  {}

  lemma WorkerStepKeepsEnd(s: System, e: Event, j: JobId, w: WorkerId)
    requires IsSettled(s.tables, j) && IsWorkerStep(e) && w == e.worker && !MayStillCommit(s.tables, PhaseOf(s, w), j)
    requires PhaseFits(s.tables, PhaseOf(s, w))
    ensures SameEnd(s.tables, Next(s, e).tables, j) && !MayStillCommit(Next(s, e).tables, PhaseOf(Next(s, e), w), j)
  {
    if e.Claim? { ClaimKeepsEnd(s, e, j, w); }
    else if e.CommitAndUnlock? || e.CommitLate? { CommitStepKeepsEnd(s, e, j, w); }
    else if e.ReadExecution? || e.RecordFailure? { RowStepKeepsEnd(s, e, j, w); }
    else { PhaseStepKeepsEnd(s, e, j, w); }
  }

  /** A worker's step moves that worker alone, and no step takes a hook's row away. */
  lemma OneWorkerMoves(s: System, e: Event, v: WorkerId)
    requires IsWorkerStep(e) && v != e.worker
    ensures PhaseOf(Next(s, e), v) == PhaseOf(s, v)
  {
    OneMoves(s, e);
  }

  lemma RowsStay(s: System, e: Event)
    requires IsWorkerStep(e)
    ensures s.tables.states.Keys <= Next(s, e).tables.states.Keys
  {
    if e.Claim? { RecoveryTouchesOnlyExpired(s.tables, |s.tables.jobs|, s.now); }
    else if e.CommitAndUnlock? || e.CommitLate? { CommitRowsStay(s, e); }
  }

  lemma CommitRowsStay(s: System, e: Event)
    requires e.CommitAndUnlock? || e.CommitLate?
    ensures s.tables.states.Keys <= Next(s, e).tables.states.Keys
  {}

  lemma {:induction false} StepKeepsEnd(s: System, e: Event, j: JobId)
    requires Consistent(s) && IsSettled(s.tables, j) && !Outstanding(s, j)
    ensures SameEnd(s.tables, Next(s, e).tables, j) && !Outstanding(Next(s, e), j)
  {
    var next := Next(s, e);
    if IsWorkerStep(e) {
      RowsStay(s, e);
      assert PhaseFits(s.tables, PhaseOf(s, e.worker));
      assert !MayStillCommit(s.tables, PhaseOf(s, e.worker), j);
      WorkerStepKeepsEnd(s, e, j, e.worker);
      forall v | v in next.workers ensures !MayStillCommit(next.tables, next.workers[v], j) {
        if v != e.worker {
          OneWorkerMoves(s, e, v);
          assert !MayStillCommit(s.tables, PhaseOf(s, v), j);
        }
      }
    } else {
      TableStepKeepsEnd(s, e, j);
      forall v | v in next.workers ensures !MayStillCommit(next.tables, next.workers[v], j) {
        assert !MayStillCommit(s.tables, s.workers[v], j);
      }
    }
  }

  ghost predicate KeepsStatus(s: System, events: seq<Event>, j: JobId)
    requires j < |s.tables.jobs|
  {
    var t := RunFrom(s, events).tables;
    j < |t.jobs| && t.jobs[j].status == s.tables.jobs[j].status
  }

  lemma {:induction false} EndStays(s: System, events: seq<Event>, j: JobId)
    requires Consistent(s) && IsSettled(s.tables, j) && !Outstanding(s, j)
    ensures KeepsStatus(s, events, j)
    ensures Consistent(RunFrom(s, events)) && !Outstanding(RunFrom(s, events), j)
    decreases |events|
  {
    if events != [] {
      var before := events[..|events| - 1];
      EndStays(s, before, j);
      StepKeepsConsistent(RunFrom(s, before), events[|events| - 1]);
      StepKeepsEnd(RunFrom(s, before), events[|events| - 1], j);
    }
  }

  // ------------------------------------------------------------------ an outstanding commit can come

  ghost predicate ReachedFrom(s: System, t: System) {
    exists events :: RunFrom(s, events) == t
  }

  lemma RunsFromAreClosed(s: System)
    ensures ReachedFrom(s, s) && Closed(t => ReachedFrom(s, t))
  {
    assert RunFrom(s, []) == s;
    forall t, e | ReachedFrom(s, t) ensures ReachedFrom(s, Next(t, e)) {
      var events :| RunFrom(s, events) == t;
      assert (events + [e])[..|events|] == events;
      assert RunFrom(s, events + [e]) == Next(t, e);
    }
  }

  predicate IsCompleted(s: System, j: JobId) {
    j < |s.tables.jobs| && s.tables.jobs[j].status == Completed
  }

  lemma EndedCommits(reach: System -> bool, s: System, w: WorkerId, j: JobId) returns (r: System)
    requires Closed(reach) && reach(s) && Consistent(s) && w in s.workers
    requires MayStillCommit(s.tables, s.workers[w], j) && (s.workers[w].Ended? || s.workers[w].Unlocked?)
    ensures reach(r) && IsCompleted(r, j)
  {
    assert PhaseFits(s.tables, s.workers[w]);
    r := StepReaches(reach, s, if s.workers[w].Ended? then CommitAndUnlock(w) else CommitLate(w));
  }

  lemma ChildCommits(reach: System -> bool, s: System, w: WorkerId, j: JobId) returns (r: System)
    requires Closed(reach) && reach(s) && Consistent(s) && w in s.workers
    requires s.workers[w].Child? && s.workers[w].job == j
    ensures reach(r) && IsCompleted(r, j)
  {
    var e := EndChild(w, ChildFailed, false);
    StepKeepsConsistent(s, e);
    r := StepReaches(reach, s, e);
    r := EndedCommits(reach, r, w, j);
  }

  lemma LockHolderCommits(reach: System -> bool, s: System, w: WorkerId, j: JobId) returns (r: System)
    requires Closed(reach) && reach(s) && Consistent(s) && w in s.workers
    requires s.workers[w].InLock? && s.workers[w].job == j
    ensures reach(r) && IsCompleted(r, j)
  {
    assert PhaseFits(s.tables, s.workers[w]);
    StepKeepsConsistent(s, StartChild(w));
    r := StepReaches(reach, s, StartChild(w));
    r := ChildCommits(reach, r, w, j);
  }

  lemma CrashFreesLock(s: System, w: WorkerId, k: LockKey)
    requires k in s.locks && s.locks[k] != w && w in s.workers
    ensures var r := Next(s, Crash(s.locks[k])); k !in r.locks && w in r.workers && r.workers[w] == s.workers[w]
  {}

  lemma HolderIsNotWaiting(workers: Workers, locks: Locks, w: WorkerId, k: LockKey)
    requires OwnersHold(workers, locks) && k in locks && w in workers && workers[w].AtLock?
    ensures locks[k] != w
  {}

  /** Whoever holds the lock may crash, and then it is free. */
  lemma LockComesFree(reach: System -> bool, s: System, w: WorkerId) returns (r: System)
    requires Closed(reach) && reach(s) && Consistent(s) && w in s.workers && s.workers[w].AtLock?
    ensures reach(r) && Consistent(r) && KeyOf(s.workers[w].hook) !in r.locks
    ensures w in r.workers && r.workers[w] == s.workers[w]
  {
    var k := KeyOf(s.workers[w].hook);
    r := s;
    if k in s.locks {
      HolderIsNotWaiting(s.workers, s.locks, w, k);
      CrashFreesLock(s, w, k);
      StepKeepsConsistent(s, Crash(s.locks[k]));
      r := StepReaches(reach, s, Crash(s.locks[k]));
    }
  }

  lemma WaiterCommits(reach: System -> bool, s: System, w: WorkerId, j: JobId) returns (r: System)
    requires Closed(reach) && reach(s) && Consistent(s) && w in s.workers
    requires s.workers[w].AtLock? && s.workers[w].job == j
    ensures reach(r) && IsCompleted(r, j)
  {
    var free := LockComesFree(reach, s, w);
    StepKeepsConsistent(free, Lock(w));
    var locked := StepReaches(reach, free, Lock(w));
    assert locked.workers[w].InLock? && locked.workers[w].job == j;
    r := LockHolderCommits(reach, locked, w, j);
  }

  lemma ClaimerCommits(reach: System -> bool, s: System, w: WorkerId, j: JobId) returns (r: System)
    requires Closed(reach) && reach(s) && Consistent(s) && w in s.workers
    requires s.workers[w].HasJob? && s.workers[w].job == j
    ensures reach(r) && IsCompleted(r, j)
  {
    ReadEnds(s, w, j);
    StepKeepsConsistent(s, ReadExecution(w));
    r := StepReaches(reach, s, ReadExecution(w));
    if !IsCompleted(r, j) {
      r := WaiterCommits(reach, r, w, j);
    }
  }

  lemma ReadEnds(s: System, w: WorkerId, j: JobId)
    requires PhaseOf(s, w).HasJob? && PhaseOf(s, w).job == j && PhaseFits(s.tables, PhaseOf(s, w))
    requires Paired(s.tables.executions, s.tables.jobs)
    ensures var r := Next(s, ReadExecution(w));
      IsCompleted(r, j) || (w in r.workers && r.workers[w].AtLock? && r.workers[w].job == j)
  {}

  lemma OutstandingCommits(reach: System -> bool, s: System, w: WorkerId, j: JobId) returns (r: System)
    requires Closed(reach) && reach(s) && Consistent(s) && w in s.workers && MayStillCommit(s.tables, s.workers[w], j)
    ensures reach(r) && IsCompleted(r, j)
  {
    match s.workers[w]
    case HasJob(_) => r := ClaimerCommits(reach, s, w, j);
    case AtLock(_, _, _) => r := WaiterCommits(reach, s, w, j);
    case InLock(_, _, _) => r := LockHolderCommits(reach, s, w, j);
    case Child(_, _, _, _) => r := ChildCommits(reach, s, w, j);
    case _ => r := EndedCommits(reach, s, w, j);
  }

  lemma OutstandingChangesEnd(s: System, j: JobId)
    requires Consistent(s) && IsSettled(s.tables, j) && Outstanding(s, j)
    ensures exists events :: !KeepsStatus(s, events, j)
  {
    var w :| w in s.workers && MayStillCommit(s.tables, s.workers[w], j);
    assert PhaseFits(s.tables, s.workers[w]);
    RunsFromAreClosed(s);
    var r := OutstandingCommits(t => ReachedFrom(s, t), s, w, j);
    var events :| RunFrom(s, events) == r;
    assert !KeepsStatus(s, events, j);
  }

  /**
   * In every reachable state a settled job keeps its status whatever happens next if and only if
   * no worker has it with a commit still ahead.
   */
  lemma {:induction false} EndIsFinalExactly(past: seq<Event>, j: JobId)
    requires IsSettled(Run(past).tables, j)
    ensures (forall events :: KeepsStatus(Run(past), events, j)) <==> !Outstanding(Run(past), j)
  {
    var s := Run(past);
    RunIsConsistent(past);
    if Outstanding(s, j) {
      OutstandingChangesEnd(s, j);
    } else {
      forall events ensures KeepsStatus(s, events, j) { EndStays(s, events, j); }
    }
  }

  ghost predicate FailedThenCompleted(s: System, w: WorkerId, outcome: Outcome) {
    var end := Next(Next(s, EndChild(w, outcome, false)), CommitAndUnlock(w));
    && |s.tables.jobs| > 0 && s.tables.jobs[0].status == Abandoned
    && |end.tables.jobs| > 0 && end.tables.jobs[0].status == Completed
  }

  lemma ChildThenCommit(s: System, w: WorkerId, outcome: Outcome)
    requires PhaseOf(s, w).Child? && PhaseOf(s, w).job == 0 && PhaseOf(s, w).execution == 0 && !outcome.Succeeded?
    requires |s.tables.jobs| > 0 && |s.tables.executions| > 0 && s.tables.jobs[0].status == Abandoned
    ensures FailedThenCompleted(s, w, outcome)
  {
    var ended := Next(s, EndChild(w, outcome, false));
    assert PhaseOf(ended, w).Ended? && ended.tables == s.tables;
  }

  /** A worker's child is running when the lease of its job expires and another worker's recovery fails the job. */
  lemma LeaseIsOutlasted(reach: System -> bool) returns (r: System)
    requires Closed(reach) && reach(START)
    ensures reach(r) && PhaseOf(r, 1) == Child(0, 0, 7, None)
    ensures |r.tables.jobs| > 0 && |r.tables.executions| > 0 && r.tables.jobs[0].status == Abandoned
  {
    var queued := TwoJobsQueued(reach);
    var started := ChildReached(reach, queued, 1, 0);
    assert started.tables.jobs[0] == ClaimedAtZero(0, 1) && started.now == 0;
    var late := StepReaches(reach, started, Tick(181));
    r := RecoveredByOther(reach, late);
  }

  lemma RecoveredByOther(reach: System -> bool, s: System) returns (r: System)
    requires Closed(reach) && reach(s) && s.now == 181 && PhaseOf(s, 1).Child? && PhaseOf(s, 2).Idle?
    requires |s.tables.jobs| > 0 && |s.tables.executions| > 0 && s.tables.jobs[0] == ClaimedAtZero(0, 1)
    ensures reach(r) && PhaseOf(r, 1) == PhaseOf(s, 1)
    ensures |r.tables.jobs| > 0 && |r.tables.executions| > 0 && r.tables.jobs[0].status == Abandoned
  {
    RecoveryTouchesOnlyExpired(s.tables, |s.tables.jobs|, 181);
    r := StepReaches(reach, s, FindNothing(2));
  }

  /** The other case is reached: a run fails a job by its lease, and completes it afterwards. */
  lemma OutlastedLeaseIsOverwritten()
    ensures exists past, w, outcome :: FailedThenCompleted(Run(past), w, outcome)
  {
    RunsAreClosed();
    var late := LeaseIsOutlasted(Reached);
    ChildThenCommit(late, 1, ChildFailed);
    var past :| Run(past) == late;
    assert FailedThenCompleted(Run(past), 1, ChildFailed);
  }
}
