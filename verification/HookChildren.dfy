/**
 * Which children of one hook can run at the same time. The lock keeps them apart; it is freed
 * when its connection dies, and the child of a crashed worker runs on.
 */
module HookChildren {
  import opened HookTables
  import opened HookWorkers
  import opened HookPaths

  /** A child whose worker has not crashed and has not lost its lock is watched by that worker. */
  ghost predicate RunningFits(s: System) {
    forall x :: x in s.running ==> x in s.started && (x in s.loose || Watched(s.workers, x))
  }

  lemma WatchedStill(workers: Workers, w: WorkerId, p: Phase, x: ExecutionId)
    requires Watched(workers, x)
    requires w in workers && workers[w].Child? && workers[w].execution == x ==> p.Child? && p.execution == x
    ensures Watched(workers[w := p], x)
  {
    var v :| v in workers && workers[v].Child? && workers[v].execution == x;
    var after := workers[w := p];
    assert v in after && after[v].Child? && after[v].execution == x;
  }

  /** One worker moves; what it watched is gone, loose, or still watched. */
  lemma RunningFitsAfterMove(s: System, t: System, w: WorkerId, p: Phase)
    requires RunningFits(s) && t.workers == s.workers[w := p] && t.started == s.started
    requires t.running <= s.running && s.loose <= t.loose
    requires PhaseOf(s, w).Child? && !(p.Child? && p.execution == PhaseOf(s, w).execution) ==>
      PhaseOf(s, w).execution !in t.running || PhaseOf(s, w).execution in t.loose
    ensures RunningFits(t)
  {
    forall x | x in t.running ensures x in t.started && (x in t.loose || Watched(t.workers, x)) {
      if x !in t.loose { WatchedStill(s.workers, w, p, x); }
    }
  }

  lemma StartKeepsRunning(s: System, w: WorkerId)
    requires RunningFits(s)
    ensures RunningFits(Next(s, StartChild(w)))
  {
    var p, next := PhaseOf(s, w), Next(s, StartChild(w));
    if p.InLock? && p.execution < |s.tables.executions| {
      var q := next.workers[w];
      assert w in next.workers && q.Child? && q.execution == p.execution;
      forall x | x in next.running ensures x in next.started && (x in next.loose || Watched(next.workers, x)) {
        if x != p.execution && x !in s.loose { WatchedStill(s.workers, w, q, x); }
      }
    }
  }

  lemma OrphanKeepsRunning(s: System, e: Event)
    requires RunningFits(s) && e.OrphanExits?
    ensures RunningFits(Next(s, e))
  {}

  lemma QuietKeepsRunning(s: System, e: Event)
    requires RunningFits(s) && (e.Tick? || e.Queue? || e.Retry? || e.FindNothing?)
    ensures RunningFits(Next(s, e))
  {
    assert Next(s, e).workers == s.workers && Next(s, e).running == s.running && Next(s, e).loose == s.loose;
    assert Next(s, e).started == s.started;
  }

  lemma WorkerKeepsRunning(s: System, e: Event)
    requires RunningFits(s)
    requires e.Claim? || e.ReadExecution? || e.Lock? || e.EndChild? || e.UnlockFirst? || e.Raise? || e.RecordFailure?
          || e.Crash? || e.DropLock?
    ensures RunningFits(Next(s, e))
  {
    var next := Next(s, e);
    if next != s {
      if e.DropLock? {
        assert e.worker in s.workers && next.workers == s.workers[e.worker := next.workers[e.worker]];
      } else {
        OneMoves(s, e);
      }
      RunningFitsAfterMove(s, next, e.worker, next.workers[e.worker]);
    }
  }

  lemma CommitKeepsRunning(s: System, e: Event)
    requires RunningFits(s) && (e.CommitAndUnlock? || e.CommitLate?)
    ensures RunningFits(Next(s, e))
  {
    var next := Next(s, e);
    if next != s {
      OneMoves(s, e);
      RunningFitsAfterMove(s, next, e.worker, next.workers[e.worker]);
    }
  }

  lemma {:induction false} StepKeepsRunning(s: System, e: Event)
    requires RunningFits(s)
    ensures RunningFits(Next(s, e))
  {
    if e.StartChild? { StartKeepsRunning(s, e.worker); }
    else if e.OrphanExits? { OrphanKeepsRunning(s, e); }
    else if e.CommitAndUnlock? || e.CommitLate? { CommitKeepsRunning(s, e); }
    else if e.Tick? || e.Queue? || e.Retry? || e.FindNothing? { QuietKeepsRunning(s, e); }
    else { WorkerKeepsRunning(s, e); }
  }

  lemma {:induction false} RunKeepsRunning(events: seq<Event>)
    ensures RunningFits(Run(events))
    decreases |events|
  {
    if events != [] {
      RunKeepsRunning(events[..|events| - 1]);
      StepKeepsRunning(Run(events[..|events| - 1]), events[|events| - 1]);
    }
  }

  // ------------------------------------------------------------------ two at once

  ghost predicate RunsFor(s: System, x: ExecutionId, h: HookId) {
    x in s.running && BelongsTo(s.tables, x, h)
  }

  /** Two children of one hook are alive. */
  ghost predicate Overlap(s: System, h: HookId) {
    exists x, y :: x != y && RunsFor(s, x, h) && RunsFor(s, y, h)
  }

  /** A child of the hook is started while another still runs whose worker crashed or lost the lock. */
  ghost predicate StartsBesideLoose(s: System, e: Event, h: HookId) {
    && e.StartChild? && PhaseOf(s, e.worker).InLock? && PhaseOf(s, e.worker).hook == h
    && PhaseOf(s, e.worker).execution < |s.tables.executions|
    && exists y :: RunsFor(s, y, h) && y in s.loose
  }

  lemma StartedBelongs(s: System, x: ExecutionId)
    requires Consistent(s) && x in s.started
    ensures x < |s.tables.executions|
  {
    assert Acquired(s.lockOrder, x);
    var h :| h in s.lockOrder && x in s.lockOrder[h];
    assert BelongsTo(s.tables, x, h);
  }

  /** A child that is not new ran before for the same hook. */
  lemma RanBefore(s: System, e: Event, x: ExecutionId, h: HookId)
    requires Consistent(s) && RunningFits(s) && RunsFor(Next(s, e), x, h) && x in s.running
    ensures RunsFor(s, x, h)
  {
    StartedBelongs(s, x);
    StepEvolves(s, e);
  }

  /** A worker with a child and a worker about to start one share a lock key only if the first has lost the lock. */
  lemma LockKeepsApart(s: System, v: WorkerId, w: WorkerId)
    requires LocksOwned(s.workers, s.locks, s.loose) && v in s.workers && w in s.workers
    requires s.workers[v].Child? && s.workers[w].InLock? && s.workers[v].hook == s.workers[w].hook
    ensures s.workers[v].execution in s.loose
  {
    assert LockOwned(s.locks, s.loose, v, s.workers[v]) && LockOwned(s.locks, s.loose, w, s.workers[w]);
  }

  /** The lock keeps a new child apart from every child that still has its worker and its lock. */
  lemma OnlyLooseRemains(s: System, w: WorkerId, y: ExecutionId)
    requires Consistent(s) && RunningFits(s) && PhaseOf(s, w).InLock?
    requires RunsFor(s, y, PhaseOf(s, w).hook)
    ensures y in s.loose
  {
    if Watched(s.workers, y) {
      var v :| v in s.workers && s.workers[v].Child? && s.workers[v].execution == y;
      assert PhaseFits(s.tables, s.workers[v]);
      LockKeepsApart(s, v, w);
    }
  }

  lemma OnlyStartsAdd(s: System, e: Event, x: ExecutionId)
    requires x in Next(s, e).running && x !in s.running
    ensures e.StartChild? && PhaseOf(s, e.worker).InLock? && x == PhaseOf(s, e.worker).execution
    ensures x < |s.tables.executions|
  {}

  lemma NoOverlapAfter(s: System, e: Event, h: HookId)
    requires Consistent(s) && RunningFits(s) && !Overlap(s, h) && Overlap(Next(s, e), h)
    ensures StartsBesideLoose(s, e, h)
  {
    var next := Next(s, e);
    var x, y :| x != y && RunsFor(next, x, h) && RunsFor(next, y, h);
    if x in s.running { RanBefore(s, e, x, h); } else { OnlyStartsAdd(s, e, x); }
    if y in s.running { RanBefore(s, e, y, h); } else { OnlyStartsAdd(s, e, y); }
    var old_, new_ := if x in s.running then x else y, if x in s.running then y else x;
    var p := PhaseOf(s, e.worker);
    assert RunsFor(s, old_, h) && new_ == p.execution;
    assert PhaseFits(s.tables, p);
    StepEvolves(s, e);
    OnlyLooseRemains(s, e.worker, old_);
  }

  lemma BesideLooseOverlaps(s: System, e: Event, h: HookId)
    requires Consistent(s) && RunningFits(s) && StartsBesideLoose(s, e, h)
    ensures Overlap(Next(s, e), h)
  {
    var y :| RunsFor(s, y, h) && y in s.loose;
    var p, next := PhaseOf(s, e.worker), Next(s, e);
    assert PhaseFits(s.tables, p) && p.execution !in s.started;
    StepEvolves(s, e);
    assert RunsFor(next, y, h) && RunsFor(next, p.execution, h) && y != p.execution;
  }

  ghost predicate OverlapsSometime(events: seq<Event>, h: HookId) {
    exists k :: 0 <= k <= |events| && Overlap(Run(events[..k]), h)
  }

  ghost predicate StartsLooseSometime(events: seq<Event>, h: HookId) {
    exists k :: 0 <= k < |events| && StartsBesideLoose(Run(events[..k]), events[k], h)
  }

  lemma {:induction false} OverlapHasCause(events: seq<Event>, k: nat, h: HookId)
    requires k <= |events| && Overlap(Run(events[..k]), h)
    ensures StartsLooseSometime(events, h)
    decreases k
  {
    if k > 0 {
      var before := events[..k - 1];
      assert events[..k][..k - 1] == before;
      RunIsConsistent(before);
      RunKeepsRunning(before);
      if Overlap(Run(before), h) {
        OverlapHasCause(events, k - 1, h);
      } else {
        NoOverlapAfter(Run(before), events[k - 1], h);
      }
    }
  }

  /**
   * In every run two children of one hook are alive together at some time if and only if a child
   * of the hook is started while another still runs whose worker crashed or lost its lock.
   */
  lemma {:induction false} ChildrenOverlapExactly(events: seq<Event>, h: HookId)
    ensures OverlapsSometime(events, h) <==> StartsLooseSometime(events, h)
  {
    if OverlapsSometime(events, h) {
      var k :| 0 <= k <= |events| && Overlap(Run(events[..k]), h);
      OverlapHasCause(events, k, h);
    }
    if StartsLooseSometime(events, h) {
      var k :| 0 <= k < |events| && StartsBesideLoose(Run(events[..k]), events[k], h);
      CauseHasOverlap(events, k, h);
    }
  }

  lemma {:induction false} CauseHasOverlap(events: seq<Event>, k: nat, h: HookId)
    requires k < |events| && StartsBesideLoose(Run(events[..k]), events[k], h)
    ensures OverlapsSometime(events, h)
  {
    RunIsConsistent(events[..k]);
    RunKeepsRunning(events[..k]);
    BesideLooseOverlaps(Run(events[..k]), events[k], h);
    assert events[..k + 1][..k] == events[..k];
    assert Overlap(Run(events[..k + 1]), h);
  }

  lemma LooseStays(s: System, e: Event)
    ensures s.loose <= Next(s, e).loose
  {}

  lemma {:induction false} LooseStaysThrough(events: seq<Event>, k: nat)
    requires k <= |events|
    ensures Run(events[..k]).loose <= Run(events).loose
    ensures Evolves(Run(events[..k]).tables, Run(events).tables)
    decreases |events|
  {
    if k == |events| {
      assert events[..k] == events;
    } else {
      var before := events[..|events| - 1];
      assert before[..k] == events[..k];
      LooseStaysThrough(before, k);
      LooseStays(Run(before), events[|events| - 1]);
      StepEvolves(Run(before), events[|events| - 1]);
    }
  }

  lemma LooseStartLeavesTrace(events: seq<Event>, h: HookId)
    requires StartsLooseSometime(events, h)
    ensures exists x :: x in Run(events).loose && BelongsTo(Run(events).tables, x, h)
  {
    var k :| 0 <= k < |events| && StartsBesideLoose(Run(events[..k]), events[k], h);
    var y :| RunsFor(Run(events[..k]), y, h) && y in Run(events[..k]).loose;
    LooseStaysThrough(events, k);
    assert y in Run(events).loose && BelongsTo(Run(events).tables, y, h);
  }

  /** So while no worker of a hook has crashed or lost its lock with its child running, its children never overlap. */
  lemma ChildrenOfOneHookExcludeEachOther(events: seq<Event>, h: HookId)
    requires forall x :: x in Run(events).loose ==> !BelongsTo(Run(events).tables, x, h)
    ensures !OverlapsSometime(events, h)
  {
    ChildrenOverlapExactly(events, h);
    if StartsLooseSometime(events, h) { LooseStartLeavesTrace(events, h); }
  }

  /** A run in which a worker is killed while its child runs, and the hook's next child starts beside it. */
  lemma CrashLeavesTwoRunning()
    ensures exists events :: OverlapsSometime(events, 7) && Overlap(Run(events), 7)
  {
    RunsAreClosed();
    var queued := TwoJobsQueued(Reached);
    var first := ChildReached(Reached, queued, 1, 0);
    var crashed := StepReaches(Reached, first, Crash(1));
    assert crashed.locks == map[] && crashed.running == {0};
    var second := ChildReached(Reached, crashed, 2, 1);
    assert RunsFor(second, 0, 7) && RunsFor(second, 1, 7);
    var events :| Run(events) == second;
    assert events[..|events|] == events;
  }
}
