/**
 * Runs in which no two successes of a hook can overlap: no worker loses its lock while its child
 * runs, and no child starts between another's unlock and its commit.
 */
module HookQuietRuns {
  import opened HookTables
  import opened JobStore
  import opened HookWorkers
  import opened HookStateLaws

  /** The child of a hook is not started while a run of that hook is unlocked but uncommitted. */
  ghost predicate StartsAfterCommits(s: System, e: Event) {
    e.StartChild? && PhaseOf(s, e.worker).InLock? ==>
      forall v :: v in s.workers && s.workers[v].Unlocked? ==> s.workers[v].hook != PhaseOf(s, e.worker).hook
  }

  ghost predicate QuietAt(s: System, e: Event) {
    !e.DropLock? && StartsAfterCommits(s, e)
  }

  ghost predicate GapsStayQuiet(events: seq<Event>) {
    forall k :: 0 <= k < |events| ==> QuietAt(Run(events[..k]), events[k])
  }

  // ------------------------------------------------------------------ invariant

  /** Of a hook at most one run is at work. */
  ghost predicate OneAtWork(workers: Workers) {
    forall v, w :: v in workers && w in workers && v != w && AtWork(workers[v]) && AtWork(workers[w])
      ==> workers[v].hook != workers[w].hook
  }

  /** What is at work has kept its lock and has seen every committed success of its hook. */
  ghost predicate WorkFits(orders: Orders, updates: Updates, seen: Seen, loose: set<ExecutionId>, p: Phase) {
    AtWork(p) ==> p.execution !in loose && Undisturbed(orders, updates, seen, p.hook, p.execution)
  }

  ghost predicate WorksFit(orders: Orders, updates: Updates, seen: Seen, loose: set<ExecutionId>, workers: Workers) {
    forall w :: w in workers ==> WorkFits(orders, updates, seen, loose, workers[w])
  }

  ghost predicate AllApart(orders: Orders, updates: Updates, seen: Seen) {
    forall h :: Apart(orders, updates, seen, h)
  }

  ghost predicate LooseStarted(loose: set<ExecutionId>, started: multiset<ExecutionId>) {
    forall x :: x in loose ==> x in started
  }

  /** A child that a worker watches has been started. */
  ghost predicate ChildrenStarted(workers: Workers, started: multiset<ExecutionId>) {
    forall v :: v in workers && workers[v].Child? ==> workers[v].execution in started
  }

  ghost predicate Orderly(s: System) {
    && OneAtWork(s.workers)
    && WorksFit(s.lockOrder, s.updates, s.seen, s.loose, s.workers)
    && AllApart(s.lockOrder, s.updates, s.seen)
    && LooseStarted(s.loose, s.started)
    && ChildrenStarted(s.workers, s.started)
  }

  // ------------------------------------------------------------------ steps that start and commit nothing

  ghost predicate SameRecord(s: System, t: System) {
    t.lockOrder == s.lockOrder && t.updates == s.updates && t.seen == s.seen && t.started == s.started
  }

  /** The phase is no work, or it goes on with the work of the phase before. */
  predicate GoesOn(p: Phase, q: Phase) {
    && (AtWork(q) ==> AtWork(p) && q.hook == p.hook && q.execution == p.execution)
    && (q.Child? ==> p.Child?)
  }

  lemma MoveStaysOrderly(s: System, t: System, w: WorkerId, p: Phase)
    requires Orderly(s) && SameRecord(s, t) && t.workers == s.workers[w := p] && t.loose == s.loose
    requires GoesOn(PhaseOf(s, w), p)
    ensures Orderly(t)
  {
    forall v | v in t.workers ensures WorkFits(t.lockOrder, t.updates, t.seen, t.loose, t.workers[v]) {
      if v in s.workers { assert WorkFits(s.lockOrder, s.updates, s.seen, s.loose, s.workers[v]); }
    }
  }

  lemma TableStepStaysOrderly(s: System, e: Event)
    requires Orderly(s) && IsQuiet(e) && !e.DropLock?
    ensures Orderly(Next(s, e))
  {
    QuietStepKeepsHistory(s, e);
  }

  predicate MovesOn(e: Event) {
    e.Claim? || e.ReadExecution? || e.EndChild? || e.UnlockFirst? || e.Raise? || e.RecordFailure?
  }

  lemma WorkerStepKeepsRecord(s: System, e: Event)
    requires MovesOn(e) && Next(s, e) != s
    ensures var t := Next(s, e);
      && SameRecord(s, t) && t.loose == s.loose
      && e.worker in t.workers && t.workers == s.workers[e.worker := t.workers[e.worker]]
      && GoesOn(PhaseOf(s, e.worker), t.workers[e.worker])
  {
    match e
    case Claim(_, _) =>
    case ReadExecution(_) =>
    case EndChild(_, _, _) =>
    case UnlockFirst(_) =>
    case Raise(_) =>
    case RecordFailure(_) =>
  }

  lemma WorkerStepStaysOrderly(s: System, e: Event)
    requires Orderly(s) && MovesOn(e)
    ensures Orderly(Next(s, e))
  {
    var t := Next(s, e);
    if t != s {
      WorkerStepKeepsRecord(s, e);
      MoveStaysOrderly(s, t, e.worker, t.workers[e.worker]);
    }
  }

  // ------------------------------------------------------------------ crashes and locks

  /** The child of a crashed worker is loose, and no other worker has its execution. */
  lemma CrashLeavesWork(orders: Orders, updates: Updates, seen: Seen, loose: set<ExecutionId>, workers: Workers,
                        w: WorkerId)
    requires WorksFit(orders, updates, seen, loose, workers) && w in workers && workers[w].Child?
    requires OthersElsewhere(workers, w, workers[w].execution)
    ensures WorksFit(orders, updates, seen, loose + {workers[w].execution}, workers[w := Idle])
  {
    var moved := workers[w := Idle];
    forall v | v in moved ensures WorkFits(orders, updates, seen, loose + {workers[w].execution}, moved[v]) {
      if v != w { assert WorkFits(orders, updates, seen, loose, workers[v]); }
    }
  }

  lemma CrashStaysOrderly(s: System, w: WorkerId)
    requires PhasesFit(s.tables, s.workers) && JobsApart(s.workers) && Orderly(s)
    ensures Orderly(Next(s, Crash(w)))
  {
    var p, t := PhaseOf(s, w), Next(s, Crash(w));
    if p.Child? {
      OthersAreElsewhere(s.tables, s.workers, w);
      CrashLeavesWork(s.lockOrder, s.updates, s.seen, s.loose, s.workers, w);
    } else {
      MoveStaysOrderly(s, t, w, Idle);
    }
  }

  lemma AppendKeepsWork(orders: Orders, updates: Updates, seen: Seen, loose: set<ExecutionId>, h: HookId,
                        x: ExecutionId, q: Phase)
    requires WorkFits(orders, updates, seen, loose, q) && x !in updates
    ensures WorkFits(orders[h := OrderIn(orders, h) + [x]], updates, seen, loose, q)
  {
    if AtWork(q) {
      forall y | SuccessOf(orders[h := OrderIn(orders, h) + [x]], updates, q.hook, y) ensures y in seen[q.execution] {
        AppendKeepsSuccesses(orders, updates, h, x, q.hook, y);
      }
    }
  }

  lemma LockKeepsWork(s: System, w: WorkerId, p: Phase, h: HookId, x: ExecutionId)
    requires WorksFit(s.lockOrder, s.updates, s.seen, s.loose, s.workers) && x !in s.updates && !AtWork(p)
    ensures WorksFit(s.lockOrder[h := OrderIn(s.lockOrder, h) + [x]], s.updates, s.seen, s.loose, s.workers[w := p])
  {
    var moved := s.workers[w := p];
    forall v | v in moved
      ensures WorkFits(s.lockOrder[h := OrderIn(s.lockOrder, h) + [x]], s.updates, s.seen, s.loose, moved[v])
    {
      if v != w { AppendKeepsWork(s.lockOrder, s.updates, s.seen, s.loose, h, x, s.workers[v]); }
    }
  }

  lemma LockKeepsApart(orders: Orders, updates: Updates, seen: Seen, h: HookId, x: ExecutionId)
    requires AllApart(orders, updates, seen) && x !in updates
    ensures AllApart(orders[h := OrderIn(orders, h) + [x]], updates, seen)
  {
    var after := orders[h := OrderIn(orders, h) + [x]];
    forall g ensures Apart(after, updates, seen, g) {
      AppendKeepsApart(orders, updates, seen, h, x, g);
    }
  }

  lemma LockStaysOrderly(s: System, w: WorkerId)
    requires PhasesFit(s.tables, s.workers) && EarlyNotAcquired(s.workers, s.lockOrder)
    requires UpdatesAcquired(s.updates, s.lockOrder) && Orderly(s)
    ensures Orderly(Next(s, Lock(w)))
  {
    var p, t := PhaseOf(s, w), Next(s, Lock(w));
    if p.AtLock? && KeyOf(p.hook) !in s.locks {
      assert PhaseFits(s.tables, p) && BeforeLock(p) && !Acquired(s.lockOrder, p.execution);
      assert p.execution !in s.updates;
      LockKeepsApart(s.lockOrder, s.updates, s.seen, p.hook, p.execution);
      LockKeepsWork(s, w, t.workers[w], p.hook, p.execution);
    }
  }

  // ------------------------------------------------------------------ starting the child

  /** Whoever else is at work on the hook would hold the lock, or stand in its gap. */
  lemma NobodyElseAtWork(s: System, w: WorkerId, v: WorkerId)
    requires LocksOwned(s.workers, s.locks, s.loose) && StartsAfterCommits(s, StartChild(w))
    requires WorksFit(s.lockOrder, s.updates, s.seen, s.loose, s.workers)
    requires PhaseOf(s, w).InLock? && v in s.workers && AtWork(s.workers[v])
    ensures s.workers[v].hook != PhaseOf(s, w).hook
  {
    assert WorkFits(s.lockOrder, s.updates, s.seen, s.loose, s.workers[v]);
    assert LockOwned(s.locks, s.loose, v, s.workers[v]) && LockOwned(s.locks, s.loose, w, s.workers[w]);
  }

  lemma StarterIsAlone(s: System, w: WorkerId, q: Phase)
    requires LocksOwned(s.workers, s.locks, s.loose) && StartsAfterCommits(s, StartChild(w))
    requires OneAtWork(s.workers) && WorksFit(s.lockOrder, s.updates, s.seen, s.loose, s.workers)
    requires PhaseOf(s, w).InLock? && q.Child? && q.hook == PhaseOf(s, w).hook
    ensures OneAtWork(s.workers[w := q])
  {
    forall v | v in s.workers && v != w && AtWork(s.workers[v]) ensures s.workers[v].hook != q.hook {
      NobodyElseAtWork(s, w, v);
    }
  }

  lemma StartKeepsWork(s: System, w: WorkerId, p: Phase)
    requires WorksFit(s.lockOrder, s.updates, s.seen, s.loose, s.workers) && p.Child? && p.execution !in s.loose
    requires OthersElsewhere(s.workers, w, p.execution)
    ensures WorksFit(s.lockOrder, s.updates, s.seen[p.execution := s.updates.Keys], s.loose, s.workers[w := p])
  {
    var seen, moved := s.seen[p.execution := s.updates.Keys], s.workers[w := p];
    forall v | v in moved ensures WorkFits(s.lockOrder, s.updates, seen, s.loose, moved[v]) {
      if v != w { assert WorkFits(s.lockOrder, s.updates, s.seen, s.loose, s.workers[v]); }
    }
  }

  lemma StartKeepsAllApart(orders: Orders, updates: Updates, seen: Seen, x: ExecutionId)
    requires AllApart(orders, updates, seen) && x !in updates
    ensures AllApart(orders, updates, seen[x := updates.Keys])
  {
    var after := seen[x := updates.Keys];
    forall h ensures Apart(orders, updates, after, h) {
      StartKeepsApart(orders, updates, seen, x, h);
    }
  }

  /** About to start, an execution has no success and no child yet. */
  lemma StarterIsNew(s: System, w: WorkerId)
    requires Consistent(s) && Serial(s) && PhaseOf(s, w).InLock?
    ensures PhaseOf(s, w).execution !in s.updates && PhaseOf(s, w).execution !in s.started
    ensures OthersElsewhere(s.workers, w, PhaseOf(s, w).execution)
  {
    assert RunFits(s.tables, s.lockOrder, s.updates, s.seen, PhaseOf(s, w));
    OthersAreElsewhere(s.tables, s.workers, w);
  }

  lemma StartStaysOrderly(s: System, w: WorkerId)
    requires LocksOwned(s.workers, s.locks, s.loose) && Orderly(s) && StartsAfterCommits(s, StartChild(w))
    requires PhaseOf(s, w).InLock? ==>
      var x := PhaseOf(s, w).execution; x !in s.updates && x !in s.started && OthersElsewhere(s.workers, w, x)
    ensures Orderly(Next(s, StartChild(w)))
  {
    var p, t := PhaseOf(s, w), Next(s, StartChild(w));
    if p.InLock? && p.execution < |s.tables.executions| {
      var q := t.workers[w];
      StarterIsAlone(s, w, q);
      StartKeepsWork(s, w, q);
      StartKeepsAllApart(s.lockOrder, s.updates, s.seen, p.execution);
    }
  }

  lemma StarterStaysOrderly(s: System, w: WorkerId)
    requires Consistent(s) && Serial(s) && Orderly(s) && StartsAfterCommits(s, StartChild(w))
    ensures Orderly(Next(s, StartChild(w)))
  {
    if PhaseOf(s, w).InLock? { StarterIsNew(s, w); }
    StartStaysOrderly(s, w);
  }

  // ------------------------------------------------------------------ committing a success

  lemma UndisturbedJoins(orders: Orders, updates: Updates, seen: Seen, h: HookId, x: ExecutionId,
                         f: StateValue -> StateValue)
    requires Apart(orders, updates, seen, h) && Undisturbed(orders, updates, seen, h, x)
    ensures Apart(orders, updates[x := f], seen, h)
  {
    forall y, z | y != z && SuccessOf(orders, updates[x := f], h, y) && SuccessOf(orders, updates[x := f], h, z)
      ensures CommittedBefore(seen, y, z) || CommittedBefore(seen, z, y)
    {
      assert y != x ==> SuccessOf(orders, updates, h, y);
      assert z != x ==> SuccessOf(orders, updates, h, z);
    }
  }

  /** The commit of what has seen everything before it keeps the hook's successes apart. */
  lemma CommitKeepsApart(t: Tables, orders: Orders, updates: Updates, seen: Seen, h: HookId, x: ExecutionId,
                         f: StateValue -> StateValue)
    requires OrdersFit(t, orders) && BelongsTo(t, x, h)
    requires AllApart(orders, updates, seen) && Undisturbed(orders, updates, seen, h, x)
    ensures AllApart(orders, updates[x := f], seen)
  {
    var after := updates[x := f];
    forall g ensures Apart(orders, after, seen, g) {
      if g == h { UndisturbedJoins(orders, updates, seen, h, x, f); }
      else { OtherHooksKeepApart(t, orders, updates, seen, h, x, f, g); }
    }
  }

  /** What is at work on another hook is not disturbed by a commit. */
  lemma CommitKeepsWork(s: System, w: WorkerId, p: Phase, f: StateValue -> StateValue)
    requires OrdersFit(s.tables, s.lockOrder) && OneAtWork(s.workers) && w in s.workers && p == s.workers[w]
    requires AtWork(p)
    requires BelongsTo(s.tables, p.execution, p.hook) && WorksFit(s.lockOrder, s.updates, s.seen, s.loose, s.workers)
    ensures WorksFit(s.lockOrder, s.updates[p.execution := f], s.seen, s.loose, s.workers[w := Idle])
  {
    var moved := s.workers[w := Idle];
    forall v | v in moved ensures WorkFits(s.lockOrder, s.updates[p.execution := f], s.seen, s.loose, moved[v]) {
      if v != w && AtWork(s.workers[v]) {
        assert WorkFits(s.lockOrder, s.updates, s.seen, s.loose, s.workers[v]);
        OtherHooksKeepApart(s.tables, s.lockOrder, s.updates, s.seen, p.hook, p.execution, f, s.workers[v].hook);
      }
    }
  }

  lemma SuccessStaysOrderly(s: System, w: WorkerId, p: Phase)
    requires PhasesFit(s.tables, s.workers) && Paired(s.tables.executions, s.tables.jobs)
    requires OrdersFit(s.tables, s.lockOrder) && Orderly(s)
    requires w in s.workers && p == s.workers[w] && (p.Ended? || p.Unlocked?) && StoresSuccess(s.tables, p)
    ensures Orderly(Committed(s, w, p))
  {
    assert PhaseFits(s.tables, p) && WorkFits(s.lockOrder, s.updates, s.seen, s.loose, p);
    CommitKeepsApart(s.tables, s.lockOrder, s.updates, s.seen, p.hook, p.execution, p.outcome.update);
    CommitKeepsWork(s, w, p, p.outcome.update);
  }

  lemma CommittedStaysOrderly(s: System, w: WorkerId, p: Phase)
    requires Consistent(s) && Serial(s) && Orderly(s) && w in s.workers && p == s.workers[w]
    requires (p.Ended? || p.Unlocked?)
    ensures Orderly(Committed(s, w, p))
  {
    var next := Committed(s, w, p);
    if StoresSuccess(s.tables, p) {
      SuccessStaysOrderly(s, w, p);
    } else if next != s {
      assert RunFits(s.tables, s.lockOrder, s.updates, s.seen, p);
      OtherCommitKeepsHistory(s, w, p);
      MoveStaysOrderly(s, next, w, next.workers[w]);
    }
  }

  // ------------------------------------------------------------------ every step, every run

  lemma HistoryStepStaysOrderly(s: System, e: Event)
    requires Consistent(s) && Serial(s) && Orderly(s) && QuietAt(s, e) && !MovesOn(e) && !IsQuiet(e)
    ensures Orderly(Next(s, e))
  {
    match e
    case Lock(w) => LockStaysOrderly(s, w);
    case StartChild(w) => StarterStaysOrderly(s, w);
    case CommitAndUnlock(w) => if PhaseOf(s, w).Ended? { CommittedStaysOrderly(s, w, PhaseOf(s, w)); }
    case CommitLate(w) => if PhaseOf(s, w).Unlocked? { CommittedStaysOrderly(s, w, PhaseOf(s, w)); }
    case Crash(w) => CrashStaysOrderly(s, w);
  }

  lemma {:induction false} StepStaysOrderly(s: System, e: Event)
    requires Consistent(s) && Serial(s) && Orderly(s) && QuietAt(s, e)
    ensures Orderly(Next(s, e))
  {
    if MovesOn(e) { WorkerStepStaysOrderly(s, e); }
    else if IsQuiet(e) { TableStepStaysOrderly(s, e); }
    else { HistoryStepStaysOrderly(s, e); }
  }

  lemma QuietPrefix(events: seq<Event>)
    requires events != [] && GapsStayQuiet(events)
    ensures GapsStayQuiet(events[..|events| - 1])
    ensures QuietAt(Run(events[..|events| - 1]), events[|events| - 1])
  {
    var before := events[..|events| - 1];
    forall k | 0 <= k < |before| ensures QuietAt(Run(before[..k]), before[k]) {
      assert before[..k] == events[..k];
    }
  }

  lemma {:induction false} RunIsOrderly(events: seq<Event>)
    requires GapsStayQuiet(events)
    ensures Orderly(Run(events))
    decreases |events|
  {
    if events != [] {
      var before, e := events[..|events| - 1], events[|events| - 1];
      QuietPrefix(events);
      RunIsOrderly(before);
      RunIsConsistent(before);
      RunIsSerial(before);
      StepStaysOrderly(Run(before), e);
    }
  }

  /** With no lock lost and no start in a gap, every state is the fold of all its hook's successes. */
  lemma {:induction false} QuietRunsKeepEveryUpdate(events: seq<Event>, hook: HookId)
    requires GapsStayQuiet(events)
    ensures var s := Run(events);
      StateOf(s.tables, hook) == Expected(OrderOf(s, hook), s.updates)
  {
    RunIsOrderly(events);
    StateIsFoldOfSuccesses(events, hook);
  }

  // ------------------------------------------------------------------ the unlock and the commit as one step

  predicate UnlocksWithCommit(events: seq<Event>) {
    forall i :: 0 <= i < |events| ==> !events[i].UnlockFirst? && !events[i].DropLock?
  }

  lemma StaysLocked(s: System, e: Event, w: WorkerId)
    requires !PhaseOf(s, w).Unlocked? && !e.UnlockFirst?
    ensures !PhaseOf(Next(s, e), w).Unlocked?
  {}

  lemma {:induction false} NeverUnlocked(events: seq<Event>, w: WorkerId)
    requires UnlocksWithCommit(events)
    ensures !PhaseOf(Run(events), w).Unlocked?
    decreases |events|
  {
    if events != [] {
      NeverUnlocked(events[..|events| - 1], w);
      StaysLocked(Run(events[..|events| - 1]), events[|events| - 1], w);
    }
  }

  /** With the unlock and the commit taken as one step and no lock lost, no update is. */
  lemma {:induction false} JointUnlockKeepsEveryUpdate(events: seq<Event>, hook: HookId)
    requires UnlocksWithCommit(events)
    ensures var s := Run(events);
      StateOf(s.tables, hook) == Expected(OrderOf(s, hook), s.updates)
  {
    forall k | 0 <= k < |events| ensures QuietAt(Run(events[..k]), events[k]) {
      var s := Run(events[..k]);
      forall v | v in s.workers ensures !s.workers[v].Unlocked? {
        NeverUnlocked(events[..k], v);
      }
    }
    QuietRunsKeepEveryUpdate(events, hook);
  }
}
