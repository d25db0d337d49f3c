/**
 * Any number of workers taking jobs from one table: claim, wait for the hook's advisory
 * lock, run the child, commit, with a crash or an exception possible at every point.
 */
module HookWorkers {
  import opened Prelude
  import opened Samples
  import opened HookTables
  import opened JobStore

  // pg_advisory_lock(hashtext(hook)): a 32-bit key, so two hooks may share one.
  type LockKey = nat

  function KeyOf(hook: HookId): LockKey {
    hook % 0x1_0000_0000
  }

  /** How a child ended. A success carries what the hook's code made of its input state. */
  datatype Outcome =
    | Succeeded(update: StateValue -> StateValue)
    | LeakedSecret       // success, but the state holds a secret value: stored as failed
    | ChildFailed
    | ChildTimedOut

  /** What the final commit does to the hook's row. An insert fails when the row has appeared meanwhile. */
  datatype Write = NoWrite | Insert(row: HookState) | Update(row: HookState)

  datatype Phase =
    | Idle
    | HasJob(job: JobId)                                            // claim committed
    | AtLock(job: JobId, execution: ExecutionId, hook: HookId)      // waiting for the hook's lock
    | InLock(job: JobId, execution: ExecutionId, hook: HookId)
    | Child(job: JobId, execution: ExecutionId, hook: HookId, input: Option<HookState>)
    | Ended(job: JobId, execution: ExecutionId, hook: HookId, outcome: Outcome, write: Write)
    | Unlocked(job: JobId, execution: ExecutionId, hook: HookId, outcome: Outcome, write: Write)
    | Raised(job: JobId)                                            // rolled back, failure not recorded yet

  datatype System = System(
    tables: Tables,
    now: int,
    workers: map<WorkerId, Phase>,
    locks: map<LockKey, WorkerId>,
    running: set<ExecutionId>,                               // children alive, watched by a worker or not
    loose: set<ExecutionId>,                                 // whose worker crashed, or lost its lock, meanwhile
    started: multiset<ExecutionId>,                          // every child process ever started
    seen: map<ExecutionId, set<ExecutionId>>,                // the successes committed when each child started
    lockOrder: map<HookId, seq<ExecutionId>>,                // who got each hook's lock, in order
    updates: map<ExecutionId, StateValue -> StateValue>)     // committed successes

  datatype Event =
    | Tick(seconds: nat)
    | Queue(hook: HookId, trigger: TriggerId, telemetry: SampleId, dryRun: bool)
    | Retry(previous: ExecutionId)
    | Claim(worker: WorkerId, job: JobId)
    | FindNothing(worker: WorkerId)
    | ReadExecution(worker: WorkerId)
    | Lock(worker: WorkerId)
    | StartChild(worker: WorkerId)
    | EndChild(worker: WorkerId, outcome: Outcome, reread: bool)
    | CommitAndUnlock(worker: WorkerId)
    | UnlockFirst(worker: WorkerId)
    | CommitLate(worker: WorkerId)
    | Raise(worker: WorkerId)
    | RecordFailure(worker: WorkerId)
    | Crash(worker: WorkerId)
    | DropLock(worker: WorkerId)
    | OrphanExits(orphan: ExecutionId)

  function PhaseOf(s: System, w: WorkerId): Phase {
    if w in s.workers then s.workers[w] else Idle
  }

  function StateOf(t: Tables, hook: HookId): Option<HookState> {
    if hook in t.states then Some(t.states[hook]) else None
  }

  function ValueOf(state: Option<HookState>): StateValue {
    if state.Some? then state.value.value else EMPTY_STATE
  }

  function OrderOf(s: System, hook: HookId): seq<ExecutionId> {
    if hook in s.lockOrder then s.lockOrder[hook] else []
  }

  predicate HoldsLock(p: Phase) {
    p.InLock? || p.Child? || p.Ended?
  }

  /**
   * The new value comes from the row the child was given; the version from the row the session
   * has: the one read for the child while the session still keeps it, or one read again.
   */
  function WriteOf(t: Tables, hook: HookId, input: Option<HookState>, outcome: Outcome, reread: bool): Write {
    if !outcome.Succeeded? then NoWrite
    else
      var existing := if input.Some? && !reread then input else StateOf(t, hook);
      var row := NextRow(existing, Some(outcome.update(ValueOf(input)))).value;
      if existing.Some? then Update(row) else Insert(row)
  }

  function StatusOf(outcome: Outcome): ExecutionStatus {
    match outcome
    case Succeeded(_) => Success
    case LeakedSecret => Failed
    case ChildFailed => Failed
    case ChildTimedOut => TimedOut
  }

  function Released(s: System, w: WorkerId): map<LockKey, WorkerId> {
    map k | k in s.locks && s.locks[k] != w :: s.locks[k]
  }

  function RowOf(write: Write): Option<HookState> {
    if write.NoWrite? then None else Some(write.row)
  }

  /** The final commit, with whatever lock the worker still has given up. */
  function Committed(s: System, w: WorkerId, p: Phase): System
    requires p.Ended? || p.Unlocked?
  {
    if p.write.Insert? && p.hook in s.tables.states then
      s.(workers := s.workers[w := Raised(p.job)], locks := Released(s, w))
    else if p.job < |s.tables.jobs| && p.execution < |s.tables.executions| then
      s.(tables := Finished(s.tables, p.job, p.execution, StatusOf(p.outcome), p.hook, RowOf(p.write)),
         workers := s.workers[w := Idle],
         locks := Released(s, w),
         updates := if p.outcome.Succeeded? then s.updates[p.execution := p.outcome.update] else s.updates)
    else s
  }

  predicate Watched(workers: map<WorkerId, Phase>, x: ExecutionId) {
    exists w :: w in workers && workers[w].Child? && workers[w].execution == x
  }

  function Next(s: System, e: Event): System {
    match e
    case Tick(seconds) => s.(now := s.now + seconds)
    case Queue(hook, trigger, telemetry, dryRun) =>
      s.(tables := Queued(s.tables, hook, trigger, telemetry, dryRun, s.now))
    case Retry(x) =>
      // Only a failed or timed-out execution may be retried, and the retry is a new execution.
      if x < |s.tables.executions| && s.tables.executions[x].status in {Failed, TimedOut} then
        var o := s.tables.executions[x];
        s.(tables := Queued(s.tables, o.hook, o.trigger, o.telemetry, o.dryRun, s.now))
      else s
    case Claim(w, j) =>
      var settled := Recovered(s.tables, s.now);
      if PhaseOf(s, w).Idle? && j < |settled.jobs| && Claimable(settled.jobs[j], s.now) then
        s.(tables := Claimed(settled, j, s.now, w), workers := s.workers[w := HasJob(j)])
      else s
    case FindNothing(w) =>
      if PhaseOf(s, w).Idle? then s.(tables := Recovered(s.tables, s.now)) else s
    case ReadExecution(w) =>
      var p := PhaseOf(s, w);
      if p.HasJob? && p.job < |s.tables.jobs| && s.tables.jobs[p.job].execution < |s.tables.executions| then
        var x := s.tables.jobs[p.job].execution;
        if s.tables.executions[x].status in {Pending, Running} then
          s.(workers := s.workers[w := AtLock(p.job, x, s.tables.executions[x].hook)])
        else s.(tables := Skipped(s.tables, p.job), workers := s.workers[w := Idle])
      else s
    case Lock(w) =>
      var p := PhaseOf(s, w);
      if p.AtLock? && KeyOf(p.hook) !in s.locks then
        s.(workers := s.workers[w := InLock(p.job, p.execution, p.hook)],
           locks := s.locks[KeyOf(p.hook) := w],
           lockOrder := s.lockOrder[p.hook := OrderOf(s, p.hook) + [p.execution]])
      else s
    case StartChild(w) =>
      var p := PhaseOf(s, w);
      if p.InLock? && p.execution < |s.tables.executions| then
        s.(tables := Started(s.tables, p.execution),
           workers := s.workers[w := Child(p.job, p.execution, p.hook, StateOf(s.tables, p.hook))],
           running := s.running + {p.execution},
           started := s.started + multiset{p.execution},
           seen := s.seen[p.execution := s.updates.Keys])
      else s
    case EndChild(w, outcome, reread) =>
      var p := PhaseOf(s, w);
      if p.Child? then
        s.(workers := s.workers[w := Ended(p.job, p.execution, p.hook, outcome,
                                           WriteOf(s.tables, p.hook, p.input, outcome, reread))],
           running := s.running - {p.execution})
      else s
    case CommitAndUnlock(w) =>
      if PhaseOf(s, w).Ended? then Committed(s, w, PhaseOf(s, w)) else s
    case UnlockFirst(w) =>
      var p := PhaseOf(s, w);
      if p.Ended? then
        s.(workers := s.workers[w := Unlocked(p.job, p.execution, p.hook, p.outcome, p.write)], locks := Released(s, w))
      else s
    case CommitLate(w) =>
      if PhaseOf(s, w).Unlocked? then Committed(s, w, PhaseOf(s, w)) else s
    case Raise(w) =>
      // An exception comes before the child starts or after it has ended.
      var p := PhaseOf(s, w);
      if p.Idle? || p.Raised? then s
      else
        s.(workers := s.workers[w := Raised(p.job)], locks := Released(s, w),
           running := if p.Child? then s.running - {p.execution} else s.running)
    case RecordFailure(w) =>
      var p := PhaseOf(s, w);
      if p.Raised? && p.job < |s.tables.jobs| then
        s.(tables := FailureRecorded(s.tables, p.job), workers := s.workers[w := Idle])
      else s
    case Crash(w) =>
      // The database frees the lock; the child has a session of its own and runs on.
      var p := PhaseOf(s, w);
      s.(workers := s.workers[w := Idle], locks := Released(s, w),
         loose := if p.Child? then s.loose + {p.execution} else s.loose)
    case DropLock(w) =>
      // While the child runs the connection that holds the lock is idle. When it dies the lock goes,
      // and the worker, which takes another connection afterwards, does not notice.
      var p := PhaseOf(s, w);
      if p.Child? then s.(locks := Released(s, w), loose := s.loose + {p.execution}) else s
    case OrphanExits(x) =>
      if Watched(s.workers, x) then s else s.(running := s.running - {x})
  }

  predicate IsWorkerStep(e: Event) {
    || e.Claim? || e.ReadExecution? || e.Lock? || e.StartChild? || e.EndChild? || e.CommitAndUnlock?
    || e.UnlockFirst? || e.CommitLate? || e.Raise? || e.RecordFailure? || e.Crash?
  }

  const START := System(Tables([], [], map[]), 0, map[], map[], {}, {}, multiset{}, map[], map[], map[])

  function RunFrom(s: System, events: seq<Event>): System
    decreases |events|
  {
    if events == [] then s else Next(RunFrom(s, events[..|events| - 1]), events[|events| - 1])
  }

  function Run(events: seq<Event>): System {
    RunFrom(START, events)
  }

  // ------------------------------------------------------------------ who holds which job

  type Workers = map<WorkerId, Phase>
  type Locks = map<LockKey, WorkerId>
  type Orders = map<HookId, seq<ExecutionId>>

  predicate BeforeLock(p: Phase) {
    p.HasJob? || p.AtLock?
  }

  ghost predicate Acquired(orders: Orders, x: ExecutionId) {
    exists h :: h in orders && x in orders[h]
  }

  /** The rows a worker's phase speaks of: its job, that job's execution and that execution's hook. */
  ghost predicate PhaseFits(t: Tables, p: Phase) {
    && (!p.Idle? ==> p.job < |t.jobs| && t.jobs[p.job].status in {Active, Abandoned})
    && (!p.Idle? && !p.HasJob? && !p.Raised? ==>
          p.execution == p.job && p.job < |t.executions| && p.hook == t.executions[p.job].hook)
  }

  ghost predicate PhasesFit(t: Tables, workers: Workers) {
    forall w :: w in workers ==> PhaseFits(t, workers[w])
  }

  /** No two workers have the same job. */
  ghost predicate JobsApart(workers: Workers) {
    forall v, w :: v in workers && w in workers && v != w && !workers[v].Idle? && !workers[w].Idle?
      ==> workers[v].job != workers[w].job
  }

  ghost predicate LockOwned(locks: Locks, loose: set<ExecutionId>, w: WorkerId, p: Phase) {
    (p.InLock? || ((p.Child? || p.Ended?) && p.execution !in loose)) ==>
      KeyOf(p.hook) in locks && locks[KeyOf(p.hook)] == w
  }

  ghost predicate LocksOwned(workers: Workers, locks: Locks, loose: set<ExecutionId>) {
    forall w :: w in workers ==> LockOwned(locks, loose, w, workers[w])
  }

  /** A lock is held by a worker at its hook. */
  ghost predicate OwnersHold(workers: Workers, locks: Locks) {
    forall k :: k in locks ==> locks[k] in workers && HoldsLock(workers[locks[k]])
  }

  ghost predicate OrdersFit(t: Tables, orders: Orders) {
    forall h, x :: h in orders && x in orders[h] ==> BelongsTo(t, x, h)
  }

  predicate BelongsTo(t: Tables, x: ExecutionId, h: HookId) {
    x < |t.executions| && t.executions[x].hook == h
  }

  ghost predicate Distinct(order: seq<ExecutionId>) {
    forall i, j :: 0 <= i < j < |order| ==> order[i] != order[j]
  }

  ghost predicate OrdersDistinct(orders: Orders) {
    forall h :: h in orders ==> Distinct(orders[h])
  }

  /** An execution whose job nobody has claimed has never had its hook's lock. */
  ghost predicate WaitingNotAcquired(t: Tables, orders: Orders) {
    forall j :: 0 <= j < |t.jobs| && t.jobs[j].status == Waiting ==> !Acquired(orders, j)
  }

  ghost predicate EarlyNotAcquired(workers: Workers, orders: Orders) {
    forall w :: w in workers && BeforeLock(workers[w]) ==> !Acquired(orders, workers[w].job)
  }

  predicate LastIs(orders: Orders, h: HookId, x: ExecutionId) {
    h in orders && orders[h] != [] && orders[h][|orders[h]| - 1] == x
  }

  /** Whoever is about to start a child was the last to get the lock. */
  ghost predicate HoldersLast(workers: Workers, orders: Orders) {
    forall w :: w in workers && workers[w].InLock? ==> LastIs(orders, workers[w].hook, workers[w].execution)
  }

  ghost predicate StartedOnce(started: multiset<ExecutionId>, orders: Orders) {
    forall x :: x in started ==> started[x] == 1 && Acquired(orders, x)
  }

  ghost predicate NotYetStarted(workers: Workers, started: multiset<ExecutionId>) {
    forall w :: w in workers && workers[w].InLock? ==> workers[w].execution !in started
  }

  ghost predicate Consistent(s: System) {
    && Paired(s.tables.executions, s.tables.jobs)
    && PhasesFit(s.tables, s.workers)
    && JobsApart(s.workers)
    && LocksOwned(s.workers, s.locks, s.loose)
    && OwnersHold(s.workers, s.locks)
    && OrdersFit(s.tables, s.lockOrder)
    && OrdersDistinct(s.lockOrder)
    && WaitingNotAcquired(s.tables, s.lockOrder)
    && EarlyNotAcquired(s.workers, s.lockOrder)
    && HoldersLast(s.workers, s.lockOrder)
    && StartedOnce(s.started, s.lockOrder)
    && NotYetStarted(s.workers, s.started)
  }

  // ------------------------------------------------------------------ tables only move forward

  /** No row disappears, executions keep their hook, jobs their execution, and no job returns to waiting. */
  ghost predicate Evolves(t: Tables, u: Tables) {
    && |t.executions| <= |u.executions| && |t.jobs| <= |u.jobs|
    && (forall x :: 0 <= x < |t.executions| ==> u.executions[x].hook == t.executions[x].hook)
    && (forall j :: 0 <= j < |t.jobs| && t.jobs[j].status != Waiting ==> u.jobs[j].status != Waiting)
    && (Paired(t.executions, t.jobs) ==> Paired(u.executions, u.jobs))
  }

  /** No job that a worker has is completed under its hands. */
  ghost predicate LeavesCarried(u: Tables, workers: Workers) {
    forall w :: w in workers && !workers[w].Idle? ==>
      workers[w].job < |u.jobs| && u.jobs[workers[w].job].status in {Active, Abandoned}
  }

  lemma RecoveryEvolves(t: Tables, now: int)
    ensures Evolves(t, Recovered(t, now))
  {
    RecoveryTouchesOnlyExpired(t, |t.jobs|, now);
  }

  lemma RecoveryLeavesCarried(t: Tables, now: int, workers: Workers)
    requires PhasesFit(t, workers)
    ensures LeavesCarried(Recovered(t, now), workers)
  {
    RecoveryTouchesOnlyExpired(t, |t.jobs|, now);
    forall w | w in workers && !workers[w].Idle?
      ensures workers[w].job < |t.jobs| && Recovered(t, now).jobs[workers[w].job].status in {Active, Abandoned}
    {
      assert PhaseFits(t, workers[w]);
    }
  }

  lemma ClaimEvolves(t: Tables, j: JobId, now: int, w: WorkerId)
    requires j < |Recovered(t, now).jobs|
    ensures Evolves(t, Claimed(Recovered(t, now), j, now, w))
    ensures Claimable(Recovered(t, now).jobs[j], now) ==> j < |t.jobs| && t.jobs[j].status == Waiting
    ensures Claimed(Recovered(t, now), j, now, w).jobs[j].status == Active
  {
    RecoveryTouchesOnlyExpired(t, |t.jobs|, now);
  }

  lemma TablesMayEvolve(s: System, u: Tables)
    requires Consistent(s) && Evolves(s.tables, u) && LeavesCarried(u, s.workers)
    ensures Consistent(s.(tables := u))
  {
    forall w | w in s.workers ensures PhaseFits(u, s.workers[w]) {
      assert PhaseFits(s.tables, s.workers[w]);
    }
    OrdersFitAfter(s.tables, u, s.lockOrder);
    forall j | 0 <= j < |u.jobs| && u.jobs[j].status == Waiting ensures !Acquired(s.lockOrder, j) {
      if j < |s.tables.jobs| { assert s.tables.jobs[j].status == Waiting; }
    }
  }

  lemma OrdersFitAfter(t: Tables, u: Tables, orders: Orders)
    requires OrdersFit(t, orders) && Evolves(t, u)
    ensures OrdersFit(u, orders)
  {
    forall h, x | h in orders && x in orders[h] ensures BelongsTo(u, x, h) {
      assert BelongsTo(t, x, h);
    }
  }

  // ------------------------------------------------------------------ worker transitions

  lemma JobsStayApart(workers: Workers, w: WorkerId, p: Phase)
    requires JobsApart(workers)
    requires p.Idle? || (w in workers && !workers[w].Idle? && p.job == workers[w].job)
    ensures JobsApart(workers[w := p])
  {
    var after := workers[w := p];
    forall a, b | a in after && b in after && a != b && !after[a].Idle? && !after[b].Idle?
      ensures after[a].job != after[b].job
    {
      assert a in workers && b in workers && workers[a].job != workers[b].job;
    }
  }

  lemma OthersKeepLocks(workers: Workers, locks: Locks, loose: set<ExecutionId>, more: set<ExecutionId>, w: WorkerId,
                        p: Phase)
    requires LocksOwned(workers, locks, loose) && OwnersHold(workers, locks) && loose <= more
    requires !p.InLock? && (HoldsLock(p) ==> p.execution in more)
    ensures LocksOwned(workers[w := p], map k | k in locks && locks[k] != w :: locks[k], more)
    ensures OwnersHold(workers[w := p], map k | k in locks && locks[k] != w :: locks[k])
  {
    var rest := map k | k in locks && locks[k] != w :: locks[k];
    var after := workers[w := p];
    forall v | v in after ensures LockOwned(rest, more, v, after[v]) {
      if v != w { assert LockOwned(locks, loose, v, workers[v]); }
    }
  }

  /** A worker may give up its lock at any time: to idle, to a recorded exception, or unlocked. */
  lemma WorkerMayRelease(s: System, w: WorkerId, p: Phase, more: set<ExecutionId>)
    requires Consistent(s) && s.loose <= more
    requires PhaseFits(s.tables, p) && !p.InLock? && !BeforeLock(p) && (HoldsLock(p) ==> p.execution in more)
    requires p.Idle? || (w in s.workers && !s.workers[w].Idle? && p.job == s.workers[w].job)
    ensures Consistent(s.(workers := s.workers[w := p], locks := Released(s, w), loose := more))
  {
    JobsStayApart(s.workers, w, p);
    OthersKeepLocks(s.workers, s.locks, s.loose, more, w, p);
  }

  /** A worker may move to a later phase of the same job without touching locks or tables. */
  lemma WorkerMayAdvance(s: System, w: WorkerId, p: Phase)
    requires Consistent(s) && w in s.workers && !s.workers[w].Idle? && !p.Idle? && p.job == s.workers[w].job
    requires PhaseFits(s.tables, p) && !p.InLock?
    requires BeforeLock(p) ==> BeforeLock(s.workers[w])
    requires HoldsLock(p) <==> HoldsLock(s.workers[w])
    requires HoldsLock(p) ==> p.hook == s.workers[w].hook && p.execution == s.workers[w].execution
    ensures Consistent(s.(workers := s.workers[w := p]))
  {
    JobsStayApart(s.workers, w, p);
    assert LockOwned(s.locks, s.loose, w, s.workers[w]);
    var after := s.workers[w := p];
    forall v | v in after ensures LockOwned(s.locks, s.loose, v, after[v]) {
      if v != w { assert LockOwned(s.locks, s.loose, v, s.workers[v]); }
    }
  }

  /** A job that waits is no worker's. */
  lemma NobodyHasWaiting(t: Tables, workers: Workers, j: JobId)
    requires LeavesCarried(t, workers) && j < |t.jobs| && t.jobs[j].status == Waiting
    ensures forall v :: v in workers && !workers[v].Idle? ==> workers[v].job != j
  {}

  lemma TakenKeepsConsistent(s: System, u: Tables, w: WorkerId, j: JobId)
    requires Consistent(s) && Evolves(s.tables, u) && LeavesCarried(u, s.workers)
    requires PhaseOf(s, w).Idle? && j < |s.tables.jobs|
    requires s.tables.jobs[j].status == Waiting && u.jobs[j].status == Active
    requires forall v :: v in s.workers && !s.workers[v].Idle? ==> s.workers[v].job != j
    ensures Consistent(s.(tables := u, workers := s.workers[w := HasJob(j)]))
  {
    assert !Acquired(s.lockOrder, j);
    TablesMayEvolve(s, u);
    IdleMayTake(s.(tables := u), w, j);
  }

  lemma ClaimLeavesCarried(t: Tables, j: JobId, now: int, w: WorkerId, workers: Workers)
    requires LeavesCarried(t, workers) && j < |t.jobs|
    ensures LeavesCarried(Claimed(t, j, now, w), workers) && Claimed(t, j, now, w).jobs[j].status == Active
  {}

  lemma RecoveredWaited(t: Tables, now: int, j: JobId)
    requires j < |Recovered(t, now).jobs| && Recovered(t, now).jobs[j].status == Waiting
    ensures j < |t.jobs| && t.jobs[j].status == Waiting
  {
    RecoveryTouchesOnlyExpired(t, |t.jobs|, now);
  }

  lemma ClaimKeepsConsistent(s: System, e: Event)
    requires Consistent(s) && e.Claim?
    ensures Consistent(Next(s, e))
  {
    var w, j := e.worker, e.job;
    var settled := Recovered(s.tables, s.now);
    if PhaseOf(s, w).Idle? && j < |settled.jobs| && Claimable(settled.jobs[j], s.now) {
      RecoveredWaited(s.tables, s.now, j);
      ClaimEvolves(s.tables, j, s.now, w);
      RecoveryLeavesCarried(s.tables, s.now, s.workers);
      NobodyHasWaiting(settled, s.workers, j);
      ClaimLeavesCarried(settled, j, s.now, w, s.workers);
      TakenKeepsConsistent(s, Claimed(settled, j, s.now, w), w, j);
    }
  }

  lemma IdleMayTake(s: System, w: WorkerId, j: JobId)
    requires Consistent(s) && PhaseOf(s, w).Idle? && j < |s.tables.jobs| && s.tables.jobs[j].status == Active
    requires !Acquired(s.lockOrder, j)
    requires forall v :: v in s.workers && !s.workers[v].Idle? ==> s.workers[v].job != j
    ensures Consistent(s.(workers := s.workers[w := HasJob(j)]))
  {
    var after := s.workers[w := HasJob(j)];
    assert JobsApart(after);
    forall v | v in after ensures LockOwned(s.locks, s.loose, v, after[v]) {
      if v != w { assert LockOwned(s.locks, s.loose, v, s.workers[v]); }
    }
  }

  lemma AcquiredAfter(orders: Orders, h: HookId, x: ExecutionId, order: seq<ExecutionId>, y: ExecutionId)
    requires order == if h in orders then orders[h] else []
    ensures Acquired(orders[h := order + [x]], y) <==> Acquired(orders, y) || y == x
  {
    var after := orders[h := order + [x]];
    if Acquired(orders, y) {
      var g :| g in orders && y in orders[g];
      assert y in after[g];
    }
    if y == x { assert y in after[h]; }
    if Acquired(after, y) && y != x {
      var g :| g in after && y in after[g];
      assert g in orders && y in orders[g];
    }
  }

  lemma OrdersAfterLock(s: System, h: HookId, x: ExecutionId)
    requires Paired(s.tables.executions, s.tables.jobs) && x < |s.tables.jobs|
    requires OrdersFit(s.tables, s.lockOrder) && OrdersDistinct(s.lockOrder)
    requires WaitingNotAcquired(s.tables, s.lockOrder) && StartedOnce(s.started, s.lockOrder)
    requires !Acquired(s.lockOrder, x) && s.tables.jobs[x].status != Waiting && s.tables.executions[x].hook == h
    ensures var orders := s.lockOrder[h := OrderOf(s, h) + [x]];
      && OrdersFit(s.tables, orders) && OrdersDistinct(orders)
      && WaitingNotAcquired(s.tables, orders) && StartedOnce(s.started, orders)
      && forall y :: Acquired(orders, y) <==> Acquired(s.lockOrder, y) || y == x
  {
    assert x !in OrderOf(s, h);
    var orders := s.lockOrder[h := OrderOf(s, h) + [x]];
    forall y ensures Acquired(orders, y) <==> Acquired(s.lockOrder, y) || y == x {
      AcquiredAfter(s.lockOrder, h, x, OrderOf(s, h), y);
    }
    forall g, y | g in orders && y in orders[g] ensures BelongsTo(s.tables, y, g) {
      if g != h || y != x {
        assert g in s.lockOrder && y in s.lockOrder[g];
      }
    }
  }

  lemma LocksOwnedAfterLock(s: System, w: WorkerId)
    requires LocksOwned(s.workers, s.locks, s.loose) && OwnersHold(s.workers, s.locks)
    requires PhaseOf(s, w).AtLock? && KeyOf(PhaseOf(s, w).hook) !in s.locks
    ensures var next := Next(s, Lock(w));
      LocksOwned(next.workers, next.locks, next.loose) && OwnersHold(next.workers, next.locks)
  {
    var next := Next(s, Lock(w));
    forall v | v in next.workers ensures LockOwned(next.locks, next.loose, v, next.workers[v]) {
      if v != w { assert LockOwned(s.locks, s.loose, v, s.workers[v]); }
    }
  }

  lemma LockKeepsConsistent(s: System, e: Event)
    requires Consistent(s) && e.Lock?
    ensures Consistent(Next(s, e))
  {
    var w := e.worker;
    var p := PhaseOf(s, w);
    if p.AtLock? && KeyOf(p.hook) !in s.locks {
      var x, h := p.execution, p.hook;
      var q := InLock(p.job, x, h);
      var orders := s.lockOrder[h := OrderOf(s, h) + [x]];
      assert PhaseFits(s.tables, p);
      assert BeforeLock(p) && !Acquired(s.lockOrder, x);
      OrdersAfterLock(s, h, x);
      JobsStayApart(s.workers, w, q);
      LocksOwnedAfterLock(s, w);
      HoldersLastAfterLock(s, w);
      var after := s.workers[w := q];
      forall v | v in after && BeforeLock(after[v]) ensures !Acquired(orders, after[v].job) {
        assert v != w && after[v].job != p.job;
      }
      assert x !in s.started;
    }
  }

  lemma HoldersLastAfterLock(s: System, w: WorkerId)
    requires HoldersLast(s.workers, s.lockOrder) && LocksOwned(s.workers, s.locks, s.loose)
    requires PhaseOf(s, w).AtLock? && KeyOf(PhaseOf(s, w).hook) !in s.locks
    ensures HoldersLast(Next(s, Lock(w)).workers, Next(s, Lock(w)).lockOrder)
  {
    var next := Next(s, Lock(w));
    forall v | v in next.workers && next.workers[v].InLock?
      ensures LastIs(next.lockOrder, next.workers[v].hook, next.workers[v].execution)
    {
      if v != w { assert LockOwned(s.locks, s.loose, v, s.workers[v]); }
    }
  }

  lemma StartCountsOnce(s: System, w: WorkerId, q: Phase)
    requires Consistent(s) && PhaseOf(s, w).InLock? && q.Child?
    ensures var started := s.started + multiset{PhaseOf(s, w).execution};
      StartedOnce(started, s.lockOrder) && NotYetStarted(s.workers[w := q], started)
  {
    var p := PhaseOf(s, w);
    assert LastIs(s.lockOrder, p.hook, p.execution);
    assert Acquired(s.lockOrder, p.execution);
    forall v | v in s.workers[w := q] && s.workers[w := q][v].InLock?
      ensures s.workers[v].execution !in s.started + multiset{p.execution}
    {
      assert PhaseFits(s.tables, s.workers[v]) && PhaseFits(s.tables, s.workers[w]);
    }
  }

  lemma StartLeavesCarried(s: System, x: ExecutionId)
    requires PhasesFit(s.tables, s.workers) && x < |s.tables.executions|
    ensures LeavesCarried(Started(s.tables, x), s.workers)
  {
    assert forall v :: v in s.workers ==> PhaseFits(s.tables, s.workers[v]);
  }

  lemma StartKeepsConsistent(s: System, e: Event)
    requires Consistent(s) && e.StartChild?
    ensures Consistent(Next(s, e))
  {
    var w := e.worker;
    var p := PhaseOf(s, w);
    if p.InLock? && p.execution < |s.tables.executions| {
      var u := Started(s.tables, p.execution);
      var q := Child(p.job, p.execution, p.hook, StateOf(s.tables, p.hook));
      StartCountsOnce(s, w, q);
      StartLeavesCarried(s, p.execution);
      TablesMayEvolve(s, u);
      WorkerMayAdvance(s.(tables := u), w, q);
    }
  }

  lemma CommittedKeepsConsistent(s: System, w: WorkerId)
    requires Consistent(s) && (PhaseOf(s, w).Ended? || PhaseOf(s, w).Unlocked?)
    ensures Consistent(Committed(s, w, PhaseOf(s, w)))
  {
    var p := PhaseOf(s, w);
    assert PhaseFits(s.tables, p);
    if p.write.Insert? && p.hook in s.tables.states {
      WorkerMayRelease(s, w, Raised(p.job), s.loose);
    } else {
      var u := Finished(s.tables, p.job, p.execution, StatusOf(p.outcome), p.hook, RowOf(p.write));
      WorkerMayRelease(s, w, Idle, s.loose);
      var released := s.(workers := s.workers[w := Idle], locks := Released(s, w));
      OthersLeft(s.tables, u, s.workers, w);
      TablesMayEvolve(released, u);
    }
  }

  /** Settling one worker's job leaves every other worker's job as it was. */
  lemma OthersLeft(t: Tables, u: Tables, workers: Workers, w: WorkerId)
    requires PhasesFit(t, workers) && JobsApart(workers) && w in workers && !workers[w].Idle?
    requires |u.jobs| == |t.jobs| && forall j :: 0 <= j < |t.jobs| && j != workers[w].job ==>
      u.jobs[j].status == t.jobs[j].status
    ensures LeavesCarried(u, workers[w := Idle])
  {
    forall v | v in workers && v != w && !workers[v].Idle?
      ensures workers[v].job < |u.jobs| && u.jobs[workers[v].job].status in {Active, Abandoned}
    {
      assert PhaseFits(t, workers[v]);
    }
  }

  lemma CommitKeepsConsistent(s: System, e: Event)
    requires Consistent(s) && e.CommitAndUnlock?
    ensures Consistent(Next(s, e))
  {
    if PhaseOf(s, e.worker).Ended? { CommittedKeepsConsistent(s, e.worker); }
  }

  lemma LateCommitKeepsConsistent(s: System, e: Event)
    requires Consistent(s) && e.CommitLate?
    ensures Consistent(Next(s, e))
  {
    if PhaseOf(s, e.worker).Unlocked? { CommittedKeepsConsistent(s, e.worker); }
  }

  lemma CrashKeepsConsistent(s: System, e: Event)
    requires Consistent(s) && e.Crash?
    ensures Consistent(Next(s, e))
  {
    WorkerMayRelease(s, e.worker, Idle, Next(s, e).loose);
  }

  lemma DropKeepsConsistent(s: System, e: Event)
    requires Consistent(s) && e.DropLock?
    ensures Consistent(Next(s, e))
  {
    var p := PhaseOf(s, e.worker);
    if p.Child? {
      assert PhaseFits(s.tables, p);
      WorkerMayRelease(s, e.worker, p, s.loose + {p.execution});
      assert s.workers[e.worker := p] == s.workers;
    }
  }

  lemma ReadKeepsConsistent(s: System, e: Event)
    requires Consistent(s) && e.ReadExecution?
    ensures Consistent(Next(s, e))
  {
    var w := e.worker;
    var p := PhaseOf(s, w);
    if p.HasJob? {
      assert PhaseFits(s.tables, p);
      var x := s.tables.jobs[p.job].execution;
      if s.tables.executions[x].status in {Pending, Running} {
        WorkerMayAdvance(s, w, AtLock(p.job, x, s.tables.executions[x].hook));
      } else {
        SkippedEvolves(s.tables, p.job);
        SettlingKeepsConsistent(s, w, Skipped(s.tables, p.job));
      }
    }
  }

  /** A worker away from its lock may settle its job and be done. */
  lemma SettlingKeepsConsistent(s: System, w: WorkerId, u: Tables)
    requires Consistent(s) && w in s.workers && !s.workers[w].Idle? && !HoldsLock(s.workers[w]) && Evolves(s.tables, u)
    requires |u.jobs| == |s.tables.jobs| && forall j :: 0 <= j < |u.jobs| && j != s.workers[w].job ==>
      u.jobs[j].status == s.tables.jobs[j].status
    ensures Consistent(s.(tables := u, workers := s.workers[w := Idle]))
  {
    OwnsNothing(s, w);
    WorkerMayRelease(s, w, Idle, s.loose);
    OthersLeft(s.tables, u, s.workers, w);
    TablesMayEvolve(s.(workers := s.workers[w := Idle]), u);
  }

  /** A worker away from its lock owns none, so giving it up changes nothing. */
  lemma OwnsNothing(s: System, w: WorkerId)
    requires OwnersHold(s.workers, s.locks) && !HoldsLock(PhaseOf(s, w))
    ensures Released(s, w) == s.locks
  {}

  lemma QueuedLeavesCarried(t: Tables, u: Tables, workers: Workers)
    requires PhasesFit(t, workers) && t.jobs <= u.jobs
    ensures LeavesCarried(u, workers)
  {
    assert forall v :: v in workers ==> PhaseFits(t, workers[v]);
  }

  lemma QueueStepKeepsConsistent(s: System, e: Event)
    requires Consistent(s) && (e.Queue? || e.Retry?)
    ensures Consistent(Next(s, e))
  {
    var u := Next(s, e).tables;
    QueueStepEvolves(s, e);
    QueuedLeavesCarried(s.tables, u, s.workers);
    TablesMayEvolve(s, u);
    assert Next(s, e) == s.(tables := u);
  }

  lemma TableStepKeepsConsistent(s: System, e: Event)
    requires Consistent(s) && (e.Tick? || e.Queue? || e.Retry? || e.FindNothing?)
    ensures Consistent(Next(s, e))
  {
    if e.Queue? || e.Retry? {
      QueueStepKeepsConsistent(s, e);
    } else if e.FindNothing? {
      RecoveryEvolves(s.tables, s.now);
      RecoveryLeavesCarried(s.tables, s.now, s.workers);
      TablesMayEvolve(s, Recovered(s.tables, s.now));
    }
  }

  lemma EndKeepsConsistent(s: System, e: Event)
    requires Consistent(s) && e.EndChild?
    ensures Consistent(Next(s, e))
  {
    var w := e.worker;
    var p := PhaseOf(s, w);
    if p.Child? {
      assert PhaseFits(s.tables, p);
      var write := WriteOf(s.tables, p.hook, p.input, e.outcome, e.reread);
      WorkerMayAdvance(s, w, Ended(p.job, p.execution, p.hook, e.outcome, write));
    }
  }

  lemma UnlockKeepsConsistent(s: System, e: Event)
    requires Consistent(s) && e.UnlockFirst?
    ensures Consistent(Next(s, e))
  {
    var w := e.worker;
    var p := PhaseOf(s, w);
    if p.Ended? {
      assert PhaseFits(s.tables, p);
      WorkerMayRelease(s, w, Unlocked(p.job, p.execution, p.hook, p.outcome, p.write), s.loose);
    }
  }

  lemma RaiseKeepsConsistent(s: System, e: Event)
    requires Consistent(s) && e.Raise?
    ensures Consistent(Next(s, e))
  {
    var w := e.worker;
    var p := PhaseOf(s, w);
    if !p.Idle? && !p.Raised? {
      assert PhaseFits(s.tables, p);
      WorkerMayRelease(s, w, Raised(p.job), s.loose);
    }
  }

  lemma RecordKeepsConsistent(s: System, e: Event)
    requires Consistent(s) && e.RecordFailure?
    ensures Consistent(Next(s, e))
  {
    var w := e.worker;
    var p := PhaseOf(s, w);
    if p.Raised? && p.job < |s.tables.jobs| {
      FailureEvolves(s.tables, p.job);
      SettlingKeepsConsistent(s, w, FailureRecorded(s.tables, p.job));
    }
  }

  lemma {:induction false} StepKeepsConsistent(s: System, e: Event)
    requires Consistent(s)
    ensures Consistent(Next(s, e))
  {
    match e
    case Claim(_, _) => ClaimKeepsConsistent(s, e);
    case ReadExecution(_) => ReadKeepsConsistent(s, e);
    case Lock(_) => LockKeepsConsistent(s, e);
    case StartChild(_) => StartKeepsConsistent(s, e);
    case EndChild(_, _, _) => EndKeepsConsistent(s, e);
    case CommitAndUnlock(_) => CommitKeepsConsistent(s, e);
    case UnlockFirst(_) => UnlockKeepsConsistent(s, e);
    case CommitLate(_) => LateCommitKeepsConsistent(s, e);
    case Raise(_) => RaiseKeepsConsistent(s, e);
    case RecordFailure(_) => RecordKeepsConsistent(s, e);
    case Crash(_) => CrashKeepsConsistent(s, e);
    case DropLock(_) => DropKeepsConsistent(s, e);
    case OrphanExits(_) =>
    case _ => TableStepKeepsConsistent(s, e);
  }

  lemma {:induction false} RunIsConsistent(events: seq<Event>)
    ensures Consistent(Run(events))
    decreases |events|
  {
    if events != [] {
      RunIsConsistent(events[..|events| - 1]);
      StepKeepsConsistent(Run(events[..|events| - 1]), events[|events| - 1]);
    }
  }

  /**
   * In every run, with any number of workers, crashes, exceptions, lost locks, lease expiries,
   * retries and with the unlock before or at the commit, each execution's child is started at
   * most once, and each execution has exactly one job.
   */
  lemma ChildStartsAtMostOnce(events: seq<Event>, x: ExecutionId)
    ensures Run(events).started[x] <= 1
    ensures Paired(Run(events).tables.executions, Run(events).tables.jobs)
  {
    RunIsConsistent(events);
  }

  lemma RecoveringStepEvolves(s: System, e: Event)
    requires e.Claim? || e.FindNothing?
    ensures Evolves(s.tables, Next(s, e).tables)
  {
    RecoveryEvolves(s.tables, s.now);
  }

  lemma CommittedEvolves(s: System, w: WorkerId, p: Phase)
    requires p.Ended? || p.Unlocked?
    ensures Evolves(s.tables, Committed(s, w, p).tables)
  {}

  lemma QueuedEvolves(t: Tables, hook: HookId, trigger: TriggerId, telemetry: SampleId, dryRun: bool, now: int)
    ensures Evolves(t, Queued(t, hook, trigger, telemetry, dryRun, now))
  {}

  lemma QueueStepEvolves(s: System, e: Event)
    requires e.Queue? || e.Retry?
    ensures Evolves(s.tables, Next(s, e).tables)
  {
    match e
    case Queue(hook, trigger, telemetry, dryRun) => QueuedEvolves(s.tables, hook, trigger, telemetry, dryRun, s.now);
    case Retry(x) =>
      if x < |s.tables.executions| {
        var o := s.tables.executions[x];
        QueuedEvolves(s.tables, o.hook, o.trigger, o.telemetry, o.dryRun, s.now);
      }
  }

  lemma SkippedEvolves(t: Tables, j: JobId)
    requires j < |t.jobs|
    ensures Evolves(t, Skipped(t, j))
  {}

  lemma StartedEvolves(t: Tables, x: ExecutionId)
    requires x < |t.executions|
    ensures Evolves(t, Started(t, x))
  {}

  lemma FailureEvolves(t: Tables, j: JobId)
    requires j < |t.jobs|
    ensures Evolves(t, FailureRecorded(t, j))
  {}

  lemma RowStepEvolves(s: System, e: Event)
    requires e.ReadExecution? || e.StartChild? || e.RecordFailure?
    ensures Evolves(s.tables, Next(s, e).tables)
  {
    var p := PhaseOf(s, e.worker);
    if e.ReadExecution? && p.HasJob? && p.job < |s.tables.jobs| { SkippedEvolves(s.tables, p.job); }
    if e.StartChild? && p.InLock? && p.execution < |s.tables.executions| { StartedEvolves(s.tables, p.execution); }
    if e.RecordFailure? && p.Raised? && p.job < |s.tables.jobs| { FailureEvolves(s.tables, p.job); }
  }

  predicate LeavesTables(e: Event) {
    || e.Tick? || e.Lock? || e.EndChild? || e.UnlockFirst? || e.Raise? || e.Crash? || e.DropLock? || e.OrphanExits?
  }

  lemma TablesLeft(s: System, e: Event)
    requires LeavesTables(e)
    ensures Next(s, e).tables == s.tables
  {}

  lemma StepEvolves(s: System, e: Event)
    ensures Evolves(s.tables, Next(s, e).tables)
  {
    if e.Claim? || e.FindNothing? { RecoveringStepEvolves(s, e); }
    else if e.Queue? || e.Retry? { QueueStepEvolves(s, e); }
    else if e.CommitAndUnlock? {
      if PhaseOf(s, e.worker).Ended? { CommittedEvolves(s, e.worker, PhaseOf(s, e.worker)); }
    } else if e.CommitLate? {
      if PhaseOf(s, e.worker).Unlocked? { CommittedEvolves(s, e.worker, PhaseOf(s, e.worker)); }
    } else if LeavesTables(e) { TablesLeft(s, e); }
    else { RowStepEvolves(s, e); }
  }

  ghost predicate MovesOnly(s: System, t: System, w: WorkerId) {
    t == s || (w in t.workers && t.workers == s.workers[w := t.workers[w]])
  }

  lemma RowStepMoves(s: System, e: Event)
    requires e.Claim? || e.ReadExecution? || e.StartChild? || e.CommitAndUnlock? || e.CommitLate? || e.RecordFailure?
    ensures MovesOnly(s, Next(s, e), e.worker)
  {
    match e
    case Claim(_, _) =>
    case ReadExecution(_) =>
    case StartChild(_) =>
    case CommitAndUnlock(_) =>
    case CommitLate(_) =>
    case RecordFailure(_) =>
  }

  lemma PhaseStepMoves(s: System, e: Event)
    requires e.Lock? || e.EndChild? || e.UnlockFirst? || e.Raise? || e.Crash?
    ensures MovesOnly(s, Next(s, e), e.worker)
  {
    match e
    case Lock(_) =>
    case EndChild(_, _, _) =>
    case UnlockFirst(_) =>
    case Raise(_) =>
    case Crash(_) =>
  }

  /** A worker's step moves that worker alone. */
  lemma OneMoves(s: System, e: Event)
    requires IsWorkerStep(e)
    ensures MovesOnly(s, Next(s, e), e.worker)
  {
    if e.Lock? || e.EndChild? || e.UnlockFirst? || e.Raise? || e.Crash? { PhaseStepMoves(s, e); }
    else { RowStepMoves(s, e); }
  }

  /** No step returns a claimed job to waiting, whichever worker takes it and whatever has failed before. */
  lemma NoStepReturnsAJob(s: System, e: Event, j: JobId)
    requires j < |s.tables.jobs| && s.tables.jobs[j].status != Waiting
    ensures j < |Next(s, e).tables.jobs| && Next(s, e).tables.jobs[j].status != Waiting
  {
    StepEvolves(s, e);
  }
}
