/**
 * A hook's stored state is the left fold of its successful runs in lock order, as long as no two
 * of them overlap: each one's child starts after the other's commit. For code that records its
 * runs that is exactly when nothing is lost.
 */
module HookStateLaws {
  import opened Prelude
  import opened Samples
  import opened HookTables
  import opened JobStore
  import opened HookWorkers

  type Seen = map<ExecutionId, set<ExecutionId>>

  type Updates = map<ExecutionId, StateValue -> StateValue>

  /** The executions of a lock order that committed a success. */
  function Successes(order: seq<ExecutionId>, updates: Updates): seq<ExecutionId> {
    if order == [] then []
    else
      var before, x := Successes(order[..|order| - 1], updates), order[|order| - 1];
      if x in updates then before + [x] else before
  }

  /** The left fold of their updates, from the empty state. */
  function Folded(successes: seq<ExecutionId>, updates: Updates): StateValue {
    if successes == [] then EMPTY_STATE
    else
      var x := successes[|successes| - 1];
      var before := Folded(successes[..|successes| - 1], updates);
      if x in updates then updates[x](before) else before
  }

  /** The reference: no row before the first success, then the fold, versioned by their number. */
  function Expected(order: seq<ExecutionId>, updates: Updates): Option<HookState> {
    var successes := Successes(order, updates);
    if successes == [] then None else Some(HookState(Folded(successes, updates), |successes|))
  }

  lemma {:induction false} SuccessesAreListed(order: seq<ExecutionId>, updates: Updates)
    ensures forall x :: x in Successes(order, updates) <==> x in order && x in updates
  {
    if order != [] {
      SuccessesAreListed(order[..|order| - 1], updates);
      assert order == order[..|order| - 1] + [order[|order| - 1]];
    }
  }

  /** An update by an execution outside the order changes nothing there. */
  lemma {:induction false} OutsiderChangesNothing(
      order: seq<ExecutionId>, updates: Updates, x: ExecutionId, f: StateValue -> StateValue)
    requires x !in order
    ensures Successes(order, updates[x := f]) == Successes(order, updates)
    ensures Folded(Successes(order, updates), updates[x := f]) == Folded(Successes(order, updates), updates)
  {
    if order != [] {
      var before := order[..|order| - 1];
      assert order == before + [order[|order| - 1]];
      OutsiderChangesNothing(before, updates, x, f);
      SuccessesAreListed(order, updates);
      var all := Successes(order, updates);
      if order[|order| - 1] in updates {
        assert all[..|all| - 1] == Successes(before, updates);
      }
    }
  }

  lemma ExpectedForOutsider(order: seq<ExecutionId>, updates: Updates, x: ExecutionId, f: StateValue -> StateValue)
    requires x !in order
    ensures Expected(order, updates[x := f]) == Expected(order, updates)
  {
    OutsiderChangesNothing(order, updates, x, f);
  }

  /** When the last holder of the lock commits, the expected row is its update of the row before. */
  lemma LastHolderUpdates(order: seq<ExecutionId>, updates: Updates, x: ExecutionId, f: StateValue -> StateValue)
    requires EndsIn(order, x) && Distinct(order) && x !in updates
    ensures Expected(order, updates[x := f])
         == NextRow(Expected(order, updates), Some(f(ValueOf(Expected(order, updates)))))
  {
    var before := order[..|order| - 1];
    assert x !in before;
    OutsiderChangesNothing(before, updates, x, f);
    var all := Successes(order, updates[x := f]);
    assert all == Successes(before, updates) + [x];
    assert all[..|all| - 1] == Successes(before, updates);
  }

  predicate EndsIn(order: seq<ExecutionId>, x: ExecutionId) {
    order != [] && order[|order| - 1] == x
  }

  /** Whoever got the lock after `x` has committed no success. */
  ghost predicate NoSuccessAfter(order: seq<ExecutionId>, x: ExecutionId, updates: Updates) {
    forall i, j :: 0 <= i < j < |order| && order[i] == x ==> order[j] !in updates
  }

  /** The same when others have got the lock since, as long as none of them has committed. */
  lemma {:induction false} HolderUpdates(order: seq<ExecutionId>, updates: Updates, x: ExecutionId,
                                         f: StateValue -> StateValue)
    requires x in order && Distinct(order) && x !in updates && NoSuccessAfter(order, x, updates)
    ensures Expected(order, updates[x := f])
         == NextRow(Expected(order, updates), Some(f(ValueOf(Expected(order, updates)))))
  {
    if EndsIn(order, x) {
      LastHolderUpdates(order, updates, x, f);
    } else {
      var before := order[..|order| - 1];
      var i :| 0 <= i < |order| && order[i] == x;
      assert before[i] == x && order[|order| - 1] !in updates;
      HolderUpdates(before, updates, x, f);
    }
  }

  // ------------------------------------------------------------------ successes that do not overlap

  ghost predicate SuccessOf(orders: Orders, updates: Updates, h: HookId, x: ExecutionId) {
    x in updates && h in orders && x in orders[h]
  }

  /** When the child of `x` was started, `y` had been committed. */
  predicate CommittedBefore(seen: Seen, y: ExecutionId, x: ExecutionId) {
    x in seen && y in seen[x]
  }

  /** Of any two committed successes of a hook, one was committed before the other's child was started. */
  ghost predicate Apart(orders: Orders, updates: Updates, seen: Seen, h: HookId) {
    forall x, y :: x != y && SuccessOf(orders, updates, h, x) && SuccessOf(orders, updates, h, y)
      ==> CommittedBefore(seen, x, y) || CommittedBefore(seen, y, x)
  }

  ghost predicate SuccessesApart(s: System, h: HookId) {
    Apart(s.lockOrder, s.updates, s.seen, h)
  }

  // ------------------------------------------------------------------ invariant

  /** The child has been started and nothing is committed yet. */
  predicate AtWork(p: Phase) {
    p.Child? || p.Ended? || p.Unlocked?
  }

  /** Nothing has been committed to the hook since the child of `x` was started. */
  ghost predicate Undisturbed(orders: Orders, updates: Updates, seen: Seen, h: HookId, x: ExecutionId) {
    x in seen && forall y :: SuccessOf(orders, updates, h, y) ==> y in seen[x]
  }

  /** The execution is in its hook's lock order, and what its child saw committed comes before it there. */
  ghost predicate Listed(orders: Orders, seen: Seen, h: HookId, x: ExecutionId) {
    && x in seen && h in orders && x in orders[h]
    && forall i, j :: 0 <= i < j < |orders[h]| && orders[h][i] == x ==> orders[h][j] !in seen[x]
  }

  /** The phase works on the state as it is now. */
  predicate WorksOn(t: Tables, p: Phase) {
    && (p.Child? ==> p.input == StateOf(t, p.hook))
    && (p.Ended? || p.Unlocked? ==> p.write == WriteOf(t, p.hook, StateOf(t, p.hook), p.outcome, false))
  }

  ghost predicate RunFits(t: Tables, orders: Orders, updates: Updates, seen: Seen, p: Phase) {
    && (p.InLock? || AtWork(p) ==> p.execution !in updates)
    && (AtWork(p) ==> Listed(orders, seen, p.hook, p.execution))
    && (p.Ended? || p.Unlocked? ==> (p.write.NoWrite? <==> !p.outcome.Succeeded?))
    && (AtWork(p) && Undisturbed(orders, updates, seen, p.hook, p.execution) ==> WorksOn(t, p))
  }

  ghost predicate RunsFit(t: Tables, orders: Orders, updates: Updates, seen: Seen, workers: Workers) {
    forall w :: w in workers ==> RunFits(t, orders, updates, seen, workers[w])
  }

  ghost predicate StatesFolded(t: Tables, orders: Orders, updates: Updates, seen: Seen) {
    forall h :: Apart(orders, updates, seen, h) ==> StateOf(t, h) == Expected(OrderIn(orders, h), updates)
  }

  function OrderIn(orders: Orders, h: HookId): seq<ExecutionId> {
    if h in orders then orders[h] else []
  }

  ghost predicate UpdatesAcquired(updates: Updates, orders: Orders) {
    forall x :: x in updates ==> Acquired(orders, x)
  }

  ghost predicate SeenFits(seen: Seen, updates: Updates) {
    && (forall x :: x in seen ==> seen[x] <= updates.Keys)
    && (forall x :: x in updates ==> x in seen)
  }

  ghost predicate Serial(s: System) {
    && StatesFolded(s.tables, s.lockOrder, s.updates, s.seen)
    && UpdatesAcquired(s.updates, s.lockOrder)
    && SeenFits(s.seen, s.updates)
    && RunsFit(s.tables, s.lockOrder, s.updates, s.seen, s.workers)
  }

  // ------------------------------------------------------------------ steps that leave states and history alone

  ghost predicate SameHistory(s: System, t: System) {
    t.tables.states == s.tables.states && t.lockOrder == s.lockOrder && t.updates == s.updates && t.seen == s.seen
  }

  lemma SameStatesFold(t: Tables, u: Tables, orders: Orders, updates: Updates, seen: Seen)
    requires StatesFolded(t, orders, updates, seen) && u.states == t.states
    ensures StatesFolded(u, orders, updates, seen)
  {
    forall h | Apart(orders, updates, seen, h) ensures StateOf(u, h) == Expected(OrderIn(orders, h), updates) {
      assert StateOf(t, h) == Expected(OrderIn(orders, h), updates);
    }
  }

  lemma SameStatesFit(t: Tables, u: Tables, orders: Orders, updates: Updates, seen: Seen, p: Phase)
    requires RunFits(t, orders, updates, seen, p) && u.states == t.states
    ensures RunFits(u, orders, updates, seen, p)
  {}

  lemma MoveStaysSerial(s: System, t: System, w: WorkerId, p: Phase)
    requires Serial(s) && SameHistory(s, t) && t.workers == s.workers[w := p]
    requires RunFits(s.tables, s.lockOrder, s.updates, s.seen, p)
    ensures Serial(t)
  {
    SameStatesFold(s.tables, t.tables, s.lockOrder, s.updates, s.seen);
    forall v | v in t.workers ensures RunFits(t.tables, t.lockOrder, t.updates, t.seen, t.workers[v]) {
      if v != w { assert RunFits(s.tables, s.lockOrder, s.updates, s.seen, s.workers[v]); }
      SameStatesFit(s.tables, t.tables, s.lockOrder, s.updates, s.seen, t.workers[v]);
    }
  }

  lemma RestStaysSerial(s: System, t: System)
    requires Serial(s) && SameHistory(s, t) && t.workers == s.workers
    ensures Serial(t)
  {
    SameStatesFold(s.tables, t.tables, s.lockOrder, s.updates, s.seen);
    forall v | v in t.workers ensures RunFits(t.tables, t.lockOrder, t.updates, t.seen, t.workers[v]) {
      SameStatesFit(s.tables, t.tables, s.lockOrder, s.updates, s.seen, t.workers[v]);
    }
  }

  lemma RecoveryKeepsStates(t: Tables, now: int)
    ensures Recovered(t, now).states == t.states
  {
    RecoveryTouchesOnlyExpired(t, |t.jobs|, now);
  }

  predicate IsQuiet(e: Event) {
    e.Tick? || e.Queue? || e.Retry? || e.FindNothing? || e.DropLock? || e.OrphanExits?
  }

  /** The same states and history, the same workers, and the same children started and let go. */
  ghost predicate Unmoved(s: System, t: System) {
    SameHistory(s, t) && t.workers == s.workers && t.started == s.started && t.loose == s.loose
  }

  lemma QueueKeepsHistory(s: System, hook: HookId, trigger: TriggerId, telemetry: SampleId, dryRun: bool)
    ensures Unmoved(s, Next(s, Queue(hook, trigger, telemetry, dryRun)))
  {}

  lemma RetryKeepsHistory(s: System, x: ExecutionId)
    ensures Unmoved(s, Next(s, Retry(x)))
  {}

  lemma OrphanKeepsHistory(s: System, x: ExecutionId)
    ensures Unmoved(s, Next(s, OrphanExits(x)))
  {}

  lemma FindNothingKeepsHistory(s: System, w: WorkerId)
    ensures Unmoved(s, Next(s, FindNothing(w)))
  {
    RecoveryKeepsStates(s.tables, s.now);
  }

  lemma DropKeepsHistory(s: System, w: WorkerId)
    ensures SameHistory(s, Next(s, DropLock(w))) && Next(s, DropLock(w)).workers == s.workers
  {}

  lemma QuietStepKeepsHistory(s: System, e: Event)
    requires IsQuiet(e)
    ensures SameHistory(s, Next(s, e)) && Next(s, e).workers == s.workers && (e.DropLock? || Unmoved(s, Next(s, e)))
  {
    match e
    case Tick(_) =>
    case Queue(hook, trigger, telemetry, dryRun) => QueueKeepsHistory(s, hook, trigger, telemetry, dryRun);
    case Retry(x) => RetryKeepsHistory(s, x);
    case FindNothing(w) => FindNothingKeepsHistory(s, w);
    case DropLock(w) => DropKeepsHistory(s, w);
    case OrphanExits(x) => OrphanKeepsHistory(s, x);
  }

  lemma QuietStepStaysSerial(s: System, e: Event)
    requires Serial(s) && IsQuiet(e)
    ensures Serial(Next(s, e))
  {
    QuietStepKeepsHistory(s, e);
    RestStaysSerial(s, Next(s, e));
  }

  lemma ClaimStaysSerial(s: System, w: WorkerId, j: JobId)
    requires Serial(s)
    ensures Serial(Next(s, Claim(w, j)))
  {
    RecoveryKeepsStates(s.tables, s.now);
    var next := Next(s, Claim(w, j));
    if next != s { MoveStaysSerial(s, next, w, HasJob(j)); }
  }

  /** A worker that reads its execution, raises, records its failure or crashes is not at work afterwards. */
  predicate StopsWork(e: Event) {
    e.ReadExecution? || e.Raise? || e.RecordFailure? || e.Crash?
  }

  predicate BeforeWork(p: Phase) {
    !p.InLock? && !AtWork(p)
  }

  lemma StopKeepsHistory(s: System, e: Event)
    requires StopsWork(e) && Next(s, e) != s
    ensures var t := Next(s, e);
      && SameHistory(s, t) && e.worker in t.workers && t.workers == s.workers[e.worker := t.workers[e.worker]]
      && BeforeWork(t.workers[e.worker]) && t.started == s.started && (e.Crash? || t.loose == s.loose)
  {
    match e
    case ReadExecution(_) =>
    case Raise(_) =>
    case RecordFailure(_) =>
    case Crash(_) =>
  }

  /** A worker that gives up leaves no trace in any state. */
  lemma StopStaysSerial(s: System, e: Event)
    requires Serial(s) && StopsWork(e)
    ensures Serial(Next(s, e))
  {
    var next := Next(s, e);
    if next != s {
      StopKeepsHistory(s, e);
      MoveStaysSerial(s, next, e.worker, next.workers[e.worker]);
    }
  }

  lemma EndStaysSerial(s: System, w: WorkerId, outcome: Outcome, reread: bool)
    requires Serial(s)
    ensures Serial(Next(s, EndChild(w, outcome, reread)))
  {
    var p := PhaseOf(s, w);
    if p.Child? {
      assert RunFits(s.tables, s.lockOrder, s.updates, s.seen, p);
      MoveStaysSerial(s, Next(s, EndChild(w, outcome, reread)), w,
                      Ended(p.job, p.execution, p.hook, outcome, WriteOf(s.tables, p.hook, p.input, outcome, reread)));
    }
  }

  lemma UnlockStaysSerial(s: System, w: WorkerId)
    requires Serial(s)
    ensures Serial(Next(s, UnlockFirst(w)))
  {
    var p := PhaseOf(s, w);
    if p.Ended? {
      assert RunFits(s.tables, s.lockOrder, s.updates, s.seen, p);
      MoveStaysSerial(s, Next(s, UnlockFirst(w)), w, Unlocked(p.job, p.execution, p.hook, p.outcome, p.write));
    }
  }

  // ------------------------------------------------------------------ getting the lock

  lemma AppendKeepsSuccesses(orders: Orders, updates: Updates, h: HookId, x: ExecutionId, g: HookId, y: ExecutionId)
    requires x !in updates
    ensures SuccessOf(orders[h := OrderIn(orders, h) + [x]], updates, g, y) <==> SuccessOf(orders, updates, g, y)
  {}

  lemma AppendKeepsApart(orders: Orders, updates: Updates, seen: Seen, h: HookId, x: ExecutionId, g: HookId)
    requires x !in updates
    ensures Apart(orders[h := OrderIn(orders, h) + [x]], updates, seen, g) <==> Apart(orders, updates, seen, g)
  {
    forall y
      ensures SuccessOf(orders[h := OrderIn(orders, h) + [x]], updates, g, y) <==> SuccessOf(orders, updates, g, y)
    {
      AppendKeepsSuccesses(orders, updates, h, x, g, y);
    }
  }

  /** Getting a lock appends an execution with no committed success, which leaves every fold alone. */
  lemma AppendStaysFolded(t: Tables, orders: Orders, updates: Updates, seen: Seen, h: HookId, x: ExecutionId)
    requires StatesFolded(t, orders, updates, seen) && x !in updates
    ensures StatesFolded(t, orders[h := OrderIn(orders, h) + [x]], updates, seen)
  {
    var order := OrderIn(orders, h);
    var after := orders[h := order + [x]];
    assert (order + [x])[..|order|] == order;
    assert Expected(order + [x], updates) == Expected(order, updates);
    forall g | Apart(after, updates, seen, g) ensures StateOf(t, g) == Expected(OrderIn(after, g), updates) {
      AppendKeepsApart(orders, updates, seen, h, x, g);
      assert StateOf(t, g) == Expected(OrderIn(orders, g), updates);
    }
  }

  lemma AppendStaysAcquired(orders: Orders, updates: Updates, h: HookId, x: ExecutionId)
    requires UpdatesAcquired(updates, orders)
    ensures UpdatesAcquired(updates, orders[h := OrderIn(orders, h) + [x]])
  {
    forall y | y in updates ensures Acquired(orders[h := OrderIn(orders, h) + [x]], y) {
      AcquiredAfter(orders, h, x, OrderIn(orders, h), y);
    }
  }

  lemma AppendStaysFit(t: Tables, orders: Orders, updates: Updates, seen: Seen, h: HookId, x: ExecutionId, p: Phase)
    requires RunFits(t, orders, updates, seen, p) && SeenFits(seen, updates) && x !in updates
    ensures RunFits(t, orders[h := OrderIn(orders, h) + [x]], updates, seen, p)
  {
    var order := OrderIn(orders, h);
    var after := orders[h := order + [x]];
    assert forall i :: 0 <= i < |order| ==> (order + [x])[i] == order[i];
    if AtWork(p) {
      forall y ensures SuccessOf(after, updates, p.hook, y) <==> SuccessOf(orders, updates, p.hook, y) {
        AppendKeepsSuccesses(orders, updates, h, x, p.hook, y);
      }
    }
  }

  lemma LockStaysSerial(s: System, w: WorkerId)
    requires PhasesFit(s.tables, s.workers) && EarlyNotAcquired(s.workers, s.lockOrder) && Serial(s)
    ensures Serial(Next(s, Lock(w)))
  {
    var p := PhaseOf(s, w);
    if p.AtLock? && KeyOf(p.hook) !in s.locks {
      var next := Next(s, Lock(w));
      var h, x := p.hook, p.execution;
      assert PhaseFits(s.tables, p) && BeforeLock(p) && !Acquired(s.lockOrder, x);
      assert x !in s.updates;
      AppendStaysFolded(s.tables, s.lockOrder, s.updates, s.seen, h, x);
      AppendStaysAcquired(s.lockOrder, s.updates, h, x);
      forall v | v in next.workers
        ensures RunFits(next.tables, next.lockOrder, next.updates, next.seen, next.workers[v])
      {
        if v != w {
          assert RunFits(s.tables, s.lockOrder, s.updates, s.seen, s.workers[v]);
          AppendStaysFit(s.tables, s.lockOrder, s.updates, s.seen, h, x, s.workers[v]);
        }
      }
    }
  }

  // ------------------------------------------------------------------ starting the child

  lemma StartKeepsApart(orders: Orders, updates: Updates, seen: Seen, x: ExecutionId, h: HookId)
    requires x !in updates
    ensures Apart(orders, updates, seen[x := updates.Keys], h) <==> Apart(orders, updates, seen, h)
  {}

  lemma StartKeepsFit(t: Tables, orders: Orders, updates: Updates, seen: Seen, x: ExecutionId, p: Phase)
    requires RunFits(t, orders, updates, seen, p) && (AtWork(p) ==> p.execution != x)
    ensures RunFits(t, orders, updates, seen[x := updates.Keys], p)
  {}

  lemma StarterFits(s: System, w: WorkerId)
    requires Consistent(s) && Serial(s) && PhaseOf(s, w).InLock?
    ensures var p := PhaseOf(s, w);
      RunFits(s.tables, s.lockOrder, s.updates, s.seen[p.execution := s.updates.Keys],
              Child(p.job, p.execution, p.hook, StateOf(s.tables, p.hook)))
  {
    var p := PhaseOf(s, w);
    assert RunFits(s.tables, s.lockOrder, s.updates, s.seen, p);
    assert LastIs(s.lockOrder, p.hook, p.execution) && Distinct(s.lockOrder[p.hook]);
  }

  lemma StartStaysFolded(t: Tables, u: Tables, orders: Orders, updates: Updates, seen: Seen, x: ExecutionId)
    requires StatesFolded(t, orders, updates, seen) && x !in updates && u.states == t.states
    ensures StatesFolded(u, orders, updates, seen[x := updates.Keys])
  {
    forall h | Apart(orders, updates, seen[x := updates.Keys], h)
      ensures StateOf(u, h) == Expected(OrderIn(orders, h), updates)
    {
      StartKeepsApart(orders, updates, seen, x, h);
      assert StateOf(t, h) == Expected(OrderIn(orders, h), updates);
    }
  }

  /** No worker but this one is at work on the execution. */
  ghost predicate OthersElsewhere(workers: Workers, w: WorkerId, x: ExecutionId) {
    forall v :: v in workers && v != w && AtWork(workers[v]) ==> workers[v].execution != x
  }

  lemma OthersAreElsewhere(t: Tables, workers: Workers, w: WorkerId)
    requires PhasesFit(t, workers) && JobsApart(workers) && w in workers && (workers[w].InLock? || AtWork(workers[w]))
    ensures OthersElsewhere(workers, w, workers[w].execution)
  {
    forall v | v in workers && v != w && AtWork(workers[v]) ensures workers[v].execution != workers[w].execution {
      assert PhaseFits(t, workers[v]) && PhaseFits(t, workers[w]);
    }
  }

  lemma StartRunsFit(t: Tables, u: Tables, orders: Orders, updates: Updates, seen: Seen, workers: Workers, w: WorkerId,
                     p: Phase)
    requires RunsFit(t, orders, updates, seen, workers) && p.Child? && OthersElsewhere(workers, w, p.execution)
    requires u.states == t.states && RunFits(t, orders, updates, seen[p.execution := updates.Keys], p)
    ensures RunsFit(u, orders, updates, seen[p.execution := updates.Keys], workers[w := p])
  {
    var after, moved := seen[p.execution := updates.Keys], workers[w := p];
    forall v | v in moved ensures RunFits(u, orders, updates, after, moved[v]) {
      if v != w {
        assert RunFits(t, orders, updates, seen, workers[v]);
        StartKeepsFit(t, orders, updates, seen, p.execution, workers[v]);
      }
      SameStatesFit(t, u, orders, updates, after, moved[v]);
    }
  }

  lemma StartStaysSerial(s: System, w: WorkerId)
    requires Consistent(s) && Serial(s)
    ensures Serial(Next(s, StartChild(w)))
  {
    var p := PhaseOf(s, w);
    if p.InLock? && p.execution < |s.tables.executions| {
      var next := Next(s, StartChild(w));
      assert RunFits(s.tables, s.lockOrder, s.updates, s.seen, p);
      StarterFits(s, w);
      StartStaysFolded(s.tables, next.tables, s.lockOrder, s.updates, s.seen, p.execution);
      OthersAreElsewhere(s.tables, s.workers, w);
      StartRunsFit(s.tables, next.tables, s.lockOrder, s.updates, s.seen, s.workers, w, next.workers[w]);
    }
  }

  // ------------------------------------------------------------------ committing a success

  /** Once the commit of `x` leaves the hook's successes apart, nothing had disturbed `x`. */
  lemma ApartMeansUndisturbed(orders: Orders, updates: Updates, seen: Seen, h: HookId, x: ExecutionId,
                              f: StateValue -> StateValue)
    requires SeenFits(seen, updates) && x !in updates && Listed(orders, seen, h, x)
    requires Apart(orders, updates[x := f], seen, h)
    ensures Undisturbed(orders, updates, seen, h, x) && Apart(orders, updates, seen, h)
  {
    var after := updates[x := f];
    forall y | SuccessOf(orders, updates, h, y) ensures y in seen[x] {
      assert SuccessOf(orders, after, h, y) && SuccessOf(orders, after, h, x) && y != x;
      assert x !in seen[y];
    }
    forall y, z | y != z && SuccessOf(orders, updates, h, y) && SuccessOf(orders, updates, h, z)
      ensures CommittedBefore(seen, y, z) || CommittedBefore(seen, z, y)
    {
      assert SuccessOf(orders, after, h, y) && SuccessOf(orders, after, h, z);
    }
  }

  lemma UndisturbedIsLatest(orders: Orders, updates: Updates, seen: Seen, h: HookId, x: ExecutionId)
    requires Listed(orders, seen, h, x) && Undisturbed(orders, updates, seen, h, x)
    ensures NoSuccessAfter(orders[h], x, updates)
  {
    forall i, j | 0 <= i < j < |orders[h]| && orders[h][i] == x ensures orders[h][j] !in updates {
      assert orders[h][j] in updates ==> SuccessOf(orders, updates, h, orders[h][j]);
    }
  }

  lemma OtherHooksKeepApart(t: Tables, orders: Orders, updates: Updates, seen: Seen, h: HookId, x: ExecutionId,
                            f: StateValue -> StateValue, g: HookId)
    requires OrdersFit(t, orders) && BelongsTo(t, x, h) && g != h
    ensures Apart(orders, updates[x := f], seen, g) <==> Apart(orders, updates, seen, g)
    ensures Expected(OrderIn(orders, g), updates[x := f]) == Expected(OrderIn(orders, g), updates)
    ensures forall y :: SuccessOf(orders, updates[x := f], g, y) <==> SuccessOf(orders, updates, g, y)
  {
    assert g in orders && x in orders[g] ==> BelongsTo(t, x, g);
    assert forall y :: SuccessOf(orders, updates[x := f], g, y) <==> SuccessOf(orders, updates, g, y);
    ExpectedForOutsider(OrderIn(orders, g), updates, x, f);
  }

  lemma SuccessFolds(s: System, w: WorkerId, p: Phase, u: Tables)
    requires Consistent(s) && Serial(s) && w in s.workers && p == s.workers[w]
    requires (p.Ended? || p.Unlocked?) && p.outcome.Succeeded?
    requires u.states == s.tables.states[p.hook := p.write.row]
    ensures StatesFolded(u, s.lockOrder, s.updates[p.execution := p.outcome.update], s.seen)
  {
    var x, h, f := p.execution, p.hook, p.outcome.update;
    assert PhaseFits(s.tables, p) && RunFits(s.tables, s.lockOrder, s.updates, s.seen, p);
    forall g | Apart(s.lockOrder, s.updates[x := f], s.seen, g)
      ensures StateOf(u, g) == Expected(OrderIn(s.lockOrder, g), s.updates[x := f])
    {
      if g == h {
        ApartMeansUndisturbed(s.lockOrder, s.updates, s.seen, h, x, f);
        UndisturbedIsLatest(s.lockOrder, s.updates, s.seen, h, x);
        assert StateOf(s.tables, h) == Expected(OrderIn(s.lockOrder, h), s.updates);
        assert Distinct(s.lockOrder[h]);
        HolderUpdates(s.lockOrder[h], s.updates, x, f);
      } else {
        OtherHooksKeepApart(s.tables, s.lockOrder, s.updates, s.seen, h, x, f, g);
        assert StateOf(s.tables, g) == Expected(OrderIn(s.lockOrder, g), s.updates);
      }
    }
  }

  lemma OtherRunsFit(s: System, v: WorkerId, x: ExecutionId, h: HookId, f: StateValue -> StateValue, u: Tables)
    requires Consistent(s) && Serial(s) && v in s.workers && BelongsTo(s.tables, x, h)
    requires x !in s.updates && h in s.lockOrder && x in s.lockOrder[h]
    requires !s.workers[v].Idle? && !s.workers[v].HasJob? && !s.workers[v].Raised? ==> s.workers[v].execution != x
    requires forall g :: g != h ==> StateOf(u, g) == StateOf(s.tables, g)
    ensures RunFits(u, s.lockOrder, s.updates[x := f], s.seen, s.workers[v])
  {
    var q := s.workers[v];
    assert RunFits(s.tables, s.lockOrder, s.updates, s.seen, q);
    if AtWork(q) {
      if q.hook == h {
        assert SuccessOf(s.lockOrder, s.updates[x := f], h, x) && x !in s.seen[q.execution];
      } else {
        OtherHooksKeepApart(s.tables, s.lockOrder, s.updates, s.seen, h, x, f, q.hook);
        forall y | SuccessOf(s.lockOrder, s.updates, q.hook, y)
          ensures SuccessOf(s.lockOrder, s.updates[x := f], q.hook, y)
        {
        }
      }
    }
  }

  predicate StoresSuccess(t: Tables, p: Phase)
    requires p.Ended? || p.Unlocked?
  {
    p.outcome.Succeeded? && !(p.write.Insert? && p.hook in t.states)
  }

  lemma SuccessRunsFit(s: System, w: WorkerId, p: Phase, u: Tables)
    requires Consistent(s) && Serial(s) && w in s.workers && p == s.workers[w]
    requires (p.Ended? || p.Unlocked?) && p.outcome.Succeeded?
    requires u.states == s.tables.states[p.hook := p.write.row]
    ensures RunsFit(u, s.lockOrder, s.updates[p.execution := p.outcome.update], s.seen, s.workers[w := Idle])
  {
    var moved := s.workers[w := Idle];
    assert PhaseFits(s.tables, p) && RunFits(s.tables, s.lockOrder, s.updates, s.seen, p);
    forall v | v in moved
      ensures RunFits(u, s.lockOrder, s.updates[p.execution := p.outcome.update], s.seen, moved[v])
    {
      if v != w {
        assert PhaseFits(s.tables, s.workers[v]);
        OtherRunsFit(s, v, p.execution, p.hook, p.outcome.update, u);
      }
    }
  }

  lemma StoredSuccess(s: System, w: WorkerId, p: Phase)
    requires (p.Ended? || p.Unlocked?) && StoresSuccess(s.tables, p) && !p.write.NoWrite?
    requires p.job < |s.tables.jobs| && p.execution < |s.tables.executions|
    ensures var t := Committed(s, w, p);
      && t.tables.states == s.tables.states[p.hook := p.write.row] && t.workers == s.workers[w := Idle]
      && t.updates == s.updates[p.execution := p.outcome.update] && t.seen == s.seen && t.lockOrder == s.lockOrder
      && t.loose == s.loose && t.started == s.started
  {}

  lemma SuccessStaysSerial(s: System, w: WorkerId, p: Phase)
    requires Consistent(s) && Serial(s) && w in s.workers && p == s.workers[w]
    requires (p.Ended? || p.Unlocked?) && StoresSuccess(s.tables, p)
    ensures Serial(Committed(s, w, p))
  {
    var next := Committed(s, w, p);
    assert PhaseFits(s.tables, p) && RunFits(s.tables, s.lockOrder, s.updates, s.seen, p);
    StoredSuccess(s, w, p);
    SuccessFolds(s, w, p, next.tables);
    SuccessRunsFit(s, w, p, next.tables);
    assert Acquired(s.lockOrder, p.execution);
  }

  /** A commit of anything but a success leaves states and history alone, and the worker idle or failed. */
  lemma OtherCommitKeepsHistory(s: System, w: WorkerId, p: Phase)
    requires (p.Ended? || p.Unlocked?) && !StoresSuccess(s.tables, p) && (p.write.NoWrite? <==> !p.outcome.Succeeded?)
    requires Committed(s, w, p) != s
    ensures var t := Committed(s, w, p);
      && SameHistory(s, t) && w in t.workers && t.workers == s.workers[w := t.workers[w]]
      && (t.workers[w].Idle? || t.workers[w].Raised?) && t.loose == s.loose && t.started == s.started
  {}

  lemma CommittedStaysSerial(s: System, w: WorkerId, p: Phase)
    requires Consistent(s) && Serial(s) && w in s.workers && p == s.workers[w] && (p.Ended? || p.Unlocked?)
    ensures Serial(Committed(s, w, p))
  {
    var next := Committed(s, w, p);
    if StoresSuccess(s.tables, p) {
      SuccessStaysSerial(s, w, p);
    } else if next != s {
      assert RunFits(s.tables, s.lockOrder, s.updates, s.seen, p);
      OtherCommitKeepsHistory(s, w, p);
      MoveStaysSerial(s, next, w, next.workers[w]);
    }
  }

  lemma CommitStaysSerial(s: System, e: Event)
    requires Consistent(s) && Serial(s) && (e.CommitAndUnlock? || e.CommitLate?)
    ensures Serial(Next(s, e))
  {
    if Next(s, e) != s { CommittedStaysSerial(s, e.worker, PhaseOf(s, e.worker)); }
  }

  lemma {:induction false} StepStaysSerial(s: System, e: Event)
    requires Consistent(s) && Serial(s)
    ensures Serial(Next(s, e))
  {
    match e
    case Lock(w) => LockStaysSerial(s, w);
    case StartChild(w) => StartStaysSerial(s, w);
    case EndChild(w, outcome, reread) => EndStaysSerial(s, w, outcome, reread);
    case UnlockFirst(w) => UnlockStaysSerial(s, w);
    case CommitAndUnlock(_) => CommitStaysSerial(s, e);
    case CommitLate(_) => CommitStaysSerial(s, e);
    case Raise(_) => StopStaysSerial(s, e);
    case RecordFailure(_) => StopStaysSerial(s, e);
    case Crash(_) => StopStaysSerial(s, e);
    case Claim(w, j) => ClaimStaysSerial(s, w, j);
    case ReadExecution(_) => StopStaysSerial(s, e);
    case _ => QuietStepStaysSerial(s, e);
  }

  lemma {:induction false} RunIsSerial(events: seq<Event>)
    ensures Serial(Run(events))
    decreases |events|
  {
    if events != [] {
      var before := events[..|events| - 1];
      RunIsSerial(before);
      RunIsConsistent(before);
      StepStaysSerial(Run(before), events[|events| - 1]);
    }
  }

  /**
   * In every run, with any number of workers, crashes, lost locks and unlocks before the commit:
   * if no two successes of a hook overlap, its stored state is the left fold of them in the order
   * they got the lock, and its version is their number. Runs that failed, timed out or crashed
   * leave no trace, whenever they were started.
   */
  lemma {:induction false} StateIsFoldOfSuccesses(events: seq<Event>, hook: HookId)
    ensures var s := Run(events);
      SuccessesApart(s, hook) ==> StateOf(s.tables, hook) == Expected(OrderOf(s, hook), s.updates)
  {
    RunIsSerial(events);
  }
}
