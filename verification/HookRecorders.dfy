/**
 * Hooks that record their runs: each success appends its own execution to the list that is the
 * hook's state. For them every overlap of two successes loses something.
 */
module HookRecorders {
  import opened HookTables
  import opened JobStore
  import opened HookWorkers
  import opened HookStateLaws

  ghost predicate Appends(f: StateValue -> StateValue, x: ExecutionId) {
    forall v :: f(v) == v + [x]
  }

  /** A child that ends with success has appended its execution to the state it was given. */
  ghost predicate RecordsAt(s: System, e: Event) {
    e.EndChild? && e.outcome.Succeeded? && PhaseOf(s, e.worker).Child? ==>
      Appends(e.outcome.update, PhaseOf(s, e.worker).execution)
  }

  ghost predicate Recording(events: seq<Event>) {
    forall k :: 0 <= k < |events| ==> RecordsAt(Run(events[..k]), events[k])
  }

  // ------------------------------------------------------------------ what a recorded list holds

  /** Committed successes of the hook, each committed before the child of every later one was started. */
  ghost predicate Chain(orders: Orders, updates: Updates, seen: Seen, h: HookId, list: StateValue) {
    && (forall i :: 0 <= i < |list| ==> SuccessOf(orders, updates, h, list[i]))
    && (forall i, j :: 0 <= i < j < |list| ==> CommittedBefore(seen, list[i], list[j]))
  }

  /** The list is what the child of `x` was given, or part of it. */
  ghost predicate GivenTo(seen: Seen, x: ExecutionId, list: StateValue) {
    forall i :: 0 <= i < |list| ==> CommittedBefore(seen, list[i], x)
  }

  ghost predicate WriteRecords(orders: Orders, updates: Updates, seen: Seen, p: Phase)
    requires p.Ended? || p.Unlocked?
  {
    !p.write.NoWrite? ==>
      var list := p.write.row.value;
      && list != [] && list[|list| - 1] == p.execution
      && Chain(orders, updates, seen, p.hook, list[..|list| - 1]) && GivenTo(seen, p.execution, list[..|list| - 1])
  }

  ghost predicate PhaseRecords(orders: Orders, updates: Updates, seen: Seen, p: Phase) {
    && (p.Child? ==>
          Chain(orders, updates, seen, p.hook, ValueOf(p.input)) && GivenTo(seen, p.execution, ValueOf(p.input)))
    && (p.Ended? || p.Unlocked? ==> WriteRecords(orders, updates, seen, p))
    && ((p.Ended? || p.Unlocked?) && p.outcome.Succeeded? ==> Appends(p.outcome.update, p.execution))
  }

  ghost predicate PhasesRecord(orders: Orders, updates: Updates, seen: Seen, workers: Workers) {
    forall w :: w in workers ==> PhaseRecords(orders, updates, seen, workers[w])
  }

  ghost predicate StatesRecord(t: Tables, orders: Orders, updates: Updates, seen: Seen) {
    forall h :: Chain(orders, updates, seen, h, ValueOf(StateOf(t, h)))
  }

  ghost predicate UpdatesRecord(updates: Updates) {
    forall x :: x in updates ==> Appends(updates[x], x)
  }

  ghost predicate Recorded(s: System) {
    && StatesRecord(s.tables, s.lockOrder, s.updates, s.seen)
    && PhasesRecord(s.lockOrder, s.updates, s.seen, s.workers)
    && UpdatesRecord(s.updates)
  }

  // ------------------------------------------------------------------ steps

  lemma MoveStaysRecorded(s: System, t: System, w: WorkerId, p: Phase)
    requires Recorded(s) && SameHistory(s, t) && t.workers == s.workers[w := p]
    requires PhaseRecords(s.lockOrder, s.updates, s.seen, p)
    ensures Recorded(t)
  {
    assert forall h :: StateOf(t.tables, h) == StateOf(s.tables, h);
    forall v | v in t.workers ensures PhaseRecords(t.lockOrder, t.updates, t.seen, t.workers[v]) {
      if v != w { assert PhaseRecords(s.lockOrder, s.updates, s.seen, s.workers[v]); }
    }
  }

  lemma QuietStaysRecorded(s: System, e: Event)
    requires Recorded(s) && IsQuiet(e)
    ensures Recorded(Next(s, e))
  {
    QuietStepKeepsHistory(s, e);
    var t := Next(s, e);
    assert forall h :: StateOf(t.tables, h) == StateOf(s.tables, h);
  }

  /** Successes stay successes, and what was seen by their children stays seen. */
  ghost predicate Extends(orders: Orders, updates: Updates, seen: Seen, orders': Orders, updates': Updates,
                          seen': Seen) {
    && (forall h, x :: SuccessOf(orders, updates, h, x) ==> SuccessOf(orders', updates', h, x))
    && (forall x :: x in updates && x in seen ==> x in seen' && seen'[x] == seen[x])
  }

  lemma ChainExtends(orders: Orders, updates: Updates, seen: Seen, orders': Orders, updates': Updates, seen': Seen,
                     h: HookId, list: StateValue)
    requires Extends(orders, updates, seen, orders', updates', seen') && Chain(orders, updates, seen, h, list)
    ensures Chain(orders', updates', seen', h, list)
  {
    forall i, j | 0 <= i < j < |list| ensures CommittedBefore(seen', list[i], list[j]) {
      assert CommittedBefore(seen, list[i], list[j]) && SuccessOf(orders, updates, h, list[j]);
    }
  }

  lemma PhaseExtends(orders: Orders, updates: Updates, seen: Seen, orders': Orders, updates': Updates, seen': Seen,
                     p: Phase)
    requires Extends(orders, updates, seen, orders', updates', seen') && PhaseRecords(orders, updates, seen, p)
    requires AtWork(p) && p.execution in seen ==> p.execution in seen' && seen'[p.execution] == seen[p.execution]
    ensures PhaseRecords(orders', updates', seen', p)
  {
    if p.Child? {
      ChainExtends(orders, updates, seen, orders', updates', seen', p.hook, ValueOf(p.input));
    } else if (p.Ended? || p.Unlocked?) && !p.write.NoWrite? {
      var list := p.write.row.value;
      ChainExtends(orders, updates, seen, orders', updates', seen', p.hook, list[..|list| - 1]);
    }
  }

  lemma StatesExtend(s: System, t: System)
    requires StatesRecord(s.tables, s.lockOrder, s.updates, s.seen) && t.tables.states == s.tables.states
    requires Extends(s.lockOrder, s.updates, s.seen, t.lockOrder, t.updates, t.seen)
    ensures StatesRecord(t.tables, t.lockOrder, t.updates, t.seen)
  {
    forall h ensures Chain(t.lockOrder, t.updates, t.seen, h, ValueOf(StateOf(t.tables, h))) {
      ChainExtends(s.lockOrder, s.updates, s.seen, t.lockOrder, t.updates, t.seen, h, ValueOf(StateOf(s.tables, h)));
    }
  }

  lemma LockStaysRecorded(s: System, w: WorkerId)
    requires Consistent(s) && Serial(s) && Recorded(s)
    ensures Recorded(Next(s, Lock(w)))
  {
    var p, t := PhaseOf(s, w), Next(s, Lock(w));
    if p.AtLock? && KeyOf(p.hook) !in s.locks {
      assert PhaseFits(s.tables, p) && BeforeLock(p) && !Acquired(s.lockOrder, p.execution);
      assert p.execution !in s.updates;
      forall h, x | SuccessOf(s.lockOrder, s.updates, h, x) ensures SuccessOf(t.lockOrder, t.updates, h, x) {}
      StatesExtend(s, t);
      forall v | v in t.workers ensures PhaseRecords(t.lockOrder, t.updates, t.seen, t.workers[v]) {
        if v != w {
          assert PhaseRecords(s.lockOrder, s.updates, s.seen, s.workers[v]);
          PhaseExtends(s.lockOrder, s.updates, s.seen, t.lockOrder, t.updates, t.seen, s.workers[v]);
        }
      }
    }
  }

  lemma StarterRecords(s: System, h: HookId, x: ExecutionId, p: Phase)
    requires StatesRecord(s.tables, s.lockOrder, s.updates, s.seen)
    requires p.Child? && p.hook == h && p.execution == x && p.input == StateOf(s.tables, h)
    requires x in s.seen && s.seen[x] == s.updates.Keys
    ensures PhaseRecords(s.lockOrder, s.updates, s.seen, p)
  {
    GivenAtStart(s.lockOrder, s.updates, s.seen, h, x, ValueOf(StateOf(s.tables, h)));
  }

  lemma OtherRecordsAtStart(orders: Orders, updates: Updates, seen: Seen, x: ExecutionId, q: Phase)
    requires PhaseRecords(orders, updates, seen, q) && x !in updates && (AtWork(q) ==> q.execution != x)
    ensures PhaseRecords(orders, updates, seen[x := updates.Keys], q)
  {
    PhaseExtends(orders, updates, seen, orders, updates, seen[x := updates.Keys], q);
  }

  lemma StartPhasesRecord(orders: Orders, updates: Updates, seen: Seen, workers: Workers, w: WorkerId, p: Phase)
    requires PhasesRecord(orders, updates, seen, workers) && p.Child? && p.execution !in updates
    requires OthersElsewhere(workers, w, p.execution)
    requires PhaseRecords(orders, updates, seen[p.execution := updates.Keys], p)
    ensures PhasesRecord(orders, updates, seen[p.execution := updates.Keys], workers[w := p])
  {
    var moved := workers[w := p];
    forall v | v in moved ensures PhaseRecords(orders, updates, seen[p.execution := updates.Keys], moved[v]) {
      if v != w { OtherRecordsAtStart(orders, updates, seen, p.execution, workers[v]); }
    }
  }

  lemma StartStaysRecorded(s: System, w: WorkerId)
    requires PhasesFit(s.tables, s.workers) && JobsApart(s.workers)
    requires RunsFit(s.tables, s.lockOrder, s.updates, s.seen, s.workers) && Recorded(s)
    ensures Recorded(Next(s, StartChild(w)))
  {
    var p, t := PhaseOf(s, w), Next(s, StartChild(w));
    if p.InLock? && p.execution < |s.tables.executions| {
      assert RunFits(s.tables, s.lockOrder, s.updates, s.seen, p);
      OthersAreElsewhere(s.tables, s.workers, w);
      StatesExtend(s, t);
      StarterRecords(t, p.hook, p.execution, t.workers[w]);
      StartPhasesRecord(s.lockOrder, s.updates, s.seen, s.workers, w, t.workers[w]);
    }
  }

  lemma GivenAtStart(orders: Orders, updates: Updates, seen: Seen, h: HookId, x: ExecutionId, list: StateValue)
    requires Chain(orders, updates, seen, h, list) && x in seen && seen[x] == updates.Keys
    ensures GivenTo(seen, x, list)
  {
    forall i | 0 <= i < |list| ensures CommittedBefore(seen, list[i], x) {
      assert SuccessOf(orders, updates, h, list[i]);
    }
  }

  lemma EndStaysRecorded(s: System, e: Event)
    requires Recorded(s) && e.EndChild? && RecordsAt(s, e)
    ensures Recorded(Next(s, e))
  {
    var p := PhaseOf(s, e.worker);
    if p.Child? {
      assert PhaseRecords(s.lockOrder, s.updates, s.seen, p);
      var write := WriteOf(s.tables, p.hook, p.input, e.outcome, e.reread);
      var q := Ended(p.job, p.execution, p.hook, e.outcome, write);
      if e.outcome.Succeeded? {
        var list := write.row.value;
        assert list == ValueOf(p.input) + [p.execution];
        assert list[..|list| - 1] == ValueOf(p.input);
      }
      MoveStaysRecorded(s, Next(s, e), e.worker, q);
    }
  }

  lemma UnlockStaysRecorded(s: System, w: WorkerId)
    requires Recorded(s)
    ensures Recorded(Next(s, UnlockFirst(w)))
  {
    var p := PhaseOf(s, w);
    if p.Ended? {
      assert PhaseRecords(s.lockOrder, s.updates, s.seen, p);
      MoveStaysRecorded(s, Next(s, UnlockFirst(w)), w, Unlocked(p.job, p.execution, p.hook, p.outcome, p.write));
    }
  }

  lemma ClaimStaysRecorded(s: System, w: WorkerId, j: JobId)
    requires Recorded(s)
    ensures Recorded(Next(s, Claim(w, j)))
  {
    RecoveryKeepsStates(s.tables, s.now);
    var next := Next(s, Claim(w, j));
    if next != s { MoveStaysRecorded(s, next, w, HasJob(j)); }
  }

  lemma StopStaysRecorded(s: System, e: Event)
    requires Recorded(s) && StopsWork(e)
    ensures Recorded(Next(s, e))
  {
    var next := Next(s, e);
    if next != s {
      StopKeepsHistory(s, e);
      MoveStaysRecorded(s, next, e.worker, next.workers[e.worker]);
    }
  }

  lemma CommittedList(orders: Orders, updates: Updates, seen: Seen, p: Phase, f: StateValue -> StateValue)
    requires (p.Ended? || p.Unlocked?) && !p.write.NoWrite? && WriteRecords(orders, updates, seen, p)
    requires Listed(orders, seen, p.hook, p.execution)
    ensures Chain(orders, updates[p.execution := f], seen, p.hook, p.write.row.value)
  {
    var list := p.write.row.value;
    var last := |list| - 1;
    var after := updates[p.execution := f];
    forall i | 0 <= i < |list| ensures SuccessOf(orders, after, p.hook, list[i]) {
      if i < last { assert SuccessOf(orders, updates, p.hook, list[..last][i]); }
    }
    forall i, j | 0 <= i < j < |list| ensures CommittedBefore(seen, list[i], list[j]) {
      assert list[..last][i] == list[i];
      if j < last { assert list[..last][j] == list[j]; }
    }
  }

  /** A commit adds its execution to the successes, and changes no child's view of them. */
  lemma CommitExtends(orders: Orders, updates: Updates, seen: Seen, x: ExecutionId, f: StateValue -> StateValue)
    requires x !in updates
    ensures Extends(orders, updates, seen, orders, updates[x := f], seen)
  {}

  lemma SuccessStatesRecord(s: System, p: Phase, u: Tables)
    requires StatesRecord(s.tables, s.lockOrder, s.updates, s.seen) && (p.Ended? || p.Unlocked?) && !p.write.NoWrite?
    requires p.execution !in s.updates && u.states == s.tables.states[p.hook := p.write.row]
    requires p.outcome.Succeeded?
    requires Chain(s.lockOrder, s.updates[p.execution := p.outcome.update], s.seen, p.hook, p.write.row.value)
    ensures StatesRecord(u, s.lockOrder, s.updates[p.execution := p.outcome.update], s.seen)
  {
    var updates := s.updates[p.execution := p.outcome.update];
    CommitExtends(s.lockOrder, s.updates, s.seen, p.execution, p.outcome.update);
    forall h ensures Chain(s.lockOrder, updates, s.seen, h, ValueOf(StateOf(u, h))) {
      if h != p.hook {
        assert StateOf(u, h) == StateOf(s.tables, h);
        ChainExtends(s.lockOrder, s.updates, s.seen, s.lockOrder, updates, s.seen, h, ValueOf(StateOf(s.tables, h)));
      }
    }
  }

  lemma SuccessPhasesRecord(orders: Orders, updates: Updates, seen: Seen, workers: Workers, w: WorkerId, x: ExecutionId,
                            f: StateValue -> StateValue)
    requires PhasesRecord(orders, updates, seen, workers) && x !in updates
    ensures PhasesRecord(orders, updates[x := f], seen, workers[w := Idle])
  {
    CommitExtends(orders, updates, seen, x, f);
    var moved := workers[w := Idle];
    forall v | v in moved ensures PhaseRecords(orders, updates[x := f], seen, moved[v]) {
      if v != w { PhaseExtends(orders, updates, seen, orders, updates[x := f], seen, workers[v]); }
    }
  }

  lemma SuccessStaysRecorded(s: System, w: WorkerId, p: Phase)
    requires PhasesFit(s.tables, s.workers) && Paired(s.tables.executions, s.tables.jobs)
    requires RunsFit(s.tables, s.lockOrder, s.updates, s.seen, s.workers) && Recorded(s)
    requires w in s.workers && p == s.workers[w] && (p.Ended? || p.Unlocked?) && StoresSuccess(s.tables, p)
    ensures Recorded(Committed(s, w, p))
  {
    var t := Committed(s, w, p);
    assert PhaseFits(s.tables, p) && RunFits(s.tables, s.lockOrder, s.updates, s.seen, p);
    assert PhaseRecords(s.lockOrder, s.updates, s.seen, p);
    CommittedList(s.lockOrder, s.updates, s.seen, p, p.outcome.update);
    SuccessStatesRecord(s, p, t.tables);
    SuccessPhasesRecord(s.lockOrder, s.updates, s.seen, s.workers, w, p.execution, p.outcome.update);
  }

  lemma CommittedStaysRecorded(s: System, w: WorkerId, p: Phase)
    requires Consistent(s) && Serial(s) && Recorded(s) && w in s.workers && p == s.workers[w]
    requires (p.Ended? || p.Unlocked?)
    ensures Recorded(Committed(s, w, p))
  {
    var next := Committed(s, w, p);
    if StoresSuccess(s.tables, p) {
      SuccessStaysRecorded(s, w, p);
    } else if next != s {
      assert RunFits(s.tables, s.lockOrder, s.updates, s.seen, p);
      OtherCommitKeepsHistory(s, w, p);
      MoveStaysRecorded(s, next, w, next.workers[w]);
    }
  }

  lemma CommitStaysRecorded(s: System, e: Event)
    requires Consistent(s) && Serial(s) && Recorded(s) && (e.CommitAndUnlock? || e.CommitLate?)
    ensures Recorded(Next(s, e))
  {
    if Next(s, e) != s { CommittedStaysRecorded(s, e.worker, PhaseOf(s, e.worker)); }
  }

  lemma {:induction false} StepStaysRecorded(s: System, e: Event)
    requires Consistent(s) && Serial(s) && Recorded(s) && RecordsAt(s, e)
    ensures Recorded(Next(s, e))
  {
    match e
    case Lock(w) => LockStaysRecorded(s, w);
    case StartChild(w) => StartStaysRecorded(s, w);
    case EndChild(_, _, _) => EndStaysRecorded(s, e);
    case UnlockFirst(w) => UnlockStaysRecorded(s, w);
    case CommitAndUnlock(_) => CommitStaysRecorded(s, e);
    case CommitLate(_) => CommitStaysRecorded(s, e);
    case Claim(w, j) => ClaimStaysRecorded(s, w, j);
    case Raise(_) => StopStaysRecorded(s, e);
    case RecordFailure(_) => StopStaysRecorded(s, e);
    case Crash(_) => StopStaysRecorded(s, e);
    case ReadExecution(_) => StopStaysRecorded(s, e);
    case _ => QuietStaysRecorded(s, e);
  }

  lemma RecordingPrefix(events: seq<Event>)
    requires events != [] && Recording(events)
    ensures Recording(events[..|events| - 1])
    ensures RecordsAt(Run(events[..|events| - 1]), events[|events| - 1])
  {
    var before := events[..|events| - 1];
    forall k | 0 <= k < |before| ensures RecordsAt(Run(before[..k]), before[k]) {
      assert before[..k] == events[..k];
    }
  }

  lemma {:induction false} RunIsRecorded(events: seq<Event>)
    requires Recording(events)
    ensures Recorded(Run(events))
    decreases |events|
  {
    if events != [] {
      var before := events[..|events| - 1];
      RecordingPrefix(events);
      RunIsRecorded(before);
      RunIsConsistent(before);
      RunIsSerial(before);
      StepStaysRecorded(Run(before), events[|events| - 1]);
    }
  }

  // ------------------------------------------------------------------ exactly when nothing is lost

  lemma {:induction false} FoldOfRecords(successes: seq<ExecutionId>, updates: Updates)
    requires UpdatesRecord(updates) && forall x :: x in successes ==> x in updates
    ensures Folded(successes, updates) == successes
    decreases |successes|
  {
    if successes != [] {
      var before, x := successes[..|successes| - 1], successes[|successes| - 1];
      FoldOfRecords(before, updates);
      assert Appends(updates[x], x);
      assert successes == before + [x];
    }
  }

  lemma CompleteListIsApart(s: System, h: HookId)
    requires Recorded(s) && ValueOf(StateOf(s.tables, h)) == Successes(OrderOf(s, h), s.updates)
    ensures SuccessesApart(s, h)
  {
    var list := ValueOf(StateOf(s.tables, h));
    SuccessesAreListed(OrderOf(s, h), s.updates);
    forall x, y | x != y && SuccessOf(s.lockOrder, s.updates, h, x) && SuccessOf(s.lockOrder, s.updates, h, y)
      ensures CommittedBefore(s.seen, x, y) || CommittedBefore(s.seen, y, x)
    {
      assert x in list && y in list;
      var i :| 0 <= i < |list| && list[i] == x;
      var j :| 0 <= j < |list| && list[j] == y;
      assert i < j ==> CommittedBefore(s.seen, list[i], list[j]);
      assert j < i ==> CommittedBefore(s.seen, list[j], list[i]);
    }
  }

  /**
   * In every run of hooks that record their successes, a hook's stored list is all of them in lock
   * order if and only if no two of them overlap: no success had its child started while another
   * success of the hook was already started and not yet committed.
   */
  lemma {:induction false} RecordsAreCompleteExactly(events: seq<Event>, h: HookId)
    requires Recording(events)
    ensures var s := Run(events);
      ValueOf(StateOf(s.tables, h)) == Successes(OrderOf(s, h), s.updates) <==> SuccessesApart(s, h)
  {
    var s := Run(events);
    RunIsRecorded(events);
    if SuccessesApart(s, h) {
      StateIsFoldOfSuccesses(events, h);
      SuccessesAreListed(OrderOf(s, h), s.updates);
      FoldOfRecords(Successes(OrderOf(s, h), s.updates), s.updates);
    } else if ValueOf(StateOf(s.tables, h)) == Successes(OrderOf(s, h), s.updates) {
      CompleteListIsApart(s, h);
    }
  }
}
