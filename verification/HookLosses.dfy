/** Runs in which an update is lost: by a start in the gap, and by a lock that dies with its connection. */
module HookLosses {
  import opened Prelude
  import opened HookTables
  import opened JobStore
  import opened HookWorkers
  import opened HookPaths
  import opened HookStateLaws

  function Append(x: ExecutionId): StateValue -> StateValue {
    (v: StateValue) => v + [x]
  }

  /** How the first run ends: with a first row that holds its own number. */
  function FirstEnd(): (JobId, ExecutionId, HookId, Outcome, Write) {
    (0, 0, 7, Succeeded(Append(0)), Insert(HookState([0], 1)))
  }

  /** Two recorded successes, one of which is missing from the stored list. */
  ghost predicate LostUpdate(s: System) {
    && Successes(OrderOf(s, 7), s.updates) == [0, 1]
    && StateOf(s.tables, 7) == Some(HookState([1], 2))
    && !SuccessesApart(s, 7)
  }

  lemma TwoOfTwo(s: System)
    requires s.lockOrder == map[7 := [0, 1]] && s.updates.Keys == {0, 1}
    requires s.tables.states == map[7 := HookState([1], 2)]
    requires s.seen == map[0 := {}, 1 := {}]
    ensures LostUpdate(s)
  {
    assert [0, 1][..1] == [0] && [0][..0] == [];
    assert Successes([0], s.updates) == [0];
    assert Successes([0, 1], s.updates) == [0, 1];
    assert SuccessOf(s.lockOrder, s.updates, 7, 0) && SuccessOf(s.lockOrder, s.updates, 7, 1);
    assert !CommittedBefore(s.seen, 0, 1) && !CommittedBefore(s.seen, 1, 0);
  }

  /** The second child, given no row, ends after the first run has committed one, and its list replaces it. */
  lemma SecondReplaces(reach: System -> bool, s: System) returns (r: System)
    requires Closed(reach) && reach(s)
    requires PhaseOf(s, 2) == Child(1, 1, 7, None) && s.tables.states == map[7 := HookState([0], 1)]
    requires |s.tables.jobs| == 2 && |s.tables.executions| == 2
    requires s.lockOrder == map[7 := [0, 1]] && s.updates.Keys == {0} && s.seen == map[0 := {}, 1 := {}]
    ensures reach(r) && LostUpdate(r)
  {
    assert Append(1)([]) == [1];
    var ended := StepReaches(reach, s, EndChild(2, Succeeded(Append(1)), true));
    assert PhaseOf(ended, 2) == Ended(1, 1, 7, Succeeded(Append(1)), Update(HookState([1], 2)));
    r := StepReaches(reach, ended, CommitAndUnlock(2));
    assert r == Committed(ended, 2, PhaseOf(ended, 2));
    TwoOfTwo(r);
  }

  lemma FirstEnds(reach: System -> bool, s: System) returns (r: System)
    requires Closed(reach) && reach(s) && PhaseOf(s, 1) == Child(0, 0, 7, None) && s.tables.states == map[]
    ensures reach(r)
    ensures r == s.(workers := s.workers[1 := Ended(0, 0, 7, Succeeded(Append(0)), Insert(HookState([0], 1)))],
                    running := s.running - {0})
  {
    r := StepReaches(reach, s, EndChild(1, Succeeded(Append(0)), true));
    assert Append(0)([]) == [0];
  }

  /** Both jobs are queued, the first one's child was started, and nothing is locked or committed. */
  predicate SecondMayStart(s: System) {
    && PhaseOf(s, 2).Idle? && s.now == 0 && KeyOf(7) !in s.locks
    && AllLockedAtZero(s.tables) && Untouched(s.tables, 1) && |s.tables.jobs| == 2 && |s.tables.executions| == 2
    && s.tables.states == map[] && s.lockOrder == map[7 := [0]] && s.seen == map[0 := {}] && s.updates == map[]
  }

  lemma FirstChild(reach: System -> bool) returns (r: System)
    requires Closed(reach) && reach(START)
    ensures reach(r) && PhaseOf(r, 1) == Child(0, 0, 7, None)
    ensures r.locks == map[KeyOf(7) := 1] && SecondMayStart(r.(locks := map[]))
  {
    var queued := TwoJobsQueued(reach);
    assert OrderOf(queued, 7) + [0] == [0] && queued.updates.Keys == {};
    r := ChildReached(reach, queued, 1, 0);
  }

  /** The second child is started, and the first run then commits what it has. */
  ghost predicate SecondGiven(s: System, before: System) {
    && PhaseOf(s, 2) == Child(1, 1, 7, None) && PhaseOf(s, 1) == PhaseOf(before, 1)
    && |s.tables.jobs| == 2 && |s.tables.executions| == 2 && s.tables.states == map[]
    && s.lockOrder == map[7 := [0, 1]] && s.updates == map[] && s.seen == map[0 := {}, 1 := {}]
  }

  lemma SecondChild(reach: System -> bool, s: System) returns (r: System)
    requires Closed(reach) && reach(s) && SecondMayStart(s)
    ensures reach(r) && SecondGiven(r, s)
  {
    assert OrderOf(s, 7) + [1] == [0, 1] && s.updates.Keys == {};
    r := ChildReached(reach, s, 2, 1);
    assert r == WithChild(s, 2, 1);
  }

  /** The first run commits its row, and the second, given none, puts its own in its place. */
  lemma BothCommit(reach: System -> bool, s: System, e: Event) returns (r: System)
    requires Closed(reach) && reach(s) && SecondGiven(s, s)
    requires match PhaseOf(s, 1)
             case Ended(j, x, h, o, w) => e == CommitAndUnlock(1) && (j, x, h, o, w) == FirstEnd()
             case Unlocked(j, x, h, o, w) => e == CommitLate(1) && (j, x, h, o, w) == FirstEnd()
             case _ => false
    ensures reach(r) && LostUpdate(r)
  {
    var committed := StepReaches(reach, s, e);
    assert committed == Committed(s, 1, PhaseOf(s, 1));
    r := SecondReplaces(reach, committed);
  }

  /** The unlock comes before the commit, and the hook's next child starts in between. */
  lemma SplitUnlockLosesUpdate()
    ensures exists events :: LostUpdate(Run(events))
  {
    RunsAreClosed();
    var first := FirstChild(Reached);
    var ended := FirstEnds(Reached, first);
    var open := Next(ended, UnlockFirst(1));
    RunGoesOn(ended, UnlockFirst(1));
    var second := SecondChild(Reached, open);
    var lost := BothCommit(Reached, second, CommitLate(1));
    var events :| Run(events) == lost;
  }

  /** The connection that holds the lock dies while the child runs; every unlock comes with its commit. */
  lemma DroppedLockLosesUpdate()
    ensures exists events :: JointUnlocks(events) && LostUpdate(Run(events))
  {
    RunsAreClosed();
    var first := FirstChild(ReachedJointly);
    var dropped := StepReaches(ReachedJointly, first, DropLock(1));
    var second := SecondChild(ReachedJointly, dropped);
    var ended := FirstEnds(ReachedJointly, second);
    var lost := BothCommit(ReachedJointly, ended, CommitAndUnlock(1));
    var events :| JointUnlocks(events) && Run(events) == lost;
  }
}
