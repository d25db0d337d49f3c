/** Concrete runs of hook workers, reached step by step, for showing what can happen. */
module HookPaths {
  import opened Prelude
  import opened HookTables
  import opened JobStore
  import opened HookWorkers

  /** A set of states that every step stays inside, but for unlocks ahead of the commit. */
  ghost predicate Closed(reach: System -> bool) {
    forall s, e: Event :: reach(s) && !e.UnlockFirst? ==> reach(Next(s, e))
  }

  ghost predicate Reached(s: System) {
    exists events :: Run(events) == s
  }

  predicate JointUnlocks(events: seq<Event>) {
    forall k :: 0 <= k < |events| ==> !events[k].UnlockFirst?
  }

  ghost predicate ReachedJointly(s: System) {
    exists events :: JointUnlocks(events) && Run(events) == s
  }

  lemma RunGoesOn(s: System, e: Event)
    ensures Reached(s) ==> Reached(Next(s, e))
    ensures ReachedJointly(s) && !e.UnlockFirst? ==> ReachedJointly(Next(s, e))
  {
    if events :| Run(events) == s {
      OneEventMore(events, e);
    }
    if events :| !e.UnlockFirst? && JointUnlocks(events) && Run(events) == s {
      OneEventMore(events, e);
      StillJoint(events, e);
    }
  }

  lemma StillJoint(events: seq<Event>, e: Event)
    requires JointUnlocks(events) && !e.UnlockFirst?
    ensures JointUnlocks(events + [e])
  {}

  lemma OneEventMore(events: seq<Event>, e: Event)
    ensures Run(events + [e]) == Next(Run(events), e)
  {
    assert (events + [e])[..|events|] == events;
  }

  lemma RunsAreClosed()
    ensures Reached(START) && Closed(Reached)
    ensures ReachedJointly(START) && Closed(ReachedJointly)
  {
    assert Run([]) == START && JointUnlocks([]);
    forall s, e ensures Reached(s) ==> Reached(Next(s, e)) { RunGoesOn(s, e); }
    forall s, e: Event | !e.UnlockFirst? ensures ReachedJointly(s) ==> ReachedJointly(Next(s, e)) { RunGoesOn(s, e); }
  }

  lemma StepReaches(reach: System -> bool, s: System, e: Event) returns (r: System)
    requires Closed(reach) && reach(s) && !e.UnlockFirst?
    ensures reach(r) && r == Next(s, e)
  {
    r := Next(s, e);
  }

  predicate Untouched(t: Tables, j: JobId) {
    && j < |t.jobs| && j < |t.executions|
    && t.jobs[j] == NewJob(j, 0) && t.executions[j] == NewExecution(7, 0, 0, false)
  }

  predicate AllLockedAtZero(t: Tables) {
    forall k :: 0 <= k < |t.jobs| ==> t.jobs[k].lockedAt.None? || t.jobs[k].lockedAt.value == 0
  }

  lemma {:induction false} NothingExpired(t: Tables, count: nat)
    requires count <= |t.jobs| && AllLockedAtZero(t)
    ensures RecoveredFirst(t, count, 0) == t
  {
    if count > 0 { NothingExpired(t, count - 1); }
  }

  function ClaimedAtZero(j: JobId, w: WorkerId): Job {
    NewJob(j, 0).(status := Active, lockedAt := Some(0), lockedBy := Some(w), attempts := 1)
  }

  /** Two jobs of hook 7 wait, at time zero, and nothing else has happened. */
  lemma TwoJobsQueued(reach: System -> bool) returns (r: System)
    requires Closed(reach) && reach(START)
    ensures reach(r)
    ensures r == START.(tables := Tables([NewExecution(7, 0, 0, false), NewExecution(7, 0, 0, false)],
                                         [NewJob(0, 0), NewJob(1, 0)], map[]))
  {
    var q := Queue(7, 0, 0, false);
    r := StepReaches(reach, START, q);
    r := StepReaches(reach, r, q);
  }

  function TablesWithChild(t: Tables, w: WorkerId, j: JobId): Tables
    requires j < |t.jobs| && j < |t.executions|
  {
    Started(t.(jobs := t.jobs[j := ClaimedAtZero(j, w)]), j)
  }

  function WithChild(s: System, w: WorkerId, j: JobId): System
    requires j < |s.tables.jobs| && j < |s.tables.executions|
  {
    s.(tables := TablesWithChild(s.tables, w, j),
       workers := s.workers[w := Child(j, j, 7, StateOf(s.tables, 7))],
       locks := s.locks[KeyOf(7) := w],
       running := s.running + {j},
       started := s.started + multiset{j},
       seen := s.seen[j := s.updates.Keys],
       lockOrder := s.lockOrder[7 := OrderOf(s, 7) + [j]])
  }

  lemma ClaimAtZero(reach: System -> bool, s: System, w: WorkerId, j: JobId) returns (r: System)
    requires Closed(reach) && reach(s)
    requires PhaseOf(s, w).Idle? && s.now == 0 && AllLockedAtZero(s.tables) && Untouched(s.tables, j)
    ensures reach(r)
    ensures r
      == s.(tables := s.tables.(jobs := s.tables.jobs[j := ClaimedAtZero(j, w)]), workers := s.workers[w := HasJob(j)])
  {
    NothingExpired(s.tables, |s.tables.jobs|);
    r := StepReaches(reach, s, Claim(w, j));
  }

  lemma LockAtZero(reach: System -> bool, s: System, w: WorkerId, j: JobId) returns (r: System)
    requires Closed(reach) && reach(s) && PhaseOf(s, w) == HasJob(j) && KeyOf(7) !in s.locks
    requires j < |s.tables.jobs| && s.tables.jobs[j] == ClaimedAtZero(j, w)
    requires j < |s.tables.executions| && s.tables.executions[j] == NewExecution(7, 0, 0, false)
    ensures reach(r)
    ensures r == s.(workers := s.workers[w := InLock(j, j, 7)], locks := s.locks[KeyOf(7) := w],
                    lockOrder := s.lockOrder[7 := OrderOf(s, 7) + [j]])
  {
    var read := StepReaches(reach, s, ReadExecution(w));
    assert read == s.(workers := s.workers[w := AtLock(j, j, 7)]);
    r := StepReaches(reach, read, Lock(w));
  }

  /** An idle worker takes an untouched job of hook 7, gets the free lock and starts the child. */
  lemma ChildReached(reach: System -> bool, s: System, w: WorkerId, j: JobId) returns (r: System)
    requires Closed(reach) && reach(s)
    requires PhaseOf(s, w).Idle? && s.now == 0 && AllLockedAtZero(s.tables) && Untouched(s.tables, j)
    requires KeyOf(7) !in s.locks
    ensures reach(r) && r == WithChild(s, w, j)
  {
    var claimed := ClaimAtZero(reach, s, w, j);
    var locked := LockAtZero(reach, claimed, w, j);
    r := StepReaches(reach, locked, StartChild(w));
  }
}
