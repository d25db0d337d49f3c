/**
 * Guarded changes that overlap. The guard reads the other accounts without locking them, and the
 * change is committed later; every other request is one transaction.
 */
module AdminRaces {
  import opened UserAdmin

  datatype Change = Demote | Suspend | Delete

  type Transaction = nat

  /** A change whose guard has passed, and whether an administrator has been lost since. */
  datatype Guarded = Guarded(target: UserId, change: Change, overtaken: bool)

  datatype Office = Office(accounts: Accounts, pending: map<Transaction, Guarded>)

  datatype Step =
    | Request(event: Event)
    | Guard(guarding: Transaction, target: UserId, change: Change)
    | Commit(committing: Transaction)

  // A flag that is already down is not written again.
  predicate Writes(user: User, change: Change) {
    (change == Demote ==> user.admin) && (change == Suspend ==> user.active)
  }

  predicate NeedsGuard(user: User, change: Change) {
    user.admin && (change == Suspend ==> user.active)
  }

  ghost predicate Passes(users: Users, target: UserId, change: Change) {
    && target in users && Writes(users[target], change)
    && (NeedsGuard(users[target], change) ==> OtherActiveAdmin(users, target))
  }

  function Changed(s: Accounts, target: UserId, change: Change): Accounts {
    if target !in s.users then s
    else
      match change
      case Demote => s.(users := s.users[target := s.users[target].(admin := false)])
      case Suspend => s.(users := s.users[target := s.users[target].(active := false)])
      case Delete => WithoutUser(s, target)
  }

  lemma ChangedIsValid(s: Accounts, target: UserId, change: Change)
    requires Valid(s)
    ensures Valid(Changed(s, target, change))
  {}

  /** Somebody was an active administrator and is none any more. */
  ghost predicate LosesAdmin(before: Users, after: Users) {
    exists id :: IsActiveAdmin(before, id) && !IsActiveAdmin(after, id)
  }

  ghost function Marked(pending: map<Transaction, Guarded>, lost: bool): map<Transaction, Guarded> {
    map tx | tx in pending :: pending[tx].(overtaken := pending[tx].overtaken || lost)
  }

  ghost function After(s: Office, step: Step): (r: Office)
    requires Valid(s.accounts)
    ensures Valid(r.accounts)
  {
    match step
    case Request(e) =>
      NextIsValid(s.accounts, e);
      var after := Next(s.accounts, e);
      Office(after, Marked(s.pending, LosesAdmin(s.accounts.users, after.users)))
    case Guard(tx, target, change) =>
      if Passes(s.accounts.users, target, change) then s.(pending := s.pending[tx := Guarded(target, change, false)])
      else s
    case Commit(tx) =>
      if tx !in s.pending then s
      else
        var p := s.pending[tx];
        ChangedIsValid(s.accounts, p.target, p.change);
        var after := Changed(s.accounts, p.target, p.change);
        Office(after, Marked(s.pending - {tx}, LosesAdmin(s.accounts.users, after.users)))
  }

  ghost function Ran(start: Accounts, steps: seq<Step>): (s: Office)
    requires Valid(start)
    ensures Valid(s.accounts)
    decreases |steps|
  {
    if steps == [] then Office(start, map[]) else After(Ran(start, steps[..|steps| - 1]), steps[|steps| - 1])
  }

  // ------------------------------------------------------------------ changes that nothing overtook

  /** No change is committed after an administrator has been lost since its guard. */
  predicate InTime(s: Office, step: Step) {
    step.Commit? && step.committing in s.pending ==> !s.pending[step.committing].overtaken
  }

  ghost predicate AllInTime(start: Accounts, steps: seq<Step>)
    requires Valid(start)
  {
    forall k :: 0 <= k < |steps| ==> Timely(start, steps[..k], steps[k])
  }

  ghost predicate Timely(start: Accounts, before: seq<Step>, step: Step)
    requires Valid(start)
  {
    InTime(Ran(start, before), step)
  }

  /** The target is not needed: it is no active administrator, or not the only one. */
  ghost predicate Spared(users: Users, target: UserId) {
    IsActiveAdmin(users, target) ==> OtherActiveAdmin(users, target)
  }

  /** For every change that has not been overtaken there is an active administrator besides its target. */
  ghost predicate GuardsHold(users: Users, pending: map<Transaction, Guarded>) {
    forall tx :: tx in pending && !pending[tx].overtaken ==> OtherActiveAdmin(users, pending[tx].target)
  }

  ghost predicate Governed(s: Office) {
    HasActiveAdmin(s.accounts.users) && GuardsHold(s.accounts.users, s.pending)
  }

  lemma ChangeKeepsAdminExactly(s: Accounts, target: UserId, change: Change)
    requires HasActiveAdmin(s.users)
    ensures HasActiveAdmin(Changed(s, target, change).users) <==> Spared(s.users, target)
  {
    var after := Changed(s, target, change).users;
    assert !IsActiveAdmin(after, target);
    assert forall id :: id != target ==> (IsActiveAdmin(after, id) <==> IsActiveAdmin(s.users, id));
    var admin :| IsActiveAdmin(s.users, admin);
  }

  /** As long as no administrator is lost, what the guards saw is still there. */
  lemma GuardsHoldOn(before: Users, after: Users, pending: map<Transaction, Guarded>)
    requires GuardsHold(before, pending)
    ensures GuardsHold(after, Marked(pending, LosesAdmin(before, after)))
  {
    var marked := Marked(pending, LosesAdmin(before, after));
    forall tx | tx in marked && !marked[tx].overtaken ensures OtherActiveAdmin(after, marked[tx].target) {
      var other :| other != pending[tx].target && IsActiveAdmin(before, other);
      assert IsActiveAdmin(after, other);
    }
  }

  /** A guard that passes while there is an administrator has seen one besides its target. */
  lemma PassedGuardSawAnother(users: Users, target: UserId, change: Change)
    requires HasActiveAdmin(users) && Passes(users, target, change)
    ensures OtherActiveAdmin(users, target)
  {
    var admin :| IsActiveAdmin(users, admin);
  }

  lemma RequestKeepsAdmin(s: Accounts, e: Event)
    requires Valid(s) && HasActiveAdmin(s.users)
    ensures HasActiveAdmin(Next(s, e).users)
  {
    if e.SignIn? { SignInKeepsAdministrator(s, e); }
    else if e.Update? { UpdateKeepsAdministrator(s, e); }
    else { OthersKeepAdministrator(s, e); }
  }

  lemma StepStaysGoverned(s: Office, step: Step)
    requires Valid(s.accounts) && Governed(s) && InTime(s, step)
    ensures Governed(After(s, step))
  {
    match step
    case Request(e) =>
      RequestKeepsAdmin(s.accounts, e);
      GuardsHoldOn(s.accounts.users, Next(s.accounts, e).users, s.pending);
    case Guard(tx, target, change) =>
      if Passes(s.accounts.users, target, change) { PassedGuardSawAnother(s.accounts.users, target, change); }
    case Commit(tx) =>
      if tx in s.pending {
        var p := s.pending[tx];
        ChangeKeepsAdminExactly(s.accounts, p.target, p.change);
        GuardsHoldOn(s.accounts.users, Changed(s.accounts, p.target, p.change).users, s.pending - {tx});
      }
  }

  lemma InTimePrefix(start: Accounts, steps: seq<Step>)
    requires Valid(start) && steps != [] && AllInTime(start, steps)
    ensures AllInTime(start, steps[..|steps| - 1])
    ensures Timely(start, steps[..|steps| - 1], steps[|steps| - 1])
  {
    var before := steps[..|steps| - 1];
    forall k | 0 <= k < |before| ensures Timely(start, before[..k], before[k]) {
      assert before[..k] == steps[..k];
    }
  }

  lemma {:induction false} RunIsGoverned(start: Accounts, steps: seq<Step>)
    requires Valid(start) && HasActiveAdmin(start.users) && AllInTime(start, steps)
    ensures Governed(Ran(start, steps))
    decreases |steps|
  {
    if steps != [] {
      InTimePrefix(start, steps);
      RunIsGoverned(start, steps[..|steps| - 1]);
      StepStaysGoverned(Ran(start, steps[..|steps| - 1]), steps[|steps| - 1]);
    }
  }

  /**
   * After any run of overlapping changes in which none was committed after an administrator had
   * been lost since its guard, there is one; committing one more keeps one if and only if its
   * target is not by now the only one, which takes such a loss.
   */
  lemma {:induction false} CommitIsSafeExactly(start: Accounts, steps: seq<Step>, tx: Transaction)
    requires Valid(start) && HasActiveAdmin(start.users) && AllInTime(start, steps) && tx in Ran(start, steps).pending
    ensures var s := Ran(start, steps);
      && HasActiveAdmin(s.accounts.users)
      && (HasActiveAdmin(After(s, Commit(tx)).accounts.users) <==> Spared(s.accounts.users, s.pending[tx].target))
      && (!Spared(s.accounts.users, s.pending[tx].target) ==> s.pending[tx].overtaken)
  {
    var s := Ran(start, steps);
    RunIsGoverned(start, steps);
    ChangeKeepsAdminExactly(s.accounts, s.pending[tx].target, s.pending[tx].change);
  }

  lemma OneStepMore(start: Accounts, steps: seq<Step>, step: Step)
    requires Valid(start)
    ensures Ran(start, steps + [step]) == After(Ran(start, steps), step)
  {
    assert (steps + [step])[..|steps|] == steps;
  }

  lemma DemotionIsGuarded(s: Office, tx: Transaction, target: UserId)
    requires Valid(s.accounts) && IsActiveAdmin(s.accounts.users, target) && OtherActiveAdmin(s.accounts.users, target)
    ensures After(s, Guard(tx, target, Demote)) == s.(pending := s.pending[tx := Guarded(target, Demote, false)])
  {}

  lemma CommitChanges(s: Office, tx: Transaction, p: Guarded)
    requires Valid(s.accounts) && tx in s.pending && s.pending[tx] == p
    ensures var r := After(s, Commit(tx));
      && r.accounts == Changed(s.accounts, p.target, p.change) && r.pending.Keys == s.pending.Keys - {tx}
      && forall k :: k in r.pending ==>
           r.pending[k].target == s.pending[k].target && r.pending[k].change == s.pending[k].change
  {}

  lemma DemotedAreNoAdmins(s: Accounts, a: UserId, b: UserId)
    requires forall id :: IsActiveAdmin(s.users, id) ==> id == a || id == b
    ensures !HasActiveAdmin(Changed(Changed(s, b, Demote), a, Demote).users)
  {
    var twice := Changed(Changed(s, b, Demote), a, Demote).users;
    assert forall id :: IsActiveAdmin(twice, id) ==> IsActiveAdmin(s.users, id);
  }

  lemma DemotionsCommit(s: Office, a: UserId, b: UserId)
    requires Valid(s.accounts) && s.pending == map[0 := Guarded(b, Demote, false), 1 := Guarded(a, Demote, false)]
    ensures After(After(s, Commit(0)), Commit(1)).accounts == Changed(Changed(s.accounts, b, Demote), a, Demote)
  {
    CommitChanges(s, 0, s.pending[0]);
    var once := After(s, Commit(0));
    CommitChanges(once, 1, once.pending[1]);
  }

  /** Two administrators who demote each other at once leave none. */
  lemma MutualDemotionLeavesNone(start: Accounts, a: UserId, b: UserId)
    requires Valid(start) && a != b && forall id :: IsActiveAdmin(start.users, id) <==> id == a || id == b
    ensures var steps := [] + [Guard(0, b, Demote)] + [Guard(1, a, Demote)] + [Commit(0)] + [Commit(1)];
      !HasActiveAdmin(Ran(start, steps).accounts.users)
  {
    assert IsActiveAdmin(start.users, a) && IsActiveAdmin(start.users, b);
    var first, second := [] + [Guard(0, b, Demote)], [] + [Guard(0, b, Demote)] + [Guard(1, a, Demote)];
    OneStepMore(start, [], Guard(0, b, Demote));
    OneStepMore(start, first, Guard(1, a, Demote));
    OneStepMore(start, second, Commit(0));
    OneStepMore(start, second + [Commit(0)], Commit(1));
    DemotionIsGuarded(Office(start, map[]), 0, b);
    DemotionIsGuarded(Office(start, map[0 := Guarded(b, Demote, false)]), 1, a);
    DemotionsCommit(Office(start, map[0 := Guarded(b, Demote, false), 1 := Guarded(a, Demote, false)]), a, b);
    DemotedAreNoAdmins(start, a, b);
  }
}
