/**
 * Accounts and who may administer them. Every request is one transaction: a refused one leaves
 * nothing behind.
 */
module UserAdmin {
  import opened Prelude

  type UserId = nat

  datatype User = User(email: string, active: bool, admin: bool)

  type Users = map<UserId, User>

  /** The accounts, and which account each single-sign-on subject belongs to. */
  datatype Accounts = Accounts(users: Users, subjects: map<string, UserId>)

  const EMPTY := Accounts(map[], map[])

  predicate IsActiveAdmin(users: Users, id: UserId) {
    id in users && users[id].active && users[id].admin
  }

  ghost predicate HasActiveAdmin(users: Users) {
    exists id :: IsActiveAdmin(users, id)
  }

  ghost predicate OtherActiveAdmin(users: Users, excluding: UserId) {
    exists id :: id != excluding && IsActiveAdmin(users, id)
  }

  ghost predicate UniqueEmails(users: Users) {
    forall a, b :: a in users && b in users && users[a].email == users[b].email ==> a == b
  }

  /** What the database's own constraints keep: emails are unique and subjects have accounts. */
  ghost predicate Valid(s: Accounts) {
    UniqueEmails(s.users) && forall subject :: subject in s.subjects ==> s.subjects[subject] in s.users
  }

  // ------------------------------------------------------------------ what each change does, or nothing when refused

  ghost function AdminSet(users: Users, id: UserId, admin: bool): Option<Users>
    requires id in users
  {
    if users[id].admin && !admin && !OtherActiveAdmin(users, id) then None
    else Some(users[id := users[id].(admin := admin)])
  }

  ghost function ActiveSet(users: Users, id: UserId, active: bool): Option<Users>
    requires id in users
  {
    if users[id].active && !active && users[id].admin && !OtherActiveAdmin(users, id) then None
    else Some(users[id := users[id].(active := active)])
  }

  // Deleting an account cascades to its subjects.
  function WithoutUser(s: Accounts, id: UserId): Accounts {
    Accounts(s.users - {id}, map subject | subject in s.subjects && s.subjects[subject] != id :: s.subjects[subject])
  }

  ghost function Deleted(s: Accounts, id: UserId): Option<Accounts>
    requires id in s.users
  {
    if s.users[id].admin && !OtherActiveAdmin(s.users, id) then None else Some(WithoutUser(s, id))
  }

  /** What an account is created with, once normalised: no email when it is not one. */
  datatype Credentials = Credentials(email: Option<string>, name: string, passwordLength: nat)

  predicate Acceptable(c: Credentials) {
    c.email.Some? && 1 <= |c.name| <= 120 && 12 <= c.passwordLength <= 256
  }

  ghost predicate EmailTaken(users: Users, email: string) {
    exists id :: id in users && users[id].email == email
  }

  ghost function LocalUserCreated(s: Accounts, id: UserId, c: Credentials, admin: bool): Option<Accounts> {
    if !Acceptable(c) || EmailTaken(s.users, c.email.value) || id in s.users then None
    else Some(s.(users := s.users[id := User(c.email.value, true, admin)]))
  }

  datatype Claims = Claims(subject: Option<string>, email: Option<string>, groups: set<string>)

  /** Single sign-on settings, the group name already stripped. */
  datatype SignOn = SignOn(adminGroup: string, autoProvision: bool)

  // A demotion that the guard refuses is skipped; the login goes on.
  ghost function GroupMapped(users: Users, id: UserId, claims: Claims, settings: SignOn): Users
    requires id in users
  {
    if settings.adminGroup == "" then users
    else
      var changed := AdminSet(users, id, settings.adminGroup in claims.groups);
      if changed.Some? then changed.value else users
  }

  ghost function LoginFinished(s: Accounts, id: UserId, claims: Claims, settings: SignOn): Option<Accounts>
    requires id in s.users
  {
    if !s.users[id].active then None else Some(s.(users := GroupMapped(s.users, id, claims, settings)))
  }

  ghost function OwnerOf(users: Users, email: string): (owner: Option<UserId>)
    requires UniqueEmails(users)
    ensures owner.Some? ==> owner.value in users && users[owner.value].email == email
    ensures owner.None? ==> !EmailTaken(users, email)
  {
    if EmailTaken(users, email) then
      var id :| id in users && users[id].email == email;
      Some(id)
    else None
  }

  ghost function LoggedIn(s: Accounts, id: UserId, claims: Claims, settings: SignOn): Option<Accounts>
    requires Valid(s)
  {
    if claims.subject.None? then None
    else
      var subject := claims.subject.value;
      if subject in s.subjects then LoginFinished(s, s.subjects[subject], claims, settings)
      else if claims.email.None? then None
      else
        var owner := OwnerOf(s.users, claims.email.value);
        if owner.Some? then
          LoginFinished(s.(subjects := s.subjects[subject := owner.value]), owner.value, claims, settings)
        else if !settings.autoProvision || id in s.users then None
        else
          var users := s.users[id := User(claims.email.value, true, false)];
          LoginFinished(Accounts(users, s.subjects[subject := id]), id, claims, settings)
  }

  ghost function AccountUpdated(s: Accounts, actor: UserId, target: UserId, admin: Option<bool>,
                                active: Option<bool>): Option<Accounts> {
    if !IsActiveAdmin(s.users, actor) || target !in s.users then None
    else if target == actor && (admin == Some(false) || active == Some(false)) then None
    else
      var first := if admin.Some? then AdminSet(s.users, target, admin.value) else Some(s.users);
      if first.None? then None
      else
        var second := if active.Some? then ActiveSet(first.value, target, active.value) else first;
        if second.None? then None else Some(s.(users := second.value))
  }

  ghost function AccountRemoved(s: Accounts, actor: UserId, target: UserId): Option<Accounts> {
    if !IsActiveAdmin(s.users, actor) || target !in s.users || target == actor then None else Deleted(s, target)
  }

  // ------------------------------------------------------------------ the services

  class Database {
    var users: Users
    var subjects: map<string, UserId>

    constructor ()
      ensures Value() == EMPTY
    {
      users, subjects := map[], map[];
    }

    ghost function Value(): Accounts
      reads this
    {
      Accounts(users, subjects)
    }

    method OtherActiveAdminExists(excluding: UserId) returns (found: bool)
      ensures found <==> OtherActiveAdmin(users, excluding)
    {
      var candidates := users.Keys - {excluding};
      while candidates != {}
        invariant candidates <= users.Keys - {excluding}
        invariant forall id :: id != excluding && IsActiveAdmin(users, id) ==> id in candidates
        decreases |candidates|
      {
        var candidate :| candidate in candidates;
        if users[candidate].active && users[candidate].admin {
          assert IsActiveAdmin(users, candidate);
          return true;
        }
        candidates := candidates - {candidate};
      }
      found := false;
    }

    method SetAdmin(id: UserId, admin: bool) returns (allowed: bool)
      requires id in users
      modifies this`users
      ensures allowed <==> AdminSet(old(users), id, admin).Some?
      ensures users == if allowed then AdminSet(old(users), id, admin).value else old(users)
    {
      if users[id].admin && !admin {
        var other := OtherActiveAdminExists(id);
        if !other { return false; }
      }
      users := users[id := users[id].(admin := admin)];
      allowed := true;
    }

    method SetActive(id: UserId, active: bool) returns (allowed: bool)
      requires id in users
      modifies this`users
      ensures allowed <==> ActiveSet(old(users), id, active).Some?
      ensures users == if allowed then ActiveSet(old(users), id, active).value else old(users)
    {
      if users[id].active && !active && users[id].admin {
        var other := OtherActiveAdminExists(id);
        if !other { return false; }
      }
      users := users[id := users[id].(active := active)];
      allowed := true;
    }

    method DeleteUser(id: UserId) returns (allowed: bool)
      requires id in users
      modifies this
      ensures allowed <==> Deleted(old(Value()), id).Some?
      ensures Value() == if allowed then Deleted(old(Value()), id).value else old(Value())
    {
      if users[id].admin {
        var other := OtherActiveAdminExists(id);
        if !other { return false; }
      }
      users := users - {id};
      subjects := map subject | subject in subjects && subjects[subject] != id :: subjects[subject];
      allowed := true;
    }

    /** Both changes or neither. */
    method UpdateAccount(actor: UserId, target: UserId, admin: Option<bool>, active: Option<bool>)
      returns (allowed: bool)
      modifies this
      ensures allowed <==> AccountUpdated(old(Value()), actor, target, admin, active).Some?
      ensures Value()
        == if allowed then AccountUpdated(old(Value()), actor, target, admin, active).value else old(Value())
    {
      if !IsActiveAdmin(users, actor) || target !in users { return false; }
      if target == actor && (admin == Some(false) || active == Some(false)) { return false; }
      var committed := users;
      if admin.Some? {
        var done := SetAdmin(target, admin.value);
        if !done { return false; }
      }
      if active.Some? {
        var done := SetActive(target, active.value);
        if !done {
          users := committed;
          return false;
        }
      }
      allowed := true;
    }

    method RemoveAccount(actor: UserId, target: UserId) returns (allowed: bool)
      modifies this
      ensures allowed <==> AccountRemoved(old(Value()), actor, target).Some?
      ensures Value() == if allowed then AccountRemoved(old(Value()), actor, target).value else old(Value())
    {
      if !IsActiveAdmin(users, actor) || target !in users || target == actor { return false; }
      allowed := DeleteUser(target);
    }

    method FindEmail(email: string) returns (owner: Option<UserId>)
      requires UniqueEmails(users)
      ensures owner == OwnerOf(users, email)
    {
      var rest := users.Keys;
      while rest != {}
        invariant rest <= users.Keys
        invariant forall id :: id in users && users[id].email == email ==> id in rest
        decreases |rest|
      {
        var id :| id in rest;
        if users[id].email == email {
          return Some(id);
        }
        rest := rest - {id};
      }
      owner := None;
    }

    method CreateLocalUser(id: UserId, c: Credentials, admin: bool) returns (created: bool)
      requires Valid(Value())
      modifies this`users
      ensures created <==> LocalUserCreated(old(Value()), id, c, admin).Some?
      ensures Value() == if created then LocalUserCreated(old(Value()), id, c, admin).value else old(Value())
    {
      if c.email.None? || |c.name| < 1 || |c.name| > 120 { return false; }
      if c.passwordLength < 12 || c.passwordLength > 256 { return false; }
      var owner := FindEmail(c.email.value);
      if owner.Some? || id in users { return false; }
      users := users[id := User(c.email.value, true, admin)];
      created := true;
    }

    method RegisterFirstLocalAdmin(id: UserId, c: Credentials, signOnEnabled: bool) returns (created: bool)
      requires Valid(Value())
      modifies this`users
      ensures created <==> !signOnEnabled && old(users) == map[] && LocalUserCreated(old(Value()), id, c, true).Some?
      ensures Value() == if created then LocalUserCreated(old(Value()), id, c, true).value else old(Value())
    {
      if signOnEnabled || |users| != 0 { return false; }
      created := CreateLocalUser(id, c, true);
    }

    method BootstrapLocalAdmin(id: UserId, c: Credentials) returns (created: bool)
      requires Valid(Value())
      modifies this`users
      ensures created <==> old(users) == map[] && LocalUserCreated(old(Value()), id, c, true).Some?
      ensures Value() == if created then LocalUserCreated(old(Value()), id, c, true).value else old(Value())
    {
      if |users| != 0 { return false; }
      created := CreateLocalUser(id, c, true);
    }

    method FinishLogin(id: UserId, claims: Claims, settings: SignOn) returns (allowed: bool)
      requires id in users
      modifies this`users
      ensures allowed <==> LoginFinished(old(Value()), id, claims, settings).Some?
      ensures Value() == if allowed then LoginFinished(old(Value()), id, claims, settings).value else old(Value())
    {
      if !users[id].active { return false; }
      if settings.adminGroup != "" {
        var desired := settings.adminGroup in claims.groups;
        if users[id].admin != desired {
          var done := SetAdmin(id, desired);
        } else {
          assert users[id := users[id].(admin := desired)] == users;
        }
      }
      allowed := true;
    }

    method Login(id: UserId, claims: Claims, settings: SignOn) returns (allowed: bool)
      requires Valid(Value())
      modifies this
      ensures allowed <==> LoggedIn(old(Value()), id, claims, settings).Some?
      ensures Value() == if allowed then LoggedIn(old(Value()), id, claims, settings).value else old(Value())
    {
      if claims.subject.None? { return false; }
      var subject := claims.subject.value;
      if subject in subjects {
        allowed := FinishLogin(subjects[subject], claims, settings);
        return;
      }
      if claims.email.None? { return false; }
      var committedUsers, committedSubjects := users, subjects;
      var owner := FindEmail(claims.email.value);
      var account := id;
      if owner.Some? {
        account := owner.value;
      } else {
        if !settings.autoProvision || id in users { return false; }
        users := users[id := User(claims.email.value, true, false)];
      }
      subjects := subjects[subject := account];
      allowed := FinishLogin(account, claims, settings);
      if !allowed {
        users, subjects := committedUsers, committedSubjects;
      }
    }
  }

  // ------------------------------------------------------------------ runs

  datatype Event =
    | Update(actor: UserId, target: UserId, admin: Option<bool>, active: Option<bool>)
    | Remove(actor: UserId, target: UserId)
    | Create(actor: UserId, id: UserId, credentials: Credentials, asAdmin: bool)
    | Register(id: UserId, credentials: Credentials, signOnEnabled: bool)
    | Bootstrap(id: UserId, credentials: Credentials)
    | SignIn(id: UserId, claims: Claims, settings: SignOn)

  /** What a request commits, or nothing when it is refused. */
  ghost function Committed(s: Accounts, e: Event): Option<Accounts>
    requires Valid(s)
  {
    match e
    case Update(actor, target, admin, active) => AccountUpdated(s, actor, target, admin, active)
    case Remove(actor, target) => AccountRemoved(s, actor, target)
    case Create(actor, id, c, admin) =>
      if IsActiveAdmin(s.users, actor) then LocalUserCreated(s, id, c, admin) else None
    case Register(id, c, signOnEnabled) =>
      if signOnEnabled || s.users != map[] then None else LocalUserCreated(s, id, c, true)
    case Bootstrap(id, c) => if s.users != map[] then None else LocalUserCreated(s, id, c, true)
    case SignIn(id, claims, settings) => LoggedIn(s, id, claims, settings)
  }

  ghost function Next(s: Accounts, e: Event): Accounts
    requires Valid(s)
  {
    if Committed(s, e).Some? then Committed(s, e).value else s
  }

  /** Changing flags keeps every email, and so their uniqueness. */
  ghost predicate SameEmails(before: Users, after: Users) {
    before.Keys == after.Keys && forall id :: id in before ==> after[id].email == before[id].email
  }

  lemma SameEmailsKeepValid(s: Accounts, users: Users)
    requires Valid(s) && SameEmails(s.users, users)
    ensures Valid(s.(users := users))
  {}

  lemma LoginFinishedKeepsValid(s: Accounts, id: UserId, claims: Claims, settings: SignOn)
    requires Valid(s) && id in s.users && LoginFinished(s, id, claims, settings).Some?
    ensures Valid(LoginFinished(s, id, claims, settings).value)
  {
    SameEmailsKeepValid(s, GroupMapped(s.users, id, claims, settings));
  }

  lemma UpdateKeepsValid(s: Accounts, e: Event)
    requires Valid(s) && !e.SignIn?
    ensures Valid(Next(s, e))
  {}

  lemma SignInKeepsValid(s: Accounts, e: Event)
    requires Valid(s) && e.SignIn? && Committed(s, e).Some?
    ensures Valid(Committed(s, e).value)
  {
    var subject := e.claims.subject.value;
    if subject in s.subjects {
      LoginFinishedKeepsValid(s, s.subjects[subject], e.claims, e.settings);
    } else {
      var owner := OwnerOf(s.users, e.claims.email.value);
      if owner.Some? {
        var linked := s.(subjects := s.subjects[subject := owner.value]);
        assert Valid(linked);
        LoginFinishedKeepsValid(linked, owner.value, e.claims, e.settings);
      } else {
        var users := s.users[e.id := User(e.claims.email.value, true, false)];
        var linked := Accounts(users, s.subjects[subject := e.id]);
        assert Valid(linked);
        LoginFinishedKeepsValid(linked, e.id, e.claims, e.settings);
      }
    }
  }

  lemma NextIsValid(s: Accounts, e: Event)
    requires Valid(s)
    ensures Valid(Next(s, e))
  {
    if !e.SignIn? { UpdateKeepsValid(s, e); }
    else if Committed(s, e).Some? { SignInKeepsValid(s, e); }
  }

  ghost function Run(s: Accounts, events: seq<Event>): (r: Accounts)
    requires Valid(s)
    ensures Valid(r)
    decreases |events|
  {
    if events == [] then s
    else
      var before := Run(s, events[..|events| - 1]);
      NextIsValid(before, events[|events| - 1]);
      Next(before, events[|events| - 1])
  }

  // ------------------------------------------------------------------ an administrator remains

  lemma AdminSetKeeps(users: Users, id: UserId, admin: bool)
    requires id in users && HasActiveAdmin(users) && AdminSet(users, id, admin).Some?
    ensures HasActiveAdmin(AdminSet(users, id, admin).value)
  {
    var after := AdminSet(users, id, admin).value;
    if OtherActiveAdmin(users, id) {
      var other :| other != id && IsActiveAdmin(users, other);
      assert IsActiveAdmin(after, other);
    } else {
      assert IsActiveAdmin(users, id);
      assert IsActiveAdmin(after, id);
    }
  }

  lemma ActiveSetKeeps(users: Users, id: UserId, active: bool)
    requires id in users && HasActiveAdmin(users) && ActiveSet(users, id, active).Some?
    ensures HasActiveAdmin(ActiveSet(users, id, active).value)
  {
    var after := ActiveSet(users, id, active).value;
    if OtherActiveAdmin(users, id) {
      var other :| other != id && IsActiveAdmin(users, other);
      assert IsActiveAdmin(after, other);
    } else {
      assert IsActiveAdmin(users, id);
      assert IsActiveAdmin(after, id);
    }
  }

  lemma DeletedKeeps(s: Accounts, id: UserId)
    requires id in s.users && HasActiveAdmin(s.users) && Deleted(s, id).Some?
    ensures HasActiveAdmin(Deleted(s, id).value.users)
  {
    var after := WithoutUser(s, id).users;
    if s.users[id].admin {
      var other :| other != id && IsActiveAdmin(s.users, other);
      assert IsActiveAdmin(after, other);
    } else {
      var admin :| IsActiveAdmin(s.users, admin);
      assert IsActiveAdmin(after, admin);
    }
  }

  lemma AddedKeeps(users: Users, id: UserId, user: User)
    requires HasActiveAdmin(users) && id !in users
    ensures HasActiveAdmin(users[id := user])
  {
    var admin :| IsActiveAdmin(users, admin);
    assert IsActiveAdmin(users[id := user], admin);
  }

  lemma GroupMappedKeeps(users: Users, id: UserId, claims: Claims, settings: SignOn)
    requires id in users && HasActiveAdmin(users)
    ensures HasActiveAdmin(GroupMapped(users, id, claims, settings))
  {
    var desired := settings.adminGroup in claims.groups;
    if settings.adminGroup != "" && AdminSet(users, id, desired).Some? {
      AdminSetKeeps(users, id, desired);
    }
  }

  lemma SignInKeepsAdministrator(s: Accounts, e: Event)
    requires Valid(s) && e.SignIn? && HasActiveAdmin(s.users)
    ensures HasActiveAdmin(Next(s, e).users)
  {
    if Committed(s, e).Some? {
      var subject := e.claims.subject.value;
      if subject in s.subjects {
        GroupMappedKeeps(s.users, s.subjects[subject], e.claims, e.settings);
      } else {
        var owner := OwnerOf(s.users, e.claims.email.value);
        if owner.Some? {
          GroupMappedKeeps(s.users, owner.value, e.claims, e.settings);
        } else {
          var user := User(e.claims.email.value, true, false);
          AddedKeeps(s.users, e.id, user);
          GroupMappedKeeps(s.users[e.id := user], e.id, e.claims, e.settings);
        }
      }
    }
  }

  lemma UpdateKeepsAdministrator(s: Accounts, e: Event)
    requires Valid(s) && e.Update? && HasActiveAdmin(s.users)
    ensures HasActiveAdmin(Next(s, e).users)
  {
    if Committed(s, e).Some? {
      if e.admin.Some? { AdminSetKeeps(s.users, e.target, e.admin.value); }
      var first := if e.admin.Some? then AdminSet(s.users, e.target, e.admin.value).value else s.users;
      if e.active.Some? { ActiveSetKeeps(first, e.target, e.active.value); }
    }
  }

  lemma OthersKeepAdministrator(s: Accounts, e: Event)
    requires Valid(s) && !e.SignIn? && !e.Update? && HasActiveAdmin(s.users)
    ensures HasActiveAdmin(Next(s, e).users)
  {
    var admin :| IsActiveAdmin(s.users, admin);
    if Committed(s, e).Some? {
      if e.Remove? {
        DeletedKeeps(s, e.target);
      } else {
        AddedKeeps(s.users, e.id, User(e.credentials.email.value, true, if e.Create? then e.asAdmin else true));
      }
    }
  }

  /**
   * Once an active administrator exists, every run keeps one, whatever is asked for and in
   * whatever order; so registration and bootstrap never create an account again.
   */
  lemma {:induction false} AnAdministratorRemains(s: Accounts, events: seq<Event>)
    requires Valid(s) && HasActiveAdmin(s.users)
    ensures HasActiveAdmin(Run(s, events).users)
    ensures forall e: Event :: e.Register? || e.Bootstrap? ==> Committed(Run(s, events), e) == None
    decreases |events|
  {
    if events != [] {
      var before, e := Run(s, events[..|events| - 1]), events[|events| - 1];
      AnAdministratorRemains(s, events[..|events| - 1]);
      if e.SignIn? { SignInKeepsAdministrator(before, e); }
      else if e.Update? { UpdateKeepsAdministrator(before, e); }
      else { OthersKeepAdministrator(before, e); }
    }
    var admin :| IsActiveAdmin(Run(s, events).users, admin);
  }

  // ------------------------------------------------------------------ the guard refuses no more than it must

  /** While an active administrator exists, a change is refused exactly when it would leave none. */
  lemma GuardIsExact(s: Accounts, id: UserId, value: bool)
    requires id in s.users && HasActiveAdmin(s.users)
    ensures AdminSet(s.users, id, value) == None
      <==> !HasActiveAdmin(s.users[id := s.users[id].(admin := value)])
    ensures ActiveSet(s.users, id, value) == None
      <==> !HasActiveAdmin(s.users[id := s.users[id].(active := value)])
    ensures Deleted(s, id) == None <==> !HasActiveAdmin(WithoutUser(s, id).users)
  {
    var admin :| IsActiveAdmin(s.users, admin);
    var flagged := s.users[id := s.users[id].(admin := value)];
    var switched := s.users[id := s.users[id].(active := value)];
    var removed := WithoutUser(s, id).users;
    if OtherActiveAdmin(s.users, id) {
      var other :| other != id && IsActiveAdmin(s.users, other);
      assert IsActiveAdmin(flagged, other) && IsActiveAdmin(switched, other) && IsActiveAdmin(removed, other);
    } else {
      assert forall k :: IsActiveAdmin(s.users, k) ==> k == id;
      assert forall k :: k != id && IsActiveAdmin(flagged, k) ==> IsActiveAdmin(s.users, k);
      assert forall k :: k != id && IsActiveAdmin(switched, k) ==> IsActiveAdmin(s.users, k);
      assert forall k :: IsActiveAdmin(removed, k) ==> IsActiveAdmin(s.users, k);
      assert value ==> IsActiveAdmin(flagged, id) && IsActiveAdmin(switched, id);
    }
  }

  // ------------------------------------------------------------------ what a request changes

  /** An account that may administer: active, and marked as an administrator. */
  predicate Administers(users: Users, id: UserId) {
    id in users && users[id].active && users[id].admin
  }

  /** Every other account is there or not as before, with every field. */
  ghost predicate OthersKept(before: Users, after: Users, id: UserId) {
    forall k :: k != id ==> (k in after <==> k in before) && (k in before && k in after ==> after[k] == before[k])
  }

  /**
   * A change of one flag sets that flag of that account and nothing else. It is refused exactly to
   * the last administrator: no other account may administer, and the change would take it away.
   */
  lemma FlagChangeIsExact(users: Users, id: UserId, value: bool)
    requires id in users
    ensures AdminSet(users, id, value) == None
      <==> users[id].admin && !value && forall k :: k != id ==> !Administers(users, k)
    ensures ActiveSet(users, id, value) == None
      <==> users[id].active && !value && users[id].admin && forall k :: k != id ==> !Administers(users, k)
    ensures AdminSet(users, id, value).Some? ==>
      var after := AdminSet(users, id, value).value;
      && id in after && OthersKept(users, after, id) && after[id].admin == value
      && after[id].active == users[id].active && after[id].email == users[id].email
    ensures ActiveSet(users, id, value).Some? ==>
      var after := ActiveSet(users, id, value).value;
      && id in after && OthersKept(users, after, id) && after[id].active == value
      && after[id].admin == users[id].admin && after[id].email == users[id].email
  {
    forall k ensures Administers(users, k) <==> IsActiveAdmin(users, k) {}
    if OtherActiveAdmin(users, id) {
      var other :| other != id && IsActiveAdmin(users, other);
      assert Administers(users, other);
    }
  }

  /**
   * An administrator may set the flags of any account, only its own not to false, and both are then
   * as asked; the guard never refuses one.
   */
  lemma UpdateIsExact(s: Accounts, actor: UserId, target: UserId, admin: Option<bool>, active: Option<bool>)
    ensures AccountUpdated(s, actor, target, admin, active).Some? <==>
      && Administers(s.users, actor) && target in s.users
      && (target == actor ==> admin != Some(false) && active != Some(false))
    ensures AccountUpdated(s, actor, target, admin, active).Some? ==>
      var after := AccountUpdated(s, actor, target, admin, active).value;
      && after.subjects == s.subjects && target in after.users && OthersKept(s.users, after.users, target)
      && after.users[target].email == s.users[target].email
      && after.users[target].admin == (if admin.Some? then admin.value else s.users[target].admin)
      && after.users[target].active == (if active.Some? then active.value else s.users[target].active)
  {
    if Administers(s.users, actor) && target in s.users && target != actor {
      assert IsActiveAdmin(s.users, actor);
      var flagged := s.users[target := s.users[target].(admin := admin.Some? && admin.value)];
      assert IsActiveAdmin(flagged, actor);
    }
  }

  /** An administrator may remove any account but its own; the sign-on subjects that belong to it go too, no others. */
  lemma RemovalIsExact(s: Accounts, actor: UserId, target: UserId)
    ensures AccountRemoved(s, actor, target).Some?
      <==> Administers(s.users, actor) && target in s.users && target != actor
    ensures AccountRemoved(s, actor, target).Some? ==>
      var after := AccountRemoved(s, actor, target).value;
      && target !in after.users && OthersKept(s.users, after.users, target)
      && forall subject :: subject in after.subjects <==> subject in s.subjects && s.subjects[subject] != target
    ensures AccountRemoved(s, actor, target).Some? ==>
      var after := AccountRemoved(s, actor, target).value;
      forall subject :: subject in after.subjects ==>
        subject in s.subjects && after.subjects[subject] == s.subjects[subject]
  {
    if Administers(s.users, actor) {
      assert IsActiveAdmin(s.users, actor);
    }
  }

  /** A name of 1 to 120 characters, a password of 12 to 256, and an email that no account has. */
  ghost predicate MayBeCreated(s: Accounts, id: UserId, c: Credentials) {
    && c.email.Some? && |c.name| >= 1 && |c.name| <= 120 && c.passwordLength >= 12 && c.passwordLength <= 256
    && id !in s.users && forall k :: k in s.users ==> s.users[k].email != c.email.value
  }

  /**
   * A local account is created by an administrator with the rights that it gives, or as the first
   * account, an administrator, of an instance without any: by registration when sign-on is off, or
   * by the command line.
   */
  lemma CreationIsExact(s: Accounts, e: Event)
    requires Valid(s) && (e.Create? || e.Register? || e.Bootstrap?)
    ensures Committed(s, e).Some? <==>
      && MayBeCreated(s, e.id, e.credentials)
      && match e
         case Create(actor, _, _, _) => Administers(s.users, actor)
         case Register(_, _, signOnEnabled) => !signOnEnabled && s.users.Keys == {}
         case _ => s.users.Keys == {}
    ensures Committed(s, e).Some? ==>
      var after := Committed(s, e).value;
      && after.subjects == s.subjects && e.id in after.users && OthersKept(s.users, after.users, e.id)
      && after.users[e.id].email == e.credentials.email.value && after.users[e.id].active
      && (after.users[e.id].admin <==> (e.Create? ==> e.asAdmin))
  {
    assert s.users.Keys == {} <==> s.users == map[];
  }

  /** The account a sign-on is for: the subject's, or the email's, or a new one. */
  ghost predicate SignsInAs(s: Accounts, e: Event, account: UserId)
    requires e.SignIn? && e.claims.subject.Some?
  {
    if e.claims.subject.value in s.subjects then account == s.subjects[e.claims.subject.value]
    else
      && e.claims.email.Some?
      && if exists k :: k in s.users && s.users[k].email == e.claims.email.value then
           account in s.users && s.users[account].email == e.claims.email.value
         else account == e.id && e.id !in s.users && e.settings.autoProvision
  }

  /** What a sign-on makes of the account's rights: with a group, whether the claims name it, but never nobody's. */
  ghost predicate RightsMapped(s: Accounts, e: Event, account: UserId, was: bool, admin: bool)
    requires e.SignIn?
  {
    if e.settings.adminGroup == "" then admin == was
    else
      admin <==>
        || e.settings.adminGroup in e.claims.groups
        || (was && forall k :: k != account ==> !Administers(s.users, k))
  }

  /** What a successful sign-on leaves behind. */
  ghost predicate SignedIn(s: Accounts, e: Event, account: UserId)
    requires Valid(s) && e.SignIn? && e.claims.subject.Some? && Committed(s, e).Some?
  {
    var after, subject := Committed(s, e).value, e.claims.subject.value;
    && subject in after.subjects && after.subjects[subject] == account
    && (forall k :: k != subject ==> (k in after.subjects <==> k in s.subjects))
    && (forall k :: k != subject && k in s.subjects && k in after.subjects ==> after.subjects[k] == s.subjects[k])
    && account in after.users && after.users[account].active && OthersKept(s.users, after.users, account)
    && (account in s.users ==> after.users[account].email == s.users[account].email)
    && (account !in s.users ==> e.claims.email == Some(after.users[account].email))
    && RightsMapped(s, e, account, account in s.users && s.users[account].admin, after.users[account].admin)
  }

  lemma MappingIsExact(users: Users, id: UserId, claims: Claims, settings: SignOn)
    requires id in users
    ensures var after, desired := GroupMapped(users, id, claims, settings), settings.adminGroup in claims.groups;
      && id in after && OthersKept(users, after, id)
      && after[id].active == users[id].active && after[id].email == users[id].email
      && after[id].admin ==
         if settings.adminGroup == "" then users[id].admin
         else desired || (users[id].admin && forall k :: k != id ==> !Administers(users, k))
  {
    FlagChangeIsExact(users, id, settings.adminGroup in claims.groups);
  }

  lemma OneAccountSignsIn(s: Accounts, e: Event, a: UserId, b: UserId)
    requires Valid(s) && e.SignIn? && e.claims.subject.Some? && SignsInAs(s, e, a) && SignsInAs(s, e, b)
    ensures a == b
  {}

  lemma SignInAsExisting(s: Accounts, e: Event, account: UserId)
    requires Valid(s) && e.SignIn? && e.claims.subject.Some? && SignsInAs(s, e, account) && account in s.users
    ensures Committed(s, e).Some? <==> s.users[account].active
    ensures Committed(s, e).Some? ==> SignedIn(s, e, account)
  {
    MappingIsExact(s.users, account, e.claims, e.settings);
    if e.claims.subject.value !in s.subjects {
      assert EmailTaken(s.users, e.claims.email.value);
      assert OwnerOf(s.users, e.claims.email.value) == Some(account);
    }
  }

  lemma SignInAsNew(s: Accounts, e: Event)
    requires Valid(s) && e.SignIn? && e.claims.subject.Some? && SignsInAs(s, e, e.id) && e.id !in s.users
    ensures Committed(s, e).Some? && SignedIn(s, e, e.id)
  {
    var users := s.users[e.id := User(e.claims.email.value, true, false)];
    MappingIsExact(users, e.id, e.claims, e.settings);
    assert OwnerOf(s.users, e.claims.email.value).None?;
  }

  /**
   * A sign-on succeeds exactly when it names a subject and is for an account that is active, or new.
   * It leaves the subject with that account and the account as it was, its rights mapped, a new one
   * active with the claimed email; every other account and subject stays.
   */
  lemma SignInIsExact(s: Accounts, e: Event)
    requires Valid(s) && e.SignIn?
    ensures Committed(s, e).Some? <==> e.claims.subject.Some? && exists account :: MaySignIn(s, e, account)
    ensures Committed(s, e).Some? ==> exists account :: MaySignIn(s, e, account) && SignedIn(s, e, account)
  {
    if account :| e.claims.subject.Some? && SignsInAs(s, e, account) {
      if account in s.users { SignInAsExisting(s, e, account); } else { SignInAsNew(s, e); }
      forall b | SignsInAs(s, e, b) ensures b == account { OneAccountSignsIn(s, e, account, b); }
      assert MaySignIn(s, e, account) <==> Committed(s, e).Some?;
    } else if e.claims.subject.Some? && Committed(s, e).Some? {
      SomebodySignsIn(s, e);
    }
  }

  ghost predicate MaySignIn(s: Accounts, e: Event, account: UserId)
    requires e.SignIn? && e.claims.subject.Some?
  {
    SignsInAs(s, e, account) && (account in s.users ==> s.users[account].active)
  }

  lemma SomebodySignsIn(s: Accounts, e: Event)
    requires Valid(s) && e.SignIn? && e.claims.subject.Some? && Committed(s, e).Some?
    ensures exists account :: SignsInAs(s, e, account)
  {
    var subject := e.claims.subject.value;
    if subject in s.subjects {
      assert SignsInAs(s, e, s.subjects[subject]);
    } else {
      var owner := OwnerOf(s.users, e.claims.email.value);
      assert SignsInAs(s, e, if owner.Some? then owner.value else e.id);
    }
  }

  // ------------------------------------------------------------------ the first account

  predicate MapsToAdmin(e: Event)
    requires e.SignIn?
  {
    e.settings.adminGroup != "" && e.settings.adminGroup in e.claims.groups
  }

  /**
   * The first account is an active administrator exactly when it is not one that sign-on provisions
   * outside the group.
   */
  lemma FirstAccountDecides(e: Event)
    requires Committed(EMPTY, e).Some?
    ensures HasActiveAdmin(Next(EMPTY, e).users) <==> (e.SignIn? ==> MapsToAdmin(e))
  {
    var users := Next(EMPTY, e).users;
    assert e.id in users && users.Keys == {e.id};
    assert HasActiveAdmin(users) <==> IsActiveAdmin(users, e.id);
  }

  ghost predicate NobodyAdministers(users: Users) {
    users != map[] && forall id :: id in users ==> !users[id].admin
  }

  /** And when it is not, only a sign-on through an administrator group can ever make one. */
  lemma {:induction false} WithoutGroupNobodyAdministers(s: Accounts, events: seq<Event>)
    requires Valid(s) && NobodyAdministers(s.users)
    requires forall i :: 0 <= i < |events| && events[i].SignIn? ==> !MapsToAdmin(events[i])
    ensures NobodyAdministers(Run(s, events).users)
    decreases |events|
  {
    if events != [] {
      var before, e := events[..|events| - 1], events[|events| - 1];
      WithoutGroupNobodyAdministers(s, before);
      NextLeavesNobody(Run(s, before), e);
    }
  }

  lemma NextLeavesNobody(s: Accounts, e: Event)
    requires Valid(s) && NobodyAdministers(s.users) && (e.SignIn? ==> !MapsToAdmin(e))
    ensures NobodyAdministers(Next(s, e).users)
  {
    if e.SignIn? && Committed(s, e).Some? {
      var after := Next(s, e).users;
      assert s.users.Keys <= after.Keys;
      var id :| id in s.users;
      assert id in after;
    }
  }
}
