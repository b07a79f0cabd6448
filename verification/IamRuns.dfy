/** What holds of users, roles and sessions over every run of requests, logins and restarts. */
module IamRuns {
  import opened Wrappers
  import opened Iam
  import opened Runs

  // ---------------------------------------------------------------- the invariant

  ghost predicate HasActiveAdmin(s: State) {
    exists u :: u in ActiveAdmins(s)
  }

  ghost predicate RolesExist(s: State) {
    forall u | u in s.users :: s.users[u].role in s.roles
  }

  ghost predicate SystemRolesKept(s: State) {
    forall r | r in SYSTEM_ROLES :: r in s.roles && s.roles[r].isSystem
  }

  ghost predicate PermissionsKnown(s: State) {
    forall r | r in s.roles :: s.roles[r].perms <= s.permissions
  }

  ghost predicate IdsSpent(s: State) {
    forall u | u in s.users :: u < s.nextId
  }

  ghost predicate Sound(s: State) {
    HasActiveAdmin(s) && RolesExist(s) && EmailsUnique(s) && SystemRolesKept(s) && PermissionsKnown(s) && IdsSpent(s)
  }

  /** The guard's count leaves another active administrator. */
  lemma {:induction false} AnotherAdmin(s: State, u: Id) returns (v: Id)
    requires |ActiveAdmins(s)| > 1
    ensures v in ActiveAdmins(s) && v != u
  {
    var others := ActiveAdmins(s) - {u};
    assert ActiveAdmins(s) == others || ActiveAdmins(s) == others + {u};
    assert |others| > 0;
    v :| v in others;
  }

  /** Unless the guard refuses, some active administrator is left whatever becomes of the target within its bounds. */
  lemma {:induction false} GuardKeepsAdmin(s: State, u: Id, newRole: string, newActive: bool) returns (v: Id)
    requires HasActiveAdmin(s) && u in s.users && !GuardsLastAdmin(s, s.users[u], newRole, newActive)
    ensures v in ActiveAdmins(s) && (v == u ==> newRole == ADMIN && newActive)
  {
    if |ActiveAdmins(s)| > 1 {
      v := AnotherAdmin(s, u);
    } else {
      v :| v in ActiveAdmins(s);
    }
  }

  lemma {:induction false} AddKeepsSound(s: State, user: User)
    requires RolesExist(s) && EmailsUnique(s) && SystemRolesKept(s) && PermissionsKnown(s) && IdsSpent(s)
    requires user.role in s.roles && !Taken(s, user.email) && (HasActiveAdmin(s) || IsActiveAdmin(user))
    ensures Sound(AddUser(s, user))
  {
    var t := AddUser(s, user);
    assert s.nextId !in s.users;
    assert forall u | u in s.users :: t.users[u] == s.users[u] && !(HasEmail(s, u, user.email));
    if IsActiveAdmin(user) {
      assert s.nextId in ActiveAdmins(t);
    } else {
      var v :| v in ActiveAdmins(s);
      assert v in ActiveAdmins(t);
    }
  }

  lemma {:induction false} PutKeepsSound(s: State, u: Id, user: User)
    requires Sound(s) && u in s.users && user.role in s.roles
    requires user.email == s.users[u].email || !Taken(s, user.email)
    requires !GuardsLastAdmin(s, s.users[u], user.role, user.active)
    ensures Sound(Put(s, u, user))
  {
    var t := Put(s, u, user);
    var v := GuardKeepsAdmin(s, u, user.role, user.active);
    assert v in ActiveAdmins(t);
    assert forall w | w in s.users && w != u :: s.users[w].email != user.email by {
      assert forall w | w in s.users :: HasEmail(s, w, s.users[w].email);
    }
  }

  /** A change that leaves role and activity alone is never the guard's business. */
  lemma {:induction false} SessionChangeKeepsSound(s: State, u: Id, hash: string)
    requires Sound(s) && u in s.users
    ensures Sound(Put(s, u, Bumped(s.users[u].(hash := hash))))
  {
    var t := Put(s, u, Bumped(s.users[u].(hash := hash)));
    assert ActiveAdmins(t) == ActiveAdmins(s);
  }

  lemma {:induction false} UpdatingKeepsSound(s: State, actor: Id, a: Action)
    requires Sound(s) && actor in s.users && a.UpdateUser?
    ensures Sound(Updating(s, actor, a).0)
  {
    var (t, reply) := Updating(s, actor, a);
    if reply.Done? {
      var user := t.users[a.target];
      assert Taken(s, user.email) ==> HasEmail(s, Holder(s, user.email), user.email);
      PutKeepsSound(s, a.target, user);
    }
  }

  lemma {:induction false} DeletingKeepsSound(s: State, actor: Id, u: Id, audited: bool)
    requires Sound(s)
    ensures Sound(Deleting(s, actor, u, audited).0)
  {
    var (t, reply) := Deleting(s, actor, u, audited);
    if reply.Done? {
      var v := GuardKeepsAdmin(s, u, s.users[u].role, false);
      assert v in ActiveAdmins(t);
    }
  }

  lemma {:induction false} SwitchingKeepsSound(s: State, actor: Id, u: Id, on: bool)
    requires Sound(s)
    ensures Sound(Switching(s, actor, u, on).0)
  {
    var (t, reply) := Switching(s, actor, u, on);
    if reply.Done? {
      PutKeepsSound(s, u, t.users[u]);
    }
  }

  lemma {:induction false} RoleChangeKeepsSound(s: State, id: string, role: Role)
    requires Sound(s) && role.perms <= s.permissions && (id in SYSTEM_ROLES ==> role.isSystem)
    ensures Sound(s.(roles := s.roles[id := role]))
  {
    assert ActiveAdmins(s.(roles := s.roles[id := role])) == ActiveAdmins(s);
  }

  lemma {:induction false} DeletingRoleKeepsSound(s: State, id: string)
    requires Sound(s)
    ensures Sound(DeletingRole(s, id).0)
  {
  }

  lemma {:induction false} CreatingKeepsSound(s: State, a: Action)
    requires Sound(s) && a.CreateUser?
    ensures Sound(Creating(s, a).0)
  {
    if Creating(s, a).1.Done? {
      AddKeepsSound(s, Creating(s, a).0.users[s.nextId]);
    }
  }

  lemma {:induction false} ResettingKeepsSound(s: State, u: Id, password: string, hashed: Option<string>)
    requires Sound(s)
    ensures Sound(Resetting(s, u, password, hashed).0)
  {
    if u in s.users && hashed.Some? {
      SessionChangeKeepsSound(s, u, hashed.value);
    }
  }

  function RoleIdOf(a: Action): string
    requires a.CreateRole? || a.UpdateRole?
  {
    if a.UpdateRole? then a.id else if Trim(a.id) == "" then a.slug else Upper(Trim(a.id))
  }

  lemma {:induction false} RoleRequestKeepsSound(s: State, a: Action)
    requires Sound(s) && (a.CreateRole? || a.UpdateRole?)
    ensures Sound((if a.CreateRole? then CreatingRole(s, a) else UpdatingRole(s, a)).0)
  {
    var (t, reply) := if a.CreateRole? then CreatingRole(s, a) else UpdatingRole(s, a);
    if reply.Done? {
      RoleChangeKeepsSound(s, RoleIdOf(a), t.roles[RoleIdOf(a)]);
    }
  }

  lemma {:induction false} RevokingKeepsSound(s: State, u: Id)
    requires Sound(s)
    ensures Sound(Revoking(s, u).0)
  {
    if u in s.users {
      SessionChangeKeepsSound(s, u, s.users[u].hash);
    }
  }

  lemma {:induction false} HandleKeepsSound(s: State, actor: Id, a: Action)
    requires Sound(s) && actor in s.users
    ensures Sound(Handle(s, actor, a).0)
  {
    match a {
      case CreateUser(_, _, _, _, _, _) => CreatingKeepsSound(s, a);
      case UpdateUser(_, _, _, _, _) => UpdatingKeepsSound(s, actor, a);
      case DeleteUser(u, audited) => DeletingKeepsSound(s, actor, u, audited);
      case SetActive(u, on) => SwitchingKeepsSound(s, actor, u, on);
      case ResetPassword(u, password, hashed) => ResettingKeepsSound(s, u, password, hashed);
      case RevokeSessions(u) => RevokingKeepsSound(s, u);
      case ChangePassword(password, _, hashed) => ResettingKeepsSound(s, actor, password, hashed);
      case CreateRole(_, _, _, _, _) => RoleRequestKeepsSound(s, a);
      case UpdateRole(_, _, _, _) => RoleRequestKeepsSound(s, a);
      case DeleteRole(id) => DeletingRoleKeepsSound(s, id);
    }
  }

  /** The seeded roles are the system roles, and hold seeded permissions only. */
  ghost predicate WellSeeded(seed: Seed) {
    seed.roles.Keys == SYSTEM_ROLES && forall r | r in seed.roles :: seed.roles[r] <= seed.permissions
  }

  /** Restarts bring the shipped migrations; the configured default role for provisioned users is a system role. */
  ghost predicate Proper(e: Event) {
    (e.Restart? ==> WellSeeded(e.seed)) && (e.Provision? ==> e.role in SYSTEM_ROLES)
  }

  lemma {:induction false} RestartKeepsSound(s: State, seed: Seed, email: string, hash: string)
    requires Sound(s) && WellSeeded(seed)
    ensures Sound(WithAdmin(Migrated(s, seed), email, hash))
  {
  }

  lemma {:induction false} StepKeepsSound(s: State, e: Event)
    requires Sound(s) && Proper(e)
    ensures Sound(Step(s, e))
  {
    match e {
      case Request(t, a) =>
        if Accepted(s, t) {
          HandleKeepsSound(s, t.user, a);
        }
      case Login(_, _) =>
      case Provision(email, name, role, hashed) =>
        var address := NormalizeEmail(email);
        if !Taken(s, address) && hashed.Some? {
          AddKeepsSound(s, User(address, name, hashed.value, role, true, 1));
        }
      case Restart(seed, email, hash) => RestartKeepsSound(s, seed, email, hash);
    }
  }

  const EMPTY := State(map[], map[], {}, 0)

  /** The first start, on an empty database. */
  function Booted(seed: Seed, email: string, hash: string): State {
    WithAdmin(Migrated(EMPTY, seed), email, hash)
  }

  lemma {:induction false} BootIsSound(seed: Seed, email: string, hash: string)
    requires WellSeeded(seed)
    ensures Sound(Booted(seed, email, hash))
  {
    AddKeepsSound(Migrated(EMPTY, seed), User(email, "Administrator", hash, ADMIN, true, 1));
  }

  /**
   * From the first start, over every run of requests, logins, provisioned logins and restarts: somebody is an active
   * administrator, every user's role exists, emails are unique, the system roles are there, and roles hold known
   * permissions.
   */
  lemma {:induction false} EveryRunIsSound(seed: Seed, email: string, hash: string, events: seq<Event>)
    requires WellSeeded(seed) && forall e | e in events :: Proper(e)
    ensures Sound(Run(Step, Booted(seed, email, hash), events))
  {
    if events == [] {
      BootIsSound(seed, email, hash);
    } else {
      var init, last := events[..|events| - 1], events[|events| - 1];
      EveryRunIsSound(seed, email, hash, init);
      StepKeepsSound(Run(Step, Booted(seed, email, hash), init), last);
    }
  }

  /**
   * The guard needs handlers to be atomic: two requests that both check before either acts can disable both
   * administrators.
   */
  lemma {:induction false} TwoChecksBeforeActing(s: State, u: Id, v: Id)
    requires ActiveAdmins(s) == {u, v} && u != v
    ensures u in s.users && v in s.users
    ensures !GuardsLastAdmin(s, s.users[u], ADMIN, false) && !GuardsLastAdmin(s, s.users[v], ADMIN, false)
    ensures ActiveAdmins(Put(Put(s, u, s.users[u].(active := false)), v, s.users[v].(active := false))) == {}
  {
    assert u in ActiveAdmins(s) && v in ActiveAdmins(s);
    var t := Put(Put(s, u, s.users[u].(active := false)), v, s.users[v].(active := false));
    assert forall w | w in ActiveAdmins(t) :: w in ActiveAdmins(s);
  }

  // ---------------------------------------------------------------- sessions

  /** The event ends the sessions of `u`: a reset or changed password, a revocation, or the disable endpoint. */
  ghost predicate Revokes(s: State, e: Event, u: Id) {
    e.Request? && ReplyTo(s, e).Done? &&
    match e.action
    case ResetPassword(target, _, _) => target == u
    case RevokeSessions(target) => target == u
    case SetActive(target, on) => target == u && !on
    case ChangePassword(_, _, _) => e.token.user == u
    case _ => false
  }

  /** Versions count revocations, and an id once gone stays gone. */
  lemma {:induction false} VersionStep(s: State, e: Event, u: Id)
    requires IdsSpent(s)
    ensures IdsSpent(Step(s, e)) && Step(s, e).nextId >= s.nextId
    ensures u in Step(s, e).users && u < s.nextId ==>
      u in s.users && Step(s, e).users[u].version == s.users[u].version + if Revokes(s, e, u) then 1 else 0
  {
    if e.Request? && Accepted(s, e.token) {
      HandleVersion(s, e.token.user, e.action, u);
    }
  }

  ghost predicate Ends(s: State, actor: Id, a: Action, u: Id)
    requires actor in s.users
  {
    Handle(s, actor, a).1.Done? &&
    match a
    case ResetPassword(target, _, _) => target == u
    case RevokeSessions(target) => target == u
    case SetActive(target, on) => target == u && !on
    case ChangePassword(_, _, _) => actor == u
    case _ => false
  }

  lemma {:induction false} HandleVersion(s: State, actor: Id, a: Action, u: Id)
    requires IdsSpent(s) && actor in s.users
    ensures var t := Handle(s, actor, a).0;
      && IdsSpent(t) && t.nextId >= s.nextId
      && (u in t.users && u < s.nextId ==>
          u in s.users && t.users[u].version == s.users[u].version + if Ends(s, actor, a, u) then 1 else 0)
  {
  }

  /** How often the sessions of `u` were ended in a run. */
  ghost function Revocations(s: State, events: seq<Event>, u: Id): nat {
    if events == [] then 0
    else
      var init := events[..|events| - 1];
      Revocations(s, init, u) + if Revokes(Run(Step, s, init), events[|events| - 1], u) then 1 else 0
  }

  lemma {:induction false} VersionsCountRevocations(s: State, events: seq<Event>, u: Id)
    requires IdsSpent(s) && u < s.nextId
    ensures var t := Run(Step, s, events);
      && IdsSpent(t) && t.nextId >= s.nextId
      && (u in t.users ==> u in s.users && t.users[u].version == s.users[u].version + Revocations(s, events, u))
  {
    if events != [] {
      var init := events[..|events| - 1];
      VersionsCountRevocations(s, init, u);
      VersionStep(Run(Step, s, init), events[|events| - 1], u);
    }
  }

  lemma {:induction false} RequestsIssueNothing(s: State, t: Token, a: Action)
    ensures !Requesting(s, t, a).1.Issued?
  {
  }

  /** A token is issued for an existing, active user with the version of the moment. */
  lemma {:induction false} IssuedTokensAreCurrent(s: State, e: Event)
    requires IdsSpent(s) && ReplyTo(s, e).Issued?
    ensures Accepted(Step(s, e), ReplyTo(s, e).token) && IdsSpent(Step(s, e))
  {
    VersionStep(s, e, 0);
    match e {
      case Request(t, a) => RequestsIssueNothing(s, t, a);
      case _ =>
    }
  }

  /**
   * Revocation is permanent. Whatever happens after a token was issued, it is accepted exactly when its account still
   * exists and is active and no password reset, password change, revocation or disabling has hit the account since.
   */
  lemma {:induction false} AcceptedExactlyWhenNeverRevoked(s: State, e: Event, later: seq<Event>)
    requires IdsSpent(s) && ReplyTo(s, e).Issued?
    ensures var (issued, t) := (Step(s, e), ReplyTo(s, e).token);
      var now := Run(Step, issued, later);
      Accepted(now, t) <==> t.user in now.users && now.users[t.user].active && Revocations(issued, later, t.user) == 0
  {
    IssuedTokensAreCurrent(s, e);
    VersionsCountRevocations(Step(s, e), later, ReplyTo(s, e).token.user);
  }

  /** A deleted account's tokens stay dead: an account made later, under the same email or not, has another id. */
  lemma {:induction false} DeletedStaysOut(s: State, events: seq<Event>, t: Token)
    requires IdsSpent(s) && t.user !in s.users && t.user < s.nextId
    ensures !Accepted(Run(Step, s, events), t)
  {
    VersionsCountRevocations(s, events, t.user);
  }

  // ---------------------------------------------------------------- requests

  lemma {:induction false} HandleAllOrNothing(s: State, actor: Id, a: Action)
    requires actor in s.users
    ensures Handle(s, actor, a).1.Denied? ==> Handle(s, actor, a).0 == s
  {
  }

  /**
   * A refused event leaves all tables as they were; a request that changes something had a live session and the
   * permission.
   */
  lemma {:induction false} OnlyPermittedRequestsChange(s: State, e: Event)
    ensures ReplyTo(s, e).Denied? ==> Step(s, e) == s
    ensures e.Request? && Step(s, e) != s ==>
      Accepted(s, e.token) && (Needs(e.action).Some? ==> Allowed(s, e.token.user, Needs(e.action).value))
  {
    if e.Request? && Accepted(s, e.token) {
      HandleAllOrNothing(s, e.token.user, e.action);
    }
  }

  /**
   * Role `id` has exactly the trimmed, non-empty requested permissions, all known; other roles and users are
   * untouched.
   */
  ghost predicate GrantsExactly(s: State, after: State, id: string, ids: seq<string>) {
    && id in after.roles && after.roles[id].perms <= s.permissions == after.permissions
    && (forall p :: p in after.roles[id].perms <==> p != "" && exists q | q in ids :: Trim(q) == p)
    && after.users == s.users && after.roles.Keys == s.roles.Keys + {id}
    && forall r | r in s.roles && r != id :: after.roles[r] == s.roles[r]
  }

  ghost predicate AllKnown(s: State, ids: seq<string>) {
    forall q | q in ids && Trim(q) != "" :: Trim(q) in s.permissions
  }

  /**
   * Creating or updating a role either leaves it with exactly the trimmed, non-empty requested permissions, all of them
   * known, and everything else untouched; or changes nothing at all, as it must if a requested one is unknown.
   */
  lemma {:induction false} RolePermissionsAreExact(s: State, t: Token, a: Action)
    requires a.CreateRole? || a.UpdateRole?
    ensures var (after, reply) := (Step(s, Request(t, a)), ReplyTo(s, Request(t, a)));
      if reply.Done? then AllKnown(s, a.ids) && GrantsExactly(s, after, RoleIdOf(a), a.ids) else after == s
  {
  }
}
