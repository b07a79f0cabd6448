/** The user, role and login handlers over the tables they update. */
module IamServer {
  import opened Wrappers
  import opened Permissions
  import opened Iam
  import opened IamRuns
  import opened IamEffects
  import opened Runs

  class Store {
    var users: map<Id, User>
    var roles: map<string, Role>
    var permissions: set<string>
    var nextId: Id

    ghost function Rows(): State
      reads this
    {
      State(users, roles, permissions, nextId)
    }

    constructor ()
      ensures Rows() == State(map[], map[], {}, 0)
    {
      users, roles, permissions, nextId := map[], map[], {}, 0;
    }

    method Migrate(seed: Seed)
      modifies this
      ensures Rows() == Migrated(old(Rows()), seed)
    {
      permissions := permissions + seed.permissions;
      var missing := map r | r in seed.roles && r !in roles :: Role(r, "", true, seed.roles[r]);
      var present := map r | r in roles ::
        if r in seed.roles then roles[r].(perms := roles[r].perms + seed.roles[r]) else roles[r];
      roles := present + missing;
      assert roles == Migrated(old(Rows()), seed).roles;
    }

    method EnsureAdmin(email: string, hash: string)
      modifies this
      ensures Rows() == WithAdmin(old(Rows()), email, hash)
    {
      if |users| > 0 {
        return;
      }
      users, nextId := users[nextId := User(email, "Administrator", hash, ADMIN, true, 1)], nextId + 1;
    }

    method GetUserByEmailAny(email: string) returns (u: Option<Id>)
      requires EmailsUnique(Rows())
      ensures u.Some? <==> Taken(Rows(), email)
      ensures u.Some? ==> u.value in users && u.value == Holder(Rows(), email)
    {
      var todo := users.Keys;
      while todo != {}
        invariant todo <= users.Keys && forall v | v in users && v !in todo :: users[v].email != email
        decreases todo
      {
        var v :| v in todo;
        if users[v].email == email {
          assert HasEmail(Rows(), v, email);
          return Some(v);
        }
        todo := todo - {v};
      }
      return None;
    }

    method CountActiveAdmins() returns (n: nat)
      ensures n == |ActiveAdmins(Rows())|
    {
      n := 0;
      var todo := users.Keys;
      ghost var counted: set<Id> := {};
      while todo != {}
        invariant todo <= users.Keys && n == |counted|
        invariant counted == set u | u in users && u !in todo && IsActiveAdmin(users[u])
        decreases todo
      {
        var u :| u in todo;
        todo := todo - {u};
        if users[u].role == ADMIN && users[u].active {
          counted := counted + {u};
          n := n + 1;
        }
      }
      assert counted == ActiveAdmins(Rows());
    }

    method GetRolePermissions(role: string) returns (perms: seq<string>)
      ensures forall p :: p in perms <==> p in RolePermissions(Rows(), role)
    {
      perms := [];
      var todo := if role in roles then roles[role].perms else {};
      while todo != {}
        invariant todo <= RolePermissions(Rows(), role)
        invariant forall p :: p in perms || p in todo <==> p in RolePermissions(Rows(), role)
        decreases todo
      {
        var p :| p in todo;
        perms, todo := perms + [p], todo - {p};
      }
    }

    method InsertUser(user: User) returns (u: Id)
      modifies this
      ensures Rows() == AddUser(old(Rows()), user) && u == old(nextId)
    {
      u := nextId;
      users, nextId := users[u := user], nextId + 1;
    }

    /** Here and below, an unknown id changes no row. */
    method UpdateUser(u: Id, email: string, displayName: string, role: string, active: bool)
      modifies this`users
      ensures Rows() == if u !in old(users) then old(Rows()) else
        Put(old(Rows()), u, old(users)[u].(email := email, displayName := displayName, role := role, active := active))
    {
      if u in users {
        users := users[u := users[u].(email := email, displayName := displayName, role := role, active := active)];
      }
    }

    method SetUserActive(u: Id, active: bool)
      modifies this`users
      ensures Rows() == if u !in old(users) then old(Rows()) else Put(old(Rows()), u, old(users)[u].(active := active))
    {
      if u in users {
        users := users[u := users[u].(active := active)];
      }
    }

    /** An account that audit rows refer to cannot be deleted. */
    method DeleteUser(u: Id, audited: bool) returns (ok: bool)
      modifies this`users
      ensures ok == !audited && users == if ok then old(users) - {u} else old(users)
    {
      if audited {
        return false;
      }
      users := users - {u};
      return true;
    }

    method ResetPassword(u: Id, hash: string)
      modifies this`users
      ensures Rows() == if u !in old(users) then old(Rows())
        else Put(old(Rows()), u, Bumped(old(users)[u].(hash := hash)))
    {
      if u in users {
        users := users[u := users[u].(hash := hash, version := users[u].version + 1)];
      }
    }

    method RevokeUserSessions(u: Id)
      modifies this`users
      ensures Rows() == if u !in old(users) then old(Rows()) else Put(old(Rows()), u, Bumped(old(users)[u]))
    {
      if u in users {
        users := users[u := users[u].(version := users[u].version + 1)];
      }
    }

    /** Inside a transaction: the role's rows are deleted, then inserted one by one; on failure some are gone. */
    method SetRolePermissionsTx(id: string, ids: seq<string>) returns (ok: bool)
      requires id in roles
      modifies this`roles
      ensures ok <==> Requested(ids) <= permissions
      ensures ok ==> roles == old(roles)[id := old(roles)[id].(perms := Requested(ids))]
    {
      roles := roles[id := roles[id].(perms := {})];
      assert Requested(ids[..0]) == {};
      for i := 0 to |ids|
        invariant Requested(ids[..i]) <= permissions
        invariant roles.Keys == old(roles).Keys && forall r | r in roles && r != id :: roles[r] == old(roles)[r]
        invariant roles[id] == old(roles)[id].(perms := Requested(ids[..i]))
      {
        RequestedNext(ids, i);
        var pid := Trim(ids[i]);
        if pid != "" {
          if pid !in permissions {
            assert pid in Requested(ids);
            return false;
          }
          roles := roles[id := roles[id].(perms := roles[id].perms + {pid})];
        }
      }
      assert ids[..|ids|] == ids;
      return true;
    }

    /** A new role and its permissions in one transaction; a failure rolls both back. */
    method InsertRole(id: string, name: string, description: string, ids: seq<string>) returns (ok: bool)
      modifies this`roles
      ensures ok <==> Requested(ids) <= permissions
      ensures roles == if ok then old(roles)[id := Role(name, description, false, Requested(ids))] else old(roles)
    {
      var before := roles;
      roles := roles[id := Role(name, description, false, {})];
      ok := SetRolePermissionsTx(id, ids);
      if !ok {
        roles := before;
      }
    }

    /** New texts and permissions in one transaction; a failure rolls both back. */
    method UpdateRole(id: string, name: string, description: string, ids: seq<string>) returns (error: Option<Error>)
      modifies this`roles
      ensures error == if id !in old(roles) then Some(NotFound) else if Requested(ids) <= permissions then None
        else Some(UnknownPermission)
      ensures roles == if error.Some? then old(roles) else
        old(roles)[id := old(roles)[id].(name := name, description := description, perms := Requested(ids))]
    {
      if id !in roles {
        return Some(NotFound);
      }
      var before := roles;
      roles := roles[id := roles[id].(name := name, description := description)];
      var ok := SetRolePermissionsTx(id, ids);
      if !ok {
        roles := before;
        return Some(UnknownPermission);
      }
      return None;
    }

    method IsAssigned(role: string) returns (r: bool)
      ensures r == Assigned(Rows(), role)
    {
      var todo := users.Keys;
      while todo != {}
        invariant todo <= users.Keys && forall v | v in users && v !in todo :: users[v].role != role
        decreases todo
      {
        var v :| v in todo;
        if users[v].role == role {
          return true;
        }
        todo := todo - {v};
      }
      return false;
    }

    method DeleteRole(id: string) returns (error: Option<Error>)
      modifies this`roles
      ensures (Rows(), if error.Some? then Denied(error.value) else Done) == DeletingRole(old(Rows()), id)
    {
      if id !in roles {
        return Some(NotFound);
      }
      var inUse := IsAssigned(id);
      if roles[id].isSystem || inUse {
        return Some(RoleProtected);
      }
      roles := roles - {id};
      return None;
    }
  }

  lemma {:induction false} RequestedNext(ids: seq<string>, i: nat)
    requires i < |ids|
    ensures Requested(ids[..i + 1]) == Requested(ids[..i]) + (if Trim(ids[i]) != "" then {Trim(ids[i])} else {})
    ensures Trim(ids[i]) != "" ==> Trim(ids[i]) in Requested(ids)
  {
  }

  class Server {
    const store: Store

    constructor (store: Store)
      ensures this.store == store
    {
      this.store := store;
    }

    method HasPermission(actor: Id, required: string) returns (ok: bool)
      requires actor in store.users
      ensures ok == Allowed(store.Rows(), actor, required)
    {
      var perms := store.GetRolePermissions(store.users[actor].role);
      ok := MatchPermission(perms, required);
    }

    method GuardLastAdmin(target: User, newRole: string, newActive: bool) returns (refused: bool)
      ensures refused == GuardsLastAdmin(store.Rows(), target, newRole, newActive)
    {
      if target.role != ADMIN {
        return false;
      }
      if newRole == ADMIN && newActive {
        return false;
      }
      var n := store.CountActiveAdmins();
      return n <= 1;
    }

    method CreateUser(a: Action) returns (reply: Reply)
      requires a.CreateUser? && EmailsUnique(store.Rows())
      modifies store
      ensures (store.Rows(), reply) == Creating(old(store.Rows()), a)
    {
      var email := NormalizeEmail(a.email);
      if email == "" || a.displayName == "" || a.password == "" {
        return Denied(Validation);
      }
      if |a.password| < 6 {
        return Denied(WeakPassword);
      }
      if a.role !in store.roles {
        return Denied(InvalidRole);
      }
      var existing := store.GetUserByEmailAny(email);
      if existing.Some? {
        return Denied(EmailExists);
      }
      if a.hashed.None? {
        return Denied(HashError);
      }
      var active := true;
      if a.active.Some? {
        active := a.active.value;
      }
      var _ := store.InsertUser(User(email, a.displayName, a.hashed.value, a.role, active, 1));
      return Done;
    }

    method UpdateUser(actor: Id, a: Action) returns (reply: Reply)
      requires a.UpdateUser? && actor in store.users && EmailsUnique(store.Rows())
      modifies store
      ensures (store.Rows(), reply) == Updating(old(store.Rows()), actor, a)
    {
      if a.target !in store.users {
        return Denied(NotFound);
      }
      var target := store.users[a.target];
      var email, name, role, active := target.email, target.displayName, target.role, target.active;
      if a.newEmail.Some? {
        email := NormalizeEmail(a.newEmail.value);
        if email == "" {
          return Denied(Validation);
        }
        var existing := store.GetUserByEmailAny(email);
        if existing.Some? && existing.value != a.target {
          return Denied(EmailExists);
        }
      }
      if a.newName.Some? {
        name := a.newName.value;
      }
      if a.newRole.Some? {
        if a.newRole.value !in store.roles {
          return Denied(InvalidRole);
        }
        var assigns := HasPermission(actor, "roles.assign");
        if !assigns && a.newRole.value != target.role {
          return Denied(Forbidden);
        }
        role := a.newRole.value;
      }
      if a.newActive.Some? {
        active := a.newActive.value;
      }
      var refused := GuardLastAdmin(target, role, active);
      if refused {
        return Denied(LastAdmin);
      }
      store.UpdateUser(a.target, email, name, role, active);
      return Done;
    }

    method DeleteUser(actor: Id, u: Id, audited: bool) returns (reply: Reply)
      modifies store
      ensures (store.Rows(), reply) == Deleting(old(store.Rows()), actor, u, audited)
    {
      if u !in store.users {
        return Denied(NotFound);
      }
      if u == actor {
        return Denied(SelfDelete);
      }
      var refused := GuardLastAdmin(store.users[u], store.users[u].role, false);
      if refused {
        return Denied(LastAdmin);
      }
      var ok := store.DeleteUser(u, audited);
      return if ok then Done else Denied(DbError);
    }

    method SetUserActive(actor: Id, u: Id, on: bool) returns (reply: Reply)
      modifies store
      ensures (store.Rows(), reply) == Switching(old(store.Rows()), actor, u, on)
    {
      if u !in store.users {
        return Denied(NotFound);
      }
      if u == actor && !on {
        return Denied(SelfDisable);
      }
      var refused := GuardLastAdmin(store.users[u], store.users[u].role, on);
      if refused {
        return Denied(LastAdmin);
      }
      store.SetUserActive(u, on);
      if !on {
        store.RevokeUserSessions(u);
        assert store.users == old(store.users)[u := Bumped(old(store.users)[u].(active := false))];
      }
      return Done;
    }

    method ResetUserPassword(u: Id, password: string, hashed: Option<string>) returns (reply: Reply)
      modifies store
      ensures (store.Rows(), reply) == Resetting(old(store.Rows()), u, password, hashed)
    {
      if u !in store.users {
        return Denied(NotFound);
      }
      if |password| < 6 {
        return Denied(WeakPassword);
      }
      if hashed.None? {
        return Denied(HashError);
      }
      store.ResetPassword(u, hashed.value);
      return Done;
    }

    method ChangePassword(actor: Id, a: Action) returns (reply: Reply)
      requires a.ChangePassword? && actor in store.users
      modifies store
      ensures (store.Rows(), reply) == Changing(old(store.Rows()), actor, a)
    {
      if |a.password| < 6 {
        return Denied(WeakPassword);
      }
      if !a.verified {
        return Denied(WrongPassword);
      }
      if a.hashed.None? {
        return Denied(HashError);
      }
      store.ResetPassword(actor, a.hashed.value);
      return Done;
    }

    method CreateRole(a: Action) returns (reply: Reply)
      requires a.CreateRole?
      modifies store
      ensures (store.Rows(), reply) == CreatingRole(old(store.Rows()), a)
    {
      var name := Trim(a.name);
      if name == "" {
        return Denied(Validation);
      }
      var id := Trim(a.id);
      if id == "" {
        id := a.slug;
      } else {
        id := Upper(id);
      }
      if id == "" {
        return Denied(Validation);
      }
      if id in store.roles {
        return Denied(RoleExists);
      }
      var ok := store.InsertRole(id, name, Trim(a.description), a.ids);
      return if ok then Done else Denied(UnknownPermission);
    }

    method UpdateRole(a: Action) returns (reply: Reply)
      requires a.UpdateRole?
      modifies store
      ensures (store.Rows(), reply) == UpdatingRole(old(store.Rows()), a)
    {
      if a.id !in store.roles {
        return Denied(NotFound);
      }
      var name := Trim(a.name);
      if name == "" {
        return Denied(Validation);
      }
      var error := store.UpdateRole(a.id, name, Trim(a.description), a.ids);
      return if error.None? then Done else Denied(error.value);
    }

    method RevokeUserSessions(u: Id) returns (reply: Reply)
      modifies store
      ensures (store.Rows(), reply) == Revoking(old(store.Rows()), u)
    {
      if u !in store.users {
        return Denied(NotFound);
      }
      store.RevokeUserSessions(u);
      return Done;
    }

    method Dispatch(actor: Id, a: Action) returns (reply: Reply)
      requires actor in store.users && EmailsUnique(store.Rows())
      modifies store
      ensures (store.Rows(), reply) == Handle(old(store.Rows()), actor, a)
    {
      match a {
        case CreateUser(_, _, _, _, _, _) => reply := CreateUser(a);
        case UpdateUser(_, _, _, _, _) => reply := UpdateUser(actor, a);
        case DeleteUser(u, audited) => reply := DeleteUser(actor, u, audited);
        case SetActive(u, on) => reply := SetUserActive(actor, u, on);
        case ResetPassword(u, password, hashed) => reply := ResetUserPassword(u, password, hashed);
        case RevokeSessions(u) => reply := RevokeUserSessions(u);
        case ChangePassword(_, _, _) => reply := ChangePassword(actor, a);
        case CreateRole(_, _, _, _, _) => reply := CreateRole(a);
        case UpdateRole(_, _, _, _) => reply := UpdateRole(a);
        case DeleteRole(id) =>
          var error := store.DeleteRole(id);
          reply := if error.Some? then Denied(error.value) else Done;
      }
    }

    /** What the middleware asks of a token: the account exists, is active, and its sessions are not revoked. */
    method Authenticate(t: Token) returns (ok: bool)
      ensures ok == Accepted(store.Rows(), t)
    {
      if t.user !in store.users {
        return false;
      }
      var user := store.users[t.user];
      if !user.active {
        return false;
      }
      return t.version == user.version;
    }

    method ServeRequest(t: Token, a: Action) returns (reply: Reply)
      requires EmailsUnique(store.Rows())
      modifies store
      ensures (store.Rows(), reply) == Requesting(old(store.Rows()), t, a)
      ensures reply.Done? ==> CarriedOut(old(store.Rows()), t, a, store.Rows())
    {
      if Accepted(store.Rows(), t) {
        DoneExactlyWhenFit(store.Rows(), t.user, a);
      }
      var ok := Authenticate(t);
      if !ok {
        return Denied(Unauthorized);
      }
      if Needs(a).Some? {
        ok := HasPermission(t.user, Needs(a).value);
        if !ok {
          return Denied(Forbidden);
        }
      }
      reply := Dispatch(t.user, a);
    }

    method Login(email: string, verified: bool) returns (reply: Reply)
      requires EmailsUnique(store.Rows())
      ensures (store.Rows(), reply) == LoggingIn(store.Rows(), email, verified)
      ensures forall t :: reply == Issued(t) <==> verified && Opens(store.Rows(), email, t)
    {
      LoginIssuesFor(store.Rows(), email, verified);
      var u := store.GetUserByEmailAny(NormalizeEmail(email));
      if u.None? {
        return Denied(Unauthorized);
      }
      var user := store.users[u.value];
      if !user.active || !verified {
        return Denied(Unauthorized);
      }
      return Issued(Token(u.value, user.version));
    }

    method Provision(email: string, displayName: string, role: string, hashed: Option<string>) returns (reply: Reply)
      requires EmailsUnique(store.Rows())
      modifies store
      ensures (store.Rows(), reply) == Provisioning(old(store.Rows()), email, displayName, role, hashed)
      ensures forall t :: reply == Issued(t) <==> OpensOrAdds(old(store.Rows()), email, hashed, t)
    {
      ProvisionIssuesFor(store.Rows(), email, displayName, role, hashed);
      var e := NormalizeEmail(email);
      var u := store.GetUserByEmailAny(e);
      if u.None? {
        if hashed.None? {
          return Denied(Forbidden);
        }
        var added := store.InsertUser(User(e, displayName, hashed.value, role, true, 1));
        u := Some(added);
      }
      var user := store.users[u.value];
      if !user.active {
        return Denied(Forbidden);
      }
      return Issued(Token(u.value, user.version));
    }

    method Start(seed: Seed, email: string, hash: string)
      modifies store
      ensures store.Rows() == WithAdmin(Migrated(old(store.Rows()), seed), email, hash)
    {
      store.Migrate(seed);
      store.EnsureAdmin(email, hash);
    }

    method Serve(e: Event) returns (reply: Reply)
      requires EmailsUnique(store.Rows())
      modifies store
      ensures (store.Rows(), reply) == StepReply(old(store.Rows()), e)
    {
      match e {
        case Request(t, a) => reply := ServeRequest(t, a);
        case Login(email, verified) => reply := Login(email, verified);
        case Provision(email, name, role, hashed) => reply := Provision(email, name, role, hashed);
        case Restart(seed, email, hash) => Start(seed, email, hash); reply := Done;
      }
    }

    /**
     * Any run: the tables go through the steps of the specification, every reply is the one it gives, and the tables
     * stay sound.
     */
    method ServeAll(events: seq<Event>) returns (replies: seq<Reply>)
      requires Sound(store.Rows()) && forall e | e in events :: Proper(e)
      modifies store
      ensures store.Rows() == Run(Step, old(store.Rows()), events) && Sound(store.Rows())
      ensures |replies| == |events| && RepliedTo(old(store.Rows()), events, replies)
    {
      ghost var start := store.Rows();
      replies := [];
      for i := 0 to |events|
        invariant store.Rows() == Run(Step, start, events[..i]) && Sound(store.Rows())
        invariant |replies| == i && RepliedTo(start, events, replies)
      {
        NextStep(start, events, i);
        StepKeepsSound(store.Rows(), events[i]);
        var reply := Serve(events[i]);
        OneMoreReply(start, events, replies, reply);
        replies := replies + [reply];
      }
      assert events[..|events|] == events;
    }
  }

  lemma {:induction false} LoginIssuesFor(s: State, email: string, verified: bool)
    requires EmailsUnique(s)
    ensures forall t :: LoggingIn(s, email, verified).1 == Issued(t) <==> verified && Opens(s, email, t)
  {
    forall t
      ensures LoggingIn(s, email, verified).1 == Issued(t) <==> verified && Opens(s, email, t)
    {
      LoginIssues(s, email, verified, t);
    }
  }

  lemma {:induction false} ProvisionIssuesFor(s: State, email: string, name: string, role: string,
        hashed: Option<string>)
    requires EmailsUnique(s)
    ensures forall t :: Provisioning(s, email, name, role, hashed).1 == Issued(t) <==> OpensOrAdds(s, email, hashed, t)
  {
    forall t
      ensures Provisioning(s, email, name, role, hashed).1 == Issued(t) <==> OpensOrAdds(s, email, hashed, t)
    {
      ProvisionIssues(s, email, name, role, hashed, t);
    }
  }

  ghost predicate IsReply(start: State, events: seq<Event>, i: nat, reply: Reply)
    requires i < |events|
  {
    reply == ReplyTo(Run(Step, start, events[..i]), events[i])
  }

  /** The replies so far are those of the specification. */
  ghost predicate RepliedTo(start: State, events: seq<Event>, replies: seq<Reply>) {
    |replies| <= |events| && forall i | 0 <= i < |replies| :: IsReply(start, events, i, replies[i])
  }

  lemma {:induction false} OneMoreReply(start: State, events: seq<Event>, replies: seq<Reply>, reply: Reply)
    requires RepliedTo(start, events, replies) && |replies| < |events| && IsReply(start, events, |replies|, reply)
    ensures RepliedTo(start, events, replies + [reply])
  {
  }

  lemma {:induction false} NextStep(start: State, events: seq<Event>, i: nat)
    requires i < |events|
    ensures Run(Step, start, events[..i + 1]) == Step(Run(Step, start, events[..i]), events[i])
  {
    assert events[..i + 1] == events[..i] + [events[i]];
    RunLast(Step, start, events[..i], events[i]);
  }
}
