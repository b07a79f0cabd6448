/** What logins and requests come to, told by the rows of the tables: who gets a token, who may act, what changes. */
module IamEffects {
  import opened Wrappers
  import opened Permissions
  import opened Iam
  import opened IamRuns

  // ---------------------------------------------------------------- text

  predicate AllSpace(s: string) {
    forall i | 0 <= i < |s| :: IsSpace(s[i])
  }

  lemma {:induction false} LeftCut(s: string) returns (front: string)
    ensures s == front + TrimLeft(s) && AllSpace(front)
    ensures TrimLeft(s) != "" ==> !IsSpace(TrimLeft(s)[0])
  {
    front := "";
    if s != [] && IsSpace(s[0]) {
      front := LeftCut(s[1..]);
      front := [s[0]] + front;
      assert s == [s[0]] + s[1..];
    }
  }

  lemma {:induction false} RightCut(s: string) returns (back: string)
    ensures s == TrimRight(s) + back && AllSpace(back)
    ensures TrimRight(s) != "" ==> !IsSpace(TrimRight(s)[|TrimRight(s)| - 1])
  {
    back := "";
    if s != [] && IsSpace(s[|s| - 1]) {
      back := RightCut(s[..|s| - 1]);
      back := back + [s[|s| - 1]];
      assert s == s[..|s| - 1] + [s[|s| - 1]];
    }
  }

  /** Trimming cuts off white space at both ends and leaves none there. */
  lemma {:induction false} TrimCutsWhiteSpace(s: string) returns (front: string, back: string)
    ensures s == front + Trim(s) + back && AllSpace(front) && AllSpace(back)
    ensures Trim(s) != "" ==> !IsSpace(Trim(s)[0]) && !IsSpace(Trim(s)[|Trim(s)| - 1])
  {
    front := LeftCut(s);
    back := RightCut(TrimLeft(s));
    assert Trim(s) != "" ==> Trim(s)[0] == TrimLeft(s)[0];
  }

  /** Letter by letter: the capitals and small letters of ASCII are 32 codes apart. */
  lemma {:induction false} CaseByCode(s: string, i: nat)
    requires i < |s|
    ensures |Lower(s)| == |Upper(s)| == |s|
    ensures Lower(s)[i] as int == s[i] as int + if 65 <= s[i] as int <= 90 then 32 else 0
    ensures Upper(s)[i] as int == s[i] as int - if 97 <= s[i] as int <= 122 then 32 else 0
  {
  }

  // ---------------------------------------------------------------- who gets a token

  /** The token is for the active account that holds the address, at its present version. */
  predicate Opens(s: State, email: string, t: Token) {
    t.user in s.users && s.users[t.user].email == Lower(Trim(email)) && s.users[t.user].active &&
      s.users[t.user].version == t.version
  }

  ghost predicate IsFree(s: State, email: string) {
    forall u | u in s.users :: s.users[u].email != Lower(Trim(email))
  }

  /** The token is for the holder's account or, where the address is free, for the account that is then added. */
  ghost predicate OpensOrAdds(s: State, email: string, hashed: Option<string>, t: Token) {
    Opens(s, email, t) || (IsFree(s, email) && hashed.Some? && t == Token(s.nextId, 1))
  }

  lemma {:induction false} FreeMeansNotTaken(s: State, email: string)
    ensures IsFree(s, email) <==> !Taken(s, NormalizeEmail(email))
  {
    forall u | u in s.users
      ensures s.users[u].email == Lower(Trim(email)) <==> HasEmail(s, u, NormalizeEmail(email))
    {
    }
  }

  lemma {:induction false} HolderOpens(s: State, email: string, t: Token)
    requires EmailsUnique(s) && Taken(s, NormalizeEmail(email))
    ensures var u := Holder(s, NormalizeEmail(email));
      u in s.users && (Opens(s, email, t) <==> s.users[u].active && t == TokenFor(s, u))
  {
    var u := Holder(s, NormalizeEmail(email));
    assert HasEmail(s, u, NormalizeEmail(email));
  }

  lemma {:induction false} LoginIssues(s: State, email: string, verified: bool, t: Token)
    requires EmailsUnique(s)
    ensures LoggingIn(s, email, verified).1 == Issued(t) <==> verified && Opens(s, email, t)
    ensures LoggingIn(s, email, verified).0 == s
  {
    FreeMeansNotTaken(s, email);
    if Taken(s, NormalizeEmail(email)) {
      HolderOpens(s, email, t);
    }
  }

  lemma {:induction false} ProvisionIssues(s: State, email: string, name: string, role: string, hashed: Option<string>,
        t: Token)
    requires EmailsUnique(s)
    ensures Provisioning(s, email, name, role, hashed).1 == Issued(t) <==> OpensOrAdds(s, email, hashed, t)
  {
    FreeMeansNotTaken(s, email);
    if Taken(s, NormalizeEmail(email)) {
      HolderOpens(s, email, t);
    }
  }

  /** A login through the identity provider adds an account for a free address and changes nothing else. */
  lemma {:induction false} ProvisionAdds(s: State, email: string, name: string, role: string, hashed: Option<string>)
    ensures var t := Provisioning(s, email, name, role, hashed).0;
      if IsFree(s, email) && hashed.Some? then
        AddsRow(s, t, User(Lower(Trim(email)), name, hashed.value, role, true, 1))
      else t == s
  {
    FreeMeansNotTaken(s, email);
  }

  /**
   * A token is issued by a login with the right password, or a login through the identity provider, for the active
   * account that holds the trimmed, lower-case address; by the latter also for the new account of a free address; and
   * by nothing else. It carries the account's present version.
   */
  lemma {:induction false} TokenIssuedExactlyWhen(s: State, e: Event, t: Token)
    requires EmailsUnique(s)
    ensures ReplyTo(s, e) == Issued(t) <==>
      match e
      case Login(email, verified) => verified && Opens(s, email, t)
      case Provision(email, _, _, hashed) => OpensOrAdds(s, email, hashed, t)
      case _ => false
  {
    match e {
      case Request(token, a) => RequestsIssueNothing(s, token, a);
      case Login(email, verified) => LoginIssues(s, email, verified, t);
      case Provision(email, name, role, hashed) => ProvisionIssues(s, email, name, role, hashed, t);
      case Restart(_, _, _) =>
    }
  }

  /** A login gives a token exactly when the password was right and some active account holds the address. */
  lemma {:induction false} LoginSucceedsExactlyWhen(s: State, email: string, verified: bool)
    requires EmailsUnique(s)
    ensures ReplyTo(s, Login(email, verified)).Issued? <==>
      verified && exists u | u in s.users :: s.users[u].email == Lower(Trim(email)) && s.users[u].active
    ensures !ReplyTo(s, Login(email, verified)).Issued? ==> ReplyTo(s, Login(email, verified)) == Denied(Unauthorized)
  {
    var reply := ReplyTo(s, Login(email, verified));
    if reply.Issued? {
      LoginIssues(s, email, verified, reply.token);
    }
    if u :| u in s.users && s.users[u].email == Lower(Trim(email)) && s.users[u].active {
      LoginIssues(s, email, verified, TokenFor(s, u));
    }
  }

  // ---------------------------------------------------------------- who may act

  /** The account's role has the permission itself or everything of its group. */
  predicate MayDo(s: State, u: Id, group: string, verb: string)
    requires u in s.users
  {
    var role := s.users[u].role;
    role in s.roles && (group + "." + verb in s.roles[role].perms || group + ".*" in s.roles[role].perms)
  }

  lemma {:induction false} OnlyDot(group: string, verb: string, k: nat)
    requires '.' !in group && '.' !in verb && k < |group + "." + verb|
    ensures (group + "." + verb)[k] == '.' <==> k == |group|
  {
  }

  lemma {:induction false} OneDotted(p: string, group: string, verb: string)
    requires group != "" && '.' !in group && '.' !in verb
    ensures Suffices(p, group + "." + verb) <==> p == group + "." + verb || p == group + ".*"
  {
    var required := group + "." + verb;
    assert required[..|group| + 1] == group + ".";
    if Covers(p, required) {
      assert p[..|p| - 1][|p| - 2] == required[|p| - 2];
      OnlyDot(group, verb, |p| - 2);
      assert p == p[..|p| - 1] + "*";
    }
    if p == group + ".*" {
      assert p[..|p| - 1] == group + ".";
    }
  }

  lemma {:induction false} AllowedExactlyWhen(s: State, u: Id, group: string, verb: string)
    requires u in s.users && group != "" && '.' !in group && '.' !in verb
    ensures Allowed(s, u, group + "." + verb) <==> MayDo(s, u, group, verb)
  {
    var perms := RolePermissions(s, s.users[u].role);
    if p :| p in perms && Suffices(p, group + "." + verb) {
      OneDotted(p, group, verb);
    }
    OneDotted(group + "." + verb, group, verb);
    OneDotted(group + ".*", group, verb);
  }

  /** The request goes to its handler if the account may do this, and is refused without effect otherwise. */
  ghost predicate GatedBy(s: State, t: Token, a: Action, group: string, verb: string)
    requires t.user in s.users
  {
    Requesting(s, t, a) == if MayDo(s, t.user, group, verb) then Handle(s, t.user, a) else (s, Denied(Forbidden))
  }

  lemma {:induction false} Gated(s: State, t: Token, a: Action, group: string, verb: string)
    requires Accepted(s, t) && group != "" && '.' !in group && '.' !in verb && Needs(a) == Some(group + "." + verb)
    ensures GatedBy(s, t, a, group, verb)
  {
    AllowedExactlyWhen(s, t.user, group, verb);
  }

  lemma {:induction false} Spelling()
    ensures "users" + "." + "create" == "users.create" && "users" + "." + "update" == "users.update"
    ensures "users" + "." + "delete" == "users.delete" && "users" + "." + "disable" == "users.disable"
    ensures "users" + "." + "reset_password" == "users.reset_password"
    ensures "roles" + "." + "create" == "roles.create" && "roles" + "." + "update" == "roles.update"
    ensures "roles" + "." + "delete" == "roles.delete"
  {
  }

  /** Which permission a request needs; changing one's own password needs a live session only. */
  lemma {:induction false} PermissionsNeeded(s: State, t: Token, a: Action)
    requires Accepted(s, t)
    ensures a.CreateUser? ==> GatedBy(s, t, a, "users", "create")
    ensures a.UpdateUser? || a.RevokeSessions? || (a.SetActive? && a.on) ==> GatedBy(s, t, a, "users", "update")
    ensures a.SetActive? && !a.on ==> GatedBy(s, t, a, "users", "disable")
    ensures a.DeleteUser? ==> GatedBy(s, t, a, "users", "delete")
    ensures a.ResetPassword? ==> GatedBy(s, t, a, "users", "reset_password")
    ensures a.CreateRole? ==> GatedBy(s, t, a, "roles", "create")
    ensures a.UpdateRole? ==> GatedBy(s, t, a, "roles", "update")
    ensures a.DeleteRole? ==> GatedBy(s, t, a, "roles", "delete")
    ensures a.ChangePassword? ==> Requesting(s, t, a) == Handle(s, t.user, a)
  {
    Spelling();
    match a {
      case CreateUser(_, _, _, _, _, _) => Gated(s, t, a, "users", "create");
      case UpdateUser(_, _, _, _, _) => Gated(s, t, a, "users", "update");
      case RevokeSessions(_) => Gated(s, t, a, "users", "update");
      case SetActive(_, on) => Gated(s, t, a, "users", if on then "update" else "disable");
      case DeleteUser(_, _) => Gated(s, t, a, "users", "delete");
      case ResetPassword(_, _, _) => Gated(s, t, a, "users", "reset_password");
      case CreateRole(_, _, _, _, _) => Gated(s, t, a, "roles", "create");
      case UpdateRole(_, _, _, _) => Gated(s, t, a, "roles", "update");
      case DeleteRole(_) => Gated(s, t, a, "roles", "delete");
      case ChangePassword(_, _, _) =>
    }
  }

  // ---------------------------------------------------------------- the last administrator

  /** For an active administrator the guard refuses exactly the change after which there is no active one. */
  lemma {:induction false} GuardRefusesExactlyTheLast(s: State, u: Id, user: User)
    requires u in s.users && IsActiveAdmin(s.users[u])
    ensures GuardsLastAdmin(s, s.users[u], user.role, user.active) <==> ActiveAdmins(Put(s, u, user)) == {}
  {
    var after := ActiveAdmins(Put(s, u, user));
    assert u in ActiveAdmins(s);
    if GuardsLastAdmin(s, s.users[u], user.role, user.active) {
      AloneIsAll(ActiveAdmins(s), u);
      assert forall w | w in after && w != u :: w in ActiveAdmins(s);
    } else {
      var v := GuardKeepsAdmin(s, u, user.role, user.active);
      assert v in after;
    }
  }

  lemma {:induction false} AloneIsAll(ids: set<Id>, u: Id)
    requires u in ids && |ids| <= 1
    ensures ids == {u}
  {
    assert |ids - {u}| == 0;
  }

  /** The change leaves the account an active administrator, or it is none to begin with, or there are two. */
  ghost predicate AdminLeft(s: State, u: Id, newRole: string, newActive: bool)
    requires u in s.users
  {
    s.users[u].role == "ADMIN" && !(newRole == "ADMIN" && newActive) ==>
      exists v, w | v in s.users && w in s.users && v != w :: IsActiveAdmin(s.users[v]) && IsActiveAdmin(s.users[w])
  }

  lemma {:induction false} GuardCountsTwo(s: State, u: Id, newRole: string, newActive: bool)
    requires u in s.users
    ensures GuardsLastAdmin(s, s.users[u], newRole, newActive) <==> !AdminLeft(s, u, newRole, newActive)
  {
    var admins := ActiveAdmins(s);
    if v, w :| v in s.users && w in s.users && v != w && IsActiveAdmin(s.users[v]) && IsActiveAdmin(s.users[w]) {
      assert v in admins && w in admins;
      if |admins| <= 1 {
        AloneIsAll(admins, v);
      }
    }
    if |admins| > 1 {
      var v :| v in admins;
      var w := AnotherAdmin(s, v);
      assert IsActiveAdmin(s.users[v]) && IsActiveAdmin(s.users[w]);
    }
  }

  // ---------------------------------------------------------------- what changes

  /** One account is added, under an id never used before. */
  ghost predicate AddsRow(s: State, t: State, user: User) {
    && t.users.Keys == s.users.Keys + {s.nextId} && t.users[s.nextId] == user
    && (forall u | u in s.users && u != s.nextId :: t.users[u] == s.users[u])
    && t.nextId == s.nextId + 1 && t.roles == s.roles && t.permissions == s.permissions
  }

  /** The row of one account becomes `user`; everything else stays. */
  ghost predicate ChangesRow(s: State, t: State, u: Id, user: User) {
    && u in s.users && t.users.Keys == s.users.Keys && t.users[u] == user
    && (forall v | v in s.users && v != u :: t.users[v] == s.users[v])
    && t.nextId == s.nextId && t.roles == s.roles && t.permissions == s.permissions
  }

  ghost predicate RemovesRow(s: State, t: State, u: Id) {
    && t.users.Keys == s.users.Keys - {u} && (forall v | v in t.users :: t.users[v] == s.users[v])
    && t.nextId == s.nextId && t.roles == s.roles && t.permissions == s.permissions
  }

  /** The role `id` becomes one with these texts and permissions; everything else stays. */
  ghost predicate SetsRole(s: State, t: State, id: string, name: string, description: string, isSystem: bool,
        ids: seq<string>) {
    && GrantsExactly(s, t, id, ids) && t.nextId == s.nextId
    && t.roles[id].name == Trim(name) && t.roles[id].description == Trim(description)
    && t.roles[id].isSystem == isSystem
  }

  function Given<T>(given: Option<T>, otherwise: T): T {
    if given.Some? then given.value else otherwise
  }

  ghost predicate NobodyElseHas(s: State, u: Id, email: string) {
    forall v | v in s.users && v != u :: s.users[v].email != email
  }

  /** What a request must meet, beyond the permission for it. */
  ghost predicate Fits(s: State, actor: Id, a: Action)
    requires actor in s.users
  {
    match a
    case CreateUser(email, name, password, role, _, hashed) =>
      Lower(Trim(email)) != "" && name != "" && |password| >= 6 && role in s.roles && IsFree(s, email) && hashed.Some?
    case UpdateUser(u, email, _, role, active) =>
      && u in s.users
      && (email.Some? ==> Lower(Trim(email.value)) != "" && NobodyElseHas(s, u, Lower(Trim(email.value))))
      && (role.Some? ==> role.value in s.roles && (role.value == s.users[u].role || MayDo(s, actor, "roles", "assign")))
      && AdminLeft(s, u, Given(role, s.users[u].role), Given(active, s.users[u].active))
    case DeleteUser(u, audited) => u in s.users && u != actor && !audited && AdminLeft(s, u, "", false)
    case SetActive(u, on) => u in s.users && (u == actor ==> on) && AdminLeft(s, u, s.users[u].role, on)
    case ResetPassword(u, password, hashed) => u in s.users && |password| >= 6 && hashed.Some?
    case RevokeSessions(u) => u in s.users
    case ChangePassword(password, verified, hashed) => |password| >= 6 && verified && hashed.Some?
    case CreateRole(id, slug, name, _, ids) =>
      var key := if Trim(id) == "" then slug else Upper(Trim(id));
      Trim(name) != "" && key != "" && key !in s.roles && AllKnown(s, ids)
    case UpdateRole(id, name, _, ids) => id in s.roles && Trim(name) != "" && AllKnown(s, ids)
    case DeleteRole(id) => id in s.roles && !s.roles[id].isSystem && forall u | u in s.users :: s.users[u].role != id
  }

  /** What a request leaves, by rows. Ending sessions raises a version; nothing else touches one. */
  ghost predicate Effect(s: State, actor: Id, a: Action, t: State)
    requires actor in s.users && Fits(s, actor, a)
  {
    match a
    case CreateUser(email, name, _, role, active, hashed) =>
      AddsRow(s, t, User(Lower(Trim(email)), name, hashed.value, role, Given(active, true), 1))
    case UpdateUser(u, email, name, role, active) =>
      var was := s.users[u];
      var address := if email.Some? then Lower(Trim(email.value)) else was.email;
      ChangesRow(s, t, u, User(address, Given(name, was.displayName), was.hash, Given(role, was.role),
        Given(active, was.active), was.version))
    case DeleteUser(u, _) => RemovesRow(s, t, u)
    case SetActive(u, on) =>
      var was := s.users[u];
      ChangesRow(s, t, u, User(was.email, was.displayName, was.hash, was.role, on,
        if on then was.version else was.version + 1))
    case ResetPassword(u, _, hashed) =>
      var was := s.users[u];
      ChangesRow(s, t, u, User(was.email, was.displayName, hashed.value, was.role, was.active, was.version + 1))
    case RevokeSessions(u) =>
      var was := s.users[u];
      ChangesRow(s, t, u, User(was.email, was.displayName, was.hash, was.role, was.active, was.version + 1))
    case ChangePassword(_, _, hashed) =>
      var was := s.users[actor];
      ChangesRow(s, t, actor, User(was.email, was.displayName, hashed.value, was.role, was.active, was.version + 1))
    case CreateRole(id, slug, name, description, ids) =>
      SetsRole(s, t, if Trim(id) == "" then slug else Upper(Trim(id)), name, description, false, ids)
    case UpdateRole(id, name, description, ids) => SetsRole(s, t, id, name, description, s.roles[id].isSystem, ids)
    case DeleteRole(id) => t == s.(roles := s.roles - {id})
  }

  /** The token was good, the request fitted, and the tables are what it asks for. */
  ghost predicate CarriedOut(s: State, token: Token, a: Action, t: State) {
    Accepted(s, token) && Fits(s, token.user, a) && Effect(s, token.user, a, t)
  }

  lemma {:induction false} CreateEffect(s: State, actor: Id, a: Action)
    requires actor in s.users && a.CreateUser?
    ensures Handle(s, actor, a).1.Done? <==> Fits(s, actor, a)
    ensures Fits(s, actor, a) ==> Effect(s, actor, a, Handle(s, actor, a).0)
  {
    FreeMeansNotTaken(s, a.email);
  }

  lemma {:induction false} FreeForTarget(s: State, u: Id, email: string)
    requires EmailsUnique(s)
    ensures !Taken(s, email) || Holder(s, email) == u <==> NobodyElseHas(s, u, email)
  {
    forall v | v in s.users
      ensures s.users[v].email == email <==> HasEmail(s, v, email)
    {
    }
  }

  lemma {:induction false} UpdateFits(s: State, actor: Id, a: Action)
    requires actor in s.users && a.UpdateUser? && EmailsUnique(s)
    ensures Updating(s, actor, a).1.Done? <==> Fits(s, actor, a)
  {
    if a.target in s.users {
      var was := s.users[a.target];
      GuardCountsTwo(s, a.target, Given(a.newRole, was.role), Given(a.newActive, was.active));
      AllowedExactlyWhen(s, actor, "roles", "assign");
      assert "roles" + "." + "assign" == "roles.assign";
      if a.newEmail.Some? {
        FreeForTarget(s, a.target, NormalizeEmail(a.newEmail.value));
      }
    }
  }

  lemma {:induction false} UpdateEffect(s: State, actor: Id, a: Action)
    requires actor in s.users && a.UpdateUser? && EmailsUnique(s)
    ensures Handle(s, actor, a).1.Done? <==> Fits(s, actor, a)
    ensures Fits(s, actor, a) ==> Effect(s, actor, a, Handle(s, actor, a).0)
  {
    UpdateFits(s, actor, a);
  }

  lemma {:induction false} AccountEffect(s: State, actor: Id, a: Action)
    requires actor in s.users && (a.DeleteUser? || a.SetActive?)
    ensures Handle(s, actor, a).1.Done? <==> Fits(s, actor, a)
    ensures Fits(s, actor, a) ==> Effect(s, actor, a, Handle(s, actor, a).0)
  {
    if a.target in s.users {
      GuardCountsTwo(s, a.target, if a.DeleteUser? then "" else s.users[a.target].role, a.SetActive? && a.on);
    }
  }

  lemma {:induction false} SessionEffect(s: State, actor: Id, a: Action)
    requires actor in s.users && (a.ResetPassword? || a.RevokeSessions? || a.ChangePassword?)
    ensures Handle(s, actor, a).1.Done? <==> Fits(s, actor, a)
    ensures Fits(s, actor, a) ==> Effect(s, actor, a, Handle(s, actor, a).0)
  {
  }

  lemma {:induction false} GrantedExactly(s: State, t: State, id: string, role: Role, ids: seq<string>)
    requires Granted(s, ids) == Some(role.perms) && t == s.(roles := s.roles[id := role])
    ensures GrantsExactly(s, t, id, ids)
  {
  }

  lemma {:induction false} GrantedWhenKnown(s: State, ids: seq<string>)
    ensures Granted(s, ids).Some? <==> AllKnown(s, ids)
  {
  }

  lemma {:induction false} CreateRoleEffect(s: State, actor: Id, a: Action)
    requires actor in s.users && a.CreateRole?
    ensures Handle(s, actor, a).1.Done? <==> Fits(s, actor, a)
    ensures Fits(s, actor, a) ==> Effect(s, actor, a, Handle(s, actor, a).0)
  {
    GrantedWhenKnown(s, a.ids);
    if Fits(s, actor, a) {
      var id := if Trim(a.id) == "" then a.slug else Upper(Trim(a.id));
      var t := Handle(s, actor, a).0;
      GrantedExactly(s, t, id, t.roles[id], a.ids);
    }
  }

  lemma {:induction false} UpdateRoleEffect(s: State, actor: Id, a: Action)
    requires actor in s.users && a.UpdateRole?
    ensures Handle(s, actor, a).1.Done? <==> Fits(s, actor, a)
    ensures Fits(s, actor, a) ==> Effect(s, actor, a, Handle(s, actor, a).0)
  {
    GrantedWhenKnown(s, a.ids);
    if Fits(s, actor, a) {
      var t := Handle(s, actor, a).0;
      GrantedExactly(s, t, a.id, t.roles[a.id], a.ids);
    }
  }

  lemma {:induction false} DeleteRoleEffect(s: State, actor: Id, a: Action)
    requires actor in s.users && a.DeleteRole?
    ensures Handle(s, actor, a).1.Done? <==> Fits(s, actor, a)
    ensures Fits(s, actor, a) ==> Effect(s, actor, a, Handle(s, actor, a).0)
  {
  }

  /** A request that gets as far as its handler is carried out exactly when it fits, with exactly its effect. */
  lemma {:induction false} DoneExactlyWhenFit(s: State, actor: Id, a: Action)
    requires actor in s.users && EmailsUnique(s)
    ensures Handle(s, actor, a).1.Done? <==> Fits(s, actor, a)
    ensures if Fits(s, actor, a) then Effect(s, actor, a, Handle(s, actor, a).0) else Handle(s, actor, a).0 == s
  {
    match a {
      case CreateUser(_, _, _, _, _, _) => CreateEffect(s, actor, a);
      case UpdateUser(_, _, _, _, _) => UpdateEffect(s, actor, a);
      case DeleteUser(_, _) => AccountEffect(s, actor, a);
      case SetActive(_, _) => AccountEffect(s, actor, a);
      case ResetPassword(_, _, _) => SessionEffect(s, actor, a);
      case RevokeSessions(_) => SessionEffect(s, actor, a);
      case ChangePassword(_, _, _) => SessionEffect(s, actor, a);
      case CreateRole(_, _, _, _, _) => CreateRoleEffect(s, actor, a);
      case UpdateRole(_, _, _, _) => UpdateRoleEffect(s, actor, a);
      case DeleteRole(_) => DeleteRoleEffect(s, actor, a);
    }
    RefusedChangesNothing(s, actor, a);
  }

  lemma {:induction false} RefusedChangesNothing(s: State, actor: Id, a: Action)
    requires actor in s.users
    ensures !Handle(s, actor, a).1.Done? ==> Handle(s, actor, a).0 == s
  {
    HandleAllOrNothing(s, actor, a);
  }

  // ---------------------------------------------------------------- why a request is refused

  /** The reason given is a true one. */
  ghost predicate IsReason(s: State, actor: Id, a: Action, error: Error)
    requires actor in s.users
  {
    match error
    case NotFound =>
      if a.UpdateRole? || a.DeleteRole? then a.id !in s.roles
      else !a.CreateUser? && !a.ChangePassword? && !a.CreateRole? && a.target !in s.users
    case Validation => (
      match a
      case CreateUser(email, name, password, _, _, _) => Lower(Trim(email)) == "" || name == "" || password == ""
      case UpdateUser(_, email, _, _, _) => email.Some? && Lower(Trim(email.value)) == ""
      case CreateRole(id, slug, name, _, _) => Trim(name) == "" || (Trim(id) == "" && slug == "")
      case UpdateRole(_, name, _, _) => Trim(name) == ""
      case _ => false
    )
    case WeakPassword => (a.CreateUser? || a.ResetPassword? || a.ChangePassword?) && |a.password| < 6
    case InvalidRole => (a.CreateUser? && a.role !in s.roles) ||
      (a.UpdateUser? && a.newRole.Some? && a.newRole.value !in s.roles)
    case EmailExists => (a.CreateUser? && !IsFree(s, a.email)) ||
      (a.UpdateUser? && a.newEmail.Some? && !NobodyElseHas(s, a.target, Lower(Trim(a.newEmail.value))))
    case HashError => (a.CreateUser? || a.ResetPassword? || a.ChangePassword?) && a.hashed.None?
    case Forbidden => a.UpdateUser? && a.target in s.users && a.newRole.Some? &&
      a.newRole.value != s.users[a.target].role && !MayDo(s, actor, "roles", "assign")
    case LastAdmin => (a.UpdateUser? || a.DeleteUser? || a.SetActive?) && a.target in s.users &&
      s.users[a.target].role == "ADMIN" && |ActiveAdmins(s)| <= 1
    case SelfDelete => a.DeleteUser? && a.target == actor
    case SelfDisable => a.SetActive? && a.target == actor && !a.on
    case WrongPassword => a.ChangePassword? && !a.verified
    case RoleExists => a.CreateRole? && (if Trim(a.id) == "" then a.slug else Upper(Trim(a.id))) in s.roles
    case RoleProtected => a.DeleteRole? && a.id in s.roles &&
      (s.roles[a.id].isSystem || exists u | u in s.users :: s.users[u].role == a.id)
    case UnknownPermission => (a.CreateRole? || a.UpdateRole?) && !AllKnown(s, a.ids)
    case DbError => a.DeleteUser? && a.audited
    case Unauthorized => false
  }

  lemma {:induction false} UpdateReason(s: State, actor: Id, a: Action)
    requires actor in s.users && a.UpdateUser? && EmailsUnique(s)
    ensures Handle(s, actor, a).1.Denied? ==> IsReason(s, actor, a, Handle(s, actor, a).1.error)
  {
    AllowedExactlyWhen(s, actor, "roles", "assign");
    assert "roles" + "." + "assign" == "roles.assign";
    if a.newEmail.Some? {
      FreeForTarget(s, a.target, NormalizeEmail(a.newEmail.value));
    }
  }

  lemma {:induction false} RoleReason(s: State, actor: Id, a: Action)
    requires actor in s.users && (a.CreateRole? || a.UpdateRole? || a.DeleteRole?)
    ensures Handle(s, actor, a).1.Denied? ==> IsReason(s, actor, a, Handle(s, actor, a).1.error)
  {
    if !a.DeleteRole? {
      GrantedWhenKnown(s, a.ids);
    }
    if a.CreateRole? {
      assert Trim(a.id) != "" ==> |Upper(Trim(a.id))| == |Trim(a.id)|;
    }
  }

  lemma {:induction false} AccountReason(s: State, actor: Id, a: Action)
    requires actor in s.users && !a.UpdateUser? && !a.CreateRole? && !a.UpdateRole? && !a.DeleteRole?
    ensures Handle(s, actor, a).1.Denied? ==> IsReason(s, actor, a, Handle(s, actor, a).1.error)
  {
    if a.CreateUser? {
      FreeMeansNotTaken(s, a.email);
    }
  }

  /** Every refusal by a handler names a condition that the request does fail. */
  lemma {:induction false} RefusalsTellWhy(s: State, actor: Id, a: Action)
    requires actor in s.users && EmailsUnique(s)
    ensures Handle(s, actor, a).1.Denied? ==> IsReason(s, actor, a, Handle(s, actor, a).1.error)
  {
    if a.UpdateUser? {
      UpdateReason(s, actor, a);
    } else if a.CreateRole? || a.UpdateRole? || a.DeleteRole? {
      RoleReason(s, actor, a);
    } else {
      AccountReason(s, actor, a);
    }
  }

  // ---------------------------------------------------------------- restarts

  /** One role across a restart: what it is called and what it is stay, and it gains the seeded permissions. */
  ghost predicate Gains(s: State, t: State, seed: Seed, r: string)
    requires r in t.roles
  {
    var seeded := if r in seed.roles then seed.roles[r] else {};
    if r in s.roles then t.roles[r] == Role(s.roles[r].name, s.roles[r].description, s.roles[r].isSystem,
      s.roles[r].perms + seeded)
    else t.roles[r] == Role(r, "", true, seeded)
  }

  /** A restart adds what is missing: seeded permissions and roles, and an administrator where no account exists. */
  lemma {:induction false} RestartEffect(s: State, seed: Seed, email: string, hash: string)
    ensures var t := Step(s, Restart(seed, email, hash));
      && t.permissions == s.permissions + seed.permissions
      && t.roles.Keys == s.roles.Keys + seed.roles.Keys && (forall r | r in t.roles :: Gains(s, t, seed, r))
      && (s.users != map[] ==> t.users == s.users && t.nextId == s.nextId)
      && (s.users == map[] ==> t.users == map[s.nextId := User(email, "Administrator", hash, "ADMIN", true, 1)])
  {
    var t := Step(s, Restart(seed, email, hash));
    forall r | r in t.roles
      ensures Gains(s, t, seed, r)
    {
      if r in s.roles && r !in seed.roles {
        assert s.roles[r].perms + {} == s.roles[r].perms;
      }
    }
  }
}
