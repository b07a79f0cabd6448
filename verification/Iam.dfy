/** Users, roles and sessions: what every request, login and restart does to the tables. */
module Iam {
  import opened Wrappers
  import opened Permissions

  type Id = nat

  /** `version` is the token_version column. */
  datatype User = User(email: string, displayName: string, hash: string, role: string, active: bool, version: nat)

  datatype Role = Role(name: string, description: string, isSystem: bool, perms: set<string>)

  /** The users, roles, role_permissions and permissions tables. User ids are never handed out twice. */
  datatype State = State(users: map<Id, User>, roles: map<string, Role>, permissions: set<string>, nextId: Id)

  datatype Token = Token(user: Id, version: nat)

  datatype Error =
    | Unauthorized | Forbidden | NotFound | Validation | WeakPassword | InvalidRole | EmailExists | HashError
    | LastAdmin
    | SelfDelete | SelfDisable | WrongPassword | RoleExists | RoleProtected | UnknownPermission | DbError

  datatype Reply = Done | Issued(token: Token) | Denied(error: Error)

  const ADMIN := "ADMIN"

  const SYSTEM_ROLES := {"ADMIN", "OPERATOR", "DEVELOPER", "VIEWER"}

  // ---------------------------------------------------------------- text

  /** Unicode white space, as strings.TrimSpace knows it. */
  predicate IsSpace(c: char) {
    '\t' <= c <= '\r' || c == ' ' || c == '\U{0085}' || c == '\U{00A0}' || c == '\U{1680}' ||
      '\U{2000}' <= c <= '\U{200A}'
    || c == '\U{2028}' || c == '\U{2029}' || c == '\U{202F}' || c == '\U{205F}' || c == '\U{3000}'
  }

  function TrimLeft(s: string): string {
    if s != [] && IsSpace(s[0]) then TrimLeft(s[1..]) else s
  }

  function TrimRight(s: string): string {
    if s != [] && IsSpace(s[|s| - 1]) then TrimRight(s[..|s| - 1]) else s
  }

  function Trim(s: string): string {
    TrimRight(TrimLeft(s))
  }

  function Lower(s: string): string {
    seq(|s|, i requires 0 <= i < |s| => if 'A' <= s[i] <= 'Z' then s[i] - 'A' + 'a' else s[i])
  }

  function Upper(s: string): string {
    seq(|s|, i requires 0 <= i < |s| => if 'a' <= s[i] <= 'z' then s[i] - 'a' + 'A' else s[i])
  }

  function NormalizeEmail(email: string): string {
    Lower(Trim(email))
  }

  // ---------------------------------------------------------------- queries

  predicate Accepted(s: State, t: Token) {
    t.user in s.users && s.users[t.user].active && s.users[t.user].version == t.version
  }

  predicate IsActiveAdmin(u: User) {
    u.role == ADMIN && u.active
  }

  function ActiveAdmins(s: State): set<Id> {
    set u | u in s.users && IsActiveAdmin(s.users[u])
  }

  predicate HasEmail(s: State, u: Id, email: string) {
    u in s.users && s.users[u].email == email
  }

  ghost predicate Taken(s: State, email: string) {
    exists u :: HasEmail(s, u, email)
  }

  /** The UNIQUE constraint on users.email. */
  ghost predicate EmailsUnique(s: State) {
    forall u, v | u in s.users && v in s.users && s.users[u].email == s.users[v].email :: u == v
  }

  ghost function Holder(s: State, email: string): Id
    requires Taken(s, email)
  {
    var u :| HasEmail(s, u, email);
    u
  }

  function RolePermissions(s: State, role: string): set<string> {
    if role in s.roles then s.roles[role].perms else {}
  }

  ghost predicate Allowed(s: State, u: Id, required: string)
    requires u in s.users
  {
    exists p | p in RolePermissions(s, s.users[u].role) :: Suffices(p, required)
  }

  /** Whether giving `target` this role and activity is refused for the sake of the last active administrator. */
  predicate GuardsLastAdmin(s: State, target: User, newRole: string, newActive: bool) {
    target.role == ADMIN && !(newRole == ADMIN && newActive) && |ActiveAdmins(s)| <= 1
  }

  predicate Assigned(s: State, role: string) {
    exists u | u in s.users :: s.users[u].role == role
  }

  // ---------------------------------------------------------------- statements

  function Put(s: State, u: Id, user: User): State {
    s.(users := s.users[u := user])
  }

  function AddUser(s: State, user: User): State {
    s.(users := s.users[s.nextId := user], nextId := s.nextId + 1)
  }

  function Bumped(user: User): User {
    user.(version := user.version + 1)
  }

  /** What a request for permissions comes to: the trimmed, non-empty IDs. */
  function Requested(ids: seq<string>): set<string> {
    set p | p in ids && Trim(p) != "" :: Trim(p)
  }

  /** The loop over the requested IDs inside the transaction; None where it is rolled back. */
  function Granted(s: State, ids: seq<string>): Option<set<string>> {
    if Requested(ids) <= s.permissions then Some(Requested(ids)) else None
  }

  // ---------------------------------------------------------------- requests

  /**
   * `hashed` is what hashing the password gives, None where it fails; `verified` whether the old password was right;
   * `audited` whether audit rows refer to the account, which the database then does not let go.
   */
  datatype Action =
    | CreateUser(email: string, displayName: string, password: string, role: string, active: Option<bool>,
      hashed: Option<string>)
    | UpdateUser(target: Id, newEmail: Option<string>, newName: Option<string>, newRole: Option<string>,
      newActive: Option<bool>)
    | DeleteUser(target: Id, audited: bool)
    | SetActive(target: Id, on: bool)
    | ResetPassword(target: Id, password: string, hashed: Option<string>)
    | RevokeSessions(target: Id)
    | ChangePassword(password: string, verified: bool, hashed: Option<string>)
    | CreateRole(id: string, slug: string, name: string, description: string, ids: seq<string>)
    | UpdateRole(id: string, name: string, description: string, ids: seq<string>)
    | DeleteRole(id: string)

  function Needs(a: Action): Option<string> {
    match a
    case CreateUser(_, _, _, _, _, _) => Some("users.create")
    case UpdateUser(_, _, _, _, _) => Some("users.update")
    case DeleteUser(_, _) => Some("users.delete")
    case SetActive(_, on) => Some(if on then "users.update" else "users.disable")
    case ResetPassword(_, _, _) => Some("users.reset_password")
    case RevokeSessions(_) => Some("users.update")
    case ChangePassword(_, _, _) => None
    case CreateRole(_, _, _, _, _) => Some("roles.create")
    case UpdateRole(_, _, _, _) => Some("roles.update")
    case DeleteRole(_) => Some("roles.delete")
  }

  ghost function Creating(s: State, a: Action): (State, Reply)
    requires a.CreateUser?
  {
    var email := NormalizeEmail(a.email);
    if email == "" || a.displayName == "" || a.password == "" then (s, Denied(Validation))
    else if |a.password| < 6 then (s, Denied(WeakPassword))
    else if a.role !in s.roles then (s, Denied(InvalidRole))
    else if Taken(s, email) then (s, Denied(EmailExists))
    else if a.hashed.None? then (s, Denied(HashError))
    else
      var active := if a.active.Some? then a.active.value else true;
      (AddUser(s, User(email, a.displayName, a.hashed.value, a.role, active, 1)), Done)
  }

  ghost function Updating(s: State, actor: Id, a: Action): (State, Reply)
    requires a.UpdateUser? && actor in s.users
  {
    if a.target !in s.users then (s, Denied(NotFound)) else
    var target := s.users[a.target];
    var email := if a.newEmail.Some? then NormalizeEmail(a.newEmail.value) else target.email;
    var name := if a.newName.Some? then a.newName.value else target.displayName;
    var role := if a.newRole.Some? then a.newRole.value else target.role;
    var active := if a.newActive.Some? then a.newActive.value else target.active;
    if a.newEmail.Some? && email == "" then (s, Denied(Validation))
    else if a.newEmail.Some? && Taken(s, email) && Holder(s, email) != a.target then (s, Denied(EmailExists))
    else if a.newRole.Some? && role !in s.roles then (s, Denied(InvalidRole))
    else if a.newRole.Some? && !Allowed(s, actor, "roles.assign") && role != target.role then (s, Denied(Forbidden))
    else if GuardsLastAdmin(s, target, role, active) then (s, Denied(LastAdmin))
    else (Put(s, a.target, target.(email := email, displayName := name, role := role, active := active)), Done)
  }

  function Deleting(s: State, actor: Id, u: Id, audited: bool): (State, Reply) {
    if u !in s.users then (s, Denied(NotFound))
    else if u == actor then (s, Denied(SelfDelete))
    else if GuardsLastAdmin(s, s.users[u], s.users[u].role, false) then (s, Denied(LastAdmin))
    else if audited then (s, Denied(DbError))
    else (s.(users := s.users - {u}), Done)
  }

  /** Disabling also ends the sessions; enabling does not bring them back. */
  function Switching(s: State, actor: Id, u: Id, on: bool): (State, Reply) {
    if u !in s.users then (s, Denied(NotFound))
    else if u == actor && !on then (s, Denied(SelfDisable))
    else if GuardsLastAdmin(s, s.users[u], s.users[u].role, on) then (s, Denied(LastAdmin))
    else
      var user := s.users[u].(active := on);
      (Put(s, u, if on then user else Bumped(user)), Done)
  }

  function Resetting(s: State, u: Id, password: string, hashed: Option<string>): (State, Reply) {
    if u !in s.users then (s, Denied(NotFound))
    else if |password| < 6 then (s, Denied(WeakPassword))
    else if hashed.None? then (s, Denied(HashError))
    else (Put(s, u, Bumped(s.users[u].(hash := hashed.value))), Done)
  }

  function Revoking(s: State, u: Id): (State, Reply) {
    if u !in s.users then (s, Denied(NotFound)) else (Put(s, u, Bumped(s.users[u])), Done)
  }

  function Changing(s: State, actor: Id, a: Action): (State, Reply)
    requires a.ChangePassword? && actor in s.users
  {
    if |a.password| >= 6 && !a.verified then (s, Denied(WrongPassword)) else Resetting(s, actor, a.password, a.hashed)
  }

  function CreatingRole(s: State, a: Action): (State, Reply)
    requires a.CreateRole?
  {
    var id := if Trim(a.id) == "" then a.slug else Upper(Trim(a.id));
    if Trim(a.name) == "" || id == "" then (s, Denied(Validation))
    else if id in s.roles then (s, Denied(RoleExists))
    else
      match Granted(s, a.ids)
      case Some(perms) => (s.(roles := s.roles[id := Role(Trim(a.name), Trim(a.description), false, perms)]), Done)
      case None => (s, Denied(UnknownPermission))
  }

  function UpdatingRole(s: State, a: Action): (State, Reply)
    requires a.UpdateRole?
  {
    if a.id !in s.roles then (s, Denied(NotFound))
    else if Trim(a.name) == "" then (s, Denied(Validation))
    else
      match Granted(s, a.ids)
      case Some(perms) =>
        (s.(roles := s.roles[a.id := s.roles[a.id].(name := Trim(a.name), description := Trim(a.description),
          perms := perms)]), Done)
      case None => (s, Denied(UnknownPermission))
  }

  function DeletingRole(s: State, id: string): (State, Reply) {
    if id !in s.roles then (s, Denied(NotFound))
    else if s.roles[id].isSystem || Assigned(s, id) then (s, Denied(RoleProtected))
    else (s.(roles := s.roles - {id}), Done)
  }

  ghost function Handle(s: State, actor: Id, a: Action): (State, Reply)
    requires actor in s.users
  {
    match a
    case CreateUser(_, _, _, _, _, _) => Creating(s, a)
    case UpdateUser(_, _, _, _, _) => Updating(s, actor, a)
    case DeleteUser(u, audited) => Deleting(s, actor, u, audited)
    case SetActive(u, on) => Switching(s, actor, u, on)
    case ResetPassword(u, password, hashed) => Resetting(s, u, password, hashed)
    case RevokeSessions(u) => Revoking(s, u)
    case ChangePassword(_, _, _) => Changing(s, actor, a)
    case CreateRole(_, _, _, _, _) => CreatingRole(s, a)
    case UpdateRole(_, _, _, _) => UpdatingRole(s, a)
    case DeleteRole(id) => DeletingRole(s, id)
  }

  // ---------------------------------------------------------------- events

  /** The permissions and system roles a migration inserts. */
  datatype Seed = Seed(permissions: set<string>, roles: map<string, set<string>>)

  datatype Event =
    | Request(token: Token, action: Action)
    | Login(email: string, verified: bool)
    | Provision(email: string, displayName: string, role: string, hashed: Option<string>)
    | Restart(seed: Seed, email: string, hash: string)

  function TokenFor(s: State, u: Id): Token
    requires u in s.users
  {
    Token(u, s.users[u].version)
  }

  ghost function Requesting(s: State, t: Token, a: Action): (State, Reply) {
    if !Accepted(s, t) then (s, Denied(Unauthorized))
    else if Needs(a).Some? && !Allowed(s, t.user, Needs(a).value) then (s, Denied(Forbidden))
    else Handle(s, t.user, a)
  }

  ghost function LoggingIn(s: State, email: string, verified: bool): (State, Reply) {
    var e := NormalizeEmail(email);
    if !Taken(s, e) then (s, Denied(Unauthorized))
    else
      var u := Holder(s, e);
      if !s.users[u].active || !verified then (s, Denied(Unauthorized)) else (s, Issued(TokenFor(s, u)))
  }

  /** A login through the identity provider; an unknown address gets an account. */
  ghost function Provisioning(s: State, email: string, displayName: string, role: string,
        hashed: Option<string>): (State, Reply) {
    var e := NormalizeEmail(email);
    if Taken(s, e) then
      var u := Holder(s, e);
      if s.users[u].active then (s, Issued(TokenFor(s, u))) else (s, Denied(Forbidden))
    else if hashed.None? then (s, Denied(Forbidden))
    else
      var added := AddUser(s, User(e, displayName, hashed.value, role, true, 1));
      (added, Issued(TokenFor(added, s.nextId)))
  }

  /** Migrations run at every start and insert what is missing. */
  function Migrated(s: State, seed: Seed): State {
    s.(permissions := s.permissions + seed.permissions,
       roles := map r | r in s.roles.Keys + seed.roles.Keys ::
         if r !in s.roles then Role(r, "", true, seed.roles[r])
         else if r in seed.roles then s.roles[r].(perms := s.roles[r].perms + seed.roles[r])
         else s.roles[r])
  }

  /** An administrator is added only to an empty users table. */
  function WithAdmin(s: State, email: string, hash: string): State {
    if s.users == map[] then AddUser(s, User(email, "Administrator", hash, ADMIN, true, 1)) else s
  }

  ghost function StepReply(s: State, e: Event): (State, Reply) {
    match e
    case Request(t, a) => Requesting(s, t, a)
    case Login(email, verified) => LoggingIn(s, email, verified)
    case Provision(email, name, role, hashed) => Provisioning(s, email, name, role, hashed)
    case Restart(seed, email, hash) => (WithAdmin(Migrated(s, seed), email, hash), Done)
  }

  ghost function Step(s: State, e: Event): State {
    StepReply(s, e).0
  }

  ghost function ReplyTo(s: State, e: Event): Reply {
    StepReply(s, e).1
  }
}
