/**
 * Users, department groups and the role policy: the rows, and what each
 * service operation does to the two tables.
 */
module Directory {
  import opened Wrappers
  import opened TtlStore

  type Uuid = nat

  datatype UserRole = SuperAdmin | Admin | Regular | PermissionRequested | PermissionRequired

  datatype User = User(
    email: string, employeeId: string, fullName: string,
    department: string, departmentCode: string, site: string,
    role: UserRole, isActive: bool, lastLoginAt: Time, deletedAt: Option<Time>)

  datatype UserGroup = UserGroup(code: string, name: string, whitelisted: bool, deletedAt: Option<Time>)

  /** The normalised claims of an ID token; an absent text field is the empty string. */
  datatype UserInfo = UserInfo(
    email: string, employeeId: string, fullName: string,
    department: string, departmentCode: string, site: string)

  datatype Tables = Tables(users: map<Uuid, User>, groups: map<Uuid, UserGroup>)

  /** A field of a PATCH body: left out, sent as null, or sent with a value. */
  datatype Patch<+T> = Unset | Null | Value(value: T)

  datatype Failure =
    | Invalid      // the request body fails its schema
    | NotFound
    | BadRequest
    | Forbidden
    | Conflict     // the database refuses the row

  type Outcome = Result<Uuid, Failure>

  datatype Op =
    | Login(info: UserInfo, newId: Uuid, at: Time)
    | CreateGroup(newId: Uuid, code: string, name: string, whitelist: bool)
    | UpdateGroup(group: Uuid, newName: Patch<string>, newWhitelist: Patch<bool>)
    | DeleteGroup(group: Uuid, at: Time)
    | UpdateUser(actor: Uuid, user: Uuid, newRole: Patch<UserRole>, newActive: Patch<bool>)
    | DeleteUser(user: Uuid, at: Time)
    | ApproveUser(user: Uuid)
    | RequestPermission(actor: Uuid)
    | RejectUser(user: Uuid)

  // ---------------------------------------------------------------- lookups

  /** The unique columns of both tables hold no value twice, deleted rows included,
      and no group has an empty code. */
  ghost predicate Valid(t: Tables) {
    UniqueUsers(t.users) && UniqueGroups(t.groups)
  }

  ghost predicate UniqueUsers(users: map<Uuid, User>) {
    forall u, v :: u in users && v in users && u != v ==> !SharesKey(users[u], users[v])
  }

  predicate SharesKey(u: User, v: User) {
    u.employeeId == v.employeeId || u.email == v.email
  }

  ghost predicate UniqueGroups(groups: map<Uuid, UserGroup>) {
    && (forall g, h :: g in groups && h in groups && g != h ==> groups[g].code != groups[h].code)
    && (forall g :: g in groups ==> groups[g].code != "")
  }

  /** The row with this employee id, soft-deleted rows included. */
  ghost function ByEmployee(users: map<Uuid, User>, employeeId: string): Option<Uuid> {
    if exists u :: u in users && users[u].employeeId == employeeId
    then var u :| u in users && users[u].employeeId == employeeId; Some(u)
    else None
  }

  /** Some group row, soft-deleted rows included, whitelists this department. */
  predicate Whitelisted(groups: map<Uuid, UserGroup>, code: string) {
    exists g :: g in groups && groups[g].code == code && groups[g].whitelisted
  }

  /** The row behind `crud.get`: present and not soft-deleted. */
  predicate LiveUser(t: Tables, id: Uuid) {
    id in t.users && t.users[id].deletedAt == None
  }

  predicate LiveGroup(t: Tables, id: Uuid) {
    id in t.groups && t.groups[id].deletedAt == None
  }

  predicate IsAdminRole(r: UserRole) {
    r == SuperAdmin || r == Admin
  }

  predicate NameFits(s: string) {
    1 <= |s| <= 100
  }

  // ------------------------------------------------------------- operations

  /** The department a login is checked against: its code, or its name when there is none. */
  function GroupKey(info: UserInfo): string {
    if info.departmentCode != "" then info.departmentCode else info.department
  }

  function TargetRole(groups: map<Uuid, UserGroup>, info: UserInfo): UserRole {
    var key := GroupKey(info);
    if key != "" && Whitelisted(groups, key) then Regular else PermissionRequired
  }

  function Synced(row: User, info: UserInfo, target: UserRole, at: Time): User {
    row.(fullName := info.fullName, department := info.department, departmentCode := info.departmentCode,
         site := info.site, lastLoginAt := at,
         role := if row.role == PermissionRequired && target == Regular then Regular else row.role)
  }

  function NewUser(info: UserInfo, target: UserRole, at: Time): User {
    User(info.email, info.employeeId, info.fullName, info.department, info.departmentCode, info.site,
         target, true, at, None)
  }

  ghost function SsoSyncUser(t: Tables, info: UserInfo, newId: Uuid, at: Time): (Tables, Outcome) {
    var target := TargetRole(t.groups, info);
    match ByEmployee(t.users, info.employeeId)
    case Some(id) =>
      (t.(users := t.users[id := Synced(t.users[id], info, target, at)]),
       if t.users[id].isActive then Ok(id) else Err(Forbidden))
    case None =>
      if newId in t.users || exists u :: u in t.users && t.users[u].email == info.email then (t, Err(Conflict))
      else (t.(users := t.users[newId := NewUser(info, target, at)]), Ok(newId))
  }

  predicate Selected(u: User, code: string, whitelisted: bool) {
    u.departmentCode == code &&
    if whitelisted then u.role == PermissionRequired else u.role == Regular || u.role == Admin
  }

  function SyncedMember(u: User, code: string, whitelisted: bool): User {
    if Selected(u, code, whitelisted) then u.(role := if whitelisted then Regular else PermissionRequired) else u
  }

  /** The bulk update: promote the waiting members, or demote members and admins. */
  function SyncGroupMembersRole(users: map<Uuid, User>, code: string, whitelisted: bool): map<Uuid, User> {
    map u | u in users :: SyncedMember(users[u], code, whitelisted)
  }

  function DoCreateGroup(t: Tables, newId: Uuid, code: string, name: string, whitelist: bool): (Tables, Outcome) {
    if !NameFits(code) || !NameFits(name) then (t, Err(Invalid))
    else if newId in t.groups || exists g :: g in t.groups && t.groups[g].code == code then (t, Err(Conflict))
    else
      var groups := t.groups[newId := UserGroup(code, name, whitelist, None)];
      var users := if whitelist then SyncGroupMembersRole(t.users, code, true) else t.users;
      (Tables(users, groups), Ok(newId))
  }

  function DoUpdateGroup(t: Tables, id: Uuid, name: Patch<string>, whitelist: Patch<bool>): (Tables, Outcome) {
    if name.Value? && !NameFits(name.value) then (t, Err(Invalid))
    else if !LiveGroup(t, id) then (t, Err(NotFound))
    else if name.Null? || whitelist.Null? then (t, Err(Conflict))
    else
      var row := t.groups[id];
      var updated := row.(name := if name.Value? then name.value else row.name,
                       whitelisted := if whitelist.Value? then whitelist.value else row.whitelisted);
      var users := if row.whitelisted != updated.whitelisted
                   then SyncGroupMembersRole(t.users, updated.code, updated.whitelisted) else t.users;
      (Tables(users, t.groups[id := updated]), Ok(id))
  }

  function DoDeleteGroup(t: Tables, id: Uuid, at: Time): (Tables, Outcome) {
    if !LiveGroup(t, id) then (t, Err(NotFound))
    else (t.(groups := t.groups[id := t.groups[id].(deletedAt := Some(at))]), Ok(id))
  }

  function WithUser(t: Tables, id: Uuid, u: User): Tables {
    t.(users := t.users[id := u])
  }

  function DoUpdateUser(t: Tables, actor: Uuid, id: Uuid, role: Patch<UserRole>, active: Patch<bool>)
    : (Tables, Outcome)
  {
    if !LiveUser(t, id) then (t, Err(NotFound))
    else if !role.Unset? &&
            (IsAdminRole(t.users[id].role) || (role.Value? && IsAdminRole(role.value))) &&
            !(actor in t.users && t.users[actor].role == SuperAdmin) then (t, Err(Forbidden))
    else if role.Null? || active.Null? then (t, Err(Conflict))
    else
      var row := t.users[id];
      (WithUser(t, id, row.(role := if role.Value? then role.value else row.role,
                            isActive := if active.Value? then active.value else row.isActive)), Ok(id))
  }

  function DoDeleteUser(t: Tables, id: Uuid, at: Time): (Tables, Outcome) {
    if !LiveUser(t, id) then (t, Err(NotFound))
    else (WithUser(t, id, t.users[id].(deletedAt := Some(at))), Ok(id))
  }

  function DoApproveUser(t: Tables, id: Uuid): (Tables, Outcome) {
    if !LiveUser(t, id) then (t, Err(NotFound))
    else if t.users[id].role != PermissionRequested then (t, Err(BadRequest))
    else (WithUser(t, id, t.users[id].(role := Regular, isActive := true)), Ok(id))
  }

  function DoRequestPermission(t: Tables, actor: Uuid): (Tables, Outcome) {
    if !LiveUser(t, actor) then (t, Err(NotFound))
    else if t.users[actor].role != PermissionRequired then (t, Err(BadRequest))
    else (WithUser(t, actor, t.users[actor].(role := PermissionRequested)), Ok(actor))
  }

  function DoRejectUser(t: Tables, id: Uuid): (Tables, Outcome) {
    if !LiveUser(t, id) then (t, Err(NotFound))
    else (WithUser(t, id, t.users[id].(isActive := false)), Ok(id))
  }

  ghost function Do(t: Tables, op: Op): (Tables, Outcome) {
    match op
    case Login(info, newId, at) => SsoSyncUser(t, info, newId, at)
    case CreateGroup(newId, code, name, whitelist) => DoCreateGroup(t, newId, code, name, whitelist)
    case UpdateGroup(id, name, whitelist) => DoUpdateGroup(t, id, name, whitelist)
    case DeleteGroup(id, at) => DoDeleteGroup(t, id, at)
    case UpdateUser(actor, id, role, active) => DoUpdateUser(t, actor, id, role, active)
    case DeleteUser(id, at) => DoDeleteUser(t, id, at)
    case ApproveUser(id) => DoApproveUser(t, id)
    case RequestPermission(actor) => DoRequestPermission(t, actor)
    case RejectUser(id) => DoRejectUser(t, id)
  }

  /** The tables after one operation, whether it succeeded or not. */
  ghost function After(t: Tables, op: Op): Tables {
    Do(t, op).0
  }

  ghost function AfterAll(t: Tables, ops: seq<Op>): Tables
    decreases |ops|
  {
    if ops == [] then t else AfterAll(After(t, ops[0]), ops[1..])
  }

  // ------------------------------------------------------ facts kept by every step

  /** No row is removed, no key column changes, and no deleted user is revived. */
  ghost predicate Persists(users: map<Uuid, User>, users': map<Uuid, User>) {
    forall u :: u in users ==> u in users' && SameRow(users[u], users'[u])
  }

  predicate SameRow(u: User, v: User) {
    && u.employeeId == v.employeeId && u.email == v.email
    && (u.deletedAt != None ==> v.deletedAt != None)
  }

  lemma RowReplaced(t: Tables, id: Uuid, u: User)
    requires Valid(t) && id in t.users && SameRow(t.users[id], u)
    ensures Valid(WithUser(t, id, u)) && Persists(t.users, WithUser(t, id, u).users)
  {
    forall v, w | v in t.users && w in t.users && v != w
      ensures !SharesKey(WithUser(t, id, u).users[v], WithUser(t, id, u).users[w])
    {
      assert !SharesKey(t.users[v], t.users[w]);
    }
  }

  lemma MembersSynced(users: map<Uuid, User>, code: string, whitelisted: bool)
    requires UniqueUsers(users)
    ensures var users' := SyncGroupMembersRole(users, code, whitelisted);
            UniqueUsers(users') && Persists(users, users')
  {
    var users' := SyncGroupMembersRole(users, code, whitelisted);
    forall v, w | v in users && w in users && v != w
      ensures !SharesKey(users'[v], users'[w])
    {
      assert !SharesKey(users[v], users[w]);
    }
  }

  lemma LoginPersists(t: Tables, info: UserInfo, newId: Uuid, at: Time)
    requires Valid(t)
    ensures var t' := SsoSyncUser(t, info, newId, at).0; Valid(t') && Persists(t.users, t'.users)
  {
    match ByEmployee(t.users, info.employeeId)
    case Some(id) =>
      RowReplaced(t, id, Synced(t.users[id], info, TargetRole(t.groups, info), at));
    case None =>
      var t' := SsoSyncUser(t, info, newId, at).0;
      forall v, w | v in t'.users && w in t'.users && v != w
        ensures !SharesKey(t'.users[v], t'.users[w])
      {
        assert v in t.users && w in t.users ==> !SharesKey(t.users[v], t.users[w]);
      }
  }

  lemma GroupReplaced(groups: map<Uuid, UserGroup>, id: Uuid, row: UserGroup)
    requires UniqueGroups(groups) && id in groups && row.code == groups[id].code
    ensures UniqueGroups(groups[id := row])
  {
  }

  lemma GroupAdded(groups: map<Uuid, UserGroup>, id: Uuid, row: UserGroup)
    requires UniqueGroups(groups) && row.code != "" && forall g :: g in groups ==> groups[g].code != row.code
    ensures UniqueGroups(groups[id := row])
  {
  }

  lemma GroupStepPersists(t: Tables, op: Op)
    requires Valid(t) && (op.CreateGroup? || op.UpdateGroup? || op.DeleteGroup?)
    ensures Valid(After(t, op)) && Persists(t.users, After(t, op).users)
  {
    var t' := After(t, op);
    match op
    case CreateGroup(newId, code, name, whitelist) =>
      MembersSynced(t.users, code, true);
      if t' != t {
        GroupAdded(t.groups, newId, UserGroup(code, name, whitelist, None));
      }
    case UpdateGroup(id, name, whitelist) =>
      if LiveGroup(t, id) {
        MembersSynced(t.users, t.groups[id].code, t'.groups[id].whitelisted);
        GroupReplaced(t.groups, id, t'.groups[id]);
      }
    case DeleteGroup(id, at) =>
      if LiveGroup(t, id) {
        GroupReplaced(t.groups, id, t'.groups[id]);
      }
  }

  lemma UserStepPersists(t: Tables, op: Op)
    requires Valid(t)
    requires op.UpdateUser? || op.DeleteUser? || op.ApproveUser? || op.RequestPermission? || op.RejectUser?
    ensures Valid(After(t, op)) && Persists(t.users, After(t, op).users)
  {
    var id := if op.RequestPermission? then op.actor else op.user;
    if After(t, op) != t {
      RowReplaced(t, id, After(t, op).users[id]);
      assert After(t, op) == WithUser(t, id, After(t, op).users[id]);
    }
  }

  /** Every operation keeps the unique columns unique, and keeps every row. */
  lemma RowsPersist(t: Tables, op: Op)
    requires Valid(t)
    ensures Valid(After(t, op)) && Persists(t.users, After(t, op).users)
  {
    if op.Login? {
      LoginPersists(t, op.info, op.newId, op.at);
    } else if op.CreateGroup? || op.UpdateGroup? || op.DeleteGroup? {
      GroupStepPersists(t, op);
    } else {
      UserStepPersists(t, op);
    }
  }

  /** Over any sequence of operations as well: soft deletion is terminal. */
  lemma {:induction false} RowsPersistOverRuns(t: Tables, ops: seq<Op>)
    requires Valid(t)
    ensures Valid(AfterAll(t, ops)) && Persists(t.users, AfterAll(t, ops).users)
    decreases |ops|
  {
    if ops != [] {
      RowsPersist(t, ops[0]);
      RowsPersistOverRuns(After(t, ops[0]), ops[1..]);
    }
  }
}
