/** What the operations with several columns write, column by column, and when they write nothing. */
module Writes {
  import opened Wrappers
  import opened TtlStore
  import opened Directory
  import opened DirectoryLaws

  /** Every row but this one is in both tables, unchanged. */
  ghost predicate OthersSame<V(!new)>(m: map<Uuid, V>, m': map<Uuid, V>, id: Uuid) {
    forall u :: u != id ==> (u in m' <==> u in m) && (u in m ==> m'[u] == m[u])
  }

  /** The text a login is matched against the groups by names a whitelisted one. */
  predicate InWhitelistedGroup(t: Tables, info: UserInfo) {
    var key := if info.departmentCode == "" then info.department else info.departmentCode;
    key != "" && exists g :: g in t.groups && t.groups[g].code == key && t.groups[g].whitelisted
  }

  /** The columns every login brings up to date. */
  predicate ProfileOf(row: User, info: UserInfo, at: Time) {
    && row.employeeId == info.employeeId && row.fullName == info.fullName
    && row.department == info.department && row.departmentCode == info.departmentCode && row.site == info.site
    && row.lastLoginAt == at
  }

  /** A login of a known employee: the profile is updated, the account stays what it was, but for a promotion. */
  ghost predicate KnownLoginWrites(t: Tables, info: UserInfo, at: Time, id: Uuid, t': Tables, r: Outcome)
    requires id in t.users
  {
    && id in t'.users && var was, row := t.users[id], t'.users[id];
    && ProfileOf(row, info, at) && was.employeeId == info.employeeId
    && row.email == was.email && row.isActive == was.isActive && row.deletedAt == was.deletedAt
    && row.role == (if was.role == PermissionRequired && InWhitelistedGroup(t, info) then Regular else was.role)
    && OthersSame(t.users, t'.users, id) && t'.groups == t.groups
    && r == if was.isActive then Ok(id) else Err(Forbidden)
  }

  /** A login of an unknown one: an active account under a new id, or nothing if the e-mail address is taken. */
  ghost predicate NewLoginWrites(t: Tables, info: UserInfo, newId: Uuid, at: Time, t': Tables, r: Outcome) {
    if newId in t.users || exists u :: u in t.users && t.users[u].email == info.email
    then t' == t && r == Err(Conflict)
    else
      && newId in t'.users && var row := t'.users[newId];
      && ProfileOf(row, info, at)
      && row.email == info.email && row.isActive && row.deletedAt == None
      && row.role == (if InWhitelistedGroup(t, info) then Regular else PermissionRequired)
      && OthersSame(t.users, t'.users, newId) && t'.groups == t.groups && r == Ok(newId)
  }

  ghost predicate LoginWrites(t: Tables, info: UserInfo, newId: Uuid, at: Time, t': Tables, r: Outcome) {
    && (forall u :: u in t.users && t.users[u].employeeId == info.employeeId ==>
          KnownLoginWrites(t, info, at, u, t', r))
    && ((forall u :: u in t.users ==> t.users[u].employeeId != info.employeeId) ==>
          NewLoginWrites(t, info, newId, at, t', r))
  }

  lemma LoginWritesColumns(t: Tables, info: UserInfo, newId: Uuid, at: Time)
    requires Valid(t)
    ensures var (t', r) := SsoSyncUser(t, info, newId, at); LoginWrites(t, info, newId, at, t', r)
  {
    forall u | u in t.users && t.users[u].employeeId == info.employeeId
      ensures ByEmployee(t.users, info.employeeId) == Some(u)
    {
      LookupFinds(t.users, u);
    }
  }

  // ------------------------------------------------ update_user

  /** An administrator role is at stake, and the actor is no super administrator. */
  predicate RoleRefused(t: Tables, actor: Uuid, id: Uuid, role: Patch<UserRole>)
    requires id in t.users
  {
    && !role.Unset?
    && (t.users[id].role in {Admin, SuperAdmin} || role in {Value(Admin), Value(SuperAdmin)})
    && !(actor in t.users && t.users[actor].role == SuperAdmin)
  }

  /** An update writes the columns it was sent on a live row and no other, or nothing. */
  ghost predicate UpdateWrites(
    t: Tables, actor: Uuid, id: Uuid, role: Patch<UserRole>, active: Patch<bool>, t': Tables, r: Outcome)
  {
    if !(id in t.users && t.users[id].deletedAt == None) then t' == t && r == Err(NotFound)
    else if RoleRefused(t, actor, id, role) then t' == t && r == Err(Forbidden)
    else if role.Null? || active.Null? then t' == t && r == Err(Conflict)
    else
      && id in t'.users && var was, row := t.users[id], t'.users[id];
      && (role.Value? ==> row.role == role.value) && (role.Unset? ==> row.role == was.role)
      && (active.Value? ==> row.isActive == active.value) && (active.Unset? ==> row.isActive == was.isActive)
      && row == was.(role := row.role, isActive := row.isActive)
      && OthersSame(t.users, t'.users, id) && t'.groups == t.groups && r == Ok(id)
  }

  lemma UpdateWritesColumns(t: Tables, actor: Uuid, id: Uuid, role: Patch<UserRole>, active: Patch<bool>)
    ensures var (t', r) := DoUpdateUser(t, actor, id, role, active); UpdateWrites(t, actor, id, role, active, t', r)
  {
  }

  // ------------------------------------------------ groups

  /** A bulk update moves the roles of one department's members only, and nothing but roles. */
  ghost predicate MembersMoved(users: map<Uuid, User>, users': map<Uuid, User>, code: string, on: bool) {
    && users'.Keys == users.Keys
    && forall u :: u in users ==>
         && users'[u] == users[u].(role := users'[u].role)
         && users'[u].role ==
            if users[u].departmentCode != code then users[u].role
            else if on && users[u].role == PermissionRequired then Regular
            else if !on && users[u].role in {Regular, Admin} then PermissionRequired
            else users[u].role
  }

  lemma MembersMovedBySync(users: map<Uuid, User>, code: string, on: bool)
    ensures MembersMoved(users, SyncGroupMembersRole(users, code, on), code, on)
  {
  }

  predicate Fits(s: string) {
    1 <= |s| <= 100
  }

  /** A group is created with what was sent and its waiting members promoted, or nothing happens. */
  ghost predicate CreateWrites(
    t: Tables, newId: Uuid, code: string, name: string, whitelist: bool, t': Tables, r: Outcome)
  {
    if !Fits(code) || !Fits(name) then t' == t && r == Err(Invalid)
    else if newId in t.groups || exists g :: g in t.groups && t.groups[g].code == code
    then t' == t && r == Err(Conflict)
    else
      && newId in t'.groups && var row := t'.groups[newId];
      && row.code == code && row.name == name && row.whitelisted == whitelist && row.deletedAt == None
      && OthersSame(t.groups, t'.groups, newId) && r == Ok(newId)
      && if whitelist then MembersMoved(t.users, t'.users, code, true) else t'.users == t.users
  }

  lemma CreateWritesColumns(t: Tables, newId: Uuid, code: string, name: string, whitelist: bool)
    ensures var (t', r) := DoCreateGroup(t, newId, code, name, whitelist);
            CreateWrites(t, newId, code, name, whitelist, t', r)
  {
  }

  /** A group update writes the name and the switch it was sent, its code stays, and members move with the switch. */
  ghost predicate GroupWrites(
    t: Tables, id: Uuid, name: Patch<string>, whitelist: Patch<bool>, t': Tables, r: Outcome)
  {
    if name.Value? && !Fits(name.value) then t' == t && r == Err(Invalid)
    else if !(id in t.groups && t.groups[id].deletedAt == None) then t' == t && r == Err(NotFound)
    else if name.Null? || whitelist.Null? then t' == t && r == Err(Conflict)
    else
      && id in t'.groups && var was, row := t.groups[id], t'.groups[id];
      && row.code == was.code && row.deletedAt == was.deletedAt
      && (name.Value? ==> row.name == name.value) && (name.Unset? ==> row.name == was.name)
      && (whitelist.Value? ==> row.whitelisted == whitelist.value)
      && (whitelist.Unset? ==> row.whitelisted == was.whitelisted)
      && OthersSame(t.groups, t'.groups, id) && r == Ok(id)
      && if row.whitelisted != was.whitelisted then MembersMoved(t.users, t'.users, row.code, row.whitelisted)
         else t'.users == t.users
  }

  lemma GroupWritesColumns(t: Tables, id: Uuid, name: Patch<string>, whitelist: Patch<bool>)
    ensures var (t', r) := DoUpdateGroup(t, id, name, whitelist); GroupWrites(t, id, name, whitelist, t', r)
  {
  }
}
