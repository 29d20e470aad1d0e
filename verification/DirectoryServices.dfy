/** The user and group services over the two tables, step by step as the code runs them. */
module DirectoryServices {
  import opened Wrappers
  import opened TtlStore
  import opened Directory
  import opened DirectoryLaws
  import opened Gate
  import opened Privileges
  import opened Policies
  import opened Writes

  /** The database session: both tables, unique columns enforced. */
  class Database {
    var users: map<Uuid, User>
    var groups: map<Uuid, UserGroup>

    ghost function Snapshot(): Tables
      reads this
    {
      Tables(users, groups)
    }

    /** No unique column holds a value twice. */
    ghost predicate Valid()
      reads this
    {
      Directory.Valid(Snapshot())
    }

    constructor (t: Tables)
      requires Directory.Valid(t)
      ensures Valid() && Snapshot() == t
    {
      users, groups := t.users, t.groups;
    }

    /** `crud.get`: soft-deleted rows are left out. */
    method GetUser(id: Uuid) returns (r: Option<User>)
      ensures r == if LiveUser(Snapshot(), id) then Some(users[id]) else None
    {
      r := None;
      if id in users && users[id].deletedAt == None {
        r := Some(users[id]);
      }
    }

    method GetGroup(id: Uuid) returns (r: Option<UserGroup>)
      ensures r == if LiveGroup(Snapshot(), id) then Some(groups[id]) else None
    {
      r := None;
      if id in groups && groups[id].deletedAt == None {
        r := Some(groups[id]);
      }
    }

    /** The login lookup: by employee id, soft-deleted rows included. */
    method SelectByEmployee(employeeId: string) returns (r: Option<Uuid>)
      requires Valid()
      ensures r == ByEmployee(users, employeeId)
    {
      if id :| id in users && users[id].employeeId == employeeId {
        r := Some(id);
        assert forall u :: u in users && u != id ==> !SharesKey(users[u], users[id]);
      } else {
        r := None;
      }
    }

    method SetUser(id: Uuid, row: User)
      modifies this`users
      ensures users == old(users)[id := row]
    {
      users := users[id := row];
    }
  }

  // ------------------------------------------------ what each single-row operation means for its callers

  lemma DeleteGroupMeans(t: Tables, id: Uuid, at: Time)
    requires Directory.Valid(t)
    ensures var (t', r) := DoDeleteGroup(t, id, at);
            && KeepsPolicies(t, Op.DeleteGroup(id, at), t')
            && (forall g :: LiveGroup(t', g) <==> g != id && LiveGroup(t, g))
            && (forall c :: Whitelisted(t'.groups, c) <==> Whitelisted(t.groups, c))
  {
    var t' := DoDeleteGroup(t, id, at).0;
    PoliciesKept(t, Op.DeleteGroup(id, at), t');
    if LiveGroup(t, id) {
      forall c ensures Whitelisted(t'.groups, c) <==> Whitelisted(t.groups, c) {
        UpdatedGroupWhitelisted(t, id, t'.groups[id], c);
        GroupRowWhitelisted(t, id);
      }
    }
  }

  lemma DeletionLasts(t: Tables, id: Uuid)
    requires Directory.Valid(t) && id in t.users && t.users[id].deletedAt != None
    ensures forall ops :: !LiveUser(AfterAll(t, ops), id)
  {
    forall ops ensures !LiveUser(AfterAll(t, ops), id) {
      RowsPersistOverRuns(t, ops);
      assert SameRow(t.users[id], AfterAll(t, ops).users[id]);
    }
  }

  lemma SameLookup(users: map<Uuid, User>, id: Uuid, row: User, x: string)
    requires UniqueUsers(users) && UniqueUsers(users[id := row]) && id in users
    requires row.employeeId == users[id].employeeId
    ensures ByEmployee(users[id := row], x) == ByEmployee(users, x)
  {
    var users' := users[id := row];
    if u :| u in users && users[u].employeeId == x {
      LookupFinds(users, u);
      LookupFinds(users', u);
    } else {
      assert forall u :: u in users' ==> users'[u].employeeId == users[u].employeeId;
    }
  }

  lemma DeleteUserMeans(t: Tables, id: Uuid, at: Time)
    requires Directory.Valid(t)
    ensures var t' := DoDeleteUser(t, id, at).0;
            && KeepsPolicies(t, Op.DeleteUser(id, at), t')
            && (id in t'.users ==> forall ops :: !LiveUser(AfterAll(t', ops), id))
            && (forall x :: ByEmployee(t'.users, x) == ByEmployee(t.users, x))
  {
    var t' := DoDeleteUser(t, id, at).0;
    PoliciesKept(t, Op.DeleteUser(id, at), t');
    if id in t'.users {
      DeletionLasts(t', id);
    }
    if LiveUser(t, id) {
      forall x ensures ByEmployee(t'.users, x) == ByEmployee(t.users, x) {
        SameLookup(t.users, id, t'.users[id], x);
      }
    }
  }

  /** An approval, and only one of a requested permission, opens the API, but no administrator's endpoint. */
  lemma ApproveUserMeans(t: Tables, id: Uuid)
    requires Directory.Valid(t)
    ensures var (t', r) := DoApproveUser(t, id);
            && KeepsPolicies(t, Op.ApproveUser(id), t')
            && (r.Ok? ==> && id in t'.users && CurrentActiveUser(t'.users[id]) == Ok(t'.users[id])
                          && RequiresRole(t'.users[id], [Admin]).Err? && DoApproveUser(t', id).1 == Err(BadRequest))
  {
    PoliciesKept(t, Op.ApproveUser(id), DoApproveUser(t, id).0);
  }

  /** A request is what an approval waits for, and cannot be made twice. */
  lemma RequestPermissionMeans(t: Tables, actor: Uuid)
    requires Directory.Valid(t)
    ensures var (t', r) := DoRequestPermission(t, actor);
            && KeepsPolicies(t, Op.RequestPermission(actor), t')
            && (r.Ok? ==> && actor in t'.users && CurrentActiveUser(t'.users[actor]) == Err(PermissionPending)
                          && DoApproveUser(t', actor).1.Ok? && DoRequestPermission(t', actor).1.Err?)
  {
    PoliciesKept(t, Op.RequestPermission(actor), DoRequestPermission(t, actor).0);
  }

  /** No login is let in under these claims. */
  ghost predicate LoginsRefused(t: Tables, employeeId: string) {
    forall info: UserInfo, newId, at :: info.employeeId == employeeId ==>
        SsoSyncUser(t, info, newId, at).1 == Err(Forbidden)
  }

  /** A rejected user keeps the role, fails the account check and every login. */
  lemma RejectUserMeans(t: Tables, id: Uuid)
    requires Directory.Valid(t)
    ensures var (t', r) := DoRejectUser(t, id);
            && KeepsPolicies(t, Op.RejectUser(id), t')
            && (r.Ok? ==> && id in t'.users && CurrentActiveUser(t'.users[id]).Err?
                          && LoginsRefused(t', t'.users[id].employeeId))
  {
    PoliciesKept(t, Op.RejectUser(id), DoRejectUser(t, id).0);
    var (t', r) := DoRejectUser(t, id);
    if r.Ok? {
      LookupFinds(t'.users, id);
    }
  }

  class UserGroupService {
    const db: Database

    constructor (db: Database)
      ensures this.db == db
    {
      this.db := db;
    }

    method CreateGroup(newId: Uuid, code: string, name: string, whitelist: bool) returns (r: Outcome)
      requires db.Valid()
      modifies db
      ensures db.Valid()
      ensures KeepsPolicies(old(db.Snapshot()), Op.CreateGroup(newId, code, name, whitelist), db.Snapshot())
      ensures CreateWrites(old(db.Snapshot()), newId, code, name, whitelist, db.Snapshot(), r)
      ensures (db.Snapshot(), r) == DoCreateGroup(old(db.Snapshot()), newId, code, name, whitelist)
    {
      CreateWritesColumns(db.Snapshot(), newId, code, name, whitelist);
      PoliciesKept(db.Snapshot(), Op.CreateGroup(newId, code, name, whitelist),
                   DoCreateGroup(db.Snapshot(), newId, code, name, whitelist).0);
      if !NameFits(code) || !NameFits(name) {
        return Err(Invalid);
      }
      if newId in db.groups || exists g :: g in db.groups && db.groups[g].code == code {
        return Err(Conflict);
      }
      db.groups := db.groups[newId := UserGroup(code, name, whitelist, None)];
      if whitelist {
        var _ := SyncGroupMembersRoles(code, true);
      }
      r := Ok(newId);
    }

    method UpdateGroup(id: Uuid, name: Patch<string>, whitelist: Patch<bool>) returns (r: Outcome)
      requires db.Valid()
      modifies db
      ensures db.Valid() && KeepsPolicies(old(db.Snapshot()), Op.UpdateGroup(id, name, whitelist), db.Snapshot())
      ensures GroupWrites(old(db.Snapshot()), id, name, whitelist, db.Snapshot(), r)
      ensures (db.Snapshot(), r) == DoUpdateGroup(old(db.Snapshot()), id, name, whitelist)
    {
      GroupWritesColumns(db.Snapshot(), id, name, whitelist);
      PoliciesKept(db.Snapshot(), Op.UpdateGroup(id, name, whitelist),
                   DoUpdateGroup(db.Snapshot(), id, name, whitelist).0);
      if name.Value? && !NameFits(name.value) {
        return Err(Invalid);
      }
      var found := db.GetGroup(id);
      if found == None {
        return Err(NotFound);
      }
      if name.Null? || whitelist.Null? {
        return Err(Conflict);
      }
      var group := found.value;
      var oldWhitelisted := group.whitelisted;
      if name.Value? {
        group := group.(name := name.value);
      }
      if whitelist.Value? {
        group := group.(whitelisted := whitelist.value);
      }
      db.groups := db.groups[id := group];
      if oldWhitelisted != group.whitelisted {
        var _ := SyncGroupMembersRoles(group.code, group.whitelisted);
      }
      r := Ok(id);
    }

    method DeleteGroup(id: Uuid, now: Time) returns (r: Outcome)
      requires db.Valid()
      modifies db
      ensures db.Valid() && KeepsPolicies(old(db.Snapshot()), Op.DeleteGroup(id, now), db.Snapshot())
      ensures r.Ok? <==> old(LiveGroup(db.Snapshot(), id))
      ensures db.users == old(db.users)
      ensures forall g :: LiveGroup(db.Snapshot(), g) <==> g != id && old(LiveGroup(db.Snapshot(), g))
      ensures forall c :: Whitelisted(db.groups, c) <==> old(Whitelisted(db.groups, c))
      ensures OthersSame(old(db.groups), db.groups, id)
      ensures r.Ok? ==> id in db.groups && db.groups[id] == old(db.groups)[id].(deletedAt := Some(now))
      ensures (db.Snapshot(), r) == DoDeleteGroup(old(db.Snapshot()), id, now)
    {
      DeleteGroupMeans(db.Snapshot(), id, now);
      var found := db.GetGroup(id);
      if found == None {
        return Err(NotFound);
      }
      db.groups := db.groups[id := found.value.(deletedAt := Some(now))];
      r := Ok(id);
    }

    /** One UPDATE statement over the members, returning how many rows it touched. */
    method SyncGroupMembersRoles(code: string, whitelisted: bool) returns (count: nat)
      modifies db`users
      ensures db.users == SyncGroupMembersRole(old(db.users), code, whitelisted)
      ensures count == |set u | u in old(db.users) && db.users[u] != old(db.users[u])|
    {
      var rows := set u | u in db.users && Selected(db.users[u], code, whitelisted);
      var role := PermissionRequired;
      if whitelisted {
        role := Regular;
      }
      var updated := map u | u in db.users :: if u in rows then db.users[u].(role := role) else db.users[u];
      db.users := updated;
      assert rows == set u | u in old(db.users) && db.users[u] != old(db.users[u]);
      count := |rows|;
    }
  }

  class UserService {
    const db: Database

    constructor (db: Database)
      ensures this.db == db
    {
      this.db := db;
    }

    method UpdateUser(actor: Uuid, id: Uuid, role: Patch<UserRole>, active: Patch<bool>) returns (r: Outcome)
      requires db.Valid()
      modifies db
      ensures db.Valid() && KeepsPolicies(old(db.Snapshot()), Op.UpdateUser(actor, id, role, active), db.Snapshot())
      ensures UpdateWrites(old(db.Snapshot()), actor, id, role, active, db.Snapshot(), r)
      ensures (db.Snapshot(), r) == DoUpdateUser(old(db.Snapshot()), actor, id, role, active)
    {
      UpdateWritesColumns(db.Snapshot(), actor, id, role, active);
      PoliciesKept(db.Snapshot(), Op.UpdateUser(actor, id, role, active),
                   DoUpdateUser(db.Snapshot(), actor, id, role, active).0);
      var refusal := CheckUpdate(actor, id, role, active);
      if refusal.Some? {
        return Err(refusal.value);
      }
      var user := db.users[id];
      if role.Value? {
        user := user.(role := role.value);
      }
      if active.Value? {
        user := user.(isActive := active.value);
      }
      db.SetUser(id, user);
      r := Ok(id);
    }

    /** The reasons an update is turned down, in the order they are found. */
    method CheckUpdate(actor: Uuid, id: Uuid, role: Patch<UserRole>, active: Patch<bool>) returns (r: Option<Failure>)
      ensures var (t', outcome) := DoUpdateUser(db.Snapshot(), actor, id, role, active);
              if r.None? then outcome.Ok? else outcome == Err(r.value) && t' == db.Snapshot()
      ensures r.None? ==> LiveUser(db.Snapshot(), id)
    {
      var found := db.GetUser(id);
      if found == None {
        return Some(NotFound);
      }
      if !role.Unset? && TouchesAdministrators(found.value, role) && !IsSuperAdmin(actor) {
        return Some(Forbidden);
      }
      r := if role.Null? || active.Null? then Some(Conflict) else None;
    }

    predicate TouchesAdministrators(user: User, role: Patch<UserRole>) {
      var isTargetAdmin := user.role == Admin || user.role == SuperAdmin;
      var isNewRoleAdmin := role == Value(Admin) || role == Value(SuperAdmin);
      isTargetAdmin || isNewRoleAdmin
    }

    predicate IsSuperAdmin(actor: Uuid)
      reads this, db
    {
      actor in db.users && db.users[actor].role == SuperAdmin
    }

    method DeleteUser(id: Uuid, now: Time) returns (r: Outcome)
      requires db.Valid()
      modifies db
      ensures db.Valid() && KeepsPolicies(old(db.Snapshot()), Op.DeleteUser(id, now), db.Snapshot())
      ensures r.Ok? <==> old(LiveUser(db.Snapshot(), id))
      ensures OthersSame(old(db.users), db.users, id) && db.groups == old(db.groups)
      ensures r.Ok? ==> db.users[id] == old(db.users)[id].(deletedAt := Some(now))
      ensures r.Err? ==> db.users == old(db.users)
      ensures id in db.users ==> forall ops :: !LiveUser(AfterAll(db.Snapshot(), ops), id)
      ensures forall x :: ByEmployee(db.users, x) == old(ByEmployee(db.users, x))
      ensures (db.Snapshot(), r) == DoDeleteUser(old(db.Snapshot()), id, now)
    {
      DeleteUserMeans(db.Snapshot(), id, now);
      var found := db.GetUser(id);
      if found == None {
        return Err(NotFound);
      }
      db.SetUser(id, found.value.(deletedAt := Some(now)));
      r := Ok(id);
    }

    method ApproveUser(id: Uuid) returns (r: Outcome)
      requires db.Valid()
      modifies db
      ensures db.Valid() && KeepsPolicies(old(db.Snapshot()), Op.ApproveUser(id), db.Snapshot())
      ensures r.Ok? <==> old(LiveUser(db.Snapshot(), id) && db.users[id].role == PermissionRequested)
      ensures r.Ok? ==> CurrentActiveUser(db.users[id]) == Ok(db.users[id]) && RequiresRole(db.users[id], [Admin]).Err?
      ensures r.Ok? ==> DoApproveUser(db.Snapshot(), id).1 == Err(BadRequest)
      ensures OthersSame(old(db.users), db.users, id)
      ensures r.Ok? ==> db.users[id] == old(db.users)[id].(role := Regular, isActive := true)
      ensures db.groups == old(db.groups) && (r.Err? ==> db.users == old(db.users))
      ensures (db.Snapshot(), r) == DoApproveUser(old(db.Snapshot()), id)
    {
      ApproveUserMeans(db.Snapshot(), id);
      var found := db.GetUser(id);
      if found == None {
        return Err(NotFound);
      }
      if found.value.role != PermissionRequested {
        return Err(BadRequest);
      }
      db.SetUser(id, found.value.(role := Regular).(isActive := true));
      r := Ok(id);
    }

    method RequestPermission(actor: Uuid) returns (r: Outcome)
      requires db.Valid()
      modifies db
      ensures db.Valid() && KeepsPolicies(old(db.Snapshot()), Op.RequestPermission(actor), db.Snapshot())
      ensures r.Ok? <==> old(LiveUser(db.Snapshot(), actor) && db.users[actor].role == PermissionRequired)
      ensures r.Ok? ==> CurrentActiveUser(db.users[actor]) == Err(PermissionPending)
      ensures r.Ok? ==> DoApproveUser(db.Snapshot(), actor).1.Ok? && DoRequestPermission(db.Snapshot(), actor).1.Err?
      ensures OthersSame(old(db.users), db.users, actor)
      ensures r.Ok? ==> db.users[actor] == old(db.users)[actor].(role := PermissionRequested)
      ensures db.groups == old(db.groups) && (r.Err? ==> db.users == old(db.users))
      ensures (db.Snapshot(), r) == DoRequestPermission(old(db.Snapshot()), actor)
    {
      RequestPermissionMeans(db.Snapshot(), actor);
      var found := db.GetUser(actor);
      if found == None {
        return Err(NotFound);
      }
      if found.value.role != PermissionRequired {
        return Err(BadRequest);
      }
      db.SetUser(actor, found.value.(role := PermissionRequested));
      r := Ok(actor);
    }

    method RejectUser(id: Uuid) returns (r: Outcome)
      requires db.Valid()
      modifies db
      ensures db.Valid() && KeepsPolicies(old(db.Snapshot()), Op.RejectUser(id), db.Snapshot())
      ensures r.Ok? <==> old(LiveUser(db.Snapshot(), id))
      ensures r.Ok? ==> CurrentActiveUser(db.users[id]).Err? && db.users[id].role == old(db.users)[id].role
      ensures r.Ok? ==> LoginsRefused(db.Snapshot(), db.users[id].employeeId)
      ensures OthersSame(old(db.users), db.users, id)
      ensures r.Ok? ==> db.users[id] == old(db.users)[id].(isActive := false)
      ensures db.groups == old(db.groups) && (r.Err? ==> db.users == old(db.users))
      ensures (db.Snapshot(), r) == DoRejectUser(old(db.Snapshot()), id)
    {
      RejectUserMeans(db.Snapshot(), id);
      var found := db.GetUser(id);
      if found == None {
        return Err(NotFound);
      }
      db.SetUser(id, found.value.(isActive := false));
      r := Ok(id);
    }
  }
}
