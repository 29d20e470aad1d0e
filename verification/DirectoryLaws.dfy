/**
 * What the role policy promises: login-time and bulk promotion agree, they
 * commute, and administrator roles come from a super administrator only.
 */
module DirectoryLaws {
  import opened Wrappers
  import opened TtlStore
  import opened Directory

  // ------------------------------------------------ whitelist agreement

  /** Nobody waits for permission in a department whose group row is whitelisted. */
  ghost predicate Agrees(t: Tables) {
    forall u :: u in t.users ==> UserAgrees(t.users[u], t.groups)
  }

  predicate UserAgrees(u: User, groups: map<Uuid, UserGroup>) {
    u.role == PermissionRequired && u.departmentCode != "" ==> !Whitelisted(groups, u.departmentCode)
  }

  /** An administrator's explicit demotion of a member of a whitelisted department. */
  predicate DemotesWhitelisted(t: Tables, op: Op) {
    && op.UpdateUser? && op.newRole == Value(PermissionRequired) && !op.newActive.Null?
    && LiveUser(t, op.user)
    && (IsAdminRole(t.users[op.user].role) ==> op.actor in t.users && t.users[op.actor].role == SuperAdmin)
    && t.users[op.user].departmentCode != ""
    && Whitelisted(t.groups, t.users[op.user].departmentCode)
  }

  lemma LoginAgrees(t: Tables, info: UserInfo, newId: Uuid, at: Time)
    requires Valid(t) && Agrees(t)
    ensures Agrees(SsoSyncUser(t, info, newId, at).0)
  {
    var t' := SsoSyncUser(t, info, newId, at).0;
    forall u | u in t'.users ensures UserAgrees(t'.users[u], t'.groups) {
      if u in t.users {
        assert UserAgrees(t.users[u], t.groups);
      }
    }
  }

  lemma CreateGroupAgrees(t: Tables, newId: Uuid, code: string, name: string, whitelist: bool)
    requires Valid(t) && Agrees(t)
    ensures Agrees(DoCreateGroup(t, newId, code, name, whitelist).0)
  {
    var t' := DoCreateGroup(t, newId, code, name, whitelist).0;
    if t' != t {
      forall u | u in t'.users ensures UserAgrees(t'.users[u], t'.groups) {
        assert UserAgrees(t.users[u], t.groups);
        var c := t.users[u].departmentCode;
        if Whitelisted(t'.groups, c) {
          var g :| g in t'.groups && t'.groups[g].code == c && t'.groups[g].whitelisted;
          if g != newId {
            assert g in t.groups && t.groups[g].whitelisted;
            assert Whitelisted(t.groups, c);
          }
        }
      }
    }
  }

  /** After a rename or a switch, a department is whitelisted exactly as the row says. */
  lemma UpdatedGroupWhitelisted(t: Tables, id: Uuid, row: UserGroup, code: string)
    requires Valid(t) && id in t.groups && row.code == t.groups[id].code
    ensures Whitelisted(t.groups[id := row], code)
       <==> if code == row.code then row.whitelisted else Whitelisted(t.groups, code)
  {
    var groups := t.groups[id := row];
    if g :| g in groups && groups[g].code == code && groups[g].whitelisted {
      if code != row.code {
        assert g in t.groups && t.groups[g].code == code && t.groups[g].whitelisted;
      }
    }
    if code == row.code && row.whitelisted {
      assert groups[id].code == code;
    }
    if code != row.code && Whitelisted(t.groups, code) {
      var g :| g in t.groups && t.groups[g].code == code && t.groups[g].whitelisted;
      assert groups[g] == t.groups[g];
    }
  }

  lemma GroupRowWhitelisted(t: Tables, id: Uuid)
    requires Valid(t) && id in t.groups
    ensures Whitelisted(t.groups, t.groups[id].code) <==> t.groups[id].whitelisted
  {
    assert t.groups[id := t.groups[id]] == t.groups;
    UpdatedGroupWhitelisted(t, id, t.groups[id], t.groups[id].code);
  }

  lemma UpdateGroupAgrees(t: Tables, id: Uuid, name: Patch<string>, whitelist: Patch<bool>)
    requires Valid(t) && Agrees(t)
    ensures Agrees(DoUpdateGroup(t, id, name, whitelist).0)
  {
    var t' := DoUpdateGroup(t, id, name, whitelist).0;
    if LiveGroup(t, id) {
      forall u | u in t'.users ensures UserAgrees(t'.users[u], t'.groups) {
        assert UserAgrees(t.users[u], t.groups);
        GroupRowWhitelisted(t, id);
        UpdatedGroupWhitelisted(t, id, t'.groups[id], t.users[u].departmentCode);
        assert t'.groups == t.groups[id := t'.groups[id]];
      }
    }
  }

  lemma DeleteGroupAgrees(t: Tables, id: Uuid, at: Time)
    requires Valid(t) && Agrees(t)
    ensures Agrees(DoDeleteGroup(t, id, at).0)
  {
    var t' := DoDeleteGroup(t, id, at).0;
    if t' != t {
      forall u | u in t'.users ensures UserAgrees(t'.users[u], t'.groups) {
        assert UserAgrees(t.users[u], t.groups);
        UpdatedGroupWhitelisted(t, id, t'.groups[id], t.users[u].departmentCode);
        GroupRowWhitelisted(t, id);
        assert t'.groups == t.groups[id := t'.groups[id]];
      }
    }
  }

  lemma UserStepAgrees(t: Tables, op: Op)
    requires Valid(t) && Agrees(t)
    requires op.UpdateUser? || op.DeleteUser? || op.ApproveUser? || op.RequestPermission? || op.RejectUser?
    ensures Agrees(After(t, op)) <==> !DemotesWhitelisted(t, op)
  {
    var id := if op.RequestPermission? then op.actor else op.user;
    var t' := After(t, op);
    if LiveUser(t, id) {
      assert UserAgrees(t.users[id], t.groups);
      assert t' == WithUser(t, id, t'.users[id]);
      if UserAgrees(t'.users[id], t.groups) {
        assert forall u :: u in t'.users && u != id ==> UserAgrees(t.users[u], t.groups);
      }
    }
  }

  /** One step keeps the agreement exactly when it is not such a demotion. */
  lemma AgreementStep(t: Tables, op: Op)
    requires Valid(t) && Agrees(t)
    ensures Agrees(After(t, op)) <==> !DemotesWhitelisted(t, op)
  {
    match op
    case Login(info, newId, at) => LoginAgrees(t, info, newId, at);
    case CreateGroup(newId, code, name, whitelist) => CreateGroupAgrees(t, newId, code, name, whitelist);
    case UpdateGroup(id, name, whitelist) => UpdateGroupAgrees(t, id, name, whitelist);
    case DeleteGroup(id, at) => DeleteGroupAgrees(t, id, at);
    case _ => UserStepAgrees(t, op);
  }

  ghost predicate AlwaysAgrees(t: Tables, ops: seq<Op>)
    decreases |ops|
  {
    Agrees(t) && (ops == [] || AlwaysAgrees(After(t, ops[0]), ops[1..]))
  }

  ghost predicate NeverDemotes(t: Tables, ops: seq<Op>)
    decreases |ops|
  {
    ops == [] || (!DemotesWhitelisted(t, ops[0]) && NeverDemotes(After(t, ops[0]), ops[1..]))
  }

  /** The agreement holds throughout a run exactly when no step of it is such a demotion. */
  lemma {:induction false} AgreementOverRuns(t: Tables, ops: seq<Op>)
    requires Valid(t) && Agrees(t)
    ensures AlwaysAgrees(t, ops) <==> NeverDemotes(t, ops)
    decreases |ops|
  {
    if ops != [] {
      AgreementStep(t, ops[0]);
      RowsPersist(t, ops[0]);
      if Agrees(After(t, ops[0])) {
        AgreementOverRuns(After(t, ops[0]), ops[1..]);
      }
    }
  }

  // ------------------------------------------------ login commutes with whitelisting

  ghost function SwitchOn(t: Tables, group: Uuid): Tables {
    After(t, UpdateGroup(group, Unset, Value(true)))
  }

  ghost function SwitchOff(t: Tables, group: Uuid): Tables {
    After(t, UpdateGroup(group, Unset, Value(false)))
  }

  ghost function LoggedIn(t: Tables, info: UserInfo, newId: Uuid, at: Time): Tables {
    After(t, Login(info, newId, at))
  }

  /** The unique row is the one a lookup finds. */
  lemma LookupFinds(users: map<Uuid, User>, id: Uuid)
    requires UniqueUsers(users) && id in users
    ensures ByEmployee(users, users[id].employeeId) == Some(id)
  {
    assert forall v :: v in users && v != id ==> !SharesKey(users[v], users[id]);
  }

  /** A bulk update does not change which row a login finds, nor which e-mails are taken. */
  lemma LookupAfterSync(users: map<Uuid, User>, code: string, on: bool, employeeId: string, email: string)
    requires UniqueUsers(users)
    ensures var users' := SyncGroupMembersRole(users, code, on);
            && ByEmployee(users', employeeId) == ByEmployee(users, employeeId)
            && ((exists u :: u in users' && users'[u].email == email) <==>
                (exists u :: u in users && users[u].email == email))
  {
    var users' := SyncGroupMembersRole(users, code, on);
    MembersSynced(users, code, on);
    if id :| id in users && users[id].employeeId == employeeId {
      LookupFinds(users, id);
      LookupFinds(users', id);
    } else {
      assert forall id :: id in users' ==> users'[id].employeeId == users[id].employeeId;
    }
    if u :| u in users && users[u].email == email {
      assert u in users' && users'[u].email == email;
    }
    if u :| u in users' && users'[u].email == email {
      assert u in users && users[u].email == email;
    }
  }

  /**
   * When the order matters: the group is about to be switched on, the user is (or would be)
   * waiting, the department reported at login is not that group's code, and either the user
   * leaves that department at this login or belongs to it by department name only.
   */
  ghost predicate OrderMatters(t: Tables, group: Uuid, info: UserInfo, newId: Uuid) {
    LiveGroup(t, group) && !t.groups[group].whitelisted &&
    var code := t.groups[group].code;
    info.departmentCode != code &&
    match ByEmployee(t.users, info.employeeId)
    case Some(id) =>
      && t.users[id].role == PermissionRequired
      && TargetRole(t.groups, info) == PermissionRequired
      && (t.users[id].departmentCode == code || GroupKey(info) == code)
    case None =>
      && newId !in t.users && (forall u :: u in t.users ==> t.users[u].email != info.email)
      && GroupKey(info) == code
  }

  /** Switching a group on, written out. */
  lemma SwitchOnIs(t: Tables, group: Uuid)
    requires LiveGroup(t, group) && !t.groups[group].whitelisted
    ensures SwitchOn(t, group) == Tables(SyncGroupMembersRole(t.users, t.groups[group].code, true),
                                         t.groups[group := t.groups[group].(whitelisted := true)])
  {
  }

  lemma TargetAfterSwitch(t: Tables, group: Uuid, info: UserInfo)
    requires Valid(t) && LiveGroup(t, group)
    ensures TargetRole(t.groups[group := t.groups[group].(whitelisted := true)], info)
         == if GroupKey(info) == t.groups[group].code then Regular else TargetRole(t.groups, info)
  {
    UpdatedGroupWhitelisted(t, group, t.groups[group].(whitelisted := true), GroupKey(info));
    assert t.groups[group].code != "";
  }

  /** One changed row and a bulk update: the bulk update of that row, and of the rest. */
  lemma SyncAfterRow(users: map<Uuid, User>, id: Uuid, row: User, code: string)
    ensures SyncGroupMembersRole(users[id := row], code, true)
         == SyncGroupMembersRole(users, code, true)[id := SyncedMember(row, code, true)]
  {
  }

  lemma CommuteExisting(t: Tables, group: Uuid, info: UserInfo, newId: Uuid, at: Time, id: Uuid)
    requires Valid(t) && LiveGroup(t, group) && !t.groups[group].whitelisted
    requires ByEmployee(t.users, info.employeeId) == Some(id)
    ensures LoggedIn(SwitchOn(t, group), info, newId, at) == SwitchOn(LoggedIn(t, info, newId, at), group)
       <==> !OrderMatters(t, group, info, newId)
  {
    var code := t.groups[group].code;
    var synced := SyncGroupMembersRole(t.users, code, true);
    var switched := t.groups[group := t.groups[group].(whitelisted := true)];
    var row := Synced(t.users[id], info, TargetRole(t.groups, info), at);
    var row' := Synced(SyncedMember(t.users[id], code, true), info, TargetRole(switched, info), at);
    SwitchOnIs(t, group);
    LookupAfterSync(t.users, code, true, info.employeeId, info.email);
    assert LoggedIn(SwitchOn(t, group), info, newId, at) == Tables(synced[id := row'], switched);
    assert LoggedIn(t, info, newId, at) == Tables(t.users[id := row], t.groups);
    SwitchOnIs(Tables(t.users[id := row], t.groups), group);
    SyncAfterRow(t.users, id, row, code);
    assert SwitchOn(LoggedIn(t, info, newId, at), group) ==
        Tables(synced[id := SyncedMember(row, code, true)], switched);
    TargetAfterSwitch(t, group, info);
    assert row' == SyncedMember(row, code, true) <==> !OrderMatters(t, group, info, newId);
    assert synced[id := row'][id] == row' && synced[id := SyncedMember(row, code, true)][id] ==
        SyncedMember(row, code, true);
  }

  lemma CommuteNew(t: Tables, group: Uuid, info: UserInfo, newId: Uuid, at: Time)
    requires Valid(t) && LiveGroup(t, group) && !t.groups[group].whitelisted
    requires ByEmployee(t.users, info.employeeId) == None
    requires newId !in t.users && forall u :: u in t.users ==> t.users[u].email != info.email
    ensures LoggedIn(SwitchOn(t, group), info, newId, at) == SwitchOn(LoggedIn(t, info, newId, at), group)
       <==> !OrderMatters(t, group, info, newId)
  {
    var code := t.groups[group].code;
    var synced := SyncGroupMembersRole(t.users, code, true);
    var switched := t.groups[group := t.groups[group].(whitelisted := true)];
    var row := NewUser(info, TargetRole(t.groups, info), at);
    var row' := NewUser(info, TargetRole(switched, info), at);
    SwitchOnIs(t, group);
    LookupAfterSync(t.users, code, true, info.employeeId, info.email);
    assert LoggedIn(SwitchOn(t, group), info, newId, at) == Tables(synced[newId := row'], switched);
    assert LoggedIn(t, info, newId, at) == Tables(t.users[newId := row], t.groups);
    SwitchOnIs(Tables(t.users[newId := row], t.groups), group);
    SyncAfterRow(t.users, newId, row, code);
    assert SwitchOn(LoggedIn(t, info, newId, at), group) ==
        Tables(synced[newId := SyncedMember(row, code, true)], switched);
    TargetAfterSwitch(t, group, info);
    GroupRowWhitelisted(t, group);
    assert row' == SyncedMember(row, code, true) <==> !OrderMatters(t, group, info, newId);
    assert synced[newId := row'][newId] == row' && synced[newId := SyncedMember(row, code, true)][newId] ==
        SyncedMember(row, code, true);
  }

  /** A refused registration is refused in both orders. */
  lemma CommuteRefused(t: Tables, group: Uuid, info: UserInfo, newId: Uuid, at: Time)
    requires Valid(t) && LiveGroup(t, group) && !t.groups[group].whitelisted
    requires ByEmployee(t.users, info.employeeId) == None
    requires newId in t.users || exists u :: u in t.users && t.users[u].email == info.email
    ensures LoggedIn(SwitchOn(t, group), info, newId, at) == SwitchOn(LoggedIn(t, info, newId, at), group)
  {
    SwitchOnIs(t, group);
    LookupAfterSync(t.users, t.groups[group].code, true, info.employeeId, info.email);
    assert LoggedIn(t, info, newId, at) == t;
  }

  /** Switching a group on and a login give the same tables in either order, but for `OrderMatters`. */
  lemma LoginCommutesWithSwitch(t: Tables, group: Uuid, info: UserInfo, newId: Uuid, at: Time)
    requires Valid(t)
    ensures LoggedIn(SwitchOn(t, group), info, newId, at) == SwitchOn(LoggedIn(t, info, newId, at), group)
       <==> !OrderMatters(t, group, info, newId)
  {
    if !LiveGroup(t, group) {
      assert SwitchOn(t, group) == t;
    } else if t.groups[group].whitelisted {
      assert t.groups[group := t.groups[group]] == t.groups;
      assert SwitchOn(t, group) == t;
    } else {
      match ByEmployee(t.users, info.employeeId)
      case Some(id) => CommuteExisting(t, group, info, newId, at, id);
      case None =>
        if newId in t.users || exists u :: u in t.users && t.users[u].email == info.email {
          CommuteRefused(t, group, info, newId, at);
        } else {
          CommuteNew(t, group, info, newId, at);
        }
    }
  }

  /** In particular for every login that reports the group's own department code. */
  lemma LoginOfMemberCommutes(t: Tables, group: Uuid, info: UserInfo, newId: Uuid, at: Time)
    requires Valid(t) && group in t.groups && info.departmentCode == t.groups[group].code
    ensures LoggedIn(SwitchOn(t, group), info, newId, at) == SwitchOn(LoggedIn(t, info, newId, at), group)
  {
    LoginCommutesWithSwitch(t, group, info, newId, at);
  }

  // ------------------------------------------------ off-then-on cycles

  ghost function Cycle(t: Tables, group: Uuid): Tables {
    SwitchOn(SwitchOff(t, group), group)
  }

  function CycledUser(u: User, code: string, wasOn: bool): User {
    if u.departmentCode != code then u
    else if u.role == PermissionRequired || (wasOn && (u.role == Regular || u.role == Admin))
    then u.(role := Regular)
    else u
  }

  /** One cycle, row by row: only this department, and administrators only if it was whitelisted. */
  lemma CycleEffect(t: Tables, group: Uuid)
    requires Valid(t) && LiveGroup(t, group)
    ensures Cycle(t, group).groups == t.groups[group := t.groups[group].(whitelisted := true)]
    ensures Cycle(t, group).users
         == map u | u in t.users :: CycledUser(t.users[u], t.groups[group].code, t.groups[group].whitelisted)
  {
    var row := t.groups[group];
    var off := SwitchOff(t, group);
    assert off == Tables(if row.whitelisted then SyncGroupMembersRole(t.users, row.code, false) else t.users,
                         t.groups[group := row.(whitelisted := false)]);
    SwitchOnIs(off, group);
    assert Cycle(t, group).users == SyncGroupMembersRole(off.users, row.code, true);
  }

  /** The cycle leaves sound tables behind. */
  lemma CycleValid(t: Tables, group: Uuid)
    requires Valid(t)
    ensures Valid(Cycle(t, group))
  {
    RowsPersist(t, UpdateGroup(group, Unset, Value(false)));
    RowsPersist(SwitchOff(t, group), UpdateGroup(group, Unset, Value(true)));
  }

  lemma CycledTwice(u: User, code: string, wasOn: bool)
    ensures CycledUser(CycledUser(u, code, wasOn), code, true) == CycledUser(u, code, wasOn)
       <==> wasOn || u.departmentCode != code || u.role != Admin
  {
  }

  lemma MapsCycledTwice(users: map<Uuid, User>, code: string, wasOn: bool)
    ensures var once := map u | u in users :: CycledUser(users[u], code, wasOn);
            (map u | u in once :: CycledUser(once[u], code, true)) == once
            <==> wasOn || forall u :: u in users && users[u].departmentCode == code ==> users[u].role != Admin
  {
    var once := map u | u in users :: CycledUser(users[u], code, wasOn);
    var twice := map u | u in once :: CycledUser(once[u], code, true);
    assert twice == once <==> forall u :: u in users ==> twice[u] == once[u];
    forall u | u in users
      ensures twice[u] == once[u] <==> wasOn || users[u].departmentCode != code || users[u].role != Admin
    {
      CycledTwice(users[u], code, wasOn);
    }
  }

  /** A second cycle changes nothing more, unless the first found the department off and an administrator in it. */
  lemma CycleIdempotent(t: Tables, group: Uuid)
    requires Valid(t) && LiveGroup(t, group)
    ensures Cycle(Cycle(t, group), group) == Cycle(t, group)
       <==> t.groups[group].whitelisted
            || forall u :: u in t.users && t.users[u].departmentCode == t.groups[group].code ==>
                t.users[u].role != Admin
  {
    var code, wasOn := t.groups[group].code, t.groups[group].whitelisted;
    var once := Cycle(t, group);
    CycleEffect(t, group);
    CycleValid(t, group);
    CycleEffect(once, group);
    MapsCycledTwice(t.users, code, wasOn);
    assert Cycle(once, group).groups == once.groups;
  }
}
