/** What taking an account's authority away does to every request, over every continuation. */
module Revocation {
  import opened Wrappers
  import opened TtlStore
  import opened Directory
  import opened DirectoryLaws
  import opened Gate
  import opened Privileges
  import opened AuthModel
  import opened AuthInvariants
  import opened Provenance
  import opened Sessions
  import opened SignOn
  import opened Continuations
  import opened Logout

  /** The row, as it stands, may use the API. */
  predicate Authorised(t: Tables, user: Uuid) {
    LiveUser(t, user) && CurrentActiveUser(t.users[user]).Ok?
  }

  predicate MayCall(role: UserRole) {
    role == Regular || role == Admin || role == SuperAdmin
  }

  /** An update of the row that leaves it authorised and is not refused. */
  predicate UpdateRestores(t: Tables, actor: Uuid, user: Uuid, role: Patch<UserRole>, active: Patch<bool>)
    requires user in t.users
  {
    var u := t.users[user];
    && !role.Null? && !active.Null?
    && (role.Value? && (IsAdminRole(u.role) || IsAdminRole(role.value)) ==>
        actor in t.users && t.users[actor].role == SuperAdmin)
    && MayCall(if role.Value? then role.value else u.role)
    && (if active.Value? then active.value else u.isActive)
  }

  /** An active member who waits for permission. */
  predicate Waiting(u: User, code: string) {
    u.role == PermissionRequired && u.isActive && u.departmentCode == code
  }

  /** The administrative steps that give a live user authority. */
  ghost predicate OpRestores(t: Tables, op: Op, user: Uuid)
    requires user in t.users
  {
    var u := t.users[user];
    match op
    case UpdateUser(actor, id, role, active) => id == user && UpdateRestores(t, actor, user, role, active)
    case ApproveUser(id) => id == user && u.role == PermissionRequested
    case CreateGroup(newId, code, name, whitelist) =>
      && whitelist && NameFits(code) && NameFits(name) && Waiting(u, code)
      && newId !in t.groups && forall g :: g in t.groups ==> t.groups[g].code != code
    case UpdateGroup(g, name, whitelist) =>
      && LiveGroup(t, g) && !name.Null? && (name.Value? ==> NameFits(name.value))
      && whitelist == Value(true) && !t.groups[g].whitelisted && Waiting(u, t.groups[g].code)
    case _ => false
  }

  /** Those, and a login of the waiting user that reports a whitelisted department. */
  ghost predicate Restores(s: State, e: Event, user: Uuid)
    requires user in s.tables.users
  {
    && LiveUser(s.tables, user)
    && match e
       case Manage(op) => OpRestores(s.tables, op, user)
       case CallbackSync(tid, _) =>
         && At(s, tid) && s.threads[tid].Verified?
         && ByEmployee(s.tables.users, s.threads[tid].info.employeeId) == Some(user)
         && TargetRole(s.tables.groups, s.threads[tid].info) == Regular
         && s.tables.users[user].role == PermissionRequired && s.tables.users[user].isActive
       case _ => false
  }

  // ------------------------------------------------ exactly these steps restore

  lemma UserOpRestores(t: Tables, op: Op, user: Uuid)
    requires LiveUser(t, user) && !Authorised(t, user)
    requires op.UpdateUser? || op.DeleteUser? || op.ApproveUser? || op.RequestPermission? || op.RejectUser?
    ensures Authorised(After(t, op), user) <==> OpRestores(t, op, user)
  {
  }

  lemma GroupOpRestores(t: Tables, op: Op, user: Uuid)
    requires LiveUser(t, user) && !Authorised(t, user)
    requires op.CreateGroup? || op.UpdateGroup? || op.DeleteGroup?
    ensures Authorised(After(t, op), user) <==> OpRestores(t, op, user)
  {
  }

  lemma LoginRestores(t: Tables, info: UserInfo, newId: Uuid, at: Time, user: Uuid)
    requires LiveUser(t, user) && !Authorised(t, user)
    ensures Authorised(SsoSyncUser(t, info, newId, at).0, user)
       <==> && ByEmployee(t.users, info.employeeId) == Some(user) && TargetRole(t.groups, info) == Regular
            && t.users[user].role == PermissionRequired && t.users[user].isActive
  {
  }

  lemma DeletedNeverAuthorised(s: State, e: Event, user: Uuid)
    requires Valid(s.tables) && user in s.tables.users && !LiveUser(s.tables, user)
    ensures !Authorised(Apply(s, e).tables, user)
  {
    StepTables(s, e);
    assert SameRow(s.tables.users[user], Apply(s, e).tables.users[user]);
  }

  /** A user without authority has it after a step exactly if the step is one of these. */
  lemma RestoresExactly(s: State, e: Event, user: Uuid)
    requires Valid(s.tables) && user in s.tables.users && !Authorised(s.tables, user) && Enabled(s, e)
    ensures Authorised(Apply(s, e).tables, user) <==> Restores(s, e, user)
  {
    if !LiveUser(s.tables, user) {
      DeletedNeverAuthorised(s, e, user);
    } else if e.CallbackSync? && At(s, e.tid) && s.threads[e.tid].Verified? {
      LoginRestores(s.tables, s.threads[e.tid].info, e.newUser, s.now, user);
    } else if e.Manage? {
      if e.op.CreateGroup? || e.op.UpdateGroup? || e.op.DeleteGroup? {
        GroupOpRestores(s.tables, e.op, user);
      } else {
        UserOpRestores(s.tables, e.op, user);
      }
    } else {
      assert Apply(s, e).tables == s.tables;
    }
  }

  // ------------------------------------------------ exactly these steps revoke

  /** The administrative steps that take an authorised user's authority away. */
  ghost predicate OpRevokes(t: Tables, op: Op, user: Uuid)
    requires user in t.users
  {
    var u := t.users[user];
    match op
    case UpdateUser(actor, id, role, active) =>
      && id == user && !role.Null? && !active.Null?
      && (role.Value? && (IsAdminRole(u.role) || IsAdminRole(role.value)) ==>
            actor in t.users && t.users[actor].role == SuperAdmin)
      && (role in {Value(PermissionRequested), Value(PermissionRequired)} || active == Value(false))
    case DeleteUser(id, _) => id == user
    case RejectUser(id) => id == user
    case UpdateGroup(g, name, whitelist) =>
      && LiveGroup(t, g) && !name.Null? && (name.Value? ==> NameFits(name.value))
      && whitelist == Value(false) && t.groups[g].whitelisted
      && u.departmentCode == t.groups[g].code && u.role in {Regular, Admin}
    case _ => false
  }

  lemma UserOpRevokes(t: Tables, op: Op, user: Uuid)
    requires Authorised(t, user)
    requires op.UpdateUser? || op.DeleteUser? || op.ApproveUser? || op.RequestPermission? || op.RejectUser?
    ensures !Authorised(After(t, op), user) <==> OpRevokes(t, op, user)
  {
  }

  lemma GroupOpRevokes(t: Tables, op: Op, user: Uuid)
    requires Authorised(t, user) && (op.CreateGroup? || op.UpdateGroup? || op.DeleteGroup?)
    ensures !Authorised(After(t, op), user) <==> OpRevokes(t, op, user)
  {
  }

  /** An authorised user is so no longer after a step exactly if it is one of these. */
  lemma RevokesExactly(s: State, e: Event, user: Uuid)
    requires Authorised(s.tables, user) && Enabled(s, e)
    ensures !Authorised(Apply(s, e).tables, user) <==> e.Manage? && OpRevokes(s.tables, e.op, user)
  {
    if !e.Manage? {
      AuthorisedKept(s, e, user);
    } else if e.op.CreateGroup? || e.op.UpdateGroup? || e.op.DeleteGroup? {
      GroupOpRevokes(s.tables, e.op, user);
    } else {
      UserOpRevokes(s.tables, e.op, user);
    }
  }

  /** So from the moment of such a step no request of the user is let through, until a restoring one. */
  lemma {:induction false} RevokingStepHolds(s: State, op: Op, es: seq<Event>, e: Event, user: Uuid)
    requires Reachable(s) && Enabled(s, Manage(op)) && Authorised(s.tables, user) && OpRevokes(s.tables, op, user)
    requires var s' := Apply(s, Manage(op)); ValidRun(s', es) && NeverRestored(s', es, user)
    ensures !ActiveUserAccepted(Exec(Apply(s, Manage(op)), es), e, user)
  {
    RevokesExactly(s, Manage(op), user);
    RevocationHolds(s, op, es, e, user);
  }

  // ------------------------------------------------ revocation over runs

  ghost predicate NeverRestored(s: State, es: seq<Event>, user: Uuid)
    decreases |es|
  {
    es == [] || ((user in s.tables.users ==> !Restores(s, es[0], user)) &&
        NeverRestored(Apply(s, es[0]), es[1..], user))
  }

  lemma {:induction false} StaysRevoked(s: State, es: seq<Event>, user: Uuid)
    requires Inv(s) && ValidRun(s, es) && user in s.tables.users
    requires !Authorised(s.tables, user) && NeverRestored(s, es, user)
    ensures user in Exec(s, es).tables.users && !Authorised(Exec(s, es).tables, user)
    decreases |es|
  {
    if es != [] {
      RestoresExactly(s, es[0], user);
      StepTables(s, es[0]);
      StepKeepsInv(s, es[0]);
      StaysRevoked(Apply(s, es[0]), es[1..], user);
    }
  }

  /**
   * After an administrative step that takes a user's authority away, in any continuation without one of the
   * restoring steps no request of that user passes `get_current_active_user`, whatever step it had reached and
   * whatever role its token claims.
   */
  lemma {:induction false} RevocationHolds(s: State, op: Op, es: seq<Event>, e: Event, user: Uuid)
    requires Reachable(s) && Enabled(s, Manage(op)) && user in s.tables.users
    requires !Authorised(After(s.tables, op), user)
    requires var s' := Apply(s, Manage(op)); ValidRun(s', es) && NeverRestored(s', es, user)
    ensures !ActiveUserAccepted(Exec(Apply(s, Manage(op)), es), e, user)
  {
    var s' := Apply(s, Manage(op));
    ReachableSound(s);
    StepTables(s, Manage(op));
    StepKeepsInv(s, Manage(op));
    StaysRevoked(s', es, user);
  }

  // ------------------------------------------------ revocation of the administrator role

  /** A request of this user passes `requires_role` for these roles. */
  predicate RoleAccepted(s: State, e: Event, user: Uuid, roles: seq<UserRole>) {
    Accepts(s, e, user) && RequiresRole(s.tables.users[user], roles).Ok?
  }

  /** A super administrator gives this user the role. */
  ghost predicate Sponsors(s: State, e: Event, user: Uuid, role: UserRole) {
    e.Manage? && SuperAdminSets(s.tables, e.op, user, role)
  }

  ghost predicate NeverSponsored(s: State, es: seq<Event>, user: Uuid, role: UserRole)
    decreases |es|
  {
    es == [] || (!Sponsors(s, es[0], user, role) && NeverSponsored(Apply(s, es[0]), es[1..], user, role))
  }

  lemma RoleStep(s: State, e: Event, user: Uuid, role: UserRole)
    requires IsAdminRole(role) && !Has(s.tables, user, role) && !Sponsors(s, e, user, role)
    ensures !Has(Apply(s, e).tables, user, role)
  {
    if e.CallbackSync? && At(s, e.tid) && s.threads[e.tid].Verified? {
      PrivilegeStep(s.tables, Login(s.threads[e.tid].info, e.newUser, s.now));
    } else if e.Manage? {
      PrivilegeStep(s.tables, e.op);
    } else {
      assert Apply(s, e).tables == s.tables;
    }
  }

  /**
   * Once an administrator role is gone, no request passes a guard for that role, tokens that still claim it
   * included, until a super administrator gives it back.
   */
  lemma {:induction false} LostRoleStaysLost(s: State, es: seq<Event>, e: Event, user: Uuid, role: UserRole)
    requires IsAdminRole(role) && !Has(s.tables, user, role) && NeverSponsored(s, es, user, role)
    ensures !RoleAccepted(Exec(s, es), e, user, [role])
    decreases |es|
  {
    if es != [] {
      RoleStep(s, es[0], user, role);
      LostRoleStaysLost(Apply(s, es[0]), es[1..], e, user, role);
    }
  }

  // ------------------------------------------------ and it can always be undone for a live user

  lemma AuthorisedKept(s: State, e: Event, user: Uuid)
    requires Authorised(s.tables, user) && !e.Manage?
    ensures Authorised(Apply(s, e).tables, user)
  {
    if !e.CallbackSync? {
      assert Apply(s, e).tables == s.tables;
    }
  }

  lemma {:induction false} AuthorisedKeptOverRun(s: State, es: seq<Event>, user: Uuid)
    requires Authorised(s.tables, user) && forall e :: e in es ==> !e.Manage?
    ensures Authorised(Exec(s, es).tables, user)
    decreases |es|
  {
    if es != [] {
      assert es[0] in es;
      AuthorisedKept(s, es[0], user);
      AuthorisedKeptOverRun(Apply(s, es[0]), es[1..], user);
    }
  }

  /** An update any administrator may make: the plain role, unless the row has an administrator's, and active. */
  function RestoringOp(t: Tables, user: Uuid): Op
    requires user in t.users
  {
    UpdateUser(user, user, if MayCall(t.users[user].role) then Unset else Value(Regular), Value(true))
  }

  lemma RestoringOpRestores(t: Tables, user: Uuid)
    requires LiveUser(t, user)
    ensures Authorised(After(t, RestoringOp(t, user)), user)
  {
  }

  ghost predicate ComesBack(s: State, es: seq<Event>, q: nat, user: Uuid) {
    ValidRun(s, es) && ActiveUserAccepted(Exec(s, es), GateLoad(q), user)
  }

  lemma {:induction false} AuthorisedSignsOn(s: State, user: Uuid) returns (es: seq<Event>, q: nat)
    requires Valid(s.tables) && BlacklistIssued(s) && UsedCovers(s) && Authorised(s.tables, user)
    ensures ComesBack(s, es, q, user)
  {
    var t := FreshTrip(s, ClaimsOf(s.tables.users[user]), 0);
    NoTimeIsInTime(s, t);
    ClaimsLeadTo(s, t, user);
    Apart(s, t);
    es := SignOnAccepted(s, t, user);
    AuthorisedKeptOverRun(s, es, user);
    q := t.tid;
  }

  lemma {:induction false} RestoredSignsOn(s: State, user: Uuid) returns (es: seq<Event>, q: nat)
    requires Sound(s) && LiveUser(s.tables, user)
    ensures ComesBack(s, es, q, user)
  {
    var e := Manage(RestoringOp(s.tables, user));
    RestoringOpRestores(s.tables, user);
    SoundStep(s, e);
    var rest;
    rest, q := AuthorisedSignsOn(Apply(s, e), user);
    RunStep(s, e, rest);
    es := [e] + rest;
  }

  /** In some continuation a user passes `get_current_active_user` exactly if the row is live now. */
  lemma {:induction false} ReturnsExactly(s: State, user: Uuid)
    requires Reachable(s) && user in s.tables.users
    ensures (exists es, q :: ComesBack(s, es, q, user)) <==> LiveUser(s.tables, user)
  {
    ReachableSound(s);
    forall es, q | ComesBack(s, es, q, user) ensures LiveUser(s.tables, user) {
      LiveBefore(s, es, user);
    }
    if LiveUser(s.tables, user) {
      var es, q := RestoredSignsOn(s, user);
    }
  }
}
