/** The account and role checks that follow authentication. */
module Gate {
  import opened Wrappers
  import opened Directory

  datatype Refusal =
    | PermissionNeeded      // AUTH_007
    | PermissionPending     // AUTH_008
    | Inactive
    | SuperAdminNeeded      // AUTH_010
    | AdminNeeded           // AUTH_009
    | RoleNeeded

  function CurrentActiveUser(u: User): Result<User, Refusal> {
    if u.role == PermissionRequired then Err(PermissionNeeded)
    else if u.role == PermissionRequested then Err(PermissionPending)
    else if !u.isActive then Err(Inactive)
    else Ok(u)
  }

  function RequiresRole(u: User, roles: seq<UserRole>): Result<User, Refusal> {
    match CurrentActiveUser(u)
    case Err(e) => Err(e)
    case Ok(_) =>
      if u.role in roles then Ok(u)
      else if roles == [SuperAdmin] then Err(SuperAdminNeeded)
      else if Admin in roles then Err(AdminNeeded)
      else Err(RoleNeeded)
  }
}

/** Who can become, and stop being, an administrator. */
module Privileges {
  import opened Wrappers
  import opened TtlStore
  import opened Directory
  import opened Gate

  /** A role change made by a super administrator through `update_user`. */
  ghost predicate SuperAdminSets(t: Tables, op: Op, u: Uuid, role: UserRole) {
    && op.UpdateUser? && op.user == u && op.newRole == Value(role)
    && op.actor in t.users && t.users[op.actor].role == SuperAdmin
  }

  /** The department of `u` is switched from whitelisted to not. */
  ghost predicate DepartmentDropped(t: Tables, op: Op, u: Uuid) {
    && op.UpdateGroup? && op.newWhitelist == Value(false)
    && op.group in t.groups && t.groups[op.group].whitelisted
    && u in t.users && t.users[u].departmentCode == t.groups[op.group].code
  }

  /** One row across one step. */
  ghost predicate RoleMoveAllowed(t: Tables, op: Op, u: Uuid, after: UserRole)
    requires u in t.users
  {
    var before := t.users[u].role;
    && (after != before && IsAdminRole(after) ==> SuperAdminSets(t, op, u, after))
    && (after != before && before == SuperAdmin ==> SuperAdminSets(t, op, u, after))
    && (after != before && before == Admin ==>
          SuperAdminSets(t, op, u, after) || (DepartmentDropped(t, op, u) && after == PermissionRequired))
  }

  lemma LoginRoles(t: Tables, op: Op)
    requires op.Login?
    ensures forall u :: u in t.users ==>
              u in After(t, op).users && RoleMoveAllowed(t, op, u, After(t, op).users[u].role)
    ensures forall u :: u in After(t, op).users && u !in t.users ==> !IsAdminRole(After(t, op).users[u].role)
  {
    match ByEmployee(t.users, op.info.employeeId)
    case Some(id) =>
      assert forall u :: u in t.users && u != id ==> After(t, op).users[u] == t.users[u];
      assert After(t, op).users[id] == Synced(t.users[id], op.info, TargetRole(t.groups, op.info), op.at);
    case None =>
      assert forall u :: u in t.users ==> After(t, op).users[u] == t.users[u];
  }

  lemma GroupRoles(t: Tables, op: Op)
    requires op.CreateGroup? || op.UpdateGroup? || op.DeleteGroup?
    ensures After(t, op).users.Keys == t.users.Keys
    ensures forall u :: u in t.users ==> RoleMoveAllowed(t, op, u, After(t, op).users[u].role)
  {
  }

  lemma UserRoles(t: Tables, op: Op)
    requires op.UpdateUser? || op.DeleteUser? || op.ApproveUser? || op.RequestPermission? || op.RejectUser?
    ensures After(t, op).users.Keys == t.users.Keys
    ensures forall u :: u in t.users ==> RoleMoveAllowed(t, op, u, After(t, op).users[u].role)
  {
    var id := if op.RequestPermission? then op.actor else op.user;
    if After(t, op) != t {
      assert After(t, op) == WithUser(t, id, After(t, op).users[id]);
    }
  }

  /** Every role change in or out of the administrator roles has one of the allowed causes. */
  lemma PrivilegeStep(t: Tables, op: Op)
    ensures forall u :: u in t.users ==>
              u in After(t, op).users && RoleMoveAllowed(t, op, u, After(t, op).users[u].role)
    ensures forall u :: u in After(t, op).users && u !in t.users ==> !IsAdminRole(After(t, op).users[u].role)
  {
    if op.Login? {
      LoginRoles(t, op);
    } else if op.CreateGroup? || op.UpdateGroup? || op.DeleteGroup? {
      GroupRoles(t, op);
    } else {
      UserRoles(t, op);
    }
  }

  ghost predicate Has(t: Tables, u: Uuid, role: UserRole) {
    u in t.users && t.users[u].role == role
  }

  /** The first operation, then the first `i` of the rest. */
  lemma PrefixShift(t: Tables, ops: seq<Op>, i: nat)
    requires ops != [] && i < |ops|
    ensures AfterAll(t, ops[..i + 1]) == AfterAll(After(t, ops[0]), ops[1..][..i])
  {
    assert ops[..i + 1][1..] == ops[1..][..i];
  }

  /** An administrator role found after a run and not before it was given by a super administrator of that moment. */
  lemma {:induction false} EveryPromotionHasSponsor(t: Tables, ops: seq<Op>, u: Uuid, role: UserRole) returns (i: nat)
    requires IsAdminRole(role) && !Has(t, u, role) && Has(AfterAll(t, ops), u, role)
    ensures i < |ops| && SuperAdminSets(AfterAll(t, ops[..i]), ops[i], u, role)
    decreases |ops|
  {
    PrivilegeStep(t, ops[0]);
    if Has(After(t, ops[0]), u, role) {
      i := 0;
      assert AfterAll(t, ops[..0]) == t;
    } else {
      var j := EveryPromotionHasSponsor(After(t, ops[0]), ops[1..], u, role);
      i := j + 1;
      PrefixShift(t, ops, j);
    }
  }

  /** A super administrator found before a run and not after it was changed by a super administrator of that moment. */
  lemma {:induction false} EverySuperAdminLossHasSponsor(t: Tables, ops: seq<Op>, u: Uuid)
    returns (i: nat, role: UserRole)
    requires Has(t, u, SuperAdmin) && !Has(AfterAll(t, ops), u, SuperAdmin)
    ensures i < |ops| && SuperAdminSets(AfterAll(t, ops[..i]), ops[i], u, role) && role != SuperAdmin
    decreases |ops|
  {
    PrivilegeStep(t, ops[0]);
    if !Has(After(t, ops[0]), u, SuperAdmin) {
      i, role := 0, After(t, ops[0]).users[u].role;
      assert AfterAll(t, ops[..0]) == t;
    } else {
      var j, r := EverySuperAdminLossHasSponsor(After(t, ops[0]), ops[1..], u);
      i, role := j + 1, r;
      PrefixShift(t, ops, j);
    }
  }

  /** An administrator found before a run and not after it was changed so, or lost the department's whitelisting. */
  lemma {:induction false} EveryAdminLossHasCause(t: Tables, ops: seq<Op>, u: Uuid) returns (i: nat, role: UserRole)
    requires Has(t, u, Admin) && !Has(AfterAll(t, ops), u, Admin)
    ensures i < |ops| && role != Admin
    ensures || SuperAdminSets(AfterAll(t, ops[..i]), ops[i], u, role)
            || (DepartmentDropped(AfterAll(t, ops[..i]), ops[i], u) && role == PermissionRequired)
    decreases |ops|
  {
    PrivilegeStep(t, ops[0]);
    if !Has(After(t, ops[0]), u, Admin) {
      i, role := 0, After(t, ops[0]).users[u].role;
      assert AfterAll(t, ops[..0]) == t;
    } else {
      var j, r := EveryAdminLossHasCause(After(t, ops[0]), ops[1..], u);
      i, role := j + 1, r;
      PrefixShift(t, ops, j);
    }
  }

  /** Without a super administrator to start from, no run ever makes one, nor a new administrator. */
  lemma {:induction false} NoSuperAdminFromNothing(t: Tables, ops: seq<Op>)
    requires forall u :: !Has(t, u, SuperAdmin)
    ensures forall u :: !Has(AfterAll(t, ops), u, SuperAdmin)
    ensures forall u :: Has(AfterAll(t, ops), u, Admin) ==> Has(t, u, Admin)
    decreases |ops|
  {
    if ops != [] {
      PrivilegeStep(t, ops[0]);
      forall u ensures !Has(After(t, ops[0]), u, SuperAdmin) {
        if ops[0].UpdateUser? {
          assert !Has(t, ops[0].actor, SuperAdmin);
        }
        assert !Has(t, u, SuperAdmin);
      }
      assert ops[0].UpdateUser? ==> !Has(t, ops[0].actor, SuperAdmin);
      NoSuperAdminFromNothing(After(t, ops[0]), ops[1..]);
    }
  }

  // ------------------------------------------------ the same operations behind their HTTP guards

  /** The guard each endpoint puts in front of its operation; a login arrives through the callback and has none. */
  predicate GuardPasses(t: Tables, caller: Uuid, op: Op) {
    op.Login? ||
    (LiveUser(t, caller) &&
     if op.RequestPermission?
     then op.actor == caller && CurrentActiveUser(t.users[caller]).Ok?
     else RequiresRole(t.users[caller], [Admin]).Ok? && (op.UpdateUser? ==> op.actor == caller))
  }

  datatype Request = Request(caller: Uuid, op: Op)

  ghost function Served(t: Tables, r: Request): Tables {
    if GuardPasses(t, r.caller, r.op) then After(t, r.op) else t
  }

  ghost function ServedAll(t: Tables, rs: seq<Request>): Tables
    decreases |rs|
  {
    if rs == [] then t else ServedAll(Served(t, rs[0]), rs[1..])
  }

  /**
   * Behind the guards the operations of an administrator are served for a live, active row with the role ADMIN and
   * for nobody else, not even a super administrator; a role update runs under the caller's own name.
   */
  lemma AdministratorsAloneManage(t: Tables, r: Request)
    requires !r.op.Login? && !r.op.RequestPermission?
    ensures && r.caller in t.users
            && t.users[r.caller].role == Admin && t.users[r.caller].isActive && t.users[r.caller].deletedAt == None
            && (r.op.UpdateUser? ==> r.op.actor == r.caller)
            ==> Served(t, r) == After(t, r.op)
    ensures Served(t, r) != t ==>
              && r.caller in t.users
              && t.users[r.caller].role == Admin && t.users[r.caller].isActive && t.users[r.caller].deletedAt == None
              && (r.op.UpdateUser? ==> r.op.actor == r.caller)
  {
  }

  /**
   * Over HTTP the administrator roles are frozen but for de-whitelisting: the guard of the role endpoint
   * turns super administrators away, and they are the only ones the service would let through.
   */
  lemma {:induction false} AdminRolesFrozenOverHttp(t: Tables, rs: seq<Request>)
    ensures forall u :: Has(ServedAll(t, rs), u, SuperAdmin) <==> Has(t, u, SuperAdmin)
    ensures forall u :: Has(ServedAll(t, rs), u, Admin) ==> Has(t, u, Admin)
    decreases |rs|
  {
    if rs != [] {
      PrivilegeStep(t, rs[0].op);
      assert GuardPasses(t, rs[0].caller, rs[0].op) && rs[0].op.UpdateUser? ==> Has(t, rs[0].op.actor, Admin);
      AdminRolesFrozenOverHttp(Served(t, rs[0]), rs[1..]);
    }
  }

  /** The request-permission endpoint never changes anything: its guard refuses the one role it serves. */
  lemma RequestPermissionUnreachable(t: Tables, r: Request)
    requires r.op.RequestPermission?
    ensures Served(t, r) == t
  {
  }
}

/** The policies every operation keeps, together. */
module Policies {
  import opened Wrappers
  import opened TtlStore
  import opened Directory
  import opened DirectoryLaws
  import opened Privileges

  /**
   * Unique keys, rows and soft deletions last; nobody comes to wait in a whitelisted department but by an explicit
   * demotion; administrator roles move for an allowed cause only.
   */
  ghost predicate KeepsPolicies(t: Tables, op: Op, t': Tables) {
    && Valid(t') && Persists(t.users, t'.users)
    && (Agrees(t) ==> (Agrees(t') <==> !DemotesWhitelisted(t, op)))
    && (forall u :: u in t.users ==> RoleMoveAllowed(t, op, u, t'.users[u].role))
    && (forall u :: u in t'.users && u !in t.users ==> !IsAdminRole(t'.users[u].role))
  }

  lemma PoliciesKept(t: Tables, op: Op, t': Tables)
    requires Valid(t) && t' == After(t, op)
    ensures KeepsPolicies(t, op, t')
  {
    RowsPersist(t, op);
    PrivilegeStep(t, op);
    if Agrees(t) {
      AgreementStep(t, op);
    }
  }
}
