/** A login whose three database visits are interleaved with other operations. */
module LoginRaces {
  import opened Wrappers
  import opened TtlStore
  import opened Directory
  import opened DirectoryLaws
  import opened Privileges

  /** What the first SELECT loaded: the row found, if any. */
  datatype Seen = Seen(found: Option<Uuid>, loaded: Option<User>)

  ghost function SelectUser(t: Tables, info: UserInfo): Seen {
    match ByEmployee(t.users, info.employeeId)
    case Some(id) => Seen(Some(id), Some(t.users[id]))
    case None => Seen(None, None)
  }

  /** A flush writes a column only if the session changed it from what it loaded. */
  function Written<V(==)>(current: V, loaded: V, value: V): V {
    if value != loaded then value else current
  }

  function SavedRow(current: User, loaded: User, info: UserInfo, target: UserRole, at: Time): User {
    var role := if loaded.role == PermissionRequired && target == Regular then Regular else loaded.role;
    current.(fullName := Written(current.fullName, loaded.fullName, info.fullName),
             department := Written(current.department, loaded.department, info.department),
             departmentCode := Written(current.departmentCode, loaded.departmentCode, info.departmentCode),
             site := Written(current.site, loaded.site, info.site),
             role := Written(current.role, loaded.role, role),
             lastLoginAt := at)
  }

  /** The INSERT that the unique columns admit. */
  predicate Insertable(t: Tables, info: UserInfo, newId: Uuid) {
    && newId !in t.users
    && (forall u :: u in t.users ==> t.users[u].email != info.email)
    && (forall u :: u in t.users ==> t.users[u].employeeId != info.employeeId)
  }

  /** The flush: with the row loaded before, and the role the group SELECT led to. */
  function Save(t: Tables, seen: Seen, target: UserRole, info: UserInfo, newId: Uuid, at: Time): Tables
    requires seen.found.Some? ==> seen.loaded.Some? && seen.found.value in t.users
  {
    match seen.found
    case Some(id) => WithUser(t, id, SavedRow(t.users[id], seen.loaded.value, info, target, at))
    case None => if Insertable(t, info, newId) then WithUser(t, newId, NewUser(info, target, at)) else t
  }

  /** With nothing in between, the three visits are the one step the protocol takes. */
  lemma UndisturbedLogin(t: Tables, info: UserInfo, newId: Uuid, at: Time)
    requires Valid(t)
    ensures Save(t, SelectUser(t, info), TargetRole(t.groups, info), info, newId, at)
         == SsoSyncUser(t, info, newId, at).0
  {
  }

  /** The department code the login leaves in the row. */
  function SavedCode(t: Tables, seen: Seen, info: UserInfo): string
    requires seen.found.Some? ==> seen.loaded.Some? && seen.found.value in t.users
  {
    match seen.found
    case Some(id) => Written(t.users[id].departmentCode, seen.loaded.value.departmentCode, info.departmentCode)
    case None => info.departmentCode
  }

  /** The login leaves its user waiting in a department that is whitelisted by now. */
  predicate Strands(t: Tables, seen: Seen, target: UserRole, info: UserInfo, newId: Uuid)
    requires seen.found.Some? ==> seen.loaded.Some? && seen.found.value in t.users
  {
    && SavedCode(t, seen, info) != "" && Whitelisted(t.groups, SavedCode(t, seen, info))
    && match seen.found
       case Some(id) =>
         && t.users[id].role == PermissionRequired
         && !(seen.loaded.value.role == PermissionRequired && target == Regular)
       case None => Insertable(t, info, newId) && target == PermissionRequired
  }

  /** At the flush, the whitelist agreement is kept exactly if nobody is stranded. */
  lemma SaveAgreesExactly(t: Tables, seen: Seen, target: UserRole, info: UserInfo, newId: Uuid, at: Time)
    requires Valid(t) && Agrees(t) && (target == Regular || target == PermissionRequired)
    requires seen.found.Some? ==> seen.loaded.Some? && seen.found.value in t.users
    ensures Agrees(Save(t, seen, target, info, newId, at)) <==> !Strands(t, seen, target, info, newId)
  {
    var t' := Save(t, seen, target, info, newId, at);
    if seen.found.Some? || Insertable(t, info, newId) {
      var id := if seen.found.Some? then seen.found.value else newId;
      assert t' == WithUser(t, id, t'.users[id]);
      assert forall u :: u in t'.users && u != id ==> UserAgrees(t.users[u], t.groups);
      assert UserAgrees(t'.users[id], t'.groups) <==> !Strands(t, seen, target, info, newId);
    }
  }

  lemma {:induction false} AfterConcat(t: Tables, a: seq<Op>, b: seq<Op>)
    ensures AfterAll(t, a + b) == AfterAll(AfterAll(t, a), b)
    decreases |a|
  {
    if a == [] {
      assert a + b == b;
    } else {
      assert (a + b)[1..] == a[1..] + b;
      AfterConcat(After(t, a[0]), a[1..], b);
    }
  }

  /**
   * The tables a login finds at its flush, `ops1` having run since its user SELECT and `ops2` since its group
   * SELECT, and the tables it leaves.
   */
  ghost function AtFlush(t0: Tables, ops1: seq<Op>, ops2: seq<Op>): Tables {
    AfterAll(AfterAll(t0, ops1), ops2)
  }

  lemma SeenStays(t0: Tables, ops1: seq<Op>, ops2: seq<Op>, info: UserInfo)
    requires Valid(t0)
    ensures var t2, seen := AtFlush(t0, ops1, ops2), SelectUser(t0, info);
            Valid(t2) && (seen.found.Some? ==> seen.loaded.Some? && seen.found.value in t2.users)
  {
    RowsPersistOverRuns(t0, ops1);
    RowsPersistOverRuns(AfterAll(t0, ops1), ops2);
  }

  ghost function InterleavedLogin(
    t0: Tables, ops1: seq<Op>, ops2: seq<Op>, info: UserInfo, newId: Uuid, at: Time): Tables
    requires Valid(t0)
  {
    SeenStays(t0, ops1, ops2, info);
    Save(AtFlush(t0, ops1, ops2), SelectUser(t0, info), TargetRole(AfterAll(t0, ops1).groups, info), info, newId, at)
  }

  /** A new employee's department is switched on between the group's SELECT and the INSERT. */
  ghost predicate NewcomerStranded(t0: Tables, ops1: seq<Op>, ops2: seq<Op>, info: UserInfo, newId: Uuid) {
    && Insertable(AtFlush(t0, ops1, ops2), info, newId)
    && info.departmentCode != ""
    && !Whitelisted(AfterAll(t0, ops1).groups, info.departmentCode)
    && Whitelisted(AtFlush(t0, ops1, ops2).groups, info.departmentCode)
  }

  /**
   * A waiting employee moves into a department whitelisted by the flush, which was switched on after the group's
   * SELECT, or the employee was sent back to waiting after the user's.
   */
  ghost predicate MoverStranded(t0: Tables, ops1: seq<Op>, ops2: seq<Op>, info: UserInfo, id: Uuid)
    requires id in t0.users && id in AtFlush(t0, ops1, ops2).users
  {
    var d := info.departmentCode;
    && d != "" && d != t0.users[id].departmentCode
    && AtFlush(t0, ops1, ops2).users[id].role == PermissionRequired
    && Whitelisted(AtFlush(t0, ops1, ops2).groups, d)
    && (!Whitelisted(AfterAll(t0, ops1).groups, d) || t0.users[id].role != PermissionRequired)
  }

  /** With any operations between its visits, a new employee's login keeps the agreement but for such a switch-on. */
  lemma NewcomerAgreesExactly(t0: Tables, ops1: seq<Op>, ops2: seq<Op>, info: UserInfo, newId: Uuid, at: Time)
    requires Valid(t0) && Agrees(AtFlush(t0, ops1, ops2)) && ByEmployee(t0.users, info.employeeId) == None
    ensures Agrees(InterleavedLogin(t0, ops1, ops2, info, newId, at))
       <==> !NewcomerStranded(t0, ops1, ops2, info, newId)
  {
    SeenStays(t0, ops1, ops2, info);
    var target := TargetRole(AfterAll(t0, ops1).groups, info);
    SaveAgreesExactly(AtFlush(t0, ops1, ops2), SelectUser(t0, info), target, info, newId, at);
  }

  /** The login of an employee with a row keeps it but for such a move. */
  lemma MoverAgreesExactly(
    t0: Tables, ops1: seq<Op>, ops2: seq<Op>, info: UserInfo, newId: Uuid, at: Time, id: Uuid)
    requires Valid(t0) && Agrees(AtFlush(t0, ops1, ops2)) && ByEmployee(t0.users, info.employeeId) == Some(id)
    ensures id in AtFlush(t0, ops1, ops2).users
    ensures Agrees(InterleavedLogin(t0, ops1, ops2, info, newId, at)) <==> !MoverStranded(t0, ops1, ops2, info, id)
  {
    SeenStays(t0, ops1, ops2, info);
    var t2, seen := AtFlush(t0, ops1, ops2), SelectUser(t0, info);
    SaveAgreesExactly(t2, seen, TargetRole(AfterAll(t0, ops1).groups, info), info, newId, at);
    assert UserAgrees(t2.users[id], t2.groups);
  }

  /** Both together. */
  lemma InterleavedLoginAgreesExactly(t0: Tables, ops1: seq<Op>, ops2: seq<Op>, info: UserInfo, newId: Uuid, at: Time)
    requires Valid(t0) && Agrees(AtFlush(t0, ops1, ops2))
    ensures var found := ByEmployee(t0.users, info.employeeId);
            && (found.Some? ==> found.value in AtFlush(t0, ops1, ops2).users)
            && (Agrees(InterleavedLogin(t0, ops1, ops2, info, newId, at))
                <==> match found
                     case None => !NewcomerStranded(t0, ops1, ops2, info, newId)
                     case Some(id) => !MoverStranded(t0, ops1, ops2, info, id))
  {
    match ByEmployee(t0.users, info.employeeId)
    case None => NewcomerAgreesExactly(t0, ops1, ops2, info, newId, at);
    case Some(id) => MoverAgreesExactly(t0, ops1, ops2, info, newId, at, id);
  }

  // ------------------------------------------------ what the operations in between have done

  /** The department is created whitelisted, or switched on. */
  ghost predicate SwitchesOn(t: Tables, op: Op, code: string) {
    || (op.CreateGroup? && op.code == code && op.whitelist)
    || (op.UpdateGroup? && op.group in t.groups && t.groups[op.group].code == code && op.newWhitelist == Value(true))
  }

  lemma SwitchStep(t: Tables, op: Op, code: string)
    requires !Whitelisted(t.groups, code) && Whitelisted(After(t, op).groups, code)
    ensures SwitchesOn(t, op, code)
  {
    var groups := After(t, op).groups;
    var g :| g in groups && groups[g].code == code && groups[g].whitelisted;
    assert g in t.groups ==> t.groups[g].code != code || !t.groups[g].whitelisted;
  }

  /** A department not whitelisted before a run and whitelisted after it was switched on in the run. */
  lemma {:induction false} WhitelistingHasCause(t: Tables, ops: seq<Op>, code: string) returns (i: nat)
    requires !Whitelisted(t.groups, code) && Whitelisted(AfterAll(t, ops).groups, code)
    ensures i < |ops| && SwitchesOn(AfterAll(t, ops[..i]), ops[i], code)
    decreases |ops|
  {
    if Whitelisted(After(t, ops[0]).groups, code) {
      SwitchStep(t, ops[0], code);
      i := 0;
      assert AfterAll(t, ops[..0]) == t;
    } else {
      var j := WhitelistingHasCause(After(t, ops[0]), ops[1..], code);
      i := j + 1;
      PrefixShift(t, ops, j);
    }
  }

  /** The user is told to wait again: by an update, or because the department is dropped. */
  ghost predicate SendsBack(t: Tables, op: Op, id: Uuid) {
    || (op.UpdateUser? && op.user == id && op.newRole == Value(PermissionRequired))
    || DepartmentDropped(t, op, id)
  }

  lemma SentBackStep(t: Tables, op: Op, id: Uuid)
    requires id in t.users && t.users[id].role != PermissionRequired
    requires id in After(t, op).users && After(t, op).users[id].role == PermissionRequired
    ensures SendsBack(t, op, id)
  {
  }

  /** A user not waiting before a run and waiting after it was sent back in the run. */
  lemma {:induction false} WaitingHasCause(t: Tables, ops: seq<Op>, id: Uuid) returns (i: nat)
    requires Valid(t) && id in t.users && t.users[id].role != PermissionRequired
    requires id in AfterAll(t, ops).users && AfterAll(t, ops).users[id].role == PermissionRequired
    ensures i < |ops| && SendsBack(AfterAll(t, ops[..i]), ops[i], id)
    decreases |ops|
  {
    RowsPersist(t, ops[0]);
    if After(t, ops[0]).users[id].role == PermissionRequired {
      SentBackStep(t, ops[0], id);
      i := 0;
      assert AfterAll(t, ops[..0]) == t;
    } else {
      var j := WaitingHasCause(After(t, ops[0]), ops[1..], id);
      i := j + 1;
      PrefixShift(t, ops, j);
    }
  }

  /** An operation between the visits has stranded the employee: a switch-on after the second, or a sending back. */
  lemma StrandingHasCause(t0: Tables, ops1: seq<Op>, ops2: seq<Op>, info: UserInfo, id: Uuid) returns (i: nat)
    requires Valid(t0) && id in t0.users && id in AtFlush(t0, ops1, ops2).users
    requires MoverStranded(t0, ops1, ops2, info, id)
    ensures || (i < |ops2| && SwitchesOn(AfterAll(AfterAll(t0, ops1), ops2[..i]), ops2[i], info.departmentCode))
            || (i < |ops1 + ops2| && SendsBack(AfterAll(t0, (ops1 + ops2)[..i]), (ops1 + ops2)[i], id))
  {
    if !Whitelisted(AfterAll(t0, ops1).groups, info.departmentCode) {
      i := WhitelistingHasCause(AfterAll(t0, ops1), ops2, info.departmentCode);
    } else {
      AfterConcat(t0, ops1, ops2);
      i := WaitingHasCause(t0, ops1 + ops2, id);
    }
  }

  /**
   * An administrator role held at the flush is lost there exactly if the row was waiting at the first SELECT and
   * the group SELECT led to promotion; a super administrator has then given the role between the visits.
   */
  lemma PromotionLostExactly(
    t0: Tables, ops1: seq<Op>, ops2: seq<Op>, info: UserInfo, newId: Uuid, at: Time, id: Uuid) returns (i: nat)
    requires Valid(t0) && ByEmployee(t0.users, info.employeeId) == Some(id)
    requires id in AtFlush(t0, ops1, ops2).users && IsAdminRole(AtFlush(t0, ops1, ops2).users[id].role)
    ensures var held := AtFlush(t0, ops1, ops2).users[id].role;
            var lost := !Has(InterleavedLogin(t0, ops1, ops2, info, newId, at), id, held);
            && (lost <==> && t0.users[id].role == PermissionRequired
                          && TargetRole(AfterAll(t0, ops1).groups, info) == Regular)
            && (t0.users[id].role != held ==>
                  i < |ops1 + ops2| && SuperAdminSets(AfterAll(t0, (ops1 + ops2)[..i]), (ops1 + ops2)[i], id, held))
            && (lost ==> t0.users[id].role != held)
  {
    SeenStays(t0, ops1, ops2, info);
    var held := AtFlush(t0, ops1, ops2).users[id].role;
    if t0.users[id].role != held {
      AfterConcat(t0, ops1, ops2);
      i := EveryPromotionHasSponsor(t0, ops1 + ops2, id, held);
    } else {
      i := 0;
    }
  }

  // ------------------------------------------------ the three failures, at concrete inputs

  function Row(name: string, code: string, role: UserRole): User {
    User(name, name, name, code, code, "", role, true, 0, None)
  }

  /** An employee (1) of department A, an officer (2), and department D. */
  function Office(employee: UserRole, officer: UserRole, whitelisted: bool): Tables {
    Tables(map[1 := Row("a", "A", employee), 2 := Row("b", "B", officer)],
           map[9 := UserGroup("D", "D", whitelisted, None)])
  }

  const MOVES_TO_D := UserInfo("a", "a", "a", "D", "D", "")

  lemma OfficeIs(employee: UserRole, officer: UserRole, whitelisted: bool)
    ensures var t := Office(employee, officer, whitelisted);
            && Valid(t) && Agrees(t) && ByEmployee(t.users, "a") == Some(1)
            && (Whitelisted(t.groups, "D") <==> whitelisted)
  {
    var t := Office(employee, officer, whitelisted);
    assert "a" != "b" && "A" != "D" && "B" != "D";
    assert t.users[1].employeeId == "a" && t.users[2].employeeId == "b";
    assert t.groups[9].code == "D";
    LookupFinds(t.users, 1);
  }

  /** The department is switched on after the group SELECT: the employee who moves into it is left waiting. */
  lemma SwitchOnStrands()
    ensures var t0 := Office(PermissionRequired, Admin, false);
            var ops2 := [UpdateGroup(9, Unset, Value(true))];
            && Valid(t0) && Agrees(AtFlush(t0, [], ops2))
            && !Agrees(InterleavedLogin(t0, [], ops2, MOVES_TO_D, 3, 5))
  {
    var t0 := Office(PermissionRequired, Admin, false);
    var op := UpdateGroup(9, Unset, Value(true));
    OfficeIs(PermissionRequired, Admin, false);
    OneOp(t0, op);
    AgreementStep(t0, op);
    GroupRowWhitelisted(t0, 9);
    UpdatedGroupWhitelisted(t0, 9, t0.groups[9].(whitelisted := true), "D");
    assert "A" != "D" && After(t0, op).users[1] == t0.users[1];
    MoverAgreesExactly(t0, [], [op], MOVES_TO_D, 3, 5, 1);
  }

  lemma OneOp(t: Tables, op: Op)
    ensures AfterAll(t, [op]) == After(t, op) && AfterAll(t, []) == t
  {
    assert [op][1..] == [];
  }

  /** An administrator sends the employee back between the two SELECTs, with the same end. */
  lemma DemotionStrands()
    ensures var t0 := Office(Regular, Admin, true);
            var ops1 := [UpdateUser(2, 1, Value(PermissionRequired), Unset)];
            && Valid(t0) && Agrees(AtFlush(t0, ops1, []))
            && !Agrees(InterleavedLogin(t0, ops1, [], MOVES_TO_D, 3, 5))
  {
    var t0 := Office(Regular, Admin, true);
    var op := UpdateUser(2, 1, Value(PermissionRequired), Unset);
    OfficeIs(Regular, Admin, true);
    OneOp(t0, op);
    OneOp(After(t0, op), op);
    assert "A" != "D" && t0.users[1].departmentCode == "A";
    assert !Whitelisted(t0.groups, "A");
    AgreementStep(t0, op);
    assert After(t0, op).users[1].role == PermissionRequired;
    MoverAgreesExactly(t0, [op], [], MOVES_TO_D, 3, 5, 1);
  }

  /** A super administrator made during a login is a plain user after its flush, and nobody has sponsored that. */
  lemma FreshSuperAdminLost()
    ensures var t0 := Office(PermissionRequired, SuperAdmin, true);
            var ops2 := [UpdateUser(2, 1, Value(SuperAdmin), Unset)];
            && Valid(t0) && Has(AtFlush(t0, [], ops2), 1, SuperAdmin)
            && Has(InterleavedLogin(t0, [], ops2, MOVES_TO_D, 3, 5), 1, Regular)
            && forall op, role :: op in ops2 && role != SuperAdmin ==> !SuperAdminSets(t0, op, 1, role)
  {
    var t0 := Office(PermissionRequired, SuperAdmin, true);
    var op := UpdateUser(2, 1, Value(SuperAdmin), Unset);
    OfficeIs(PermissionRequired, SuperAdmin, true);
    OneOp(t0, op);
    SeenStays(t0, [], [op], MOVES_TO_D);
    assert TargetRole(t0.groups, MOVES_TO_D) == Regular;
  }
}
