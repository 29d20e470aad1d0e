/** How many auth codes one login state can yield, exactly. */
module OneShotStates {
  import opened Wrappers
  import opened TtlStore
  import opened Sets
  import opened Directory
  import opened DirectoryLaws
  import opened AuthModel
  import opened AuthInvariants
  import opened Provenance
  import opened Sessions
  import opened SignOn
  import opened Continuations
  import opened Logout

  /** The callback has read this login state and not yet issued a code for it. */
  predicate HoldsState(s: State, q: nat, st: Uuid) {
    At(s, q) && var pc := s.threads[q];
    (pc.StateRead? || pc.StateGone? || pc.Verified? || pc.UserSynced?) && pc.state == st
  }

  /** The employee's row is deleted and inactive, which no operation undoes. */
  predicate Barred(users: map<Uuid, User>, employeeId: string) {
    exists u :: u in users && users[u].employeeId == employeeId && users[u].deletedAt != None && !users[u].isActive
  }

  /** A holder that has not been told, by its ID token, of a barred employee. */
  predicate CanFinish(s: State, q: nat, st: Uuid) {
    HoldsState(s, q, st) && (s.threads[q].Verified? ==> !Barred(s.tables.users, s.threads[q].info.employeeId))
  }

  function Finishers(s: State, st: Uuid): set<nat> {
    set q | q in s.threads && CanFinish(s, q, st)
  }

  /** The codes issued for this login state. */
  function Codes(s: State, st: Uuid): set<Uuid> {
    set c | c in s.hist.callbacks && s.hist.callbacks[c].state == st
  }

  // ------------------------------------------------ barred employees stay barred

  predicate Frozen(u: User, v: User) {
    u.deletedAt != None ==> v.deletedAt != None && v.isActive == u.isActive && v.employeeId == u.employeeId
  }

  ghost predicate AllFrozen(users: map<Uuid, User>, users': map<Uuid, User>) {
    forall u :: u in users ==> u in users' && Frozen(users[u], users'[u])
  }

  lemma LoginFreezes(t: Tables, info: UserInfo, newId: Uuid, at: Time)
    ensures AllFrozen(t.users, SsoSyncUser(t, info, newId, at).0.users)
  {
  }

  lemma GroupStepFreezes(t: Tables, op: Op)
    requires op.CreateGroup? || op.UpdateGroup? || op.DeleteGroup?
    ensures AllFrozen(t.users, After(t, op).users)
  {
  }

  lemma UserStepFreezes(t: Tables, op: Op)
    requires op.UpdateUser? || op.DeleteUser? || op.ApproveUser? || op.RequestPermission? || op.RejectUser?
    ensures AllFrozen(t.users, After(t, op).users)
  {
  }

  lemma RowsFrozen(t: Tables, op: Op)
    ensures AllFrozen(t.users, After(t, op).users)
  {
    if op.Login? {
      LoginFreezes(t, op.info, op.newId, op.at);
    } else if op.CreateGroup? || op.UpdateGroup? || op.DeleteGroup? {
      GroupStepFreezes(t, op);
    } else {
      UserStepFreezes(t, op);
    }
  }

  lemma StepFreezes(s: State, e: Event)
    ensures AllFrozen(s.tables.users, Apply(s, e).tables.users)
  {
    if e.CallbackSync? && At(s, e.tid) && s.threads[e.tid].Verified? {
      LoginFreezes(s.tables, s.threads[e.tid].info, e.newUser, s.now);
    } else if e.Manage? {
      RowsFrozen(s.tables, e.op);
    } else {
      assert Apply(s, e).tables == s.tables;
    }
  }

  lemma FrozenBars(users: map<Uuid, User>, users': map<Uuid, User>, employeeId: string)
    requires AllFrozen(users, users') && Barred(users, employeeId)
    ensures Barred(users', employeeId)
  {
    var u :| u in users && users[u].employeeId == employeeId && users[u].deletedAt != None && !users[u].isActive;
    assert Frozen(users[u], users'[u]);
  }

  lemma BarredStays(s: State, e: Event, employeeId: string)
    requires Barred(s.tables.users, employeeId)
    ensures Barred(Apply(s, e).tables.users, employeeId)
  {
    StepFreezes(s, e);
    FrozenBars(s.tables.users, Apply(s, e).tables.users, employeeId);
  }

  /** A sync that succeeds was not for a barred employee. */
  lemma SyncedNotBarred(t: Tables, info: UserInfo, newId: Uuid, at: Time)
    requires Valid(t) && SsoSyncUser(t, info, newId, at).1.Ok?
    ensures !Barred(t.users, info.employeeId)
  {
    if Barred(t.users, info.employeeId) {
      var u :| u in t.users && t.users[u].employeeId == info.employeeId
               && t.users[u].deletedAt != None && !t.users[u].isActive;
      LookupFinds(t.users, u);
    }
  }

  // ------------------------------------------------ no more than the holders

  /** The holder a step leads to was one before it. */
  lemma HolderBefore(s: State, e: Event, q: nat, st: Uuid)
    requires LoginsStored(s) && st in s.hist.consumed && Enabled(s, e) && HoldsState(Apply(s, e), q, st)
    ensures HoldsState(s, q, st)
    ensures s.threads[q].Verified? ==>
              var info := s.threads[q].info;
              || Apply(s, e).threads[q] == s.threads[q]
              || (e.CallbackSync? && SsoSyncUser(s.tables, info, e.newUser, s.now).1.Ok?)
  {
    if Moves(e, q) {
      MovedHolderBefore(s, e, q, st);
    } else {
      OthersStay(s, e, q);
    }
  }

  lemma MovedHolderBefore(s: State, e: Event, q: nat, st: Uuid)
    requires LoginsStored(s) && st in s.hist.consumed && Moves(e, q) && Enabled(s, e) && HoldsState(Apply(s, e), q, st)
    ensures HoldsState(s, q, st)
    ensures s.threads[q].Verified? ==>
              || Apply(s, e).threads[q] == s.threads[q]
              || (e.CallbackSync? && SsoSyncUser(s.tables, s.threads[q].info, e.newUser, s.now).1.Ok?)
  {
  }

  lemma FinisherBefore(s: State, e: Event, q: nat, st: Uuid)
    requires Valid(s.tables) && LoginsStored(s) && st in s.hist.consumed
    requires Enabled(s, e) && CanFinish(Apply(s, e), q, st)
    ensures CanFinish(s, q, st)
  {
    HolderBefore(s, e, q, st);
    if s.threads[q].Verified? && Barred(s.tables.users, s.threads[q].info.employeeId) {
      var info := s.threads[q].info;
      BarredStays(s, e, info.employeeId);
      if Apply(s, e).threads[q] != s.threads[q] {
        SyncedNotBarred(s.tables, info, e.newUser, s.now);
      }
    }
  }

  lemma NewCode(s: State, e: Event, c: Uuid, st: Uuid)
    requires UsedCovers(s) && Enabled(s, e) && c in Codes(Apply(s, e), st) && c !in Codes(s, st)
    ensures e.CallbackIssue? && c == e.code && CanFinish(s, e.tid, st) && !CanFinish(Apply(s, e), e.tid, st)
  {
    StepHistory(s, e);
    IssuedCallback(s, e, c);
  }

  lemma CodesStay(s: State, e: Event, st: Uuid)
    requires UsedCovers(s) && Enabled(s, e)
    ensures Codes(s, st) <= Codes(Apply(s, e), st)
  {
    StepHistory(s, e);
  }

  ghost function Yield(s: State, st: Uuid): nat {
    |Codes(s, st)| + |Finishers(s, st)|
  }

  lemma FinishersShrink(s: State, e: Event, st: Uuid)
    requires Valid(s.tables) && LoginsStored(s) && st in s.hist.consumed && Enabled(s, e)
    ensures Finishers(Apply(s, e), st) <= Finishers(s, st)
  {
    forall q | q in Finishers(Apply(s, e), st) ensures q in Finishers(s, st) {
      FinisherBefore(s, e, q, st);
    }
  }

  lemma YieldStep(s: State, e: Event, st: Uuid)
    requires Valid(s.tables) && UsedCovers(s) && LoginsStored(s) && st in s.hist.consumed && Enabled(s, e)
    ensures Yield(Apply(s, e), st) <= Yield(s, st)
  {
    var s' := Apply(s, e);
    CodesStay(s, e, st);
    FinishersShrink(s, e, st);
    if c :| c in Codes(s', st) && c !in Codes(s, st) {
      NewCode(s, e, c, st);
      forall b | b in Codes(s', st) && b !in Codes(s, st) ensures b == c {
        NewCode(s, e, b, st);
      }
      assert Codes(s', st) == Codes(s, st) + {c};
      Traded(Codes(s, st), Codes(s', st), Finishers(s, st), Finishers(s', st), c, e.tid);
    } else {
      assert Codes(s', st) == Codes(s, st);
      SubsetSize(Finishers(s', st), Finishers(s, st));
    }
  }

  lemma {:induction false} YieldRun(s: State, es: seq<Event>, st: Uuid)
    requires Inv(s) && ValidRun(s, es) && st in s.hist.consumed
    ensures Yield(Exec(s, es), st) <= Yield(s, st)
    decreases |es|
  {
    if es != [] {
      YieldStep(s, es[0], st);
      StepHistory(s, es[0]);
      StepKeepsInv(s, es[0]);
      YieldRun(Apply(s, es[0]), es[1..], st);
    }
  }

  lemma {:induction false} FinisherThroughout(s: State, es: seq<Event>, q: nat, st: Uuid)
    requires Inv(s) && ValidRun(s, es) && st in s.hist.consumed && CanFinish(Exec(s, es), q, st)
    ensures CanFinish(s, q, st)
    decreases |es|
  {
    if es != [] {
      StepKeepsInv(s, es[0]);
      StepHistory(s, es[0]);
      FinisherThroughout(Apply(s, es[0]), es[1..], q, st);
      FinisherBefore(s, es[0], q, st);
    }
  }

  // ------------------------------------------------ every holder can issue a code

  /** Neither the state's codes nor what its other holders can do has changed. */
  ghost predicate Gentle(s: State, s': State, q: nat, st: Uuid) {
    && Codes(s', st) == Codes(s, st)
    && (forall p :: p != q ==> (CanFinish(s', p, st) <==> CanFinish(s, p, st)))
  }

  lemma GentleOn(s: State, s': State, s'': State, q: nat, st: Uuid)
    requires Gentle(s, s', q, st) && Gentle(s', s'', q, st)
    ensures Gentle(s, s'', q, st)
  {
  }

  ghost predicate NoNewBars(users: map<Uuid, User>, users': map<Uuid, User>) {
    forall x :: Barred(users', x) ==> Barred(users, x)
  }

  lemma GentleStep(s: State, e: Event, q: nat, st: Uuid)
    requires Enabled(s, e) && !e.CallbackIssue? && !e.ExchangeDelete? && (forall p :: p != q ==> !Moves(e, p))
    requires NoNewBars(s.tables.users, Apply(s, e).tables.users)
    ensures Gentle(s, Apply(s, e), q, st)
  {
    CodeKeyFrame(s, e);
    forall p | p != q ensures CanFinish(Apply(s, e), p, st) <==> CanFinish(s, p, st) {
      OthersStay(s, e, p);
      if At(s, p) && s.threads[p].Verified? && Barred(s.tables.users, s.threads[p].info.employeeId) {
        BarredStays(s, e, s.threads[p].info.employeeId);
      }
    }
  }

  lemma SyncBarsNobody(t: Tables, info: UserInfo, newId: Uuid, at: Time)
    ensures NoNewBars(t.users, SsoSyncUser(t, info, newId, at).0.users)
  {
    var users' := SsoSyncUser(t, info, newId, at).0.users;
    forall x | Barred(users', x) ensures Barred(t.users, x) {
      var u :| u in users' && users'[u].employeeId == x && users'[u].deletedAt != None && !users'[u].isActive;
      assert u in t.users && t.users[u].employeeId == x && t.users[u].deletedAt != None && !t.users[u].isActive;
    }
  }

  /** The sync of these claims would succeed. */
  ghost predicate WillSync(t: Tables, info: UserInfo) {
    match ByEmployee(t.users, info.employeeId)
    case Some(id) => t.users[id].isActive
    case None => forall u :: u in t.users ==> t.users[u].email != info.email
  }

  lemma {:induction false} SyncStage(s: State, q: nat, st: Uuid) returns (e: Event)
    requires At(s, q) && s.threads[q].Verified? && s.threads[q].state == st && WillSync(s.tables, s.threads[q].info)
    ensures Enabled(s, e) && Gentle(s, Apply(s, e), q, st)
    ensures var s' := Apply(s, e); At(s', q) && s'.threads[q].UserSynced? && s'.threads[q].state == st
  {
    var n := AboveAll(s.used + s.tables.users.Keys);
    assert n !in s.used + s.tables.users.Keys;
    e := CallbackSync(q, n);
    SyncBarsNobody(s.tables, s.threads[q].info, n, s.now);
    GentleStep(s, e, q, st);
  }

  /** A text longer than any in the table. */
  lemma NewText(users: map<Uuid, User>) returns (x: string)
    ensures forall u :: u in users ==> users[u].email != x && users[u].employeeId != x
  {
    var sizes := (set u | u in users :: |users[u].email|) + (set u | u in users :: |users[u].employeeId|);
    var n := AboveAll(sizes);
    x := seq(n, _ => 'x');
    forall u | u in users ensures users[u].email != x && users[u].employeeId != x {
      assert |users[u].email| in sizes && |users[u].employeeId| in sizes;
      assert |users[u].email| < n && |users[u].employeeId| < n;
    }
  }

  lemma {:induction false} NoIssueRun(s: State, es: seq<Event>)
    requires forall e :: e in es ==> !e.CallbackIssue? && !e.ExchangeDelete?
    ensures Exec(s, es).hist.callbacks == s.hist.callbacks
    decreases |es|
  {
    if es != [] {
      assert es[0] in es;
      CodeKeyFrame(s, es[0]);
      NoIssueRun(Apply(s, es[0]), es[1..]);
    }
  }

  function SyncPart(t: Trip): seq<Event> {
    [CallbackVerify(t.tid, IdToken(Some(t.nonce), t.info))] + ([CallbackSync(t.tid, t.newUser)] + [])
  }

  /** The callback of another sign-on, up to its sync, for an employee without a row. */
  lemma {:induction false} PlantingStage(s: State, t: Trip, readAt: Time)
    requires At(s, t.tid) && s.threads[t.tid] == StateGone(t.state, t.nonce, readAt) && t.newUser !in s.used
    requires ByEmployee(s.tables.users, t.info.employeeId) == None && t.newUser !in s.tables.users
    requires forall u :: u in s.tables.users ==> s.tables.users[u].email != t.info.email
    ensures var s' := Exec(s, SyncPart(t));
            && ValidRun(s, SyncPart(t)) && s'.hist == s.hist
            && s'.tables.users == s.tables.users[t.newUser := NewUser(t.info, TargetRole(s.tables.groups, t.info),
                s.now)]
            && s'.threads == s.threads[t.tid := UserSynced(t.state, Some(t.nonce), readAt, t.info.employeeId,
                t.newUser)]
  {
    var tables := SsoSyncUser(s.tables, t.info, t.newUser, s.now).0;
    var s1 := Put(s, t.tid, Verified(t.state, Some(t.nonce), readAt, t.info));
    VerifyStep(s, t, readAt);
    SyncStep(s1, t, tables, t.newUser, readAt);
    RunStep(s, CallbackVerify(t.tid, IdToken(Some(t.nonce), t.info)), [CallbackSync(t.tid, t.newUser)] + []);
    RunStep(s1, CallbackSync(t.tid, t.newUser), []);
  }

  lemma PlantedRow(users: map<Uuid, User>, id: Uuid, row: User)
    requires id !in users && row.isActive && ByEmployee(users, row.employeeId) == None
    ensures ByEmployee(users[id := row], row.employeeId) == Some(id)
    ensures NoNewBars(users, users[id := row]) && forall x :: Barred(users, x) ==> Barred(users[id := row], x)
  {
    var users' := users[id := row];
    assert users'[id].employeeId == row.employeeId;
    assert forall u :: u in users' && users'[u].employeeId == row.employeeId && u != id ==> u in users;
    assert forall u :: u in users ==> users[u].employeeId != row.employeeId;
    forall x | Barred(users', x) ensures Barred(users, x) {
      var u :| u in users' && users'[u].employeeId == x && users'[u].deletedAt != None && !users'[u].isActive;
      assert u in users;
    }
    forall x | Barred(users, x) ensures Barred(users', x) {
      var u :| u in users && users[u].employeeId == x && users[u].deletedAt != None && !users[u].isActive;
      assert users'[u] == users[u];
    }
  }

  /** Another request for another login state leaves this state's holders be. */
  lemma ForeignRequest(s: State, s': State, m: nat, pc: Pc, q: nat, st: Uuid)
    requires !At(s, m) && s'.threads == s.threads[m := pc] && pc.UserSynced? && pc.state != st
    requires s'.hist.callbacks == s.hist.callbacks
    requires forall x :: Barred(s'.tables.users, x) <==> Barred(s.tables.users, x)
    ensures Gentle(s, s', q, st)
  {
  }

  /** An employee without a row gets one, under another e-mail address, by a sign-on of their own. */
  lemma {:induction false} PlantsRow(s: State, q: nat, st: Uuid, employeeId: string) returns (es: seq<Event>)
    requires At(s, q) && st in s.used && ByEmployee(s.tables.users, employeeId) == None
    ensures ValidRun(s, es) && Gentle(s, Exec(s, es), q, st)
    ensures At(Exec(s, es), q) && Exec(s, es).threads[q] == s.threads[q]
    ensures var users := Exec(s, es).tables.users; var found := ByEmployee(users, employeeId);
            found.Some? && users[found.value].isActive
  {
    var email := NewText(s.tables.users);
    var info := UserInfo(email, employeeId, "", "", "", "");
    var t := FreshTrip(s.(used := s.used + s.tables.users.Keys), info, q);
    assert FreshIds(s, t) by {
      assert forall i :: 0 <= i < 7 ==> Ids(t)[i] !in s.used + s.tables.users.Keys;
    }
    assert Ids(t)[3] == t.newUser && Ids(t)[0] == t.state;
    Apart(s, t);
    LoginStage(s, t);
    var s1 := Exec(s, LoginPart(t));
    NoIssueRun(s, LoginPart(t));
    PlantingStage(s1, t, s1.now);
    var s2 := Exec(s1, SyncPart(t));
    var row := NewUser(info, TargetRole(s1.tables.groups, info), s1.now);
    PlantedRow(s.tables.users, t.newUser, row);
    RunConcat(s, LoginPart(t), SyncPart(t));
    es := LoginPart(t) + SyncPart(t);
    assert s2.threads == s.threads[t.tid := s2.threads[t.tid]];
    ForeignRequest(s, s2, t.tid, s2.threads[t.tid], q, st);
  }

  lemma {:induction false} ReactivatesRow(s: State, id: Uuid, q: nat, st: Uuid)
    requires Valid(s.tables) && LiveUser(s.tables, id)
    ensures Enabled(s, Reactivate(id)) && Gentle(s, Apply(s, Reactivate(id)), q, st)
    ensures Apply(s, Reactivate(id)).threads == s.threads
    ensures var users := Apply(s, Reactivate(id)).tables.users;
            ByEmployee(users, s.tables.users[id].employeeId) == Some(id) && users[id].isActive
  {
    var s' := Apply(s, Reactivate(id));
    Reactivated(s, id);
    StepTables(s, Reactivate(id));
    LookupFinds(s'.tables.users, id);
    forall x | Barred(s'.tables.users, x) ensures Barred(s.tables.users, x) {
      var u :| u in s'.tables.users && s'.tables.users[u].employeeId == x
               && s'.tables.users[u].deletedAt != None && !s'.tables.users[u].isActive;
      assert s'.tables.users[u] == s.tables.users[u];
    }
    GentleStep(s, Reactivate(id), q, st);
  }

  /** Claims of an employee who is not barred can be made to sync. */
  lemma {:induction false} ClearsTheWay(s: State, q: nat, st: Uuid) returns (es: seq<Event>)
    requires Valid(s.tables) && At(s, q) && s.threads[q].Verified? && st in s.used
    requires !Barred(s.tables.users, s.threads[q].info.employeeId)
    ensures ValidRun(s, es) && Gentle(s, Exec(s, es), q, st)
    ensures At(Exec(s, es), q) && Exec(s, es).threads[q] == s.threads[q]
    ensures WillSync(Exec(s, es).tables, s.threads[q].info)
  {
    var info := s.threads[q].info;
    if WillSync(s.tables, info) {
      es := [];
    } else {
      match ByEmployee(s.tables.users, info.employeeId)
      case Some(id) =>
        assert s.tables.users[id].employeeId == info.employeeId;
        ReactivatesRow(s, id, q, st);
        OneStepRun(s, Reactivate(id));
        es := [Reactivate(id)];
      case None =>
        es := PlantsRow(s, q, st, info.employeeId);
    }
  }

  /** A run that takes a holder to its synced user and leaves the rest. */
  ghost predicate Syncs(s: State, es: seq<Event>, q: nat, st: Uuid) {
    && ValidRun(s, es) && Gentle(s, Exec(s, es), q, st)
    && var s' := Exec(s, es); At(s', q) && s'.threads[q].UserSynced? && s'.threads[q].state == st
  }

  lemma {:induction false} SyncsAfter(s: State, head: seq<Event>, rest: seq<Event>, q: nat, st: Uuid)
    requires ValidRun(s, head) && Gentle(s, Exec(s, head), q, st) && Syncs(Exec(s, head), rest, q, st)
    ensures Syncs(s, head + rest, q, st)
  {
    RunConcat(s, head, rest);
    GentleOn(s, Exec(s, head), Exec(s, head + rest), q, st);
  }

  lemma {:induction false} VerifiedSyncs(s: State, q: nat, st: Uuid) returns (es: seq<Event>)
    requires Valid(s.tables) && At(s, q) && s.threads[q].Verified? && CanFinish(s, q, st) && st in s.used
    ensures Syncs(s, es, q, st)
  {
    var head := ClearsTheWay(s, q, st);
    var s1 := Exec(s, head);
    var e := SyncStage(s1, q, st);
    OneStepRun(s1, e);
    SyncsAfter(s, head, [e], q, st);
    es := head + [e];
  }

  /** The provider may name an employee nobody knows yet. */
  lemma {:induction false} GoneSyncs(s: State, q: nat, st: Uuid) returns (es: seq<Event>)
    requires Valid(s.tables) && At(s, q) && s.threads[q].StateGone? && s.threads[q].state == st && st in s.used
    ensures Syncs(s, es, q, st)
  {
    var x := NewText(s.tables.users);
    var e := CallbackVerify(q, IdToken(Some(s.threads[q].nonce), UserInfo(x, x, "", "", "", "")));
    GentleStep(s, e, q, st);
    OneStepRun(s, e);
    var rest := VerifiedSyncs(Apply(s, e), q, st);
    SyncsAfter(s, [e], rest, q, st);
    es := [e] + rest;
  }

  lemma {:induction false} ReadSyncs(s: State, q: nat, st: Uuid) returns (es: seq<Event>)
    requires Valid(s.tables) && At(s, q) && s.threads[q].StateRead? && s.threads[q].state == st && st in s.used
    ensures Syncs(s, es, q, st)
  {
    var e := CallbackDelete(q);
    GentleStep(s, e, q, st);
    OneStepRun(s, e);
    var rest := GoneSyncs(Apply(s, e), q, st);
    SyncsAfter(s, [e], rest, q, st);
    es := [e] + rest;
  }

  lemma {:induction false} FinisherSyncs(s: State, q: nat, st: Uuid) returns (es: seq<Event>)
    requires Valid(s.tables) && CanFinish(s, q, st) && st in s.used
    ensures Syncs(s, es, q, st)
  {
    match s.threads[q]
    case StateRead(_, _, _) => es := ReadSyncs(s, q, st);
    case StateGone(_, _, _) => es := GoneSyncs(s, q, st);
    case Verified(_, _, _, _) => es := VerifiedSyncs(s, q, st);
    case UserSynced(_, _, _, _, _) => es := [];
  }

  lemma Issuing(s: State, q: nat, st: Uuid, c: Uuid)
    requires UsedCovers(s) && At(s, q) && s.threads[q].UserSynced? && s.threads[q].state == st && c !in s.used
    ensures var s' := Apply(s, CallbackIssue(q, c));
            |Codes(s', st)| == |Codes(s, st)| + 1 && Finishers(s', st) == Finishers(s, st) - {q}
  {
    assert Codes(Apply(s, CallbackIssue(q, c)), st) == Codes(s, st) + {c};
  }

  lemma {:induction false} FinisherIssues(s: State, q: nat, st: Uuid) returns (es: seq<Event>)
    requires Sound(s) && CanFinish(s, q, st) && st in s.used
    ensures var s' := Exec(s, es);
            && ValidRun(s, es) && |Codes(s', st)| == |Codes(s, st)| + 1 && Finishers(s', st) == Finishers(s, st) - {q}
  {
    var head := FinisherSyncs(s, q, st);
    var s1 := Exec(s, head);
    SoundRun(s, head);
    var c := AboveAll(s1.used);
    Issuing(s1, q, st, c);
    assert Finishers(s1, st) - {q} == Finishers(s, st) - {q};
    OneStepRun(s1, CallbackIssue(q, c));
    RunConcat(s, head, [CallbackIssue(q, c)]);
    es := head + [CallbackIssue(q, c)];
  }

  lemma StateIsUsed(s: State, st: Uuid)
    requires Inv(s) && st in s.hist.consumed
    ensures st in s.used
  {
  }

  lemma {:induction false} AllFinishersIssue(s: State, st: Uuid) returns (es: seq<Event>)
    requires Sound(s) && st in s.hist.consumed
    ensures ValidRun(s, es) && |Codes(Exec(s, es), st)| == Yield(s, st)
    decreases |Finishers(s, st)|
  {
    if Finishers(s, st) == {} {
      es := [];
    } else {
      var q := AnElement(Finishers(s, st));
      StateIsUsed(s, st);
      var head := FinisherIssues(s, q, st);
      SoundRun(s, head);
      RunExtends(s, head);
      var rest := AllFinishersIssue(Exec(s, head), st);
      RunConcat(s, head, rest);
      es := head + rest;
    }
  }

  // ------------------------------------------------ both directions

  /** A run that ends with this request about to issue a code for the login state. */
  ghost predicate CanIssue(s: State, es: seq<Event>, q: nat, st: Uuid) {
    ValidRun(s, es) && HoldsState(Exec(s, es), q, st) && Exec(s, es).threads[q].UserSynced?
  }

  /**
   * Once a login state is consumed, the requests that can still issue a code for it are exactly the holders not
   * barred.
   */
  lemma {:induction false} IssuersExactly(s: State, q: nat, st: Uuid)
    requires Reachable(s) && st in s.hist.consumed
    ensures (exists es :: CanIssue(s, es, q, st)) <==> CanFinish(s, q, st)
  {
    ReachableSound(s);
    forall es | CanIssue(s, es, q, st) ensures CanFinish(s, q, st) {
      FinisherThroughout(s, es, q, st);
    }
    if CanFinish(s, q, st) {
      StateIsUsed(s, st);
      var es := FinisherSyncs(s, q, st);
      assert CanIssue(s, es, q, st);
    }
  }

  ghost predicate NeverMore(s: State, st: Uuid, k: nat) {
    forall es :: ValidRun(s, es) ==> |Codes(Exec(s, es), st)| <= k
  }

  /**
   * Over every continuation a consumed state yields at most so many codes exactly when those it has and its
   * holders come to no more.
   */
  lemma {:induction false} CodesExactly(s: State, st: Uuid, k: nat)
    requires Reachable(s) && st in s.hist.consumed
    ensures NeverMore(s, st, k) <==> |Codes(s, st)| + |Finishers(s, st)| <= k
  {
    ReachableSound(s);
    forall es | ValidRun(s, es) ensures |Codes(Exec(s, es), st)| <= Yield(s, st) {
      YieldRun(s, es, st);
    }
    var es := AllFinishersIssue(s, st);
  }

  lemma UnconsumedHasNoCodes(s: State, st: Uuid)
    requires CallbacksSound(s) && st !in s.hist.consumed
    ensures Codes(s, st) == {}
  {
    forall c | c in s.hist.callbacks ensures s.hist.callbacks[c].state != st {
      assert SoundCallback(s, s.hist.callbacks[c]);
    }
  }

  lemma DeleteKeeps(s: State, p: nat, st: Uuid)
    requires ThreadsSound(s) && At(s, p) && s.threads[p].StateRead?
    requires s.threads[p].state == st && st !in s.hist.consumed
    ensures var s' := Apply(s, CallbackDelete(p));
            && st in s'.hist.consumed && s'.hist.callbacks == s.hist.callbacks
            && Finishers(s', st) == set q | q in s.threads && HoldsState(s, q, st)
  {
    forall q | At(s, q) && HoldsState(s, q, st) ensures s.threads[q].StateRead? {
      assert SoundPc(s, s.threads[q]);
    }
  }

  lemma SoleReader(s: State, p: nat, st: Uuid)
    requires HoldsState(s, p, st)
    ensures |set q | q in s.threads && HoldsState(s, q, st)| <= 1 <==> forall q :: HoldsState(s, q, st) ==> q == p
  {
    var holders := set q | q in s.threads && HoldsState(s, q, st);
    assert p in holders;
    if forall q :: HoldsState(s, q, st) ==> q == p {
      assert holders == {p};
    } else {
      var q :| HoldsState(s, q, st) && q != p;
      SubsetSize({p, q}, holders);
    }
  }

  /**
   * When a login state is first deleted, at most one code will ever be issued for it exactly if no other callback
   * has read it.
   */
  lemma {:induction false} StateOneShotExactly(s: State, p: nat)
    requires Reachable(s) && At(s, p) && s.threads[p].StateRead? && s.threads[p].state !in s.hist.consumed
    ensures var st := s.threads[p].state;
            NeverMore(Apply(s, CallbackDelete(p)), st, 1) <==> forall q :: HoldsState(s, q, st) ==> q == p
  {
    var st := s.threads[p].state;
    var s' := Apply(s, CallbackDelete(p));
    ReachableSound(s);
    ReachableStep(s, CallbackDelete(p));
    UnconsumedHasNoCodes(s, st);
    DeleteKeeps(s, p, st);
    CodesExactly(s', st, 1);
    SoleReader(s, p, st);
    assert Codes(s', st) == {};
  }
}
