/** From every reachable state, a sign-on that keeps to the lifetimes ends in an accepted request. */
module SignOn {
  import opened Wrappers
  import opened TtlStore
  import opened SlidingKey
  import opened Directory
  import opened AuthModel
  import opened AuthInvariants
  import opened Provenance
  import opened Sessions

  // ------------------------------------------------ the blacklist names issued tokens only

  ghost predicate BlacklistIssued(s: State) {
    forall j :: BlacklistKey(j) in s.redis ==> j in s.hist.access
  }

  lemma BlacklistIssuedStep(s: State, e: Event)
    requires Inv(s) && Enabled(s, e) && BlacklistIssued(s)
    ensures BlacklistIssued(Apply(s, e))
  {
    var s' := Apply(s, e);
    StepHistory(s, e);
    forall j | BlacklistKey(j) in s'.redis ensures j in s'.hist.access {
      if !e.LogoutList? {
        BlacklistFrame(s, e, j);
      } else if At(s, e.tid) && s.threads[e.tid].Admitted? {
        AdmittedIsIssued(s, e.tid);
        LogoutListEffect(s, e.tid, j);
      } else {
        LogoutListNoop(s, e.tid);
      }
    }
  }

  lemma {:induction false} BlacklistIssuedRun(s: State, es: seq<Event>)
    requires Inv(s) && ValidRun(s, es) && BlacklistIssued(s)
    ensures BlacklistIssued(Exec(s, es))
    decreases |es|
  {
    if es != [] {
      BlacklistIssuedStep(s, es[0]);
      StepKeepsInv(s, es[0]);
      BlacklistIssuedRun(Apply(s, es[0]), es[1..]);
    }
  }

  lemma {:induction false} RunConcat(s: State, a: seq<Event>, b: seq<Event>)
    ensures Exec(s, a + b) == Exec(Exec(s, a), b)
    ensures ValidRun(s, a + b) <==> ValidRun(s, a) && ValidRun(Exec(s, a), b)
    decreases |a|
  {
    if a == [] {
      assert a + b == b;
    } else {
      assert (a + b)[1..] == a[1..] + b;
      RunConcat(Apply(s, a[0]), a[1..], b);
    }
  }

  // ------------------------------------------------ one sign-on

  /** The ids it draws, the thread it runs in, and the three waits: at the provider, in the browser, before the call. */
  datatype Trip = Trip(tid: nat, state: Uuid, nonce: Uuid, verifier: Uuid, newUser: Uuid, code: Uuid,
                       access: Uuid, refresh: Uuid, info: UserInfo, d1: nat, d2: nat, d3: nat)

  function Ids(t: Trip): seq<Uuid> {
    [t.state, t.nonce, t.verifier, t.newUser, t.code, t.access, t.refresh]
  }

  predicate FreshIds(s: State, t: Trip) {
    && !At(s, t.tid)
    && (forall i :: 0 <= i < 7 ==> Ids(t)[i] !in s.used)
    && (forall i, j :: 0 <= i < j < 7 ==> Ids(t)[i] != Ids(t)[j])
  }

  predicate InTime(s: State, t: Trip) {
    && t.d1 < 600 * SECOND
    && t.d2 < s.cfg.codeSeconds * SECOND
    && t.d3 < s.cfg.idleMinutes * 60 * SECOND
    && s.now + t.d1 + t.d2 + t.d3 < WholeSecond(s.now + t.d1 + t.d2 + s.cfg.accessMinutes * 60 * SECOND)
  }

  function LoginPart(t: Trip): seq<Event> {
    [StartLogin(t.state, t.nonce, t.verifier)] + ([Tick(t.d1)] +
        ([CallbackGet(t.tid, t.state)] + ([CallbackDelete(t.tid)] + [])))
  }

  function CallbackPart(t: Trip): seq<Event> {
    [CallbackVerify(t.tid, IdToken(Some(t.nonce), t.info))] +
        ([CallbackSync(t.tid, t.newUser)] + ([CallbackIssue(t.tid, t.code)] + []))
  }

  function CodePart(t: Trip): seq<Event> {
    [Tick(t.d2)] + ([ExchangeGet(t.tid, t.code)] + ([ExchangeDelete(t.tid)] + []))
  }

  function TokenPart(t: Trip): seq<Event> {
    [ExchangeMint(t.tid, t.access, t.refresh)] + ([ExchangeActivate(t.tid)] + [])
  }

  function CallPart(t: Trip, token: AccessToken): seq<Event> {
    [Tick(t.d3)] + (CheckPart(t.tid, token, LogOut) + PassPart(t.tid))
  }

  function CheckPart(tid: nat, token: AccessToken, purpose: Purpose): seq<Event> {
    [GateDecode(tid, token, purpose)] + ([GateCheck(tid)] + [])
  }

  function PassPart(tid: nat): seq<Event> {
    [GateExists(tid)] + ([GateExpire(tid)] + [])
  }

  /** The parts of the state a later stage needs unchanged. */
  ghost predicate Keeps(s: State, s': State, jti: Uuid) {
    s'.cfg == s.cfg && SameEntry(s.redis, s'.redis, BlacklistKey(jti))
  }

  lemma KeepsOn(s: State, s': State, s'': State, jti: Uuid)
    requires Keeps(s, s', jti) && Keeps(s', s'', jti)
    ensures Keeps(s, s'', jti)
  {
  }

  lemma LoginStage(s: State, t: Trip)
    requires FreshIds(s, t) && t.d1 < 600 * SECOND
    ensures var s' := Exec(s, LoginPart(t));
            && ValidRun(s, LoginPart(t)) && Keeps(s, s', t.access)
            && s'.tables == s.tables && s'.now == s.now + t.d1 && s'.used == s.used + {t.state, t.nonce, t.verifier}
            && s'.threads == s.threads[t.tid := StateGone(t.state, t.nonce, s'.now)]
  {
    Apart(s, t);
    var s1 := Apply(s, StartLogin(t.state, t.nonce, t.verifier));
    var s2 := Apply(s1, Tick(t.d1));
    var s3 := Apply(s2, CallbackGet(t.tid, t.state));
    RunStep(s, StartLogin(t.state, t.nonce, t.verifier),
        [Tick(t.d1)] + ([CallbackGet(t.tid, t.state)] + ([CallbackDelete(t.tid)] + [])));
    RunStep(s1, Tick(t.d1), [CallbackGet(t.tid, t.state)] + ([CallbackDelete(t.tid)] + []));
    RunStep(s2, CallbackGet(t.tid, t.state), [CallbackDelete(t.tid)] + []);
    RunStep(s3, CallbackDelete(t.tid), []);
    assert s3 == Put(s2, t.tid, StateRead(t.state, t.nonce, s2.now));
  }

  lemma Apart(s: State, t: Trip)
    requires FreshIds(s, t)
    ensures {t.state, t.nonce, t.verifier, t.newUser, t.code, t.access, t.refresh} !! s.used
    ensures t.state != t.nonce && t.state != t.verifier && t.nonce != t.verifier && t.access != t.refresh
    ensures {t.newUser, t.code, t.access, t.refresh} !! {t.state, t.nonce, t.verifier}
    ensures {t.access, t.refresh} !! {t.newUser, t.code} && t.newUser != t.code
  {
    var x := Ids(t);
    assert x[0] !in s.used && x[1] !in s.used && x[2] !in s.used && x[3] !in s.used && x[4] !in s.used &&
        x[5] !in s.used && x[6] !in s.used;
    assert x[0] != x[1] && x[0] != x[2] && x[1] != x[2] && x[5] != x[6] && x[3] != x[4];
    assert x[3] != x[0] && x[3] != x[1] && x[3] != x[2] && x[4] != x[0] && x[4] != x[1] && x[4] != x[2];
    assert x[5] != x[0] && x[5] != x[1] && x[5] != x[2] && x[6] != x[0] && x[6] != x[1] && x[6] != x[2];
    assert x[5] != x[3] && x[5] != x[4] && x[6] != x[3] && x[6] != x[4];
  }

  lemma VerifyStep(s: State, t: Trip, readAt: Time)
    requires At(s, t.tid) && s.threads[t.tid] == StateGone(t.state, t.nonce, readAt)
    ensures Apply(s, CallbackVerify(t.tid, IdToken(Some(t.nonce), t.info)))
         == Put(s, t.tid, Verified(t.state, Some(t.nonce), readAt, t.info))
  {
  }

  lemma SyncStep(s: State, t: Trip, tables: Tables, user: Uuid, readAt: Time)
    requires At(s, t.tid) && s.threads[t.tid] == Verified(t.state, Some(t.nonce), readAt, t.info)
    requires SsoSyncUser(s.tables, t.info, t.newUser, s.now) == (tables, Ok(user))
    ensures Apply(s, CallbackSync(t.tid, t.newUser))
         == Put(s.(tables := tables, used := s.used + {t.newUser}), t.tid,
                UserSynced(t.state, Some(t.nonce), readAt, t.info.employeeId, user))
  {
  }

  lemma CallbackStage(s: State, t: Trip, tables: Tables, user: Uuid, readAt: Time)
    requires At(s, t.tid) && s.threads[t.tid] == StateGone(t.state, t.nonce, readAt)
    requires t.newUser !in s.used && t.code !in s.used && t.newUser != t.code
    requires SsoSyncUser(s.tables, t.info, t.newUser, s.now) == (tables, Ok(user))
    ensures var s' := Exec(s, CallbackPart(t));
            && ValidRun(s, CallbackPart(t)) && Keeps(s, s', t.access)
            && s'.tables == tables && s'.now == s.now && s'.used == s.used + {t.newUser, t.code} && !At(s', t.tid)
            && CodeKey(t.code) in s'.redis
            && s'.redis[CodeKey(t.code)] == Entry(UserRef(user), s.now + s.cfg.codeSeconds * SECOND)
  {
    var answer := IdToken(Some(t.nonce), t.info);
    var s1 := Put(s, t.tid, Verified(t.state, Some(t.nonce), readAt, t.info));
    var s2 := Put(s1.(tables := tables, used := s1.used + {t.newUser}), t.tid,
                  UserSynced(t.state, Some(t.nonce), readAt, t.info.employeeId, user));
    VerifyStep(s, t, readAt);
    SyncStep(s1, t, tables, user, readAt);
    RunStep(s, CallbackVerify(t.tid, answer), [CallbackSync(t.tid, t.newUser)] + ([CallbackIssue(t.tid, t.code)] + []));
    RunStep(s1, CallbackSync(t.tid, t.newUser), [CallbackIssue(t.tid, t.code)] + []);
    RunStep(s2, CallbackIssue(t.tid, t.code), []);
  }

  lemma CodeStage(s: State, t: Trip, user: Uuid)
    requires !At(s, t.tid) && CodeKey(t.code) in s.redis && s.redis[CodeKey(t.code)].value == UserRef(user)
    requires s.now + t.d2 < s.redis[CodeKey(t.code)].expiry
    ensures var s' := Exec(s, CodePart(t));
            && ValidRun(s, CodePart(t)) && Keeps(s, s', t.access)
            && s'.tables == s.tables && s'.now == s.now + t.d2 && s'.used == s.used
            && At(s', t.tid) && s'.threads[t.tid] == CodeSpent(t.code, user, s'.now)
  {
    var s1 := Apply(s, Tick(t.d2));
    var s2 := Put(s1, t.tid, CodeHeld(t.code, user, s1.now));
    ReadHolds(s1, t.tid, t.code, user);
    RunStep(s, Tick(t.d2), [ExchangeGet(t.tid, t.code)] + ([ExchangeDelete(t.tid)] + []));
    RunStep(s1, ExchangeGet(t.tid, t.code), [ExchangeDelete(t.tid)] + []);
    RunStep(s2, ExchangeDelete(t.tid), []);
  }

  function TokenOf(s: State, t: Trip, user: Uuid): AccessToken
    requires user in s.tables.users
  {
    CreateAccessToken(s.now, s.cfg, user, s.tables.users[user].role, t.access)
  }

  lemma TokenStage(s: State, t: Trip, user: Uuid)
    requires At(s, t.tid) && s.threads[t.tid].CodeSpent? && s.threads[t.tid].user == user
    requires MayHoldTokens(s.tables, user)
    requires t.access !in s.used && t.refresh !in s.used && t.access != t.refresh
    ensures var s' := Exec(s, TokenPart(t));
            && ValidRun(s, TokenPart(t)) && Keeps(s, s', t.access)
            && s'.tables == s.tables && s'.now == s.now && !At(s', t.tid)
            && t.access in s'.hist.access && s'.hist.access[t.access] == TokenOf(s, t, user)
            && SessionKey(user) in s'.redis && s'.redis[SessionKey(user)].expiry ==
                s.now + s.cfg.idleMinutes * 60 * SECOND
  {
    var pc := s.threads[t.tid];
    var s1 := Put(Minted(s, user, t.access, t.refresh, ByExchange(pc.code, pc.readAt, s.now)), t.tid,
        TokensMinted(user));
    assert Apply(s, ExchangeMint(t.tid, t.access, t.refresh)) == s1;
    RunStep(s, ExchangeMint(t.tid, t.access, t.refresh), [ExchangeActivate(t.tid)] + []);
    RunStep(s1, ExchangeActivate(t.tid), []);
  }

  lemma CheckStep(s: State, tid: nat, token: AccessToken, purpose: Purpose)
    requires !At(s, tid) && DecodesAccess(s, token) && !Revoked(s, token)
    ensures ValidRun(s, CheckPart(tid, token, purpose))
    ensures Exec(s, CheckPart(tid, token, purpose)) == Put(s, tid, NotListed(token, purpose))
  {
    var s1, s2 := Put(s, tid, TokenDecoded(token, purpose)), Put(s, tid, NotListed(token, purpose));
    assert s1.threads[tid := NotListed(token, purpose)] == s2.threads;
    assert Apply(s1, GateCheck(tid)) == s2;
    RunStep(s, GateDecode(tid, token, purpose), [GateCheck(tid)] + []);
    RunStep(s1, GateCheck(tid), []);
  }

  lemma TouchStep(s: State, tid: nat, token: AccessToken, purpose: Purpose)
    requires At(s, tid) && s.threads[tid] == NotListed(token, purpose) && SessionOpen(s, token.sub)
    ensures var s' := Exec(s, PassPart(tid));
            && ValidRun(s, PassPart(tid))
            && s'.tables == s.tables && s'.now == s.now && At(s', tid) &&
                s'.threads[tid] == SessionRenewed(token, purpose)
  {
    var s1 := Put(s, tid, SessionSeen(token, purpose));
    assert Apply(s, GateExists(tid)) == s1;
    RunStep(s, GateExists(tid), [GateExpire(tid)] + []);
    RunStep(s1, GateExpire(tid), []);
  }

  lemma {:induction false} RunTick(s: State, d: nat, es: seq<Event>)
    ensures Exec(s, [Tick(d)] + es) == Exec(s.(now := s.now + d), es)
    ensures ValidRun(s, [Tick(d)] + es) <==> ValidRun(s.(now := s.now + d), es)
  {
    RunStep(s, Tick(d), es);
  }

  /** A token that decodes and is not listed, of a user whose session is open, takes a new request through the gate. */
  lemma EnterStage(s: State, tid: nat, token: AccessToken, purpose: Purpose)
    requires !At(s, tid) && DecodesAccess(s, token) && !Revoked(s, token) && SessionOpen(s, token.sub)
    ensures var es := CheckPart(tid, token, purpose) + PassPart(tid); var s' := Exec(s, es);
            && ValidRun(s, es) && s'.tables == s.tables && s'.now == s.now
            && At(s', tid) && s'.threads[tid] == SessionRenewed(token, purpose)
  {
    var s1 := Put(s, tid, NotListed(token, purpose));
    CheckStep(s, tid, token, purpose);
    RunConcat(s, CheckPart(tid, token, purpose), PassPart(tid));
    TouchStep(s1, tid, token, purpose);
  }

  lemma {:induction false} CallStage(s: State, t: Trip, token: AccessToken)
    requires !At(s, t.tid) && token.jti in s.hist.access && s.hist.access[token.jti] == token
    requires BlacklistKey(token.jti) !in s.redis && s.now + t.d3 < token.exp
    requires SessionKey(token.sub) in s.redis && s.now + t.d3 < s.redis[SessionKey(token.sub)].expiry
    ensures var s' := Exec(s, CallPart(t, token));
            && ValidRun(s, CallPart(t, token)) && s'.tables == s.tables && s'.now == s.now + t.d3
            && At(s', t.tid) && s'.threads[t.tid] == SessionRenewed(token, LogOut)
  {
    RunTick(s, t.d3, CheckPart(t.tid, token, LogOut) + PassPart(t.tid));
    EnterStage(s.(now := s.now + t.d3), t.tid, token, LogOut);
  }

  // ------------------------------------------------ the whole trip

  /** The account the provider's claims lead to, if it may hold tokens. */
  ghost predicate LeadsTo(s: State, t: Trip, user: Uuid) {
    var (tables, outcome) := SsoSyncUser(s.tables, t.info, t.newUser, s.now + t.d1);
    outcome == Ok(user) && MayHoldTokens(tables, user)
  }

  /** Up to the token: a valid run that leaves the session open for a freshly signed token. */
  ghost predicate Redeemed(s: State, s': State, t: Trip, user: Uuid) {
    && !At(s', t.tid) && Keeps(s, s', t.access) && s'.now == s.now + t.d1 + t.d2
    && MayHoldTokens(s'.tables, user)
    && t.access in s'.hist.access && s'.hist.access[t.access] == TokenOf(s', t, user)
    && SessionKey(user) in s'.redis && s'.redis[SessionKey(user)].expiry == s'.now + s.cfg.idleMinutes * 60 * SECOND
  }

  lemma SignOnRedeems(s: State, t: Trip, user: Uuid)
    requires FreshIds(s, t) && InTime(s, t) && LeadsTo(s, t, user)
    ensures var es := LoginPart(t) + (CallbackPart(t) + (CodePart(t) + TokenPart(t)));
            ValidRun(s, es) && Redeemed(s, Exec(s, es), t, user)
  {
    Apart(s, t);
    LoginStage(s, t);
    var s1 := Exec(s, LoginPart(t));
    var tables := SsoSyncUser(s.tables, t.info, t.newUser, s1.now).0;
    CallbackStage(s1, t, tables, user, s1.now);
    var s2 := Exec(s1, CallbackPart(t));
    CodeStage(s2, t, user);
    var s3 := Exec(s2, CodePart(t));
    TokenStage(s3, t, user);
    RunConcat(s, LoginPart(t), CallbackPart(t) + (CodePart(t) + TokenPart(t)));
    RunConcat(s1, CallbackPart(t), CodePart(t) + TokenPart(t));
    RunConcat(s2, CodePart(t), TokenPart(t));
    KeepsOn(s, s1, s2, t.access);
    KeepsOn(s, s2, s3, t.access);
    KeepsOn(s, s3, Exec(s3, TokenPart(t)), t.access);
  }

  lemma NeverListed(s0: State, past: seq<Event>, t: Trip)
    requires Initial(s0) && ValidRun(s0, past) && FreshIds(Exec(s0, past), t)
    ensures BlacklistKey(t.access) !in Exec(s0, past).redis
  {
    InitialInv(s0);
    RunKeepsInv(s0, past);
    BlacklistIssuedRun(s0, past);
    Apart(Exec(s0, past), t);
  }

  lemma NoAdministration(t: Trip, token: AccessToken)
    ensures forall e :: e in LoginPart(t) + (CallbackPart(t) + (CodePart(t) + TokenPart(t))) + CallPart(t, token) ==>
              !e.Manage?
  {
  }

  lemma SignOnAccepted(s: State, t: Trip, user: Uuid) returns (es: seq<Event>)
    requires FreshIds(s, t) && InTime(s, t) && LeadsTo(s, t, user) && BlacklistKey(t.access) !in s.redis
    ensures ValidRun(s, es) && forall e :: e in es ==> !e.Manage?
    ensures var s' := Exec(s, es);
            && s'.now == s.now + t.d1 + t.d2 + t.d3
            && Accepts(s', GateLoad(t.tid), user) && s'.threads[t.tid].token.jti == t.access
  {
    SignOnRedeems(s, t, user);
    var head := LoginPart(t) + (CallbackPart(t) + (CodePart(t) + TokenPart(t)));
    var s1 := Exec(s, head);
    var token := TokenOf(s1, t, user);
    CallStage(s1, t, token);
    RunConcat(s, head, CallPart(t, token));
    es := head + CallPart(t, token);
    NoAdministration(t, token);
  }

  /** Every reachable state can be followed by a sign-on; kept within the lifetimes, it ends in an accepted request. */
  lemma TimelySignOnIsAccepted(s0: State, past: seq<Event>, t: Trip, user: Uuid) returns (es: seq<Event>)
    requires Initial(s0) && ValidRun(s0, past)
    requires var s := Exec(s0, past); FreshIds(s, t) && InTime(s, t) && LeadsTo(s, t, user)
    ensures ValidRun(s0, past + es)
    ensures var s' := Exec(s0, past + es);
            && s'.now == Exec(s0, past).now + t.d1 + t.d2 + t.d3
            && Accepts(s', GateLoad(t.tid), user) && s'.threads[t.tid].token.jti == t.access
  {
    var s := Exec(s0, past);
    NeverListed(s0, past, t);
    es := SignOnAccepted(s, t, user);
    RunConcat(s0, past, es);
  }
}
