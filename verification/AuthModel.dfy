/**
 * Login, session and token lifecycle as a transition system. A request is a
 * thread that takes one step per await, so steps of different requests
 * interleave freely; every step is one Redis command or one database visit,
 * but for the login's user sync, whose visits `LoginRaces` takes apart.
 */
module AuthModel {
  import opened Wrappers
  import opened TtlStore
  import opened SlidingKey
  import opened Directory

  datatype Settings = Settings(
    accessMinutes: Positive,   // JWT_ACCESS_TOKEN_EXPIRE_MINUTES
    refreshDays: Positive,     // JWT_REFRESH_TOKEN_EXPIRE_DAYS
    codeSeconds: Positive,     // AUTH_CODE_EXPIRE_SECONDS
    idleMinutes: Positive)     // SESSION_IDLE_TIMEOUT_MINUTES

  /** Lifetime in seconds of a stored login state. */
  const STATE_SECONDS := 600

  datatype Key =
    | StateKey(state: Uuid)       // sso_state:{state}
    | CodeKey(code: Uuid)         // auth_code:{code}
    | SessionKey(user: Uuid)      // session:{user_id}
    | BlacklistKey(jti: Uuid)     // bl:{jti}

  datatype Stored =
    | LoginData(nonce: Uuid, verifier: Uuid)
    | UserRef(user: Uuid)
    | Flag

  datatype AccessToken = AccessToken(sub: Uuid, role: UserRole, iat: Time, exp: Time, jti: Uuid)

  datatype RefreshToken = RefreshToken(sub: Uuid, iat: Time, exp: Time, jti: Uuid)

  /** What the identity provider returns to the callback: nothing usable, or a verified ID token. */
  datatype IdpAnswer = Refused | IdToken(nonce: Option<Uuid>, info: UserInfo)

  /** What the request behind the gate goes on to do. */
  datatype Purpose = CallApi | LogOut

  /** Where a suspended request is. */
  datatype Pc =
    | StateRead(state: Uuid, nonce: Uuid, readAt: Time)
    | StateGone(state: Uuid, nonce: Uuid, readAt: Time)
    | Verified(state: Uuid, claimed: Option<Uuid>, readAt: Time, info: UserInfo)
    | UserSynced(state: Uuid, claimed: Option<Uuid>, readAt: Time, employeeId: string, user: Uuid)
    | CodeHeld(code: Uuid, user: Uuid, readAt: Time)
    | CodeSpent(code: Uuid, user: Uuid, readAt: Time)
    | TokensMinted(user: Uuid)
    | RefreshAccepted(refresh: RefreshToken, readAt: Time)
    | TokenDecoded(token: AccessToken, purpose: Purpose)
    | NotListed(token: AccessToken, purpose: Purpose)
    | SessionSeen(token: AccessToken, purpose: Purpose)
    | SessionRenewed(token: AccessToken, purpose: Purpose)
    | Admitted(token: AccessToken)
    | Listed(token: AccessToken)

  // ------------------------------------------------ history

  datatype LoginRecord = LoginRecord(nonce: Uuid, at: Time)

  datatype CallbackRecord = CallbackRecord(
    state: Uuid, claimed: Option<Uuid>, readAt: Time, employeeId: string, user: Uuid, at: Time)

  datatype Origin =
    | ByExchange(code: Uuid, readAt: Time, at: Time)
    | ByRefresh(parent: Uuid, readAt: Time, at: Time)

  datatype Activity = Activity(user: Uuid, act: Act)

  /** Everything that has happened so far, keyed by the fresh id each step drew. */
  datatype History = History(
    logins: map<Uuid, LoginRecord>,       // by state
    consumed: set<Uuid>,                  // states whose DELETE has run
    callbacks: map<Uuid, CallbackRecord>, // by code
    spent: set<Uuid>,                     // codes whose DELETE has run
    access: map<Uuid, AccessToken>,       // by jti
    refresh: map<Uuid, RefreshToken>,     // by jti
    origins: map<Uuid, Origin>,           // by the jti of either token
    activity: seq<Activity>)              // session commands, in order

  type Cache = map<Key, Entry<Stored>>

  datatype State = State(
    cfg: Settings, now: Time, redis: Cache, tables: Tables,
    threads: map<nat, Pc>, used: set<Uuid>, hist: History)

  datatype Event =
    | Tick(d: nat)
    | StartLogin(state: Uuid, nonce: Uuid, verifier: Uuid)
    | CallbackGet(tid: nat, state: Uuid)
    | CallbackDelete(tid: nat)
    | CallbackVerify(tid: nat, answer: IdpAnswer)
    | CallbackSync(tid: nat, newUser: Uuid)
    | CallbackIssue(tid: nat, code: Uuid)
    | ExchangeGet(tid: nat, code: Uuid)
    | ExchangeDelete(tid: nat)
    | ExchangeMint(tid: nat, accessId: Uuid, refreshId: Uuid)
    | ExchangeActivate(tid: nat)
    | RefreshDecode(tid: nat, refresh: RefreshToken)
    | RefreshMint(tid: nat, accessId: Uuid, refreshId: Uuid)
    | GateDecode(tid: nat, token: AccessToken, purpose: Purpose)
    | GateCheck(tid: nat)
    | GateExists(tid: nat)
    | GateExpire(tid: nat)
    | GateLoad(tid: nat)
    | LogoutList(tid: nat)
    | LogoutDelete(tid: nat)
    | Manage(op: Op)

  // ------------------------------------------------ tokens

  /** NumericDate claims are written in whole seconds. */
  function WholeSecond(t: Time): Time {
    t / SECOND * SECOND
  }

  function CreateAccessToken(now: Time, cfg: Settings, user: Uuid, role: UserRole, jti: Uuid): AccessToken {
    AccessToken(user, role, WholeSecond(now), WholeSecond(now + cfg.accessMinutes * 60 * SECOND), jti)
  }

  function CreateRefreshToken(now: Time, cfg: Settings, user: Uuid, jti: Uuid): RefreshToken {
    RefreshToken(user, WholeSecond(now), WholeSecond(now + cfg.refreshDays * 86400 * SECOND), jti)
  }

  /** A signature verifies only on a token this server signed; a token is valid while now < exp. */
  predicate DecodesAccess(s: State, t: AccessToken) {
    t.jti in s.hist.access && s.hist.access[t.jti] == t && s.now < t.exp
  }

  predicate DecodesRefresh(s: State, t: RefreshToken) {
    t.jti in s.hist.refresh && s.hist.refresh[t.jti] == t && s.now < t.exp
  }

  // ------------------------------------------------ steps

  function Put(s: State, tid: nat, pc: Pc): State {
    s.(threads := s.threads[tid := pc])
  }

  function End(s: State, tid: nat): State {
    s.(threads := s.threads - {tid})
  }

  predicate At(s: State, tid: nat) {
    tid in s.threads
  }

  function DoStartLogin(s: State, state: Uuid, nonce: Uuid, verifier: Uuid): State {
    s.(redis := Set(s.redis, StateKey(state), LoginData(nonce, verifier), STATE_SECONDS, s.now),
       used := s.used + {state, nonce, verifier},
       hist := s.hist.(logins := s.hist.logins[state := LoginRecord(nonce, s.now)]))
  }

  function DoCallbackGet(s: State, tid: nat, state: Uuid): State {
    var found: Option<Stored> := Get(s.redis, StateKey(state), s.now);
    match found
    case Some(LoginData(nonce, _)) => Put(s, tid, StateRead(state, nonce, s.now))
    case _ => s
  }

  function DoCallbackDelete(s: State, tid: nat): State {
    if tid in s.threads && s.threads[tid].StateRead? then
      var pc := s.threads[tid];
      Put(s, tid, StateGone(pc.state, pc.nonce, pc.readAt))
        .(redis := Del(s.redis, StateKey(pc.state)),
          hist := s.hist.(consumed := s.hist.consumed + {pc.state}))
    else s
  }

  /** The nonce of the ID token must be the one stored for this state. */
  function DoCallbackVerify(s: State, tid: nat, answer: IdpAnswer): State {
    if tid in s.threads && s.threads[tid].StateGone? then
      var pc := s.threads[tid];
      if answer.IdToken? && answer.nonce == Some(pc.nonce)
      then Put(s, tid, Verified(pc.state, answer.nonce, pc.readAt, answer.info))
      else End(s, tid)
    else s
  }

  ghost function DoCallbackSync(s: State, tid: nat, newUser: Uuid): State {
    if tid in s.threads && s.threads[tid].Verified? then
      var pc := s.threads[tid];
      var (tables, outcome) := SsoSyncUser(s.tables, pc.info, newUser, s.now);
      var s' := s.(tables := tables, used := s.used + {newUser});
      match outcome
      case Ok(user) => Put(s', tid, UserSynced(pc.state, pc.claimed, pc.readAt, pc.info.employeeId, user))
      case Err(_) => End(s', tid)
    else s
  }

  function DoCallbackIssue(s: State, tid: nat, code: Uuid): State {
    if tid in s.threads && s.threads[tid].UserSynced? then
      var pc := s.threads[tid];
      End(s, tid)
        .(redis := Set(s.redis, CodeKey(code), UserRef(pc.user), s.cfg.codeSeconds, s.now),
          used := s.used + {code},
          hist := s.hist.(callbacks := s.hist.callbacks[code :=
            CallbackRecord(pc.state, pc.claimed, pc.readAt, pc.employeeId, pc.user, s.now)]))
    else s
  }

  function DoExchangeGet(s: State, tid: nat, code: Uuid): State {
    var found: Option<Stored> := Get(s.redis, CodeKey(code), s.now);
    match found
    case Some(UserRef(user)) => Put(s, tid, CodeHeld(code, user, s.now))
    case _ => s
  }

  function DoExchangeDelete(s: State, tid: nat): State {
    if tid in s.threads && s.threads[tid].CodeHeld? then
      var pc := s.threads[tid];
      Put(s, tid, CodeSpent(pc.code, pc.user, pc.readAt))
        .(redis := Del(s.redis, CodeKey(pc.code)),
          hist := s.hist.(spent := s.hist.spent + {pc.code}))
    else s
  }

  /** An account that may receive tokens: present, not deleted, active. */
  predicate MayHoldTokens(t: Tables, user: Uuid) {
    LiveUser(t, user) && t.users[user].isActive
  }

  function Minted(s: State, user: Uuid, accessId: Uuid, refreshId: Uuid, origin: Origin): State
    requires user in s.tables.users
  {
    s.(used := s.used + {accessId, refreshId},
       hist := s.hist.(
         access := s.hist.access[accessId := CreateAccessToken(s.now, s.cfg, user, s.tables.users[user].role,
             accessId)],
         refresh := s.hist.refresh[refreshId := CreateRefreshToken(s.now, s.cfg, user, refreshId)],
         origins := s.hist.origins[accessId := origin][refreshId := origin]))
  }

  function DoExchangeMint(s: State, tid: nat, accessId: Uuid, refreshId: Uuid): State {
    if tid in s.threads && s.threads[tid].CodeSpent? then
      var pc := s.threads[tid];
      if MayHoldTokens(s.tables, pc.user)
      then Put(Minted(s, pc.user, accessId, refreshId, ByExchange(pc.code, pc.readAt, s.now)), tid,
          TokensMinted(pc.user))
      else End(s, tid)
    else s
  }

  function Log(s: State, user: Uuid, op: KeyOp): seq<Activity> {
    s.hist.activity + [Activity(user, Act(op, s.now))]
  }

  function DoExchangeActivate(s: State, tid: nat): State {
    if tid in s.threads && s.threads[tid].TokensMinted? then
      var user := s.threads[tid].user;
      End(s, tid)
        .(redis := Set(s.redis, SessionKey(user), Flag, s.cfg.idleMinutes * 60, s.now),
          hist := s.hist.(activity := Log(s, user, Opened)))
    else s
  }

  function DoRefreshDecode(s: State, tid: nat, token: RefreshToken): State {
    if DecodesRefresh(s, token) then Put(s, tid, RefreshAccepted(token, s.now)) else s
  }

  function DoRefreshMint(s: State, tid: nat, accessId: Uuid, refreshId: Uuid): State {
    if tid in s.threads && s.threads[tid].RefreshAccepted? then
      var pc := s.threads[tid];
      if MayHoldTokens(s.tables, pc.refresh.sub)
      then End(Minted(s, pc.refresh.sub, accessId, refreshId, ByRefresh(pc.refresh.jti, pc.readAt, s.now)), tid)
      else End(s, tid)
    else s
  }

  function DoGateDecode(s: State, tid: nat, token: AccessToken, purpose: Purpose): State {
    if DecodesAccess(s, token) then Put(s, tid, TokenDecoded(token, purpose)) else s
  }

  /** The blacklist is read in a later step than the expiry was checked in. */
  function DoGateCheck(s: State, tid: nat): State {
    if tid in s.threads && s.threads[tid].TokenDecoded? then
      var pc := s.threads[tid];
      if Visible(s.redis, BlacklistKey(pc.token.jti), s.now)
      then End(s, tid)
      else Put(s, tid, NotListed(pc.token, pc.purpose))
    else s
  }

  function DoGateExists(s: State, tid: nat): State {
    if tid in s.threads && s.threads[tid].NotListed? then
      var pc := s.threads[tid];
      if Visible(s.redis, SessionKey(pc.token.sub), s.now)
      then Put(s, tid, SessionSeen(pc.token, pc.purpose))
      else End(s, tid)
    else s
  }

  function DoGateExpire(s: State, tid: nat): State {
    if tid in s.threads && s.threads[tid].SessionSeen? then
      var pc := s.threads[tid];
      Put(s, tid, SessionRenewed(pc.token, pc.purpose))
        .(redis := Expire(s.redis, SessionKey(pc.token.sub), s.cfg.idleMinutes * 60, s.now),
          hist := s.hist.(activity := Log(s, pc.token.sub, Touched)))
    else s
  }

  function DoGateLoad(s: State, tid: nat): State {
    if tid in s.threads && s.threads[tid].SessionRenewed? then
      var pc := s.threads[tid];
      if LiveUser(s.tables, pc.token.sub) && pc.purpose == LogOut
      then Put(s, tid, Admitted(pc.token))
      else End(s, tid)
    else s
  }

  /** Whole seconds left before expiry, as `int(...)` of the difference. */
  function SecondsLeft(now: Time, exp: Time): int {
    (exp - now) / SECOND
  }

  /** The token is decoded once more; if it has expired meanwhile the failure is swallowed and nothing is stored. */
  function DoLogoutList(s: State, tid: nat): State {
    if tid in s.threads && s.threads[tid].Admitted? then
      var t := s.threads[tid].token;
      if s.now < t.exp then
        var ttl := SecondsLeft(s.now, t.exp);
        Put(s, tid, Listed(t))
          .(redis := if ttl > 0 then Set(s.redis, BlacklistKey(t.jti), Flag, ttl, s.now) else s.redis)
      else End(s, tid)
    else s
  }

  function DoLogoutDelete(s: State, tid: nat): State {
    if tid in s.threads && s.threads[tid].Listed? then
      var t := s.threads[tid].token;
      End(s, tid)
        .(redis := Del(s.redis, SessionKey(t.sub)),
          hist := s.hist.(activity := Log(s, t.sub, Closed)))
    else s
  }

  /** A step whose request is not at the right point leaves the state as it is. */
  ghost function Apply(s: State, e: Event): State {
    match e
    case Tick(d) => s.(now := s.now + d)
    case StartLogin(state, nonce, verifier) => DoStartLogin(s, state, nonce, verifier)
    case CallbackGet(tid, state) => DoCallbackGet(s, tid, state)
    case CallbackDelete(tid) => DoCallbackDelete(s, tid)
    case CallbackVerify(tid, answer) => DoCallbackVerify(s, tid, answer)
    case CallbackSync(tid, newUser) => DoCallbackSync(s, tid, newUser)
    case CallbackIssue(tid, code) => DoCallbackIssue(s, tid, code)
    case ExchangeGet(tid, code) => DoExchangeGet(s, tid, code)
    case ExchangeDelete(tid) => DoExchangeDelete(s, tid)
    case ExchangeMint(tid, a, r) => DoExchangeMint(s, tid, a, r)
    case ExchangeActivate(tid) => DoExchangeActivate(s, tid)
    case RefreshDecode(tid, token) => DoRefreshDecode(s, tid, token)
    case RefreshMint(tid, a, r) => DoRefreshMint(s, tid, a, r)
    case GateDecode(tid, token, purpose) => DoGateDecode(s, tid, token, purpose)
    case GateCheck(tid) => DoGateCheck(s, tid)
    case GateExists(tid) => DoGateExists(s, tid)
    case GateExpire(tid) => DoGateExpire(s, tid)
    case GateLoad(tid) => DoGateLoad(s, tid)
    case LogoutList(tid) => DoLogoutList(s, tid)
    case LogoutDelete(tid) => DoLogoutDelete(s, tid)
    case Manage(op) => s.(tables := After(s.tables, op))
  }

  /** Ids drawn by a step have never been drawn before, a new request is a new thread, logins come by callback. */
  predicate Enabled(s: State, e: Event) {
    match e
    case StartLogin(state, nonce, verifier) =>
      state !in s.used && nonce !in s.used && verifier !in s.used && state != nonce && state != verifier &&
          nonce != verifier
    case CallbackGet(tid, _) => tid !in s.threads
    case CallbackSync(_, newUser) => newUser !in s.used
    case CallbackIssue(_, code) => code !in s.used
    case ExchangeGet(tid, _) => tid !in s.threads
    case ExchangeMint(_, a, r) => a !in s.used && r !in s.used && a != r
    case RefreshDecode(tid, _) => tid !in s.threads
    case RefreshMint(_, a, r) => a !in s.used && r !in s.used && a != r
    case GateDecode(tid, _, _) => tid !in s.threads
    case Manage(op) => !op.Login?
    case _ => true
  }

  // ------------------------------------------------ runs

  ghost function Exec(s: State, es: seq<Event>): State
    decreases |es|
  {
    if es == [] then s else Exec(Apply(s, es[0]), es[1..])
  }

  ghost predicate ValidRun(s: State, es: seq<Event>)
    decreases |es|
  {
    es == [] || (Enabled(s, es[0]) && ValidRun(Apply(s, es[0]), es[1..]))
  }

  const NOTHING := History(map[], {}, map[], {}, map[], map[], map[], [])

  /** A fresh deployment over existing tables: empty Redis, no request in flight. */
  ghost predicate Initial(s: State) {
    && s.redis == map[] && s.threads == map[] && s.hist == NOTHING
    && Valid(s.tables) && s.tables.users.Keys <= s.used
  }
}
