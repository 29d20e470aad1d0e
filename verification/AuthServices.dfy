/** The login service and its endpoints, run one request at a time against the protocol. */
module AuthServices {
  import opened Wrappers
  import opened TtlStore
  import opened Directory
  import opened Policies
  import opened Writes
  import opened DirectoryServices
  import opened AuthModel
  import opened AuthInvariants
  import opened Provenance
  import opened Sessions
  import opened SignOn
  import opened Lifetimes
  import opened Gate

  class AuthService {
    const redis: Redis<Key, Stored>
    const db: Database
    const cfg: Settings

    constructor (redis: Redis<Key, Stored>, db: Database, cfg: Settings)
      ensures this.redis == redis && this.db == db && this.cfg == cfg
    {
      this.redis, this.db, this.cfg := redis, db, cfg;
    }

    method SsoSyncUser(info: UserInfo, newId: Uuid, now: Time) returns (r: Outcome)
      requires db.Valid()
      modifies db
      ensures db.Valid() && KeepsPolicies(old(db.Snapshot()), Login(info, newId, now), db.Snapshot())
      ensures LoginWrites(old(db.Snapshot()), info, newId, now, db.Snapshot(), r)
      ensures (db.Snapshot(), r) == Directory.SsoSyncUser(old(db.Snapshot()), info, newId, now)
    {
      ghost var before := db.Snapshot();
      r := Synchronise(info, newId, now);
      PoliciesKept(before, Login(info, newId, now), db.Snapshot());
      LoginWritesColumns(before, info, newId, now);
    }

    method Synchronise(info: UserInfo, newId: Uuid, now: Time) returns (r: Outcome)
      requires db.Valid()
      modifies db
      ensures (db.Snapshot(), r) == Directory.SsoSyncUser(old(db.Snapshot()), info, newId, now)
    {
      var found := db.SelectByEmployee(info.employeeId);
      var target := FindTargetRole(info);
      if found == None {
        r := Register(info, newId, target, now);
      } else {
        var user := RefreshRow(found.value, info, target, now);
        r := if user.isActive then Ok(found.value) else Err(Forbidden);
      }
    }

    /** The INSERT of an unknown employee, unless the database refuses it. */
    method Register(info: UserInfo, newId: Uuid, target: UserRole, now: Time) returns (r: Outcome)
      modifies db`users
      ensures var taken := old(newId in db.users || exists u :: u in db.users && db.users[u].email == info.email);
              if taken then r == Err(Conflict) && db.users == old(db.users)
              else r == Ok(newId) && db.users == old(db.users)[newId := NewUser(info, target, now)]
    {
      if newId in db.users || exists u :: u in db.users && db.users[u].email == info.email {
        return Err(Conflict);
      }
      db.SetUser(newId, User(info.email, info.employeeId, info.fullName, info.department, info.departmentCode,
                             info.site, target, true, now, None));
      r := Ok(newId);
    }

    /** The group lookup. */
    method FindTargetRole(info: UserInfo) returns (target: UserRole)
      ensures target == TargetRole(db.groups, info)
    {
      target := PermissionRequired;
      var key := GroupKey(info);
      if key != "" && Whitelisted(db.groups, key) {
        target := Regular;
      }
    }

    /** The column writes of a known employee's login. */
    method RefreshRow(id: Uuid, info: UserInfo, target: UserRole, now: Time) returns (user: User)
      requires id in db.users
      modifies db`users
      ensures user == Synced(old(db.users)[id], info, target, now) && db.users == old(db.users)[id := user]
    {
      user := db.users[id];
      user := user.(fullName := info.fullName, department := info.department);
      user := user.(departmentCode := info.departmentCode, site := info.site);
      if user.role == PermissionRequired && target == Regular {
        user := user.(role := target);
      }
      user := user.(lastLoginAt := now);
      db.SetUser(id, user);
    }

    /** The user can be read back under the code until its lifetime is over, and no other key is touched. */
    method GenerateAuthCode(code: Uuid, user: Uuid, now: Time)
      modifies redis
      ensures forall at :: Get(redis.db, CodeKey(code), at)
                == if at < now + cfg.codeSeconds * SECOND then Some(UserRef(user)) else None
      ensures forall k :: k != CodeKey(code) ==> SameEntry(old(redis.db), redis.db, k)
      ensures redis.db == Set(old(redis.db), CodeKey(code), UserRef(user), cfg.codeSeconds, now)
    {
      redis.SetCmd(CodeKey(code), UserRef(user), cfg.codeSeconds, now);
    }

    /** The read happens at `now`, the delete at `later`. */
    method ExchangeAuthCode(code: Uuid, now: Time, later: Time) returns (r: Option<Uuid>)
      modifies redis
      ensures var found := Get(old(redis.db), CodeKey(code), now);
              if found.Some? && found.value.UserRef?
              then r == Some(found.value.user) && redis.db == Del(old(redis.db), CodeKey(code))
              else r == None && redis.db == old(redis.db)
    {
      var found := redis.GetCmd(CodeKey(code), now);
      if found.Some? && found.value.UserRef? {
        redis.DeleteCmd(CodeKey(code));
        return Some(found.value.user);
      }
      r := None;
    }

    /** The session is visible for the idle timeout, whatever it was before, and no other key is touched. */
    method ActivateSession(user: Uuid, now: Time)
      modifies redis
      ensures forall at :: Visible(redis.db, SessionKey(user), at) <==> at < now + cfg.idleMinutes * 60 * SECOND
      ensures forall k :: k != SessionKey(user) ==> SameEntry(old(redis.db), redis.db, k)
      ensures redis.db == Set(old(redis.db), SessionKey(user), Flag, cfg.idleMinutes * 60, now)
    {
      var ttl := cfg.idleMinutes * 60;
      redis.SetCmd(SessionKey(user), Flag, ttl, now);
    }

    /** EXISTS runs at `now`, EXPIRE at `later`. */
    method TouchSession(user: Uuid, now: Time, later: Time) returns (alive: bool)
      modifies redis
      ensures alive == Visible(old(redis.db), SessionKey(user), now)
      ensures redis.db == if alive then Expire(old(redis.db), SessionKey(user), cfg.idleMinutes * 60, later)
                else old(redis.db)
    {
      alive := redis.ExistsCmd(SessionKey(user), now);
      if alive {
        var ttl := cfg.idleMinutes * 60;
        redis.ExpireCmd(SessionKey(user), ttl, later);
      }
    }

    /** The blacklist entry is written at `now`; the session is deleted afterwards. */
    method Logout(jti: Uuid, exp: Time, user: Uuid, now: Time)
      modifies redis
      ensures var ttl := SecondsLeft(now, exp);
              var listed := if ttl > 0 then Set(old(redis.db), BlacklistKey(jti), Flag, ttl, now) else old(redis.db);
              redis.db == Del(listed, SessionKey(user))
    {
      var ttl := (exp - now) / SECOND;
      if ttl > 0 {
        redis.SetCmd(BlacklistKey(jti), Flag, ttl, now);
      }
      redis.DeleteCmd(SessionKey(user));
    }
  }

  /** One more step at the end of a run. */
  lemma {:induction false} RunAppend(s: State, es: seq<Event>, e: Event)
    ensures Exec(s, es + [e]) == Apply(Exec(s, es), e)
    ensures ValidRun(s, es + [e]) <==> ValidRun(s, es) && Enabled(Exec(s, es), e)
    decreases |es|
  {
    if es == [] {
      assert es + [e] == [e] && [e][1..] == [];
    } else {
      assert (es + [e])[1..] == es[1..] + [e];
      RunAppend(Apply(s, es[0]), es[1..], e);
    }
  }

  /** The two session commands of the gate as one step, when nothing runs between them. */
  lemma TouchEffect(s: State, tid: nat, token: AccessToken, purpose: Purpose, d: nat)
    requires At(s, tid) && s.threads[tid] == NotListed(token, purpose)
    ensures !SessionOpen(s, token.sub) ==> Apply(s, GateExists(tid)) == End(s, tid)
    ensures SessionOpen(s, token.sub) ==>
              var s' := Apply(Apply(Apply(s, GateExists(tid)), Tick(d)), GateExpire(tid));
              s' == Put(s, tid, SessionRenewed(token, purpose)).(now := s.now + d, hist := s'.hist,
                      redis := Expire(s.redis, SessionKey(token.sub), s.cfg.idleMinutes * 60, s.now + d))
  {
    var s1 := Put(s, tid, SessionSeen(token, purpose));
    if SessionOpen(s, token.sub) {
      assert Apply(s, GateExists(tid)) == s1;
      assert s1.threads[tid := SessionRenewed(token, purpose)] == s.threads[tid := SessionRenewed(token, purpose)];
    }
  }

  datatype HttpError = BadRequestError | UnauthorizedError | RedirectedError | ForbiddenError(why: Refusal)

  /**
   * The endpoints. `past` is the run of the protocol so far and `model` the state it leads to; Redis, the
   * tables and the clock always agree with it, so everything proved of reachable states holds of the server.
   */
  class AuthEndpoints {
    const redis: Redis<Key, Stored>
    const db: Database
    const service: AuthService
    const cfg: Settings
    var clock: Time
    ghost var start: State
    ghost var past: seq<Event>
    ghost var model: State

    ghost predicate Running()
      reads this
    {
      Initial(start) && ValidRun(start, past) && model == Exec(start, past)
    }

    ghost predicate Agrees()
      reads this, redis, db
    {
      && service.redis == redis && service.db == db && service.cfg == cfg
      && model.redis == redis.db && model.tables == db.Snapshot() && model.cfg == cfg && model.now == clock
    }

    constructor (redis: Redis<Key, Stored>, db: Database, cfg: Settings, now: Time)
      requires redis.db == map[] && db.Valid()
      ensures Running() && Agrees() && this.redis == redis && this.db == db && fresh(service)
      ensures model.hist == NOTHING && model.threads == map[]
    {
      this.redis, this.db, this.cfg, clock := redis, db, cfg, now;
      service := new AuthService(redis, db, cfg);
      start := State(cfg, now, map[], Tables(db.users, db.groups), map[], db.users.Keys, NOTHING);
      past := [];
      model := State(cfg, now, map[], Tables(db.users, db.groups), map[], db.users.Keys, NOTHING);
    }

    ghost method Advance(e: Event)
      requires Running() && Enabled(model, e)
      modifies this`past, this`model
      ensures Running() && past == old(past) + [e] && model == Apply(old(model), e)
    {
      RunAppend(start, past, e);
      past := past + [e];
      model := Apply(model, e);
    }

    /** Time goes by while a request awaits. */
    method Await(d: nat)
      requires Running() && Agrees()
      modifies this`clock, this`past, this`model
      ensures Running() && Agrees() && old(past) <= past && model == old(model).(now := old(model).now + d)
      ensures clock == old(clock) + d
    {
      Advance(Tick(d));
      clock := clock + d;
    }

    lemma Reached()
      requires Running()
      ensures Inv(model)
    {
      InitialInv(start);
      RunKeepsInv(start, past);
    }

    lemma TablesSound()
      requires Running()
      ensures Valid(model.tables)
    {
      Reached();
    }

    lemma CodeNamesUser(code: Uuid)
      requires Running() && CodeReadable(model, code)
      ensures code in model.hist.callbacks
      ensures Get(model.redis, CodeKey(code), model.now) == Some(UserRef(model.hist.callbacks[code].user))
    {
      Reached();
      ReadYieldsUser(model, code);
    }

    lemma StateNamesNonce(state: Uuid)
      requires Running() && StateReadable(model, state)
      ensures state in model.hist.logins
      ensures var found := Get(model.redis, StateKey(state), model.now);
              found.Some? && found.value.LoginData? && found.value.nonce == model.hist.logins[state].nonce
    {
      Reached();
    }

    method LoginViaSso(healthy: bool, state: Uuid, nonce: Uuid, verifier: Uuid) returns (ok: bool)
      requires Running() && Agrees() && Enabled(model, StartLogin(state, nonce, verifier))
      modifies this, redis
      ensures Running() && Agrees() && old(past) <= past
      ensures ok == healthy && model == if ok then Apply(old(model), StartLogin(state, nonce, verifier)) else old(model)
      ensures ok ==> forall at :: Get(redis.db, StateKey(state), at)
                       == if at < old(clock) + 600 * SECOND then Some(LoginData(nonce, verifier)) else None
    {
      if !healthy {
        return false;
      }
      redis.SetCmd(StateKey(state), LoginData(nonce, verifier), STATE_SECONDS, clock);
      Advance(StartLogin(state, nonce, verifier));
      ok := true;
    }

    // ---- callback

    /** GET, then DELETE, of the stored login state. */
    method ConsumeState(ghost tid: nat, state: Uuid, d: nat) returns (r: Option<Uuid>)
      requires Running() && Agrees() && !At(model, tid)
      modifies this, redis
      ensures Running() && Agrees() && old(past) <= past
      ensures r.Some? <==> old(StateReadable(model, state))
      ensures r.None? ==> model == old(model)
      ensures r.Some? ==>
                && state in old(model.hist.logins) && r.value == old(model.hist.logins)[state].nonce
                && model.hist == old(model.hist).(consumed := old(model.hist.consumed) + {state})
                && model.threads == old(model.threads)[tid := StateGone(state, r.value, old(clock))]
                && model.used == old(model.used) && model.tables == old(model.tables) && clock == old(clock) + d
    {
      var stored := redis.GetCmd(StateKey(state), clock);
      if stored == None {
        return None;
      }
      StateNamesNonce(state);
      r := Some(stored.value.nonce);
      Advance(CallbackGet(tid, state));
      Await(d);
      redis.DeleteCmd(StateKey(state));
      Advance(CallbackDelete(tid));
    }

    /** The nonce comparison on the provider's answer. */
    method VerifyAnswer(ghost tid: nat, nonce: Uuid, answer: IdpAnswer) returns (ok: bool)
      requires Running() && Agrees() && At(model, tid)
      requires model.threads[tid].StateGone? && model.threads[tid].nonce == nonce
      modifies this`past, this`model
      ensures Running() && Agrees() && old(past) <= past
      ensures ok <==> answer.IdToken? && answer.nonce == Some(nonce)
      ensures var pc := old(model.threads)[tid];
              model == old(model).(threads :=
                if ok then old(model.threads)[tid := Verified(pc.state, answer.nonce, pc.readAt, answer.info)]
                else old(model.threads) - {tid})
    {
      ok := answer.IdToken? && answer.nonce == Some(nonce);
      Advance(CallbackVerify(tid, answer));
    }

    method SyncUser(ghost tid: nat, info: UserInfo, newUser: Uuid) returns (r: Outcome)
      requires Running() && Agrees() && At(model, tid) && newUser !in model.used
      requires model.threads[tid].Verified? && model.threads[tid].info == info
      modifies this`past, this`model, db
      ensures Running() && Agrees() && old(past) <= past
      ensures r == Directory.SsoSyncUser(old(model.tables), info, newUser, clock).1
      ensures model.hist == old(model.hist) && model.used == old(model.used) + {newUser}
      ensures r.Err? ==> model.threads == old(model.threads) - {tid}
      ensures r.Ok? ==> var pc := old(model.threads)[tid];
                model.threads == old(model.threads)[tid := UserSynced(pc.state, pc.claimed, pc.readAt,
                    info.employeeId, r.value)]
    {
      TablesSound();
      r := service.SsoSyncUser(info, newUser, clock);
      Advance(CallbackSync(tid, newUser));
    }

    method IssueCode(ghost tid: nat, user: Uuid, code: Uuid)
      requires Running() && Agrees() && At(model, tid) && code !in model.used
      requires model.threads[tid].UserSynced? && model.threads[tid].user == user
      modifies this`past, this`model, redis
      ensures Running() && Agrees() && old(past) <= past && CodeReadable(model, code) && !At(model, tid)
      ensures code in model.hist.callbacks && model.hist.callbacks[code].state == old(model.threads)[tid].state
      ensures model.hist.callbacks[code].user == user && model.hist.consumed == old(model.hist.consumed)
    {
      service.GenerateAuthCode(code, user, clock);
      Advance(CallbackIssue(tid, code));
    }

    /** The provider's answer, checked and turned into an account. */
    method ProcessAnswer(ghost tid: nat, nonce: Uuid, answer: IdpAnswer, newUser: Uuid, d: nat)
      returns (r: Result<Uuid, HttpError>)
      requires Running() && Agrees() && At(model, tid) && newUser !in model.used
      requires model.threads[tid].StateGone? && model.threads[tid].nonce == nonce
      modifies this`clock, this`past, this`model, db
      ensures Running() && Agrees() && old(past) <= past
      ensures model.hist == old(model.hist) && model.used <= old(model.used) + {newUser}
      ensures r.Ok? <==> answer.IdToken? && answer.nonce == Some(nonce)
                         && Directory.SsoSyncUser(old(model.tables), answer.info, newUser, old(clock) + d).1.Ok?
      ensures r.Ok? ==> Ok(r.value) == Directory.SsoSyncUser(old(model.tables), answer.info, newUser, old(clock) + d).1
      ensures r.Err? ==> model.threads == old(model.threads) - {tid}
      ensures r.Ok? ==> At(model, tid) && model.threads[tid].UserSynced? && model.threads[tid].user == r.value
                        && model.threads[tid].state == old(model.threads)[tid].state
    {
      var verified := VerifyAnswer(tid, nonce, answer);
      if !verified {
        return Err(RedirectedError);
      }
      Await(d);
      var synced := SyncUser(tid, answer.info, newUser);
      r := if synced.Ok? then Ok(synced.value) else Err(RedirectedError);
    }

    /** The code handed to the browser, or a redirect to the login page. */
    method SsoCallback(ghost tid: nat, state: Uuid, answer: IdpAnswer, newUser: Uuid, code: Uuid, d: seq<nat>)
      returns (r: Result<Uuid, HttpError>)
      requires Running() && Agrees() && |d| == 4 && !At(model, tid)
      requires newUser !in model.used && code !in model.used && newUser != code
      modifies this, redis, db
      ensures Running() && Agrees() && old(past) <= past && !At(model, tid)
      ensures r.Ok? <==>
              && old(StateReadable(model, state)) && state in old(model.hist.logins) && answer.IdToken?
              && answer.nonce == Some(old(model.hist.logins)[state].nonce)
              && Directory.SsoSyncUser(old(model.tables), answer.info, newUser, old(clock) + d[0] + d[1] + d[2]).1.Ok?
      ensures r.Ok? ==>
                && r.value == code && CodeReadable(model, code)
                && code in model.hist.callbacks && model.hist.callbacks[code].state == state
                && Ok(model.hist.callbacks[code].user)
                   == Directory.SsoSyncUser(old(model.tables), answer.info, newUser, old(clock) + d[0] + d[1] + d[2]).1
      ensures old(StateReadable(model, state)) ==> state in model.hist.consumed
      ensures r.Err? ==> model.hist.callbacks == old(model.hist.callbacks)
    {
      var nonce := ConsumeState(tid, state, d[0]);
      if nonce == None {
        return Err(RedirectedError);
      }
      Await(d[1]);
      var synced := ProcessAnswer(tid, nonce.value, answer, newUser, d[2]);
      if synced.Err? {
        return Err(RedirectedError);
      }
      Await(d[3]);
      IssueCode(tid, synced.value, code);
      r := Ok(code);
    }

    // ---- token exchange and refresh

    /** GET, then DELETE, of the auth code. */
    method SpendCode(ghost tid: nat, code: Uuid, d: nat) returns (r: Option<Uuid>)
      requires Running() && Agrees() && !At(model, tid)
      modifies this, redis
      ensures Running() && Agrees() && old(past) <= past
      ensures r.Some? <==> old(CodeReadable(model, code))
      ensures r.None? ==> model == old(model)
      ensures r.Some? ==>
                && code in old(model.hist.callbacks) && r.value == old(model.hist.callbacks)[code].user
                && model.hist == old(model.hist).(spent := old(model.hist.spent) + {code})
                && model.threads == old(model.threads)[tid := CodeSpent(code, r.value, old(clock))]
                && model.used == old(model.used) && model.tables == old(model.tables)
    {
      if CodeReadable(model, code) {
        CodeNamesUser(code);
      }
      r := service.ExchangeAuthCode(code, clock, clock + d);
      if r.Some? {
        Advance(ExchangeGet(tid, code));
        Advance(Tick(d));
        clock := clock + d;
        Advance(ExchangeDelete(tid));
      }
    }

    /** The account is there, not deleted, and active. */
    predicate MayHold(t: Tables, user: Uuid) {
      user in t.users && t.users[user].deletedAt == None && t.users[user].isActive
    }

    /** The two tokens handed out are the two just signed, under these ids, for this user and of one origin. */
    ghost predicate SignedPair(pair: (AccessToken, RefreshToken), user: Uuid, accessId: Uuid, refreshId: Uuid)
      reads this
    {
      && accessId in model.hist.access && pair.0 == model.hist.access[accessId]
      && refreshId in model.hist.refresh && pair.1 == model.hist.refresh[refreshId]
      && pair.0.jti == accessId && pair.1.jti == refreshId && pair.0.sub == user && pair.1.sub == user
      && accessId in model.hist.origins && refreshId in model.hist.origins
      && model.hist.origins[refreshId] == model.hist.origins[accessId]
    }

    /** The account check and the two signatures of an exchange. */
    method MintForCode(ghost tid: nat, user: Uuid, accessId: Uuid, refreshId: Uuid)
      returns (r: Option<(AccessToken, RefreshToken)>)
      requires Running() && Agrees() && At(model, tid)
      requires model.threads[tid].CodeSpent? && model.threads[tid].user == user
      requires accessId !in model.used && refreshId !in model.used && accessId != refreshId
      modifies this`past, this`model
      ensures Running() && Agrees() && old(past) <= past
      ensures r.Some? <==> MayHold(old(model.tables), user)
      ensures r.None? ==> model == End(old(model), tid)
      ensures r.Some? ==> && SignedPair(r.value, user, accessId, refreshId)
                          && r.value.0.role == old(model.tables.users)[user].role
                          && MintedFrom(model.hist, accessId, old(model.threads)[tid].code)
                          && At(model, tid) && model.threads[tid] == TokensMinted(user)
                          && model.hist.spent == old(model.hist.spent)
    {
      var row := db.GetUser(user);
      r := None;
      if row.Some? && row.value.isActive {
        r := Some((CreateAccessToken(clock, cfg, user, row.value.role, accessId),
            CreateRefreshToken(clock, cfg, user, refreshId)));
      }
      Advance(ExchangeMint(tid, accessId, refreshId));
    }

    method OpenSession(ghost tid: nat, user: Uuid)
      requires Running() && Agrees() && At(model, tid) && model.threads[tid] == TokensMinted(user)
      modifies this`past, this`model, redis
      ensures Running() && Agrees() && old(past) <= past && !At(model, tid) && SessionOpen(model, user)
      ensures model.hist == old(model.hist).(activity := model.hist.activity)
    {
      service.ActivateSession(user, clock);
      Advance(ExchangeActivate(tid));
    }

    method ExchangeToken(ghost tid: nat, code: Uuid, accessId: Uuid, refreshId: Uuid, d: seq<nat>)
      returns (r: Result<(AccessToken, RefreshToken), HttpError>)
      requires Running() && Agrees() && |d| == 3 && !At(model, tid)
      requires accessId !in model.used && refreshId !in model.used && accessId != refreshId
      modifies this, redis
      ensures Running() && Agrees() && old(past) <= past && !At(model, tid)
      ensures r.Ok? <==> old(CodeReadable(model, code)) && code in old(model.hist.callbacks)
                         && MayHold(old(model.tables), old(model.hist.callbacks)[code].user)
      ensures r.Ok? ==> var user := old(model.hist.callbacks)[code].user;
                        && SignedPair(r.value, user, accessId, refreshId) && MintedFrom(model.hist, accessId, code)
                        && r.value.0.role == old(model.tables.users)[user].role && SessionOpen(model, user)
      ensures old(CodeReadable(model, code)) ==> code in model.hist.spent
      ensures r.Err? ==> model.hist.access == old(model.hist.access) && model.hist.refresh == old(model.hist.refresh)
    {
      var user := SpendCode(tid, code, d[0]);
      if user == None {
        return Err(BadRequestError);
      }
      Await(d[1]);
      var pair := MintForCode(tid, user.value, accessId, refreshId);
      if pair == None {
        return Err(UnauthorizedError);
      }
      Await(d[2]);
      OpenSession(tid, user.value);
      r := Ok(pair.value);
    }

    /** Decoding of the refresh cookie. */
    method AcceptRefresh(ghost tid: nat, token: RefreshToken, issued: bool) returns (ok: bool)
      requires Running() && Agrees() && !At(model, tid)
      requires issued <==> token.jti in model.hist.refresh && model.hist.refresh[token.jti] == token
      modifies this`past, this`model
      ensures Running() && Agrees() && old(past) <= past
      ensures ok <==> DecodesRefresh(old(model), token)
      ensures model == if ok then Put(old(model), tid, RefreshAccepted(token, clock)) else old(model)
    {
      if !issued || token.exp <= clock {
        return false;
      }
      Advance(RefreshDecode(tid, token));
      ok := true;
    }

    /** The account check and the two signatures of a refresh. */
    method MintForRefresh(ghost tid: nat, user: Uuid, accessId: Uuid, refreshId: Uuid)
      returns (r: Option<(AccessToken, RefreshToken)>)
      requires Running() && Agrees() && At(model, tid)
      requires model.threads[tid].RefreshAccepted? && model.threads[tid].refresh.sub == user
      requires accessId !in model.used && refreshId !in model.used && accessId != refreshId
      modifies this`past, this`model
      ensures Running() && Agrees() && old(past) <= past && !At(model, tid)
      ensures r.Some? <==> MayHold(old(model.tables), user)
      ensures r.None? ==> model.hist == old(model.hist)
      ensures r.Some? ==> && SignedPair(r.value, user, accessId, refreshId) && DecodesRefresh(model, r.value.1)
                          && r.value.0.role == old(model.tables.users)[user].role
                          && var pc := old(model.threads)[tid];
                             model.hist.origins[accessId] == ByRefresh(pc.refresh.jti, pc.readAt, clock)
    {
      var row := db.GetUser(user);
      r := None;
      if row.Some? && row.value.isActive {
        r := Some((CreateAccessToken(clock, cfg, user, row.value.role, accessId),
            CreateRefreshToken(clock, cfg, user, refreshId)));
      }
      FreshRefreshLasts(clock, cfg);
      Advance(RefreshMint(tid, accessId, refreshId));
    }

    /** `issued` is the outcome of the signature check. */
    method RefreshTokens(ghost tid: nat, cookie: Option<RefreshToken>, issued: bool, accessId: Uuid,
                         refreshId: Uuid, d: nat)
      returns (r: Result<(AccessToken, RefreshToken), HttpError>)
      requires Running() && Agrees() && !At(model, tid)
      requires accessId !in model.used && refreshId !in model.used && accessId != refreshId
      requires cookie.Some? ==>
                 (issued <==> && cookie.value.jti in model.hist.refresh
                              && model.hist.refresh[cookie.value.jti] == cookie.value)
      modifies this
      ensures Running() && Agrees() && old(past) <= past && !At(model, tid) && redis.db == old(redis.db)
      ensures r.Ok? <==> && cookie.Some? && DecodesRefresh(old(model), cookie.value)
                         && MayHold(old(model.tables), cookie.value.sub)
      ensures r.Ok? ==> && SignedPair(r.value, cookie.value.sub, accessId, refreshId)
                        && DecodesRefresh(model, r.value.1)
                        && r.value.0.role == old(model.tables.users)[cookie.value.sub].role
                        && model.hist.origins[accessId] == ByRefresh(cookie.value.jti, old(clock), clock)
      ensures r.Err? ==> model.hist == old(model.hist)
    {
      if cookie == None {
        return Err(UnauthorizedError);
      }
      var ok := AcceptRefresh(tid, cookie.value, issued);
      if !ok {
        return Err(UnauthorizedError);
      }
      Await(d);
      var pair := MintForRefresh(tid, cookie.value.sub, accessId, refreshId);
      r := if pair.Some? then Ok(pair.value) else Err(UnauthorizedError);
    }

    // ---- the gate and logout

    /** Decoding, then the blacklist read `d` later. */
    method CheckToken(ghost tid: nat, token: AccessToken, issued: bool, purpose: Purpose, d: nat) returns (ok: bool)
      requires Running() && Agrees() && !At(model, tid)
      requires issued <==> token.jti in model.hist.access && model.hist.access[token.jti] == token
      modifies this`clock, this`past, this`model
      ensures Running() && Agrees() && old(past) <= past && model.hist == old(model.hist)
      ensures ok <==> && issued && old(clock) < token.exp
                      && !Visible(old(redis.db), BlacklistKey(token.jti), old(clock) + d)
      ensures ok ==> clock == old(clock) + d && model.threads == old(model.threads)[tid := NotListed(token, purpose)]
      ensures !ok ==> !At(model, tid)
    {
      if !issued || token.exp <= clock {
        return false;
      }
      Advance(GateDecode(tid, token, purpose));
      Await(d);
      var listed := redis.ExistsCmd(BlacklistKey(token.jti), clock);
      Advance(GateCheck(tid));
      ok := !listed;
    }

    ghost method AdvanceTouch(tid: nat, token: AccessToken, purpose: Purpose, d: nat)
      requires Running() && At(model, tid) && model.threads[tid] == NotListed(token, purpose)
      modifies this`past, this`model
      ensures Running() && old(past) <= past
      ensures var s := old(model);
              model == if SessionOpen(s, token.sub)
                       then Put(s, tid, SessionRenewed(token, purpose)).(now := s.now + d, hist := model.hist,
                              redis := Expire(s.redis, SessionKey(token.sub), s.cfg.idleMinutes * 60, s.now + d))
                       else End(s, tid)
    {
      TouchEffect(model, tid, token, purpose, d);
      var alive := SessionOpen(model, token.sub);
      Advance(GateExists(tid));
      if alive {
        Advance(Tick(d));
        Advance(GateExpire(tid));
      }
    }

    /** The sliding session: EXISTS, then EXPIRE. */
    method RenewSession(ghost tid: nat, token: AccessToken, ghost purpose: Purpose, d: nat) returns (alive: bool)
      requires Running() && Agrees() && At(model, tid) && model.threads[tid] == NotListed(token, purpose)
      modifies this, redis
      ensures Running() && Agrees() && old(past) <= past && model.tables == old(model.tables)
      ensures alive == old(SessionOpen(model, token.sub))
      ensures model.threads == if alive then old(model.threads)[tid := SessionRenewed(token, purpose)]
                else old(model.threads) - {tid}
      ensures alive && Visible(old(redis.db), SessionKey(token.sub), clock) ==>
                SessionOpen(model, token.sub) && redis.db[SessionKey(token.sub)].expiry ==
                    clock + cfg.idleMinutes * 60 * SECOND
    {
      alive := service.TouchSession(token.sub, clock, clock + d);
      AdvanceTouch(tid, token, purpose, d);
      if alive {
        clock := clock + d;
      }
    }

    /** The account lookup that ends the authentication. */
    method LoadUser(ghost tid: nat, token: AccessToken, ghost purpose: Purpose) returns (r: Option<User>)
      requires Running() && Agrees() && At(model, tid) && model.threads[tid] == SessionRenewed(token, purpose)
      modifies this`past, this`model
      ensures Running() && Agrees() && old(past) <= past && model.tables == old(model.tables)
      ensures r == if LiveUser(model.tables, token.sub) then Some(db.users[token.sub]) else None
      ensures if r.Some? && purpose == LogOut
              then At(model, tid) && model.threads[tid] == Admitted(token) else !At(model, tid)
    {
      r := db.GetUser(token.sub);
      Advance(GateLoad(tid));
    }

    /**
     * The authentication dependency. The Authorization header wins over the cookie. On success a logout
     * request stays suspended at `Admitted`. The waits are before the blacklist read, EXISTS, EXPIRE and the lookup.
     */
    method GetCurrentUser(ghost tid: nat, header: Option<AccessToken>, cookie: Option<AccessToken>, issued: bool,
                          purpose: Purpose, d: seq<nat>)
      returns (r: Result<User, HttpError>)
      requires Running() && Agrees() && |d| == 4 && !At(model, tid)
      requires IssuedCorrectly(Shown(header, cookie), issued)
      modifies this, redis
      ensures Running() && Agrees() && old(past) <= past && db.users == old(db.users)
      ensures r.Ok? <==> issued && old(PassesGate(Shown(header, cookie), d))
      ensures r.Ok? ==> var token := Shown(header, cookie).value;
              && token.sub in db.users && r.value == db.users[token.sub]
              && if purpose == LogOut then At(model, tid) && model.threads[tid] == Admitted(token) else !At(model, tid)
      ensures r.Err? ==> r.error == UnauthorizedError && !At(model, tid)
    {
      var token := header;
      if token == None {
        token := cookie;
      }
      if token == None {
        return Err(UnauthorizedError);
      }
      var ok := CheckToken(tid, token.value, issued, purpose, d[0]);
      if !ok {
        return Err(UnauthorizedError);
      }
      var user := EnterSession(tid, token.value, purpose, d[1], d[2], d[3]);
      r := if user.Some? then Ok(user.value) else Err(UnauthorizedError);
    }

    /** Past the blacklist: the session and the account. */
    method EnterSession(ghost tid: nat, token: AccessToken, ghost purpose: Purpose, d1: nat, d2: nat, d3: nat)
      returns (r: Option<User>)
      requires Running() && Agrees() && At(model, tid) && model.threads[tid] == NotListed(token, purpose)
      modifies this, redis
      ensures Running() && Agrees() && old(past) <= past && db.users == old(db.users)
      ensures r.Some? <==> && old(Visible(redis.db, SessionKey(token.sub), clock + d1))
                           && LiveUser(old(model.tables), token.sub)
      ensures r.Some? ==> && token.sub in db.users && r.value == db.users[token.sub]
                          && (purpose == LogOut ==> At(model, tid) && model.threads[tid] == Admitted(token))
      ensures r.None? || purpose != LogOut ==> !At(model, tid)
    {
      Await(d1);
      var alive := RenewSession(tid, token, purpose, d2);
      if !alive {
        return None;
      }
      Await(d3);
      r := LoadUser(tid, token, purpose);
    }

    /** The token a request shows. */
    function Shown(header: Option<AccessToken>, cookie: Option<AccessToken>): (shown: Option<AccessToken>)
      ensures header.Some? ==> shown == header
      ensures header == None ==> shown == cookie
    {
      if header.Some? then header else cookie
    }

    /** `issued` is the outcome of the signature check. */
    ghost predicate IssuedCorrectly(token: Option<AccessToken>, issued: bool)
      reads this
    {
      token.Some? ==>
        (issued <==> token.value.jti in model.hist.access && model.hist.access[token.value.jti] == token.value)
    }

    /** Unexpired when decoded, unlisted when looked up, its session visible when asked for, its user live. */
    ghost predicate PassesGate(token: Option<AccessToken>, d: seq<nat>)
      requires |d| == 4
      reads this, redis
    {
      && token.Some? && clock < token.value.exp
      && !Visible(redis.db, BlacklistKey(token.value.jti), clock + d[0])
      && Visible(redis.db, SessionKey(token.value.sub), clock + d[0] + d[1])
      && LiveUser(model.tables, token.value.sub)
    }

    /** The role and account checks on top; the token's role claim is never looked at. */
    method GetCurrentActiveUser(ghost tid: nat, header: Option<AccessToken>, cookie: Option<AccessToken>, issued: bool,
                                d: seq<nat>)
      returns (r: Result<User, HttpError>)
      requires Running() && Agrees() && |d| == 4 && !At(model, tid)
      requires IssuedCorrectly(Shown(header, cookie), issued)
      modifies this, redis
      ensures Running() && Agrees() && old(past) <= past && !At(model, tid) && db.users == old(db.users)
      ensures r.Ok? <==> (issued && old(PassesGate(Shown(header, cookie), d)) &&
                          var row := db.users[Shown(header, cookie).value.sub];
                          row.isActive && row.role in {Regular, Admin, SuperAdmin})
      ensures r.Ok? ==> r.value == db.users[Shown(header, cookie).value.sub]
      ensures r.Err? && r.error == UnauthorizedError <==> !(issued && old(PassesGate(Shown(header, cookie), d)))
      ensures issued && old(PassesGate(Shown(header, cookie), d)) ==>
                var row := db.users[Shown(header, cookie).value.sub];
                && (row.role == PermissionRequired ==> r == Err(ForbiddenError(PermissionNeeded)))
                && (row.role == PermissionRequested ==> r == Err(ForbiddenError(PermissionPending)))
                && (row.role in {Regular, Admin, SuperAdmin} && !row.isActive ==> r == Err(ForbiddenError(Inactive)))
    {
      var current := GetCurrentUser(tid, header, cookie, issued, CallApi, d);
      if current.Err? {
        return current;
      }
      var user := current.value;
      if user.role == PermissionRequired {
        return Err(ForbiddenError(PermissionNeeded));
      }
      if user.role == PermissionRequested {
        return Err(ForbiddenError(PermissionPending));
      }
      if !user.isActive {
        return Err(ForbiddenError(Inactive));
      }
      r := Ok(user);
    }

    /** The role dependency: one of the roles listed, exactly; a higher one is not enough. */
    method RequireRole(ghost tid: nat, roles: seq<UserRole>, header: Option<AccessToken>, cookie: Option<AccessToken>,
                       issued: bool, d: seq<nat>)
      returns (r: Result<User, HttpError>)
      requires Running() && Agrees() && |d| == 4 && !At(model, tid)
      requires IssuedCorrectly(Shown(header, cookie), issued)
      modifies this, redis
      ensures Running() && Agrees() && old(past) <= past && !At(model, tid) && db.users == old(db.users)
      ensures r.Ok? <==> (issued && old(PassesGate(Shown(header, cookie), d)) &&
                          var row := db.users[Shown(header, cookie).value.sub];
                          row.isActive && row.role in {Regular, Admin, SuperAdmin} && row.role in roles)
      ensures r.Ok? ==> r.value == db.users[Shown(header, cookie).value.sub]
      ensures r.Err? && r.error == UnauthorizedError <==> !(issued && old(PassesGate(Shown(header, cookie), d)))
      ensures issued && old(PassesGate(Shown(header, cookie), d)) ==>
                var row := db.users[Shown(header, cookie).value.sub];
                row.isActive && row.role in {Regular, Admin, SuperAdmin} && row.role !in roles ==>
                  r == Err(ForbiddenError(if roles == [SuperAdmin] then SuperAdminNeeded
                                          else if Admin in roles then AdminNeeded else RoleNeeded))
    {
      var current := GetCurrentActiveUser(tid, header, cookie, issued, d);
      if current.Err? {
        return current;
      }
      if current.value.role !in roles {
        if roles == [SuperAdmin] {
          return Err(ForbiddenError(SuperAdminNeeded));
        } else if Admin in roles {
          return Err(ForbiddenError(AdminNeeded));
        }
        return Err(ForbiddenError(RoleNeeded));
      }
      r := current;
    }

    /** The handler behind the gate: a token that has expired since is silently ignored. */
    method Logout(ghost tid: nat, token: AccessToken)
      requires Running() && Agrees() && At(model, tid) && model.threads[tid] == Admitted(token)
      modifies this, redis
      ensures Running() && Agrees() && old(past) <= past && !At(model, tid)
      ensures if old(clock) < token.exp
              then SessionKey(token.sub) !in redis.db
                   && (old(clock) <= token.exp - SECOND ==> Revoked(model, token))
              else redis.db == old(redis.db)
    {
      if clock < token.exp {
        service.Logout(token.jti, token.exp, token.sub, clock);
      }
      Advance(LogoutList(tid));
      Advance(LogoutDelete(tid));
    }
  }
}
