/** The sliding session against its history, logout finality, and what the gate lets through. */
module Sessions {
  import opened Wrappers
  import opened TtlStore
  import opened SlidingKey
  import opened Directory
  import opened Gate
  import opened AuthModel
  import opened AuthInvariants
  import opened Provenance

  // ------------------------------------------------ session key and history

  /** The session commands of one user, in order. */
  function ActsOf(log: seq<Activity>, user: Uuid): seq<Act> {
    if log == [] then []
    else
      var last := log[|log| - 1];
      ActsOf(log[..|log| - 1], user) + if last.user == user then [last.act] else []
  }

  lemma ActsOfAppend(log: seq<Activity>, a: Activity, user: Uuid)
    ensures ActsOf(log + [a], user) == if a.user == user then ActsOf(log, user) + [a.act] else ActsOf(log, user)
  {
    assert (log + [a])[..|log|] == log;
  }

  function StoredExpiry(m: Cache, user: Uuid): Option<Time> {
    if SessionKey(user) in m then Some(m[SessionKey(user)].expiry) else None
  }

  function Idle(s: State): Time {
    s.cfg.idleMinutes * 60 * SECOND
  }

  /** A stored expiry is the one the user's commands so far have left, and these are in order. */
  predicate LogMatches(log: seq<Activity>, stored: Option<Time>, idle: Time, now: Time, user: Uuid) {
    var acts := ActsOf(log, user);
    && stored == Expiry(acts, idle)
    && Chronological(acts)
    && (acts != [] ==> acts[|acts| - 1].at <= now)
  }

  lemma LogMatchesAppend(log: seq<Activity>, a: Activity, stored: Option<Time>, idle: Time, user: Uuid)
    requires LogMatches(log, stored, idle, a.act.at, user)
    ensures LogMatches(log + [a], if a.user == user then ExpiryAfter(stored, a.act, idle)
              else stored, idle, a.act.at, user)
  {
    ActsOfAppend(log, a, user);
    if a.user == user {
      OneMore(ActsOf(log, user), a.act, idle);
    }
  }

  ghost predicate SessionMatches(s: State, user: Uuid) {
    LogMatches(s.hist.activity, StoredExpiry(s.redis, user), Idle(s), s.now, user)
  }

  /** The session command a step issues, if any. */
  function Issued(s: State, e: Event): Option<Activity> {
    match e
    case ExchangeActivate(tid) =>
      if At(s, tid) && s.threads[tid].TokensMinted? then Some(Activity(s.threads[tid].user, Act(Opened, s.now)))
          else None
    case GateExpire(tid) =>
      if At(s, tid) && s.threads[tid].SessionSeen? then Some(Activity(s.threads[tid].token.sub,
          Act(Touched, s.now))) else None
    case LogoutDelete(tid) =>
      if At(s, tid) && s.threads[tid].Listed? then Some(Activity(s.threads[tid].token.sub, Act(Closed, s.now)))
          else None
    case _ => None
  }

  lemma SilentFrame(s: State, e: Event, user: Uuid)
    requires Issued(s, e).None?
    ensures var s' := Apply(s, e);
            s'.hist.activity == s.hist.activity && StoredExpiry(s'.redis, user) == StoredExpiry(s.redis, user)
  {
  }

  lemma IssuedFrame(s: State, e: Event, user: Uuid)
    requires Issued(s, e).Some?
    ensures var s' := Apply(s, e); var a := Issued(s, e).value;
            && s'.hist.activity == s.hist.activity + [a] && s'.now == s.now && a.act.at == s.now
            && StoredExpiry(s'.redis, user)
               == if a.user == user then ExpiryAfter(StoredExpiry(s.redis, user), a.act, Idle(s))
                   else StoredExpiry(s.redis, user)
  {
  }

  lemma ClockForward(s: State, e: Event)
    ensures Apply(s, e).cfg == s.cfg && s.now <= Apply(s, e).now
  {
  }

  /** A step changes session keys only by the command it logs. */
  lemma SessionFrame(s: State, e: Event, user: Uuid)
    ensures var s' := Apply(s, e);
            match Issued(s, e)
            case None => s'.hist.activity == s.hist.activity &&
                StoredExpiry(s'.redis, user) == StoredExpiry(s.redis, user)
            case Some(a) =>
              && s'.hist.activity == s.hist.activity + [a] && s'.now == s.now && a.act.at == s.now
              && StoredExpiry(s'.redis, user)
                 == if a.user == user then ExpiryAfter(StoredExpiry(s.redis, user), a.act, Idle(s))
                     else StoredExpiry(s.redis, user)
    ensures Apply(s, e).cfg == s.cfg && s.now <= Apply(s, e).now
  {
    ClockForward(s, e);
    if Issued(s, e).Some? {
      IssuedFrame(s, e, user);
    } else {
      SilentFrame(s, e, user);
    }
  }

  lemma SessionStep(s: State, e: Event, user: Uuid)
    requires SessionMatches(s, user)
    ensures SessionMatches(Apply(s, e), user)
  {
    SessionFrame(s, e, user);
    if Issued(s, e).Some? {
      LogMatchesAppend(s.hist.activity, Issued(s, e).value, StoredExpiry(s.redis, user), Idle(s), user);
    }
  }

  lemma {:induction false} SessionRun(s: State, es: seq<Event>, user: Uuid)
    requires SessionMatches(s, user)
    ensures SessionMatches(Exec(s, es), user)
    decreases |es|
  {
    if es != [] {
      SessionStep(s, es[0], user);
      SessionRun(Apply(s, es[0]), es[1..], user);
    }
  }

  /**
   * In every reachable state the session key is visible exactly when the user has an exchange with no later
   * logout since which every gap between session commands, up to now, is shorter than the idle timeout.
   */
  lemma SessionVisibleExactly(s0: State, es: seq<Event>, user: Uuid)
    requires Initial(s0) && ValidRun(s0, es)
    ensures var s := Exec(s0, es); var idle := s.cfg.idleMinutes * 60 * SECOND;
            Visible(s.redis, SessionKey(user), s.now) <==> Alive(ActsOf(s.hist.activity, user), idle, s.now)
  {
    SessionRun(s0, es, user);
    var s := Exec(s0, es);
    StoredExpiryMatchesHistory(ActsOf(s.hist.activity, user), Idle(s), s.now);
  }

  // ------------------------------------------------ who can open a session

  predicate SessionOpen(s: State, user: Uuid) {
    Visible(s.redis, SessionKey(user), s.now)
  }

  /** The last step of a token exchange for this user. */
  predicate Activates(s: State, e: Event, user: Uuid) {
    e.ExchangeActivate? && At(s, e.tid) && s.threads[e.tid] == TokensMinted(user)
  }

  /** However EXISTS, EXPIRE, DEL, expiry and refresh interleave, only an exchange turns an absent session present. */
  lemma OnlyExchangeOpensSession(s: State, e: Event, user: Uuid)
    ensures !SessionOpen(s, user) && SessionOpen(Apply(s, e), user) ==> Activates(s, e, user)
  {
    SessionFrame(s, e, user);
    var stored := StoredExpiry(s.redis, user);
    assert SessionOpen(s, user) <==> stored.Some? && s.now < stored.value;
    var stored' := StoredExpiry(Apply(s, e).redis, user);
    assert SessionOpen(Apply(s, e), user) <==> stored'.Some? && Apply(s, e).now < stored'.value;
  }

  ghost predicate NoExchange(s: State, es: seq<Event>, user: Uuid)
    decreases |es|
  {
    es == [] || (!Activates(s, es[0], user) && NoExchange(Apply(s, es[0]), es[1..], user))
  }

  /** A request of this user that has already been told the session exists. */
  predicate PastSessionCheck(s: State, tid: nat, user: Uuid) {
    At(s, tid) && var pc := s.threads[tid];
    (pc.SessionSeen? || pc.SessionRenewed?) && pc.token.sub == user
  }

  /** With the session closed, no further request of the user gets past the session check. */
  lemma ClosedSessionStep(s: State, e: Event, user: Uuid, tid: nat)
    requires !SessionOpen(s, user) && Enabled(s, e)
    ensures PastSessionCheck(Apply(s, e), tid, user) ==> PastSessionCheck(s, tid, user)
  {
    if !Moves(e, tid) {
      OthersStay(s, e, tid);
    }
  }

  lemma {:induction false} ClosedSessionRun(s: State, es: seq<Event>, user: Uuid)
    requires !SessionOpen(s, user) && ValidRun(s, es) && NoExchange(s, es, user)
    ensures !SessionOpen(Exec(s, es), user)
    ensures forall tid :: PastSessionCheck(Exec(s, es), tid, user) ==> PastSessionCheck(s, tid, user)
    decreases |es|
  {
    if es != [] {
      OnlyExchangeOpensSession(s, es[0], user);
      forall tid ensures PastSessionCheck(Apply(s, es[0]), tid, user) ==> PastSessionCheck(s, tid, user) {
        ClosedSessionStep(s, es[0], user, tid);
      }
      ClosedSessionRun(Apply(s, es[0]), es[1..], user);
    }
  }

  /** `get_current_user` returns this user at this step. */
  predicate Accepts(s: State, e: Event, user: Uuid) {
    && e.GateLoad? && At(s, e.tid) && s.threads[e.tid].SessionRenewed?
    && s.threads[e.tid].token.sub == user && LiveUser(s.tables, user)
  }

  // ------------------------------------------------ the blacklist

  /** The entry of a logged-out token falls short of the token's expiry by less than a second. */
  ghost predicate Blacklisted(s: State, jti: Uuid) {
    && jti in s.hist.access && BlacklistKey(jti) in s.redis
    && s.redis[BlacklistKey(jti)].expiry + SECOND > s.hist.access[jti].exp
  }

  lemma BlacklistFrame(s: State, e: Event, jti: Uuid)
    requires !e.LogoutList?
    ensures SameEntry(s.redis, Apply(s, e).redis, BlacklistKey(jti))
  {
  }

  /** What the first logout step does to the blacklist. */
  lemma LogoutListEffect(s: State, tid: nat, jti: Uuid)
    requires At(s, tid) && s.threads[tid].Admitted?
    ensures var t := s.threads[tid].token; var s' := Apply(s, LogoutList(tid)); var ttl := SecondsLeft(s.now, t.exp);
            && s'.hist == s.hist && s'.now == s.now
            && if s.now < t.exp && t.jti == jti && ttl > 0
               then BlacklistKey(jti) in s'.redis && s'.redis[BlacklistKey(jti)].expiry == s.now + ttl * SECOND
               else SameEntry(s.redis, s'.redis, BlacklistKey(jti))
  {
  }

  lemma LogoutListNoop(s: State, tid: nat)
    requires !(At(s, tid) && s.threads[tid].Admitted?)
    ensures Apply(s, LogoutList(tid)) == s
  {
  }

  /** No step shortens the entry of a logged-out token below that, a second logout included. */
  lemma BlacklistStep(s: State, e: Event, jti: Uuid)
    requires UsedCovers(s) && ThreadsSound(s) && Enabled(s, e) && Blacklisted(s, jti)
    ensures Blacklisted(Apply(s, e), jti)
  {
    if e.LogoutList? {
      if At(s, e.tid) && s.threads[e.tid].Admitted? {
        assert SoundPc(s, s.threads[e.tid]);
        LogoutListEffect(s, e.tid, jti);
      } else {
        LogoutListNoop(s, e.tid);
      }
    } else {
      StepHistory(s, e);
      BlacklistFrame(s, e, jti);
    }
  }

  lemma {:induction false} BlacklistRun(s: State, es: seq<Event>, jti: Uuid)
    requires Inv(s) && ValidRun(s, es) && Blacklisted(s, jti)
    ensures Blacklisted(Exec(s, es), jti)
    decreases |es|
  {
    if es != [] {
      BlacklistStep(s, es[0], jti);
      StepKeepsInv(s, es[0]);
      BlacklistRun(Apply(s, es[0]), es[1..], jti);
    }
  }

  /** A blacklist read at this moment finds the token. */
  predicate Revoked(s: State, t: AccessToken) {
    Visible(s.redis, BlacklistKey(t.jti), s.now)
  }

  lemma AdmittedIsIssued(s: State, tid: nat)
    requires ThreadsSound(s) && At(s, tid) && s.threads[tid].Admitted?
    ensures s.threads[tid].token.jti in s.hist.access && s.hist.access[s.threads[tid].token.jti] == s.threads[tid].token
  {
    assert SoundPc(s, s.threads[tid]);
  }

  // ------------------------------------------------ the tail before expiry

  predicate IsWhole(t: Time) {
    t % SECOND == 0
  }

  /** Every access token expires on a whole second. */
  ghost predicate TokensWhole(s: State) {
    forall j :: j in s.hist.access ==> IsWhole(s.hist.access[j].exp)
  }

  lemma NewTokenWhole(s: State, e: Event, jti: Uuid)
    requires jti in Apply(s, e).hist.access
    requires jti in s.hist.access ==> Apply(s, e).hist.access[jti] != s.hist.access[jti]
    ensures IsWhole(Apply(s, e).hist.access[jti].exp)
  {
    if !e.ExchangeMint? && !e.RefreshMint? {
      OriginsFrame(s, e);
      assert false;
    }
  }

  lemma TokensWholeStep(s: State, e: Event)
    requires TokensWhole(s)
    ensures TokensWhole(Apply(s, e))
  {
    var s' := Apply(s, e);
    forall j | j in s'.hist.access ensures IsWhole(s'.hist.access[j].exp) {
      if !(j in s.hist.access && s'.hist.access[j] == s.hist.access[j]) {
        NewTokenWhole(s, e, j);
      }
    }
  }

  /** A run in which time only passes in whole seconds. */
  predicate WholeSeconds(es: seq<Event>) {
    forall i :: 0 <= i < |es| && es[i].Tick? ==> IsWhole(es[i].d)
  }

  /** The entry of a logged-out token lasts exactly as long as the token. */
  ghost predicate FullyBlacklisted(s: State, jti: Uuid) {
    && jti in s.hist.access && BlacklistKey(jti) in s.redis
    && s.redis[BlacklistKey(jti)].expiry == s.hist.access[jti].exp
    && IsWhole(s.now) && IsWhole(s.hist.access[jti].exp)
  }

  lemma WholeDifference(now: Time, exp: Time)
    requires IsWhole(now) && IsWhole(exp)
    ensures now + SecondsLeft(now, exp) * SECOND == exp
  {
  }

  lemma ClockStep(s: State, e: Event)
    ensures Apply(s, e).now == if e.Tick? then s.now + e.d else s.now
  {
  }

  lemma FullBlacklistStep(s: State, e: Event, jti: Uuid)
    requires UsedCovers(s) && ThreadsSound(s) && Enabled(s, e) && FullyBlacklisted(s, jti) && (e.Tick? ==> IsWhole(e.d))
    ensures FullyBlacklisted(Apply(s, e), jti)
  {
    ClockStep(s, e);
    if e.LogoutList? {
      if At(s, e.tid) && s.threads[e.tid].Admitted? {
        AdmittedIsIssued(s, e.tid);
        LogoutListEffect(s, e.tid, jti);
        WholeDifference(s.now, s.hist.access[jti].exp);
      } else {
        LogoutListNoop(s, e.tid);
      }
    } else {
      StepHistory(s, e);
      BlacklistFrame(s, e, jti);
    }
  }

  lemma WholeSecondsCons(es: seq<Event>)
    requires es != [] && WholeSeconds(es)
    ensures (es[0].Tick? ==> IsWhole(es[0].d)) && WholeSeconds(es[1..])
  {
    assert es == [es[0]] + es[1..];
  }

  lemma {:induction false} FullBlacklistRun(s: State, es: seq<Event>, jti: Uuid)
    requires Inv(s) && ValidRun(s, es) && FullyBlacklisted(s, jti) && WholeSeconds(es)
    ensures FullyBlacklisted(Exec(s, es), jti)
    decreases |es|
  {
    if es != [] {
      WholeSecondsCons(es);
      FullBlacklistStep(s, es[0], jti);
      StepKeepsInv(s, es[0]);
      FullBlacklistRun(Apply(s, es[0]), es[1..], jti);
    }
  }

  lemma LogoutListsFully(s: State, tid: nat)
    requires ThreadsSound(s) && TokensWhole(s) && At(s, tid) && s.threads[tid].Admitted?
    requires IsWhole(s.now) && s.now < s.threads[tid].token.exp
    ensures var t := s.threads[tid].token; var s' := Apply(s, LogoutList(tid));
            FullyBlacklisted(s', t.jti) && s'.hist.access[t.jti] == t
  {
    var t := s.threads[tid].token;
    AdmittedIsIssued(s, tid);
    LogoutListEffect(s, tid, t.jti);
    WholeDifference(s.now, t.exp);
  }

  // ------------------------------------------------ the gate

  /** `get_current_active_user` returns this user at this step. */
  predicate ActiveUserAccepted(s: State, e: Event, user: Uuid) {
    Accepts(s, e, user) && CurrentActiveUser(s.tables.users[user]).Ok?
  }

  predicate Deleted(s: State, user: Uuid) {
    user in s.tables.users && s.tables.users[user].deletedAt != None
  }

  lemma NewTokenHolder(s: State, e: Event, jti: Uuid)
    requires Enabled(s, e) && jti !in s.hist.access && jti in Apply(s, e).hist.access
    ensures MayHoldTokens(s.tables, Apply(s, e).hist.access[jti].sub)
  {
    if !e.ExchangeMint? && !e.RefreshMint? {
      OriginsFrame(s, e);
      assert false;
    }
  }

  lemma NewRefreshHolder(s: State, e: Event, jti: Uuid)
    requires Enabled(s, e) && jti !in s.hist.refresh && jti in Apply(s, e).hist.refresh
    ensures MayHoldTokens(s.tables, Apply(s, e).hist.refresh[jti].sub)
  {
    if !e.ExchangeMint? && !e.RefreshMint? {
      OriginsFrame(s, e);
      assert false;
    }
  }

  /** Soft deletion is terminal: in no continuation is the user accepted again or given another token. */
  lemma DeletionIsTerminal(s: State, es: seq<Event>, e: Event, user: Uuid)
    requires Inv(s) && Deleted(s, user) && ValidRun(s, es) && Enabled(Exec(s, es), e)
    ensures var later := Exec(s, es);
            && Deleted(later, user) && !Accepts(later, e, user)
            && forall j :: j in Apply(later, e).hist.access && j !in later.hist.access ==>
                Apply(later, e).hist.access[j].sub != user
  {
    var later := Exec(s, es);
    RunExtends(s, es);
    assert SameRow(s.tables.users[user], later.tables.users[user]);
    forall j | j in Apply(later, e).hist.access && j !in later.hist.access
      ensures Apply(later, e).hist.access[j].sub != user
    {
      NewTokenHolder(later, e, j);
    }
  }

  /** Whoever is accepted holds a token that descends from a completed single sign-on for that same account. */
  lemma AcceptedUserSignedOn(s0: State, es: seq<Event>, e: Event, user: Uuid)
    requires Initial(s0) && ValidRun(s0, es) && Accepts(Exec(s0, es), e, user)
    ensures var s := Exec(s0, es); exists c :: Descent(s, s.threads[e.tid].token.jti, user, c)
  {
    InitialInv(s0);
    RunKeepsInv(s0, es);
    assert SoundPc(Exec(s0, es), Exec(s0, es).threads[e.tid]);
    TokenProvenance(s0, es, Exec(s0, es).threads[e.tid].token.jti);
  }
}
