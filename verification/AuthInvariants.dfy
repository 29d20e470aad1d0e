/** What every step of the protocol keeps, and where every token comes from. */
module AuthInvariants {
  import opened Wrappers
  import opened TtlStore
  import opened SlidingKey
  import opened Directory
  import opened AuthModel

  // ------------------------------------------------ time windows

  /** `t` lies in the `seconds` that start at `from`, the end excluded. */
  predicate Within(from: Time, t: Time, seconds: int) {
    from <= t < from + seconds * SECOND
  }

  // ------------------------------------------------ soundness of each piece of state

  predicate SoundLoginUse(h: History, state: Uuid, readAt: Time) {
    state in h.logins && Within(h.logins[state].at, readAt, STATE_SECONDS)
  }

  ghost predicate SoundCallback(s: State, r: CallbackRecord) {
    && SoundLoginUse(s.hist, r.state, r.readAt) && r.state in s.hist.consumed
    && r.claimed == Some(s.hist.logins[r.state].nonce)
    && r.readAt <= r.at <= s.now
    && r.user in s.tables.users && s.tables.users[r.user].employeeId == r.employeeId
  }

  predicate SoundCodeUse(s: State, code: Uuid, user: Uuid, readAt: Time) {
    && code in s.hist.callbacks && s.hist.callbacks[code].user == user
    && Within(s.hist.callbacks[code].at, readAt, s.cfg.codeSeconds)
    && readAt <= s.now
  }

  ghost predicate SoundPc(s: State, pc: Pc) {
    match pc
    case StateRead(state, nonce, readAt) =>
      SoundLoginUse(s.hist, state, readAt) && nonce == s.hist.logins[state].nonce && readAt <= s.now
    case StateGone(state, nonce, readAt) =>
      SoundLoginUse(s.hist, state, readAt) && nonce == s.hist.logins[state].nonce && readAt <= s.now
      && state in s.hist.consumed
    case Verified(state, claimed, readAt, _) =>
      SoundLoginUse(s.hist, state, readAt) && claimed == Some(s.hist.logins[state].nonce) && readAt <= s.now
      && state in s.hist.consumed
    case UserSynced(state, claimed, readAt, employeeId, user) =>
      SoundLoginUse(s.hist, state, readAt) && claimed == Some(s.hist.logins[state].nonce) && readAt <= s.now
      && state in s.hist.consumed && user in s.tables.users && s.tables.users[user].employeeId == employeeId
    case CodeHeld(code, user, readAt) => SoundCodeUse(s, code, user, readAt)
    case CodeSpent(code, user, readAt) => SoundCodeUse(s, code, user, readAt) && code in s.hist.spent
    case TokensMinted(user) => user in s.tables.users
    case RefreshAccepted(t, readAt) =>
      && t.jti in s.hist.refresh && s.hist.refresh[t.jti] == t
      && t.jti in s.hist.origins && s.hist.origins[t.jti].at <= readAt < t.exp && readAt <= s.now
    case TokenDecoded(t, _) => t.jti in s.hist.access && s.hist.access[t.jti] == t
    case NotListed(t, _) => t.jti in s.hist.access && s.hist.access[t.jti] == t
    case SessionSeen(t, _) => t.jti in s.hist.access && s.hist.access[t.jti] == t
    case SessionRenewed(t, _) => t.jti in s.hist.access && s.hist.access[t.jti] == t
    case Admitted(t) => t.jti in s.hist.access && s.hist.access[t.jti] == t
    case Listed(t) => t.jti in s.hist.access && s.hist.access[t.jti] == t
  }

  ghost predicate ThreadsSound(s: State) {
    forall tid :: tid in s.threads ==> SoundPc(s, s.threads[tid])
  }

  ghost predicate CallbacksSound(s: State) {
    forall c :: c in s.hist.callbacks ==> SoundCallback(s, s.hist.callbacks[c])
  }

  /** A stored login state is exactly an issued state nobody has consumed yet. */
  ghost predicate LoginsStored(s: State) {
    && (forall x :: StateKey(x) in s.redis <==> x in s.hist.logins && x !in s.hist.consumed)
    && (forall x :: StateKey(x) in s.redis ==>
          var e := s.redis[StateKey(x)];
          && e.value.LoginData? && e.value.nonce == s.hist.logins[x].nonce
          && e.expiry == s.hist.logins[x].at + STATE_SECONDS * SECOND)
    && (forall x :: x in s.hist.logins ==> s.hist.logins[x].at <= s.now)
  }

  /** A stored auth code is exactly an issued code nobody has spent yet. */
  ghost predicate CodesStored(s: State) {
    && (forall c :: CodeKey(c) in s.redis <==> c in s.hist.callbacks && c !in s.hist.spent)
    && (forall c :: CodeKey(c) in s.redis ==>
          && s.redis[CodeKey(c)].value == UserRef(s.hist.callbacks[c].user)
          && s.redis[CodeKey(c)].expiry == s.hist.callbacks[c].at + s.cfg.codeSeconds * SECOND)
  }

  predicate Subject(h: History, jti: Uuid, user: Uuid) {
    (jti in h.access && h.access[jti].sub == user) || (jti in h.refresh && h.refresh[jti].sub == user)
  }

  ghost predicate SoundOrigin(s: State, jti: Uuid, o: Origin) {
    match o
    case ByExchange(code, readAt, at) =>
      && code in s.hist.callbacks && Subject(s.hist, jti, s.hist.callbacks[code].user)
      && SoundCodeUse(s, code, s.hist.callbacks[code].user, readAt) && code in s.hist.spent
      && readAt <= at <= s.now
    case ByRefresh(parent, readAt, at) =>
      && parent in s.hist.refresh && parent in s.hist.origins
      && Subject(s.hist, jti, s.hist.refresh[parent].sub)
      && s.hist.origins[parent].at <= readAt < s.hist.refresh[parent].exp && readAt <= at <= s.now
  }

  ghost predicate OriginsSound(s: State) {
    && (forall j :: j in s.hist.access || j in s.hist.refresh <==> j in s.hist.origins)
    && (forall j :: j in s.hist.access ==> j !in s.hist.refresh && s.hist.access[j].jti == j)
    && (forall j :: j in s.hist.refresh ==> s.hist.refresh[j].jti == j)
    && (forall j :: j in s.hist.origins ==> SoundOrigin(s, j, s.hist.origins[j]))
  }

  ghost predicate UsedCovers(s: State) {
    Covers(s.used, s.hist)
  }

  /** Every id in the history was drawn at some step. */
  ghost predicate Covers(used: set<Uuid>, h: History) {
    && h.logins.Keys <= used && h.callbacks.Keys <= used && h.origins.Keys <= used
    && h.access.Keys <= used && h.refresh.Keys <= used
    && h.consumed <= used && h.spent <= used
  }

  ghost predicate Inv(s: State) {
    && Valid(s.tables) && UsedCovers(s) && OriginsSound(s)
    && LoginsStored(s) && CodesStored(s)
    && ThreadsSound(s) && CallbacksSound(s)
  }

  // ------------------------------------------------ histories only grow

  ghost predicate Sub<K, V>(m: map<K, V>, m': map<K, V>) {
    forall k :: k in m ==> k in m' && m'[k] == m[k]
  }

  ghost predicate Advances(s: State, s': State) {
    s'.cfg == s.cfg && s.now <= s'.now && Grows(s.hist, s'.hist)
  }

  ghost predicate Extends(s: State, s': State) {
    && Advances(s, s')
    && Valid(s'.tables) && Persists(s.tables.users, s'.tables.users)
  }

  /** Events of the login and callback endpoints; of token exchange and refresh; of the gate and logout. */
  predicate LoginEvent(e: Event) {
    e.StartLogin? || e.CallbackGet? || e.CallbackDelete? || e.CallbackVerify? || e.CallbackSync? || e.CallbackIssue?
  }

  predicate TokenEvent(e: Event) {
    e.ExchangeGet? || e.ExchangeDelete? || e.ExchangeMint? || e.ExchangeActivate? || e.RefreshDecode? || e.RefreshMint?
  }

  predicate GateEvent(e: Event) {
    || e.GateDecode? || e.GateCheck? || e.GateExists? || e.GateExpire? || e.GateLoad?
    || e.LogoutList? || e.LogoutDelete?
  }

  lemma StepTables(s: State, e: Event)
    requires Valid(s.tables)
    ensures Valid(Apply(s, e).tables) && Persists(s.tables.users, Apply(s, e).tables.users)
  {
    if e.CallbackSync? && At(s, e.tid) && s.threads[e.tid].Verified? {
      LoginPersists(s.tables, s.threads[e.tid].info, e.newUser, s.now);
    } else if e.Manage? {
      RowsPersist(s.tables, e.op);
    } else {
      assert Apply(s, e).tables == s.tables;
    }
  }

  ghost predicate Grows(h: History, h': History) {
    && Sub(h.logins, h'.logins) && Sub(h.callbacks, h'.callbacks)
    && Sub(h.access, h'.access) && Sub(h.refresh, h'.refresh) && Sub(h.origins, h'.origins)
    && h.consumed <= h'.consumed && h.spent <= h'.spent
  }

  lemma LoginHistory(s: State, e: Event)
    requires UsedCovers(s) && Enabled(s, e) && LoginEvent(e)
    ensures Advances(s, Apply(s, e))
  {
  }

  lemma MintedHistory(s: State, user: Uuid, a: Uuid, r: Uuid, o: Origin)
    requires UsedCovers(s) && user in s.tables.users && a !in s.used && r !in s.used && a != r
    ensures Advances(s, Minted(s, user, a, r, o))
  {
  }

  lemma MintHistory(s: State, e: Event)
    requires UsedCovers(s) && Enabled(s, e) && (e.ExchangeMint? || e.RefreshMint?)
    ensures Advances(s, Apply(s, e))
  {
    if At(s, e.tid) {
      var pc := s.threads[e.tid];
      if e.ExchangeMint? && pc.CodeSpent? && MayHoldTokens(s.tables, pc.user) {
        MintedHistory(s, pc.user, e.accessId, e.refreshId, ByExchange(pc.code, pc.readAt, s.now));
      }
      if e.RefreshMint? && pc.RefreshAccepted? && MayHoldTokens(s.tables, pc.refresh.sub) {
        MintedHistory(s, pc.refresh.sub, e.accessId, e.refreshId, ByRefresh(pc.refresh.jti, pc.readAt, s.now));
      }
    }
  }

  lemma OtherHistory(s: State, e: Event)
    requires !LoginEvent(e) && !e.ExchangeMint? && !e.RefreshMint?
    ensures Advances(s, Apply(s, e))
  {
  }

  lemma StepHistory(s: State, e: Event)
    requires UsedCovers(s) && Enabled(s, e)
    ensures Advances(s, Apply(s, e))
  {
    if LoginEvent(e) {
      LoginHistory(s, e);
    } else if e.ExchangeMint? || e.RefreshMint? {
      MintHistory(s, e);
    } else {
      OtherHistory(s, e);
    }
  }

  lemma StepExtends(s: State, e: Event)
    requires Valid(s.tables) && UsedCovers(s) && Enabled(s, e)
    ensures Extends(s, Apply(s, e))
  {
    StepTables(s, e);
    StepHistory(s, e);
  }

  lemma MintedUsed(s: State, user: Uuid, a: Uuid, r: Uuid, o: Origin)
    requires UsedCovers(s) && user in s.tables.users
    ensures UsedCovers(Minted(s, user, a, r, o))
  {
  }

  lemma DeletedUsed(s: State, e: Event)
    requires UsedCovers(s) && ThreadsSound(s) && (e.CallbackDelete? || e.ExchangeDelete?)
    ensures UsedCovers(Apply(s, e))
  {
    if At(s, e.tid) {
      assert SoundPc(s, s.threads[e.tid]);
    }
  }

  /** The other steps add at most one record, under an id they draw. */
  lemma OtherUsed(s: State, e: Event)
    requires UsedCovers(s) && !e.CallbackDelete? && !e.ExchangeDelete? && !e.ExchangeMint? && !e.RefreshMint?
    ensures UsedCovers(Apply(s, e))
  {
  }

  lemma StepUsed(s: State, e: Event)
    requires UsedCovers(s) && ThreadsSound(s)
    ensures UsedCovers(Apply(s, e))
  {
    if e.CallbackDelete? || e.ExchangeDelete? {
      DeletedUsed(s, e);
    } else if e.ExchangeMint? {
      if At(s, e.tid) && s.threads[e.tid].CodeSpent? && MayHoldTokens(s.tables, s.threads[e.tid].user) {
        var pc := s.threads[e.tid];
        MintedUsed(s, pc.user, e.accessId, e.refreshId, ByExchange(pc.code, pc.readAt, s.now));
      }
    } else if e.RefreshMint? {
      if At(s, e.tid) && s.threads[e.tid].RefreshAccepted? && MayHoldTokens(s.tables, s.threads[e.tid].refresh.sub) {
        var pc := s.threads[e.tid];
        MintedUsed(s, pc.refresh.sub, e.accessId, e.refreshId, ByRefresh(pc.refresh.jti, pc.readAt, s.now));
      }
    } else {
      OtherUsed(s, e);
    }
  }

  lemma SoundPcExtends(s: State, s': State, pc: Pc)
    requires Extends(s, s') && SoundPc(s, pc)
    ensures SoundPc(s', pc)
  {
  }

  lemma SoundCallbackExtends(s: State, s': State, r: CallbackRecord)
    requires Extends(s, s') && SoundCallback(s, r)
    ensures SoundCallback(s', r)
  {
  }

  lemma SoundOriginExtends(s: State, s': State, jti: Uuid, o: Origin)
    requires Extends(s, s') && SoundOrigin(s, jti, o)
    ensures SoundOrigin(s', jti, o)
  {
  }

  // ------------------------------------------------ each invariant is kept

  /** Only issuing a code adds a callback record, for the user the request has synced. */
  lemma IssuedCallback(s: State, e: Event, c: Uuid)
    requires c in Apply(s, e).hist.callbacks && c !in s.hist.callbacks
    ensures e.CallbackIssue? && At(s, e.tid) && s.threads[e.tid].UserSynced? && c == e.code
    ensures var pc := s.threads[e.tid];
            Apply(s, e).hist.callbacks[c] == CallbackRecord(pc.state, pc.claimed, pc.readAt, pc.employeeId,
                pc.user, s.now)
  {
  }

  lemma SyncedCallbackSound(s: State, pc: Pc)
    requires SoundPc(s, pc) && pc.UserSynced?
    ensures SoundCallback(s, CallbackRecord(pc.state, pc.claimed, pc.readAt, pc.employeeId, pc.user, s.now))
  {
  }

  lemma CallbacksKept(s: State, e: Event)
    requires Valid(s.tables) && UsedCovers(s) && ThreadsSound(s) && CallbacksSound(s) && Enabled(s, e)
    ensures CallbacksSound(Apply(s, e))
  {
    var s' := Apply(s, e);
    StepExtends(s, e);
    forall c | c in s'.hist.callbacks ensures SoundCallback(s', s'.hist.callbacks[c]) {
      if c !in s.hist.callbacks {
        IssuedCallback(s, e, c);
        SyncedCallbackSound(s, s.threads[e.tid]);
      }
      var r := if c in s.hist.callbacks then s.hist.callbacks[c] else s'.hist.callbacks[c];
      SoundCallbackExtends(s, s', r);
    }
  }

  /** A key holds the same entry, or none, in both stores. */
  ghost predicate SameEntry(m: Cache, m': Cache, k: Key) {
    (k in m <==> k in m') && (k in m ==> m[k] == m'[k])
  }

  lemma StateKeyFrame(s: State, e: Event)
    requires !e.StartLogin? && !e.CallbackDelete?
    ensures forall x :: SameEntry(s.redis, Apply(s, e).redis, StateKey(x))
    ensures Apply(s, e).hist.logins == s.hist.logins && Apply(s, e).hist.consumed == s.hist.consumed
  {
  }

  lemma CodeKeyFrame(s: State, e: Event)
    requires !e.CallbackIssue? && !e.ExchangeDelete?
    ensures forall c :: SameEntry(s.redis, Apply(s, e).redis, CodeKey(c))
    ensures Apply(s, e).hist.callbacks == s.hist.callbacks && Apply(s, e).hist.spent == s.hist.spent
    ensures Apply(s, e).cfg == s.cfg
  {
  }

  lemma StartKeepsLogins(s: State, e: Event)
    requires UsedCovers(s) && LoginsStored(s) && Enabled(s, e) && e.StartLogin?
    ensures LoginsStored(Apply(s, e))
  {
  }

  lemma DeleteKeepsLogins(s: State, e: Event)
    requires LoginsStored(s) && ThreadsSound(s) && e.CallbackDelete?
    ensures LoginsStored(Apply(s, e))
  {
    assert At(s, e.tid) ==> SoundPc(s, s.threads[e.tid]);
  }

  lemma LoginsKept(s: State, e: Event)
    requires UsedCovers(s) && LoginsStored(s) && ThreadsSound(s) && Enabled(s, e)
    ensures LoginsStored(Apply(s, e))
  {
    if e.StartLogin? {
      StartKeepsLogins(s, e);
    } else if e.CallbackDelete? {
      DeleteKeepsLogins(s, e);
    } else {
      StateKeyFrame(s, e);
      var s' := Apply(s, e);
      assert s.now <= s'.now;
      assert forall x :: StateKey(x) in s'.redis ==> SameEntry(s.redis, s'.redis, StateKey(x));
      assert forall x :: StateKey(x) in s.redis ==> SameEntry(s.redis, s'.redis, StateKey(x));
    }
  }

  lemma CodesKept(s: State, e: Event)
    requires UsedCovers(s) && CodesStored(s) && ThreadsSound(s) && Enabled(s, e)
    ensures CodesStored(Apply(s, e))
  {
    if e.ExchangeDelete? {
      assert At(s, e.tid) ==> SoundPc(s, s.threads[e.tid]);
    } else if !e.CallbackIssue? {
      CodeKeyFrame(s, e);
      var s' := Apply(s, e);
      assert forall c :: CodeKey(c) in s'.redis ==> SameEntry(s.redis, s'.redis, CodeKey(c));
      assert forall c :: CodeKey(c) in s.redis ==> SameEntry(s.redis, s'.redis, CodeKey(c));
    }
  }

  lemma MintedExtends(s: State, user: Uuid, a: Uuid, r: Uuid, o: Origin)
    requires Valid(s.tables) && UsedCovers(s) && user in s.tables.users && a !in s.used && r !in s.used && a != r
    ensures var s' := Minted(s, user, a, r, o);
            Extends(s, s') && Subject(s'.hist, a, user) && Subject(s'.hist, r, user)
  {
  }

  lemma MintedOriginsSound(s: State, user: Uuid, a: Uuid, r: Uuid, o: Origin)
    requires Valid(s.tables) && UsedCovers(s) && OriginsSound(s)
    requires user in s.tables.users && a !in s.used && r !in s.used && a != r
    requires var s' := Minted(s, user, a, r, o); SoundOrigin(s', a, o) && SoundOrigin(s', r, o)
    ensures OriginsSound(Minted(s, user, a, r, o))
  {
    var s' := Minted(s, user, a, r, o);
    MintedExtends(s, user, a, r, o);
    forall j | j in s'.hist.origins ensures SoundOrigin(s', j, s'.hist.origins[j]) {
      if j in s.hist.origins {
        SoundOriginExtends(s, s', j, s.hist.origins[j]);
      }
    }
  }

  /** Tokens minted from a spent code, or from an accepted refresh token, have a sound origin. */
  lemma MintedOriginSound(s: State, pc: Pc, a: Uuid, r: Uuid)
    requires Valid(s.tables) && UsedCovers(s) && SoundPc(s, pc) && (pc.CodeSpent? || pc.RefreshAccepted?)
    requires a !in s.used && r !in s.used && a != r
    requires (if pc.CodeSpent? then pc.user else pc.refresh.sub) in s.tables.users
    ensures pc.CodeSpent? ==>
              var o := ByExchange(pc.code, pc.readAt, s.now); var s' := Minted(s, pc.user, a, r, o);
              SoundOrigin(s', a, o) && SoundOrigin(s', r, o)
    ensures pc.RefreshAccepted? ==>
              var o := ByRefresh(pc.refresh.jti, pc.readAt, s.now); var s' := Minted(s, pc.refresh.sub, a, r, o);
              SoundOrigin(s', a, o) && SoundOrigin(s', r, o)
  {
    if pc.CodeSpent? {
      MintedExtends(s, pc.user, a, r, ByExchange(pc.code, pc.readAt, s.now));
    } else {
      MintedExtends(s, pc.refresh.sub, a, r, ByRefresh(pc.refresh.jti, pc.readAt, s.now));
    }
  }

  lemma OriginsFrame(s: State, e: Event)
    requires !e.ExchangeMint? && !e.RefreshMint?
    ensures var h := Apply(s, e).hist;
            h.origins == s.hist.origins && h.access == s.hist.access && h.refresh == s.hist.refresh
  {
  }

  lemma SameHistoryOrigins(s: State, s': State)
    requires OriginsSound(s) && s'.hist == s.hist && s'.cfg == s.cfg && s'.now == s.now
    ensures OriginsSound(s')
  {
    forall j | j in s.hist.origins ensures SoundOrigin(s', j, s.hist.origins[j]) {
      assert SoundOrigin(s, j, s.hist.origins[j]);
    }
  }

  lemma ExchangeMintOrigins(s: State, e: Event)
    requires Valid(s.tables) && UsedCovers(s) && OriginsSound(s) && ThreadsSound(s) && Enabled(s, e) && e.ExchangeMint?
    ensures OriginsSound(Apply(s, e))
  {
    if At(s, e.tid) && s.threads[e.tid].CodeSpent? && MayHoldTokens(s.tables, s.threads[e.tid].user) {
      var pc := s.threads[e.tid];
      MintedOriginSound(s, pc, e.accessId, e.refreshId);
      var o := ByExchange(pc.code, pc.readAt, s.now);
      MintedOriginsSound(s, pc.user, e.accessId, e.refreshId, o);
      SameHistoryOrigins(Minted(s, pc.user, e.accessId, e.refreshId, o), Apply(s, e));
    } else {
      SameHistoryOrigins(s, Apply(s, e));
    }
  }

  lemma RefreshMintOrigins(s: State, e: Event)
    requires Valid(s.tables) && UsedCovers(s) && OriginsSound(s) && ThreadsSound(s) && Enabled(s, e) && e.RefreshMint?
    ensures OriginsSound(Apply(s, e))
  {
    if At(s, e.tid) && s.threads[e.tid].RefreshAccepted? && MayHoldTokens(s.tables, s.threads[e.tid].refresh.sub) {
      var pc := s.threads[e.tid];
      MintedOriginSound(s, pc, e.accessId, e.refreshId);
      var o := ByRefresh(pc.refresh.jti, pc.readAt, s.now);
      MintedOriginsSound(s, pc.refresh.sub, e.accessId, e.refreshId, o);
      SameHistoryOrigins(Minted(s, pc.refresh.sub, e.accessId, e.refreshId, o), Apply(s, e));
    } else {
      SameHistoryOrigins(s, Apply(s, e));
    }
  }

  lemma OriginsKept(s: State, e: Event)
    requires Inv(s) && Enabled(s, e)
    ensures OriginsSound(Apply(s, e))
  {
    if e.ExchangeMint? {
      ExchangeMintOrigins(s, e);
    } else if e.RefreshMint? {
      RefreshMintOrigins(s, e);
    } else {
      StepExtends(s, e);
      OriginsFrame(s, e);
      forall j | j in s.hist.origins ensures SoundOrigin(Apply(s, e), j, s.hist.origins[j]) {
        SoundOriginExtends(s, Apply(s, e), j, s.hist.origins[j]);
      }
    }
  }

  /** The request a step belongs to, if it belongs to one. */
  predicate Moves(e: Event, tid: nat) {
    (LoginEvent(e) && !e.StartLogin? && e.tid == tid) || (TokenEvent(e) && e.tid == tid) ||
        (GateEvent(e) && e.tid == tid)
  }

  /** A step leaves every other request where it was. */
  lemma OthersStay(s: State, e: Event, tid: nat)
    requires !Moves(e, tid)
    ensures tid in Apply(s, e).threads <==> tid in s.threads
    ensures tid in s.threads ==> Apply(s, e).threads[tid] == s.threads[tid]
  {
  }

  lemma LoginMoveSound(s: State, e: Event)
    requires LoginsStored(s) && ThreadsSound(s) && Extends(s, Apply(s, e)) && Enabled(s, e)
    requires LoginEvent(e) && !e.StartLogin?
    ensures e.tid in Apply(s, e).threads ==> SoundPc(Apply(s, e), Apply(s, e).threads[e.tid])
  {
    if At(s, e.tid) {
      SoundPcExtends(s, Apply(s, e), s.threads[e.tid]);
      if e.CallbackSync? && s.threads[e.tid].Verified? {
        SyncedUserFound(s.tables, s.threads[e.tid].info, e.newUser, s.now);
      }
    }
  }

  /** A successful sync returns the row of the employee the ID token named. */
  lemma SyncedUserFound(t: Tables, info: UserInfo, newUser: Uuid, at: Time)
    ensures var (t', r) := SsoSyncUser(t, info, newUser, at);
            r.Ok? ==> r.value in t'.users && t'.users[r.value].employeeId == info.employeeId
  {
  }

  lemma ExchangeMoveSound(s: State, e: Event)
    requires CodesStored(s) && CallbacksSound(s) && ThreadsSound(s)
    requires Extends(s, Apply(s, e)) && Enabled(s, e)
    requires e.ExchangeGet? || e.ExchangeDelete? || e.ExchangeMint? || e.ExchangeActivate?
    ensures e.tid in Apply(s, e).threads ==> SoundPc(Apply(s, e), Apply(s, e).threads[e.tid])
  {
    if At(s, e.tid) {
      SoundPcExtends(s, Apply(s, e), s.threads[e.tid]);
    }
  }

  lemma RefreshMoveSound(s: State, e: Event)
    requires OriginsSound(s) && ThreadsSound(s)
    requires Extends(s, Apply(s, e)) && Enabled(s, e) && (e.RefreshDecode? || e.RefreshMint?)
    ensures e.tid in Apply(s, e).threads ==> SoundPc(Apply(s, e), Apply(s, e).threads[e.tid])
  {
    if At(s, e.tid) {
      SoundPcExtends(s, Apply(s, e), s.threads[e.tid]);
    }
    if e.RefreshDecode? && e.refresh.jti in s.hist.origins {
      assert SoundOrigin(s, e.refresh.jti, s.hist.origins[e.refresh.jti]);
    }
  }

  /** The access token a request carries through the gate and the logout. */
  function Carried(pc: Pc): Option<AccessToken> {
    match pc
    case TokenDecoded(t, _) => Some(t)
    case NotListed(t, _) => Some(t)
    case SessionSeen(t, _) => Some(t)
    case SessionRenewed(t, _) => Some(t)
    case Admitted(t) => Some(t)
    case Listed(t) => Some(t)
    case _ => None
  }

  /** The gate and the logout never swap the token: it is the one decoded at the start. */
  lemma GateMoveCarries(s: State, e: Event)
    requires GateEvent(e) && e.tid in Apply(s, e).threads
    requires e.GateDecode? ==> !At(s, e.tid)
    ensures
      if e.GateDecode? then DecodesAccess(s, e.token) && Carried(Apply(s, e).threads[e.tid]) == Some(e.token)
      else At(s, e.tid) && (Apply(s, e).threads[e.tid] == s.threads[e.tid]
             || (Carried(s.threads[e.tid]).Some? && Carried(Apply(s, e).threads[e.tid]) == Carried(s.threads[e.tid])))
  {
  }

  lemma GateMoveSound(s: State, e: Event)
    requires ThreadsSound(s) && Extends(s, Apply(s, e)) && Enabled(s, e) && GateEvent(e)
    requires e.tid in Apply(s, e).threads
    ensures SoundPc(Apply(s, e), Apply(s, e).threads[e.tid])
  {
    GateMoveCarries(s, e);
    if At(s, e.tid) {
      SoundPcExtends(s, Apply(s, e), s.threads[e.tid]);
    }
  }

  lemma OtherThreadKept(s: State, e: Event, tid: nat)
    requires ThreadsSound(s) && Extends(s, Apply(s, e)) && tid in Apply(s, e).threads && !Moves(e, tid)
    ensures SoundPc(Apply(s, e), Apply(s, e).threads[tid])
  {
    OthersStay(s, e, tid);
    SoundPcExtends(s, Apply(s, e), s.threads[tid]);
  }

  lemma MovedThreadKept(s: State, e: Event)
    requires LoginsStored(s) && CodesStored(s) && OriginsSound(s) && CallbacksSound(s) && ThreadsSound(s)
    requires (LoginEvent(e) && !e.StartLogin?) || TokenEvent(e) || GateEvent(e)
    requires Enabled(s, e) && Extends(s, Apply(s, e)) && e.tid in Apply(s, e).threads
    ensures SoundPc(Apply(s, e), Apply(s, e).threads[e.tid])
  {
    if LoginEvent(e) {
      LoginMoveSound(s, e);
    } else if e.RefreshDecode? || e.RefreshMint? {
      RefreshMoveSound(s, e);
    } else if TokenEvent(e) {
      ExchangeMoveSound(s, e);
    } else {
      GateMoveSound(s, e);
    }
  }

  lemma ThreadsKept(s: State, e: Event)
    requires Inv(s) && Enabled(s, e)
    ensures ThreadsSound(Apply(s, e))
  {
    StepExtends(s, e);
    forall tid | tid in Apply(s, e).threads ensures SoundPc(Apply(s, e), Apply(s, e).threads[tid]) {
      if Moves(e, tid) {
        MovedThreadKept(s, e);
      } else {
        OtherThreadKept(s, e, tid);
      }
    }
  }

  /** Every step keeps the whole invariant. */
  lemma StepKeepsInv(s: State, e: Event)
    requires Inv(s) && Enabled(s, e)
    ensures Inv(Apply(s, e))
  {
    StepExtends(s, e);
    StepUsed(s, e);
    OriginsKept(s, e);
    LoginsKept(s, e);
    CodesKept(s, e);
    ThreadsKept(s, e);
    CallbacksKept(s, e);
  }

  lemma InitialInv(s: State)
    requires Initial(s)
    ensures Inv(s)
  {
  }

  lemma {:induction false} RunKeepsInv(s: State, es: seq<Event>)
    requires Inv(s) && ValidRun(s, es)
    ensures Inv(Exec(s, es))
    decreases |es|
  {
    if es != [] {
      StepKeepsInv(s, es[0]);
      RunKeepsInv(Apply(s, es[0]), es[1..]);
    }
  }
}
