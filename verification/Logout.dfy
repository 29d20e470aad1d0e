/** Which requests a logged-out token can still carry through the gate, over every continuation. */
module Logout {
  import opened Wrappers
  import opened TtlStore
  import opened SlidingKey
  import opened Directory
  import opened AuthModel
  import opened AuthInvariants
  import opened Provenance
  import opened Sessions
  import opened SignOn
  import opened Continuations

  /** A request suspended between decoding this token and reading the blacklist. */
  predicate HoldsDecoded(s: State, q: nat, t: AccessToken) {
    At(s, q) && s.threads[q].TokenDecoded? && s.threads[q].token == t
  }

  /** A request that carries this token and has read the blacklist. */
  predicate PastBlacklist(s: State, q: nat, t: AccessToken) {
    At(s, q) && var pc := s.threads[q];
    (pc.NotListed? || pc.SessionSeen? || pc.SessionRenewed?) && pc.token == t
  }

  predicate AcceptsToken(s: State, q: nat, t: AccessToken) {
    Accepts(s, GateLoad(q), t.sub) && s.threads[q].token == t
  }

  /** In this run the request reads the blacklist for this token at `from` or later. */
  ghost predicate ReadsLate(s: State, es: seq<Event>, q: nat, t: AccessToken, from: Time)
    decreases |es|
  {
    es != [] &&
    ((es[0] == GateCheck(q) && HoldsDecoded(s, q, t) && from <= s.now) ||
        ReadsLate(Apply(s, es[0]), es[1..], q, t, from))
  }

  // ------------------------------------------------ nobody else gets past

  /** Every read before `from` finds the token. */
  predicate Covered(s: State, jti: Uuid, from: Time) {
    from <= s.now || (BlacklistKey(jti) in s.redis && from <= s.redis[BlacklistKey(jti)].expiry)
  }

  ghost predicate StaysCovered(s: State, es: seq<Event>, jti: Uuid, from: Time)
    decreases |es|
  {
    Covered(s, jti, from) && (es == [] || StaysCovered(Apply(s, es[0]), es[1..], jti, from))
  }

  lemma CoveredStep(s: State, e: Event, q: nat, t: AccessToken, from: Time)
    requires Covered(s, t.jti, from) && !ReadsLate(s, [e], q, t, from) && Enabled(s, e)
    ensures PastBlacklist(Apply(s, e), q, t) ==> PastBlacklist(s, q, t)
  {
    if !Moves(e, q) {
      OthersStay(s, e, q);
    }
  }

  lemma {:induction false} CoveredRun(s: State, es: seq<Event>, q: nat, t: AccessToken, from: Time)
    requires StaysCovered(s, es, t.jti, from) && !ReadsLate(s, es, q, t, from) && ValidRun(s, es)
    ensures PastBlacklist(Exec(s, es), q, t) ==> PastBlacklist(s, q, t)
    decreases |es|
  {
    if es != [] {
      CoveredStep(s, es[0], q, t, from);
      CoveredRun(Apply(s, es[0]), es[1..], q, t, from);
    }
  }

  /** The first instant at which the entry of a logged-out token may be gone. */
  function FirstGap(t: AccessToken): Time {
    t.exp - SECOND + 1
  }

  lemma {:induction false} ListingCovers(s: State, es: seq<Event>, t: AccessToken)
    requires Inv(s) && ValidRun(s, es) && t.jti in s.hist.access && s.hist.access[t.jti] == t
    requires FirstGap(t) <= s.now || Blacklisted(s, t.jti)
    ensures StaysCovered(s, es, t.jti, FirstGap(t))
    decreases |es|
  {
    if es != [] {
      if FirstGap(t) > s.now {
        BlacklistStep(s, es[0], t.jti);
      }
      StepKeepsInv(s, es[0]);
      StepHistory(s, es[0]);
      ListingCovers(Apply(s, es[0]), es[1..], t);
    }
  }

  lemma {:induction false} FullListingCovers(s: State, es: seq<Event>, t: AccessToken)
    requires Inv(s) && ValidRun(s, es) && WholeSeconds(es) && t.jti in s.hist.access && s.hist.access[t.jti] == t
    requires FullyBlacklisted(s, t.jti)
    ensures StaysCovered(s, es, t.jti, t.exp)
    decreases |es|
  {
    if es != [] {
      WholeSecondsCons(es);
      FullBlacklistStep(s, es[0], t.jti);
      StepKeepsInv(s, es[0]);
      StepHistory(s, es[0]);
      FullListingCovers(Apply(s, es[0]), es[1..], t);
    }
  }

  /** The state after the first logout step is covered. */
  lemma LogoutCovers(s: State, tid: nat)
    requires ThreadsSound(s) && At(s, tid) && s.threads[tid].Admitted? && s.now < s.threads[tid].token.exp
    ensures var t := s.threads[tid].token; var s' := Apply(s, LogoutList(tid));
            && t.jti in s'.hist.access && s'.hist.access[t.jti] == t && s'.now == s.now && s'.tables == s.tables
            && (FirstGap(t) <= s'.now || Blacklisted(s', t.jti))
  {
    var t := s.threads[tid].token;
    AdmittedIsIssued(s, tid);
    LogoutListEffect(s, tid, t.jti);
  }

  // ------------------------------------------------ those past the read get through

  lemma {:induction false} NoReadIsNotLate(s: State, es: seq<Event>, q: nat, t: AccessToken, from: Time)
    requires GateCheck(q) !in es
    ensures !ReadsLate(s, es, q, t, from)
    decreases |es|
  {
    if es != [] {
      assert es[0] in es;
      NoReadIsNotLate(Apply(s, es[0]), es[1..], q, t, from);
    }
  }

  lemma QuietIsWhole(es: seq<Event>)
    requires Quiet(es)
    ensures WholeSeconds(es)
  {
    forall i | 0 <= i < |es| && es[i].Tick? ensures IsWhole(es[i].d) {
      assert es[i] in es;
    }
  }

  lemma {:induction false} OneStepRun(s: State, e: Event)
    ensures Exec(s, [e]) == Apply(s, e) && (ValidRun(s, [e]) <==> Enabled(s, e))
  {
    RunStep(s, e, []);
    assert [e] + [] == [e];
  }

  lemma {:induction false} UnlistedGetsThrough(s: State, q: nat, t: AccessToken) returns (es: seq<Event>)
    requires Sound(s) && LiveUser(s.tables, t.sub) && At(s, q) && s.threads[q].NotListed? && s.threads[q].token == t
    ensures ValidRun(s, es) && AcceptsToken(Exec(s, es), q, t) && Quiet(es) && GateCheck(q) !in es
  {
    var head := Reopens(s, t.sub, q);
    var s1 := Exec(s, head);
    SparedStays(s, head, q);
    TouchStep(s1, q, t, s.threads[q].purpose);
    RunConcat(s, head, PassPart(q));
    es := head + PassPart(q);
    assert Moves(GateCheck(q), q);
  }

  lemma {:induction false} SeenGetsThrough(s: State, q: nat, t: AccessToken)
    requires LiveUser(s.tables, t.sub) && At(s, q) && s.threads[q].SessionSeen? && s.threads[q].token == t
    ensures ValidRun(s, [GateExpire(q)]) && AcceptsToken(Exec(s, [GateExpire(q)]), q, t)
  {
    OneStepRun(s, GateExpire(q));
  }

  /** A live user's request past the blacklist read can be accepted, with no other blacklist read and in no time. */
  lemma {:induction false} GetsThrough(s: State, q: nat, t: AccessToken) returns (es: seq<Event>)
    requires Sound(s) && LiveUser(s.tables, t.sub) && PastBlacklist(s, q, t)
    ensures ValidRun(s, es) && AcceptsToken(Exec(s, es), q, t) && Quiet(es) && GateCheck(q) !in es
  {
    if s.threads[q].NotListed? {
      es := UnlistedGetsThrough(s, q, t);
    } else if s.threads[q].SessionSeen? {
      es := [GateExpire(q)];
      SeenGetsThrough(s, q, t);
    } else {
      es := [];
    }
  }

  // ------------------------------------------------ exactly which requests are left

  /** A run after which the request is accepted with this token. */
  ghost predicate Acceptance(s: State, es: seq<Event>, q: nat, t: AccessToken) {
    ValidRun(s, es) && AcceptsToken(Exec(s, es), q, t)
  }

  /** Such a run in which the request does not read the blacklist at `from` or later. */
  ghost predicate EarlyAcceptance(s: State, es: seq<Event>, q: nat, t: AccessToken, from: Time) {
    Acceptance(s, es, q, t) && !ReadsLate(s, es, q, t, from)
  }

  lemma LiveBefore(s: State, es: seq<Event>, user: Uuid)
    requires Inv(s) && ValidRun(s, es) && user in s.tables.users && LiveUser(Exec(s, es).tables, user)
    ensures LiveUser(s.tables, user)
  {
    RunExtends(s, es);
    assert SameRow(s.tables.users[user], Exec(s, es).tables.users[user]);
  }

  lemma {:induction false} EarlyAcceptanceOnly(s: State, es: seq<Event>, q: nat, t: AccessToken, from: Time)
    requires Inv(s) && t.sub in s.tables.users
    requires EarlyAcceptance(s, es, q, t, from) && StaysCovered(s, es, t.jti, from)
    ensures LiveUser(s.tables, t.sub) && PastBlacklist(s, q, t)
  {
    CoveredRun(s, es, q, t, from);
    LiveBefore(s, es, t.sub);
  }

  lemma {:induction false} CanBeEarly(s: State, q: nat, t: AccessToken, from: Time) returns (es: seq<Event>)
    requires Sound(s) && LiveUser(s.tables, t.sub) && PastBlacklist(s, q, t)
    ensures EarlyAcceptance(s, es, q, t, from) && Quiet(es)
  {
    es := GetsThrough(s, q, t);
    NoReadIsNotLate(s, es, q, t, from);
  }

  lemma {:induction false} EarlyAcceptanceExactly(s: State, q: nat, t: AccessToken, from: Time)
    requires Sound(s) && t.jti in s.hist.access && s.hist.access[t.jti] == t
    requires forall es :: ValidRun(s, es) ==> StaysCovered(s, es, t.jti, from)
    ensures (exists es :: EarlyAcceptance(s, es, q, t, from)) <==> LiveUser(s.tables, t.sub) && PastBlacklist(s, q, t)
  {
    forall es | EarlyAcceptance(s, es, q, t, from) ensures LiveUser(s.tables, t.sub) && PastBlacklist(s, q, t) {
      EarlyAcceptanceOnly(s, es, q, t, from);
    }
    if LiveUser(s.tables, t.sub) && PastBlacklist(s, q, t) {
      var es := CanBeEarly(s, q, t, from);
    }
  }

  lemma {:induction false} LeftAtGap(s: State, tid: nat, q: nat)
    requires Reachable(s) && At(s, tid) && s.threads[tid].Admitted? && s.now < s.threads[tid].token.exp
    ensures var t := s.threads[tid].token; var s' := Apply(s, LogoutList(tid));
            (exists es :: EarlyAcceptance(s', es, q, t, FirstGap(t)))
            <==> LiveUser(s'.tables, t.sub) && PastBlacklist(s', q, t)
  {
    var t := s.threads[tid].token;
    var s' := Apply(s, LogoutList(tid));
    ReachableSound(s);
    SoundStep(s, LogoutList(tid));
    LogoutCovers(s, tid);
    forall es | ValidRun(s', es) ensures StaysCovered(s', es, t.jti, FirstGap(t)) {
      ListingCovers(s', es, t);
    }
    EarlyAcceptanceExactly(s', q, t, FirstGap(t));
  }

  /**
   * After the token is listed, the requests it can still carry through the gate, other than by a blacklist read
   * in the last second before its expiry or after it, are exactly those that were past that read at the logout.
   */
  lemma {:induction false} LogoutLeavesExactly(s: State, tid: nat, q: nat)
    requires Reachable(s) && At(s, tid) && s.threads[tid].Admitted? && s.now < s.threads[tid].token.exp
    ensures var t := s.threads[tid].token; var s' := Apply(s, LogoutList(tid)); var gap := t.exp - SECOND + 1;
            (exists es :: EarlyAcceptance(s', es, q, t, gap)) <==> LiveUser(s'.tables, t.sub) && PastBlacklist(s', q, t)
  {
    LeftAtGap(s, tid, q);
    assert FirstGap(s.threads[tid].token) == s.threads[tid].token.exp - SECOND + 1;
  }

  /** The same on a clock of whole seconds, where only reads at the expiry or after it are late. */
  lemma {:induction false} LogoutLeavesExactlyOnWholeSeconds(s: State, tid: nat, q: nat)
    requires Reachable(s) && At(s, tid) && s.threads[tid].Admitted?
    requires s.now < s.threads[tid].token.exp && IsWhole(s.now)
    ensures var t := s.threads[tid].token; var s' := Apply(s, LogoutList(tid));
            (exists es :: WholeSeconds(es) && EarlyAcceptance(s', es, q, t, t.exp))
            <==> LiveUser(s'.tables, t.sub) && PastBlacklist(s', q, t)
  {
    var t := s.threads[tid].token;
    var s' := Apply(s, LogoutList(tid));
    ReachableSound(s);
    SoundStep(s, LogoutList(tid));
    LogoutListsFully(s, tid);
    if es :| WholeSeconds(es) && EarlyAcceptance(s', es, q, t, t.exp) {
      FullListingCovers(s', es, t);
      EarlyAcceptanceOnly(s', es, q, t, t.exp);
    }
    if LiveUser(s'.tables, t.sub) && PastBlacklist(s', q, t) {
      var es := CanBeEarly(s', q, t, t.exp);
      QuietIsWhole(es);
    }
  }

  // ------------------------------------------------ late reads

  lemma ReadPasses(s: State, q: nat, t: AccessToken)
    requires HoldsDecoded(s, q, t) && !Revoked(s, t)
    ensures var s' := Apply(s, GateCheck(q)); PastBlacklist(s', q, t) && s'.tables == s.tables
  {
  }

  lemma {:induction false} UnlistedReadGetsThrough(s: State, q: nat, t: AccessToken) returns (es: seq<Event>)
    requires Sound(s) && LiveUser(s.tables, t.sub) && HoldsDecoded(s, q, t) && !Revoked(s, t)
    ensures ValidRun(s, es) && AcceptsToken(Exec(s, es), q, t)
  {
    ReadPasses(s, q, t);
    SoundStep(s, GateCheck(q));
    var rest := GetsThrough(Apply(s, GateCheck(q)), q, t);
    es := [GateCheck(q)] + rest;
    RunStep(s, GateCheck(q), rest);
  }

  /** Waiting out the entry of a token, the read passes. */
  lemma {:induction false} DecodedOutlastsEntry(s: State, q: nat, t: AccessToken) returns (es: seq<Event>)
    requires Sound(s) && LiveUser(s.tables, t.sub) && HoldsDecoded(s, q, t)
    ensures ValidRun(s, es) && AcceptsToken(Exec(s, es), q, t)
  {
    var k := BlacklistKey(t.jti);
    var d: nat := if k in s.redis && s.now < s.redis[k].expiry then s.redis[k].expiry - s.now else 0;
    assert Apply(s, Tick(d)) == s.(now := s.now + d);
    SoundStep(s, Tick(d));
    var rest := UnlistedReadGetsThrough(s.(now := s.now + d), q, t);
    es := [Tick(d)] + rest;
    RunTick(s, d, rest);
  }

  lemma {:induction false} NewRequestOutlastsEntry(s: State, q: nat, t: AccessToken) returns (es: seq<Event>)
    requires Sound(s) && LiveUser(s.tables, t.sub) && !At(s, q) && DecodesAccess(s, t)
    ensures ValidRun(s, es) && AcceptsToken(Exec(s, es), q, t)
  {
    var e := GateDecode(q, t, CallApi);
    SoundStep(s, e);
    var rest := DecodedOutlastsEntry(Apply(s, e), q, t);
    es := [e] + rest;
    RunStep(s, e, rest);
  }

  lemma {:induction false} CarriesLate(s: State, q: nat, t: AccessToken) returns (es: seq<Event>)
    requires Sound(s) && LiveUser(s.tables, t.sub) && DecodesAccess(s, t) && (At(s, q) ==> HoldsDecoded(s, q, t))
    ensures ValidRun(s, es) && AcceptsToken(Exec(s, es), q, t)
  {
    if At(s, q) {
      es := DecodedOutlastsEntry(s, q, t);
    } else {
      es := NewRequestOutlastsEntry(s, q, t);
    }
  }

  lemma {:induction false} AcceptedSometimeExactly(s: State, q: nat, t: AccessToken)
    requires Sound(s) && DecodesAccess(s, t) && (At(s, q) ==> HoldsDecoded(s, q, t))
    ensures (exists es :: Acceptance(s, es, q, t)) <==> LiveUser(s.tables, t.sub)
  {
    forall es | Acceptance(s, es, q, t) ensures LiveUser(s.tables, t.sub) {
      LiveBefore(s, es, t.sub);
    }
    if LiveUser(s.tables, t.sub) {
      var es := CarriesLate(s, q, t);
      assert Acceptance(s, es, q, t);
    }
  }

  /**
   * With late reads allowed, a request that carries the token before the read, or a new one, can be accepted
   * exactly while the user is live: it decodes the token in time and reads the blacklist once the entry is gone.
   */
  lemma {:induction false} LateReadsPassExactly(s: State, tid: nat, q: nat)
    requires Reachable(s) && At(s, tid) && s.threads[tid].Admitted? && s.now < s.threads[tid].token.exp
    requires var s' := Apply(s, LogoutList(tid)); At(s', q) ==> HoldsDecoded(s', q, s.threads[tid].token)
    ensures var t := s.threads[tid].token; var s' := Apply(s, LogoutList(tid));
            (exists es :: Acceptance(s', es, q, t)) <==> LiveUser(s'.tables, t.sub)
  {
    var t := s.threads[tid].token;
    var s' := Apply(s, LogoutList(tid));
    ReachableSound(s);
    SoundStep(s, LogoutList(tid));
    LogoutCovers(s, tid);
    AcceptedSometimeExactly(s', q, t);
  }

  // ------------------------------------------------ the gap before expiry

  /** No further logout of this token takes its first step in the run. */
  ghost predicate NoRelisting(s: State, es: seq<Event>, jti: Uuid)
    decreases |es|
  {
    es == [] ||
    (!(es[0].LogoutList? && At(s, es[0].tid) && s.threads[es[0].tid].Admitted? && s.threads[es[0].tid].token.jti == jti)
     && NoRelisting(Apply(s, es[0]), es[1..], jti))
  }

  lemma {:induction false} ListingLasts(s: State, es: seq<Event>, jti: Uuid)
    requires NoRelisting(s, es, jti)
    ensures SameEntry(s.redis, Exec(s, es).redis, BlacklistKey(jti))
    decreases |es|
  {
    if es != [] {
      ListingStays(s, es[0], jti);
      ListingLasts(Apply(s, es[0]), es[1..], jti);
    }
  }

  lemma ListingStays(s: State, e: Event, jti: Uuid)
    requires NoRelisting(s, [e], jti)
    ensures SameEntry(s.redis, Apply(s, e).redis, BlacklistKey(jti))
  {
    if !e.LogoutList? {
      BlacklistFrame(s, e, jti);
    } else if At(s, e.tid) && s.threads[e.tid].Admitted? {
      LogoutListEffect(s, e.tid, jti);
    } else {
      LogoutListNoop(s, e.tid);
    }
  }

  /** In a continuation without another logout of the token, some request passes its read before the token expires. */
  ghost predicate PassesBeforeExpiry(s: State, es: seq<Event>, q: nat, t: AccessToken) {
    && ValidRun(s, es) && NoRelisting(s, es, t.jti)
    && var later := Exec(s, es); later.now < t.exp && HoldsDecoded(later, q, t) && !Revoked(later, t)
  }

  /** When the entry written by a first logout ends. */
  function ListedUntil(now: Time, exp: Time): Time {
    now + SecondsLeft(now, exp) * SECOND
  }

  lemma ListedUntilIs(now: Time, exp: Time)
    requires now < exp && IsWhole(exp)
    ensures now <= ListedUntil(now, exp) <= exp && exp - SECOND < ListedUntil(now, exp)
    ensures ListedUntil(now, exp) == exp <==> IsWhole(now)
  {
    if IsWhole(now) {
      WholeDifference(now, exp);
    }
  }

  /** A first logout leaves a read before expiry that passes exactly when it fell between two whole seconds. */
  lemma {:induction false} LogoutTailExactly(s: State, tid: nat)
    requires Reachable(s) && At(s, tid) && s.threads[tid].Admitted? && s.now < s.threads[tid].token.exp
    requires BlacklistKey(s.threads[tid].token.jti) !in s.redis
    ensures var t := s.threads[tid].token; var s' := Apply(s, LogoutList(tid));
            (exists es, q :: PassesBeforeExpiry(s', es, q, t)) <==> !IsWhole(s.now)
  {
    var t := s.threads[tid].token;
    var s' := Apply(s, LogoutList(tid));
    ReachableSound(s);
    SoundStep(s, LogoutList(tid));
    FirstListing(s, tid);
    EntryLeavesGapExactly(s', t, ListedUntil(s.now, t.exp));
  }

  lemma {:induction false} FindsGap(s: State, t: AccessToken, until: Time) returns (es: seq<Event>, q: nat)
    requires t.jti in s.hist.access && s.hist.access[t.jti] == t && s.now <= until < t.exp
    requires BlacklistKey(t.jti) in s.redis ==> s.redis[BlacklistKey(t.jti)].expiry <= until
    ensures PassesBeforeExpiry(s, es, q, t)
  {
    q := AboveAll(s.threads.Keys);
    WaitsOutEntry(s, q, t, until - s.now);
    es := [Tick(until - s.now)] + ([GateDecode(q, t, CallApi)] + []);
  }

  lemma {:induction false} EntryLeavesGapExactly(s: State, t: AccessToken, until: Time)
    requires Inv(s) && t.jti in s.hist.access && s.hist.access[t.jti] == t && s.now <= until <= t.exp
    requires var k := BlacklistKey(t.jti);
             if s.now < until then k in s.redis && s.redis[k].expiry == until else k !in s.redis
    requires s.now < t.exp
    ensures (exists es, q :: PassesBeforeExpiry(s, es, q, t)) <==> until < t.exp
  {
    forall es, q | PassesBeforeExpiry(s, es, q, t) ensures until < t.exp {
      PassesAfterEntry(s, es, q, t);
    }
    if until < t.exp {
      var es, q := FindsGap(s, t, until);
    }
  }

  /** The entry a first logout leaves. */
  lemma FirstListing(s: State, tid: nat)
    requires Sound(s) && At(s, tid) && s.threads[tid].Admitted? && s.now < s.threads[tid].token.exp
    requires BlacklistKey(s.threads[tid].token.jti) !in s.redis
    ensures var t := s.threads[tid].token; var s' := Apply(s, LogoutList(tid)); var k := BlacklistKey(t.jti);
            && t.jti in s'.hist.access && s'.hist.access[t.jti] == t && s'.now == s.now
            && (if s.now < ListedUntil(s.now, t.exp)
                then k in s'.redis && s'.redis[k].expiry == ListedUntil(s.now, t.exp) else k !in s'.redis)
            && s.now <= ListedUntil(s.now, t.exp) <= t.exp && (ListedUntil(s.now, t.exp) == t.exp <==> IsWhole(s.now))
  {
    var t := s.threads[tid].token;
    AdmittedIsIssued(s, tid);
    ListedUntilIs(s.now, t.exp);
    LogoutListEffect(s, tid, t.jti);
  }

  lemma {:induction false} PassesAfterEntry(s: State, es: seq<Event>, q: nat, t: AccessToken)
    requires Inv(s) && PassesBeforeExpiry(s, es, q, t)
    ensures s.now < t.exp && (BlacklistKey(t.jti) in s.redis ==> s.redis[BlacklistKey(t.jti)].expiry < t.exp)
  {
    ListingLasts(s, es, t.jti);
    RunExtends(s, es);
  }

  lemma {:induction false} WaitsOutEntry(s: State, q: nat, t: AccessToken, d: nat)
    requires !At(s, q) && t.jti in s.hist.access && s.hist.access[t.jti] == t && s.now + d < t.exp
    requires BlacklistKey(t.jti) in s.redis ==> s.redis[BlacklistKey(t.jti)].expiry <= s.now + d
    ensures PassesBeforeExpiry(s, [Tick(d)] + ([GateDecode(q, t, CallApi)] + []), q, t)
  {
    var s1 := s.(now := s.now + d);
    var e := GateDecode(q, t, CallApi);
    RunTick(s, d, [e] + []);
    RunStep(s1, e, []);
    var es := [Tick(d)] + ([e] + []);
    assert es[1..] == [e] && es[1..][1..] == [];
    assert Apply(s, Tick(d)) == s1;
  }

  // ------------------------------------------------ whether a logout takes effect

  /**
   * However other requests interleave between its two steps, a logout closes the session exactly when its token
   * has not expired at the first; otherwise both steps leave everything else as it is.
   */
  lemma {:induction false} LogoutTakesEffectExactly(s: State, tid: nat, es: seq<Event>)
    requires At(s, tid) && s.threads[tid].Admitted? && Spares(es, tid)
    ensures var t := s.threads[tid].token;
            var later := Exec(Apply(s, LogoutList(tid)), es); var after := Apply(later, LogoutDelete(tid));
            if s.now < t.exp
            then SessionKey(t.sub) !in after.redis && after.hist.activity == Log(later, t.sub, Closed)
            else Apply(s, LogoutList(tid)) == End(s, tid) && after == later
  {
    LogoutListEffect(s, tid, s.threads[tid].token.jti);
    SparedStays(Apply(s, LogoutList(tid)), es, tid);
  }
}
