/** When a user whose session is closed can be accepted again without redeeming another code. */
module Readmission {
  import opened Wrappers
  import opened TtlStore
  import opened SlidingKey
  import opened Directory
  import opened AuthModel
  import opened AuthInvariants
  import opened Provenance
  import opened Sessions
  import opened SignOn
  import opened Continuations
  import opened Logout

  /** The request has read a code of this user and not yet signed its tokens. */
  predicate CodePending(s: State, q: nat, user: Uuid) {
    At(s, q) && (s.threads[q].CodeHeld? || s.threads[q].CodeSpent?) && s.threads[q].user == user
  }

  /** The request has signed its tokens and not yet opened the session. */
  predicate MintedPending(s: State, q: nat, user: Uuid) {
    At(s, q) && s.threads[q] == TokensMinted(user)
  }

  /** The request has decoded an access or a refresh token of this user. */
  predicate CarriesToken(s: State, q: nat, user: Uuid) {
    At(s, q) && var pc := s.threads[q];
    ((pc.TokenDecoded? || pc.NotListed?) && pc.token.sub == user) || (pc.RefreshAccepted? && pc.refresh.sub == user)
  }

  /** An access or refresh token of this user that still decodes. */
  predicate Decodable(s: State, j: Uuid, user: Uuid) {
    || (j in s.hist.access && s.hist.access[j].sub == user && s.now < s.hist.access[j].exp)
    || (j in s.hist.refresh && s.hist.refresh[j].sub == user && s.now < s.hist.refresh[j].exp)
  }

  ghost predicate HasCarrier(s: State, user: Uuid) {
    (exists q :: CarriesToken(s, q, user)) || (exists j :: Decodable(s, j, user))
  }

  /**
   * What is left of a user whose session is closed: a request that has been told the session exists, an exchange
   * that will sign tokens, or one that will only open the session, with a token in hand to use it.
   */
  ghost predicate WayBack(s: State, user: Uuid) {
    || (exists q :: PastSessionCheck(s, q, user))
    || (exists q :: CodePending(s, q, user))
    || ((exists q :: MintedPending(s, q, user)) && HasCarrier(s, user))
  }

  /** A code of this user is read successfully. */
  predicate TakesCode(s: State, e: Event, user: Uuid) {
    e.ExchangeGet? && Get(s.redis, CodeKey(e.code), s.now) == Some(UserRef(user))
  }

  ghost predicate NoCodeTaken(s: State, es: seq<Event>, user: Uuid)
    decreases |es|
  {
    es == [] || (!TakesCode(s, es[0], user) && NoCodeTaken(Apply(s, es[0]), es[1..], user))
  }

  /** A run without another code of the user, after which the user is accepted. */
  ghost predicate Readmits(s: State, es: seq<Event>, q: nat, user: Uuid) {
    ValidRun(s, es) && NoCodeTaken(s, es, user) && Accepts(Exec(s, es), GateLoad(q), user)
  }

  // ------------------------------------------------ no way back, no acceptance

  ghost predicate Stuck(s: State, user: Uuid) {
    && (forall q :: !PastSessionCheck(s, q, user) && !CodePending(s, q, user))
    && ((!SessionOpen(s, user) && forall q :: !MintedPending(s, q, user)) || !HasCarrier(s, user))
  }

  lemma PastSessionFrom(s: State, e: Event, q: nat, user: Uuid)
    requires Enabled(s, e) && PastSessionCheck(Apply(s, e), q, user)
    ensures PastSessionCheck(s, q, user) || (CarriesToken(s, q, user) && SessionOpen(s, user))
  {
    if !Moves(e, q) {
      OthersStay(s, e, q);
    }
  }

  lemma CodePendingFrom(s: State, e: Event, q: nat, user: Uuid)
    requires Enabled(s, e) && CodePending(Apply(s, e), q, user)
    ensures CodePending(s, q, user) || TakesCode(s, e, user)
  {
    if !Moves(e, q) {
      OthersStay(s, e, q);
    }
  }

  lemma MintedPendingFrom(s: State, e: Event, q: nat, user: Uuid)
    requires Enabled(s, e) && MintedPending(Apply(s, e), q, user)
    ensures MintedPending(s, q, user) || CodePending(s, q, user)
  {
    if !Moves(e, q) {
      OthersStay(s, e, q);
    }
  }

  lemma CarrierFrom(s: State, e: Event, q: nat, user: Uuid)
    requires Enabled(s, e) && CarriesToken(Apply(s, e), q, user)
    ensures HasCarrier(s, user)
  {
    if !Moves(e, q) {
      OthersStay(s, e, q);
      assert CarriesToken(s, q, user);
    } else if e.GateDecode? {
      assert Decodable(s, e.token.jti, user);
    } else if e.RefreshDecode? {
      assert Decodable(s, e.refresh.jti, user);
    } else {
      assert CarriesToken(s, q, user);
    }
  }

  lemma MintedFromThread(s: State, e: Event, j: Uuid, user: Uuid)
    requires (e.ExchangeMint? || e.RefreshMint?) && Decodable(Apply(s, e), j, user)
    ensures Decodable(s, j, user) || CodePending(s, e.tid, user) || CarriesToken(s, e.tid, user)
  {
  }

  lemma DecodableFrom(s: State, e: Event, j: Uuid, user: Uuid)
    requires Enabled(s, e) && Decodable(Apply(s, e), j, user)
    ensures HasCarrier(s, user) || exists q :: CodePending(s, q, user)
  {
    if e.ExchangeMint? || e.RefreshMint? {
      MintedFromThread(s, e, j, user);
    } else {
      ClockForward(s, e);
      OriginsFrame(s, e);
      assert Decodable(s, j, user);
    }
  }

  lemma CarriersFrom(s: State, e: Event, user: Uuid)
    requires Enabled(s, e) && HasCarrier(Apply(s, e), user)
    ensures HasCarrier(s, user) || exists q :: CodePending(s, q, user)
  {
    var s' := Apply(s, e);
    if q :| CarriesToken(s', q, user) {
      CarrierFrom(s, e, q, user);
    } else {
      var j :| Decodable(s', j, user);
      DecodableFrom(s, e, j, user);
    }
  }

  lemma StuckStep(s: State, e: Event, user: Uuid)
    requires Enabled(s, e) && Stuck(s, user) && !TakesCode(s, e, user)
    ensures Stuck(Apply(s, e), user)
  {
    var s' := Apply(s, e);
    forall q ensures !PastSessionCheck(s', q, user) && !CodePending(s', q, user) {
      if PastSessionCheck(s', q, user) {
        PastSessionFrom(s, e, q, user);
      }
      if CodePending(s', q, user) {
        CodePendingFrom(s, e, q, user);
      }
    }
    if HasCarrier(s, user) {
      OnlyExchangeOpensSession(s, e, user);
      assert e.ExchangeActivate? ==> !MintedPending(s, e.tid, user);
      forall q ensures !MintedPending(s', q, user) {
        if MintedPending(s', q, user) {
          MintedPendingFrom(s, e, q, user);
        }
      }
    } else if HasCarrier(s', user) {
      CarriersFrom(s, e, user);
    }
  }

  lemma {:induction false} StuckRun(s: State, es: seq<Event>, user: Uuid)
    requires ValidRun(s, es) && Stuck(s, user) && NoCodeTaken(s, es, user)
    ensures Stuck(Exec(s, es), user)
    decreases |es|
  {
    if es != [] {
      StuckStep(s, es[0], user);
      StuckRun(Apply(s, es[0]), es[1..], user);
    }
  }

  // ------------------------------------------------ every way back leads back

  predicate ReadsNoCode(es: seq<Event>) {
    forall e :: e in es ==> !e.ExchangeGet?
  }

  lemma {:induction false} ReadsNoCodeTaken(s: State, es: seq<Event>, user: Uuid)
    requires ReadsNoCode(es)
    ensures NoCodeTaken(s, es, user)
    decreases |es|
  {
    if es != [] {
      assert es[0] in es;
      ReadsNoCodeTaken(Apply(s, es[0]), es[1..], user);
    }
  }

  /** A run that reads no code and after which some request of the user is accepted. */
  ghost predicate LeadsBack(s: State, es: seq<Event>, user: Uuid) {
    ValidRun(s, es) && ReadsNoCode(es) && exists q :: Accepts(Exec(s, es), GateLoad(q), user)
  }

  lemma {:induction false} FirstThen(s: State, e: Event, es: seq<Event>, user: Uuid)
    requires Enabled(s, e) && !e.ExchangeGet? && LeadsBack(Apply(s, e), es, user)
    ensures LeadsBack(s, [e] + es, user)
  {
    RunStep(s, e, es);
  }

  lemma {:induction false} PastSessionLeadsBack(s: State, q: nat, user: Uuid) returns (es: seq<Event>)
    requires LiveUser(s.tables, user) && PastSessionCheck(s, q, user)
    ensures LeadsBack(s, es, user)
  {
    if s.threads[q].SessionSeen? {
      SeenGetsThrough(s, q, s.threads[q].token);
      es := [GateExpire(q)];
      assert Accepts(Exec(s, es), GateLoad(q), user);
    } else {
      es := [];
      assert Accepts(Exec(s, es), GateLoad(q), user);
    }
  }

  /** A request past the blacklist, and an exchange about to open the session. */
  lemma {:induction false} UnlistedLeadsBack(s: State, p: nat, q: nat, user: Uuid) returns (es: seq<Event>)
    requires LiveUser(s.tables, user) && MintedPending(s, p, user)
    requires At(s, q) && s.threads[q].NotListed? && s.threads[q].token.sub == user
    ensures LeadsBack(s, es, user)
  {
    var s1 := Apply(s, ExchangeActivate(p));
    OthersStay(s, ExchangeActivate(p), q);
    TouchStep(s1, q, s.threads[q].token, s.threads[q].purpose);
    assert Accepts(Exec(s1, PassPart(q)), GateLoad(q), user);
    FirstThen(s, ExchangeActivate(p), PassPart(q), user);
    es := [ExchangeActivate(p)] + PassPart(q);
  }

  lemma {:induction false} DecodedLeadsBack(s: State, p: nat, q: nat, user: Uuid) returns (es: seq<Event>)
    requires LiveUser(s.tables, user) && MintedPending(s, p, user)
    requires At(s, q) && s.threads[q].TokenDecoded? && s.threads[q].token.sub == user
    ensures LeadsBack(s, es, user)
  {
    var t := s.threads[q].token;
    var k := BlacklistKey(t.jti);
    var d: nat := if k in s.redis && s.now < s.redis[k].expiry then s.redis[k].expiry - s.now else 0;
    var s1 := s.(now := s.now + d);
    assert Apply(s, Tick(d)) == s1;
    var s2 := Put(s1, q, NotListed(t, s.threads[q].purpose));
    assert Apply(s1, GateCheck(q)) == s2;
    var rest := UnlistedLeadsBack(s2, p, q, user);
    FirstThen(s1, GateCheck(q), rest, user);
    FirstThen(s, Tick(d), [GateCheck(q)] + rest, user);
    es := [Tick(d)] + ([GateCheck(q)] + rest);
  }

  lemma {:induction false} AccessTokenLeadsBack(s: State, p: nat, t: AccessToken) returns (es: seq<Event>)
    requires LiveUser(s.tables, t.sub) && MintedPending(s, p, t.sub) && DecodesAccess(s, t)
    ensures LeadsBack(s, es, t.sub)
  {
    var q := AboveAll(s.threads.Keys);
    var e := GateDecode(q, t, CallApi);
    var rest := DecodedLeadsBack(Put(s, q, TokenDecoded(t, CallApi)), p, q, t.sub);
    FirstThen(s, e, rest, t.sub);
    es := [e] + rest;
  }

  /** What a refresh of an active account signs. */
  lemma RefreshSigns(s: State, q: nat, a: Uuid, r: Uuid, user: Uuid)
    requires MayHoldTokens(s.tables, user) && At(s, q) && s.threads[q].RefreshAccepted?
    requires s.threads[q].refresh.sub == user
    requires a !in s.used && r !in s.used && a != r
    ensures var s' := Apply(s, RefreshMint(q, a, r));
            && s'.tables == s.tables && a in s'.hist.access
            && s'.hist.access[a].sub == user && DecodesAccess(s', s'.hist.access[a])
  {
    FreshTokenLasts(s.now, s.cfg);
  }

  lemma {:induction false} RefreshLeadsBack(s: State, p: nat, q: nat, user: Uuid) returns (es: seq<Event>)
    requires LiveUser(s.tables, user) && MintedPending(s, p, user)
    requires At(s, q) && s.threads[q].RefreshAccepted? && s.threads[q].refresh.sub == user
    ensures LeadsBack(s, es, user)
  {
    var s1 := Apply(s, Reactivate(user));
    Reactivated(s, user);
    var a := AboveAll(s1.used);
    var e := RefreshMint(q, a, a + 1);
    RefreshSigns(s1, q, a, a + 1, user);
    OthersStay(s1, e, p);
    var s2 := Apply(s1, e);
    var rest := AccessTokenLeadsBack(s2, p, s2.hist.access[a]);
    FirstThen(s1, e, rest, user);
    FirstThen(s, Reactivate(user), [e] + rest, user);
    es := [Reactivate(user)] + ([e] + rest);
  }

  lemma {:induction false} RefreshTokenLeadsBack(s: State, p: nat, t: RefreshToken) returns (es: seq<Event>)
    requires LiveUser(s.tables, t.sub) && MintedPending(s, p, t.sub) && DecodesRefresh(s, t)
    ensures LeadsBack(s, es, t.sub)
  {
    var q := AboveAll(s.threads.Keys);
    var e := RefreshDecode(q, t);
    var rest := RefreshLeadsBack(Put(s, q, RefreshAccepted(t, s.now)), p, q, t.sub);
    FirstThen(s, e, rest, t.sub);
    es := [e] + rest;
  }

  lemma {:induction false} CarrierLeadsBack(s: State, p: nat, user: Uuid) returns (es: seq<Event>)
    requires OriginsSound(s) && LiveUser(s.tables, user) && MintedPending(s, p, user) && HasCarrier(s, user)
    ensures LeadsBack(s, es, user)
  {
    if q :| CarriesToken(s, q, user) {
      match s.threads[q]
      case TokenDecoded(_, _) => es := DecodedLeadsBack(s, p, q, user);
      case NotListed(_, _) => es := UnlistedLeadsBack(s, p, q, user);
      case RefreshAccepted(_, _) => es := RefreshLeadsBack(s, p, q, user);
    } else {
      var j :| Decodable(s, j, user);
      if j in s.hist.access && s.hist.access[j].sub == user && s.now < s.hist.access[j].exp {
        es := AccessTokenLeadsBack(s, p, s.hist.access[j]);
      } else {
        es := RefreshTokenLeadsBack(s, p, s.hist.refresh[j]);
      }
    }
  }

  /** What an exchange of an active account signs. */
  lemma ExchangeSigns(s: State, q: nat, a: Uuid, r: Uuid, user: Uuid)
    requires MayHoldTokens(s.tables, user) && At(s, q) && s.threads[q].CodeSpent? && s.threads[q].user == user
    requires a !in s.used && r !in s.used && a != r
    ensures var s' := Apply(s, ExchangeMint(q, a, r));
            && s'.tables == s.tables && MintedPending(s', q, user) && a in s'.hist.access
            && s'.hist.access[a].sub == user && DecodesAccess(s', s'.hist.access[a])
  {
    FreshTokenLasts(s.now, s.cfg);
  }

  lemma {:induction false} SpentCodeLeadsBack(s: State, q: nat, user: Uuid) returns (es: seq<Event>)
    requires LiveUser(s.tables, user) && At(s, q) && s.threads[q].CodeSpent? && s.threads[q].user == user
    ensures LeadsBack(s, es, user)
  {
    var s1 := Apply(s, Reactivate(user));
    Reactivated(s, user);
    var a := AboveAll(s1.used);
    var e := ExchangeMint(q, a, a + 1);
    ExchangeSigns(s1, q, a, a + 1, user);
    var s2 := Apply(s1, e);
    var rest := AccessTokenLeadsBack(s2, q, s2.hist.access[a]);
    FirstThen(s1, e, rest, user);
    FirstThen(s, Reactivate(user), [e] + rest, user);
    es := [Reactivate(user)] + ([e] + rest);
  }

  lemma {:induction false} CodeLeadsBack(s: State, q: nat, user: Uuid) returns (es: seq<Event>)
    requires LiveUser(s.tables, user) && CodePending(s, q, user)
    ensures LeadsBack(s, es, user)
  {
    if s.threads[q].CodeSpent? {
      es := SpentCodeLeadsBack(s, q, user);
    } else {
      var e := ExchangeDelete(q);
      var rest := SpentCodeLeadsBack(Apply(s, e), q, user);
      FirstThen(s, e, rest, user);
      es := [e] + rest;
    }
  }

  lemma {:induction false} WayBackLeadsBack(s: State, user: Uuid) returns (es: seq<Event>)
    requires OriginsSound(s) && LiveUser(s.tables, user) && WayBack(s, user)
    ensures LeadsBack(s, es, user)
  {
    if q :| PastSessionCheck(s, q, user) {
      es := PastSessionLeadsBack(s, q, user);
    } else if q :| CodePending(s, q, user) {
      es := CodeLeadsBack(s, q, user);
    } else {
      var p :| MintedPending(s, p, user);
      es := CarrierLeadsBack(s, p, user);
    }
  }

  // ------------------------------------------------ both directions

  lemma KnownUser(s: State, user: Uuid)
    requires Sound(s) && WayBack(s, user)
    ensures user in s.tables.users
  {
    if q :| PastSessionCheck(s, q, user) {
      assert SoundPc(s, s.threads[q]);
    } else if q :| CodePending(s, q, user) {
      assert SoundPc(s, s.threads[q]);
      assert SoundCallback(s, s.hist.callbacks[s.threads[q].code]);
    } else {
      var q :| MintedPending(s, q, user);
      assert SoundPc(s, s.threads[q]);
    }
  }

  lemma {:induction false} ReadmittedOnly(s: State, es: seq<Event>, q: nat, user: Uuid)
    requires Sound(s) && !SessionOpen(s, user) && Readmits(s, es, q, user)
    ensures LiveUser(s.tables, user) && WayBack(s, user)
  {
    if !WayBack(s, user) {
      assert Stuck(s, user);
      StuckRun(s, es, user);
      assert PastSessionCheck(Exec(s, es), q, user);
    }
    KnownUser(s, user);
    LiveBefore(s, es, user);
  }

  /**
   * With the session closed and no further code of the user read, the user can be accepted again exactly if live
   * with a way back.
   */
  lemma {:induction false} ReadmissionExactly(s: State, user: Uuid)
    requires Sound(s) && !SessionOpen(s, user)
    ensures (exists es, q :: Readmits(s, es, q, user)) <==> LiveUser(s.tables, user) && WayBack(s, user)
  {
    forall es, q | Readmits(s, es, q, user) ensures LiveUser(s.tables, user) && WayBack(s, user) {
      ReadmittedOnly(s, es, q, user);
    }
    if LiveUser(s.tables, user) && WayBack(s, user) {
      var es := WayBackLeadsBack(s, user);
      ReadsNoCodeTaken(s, es, user);
      var q :| Accepts(Exec(s, es), GateLoad(q), user);
      assert Readmits(s, es, q, user);
    }
  }

  /**
   * After a logout has deleted the session, with no further code of the user read, some continuation accepts the
   * user exactly if the user is live and a request or an exchange already under way provides a way back.
   */
  lemma {:induction false} LogoutEndsAccessExactly(s: State, tid: nat)
    requires Reachable(s) && At(s, tid) && s.threads[tid].Listed?
    ensures var user := s.threads[tid].token.sub; var s' := Apply(s, LogoutDelete(tid));
            (exists es, q :: Readmits(s', es, q, user)) <==> LiveUser(s'.tables, user) && WayBack(s', user)
  {
    ReachableSound(s);
    SoundStep(s, LogoutDelete(tid));
    ReadmissionExactly(Apply(s, LogoutDelete(tid)), s.threads[tid].token.sub);
  }
}
