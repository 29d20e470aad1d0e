/** How long tokens live and what they claim, from the instant they were signed at. */
module Lifetimes {
  import opened Wrappers
  import opened TtlStore
  import opened Directory
  import opened AuthModel
  import opened AuthInvariants
  import opened Provenance
  import opened Sessions
  import opened SignOn
  import opened Continuations

  /** The whole second in which so many seconds after `m` are over. */
  function EndAfter(m: Time, seconds: int): Time {
    (m + seconds * SECOND) / SECOND * SECOND
  }

  predicate AccessSigned(s: State, j: Uuid) {
    && j in s.hist.access && j in s.hist.origins && s.hist.access[j].jti == j
    && s.hist.access[j].iat == EndAfter(s.hist.origins[j].at, 0)
    && s.hist.access[j].exp == EndAfter(s.hist.origins[j].at, s.cfg.accessMinutes * 60)
  }

  predicate RefreshSigned(s: State, j: Uuid) {
    && j in s.hist.refresh && j in s.hist.origins && s.hist.refresh[j].jti == j
    && s.hist.refresh[j].iat == EndAfter(s.hist.origins[j].at, 0)
    && s.hist.refresh[j].exp == EndAfter(s.hist.origins[j].at, s.cfg.refreshDays * 86400)
  }

  ghost predicate ClaimsSound(s: State) {
    && (forall j :: j in s.hist.access ==> AccessSigned(s, j))
    && (forall j :: j in s.hist.refresh ==> RefreshSigned(s, j))
  }

  // ------------------------------------------------ the step that signs

  /** A new access token was signed now, for an account that may hold it, and claims the role of its row. */
  lemma NewAccessToken(s: State, e: Event, j: Uuid)
    requires Enabled(s, e) && j !in s.hist.access && j in Apply(s, e).hist.access
    ensures var s' := Apply(s, e); var t := s'.hist.access[j];
            && AccessSigned(s', j) && s'.hist.origins[j].at == s.now
            && t.sub in s.tables.users && t.role == s.tables.users[t.sub].role
            && s.tables.users[t.sub].isActive && s.tables.users[t.sub].deletedAt == None
  {
    if !e.ExchangeMint? && !e.RefreshMint? {
      OriginsFrame(s, e);
      assert false;
    }
  }

  lemma NewRefreshToken(s: State, e: Event, j: Uuid)
    requires Enabled(s, e) && j !in s.hist.refresh && j in Apply(s, e).hist.refresh
    ensures RefreshSigned(Apply(s, e), j) && Apply(s, e).hist.origins[j].at == s.now
  {
    if !e.ExchangeMint? && !e.RefreshMint? {
      OriginsFrame(s, e);
      assert false;
    }
  }

  lemma ClaimsStep(s: State, e: Event)
    requires UsedCovers(s) && Enabled(s, e) && ClaimsSound(s)
    ensures ClaimsSound(Apply(s, e))
  {
    var s' := Apply(s, e);
    StepHistory(s, e);
    forall j | j in s'.hist.access ensures AccessSigned(s', j) {
      if j in s.hist.access {
        assert AccessSigned(s, j);
      } else {
        NewAccessToken(s, e, j);
      }
    }
    forall j | j in s'.hist.refresh ensures RefreshSigned(s', j) {
      if j in s.hist.refresh {
        assert RefreshSigned(s, j);
      } else {
        NewRefreshToken(s, e, j);
      }
    }
  }

  lemma {:induction false} ClaimsRun(s: State, es: seq<Event>)
    requires Inv(s) && ValidRun(s, es) && ClaimsSound(s)
    ensures ClaimsSound(Exec(s, es))
    decreases |es|
  {
    if es != [] {
      ClaimsStep(s, es[0]);
      StepKeepsInv(s, es[0]);
      ClaimsRun(Apply(s, es[0]), es[1..]);
    }
  }

  lemma {:induction false} ReachableClaims(s: State)
    requires Reachable(s)
    ensures Inv(s) && ClaimsSound(s)
  {
    var s0, past :| Initial(s0) && ValidRun(s0, past) && s == Exec(s0, past);
    InitialInv(s0);
    RunKeepsInv(s0, past);
    ClaimsRun(s0, past);
  }

  // ------------------------------------------------ how long they decode

  lemma AccessEnd(s: State, j: Uuid)
    requires ClaimsSound(s) && j in s.hist.access
    ensures j in s.hist.origins
    ensures s.hist.access[j].exp == (s.hist.origins[j].at + s.cfg.accessMinutes * 60 * SECOND) / SECOND * SECOND
  {
    assert AccessSigned(s, j);
  }

  lemma RefreshEnd(s: State, j: Uuid)
    requires ClaimsSound(s) && j in s.hist.refresh
    ensures j in s.hist.origins
    ensures s.hist.refresh[j].jti == j
    ensures s.hist.refresh[j].exp
         == (s.hist.origins[j].at + s.cfg.refreshDays * 24 * 60 * 60 * SECOND) / SECOND * SECOND
  {
    assert RefreshSigned(s, j);
  }

  lemma AccessGate(s: State, q: nat, t: AccessToken, purpose: Purpose)
    requires !At(s, q)
    ensures At(Apply(s, GateDecode(q, t, purpose)), q) <==> DecodesAccess(s, t)
  {
  }

  lemma {:induction false} AccessDecodesExactly(s: State, t: AccessToken)
    requires Reachable(s)
    ensures DecodesAccess(s, t)
       <==> && t.jti in s.hist.access && s.hist.access[t.jti] == t && t.jti in s.hist.origins
            && s.now < (s.hist.origins[t.jti].at + s.cfg.accessMinutes * 60 * SECOND) / SECOND * SECOND
  {
    ReachableClaims(s);
    AccessEnds(s, t);
  }

  lemma AccessEnds(s: State, t: AccessToken)
    requires ClaimsSound(s)
    ensures DecodesAccess(s, t)
       <==> && t.jti in s.hist.access && s.hist.access[t.jti] == t && t.jti in s.hist.origins
            && s.now < (s.hist.origins[t.jti].at + s.cfg.accessMinutes * 60 * SECOND) / SECOND * SECOND
  {
    if t.jti in s.hist.access {
      AccessEnd(s, t.jti);
    }
  }

  /**
   * The gate decodes an access token exactly if it was signed here, at `m` say, and it is not yet the whole second
   * in which JWT_ACCESS_TOKEN_EXPIRE_MINUTES after `m` are over.
   */
  lemma {:induction false} AccessLifetimeExactly(s: State, q: nat, t: AccessToken, purpose: Purpose)
    requires Reachable(s) && !At(s, q)
    ensures At(Apply(s, GateDecode(q, t, purpose)), q)
       <==> && t.jti in s.hist.access && s.hist.access[t.jti] == t && t.jti in s.hist.origins
            && s.now < (s.hist.origins[t.jti].at + s.cfg.accessMinutes * 60 * SECOND) / SECOND * SECOND
  {
    AccessGate(s, q, t, purpose);
    AccessDecodesExactly(s, t);
  }

  lemma RefreshGate(s: State, q: nat, t: RefreshToken)
    requires !At(s, q)
    ensures At(Apply(s, RefreshDecode(q, t)), q) <==> DecodesRefresh(s, t)
  {
  }

  /** Likewise the refresh endpoint a refresh token, for JWT_REFRESH_TOKEN_EXPIRE_DAYS. */
  lemma {:induction false} RefreshLifetimeExactly(s: State, q: nat, t: RefreshToken)
    requires Reachable(s) && !At(s, q)
    ensures At(Apply(s, RefreshDecode(q, t)), q)
       <==> && t.jti in s.hist.refresh && s.hist.refresh[t.jti] == t && t.jti in s.hist.origins
            && s.now < (s.hist.origins[t.jti].at + s.cfg.refreshDays * 24 * 60 * 60 * SECOND) / SECOND * SECOND
  {
    RefreshGate(s, q, t);
    RefreshDecodesExactly(s, t);
  }

  lemma {:induction false} RefreshDecodesExactly(s: State, t: RefreshToken)
    requires Reachable(s)
    ensures DecodesRefresh(s, t)
       <==> && t.jti in s.hist.refresh && s.hist.refresh[t.jti] == t && t.jti in s.hist.origins
            && s.now < (s.hist.origins[t.jti].at + s.cfg.refreshDays * 24 * 60 * 60 * SECOND) / SECOND * SECOND
  {
    ReachableClaims(s);
    RefreshEnds(s, t);
  }

  lemma RefreshEnds(s: State, t: RefreshToken)
    requires ClaimsSound(s)
    ensures DecodesRefresh(s, t)
       <==> && t.jti in s.hist.refresh && s.hist.refresh[t.jti] == t && t.jti in s.hist.origins
            && s.now < (s.hist.origins[t.jti].at + s.cfg.refreshDays * 24 * 60 * 60 * SECOND) / SECOND * SECOND
  {
    if t.jti in s.hist.refresh {
      RefreshEnd(s, t.jti);
    }
  }

  /** A signed refresh token stays what it is: in any continuation it decodes exactly while that time lasts. */
  lemma {:induction false} RefreshTokenLastsExactly(s: State, es: seq<Event>, j: Uuid)
    requires Reachable(s) && ValidRun(s, es) && j in s.hist.refresh
    ensures j in s.hist.origins
    ensures DecodesRefresh(Exec(s, es), s.hist.refresh[j])
       <==> Exec(s, es).now < (s.hist.origins[j].at + s.cfg.refreshDays * 24 * 60 * 60 * SECOND) / SECOND * SECOND
  {
    ReachableClaims(s);
    RefreshEnd(s, j);
    RefreshSame(s, es, j);
  }

  lemma {:induction false} RefreshSame(s: State, es: seq<Event>, j: Uuid)
    requires Inv(s) && ValidRun(s, es) && j in s.hist.refresh && s.hist.refresh[j].jti == j
    ensures DecodesRefresh(Exec(s, es), s.hist.refresh[j]) <==> Exec(s, es).now < s.hist.refresh[j].exp
  {
    RunExtends(s, es);
  }

  lemma RefreshTwice(s: State, q: nat, t: RefreshToken, a: Uuid, r: Uuid)
    requires UsedCovers(s) && !At(s, q) && a !in s.used
    ensures a in Apply(Apply(s, RefreshDecode(q, t)), RefreshMint(q, a, r)).hist.access
       <==> DecodesRefresh(s, t) && MayHoldTokens(s.tables, t.sub)
  {
    var s1 := Apply(s, RefreshDecode(q, t));
    assert s1 == if DecodesRefresh(s, t) then Put(s, q, RefreshAccepted(t, s.now)) else s;
  }

  /**
   * A refresh token handed out yields another pair, in any continuation, exactly while it lasts and the account is
   * live and active.
   */
  lemma {:induction false} RefreshAgainExactly(s: State, es: seq<Event>, j: Uuid, q: nat, a: Uuid, r: Uuid)
    requires Reachable(s) && ValidRun(s, es) && j in s.hist.refresh
    requires var later := Exec(s, es); !At(later, q) && a !in later.used
    ensures j in s.hist.origins
    ensures var later, cookie := Exec(s, es), s.hist.refresh[j];
            a in Apply(Apply(later, RefreshDecode(q, cookie)), RefreshMint(q, a, r)).hist.access <==>
            && later.now < (s.hist.origins[j].at + s.cfg.refreshDays * 24 * 60 * 60 * SECOND) / SECOND * SECOND
            && cookie.sub in later.tables.users && later.tables.users[cookie.sub].deletedAt == None
            && later.tables.users[cookie.sub].isActive
  {
    ReachableClaims(s);
    RunKeepsInv(s, es);
    RefreshTokenLastsExactly(s, es, j);
    RefreshTwice(Exec(s, es), q, s.hist.refresh[j], a, r);
  }

  // ------------------------------------------------ the role claim

  /** The first operation, then the first `i` of the rest. */
  lemma {:induction false} RunPrefix(s: State, es: seq<Event>, i: nat)
    requires es != [] && i < |es|
    ensures Exec(s, es[..i + 1]) == Exec(Apply(s, es[0]), es[1..][..i])
  {
    assert es[..i + 1][1..] == es[1..][..i];
  }

  /** The role a token claims is the one its user's row had at the step that signed it, at its origin's instant. */
  lemma {:induction false} RoleClaimIsRoleAtSigning(s: State, es: seq<Event>, j: Uuid) returns (i: nat)
    requires Inv(s) && ValidRun(s, es) && j !in s.hist.access && j in Exec(s, es).hist.access
    ensures i < |es| && j in Exec(s, es).hist.origins
    ensures var before, after := Exec(s, es[..i]), Exec(s, es); var t := after.hist.access[j];
            && j !in before.hist.access && before.now == after.hist.origins[j].at
            && t.sub in before.tables.users && t.role == before.tables.users[t.sub].role
    decreases |es|
  {
    var s1 := Apply(s, es[0]);
    StepKeepsInv(s, es[0]);
    if j in s1.hist.access {
      NewAccessToken(s, es[0], j);
      RunExtends(s1, es[1..]);
      i := 0;
      assert es[..0] == [];
    } else {
      var k := RoleClaimIsRoleAtSigning(s1, es[1..], j);
      RunPrefix(s, es, k);
      i := k + 1;
    }
  }

  /** A refresh token has more than its days less a second to live when signed. */
  lemma FreshRefreshLasts(now: Time, cfg: Settings)
    ensures now < WholeSecond(now + cfg.refreshDays * 86400 * SECOND)
  {
    var exp := now + cfg.refreshDays * 86400 * SECOND;
    assert exp == exp / SECOND * SECOND + exp % SECOND;
  }
}
