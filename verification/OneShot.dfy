/** How many token pairs one auth code can yield, exactly. */
module OneShotCodes {
  import opened Wrappers
  import opened TtlStore
  import opened Sets
  import opened Directory
  import opened AuthModel
  import opened AuthInvariants
  import opened Provenance
  import opened Sessions
  import opened SignOn
  import opened Continuations
  import opened Logout

  /** The request has read this code and not yet signed tokens for it. */
  predicate HoldsCode(s: State, q: nat, code: Uuid) {
    At(s, q) && (s.threads[q].CodeHeld? || s.threads[q].CodeSpent?) && s.threads[q].code == code
  }

  function Holders(s: State, code: Uuid): set<nat> {
    set q | q in s.threads && HoldsCode(s, q, code)
  }

  /** The access tokens, one for each pair, signed for this code. */
  ghost function Pairs(s: State, code: Uuid): set<Uuid> {
    set j | j in s.hist.access && MintedFrom(s.hist, j, code)
  }

  ghost predicate OwnerLive(s: State, code: Uuid) {
    code in s.hist.callbacks && LiveUser(s.tables, s.hist.callbacks[code].user)
  }

  // ------------------------------------------------ no more than the holders

  lemma HoldersShrink(s: State, e: Event, q: nat, code: Uuid)
    requires CodesStored(s) && code in s.hist.spent && Enabled(s, e) && HoldsCode(Apply(s, e), q, code)
    ensures HoldsCode(s, q, code)
  {
    if !Moves(e, q) {
      OthersStay(s, e, q);
    }
  }

  /** A new pair costs its code a holder. */
  lemma NewPair(s: State, e: Event, j: Uuid, code: Uuid)
    requires UsedCovers(s) && ThreadsSound(s) && Enabled(s, e)
    requires j in Pairs(Apply(s, e), code) && j !in Pairs(s, code)
    ensures e.ExchangeMint? && j == e.accessId && HoldsCode(s, e.tid, code) && !HoldsCode(Apply(s, e), e.tid, code)
    ensures OwnerLive(s, code)
  {
    if e.ExchangeMint? {
      assert At(s, e.tid) ==> SoundPc(s, s.threads[e.tid]);
    } else if !e.RefreshMint? {
      OriginsFrame(s, e);
    }
  }

  lemma PairsStay(s: State, e: Event, code: Uuid)
    requires UsedCovers(s) && Enabled(s, e)
    ensures Pairs(s, code) <= Pairs(Apply(s, e), code)
  {
    StepHistory(s, e);
  }

  /** What the code has yielded and can still yield. */
  ghost function Yield(s: State, code: Uuid): nat {
    |Pairs(s, code)| + |Holders(s, code)|
  }

  lemma OnePairAStep(s: State, e: Event, j: Uuid, code: Uuid)
    requires UsedCovers(s) && ThreadsSound(s) && Enabled(s, e)
    requires j in Pairs(Apply(s, e), code) && j !in Pairs(s, code)
    ensures Pairs(Apply(s, e), code) == Pairs(s, code) + {j}
  {
    PairsStay(s, e, code);
    NewPair(s, e, j, code);
    forall i | i in Pairs(Apply(s, e), code) && i !in Pairs(s, code) ensures i == j {
      NewPair(s, e, i, code);
    }
  }

  lemma HoldersOnlyShrink(s: State, e: Event, code: Uuid)
    requires CodesStored(s) && code in s.hist.spent && Enabled(s, e)
    ensures Holders(Apply(s, e), code) <= Holders(s, code)
  {
    forall q | q in Holders(Apply(s, e), code) ensures q in Holders(s, code) {
      HoldersShrink(s, e, q, code);
    }
  }

  lemma YieldStep(s: State, e: Event, code: Uuid)
    requires UsedCovers(s) && ThreadsSound(s) && CodesStored(s) && Enabled(s, e) && code in s.hist.spent
    ensures Yield(Apply(s, e), code) <= Yield(s, code)
    ensures !OwnerLive(s, code) ==> Pairs(Apply(s, e), code) == Pairs(s, code)
  {
    var s' := Apply(s, e);
    PairsStay(s, e, code);
    HoldersOnlyShrink(s, e, code);
    if j :| j in Pairs(s', code) && j !in Pairs(s, code) {
      NewPair(s, e, j, code);
      OnePairAStep(s, e, j, code);
      Traded(Pairs(s, code), Pairs(s', code), Holders(s, code), Holders(s', code), j, e.tid);
    } else {
      assert Pairs(s', code) == Pairs(s, code);
      SubsetSize(Holders(s', code), Holders(s, code));
    }
  }

  lemma OwnerLiveBefore(s: State, e: Event, code: Uuid)
    requires Inv(s) && Enabled(s, e) && code in s.hist.callbacks && OwnerLive(Apply(s, e), code)
    ensures OwnerLive(s, code)
  {
    StepExtends(s, e);
    assert SoundCallback(s, s.hist.callbacks[code]);
    var user := s.hist.callbacks[code].user;
    assert SameRow(s.tables.users[user], Apply(s, e).tables.users[user]);
  }

  lemma {:induction false} YieldRun(s: State, es: seq<Event>, code: Uuid)
    requires Inv(s) && ValidRun(s, es) && code in s.hist.spent && code in s.hist.callbacks
    ensures |Pairs(Exec(s, es), code)| <= Yield(s, code)
    ensures !OwnerLive(s, code) ==> Pairs(Exec(s, es), code) == Pairs(s, code)
    decreases |es|
  {
    if es != [] {
      var s1 := Apply(s, es[0]);
      YieldStep(s, es[0], code);
      StepHistory(s, es[0]);
      StepKeepsInv(s, es[0]);
      if OwnerLive(s1, code) {
        OwnerLiveBefore(s, es[0], code);
      }
      YieldRun(s1, es[1..], code);
    }
  }

  // ------------------------------------------------ every holder can sign

  /** A run that ends with this request about to sign tokens for the code. */
  ghost predicate CanSign(s: State, es: seq<Event>, q: nat, code: Uuid) {
    ValidRun(s, es) && var later := Exec(s, es);
    HoldsCode(later, q, code) && later.threads[q].CodeSpent? && MayHoldTokens(later.tables, later.threads[q].user)
  }

  /** A prepared holder: everything as before, but for its DELETE and the reactivation. */
  ghost predicate Prepared(s: State, s': State, q: nat, code: Uuid) {
    && Pairs(s', code) == Pairs(s, code) && Holders(s', code) == Holders(s, code)
    && code in s'.hist.spent && s'.hist.callbacks == s.hist.callbacks
    && HoldsCode(s', q, code) && s'.threads[q].CodeSpent? && MayHoldTokens(s'.tables, s'.threads[q].user)
  }

  lemma {:induction false} SpentPrepares(s: State, q: nat, code: Uuid)
    requires HoldsCode(s, q, code) && s.threads[q].CodeSpent? && LiveUser(s.tables, s.threads[q].user)
    requires code in s.hist.spent
    ensures Enabled(s, Reactivate(s.threads[q].user))
    ensures Prepared(s, Apply(s, Reactivate(s.threads[q].user)), q, code)
  {
    Reactivated(s, s.threads[q].user);
  }

  lemma DeletePrepares(s: State, q: nat, code: Uuid)
    requires HoldsCode(s, q, code) && s.threads[q].CodeHeld?
    ensures var s' := Apply(s, ExchangeDelete(q));
            && HoldsCode(s', q, code) && s'.threads[q].CodeSpent? && s'.threads[q].user == s.threads[q].user
            && s'.tables == s.tables && s'.hist.callbacks == s.hist.callbacks && code in s'.hist.spent
            && Pairs(s', code) == Pairs(s, code) && Holders(s', code) == Holders(s, code)
  {
  }

  lemma {:induction false} HolderPrepares(s: State, q: nat, code: Uuid) returns (es: seq<Event>)
    requires HoldsCode(s, q, code) && LiveUser(s.tables, s.threads[q].user) && code in s.hist.spent
    ensures ValidRun(s, es) && Prepared(s, Exec(s, es), q, code)
  {
    var e := Reactivate(s.threads[q].user);
    if s.threads[q].CodeSpent? {
      SpentPrepares(s, q, code);
      OneStepRun(s, e);
      es := [e];
    } else {
      var s1 := Apply(s, ExchangeDelete(q));
      DeletePrepares(s, q, code);
      SpentPrepares(s1, q, code);
      OneStepRun(s1, e);
      RunStep(s, ExchangeDelete(q), [e]);
      es := [ExchangeDelete(q)] + [e];
    }
  }

  lemma {:induction false} HeldThroughout(s: State, es: seq<Event>, q: nat, code: Uuid)
    requires Inv(s) && ValidRun(s, es) && code in s.hist.spent && HoldsCode(Exec(s, es), q, code)
    ensures HoldsCode(s, q, code)
    decreases |es|
  {
    if es != [] {
      StepKeepsInv(s, es[0]);
      StepHistory(s, es[0]);
      HeldThroughout(Apply(s, es[0]), es[1..], q, code);
      HoldersShrink(s, es[0], q, code);
    }
  }

  lemma CanSignOnly(s: State, es: seq<Event>, q: nat, code: Uuid)
    requires Sound(s) && code in s.hist.spent && code in s.hist.callbacks && CanSign(s, es, q, code)
    ensures HoldsCode(s, q, code) && OwnerLive(s, code)
  {
    HeldThroughout(s, es, q, code);
    SoundRun(s, es);
    RunExtends(s, es);
    assert SoundPc(Exec(s, es), Exec(s, es).threads[q]);
    assert SoundCallback(s, s.hist.callbacks[code]);
    LiveBefore(s, es, s.hist.callbacks[code].user);
  }

  /**
   * Once a code is spent, the requests that can still sign tokens for it are exactly those that had read it
   * before, if its owner is live.
   */
  lemma {:induction false} SignersExactly(s: State, q: nat, code: Uuid)
    requires Reachable(s) && code in s.hist.spent && code in s.hist.callbacks
    ensures (exists es :: CanSign(s, es, q, code)) <==> HoldsCode(s, q, code) && OwnerLive(s, code)
  {
    ReachableSound(s);
    forall es | CanSign(s, es, q, code) ensures HoldsCode(s, q, code) && OwnerLive(s, code) {
      CanSignOnly(s, es, q, code);
    }
    if HoldsCode(s, q, code) && OwnerLive(s, code) {
      assert SoundPc(s, s.threads[q]);
      var es := HolderPrepares(s, q, code);
      assert CanSign(s, es, q, code);
    }
  }

  lemma HolderOwner(s: State, q: nat, code: Uuid)
    requires Inv(s) && HoldsCode(s, q, code)
    ensures code in s.hist.callbacks && s.hist.callbacks[code].user == s.threads[q].user
  {
    assert SoundPc(s, s.threads[q]);
  }

  /** Signing turns a holder into a pair. */
  lemma SigningYields(s: State, q: nat, code: Uuid, a: Uuid, r: Uuid)
    requires UsedCovers(s) && HoldsCode(s, q, code) && s.threads[q].CodeSpent?
    requires MayHoldTokens(s.tables, s.threads[q].user)
    requires a !in s.used && r !in s.used && a != r
    ensures var s' := Apply(s, ExchangeMint(q, a, r));
            && Pairs(s', code) == Pairs(s, code) + {a} && a !in Pairs(s, code)
            && Holders(s', code) == Holders(s, code) - {q}
            && s'.tables == s.tables && s'.hist.callbacks == s.hist.callbacks && s'.hist.spent == s.hist.spent
  {
  }

  lemma {:induction false} PreparedSigns(s: State, q: nat, code: Uuid) returns (e: Event)
    requires Inv(s) && HoldsCode(s, q, code) && s.threads[q].CodeSpent? && MayHoldTokens(s.tables, s.threads[q].user)
    ensures var s' := Apply(s, e);
            && Enabled(s, e) && OwnerLive(s', code) && s'.hist.spent == s.hist.spent
            && |Pairs(s', code)| == |Pairs(s, code)| + 1 && Holders(s', code) == Holders(s, code) - {q}
  {
    var a := AboveAll(s.used);
    SignsNow(s, q, code, a, a + 1);
    e := ExchangeMint(q, a, a + 1);
  }

  lemma SignsNow(s: State, q: nat, code: Uuid, a: Uuid, r: Uuid)
    requires Inv(s) && HoldsCode(s, q, code) && s.threads[q].CodeSpent? && MayHoldTokens(s.tables, s.threads[q].user)
    requires a !in s.used && r !in s.used && a != r
    ensures var s' := Apply(s, ExchangeMint(q, a, r));
            && OwnerLive(s', code) && s'.hist.spent == s.hist.spent
            && |Pairs(s', code)| == |Pairs(s, code)| + 1 && Holders(s', code) == Holders(s, code) - {q}
  {
    HolderOwner(s, q, code);
    SigningYields(s, q, code, a, r);
  }

  lemma {:induction false} HolderSigns(s: State, q: nat, code: Uuid) returns (es: seq<Event>)
    requires Sound(s) && HoldsCode(s, q, code) && OwnerLive(s, code) && code in s.hist.spent
    ensures var s' := Exec(s, es);
            && ValidRun(s, es) && OwnerLive(s', code) && code in s'.hist.spent
            && |Pairs(s', code)| == |Pairs(s, code)| + 1 && Holders(s', code) == Holders(s, code) - {q}
  {
    HolderOwner(s, q, code);
    var head := HolderPrepares(s, q, code);
    var s1 := Exec(s, head);
    SoundRun(s, head);
    var e := PreparedSigns(s1, q, code);
    OneStepRun(s1, e);
    RunConcat(s, head, [e]);
    es := head + [e];
  }

  lemma {:induction false} AllHoldersSign(s: State, code: Uuid) returns (es: seq<Event>)
    requires Sound(s) && OwnerLive(s, code) && code in s.hist.spent
    ensures ValidRun(s, es) && |Pairs(Exec(s, es), code)| == Yield(s, code)
    decreases |Holders(s, code)|
  {
    if Holders(s, code) == {} {
      es := [];
    } else {
      var q := AnElement(Holders(s, code));
      var head := HolderSigns(s, q, code);
      SoundRun(s, head);
      var rest := AllHoldersSign(Exec(s, head), code);
      RunConcat(s, head, rest);
      es := head + rest;
    }
  }

  ghost predicate NeverMore(s: State, code: Uuid, k: nat) {
    forall es :: ValidRun(s, es) ==> |Pairs(Exec(s, es), code)| <= k
  }

  /**
   * Over every continuation a spent code yields at most so many pairs exactly when those it has and its holders
   * come to no more.
   */
  lemma {:induction false} PairsExactly(s: State, code: Uuid, k: nat)
    requires Reachable(s) && code in s.hist.spent && code in s.hist.callbacks
    ensures NeverMore(s, code, k) <==> |Pairs(s, code)| + (if OwnerLive(s, code) then |Holders(s, code)| else 0) <= k
  {
    ReachableSound(s);
    forall es | ValidRun(s, es)
      ensures |Pairs(Exec(s, es), code)| <= |Pairs(s, code)| + if OwnerLive(s, code) then |Holders(s, code)| else 0
    {
      YieldRun(s, es, code);
    }
    if OwnerLive(s, code) {
      var es := AllHoldersSign(s, code);
    } else {
      assert ValidRun(s, []) && Exec(s, []) == s;
    }
  }

  lemma PairIsSpent(s: State, j: Uuid, code: Uuid)
    requires OriginsSound(s) && j in Pairs(s, code)
    ensures code in s.hist.spent
  {
    assert SoundOrigin(s, j, s.hist.origins[j]);
  }

  lemma UnspentHasNoPairs(s: State, code: Uuid)
    requires OriginsSound(s) && code !in s.hist.spent
    ensures Pairs(s, code) == {}
  {
    if j :| j in Pairs(s, code) {
      PairIsSpent(s, j, code);
    }
  }

  lemma SoleHolder(s: State, p: nat, code: Uuid)
    requires HoldsCode(s, p, code)
    ensures |Holders(s, code)| <= 1 <==> forall q :: HoldsCode(s, q, code) ==> q == p
  {
    assert p in Holders(s, code);
    if forall q :: HoldsCode(s, q, code) ==> q == p {
      assert Holders(s, code) == {p};
    } else {
      var q :| HoldsCode(s, q, code) && q != p;
      SubsetSize({p, q}, Holders(s, code));
    }
  }

  /**
   * When a code is first deleted, at most one pair will ever be signed for it exactly if no other request has read
   * it, or its owner is gone.
   */
  lemma {:induction false} OneShotExactly(s: State, p: nat)
    requires Reachable(s) && At(s, p) && s.threads[p].CodeHeld? && s.threads[p].code !in s.hist.spent
    ensures var code := s.threads[p].code;
            NeverMore(Apply(s, ExchangeDelete(p)), code, 1)
            <==> (forall q :: HoldsCode(s, q, code) ==> q == p) || !LiveUser(s.tables, s.threads[p].user)
  {
    var code := s.threads[p].code;
    var s' := Apply(s, ExchangeDelete(p));
    ReachableSound(s);
    ReachableStep(s, ExchangeDelete(p));
    assert SoundPc(s, s.threads[p]);
    UnspentHasNoPairs(s, code);
    DeletePrepares(s, p, code);
    PairsExactly(s', code, 1);
    SoleHolder(s, p, code);
  }
}
