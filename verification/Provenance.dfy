/** Every token descends from one completed single sign-on; what a code or a login state is worth once deleted. */
module Provenance {
  import opened Wrappers
  import opened TtlStore
  import opened Directory
  import opened AuthModel
  import opened AuthInvariants

  // ------------------------------------------------ chains of refreshes

  /** From a token back to the exchange it descends from, one refresh per link. */
  ghost predicate Chain(h: History, c: seq<Uuid>) {
    && c != []
    && (forall k :: 0 <= k < |c| ==> c[k] in h.origins)
    && (forall k :: 0 <= k < |c| - 1 ==> h.origins[c[k]].ByRefresh? && h.origins[c[k]].parent == c[k + 1])
    && h.origins[c[|c| - 1]].ByExchange?
  }

  ghost predicate HasChain(h: History, jti: Uuid) {
    exists c :: Chain(h, c) && c[0] == jti
  }

  ghost predicate ChainsExist(h: History) {
    forall j :: j in h.origins ==> HasChain(h, j)
  }

  lemma HasChainGrows(h: History, h': History, jti: Uuid)
    requires Grows(h, h') && HasChain(h, jti)
    ensures HasChain(h', jti)
  {
    var c :| Chain(h, c) && c[0] == jti;
    assert Chain(h', c);
  }

  lemma ChainGrowsFront(h: History, jti: Uuid, c: seq<Uuid>)
    requires Chain(h, c) && jti in h.origins && h.origins[jti].ByRefresh? && h.origins[jti].parent == c[0]
    ensures Chain(h, [jti] + c)
  {
    var d := [jti] + c;
    assert forall k :: 0 < k < |d| ==> d[k] == c[k - 1];
  }

  lemma NewOriginHasChain(h: History, h': History, jti: Uuid)
    requires ChainsExist(h) && Grows(h, h') && jti in h'.origins
    requires h'.origins[jti].ByRefresh? ==> h'.origins[jti].parent in h.origins
    ensures HasChain(h', jti)
  {
    match h'.origins[jti]
    case ByExchange(_, _, _) => assert Chain(h', [jti]);
    case ByRefresh(parent, _, _) =>
      HasChainGrows(h, h', parent);
      var c :| Chain(h', c) && c[0] == parent;
      ChainGrowsFront(h', jti, c);
      assert ([jti] + c)[0] == jti;
  }

  /** A token refreshed into being has a parent from before the step. */
  lemma NewOriginParent(s: State, e: Event, jti: Uuid)
    requires ThreadsSound(s) && (e.ExchangeMint? || e.RefreshMint?)
    requires jti !in s.hist.origins && jti in Apply(s, e).hist.origins
    ensures var o := Apply(s, e).hist.origins[jti]; o.ByRefresh? ==> o.parent in s.hist.origins
  {
    assert At(s, e.tid) && SoundPc(s, s.threads[e.tid]);
  }

  lemma StepKeepsChains(s: State, e: Event)
    requires Inv(s) && Enabled(s, e) && ChainsExist(s.hist)
    ensures ChainsExist(Apply(s, e).hist)
  {
    var s' := Apply(s, e);
    StepHistory(s, e);
    forall j | j in s'.hist.origins ensures HasChain(s'.hist, j) {
      if j in s.hist.origins {
        HasChainGrows(s.hist, s'.hist, j);
      } else if e.ExchangeMint? || e.RefreshMint? {
        NewOriginParent(s, e, j);
        NewOriginHasChain(s.hist, s'.hist, j);
      } else {
        OriginsFrame(s, e);
      }
    }
  }

  lemma {:induction false} RunKeepsChains(s: State, es: seq<Event>)
    requires Inv(s) && ValidRun(s, es) && ChainsExist(s.hist)
    ensures ChainsExist(Exec(s, es).hist)
    decreases |es|
  {
    if es != [] {
      StepKeepsInv(s, es[0]);
      StepKeepsChains(s, es[0]);
      RunKeepsChains(Apply(s, es[0]), es[1..]);
    }
  }

  // ------------------------------------------------ what a chain guarantees

  /** A link: the parent was an unexpired refresh token of the same subject when it was decoded. */
  ghost predicate LinkSound(s: State, child: Uuid, parent: Uuid, user: Uuid) {
    && child in s.hist.origins && parent in s.hist.origins && parent in s.hist.refresh
    && s.hist.refresh[parent].sub == user
    && var o := s.hist.origins[child];
       o.ByRefresh? && s.hist.origins[parent].at <= o.readAt < s.hist.refresh[parent].exp && o.readAt <= o.at
  }

  /** The root: a code read in time, issued by a callback that read its state in time and matched its nonce. */
  ghost predicate RootSound(s: State, root: Uuid, user: Uuid) {
    && root in s.hist.origins && s.hist.origins[root].ByExchange?
    && var o := s.hist.origins[root];
       && o.code in s.hist.callbacks
       && var callback := s.hist.callbacks[o.code];
          && callback.user == user
          && callback.at <= o.readAt < callback.at + s.cfg.codeSeconds * SECOND && o.readAt <= o.at
          && callback.state in s.hist.logins
          && var login := s.hist.logins[callback.state];
             && login.at <= callback.readAt < login.at + 600 * SECOND && callback.readAt <= callback.at
             && callback.claimed == Some(login.nonce)
             && user in s.tables.users && s.tables.users[user].employeeId == callback.employeeId
  }

  ghost predicate Descent(s: State, jti: Uuid, user: Uuid, c: seq<Uuid>) {
    && Chain(s.hist, c) && c[0] == jti
    && (forall k :: 0 <= k < |c| - 1 ==> LinkSound(s, c[k], c[k + 1], user))
    && RootSound(s, c[|c| - 1], user)
  }

  lemma {:induction false} ChainDescent(s: State, c: seq<Uuid>, user: Uuid)
    requires Inv(s) && Chain(s.hist, c) && Subject(s.hist, c[0], user)
    ensures Descent(s, c[0], user, c)
    decreases |c|
  {
    var o := s.hist.origins[c[0]];
    assert SoundOrigin(s, c[0], o);
    if |c| == 1 {
      assert SoundCallback(s, s.hist.callbacks[o.code]);
    } else {
      var d := c[1..];
      assert forall k :: 0 <= k < |d| ==> d[k] == c[k + 1];
      assert Chain(s.hist, d);
      assert o.parent == d[0] && Subject(s.hist, d[0], user);
      ChainDescent(s, d, user);
      assert LinkSound(s, c[0], c[1], user);
      forall k | 0 <= k < |c| - 1 ensures LinkSound(s, c[k], c[k + 1], user) {
        if k > 0 {
          assert LinkSound(s, d[k - 1], d[k], user);
        }
      }
    }
  }

  /**
   * Every access token in every reachable state descends from a timely, nonce-checked single sign-on of its
   * subject.
   */
  lemma TokenProvenance(s0: State, es: seq<Event>, jti: Uuid)
    requires Initial(s0) && ValidRun(s0, es)
    requires jti in Exec(s0, es).hist.access
    ensures var s := Exec(s0, es); exists c :: Descent(s, jti, s.hist.access[jti].sub, c)
  {
    var s := Exec(s0, es);
    InitialInv(s0);
    RunKeepsInv(s0, es);
    RunKeepsChains(s0, es);
    var c :| Chain(s.hist, c) && c[0] == jti;
    ChainDescent(s, c, s.hist.access[jti].sub);
  }

  // ------------------------------------------------ one-shot codes and states

  predicate CodeReadable(s: State, code: Uuid) {
    Visible(s.redis, CodeKey(code), s.now)
  }

  predicate StateReadable(s: State, state: Uuid) {
    Visible(s.redis, StateKey(state), s.now)
  }

  /** A code can be read exactly while it is issued, unspent and less than its lifetime old. */
  lemma CodeReadableExactly(s0: State, es: seq<Event>, code: Uuid)
    requires Initial(s0) && ValidRun(s0, es)
    ensures var s := Exec(s0, es);
            CodeReadable(s, code) <==>
            code in s.hist.callbacks && code !in s.hist.spent &&
                s.now < s.hist.callbacks[code].at + s.cfg.codeSeconds * SECOND
  {
    InitialInv(s0);
    RunKeepsInv(s0, es);
  }

  /** A login state can be consumed exactly while it is stored, unconsumed and less than ten minutes old. */
  lemma StateReadableExactly(s0: State, es: seq<Event>, state: Uuid)
    requires Initial(s0) && ValidRun(s0, es)
    ensures var s := Exec(s0, es);
            StateReadable(s, state) <==>
            state in s.hist.logins && state !in s.hist.consumed &&
                s.now < s.hist.logins[state].at + 600 * SECOND
  {
    InitialInv(s0);
    RunKeepsInv(s0, es);
  }

  lemma ExtendsTransitive(s: State, s': State, s'': State)
    requires Extends(s, s') && Extends(s', s'')
    ensures Extends(s, s'')
  {
    assert Persists(s.tables.users, s''.tables.users);
    assert Grows(s.hist, s''.hist);
  }

  lemma {:induction false} RunExtends(s: State, es: seq<Event>)
    requires Inv(s) && ValidRun(s, es)
    ensures Extends(s, Exec(s, es))
    decreases |es|
  {
    if es != [] {
      StepExtends(s, es[0]);
      StepKeepsInv(s, es[0]);
      RunExtends(Apply(s, es[0]), es[1..]);
      ExtendsTransitive(s, Apply(s, es[0]), Exec(s, es));
    }
  }

  lemma DeleteSpends(s: State, tid: nat)
    requires At(s, tid) && s.threads[tid].CodeHeld?
    ensures s.threads[tid].code in Apply(s, ExchangeDelete(tid)).hist.spent
  {
  }

  lemma SpentRefused(s: State, tid: nat, code: Uuid)
    requires CodesStored(s) && code in s.hist.spent
    ensures !CodeReadable(s, code) && Apply(s, ExchangeGet(tid, code)) == s
  {
  }

  /** Once any exchange has deleted a code, no later read of it succeeds, whatever else interleaves. */
  lemma SpentCodeStaysSpent(s: State, tid: nat, es: seq<Event>, tid': nat)
    requires Inv(s) && At(s, tid) && s.threads[tid].CodeHeld?
    requires ValidRun(Apply(s, ExchangeDelete(tid)), es)
    ensures var code := s.threads[tid].code;
            var later := Exec(Apply(s, ExchangeDelete(tid)), es);
            !CodeReadable(later, code) && Apply(later, ExchangeGet(tid', code)) == later
  {
    var code := s.threads[tid].code;
    var next := Apply(s, ExchangeDelete(tid));
    DeleteSpends(s, tid);
    StepKeepsInv(s, ExchangeDelete(tid));
    RunKeepsInv(next, es);
    RunExtends(next, es);
    SpentRefused(Exec(next, es), tid', code);
  }

  /** Likewise a login state: after one callback has deleted it, no other callback gets past its first step. */
  lemma ConsumedStateStaysConsumed(s: State, tid: nat, es: seq<Event>, tid': nat)
    requires Inv(s) && At(s, tid) && s.threads[tid].StateRead?
    requires ValidRun(Apply(s, CallbackDelete(tid)), es)
    ensures var state := s.threads[tid].state;
            var later := Exec(Apply(s, CallbackDelete(tid)), es);
            !StateReadable(later, state) && Apply(later, CallbackGet(tid', state)) == later
  {
    var state := s.threads[tid].state;
    var next := Apply(s, CallbackDelete(tid));
    StepKeepsInv(s, CallbackDelete(tid));
    RunKeepsInv(next, es);
    RunExtends(next, es);
    assert state in next.hist.consumed;
  }

  lemma RunStep(s: State, e: Event, es: seq<Event>)
    ensures Exec(s, [e] + es) == Exec(Apply(s, e), es)
    ensures ValidRun(s, [e] + es) <==> Enabled(s, e) && ValidRun(Apply(s, e), es)
  {
    assert ([e] + es)[1..] == es;
  }

  /** Two exchanges that both read the code before either deletes it. */
  function OverlappingReads(code: Uuid, p: nat, q: nat): seq<Event> {
    [ExchangeGet(p, code)] + ([ExchangeGet(q, code)] + ([ExchangeDelete(p)] + ([ExchangeDelete(q)] + [])))
  }

  lemma ReadYieldsUser(s: State, code: Uuid)
    requires CodesStored(s) && CodeReadable(s, code)
    ensures code in s.hist.callbacks
    ensures Get(s.redis, CodeKey(code), s.now) == Some(UserRef(s.hist.callbacks[code].user))
  {
  }

  /** A read that finds the code suspends the request with the user it names. */
  lemma ReadHolds(s: State, tid: nat, code: Uuid, user: Uuid)
    requires Get(s.redis, CodeKey(code), s.now) == Some(UserRef(user))
    ensures Apply(s, ExchangeGet(tid, code)) == Put(s, tid, CodeHeld(code, user, s.now))
  {
  }

  /** Any readable code can be read by two requests before either deletes it, and both then go on with it. */
  lemma OverlappingReadsHold(s: State, code: Uuid, p: nat, q: nat)
    requires CodesStored(s) && CodeReadable(s, code) && p != q && !At(s, p) && !At(s, q)
    ensures var s' := Exec(s, OverlappingReads(code, p, q));
            && ValidRun(s, OverlappingReads(code, p, q))
            && At(s', p) && s'.threads[p] == CodeSpent(code, s.hist.callbacks[code].user, s.now)
            && At(s', q) && s'.threads[q] == CodeSpent(code, s.hist.callbacks[code].user, s.now)
            && s'.used == s.used && s'.tables == s.tables && s'.now == s.now
  {
    var user := s.hist.callbacks[code].user;
    var s1 := Put(s, p, CodeHeld(code, user, s.now));
    var s2 := Put(s1, q, CodeHeld(code, user, s.now));
    ReadYieldsUser(s, code);
    ReadHolds(s, p, code, user);
    ReadHolds(s1, q, code, user);
    RunStep(s, ExchangeGet(p, code), [ExchangeGet(q, code)] + ([ExchangeDelete(p)] + ([ExchangeDelete(q)] + [])));
    RunStep(s1, ExchangeGet(q, code), [ExchangeDelete(p)] + ([ExchangeDelete(q)] + []));
    BothDelete(s2, code, user, s.now, p, q);
  }

  lemma BothDelete(s: State, code: Uuid, user: Uuid, readAt: Time, p: nat, q: nat)
    requires p != q && At(s, p) && At(s, q)
    requires s.threads[p] == CodeHeld(code, user, readAt) && s.threads[q] == CodeHeld(code, user, readAt)
    ensures var es := [ExchangeDelete(p)] + ([ExchangeDelete(q)] + []); var s' := Exec(s, es);
            && ValidRun(s, es)
            && At(s', p) && s'.threads[p] == CodeSpent(code, user, readAt)
            && At(s', q) && s'.threads[q] == CodeSpent(code, user, readAt)
            && s'.used == s.used && s'.tables == s.tables && s'.now == s.now
  {
    var s1 := Apply(s, ExchangeDelete(p));
    RunStep(s, ExchangeDelete(p), [ExchangeDelete(q)] + []);
    RunStep(s1, ExchangeDelete(q), []);
  }

  ghost predicate MintedFrom(h: History, jti: Uuid, code: Uuid) {
    jti in h.access && jti in h.origins && h.origins[jti].ByExchange? && h.origins[jti].code == code
  }
}
