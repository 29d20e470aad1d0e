/** What can still happen: reachable states, and runs that bring a user back to an open session. */
module Continuations {
  import opened Wrappers
  import opened TtlStore
  import opened Directory
  import opened DirectoryLaws
  import opened AuthModel
  import opened AuthInvariants
  import opened Provenance
  import opened Sessions
  import opened SignOn

  // ------------------------------------------------ reachable states

  /** Some run of a fresh deployment leads here. */
  ghost predicate Reachable(s: State) {
    exists s0, past :: Initial(s0) && ValidRun(s0, past) && s == Exec(s0, past)
  }

  /** The owner of every token has a row. */
  ghost predicate SubjectsKnown(s: State) {
    && (forall j :: j in s.hist.access ==> s.hist.access[j].sub in s.tables.users)
    && (forall j :: j in s.hist.refresh ==> s.hist.refresh[j].sub in s.tables.users)
  }

  lemma SubjectsKnownStep(s: State, e: Event)
    requires Valid(s.tables) && UsedCovers(s) && Enabled(s, e) && SubjectsKnown(s)
    ensures SubjectsKnown(Apply(s, e))
  {
    var s' := Apply(s, e);
    StepTables(s, e);
    StepHistory(s, e);
    forall j | j in s'.hist.access ensures s'.hist.access[j].sub in s'.tables.users {
      if j !in s.hist.access {
        NewTokenHolder(s, e, j);
      }
    }
    forall j | j in s'.hist.refresh ensures s'.hist.refresh[j].sub in s'.tables.users {
      if j !in s.hist.refresh {
        NewRefreshHolder(s, e, j);
      }
    }
  }

  /** Everything later proofs use of a reachable state. */
  ghost predicate Sound(s: State) {
    Inv(s) && SubjectsKnown(s) && BlacklistIssued(s) && TokensWhole(s)
  }

  lemma SoundStep(s: State, e: Event)
    requires Sound(s) && Enabled(s, e)
    ensures Sound(Apply(s, e))
  {
    StepKeepsInv(s, e);
    SubjectsKnownStep(s, e);
    BlacklistIssuedStep(s, e);
    TokensWholeStep(s, e);
  }

  lemma {:induction false} SoundRun(s: State, es: seq<Event>)
    requires Sound(s) && ValidRun(s, es)
    ensures Sound(Exec(s, es))
    decreases |es|
  {
    if es != [] {
      SoundStep(s, es[0]);
      SoundRun(Apply(s, es[0]), es[1..]);
    }
  }

  lemma {:induction false} ReachableSound(s: State)
    requires Reachable(s)
    ensures Sound(s)
  {
    var s0, past :| Initial(s0) && ValidRun(s0, past) && s == Exec(s0, past);
    InitialInv(s0);
    SoundRun(s0, past);
  }

  lemma {:induction false} ReachableRun(s: State, es: seq<Event>)
    requires Reachable(s) && ValidRun(s, es)
    ensures Reachable(Exec(s, es))
  {
    var s0, past :| Initial(s0) && ValidRun(s0, past) && s == Exec(s0, past);
    RunConcat(s0, past, es);
  }

  lemma {:induction false} ReachableStep(s: State, e: Event)
    requires Reachable(s) && Enabled(s, e)
    ensures Reachable(Apply(s, e))
  {
    RunStep(s, e, []);
    assert [e] + [] == [e];
    ReachableRun(s, [e]);
  }

  // ------------------------------------------------ requests a run leaves alone

  ghost predicate Spares(es: seq<Event>, tid: nat) {
    forall e :: e in es ==> !Moves(e, tid)
  }

  lemma {:induction false} SparedStays(s: State, es: seq<Event>, tid: nat)
    requires Spares(es, tid)
    ensures tid in Exec(s, es).threads <==> tid in s.threads
    ensures tid in s.threads ==> Exec(s, es).threads[tid] == s.threads[tid]
    decreases |es|
  {
    if es != [] {
      assert es[0] in es;
      OthersStay(s, es[0], tid);
      SparedStays(Apply(s, es[0]), es[1..], tid);
    }
  }

  /** No time passes. */
  predicate Quiet(es: seq<Event>) {
    forall e :: e in es ==> e.Tick? ==> e.d == 0
  }

  // ------------------------------------------------ fresh ids

  lemma {:induction false} AboveAll(s: set<nat>) returns (n: nat)
    ensures forall x :: x in s ==> x < n
    decreases |s|
  {
    if s == {} {
      n := 0;
    } else {
      var x :| x in s;
      var m := AboveAll(s - {x});
      n := if m <= x then x + 1 else m;
      assert forall y :: y in s ==> y == x || y in s - {x};
    }
  }

  /** A sign-on with new ids, in a new request, that takes no time. */
  lemma FreshTrip(s: State, info: UserInfo, spared: nat) returns (t: Trip)
    ensures FreshIds(s, t) && t.tid != spared && t.info == info && t.d1 == 0 && t.d2 == 0 && t.d3 == 0
  {
    var n := AboveAll(s.used);
    var m := AboveAll(s.threads.Keys + {spared});
    t := Trip(m, n, n + 1, n + 2, n + 3, n + 4, n + 5, n + 6, info, 0, 0, 0);
    assert Ids(t) == [n, n + 1, n + 2, n + 3, n + 4, n + 5, n + 6];
    assert forall i :: 0 <= i < 7 ==> Ids(t)[i] == n + i;
    assert spared in s.threads.Keys + {spared};
  }

  lemma NoTimeIsInTime(s: State, t: Trip)
    requires t.d1 == 0 && t.d2 == 0 && t.d3 == 0
    ensures InTime(s, t)
  {
    FreshTokenLasts(s.now, s.cfg);
  }

  /** A token has more than its minutes less a second to live when signed. */
  lemma FreshTokenLasts(now: Time, cfg: Settings)
    ensures now < WholeSecond(now + cfg.accessMinutes * 60 * SECOND)
  {
    var exp := now + cfg.accessMinutes * 60 * SECOND;
    assert exp == exp / SECOND * SECOND + exp % SECOND;
  }

  // ------------------------------------------------ reopening a session

  /** What the provider would have to say for this row. */
  function ClaimsOf(u: User): UserInfo {
    UserInfo(u.email, u.employeeId, u.fullName, u.department, u.departmentCode, u.site)
  }

  /** Any administrator's update that only sets the account active. */
  function Reactivate(user: Uuid): Event {
    Manage(UpdateUser(user, user, Unset, Value(true)))
  }

  lemma Reactivated(s: State, user: Uuid)
    requires LiveUser(s.tables, user)
    ensures var s' := Apply(s, Reactivate(user));
            && s' == s.(tables := WithUser(s.tables, user, s.tables.users[user].(isActive := true)))
            && MayHoldTokens(s'.tables, user) && Enabled(s, Reactivate(user))
  {
  }

  lemma ClaimsLeadTo(s: State, t: Trip, user: Uuid)
    requires Valid(s.tables) && MayHoldTokens(s.tables, user) && t.info.employeeId == s.tables.users[user].employeeId
    ensures LeadsTo(s, t, user)
  {
    LookupFinds(s.tables.users, user);
  }

  function TripEvents(t: Trip): seq<Event> {
    LoginPart(t) + (CallbackPart(t) + (CodePart(t) + TokenPart(t)))
  }

  lemma TripSpares(t: Trip, tid: nat)
    requires t.tid != tid
    ensures Spares(TripEvents(t), tid)
  {
  }

  lemma TripQuiet(t: Trip)
    requires t.d1 == 0 && t.d2 == 0
    ensures Quiet(TripEvents(t))
  {
  }

  lemma {:induction false} SignsOnAgain(s: State, user: Uuid, spared: nat) returns (es: seq<Event>)
    requires Valid(s.tables) && MayHoldTokens(s.tables, user)
    ensures ValidRun(s, es) && Spares(es, spared) && Quiet(es)
    ensures SessionOpen(Exec(s, es), user) && MayHoldTokens(Exec(s, es).tables, user)
  {
    var t := FreshTrip(s, ClaimsOf(s.tables.users[user]), spared);
    NoTimeIsInTime(s, t);
    ClaimsLeadTo(s, t, user);
    SignOnRedeems(s, t, user);
    TripSpares(t, spared);
    TripQuiet(t);
    es := TripEvents(t);
  }

  /** However a live user stands, a reactivation and a new sign-on open the session, past any suspended request. */
  lemma {:induction false} Reopens(s: State, user: Uuid, spared: nat) returns (es: seq<Event>)
    requires Valid(s.tables) && LiveUser(s.tables, user)
    ensures ValidRun(s, es) && Spares(es, spared) && Quiet(es)
    ensures SessionOpen(Exec(s, es), user) && MayHoldTokens(Exec(s, es).tables, user)
  {
    Reactivated(s, user);
    StepTables(s, Reactivate(user));
    var rest := SignsOnAgain(Apply(s, Reactivate(user)), user, spared);
    es := [Reactivate(user)] + rest;
    RunStep(s, Reactivate(user), rest);
  }
}
