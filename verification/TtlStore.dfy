/**
 * The part of Redis the application relies on: keys with an expiry instant.
 * A key is visible while `now` is before its expiry, EXPIRE on a key that is
 * not visible does nothing, and an expired entry may linger unseen.
 */
module TtlStore {
  import opened Wrappers

  /** Microseconds, the resolution of the application's own timestamps. */
  type Time = int

  const SECOND: Time := 1_000_000

  datatype Entry<+V> = Entry(value: V, expiry: Time)

  predicate Visible<K, V>(m: map<K, Entry<V>>, key: K, now: Time) {
    key in m && now < m[key].expiry
  }

  function Get<K, V>(m: map<K, Entry<V>>, key: K, now: Time): Option<V> {
    if Visible(m, key, now) then Some(m[key].value) else None
  }

  function Set<K, V>(m: map<K, Entry<V>>, key: K, value: V, ex: int, now: Time): map<K, Entry<V>> {
    m[key := Entry(value, now + ex * SECOND)]
  }

  function Expire<K, V>(m: map<K, Entry<V>>, key: K, ex: int, now: Time): map<K, Entry<V>> {
    if Visible(m, key, now) then m[key := m[key].(expiry := now + ex * SECOND)] else m
  }

  function Del<K, V>(m: map<K, Entry<V>>, key: K): map<K, Entry<V>> {
    m - {key}
  }

  /** A Redis connection; each method is one atomic command. */
  class Redis<K(==), V> {
    var db: map<K, Entry<V>>

    constructor ()
      ensures db == map[]
    {
      db := map[];
    }

    method GetCmd(key: K, now: Time) returns (r: Option<V>)
      ensures r == Get(db, key, now)
    {
      if key in db && now < db[key].expiry {
        r := Some(db[key].value);
      } else {
        r := None;
      }
    }

    method ExistsCmd(key: K, now: Time) returns (r: bool)
      ensures r == Visible(db, key, now)
    {
      r := key in db && now < db[key].expiry;
    }

    method SetCmd(key: K, value: V, ex: int, now: Time)
      modifies this
      ensures db == Set(old(db), key, value, ex, now)
    {
      db := db[key := Entry(value, now + ex * SECOND)];
    }

    method ExpireCmd(key: K, ex: int, now: Time)
      modifies this
      ensures db == Expire(old(db), key, ex, now)
    {
      if key in db && now < db[key].expiry {
        db := db[key := db[key].(expiry := now + ex * SECOND)];
      }
    }

    method DeleteCmd(key: K)
      modifies this
      ensures db == Del(old(db), key)
    {
      db := db - {key};
    }
  }
}

/**
 * A single key that is opened with SET, kept alive with EXPIRE and closed with
 * DEL. `Expiry` is what Redis stores; `Alive` says, from the history alone,
 * when the key should be visible.
 */
module SlidingKey {
  import opened Wrappers
  import opened TtlStore

  datatype KeyOp = Opened | Touched | Closed

  datatype Act = Act(op: KeyOp, at: Time)

  /** What one command does to the stored expiry. */
  function ExpiryAfter(before: Option<Time>, act: Act, idle: Time): Option<Time> {
    match act.op
    case Opened => Some(act.at + idle)
    case Touched => if before.Some? && act.at < before.value then Some(act.at + idle) else before
    case Closed => None
  }

  /** The stored expiry after a history of commands, None when there is no entry. */
  function Expiry(acts: seq<Act>, idle: Time): Option<Time> {
    if acts == [] then None
    else ExpiryAfter(Expiry(acts[..|acts| - 1], idle), acts[|acts| - 1], idle)
  }

  predicate Chronological(acts: seq<Act>) {
    forall i, j :: 0 <= i <= j < |acts| ==> acts[i].at <= acts[j].at
  }

  /** One more command, issued no earlier than the last. */
  lemma OneMore(acts: seq<Act>, act: Act, idle: Time)
    requires Chronological(acts) && (acts != [] ==> acts[|acts| - 1].at <= act.at)
    ensures Chronological(acts + [act])
    ensures Expiry(acts + [act], idle) == ExpiryAfter(Expiry(acts, idle), act, idle)
  {
    assert (acts + [act])[..|acts|] == acts;
  }

  /** Every gap from the `i`-th command up to the instant `t` is shorter than `idle`. */
  predicate GapsShort(acts: seq<Act>, i: nat, idle: Time, t: Time)
    requires i < |acts|
  {
    && (forall j :: i < j < |acts| ==> acts[j].at - acts[j - 1].at < idle)
    && t - acts[|acts| - 1].at < idle
  }

  predicate NotClosedAfter(acts: seq<Act>, i: nat) {
    forall j :: i < j < |acts| ==> acts[j].op != Closed
  }

  predicate AliveSince(acts: seq<Act>, i: nat, idle: Time, t: Time) {
    i < |acts| && acts[i].op == Opened && NotClosedAfter(acts, i) && GapsShort(acts, i, idle, t)
  }

  predicate Alive(acts: seq<Act>, idle: Time, t: Time) {
    exists i: nat | i < |acts| :: AliveSince(acts, i, idle, t)
  }

  /** How one more command changes what the history says about an earlier opening. */
  lemma AliveSinceExtends(acts: seq<Act>, i: nat, idle: Time, t: Time)
    requires i < |acts| - 1
    ensures
      var n := |acts| - 1;
      AliveSince(acts, i, idle, t) <==>
      acts[n].op != Closed && AliveSince(acts[..n], i, idle, acts[n].at) && t - acts[n].at < idle
  {
    var n := |acts| - 1;
    var before := acts[..n];
    if AliveSince(acts, i, idle, t) {
      assert acts[n].at - acts[n - 1].at < idle;
      assert NotClosedAfter(before, i);
      assert GapsShort(before, i, idle, acts[n].at);
    }
    if acts[n].op != Closed && AliveSince(before, i, idle, acts[n].at) && t - acts[n].at < idle {
      assert acts[n - 1] == before[n - 1];
      forall j | i < j < |acts|
        ensures acts[j].op != Closed && acts[j].at - acts[j - 1].at < idle
      {
        if j < n {
          assert acts[j] == before[j] && acts[j - 1] == before[j - 1];
        }
      }
    }
  }

  /** The same, quantified over the opening: one more command seen from the history. */
  lemma AliveExtends(acts: seq<Act>, idle: Time, t: Time)
    requires acts != []
    ensures
      var n := |acts| - 1;
      Alive(acts, idle, t) <==>
      t - acts[n].at < idle &&
      (acts[n].op == Opened || (acts[n].op == Touched && Alive(acts[..n], idle, acts[n].at)))
  {
    var n := |acts| - 1;
    if Alive(acts, idle, t) {
      var i: nat :| i < |acts| && AliveSince(acts, i, idle, t);
      if i < n {
        AliveSinceExtends(acts, i, idle, t);
      }
    }
    if t - acts[n].at < idle && acts[n].op == Opened {
      assert AliveSince(acts, n, idle, t);
    }
    if t - acts[n].at < idle && acts[n].op == Touched && Alive(acts[..n], idle, acts[n].at) {
      var i: nat :| i < n && AliveSince(acts[..n], i, idle, acts[n].at);
      AliveSinceExtends(acts, i, idle, t);
    }
  }

  /** The stored expiry shows the key exactly when the history says it is alive. */
  lemma {:induction false} StoredExpiryMatchesHistory(acts: seq<Act>, idle: Time, t: Time)
    requires Chronological(acts) && idle > 0
    requires acts != [] ==> acts[|acts| - 1].at <= t
    ensures var e := Expiry(acts, idle); (e.Some? && t < e.value) <==> Alive(acts, idle, t)
  {
    if acts != [] {
      var n := |acts| - 1;
      StoredExpiryMatchesHistory(acts[..n], idle, acts[n].at);
      AliveExtends(acts, idle, t);
      LastExpiry(acts[..n], idle);
    }
  }

  /** An entry never outlives the last command by more than the idle time. */
  lemma {:induction false} LastExpiry(acts: seq<Act>, idle: Time)
    requires Chronological(acts) && idle > 0
    ensures var e := Expiry(acts, idle);
            e.Some? ==> acts != [] && e.value <= acts[|acts| - 1].at + idle
  {
    if acts != [] {
      LastExpiry(acts[..|acts| - 1], idle);
    }
  }
}
