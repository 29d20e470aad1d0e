/** The order of query strings, and the canonical form of a query. */
module Query {
  datatype Name = Name(text: string)

  datatype Param = Param(name: Name, value: string)

  /** What the handler sees of a repeated name: its last value. */
  function Last(q: seq<Param>): map<Name, string> {
    if q == [] then map[]
    else
      var n := |q| - 1;
      Last(q[..n])[q[n].name := q[n].value]
  }

  /** A parameter added at the end has the last word on its name, and on no other. */
  lemma LastWins(q: seq<Param>, p: Param)
    ensures Last(q + [p]) == Last(q)[p.name := p.value]
  {
    assert (q + [p])[..|q|] == q;
  }

  /** Entering a value in a dictionary: in place if the name is there, else at the end. */
  function Put(items: seq<Param>, p: Param): seq<Param> {
    if items == [] then [p]
    else if items[0].name == p.name then [p] + items[1..]
    else [items[0]] + Put(items[1..], p)
  }

  /** The dictionary's items, in the order its names first appeared. */
  function Items(q: seq<Param>): seq<Param> {
    if q == [] then [] else Put(Items(q[..|q| - 1]), q[|q| - 1])
  }

  /** Text order, character by character. */
  predicate Less(a: string, b: string) {
    b != "" && (a == "" || a[0] < b[0] || (a[0] == b[0] && Less(a[1..], b[1..])))
  }

  function Insert(p: Param, s: seq<Param>): seq<Param> {
    if s == [] || Less(p.name.text, s[0].name.text) then [p] + s else [s[0]] + Insert(p, s[1..])
  }

  function Sort(s: seq<Param>): seq<Param> {
    if s == [] then [] else Insert(s[0], Sort(s[1..]))
  }

  /** `sorted(query_params.items())`. */
  function Canonical(q: seq<Param>): seq<Param> {
    Sort(Items(q))
  }

  predicate Distinct(s: seq<Param>) {
    forall i, j :: 0 <= i < j < |s| ==> s[i].name != s[j].name
  }

  predicate Sorted(s: seq<Param>) {
    forall i, j :: 0 <= i < j < |s| ==> Less(s[i].name.text, s[j].name.text)
  }

  // ------------------------------------------------ the order

  lemma {:induction false} LessTransitive(a: string, b: string, c: string)
    requires Less(a, b) && Less(b, c)
    ensures Less(a, c)
    decreases |a|
  {
    if a != "" && a[0] == b[0] && b[0] == c[0] {
      LessTransitive(a[1..], b[1..], c[1..]);
    }
  }

  lemma {:induction false} LessIrreflexive(a: string)
    ensures !Less(a, a)
    decreases |a|
  {
    if a != "" {
      LessIrreflexive(a[1..]);
    }
  }

  lemma {:induction false} LessTotal(a: string, b: string)
    ensures a == b || Less(a, b) || Less(b, a)
    decreases |a|
  {
    if a != "" && b != "" && a[0] == b[0] {
      LessTotal(a[1..], b[1..]);
      assert a == [a[0]] + a[1..] && b == [b[0]] + b[1..];
    }
  }

  // ------------------------------------------------ sorting

  lemma {:induction false} InsertMembers(p: Param, s: seq<Param>)
    ensures forall x :: x in Insert(p, s) <==> x == p || x in s
    decreases |s|
  {
    if s != [] && !Less(p.name.text, s[0].name.text) {
      InsertMembers(p, s[1..]);
      assert s == [s[0]] + s[1..];
    }
  }

  lemma {:induction false} InsertSorted(p: Param, s: seq<Param>)
    requires Sorted(s) && forall x :: x in s ==> x.name != p.name
    ensures Sorted(Insert(p, s))
    decreases |s|
  {
    if s == [] {
    } else if Less(p.name.text, s[0].name.text) {
      forall i | 0 <= i < |s| ensures Less(p.name.text, s[i].name.text) {
        if i > 0 {
          LessTransitive(p.name.text, s[0].name.text, s[i].name.text);
        }
      }
    } else {
      var rest := Insert(p, s[1..]);
      assert forall x :: x in s[1..] ==> x in s;
      InsertSorted(p, s[1..]);
      InsertMembers(p, s[1..]);
      assert s[0] in s;
      LessTotal(p.name.text, s[0].name.text);
      forall i | 0 <= i < |rest| ensures Less(s[0].name.text, rest[i].name.text) {
        if rest[i] != p {
          assert rest[i] in rest;
          var j :| 0 <= j < |s[1..]| && s[1..][j] == rest[i];
          assert s[j + 1] == rest[i];
        }
      }
    }
  }

  lemma {:induction false} SortSpec(s: seq<Param>)
    requires Distinct(s)
    ensures Sorted(Sort(s)) && forall x :: x in Sort(s) <==> x in s
    decreases |s|
  {
    if s != [] {
      assert s == [s[0]] + s[1..];
      SortSpec(s[1..]);
      InsertMembers(s[0], Sort(s[1..]));
      InsertSorted(s[0], Sort(s[1..]));
    }
  }

  lemma SortedHead(a: seq<Param>, b: seq<Param>)
    requires Sorted(a) && Sorted(b) && a != [] && b != [] && a[0] in b && b[0] in a
    ensures a[0] == b[0]
  {
    if a[0] != b[0] {
      var i :| 0 <= i < |a| && a[i] == b[0];
      var j :| 0 <= j < |b| && b[j] == a[0];
      LessTransitive(a[0].name.text, a[i].name.text, b[j].name.text);
      LessIrreflexive(a[0].name.text);
    }
  }

  lemma SortedTail(a: seq<Param>, x: Param)
    requires Sorted(a) && a != []
    ensures Sorted(a[1..]) && (x in a[1..] <==> x in a && x != a[0])
  {
    LessIrreflexive(a[0].name.text);
    assert a == [a[0]] + a[1..];
    if x in a[1..] {
      var i :| 0 <= i < |a[1..]| && a[1..][i] == x;
      assert Less(a[0].name.text, a[i + 1].name.text);
    }
  }

  lemma NoMembers(b: seq<Param>)
    ensures (forall x :: x !in b) ==> b == []
  {
    if b != [] {
      assert b[0] in b;
    }
  }

  /** There is one way to sort a set of parameters. */
  lemma {:induction false} SortedUnique(a: seq<Param>, b: seq<Param>)
    requires Sorted(a) && Sorted(b) && forall x :: x in a <==> x in b
    ensures a == b
    decreases |a|
  {
    if a == [] {
      NoMembers(b);
    } else {
      assert a[0] in a && (b != [] ==> b[0] in b);
      SortedHead(a, b);
      forall x ensures x in a[1..] <==> x in b[1..] {
        SortedTail(a, x);
        SortedTail(b, x);
      }
      SortedTail(a, a[0]);
      SortedTail(b, b[0]);
      SortedUnique(a[1..], b[1..]);
      assert a == [a[0]] + a[1..] && b == [b[0]] + b[1..];
    }
  }

  // ------------------------------------------------ the dictionary

  predicate Holds(m: map<Name, string>, p: Param) {
    p.name in m && m[p.name] == p.value
  }

  lemma {:induction false} PutMembers(items: seq<Param>, p: Param)
    requires Distinct(items)
    ensures Distinct(Put(items, p))
    ensures forall x :: x in Put(items, p) <==> x == p || (x in items && x.name != p.name)
    decreases |items|
  {
    if items != [] {
      var rest := items[1..];
      assert items == [items[0]] + rest;
      assert forall i :: 0 <= i < |rest| ==> rest[i] == items[i + 1];
      if items[0].name == p.name {
        assert forall x :: x in rest ==> x.name != p.name;
      } else {
        PutMembers(rest, p);
        var more := Put(rest, p);
        forall i | 0 <= i < |more| ensures more[i].name != items[0].name {
          assert more[i] in more;
        }
      }
    }
  }

  lemma {:induction false} ItemsSpec(q: seq<Param>)
    ensures Distinct(Items(q)) && forall x :: x in Items(q) <==> Holds(Last(q), x)
    decreases |q|
  {
    if q != [] {
      ItemsSpec(q[..|q| - 1]);
      PutMembers(Items(q[..|q| - 1]), q[|q| - 1]);
    }
  }

  lemma CanonicalSpec(q: seq<Param>)
    ensures Sorted(Canonical(q)) && forall x :: x in Canonical(q) <==> Holds(Last(q), x)
  {
    ItemsSpec(q);
    SortSpec(Items(q));
  }

  lemma SameHolds(m: map<Name, string>, m': map<Name, string>)
    requires forall x :: Holds(m, x) <==> Holds(m', x)
    ensures m == m'
  {
    forall n | n in m ensures n in m' && m'[n] == m[n] {
      assert Holds(m, Param(n, m[n]));
      assert Holds(m', Param(n, m[n]));
    }
    forall n | n in m' ensures n in m {
      assert Holds(m', Param(n, m'[n]));
      assert Holds(m, Param(n, m'[n]));
    }
  }

  /** Two queries have one canonical form exactly when they give every name the same value. */
  lemma CanonicalExactly(q: seq<Param>, q': seq<Param>)
    ensures Canonical(q) == Canonical(q') <==> Last(q) == Last(q')
  {
    CanonicalSpec(q);
    CanonicalSpec(q');
    if Last(q) == Last(q') {
      SortedUnique(Canonical(q), Canonical(q'));
    }
    if Canonical(q) == Canonical(q') {
      SameHolds(Last(q), Last(q'));
    }
  }

  lemma {:induction false} LastOfDistinct(q: seq<Param>)
    requires Distinct(q)
    ensures forall x :: Holds(Last(q), x) <==> x in q
    decreases |q|
  {
    if q != [] {
      var n := |q| - 1;
      LastOfDistinct(q[..n]);
      assert q == q[..n] + [q[n]];
      assert forall x :: x in q[..n] ==> x.name != q[n].name;
    }
  }

  /** Reordering parameters with distinct names changes nothing. */
  lemma PermutationKeepsCanonical(q: seq<Param>, q': seq<Param>)
    requires Distinct(q) && multiset(q) == multiset(q')
    ensures Canonical(q) == Canonical(q')
  {
    forall x ensures x in q <==> x in q' {
      assert x in q <==> x in multiset(q);
      assert x in q' <==> x in multiset(q');
    }
    DistinctTransfers(q, q');
    LastOfDistinct(q);
    LastOfDistinct(q');
    SameHolds(Last(q), Last(q'));
    CanonicalExactly(q, q');
  }

  lemma DistinctTransfers(q: seq<Param>, q': seq<Param>)
    requires Distinct(q) && multiset(q) == multiset(q')
    ensures Distinct(q')
  {
    forall i, j | 0 <= i < j < |q'| ensures q'[i].name != q'[j].name {
      if q'[i].name == q'[j].name {
        assert q'[i] in multiset(q') && q'[j] in multiset(q');
        assert q'[i] in q && q'[j] in q;
        assert q'[i] == q'[j];
        TwiceInMultiset(q', i, j);
        OnceInMultiset(q, q'[i]);
      }
    }
  }

  lemma TwiceInMultiset(q: seq<Param>, i: nat, j: nat)
    requires i < j < |q| && q[i] == q[j]
    ensures multiset(q)[q[i]] >= 2
  {
    assert q == q[..j] + [q[j]] + q[j + 1..];
    assert q[i] in q[..j];
  }

  lemma {:induction false} OnceInMultiset(q: seq<Param>, x: Param)
    requires Distinct(q)
    ensures multiset(q)[x] <= 1
    decreases |q|
  {
    if q != [] {
      OnceInMultiset(q[1..], x);
      assert q == [q[0]] + q[1..];
      if q[0] == x {
        assert x !in q[1..];
      }
    }
  }
}

/** The response cache: what it may serve, and for how long. */
module Cache {
  import opened Wrappers
  import opened TtlStore
  import opened Query

  datatype Key = Key(text: string)

  datatype Target = Target(path: string, query: seq<Param>)

  /** A decorated handler: `digest` is the rendered and hashed canonical query, `dumps` and `loads` the JSON codec. */
  datatype Config<!T, !J> = Config(ttl: int, prefix: string, digest: seq<Param> -> string,
                                   dumps: T -> Option<string>, loads: string -> J)

  const DIGEST_LENGTH := 12

  ghost predicate FixedLength<T, J>(c: Config<T, J>) {
    forall items :: |c.digest(items)| == DIGEST_LENGTH
  }

  function KeyOf<T, J>(c: Config<T, J>, t: Target): Key {
    Key(c.prefix + (":" + (t.path + (":" + c.digest(Canonical(t.query))))))
  }

  /** The same request, as far as a handler that reads each parameter once can tell. */
  predicate SameTarget(a: Target, b: Target) {
    a.path == b.path && Last(a.query) == Last(b.query)
  }

  /** No two of these targets have different queries with one digest. */
  ghost predicate CollisionFree<T, J>(c: Config<T, J>, ts: seq<Target>) {
    forall a, b :: a in ts && b in ts && c.digest(Canonical(a.query)) == c.digest(Canonical(b.query)) ==>
      Canonical(a.query) == Canonical(b.query)
  }

  lemma AppendCancel(a: string, b: string, x: string, y: string)
    requires |x| == |y|
    ensures a + x == b + y <==> a == b && x == y
  {
    if a + x == b + y {
      assert |a| == |b|;
      assert a == (a + x)[..|a|] && b == (b + y)[..|b|];
      assert x == (a + x)[|a|..] && y == (b + y)[|b|..];
    }
  }

  /** Separators in paths never confuse two keys. */
  lemma KeyParts<T, J>(c: Config<T, J>, a: Target, b: Target)
    requires FixedLength(c)
    ensures KeyOf(c, a) == KeyOf(c, b)
       <==> a.path == b.path && c.digest(Canonical(a.query)) == c.digest(Canonical(b.query))
  {
    var x, y := c.digest(Canonical(a.query)), c.digest(Canonical(b.query));
    var p, q := a.path + (":" + x), b.path + (":" + y);
    AppendCancel(a.path, b.path, ":" + x, ":" + y);
    AppendCancel(":", ":", x, y);
    var s, t := ":" + p, ":" + q;
    if KeyOf(c, a) == KeyOf(c, b) {
      assert s == (c.prefix + s)[|c.prefix|..] && t == (c.prefix + t)[|c.prefix|..];
      assert p == s[1..] && q == t[1..];
    }
  }

  /** Prefix, path and digest, with a colon between them. */
  lemma KeyText<T, J>(c: Config<T, J>, t: Target)
    ensures KeyOf(c, t).text == c.prefix + ":" + t.path + ":" + c.digest(Canonical(t.query))
  {
  }

  lemma KeyExactly<T, J>(c: Config<T, J>, ts: seq<Target>, a: Target, b: Target)
    requires FixedLength(c) && CollisionFree(c, ts) && a in ts && b in ts
    ensures KeyOf(c, a) == KeyOf(c, b) <==> SameTarget(a, b)
  {
    KeyParts(c, a, b);
    CanonicalExactly(a.query, b.query);
  }

  // ------------------------------------------------ stores over a run

  /** A handler's result reaching the cache; the handler may have run a while before. */
  datatype Write<T> = Write(target: Target, result: T, at: Time)

  /** JSON that fails, and a lifetime Redis refuses, leave the cache as it is. */
  predicate Lands<T, J>(c: Config<T, J>, w: Write<T>) {
    c.dumps(w.result).Some? && c.ttl > 0
  }

  function Stored<T, J>(c: Config<T, J>, m: map<Key, Entry<string>>, w: Write<T>): map<Key, Entry<string>> {
    if Lands(c, w) then Set(m, KeyOf(c, w.target), c.dumps(w.result).value, c.ttl, w.at) else m
  }

  function StoredAll<T, J>(c: Config<T, J>, ws: seq<Write<T>>): map<Key, Entry<string>> {
    if ws == [] then map[] else Stored(c, StoredAll(c, ws[..|ws| - 1]), ws[|ws| - 1])
  }

  function Targets<T>(ws: seq<Write<T>>): seq<Target> {
    if ws == [] then [] else Targets(ws[..|ws| - 1]) + [ws[|ws| - 1].target]
  }

  /** The write a request is served from: the last one that landed for the same target. */
  predicate Newest<T, J>(c: Config<T, J>, ws: seq<Write<T>>, t: Target, i: int) {
    && 0 <= i < |ws| && Lands(c, ws[i]) && SameTarget(ws[i].target, t)
    && forall j :: i < j < |ws| && Lands(c, ws[j]) ==> !SameTarget(ws[j].target, t)
  }

  /** That write, while it is younger than `ttl`. */
  predicate Supplies<T, J>(c: Config<T, J>, ws: seq<Write<T>>, t: Target, now: Time, i: int) {
    Newest(c, ws, t, i) && now < ws[i].at + c.ttl * SECOND
  }

  lemma NewestAppend<T, J>(c: Config<T, J>, ws: seq<Write<T>>, t: Target, i: int)
    requires ws != []
    ensures var n := |ws| - 1; var last := Lands(c, ws[n]) && SameTarget(ws[n].target, t);
            Newest(c, ws, t, i) <==> if last then i == n else Newest(c, ws[..n], t, i)
  {
  }

  lemma {:induction false} LastTarget<T, J>(c: Config<T, J>, ws: seq<Write<T>>, t: Target)
    requires FixedLength(c) && CollisionFree(c, Targets(ws) + [t]) && ws != []
    ensures KeyOf(c, ws[|ws| - 1].target) == KeyOf(c, t) <==> SameTarget(ws[|ws| - 1].target, t)
    ensures CollisionFree(c, Targets(ws[..|ws| - 1]) + [t])
  {
    var ts, last := Targets(ws) + [t], ws[|ws| - 1].target;
    assert Targets(ws) == Targets(ws[..|ws| - 1]) + [last];
    assert last in Targets(ws) && t in ts;
    KeyExactly(c, ts, last, t);
  }

  ghost predicate Found<T, J>(c: Config<T, J>, ws: seq<Write<T>>, t: Target, now: Time, text: string) {
    exists i :: Supplies(c, ws, t, now, i) && c.dumps(ws[i].result) == Some(text)
  }

  lemma FoundAppend<T, J>(c: Config<T, J>, ws: seq<Write<T>>, t: Target, now: Time, text: string)
    requires ws != []
    ensures var n := |ws| - 1; var last := Lands(c, ws[n]) && SameTarget(ws[n].target, t);
            Found(c, ws, t, now, text) <==>
              if last then now < ws[n].at + c.ttl * SECOND && c.dumps(ws[n].result) == Some(text)
              else Found(c, ws[..n], t, now, text)
  {
    var n := |ws| - 1;
    var before := ws[..n];
    forall i ensures Newest(c, ws, t, i) <==>
      if Lands(c, ws[n]) && SameTarget(ws[n].target, t) then i == n else Newest(c, before, t, i)
    {
      NewestAppend(c, ws, t, i);
    }
    if Lands(c, ws[n]) && SameTarget(ws[n].target, t) {
      assert Supplies(c, ws, t, now, n) <==> now < ws[n].at + c.ttl * SECOND;
    } else {
      assert forall i :: Supplies(c, ws, t, now, i) <==> Supplies(c, before, t, now, i);
    }
  }

  /**
   * A lookup finds exactly the newest write for its path and its name-to-value map, while that is younger than
   * `ttl`.
   */
  lemma {:induction false} ServedExactly<T, J>(c: Config<T, J>, ws: seq<Write<T>>, t: Target, now: Time, text: string)
    requires FixedLength(c) && CollisionFree(c, Targets(ws) + [t])
    ensures Get(StoredAll(c, ws), KeyOf(c, t), now) == Some(text) <==> Found(c, ws, t, now, text)
    decreases |ws|
  {
    if ws != [] {
      LastTarget(c, ws, t);
      FoundAppend(c, ws, t, now, text);
      ServedExactly(c, ws[..|ws| - 1], t, now, text);
    }
  }

  lemma MissExactly<T, J>(c: Config<T, J>, ws: seq<Write<T>>, t: Target, now: Time)
    requires FixedLength(c) && CollisionFree(c, Targets(ws) + [t])
    ensures Get(StoredAll(c, ws), KeyOf(c, t), now) == None <==> forall i :: !Supplies(c, ws, t, now, i)
  {
    match Get(StoredAll(c, ws), KeyOf(c, t), now)
    case Some(text) => ServedExactly(c, ws, t, now, text);
    case None =>
      forall i ensures !Supplies(c, ws, t, now, i) {
        var text := if 0 <= i < |ws| && Lands(c, ws[i]) then c.dumps(ws[i].result).value else "";
        ServedExactly(c, ws, t, now, text);
      }
  }

  datatype Served<T, J> = Hit(image: J) | Fresh(result: T)

  function LoadsOption<T, J>(c: Config<T, J>, text: Option<string>): Option<J> {
    match text
    case None => None
    case Some(s) => Some(c.loads(s))
  }

  /** One endpoint behind the decorator. */
  class CachedEndpoint<T, J> {
    const redis: Redis<Key, string>
    const cfg: Config<T, J>
    ghost var writes: seq<Write<T>>

    ghost predicate Valid()
      reads this, redis
    {
      FixedLength(cfg) && redis.db == StoredAll(cfg, writes)
    }

    constructor (cfg: Config<T, J>)
      requires FixedLength(cfg)
      ensures Valid() && writes == [] && this.cfg == cfg && fresh(redis)
    {
      this.cfg, this.writes := cfg, [];
      redis := new Redis();
    }

    /** The JSON image of the result that supplies this request, `None` for a miss. */
    method Lookup(t: Target, now: Time) returns (r: Option<J>)
      requires Valid() && CollisionFree(cfg, Targets(writes) + [t])
      ensures r.None? <==> forall i :: !Supplies(cfg, writes, t, now, i)
      ensures r.Some? ==> exists i :: Supplies(cfg, writes, t, now, i)
                                      && Some(r.value) == LoadsOption(cfg, cfg.dumps(writes[i].result))
    {
      var found := redis.GetCmd(KeyOf(cfg, t), now);
      MissExactly(cfg, writes, t, now);
      match found {
        case None =>
          r := None;
        case Some(text) =>
          ServedExactly(cfg, writes, t, now, text);
          r := Some(cfg.loads(text));
      }
    }

    method Store(t: Target, result: T, now: Time)
      requires Valid()
      modifies this, redis
      ensures Valid() && writes == old(writes) + [Write(t, result, now)]
      ensures cfg.dumps(result).Some? && cfg.ttl > 0 ==>
                forall at :: Get(redis.db, KeyOf(cfg, t), at)
                  == if at < now + cfg.ttl * SECOND then cfg.dumps(result) else None
      ensures forall k :: k != KeyOf(cfg, t) ==> (k in redis.db <==> k in old(redis.db))
                                                  && (k in redis.db ==> redis.db[k] == old(redis.db)[k])
    {
      var text := cfg.dumps(result);
      if text.Some? && cfg.ttl > 0 {
        redis.SetCmd(KeyOf(cfg, t), text.value, cfg.ttl, now);
      }
      writes := writes + [Write(t, result, now)];
      assert writes[..|writes| - 1] == old(writes);
    }

    /** The wrapper: a hit, or the handler's own result, which reaches the cache at `done`. */
    method Serve(t: Target, result: T, now: Time, done: Time) returns (r: Served<T, J>)
      requires Valid() && CollisionFree(cfg, Targets(writes) + [t])
      modifies this, redis
      ensures Valid()
      ensures r.Hit? <==> exists i :: Supplies(cfg, old(writes), t, now, i)
      ensures r.Hit? ==> writes == old(writes)
      ensures r.Hit? ==> exists i :: Supplies(cfg, writes, t, now, i)
                                     && Some(r.image) == LoadsOption(cfg, cfg.dumps(writes[i].result))
      ensures r.Fresh? ==> r.result == result && writes == old(writes) + [Write(t, result, done)]
    {
      var cached := Lookup(t, now);
      if cached.Some? {
        return Hit(cached.value);
      }
      Store(t, result, done);
      r := Fresh(result);
    }
  }
}
