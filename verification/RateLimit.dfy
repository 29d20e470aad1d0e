/** The sliding-window rate limiter: a pruned sorted set per client against the full request history. */
module RateLimit {
  import opened Wrappers
  import opened Sets

  /** Seconds since the epoch. */
  type Instant = t: real | 0.0 <= t witness 0.0

  datatype ZSet = ZSet(members: set<Instant>, expiry: Option<real>)

  /** The client address a key `rl:{ip}` is named after. */
  datatype Client = Client(address: string)

  type Store = map<Client, ZSet>

  datatype Config = Config(
    maxRequests: int,           // RATE_LIMIT_MAX_REQUESTS
    windowSeconds: Positive)    // RATE_LIMIT_WINDOW_SECONDS

  // ------------------------------------------------ the sorted-set commands

  /** The members a command sees: none once the key has expired. */
  function Live(m: Store, key: Client, now: Instant): set<Instant> {
    if key in m && (m[key].expiry == None || now < m[key].expiry.value) then m[key].members else {}
  }

  function LiveExpiry(m: Store, key: Client, now: Instant): Option<real> {
    if key in m && (m[key].expiry == None || now < m[key].expiry.value) then m[key].expiry else None
  }

  class SortedSets {
    var sets: Store

    constructor ()
      ensures sets == map[]
    {
      sets := map[];
    }

    /** Members are their own scores; an emptied key disappears. */
    method ZRemRangeByScore(key: Client, low: real, high: real, now: Instant)
      modifies this
      ensures var kept := set x | x in Live(old(sets), key, now) && !(low <= x <= high);
              sets == if kept == {} then old(sets) - {key}
                  else old(sets)[key := ZSet(kept, LiveExpiry(old(sets), key, now))]
    {
      var kept := set x | x in Live(sets, key, now) && !(low <= x <= high);
      if kept == {} {
        sets := sets - {key};
      } else {
        sets := sets[key := sets[key].(members := kept)];
      }
    }

    method ZAdd(key: Client, x: Instant, now: Instant)
      modifies this
      ensures sets == old(sets)[key := ZSet(Live(old(sets), key, now) + {x}, LiveExpiry(old(sets), key, now))]
    {
      sets := sets[key := ZSet(Live(sets, key, now) + {x}, LiveExpiry(sets, key, now))];
    }

    method ZCard(key: Client, now: Instant) returns (n: nat)
      ensures n == |Live(sets, key, now)|
    {
      n := |Live(sets, key, now)|;
    }

    method Expire(key: Client, seconds: int, now: Instant)
      modifies this
      ensures sets == if key in old(sets) && (old(sets)[key].expiry == None || now < old(sets)[key].expiry.value)
                      then old(sets)[key := old(sets)[key].(expiry := Some(now + seconds as real))]
                      else old(sets)
    {
      if key in sets && (sets[key].expiry == None || now < sets[key].expiry.value) {
        sets := sets[key := sets[key].(expiry := Some(now + seconds as real))];
      }
    }
  }

  // ------------------------------------------------ one request, and a history of requests

  /** The members still inside the window that ends at `t`. */
  function Pruned(c: Config, m: Store, ip: Client, t: Instant): set<Instant> {
    set x | x in Live(m, ip, t) && t - c.windowSeconds as real < x
  }

  /** The stored sets after the four pipelined commands of one request. */
  function Hit(m: Store, c: Config, ip: Client, now: Instant): Store {
    m[ip := ZSet(Pruned(c, m, ip, now) + {now}, Some(now + c.windowSeconds as real + 1.0))]
  }

  datatype Request = Request(ip: Client, at: Instant)

  function Replay(c: Config, hits: seq<Request>): Store {
    if hits == [] then map[]
    else Hit(Replay(c, hits[..|hits| - 1]), c, hits[|hits| - 1].ip, hits[|hits| - 1].at)
  }

  predicate NonDecreasing(hits: seq<Request>) {
    forall i, j :: 0 <= i <= j < |hits| ==> hits[i].at <= hits[j].at
  }

  /** The distinct instants at which this client made a request in the window that ends at `t`. */
  function Window(c: Config, hits: seq<Request>, ip: Client, t: real): set<Instant> {
    set i | 0 <= i < |hits| && hits[i].ip == ip && t - c.windowSeconds as real < hits[i].at <= t :: hits[i].at
  }

  /** The decision taken on the `i`-th request, from the history alone. */
  predicate Admitted(c: Config, hits: seq<Request>, i: nat)
    requires i < |hits|
  {
    |Window(c, hits[..i + 1], hits[i].ip, hits[i].at)| <= c.maxRequests
  }

  // ------------------------------------------------ the middleware

  datatype Response =
    | Unlimited
    | Served(limit: int, remaining: int)
    | TooMany(retryAfter: int, limit: int, remaining: int)

  /** The answer to the `i`-th request, from the history alone. */
  function AnswerTo(c: Config, hits: seq<Request>, i: nat): Response
    requires i < |hits|
  {
    if Admitted(c, hits, i)
    then Served(c.maxRequests, c.maxRequests - |Window(c, hits[..i + 1], hits[i].ip, hits[i].at)|)
    else TooMany(c.windowSeconds, c.maxRequests, 0)
  }

  const EXCLUDED: seq<string> := ["/healthz/live", "/healthz/ready", "/docs", "/redoc", "/openapi.json"]

  class RateLimitMiddleware {
    const redis: SortedSets
    const cfg: Config
    ghost var hits: seq<Request>

    ghost predicate Valid()
      reads this, redis
    {
      NonDecreasing(hits) && redis.sets == Replay(cfg, hits)
    }

    constructor (cfg: Config)
      ensures Valid() && hits == [] && this.cfg == cfg && fresh(redis)
    {
      this.cfg, this.hits := cfg, [];
      redis := new SortedSets();
    }

    /** The four pipelined commands: drop what has left the window, add this request, count, renew the key. */
    method Record(ip: Client, now: Instant) returns (count: nat)
      modifies redis
      ensures redis.sets == Hit(old(redis.sets), cfg, ip, now)
      ensures count == |Live(redis.sets, ip, now)|
      ensures ip in redis.sets && redis.sets[ip].expiry == Some(now + (cfg.windowSeconds + 1) as real)
    {
      var windowStart := now - cfg.windowSeconds as real;
      ghost var before := redis.sets;
      ghost var kept := set x | x in Live(before, ip, now) && !(0.0 <= x <= windowStart);
      assert kept == Pruned(cfg, before, ip, now);
      redis.ZRemRangeByScore(ip, 0.0, windowStart, now);
      redis.ZAdd(ip, now, now);
      count := redis.ZCard(ip, now);
      redis.Expire(ip, cfg.windowSeconds + 1, now);
    }

    method Limit(ip: Client, now: Instant) returns (r: Response)
      requires Valid() && (hits != [] ==> hits[|hits| - 1].at <= now)
      modifies this, redis
      ensures Valid() && hits == old(hits) + [Request(ip, now)]
      ensures r == AnswerTo(cfg, hits, |hits| - 1)
    {
      var requestCount := Record(ip, now);
      r := Decide(requestCount);
      NextAnswer(cfg, hits, Request(ip, now), redis.sets, requestCount, r);
      hits := hits + [Request(ip, now)];
    }

    /** The decision on a count, and its headers. */
    method Decide(requestCount: nat) returns (r: Response)
      ensures r == if requestCount <= cfg.maxRequests then Served(cfg.maxRequests, cfg.maxRequests - requestCount)
                   else TooMany(cfg.windowSeconds, cfg.maxRequests, 0)
    {
      if requestCount > cfg.maxRequests {
        return TooMany(cfg.windowSeconds, cfg.maxRequests, 0);
      }
      r := Served(cfg.maxRequests, if cfg.maxRequests - requestCount > 0 then cfg.maxRequests - requestCount else 0);
    }

    /** The health checks and the API's documentation are not limited; every other path is. */
    method Dispatch(path: string, ip: Client, now: Instant) returns (r: Response)
      requires Valid() && (hits != [] ==> hits[|hits| - 1].at <= now)
      modifies this, redis
      ensures Valid()
      ensures r.Unlimited? <==> || path == "/healthz/live" || path == "/healthz/ready"
                                || path == "/docs" || path == "/redoc" || path == "/openapi.json"
      ensures r.Unlimited? ==> hits == old(hits)
      ensures !r.Unlimited? ==> hits == old(hits) + [Request(ip, now)] && r == AnswerTo(cfg, hits, |hits| - 1)
    {
      if path in EXCLUDED {
        return Unlimited;
      }
      r := Limit(ip, now);
    }
  }

  // ------------------------------------------------ the stored set refines the history

  /** Neither inclusive pruning nor the key's expiry ever loses an instant still in the window. */
  lemma {:induction false} StoredSetMatchesHistory(c: Config, hits: seq<Request>, ip: Client, t: Instant)
    requires NonDecreasing(hits) && (hits != [] ==> hits[|hits| - 1].at <= t)
    ensures Pruned(c, Replay(c, hits), ip, t) == Window(c, hits, ip, t)
    decreases |hits|
  {
    if hits != [] {
      var n := |hits| - 1;
      var before, last := hits[..n], hits[n];
      assert NonDecreasing(before);
      if last.ip != ip {
        StoredSetMatchesHistory(c, before, ip, t);
        assert Window(c, hits, ip, t) == Window(c, before, ip, t);
      } else {
        StoredSetMatchesHistory(c, before, ip, last.at);
        WindowSlides(c, hits, t);
      }
    }
  }

  /** The window at a later instant, from the window at the last request. */
  lemma WindowSlides(c: Config, hits: seq<Request>, t: Instant)
    requires NonDecreasing(hits) && hits != [] && hits[|hits| - 1].at <= t
    ensures var n := |hits| - 1; var last := hits[n];
            Window(c, hits, last.ip, t) == set x | x in Window(c, hits[..n], last.ip, last.at) + {last.at} &&
                t - c.windowSeconds as real < x
  {
    var n := |hits| - 1;
    var last := hits[n];
    var earlier := Window(c, hits[..n], last.ip, last.at);
    forall x | x in Window(c, hits, last.ip, t) ensures x in earlier + {last.at} && t - c.windowSeconds as real < x {
      var i :| && 0 <= i < |hits| && hits[i].ip == last.ip
               && t - c.windowSeconds as real < hits[i].at <= t && hits[i].at == x;
      if i < n {
        assert hits[..n][i] == hits[i];
      }
    }
    forall x | x in earlier + {last.at} && t - c.windowSeconds as real < x ensures x in Window(c, hits, last.ip, t) {
      if x != last.at {
        var i :| 0 <= i < n && hits[..n][i].ip == last.ip && hits[..n][i].at == x;
        assert hits[i].at == x && hits[i].at <= last.at;
      }
    }
  }

  /** The count the pipeline returns for the last request is the number of distinct instants in its window. */
  lemma CountMatchesHistory(c: Config, hits: seq<Request>)
    requires NonDecreasing(hits) && hits != []
    ensures var last := hits[|hits| - 1];
            && Live(Replay(c, hits), last.ip, last.at) == Window(c, hits, last.ip, last.at)
            && Live(Replay(c, hits), last.ip, last.at)
               == set i | 0 <= i < |hits| && hits[i].ip == last.ip
                          && last.at - c.windowSeconds as real < hits[i].at <= last.at :: hits[i].at
  {
    var n := |hits| - 1;
    var last := hits[n];
    assert NonDecreasing(hits[..n]);
    StoredSetMatchesHistory(c, hits[..n], last.ip, last.at);
    WindowSlides(c, hits, last.at);
  }

  /** One more request: what the pipeline leaves and counts. */
  lemma LastRequestCounted(c: Config, before: seq<Request>, last: Request)
    requires NonDecreasing(before) && (before != [] ==> before[|before| - 1].at <= last.at)
    ensures var hits := before + [last];
            && NonDecreasing(hits) && Replay(c, hits) == Hit(Replay(c, before), c, last.ip, last.at)
            && Live(Replay(c, hits), last.ip, last.at) == Window(c, hits, last.ip, last.at)
  {
    var hits := before + [last];
    assert hits[..|before|] == before;
    CountMatchesHistory(c, hits);
  }

  /** The decision on that count is the answer from the history. */
  lemma NextAnswer(c: Config, before: seq<Request>, last: Request, m: Store, n: nat, r: Response)
    requires NonDecreasing(before) && (before != [] ==> before[|before| - 1].at <= last.at)
    requires m == Hit(Replay(c, before), c, last.ip, last.at) && n == |Live(m, last.ip, last.at)|
    requires r == if n <= c.maxRequests then Served(c.maxRequests, c.maxRequests - n)
                  else TooMany(c.windowSeconds, c.maxRequests, 0)
    ensures NonDecreasing(before + [last]) && m == Replay(c, before + [last])
    ensures r == AnswerTo(c, before + [last], |before|)
  {
    LastRequestCounted(c, before, last);
    var hits := before + [last];
    assert hits[..|before| + 1] == hits;
  }

  /**
   * A request is served exactly if at most MAX distinct instants of its client lie in the `windowSeconds` that end
   * with it, the rest of MAX remaining; a refused one is told to wait `windowSeconds`.
   */
  lemma AnswersExactly(c: Config, hits: seq<Request>, i: nat)
    requires i < |hits|
    ensures var now := hits[i].at;
            var inWindow := set k | 0 <= k <= i && hits[k].ip == hits[i].ip
                                    && now - c.windowSeconds as real < hits[k].at <= now :: hits[k].at;
            AnswerTo(c, hits, i) == if |inWindow| <= c.maxRequests
                                    then Served(c.maxRequests, c.maxRequests - |inWindow|)
                                    else TooMany(c.windowSeconds, c.maxRequests, 0)
  {
    var now, start := hits[i].at, hits[i].at - c.windowSeconds as real;
    assert forall k :: 0 <= k <= i ==> hits[..i + 1][k] == hits[k];
    assert (set k | 0 <= k <= i && hits[k].ip == hits[i].ip && start < hits[k].at <= now :: hits[k].at)
        == Window(c, hits[..i + 1], hits[i].ip, now);
  }

  // ------------------------------------------------ other clients

  /** The requests of one client, in order. */
  function Only(hits: seq<Request>, ip: Client): seq<Request> {
    if hits == [] then []
    else
      var last := hits[|hits| - 1];
      Only(hits[..|hits| - 1], ip) + if last.ip == ip then [last] else []
  }

  lemma ReplayAppend(c: Config, hits: seq<Request>, last: Request)
    ensures Replay(c, hits + [last]) == Hit(Replay(c, hits), c, last.ip, last.at)
  {
    assert (hits + [last])[..|hits|] == hits;
  }

  /** The stored entry of a client is the same in both stores. */
  predicate SameFor(ip: Client, m: Store, m': Store) {
    (ip in m <==> ip in m') && (ip in m ==> m[ip] == m'[ip])
  }

  lemma HitSame(c: Config, m: Store, m': Store, ip: Client, at: Instant)
    requires SameFor(ip, m, m')
    ensures SameFor(ip, Hit(m, c, ip, at), Hit(m', c, ip, at))
  {
    PrunedSame(c, m, m', ip, at);
  }

  /** A client's stored set is what its own requests alone would have left. */
  lemma {:induction false} OtherClientsIrrelevant(c: Config, hits: seq<Request>, ip: Client)
    ensures SameFor(ip, Replay(c, hits), Replay(c, Only(hits, ip)))
    decreases |hits|
  {
    if hits == [] {
      assert Only(hits, ip) == hits;
    } else {
      var before, last := hits[..|hits| - 1], hits[|hits| - 1];
      OtherClientsIrrelevant(c, before, ip);
      assert hits == before + [last];
      ReplayAppend(c, before, last);
      if last.ip == ip {
        ReplayAppend(c, Only(before, ip), last);
        HitSame(c, Replay(c, before), Replay(c, Only(before, ip)), ip, last.at);
      } else {
        assert Only(hits, ip) == Only(before, ip);
      }
    }
  }

  lemma PrunedSame(c: Config, m: Store, m': Store, ip: Client, t: Instant)
    requires ip in m <==> ip in m'
    requires ip in m ==> m[ip] == m'[ip]
    ensures Pruned(c, m, ip, t) == Pruned(c, m', ip, t)
  {
  }

  // ------------------------------------------------ at most MAX in any window

  predicate AdmittedIn(c: Config, hits: seq<Request>, ip: Client, t: real, i: int) {
    0 <= i < |hits| && hits[i].ip == ip && t - c.windowSeconds as real < hits[i].at <= t && Admitted(c, hits, i)
  }

  function AdmittedInstants(c: Config, hits: seq<Request>, ip: Client, t: real): set<Instant> {
    set i | 0 <= i < |hits| && AdmittedIn(c, hits, ip, t, i) :: hits[i].at
  }

  /** The last admitted request of a window, when there is one. */
  lemma LastAdmitted(c: Config, hits: seq<Request>, ip: Client, t: real) returns (i: int)
    ensures -1 <= i < |hits| && (i >= 0 ==> AdmittedIn(c, hits, ip, t, i))
    ensures forall k :: i < k < |hits| ==> !AdmittedIn(c, hits, ip, t, k)
  {
    i := |hits| - 1;
    while i >= 0 && !AdmittedIn(c, hits, ip, t, i)
      invariant -1 <= i < |hits|
      invariant forall k :: i < k < |hits| ==> !AdmittedIn(c, hits, ip, t, k)
    {
      i := i - 1;
    }
  }

  /** Any window, wherever it ends, holds at most MAX distinct admitted instants of one client. */
  lemma AdmissionBound(c: Config, hits: seq<Request>, ip: Client, t: real)
    requires NonDecreasing(hits) && 0 <= c.maxRequests
    ensures |AdmittedInstants(c, hits, ip, t)| <= c.maxRequests
    ensures AdmittedInstants(c, hits, ip, t)
         == set i | && 0 <= i < |hits| && hits[i].ip == ip && t - c.windowSeconds as real < hits[i].at <= t
                    && AnswerTo(c, hits, i).Served? :: hits[i].at
  {
    var i := LastAdmitted(c, hits, ip, t);
    if i >= 0 {
      var seen := Window(c, hits[..i + 1], ip, hits[i].at);
      forall x | x in AdmittedInstants(c, hits, ip, t) ensures x in seen {
        var k :| 0 <= k < |hits| && AdmittedIn(c, hits, ip, t, k) && hits[k].at == x;
        assert hits[..i + 1][k] == hits[k];
      }
      SubsetSize(AdmittedInstants(c, hits, ip, t), seen);
    } else {
      assert AdmittedInstants(c, hits, ip, t) == {};
    }
  }

  /** The requests, not the instants, of a client in a window. */
  function Indices(c: Config, hits: seq<Request>, ip: Client, t: real): set<int> {
    set i | 0 <= i < |hits| && hits[i].ip == ip && t - c.windowSeconds as real < hits[i].at <= t
  }

  /** The instants of a set of requests. */
  function Instants(hits: seq<Request>, s: set<int>): set<Instant>
    requires forall i :: i in s ==> 0 <= i < |hits|
  {
    set i | i in s :: hits[i].at
  }

  predicate OnePerInstant(hits: seq<Request>, s: set<int>)
    requires forall i :: i in s ==> 0 <= i < |hits|
  {
    forall i, j :: i in s && j in s && hits[i].at == hits[j].at ==> i == j
  }

  /** As many instants as requests, exactly when no two of the requests share one. */
  lemma {:induction false} InstantsCount(hits: seq<Request>, s: set<int>)
    requires forall i :: i in s ==> 0 <= i < |hits|
    ensures |Instants(hits, s)| <= |s|
    ensures |Instants(hits, s)| == |s| <==> OnePerInstant(hits, s)
    decreases |s|
  {
    if s != {} {
      var i := AnElement(s);
      var rest := s - {i};
      InstantsCount(hits, rest);
      assert s == rest + {i};
      if j :| j in rest && hits[j].at == hits[i].at {
        assert Instants(hits, s) == Instants(hits, rest);
        assert j in s && !OnePerInstant(hits, s);
      } else {
        assert hits[i].at !in Instants(hits, rest);
        assert Instants(hits, s) == Instants(hits, rest) + {hits[i].at};
        assert OnePerInstant(hits, rest) ==> OnePerInstant(hits, s) by {
          assert forall j :: j in s ==> j == i || j in rest;
        }
        assert OnePerInstant(hits, s) ==> OnePerInstant(hits, rest);
      }
    } else {
      assert Instants(hits, s) == {};
    }
  }

  /** The limiter counts every request in the window exactly when no two of them arrived at one instant. */
  lemma CountsEveryRequestExactly(c: Config, hits: seq<Request>, ip: Client, t: real)
    ensures |Window(c, hits, ip, t)| == |Indices(c, hits, ip, t)|
       <==> OnePerInstant(hits, Indices(c, hits, ip, t))
  {
    var s := Indices(c, hits, ip, t);
    assert Window(c, hits, ip, t) == Instants(hits, s);
    InstantsCount(hits, s);
  }

  /** The admitted requests, not the instants, of a client in a window. */
  function AdmittedRequests(c: Config, hits: seq<Request>, ip: Client, t: real): set<int> {
    set i | 0 <= i < |hits| && AdmittedIn(c, hits, ip, t, i)
  }

  /**
   * The admitted requests of a window are as many as its admitted instants exactly when no two of them share one,
   * and then there are at most MAX of them.
   */
  lemma RequestBound(c: Config, hits: seq<Request>, ip: Client, t: real)
    requires NonDecreasing(hits) && 0 <= c.maxRequests
    ensures var admitted := AdmittedRequests(c, hits, ip, t);
            && (|admitted| == |AdmittedInstants(c, hits, ip, t)| <==> OnePerInstant(hits, admitted))
            && (OnePerInstant(hits, admitted) ==> |admitted| <= c.maxRequests)
  {
    var s := AdmittedRequests(c, hits, ip, t);
    assert AdmittedInstants(c, hits, ip, t) == Instants(hits, s);
    InstantsCount(hits, s);
    AdmissionBound(c, hits, ip, t);
  }

  /** Without it there is no bound: any number of simultaneous requests is admitted. */
  lemma SimultaneousRequestsAllAdmitted(c: Config, ip: Client, t: Instant, n: nat)
    requires 1 <= c.maxRequests
    ensures var hits := seq(n, _ => Request(ip, t));
            NonDecreasing(hits) && |AdmittedRequests(c, hits, ip, t)| == n
  {
    var hits := seq(n, _ => Request(ip, t));
    forall i | 0 <= i < n ensures AdmittedIn(c, hits, ip, t, i) {
      assert hits[..i + 1][i] == Request(ip, t);
      assert Window(c, hits[..i + 1], ip, t) == {t};
    }
    assert AdmittedRequests(c, hits, ip, t) == Range(n);
  }

  function Range(n: nat): (r: set<int>)
    ensures |r| == n && forall i :: i in r <==> 0 <= i < n
  {
    if n == 0 then {} else Range(n - 1) + {n - 1}
  }

  // ------------------------------------------------ what the headers promise

  /** The requests of the client of request `i` after it, up to and including request `j`. */
  function LaterRequests(hits: seq<Request>, i: nat, j: nat): set<int>
    requires i <= j < |hits|
  {
    set k | i < k <= j && hits[k].ip == hits[i].ip
  }

  /** After an answer with `Remaining: r` the next r requests of that client are all served. */
  lemma RemainingIsHonoured(c: Config, hits: seq<Request>, i: nat, j: nat)
    requires NonDecreasing(hits) && i <= j < |hits| && hits[j].ip == hits[i].ip && AnswerTo(c, hits, i).Served?
    requires |LaterRequests(hits, i, j)| <= AnswerTo(c, hits, i).remaining
    ensures AnswerTo(c, hits, j).Served?
  {
    var first := Window(c, hits[..i + 1], hits[i].ip, hits[i].at);
    var later := LaterRequests(hits, i, j);
    var window := Window(c, hits[..j + 1], hits[j].ip, hits[j].at);
    forall x | x in window ensures x in first + Instants(hits, later) {
      var k :| 0 <= k < j + 1 && hits[..j + 1][k].ip == hits[i].ip && hits[..j + 1][k].at == x;
      if k <= i {
        assert hits[..i + 1][k] == hits[k];
      } else {
        assert k in later;
      }
    }
    SubsetSize(window, first + Instants(hits, later));
    UnionSize(first, Instants(hits, later));
    InstantsCount(hits, later);
  }

  /**
   * A client that is refused and makes its next request no sooner than the Retry-After it was given is served,
   * although its refused requests were recorded too.
   */
  lemma RetryAfterIsEnough(c: Config, hits: seq<Request>, i: nat, j: nat)
    requires NonDecreasing(hits) && i < j < |hits| && hits[j].ip == hits[i].ip && 1 <= c.maxRequests
    requires LaterRequests(hits, i, j) == {j as int}
    requires AnswerTo(c, hits, i).TooMany? && hits[i].at + AnswerTo(c, hits, i).retryAfter as real <= hits[j].at
    ensures AnswerTo(c, hits, j).Served?
  {
    var start := hits[j].at - c.windowSeconds as real;
    var window := Window(c, hits[..j + 1], hits[j].ip, hits[j].at);
    assert forall m :: 0 <= m <= i ==> hits[m].at <= start;
    forall x | x in window ensures x == hits[j].at {
      var k :| 0 <= k < j + 1 && hits[..j + 1][k].ip == hits[j].ip && hits[..j + 1][k].at == x && start < x;
      assert k <= i || k in LaterRequests(hits, i, j);
    }
    SubsetSize(window, {hits[j].at});
  }
}
