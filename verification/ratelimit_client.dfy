/**
 The limiter seen by one client over all its buckets, and the middleware that drives it.
 */
module RateLimitClient {
  import opened Redis
  import opened RateLimit
  import opened RateLimitKey
  import Text

  // ---------- any interval as long as the window ----------

  ghost predicate Injective(keyOf: nat -> string) {
    forall b: nat, c: nat :: keyOf(b) == keyOf(c) ==> b == c
  }

  /** An INCR of this client's own bucket, executed in the interval of one window from `from`. */
  predicate OwnIncr(c: Command, keyOf: nat -> string, window: int, from: nat)
    requires window > 0
  {
    c.Incr? && from <= c.at < from + window && c.key == keyOf(c.at / window)
  }

  /** How many requests of the client were admitted in that interval. */
  function AdmittedWithin(trace: seq<Command>, keyOf: nat -> string, window: int, from: nat, max: nat): nat
    requires window > 0
  {
    if trace == [] then 0
    else
      var before, last := trace[..|trace| - 1], trace[|trace| - 1];
      AdmittedWithin(before, keyOf, window, from, max)
      + if OwnIncr(last, keyOf, window, from) && Reply(Replay(before), last) <= max then 1 else 0
  }

  /** A run in which each INCR is executed inside the bucket it was computed for. */
  ghost predicate Undelayed(trace: seq<Command>, keyOf: nat -> string, window: int, ttl: int) {
    forall b: nat :: BucketTrace(trace, keyOf(b), b, window, ttl, 0)
  }

  lemma TouchesTwoBuckets(at: int, window: int, from: nat)
    requires window > 0 && from <= at < from + window
    ensures at / window == from / window || at / window == from / window + 1
  {
    var q := from / window;
    assert from == window * q + from % window;
    assert at == window * (at / window) + at % window;
    if at / window < q {
      Below(window, at / window, q);
    } else if at / window > q + 1 {
      Below(window, q + 1, at / window);
    }
  }

  lemma Below(window: int, p: int, q: int)
    requires window > 0 && p < q
    ensures window * p + window <= window * q
  {
    assert window * (q - p - 1) >= 0;
    assert window * (q - p - 1) == window * q - window * p - window;
  }

  lemma {:induction false} WithinTwoBuckets(trace: seq<Command>, keyOf: nat -> string, window: int, from: nat, max: nat)
    requires window > 0
    ensures var b := from / window;
            AdmittedWithin(trace, keyOf, window, from, max) <= Admitted(trace, keyOf(b), max) + Admitted(trace, keyOf(b + 1), max)
    decreases |trace|
  {
    if trace != [] {
      var last := trace[|trace| - 1];
      WithinTwoBuckets(trace[..|trace| - 1], keyOf, window, from, max);
      if OwnIncr(last, keyOf, window, from) {
        TouchesTwoBuckets(last.at, window, from);
      }
    }
  }

  /** Undelayed, any interval of one window admits at most twice the limit, wherever it starts. */
  lemma SlidingWindowBound(trace: seq<Command>, keyOf: nat -> string, window: int, ttl: int, from: nat, max: nat)
    requires window > 0 && ttl >= window && Undelayed(trace, keyOf, window, ttl)
    ensures AdmittedWithin(trace, keyOf, window, from, max) <= 2 * max
  {
    var b := from / window;
    WithinTwoBuckets(trace, keyOf, window, from, max);
    BucketBound(trace, keyOf(b), b, window, ttl, max);
    BucketBound(trace, keyOf(b + 1), b + 1, window, ttl, max);
  }

  lemma BucketBound(trace: seq<Command>, key: string, b: nat, window: int, ttl: int, max: nat)
    requires window > 0 && ttl >= window && BucketTrace(trace, key, b, window, ttl, 0)
    ensures Admitted(trace, key, max) <= max
  {
    BucketIsKeptAlive(trace, key, b, window, ttl, 0);
    FirstMaxAreAdmitted(trace, key, (b + 1) * window, max);
  }

  /** The burst across a boundary: the whole limit in the last instant of bucket 0 and again in the first of bucket 1. */
  function Burst(keyOf: nat -> string, window: int, max: nat): seq<Command> {
    Repeat(max, Incr(keyOf(0), window - 1)) + Repeat(max, Incr(keyOf(1), window))
  }

  /** A counter that was last touched by nobody else goes up by one. */
  lemma OneMoreInBurst(trace: seq<Command>, keyOf: nat -> string, window: int, from: nat, max: nat, c: Command, n: nat)
    requires window > 0 && OwnIncr(c, keyOf, window, from) && n < max
    requires if n == 0 then c.key !in Replay(trace) else c.key in Replay(trace) && Replay(trace)[c.key] == Entry(n, Never)
    ensures Replay(trace + [c]) == Replay(trace)[c.key := Entry(n + 1, Never)]
    ensures AdmittedWithin(trace + [c], keyOf, window, from, max) == AdmittedWithin(trace, keyOf, window, from, max) + 1
  {
    ReplayAppend(trace, c);
    assert (trace + [c])[..|trace|] == trace;
  }

  lemma {:induction false} RepeatCounts(trace: seq<Command>, keyOf: nat -> string, window: int, from: nat, max: nat, c: Command, n: nat)
    requires window > 0 && OwnIncr(c, keyOf, window, from) && n <= max && c.key !in Replay(trace)
    ensures AdmittedWithin(trace + Repeat(n, c), keyOf, window, from, max) == AdmittedWithin(trace, keyOf, window, from, max) + n
    ensures Replay(trace + Repeat(n, c)) == if n == 0 then Replay(trace) else Replay(trace)[c.key := Entry(n, Never)]
  {
    hide AdmittedWithin, Replay, OwnIncr, Reply;
    if n == 0 {
      assert trace + Repeat(0, c) == trace;
    } else {
      RepeatCounts(trace, keyOf, window, from, max, c, n - 1);
      var before := trace + Repeat(n - 1, c);
      OneMoreInBurst(before, keyOf, window, from, max, c, n - 1);
      assert trace + Repeat(n, c) == before + [c];
      assert n > 1 ==> Replay(trace)[c.key := Entry(n - 1, Never)][c.key := Entry(n, Never)] == Replay(trace)[c.key := Entry(n, Never)];
    }
  }

  /** Both halves of the burst fall into the interval, each in its own bucket. */
  lemma BurstIsOwn(keyOf: nat -> string, window: int)
    requires window >= 2
    ensures OwnIncr(Incr(keyOf(0), window - 1), keyOf, window, window - 1)
    ensures OwnIncr(Incr(keyOf(1), window), keyOf, window, window - 1)
  {
    assert (window - 1) / window == 0 && window / window == 1;
  }

  lemma NothingYet(keyOf: nat -> string, window: int, max: nat)
    requires window > 0
    ensures Replay([]) == map[] && AdmittedWithin([], keyOf, window, window - 1, max) == 0
  {
  }

  lemma BurstCounts(keyOf: nat -> string, window: int, max: nat)
    requires window >= 2 && Injective(keyOf)
    ensures AdmittedWithin(Burst(keyOf, window, max), keyOf, window, window - 1, max) == 2 * max
  {
    hide Reply, Repeat, OwnIncr, Replay, AdmittedWithin;
    var c0, c1 := Incr(keyOf(0), window - 1), Incr(keyOf(1), window);
    assert keyOf(0) != keyOf(1);
    BurstIsOwn(keyOf, window);
    NothingYet(keyOf, window, max);
    RepeatCounts([], keyOf, window, window - 1, max, c0, max);
    assert [] + Repeat(max, c0) == Repeat(max, c0);
    RepeatCounts(Repeat(max, c0), keyOf, window, window - 1, max, c1, max);
  }

  /** The bound is met: some undelayed run does admit twice the limit within one window. */
  lemma SlidingWindowBoundIsMet(keyOf: nat -> string, window: int, ttl: int, max: nat)
    requires window >= 2 && Injective(keyOf)
    ensures Undelayed(Burst(keyOf, window, max), keyOf, window, ttl)
    ensures AdmittedWithin(Burst(keyOf, window, max), keyOf, window, window - 1, max) == 2 * max
  {
    var trace := Burst(keyOf, window, max);
    BurstCounts(keyOf, window, max);
    forall b: nat ensures BucketTrace(trace, keyOf(b), b, window, ttl, 0) {
      forall j | 0 <= j < |trace| && trace[j].key == keyOf(b) ensures trace[j].Incr? && InTime(trace[j].at, b, window, 0) {
        assert trace[j] == Incr(keyOf(0), window - 1) || trace[j] == Incr(keyOf(1), window);
      }
    }
  }

  /** The keys of one client under one default rule differ from bucket to bucket. */
  lemma ClientKeysInjective(i: nat, shop: string, ip: string)
    requires i < |DEFAULT_RULES|
    ensures Injective((b: nat) => Key(DEFAULT_RULES[i], shop, ip, b))
  {
    forall b: nat, c: nat | Key(DEFAULT_RULES[i], shop, ip, b) == Key(DEFAULT_RULES[i], shop, ip, c) ensures b == c {
      KeyInjective(i, shop, ip, b, i, shop, ip, c);
    }
  }

  // ---------- runs of the middleware ----------

  /** A request under default rule `i` was counted: its bucket was computed at most `delay` before its INCR. */
  ghost predicate CountedAs(c: Command, delay: nat, i: nat, shop: string, ip: string, now: nat) {
    && i < |DEFAULT_RULES| && c.Incr? && now <= c.at <= now + delay
    && c.key == Key(DEFAULT_RULES[i], shop, ip, BucketOf(now, DEFAULT_RULES[i].window))
  }

  ghost predicate Counted(c: Command, delay: nat) {
    exists i: nat, shop, ip, now: nat :: CountedAs(c, delay, i, shop, ip, now)
  }

  /** The EXPIRE of a request that was the first of its bucket. */
  ghost predicate Expiring(trace: seq<Command>, j: nat)
    requires j < |trace|
  {
    trace[j].Expire? && trace[j].ttl == 120 * SECOND && FollowsFirst(trace, j, trace[j].key)
  }

  ghost predicate LimiterKey(key: string) {
    exists i: nat, shop, ip, b: nat :: KeyIs(key, i, shop, ip, b)
  }

  predicate KeyIs(key: string, i: nat, shop: string, ip: string, b: nat) {
    i < |DEFAULT_RULES| && key == Key(DEFAULT_RULES[i], shop, ip, b)
  }

  /** What any number of requests under the default rules may make of the limiter's keys, in any interleaving. */
  ghost predicate MiddlewareTrace(trace: seq<Command>, delay: nat) {
    forall j :: 0 <= j < |trace| && LimiterKey(trace[j].key) ==> Counted(trace[j], delay) || Expiring(trace, j)
  }

  lemma LongerTrace(trace: seq<Command>, more: seq<Command>, j: nat)
    requires j < |trace|
    ensures Expiring(trace, j) ==> Expiring(trace + more, j)
  {
    var longer := trace + more;
    assert longer[j] == trace[j];
    if Expiring(trace, j) {
      var key := trace[j].key;
      var i :| 0 <= i < j && trace[i].Incr? && trace[i].key == key && trace[i].at <= trace[j].at && ReplyAt(trace, i) == 1;
      ReplyStays(trace, longer, i);
      assert longer[i] == trace[i] && ReplyAt(longer, i) == 1;
    }
  }

  /** One more command of a request keeps a run of the middleware one. */
  lemma OneMoreCommand(trace: seq<Command>, c: Command, delay: nat)
    requires MiddlewareTrace(trace, delay)
    requires Counted(c, delay) || Expiring(trace + [c], |trace|)
    ensures MiddlewareTrace(trace + [c], delay)
  {
    hide LimiterKey, Counted, Expiring;
    var longer := trace + [c];
    forall j | 0 <= j < |longer| && LimiterKey(longer[j].key) ensures Counted(longer[j], delay) || Expiring(longer, j) {
      if j < |trace| {
        assert longer[j] == trace[j];
        LongerTrace(trace, [c], j);
      }
    }
  }

  /**
   What one request under a default rule sends keeps it one: its INCR, in time, and its EXPIRE if that was
   answered with 1, whatever other requests send between the two.
   */
  lemma RequestKeepsTrace(before: seq<Command>, r: Request, i: nat, at: int, others: seq<Command>, later: int, delay: nat)
    requires i < |DEFAULT_RULES| && r.now <= at <= r.now + delay && at <= later
    requires MiddlewareTrace(before, delay)
    ensures var incr := Incr(KeyOf(DEFAULT_RULES[i], r), at);
            && MiddlewareTrace(before + [incr], delay)
            && (MiddlewareTrace(before + [incr] + others, delay) && ReplyAt(before + [incr] + others, |before|) == 1 ==>
                  MiddlewareTrace(before + [incr] + others + [Expire(incr.key, later, SentTTL(DEFAULT_RULES[i].window * 2))], delay))
  {
    hide MiddlewareTrace, Key, ReplyAt;
    var rule := DEFAULT_RULES[i];
    var incr := Incr(KeyOf(rule, r), at);
    var shop, ip := ShopOf(r), ClientIP(r.forwarded, r.realIP, r.remote);
    assert CountedAs(incr, delay, i, shop, ip, r.now);
    OneMoreCommand(before, incr, delay);
    var trace := before + [incr] + others;
    if MiddlewareTrace(trace, delay) && ReplyAt(trace, |before|) == 1 {
      var longer := trace + [Expire(incr.key, later, SentTTL(rule.window * 2))];
      assert longer[|before|] == incr && longer[|trace|].ttl == 120 * SECOND;
      ReplyStays(trace, longer, |before|);
      assert FollowsFirst(longer, |trace|, incr.key);
      OneMoreCommand(trace, longer[|trace|], delay);
    }
  }

  lemma CountedInTime(c: Command, delay: nat, i: nat, shop: string, ip: string, b: nat)
    requires i < |DEFAULT_RULES| && Counted(c, delay) && c.key == Key(DEFAULT_RULES[i], shop, ip, b)
    ensures c.Incr? && InTime(c.at, b, 60 * SECOND, delay)
  {
    hide Key, BucketOf;
    var i': nat, shop', ip', now: nat :| CountedAs(c, delay, i', shop', ip', now);
    KeyInjective(i, shop, ip, b, i', shop', ip', BucketOf(now, DEFAULT_RULES[i'].window));
    BucketTiles(now, 60 * SECOND);
  }

  /** In such a run every key is a bucket as the limit's law wants it: keys of different buckets never mix. */
  lemma MiddlewareMakesBuckets(trace: seq<Command>, delay: nat, i: nat, shop: string, ip: string, b: nat)
    requires i < |DEFAULT_RULES| && MiddlewareTrace(trace, delay)
    ensures BucketTrace(trace, Key(DEFAULT_RULES[i], shop, ip, b), b, 60 * SECOND, 120 * SECOND, delay)
  {
    hide Key, InTime, FollowsFirst, Counted;
    var key := Key(DEFAULT_RULES[i], shop, ip, b);
    assert KeyIs(key, i, shop, ip, b);
    forall j | 0 <= j < |trace| && trace[j].key == key
      ensures || (trace[j].Incr? && InTime(trace[j].at, b, 60 * SECOND, delay))
              || (trace[j].Expire? && trace[j].ttl == 120 * SECOND && FollowsFirst(trace, j, key))
    {
      assert LimiterKey(trace[j].key);
      if Counted(trace[j], delay) {
        CountedInTime(trace[j], delay, i, shop, ip, b);
      }
    }
  }

  /** So the default rules keep their limits for every client and bucket, with delays of up to a minute. */
  lemma MiddlewareKeepsLimits(trace: seq<Command>, delay: nat, i: nat, shop: string, ip: string, b: nat)
    requires i < |DEFAULT_RULES| && MiddlewareTrace(trace, delay) && delay <= 60 * SECOND
    ensures Admitted(trace, Key(DEFAULT_RULES[i], shop, ip, b), DEFAULT_RULES[i].maxRequests) <= DEFAULT_RULES[i].maxRequests
  {
    hide Key, BucketTrace, Admitted, LimitHolds, MiddlewareTrace;
    var key, max := Key(DEFAULT_RULES[i], shop, ip, b), DEFAULT_RULES[i].maxRequests;
    MiddlewareMakesBuckets(trace, delay, i, shop, ip, b);
    BucketIsKeptAlive(trace, key, b, 60 * SECOND, 120 * SECOND, delay);
    FirstMaxAreAdmitted(trace, key, (b + 1) * (60 * SECOND) + delay, max);
  }

  /** In numbers, for the rule that a request of this path falls under. */
  lemma LimitsInNumbers(trace: seq<Command>, delay: nat, path: string, i: nat, shop: string, ip: string, b: nat)
    requires Text.HasPrefix(path, "/api/") && i < |DEFAULT_RULES| && Text.HasPrefix(path, DEFAULT_RULES[i].pathPrefix)
    requires forall j :: 0 <= j < i ==> !Text.HasPrefix(path, DEFAULT_RULES[j].pathPrefix)
    requires MiddlewareTrace(trace, delay) && delay <= 60_000_000_000
    ensures Admitted(trace, Key(DEFAULT_RULES[i], shop, ip, b), LimitOf(path)) <= LimitOf(path)
  {
    hide Admitted, Key, MiddlewareTrace, LimitOf, Text.HasPrefix;
    DefaultLimits(path, i);
    MiddlewareKeepsLimits(trace, delay, i, shop, ip, b);
  }

  /** And undelayed no client gets more than twice its limit within any minute. */
  lemma MiddlewareBoundsBursts(trace: seq<Command>, i: nat, shop: string, ip: string, from: nat)
    requires i < |DEFAULT_RULES| && MiddlewareTrace(trace, 0)
    ensures var rule := DEFAULT_RULES[i];
            AdmittedWithin(trace, (b: nat) => Key(rule, shop, ip, b), 60 * SECOND, from, rule.maxRequests) <= 2 * rule.maxRequests
  {
    hide Key, BucketTrace, AdmittedWithin, MiddlewareTrace;
    var rule := DEFAULT_RULES[i];
    var keyOf := (b: nat) => Key(rule, shop, ip, b);
    forall b: nat ensures BucketTrace(trace, keyOf(b), b, 60 * SECOND, 120 * SECOND, 0) {
      MiddlewareMakesBuckets(trace, 0, i, shop, ip, b);
    }
    SlidingWindowBound(trace, keyOf, 60 * SECOND, 120 * SECOND, from, rule.maxRequests);
  }

  // ---------- the server and the middleware ----------

  class RedisServer {
    var store: Store
    ghost var trace: seq<Command>

    ghost predicate Valid()
      reads this
    {
      store == Replay(trace)
    }

    constructor ()
      ensures Valid() && trace == []
    {
      store, trace := map[], [];
    }

    method DoIncr(key: string, at: int) returns (count: nat)
      requires Valid()
      modifies this
      ensures Valid() && trace == old(trace) + [Incr(key, at)] && count == ReplyAt(trace, |old(trace)|)
    {
      ReplayAppend(trace, Incr(key, at));
      assert (trace + [Incr(key, at)])[..|trace|] == trace;
      if Live(store, key, at) {
        count := store[key].count + 1;
        store := store[key := store[key].(count := count)];
      } else {
        count := 1;
        store := store[key := Entry(1, Never)];
      }
      trace := trace + [Incr(key, at)];
    }

    method DoExpire(key: string, at: int, ttl: int)
      requires Valid()
      modifies this
      ensures Valid() && trace == old(trace) + [Expire(key, at, ttl)]
    {
      ghost var c := Expire(key, at, ttl);
      ReplayAppend(trace, c);
      trace := trace + [c];
      if Live(store, key, at) {
        var entry := store[key];
        store := store[key := entry.(expiry := At(at + ttl))];
      }
    }

    method DoSetNX(key: string, at: int, ttl: int) returns (isNew: bool)
      requires Valid()
      modifies this
      ensures Valid() && trace == old(trace) + [SetNX(key, at, ttl)] && isNew == (ReplyAt(trace, |old(trace)|) == 1)
    {
      ReplayAppend(trace, SetNX(key, at, ttl));
      assert (trace + [SetNX(key, at, ttl)])[..|trace|] == trace;
      isNew := !Live(store, key, at);
      if isNew {
        store := store[key := Entry(1, At(at + ttl))];
      }
      trace := trace + [SetNX(key, at, ttl)];
    }

    /** Commands of other requests, executed before our next one. */
    method Others(commands: seq<Command>)
      requires Valid()
      modifies this
      ensures Valid() && trace == old(trace) + commands
    {
      for i := 0 to |commands|
        invariant Valid() && trace == old(trace) + commands[..i]
      {
        ReplayAppend(trace, commands[i]);
        store := Redis.Apply(store, commands[i]);
        trace := trace + [commands[i]];
      }
    }
  }

  datatype Verdict = Unlimited | Allowed(remaining: int) | TooMany(retryAfter: int, remaining: int)

  datatype Request = Request(
    path: string, contextShop: string, headerShop: string, queryShop: string,
    forwarded: string, realIP: string, remote: string, now: nat)

  function ShopOf(r: Request): string {
    if r.contextShop != "" then r.contextShop else if r.headerShop != "" then r.headerShop else r.queryShop
  }

  function KeyOf(rule: Rule, r: Request): string {
    Key(rule, ShopOf(r), ClientIP(r.forwarded, r.realIP, r.remote), BucketOf(r.now, rule.window))
  }

  /**
   RateLimit. The INCR executes at `at`; before a first request's EXPIRE, at `later`, any commands of
   others may execute. The request goes through exactly if its own INCR was answered with at most the
   limit of the first rule its path matches.
   */
  method RateLimitRequest(redis: RedisServer, rules: seq<Rule>, r: Request, at: int, others: seq<Command>, later: int)
    returns (verdict: Verdict, i: nat)
    requires redis.Valid()
    modifies redis
    ensures redis.Valid()
    ensures !Text.HasPrefix(r.path, "/api/") || i >= |rules| ==> verdict == Unlimited && redis.trace == old(redis.trace)
    ensures Text.HasPrefix(r.path, "/api/") ==>
              && (forall j :: 0 <= j < i && j < |rules| ==> !Text.HasPrefix(r.path, rules[j].pathPrefix))
              && (i < |rules| ==> Text.HasPrefix(r.path, rules[i].pathPrefix))
    ensures r.contextShop != "" ==> ShopOf(r) == r.contextShop
    ensures r.contextShop == "" && r.headerShop != "" ==> ShopOf(r) == r.headerShop
    ensures r.contextShop == "" && r.headerShop == "" ==> ShopOf(r) == r.queryShop
    ensures Text.HasPrefix(r.path, "/api/") && i < |rules| ==>
              var rule, n := rules[i], |old(redis.trace)|;
              && |redis.trace| > n
              && var count := ReplyAt(redis.trace, n);
              && redis.trace == old(redis.trace) + [Incr(KeyOf(rule, r), at)] + others
                   + (if count == 1 then [Expire(KeyOf(rule, r), later, SentTTL(rule.window * 2))] else [])
              && (count <= rule.maxRequests ==> verdict == Allowed(rule.maxRequests - count))
              && (count > rule.maxRequests ==> verdict == TooMany(rule.window / SECOND, 0))
  {
    verdict, i := Unlimited, 0;
    if !Text.HasPrefix(r.path, "/api/") {
      return;
    }
    i := FindRule(r.path, rules);
    if i == |rules| {
      return;
    }
    var rule := rules[i];
    var key := BuildRateLimitKey(rule, r.contextShop, r.headerShop, r.queryShop, r.forwarded, r.realIP, r.remote, r.now);
    var count := redis.DoIncr(key, at);
    ghost var start := redis.trace;
    redis.Others(others);
    if count == 1 {
      redis.DoExpire(key, later, SentTTL(rule.window * 2));
    }
    ReplyStays(start, redis.trace, |old(redis.trace)|);
    var remaining := rule.maxRequests - count;
    if remaining < 0 {
      remaining := 0;
    }
    if count > rule.maxRequests {
      return TooMany(rule.window / SECOND, remaining), i;
    }
    return Allowed(remaining), i;
  }

  /** What a command was answered does not depend on what came after it. */
  lemma ReplyStays(trace: seq<Command>, longer: seq<Command>, n: nat)
    requires n < |trace| && trace <= longer
    ensures ReplyAt(longer, n) == ReplyAt(trace, n)
  {
    assert longer[..n] == trace[..n];
  }

  /** CheckQuota: the script runs INCR and, for the first call, EXPIRE as one step. */
  method CheckQuota(redis: RedisServer, key: string, date: string, limit: int, at: int) returns (allowed: bool, count: nat)
    requires redis.Valid()
    modifies redis
    ensures redis.Valid()
    ensures var fullKey := "quota:" + key + ":" + date;
            && redis.trace == old(redis.trace) + [Incr(fullKey, at)] + (if count == 1 then [Expire(fullKey, at, QUOTA_TTL)] else [])
            && |redis.trace| > |old(redis.trace)| && count == ReplyAt(redis.trace, |old(redis.trace)|)
            && (allowed <==> count <= limit)
  {
    var fullKey := "quota:" + key + ":" + date;
    count := redis.DoIncr(fullKey, at);
    ghost var start := redis.trace;
    if count == 1 {
      redis.DoExpire(fullKey, at, QUOTA_TTL);
    }
    ReplyStays(start, redis.trace, |old(redis.trace)|);
    allowed := count <= limit;
  }

  /**
   The commands on one date's key: calls made while it is that date where the server stands, from `start` to
   `end`, and the EXPIRE of the first.
   */
  ghost predicate DateTrace(trace: seq<Command>, key: string, start: int, end: int) {
    forall j :: 0 <= j < |trace| && trace[j].key == key ==>
      || (trace[j].Incr? && start <= trace[j].at < end)
      || (trace[j].Expire? && trace[j].ttl == QUOTA_TTL && FollowsFirst(trace, j, key))
  }

  /**
   Over any run exactly the first `limit` calls of a key and date are allowed, whatever the server's time zone:
   a local date, even of 25 hours and with calls that execute late, is over within the two days the key lives.
   */
  lemma QuotaIsExact(trace: seq<Command>, key: string, start: int, end: int, limit: nat, i: nat)
    requires end - start <= QUOTA_TTL && DateTrace(trace, key, start, end)
    requires i < |trace| && trace[i].Incr? && trace[i].key == key
    ensures ReplyAt(trace, i) <= limit <==> Incrs(trace[..i], key) < limit
    ensures Admitted(trace, key, limit) == if Incrs(trace, key) <= limit then Incrs(trace, key) else limit
  {
    hide ReplyAt, Admitted, Incrs;
    forall j | 0 <= j < |trace| && trace[j].key == key && trace[j].Expire? ensures trace[j].at + trace[j].ttl >= end {
      var k :| 0 <= k < j && trace[k].Incr? && trace[k].key == key && trace[k].at <= trace[j].at && ReplyAt(trace, k) == 1;
    }
    FirstMaxAreAdmitted(trace, key, end, limit);
  }

  const GATE_TTL: int := 48 * 3600 * SECOND

  /** The webhook gate: a delivery without an id always passes, one with an id passes if SETNX sets its key. */
  method WebhookGate(redis: RedisServer, webhookId: string, at: int) returns (duplicate: bool)
    requires redis.Valid()
    modifies redis
    ensures redis.Valid()
    ensures webhookId == "" ==> !duplicate && redis.trace == old(redis.trace)
    ensures webhookId != "" ==>
              var key := "webhook:idempotent:" + webhookId;
              && redis.trace == old(redis.trace) + [SetNX(key, at, 48 * 3600 * 1_000_000_000)]
              && (duplicate <==> !Passes(redis.trace, |old(redis.trace)|, key))
  {
    if webhookId == "" {
      return false;
    }
    var isNew := redis.DoSetNX("webhook:idempotent:" + webhookId, at, GATE_TTL);
    duplicate := !isNew;
  }
}
