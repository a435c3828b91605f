/**
 Fixed-window limiting by INCR and EXPIRE. A request computes its bucket at one instant; its INCR
 reaches the server up to `delay` later, and the EXPIRE of the first request of a bucket later still,
 or never. How long must the time to live be?
 */
module RateLimit {
  import opened Redis
  import Arithmetic

  /** Nanoseconds, like time.Duration. */
  const SECOND: int := 1_000_000_000

  /** The bucket as the middleware computes it: whole seconds since the epoch by whole seconds of window. */
  function BucketOf(now: nat, window: int): nat {
    var windowSec := window / SECOND;
    if windowSec < 1 then now / SECOND else now / SECOND / windowSec
  }

  /** How long a bucket is: the window cut to whole seconds, but one second at least. */
  function BucketLength(window: int): (length: int)
    requires window > 0
    ensures length >= SECOND
  {
    if window / SECOND < 1 then SECOND else window / SECOND * SECOND
  }

  /** EXPIRE takes whole seconds: the client cuts a time to live towards zero, but sends one second for less than one. */
  function SentTTL(ttl: int): (sent: int)
    ensures ttl > 0 ==> sent >= SECOND
    ensures ttl % SECOND == 0 ==> sent == ttl
  {
    if 0 < ttl < SECOND then SECOND
    else if ttl < 0 then -(-ttl / SECOND * SECOND)
    else ttl / SECOND * SECOND
  }

  /** The buckets tile time: bucket b is the interval of one bucket length from b bucket lengths on. */
  lemma BucketTiles(now: nat, window: int)
    requires window > 0
    ensures var b, length := BucketOf(now, window), BucketLength(window); b * length <= now < (b + 1) * length
  {
    var w := if window / SECOND < 1 then 1 else window / SECOND;
    var b, length := BucketOf(now, window), BucketLength(window);
    Arithmetic.DivDiv(now, SECOND, w);
    assert length == SECOND * w && b == now / length;
    assert now == length * b + now % length;
    assert (b + 1) * length == b * length + length;
  }

  // ---------- one bucket under delays ----------

  /** An INCR for bucket b: the bucket was computed inside the window, at most `delay` before. */
  ghost predicate InTime(at: int, b: nat, window: int, delay: nat) {
    b * window <= at < (b + 1) * window + delay
  }

  /**
   What a run of the limiter does to the key of bucket b: INCRs in time, and EXPIREs, each sent by a
   request whose own INCR was answered with 1, at any time after it.
   */
  ghost predicate BucketTrace(trace: seq<Command>, key: string, b: nat, window: int, ttl: int, delay: nat) {
    forall j :: 0 <= j < |trace| && trace[j].key == key ==>
      || (trace[j].Incr? && InTime(trace[j].at, b, window, delay))
      || (trace[j].Expire? && trace[j].ttl == ttl && FollowsFirst(trace, j, key))
  }

  ghost predicate FollowsFirst(trace: seq<Command>, j: nat, key: string)
    requires j < |trace|
  {
    exists i :: 0 <= i < j && trace[i].Incr? && trace[i].key == key && trace[i].at <= trace[j].at && ReplyAt(trace, i) == 1
  }

  /** No run admits more than `max` requests of one bucket. */
  ghost predicate LimitHolds(window: int, ttl: int, delay: nat, max: nat) {
    forall trace: seq<Command>, key: string, b: nat :: BucketTrace(trace, key, b, window, ttl, delay) ==> Admitted(trace, key, max) <= max
  }

  lemma BucketIsKeptAlive(trace: seq<Command>, key: string, b: nat, window: int, ttl: int, delay: nat)
    requires window > 0 && window + delay <= ttl && BucketTrace(trace, key, b, window, ttl, delay)
    ensures KeptAlive(trace, key, (b + 1) * window + delay)
  {
    assert (b + 1) * window == b * window + window;
    forall j | 0 <= j < |trace| && trace[j].key == key && trace[j].Expire?
      ensures trace[j].at + trace[j].ttl >= (b + 1) * window + delay
    {
      assert FollowsFirst(trace, j, key);
      var i :| 0 <= i < j && trace[i].Incr? && trace[i].key == key && trace[i].at <= trace[j].at && ReplyAt(trace, i) == 1;
      assert InTime(trace[i].at, b, window, delay);
    }
  }

  function Repeat(n: nat, c: Command): (r: seq<Command>)
    ensures |r| == n
    ensures forall i :: 0 <= i < n ==> r[i] == c
  {
    if n == 0 then [] else Repeat(n - 1, c) + [c]
  }

  /** The run that breaks a short time to live: fill the bucket at its start, then come back when the key is gone. */
  function Comeback(key: string, ttl: int, max: nat): seq<Command>
    requires max >= 1
  {
    [Incr(key, 0), Expire(key, 0, ttl)] + Repeat(max - 1, Incr(key, 0)) + [Incr(key, ttl)]
  }

  lemma OpenedAndExpiring(key: string, ttl: int, max: nat)
    requires max >= 1
    ensures var start := [Incr(key, 0), Expire(key, 0, ttl)];
            Replay(start) == map[key := Entry(1, At(ttl))] && Admitted(start, key, max) == 1
    ensures ReplyAt([Incr(key, 0), Expire(key, 0, ttl)], 0) == 1
  {
    var first := [Incr(key, 0)];
    assert [Incr(key, 0), Expire(key, 0, ttl)] == first + [Expire(key, 0, ttl)];
    assert first == [] + [Incr(key, 0)];
    assert [Incr(key, 0), Expire(key, 0, ttl)][..0] == [];
    ReplayAppend([], Incr(key, 0));
    ReplayAppend(first, Expire(key, 0, ttl));
    CountsAppend([], Incr(key, 0), key, max);
    CountsAppend(first, Expire(key, 0, ttl), key, max);
  }

  /** One more INCR while the key lives. */
  lemma OneMore(before: seq<Command>, key: string, n: nat, ttl: int, max: nat)
    requires Replay(before) == map[key := Entry(n, At(ttl))] && Admitted(before, key, max) == n && ttl > 0 && n < max
    ensures Replay(before + [Incr(key, 0)]) == map[key := Entry(n + 1, At(ttl))]
    ensures Admitted(before + [Incr(key, 0)], key, max) == n + 1
  {
    ReplayAppend(before, Incr(key, 0));
    CountsAppend(before, Incr(key, 0), key, max);
  }

  lemma {:induction false} FillingUp(key: string, ttl: int, n: nat, max: nat)
    requires ttl > 0 && n < max
    ensures var trace := [Incr(key, 0), Expire(key, 0, ttl)] + Repeat(n, Incr(key, 0));
            Replay(trace) == map[key := Entry(n + 1, At(ttl))] && Admitted(trace, key, max) == n + 1
  {
    var start := [Incr(key, 0), Expire(key, 0, ttl)];
    if n == 0 {
      OpenedAndExpiring(key, ttl, max);
      assert start + Repeat(0, Incr(key, 0)) == start;
    } else {
      FillingUp(key, ttl, n - 1, max);
      var before := start + Repeat(n - 1, Incr(key, 0));
      assert start + Repeat(n, Incr(key, 0)) == before + [Incr(key, 0)];
      OneMore(before, key, n, ttl, max);
    }
  }

  lemma ComebackIsAdmitted(key: string, ttl: int, max: nat)
    requires ttl > 0 && max >= 1
    ensures Admitted(Comeback(key, ttl, max), key, max) == max + 1
  {
    FillingUp(key, ttl, max - 1, max);
    var before := [Incr(key, 0), Expire(key, 0, ttl)] + Repeat(max - 1, Incr(key, 0));
    CountsAppend(before, Incr(key, ttl), key, max);
  }

  lemma ComebackIsARun(key: string, window: int, ttl: int, delay: nat, max: nat)
    requires 0 < ttl < window + delay && max >= 1
    ensures BucketTrace(Comeback(key, ttl, max), key, 0, window, ttl, delay)
  {
    var trace := Comeback(key, ttl, max);
    assert trace[..0] == [] && trace[0] == Incr(key, 0);
    assert ReplyAt(trace, 0) == 1;
    forall j | 0 <= j < |trace| && trace[j].key == key
      ensures (trace[j].Incr? && InTime(trace[j].at, 0, window, delay)) || (trace[j].Expire? && trace[j].ttl == ttl && FollowsFirst(trace, j, key))
    {
      if j == 1 {
        assert FollowsFirst(trace, 1, key);
      } else {
        assert trace[j] == Incr(key, 0) || trace[j] == Incr(key, ttl);
      }
    }
  }

  /**
   The limit holds in every run if and only if the time to live covers the window and the delay:
   a counter can restart inside its own bucket exactly when a delayed INCR can outlive its key.
   */
  lemma LimitHoldsIff(window: int, ttl: int, delay: nat, max: nat)
    requires window > 0 && ttl > 0 && max >= 1
    ensures LimitHolds(window, ttl, delay, max) <==> window + delay <= ttl
  {
    if window + delay <= ttl {
      forall trace: seq<Command>, key: string, b: nat | BucketTrace(trace, key, b, window, ttl, delay)
        ensures Admitted(trace, key, max) <= max
      {
        BucketIsKeptAlive(trace, key, b, window, ttl, delay);
        FirstMaxAreAdmitted(trace, key, (b + 1) * window + delay, max);
      }
    } else {
      ComebackIsARun("k", window, ttl, delay, max);
      ComebackIsAdmitted("k", ttl, max);
    }
  }

  /** Below one second both the bucket and the time to live are one second. */
  lemma ShortWindow(window: int)
    requires 0 < window < SECOND
    ensures BucketLength(window) == SECOND && SentTTL(2 * window) == SECOND
  {
    Arithmetic.QuotientUnique(SECOND, window / SECOND, window % SECOND, 0, window);
    BelowTwoSeconds(2 * window);
  }

  lemma BelowTwoSeconds(ttl: int)
    requires 0 < ttl < 2 * SECOND
    ensures SentTTL(ttl) == SECOND
  {
    if ttl >= SECOND {
      Arithmetic.QuotientUnique(SECOND, ttl / SECOND, ttl % SECOND, 1, ttl - SECOND);
    }
  }

  lemma WholeSeconds(n: int)
    requires n >= SECOND
    ensures n / SECOND >= 1 && n / SECOND * SECOND <= n < n / SECOND * SECOND + SECOND
  {
    var q, r := n / SECOND, n % SECOND;
    assert n == SECOND * q + r;
  }

  lemma LongWindow(window: int)
    requires window >= SECOND
    ensures BucketLength(window) <= SentTTL(2 * window)
  {
    WholeSeconds(window);
    WholeSeconds(2 * window);
    var w, v := window / SECOND, 2 * window / SECOND;
    assert BucketLength(window) == w * SECOND && SentTTL(2 * window) == v * SECOND;
  }

  lemma WholeWindow(window: int)
    requires window > 0 && window % SECOND == 0
    ensures SentTTL(2 * window) == 2 * window && BucketLength(window) == window
  {
    var w := window / SECOND;
    assert window == SECOND * w;
    Arithmetic.QuotientUnique(SECOND, 2 * window / SECOND, 2 * window % SECOND, 2 * w, 0);
  }

  /** For any window the key lives at least as long as its bucket. */
  lemma TTLCoversBucket(window: int)
    requires window > 0
    ensures BucketLength(window) <= SentTTL(2 * window)
    ensures window < SECOND ==> SentTTL(2 * window) == BucketLength(window)
    ensures window % SECOND == 0 ==> SentTTL(2 * window) == 2 * window && BucketLength(window) == window
  {
    hide BucketLength, SentTTL;
    if window < SECOND {
      ShortWindow(window);
    } else {
      LongWindow(window);
    }
    if window % SECOND == 0 {
      WholeWindow(window);
    }
  }

  /**
   For any window, RateLimit's limit holds exactly for delays that fit between bucket and time to live:
   none below a second, and one whole window for windows of whole seconds.
   */
  lemma RateLimitTolerance(window: int, delay: nat, max: nat)
    requires window > 0 && max >= 1
    ensures LimitHolds(BucketLength(window), SentTTL(2 * window), delay, max)
       <==> delay <= SentTTL(2 * window) - BucketLength(window)
    ensures LimitHolds(BucketLength(window), SentTTL(2 * window), 0, max)
    ensures window < SECOND ==> (LimitHolds(BucketLength(window), SentTTL(2 * window), delay, max) <==> delay == 0)
  {
    hide LimitHolds, BucketLength, SentTTL;
    TTLCoversBucket(window);
    LimitHoldsIff(BucketLength(window), SentTTL(2 * window), delay, max);
    LimitHoldsIff(BucketLength(window), SentTTL(2 * window), 0, max);
  }

  /** Whole-second windows: the limit survives any delay up to one window, and no more. */
  lemma RateLimitToleratesOneWindow(window: int, delay: nat, max: nat)
    requires window > 0 && window % SECOND == 0 && max >= 1
    ensures LimitHolds(window, SentTTL(2 * window), delay, max) <==> delay <= window
  {
    hide LimitHolds;
    TTLCoversBucket(window);
    LimitHoldsIff(window, 2 * window, delay, max);
  }

  /** IPRateLimit keeps its keys for one window: for whole seconds its limit needs every INCR inside its own bucket. */
  lemma IPRateLimitToleratesNone(window: int, delay: nat, max: nat)
    requires window > 0 && window % SECOND == 0 && max >= 1
    ensures LimitHolds(window, SentTTL(window), delay, max) <==> delay == 0
  {
    hide LimitHolds;
    LimitHoldsIff(window, window, delay, max);
  }

  const DAY: int := 86400 * SECOND
  const QUOTA_TTL: int := 86400 * 2 * SECOND

  /** The daily quota, kept two days, survives any delay up to a whole day. */
  lemma QuotaToleratesOneDay(delay: nat, limit: nat)
    requires limit >= 1
    ensures LimitHolds(DAY, QUOTA_TTL, delay, limit) <==> delay <= DAY
  {
    LimitHoldsIff(DAY, QUOTA_TTL, delay, limit);
  }
}
