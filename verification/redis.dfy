/**
 The Redis commands the middleware uses, with time. Commands are atomic; each carries the instant at
 which the server executes it. A key with a time to live is gone from the instant that time is up.
 */
module Redis {

  datatype Expiry = Never | At(time: int)

  datatype Entry = Entry(count: nat, expiry: Expiry)

  type Store = map<string, Entry>

  datatype Command =
    | Incr(key: string, at: int)
    | Expire(key: string, at: int, ttl: int)
    | SetNX(key: string, at: int, ttl: int)

  predicate Live(store: Store, key: string, now: int) {
    key in store && (store[key].expiry.At? ==> now < store[key].expiry.time)
  }

  /** INCR answers the new count; EXPIRE and SETNX answer 1 if they took effect. */
  function Reply(store: Store, c: Command): nat {
    match c
    case Incr(key, at) => if Live(store, key, at) then store[key].count + 1 else 1
    case Expire(key, at, _) => if Live(store, key, at) then 1 else 0
    case SetNX(key, at, _) => if Live(store, key, at) then 0 else 1
  }

  function Apply(store: Store, c: Command): Store {
    match c
    case Incr(key, at) =>
      store[key := Entry(Reply(store, c), if Live(store, key, at) then store[key].expiry else Never)]
    case Expire(key, at, ttl) =>
      if Live(store, key, at) then store[key := store[key].(expiry := At(at + ttl))] else store
    case SetNX(key, at, ttl) =>
      if Live(store, key, at) then store else store[key := Entry(1, At(at + ttl))]
  }

  function Replay(trace: seq<Command>): Store {
    if trace == [] then map[] else Apply(Replay(trace[..|trace| - 1]), trace[|trace| - 1])
  }

  lemma ReplayAppend(trace: seq<Command>, c: Command)
    ensures Replay(trace + [c]) == Apply(Replay(trace), c)
  {
    assert (trace + [c])[..|trace|] == trace;
  }

  /** The reply that command `i` of the trace received. */
  function ReplyAt(trace: seq<Command>, i: nat): nat
    requires i < |trace|
  {
    Reply(Replay(trace[..i]), trace[i])
  }

  /** How many of the commands are an INCR of this key. */
  function Incrs(trace: seq<Command>, key: string): nat {
    if trace == [] then 0
    else
      var last := trace[|trace| - 1];
      Incrs(trace[..|trace| - 1], key) + if last.Incr? && last.key == key then 1 else 0
  }

  /** How many of these INCRs were answered with at most `max`. */
  function Admitted(trace: seq<Command>, key: string, max: nat): nat {
    if trace == [] then 0
    else
      var before, last := trace[..|trace| - 1], trace[|trace| - 1];
      Admitted(before, key, max) + if last.Incr? && last.key == key && Reply(Replay(before), last) <= max then 1 else 0
  }

  lemma CountsAppend(trace: seq<Command>, c: Command, key: string, max: nat)
    ensures Incrs(trace + [c], key) == Incrs(trace, key) + if c.Incr? && c.key == key then 1 else 0
    ensures Admitted(trace + [c], key, max) == Admitted(trace, key, max)
              + if c.Incr? && c.key == key && Reply(Replay(trace), c) <= max then 1 else 0
  {
    assert (trace + [c])[..|trace|] == trace;
  }

  /**
   Every command on `key` is an INCR before `end`, or an EXPIRE that keeps it alive until `end` at least.
   */
  ghost predicate KeptAlive(trace: seq<Command>, key: string, end: int) {
    forall i :: 0 <= i < |trace| && trace[i].key == key ==>
      || (trace[i].Incr? && trace[i].at < end)
      || (trace[i].Expire? && trace[i].at + trace[i].ttl >= end)
  }

  /** Such a counter never restarts: it holds the number of INCRs so far, and lives until `end`. */
  lemma {:induction false} CounterNeverRestarts(trace: seq<Command>, key: string, end: int)
    requires KeptAlive(trace, key, end)
    ensures var store, n := Replay(trace), Incrs(trace, key);
            && (n == 0 ==> key !in store)
            && (n > 0 ==> key in store && store[key].count == n && (store[key].expiry.At? ==> store[key].expiry.time >= end))
    decreases |trace|
  {
    if trace != [] {
      var before, last := trace[..|trace| - 1], trace[|trace| - 1];
      assert KeptAlive(before, key, end) by {
        forall i | 0 <= i < |before| && before[i].key == key
          ensures (before[i].Incr? && before[i].at < end) || (before[i].Expire? && before[i].at + before[i].ttl >= end)
        {
          assert before[i] == trace[i];
        }
      }
      CounterNeverRestarts(before, key, end);
    }
  }

  /** The k-th INCR of such a key is answered with k, so exactly the first `max` of them are admitted. */
  lemma {:induction false} FirstMaxAreAdmitted(trace: seq<Command>, key: string, end: int, max: nat)
    requires KeptAlive(trace, key, end)
    ensures Admitted(trace, key, max) == if Incrs(trace, key) <= max then Incrs(trace, key) else max
    ensures forall i :: 0 <= i < |trace| && trace[i].Incr? && trace[i].key == key ==>
              ReplyAt(trace, i) == Incrs(trace[..i], key) + 1
    decreases |trace|
  {
    forall i | 0 <= i < |trace| && trace[i].Incr? && trace[i].key == key
      ensures ReplyAt(trace, i) == Incrs(trace[..i], key) + 1
    {
      PrefixKeptAlive(trace, i, key, end);
      CounterNeverRestarts(trace[..i], key, end);
    }
    if trace != [] {
      var before := trace[..|trace| - 1];
      PrefixKeptAlive(trace, |trace| - 1, key, end);
      FirstMaxAreAdmitted(before, key, end, max);
      CounterNeverRestarts(before, key, end);
    }
  }

  lemma PrefixKeptAlive(trace: seq<Command>, n: nat, key: string, end: int)
    requires KeptAlive(trace, key, end) && n <= |trace|
    ensures KeptAlive(trace[..n], key, end)
  {
  }

  // ---------- the idempotency gate ----------

  /** The key is only ever used for SETNX with one time to live, and time does not run backwards. */
  ghost predicate GateTrace(trace: seq<Command>, key: string, ttl: int) {
    && (forall i :: 0 <= i < |trace| && trace[i].key == key ==> trace[i].SetNX? && trace[i].ttl == ttl)
    && (forall i, j :: 0 <= i <= j < |trace| ==> trace[i].at <= trace[j].at)
  }

  predicate Passes(trace: seq<Command>, i: nat, key: string)
    requires i < |trace|
  {
    trace[i].key == key && trace[i].SetNX? && ReplyAt(trace, i) == 1
  }

  /** After a pass the key stays, with an expiry no earlier than that pass plus the time to live. */
  lemma {:induction false} PassBlocks(trace: seq<Command>, i: nat, n: nat, key: string, ttl: int)
    requires GateTrace(trace, key, ttl) && i < n <= |trace| && Passes(trace, i, key)
    ensures var store := Replay(trace[..n]);
            key in store && store[key].expiry.At? && store[key].expiry.time >= trace[i].at + ttl
    decreases n
  {
    assert trace[..n][..n - 1] == trace[..n - 1];
    if i < n - 1 {
      PassBlocks(trace, i, n - 1, key, ttl);
      assert trace[i].at <= trace[n - 1].at;
    }
  }

  /** Two deliveries of one webhook id that both pass are at least the time to live apart. */
  lemma PassesAreApart(trace: seq<Command>, i: nat, j: nat, key: string, ttl: int)
    requires GateTrace(trace, key, ttl) && i < j < |trace| && Passes(trace, i, key) && Passes(trace, j, key)
    ensures trace[j].at >= trace[i].at + ttl
  {
    PassBlocks(trace, i, j, key, ttl);
  }

  /** Conversely, once that time has gone by without a delivery the next one passes. */
  lemma LateDeliveryPasses(trace: seq<Command>, key: string, ttl: int, at: int)
    requires GateTrace(trace, key, ttl)
    requires forall i :: 0 <= i < |trace| && trace[i].key == key ==> trace[i].at + ttl <= at
    ensures Reply(Replay(trace), SetNX(key, at, ttl)) == 1
  {
    GateExpiry(trace, key, ttl, at);
  }

  lemma {:induction false} GateExpiry(trace: seq<Command>, key: string, ttl: int, at: int)
    requires GateTrace(trace, key, ttl)
    requires forall i :: 0 <= i < |trace| && trace[i].key == key ==> trace[i].at + ttl <= at
    ensures !Live(Replay(trace), key, at)
    decreases |trace|
  {
    if trace != [] {
      var before := trace[..|trace| - 1];
      assert forall i :: 0 <= i < |before| ==> before[i] == trace[i];
      GateExpiry(before, key, ttl, at);
    }
  }
}
