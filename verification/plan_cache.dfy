/**
 The in-memory cache of shop plans. Any number of requests load, check, delete, read the database and
 store at the same time, and plans change in between; still every answer is that of a plan the
 database held recently.
 */
module PlanCache {

  const SECOND: int := 1_000_000_000
  const PLAN_CACHE_TTL: int := 5 * 60 * SECOND

  datatype Entry = Entry(plan: string, expireAt: int)

  /** What a caller of isProPlan does next. */
  datatype Pc =
    | Idle
    | Loaded(shop: string, entry: Entry)
    | Expired(shop: string)
    | Missed(shop: string)
    | Fetched(shop: string, plan: string, readAt: int)
    | Stamped(shop: string, plan: string, readAt: int, expireAt: int)

  datatype Answer = Answer(at: int, shop: string, isPro: bool, failed: bool)

  datatype State = State(plans: map<string, string>, cache: map<string, Entry>, pcs: map<nat, Pc>, answers: seq<Answer>)

  datatype Action =
    | SetPlan(shop: string, plan: string)
    | RemoveShop(shop: string)
    | Load(caller: nat, shop: string)
    | Check(caller: nat)
    | Delete(caller: nat)
    | Query(caller: nat, ok: bool)
    | Stamp(caller: nat)
    | Store(caller: nat)

  datatype Event = Event(at: int, action: Action)

  /** A shop that is not in the table scans into an empty plan. */
  function PlanOf(plans: map<string, string>, shop: string): string {
    if shop in plans then plans[shop] else ""
  }

  predicate IsPro(plan: string) {
    plan == "growth" || plan == "pro"
  }

  function PcOf(s: State, i: nat): Pc {
    if i in s.pcs then s.pcs[i] else Idle
  }

  function Goto(s: State, i: nat, pc: Pc): State {
    s.(pcs := s.pcs[i := pc])
  }

  function Reply(s: State, i: nat, a: Answer): State {
    Goto(s, i, Idle).(answers := s.answers + [a])
  }

  function DoCheck(s: State, i: nat, at: int): State
    requires PcOf(s, i).Loaded?
  {
    var pc := PcOf(s, i);
    if at < pc.entry.expireAt then Reply(s, i, Answer(at, pc.shop, IsPro(pc.entry.plan), false))
    else Goto(s, i, Expired(pc.shop))
  }

  function DoQuery(s: State, i: nat, at: int, ok: bool): State
    requires PcOf(s, i).Missed?
  {
    var shop := PcOf(s, i).shop;
    if ok then Goto(s, i, Fetched(shop, PlanOf(s.plans, shop), at)) else Reply(s, i, Answer(at, shop, false, true))
  }

  function DoStore(s: State, i: nat, at: int): State
    requires PcOf(s, i).Stamped?
  {
    var pc := PcOf(s, i);
    Reply(s, i, Answer(at, pc.shop, IsPro(pc.plan), false)).(cache := s.cache[pc.shop := Entry(pc.plan, pc.expireAt)])
  }

  /** A step that is not its caller's turn does nothing. */
  function Apply(s: State, e: Event): State {
    match e.action
    case SetPlan(shop, plan) => s.(plans := s.plans[shop := plan])
    case RemoveShop(shop) => s.(plans := s.plans - {shop})
    case Load(i, shop) =>
      if !PcOf(s, i).Idle? then s
      else Goto(s, i, if shop in s.cache then Loaded(shop, s.cache[shop]) else Missed(shop))
    case Check(i) => if PcOf(s, i).Loaded? then DoCheck(s, i, e.at) else s
    case Delete(i) =>
      if PcOf(s, i).Expired? then Goto(s, i, Missed(PcOf(s, i).shop)).(cache := s.cache - {PcOf(s, i).shop}) else s
    case Query(i, ok) => if PcOf(s, i).Missed? then DoQuery(s, i, e.at, ok) else s
    case Stamp(i) =>
      if PcOf(s, i).Fetched? then
        Goto(s, i, Stamped(PcOf(s, i).shop, PcOf(s, i).plan, PcOf(s, i).readAt, e.at + PLAN_CACHE_TTL))
      else s
    case Store(i) => if PcOf(s, i).Stamped? then DoStore(s, i, e.at) else s
  }

  function After(run: seq<Event>): State {
    if run == [] then State(map[], map[], map[], []) else Apply(After(run[..|run| - 1]), run[|run| - 1])
  }

  lemma AfterAppend(run: seq<Event>, e: Event)
    ensures After(run + [e]) == Apply(After(run), e)
  {
    assert (run + [e])[..|run|] == run;
  }

  predicate Monotone(run: seq<Event>) {
    forall j, k :: 0 <= j < k < |run| ==> run[j].at <= run[k].at
  }

  /** Whether the store in this event, if it is one, comes at most `delay` after its read. */
  predicate InTime(s: State, e: Event, delay: int) {
    e.action.Store? && PcOf(s, e.action.caller).Stamped? ==> e.at - PcOf(s, e.action.caller).readAt <= delay
  }

  /** Every database read that reaches its store does so within `delay`. */
  predicate Prompt(run: seq<Event>, delay: int) {
    run == [] || (Prompt(run[..|run| - 1], delay) && InTime(After(run[..|run| - 1]), run[|run| - 1], delay))
  }

  // ---------- where an answer comes from ----------

  /** When event `k` happened, the database held this plan for the shop. */
  predicate Held(run: seq<Event>, k: int, shop: string, plan: string) {
    0 <= k < |run| && PlanOf(After(run[..k]).plans, shop) == plan
  }

  /** The database held this plan at an instant of the run not before `from` and not after `to`. */
  ghost predicate HeldBetween(run: seq<Event>, shop: string, plan: string, from: int, to: int) {
    exists k :: Held(run, k, shop, plan) && from <= run[k].at <= to
  }

  /** The database held this plan at an instant of the run not before `from`. */
  ghost predicate HeldSince(run: seq<Event>, shop: string, plan: string, from: int) {
    exists k :: Held(run, k, shop, plan) && from <= run[k].at
  }

  lemma HeldStays(run: seq<Event>, e: Event, shop: string, plan: string, from: int)
    requires HeldSince(run, shop, plan, from)
    ensures HeldSince(run + [e], shop, plan, from)
  {
    var k :| Held(run, k, shop, plan) && from <= run[k].at;
    assert (run + [e])[..k] == run[..k];
    assert Held(run + [e], k, shop, plan);
  }

  lemma HeldNow(run: seq<Event>, e: Event, shop: string)
    ensures HeldSince(run + [e], shop, PlanOf(After(run).plans, shop), e.at)
  {
    assert (run + [e])[..|run|] == run;
    assert Held(run + [e], |run|, shop, PlanOf(After(run).plans, shop));
  }

  ghost predicate EntryOk(run: seq<Event>, shop: string, entry: Entry, delay: int) {
    HeldSince(run, shop, entry.plan, entry.expireAt - PLAN_CACHE_TTL - delay)
  }

  ghost predicate PcOk(run: seq<Event>, pc: Pc, delay: int) {
    match pc
    case Loaded(shop, entry) => EntryOk(run, shop, entry, delay)
    case Fetched(shop, plan, readAt) => HeldSince(run, shop, plan, readAt)
    case Stamped(shop, plan, readAt, expireAt) =>
      run != [] && HeldSince(run, shop, plan, readAt) && expireAt <= run[|run| - 1].at + PLAN_CACHE_TTL
    case _ => true
  }

  /** The answer is that of a plan the database held less than the time to live and the delay ago. */
  ghost predicate Recent(run: seq<Event>, a: Answer, delay: int) {
    a.failed || exists plan :: IsPro(plan) == a.isPro && HeldBetween(run, a.shop, plan, a.at - PLAN_CACHE_TTL - delay + 1, a.at)
  }

  ghost predicate Inv(run: seq<Event>, s: State, delay: int) {
    && (forall shop :: shop in s.cache ==> EntryOk(run, shop, s.cache[shop], delay))
    && (forall i :: i in s.pcs ==> PcOk(run, s.pcs[i], delay))
    && (forall n :: 0 <= n < |s.answers| ==> Recent(run, s.answers[n], delay))
  }

  lemma PcStaysOk(run: seq<Event>, e: Event, pc: Pc, delay: int)
    requires Monotone(run + [e]) && PcOk(run, pc, delay)
    ensures PcOk(run + [e], pc, delay)
  {
    hide HeldSince;
    match pc
    case Loaded(shop, entry) => HeldStays(run, e, shop, entry.plan, entry.expireAt - PLAN_CACHE_TTL - delay);
    case Fetched(shop, plan, readAt) => HeldStays(run, e, shop, plan, readAt);
    case Stamped(shop, plan, readAt, expireAt) =>
      HeldStays(run, e, shop, plan, readAt);
      assert (run + [e])[|run| - 1].at <= (run + [e])[|run|].at;
    case _ =>
  }

  lemma HeldBetweenStays(run: seq<Event>, e: Event, shop: string, plan: string, from: int, to: int)
    requires HeldBetween(run, shop, plan, from, to)
    ensures HeldBetween(run + [e], shop, plan, from, to)
  {
    var k :| Held(run, k, shop, plan) && from <= run[k].at <= to;
    assert (run + [e])[..k] == run[..k];
    assert Held(run + [e], k, shop, plan);
  }

  lemma RecentStays(run: seq<Event>, e: Event, a: Answer, delay: int)
    requires Recent(run, a, delay)
    ensures Recent(run + [e], a, delay)
  {
    hide HeldBetween;
    if !a.failed {
      var plan :| IsPro(plan) == a.isPro && HeldBetween(run, a.shop, plan, a.at - PLAN_CACHE_TTL - delay + 1, a.at);
      HeldBetweenStays(run, e, a.shop, plan, a.at - PLAN_CACHE_TTL - delay + 1, a.at);
    }
  }

  /** Time passes and the invariant still holds of the state before the step. */
  lemma InvStays(run: seq<Event>, s: State, e: Event, delay: int)
    requires Inv(run, s, delay) && Monotone(run + [e])
    ensures Inv(run + [e], s, delay)
  {
    hide PcOk, Recent, HeldSince;
    forall shop | shop in s.cache ensures EntryOk(run + [e], shop, s.cache[shop], delay) {
      HeldStays(run, e, shop, s.cache[shop].plan, s.cache[shop].expireAt - PLAN_CACHE_TTL - delay);
    }
    forall i | i in s.pcs ensures PcOk(run + [e], s.pcs[i], delay) {
      PcStaysOk(run, e, s.pcs[i], delay);
    }
    forall n | 0 <= n < |s.answers| ensures Recent(run + [e], s.answers[n], delay) {
      RecentStays(run, e, s.answers[n], delay);
    }
  }

  lemma SinceEarlier(run: seq<Event>, shop: string, plan: string, from: int, earlier: int)
    requires HeldSince(run, shop, plan, from) && earlier <= from
    ensures HeldSince(run, shop, plan, earlier)
  {
    var k :| Held(run, k, shop, plan) && from <= run[k].at;
    assert earlier <= run[k].at;
  }

  lemma GotoInv(run: seq<Event>, s: State, i: nat, pc: Pc, delay: int)
    requires Inv(run, s, delay) && PcOk(run, pc, delay)
    ensures Inv(run, Goto(s, i, pc), delay)
  {
    hide PcOk, Recent, HeldSince;
  }

  lemma ReplyInv(run: seq<Event>, s: State, i: nat, a: Answer, delay: int)
    requires Inv(run, s, delay) && Recent(run, a, delay)
    ensures Inv(run, Reply(s, i, a), delay)
  {
    hide Recent, HeldSince, HeldBetween;
  }

  /** Nothing in the run happens after `at`. */
  predicate NoLater(run: seq<Event>, at: int) {
    forall k :: 0 <= k < |run| ==> run[k].at <= at
  }

  lemma RecentAnswer(run: seq<Event>, shop: string, plan: string, from: int, at: int, delay: int)
    requires HeldSince(run, shop, plan, from) && at - PLAN_CACHE_TTL - delay < from && NoLater(run, at)
    ensures Recent(run, Answer(at, shop, IsPro(plan), false), delay)
  {
    hide After;
    var k :| Held(run, k, shop, plan) && from <= run[k].at;
    assert HeldBetween(run, shop, plan, at - PLAN_CACHE_TTL - delay + 1, at);
  }

  lemma NewestIsLast(run: seq<Event>, e: Event)
    requires Monotone(run + [e])
    ensures NoLater(run + [e], e.at)
  {
    var longer := run + [e];
    assert longer[|run|] == e;
    forall k | 0 <= k < |longer| ensures longer[k].at <= e.at {
      assert k < |run| ==> longer[k].at <= longer[|run|].at;
    }
  }

  lemma CheckInv(run: seq<Event>, s: State, i: nat, at: int, delay: int)
    requires Inv(run, s, delay) && PcOf(s, i).Loaded? && NoLater(run, at)
    ensures Inv(run, DoCheck(s, i, at), delay)
  {
    hide HeldSince, HeldBetween, Inv;
    var pc := PcOf(s, i);
    CallerOk(run, s, i, delay);
    if at < pc.entry.expireAt {
      RecentAnswer(run, pc.shop, pc.entry.plan, pc.entry.expireAt - PLAN_CACHE_TTL - delay, at, delay);
      ReplyInv(run, s, i, Answer(at, pc.shop, IsPro(pc.entry.plan), false), delay);
    } else {
      GotoInv(run, s, i, Expired(pc.shop), delay);
    }
  }

  lemma CallerOk(run: seq<Event>, s: State, i: nat, delay: int)
    requires Inv(run, s, delay)
    ensures PcOk(run, PcOf(s, i), delay)
  {
  }

  lemma StoreInv(run: seq<Event>, s: State, i: nat, at: int, delay: int)
    requires Inv(run, s, delay) && PcOf(s, i).Stamped? && run != [] && run[|run| - 1].at == at
    requires at - PcOf(s, i).readAt <= delay && NoLater(run, at)
    ensures Inv(run, DoStore(s, i, at), delay)
  {
    hide HeldSince, HeldBetween, Recent, Inv;
    var pc := PcOf(s, i);
    var a := Answer(at, pc.shop, IsPro(pc.plan), false);
    CallerOk(run, s, i, delay);
    RecentAnswer(run, pc.shop, pc.plan, pc.readAt, at, delay);
    ReplyInv(run, s, i, a, delay);
    SinceEarlier(run, pc.shop, pc.plan, pc.readAt, pc.expireAt - PLAN_CACHE_TTL - delay);
    CacheInv(run, Reply(s, i, a), pc.shop, Entry(pc.plan, pc.expireAt), delay);
  }

  lemma CacheInv(run: seq<Event>, s: State, shop: string, entry: Entry, delay: int)
    requires Inv(run, s, delay) && EntryOk(run, shop, entry, delay)
    ensures Inv(run, s.(cache := s.cache[shop := entry]), delay)
  {
    hide HeldSince, HeldBetween, Recent, PcOk, EntryOk;
  }

  lemma LoadInv(run: seq<Event>, s: State, i: nat, shop: string, delay: int)
    requires Inv(run, s, delay)
    ensures Inv(run, Goto(s, i, if shop in s.cache then Loaded(shop, s.cache[shop]) else Missed(shop)), delay)
  {
    hide HeldSince, HeldBetween, Recent, EntryOk;
    GotoInv(run, s, i, if shop in s.cache then Loaded(shop, s.cache[shop]) else Missed(shop), delay);
  }

  lemma DeleteInv(run: seq<Event>, s: State, i: nat, shop: string, delay: int)
    requires Inv(run, s, delay)
    ensures Inv(run, Goto(s, i, Missed(shop)).(cache := s.cache - {shop}), delay)
  {
    hide HeldSince, HeldBetween, Recent, EntryOk;
    GotoInv(run, s, i, Missed(shop), delay);
  }

  lemma QueryInv(run: seq<Event>, e: Event, s: State, i: nat, ok: bool, delay: int)
    requires Inv(run + [e], s, delay) && s == After(run) && PcOf(s, i).Missed?
    ensures Inv(run + [e], DoQuery(s, i, e.at, ok), delay)
  {
    hide HeldSince, HeldBetween, Inv;
    var shop := PcOf(s, i).shop;
    if ok {
      HeldNow(run, e, shop);
      GotoInv(run + [e], s, i, Fetched(shop, PlanOf(s.plans, shop), e.at), delay);
    } else {
      ReplyInv(run + [e], s, i, Answer(e.at, shop, false, true), delay);
    }
  }

  lemma StampInv(run: seq<Event>, s: State, i: nat, delay: int)
    requires Inv(run, s, delay) && PcOf(s, i).Fetched? && run != []
    ensures var pc := PcOf(s, i);
            Inv(run, Goto(s, i, Stamped(pc.shop, pc.plan, pc.readAt, run[|run| - 1].at + PLAN_CACHE_TTL)), delay)
  {
    hide HeldSince, HeldBetween, Inv;
    var pc := PcOf(s, i);
    CallerOk(run, s, i, delay);
    GotoInv(run, s, i, Stamped(pc.shop, pc.plan, pc.readAt, run[|run| - 1].at + PLAN_CACHE_TTL), delay);
  }

  lemma StepInv(run: seq<Event>, e: Event, delay: int)
    requires Inv(run, After(run), delay) && Monotone(run + [e]) && InTime(After(run), e, delay)
    ensures Inv(run + [e], Apply(After(run), e), delay)
  {
    hide Inv, After, Monotone, NoLater, DoCheck, DoQuery, DoStore;
    var s, longer := After(run), run + [e];
    NewestIsLast(run, e);
    InvStays(run, s, e, delay);
    match e.action
    case SetPlan(shop, plan) => PlansAside(longer, s, s.plans[shop := plan], delay);
    case RemoveShop(shop) => PlansAside(longer, s, s.plans - {shop}, delay);
    case Load(i, shop) => LoadInv(longer, s, i, shop, delay);
    case Check(i) => if PcOf(s, i).Loaded? { CheckInv(longer, s, i, e.at, delay); }
    case Delete(i) => if PcOf(s, i).Expired? { DeleteInv(longer, s, i, PcOf(s, i).shop, delay); }
    case Query(i, ok) => if PcOf(s, i).Missed? { QueryInv(run, e, s, i, ok, delay); }
    case Stamp(i) => if PcOf(s, i).Fetched? { StampInv(longer, s, i, delay); }
    case Store(i) => if PcOf(s, i).Stamped? { StoreInv(longer, s, i, e.at, delay); }
  }

  /** What the table of shops holds now says nothing about what is cached. */
  lemma PlansAside(run: seq<Event>, s: State, plans: map<string, string>, delay: int)
    requires Inv(run, s, delay)
    ensures Inv(run, s.(plans := plans), delay)
  {
    hide HeldSince, HeldBetween, Recent, EntryOk, PcOk;
  }

  lemma PromptAppend(run: seq<Event>, e: Event, delay: int)
    ensures Prompt(run + [e], delay) <==> Prompt(run, delay) && InTime(After(run), e, delay)
  {
    assert (run + [e])[..|run|] == run;
  }

  lemma MonotonePrefix(run: seq<Event>, e: Event)
    requires Monotone(run + [e])
    ensures Monotone(run)
  {
    assert forall k :: 0 <= k < |run| ==> (run + [e])[k] == run[k];
  }

  lemma InitInv(delay: int)
    ensures Inv([], After([]), delay)
  {
  }

  lemma {:induction false} ReachableInv(run: seq<Event>, delay: int)
    requires Monotone(run) && Prompt(run, delay)
    ensures Inv(run, After(run), delay)
    decreases |run|
  {
    hide *;
    if run == [] {
      InitInv(delay);
    } else {
      var before, e := run[..|run| - 1], run[|run| - 1];
      assert before + [e] == run;
      PromptAppend(before, e, delay);
      MonotonePrefix(before, e);
      AfterAppend(before, e);
      ReachableInv(before, delay);
      StepInv(before, e, delay);
    }
  }

  // ---------- the results ----------

  /** The answer is the test of a plan that the database held less than `bound` before the answer. */
  ghost predicate HeldWithin(run: seq<Event>, a: Answer, bound: int) {
    exists plan, k :: IsPro(plan) == a.isPro && Held(run, k, a.shop, plan) && a.at - run[k].at < bound && run[k].at <= a.at
  }

  lemma RecentIsWithin(run: seq<Event>, a: Answer, delay: int)
    requires Recent(run, a, delay) && !a.failed
    ensures HeldWithin(run, a, PLAN_CACHE_TTL + delay)
  {
    hide After;
    var plan :| IsPro(plan) == a.isPro && HeldBetween(run, a.shop, plan, a.at - PLAN_CACHE_TTL - delay + 1, a.at);
    var k :| Held(run, k, a.shop, plan) && a.at - PLAN_CACHE_TTL - delay + 1 <= run[k].at <= a.at;
    assert a.at - run[k].at < PLAN_CACHE_TTL + delay;
  }

  /**
   If every read that reaches its store does so within `delay`, every answer that is not due to a failed
   query is the test of a plan that the database held at an instant less than the time to live plus the
   delay before the answer, whatever callers, expiries, deletions and plan changes interleave.
   */
  lemma StalenessIsBounded(run: seq<Event>, delay: int)
    requires Monotone(run) && Prompt(run, delay)
    ensures forall n :: 0 <= n < |After(run).answers| && !After(run).answers[n].failed ==>
              HeldWithin(run, After(run).answers[n], PLAN_CACHE_TTL + delay)
  {
    hide HeldWithin, Recent, After;
    ReachableInv(run, delay);
    var answers := After(run).answers;
    forall n | 0 <= n < |answers| && !answers[n].failed ensures HeldWithin(run, answers[n], PLAN_CACHE_TTL + delay) {
      RecentIsWithin(run, answers[n], delay);
    }
  }

  // ---------- which plans are answered yes ----------

  /** The plan last set for the shop by these events; empty before and after a shop is removed. */
  function PlanSet(run: seq<Event>, shop: string): string {
    if run == [] then ""
    else
      var before, a := run[..|run| - 1], run[|run| - 1].action;
      if a.SetPlan? && a.shop == shop then a.plan
      else if a.RemoveShop? && a.shop == shop then ""
      else PlanSet(before, shop)
  }

  lemma {:induction false} PlansAreAsSet(run: seq<Event>, shop: string)
    ensures PlanOf(After(run).plans, shop) == PlanSet(run, shop)
    decreases |run|
  {
    if run != [] {
      var before, e := run[..|run| - 1], run[|run| - 1];
      PlansAreAsSet(before, shop);
      if !ChangesPlans(e) {
        StepKeepsPlans(After(before), e);
      }
    }
  }

  /** Five minutes, in nanoseconds. */
  const FIVE_MINUTES: int := 300_000_000_000

  /** Event `k` lies less than five minutes and the delay before the answer. */
  predicate Lately(run: seq<Event>, k: int, at: int, delay: int) {
    0 <= k < |run| && at - run[k].at < FIVE_MINUTES + delay && run[k].at <= at
  }

  /** All that time the shop was on Growth or Pro. */
  ghost predicate AlwaysPaid(run: seq<Event>, shop: string, at: int, delay: int) {
    forall k :: Lately(run, k, at, delay) ==> PlanSet(run[..k], shop) == "growth" || PlanSet(run[..k], shop) == "pro"
  }

  /** All that time it was on another plan, or gone. */
  ghost predicate NeverPaid(run: seq<Event>, shop: string, at: int, delay: int) {
    forall k :: Lately(run, k, at, delay) ==> PlanSet(run[..k], shop) != "growth" && PlanSet(run[..k], shop) != "pro"
  }

  lemma AnswerFits(run: seq<Event>, a: Answer, delay: int)
    requires HeldWithin(run, a, PLAN_CACHE_TTL + delay)
    ensures AlwaysPaid(run, a.shop, a.at, delay) ==> a.isPro
    ensures NeverPaid(run, a.shop, a.at, delay) ==> !a.isPro
  {
    hide After, PlanSet;
    var plan, k :| IsPro(plan) == a.isPro && Held(run, k, a.shop, plan) && a.at - run[k].at < PLAN_CACHE_TTL + delay && run[k].at <= a.at;
    PlansAreAsSet(run[..k], a.shop);
    assert Lately(run, k, a.at, delay);
  }

  /**
   So with reads stored within `delay`, an answer that is not due to a failed query is yes if the shop was on
   Growth or Pro for the last five minutes and the delay, and no if it was on neither for that time.
   */
  lemma AnswersFollowPlans(run: seq<Event>, delay: int)
    requires Monotone(run) && Prompt(run, delay)
    ensures forall n :: 0 <= n < |After(run).answers| && !After(run).answers[n].failed ==>
              var a := After(run).answers[n];
              && (AlwaysPaid(run, a.shop, a.at, delay) ==> a.isPro)
              && (NeverPaid(run, a.shop, a.at, delay) ==> !a.isPro)
  {
    hide HeldWithin, After, AlwaysPaid, NeverPaid;
    StalenessIsBounded(run, delay);
    var answers := After(run).answers;
    forall n | 0 <= n < |answers| && !answers[n].failed
      ensures AlwaysPaid(run, answers[n].shop, answers[n].at, delay) ==> answers[n].isPro
      ensures NeverPaid(run, answers[n].shop, answers[n].at, delay) ==> !answers[n].isPro
    {
      AnswerFits(run, answers[n], delay);
    }
  }

  // ---------- the bound is exact ----------

  predicate ChangesPlans(e: Event) {
    e.action.SetPlan? || e.action.RemoveShop?
  }

  lemma StepKeepsPlans(s: State, e: Event)
    requires !ChangesPlans(e)
    ensures Apply(s, e).plans == s.plans
  {
  }

  lemma {:induction false} PlansStay(run: seq<Event>, more: seq<Event>)
    requires forall k :: 0 <= k < |more| ==> !ChangesPlans(more[k])
    ensures After(run + more).plans == After(run).plans
    decreases |more|
  {
    hide Apply, After;
    if more == [] {
      assert run + more == run;
    } else {
      var init, last := more[..|more| - 1], more[|more| - 1];
      PlansStay(run, init);
      AfterAppend(run + init, last);
      StepKeepsPlans(After(run + init), last);
      assert (run + init) + [last] == run + more;
    }
  }

  lemma Then(run: seq<Event>, e: Event, s: State) returns (longer: seq<Event>)
    requires After(run) == s
    ensures longer == run + [e] && After(longer) == Apply(s, e)
  {
    AfterAppend(run, e);
    longer := run + [e];
  }

  /** A plan is read, changed right afterwards, and still stored. */
  lemma StoreOfOldPlan(delay: nat) returns (run: seq<Event>)
    ensures run == [Event(0, SetPlan("s", "pro")), Event(0, Load(1, "s")), Event(0, Query(1, true)),
                    Event(0, SetPlan("s", "free")), Event(delay, Stamp(1))]
    ensures After(run[..4]).plans == map["s" := "free"]
    ensures After(run) == State(map["s" := "free"], map[], map[1 := Stamped("s", "pro", 0, delay + PLAN_CACHE_TTL)], [])
    ensures Prompt(run, delay)
  {
    run := Then([], Event(0, SetPlan("s", "pro")), State(map[], map[], map[], []));
    run := Then(run, Event(0, Load(1, "s")), State(map["s" := "pro"], map[], map[], []));
    run := Then(run, Event(0, Query(1, true)), State(map["s" := "pro"], map[], map[1 := Missed("s")], []));
    run := Then(run, Event(0, SetPlan("s", "free")), State(map["s" := "pro"], map[], map[1 := Fetched("s", "pro", 0)], []));
    ghost var four := run;
    run := Then(run, Event(delay, Stamp(1)), State(map["s" := "free"], map[], map[1 := Fetched("s", "pro", 0)], []));
    assert run[..4] == four;
    NoStores(run, delay);
  }

  lemma {:induction false} NoStores(run: seq<Event>, delay: int)
    requires forall k :: 0 <= k < |run| ==> !run[k].action.Store?
    ensures Prompt(run, delay)
    decreases |run|
  {
    if run != [] {
      NoStores(run[..|run| - 1], delay);
    }
  }

  lemma AnswerFromOldPlan(stored: seq<Event>, delay: nat) returns (run: seq<Event>)
    requires After(stored) == State(map["s" := "free"], map[], map[1 := Stamped("s", "pro", 0, delay + PLAN_CACHE_TTL)], [])
    requires Prompt(stored, delay)
    ensures var late := delay + PLAN_CACHE_TTL - 1;
            && run == stored + [Event(delay, Store(1)), Event(late, Load(2, "s")), Event(late, Check(2))]
            && |After(run).answers| == 2 && After(run).answers[1] == Answer(late, "s", true, false)
    ensures Prompt(run, delay)
  {
    var late := delay + PLAN_CACHE_TTL - 1;
    var plans, cache := map["s" := "free"], map["s" := Entry("pro", delay + PLAN_CACHE_TTL)];
    var first := Answer(delay, "s", true, false);
    hide Prompt;
    PromptAppend(stored, Event(delay, Store(1)), delay);
    run := Then(stored, Event(delay, Store(1)), After(stored));
    assert After(run) == State(plans, cache, map[1 := Idle], [first]);
    PromptAppend(run, Event(late, Load(2, "s")), delay);
    run := Then(run, Event(late, Load(2, "s")), State(plans, cache, map[1 := Idle], [first]));
    PromptAppend(run, Event(late, Check(2)), delay);
    run := Then(run, Event(late, Check(2)), State(plans, cache, map[1 := Idle, 2 := Loaded("s", cache["s"])], [first]));
  }

  lemma OldPlanWasLeft(run: seq<Event>, a: Answer, delay: nat)
    requires a.at == delay + FIVE_MINUTES - 1 && a.shop == "s" && |run| >= 4
    requires run[0].at == run[1].at == run[2].at == run[3].at == 0 && run[3].action == SetPlan("s", "free")
    requires forall k :: 4 <= k < |run| ==> !ChangesPlans(run[k])
    ensures NeverPaid(run, a.shop, a.at, delay - 1)
  {
    hide PlanSet;
    forall k | Lately(run, k, a.at, delay - 1) ensures PlanSet(run[..k], "s") == "free" {
      assert k >= 4;
      SetPlanStays(run, k);
    }
  }

  lemma {:induction false} SetPlanStays(run: seq<Event>, k: nat)
    requires 4 <= k <= |run| && run[3].action == SetPlan("s", "free")
    requires forall j :: 4 <= j < |run| ==> !ChangesPlans(run[j])
    ensures PlanSet(run[..k], "s") == "free"
    decreases k
  {
    assert run[..k][..k - 1] == run[..k - 1];
    if k > 4 {
      SetPlanStays(run, k - 1);
    }
  }

  /**
   The bound is exact: an answer can be as old as one tick less, though the plan changed at once. It is yes
   although the shop was on no paid plan for the last five minutes and the delay, less one tick.
   */
  lemma StalenessIsReached(delay: nat) returns (run: seq<Event>)
    ensures Monotone(run) && Prompt(run, delay)
    ensures |After(run).answers| == 2 && !After(run).answers[1].failed
    ensures !HeldWithin(run, After(run).answers[1], PLAN_CACHE_TTL + delay - 1)
    ensures After(run).answers[1].isPro && NeverPaid(run, After(run).answers[1].shop, After(run).answers[1].at, delay - 1)
  {
    hide After, Prompt;
    var start := StoreOfOldPlan(delay);
    run := AnswerFromOldPlan(start, delay);
    var a := After(run).answers[1];
    OldPlanWasLeft(run, a, delay);
    forall plan, k | IsPro(plan) && Held(run, k, "s", plan) ensures a.at - run[k].at >= PLAN_CACHE_TTL + delay - 1 {
      if k >= 4 {
        assert run[..k] == start[..4] + run[4..k];
        PlansStay(start[..4], run[4..k]);
      }
    }
  }
}
