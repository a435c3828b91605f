/**
 isProPlan itself, running while other requests use the same cache and plans change.

 An arbitrary `schedule` decides before each step what others do, how much time passes and whether our
 query succeeds; `run` records every step with its instant, and the cache always is what it leaves behind.
 */
module StorefrontChat {
  import opened PlanCache

  /** Steps of others with the time that passes before each, then the time before our own step. */
  datatype Tick = Tick(others: seq<(Action, nat)>, delay: nat, ok: bool)

  predicate Mine(a: Action, me: nat) {
    !a.SetPlan? && !a.RemoveShop? && a.caller == me
  }

  lemma OthersLeaveMe(s: State, e: Event, me: nat)
    requires !Mine(e.action, me)
    ensures PcOf(Apply(s, e), me) == PcOf(s, me)
  {
  }

  /** Time never runs back, and nothing in the run is later than `now`. */
  predicate UpTo(run: seq<Event>, now: int) {
    Monotone(run) && forall k :: 0 <= k < |run| ==> run[k].at <= now
  }

  lemma UpToAppend(run: seq<Event>, now: int, e: Event)
    requires UpTo(run, now) && now <= e.at
    ensures UpTo(run + [e], e.at) && UpTo(run, e.at)
  {
  }

  lemma UpToLater(run: seq<Event>, now: int, later: int)
    requires UpTo(run, now) && now <= later
    ensures UpTo(run, later)
  {
  }

  /** The last answer of a run is as recent as every answer. */
  lemma LastAnswerIsRecent(run: seq<Event>, now: int)
    requires UpTo(run, now) && |After(run).answers| > 0
    ensures var a := After(run).answers[|After(run).answers| - 1];
            forall delay :: Prompt(run, delay) && !a.failed ==> HeldWithin(run, a, PLAN_CACHE_TTL + delay)
  {
    hide After, HeldWithin, Prompt;
    forall delay | Prompt(run, delay) {
      StalenessIsBounded(run, delay);
    }
  }

  /** The last answer follows the plans of the last five minutes and the delay. */
  lemma LastAnswerFollowsPlans(run: seq<Event>, now: int)
    requires UpTo(run, now) && |After(run).answers| > 0
    ensures var a := After(run).answers[|After(run).answers| - 1];
            forall delay :: Prompt(run, delay) && !a.failed ==>
              && (AlwaysPaid(run, a.shop, a.at, delay) ==> a.isPro)
              && (NeverPaid(run, a.shop, a.at, delay) ==> !a.isPro)
  {
    hide After, AlwaysPaid, NeverPaid, Prompt;
    forall delay | Prompt(run, delay) {
      AnswersFollowPlans(run, delay);
    }
  }

  /** At step n `me` finds no entry of the shop, or finds that the one it loaded has expired. */
  ghost predicate MissesAt(run: seq<Event>, n: nat, me: nat, shop: string) {
    n < |run| &&
    var s, e := After(run[..n]), run[n];
    || (e.action == Load(me, shop) && shop !in s.cache)
    || (e.action == Check(me) && PcOf(s, me).Loaded? && PcOf(s, me).shop == shop && PcOf(s, me).entry.expireAt <= e.at)
  }

  lemma MissStays(run: seq<Event>, longer: seq<Event>, n: nat, me: nat, shop: string)
    requires MissesAt(run, n, me, shop) && run <= longer
    ensures MissesAt(longer, n, me, shop)
  {
    assert longer[..n] == run[..n];
  }

  lemma MissesNow(run: seq<Event>, e: Event, me: nat, shop: string)
    requires var s := After(run);
             || (e.action == Load(me, shop) && shop !in s.cache)
             || (e.action == Check(me) && PcOf(s, me).Loaded? && PcOf(s, me).shop == shop && PcOf(s, me).entry.expireAt <= e.at)
    ensures MissesAt(run + [e], |run|, me, shop)
  {
    assert (run + [e])[..|run|] == run;
  }

  class StorefrontChatHandler {
    var plans: map<string, string>
    var planCache: map<string, Entry>
    var pcs: map<nat, Pc>
    var answers: seq<Answer>
    var now: int
    var clock: nat
    const schedule: nat -> Tick
    ghost var run: seq<Event>

    function View(): State
      reads this
    {
      State(plans, planCache, pcs, answers)
    }

    /** The cache is what the recorded run leaves behind, and time never runs back. */
    ghost predicate Valid()
      reads this
    {
      View() == After(run) && UpTo(run, now)
    }

    constructor (schedule: nat -> Tick, now: int)
      ensures Valid() && View() == State(map[], map[], map[], []) && run == [] && clock == 0
      ensures this.schedule == schedule && this.now == now
    {
      this.schedule, this.now := schedule, now;
      plans, planCache, pcs, answers, clock, run := map[], map[], map[], [], 0, [];
    }

    /** Execute one step of somebody else, some time later. */
    method Perform(a: Action, delay: nat)
      requires Valid()
      modifies this
      ensures Valid() && now == old(now) + delay && clock == old(clock)
      ensures run == old(run) + [Event(now, a)] && View() == Apply(old(View()), Event(now, a))
    {
      hide Apply, After, UpTo;
      UpToAppend(run, now, Event(now + delay, a));
      now := now + delay;
      AfterAppend(run, Event(now, a));
      var s := Apply(View(), Event(now, a));
      plans, planCache, pcs, answers := s.plans, s.cache, s.pcs, s.answers;
      run := run + [Event(now, a)];
    }

    /** Enter the step of ours that has just been carried out into the record. */
    ghost method Record(a: Action)
      requires View() == Apply(After(run), Event(now, a)) && UpTo(run, now)
      modifies this`run
      ensures Valid() && run == old(run) + [Event(now, a)]
    {
      hide Apply, After, UpTo;
      AfterAppend(run, Event(now, a));
      UpToAppend(run, now, Event(now, a));
      run := run + [Event(now, a)];
    }

    /** Time passes before our next step: others take theirs. */
    method Interleave(me: nat) returns (ok: bool)
      requires Valid()
      modifies this
      ensures Valid() && old(run) <= run && old(now) <= now && clock == old(clock) + 1 && ok == schedule(old(clock)).ok
      ensures now >= old(now) + schedule(old(clock)).delay
      ensures PcOf(View(), me) == PcOf(old(View()), me)
    {
      hide Apply, After, PcOf, UpTo;
      var t := schedule(clock);
      clock := clock + 1;
      for i := 0 to |t.others|
        invariant Valid() && old(run) <= run && old(now) <= now && clock == old(clock) + 1
        invariant PcOf(View(), me) == PcOf(old(View()), me)
      {
        if !Mine(t.others[i].0, me) {
          OthersLeaveMe(View(), Event(now + t.others[i].1, t.others[i].0), me);
          Perform(t.others[i].0, t.others[i].1);
        }
      }
      UpToLater(run, now, now + t.delay);
      now := now + t.delay;
      ok := t.ok;
    }

    method LoadEntry(me: nat, shop: string) returns (found: bool)
      requires Valid() && PcOf(View(), me).Idle?
      modifies this
      ensures Valid() && run == old(run) + [Event(now, Load(me, shop))] && now == old(now) && clock == old(clock)
      ensures (found <==> shop in planCache) && planCache == old(planCache)
      ensures PcOf(View(), me) == if found then Loaded(shop, planCache[shop]) else Missed(shop)
    {
      hide After, UpTo;
      found := shop in planCache;
      pcs := pcs[me := if found then Loaded(shop, planCache[shop]) else Missed(shop)];
      Record(Load(me, shop));
    }

    method CheckEntry(me: nat, shop: string, entry: Entry) returns (hit: bool)
      requires Valid() && PcOf(View(), me) == Loaded(shop, entry)
      modifies this
      ensures Valid() && run == old(run) + [Event(now, Check(me))] && now == old(now) && clock == old(clock)
      ensures hit == (now < entry.expireAt)
      ensures hit ==> answers == old(answers) + [Answer(now, shop, IsPro(entry.plan), false)] && PcOf(View(), me).Idle?
      ensures !hit ==> PcOf(View(), me) == Expired(shop)
    {
      hide After, UpTo;
      hit := now < entry.expireAt;
      pcs := pcs[me := if hit then Idle else Expired(shop)];
      if hit {
        answers := answers + [Answer(now, shop, IsPro(entry.plan), false)];
      }
      Record(Check(me));
    }

    method DeleteEntry(me: nat, shop: string)
      requires Valid() && PcOf(View(), me) == Expired(shop)
      modifies this
      ensures Valid() && run == old(run) + [Event(now, Delete(me))] && now == old(now) && clock == old(clock)
      ensures PcOf(View(), me) == Missed(shop) && planCache == old(planCache) - {shop}
    {
      hide After, UpTo;
      planCache, pcs := planCache - {shop}, pcs[me := Missed(shop)];
      Record(Delete(me));
    }

    method QueryPlan(me: nat, shop: string, ok: bool) returns (plan: string)
      requires Valid() && PcOf(View(), me) == Missed(shop)
      modifies this
      ensures Valid() && run == old(run) + [Event(now, Query(me, ok))] && now == old(now) && clock == old(clock)
      ensures ok ==> plan == PlanOf(plans, shop) && PcOf(View(), me) == Fetched(shop, plan, now)
      ensures !ok ==> answers == old(answers) + [Answer(now, shop, false, true)] && PcOf(View(), me).Idle?
      ensures planCache == old(planCache)
    {
      hide After, UpTo;
      plan := PlanOf(plans, shop);
      pcs := pcs[me := if ok then Fetched(shop, plan, now) else Idle];
      if !ok {
        answers := answers + [Answer(now, shop, false, true)];
      }
      Record(Query(me, ok));
    }

    /** Fix the instant the new entry expires; this is when its time to live begins. */
    method StampEntry(me: nat, shop: string, plan: string, readAt: int) returns (expireAt: int)
      requires Valid() && PcOf(View(), me) == Fetched(shop, plan, readAt)
      modifies this
      ensures Valid() && run == old(run) + [Event(now, Stamp(me))] && now == old(now) && clock == old(clock)
      ensures expireAt == now + PLAN_CACHE_TTL && PcOf(View(), me) == Stamped(shop, plan, readAt, expireAt)
    {
      hide After, UpTo;
      expireAt := now + PLAN_CACHE_TTL;
      pcs := pcs[me := Stamped(shop, plan, readAt, expireAt)];
      Record(Stamp(me));
    }

    method StoreEntry(me: nat, shop: string, plan: string, readAt: int, expireAt: int)
      requires Valid() && PcOf(View(), me) == Stamped(shop, plan, readAt, expireAt)
      modifies this
      ensures Valid() && run == old(run) + [Event(now, Store(me))] && now == old(now) && clock == old(clock)
      ensures planCache == old(planCache)[shop := Entry(plan, expireAt)] && PcOf(View(), me).Idle?
      ensures answers == old(answers) + [Answer(now, shop, IsPro(plan), false)]
    {
      hide After, UpTo;
      planCache, pcs := planCache[shop := Entry(plan, expireAt)], pcs[me := Idle];
      answers := answers + [Answer(now, shop, IsPro(plan), false)];
      Record(Store(me));
    }

    /** Look the shop up in the cache: a hit that is not expired is answered, an expired one deleted. */
    method FromCache(me: nat, shop: string) returns (hit: bool, isPro: bool)
      requires Valid() && PcOf(View(), me).Idle?
      modifies this
      ensures Valid() && old(run) <= run && old(clock) <= clock
      ensures hit ==> |answers| > 0 && answers[|answers| - 1] == Answer(now, shop, isPro, false) && PcOf(View(), me).Idle?
      ensures !hit ==> PcOf(View(), me) == Missed(shop)
      ensures !hit ==> exists n :: |old(run)| <= n && MissesAt(run, n, me, shop)
    {
      hide Apply, After, UpTo, PcOf, MissesAt;
      hit, isPro := false, false;
      var _ := Interleave(me);
      ghost var s0, n := run, |run|;
      assert After(s0).cache == planCache;
      var found := LoadEntry(me, shop);
      if found {
        var entry := planCache[shop];
        var _ := Interleave(me);
        s0, n := run, |run|;
        hit := CheckEntry(me, shop, entry);
        if hit {
          isPro := IsPro(entry.plan);
        } else {
          MissesNow(s0, Event(now, Check(me)), me, shop);
          s0 := run;
          var _ := Interleave(me);
          DeleteEntry(me, shop);
          MissStays(s0, run, n, me, shop);
        }
      } else {
        MissesNow(s0, Event(now, Load(me, shop)), me, shop);
      }
    }

    /** Read the plan from the database and store it; a failed query stores nothing. */
    method FromDatabase(me: nat, shop: string) returns (isPro: bool, failed: bool)
      requires Valid() && PcOf(View(), me) == Missed(shop)
      modifies this
      ensures Valid() && old(run) <= run && old(clock) < clock
      ensures failed == !schedule(old(clock)).ok && (failed ==> !isPro) && (!failed ==> clock == old(clock) + 3)
      ensures |answers| > 0 && answers[|answers| - 1] == Answer(now, shop, isPro, failed) && PcOf(View(), me).Idle?
    {
      hide Apply, After, UpTo, PcOf;
      var ok := Interleave(me);
      var plan := QueryPlan(me, shop, ok);
      if !ok {
        return false, true;
      }
      var readAt := now;
      ok := Interleave(me);
      var expireAt := StampEntry(me, shop, plan, readAt);
      ok := Interleave(me);
      StoreEntry(me, shop, plan, readAt, expireAt);
      return IsPro(plan), false;
    }

    /**
      isProPlan. Without a database the answer is no; if the query fails it is no and nothing is stored;
     otherwise it is right for a plan the database held within the time to live plus the longest delay
     from a read to its store: yes if the shop was on Growth or Pro all that time, no if it was on neither.
 a database the answer is no; if the query fails it is no and nothing is stored;
     otherwise it is right for a plan the database held within the time to live plus the longest delay
     from a read to its store.
     */
    method IsProPlan(me: nat, shop: string, hasDatabase: bool) returns (isPro: bool, failed: bool)
      requires Valid() && PcOf(View(), me).Idle?
      modifies this
      ensures Valid() && old(run) <= run && PcOf(View(), me).Idle?
      ensures !hasDatabase ==> !isPro && View() == old(View()) && run == old(run)
      ensures failed ==> !isPro && exists n :: old(clock) <= n < clock && !schedule(n).ok
      ensures hasDatabase && !failed ==>
                forall delay :: Prompt(run, delay) ==>
                  && HeldWithin(run, Answer(now, shop, isPro, false), PLAN_CACHE_TTL + delay)
                  && (AlwaysPaid(run, shop, now, delay) ==> isPro)
                  && (NeverPaid(run, shop, now, delay) ==> !isPro)
    {
      hide Apply, After, UpTo, PcOf, Prompt, HeldWithin, AlwaysPaid, NeverPaid, MissesAt;
      isPro, failed := false, false;
      if !hasDatabase {
        return;
      }
      var hit: bool;
      hit, isPro := FromCache(me, shop);
      if !hit {
        isPro, failed := FromDatabase(me, shop);
      }
      LastAnswerIsRecent(run, now);
      LastAnswerFollowsPlans(run, now);
    }
  }
}
