/**
 The two review attributions of an order webhook, running over shared tables while other deliveries do
 the same. An arbitrary `schedule` decides before each statement what others execute and whether ours
 succeeds; `run` records all statements, and the tables always are what that run leaves behind.
 */
module ReviewOrders {
  import opened ReviewAttribution
  import Text

  datatype Tick = Tick(others: seq<Action>, ok: bool)

  predicate Mine(a: Action, me: nat) {
    !a.CreateReply? && !a.SendReply? && !a.IssueCode? && a.caller == me
  }

  /** The statements of a run that `me` made, in order. */
  function Own(run: seq<Action>, me: nat): seq<Action> {
    if run == [] then []
    else Own(run[..|run| - 1], me) + if Mine(run[|run| - 1], me) then [run[|run| - 1]] else []
  }

  lemma OwnAppend(run: seq<Action>, a: Action, me: nat)
    ensures Own(run + [a], me) == Own(run, me) + if Mine(a, me) then [a] else []
  {
    assert (run + [a])[..|run|] == run;
  }

  lemma OthersLeaveMe(s: State, a: Action, me: nat)
    requires !Mine(a, me)
    ensures PcOf(Apply(s, a), me) == PcOf(s, me)
  {
  }

  /** A code that exists keeps existing, and a used one stays used. */
  predicate CodesGrow(s: State, s': State) {
    forall c :: c in s.codes ==> c in s'.codes && (s.codes[c].isUsed ==> s'.codes[c].isUsed)
  }

  predicate Sent(sent: map<Id, Reply>, email: string) {
    exists r :: r in sent && sent[r].email == email
  }

  predicate AllGrow(s: State, s': State) {
    Grows(s, s') && CodesGrow(s, s')
  }

  lemma StepAllGrow(s: State, a: Action)
    ensures AllGrow(s, Apply(s, a))
  {
    StepGrows(s, a);
  }

  lemma AllGrowTransitive(a: State, b: State, c: State)
    requires AllGrow(a, b) && AllGrow(b, c)
    ensures AllGrow(a, c)
  {
  }

  lemma AllGrowItself(s: State)
    ensures AllGrow(s, s)
  {
  }

  lemma GrownRows(s: State, s': State, email: string, order: string)
    requires AllGrow(s, s')
    ensures Exists(s.rows, email, order) ==> Exists(s'.rows, email, order)
    ensures Sent(s.sent, email) ==> Sent(s'.sent, email)
  {
    if Exists(s.rows, email, order) {
      var k :| 0 <= k < |s.rows| && s.rows[k].email == email && s.rows[k].order == order;
      assert s'.rows[k] == s.rows[k];
    }
  }

  /** If nobody was sent a reply, no choice is the latest; replies carry over whom they were sent to. */
  lemma LatestIsSent(sent: map<Id, Reply>, r: Id, email: string)
    ensures Latest(sent, r, email) ==> Sent(sent, email)
  {
  }

  lemma InsertedExists(run: seq<Action>, me: nat)
    requires PcOf(After(run), me).Unseen?
    ensures var s, pc := After(run), PcOf(After(run), me); Exists(DoInsert(s, me, true).rows, pc.email, pc.order)
  {
    ReachableRepurchases(run);
    var s := After(run);
    hide After;
    var pc, rows := PcOf(s, me), DoInsert(s, me, true).rows;
    assert WasSentTo(s.sent, pc.reply, pc.email);
    if !Exists(s.rows, pc.email, pc.order) {
      assert rows[|s.rows|].email == pc.email && rows[|s.rows|].order == pc.order;
    }
  }

  /** A code that is there is used after a successful update of it. */
  lemma MarkedIsUsed(s: State, me: nat)
    requires PcOf(s, me).Found? && PcOf(s, me).code in s.codes
    ensures var c := PcOf(s, me).code; c in DoMarkCode(s, me, true).codes && DoMarkCode(s, me, true).codes[c].isUsed
  {
  }

  predicate IsReviewCode(code: string) {
    Text.HasPrefix(Text.ToUpper(code), "RV-")
  }

  predicate Used(codes: map<string, Code>, code: string) {
    code in codes && codes[code].isUsed
  }

  lemma UsedStays(s: State, s': State, code: string)
    requires AllGrow(s, s')
    ensures code in s.codes ==> code in s'.codes
    ensures Used(s.codes, code) ==> Used(s'.codes, code)
  {
  }

  /** "RV-" in any case. */
  lemma ReviewCodeBeginsWithRV(code: string)
    ensures IsReviewCode(code) <==>
              |code| >= 3 && (code[0] == 'R' || code[0] == 'r') && (code[1] == 'V' || code[1] == 'v') && code[2] == '-'
  {
    var upper := Text.ToUpper(code);
    assert "RV-" == ['R', 'V', '-'];
    if |code| >= 3 {
      assert upper[..3] == [upper[0], upper[1], upper[2]];
    }
  }

  /** The reply of this code is marked as having its discount used. */
  predicate ReplyMarked(s: State, code: string) {
    code in s.codes && s.codes[code].reply in s.discountUsed && s.discountUsed[s.codes[code].reply]
  }

  lemma ReplyStaysMarked(s: State, s': State)
    requires AllGrow(s, s')
    ensures forall c :: ReplyMarked(s, c) ==> ReplyMarked(s', c)
  {
  }

  lemma MarkedReply(run: seq<Action>, me: nat)
    requires PcOf(After(run), me).Marked? && PcOf(After(run), me).code in After(run).codes
    ensures ReplyMarked(Apply(After(run), MarkReply(me, true)), PcOf(After(run), me).code)
  {
    EveryCodeHasItsReply(run);
    hide After;
  }

  /** The statements for one code: its lookup, and if that found the code unused both updates. */
  predicate Redeems(steps: seq<Action>, me: nat, code: string, total: int) {
    && (|steps| == 1 || |steps| == 3)
    && steps[0].FindCode? && steps[0] == FindCode(me, code, total, steps[0].ok)
    && (|steps| == 3 ==> steps[1].MarkCode? && steps[1].caller == me && steps[2].MarkReply? && steps[2].caller == me)
  }

  function Concat(parts: seq<seq<Action>>): seq<Action> {
    if parts == [] then [] else Concat(parts[..|parts| - 1]) + parts[|parts| - 1]
  }

  lemma ConcatAppend(parts: seq<seq<Action>>, steps: seq<Action>)
    ensures Concat(parts + [steps]) == Concat(parts) + steps
  {
    assert (parts + [steps])[..|parts|] == parts;
  }

  /** The statements of attributeRepurchase: a lookup of the reply, one of an existing row, the insert. */
  predicate Attributes(steps: seq<Action>, me: nat, email: string, order: string, total: int) {
    && 1 <= |steps| <= 3
    && steps[0].FindReply? && steps[0] == FindReply(me, email, order, total, steps[0].reply, steps[0].ok)
    && (|steps| >= 2 ==> steps[1].FindExisting? && steps[1].caller == me)
    && (|steps| == 3 ==> steps[2].Insert? && steps[2].caller == me)
  }

  lemma AttributesInSteps(me: nat, email: string, order: string, total: int, r: Id, ok: bool)
    ensures Attributes([FindReply(me, email, order, total, r, ok)], me, email, order, total)
    ensures forall ok' :: Attributes([FindReply(me, email, order, total, r, ok)] + [FindExisting(me, ok')], me, email, order, total)
    ensures forall ok', ok'' :: Attributes([FindReply(me, email, order, total, r, ok)] + [FindExisting(me, ok')] + [Insert(me, ok'')],
                                           me, email, order, total)
  {
  }

  class OrderTables {
    var discountUsed: map<Id, bool>
    var sent: map<Id, Reply>
    var codes: map<string, Code>
    var rows: seq<Repurchase>
    var pcs: map<nat, Pc>
    var uses: seq<Use>
    var clock: nat
    const schedule: nat -> Tick
    ghost var run: seq<Action>

    function View(): State
      reads this
    {
      State(discountUsed, sent, codes, rows, pcs, uses)
    }

    /** The tables are what the recorded run leaves behind. */
    ghost predicate Valid()
      reads this
    {
      View() == After(run)
    }

    /** Every statement since tick `from` succeeded. */
    ghost predicate AllOk(from: nat)
      reads this
    {
      forall n :: from <= n < clock ==> schedule(n).ok
    }

    constructor (schedule: nat -> Tick)
      ensures Valid() && View() == Init() && run == [] && clock == 0 && this.schedule == schedule
    {
      this.schedule := schedule;
      discountUsed, sent, codes, rows, pcs, uses, clock, run := map[], map[], map[], [], map[], [], 0, [];
    }

    /** Execute one statement, ours or somebody else's. */
    method Perform(a: Action)
      requires Valid()
      modifies this
      ensures Valid() && run == old(run) + [a] && clock == old(clock)
      ensures View() == Apply(old(View()), a) && AllGrow(old(View()), View())
    {
      hide Apply, After, AllGrow;
      AfterAppend(run, a);
      StepAllGrow(View(), a);
      var s := Apply(View(), a);
      discountUsed, sent, codes, rows, pcs, uses := s.discountUsed, s.sent, s.codes, s.rows, s.pcs, s.uses;
      run := run + [a];
    }

    /** Time passes before our next statement: others execute theirs. */
    method Interleave(me: nat) returns (ok: bool)
      requires Valid()
      modifies this
      ensures Valid() && old(run) <= run && clock == old(clock) + 1 && ok == schedule(old(clock)).ok
      ensures PcOf(View(), me) == PcOf(old(View()), me) && AllGrow(old(View()), View()) && Own(run, me) == Own(old(run), me)
    {
      hide Apply, After, AllGrow, PcOf;
      var t := schedule(clock);
      ok := t.ok;
      clock := clock + 1;
      AllGrowItself(View());
      for i := 0 to |t.others|
        invariant Valid() && old(run) <= run && clock == old(clock) + 1
        invariant PcOf(View(), me) == PcOf(old(View()), me) && AllGrow(old(View()), View()) && Own(run, me) == Own(old(run), me)
      {
        if !Mine(t.others[i], me) {
          OwnAppend(run, t.others[i], me);
          ghost var before := View();
          OthersLeaveMe(before, t.others[i], me);
          Perform(t.others[i]);
          AllGrowTransitive(old(View()), before, View());
        }
      }
    }

    /** The reply most recently sent to this address, if there is one. */
    method LatestReply(email: string) returns (found: bool, r: Id)
      ensures found ==> r in sent && sent[r].email == email && Latest(sent, r, email)
      ensures found ==> forall q :: q in sent && sent[q].email == email ==> sent[q].sentAt <= sent[r].sentAt
      ensures !found ==> forall q :: q in sent ==> sent[q].email != email
    {
      found, r := false, 0;
      var rest := sent.Keys;
      while rest != {}
        invariant rest <= sent.Keys
        invariant found ==> r in sent && sent[r].email == email
        invariant forall q :: q in sent && q !in rest && sent[q].email == email ==> found && sent[q].sentAt <= sent[r].sentAt
        decreases |rest|
      {
        var q :| q in rest;
        rest := rest - {q};
        if sent[q].email == email && (!found || sent[r].sentAt < sent[q].sentAt) {
          found, r := true, q;
        }
      }
    }

    /** Read the latest reply to this address. */
    method QueryReply(me: nat, email: string, order: string, total: int, ok: bool) returns (found: bool, r: Id)
      requires Valid() && PcOf(View(), me).Idle?
      modifies this
      ensures Valid() && old(run) <= run && clock == old(clock) && AllGrow(old(View()), View())
      ensures Own(run, me) == Own(old(run), me) + [FindReply(me, email, order, total, r, ok)]
      ensures found ==> PcOf(View(), me) == Matched(email, order, total, r)
      ensures !found ==> PcOf(View(), me).Idle?
      ensures ok && Sent(old(sent), email) ==> found
    {
      hide After, AllGrow, Latest;
      found, r := LatestReply(email);
      LatestIsSent(sent, r, email);
      found := found && ok;
      OwnAppend(run, FindReply(me, email, order, total, r, ok), me);
      Perform(FindReply(me, email, order, total, r, ok));
    }

    /** Look for a row of this customer and order. */
    method QueryExisting(me: nat, ok: bool) returns (existing: bool)
      requires Valid() && PcOf(View(), me).Matched?
      modifies this
      ensures Valid() && old(run) <= run && clock == old(clock) && AllGrow(old(View()), View())
      ensures Own(run, me) == Own(old(run), me) + [FindExisting(me, ok)]
      ensures var pc := PcOf(old(View()), me);
              if existing then PcOf(View(), me).Idle? && Exists(rows, pc.email, pc.order)
              else PcOf(View(), me) == Unseen(pc.email, pc.order, pc.total, pc.reply) && (ok ==> !Exists(old(rows), pc.email, pc.order))
    {
      hide After, AllGrow, Exists;
      existing := ok && Exists(rows, pcs[me].email, pcs[me].order);
      OwnAppend(run, FindExisting(me, ok), me);
      Perform(FindExisting(me, ok));
    }

    /** Insert a row; the unique index may refuse it, and then there is one already. */
    method InsertRow(me: nat, ok: bool)
      requires Valid() && PcOf(View(), me).Unseen?
      modifies this
      ensures Valid() && old(run) <= run && clock == old(clock) && AllGrow(old(View()), View())
      ensures Own(run, me) == Own(old(run), me) + [Insert(me, ok)]
      ensures PcOf(View(), me).Idle?
      ensures ok ==> Exists(rows, PcOf(old(View()), me).email, PcOf(old(View()), me).order)
    {
      hide After, AllGrow, Exists;
      InsertedExists(run, me);
      OwnAppend(run, Insert(me, ok), me);
      Perform(Insert(me, ok));
    }

    /**
     attributeRepurchase. If a reply had been sent to the customer and no statement failed, the order has a
     repurchase row afterwards, whoever wrote it; and if it had one before, none is inserted.
     */
    method AttributeRepurchase(me: nat, email: string, order: string, total: int) returns (ghost steps: seq<Action>)
      requires Valid() && PcOf(View(), me).Idle?
      modifies this
      ensures Valid() && old(run) <= run && PcOf(View(), me).Idle? && AllGrow(old(View()), View())
      ensures Own(run, me) == Own(old(run), me) + steps && Attributes(steps, me, email, order, total)
      ensures AllOk(old(clock)) && Sent(old(sent), email) ==> Exists(rows, email, order)
      ensures AllOk(old(clock)) && Exists(old(rows), email, order) ==> |steps| <= 2
    {
      hide Apply, After, AllGrow, Exists, Sent, PcOf, Own, Attributes;
      ghost var s0 := View();
      var ok := Interleave(me);
      ghost var s1 := View();
      GrownRows(s0, s1, email, order);
      var found, r := QueryReply(me, email, order, total, ok);
      steps := [FindReply(me, email, order, total, r, ok)];
      AttributesInSteps(me, email, order, total, r, ok);
      AllGrowTransitive(s0, s1, View());
      if !found {
        return;
      }
      ghost var s2 := View();
      ok := Interleave(me);
      AllGrowTransitive(s0, s2, View());
      ghost var s3 := View();
      GrownRows(s0, s3, email, order);
      var existing := QueryExisting(me, ok);
      steps := steps + [FindExisting(me, ok)];
      AllGrowTransitive(s0, s3, View());
      if existing {
        return;
      }
      ghost var s4 := View();
      ok := Interleave(me);
      AllGrowTransitive(s0, s4, View());
      ghost var s5 := View();
      InsertRow(me, ok);
      steps := steps + [Insert(me, ok)];
      AllGrowTransitive(s0, s5, View());
    }

    /** Look for an unused code. */
    method QueryCode(me: nat, code: string, total: int, ok: bool) returns (found: bool)
      requires Valid() && PcOf(View(), me).Idle?
      modifies this
      ensures Valid() && old(run) <= run && clock == old(clock) && AllGrow(old(View()), View())
      ensures Own(run, me) == Own(old(run), me) + [FindCode(me, code, total, ok)]
      ensures if found then PcOf(View(), me) == Found(code, total) && code in codes
              else PcOf(View(), me).Idle? && (ok && code in old(codes) ==> Used(codes, code))
    {
      hide After, AllGrow;
      found := ok && code in codes && !codes[code].isUsed;
      OwnAppend(run, FindCode(me, code, total, ok), me);
      Perform(FindCode(me, code, total, ok));
    }

    /** Mark the code used, then its reply. */
    method UpdateCode(me: nat, code: string, ok: bool)
      requires Valid() && PcOf(View(), me).Found? && PcOf(View(), me).code == code && code in codes
      modifies this
      ensures Valid() && old(run) <= run && clock == old(clock) && AllGrow(old(View()), View())
      ensures Own(run, me) == Own(old(run), me) + [MarkCode(me, ok)]
      ensures PcOf(View(), me) == Marked(code) && code in codes && (ok ==> Used(codes, code))
    {
      hide After, AllGrow;
      MarkedIsUsed(View(), me);
      OwnAppend(run, MarkCode(me, ok), me);
      Perform(MarkCode(me, ok));
    }

    method UpdateReply(me: nat, ok: bool)
      requires Valid() && PcOf(View(), me).Marked?
      modifies this
      ensures Valid() && old(run) <= run && clock == old(clock) && AllGrow(old(View()), View())
      ensures Own(run, me) == Own(old(run), me) + [MarkReply(me, ok)]
      ensures PcOf(View(), me).Idle?
      ensures ok && PcOf(old(View()), me).code in old(codes) ==> ReplyMarked(View(), PcOf(old(View()), me).code)
    {
      hide After, AllGrow;
      if PcOf(View(), me).code in codes {
        MarkedReply(run, me);
      }
      OwnAppend(run, MarkReply(me, ok), me);
      Perform(MarkReply(me, ok));
    }

    /**
     One code of an order: found unused it is marked, and so is its reply, even if the first update fails.
     Without failures a known code is used afterwards, and if this call found it unused its reply is marked.
     */
    method RedeemCode(me: nat, code: string, total: int) returns (ghost steps: seq<Action>)
      requires Valid() && PcOf(View(), me).Idle?
      modifies this
      ensures Valid() && old(run) <= run && old(clock) <= clock && PcOf(View(), me).Idle? && AllGrow(old(View()), View())
      ensures Own(run, me) == Own(old(run), me) + steps && Redeems(steps, me, code, total)
      ensures AllOk(old(clock)) && code in old(codes) ==> Used(codes, code)
      ensures AllOk(old(clock)) && |steps| == 3 ==> Used(codes, code) && ReplyMarked(View(), code)
    {
      hide Apply, After, AllGrow, PcOf, Used, Own, ReplyMarked;
      ghost var s0 := View();
      var ok := Interleave(me);
      ghost var s1 := View();
      UsedStays(s0, s1, code);
      var found := QueryCode(me, code, total, ok);
      steps := [FindCode(me, code, total, ok)];
      AllGrowTransitive(s0, s1, View());
      if !found {
        return;
      }
      ghost var s2 := View();
      ok := Interleave(me);
      AllGrowTransitive(s0, s2, View());
      ghost var s3 := View();
      UsedStays(s2, s3, code);
      UpdateCode(me, code, ok);
      steps := steps + [MarkCode(me, ok)];
      AllGrowTransitive(s0, s3, View());
      ghost var s4 := View();
      ok := Interleave(me);
      AllGrowTransitive(s0, s4, View());
      ghost var s5 := View();
      UsedStays(s4, s5, code);
      UpdateReply(me, ok);
      steps := steps + [MarkReply(me, ok)];
      AllGrowTransitive(s4, s5, View());
      UsedStays(s4, View(), code);
      AllGrowTransitive(s0, s5, View());
    }

    /**
     attributeReviewRecovery: the codes with the prefix RV- are redeemed in order, in upper case. If no statement
     fails, every known one ends up used, and the replies of those that this call found unused are marked.
     */
    method AttributeReviewRecovery(me: nat, discountCodes: seq<string>, total: int) returns (ghost parts: seq<seq<Action>>)
      requires Valid() && PcOf(View(), me).Idle?
      modifies this
      ensures Valid() && old(run) <= run && PcOf(View(), me).Idle? && AllGrow(old(View()), View())
      ensures Own(run, me) == Own(old(run), me) + Concat(parts) && |parts| == |discountCodes|
      ensures forall k :: 0 <= k < |parts| ==>
                if IsReviewCode(discountCodes[k]) then Redeems(parts[k], me, Text.ToUpper(discountCodes[k]), total) else parts[k] == []
      ensures AllOk(old(clock)) ==>
                forall k :: 0 <= k < |discountCodes| && IsReviewCode(discountCodes[k]) && Text.ToUpper(discountCodes[k]) in old(codes) ==>
                  Used(codes, Text.ToUpper(discountCodes[k]))
      ensures AllOk(old(clock)) ==>
                forall k :: 0 <= k < |parts| && |parts[k]| == 3 ==> ReplyMarked(View(), Text.ToUpper(discountCodes[k]))
    {
      hide Apply, After, AllGrow, PcOf, Used, IsReviewCode, Text.ToUpper, Own, ReplyMarked, Redeems, Concat;
      AllGrowItself(View());
      parts := [];
      NoParts();
      for i := 0 to |discountCodes|
        invariant Valid() && old(run) <= run && PcOf(View(), me).Idle? && AllGrow(old(View()), View()) && old(clock) <= clock
        invariant Own(run, me) == Own(old(run), me) + Concat(parts) && |parts| == i
        invariant forall k :: 0 <= k < i ==>
                    if IsReviewCode(discountCodes[k]) then Redeems(parts[k], me, Text.ToUpper(discountCodes[k]), total) else parts[k] == []
        invariant AllOk(old(clock)) ==>
                    forall k :: 0 <= k < i && IsReviewCode(discountCodes[k]) && Text.ToUpper(discountCodes[k]) in old(codes) ==>
                      Used(codes, Text.ToUpper(discountCodes[k]))
        invariant AllOk(old(clock)) ==>
                    forall k :: 0 <= k < i && |parts[k]| == 3 ==> ReplyMarked(View(), Text.ToUpper(discountCodes[k]))
      {
        if !IsReviewCode(discountCodes[i]) {
          ConcatAppend(parts, []);
          parts := parts + [[]];
          continue;
        }
        ghost var before, wasOk := View(), AllOk(old(clock));
        var code := Text.ToUpper(discountCodes[i]);
        UsedStays(old(View()), before, code);
        ghost var steps := RedeemCode(me, code, total);
        ConcatAppend(parts, steps);
        parts := parts + [steps];
        StillUsed(before, View());
        ReplyStaysMarked(before, View());
        AllGrowTransitive(old(View()), before, View());
        assert AllOk(old(clock)) ==> wasOk;
      }
    }
  }

  lemma NoParts()
    ensures Concat([]) == []
  {
  }

  lemma StillUsed(s: State, s': State)
    requires AllGrow(s, s')
    ensures forall c :: Used(s.codes, c) ==> Used(s'.codes, c)
  {
  }
}
