/**
 What holds of every run of cart recovery, from empty tables, under every interleaving.
 */
module CartSafety {
  import opened CartState
  import opened CartInvariant

  function After(run: seq<Action>): State {
    Exec(Init(), run)
  }

  lemma {:induction false} ReachableInv(run: seq<Action>)
    ensures Inv(After(run))
    decreases |run|
  {
    if run == [] {
      InitInv();
    } else {
      var before := run[..|run| - 1];
      ReachableInv(before);
      StepInv(After(before), run[|run| - 1]);
    }
  }

  lemma {:induction false} RunGrows(s: State, run: seq<Action>)
    requires Inv(s)
    ensures Inv(Exec(s, run)) && Grows(s, Exec(s, run))
    decreases |run|
  {
    if run != [] {
      var before, a := run[..|run| - 1], run[|run| - 1];
      RunGrows(s, before);
      StepInv(Exec(s, before), a);
      StepGrows(Exec(s, before), a);
      GrowsTransitive(s, Exec(s, before), Exec(s, run));
    }
  }

  // ---------- checkouts ----------

  /**
   However a run goes on, a checkout only moves from open to abandoned or recovered and from abandoned
   to recovered: a recovered or ordered checkout keeps its status for ever.
   */
  lemma CheckoutLifecycle(run: seq<Action>, more: seq<Action>, c: Id)
    requires c in After(run).checkouts
    ensures c in After(run + more).checkouts
    ensures var was, now := After(run).checkouts[c].status, After(run + more).checkouts[c].status;
            && Moves(was, now)
            && (was == Recovered || was == Ordered ==> now == was)
  {
    ReachableInv(run);
    RunGrows(After(run), more);
    ExecConcat(Init(), run, more);
  }

  /** No code ever points at a checkout that arrived as an order. */
  lemma NoCodeForOrdered(run: seq<Action>, d: Id)
    requires d in After(run).codes
    ensures After(run).codes[d].checkout in After(run).checkouts
    ensures After(run).checkouts[After(run).codes[d].checkout].status != Ordered
  {
    ReachableInv(run);
    assert Workable(After(run), After(run).codes[d].checkout);
  }

  /** A recovered checkout carries the order that spent one of its codes. */
  lemma RecoveredWasPaidFor(run: seq<Action>, c: Id) returns (d: Id)
    requires c in After(run).checkouts && After(run).checkouts[c].status == Recovered
    ensures d in After(run).codes
    ensures var code := After(run).codes[d];
            code.isUsed && code.checkout == c && code.order == After(run).checkouts[c].order
  {
    var s := After(run);
    ReachableInv(run);
    assert HasSpent(s, c, s.checkouts[c].order);
    d :| d in s.codes && s.codes[d].isUsed && s.codes[d].checkout == c && s.codes[d].order == s.checkouts[c].order;
  }

  /**
   Once no attributor is between its two writes, the checkout of every used code is recovered,
   unless that second write was the one that failed.
   */
  lemma QuiescentMeansRecovered(run: seq<Action>, d: Id)
    requires d in After(run).codes && After(run).codes[d].isUsed
    requires forall t :: t in After(run).pcs ==> !After(run).pcs[t].Claimed?
    requires d !in After(run).unrecovered
    ensures var c := After(run).codes[d].checkout;
            c in After(run).checkouts && After(run).checkouts[c].status == Recovered
  {
    ReachableInv(run);
    assert Settled(After(run), d);
  }

  /** A failed send stays failed: no e-mail event ever turns it into an opened one. */
  lemma FailedStaysFailed(run: seq<Action>, more: seq<Action>, e: Id)
    requires e in After(run).sends && After(run).sends[e].status == Failed
    ensures e in After(run + more).sends && After(run + more).sends[e] == After(run).sends[e]
  {
    ReachableInv(run);
    RunGrows(After(run), more);
    ExecConcat(Init(), run, more);
  }

  // ---------- codes and money ----------

  /** A claimed code is spent for good: its order and its total never change again. */
  lemma ClaimIsFinal(run: seq<Action>, more: seq<Action>, d: Id)
    requires d in After(run).codes && After(run).codes[d].isUsed
    ensures d in After(run + more).codes && After(run + more).codes[d] == After(run).codes[d]
  {
    ReachableInv(run);
    RunGrows(After(run), more);
    ExecConcat(Init(), run, more);
  }

  predicate Blank(codes: map<Id, Code>) {
    forall d :: d in codes && !codes[d].isUsed ==> codes[d].order == "" && codes[d].total == 0
  }

  lemma StepBlank(s: State, a: Action)
    requires Blank(s.codes)
    ensures Blank(Apply(s, a).codes)
  {
    if !a.ClaimCode? && !a.Issue? {
      Writers(s, a);
    }
  }

  /** A code that no order has claimed carries neither order nor total. */
  lemma {:induction false} UnusedCodesAreBlank(run: seq<Action>)
    ensures forall d :: d in After(run).codes && !After(run).codes[d].isUsed ==>
              After(run).codes[d].order == "" && After(run).codes[d].total == 0
    decreases |run|
  {
    hide Apply;
    if run != [] {
      UnusedCodesAreBlank(run[..|run| - 1]);
      StepBlank(After(run[..|run| - 1]), run[|run| - 1]);
    }
  }

  /** Successful claims and used codes match one to one, with the same campaign, order and total. */
  lemma ClaimsMatchCodes(run: seq<Action>)
    ensures var s := After(run);
            && (forall i, j :: 0 <= i < j < |s.ledger| ==> s.ledger[i].code != s.ledger[j].code)
            && (forall i :: 0 <= i < |s.ledger| ==> EntryOk(s, s.ledger[i]))
            && (forall d :: d in s.codes ==> (s.codes[d].isUsed <==> InLedger(s, d)))
  {
    ReachableInv(run);
    var s := After(run);
    forall d | d in s.codes && InLedger(s, d) ensures s.codes[d].isUsed {
      var i :| 0 <= i < |s.ledger| && s.ledger[i].code == d;
      assert EntryOk(s, s.ledger[i]);
    }
  }

  ghost function SumTotals(codes: map<Id, Code>, ids: set<Id>): int
    requires ids <= codes.Keys
  {
    if ids == {} then 0 else
      var d :| d in ids;
      codes[d].total + SumTotals(codes, ids - {d})
  }

  lemma {:induction false} SumTotalsSplit(codes: map<Id, Code>, ids: set<Id>, d: Id)
    requires ids <= codes.Keys && d in ids
    ensures SumTotals(codes, ids) == codes[d].total + SumTotals(codes, ids - {d})
    decreases |ids|
  {
    var e :| e in ids && SumTotals(codes, ids) == codes[e].total + SumTotals(codes, ids - {e});
    if e != d {
      SumTotalsSplit(codes, ids - {e}, d);
      SumTotalsSplit(codes, ids - {d}, e);
      assert ids - {e} - {d} == ids - {d} - {e};
    }
  }

  function LedgerTotal(ledger: seq<Claim>): int {
    if ledger == [] then 0 else LedgerTotal(ledger[..|ledger| - 1]) + ledger[|ledger| - 1].total
  }

  function LedgerCodes(ledger: seq<Claim>): set<Id> {
    set i | 0 <= i < |ledger| :: ledger[i].code
  }

  ghost predicate LedgerBacked(codes: map<Id, Code>, ledger: seq<Claim>) {
    && (forall i, j :: 0 <= i < j < |ledger| ==> ledger[i].code != ledger[j].code)
    && (forall i :: 0 <= i < |ledger| ==> ledger[i].code in codes && codes[ledger[i].code].total == ledger[i].total)
  }

  /** The last claim is for a code that no earlier one was for. */
  lemma LastClaimIsNew(codes: map<Id, Code>, before: seq<Claim>, last: Claim)
    requires LedgerBacked(codes, before + [last])
    ensures LedgerBacked(codes, before) && last.code in codes && codes[last.code].total == last.total
    ensures LedgerCodes(before + [last]) == LedgerCodes(before) + {last.code} && last.code !in LedgerCodes(before)
    ensures LedgerCodes(before + [last]) <= codes.Keys
  {
    var ledger := before + [last];
    assert forall i :: 0 <= i < |before| ==> ledger[i] == before[i];
    assert ledger[|before|] == last;
  }

  lemma LedgerTotalAppend(before: seq<Claim>, last: Claim)
    ensures LedgerTotal(before + [last]) == LedgerTotal(before) + last.total
  {
    assert (before + [last])[..|before|] == before;
  }

  lemma NoClaims(codes: map<Id, Code>)
    ensures LedgerCodes([]) == {} && SumTotals(codes, {}) == LedgerTotal([]) == 0
  {
  }

  lemma {:induction false} LedgerTotalIsCodeTotal(codes: map<Id, Code>, ledger: seq<Claim>)
    requires LedgerBacked(codes, ledger)
    ensures LedgerCodes(ledger) <= codes.Keys && SumTotals(codes, LedgerCodes(ledger)) == LedgerTotal(ledger)
    decreases |ledger|
  {
    hide *;
    if ledger == [] {
      NoClaims(codes);
    } else {
      var before, last := ledger[..|ledger| - 1], ledger[|ledger| - 1];
      assert before + [last] == ledger;
      LastClaimIsNew(codes, before, last);
      LedgerTotalIsCodeTotal(codes, before);
      LedgerTotalAppend(before, last);
      SumTotalsSplit(codes, LedgerCodes(ledger), last.code);
      assert LedgerCodes(ledger) - {last.code} == LedgerCodes(before);
    }
  }

  lemma LedgerIsBacked(s: State)
    requires LedgerOk(s)
    ensures LedgerBacked(s.codes, s.ledger)
  {
    forall i | 0 <= i < |s.ledger| ensures s.ledger[i].code in s.codes && s.codes[s.ledger[i].code].total == s.ledger[i].total {
      assert EntryOk(s, s.ledger[i]);
    }
  }

  function UsedCodes(s: State): set<Id> {
    set d | d in s.codes && s.codes[d].isUsed
  }

  lemma LedgerCodesAreUsed(s: State)
    requires LedgerOk(s)
    ensures LedgerCodes(s.ledger) == UsedCodes(s)
  {
    forall d | d in LedgerCodes(s.ledger) ensures d in UsedCodes(s) {
      var i :| 0 <= i < |s.ledger| && s.ledger[i].code == d;
      assert EntryOk(s, s.ledger[i]);
    }
    forall d | d in UsedCodes(s) ensures d in LedgerCodes(s.ledger) {
      assert InLedger(s, d);
    }
  }

  /** The revenue shown by the used codes is exactly what the successful claims brought in. */
  lemma RevenueIsConserved(run: seq<Action>)
    ensures SumTotals(After(run).codes, UsedCodes(After(run))) == LedgerTotal(After(run).ledger)
  {
    ReachableInv(run);
    LedgerIsBacked(After(run));
    LedgerCodesAreUsed(After(run));
    LedgerTotalIsCodeTotal(After(run).codes, After(run).ledger);
  }
}
