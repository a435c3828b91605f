/**
 CartRecoveryAttributor: match the discount codes of an order against the codes on record.
 */
module CartAttributor {
  import opened CartState
  import opened CartInvariant
  import opened CartSafety
  import opened CartHandlers
  import Text
  import CartCodes

  /** Claims and reported campaigns correspond one to one, all for this order at its full total. */
  ghost predicate Reported(mine: seq<Claim>, matched: seq<Id>, order: string, total: int) {
    && |mine| == |matched|
    && forall i :: 0 <= i < |mine| ==> mine[i].campaign == matched[i] && mine[i].order == order && mine[i].total == total
  }

  /** The text under which the i-th code of an order is looked up, if it passes the prefix filter. */
  predicate Asks(given: seq<string>, i: nat, text: string) {
    i < |given| && Text.Trim(given[i]) == text && CartCodes.ExtractCodePrefix(text) != ""
  }

  /** Every claim is for a code that one of the first `n` entries of the order asks for. */
  ghost predicate AskedFor(mine: seq<Claim>, s: State, given: seq<string>, n: nat) {
    forall e :: e in mine ==> e.code in s.codes && exists i :: 0 <= i < n && Asks(given, i, s.codes[e.code].text)
  }

  /** Every code on record in `s0` that one of the first `n` entries asks for is used by now. */
  ghost predicate AllSpent(s0: State, s: State, given: seq<string>, n: nat) {
    forall i, d :: 0 <= i < n && d in s0.codes && Asks(given, i, s0.codes[d].text) ==> d in s.codes && s.codes[d].isUsed
  }

  ghost predicate AllRecovered(mine: seq<Claim>, s: State) {
    forall e :: e in mine ==>
      && e.code in s.codes && s.codes[e.code].checkout in s.checkouts
      && s.checkouts[s.codes[e.code].checkout].status == Recovered
  }

  lemma AskedForPersists(mine: seq<Claim>, s: State, s': State, given: seq<string>, n: nat, n': nat)
    requires AskedFor(mine, s, given, n) && Grows(s, s') && n <= n'
    ensures AskedFor(mine, s', given, n')
  {
    forall e | e in mine ensures e.code in s'.codes && exists i :: 0 <= i < n' && Asks(given, i, s'.codes[e.code].text) {
      var i :| 0 <= i < n && Asks(given, i, s.codes[e.code].text);
      assert Asks(given, i, s'.codes[e.code].text);
    }
  }

  lemma AllSpentPersists(s0: State, s: State, s': State, given: seq<string>, n: nat)
    requires AllSpent(s0, s, given, n) && Grows(s, s')
    ensures AllSpent(s0, s', given, n)
  {
  }

  lemma AllRecoveredPersists(mine: seq<Claim>, s: State, s': State)
    requires AllRecovered(mine, s) && Grows(s, s')
    ensures AllRecovered(mine, s')
  {
  }

  lemma {:induction false} ReportedTotal(mine: seq<Claim>, matched: seq<Id>, order: string, total: int)
    requires Reported(mine, matched, order, total)
    ensures LedgerTotal(mine) == |matched| * total
    decreases |mine|
  {
    if mine != [] {
      ReportedTotal(mine[..|mine| - 1], matched[..|matched| - 1], order, total);
      assert |matched| * total == (|matched| - 1) * total + total;
    }
  }

  ghost predicate TextSpent(s: State, s': State, text: string) {
    forall d :: d in s.codes && s.codes[d].text == text ==> d in s'.codes && s'.codes[d].isUsed
  }

  lemma SpentSoFar(s0: State, s: State, s': State, given: seq<string>, n: nat, code: string)
    requires Grows(s0, s) && Grows(s, s') && n < |given| && Text.Trim(given[n]) == code
    ensures AllSpent(s0, s, given, n) && TextSpent(s, s', code) ==> AllSpent(s0, s', given, n + 1)
  {
    if AllSpent(s0, s, given, n) && TextSpent(s, s', code) {
      AllSpentPersists(s0, s, s', given, n);
      forall i, d | 0 <= i < n + 1 && d in s0.codes && Asks(given, i, s0.codes[d].text) ensures d in s'.codes && s'.codes[d].isUsed {
        if i == n {
          assert d in s.codes && s.codes[d].text == code;
        }
      }
    }
  }

  /** Texts are unique: spending the one row found spends every row of that text. */
  lemma OneRowSpent(s: State, s': State, d: Id, text: string)
    requires Inv(s') && Grows(s, s') && d in s'.codes && s'.codes[d].text == text
    ensures s'.codes[d].isUsed ==> TextSpent(s, s', text)
  {
  }

  lemma NothingToSpend(s: State, s': State, text: string)
    ensures !HasText(s.codes, text) ==> TextSpent(s, s', text)
  {
  }

  lemma GrowsKeepsCode(s: State, s': State, d: Id)
    requires Grows(s, s') && d in s.codes
    ensures d in s'.codes && s'.codes[d].text == s.codes[d].text && s'.codes[d].campaign == s.codes[d].campaign
    ensures s.codes[d].isUsed ==> s'.codes[d].isUsed
  {
  }

  lemma SpentPersists(s0: State, s: State, s': State, text: string)
    requires Grows(s, s')
    ensures TextSpent(s0, s, text) ==> TextSpent(s0, s', text)
  {
  }

  lemma NowRecovered(s: State, e: Claim)
    requires e.code in s.codes && s.codes[e.code].checkout in s.checkouts
    ensures s.checkouts[s.codes[e.code].checkout].status == Recovered ==> AllRecovered([e], s)
  {
  }

  lemma EntryAsks(given: seq<string>, n: nat)
    requires n < |given| && CartCodes.ExtractCodePrefix(Text.Trim(given[n])) != ""
    ensures Asks(given, n, Text.Trim(given[n]))
  {
  }

  lemma NothingYet(s: State, given: seq<string>)
    ensures AskedFor([], s, given, 0) && AllSpent(s, s, given, 0) && AllRecovered([], s)
  {
  }

  /** One more entry of the order has been dealt with, without or with a claim. */
  lemma OneMoreAsked(mine: seq<Claim>, outcome: Outcome, s: State, s': State, given: seq<string>, n: nat, code: string)
    requires AskedFor(mine, s, given, n) && Grows(s, s') && n < |given| && Asks(given, n, code)
    requires outcome.Matched? ==> outcome.claim.code in s'.codes && s'.codes[outcome.claim.code].text == code
    ensures AskedFor(mine + Claimed1(outcome), s', given, n + 1)
  {
    AskedForPersists(mine, s, s', given, n, n + 1);
    if outcome.Matched? {
      assert Asks(given, n, s'.codes[outcome.claim.code].text);
    }
  }

  lemma OneMoreRecovered(mine: seq<Claim>, outcome: Outcome, s: State, s': State)
    requires AllRecovered(mine, s) && Grows(s, s') && (outcome.Matched? ==> AllRecovered([outcome.claim], s'))
    ensures AllRecovered(mine + Claimed1(outcome), s')
  {
    AllRecoveredPersists(mine, s, s');
    assert outcome.Matched? ==> outcome.claim in [outcome.claim];
  }

  lemma EntrySkipped(mine: seq<Claim>, s0: State, s: State, given: seq<string>, n: nat)
    requires AskedFor(mine, s, given, n) && n < |given| && CartCodes.ExtractCodePrefix(Text.Trim(given[n])) == ""
    ensures AskedFor(mine, s, given, n + 1)
    ensures AllSpent(s0, s, given, n) ==> AllSpent(s0, s, given, n + 1)
  {
    GrowsReflexive(s);
    AskedForPersists(mine, s, s, given, n, n + 1);
  }

  function Claimed1(outcome: Outcome): seq<Claim> {
    if outcome.Matched? then [outcome.claim] else []
  }

  datatype Outcome = Skipped | Matched(claim: Claim)

  class CartRecoveryAttributor {
    const db: Shop

    constructor (db: Shop)
      ensures this.db == db
    {
      this.db := db;
    }

    /** Look one code up, claim it if it is free, and write its checkout. */
    method TryCode(me: nat, code: string, order: string, total: int) returns (outcome: Outcome)
      requires db.Valid() && PcOf(db.View(), me) == Idle
      modifies db
      ensures db.Valid() && old(db.run) <= db.run && old(db.clock) <= db.clock
      ensures PcOf(db.View(), me) == Idle && Grows(old(db.View()), db.View())
      ensures ClaimsBy(db.ledger, me) == ClaimsBy(old(db.ledger), me) + Claimed1(outcome)
      ensures outcome.Matched? ==>
                var e := outcome.claim;
                && e.order == order && e.total == total
                && e.code in db.codes && db.codes[e.code].text == code && db.codes[e.code].campaign == e.campaign
      ensures db.AllOk(old(db.clock)) ==> TextSpent(old(db.View()), db.View(), code)
      ensures db.AllOk(old(db.clock)) && outcome.Matched? ==> AllRecovered([outcome.claim], db.View())
    {
      hide Grows, Inv, TextSpent, AllRecovered;
      outcome := Skipped;
      ghost var s0, c0 := db.View(), db.clock;
      var found, d := db.FindCode(me, code, order, total);
      ghost var s1 := db.View();
      if !found {
        NothingToSpend(s0, s1, code);
        return;
      }
      var won := db.ClaimRow(me, d, order, total);
      ghost var s2 := db.View();
      GrowsTransitive(s0, s1, s2);
      GrowsKeepsCode(s1, s2, d);
      ReachableInv(db.run);
      OneRowSpent(s0, s2, d, code);
      if !won {
        return;
      }
      var campaign := db.codes[d].campaign;
      db.RecoverRow(me, d, order, total);
      GrowsTransitive(s0, s2, db.View());
      GrowsKeepsCode(s2, db.View(), d);
      SpentPersists(s0, s2, db.View(), code);
      outcome := Matched(Claim(me, d, campaign, order, total));
      NowRecovered(db.View(), outcome.claim);
    }

    /**
     Whatever other actors do in between and whichever statements fail: the returned campaigns are
     those of the codes this call claimed, each claim books the full order total, and only codes that
     the order names are touched. If no statement failed, every code on record that the order names
     is used afterwards, and the checkouts of the claimed ones are recovered.
     */
    method AttributeOrder(me: nat, order: string, total: int, given: seq<string>)
      returns (matched: seq<Id>, ghost mine: seq<Claim>)
      requires db.Valid() && PcOf(db.View(), me) == Idle
      modifies db
      ensures db.Valid() && old(db.run) <= db.run && PcOf(db.View(), me) == Idle
      ensures ClaimsBy(db.ledger, me) == ClaimsBy(old(db.ledger), me) + mine
      ensures Reported(mine, matched, order, total) && LedgerTotal(mine) == |matched| * total
      ensures AskedFor(mine, db.View(), given, |given|)
      ensures db.AllOk(old(db.clock)) ==> AllSpent(old(db.View()), db.View(), given, |given|)
      ensures db.AllOk(old(db.clock)) ==> AllRecovered(mine, db.View())
    {
      hide Grows, AskedFor, AllSpent, AllRecovered, TextSpent, Asks, After, ClaimsBy, LedgerTotal;
      matched, mine := [], [];
      ghost var start := db.View();
      GrowsReflexive(start);
      NothingYet(start, given);
      for n := 0 to |given|
        invariant db.Valid() && old(db.run) <= db.run && old(db.clock) <= db.clock
        invariant PcOf(db.View(), me) == Idle && Grows(start, db.View())
        invariant ClaimsBy(db.ledger, me) == ClaimsBy(old(db.ledger), me) + mine
        invariant Reported(mine, matched, order, total)
        invariant AskedFor(mine, db.View(), given, n)
        invariant db.AllOk(old(db.clock)) ==> AllSpent(start, db.View(), given, n)
        invariant db.AllOk(old(db.clock)) ==> AllRecovered(mine, db.View())
      {
        var code := Text.Trim(given[n]);
        if code == "" || CartCodes.ExtractCodePrefix(code) == "" {
          EntrySkipped(mine, start, db.View(), given, n);
          continue;
        }
        ghost var before := db.View();
        var outcome := TryCode(me, code, order, total);
        EntryAsks(given, n);
        OneMoreAsked(mine, outcome, before, db.View(), given, n, code);
        SpentSoFar(start, before, db.View(), given, n, code);
        GrowsTransitive(start, before, db.View());
        if db.AllOk(old(db.clock)) {
          OneMoreRecovered(mine, outcome, before, db.View());
        }
        if outcome.Matched? {
          matched := matched + [outcome.claim.campaign];
        }
        mine := mine + Claimed1(outcome);
      }
      ReportedTotal(mine, matched, order, total);
    }
  }
}
