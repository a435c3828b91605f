/**
 The handlers themselves, running over shared tables while other handlers run too.

 `schedule` decides, before each statement, which statements others execute and whether ours
 succeeds. It is an arbitrary function, so what is proved of a handler holds for every interleaving
 and every pattern of failures. `run` records all statements; the tables always are what that run
 leaves behind, so everything proved of runs holds at every point of every handler.
 */
module CartHandlers {
  import opened CartState
  import opened CartInvariant
  import opened CartSafety

  /** What happens around one statement of a handler. */
  datatype Tick = Tick(
    others: seq<Action>, // statements other actors execute first
    ok: bool,            // whether our statement succeeds
    newId: Id,           // the id the database generates if we insert
    text: string,        // random suffix or message id, where one is produced
    rows: seq<Id>)       // the order in which the database returns rows

  predicate Mine(a: Action, me: nat) {
    !a.Upsert? && a.actor == me
  }

  /** The statements of a run that `me` made, in order. */
  function Own(run: seq<Action>, me: nat): seq<Action> {
    if run == [] then []
    else Own(run[..|run| - 1], me) + if Mine(run[|run| - 1], me) then [run[|run| - 1]] else []
  }

  lemma OwnAppend(run: seq<Action>, a: Action, me: nat)
    ensures Own(run + [a], me) == Own(run, me) + if Mine(a, me) then [a] else []
  {
    assert (run + [a])[..|run|] == run;
  }

  /** The claims in a ledger that `me` made, in order. */
  function ClaimsBy(ledger: seq<Claim>, me: nat): seq<Claim> {
    if ledger == [] then []
    else ClaimsBy(ledger[..|ledger| - 1], me) + if ledger[|ledger| - 1].actor == me then [ledger[|ledger| - 1]] else []
  }

  lemma ClaimsAppend(ledger: seq<Claim>, e: Claim, me: nat)
    ensures ClaimsBy(ledger + [e], me) == ClaimsBy(ledger, me) + if e.actor == me then [e] else []
  {
    assert (ledger + [e])[..|ledger|] == ledger;
  }

  /** A statement of somebody else moves neither our program counter nor our claims. */
  lemma OthersLeaveMe(s: State, a: Action, me: nat)
    requires !Mine(a, me)
    ensures PcOf(Apply(s, a), me) == PcOf(s, me)
    ensures ClaimsBy(Apply(s, a).ledger, me) == ClaimsBy(s.ledger, me)
  {
    Movers(s, a);
    Writers(s, a);
    if a.ClaimCode? && Apply(s, a).ledger != s.ledger {
      ClaimsAppend(s.ledger, Apply(s, a).ledger[|s.ledger|], me);
    }
  }

  lemma ClaimEffect(s: State, me: nat, ok: bool)
    requires Inv(s) && PcOf(s, me).Found?
    ensures var pc, s' := PcOf(s, me), DoClaim(s, me, ok);
            var won := ok && pc.code in s.codes && !s.codes[pc.code].isUsed;
            && Grows(s, s') && pc.code in s'.codes
            && PcOf(s', me) == (if won then Claimed(pc.code, pc.order, pc.total) else Idle)
            && ClaimsBy(s'.ledger, me) == ClaimsBy(s.ledger, me)
                 + (if won then [Claim(me, pc.code, s'.codes[pc.code].campaign, pc.order, pc.total)] else [])
            && (ok ==> s'.codes[pc.code].isUsed)
  {
    var pc := PcOf(s, me);
    assert PcOk(s, pc);
    ClaimGrows(s, me, ok);
    ClaimsAppend(s.ledger, Claim(me, pc.code, s.codes[pc.code].campaign, pc.order, pc.total), me);
  }

  lemma RecoverEffect(s: State, me: nat, ok: bool)
    requires Inv(s) && PcOf(s, me).Claimed?
    ensures var pc, s' := PcOf(s, me), DoRecover(s, me, ok);
            && Grows(s, s') && PcOf(s', me) == Idle && s'.ledger == s.ledger
            && pc.code in s'.codes && s'.codes[pc.code].checkout in s'.checkouts
            && (ok ==> s'.checkouts[s'.codes[pc.code].checkout].status == Recovered)
  {
    assert PcOk(s, PcOf(s, me));
    assert Workable(s, s.codes[PcOf(s, me).code].checkout);
    RecoverGrows(s, me, ok);
  }

  class Shop {
    var checkouts: map<Id, Checkout>
    var codes: map<Id, Code>
    var sends: map<Id, Send>
    var pcs: map<nat, Pc>
    var outbox: seq<Mail>
    var ledger: seq<Claim>
    var unrecovered: set<Id>
    var unnoted: set<Id>
    var unmarked: set<Id>
    var clock: nat
    const schedule: nat -> Tick
    ghost var run: seq<Action>

    function View(): State
      reads this
    {
      State(checkouts, codes, sends, pcs, outbox, ledger, unrecovered, unnoted, unmarked)
    }

    /** The tables are what the recorded run leaves behind. */
    ghost predicate Valid()
      reads this
    {
      View() == After(run)
    }

    /** Every statement since tick `from` succeeded. */
    ghost predicate AllOk(from: nat)
      reads this
    {
      forall n :: from <= n < clock ==> schedule(n).ok
    }

    constructor (schedule: nat -> Tick)
      ensures Valid() && View() == Init() && run == [] && clock == 0 && this.schedule == schedule
    {
      this.schedule := schedule;
      checkouts, codes, sends, pcs := map[], map[], map[], map[];
      outbox, ledger := [], [];
      unrecovered, unnoted, unmarked := {}, {}, {};
      clock := 0;
      run := [];
    }

    method Become(s: State)
      modifies this
      ensures View() == s && run == old(run) && clock == old(clock)
    {
      checkouts, codes, sends, pcs := s.checkouts, s.codes, s.sends, s.pcs;
      outbox, ledger := s.outbox, s.ledger;
      unrecovered, unnoted, unmarked := s.unrecovered, s.unnoted, s.unmarked;
    }

    /** Execute one statement of somebody else. */
    method Perform(a: Action)
      requires Valid()
      modifies this
      ensures Valid() && run == old(run) + [a] && clock == old(clock)
      ensures View() == Apply(old(View()), a)
    {
      ExecAppend(Init(), run, a);
      Become(Apply(View(), a));
      run := run + [a];
    }

    /** Enter the statement of `me` that has just been carried out into the record. */
    ghost method Record(a: Action, me: nat)
      requires View() == Apply(After(run), a) && Mine(a, me)
      modifies this`run
      ensures Valid() && run == old(run) + [a]
      ensures Own(run, me) == Own(old(run), me) + [a]
      ensures Grows(After(old(run)), View())
    {
      ExecAppend(Init(), run, a);
      OwnAppend(run, a, me);
      ReachableInv(run);
      StepGrows(After(run), a);
      run := run + [a];
    }

    /** Time passes before our next statement: others execute theirs. */
    method Interleave(me: nat) returns (t: Tick)
      requires Valid()
      modifies this
      ensures Valid() && old(run) <= run && clock == old(clock) + 1 && t == schedule(old(clock))
      ensures Grows(old(View()), View())
      ensures PcOf(View(), me) == PcOf(old(View()), me)
      ensures Own(run, me) == Own(old(run), me) && ClaimsBy(ledger, me) == ClaimsBy(old(ledger), me)
    {
      t := schedule(clock);
      clock := clock + 1;
      ReachableInv(run);
      for i := 0 to |t.others|
        invariant Valid() && old(run) <= run && clock == old(clock) + 1
        invariant Inv(View()) && Grows(old(View()), View())
        invariant PcOf(View(), me) == PcOf(old(View()), me)
        invariant Own(run, me) == Own(old(run), me) && ClaimsBy(ledger, me) == ClaimsBy(old(ledger), me)
      {
        var a := t.others[i];
        if !Mine(a, me) {
          OthersLeaveMe(View(), a, me);
          OwnAppend(run, a, me);
          StepInv(View(), a);
          StepGrows(View(), a);
          GrowsTransitive(old(View()), View(), Apply(View(), a));
          Perform(a);
        }
      }
    }

    // ---------- the statements of the order attributor ----------

    /** SELECT ... FROM codes WHERE code = ?: the row is remembered for the statements that follow. */
    method FindCode(me: nat, text: string, order: string, total: int) returns (found: bool, d: Id)
      requires Valid() && PcOf(View(), me) == Idle
      modifies this
      ensures Valid() && old(run) <= run && clock == old(clock) + 1 && Grows(old(View()), View())
      ensures ClaimsBy(ledger, me) == ClaimsBy(old(ledger), me)
      ensures !found ==> PcOf(View(), me) == Idle && Own(run, me) == Own(old(run), me)
      ensures found ==> d in codes && codes[d].text == text && PcOf(View(), me) == Found(d, order, total)
      ensures found ==> Own(run, me) == Own(old(run), me) + [Lookup(me, d, order, total)]
      ensures AllOk(old(clock)) && HasText(old(codes), text) ==> found
    {
      var t := Interleave(me);
      found, d := false, NIL;
      if HasText(old(codes), text) {
        ghost var c :| c in old(codes) && old(codes)[c].text == text;
        assert c in codes && codes[c].text == text;
      }
      if t.ok {
        if c :| c in codes && codes[c].text == text {
          found, d := true, c;
          ghost var before := View();
          pcs := pcs[me := Found(d, order, total)];
          Record(Lookup(me, d, order, total), me);
          GrowsTransitive(old(View()), before, View());
        }
      }
    }

    /** UPDATE codes SET is_used = true, ... WHERE id = ? AND is_used = false; won: one row was affected. */
    method UpdateCode(me: nat, d: Id, order: string, total: int, ok: bool) returns (won: bool)
      requires Valid() && PcOf(View(), me) == Found(d, order, total) && d in codes
      modifies this
      ensures Valid() && run == old(run) + [ClaimCode(me, ok)] && clock == old(clock)
      ensures Own(run, me) == Own(old(run), me) + [ClaimCode(me, ok)]
      ensures View() == DoClaim(old(View()), me, ok)
      ensures won == (ok && !old(codes)[d].isUsed)
    {
      won := ok && !codes[d].isUsed;
      if won {
        ledger := ledger + [Claim(me, d, codes[d].campaign, order, total)];
        codes := codes[d := codes[d].(isUsed := true, order := order, total := total)];
        pcs := pcs[me := Claimed(d, order, total)];
      } else {
        pcs := pcs[me := Idle];
      }
      Record(ClaimCode(me, ok), me);
    }

    /** UPDATE checkouts SET status = 'recovered', ... WHERE id = ?, if the code names a checkout. */
    method UpdateRecovered(me: nat, d: Id, order: string, total: int, ok: bool)
      requires Valid() && PcOf(View(), me) == Claimed(d, order, total) && d in codes && codes[d].checkout in checkouts
      modifies this
      ensures Valid() && run == old(run) + [Recover(me, ok)] && clock == old(clock)
      ensures Own(run, me) == Own(old(run), me) + [Recover(me, ok)]
      ensures View() == DoRecover(old(View()), me, ok)
    {
      var c := codes[d].checkout;
      if c != NIL && ok {
        checkouts := checkouts[c := checkouts[c].(status := Recovered, order := order)];
      } else if c != NIL {
        unrecovered := unrecovered + {d};
      }
      pcs := pcs[me := Idle];
      Record(Recover(me, ok), me);
    }

    method ClaimRow(me: nat, d: Id, order: string, total: int) returns (won: bool)
      requires Valid() && PcOf(View(), me) == Found(d, order, total)
      modifies this
      ensures Valid() && old(run) <= run && clock == old(clock) + 1 && Grows(old(View()), View())
      ensures d in codes
      ensures won ==> PcOf(View(), me) == Claimed(d, order, total)
      ensures won ==> ClaimsBy(ledger, me) == ClaimsBy(old(ledger), me) + [Claim(me, d, codes[d].campaign, order, total)]
      ensures !won ==> PcOf(View(), me) == Idle && ClaimsBy(ledger, me) == ClaimsBy(old(ledger), me)
      ensures AllOk(old(clock)) ==> codes[d].isUsed
    {
      var t := Interleave(me);
      ReachableInv(run);
      ghost var before := View();
      ClaimEffect(before, me, t.ok);
      won := UpdateCode(me, d, order, total, t.ok);
      GrowsTransitive(old(View()), before, View());
    }

    method RecoverRow(me: nat, d: Id, order: string, total: int)
      requires Valid() && PcOf(View(), me) == Claimed(d, order, total)
      modifies this
      ensures Valid() && old(run) <= run && clock == old(clock) + 1 && Grows(old(View()), View())
      ensures PcOf(View(), me) == Idle && ClaimsBy(ledger, me) == ClaimsBy(old(ledger), me)
      ensures d in codes && codes[d].checkout in checkouts
      ensures AllOk(old(clock)) ==> checkouts[codes[d].checkout].status == Recovered
    {
      var t := Interleave(me);
      ReachableInv(run);
      ghost var before := View();
      RecoverEffect(before, me, t.ok);
      UpdateRecovered(me, d, order, total, t.ok);
      GrowsTransitive(old(View()), before, View());
    }

    // ---------- the statements of the scanning executor ----------

    /** SELECT ... WHERE status = 'open' AND customer_email != '': distinct rows, in an order of the database's choice. */
    method QueryOpen(me: nat, k: Campaign, wanted: seq<Id>) returns (rows: seq<Id>)
      requires Valid()
      requires PcOf(View(), me) == Idle || (PcOf(View(), me).Scanning? && PcOf(View(), me).rest == [])
      modifies this
      ensures Valid() && run == old(run) + [Scan(me, k, rows)] && clock == old(clock)
      ensures Own(run, me) == Own(old(run), me) + [Scan(me, k, rows)]
      ensures View() == DoScan(old(View()), me, k, rows) && PcOf(View(), me) == Scanning(k, rows)
      ensures forall c :: c in rows <==> c in wanted && c in checkouts && checkouts[c].status == Open && checkouts[c].email != ""
    {
      rows := [];
      for i := 0 to |wanted|
        invariant Eligible(checkouts, rows)
        invariant forall c :: c in rows <==> c in wanted[..i] && c in checkouts && checkouts[c].status == Open && checkouts[c].email != ""
      {
        var c := wanted[i];
        if c in checkouts && checkouts[c].status == Open && checkouts[c].email != "" && c !in rows {
          rows := rows + [c];
        }
      }
      pcs := pcs[me := Scanning(k, rows)];
      Record(Scan(me, k, rows), me);
    }

    /** SELECT ... FROM sends WHERE checkout_id = ? AND campaign_id = ?: found only if the query answers. */
    method FindSendOf(me: nat, k: Campaign, rest: seq<Id>, ok: bool) returns (found: bool)
      requires Valid() && PcOf(View(), me) == Scanning(k, rest) && rest != []
      modifies this
      ensures Valid() && run == old(run) + [Check(me, ok)] && clock == old(clock)
      ensures Own(run, me) == Own(old(run), me) + [Check(me, ok)]
      ensures View() == DoCheck(old(View()), me, ok) && found == (ok && HasSend(old(sends), rest[0], k.id))
      ensures PcOf(View(), me) == if found then Scanning(k, rest[1..]) else Working(k, rest[1..], rest[0], NIL, "", Checked)
    {
      found := ok && HasSend(sends, rest[0], k.id);
      if found {
        pcs := pcs[me := Scanning(k, rest[1..])];
      } else {
        pcs := pcs[me := Working(k, rest[1..], rest[0], NIL, "", Checked)];
      }
      Record(Check(me, ok), me);
    }

    /** Draw a code, register it with the shop platform and store it; or nothing, for a campaign without discount. */
    method InsertCode(me: nat, k: Campaign, rest: seq<Id>, c: Id, row: Id, suffix: string, ok: bool) returns (err: bool, d: Id)
      requires Valid() && PcOf(View(), me) == Working(k, rest, c, NIL, "", Checked)
      modifies this
      ensures Valid() && run == old(run) + [Issue(me, row, suffix, ok)] && clock == old(clock)
      ensures Own(run, me) == Own(old(run), me) + [Issue(me, row, suffix, ok)]
      ensures View() == DoIssue(old(View()), me, row, suffix, ok)
      ensures PcOf(View(), me) == if err then Scanning(k, rest) else Working(k, rest, c, d, "", Coded)
    {
      err, d := false, NIL;
      if k.percent > 0.0 {
        var text := k.prefix + "-" + suffix;
        if ok && row != NIL && row !in codes && !HasText(codes, text) {
          codes := codes[row := Code(k.id, c, text, false, "", 0)];
          d := row;
        } else {
          err := true;
        }
      }
      pcs := pcs[me := if err then Scanning(k, rest) else Working(k, rest, c, d, "", Coded)];
      Record(Issue(me, row, suffix, ok), me);
    }

    /** Hand the mail to the provider, which answers with a message id or refuses. */
    method Deliver(me: nat, k: Campaign, rest: seq<Id>, c: Id, d: Id, message: string, ok: bool)
      requires Valid() && PcOf(View(), me) == Working(k, rest, c, d, "", Coded)
      modifies this
      ensures Valid() && run == old(run) + [SendMail(me, message, ok)] && clock == old(clock)
      ensures Own(run, me) == Own(old(run), me) + [SendMail(me, message, ok)]
      ensures View() == DoSendMail(old(View()), me, message, ok)
      ensures PcOf(View(), me) == if ok then Working(k, rest, c, d, message, Mailed) else Working(k, rest, c, d, "", Refused)
    {
      if ok {
        outbox := outbox + [Mail(c, k.id, k.percent, d, message)];
        pcs := pcs[me := Working(k, rest, c, d, message, Mailed)];
      } else {
        pcs := pcs[me := Working(k, rest, c, d, "", Refused)];
      }
      Record(SendMail(me, message, ok), me);
    }

    /** INSERT INTO sends ... 'sent'; a failure is only logged. */
    method InsertSent(me: nat, k: Campaign, rest: seq<Id>, c: Id, d: Id, message: string, row: Id, ok: bool)
      requires Valid() && PcOf(View(), me) == Working(k, rest, c, d, message, Mailed)
      modifies this
      ensures Valid() && run == old(run) + [NoteSent(me, row, ok)] && clock == old(clock)
      ensures Own(run, me) == Own(old(run), me) + [NoteSent(me, row, ok)]
      ensures View() == DoNoteSent(old(View()), me, row, ok)
      ensures PcOf(View(), me) == Working(k, rest, c, d, message, Noted)
    {
      hide After, Own, Grows, Inv;
      if ok && row != NIL && row !in sends {
        sends := sends[row := Send(k.id, c, d, message, Sent)];
      } else {
        unnoted := unnoted + {c};
      }
      pcs := pcs[me := Working(k, rest, c, d, message, Noted)];
      Record(NoteSent(me, row, ok), me);
    }

    /** INSERT INTO sends ... 'failed', with an empty message id. */
    method InsertFailed(me: nat, k: Campaign, rest: seq<Id>, c: Id, d: Id, row: Id, ok: bool)
      requires Valid() && PcOf(View(), me) == Working(k, rest, c, d, "", Refused)
      modifies this
      ensures Valid() && run == old(run) + [NoteFailed(me, row, ok)] && clock == old(clock)
      ensures Own(run, me) == Own(old(run), me) + [NoteFailed(me, row, ok)]
      ensures View() == DoNoteFailed(old(View()), me, row, ok)
      ensures PcOf(View(), me) == Scanning(k, rest)
    {
      if ok && row != NIL && row !in sends {
        sends := sends[row := Send(k.id, c, d, "", Failed)];
      }
      pcs := pcs[me := Scanning(k, rest)];
      Record(NoteFailed(me, row, ok), me);
    }

    /** UPDATE checkouts SET status = 'abandoned', ... WHERE id = ? AND status = 'open'. */
    method UpdateAbandoned(me: nat, k: Campaign, rest: seq<Id>, c: Id, d: Id, message: string, ok: bool)
      requires Valid() && PcOf(View(), me) == Working(k, rest, c, d, message, Noted)
      modifies this
      ensures Valid() && run == old(run) + [MarkAbandoned(me, ok)] && clock == old(clock)
      ensures Own(run, me) == Own(old(run), me) + [MarkAbandoned(me, ok)]
      ensures View() == DoMarkAbandoned(old(View()), me, ok)
      ensures PcOf(View(), me) == Scanning(k, rest)
    {
      hide After, Own, Grows, Inv;
      if !ok {
        unmarked := unmarked + {c};
      } else if c in checkouts && checkouts[c].status == Open {
        checkouts := checkouts[c := checkouts[c].(status := Abandoned, campaign := k.id)];
      }
      pcs := pcs[me := Scanning(k, rest)];
      assert View() == DoMarkAbandoned(old(View()), me, ok);
      Record(MarkAbandoned(me, ok), me);
    }

    /** The scan is over. */
    method Finish(me: nat)
      requires Valid() && PcOf(View(), me).Scanning? && PcOf(View(), me).rest == []
      modifies this
      ensures Valid() && run == old(run) + [Leave(me)] && clock == old(clock)
      ensures Own(run, me) == Own(old(run), me) + [Leave(me)]
      ensures View() == DoLeave(old(View()), me) && PcOf(View(), me) == Idle
    {
      pcs := pcs[me := Idle];
      Record(Leave(me), me);
    }

    // ---------- the statements of the webhooks ----------

    /** INSERT ... ON CONFLICT (shop, token) DO UPDATE: every column but the status is refreshed. */
    method UpsertCheckout(newId: Id, token: string, email: string, create: bool) returns (row: Id)
      requires Valid()
      modifies this
      ensures Valid() && run == old(run) + [Upsert(row, token, email, create)] && clock == old(clock)
      ensures View() == DoUpsert(old(View()), row, token, email, create)
      ensures newId != NIL ==>
                || (row in checkouts && checkouts[row].token == token && checkouts[row].email == email)
                || (newId in checkouts && checkouts[newId].token != token)
      ensures forall c :: c in old(checkouts) && old(checkouts)[c].token == token ==>
                checkouts == old(checkouts)[c := old(checkouts)[c].(email := email)]
      ensures !HasToken(old(checkouts), token) && newId != NIL && newId !in old(checkouts) ==>
                checkouts == old(checkouts)[newId := Checkout(token, email, if create then Open else Ordered, NIL, "")]
      ensures !HasToken(old(checkouts), token) && (newId == NIL || newId in old(checkouts)) ==> checkouts == old(checkouts)
    {
      ReachableInv(run);
      row := newId;
      if c :| c in checkouts && checkouts[c].token == token {
        row := c;
        checkouts := checkouts[c := checkouts[c].(email := email)];
      } else if newId != NIL && newId !in checkouts {
        checkouts := checkouts[newId := Checkout(token, email, if create then Open else Ordered, NIL, "")];
      }
      ExecAppend(Init(), run, Upsert(row, token, email, create));
      run := run + [Upsert(row, token, email, create)];
    }

    /** SELECT ... FROM sends WHERE resend_message_id = ?. */
    method FindSendBy(me: nat, message: string) returns (found: bool, e: Id)
      requires Valid() && PcOf(View(), me) == Idle && message != ""
      modifies this
      ensures Valid() && old(run) <= run && clock == old(clock)
      ensures !found ==> View() == old(View()) && run == old(run)
      ensures found ==> run == old(run) + [FindSend(me, e, message)] && View() == DoFindSend(old(View()), me, e, message)
      ensures found ==> e in sends && sends[e].message == message && PcOf(View(), me) == Opening(e)
      ensures found <==> exists r :: r in old(sends) && old(sends)[r].message == message
    {
      found, e := false, NIL;
      if r :| r in sends && sends[r].message == message {
        found, e := true, r;
        pcs := pcs[me := Opening(r)];
        Record(FindSend(me, r, message), me);
      }
    }

    /** UPDATE sends SET status = 'opened', ... WHERE id = ?. */
    method UpdateOpened(me: nat, e: Id, ok: bool)
      requires Valid() && PcOf(View(), me) == Opening(e) && e in sends
      modifies this
      ensures Valid() && run == old(run) + [MarkOpened(me, ok)] && clock == old(clock)
      ensures View() == DoMarkOpened(old(View()), me, ok)
      ensures PcOf(View(), me) == Idle && e in sends && (ok ==> sends[e].status == Opened)
    {
      if ok {
        sends := sends[e := sends[e].(status := Opened)];
      }
      pcs := pcs[me := Idle];
      Record(MarkOpened(me, ok), me);
    }
  }
}
