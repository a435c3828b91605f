/**
 What every statement keeps. `Inv` holds initially and after each statement of each actor, whatever
 the others do in between; `Grows` says how rows may change from one state to a later one.
 */
module CartInvariant {
  import opened CartState

  // ---------- the invariant, clause by clause ----------

  ghost predicate TablesOk(s: State) {
    && NIL !in s.checkouts && NIL !in s.codes && NIL !in s.sends
    && (forall c, d :: c in s.checkouts && d in s.checkouts && s.checkouts[c].token == s.checkouts[d].token ==> c == d)
    && (forall c, d :: c in s.codes && d in s.codes && s.codes[c].text == s.codes[d].text ==> c == d)
  }

  /** A checkout that a code or a mail may point at: it exists and never was an order. */
  ghost predicate Workable(s: State, c: Id) {
    c in s.checkouts && s.checkouts[c].status != Ordered
  }

  ghost predicate CodesOk(s: State) {
    forall d :: d in s.codes ==> Workable(s, s.codes[d].checkout)
  }

  /** A code row issued by campaign `k` for checkout `c`. */
  ghost predicate Belongs(s: State, d: Id, c: Id, k: Id) {
    d in s.codes && s.codes[d].checkout == c && s.codes[d].campaign == k
  }

  ghost predicate SendOk(s: State, e: Send) {
    && (e.status == Failed ==> e.message == "")
    && (e.code != NIL ==> Belongs(s, e.code, e.checkout, e.campaign))
  }

  ghost predicate SendsOk(s: State) {
    forall e :: e in s.sends ==> SendOk(s, s.sends[e])
  }

  /** A stored send of this campaign for this checkout whose mail went out. */
  ghost predicate HasDelivered(s: State, c: Id, k: Id) {
    exists e :: e in s.sends && s.sends[e].checkout == c && s.sends[e].campaign == k && s.sends[e].status != Failed
  }

  ghost predicate AbandonedOk(s: State) {
    forall c :: c in s.checkouts && s.checkouts[c].status == Abandoned
                ==> HasDelivered(s, c, s.checkouts[c].campaign) || c in s.unnoted
  }

  /** A used code for this checkout, spent by this order. */
  ghost predicate HasSpent(s: State, c: Id, order: string) {
    exists d :: d in s.codes && s.codes[d].isUsed && s.codes[d].checkout == c && s.codes[d].order == order
  }

  ghost predicate RecoveredOk(s: State) {
    forall c :: c in s.checkouts && s.checkouts[c].status == Recovered ==> HasSpent(s, c, s.checkouts[c].order)
  }

  /** Some attributor has claimed code `d` and not yet written the checkout. */
  ghost predicate InFlight(s: State, d: Id) {
    exists t :: t in s.pcs && s.pcs[t].Claimed? && s.pcs[t].code == d
  }

  ghost predicate Settled(s: State, d: Id)
    requires d in s.codes
  {
    || InFlight(s, d)
    || d in s.unrecovered
    || (s.codes[d].checkout in s.checkouts && s.checkouts[s.codes[d].checkout].status == Recovered)
  }

  ghost predicate SettledOk(s: State) {
    forall d :: d in s.codes && s.codes[d].isUsed ==> Settled(s, d)
  }

  ghost predicate InLedger(s: State, d: Id) {
    exists i :: 0 <= i < |s.ledger| && s.ledger[i].code == d
  }

  ghost predicate EntryOk(s: State, e: Claim) {
    e.code in s.codes &&
    var row := s.codes[e.code];
    row.isUsed && row.campaign == e.campaign && row.order == e.order && row.total == e.total
  }

  ghost predicate LedgerOk(s: State) {
    && (forall i, j :: 0 <= i < j < |s.ledger| ==> s.ledger[i].code != s.ledger[j].code)
    && (forall i :: 0 <= i < |s.ledger| ==> EntryOk(s, s.ledger[i]))
    && (forall d :: d in s.codes && s.codes[d].isUsed ==> InLedger(s, d))
  }

  ghost predicate PcOk(s: State, pc: Pc) {
    match pc
    case Idle => true
    case Found(d, _, _) => d in s.codes
    case Claimed(d, order, total) =>
      d in s.codes && s.codes[d].isUsed && s.codes[d].order == order && s.codes[d].total == total
    case Opening(e) => e in s.sends && s.sends[e].message != ""
    case Scanning(_, rest) => forall c :: c in rest ==> Workable(s, c)
    case Working(k, rest, c, d, _, stage) =>
      && (forall c :: c in rest ==> Workable(s, c))
      && Workable(s, c)
      && (d != NIL ==> Belongs(s, d, c, k.id))
      && (stage != Checked ==> (d == NIL <==> k.percent <= 0.0))
      && (stage == Noted ==> HasDelivered(s, c, k.id) || c in s.unnoted)
  }

  ghost predicate PcsOk(s: State) {
    forall t :: t in s.pcs ==> PcOk(s, s.pcs[t])
  }

  ghost predicate Inv(s: State) {
    && TablesOk(s) && CodesOk(s) && SendsOk(s) && AbandonedOk(s)
    && RecoveredOk(s) && SettledOk(s) && LedgerOk(s) && PcsOk(s)
  }

  // ---------- how rows change over time ----------

  /** The only moves of a checkout; nothing leaves `Recovered` or `Ordered`. */
  predicate Moves(a: Status, b: Status) {
    a == b || (a == Open && b == Abandoned) || (a == Open && b == Recovered) || (a == Abandoned && b == Recovered)
  }

  predicate SendMoves(a: SendStatus, b: SendStatus) {
    a == b || (a == Sent && b == Opened)
  }

  ghost predicate CheckoutsGrow(s: State, s': State) {
    forall c :: c in s.checkouts ==>
      && c in s'.checkouts
      && s'.checkouts[c].token == s.checkouts[c].token
      && Moves(s.checkouts[c].status, s'.checkouts[c].status)
      && (s.checkouts[c].status != Open ==> s'.checkouts[c].campaign == s.checkouts[c].campaign)
  }

  /** Codes stay; what identifies them is fixed, and once used the row is frozen. */
  ghost predicate CodesGrow(s: State, s': State) {
    forall d :: d in s.codes ==>
      && d in s'.codes
      && s'.codes[d].campaign == s.codes[d].campaign
      && s'.codes[d].checkout == s.codes[d].checkout
      && s'.codes[d].text == s.codes[d].text
      && (s.codes[d].isUsed ==> s'.codes[d] == s.codes[d])
  }

  ghost predicate SendsGrow(s: State, s': State) {
    forall e :: e in s.sends ==>
      && e in s'.sends
      && s'.sends[e] == s.sends[e].(status := s'.sends[e].status)
      && SendMoves(s.sends[e].status, s'.sends[e].status)
  }

  ghost predicate Grows(s: State, s': State) {
    && CheckoutsGrow(s, s') && CodesGrow(s, s') && SendsGrow(s, s')
    && s.outbox <= s'.outbox && s.ledger <= s'.ledger
    && s.unrecovered <= s'.unrecovered && s.unnoted <= s'.unnoted && s.unmarked <= s'.unmarked
  }

  lemma GrowsReflexive(s: State)
    ensures Grows(s, s)
  {
  }

  lemma GrowsTransitive(a: State, b: State, c: State)
    requires Grows(a, b) && Grows(b, c)
    ensures Grows(a, c)
  {
    forall e | e in a.sends
      ensures e in c.sends && c.sends[e] == a.sends[e].(status := c.sends[e].status)
    {
      assert e in b.sends;
    }
  }

  lemma UpsertGrows(s: State, row: Id, token: string, email: string, create: bool)
    ensures Grows(s, DoUpsert(s, row, token, email, create))
  {
  }

  lemma ClaimGrows(s: State, t: nat, ok: bool)
    ensures Grows(s, DoClaim(s, t, ok))
  {
  }

  lemma RecoverGrows(s: State, t: nat, ok: bool)
    requires CodesOk(s)
    ensures Grows(s, DoRecover(s, t, ok))
  {
  }

  lemma MarkOpenedGrows(s: State, t: nat, ok: bool)
    requires SendsOk(s) && PcsOk(s)
    ensures Grows(s, DoMarkOpened(s, t, ok))
  {
    if t in s.pcs && s.pcs[t].Opening? {
      assert SendOk(s, s.sends[s.pcs[t].send]);
    }
  }

  lemma IssueGrows(s: State, t: nat, row: Id, suffix: string, ok: bool)
    ensures Grows(s, DoIssue(s, t, row, suffix, ok))
  {
  }

  lemma NoteSentGrows(s: State, t: nat, row: Id, ok: bool)
    ensures Grows(s, DoNoteSent(s, t, row, ok))
  {
  }

  lemma NoteFailedGrows(s: State, t: nat, row: Id, ok: bool)
    ensures Grows(s, DoNoteFailed(s, t, row, ok))
  {
  }

  lemma MarkAbandonedGrows(s: State, t: nat, ok: bool)
    ensures Grows(s, DoMarkAbandoned(s, t, ok))
  {
  }

  /** Statements that only read, and the mail itself, leave the tables alone. */
  predicate Quiet(a: Action) {
    a.Lookup? || a.FindSend? || a.Scan? || a.Check? || a.SendMail? || a.Leave?
  }

  lemma QuietKeepsTables(s: State, a: Action)
    requires Quiet(a)
    ensures Apply(s, a) == s.(pcs := Apply(s, a).pcs, outbox := Apply(s, a).outbox)
    ensures s.outbox <= Apply(s, a).outbox
  {
  }

  lemma SameTablesGrow(s: State, s': State)
    requires s' == s.(pcs := s'.pcs, outbox := s'.outbox) && s.outbox <= s'.outbox
    ensures Grows(s, s')
  {
  }

  lemma StepGrows(s: State, a: Action)
    requires CodesOk(s) && SendsOk(s) && PcsOk(s)
    ensures Grows(s, Apply(s, a))
  {
    match a
    case Upsert(row, token, email, create) => UpsertGrows(s, row, token, email, create);
    case ClaimCode(t, ok) => ClaimGrows(s, t, ok);
    case Recover(t, ok) => RecoverGrows(s, t, ok);
    case MarkOpened(t, ok) => MarkOpenedGrows(s, t, ok);
    case Issue(t, row, suffix, ok) => IssueGrows(s, t, row, suffix, ok);
    case NoteSent(t, row, ok) => NoteSentGrows(s, t, row, ok);
    case NoteFailed(t, row, ok) => NoteFailedGrows(s, t, row, ok);
    case MarkAbandoned(t, ok) => MarkAbandonedGrows(s, t, ok);
    case _ => QuietKeepsTables(s, a); SameTablesGrow(s, Apply(s, a));
  }

  /** Facts about rows that hold of `s` still hold of any state it grew into. */
  lemma FactsPersist(s: State, s': State)
    requires Grows(s, s')
    ensures forall c :: Workable(s, c) ==> Workable(s', c)
    ensures forall d, c, k :: Belongs(s, d, c, k) ==> Belongs(s', d, c, k)
    ensures forall c, k :: HasDelivered(s, c, k) ==> HasDelivered(s', c, k)
    ensures forall c, order :: HasSpent(s, c, order) ==> HasSpent(s', c, order)
    ensures forall pc :: PcOk(s, pc) ==> PcOk(s', pc)
  {
    forall c, k | HasDelivered(s, c, k) ensures HasDelivered(s', c, k) {
      var e :| e in s.sends && s.sends[e].checkout == c && s.sends[e].campaign == k && s.sends[e].status != Failed;
      assert e in s'.sends;
    }
    forall c, order | HasSpent(s, c, order) ensures HasSpent(s', c, order) {
      var d :| d in s.codes && s.codes[d].isUsed && s.codes[d].checkout == c && s.codes[d].order == order;
      assert d in s'.codes;
    }
  }

  // ---------- every statement keeps every clause ----------

  lemma InitInv()
    ensures Inv(Init())
  {
  }

  /** Which statements write which table. */
  lemma Writers(s: State, a: Action)
    ensures a.Upsert? || a.Recover? || a.MarkAbandoned? || Apply(s, a).checkouts == s.checkouts
    ensures a.ClaimCode? || a.Issue? || Apply(s, a).codes == s.codes
    ensures a.MarkOpened? || a.NoteSent? || a.NoteFailed? || Apply(s, a).sends == s.sends
    ensures a.ClaimCode? || Apply(s, a).ledger == s.ledger
    ensures a.SendMail? || Apply(s, a).outbox == s.outbox
  {
  }

  /** Whose program counter a statement moves. */
  lemma Movers(s: State, a: Action)
    ensures a.Upsert? ==> Apply(s, a).pcs == s.pcs
    ensures !a.Upsert? ==> MovesOnly(s, Apply(s, a), a.actor)
  {
  }

  /** Recover and MarkAbandoned rewrite a row, never its token, and add none. */
  lemma RewriteKeepsTokens(s: State, a: Action)
    requires a.Recover? || a.MarkAbandoned?
    ensures Apply(s, a).checkouts.Keys == s.checkouts.Keys
    ensures forall c :: c in s.checkouts ==> Apply(s, a).checkouts[c].token == s.checkouts[c].token
  {
  }

  lemma ClaimKeepsTexts(s: State, t: nat, ok: bool)
    ensures DoClaim(s, t, ok).codes.Keys == s.codes.Keys
    ensures forall d :: d in s.codes ==> DoClaim(s, t, ok).codes[d].text == s.codes[d].text
  {
  }

  lemma StepTokens(s: State, a: Action)
    requires TablesOk(s)
    ensures var s' := Apply(s, a);
            NIL !in s'.checkouts &&
            forall c, d :: c in s'.checkouts && d in s'.checkouts && s'.checkouts[c].token == s'.checkouts[d].token ==> c == d
  {
    Writers(s, a);
    if a.Recover? || a.MarkAbandoned? {
      RewriteKeepsTokens(s, a);
    }
  }

  lemma StepTexts(s: State, a: Action)
    requires TablesOk(s)
    ensures var s' := Apply(s, a);
            NIL !in s'.codes &&
            forall c, d :: c in s'.codes && d in s'.codes && s'.codes[c].text == s'.codes[d].text ==> c == d
  {
    Writers(s, a);
    if a.ClaimCode? {
      ClaimKeepsTexts(s, a.actor, a.ok);
    }
  }

  lemma StepSendIds(s: State, a: Action)
    requires TablesOk(s)
    ensures NIL !in Apply(s, a).sends
  {
    Writers(s, a);
  }

  lemma StepTablesOk(s: State, a: Action)
    requires TablesOk(s)
    ensures TablesOk(Apply(s, a))
  {
    StepTokens(s, a);
    StepTexts(s, a);
    StepSendIds(s, a);
  }

  lemma StepCodesOk(s: State, a: Action)
    requires Inv(s)
    ensures CodesOk(Apply(s, a))
  {
    StepGrows(s, a);
    FactsPersist(s, Apply(s, a));
  }

  lemma StepSendsOk(s: State, a: Action)
    requires Inv(s)
    ensures SendsOk(Apply(s, a))
  {
    StepGrows(s, a);
    FactsPersist(s, Apply(s, a));
  }

  /** Rows of status `want` in `s'` were already such rows of `s`, with the same campaign and order. */
  ghost predicate NoneNew(s: State, s': State, want: Status) {
    forall c :: c in s'.checkouts && s'.checkouts[c].status == want ==>
      && c in s.checkouts && s.checkouts[c].status == want
      && s.checkouts[c].campaign == s'.checkouts[c].campaign && s.checkouts[c].order == s'.checkouts[c].order
  }

  lemma OnlyMarkAbandons(s: State, a: Action)
    requires !a.MarkAbandoned?
    ensures NoneNew(s, Apply(s, a), Abandoned)
  {
    Writers(s, a);
  }

  lemma OnlyRecoverRecovers(s: State, a: Action)
    requires !a.Recover?
    ensures NoneNew(s, Apply(s, a), Recovered)
  {
    Writers(s, a);
  }

  lemma AbandonedPersists(s: State, s': State)
    requires AbandonedOk(s) && Grows(s, s') && NoneNew(s, s', Abandoned)
    ensures AbandonedOk(s')
  {
    FactsPersist(s, s');
  }

  lemma MarkAbandonedOk(s: State, t: nat, ok: bool)
    requires AbandonedOk(s) && PcsOk(s) && Grows(s, DoMarkAbandoned(s, t, ok))
    ensures AbandonedOk(DoMarkAbandoned(s, t, ok))
  {
    FactsPersist(s, DoMarkAbandoned(s, t, ok));
    assert PcOk(s, PcOf(s, t));
  }

  lemma StepAbandonedOk(s: State, a: Action)
    requires Inv(s) && Grows(s, Apply(s, a))
    ensures AbandonedOk(Apply(s, a))
  {
    if a.MarkAbandoned? {
      MarkAbandonedOk(s, a.actor, a.ok);
    } else {
      OnlyMarkAbandons(s, a);
      AbandonedPersists(s, Apply(s, a));
    }
  }

  lemma RecoveredPersists(s: State, s': State)
    requires RecoveredOk(s) && Grows(s, s') && NoneNew(s, s', Recovered)
    ensures RecoveredOk(s')
  {
    FactsPersist(s, s');
  }

  lemma RecoverOk(s: State, t: nat, ok: bool)
    requires RecoveredOk(s) && PcsOk(s) && Grows(s, DoRecover(s, t, ok))
    ensures RecoveredOk(DoRecover(s, t, ok))
  {
    var s' := DoRecover(s, t, ok);
    FactsPersist(s, s');
    assert PcOk(s, PcOf(s, t));
    forall c | c in s'.checkouts && s'.checkouts[c].status == Recovered ensures HasSpent(s, c, s'.checkouts[c].order) {
    }
  }

  lemma StepRecoveredOk(s: State, a: Action)
    requires Inv(s) && Grows(s, Apply(s, a))
    ensures RecoveredOk(Apply(s, a))
  {
    if a.Recover? {
      RecoverOk(s, a.actor, a.ok);
    } else {
      OnlyRecoverRecovers(s, a);
      RecoveredPersists(s, Apply(s, a));
    }
  }

  /** An actor whose program counter did not move is still in flight. */
  lemma InFlightKept(s: State, s': State, t: nat, d: Id)
    requires InFlight(s, d) && MovesOnly(s, s', t)
    requires PcOf(s, t).Claimed? && PcOf(s, t).code == d ==> PcOf(s', t) == PcOf(s, t)
    ensures InFlight(s', d)
  {
    var u :| u in s.pcs && s.pcs[u].Claimed? && s.pcs[u].code == d;
    assert u in s'.pcs && s'.pcs[u] == s.pcs[u];
  }

  lemma OnlyRecoverLands(s: State, a: Action)
    requires !a.Upsert? && PcOf(s, a.actor).Claimed? && !a.Recover?
    ensures PcOf(Apply(s, a), a.actor) == PcOf(s, a.actor)
  {
  }

  lemma RecoverSettles(s: State, t: nat, ok: bool)
    requires CodesOk(s) && PcsOk(s) && TablesOk(s) && PcOf(s, t).Claimed?
    ensures Settled(DoRecover(s, t, ok), PcOf(s, t).code)
  {
    assert PcOk(s, PcOf(s, t));
    assert Workable(s, s.codes[PcOf(s, t).code].checkout);
  }

  lemma SettledPersists(s: State, s': State, d: Id)
    requires Grows(s, s') && d in s.codes && Settled(s, d) && !InFlight(s, d)
    ensures Settled(s', d)
  {
  }

  lemma InFlightSettles(s: State, a: Action, d: Id)
    requires Inv(s) && !a.Upsert? && InFlight(s, d) && d in Apply(s, a).codes
    ensures Settled(Apply(s, a), d)
  {
    if PcOf(s, a.actor).Claimed? && PcOf(s, a.actor).code == d {
      if a.Recover? {
        RecoverSettles(s, a.actor, a.ok);
        return;
      }
      OnlyRecoverLands(s, a);
    }
    Movers(s, a);
    InFlightKept(s, Apply(s, a), a.actor, d);
  }

  lemma StepSettled(s: State, a: Action, d: Id)
    requires Inv(s) && Grows(s, Apply(s, a))
    requires d in s.codes && s.codes[d].isUsed
    ensures Settled(Apply(s, a), d)
  {
    if !InFlight(s, d) {
      SettledPersists(s, Apply(s, a), d);
    } else if a.Upsert? {
      Movers(s, a);
    } else {
      InFlightSettles(s, a, d);
    }
  }

  lemma OnlyClaimUses(s: State, a: Action, d: Id)
    requires d in Apply(s, a).codes && Apply(s, a).codes[d].isUsed
    requires d !in s.codes || !s.codes[d].isUsed
    ensures InFlight(Apply(s, a), d)
  {
    Writers(s, a);
    assert a.ClaimCode? && Apply(s, a).pcs[a.actor].Claimed? && Apply(s, a).pcs[a.actor].code == d;
  }

  lemma StepSettledOk(s: State, a: Action)
    requires Inv(s) && Grows(s, Apply(s, a))
    ensures SettledOk(Apply(s, a))
  {
    var s' := Apply(s, a);
    forall d | d in s'.codes && s'.codes[d].isUsed ensures Settled(s', d) {
      if d in s.codes && s.codes[d].isUsed {
        StepSettled(s, a, d);
      } else {
        OnlyClaimUses(s, a, d);
      }
    }
  }

  lemma ClaimLedgerOk(s: State, t: nat, ok: bool)
    requires LedgerOk(s)
    ensures LedgerOk(DoClaim(s, t, ok))
  {
    var s' := DoClaim(s, t, ok);
    if s'.ledger != s.ledger {
      var last := s'.ledger[|s.ledger|];
      assert s'.ledger == s.ledger + [last];
      forall i | 0 <= i < |s.ledger| ensures EntryOk(s', s'.ledger[i]) && s'.ledger[i].code != last.code {
        assert EntryOk(s, s.ledger[i]);
      }
      forall d | d in s'.codes && s'.codes[d].isUsed ensures InLedger(s', d) {
        if d == last.code {
          assert s'.ledger[|s.ledger|].code == d;
        } else {
          var i :| 0 <= i < |s.ledger| && s.ledger[i].code == d;
          assert s'.ledger[i].code == d;
        }
      }
    }
  }

  lemma LedgerPersists(s: State, s': State)
    requires LedgerOk(s) && Grows(s, s') && s'.ledger == s.ledger
    requires forall d :: d in s'.codes && s'.codes[d].isUsed ==> d in s.codes && s.codes[d].isUsed
    ensures LedgerOk(s')
  {
    forall i | 0 <= i < |s'.ledger| ensures EntryOk(s', s'.ledger[i]) {
      assert EntryOk(s, s.ledger[i]);
    }
    forall d | d in s'.codes && s'.codes[d].isUsed ensures InLedger(s', d) {
      assert InLedger(s, d);
    }
  }

  lemma StepLedgerOk(s: State, a: Action)
    requires Inv(s) && Grows(s, Apply(s, a))
    ensures LedgerOk(Apply(s, a))
  {
    if a.ClaimCode? {
      ClaimLedgerOk(s, a.actor, a.ok);
    } else {
      Writers(s, a);
      LedgerPersists(s, Apply(s, a));
    }
  }

  /** Where `t` stands after its own statement, the facts it relies on hold. */
  ghost predicate Landed(s: State, s': State, t: nat) {
    PcOk(s', PcOf(s', t))
  }

  lemma LookupLands(s: State, t: nat, row: Id, order: string, total: int)
    requires PcOk(s, PcOf(s, t))
    ensures Landed(s, DoLookup(s, t, row, order, total), t)
  {
  }

  lemma ClaimLands(s: State, t: nat, ok: bool)
    requires PcOk(s, PcOf(s, t))
    ensures Landed(s, DoClaim(s, t, ok), t)
  {
  }

  lemma FindSendLands(s: State, t: nat, row: Id, message: string)
    requires PcOk(s, PcOf(s, t))
    ensures Landed(s, DoFindSend(s, t, row, message), t)
  {
  }

  /** A statement that leaves its actor idle, or where it was, has nothing new to justify. */
  lemma IdleLands(s: State, s': State, t: nat)
    requires PcOk(s, PcOf(s, t)) && Grows(s, s')
    requires PcOf(s', t) == Idle || PcOf(s', t) == PcOf(s, t)
    ensures Landed(s, s', t)
  {
    FactsPersist(s, s');
  }

  /** Giving a checkout up leaves the queue, whose rows are as workable as before. */
  lemma BackToQueueLands(s: State, s': State, t: nat)
    requires PcOk(s, PcOf(s, t)) && Grows(s, s') && PcOf(s, t).Working?
    requires PcOf(s', t) == Scanning(PcOf(s, t).k, PcOf(s, t).rest)
    ensures Landed(s, s', t)
  {
    FactsPersist(s, s');
  }

  lemma ScanLands(s: State, t: nat, k: Campaign, rows: seq<Id>)
    requires PcOk(s, PcOf(s, t))
    ensures Landed(s, DoScan(s, t, k, rows), t)
  {
    FactsPersist(s, DoScan(s, t, k, rows)) by { SameTablesGrow(s, DoScan(s, t, k, rows)); }
  }

  lemma CheckLands(s: State, t: nat, ok: bool)
    requires PcOk(s, PcOf(s, t))
    ensures Landed(s, DoCheck(s, t, ok), t)
  {
    FactsPersist(s, DoCheck(s, t, ok)) by { SameTablesGrow(s, DoCheck(s, t, ok)); }
    var pc := PcOf(s, t);
    if pc.Scanning? && pc.rest != [] {
      assert Workable(s, pc.rest[0]);
    }
  }

  lemma SendMailLands(s: State, t: nat, message: string, ok: bool)
    requires PcOk(s, PcOf(s, t))
    ensures Landed(s, DoSendMail(s, t, message, ok), t)
  {
    FactsPersist(s, DoSendMail(s, t, message, ok)) by { SameTablesGrow(s, DoSendMail(s, t, message, ok)); }
  }

  lemma IssueLands(s: State, t: nat, row: Id, suffix: string, ok: bool)
    requires PcOk(s, PcOf(s, t)) && Grows(s, DoIssue(s, t, row, suffix, ok))
    ensures Landed(s, DoIssue(s, t, row, suffix, ok), t)
  {
    FactsPersist(s, DoIssue(s, t, row, suffix, ok));
  }

  lemma NoteSentLands(s: State, t: nat, row: Id, ok: bool)
    requires PcOk(s, PcOf(s, t)) && Grows(s, DoNoteSent(s, t, row, ok))
    ensures Landed(s, DoNoteSent(s, t, row, ok), t)
  {
    var pc, s' := PcOf(s, t), DoNoteSent(s, t, row, ok);
    FactsPersist(s, s');
    if pc.Working? && pc.stage == Mailed {
      assert s'.sends != s.sends ==> s'.sends[row].status == Sent;
      assert HasDelivered(s', pc.checkout, pc.k.id) || pc.checkout in s'.unnoted;
    }
  }

  lemma GivingUpLands(s: State, a: Action)
    requires Inv(s) && Grows(s, Apply(s, a))
    requires a.Recover? || a.MarkOpened? || a.NoteFailed? || a.MarkAbandoned? || a.Leave?
    ensures Landed(s, Apply(s, a), a.actor)
  {
    var pc := PcOf(s, a.actor);
    assert PcOk(s, pc);
    if pc.Working? && PcOf(Apply(s, a), a.actor) != pc {
      BackToQueueLands(s, Apply(s, a), a.actor);
    } else {
      IdleLands(s, Apply(s, a), a.actor);
    }
  }

  lemma MoverLands(s: State, a: Action)
    requires Inv(s) && !a.Upsert? && Grows(s, Apply(s, a))
    ensures Landed(s, Apply(s, a), a.actor)
  {
    assert PcOk(s, PcOf(s, a.actor));
    match a
    case Lookup(t, row, order, total) => LookupLands(s, t, row, order, total);
    case ClaimCode(t, ok) => ClaimLands(s, t, ok);
    case FindSend(t, row, message) => FindSendLands(s, t, row, message);
    case Scan(t, k, rows) => ScanLands(s, t, k, rows);
    case Check(t, ok) => CheckLands(s, t, ok);
    case Issue(t, row, suffix, ok) => IssueLands(s, t, row, suffix, ok);
    case SendMail(t, message, ok) => SendMailLands(s, t, message, ok);
    case NoteSent(t, row, ok) => NoteSentLands(s, t, row, ok);
    case _ => GivingUpLands(s, a);
  }

  lemma StepPcsOk(s: State, a: Action)
    requires Inv(s) && Grows(s, Apply(s, a))
    ensures PcsOk(Apply(s, a))
  {
    FactsPersist(s, Apply(s, a));
    Movers(s, a);
    if !a.Upsert? {
      MoverLands(s, a);
    }
  }

  lemma StepInv(s: State, a: Action)
    requires Inv(s)
    ensures Inv(Apply(s, a))
  {
    StepGrows(s, a);
    StepTablesOk(s, a);
    StepCodesOk(s, a);
    StepSendsOk(s, a);
    StepAbandonedOk(s, a);
    StepRecoveredOk(s, a);
    StepSettledOk(s, a);
    StepLedgerOk(s, a);
    StepPcsOk(s, a);
  }
}
