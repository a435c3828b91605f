/**
 What was mailed: every stored send answers to an accepted mail, and a mail of a discounted campaign
 carries a code of its own checkout.
 */
module CartDelivery {
  import opened CartState
  import opened CartInvariant
  import opened CartSafety

  /** The send that is stored for a mail. */
  predicate Answers(send: Send, m: Mail) {
    send.checkout == m.checkout && send.campaign == m.campaign && send.code == m.code && send.message == m.message
  }

  ghost predicate Mailed(outbox: seq<Mail>, send: Send) {
    exists m :: m in outbox && Answers(send, m)
  }

  /** A mail has a code exactly if its campaign had a discount, and that code is the checkout's. */
  ghost predicate CodeFits(s: State, m: Mail) {
    && (m.percent > 0.0 <==> m.code != NIL)
    && (m.code != NIL ==> Belongs(s, m.code, m.checkout, m.campaign))
  }

  predicate AtMailed(pc: Pc) {
    pc.Working? && pc.stage == Stage.Mailed
  }

  ghost predicate DeliveryInv(s: State) {
    && (forall m :: m in s.outbox ==> CodeFits(s, m))
    && (forall e :: e in s.sends && s.sends[e].status != Failed ==> Mailed(s.outbox, s.sends[e]))
    && (forall t :: t in s.pcs && AtMailed(s.pcs[t]) ==>
          MailInHand(s.pcs[t]) in s.outbox)
  }

  function MailInHand(pc: Pc): Mail
    requires pc.Working?
  {
    Mail(pc.checkout, pc.k.id, pc.k.percent, pc.issued, pc.message)
  }

  lemma MailsStillFit(s: State, s': State, m: Mail)
    requires CodeFits(s, m) && Grows(s, s')
    ensures CodeFits(s', m)
  {
  }

  /** The mail that is sent carries what has been issued for it. */
  lemma NewMailFits(s: State, t: nat, message: string, m: Mail)
    requires Inv(s) && m in DoSendMail(s, t, message, true).outbox && m !in s.outbox
    ensures CodeFits(s, m)
  {
    assert PcOk(s, PcOf(s, t));
  }

  lemma StepMailsFit(s: State, a: Action)
    requires Inv(s) && DeliveryInv(s)
    ensures forall m :: m in Apply(s, a).outbox ==> CodeFits(Apply(s, a), m)
  {
    var s' := Apply(s, a);
    StepGrows(s, a);
    Writers(s, a);
    assert forall m :: m in s.outbox ==> CodeFits(s, m);
    hide Inv, Grows, CodeFits, DeliveryInv, Apply, DoSendMail;
    forall m | m in s'.outbox ensures CodeFits(s', m) {
      if m !in s.outbox {
        OnlySent(s, a, m);
        NewMailFits(s, a.actor, a.message, m);
      }
      MailsStillFit(s, s', m);
    }
  }

  lemma OnlySent(s: State, a: Action, m: Mail)
    requires m in Apply(s, a).outbox && m !in s.outbox
    ensures a.SendMail? && m in DoSendMail(s, a.actor, a.message, true).outbox
  {
    Writers(s, a);
  }

  /** A send that is new either failed or was stored for the mail in hand. */
  lemma NewSend(s: State, a: Action, e: Id)
    requires e in Apply(s, a).sends && e !in s.sends
    ensures var send := Apply(s, a).sends[e];
            send.status == Failed || (!a.Upsert? && AtMailed(PcOf(s, a.actor)) && Answers(send, MailInHand(PcOf(s, a.actor))))
  {
    Writers(s, a);
  }

  lemma StaysMailed(s: State, s': State, e: Id)
    requires Grows(s, s') && e in s.sends && (s.sends[e].status != Failed ==> Mailed(s.outbox, s.sends[e]))
    ensures e in s'.sends && (s'.sends[e].status != Failed ==> Mailed(s'.outbox, s'.sends[e]))
  {
    if s'.sends[e].status != Failed {
      var m :| m in s.outbox && Answers(s.sends[e], m);
      assert m in s'.outbox && Answers(s'.sends[e], m);
    }
  }

  lemma NewIsMailed(s: State, a: Action, e: Id)
    requires DeliveryInv(s) && Grows(s, Apply(s, a)) && e in Apply(s, a).sends && e !in s.sends
    ensures Apply(s, a).sends[e].status != Failed ==> Mailed(Apply(s, a).outbox, Apply(s, a).sends[e])
  {
    NewSend(s, a, e);
    hide Apply, CodeFits;
    if Apply(s, a).sends[e].status != Failed {
      assert MailInHand(PcOf(s, a.actor)) in s.outbox;
    }
  }

  lemma StepSendsMailed(s: State, a: Action)
    requires Inv(s) && DeliveryInv(s)
    ensures forall e :: e in Apply(s, a).sends && Apply(s, a).sends[e].status != Failed ==>
              Mailed(Apply(s, a).outbox, Apply(s, a).sends[e])
  {
    var s' := Apply(s, a);
    StepGrows(s, a);
    hide Inv, Apply, Mailed, Grows, CodeFits;
    forall e | e in s'.sends && s'.sends[e].status != Failed ensures Mailed(s'.outbox, s'.sends[e]) {
      if e in s.sends {
        StaysMailed(s, s', e);
      } else {
        NewIsMailed(s, a, e);
      }
    }
  }

  /** Only the mail itself brings an executor to the point where it is sent and not yet recorded. */
  lemma OnlySendReaches(s: State, a: Action, t: nat)
    requires AtMailed(PcOf(Apply(s, a), t))
    ensures PcOf(Apply(s, a), t) == PcOf(s, t) || MailInHand(PcOf(Apply(s, a), t)) in Apply(s, a).outbox
  {
    Movers(s, a);
  }

  lemma StepInHand(s: State, a: Action)
    requires Inv(s) && DeliveryInv(s)
    ensures forall t :: t in Apply(s, a).pcs && AtMailed(Apply(s, a).pcs[t]) ==> MailInHand(Apply(s, a).pcs[t]) in Apply(s, a).outbox
  {
    var s' := Apply(s, a);
    StepGrows(s, a);
    hide Inv, Apply, MailInHand;
    forall t | t in s'.pcs && AtMailed(s'.pcs[t]) ensures MailInHand(s'.pcs[t]) in s'.outbox {
      OnlySendReaches(s, a, t);
      assert PcOf(s', t) == s'.pcs[t];
    }
  }

  lemma InitDelivery()
    ensures DeliveryInv(Init())
  {
  }

  lemma {:induction false} ReachableDelivery(run: seq<Action>)
    ensures DeliveryInv(After(run))
    decreases |run|
  {
    hide Inv, DeliveryInv, Apply;
    if run == [] {
      InitDelivery();
    } else {
      var s, a := After(run[..|run| - 1]), run[|run| - 1];
      ReachableInv(run[..|run| - 1]);
      ReachableDelivery(run[..|run| - 1]);
      StepDelivery(s, a);
    }
  }

  lemma StepDelivery(s: State, a: Action)
    requires Inv(s) && DeliveryInv(s)
    ensures DeliveryInv(Apply(s, a))
  {
    hide Inv, Apply, CodeFits, Mailed;
    StepMailsFit(s, a);
    StepSendsMailed(s, a);
    StepInHand(s, a);
  }

  /**
   An abandoned checkout was mailed by the campaign it names, and the stored send answers to that mail: if
   the campaign had a discount then, the mail carried a code issued for this very checkout, otherwise none.
   */
  lemma AbandonedWasMailed(run: seq<Action>, c: Id) returns (e: Id, m: Mail)
    requires c in After(run).checkouts && After(run).checkouts[c].status == Abandoned
    requires c !in After(run).unnoted
    ensures e in After(run).sends
    ensures var send := After(run).sends[e];
            && send.checkout == c && send.campaign == After(run).checkouts[c].campaign
            && (send.status == Sent || send.status == Opened)
            && m in After(run).outbox && Answers(send, m)
            && (m.percent > 0.0 ==> send.code != NIL && Belongs(After(run), send.code, c, send.campaign))
            && (m.percent <= 0.0 ==> send.code == NIL)
  {
    var s := After(run);
    ReachableInv(run);
    ReachableDelivery(run);
    hide After;
    assert HasDelivered(s, c, s.checkouts[c].campaign);
    e :| e in s.sends && s.sends[e].checkout == c && s.sends[e].campaign == s.checkouts[c].campaign && s.sends[e].status != Failed;
    assert Mailed(s.outbox, s.sends[e]);
    m :| m in s.outbox && Answers(s.sends[e], m);
    assert CodeFits(s, m);
  }
}
