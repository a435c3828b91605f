/**
 When a campaign mails a checkout again: exactly if no send of the two is on record.
 */
module CartRetry {
  import opened CartState
  import opened CartInvariant
  import opened CartSafety
  import opened CartMail
  import CartCodes

  /** A code's suffix is drawn from two random bytes. */
  ghost predicate Drawn(a: Action) {
    a.Issue? ==> exists hi: nat, lo: nat :: IsSuffix(a.suffix, hi, lo)
  }

  predicate IsSuffix(suffix: string, hi: nat, lo: nat) {
    hi < 256 && lo < 256 && suffix == CartCodes.RandomSuffix(hi, lo)
  }

  /** A suffix is left that gives a code the shop does not have yet. */
  ghost predicate SuffixLeft(codes: map<Id, Code>, k: Campaign) {
    exists suffix, hi: nat, lo: nat :: IsSuffix(suffix, hi, lo) && !HasText(codes, k.prefix + "-" + suffix)
  }

  /** In this continuation no lookup of earlier sends fails, and the campaign mails the checkout once more. */
  ghost predicate MailsAgain(run: seq<Action>, more: seq<Action>, c: Id, k: Id) {
    && (forall i :: 0 <= i < |more| ==> !FailedCheck(more[i]) && Drawn(more[i]))
    && MailsOf(After(run + more).outbox, c, k) > MailsOf(After(run).outbox, c, k)
  }

  lemma {:induction false} IdAbove(ids: set<Id>) returns (bound: nat)
    ensures bound > 0 && forall d :: d in ids ==> d < bound
    decreases |ids|
  {
    if ids == {} {
      bound := 1;
    } else {
      var d :| d in ids;
      var others := IdAbove(ids - {d});
      bound := if d < others then others else d + 1;
      forall e | e in ids ensures e < bound {
        assert e == d || e in ids - {d};
      }
    }
  }

  /** A discounted campaign: a new code is stored under a new id, and the mail carries it. */
  lemma MailWithCode(run: seq<Action>, x: nat, k: Campaign, c: Id, suffix: string)
    returns (row: Id, longer: seq<Action>)
    requires k.percent > 0.0 && PcOf(After(run), x) == Working(k, [], c, NIL, "", Checked)
    requires !HasText(After(run).codes, k.prefix + "-" + suffix)
    ensures longer == run + [Issue(x, row, suffix, true), SendMail(x, "m", true)]
    ensures After(longer).outbox == After(run).outbox + [Mail(c, k.id, k.percent, row, "m")]
  {
    row := IdAbove(After(run).codes.Keys);
    var issued := Extend(run, Issue(x, row, suffix, true));
    IssueGoesOn(After(run), x, k, c, row, suffix);
    longer := Extend(issued, SendMail(x, "m", true));
    assert longer == run + [Issue(x, row, suffix, true), SendMail(x, "m", true)];
  }

  lemma IssueGoesOn(s: State, x: nat, k: Campaign, c: Id, row: Id, suffix: string)
    requires k.percent > 0.0 && PcOf(s, x) == Working(k, [], c, NIL, "", Checked)
    requires row != NIL && row !in s.codes && !HasText(s.codes, k.prefix + "-" + suffix)
    ensures var s' := DoIssue(s, x, row, suffix, true);
            PcOf(s', x) == Working(k, [], c, row, "", Coded) && s'.outbox == s.outbox
  {
  }

  lemma MailsOnce(outbox: seq<Mail>, m: Mail)
    ensures MailsOf(outbox + [m], m.checkout, m.campaign) == MailsOf(outbox, m.checkout, m.campaign) + 1
  {
    MailsAppend(outbox, m, m.checkout, m.campaign);
  }

  /** The lookup, an issue with a drawn suffix or without discount, and the mail. */
  lemma PassIsAllowed(x: nat, k: Campaign, c: Id, row: Id, suffix: string)
    requires exists hi: nat, lo: nat :: IsSuffix(suffix, hi, lo)
    ensures forall a :: a in [Scan(x, k, [c]), Check(x, true), Issue(x, row, suffix, true), SendMail(x, "m", true)] ==>
              !FailedCheck(a) && Drawn(a)
  {
  }

  lemma ScanNext(run: seq<Action>, x: nat, k: Campaign, c: Id, row: Id, suffix: string)
    ensures run + [Scan(x, k, [c]), Check(x, true)] + [Issue(x, row, suffix, true), SendMail(x, "m", true)]
         == run + [Scan(x, k, [c]), Check(x, true), Issue(x, row, suffix, true), SendMail(x, "m", true)]
  {
  }

  lemma RetryWithCode(run: seq<Action>, x: nat, k: Campaign, c: Id) returns (more: seq<Action>)
    requires Free(PcOf(After(run), x)) && Eligible(After(run).checkouts, [c]) && !HasSend(After(run).sends, c, k.id)
    requires k.percent > 0.0 && SuffixLeft(After(run).codes, k)
    ensures MailsAgain(run, more, c, k.id)
  {
    hide After, Apply, MailsOf, Drawn, IsSuffix, HasText, Eligible, HasSend;
    var suffix, hi: nat, lo: nat :| IsSuffix(suffix, hi, lo) && !HasText(After(run).codes, k.prefix + "-" + suffix);
    var picked := PickUp(run, x, k, c);
    PickedCodes(After(run), x, k, c);
    var row, longer := MailWithCode(picked, x, k, c, suffix);
    more := [Scan(x, k, [c]), Check(x, true), Issue(x, row, suffix, true), SendMail(x, "m", true)];
    ScanNext(run, x, k, c, row, suffix);
    MailsOnce(After(picked).outbox, Mail(c, k.id, k.percent, row, "m"));
    PassIsAllowed(x, k, c, row, suffix);
  }

  lemma PickedCodes(s: State, x: nat, k: Campaign, c: Id)
    ensures var s' := Goto(s, x, Working(k, [], c, NIL, "", Checked));
            s'.codes == s.codes && s'.outbox == s.outbox && PcOf(s', x) == Working(k, [], c, NIL, "", Checked)
  {
  }

  lemma SomeSuffix()
    ensures IsSuffix(CartCodes.RandomSuffix(0, 0), 0, 0)
  {
  }

  lemma RetryWithoutCode(run: seq<Action>, x: nat, k: Campaign, c: Id) returns (more: seq<Action>)
    requires Free(PcOf(After(run), x)) && Eligible(After(run).checkouts, [c]) && !HasSend(After(run).sends, c, k.id)
    requires k.percent <= 0.0
    ensures MailsAgain(run, more, c, k.id)
  {
    hide After, Apply, MailsOf, Drawn, IsSuffix, HasText, Eligible, HasSend;
    var suffix := CartCodes.RandomSuffix(0, 0);
    SomeSuffix();
    var picked := PickUp(run, x, k, c);
    PickedCodes(After(run), x, k, c);
    var issued := Extend(picked, Issue(x, NIL, suffix, true));
    NoCodeGoesOn(After(picked), x, k, c, suffix);
    var longer := Extend(issued, SendMail(x, "m", true));
    MailGoesOut(After(issued), x, k, c);
    more := [Scan(x, k, [c]), Check(x, true), Issue(x, NIL, suffix, true), SendMail(x, "m", true)];
    ScanNext(run, x, k, c, NIL, suffix);
    assert longer == run + more;
    MailsOnce(After(picked).outbox, Mail(c, k.id, k.percent, NIL, "m"));
    PassIsAllowed(x, k, c, NIL, suffix);
  }

  lemma NoCodeGoesOn(s: State, x: nat, k: Campaign, c: Id, suffix: string)
    requires k.percent <= 0.0 && PcOf(s, x) == Working(k, [], c, NIL, "", Checked)
    ensures var s' := Apply(s, Issue(x, NIL, suffix, true));
            PcOf(s', x) == Working(k, [], c, NIL, "", Coded) && s'.outbox == s.outbox
  {
  }

  lemma MailGoesOut(s: State, x: nat, k: Campaign, c: Id)
    requires PcOf(s, x) == Working(k, [], c, NIL, "", Coded)
    ensures Apply(s, SendMail(x, "m", true)).outbox == s.outbox + [Mail(c, k.id, k.percent, NIL, "m")]
  {
  }

  /** With a free sole executor nobody is past the lookup for this pair. */
  lemma NobodyWorks(run: seq<Action>, x: nat, c: Id, k: Id)
    requires SoleExecutor(run, x) && Free(PcOf(After(run), x))
    ensures forall t :: !PastCheck(PcOf(After(run), t), c, k)
  {
    RunMailInv(run, x);
    hide After;
    forall t: nat ensures !PastCheck(PcOf(After(run), t), c, k) {
      if t != x && t in After(run).pcs {
        assert !After(run).pcs[t].Working?;
      }
    }
  }

  /**
   The exact condition for a retry. With one executor, free to scan, and a checkout that is still open: some
   continuation in which no lookup of earlier sends fails mails it for the campaign again if and only if no
   send of the two is on record, whatever its status. (A discounted campaign needs a code that is not taken.)
   */
  lemma RetryIff(run: seq<Action>, x: nat, k: Campaign, c: Id)
    requires SoleExecutor(run, x) && Free(PcOf(After(run), x)) && Eligible(After(run).checkouts, [c])
    requires k.percent > 0.0 ==> SuffixLeft(After(run).codes, k)
    ensures (exists more :: MailsAgain(run, more, c, k.id)) <==> !HasSend(After(run).sends, c, k.id)
  {
    hide After, SuffixLeft, Eligible;
    if HasSend(After(run).sends, c, k.id) {
      NobodyWorks(run, x, c, k.id);
      forall more | MailsAgain(run, more, c, k.id) ensures false {
        RecordedSendBlocksCampaign(run, more, c, k.id);
      }
    } else if k.percent > 0.0 {
      var more := RetryWithCode(run, x, k, c);
    } else {
      var more := RetryWithoutCode(run, x, k, c);
    }
  }
}
