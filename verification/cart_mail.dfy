/**
 How often a customer is mailed about one checkout.

 With one scanning executor at a time, a checkout gets at most one recovery mail over all campaigns
 and scans, unless the update that marks it abandoned failed. Two executors, or that failed update, do
 send a second mail. (CartOnce says for any number of executors exactly when that happens.) A failed mail is never sent again by the same campaign.
 */
module CartMail {
  import opened CartState
  import opened CartInvariant
  import opened CartSafety

  function Mails(outbox: seq<Mail>, c: Id): nat {
    if outbox == [] then 0
    else Mails(outbox[..|outbox| - 1], c) + if outbox[|outbox| - 1].checkout == c then 1 else 0
  }

  predicate IsFor(m: Mail, c: Id, k: Id) {
    m.checkout == c && m.campaign == k
  }

  function MailsOf(outbox: seq<Mail>, c: Id, k: Id): nat {
    if outbox == [] then 0
    else MailsOf(outbox[..|outbox| - 1], c, k) + if IsFor(outbox[|outbox| - 1], c, k) then 1 else 0
  }

  lemma MailsAppend(outbox: seq<Mail>, m: Mail, c: Id, k: Id)
    ensures Mails(outbox + [m], c) == Mails(outbox, c) + if m.checkout == c then 1 else 0
    ensures MailsOf(outbox + [m], c, k) == MailsOf(outbox, c, k) + if IsFor(m, c, k) then 1 else 0
  {
    assert (outbox + [m])[..|outbox|] == outbox;
  }

  // ---------- one executor ----------

  predicate ByExecutor(a: Action) {
    a.Scan? || a.Check? || a.Issue? || a.SendMail? || a.NoteSent? || a.NoteFailed? || a.MarkAbandoned? || a.Leave?
  }

  /** Every executor statement of the run is made by actor `x`. */
  predicate SoleExecutor(run: seq<Action>, x: nat) {
    forall i :: 0 <= i < |run| && ByExecutor(run[i]) ==> run[i].actor == x
  }

  ghost predicate Unmailed(s: State, c: Id) {
    Mails(s.outbox, c) == 0 || c in s.unmarked
  }

  ghost predicate AtMostOnce(s: State) {
    forall c :: Mails(s.outbox, c) <= 1 || c in s.unmarked
  }

  ghost predicate OthersDontScan(s: State, x: nat) {
    forall t :: t in s.pcs && t != x ==> !s.pcs[t].Scanning? && !s.pcs[t].Working?
  }

  ghost predicate QueueUnmailed(s: State, pc: Pc) {
    match pc
    case Scanning(_, rest) => Distinct(rest) && (forall c :: c in rest ==> Unmailed(s, c))
    case Working(_, rest, c, _, _, stage) =>
      && Distinct(rest) && c !in rest && (forall r :: r in rest ==> Unmailed(s, r))
      && (stage == Checked || stage == Coded || stage == Refused ==> Unmailed(s, c))
    case _ => true
  }

  /** The executor has mailed `c` and not yet tried to mark it. */
  predicate AboutToMark(pc: Pc, c: Id) {
    pc.Working? && pc.checkout == c && (pc.stage == Mailed || pc.stage == Noted)
  }

  ghost predicate MailedNotOpen(s: State, x: nat) {
    forall c :: c in s.checkouts && s.checkouts[c].status == Open ==> Unmailed(s, c) || AboutToMark(PcOf(s, x), c)
  }

  ghost predicate MailedExist(s: State) {
    forall c :: Mails(s.outbox, c) > 0 ==> c in s.checkouts
  }

  ghost predicate MailInv(s: State, x: nat) {
    && AtMostOnce(s) && OthersDontScan(s, x) && QueueUnmailed(s, PcOf(s, x)) && MailedNotOpen(s, x) && MailedExist(s)
  }

  lemma OthersStayOut(s: State, a: Action, x: nat)
    requires OthersDontScan(s, x) && (ByExecutor(a) ==> a.actor == x)
    ensures OthersDontScan(Apply(s, a), x)
  {
    Movers(s, a);
  }

  /** One more mail for `m`, by the executor that now has to mark it. */
  lemma MailKeepsMailInv(s: State, s': State, x: nat, m: Id)
    requires MailInv(s, x) && Unmailed(s, m) && m in s.checkouts
    requires s' == s.(outbox := s'.outbox, pcs := s'.pcs) && MovesOnly(s, s', x)
    requires forall c :: Mails(s'.outbox, c) == Mails(s.outbox, c) + if m == c then 1 else 0
    requires PcOf(s, x).Working? && PcOf(s, x).checkout == m && PcOf(s, x).stage == Coded
    requires PcOf(s', x).Working? && PcOf(s', x) == PcOf(s, x).(message := PcOf(s', x).message, stage := Mailed)
    ensures MailInv(s', x)
  {
    hide Mails, Distinct;
  }

  lemma RefusalKeepsMailInv(s: State, x: nat, message: string)
    requires MailInv(s, x)
    ensures MailInv(DoSendMail(s, x, message, false), x)
  {
    hide Mails, Distinct;
  }

  lemma SendingKeepsMailInv(s: State, x: nat, message: string, ok: bool)
    requires Inv(s) && MailInv(s, x)
    ensures MailInv(DoSendMail(s, x, message, ok), x)
  {
    var s' := DoSendMail(s, x, message, ok);
    var pc := PcOf(s, x);
    assert PcOk(s, pc);
    hide Inv, Mails, Distinct, MailsOf;
    if ok && pc.Working? && pc.stage == Coded {
      forall c ensures Mails(s'.outbox, c) == Mails(s.outbox, c) + if pc.checkout == c then 1 else 0 {
        MailsAppend(s.outbox, Mail(pc.checkout, pc.k.id, pc.k.percent, pc.issued, message), c, NIL);
      }
      MailKeepsMailInv(s, s', x, pc.checkout);
    } else if !ok {
      RefusalKeepsMailInv(s, x, message);
    }
  }

  /** Without a mail the counts stay, so what was unmailed stays so. */
  lemma UnmailedKept(s: State, s': State, pc: Pc)
    requires s'.outbox == s.outbox && s.unmarked <= s'.unmarked
    ensures forall c :: Unmailed(s, c) ==> Unmailed(s', c)
    ensures QueueUnmailed(s, pc) ==> QueueUnmailed(s', pc)
  {
  }

  lemma CheckKeepsQueue(s: State, x: nat, ok: bool)
    requires QueueUnmailed(s, PcOf(s, x))
    ensures QueueUnmailed(s, PcOf(DoCheck(s, x, ok), x))
  {
    var pc := PcOf(s, x);
    if pc.Scanning? && pc.rest != [] {
      assert forall i :: 0 <= i < |pc.rest| - 1 ==> pc.rest[1..][i] == pc.rest[i + 1];
    }
  }

  lemma ScanKeepsQueue(s: State, x: nat, k: Campaign, rows: seq<Id>)
    requires MailInv(s, x)
    ensures QueueUnmailed(s, PcOf(DoScan(s, x, k, rows), x))
  {
  }

  lemma OtherMovesKeepQueue(s: State, a: Action, x: nat)
    requires QueueUnmailed(s, PcOf(s, x)) && (ByExecutor(a) ==> a.actor == x)
    requires !a.SendMail? && !a.Check? && !a.Scan?
    ensures QueueUnmailed(s, PcOf(Apply(s, a), x))
  {
  }

  lemma QueueKept(s: State, a: Action, x: nat)
    requires Inv(s) && MailInv(s, x) && (ByExecutor(a) ==> a.actor == x) && !a.SendMail?
    ensures QueueUnmailed(Apply(s, a), PcOf(Apply(s, a), x))
  {
    if a.Check? {
      CheckKeepsQueue(s, x, a.ok);
    } else if a.Scan? {
      ScanKeepsQueue(s, x, a.k, a.rows);
    } else {
      OtherMovesKeepQueue(s, a, x);
    }
    Writers(s, a);
    StepGrows(s, a);
    UnmailedKept(s, Apply(s, a), PcOf(Apply(s, a), x));
  }

  lemma MarkKeepsOpenRows(s: State, x: nat, ok: bool)
    requires MailedNotOpen(s, x)
    ensures MailedNotOpen(DoMarkAbandoned(s, x, ok), x)
  {
  }

  lemma StillAboutToMark(s: State, a: Action, x: nat, c: Id)
    requires AboutToMark(PcOf(s, x), c) && !a.MarkAbandoned?
    ensures AboutToMark(PcOf(Apply(s, a), x), c)
  {
  }

  lemma OpenRowsKept(s: State, a: Action, x: nat)
    requires Inv(s) && MailInv(s, x) && (ByExecutor(a) ==> a.actor == x) && !a.SendMail?
    ensures MailedNotOpen(Apply(s, a), x)
  {
    if a.MarkAbandoned? {
      MarkKeepsOpenRows(s, x, a.ok);
    } else {
      Writers(s, a);
      StepGrows(s, a);
      forall c | AboutToMark(PcOf(s, x), c) ensures AboutToMark(PcOf(Apply(s, a), x), c) {
        StillAboutToMark(s, a, x, c);
      }
    }
  }

  lemma StepMailInv(s: State, a: Action, x: nat)
    requires Inv(s) && MailInv(s, x) && (ByExecutor(a) ==> a.actor == x)
    ensures MailInv(Apply(s, a), x)
  {
    if a.SendMail? {
      SendingKeepsMailInv(s, x, a.message, a.ok);
    } else {
      OthersStayOut(s, a, x);
      QueueKept(s, a, x);
      OpenRowsKept(s, a, x);
      Writers(s, a);
      StepGrows(s, a);
    }
  }

  lemma {:induction false} RunMailInv(run: seq<Action>, x: nat)
    requires SoleExecutor(run, x)
    ensures MailInv(After(run), x)
    decreases |run|
  {
    if run != [] {
      var before := run[..|run| - 1];
      RunMailInv(before, x);
      ReachableInv(before);
      StepMailInv(After(before), run[|run| - 1], x);
    }
  }

  predicate FailedMark(a: Action) {
    a.MarkAbandoned? && !a.ok
  }

  lemma StepUnmarked(s: State, a: Action)
    requires !FailedMark(a)
    ensures Apply(s, a).unmarked == s.unmarked
  {
  }

  lemma {:induction false} MarksSucceeded(run: seq<Action>)
    requires forall i :: 0 <= i < |run| ==> !FailedMark(run[i])
    ensures After(run).unmarked == {}
    decreases |run|
  {
    if run != [] {
      var before, a := run[..|run| - 1], run[|run| - 1];
      MarksSucceeded(before);
      StepUnmarked(After(before), a);
    }
  }

  /** One executor whose "abandoned" updates all go through mails every checkout at most once. */
  lemma OneMailPerCheckout(run: seq<Action>, x: nat, c: Id)
    requires SoleExecutor(run, x)
    requires forall i :: 0 <= i < |run| ==> !FailedMark(run[i])
    ensures Mails(After(run).outbox, c) <= 1
  {
    RunMailInv(run, x);
    MarksSucceeded(run);
  }

  // ---------- both conditions are needed ----------

  /** The database, or the mail provider, answers. */
  predicate Succeeds(a: Action) {
    a.Upsert? || a.Lookup? || a.FindSend? || a.Scan? || a.Leave? || a.ok
  }

  const FIRST: Campaign := Campaign(7, 0.0, "RECOVER-0000")
  const SECOND: Campaign := Campaign(8, 0.0, "RECOVER-0001")

  /** The mail of a campaign without discount for checkout 1. */
  function MailOf(k: Id): Mail {
    Mail(1, k, 0.0, NIL, "m")
  }

  /** One more statement at the end of a run. */
  lemma Extend(run: seq<Action>, a: Action) returns (longer: seq<Action>)
    ensures longer == run + [a] && After(longer) == Apply(After(run), a)
  {
    longer := run + [a];
    ExecAppend(Init(), run, a);
  }

  lemma CheckStarts(s: State, x: nat)
    requires PcOf(s, x).Scanning? && |PcOf(s, x).rest| == 1
    requires !HasSend(s.sends, PcOf(s, x).rest[0], PcOf(s, x).k.id)
    ensures DoCheck(s, x, true) == Goto(s, x, Working(PcOf(s, x).k, [], PcOf(s, x).rest[0], NIL, "", Checked))
  {
    assert PcOf(s, x).rest[1..] == [];
  }

  lemma PickUp(run: seq<Action>, x: nat, k: Campaign, c: Id) returns (longer: seq<Action>)
    requires Eligible(After(run).checkouts, [c]) && !HasSend(After(run).sends, c, k.id)
    requires Free(PcOf(After(run), x))
    ensures longer == run + [Scan(x, k, [c]), Check(x, true)]
    ensures After(longer) == Goto(After(run), x, Working(k, [], c, NIL, "", Checked))
  {
    longer := Extend(run, Scan(x, k, [c]));
    assert After(longer) == Goto(After(run), x, Scanning(k, [c]));
    longer := Extend(longer, Check(x, true));
    CheckStarts(Goto(After(run), x, Scanning(k, [c])), x);
  }

  lemma MailOut(run: seq<Action>, x: nat, k: Campaign, c: Id) returns (longer: seq<Action>)
    requires k.percent <= 0.0 && PcOf(After(run), x) == Working(k, [], c, NIL, "", Checked)
    ensures longer == run + [Issue(x, NIL, "", true), SendMail(x, "m", true)]
    ensures After(longer) == Goto(After(run), x, Working(k, [], c, NIL, "m", Mailed)).(outbox := After(run).outbox + [Mail(c, k.id, k.percent, NIL, "m")])
  {
    longer := Extend(run, Issue(x, NIL, "", true));
    assert After(longer) == Goto(After(run), x, Working(k, [], c, NIL, "", Coded));
    longer := Extend(longer, SendMail(x, "m", true));
  }

  /** The statements that take an executor without discount from the scan to the mail. */
  function Pass(x: nat, k: Campaign, c: Id): seq<Action> {
    [Scan(x, k, [c]), Check(x, true), Issue(x, NIL, "", true), SendMail(x, "m", true)]
  }

  /** An executor that is free can mail any open row whose campaign has no send on record for it. */
  lemma MailPass(run: seq<Action>, x: nat, k: Campaign, c: Id) returns (longer: seq<Action>)
    requires Eligible(After(run).checkouts, [c]) && k.percent <= 0.0 && !HasSend(After(run).sends, c, k.id)
    requires Free(PcOf(After(run), x))
    ensures longer == run + Pass(x, k, c)
    ensures After(longer) == Goto(After(run), x, Working(k, [], c, NIL, "m", Mailed)).(outbox := After(run).outbox + [Mail(c, k.id, k.percent, NIL, "m")])
  {
    longer := PickUp(run, x, k, c);
    longer := MailOut(longer, x, k, c);
  }

  lemma TwoMails(m: Mail, n: Mail)
    ensures Mails([m] + [n], n.checkout) == 1 + if m.checkout == n.checkout then 1 else 0
  {
    assert [m] == [] + [m];
    MailsAppend([], m, n.checkout, NIL);
    MailsAppend([m], n, n.checkout, NIL);
  }

  lemma FirstUpsert(token: string, email: string)
    ensures DoUpsert(Init(), 1, token, email, true).checkouts == map[1 := Checkout(token, email, Open, NIL, "")]
  {
    assert !HasToken(Init().checkouts, token);
  }

  lemma OneOpenCart() returns (run: seq<Action>)
    ensures run == [Upsert(1, "cart", "a@b", true)]
    ensures After(run) == Init().(checkouts := map[1 := Checkout("cart", "a@b", Open, NIL, "")])
  {
    run := Extend([], Upsert(1, "cart", "a@b", true));
    assert After([]) == Init();
    FirstUpsert("cart", "a@b");
  }

  lemma SoleConcat(run: seq<Action>, more: seq<Action>, x: nat)
    requires SoleExecutor(run, x) && SoleExecutor(more, x)
    ensures SoleExecutor(run + more, x)
  {
  }

  lemma PassSucceeds(x: nat, k: Campaign, c: Id)
    ensures SoleExecutor(Pass(x, k, c), x)
    ensures forall i :: 0 <= i < |Pass(x, k, c)| ==> Succeeds(Pass(x, k, c)[i])
  {
  }

  /** The checkout is mailed by executor 1 and then by executor 2. */
  lemma TwoPasses() returns (mailed: seq<Action>, run: seq<Action>)
    ensures mailed == [Upsert(1, "cart", "a@b", true)] + Pass(1, FIRST, 1) && run == mailed + Pass(2, FIRST, 1)
    ensures Mails(After(run).outbox, 1) == 2
  {
    hide Pass;
    mailed := OneOpenCart();
    mailed := MailPass(mailed, 1, FIRST, 1);
    run := MailPass(mailed, 2, FIRST, 1);
    assert After(run).outbox == [MailOf(7)] + [MailOf(7)];
    TwoMails(MailOf(7), MailOf(7));
  }

  /**
   Two executors that both scan before either marks the row mail the same checkout twice, and nothing fails.
   The first makes no statement once the second has begun, so this is also what happens when an executor
   dies after its mail and another takes over.
   */
  lemma TwoExecutorsMailTwice() returns (run: seq<Action>, n: nat)
    ensures forall i :: 0 <= i < |run| ==> Succeeds(run[i])
    ensures n <= |run| && SoleExecutor(run[..n], 1) && SoleExecutor(run[n..], 2)
    ensures Mails(After(run).outbox, 1) == 2
  {
    hide Pass, After, Mails;
    var mailed;
    mailed, run := TwoPasses();
    PassSucceeds(1, FIRST, 1);
    PassSucceeds(2, FIRST, 1);
    n := |mailed|;
    assert run[..n] == mailed && run[n..] == Pass(2, FIRST, 1);
  }

  /** After a failed update the mailed checkout is open again and the executor free for the next campaign. */
  lemma FailedMarkLeavesOpen(run: seq<Action>, x: nat) returns (longer: seq<Action>)
    requires After(run).sends == map[] && PcOf(After(run), x) == Working(FIRST, [], 1, NIL, "m", Mailed)
    ensures longer == run + [NoteSent(x, 5, true), MarkAbandoned(x, false)]
    ensures After(longer).checkouts == After(run).checkouts && After(longer).outbox == After(run).outbox
    ensures After(longer).sends == map[5 := Send(7, 1, NIL, "m", Sent)] && PcOf(After(longer), x) == Scanning(FIRST, [])
  {
    longer := Extend(run, NoteSent(x, 5, true));
    assert After(longer) == Goto(After(run).(sends := map[5 := Send(7, 1, NIL, "m", Sent)]), x, Working(FIRST, [], 1, NIL, "m", Noted));
    longer := Extend(longer, MarkAbandoned(x, false));
  }

  lemma MailedForBoth() returns (mailed: seq<Action>, reopened: seq<Action>, run: seq<Action>)
    ensures mailed == [Upsert(1, "cart", "a@b", true)] + Pass(1, FIRST, 1)
    ensures reopened == mailed + [NoteSent(1, 5, true), MarkAbandoned(1, false)]
    ensures run == reopened + Pass(1, SECOND, 1)
    ensures Mails(After(run).outbox, 1) == 2
  {
    hide Pass;
    mailed := OneOpenCart();
    mailed := MailPass(mailed, 1, FIRST, 1);
    reopened := FailedMarkLeavesOpen(mailed, 1);
    run := MailPass(reopened, 1, SECOND, 1);
    assert After(run).outbox == [MailOf(7)] + [MailOf(8)];
    TwoMails(MailOf(7), MailOf(8));
  }

  /** One executor whose update failed, and nothing else, finds the row open again and mails it for its next campaign. */
  lemma FailedMarkMailsTwice() returns (run: seq<Action>)
    ensures SoleExecutor(run, 1) && forall i :: 0 <= i < |run| ==> Succeeds(run[i]) || FailedMark(run[i])
    ensures Mails(After(run).outbox, 1) == 2
  {
    hide Pass, After, Mails;
    var mailed, reopened;
    mailed, reopened, run := MailedForBoth();
    PassSucceeds(1, FIRST, 1);
    PassSucceeds(1, SECOND, 1);
    SoleConcat(mailed, [NoteSent(1, 5, true), MarkAbandoned(1, false)], 1);
    SoleConcat(reopened, Pass(1, SECOND, 1), 1);
  }

  // ---------- a failed mail is not retried ----------

  /** A send of (c, k) is on record, and no executor is already past its check for it. */
  ghost predicate Blocked(s: State, c: Id, k: Id) {
    && HasSend(s.sends, c, k)
    && (forall t :: !PastCheck(PcOf(s, t), c, k))
  }

  predicate FailedCheck(a: Action) {
    a.Check? && !a.ok
  }

  predicate PastCheck(pc: Pc, c: Id, k: Id) {
    pc.Working? && pc.checkout == c && pc.k.id == k && (pc.stage == Checked || pc.stage == Coded)
  }

  lemma CheckStops(s: State, a: Action, c: Id, k: Id)
    requires HasSend(s.sends, c, k) && !FailedCheck(a) && !a.Upsert? && !PastCheck(PcOf(s, a.actor), c, k)
    ensures !PastCheck(PcOf(Apply(s, a), a.actor), c, k)
  {
  }

  lemma SendMailElsewhere(s: State, t: nat, message: string, ok: bool, c: Id, k: Id)
    requires !PastCheck(PcOf(s, t), c, k)
    ensures MailsOf(DoSendMail(s, t, message, ok).outbox, c, k) == MailsOf(s.outbox, c, k)
  {
    var pc := PcOf(s, t);
    if pc.Working? {
      MailsAppend(s.outbox, Mail(pc.checkout, pc.k.id, pc.k.percent, pc.issued, message), c, k);
    }
  }

  lemma SendsKept(s: State, s': State, c: Id, k: Id)
    requires HasSend(s.sends, c, k) && Grows(s, s')
    ensures HasSend(s'.sends, c, k)
  {
    var e :| e in s.sends && s.sends[e].checkout == c && s.sends[e].campaign == k;
    assert e in s'.sends;
  }

  lemma MailsElsewhere(s: State, a: Action, c: Id, k: Id)
    requires forall t :: !PastCheck(PcOf(s, t), c, k)
    ensures MailsOf(Apply(s, a).outbox, c, k) == MailsOf(s.outbox, c, k)
  {
    Writers(s, a);
    if a.SendMail? {
      SendMailElsewhere(s, a.actor, a.message, a.ok, c, k);
    }
  }

  lemma NobodyPast(s: State, a: Action, c: Id, k: Id)
    requires HasSend(s.sends, c, k) && !FailedCheck(a) && forall t :: !PastCheck(PcOf(s, t), c, k)
    ensures forall t :: !PastCheck(PcOf(Apply(s, a), t), c, k)
  {
    Movers(s, a);
    forall t: nat ensures !PastCheck(PcOf(Apply(s, a), t), c, k) {
      assert !PastCheck(PcOf(s, t), c, k);
      if !a.Upsert? && t == a.actor {
        CheckStops(s, a, c, k);
      }
    }
  }

  lemma StepBlocked(s: State, a: Action, c: Id, k: Id)
    requires Inv(s) && Blocked(s, c, k) && !FailedCheck(a)
    ensures Blocked(Apply(s, a), c, k)
    ensures MailsOf(Apply(s, a).outbox, c, k) == MailsOf(s.outbox, c, k)
  {
    StepGrows(s, a);
    hide Inv, Grows, Apply, PastCheck, MailsOf;
    SendsKept(s, Apply(s, a), c, k);
    NobodyPast(s, a, c, k);
    MailsElsewhere(s, a, c, k);
  }

  lemma {:induction false} RunBlocked(s: State, more: seq<Action>, c: Id, k: Id)
    requires Inv(s) && Blocked(s, c, k)
    requires forall i :: 0 <= i < |more| ==> !FailedCheck(more[i])
    ensures Blocked(Exec(s, more), c, k)
    ensures MailsOf(Exec(s, more).outbox, c, k) == MailsOf(s.outbox, c, k)
    decreases |more|
  {
    if more != [] {
      var init, a := more[..|more| - 1], more[|more| - 1];
      RunBlocked(s, init, c, k);
      RunGrows(s, init);
      assert !FailedCheck(a);
      StepBlocked(Exec(s, init), a, c, k);
    }
  }

  /**
   Whatever status the recorded send has, the campaign never mails that checkout again, in any
   continuation by any number of executors in which the lookup of earlier sends does not fail.
   */
  lemma RecordedSendBlocksCampaign(run: seq<Action>, more: seq<Action>, c: Id, k: Id)
    requires Blocked(After(run), c, k)
    requires forall i :: 0 <= i < |more| ==> !FailedCheck(more[i])
    ensures MailsOf(After(run + more).outbox, c, k) == MailsOf(After(run).outbox, c, k)
  {
    ReachableInv(run);
    RunBlocked(After(run), more, c, k);
    ExecConcat(Init(), run, more);
  }

  /** A refused mail is put on record as failed, if the statement succeeds. */
  lemma RefusalIsRecorded(run: seq<Action>, x: nat, row: Id)
    requires PcOf(After(run), x).Working? && PcOf(After(run), x).stage == Refused
    requires row != NIL && row !in After(run).sends
    ensures var pc, sends := PcOf(After(run), x), After(run + [NoteFailed(x, row, true)]).sends;
            && row in sends && sends[row].status == Failed && sends[row].checkout == pc.checkout
            && sends[row].campaign == pc.k.id && HasSend(sends, pc.checkout, pc.k.id)
  {
    ExecAppend(Init(), run, NoteFailed(x, row, true));
  }

  /** One executor that refused a mail, stored the failed send and went on has blocked that pair. */
  lemma FailedSendBlocks(run: seq<Action>, x: nat, e: Id)
    requires SoleExecutor(run, x)
    requires e in After(run).sends && After(run).sends[e].status == Failed
    requires !PcOf(After(run), x).Working?
    ensures Blocked(After(run), After(run).sends[e].checkout, After(run).sends[e].campaign)
  {
    RunMailInv(run, x);
  }
}
