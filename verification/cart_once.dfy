/**
 Exactly when a checkout is mailed at most once, with any number of executors: when none of them passes its
 lookup of earlier sends for a checkout that is already mailed or that another has passed its lookup for.
 */
module CartOnce {
  import opened CartState
  import opened CartInvariant
  import opened CartSafety
  import opened CartMail

  /** The executor has passed its lookup for this checkout and not yet sent its mail. */
  predicate Holds(pc: Pc, c: Id) {
    pc.Working? && PastCheck(pc, c, pc.k.id)
  }

  /** The lookup of an executor whose next row is `c`, which finds no send or fails. */
  predicate Passes(s: State, a: Action, c: Id) {
    && a.Check? && PcOf(s, a.actor).Scanning?
    && var pc := PcOf(s, a.actor);
       pc.rest != [] && pc.rest[0] == c && !(a.ok && HasSend(s.sends, c, pc.k.id))
  }

  predicate Clash(s: State, a: Action, c: Id) {
    Passes(s, a, c) && (Mails(s.outbox, c) > 0 || exists t :: t in s.pcs && Holds(s.pcs[t], c))
  }

  predicate NoClash(run: seq<Action>, c: Id) {
    run == [] || (NoClash(run[..|run| - 1], c) && !Clash(After(run[..|run| - 1]), run[|run| - 1], c))
  }

  /** The executor leaves the checkout without a mail: no code could be stored, or the mail was refused. */
  predicate GivesUp(s: State, a: Action, c: Id) {
    && (a.Issue? || a.SendMail?) && Holds(PcOf(s, a.actor), c)
    && !Holds(PcOf(Apply(s, a), a.actor), c) && Apply(s, a).outbox == s.outbox
  }

  predicate NobodyGivesUp(run: seq<Action>, c: Id) {
    run == [] || (NobodyGivesUp(run[..|run| - 1], c) && !GivesUp(After(run[..|run| - 1]), run[|run| - 1], c))
  }

  function Holders(s: State, c: Id): set<nat> {
    set t | t in s.pcs && Holds(s.pcs[t], c)
  }

  /** How often the checkout was mailed or is about to be. */
  function Weight(s: State, c: Id): nat {
    Mails(s.outbox, c) + |Holders(s, c)|
  }

  /** Nobody stands between lookup and mail of this checkout. */
  predicate Over(s: State, c: Id) {
    forall t :: t in s.pcs ==> !Holds(s.pcs[t], c)
  }

  // ---------- one statement ----------

  /** One actor moves: it may come to hold the checkout or cease to. */
  lemma HoldersMove(s: State, s': State, t: nat, c: Id)
    requires MovesOnly(s, s', t)
    ensures var h, h' := Holds(PcOf(s, t), c), Holds(PcOf(s', t), c);
            |Holders(s', c)| == |Holders(s, c)| + (if h' then 1 else 0) - if h then 1 else 0
  {
    hide Holds;
    IdleHoldsNothing(c);
    if Holds(PcOf(s', t), c) {
      assert t in s'.pcs && Holders(s', c) == Holders(s, c) + {t};
    } else {
      assert Holders(s', c) == Holders(s, c) - {t};
    }
    assert t in Holders(s, c) <==> Holds(PcOf(s, t), c);
  }

  lemma IdleHoldsNothing(c: Id)
    ensures !Holds(Idle, c)
  {
  }

  lemma CheckHolds(s: State, a: Action, c: Id)
    requires a.Check?
    ensures !Holds(PcOf(s, a.actor), c) || Apply(s, a) == s
    ensures Holds(PcOf(Apply(s, a), a.actor), c) <==> Holds(PcOf(s, a.actor), c) || Passes(s, a, c)
  {
  }

  lemma SendHolds(s: State, a: Action, c: Id)
    requires a.SendMail?
    ensures var pc, pc' := PcOf(s, a.actor), PcOf(Apply(s, a), a.actor);
            && (Holds(pc', c) ==> Holds(pc, c))
            && Mails(Apply(s, a).outbox, c) ==
               Mails(s.outbox, c) + if Holds(pc, c) && !Holds(pc', c) && Apply(s, a).outbox != s.outbox then 1 else 0
  {
    hide Mails;
    var pc := PcOf(s, a.actor);
    if pc.Working? {
      var m := Mail(pc.checkout, pc.k.id, pc.k.percent, pc.issued, a.message);
      MailsAppend(s.outbox, m, c, NIL);
    }
  }

  lemma IssueHolds(s: State, a: Action, c: Id)
    requires a.Issue?
    ensures Holds(PcOf(Apply(s, a), a.actor), c) ==> Holds(PcOf(s, a.actor), c)
  {
  }

  lemma OthersHold(s: State, a: Action, c: Id)
    requires !a.Check? && !a.SendMail? && !a.Issue? && !a.Upsert?
    ensures Holds(PcOf(Apply(s, a), a.actor), c) <==> Holds(PcOf(s, a.actor), c)
  {
  }

  /** A passed lookup adds one to what was mailed or will be, an executor that gives up takes one away. */
  lemma StepWeighs(s: State, a: Action, c: Id)
    ensures Weight(Apply(s, a), c) == Weight(s, c) + (if Passes(s, a, c) then 1 else 0) - if GivesUp(s, a, c) then 1 else 0
  {
    Writers(s, a);
    Movers(s, a);
    hide Apply, Mails, Holds, Passes;
    if a.Upsert? {
      assert Holders(Apply(s, a), c) == Holders(s, c);
      OnlyChecksPass(s, a, c);
    } else {
      HoldersMove(s, Apply(s, a), a.actor, c);
      if a.Check? {
        CheckHolds(s, a, c);
        PassingHoldsNothing(s, a, c);
      } else {
        OnlyChecksPass(s, a, c);
        if a.SendMail? {
          SendHolds(s, a, c);
        } else if a.Issue? {
          IssueHolds(s, a, c);
        } else {
          OthersHold(s, a, c);
        }
      }
    }
  }

  lemma OnlyChecksPass(s: State, a: Action, c: Id)
    requires !a.Check?
    ensures !Passes(s, a, c)
  {
  }

  lemma PassingHoldsNothing(s: State, a: Action, c: Id)
    requires a.Check?
    ensures Passes(s, a, c) ==> !Holds(PcOf(s, a.actor), c)
  {
  }

  // ---------- whole runs ----------

  lemma Unweighed(s: State, c: Id)
    requires Mails(s.outbox, c) == 0 && forall t :: t in s.pcs ==> !Holds(s.pcs[t], c)
    ensures Weight(s, c) == 0
  {
    hide Mails, Holds;
    assert Holders(s, c) == {};
  }

  lemma Weighed(s: State, a: Action, c: Id)
    requires Clash(s, a, c)
    ensures Passes(s, a, c) && Weight(s, c) >= 1
  {
    hide Mails, Holds;
    if Mails(s.outbox, c) == 0 {
      var t :| t in s.pcs && Holds(s.pcs[t], c);
      assert t in Holders(s, c);
    }
  }

  lemma StartsUnweighed(c: Id)
    ensures Weight(Init(), c) == 0
  {
    assert Holders(Init(), c) == {};
  }

  lemma {:induction false} NoClashWeighsOne(run: seq<Action>, c: Id)
    requires NoClash(run, c)
    ensures Weight(After(run), c) <= 1
    decreases |run|
  {
    hide Apply, Weight, Passes, GivesUp, Holds;
    StartsUnweighed(c);
    if run != [] {
      var before, a := After(run[..|run| - 1]), run[|run| - 1];
      NoClashWeighsOne(run[..|run| - 1], c);
      StepWeighs(before, a, c);
      if Passes(before, a, c) {
        Unweighed(before, c);
      }
    }
  }

  /** Without such a lookup a checkout is never mailed twice, whatever fails and whoever is still at work. */
  lemma NoClashMailsOnce(run: seq<Action>, c: Id)
    requires NoClash(run, c)
    ensures Mails(After(run).outbox, c) <= 1
  {
    hide NoClash, After;
    NoClashWeighsOne(run, c);
  }

  lemma {:induction false} ClashWeighsTwo(run: seq<Action>, c: Id)
    requires NobodyGivesUp(run, c) && !NoClash(run, c)
    ensures Weight(After(run), c) >= 2
    decreases |run|
  {
    hide Apply, Weight, Passes, GivesUp, Holds, Clash;
    var before, a := After(run[..|run| - 1]), run[|run| - 1];
    StepWeighs(before, a, c);
    if Clash(before, a, c) {
      Weighed(before, a, c);
    } else {
      ClashWeighsTwo(run[..|run| - 1], c);
    }
  }

  lemma OverWeighsMails(s: State, c: Id)
    requires Over(s, c)
    ensures Weight(s, c) == Mails(s.outbox, c)
  {
    hide Mails, Holds;
    assert Holders(s, c) == {};
  }

  /**
   The exact condition, for any number of executors, campaigns and scans: in a run in which every passed
   lookup for the checkout has ended in an accepted mail, it was mailed at most once if and only if no
   executor passed its lookup for it when it was mailed already or held by another.
   */
  lemma MailedOnceIff(run: seq<Action>, c: Id)
    requires Over(After(run), c) && NobodyGivesUp(run, c)
    ensures Mails(After(run).outbox, c) <= 1 <==> NoClash(run, c)
  {
    hide After, Over, NobodyGivesUp, NoClash, Weight;
    if NoClash(run, c) {
      NoClashMailsOnce(run, c);
    } else {
      ClashWeighsTwo(run, c);
      OverWeighsMails(After(run), c);
    }
  }

  // ---------- one executor ----------

  lemma SoleStepDoesNotClash(s: State, a: Action, x: nat, c: Id)
    requires MailInv(s, x) && s.unmarked == {} && (ByExecutor(a) ==> a.actor == x)
    ensures !Clash(s, a, c)
  {
    hide Mails, Distinct;
    if Passes(s, a, c) {
      assert PcOf(s, x).rest[0] in PcOf(s, x).rest;
      assert Unmailed(s, c);
    }
  }

  /** One executor whose "abandoned" updates all succeed makes no such lookup. */
  lemma {:induction false} SoleExecutorDoesNotClash(run: seq<Action>, x: nat, c: Id)
    requires SoleExecutor(run, x) && forall i :: 0 <= i < |run| ==> !FailedMark(run[i])
    ensures NoClash(run, c)
    decreases |run|
  {
    hide Apply, MailInv, Clash, After;
    if run != [] {
      var before := run[..|run| - 1];
      SoleExecutorDoesNotClash(before, x, c);
      RunMailInv(before, x);
      MarksSucceeded(before);
      SoleStepDoesNotClash(After(before), run[|run| - 1], x, c);
    }
  }
}
