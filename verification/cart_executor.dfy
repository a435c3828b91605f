/**
 CartRecoveryExecutor: scan for abandoned checkouts and mail them.
 */
module CartExecutor {
  import opened CartState
  import opened CartInvariant
  import opened CartSafety
  import opened CartHandlers

  /**
   The statements of one processCheckout, in order. It ends without error exactly if the mail went
   out, and only then is the checkout marked, after everything else.
   */
  predicate Worked(steps: seq<Action>, err: bool) {
    || (err && |steps| == 1 && steps[0].Issue?)
    || (err && |steps| == 3 && steps[0].Issue? && steps[1].SendMail? && !steps[1].ok && steps[2].NoteFailed?)
    || (!err && |steps| == 4 && steps[0].Issue? && steps[1].SendMail? && steps[1].ok && steps[2].NoteSent? && steps[3].MarkAbandoned?)
  }

  /** From run `r` to run `r'`, actor `me` made exactly these statements of its own. */
  ghost predicate Did(me: nat, r: seq<Action>, r': seq<Action>, steps: seq<Action>) {
    r <= r' && Own(r', me) == Own(r, me) + steps
  }

  lemma DidMore(me: nat, r: seq<Action>, r': seq<Action>, r'': seq<Action>, a: seq<Action>, b: seq<Action>)
    requires Did(me, r, r', a) && Did(me, r', r'', b)
    ensures Did(me, r, r'', a + b)
  {
    assert Own(r, me) + a + b == Own(r, me) + (a + b);
  }

  lemma GaveUpAtCode(a: Action)
    requires a.Issue?
    ensures Worked([a], true)
  {
  }

  lemma GaveUpAtMail(a: Action, b: Action, c: Action)
    requires a.Issue? && b.SendMail? && !b.ok && c.NoteFailed?
    ensures Worked([a] + [b] + [c], true)
  {
  }

  lemma WentThrough(a: Action, b: Action, c: Action, d: Action)
    requires a.Issue? && b.SendMail? && b.ok && c.NoteSent? && d.MarkAbandoned?
    ensures Worked([a] + [b] + [c] + [d], false)
  {
  }

  /** The campaigns whose rows were fetched, in order. */
  function Scans(steps: seq<Action>): seq<Campaign> {
    if steps == [] then []
    else Scans(steps[..|steps| - 1]) + if steps[|steps| - 1].Scan? then [steps[|steps| - 1].k] else []
  }

  lemma {:induction false} ScansConcat(a: seq<Action>, b: seq<Action>)
    ensures Scans(a + b) == Scans(a) + Scans(b)
    decreases |b|
  {
    if b == [] {
      assert a + b == a;
    } else {
      ScansConcat(a, b[..|b| - 1]);
      assert (a + b)[..|a + b| - 1] == a + b[..|b| - 1];
    }
  }

  lemma {:induction false} NoScans(steps: seq<Action>)
    requires forall a :: a in steps ==> !a.Scan?
    ensures Scans(steps) == []
    decreases |steps|
  {
    if steps != [] {
      NoScans(steps[..|steps| - 1]);
    }
  }

  lemma CheckIsNoScan(a: Action)
    requires a.Check?
    ensures Scans([a]) == []
  {
  }

  lemma WorkHasNoScan(steps: seq<Action>, err: bool)
    requires Worked(steps, err)
    ensures Scans(steps) == []
  {
    NoScans(steps);
  }

  /** What one row of the queue comes to: a lookup that finds a send, or a lookup and the work. */
  predicate Took(steps: seq<Action>) {
    && |steps| >= 1 && steps[0].Check?
    && ((|steps| == 1 && steps[0].ok) || Worked(steps[1..], true) || Worked(steps[1..], false))
  }

  /** `n` rows, each looked up and, unless a send was found, worked. */
  ghost predicate TookRows(steps: seq<Action>, n: nat)
    decreases n
  {
    if n == 0 then steps == []
    else exists j :: 0 <= j <= |steps| && TookRows(steps[..j], n - 1) && Took(steps[j..])
  }

  /** One campaign: nothing if its rows cannot be read, else one scan and all the rows it fetched. */
  ghost predicate ScanWorked(steps: seq<Action>, me: nat, k: Campaign) {
    || steps == []
    || (steps[0].Scan? && steps[0].actor == me && steps[0].k == k && TookRows(steps[1..], |steps[0].rows|))
  }

  /** One campaign after the other. */
  ghost predicate CampaignsWorked(steps: seq<Action>, me: nat, campaigns: seq<Campaign>)
    decreases |campaigns|
  {
    if campaigns == [] then steps == []
    else
      var last := |campaigns| - 1;
      exists j :: 0 <= j <= |steps| && CampaignsWorked(steps[..j], me, campaigns[..last]) && ScanWorked(steps[j..], me, campaigns[last])
  }

  lemma CutAgain(a: seq<Action>, b: seq<Action>)
    ensures (a + b)[..|a|] == a && (a + b)[|a|..] == b
  {
  }

  lemma OneMoreRow(a: seq<Action>, n: nat, b: seq<Action>)
    requires TookRows(a, n) && Took(b)
    ensures TookRows(a + b, n + 1)
  {
    CutAgain(a, b);
    assert TookRows((a + b)[..|a|], n) && Took((a + b)[|a|..]);
  }

  lemma OneMoreCampaign(a: seq<Action>, me: nat, campaigns: seq<Campaign>, n: nat, b: seq<Action>)
    requires n < |campaigns| && CampaignsWorked(a, me, campaigns[..n]) && ScanWorked(b, me, campaigns[n])
    ensures CampaignsWorked(a + b, me, campaigns[..n + 1])
  {
    CutAgain(a, b);
    assert campaigns[..n + 1][..n] == campaigns[..n] && campaigns[..n + 1][n] == campaigns[n];
    assert CampaignsWorked((a + b)[..|a|], me, campaigns[..n]) && ScanWorked((a + b)[|a|..], me, campaigns[n]);
  }

  lemma NothingWorked(me: nat, campaigns: seq<Campaign>)
    ensures CampaignsWorked([], me, campaigns[..0]) && TookRows([], 0)
  {
  }

  lemma RowWorked(check: Action, work: seq<Action>, err: bool)
    requires check.Check? && Worked(work, err)
    ensures Took([check] + work)
  {
    CutAgain([check], work);
  }

  lemma RowSkipped(check: Action)
    requires check.Check? && check.ok
    ensures Took([check])
  {
  }

  lemma CampaignScanned(scan: Action, me: nat, k: Campaign, work: seq<Action>)
    requires scan.Scan? && scan.actor == me && scan.k == k && TookRows(work, |scan.rows|)
    ensures ScanWorked([scan] + work, me, k)
  {
    CutAgain([scan], work);
  }

  /** All campaigns, and possibly the end of the last scan. */
  ghost predicate AllWorked(steps: seq<Action>, me: nat, campaigns: seq<Campaign>) {
    || CampaignsWorked(steps, me, campaigns)
    || (steps != [] && steps[|steps| - 1] == Leave(me) && CampaignsWorked(steps[..|steps| - 1], me, campaigns))
  }

  lemma ScanEnds(steps: seq<Action>, me: nat, campaigns: seq<Campaign>)
    requires CampaignsWorked(steps, me, campaigns)
    ensures AllWorked(steps + [Leave(me)], me, campaigns)
  {
    CutAgain(steps, [Leave(me)]);
  }

  /** Once the mail is out: the row is no longer open, or the update that should have closed it failed. */
  ghost predicate Closed(s: State, c: Id) {
    c in s.checkouts && (s.checkouts[c].status != Open || c in s.unmarked)
  }

  /** The mail for this checkout is on record, or storing it failed. */
  ghost predicate DeliveredOrLost(s: State, c: Id, k: Campaign) {
    HasDelivered(s, c, k.id) || c in s.unnoted
  }

  lemma MarkCloses(s: State, me: nat, ok: bool)
    requires Inv(s) && PcOf(s, me).Working? && PcOf(s, me).stage == Noted
    ensures var c, k, s' := PcOf(s, me).checkout, PcOf(s, me).k, DoMarkAbandoned(s, me, ok);
            && Grows(s, s') && Closed(s', c)
            && DeliveredOrLost(s', c, k)
  {
    assert PcOk(s, PcOf(s, me));
    MarkAbandonedGrows(s, me, ok);
    FactsPersist(s, DoMarkAbandoned(s, me, ok));
  }

  class CartRecoveryExecutor {
    const db: Shop

    constructor (db: Shop)
      ensures this.db == db
    {
      this.db := db;
    }

    method GetCode(me: nat, k: Campaign, rest: seq<Id>, c: Id) returns (failed: bool, d: Id, ghost a: Action)
      requires db.Valid() && PcOf(db.View(), me) == Working(k, rest, c, NIL, "", Checked)
      modifies db
      ensures db.Valid() && old(db.clock) <= db.clock && Did(me, old(db.run), db.run, [a]) && a.Issue?
      ensures PcOf(db.View(), me) == if failed then Scanning(k, rest) else Working(k, rest, c, d, "", Coded)
    {
      hide After, Apply, Grows;
      var t := db.Interleave(me);
      failed, d := db.InsertCode(me, k, rest, c, t.newId, t.text, t.ok);
      a := Issue(me, t.newId, t.text, t.ok);
    }

    method TryMail(me: nat, k: Campaign, rest: seq<Id>, c: Id, d: Id) returns (sent: bool, message: string, ghost a: Action)
      requires db.Valid() && PcOf(db.View(), me) == Working(k, rest, c, d, "", Coded)
      modifies db
      ensures db.Valid() && old(db.clock) <= db.clock && Did(me, old(db.run), db.run, [a]) && a.SendMail? && a.ok == sent
      ensures PcOf(db.View(), me) == if sent then Working(k, rest, c, d, message, Mailed) else Working(k, rest, c, d, "", Refused)
    {
      hide After, Apply, Grows;
      var t := db.Interleave(me);
      sent, message := t.ok, t.text;
      db.Deliver(me, k, rest, c, d, message, sent);
      a := SendMail(me, message, sent);
    }

    method StoreFailed(me: nat, k: Campaign, rest: seq<Id>, c: Id, d: Id) returns (ghost a: Action)
      requires db.Valid() && PcOf(db.View(), me) == Working(k, rest, c, d, "", Refused)
      modifies db
      ensures db.Valid() && old(db.clock) <= db.clock && Did(me, old(db.run), db.run, [a]) && a.NoteFailed?
      ensures PcOf(db.View(), me) == Scanning(k, rest)
    {
      hide After, Apply, Grows;
      var t := db.Interleave(me);
      db.InsertFailed(me, k, rest, c, d, t.newId, t.ok);
      a := NoteFailed(me, t.newId, t.ok);
    }

    method StoreSent(me: nat, k: Campaign, rest: seq<Id>, c: Id, d: Id, message: string) returns (ghost a: Action)
      requires db.Valid() && PcOf(db.View(), me) == Working(k, rest, c, d, message, Mailed)
      modifies db
      ensures db.Valid() && old(db.clock) <= db.clock && Did(me, old(db.run), db.run, [a]) && a.NoteSent?
      ensures PcOf(db.View(), me) == Working(k, rest, c, d, message, Noted)
    {
      hide After, Apply, Grows;
      var t := db.Interleave(me);
      db.InsertSent(me, k, rest, c, d, message, t.newId, t.ok);
      a := NoteSent(me, t.newId, t.ok);
    }

    method Close(me: nat, k: Campaign, rest: seq<Id>, c: Id, d: Id, message: string) returns (ghost a: Action)
      requires db.Valid() && PcOf(db.View(), me) == Working(k, rest, c, d, message, Noted)
      modifies db
      ensures db.Valid() && old(db.clock) <= db.clock && Did(me, old(db.run), db.run, [a]) && a.MarkAbandoned?
      ensures PcOf(db.View(), me) == Scanning(k, rest)
      ensures Closed(db.View(), c) && DeliveredOrLost(db.View(), c, k)
    {
      hide After, Apply, Grows, Inv, Closed, HasDelivered;
      var t := db.Interleave(me);
      ReachableInv(db.run);
      MarkCloses(db.View(), me, t.ok);
      db.UpdateAbandoned(me, k, rest, c, d, message, t.ok);
      a := MarkAbandoned(me, t.ok);
    }

    /**
     One checkout: code, mail, send row, and last the status. Without an error the mail was accepted,
     the row has left "open" (or its update failed) and the send is on record (or its insert failed).
     */
    method ProcessCheckout(me: nat, k: Campaign, rest: seq<Id>, c: Id) returns (err: bool, ghost steps: seq<Action>)
      requires db.Valid() && PcOf(db.View(), me) == Working(k, rest, c, NIL, "", Checked)
      modifies db
      ensures db.Valid() && old(db.clock) <= db.clock && Did(me, old(db.run), db.run, steps) && Worked(steps, err)
      ensures PcOf(db.View(), me) == Scanning(k, rest)
      ensures !err ==> Closed(db.View(), c) && DeliveredOrLost(db.View(), c, k)
    {
      hide *;
      ghost var r0 := db.run;
      var failed, d, coded := GetCode(me, k, rest, c);
      if failed {
        GaveUpAtCode(coded);
        return true, [coded];
      }
      ghost var r1 := db.run;
      var sent, message, mailed := TryMail(me, k, rest, c, d);
      ghost var r2 := db.run;
      DidMore(me, r0, r1, r2, [coded], [mailed]);
      if !sent {
        ghost var noted := StoreFailed(me, k, rest, c, d);
        DidMore(me, r0, r2, db.run, [coded] + [mailed], [noted]);
        GaveUpAtMail(coded, mailed, noted);
        return true, [coded] + [mailed] + [noted];
      }
      ghost var noted := StoreSent(me, k, rest, c, d, message);
      ghost var r3 := db.run;
      DidMore(me, r0, r2, r3, [coded] + [mailed], [noted]);
      ghost var marked := Close(me, k, rest, c, d, message);
      DidMore(me, r0, r3, db.run, [coded] + [mailed] + [noted], [marked]);
      WentThrough(coded, mailed, noted, marked);
      return false, [coded] + [mailed] + [noted] + [marked];
    }

    /**
     All campaigns of the shop. The call fails only if the campaigns cannot be read; a campaign is
     passed over only if its rows cannot be read; every fetched row is checked, and worked unless a
     send is found, before the next campaign is scanned and before the call ends.
     */
    method ProcessAbandonedCheckouts(me: nat, campaigns: seq<Campaign>) returns (err: bool, ghost steps: seq<Action>)
      requires db.Valid() && PcOf(db.View(), me) == Idle
      modifies db
      ensures db.Valid() && old(db.clock) < db.clock && Did(me, old(db.run), db.run, steps)
      ensures PcOf(db.View(), me) == Idle
      ensures err <==> !db.schedule(old(db.clock)).ok
      ensures err ==> steps == []
      ensures !err ==> AllWorked(steps, me, campaigns)
      ensures db.AllOk(old(db.clock)) ==> Scans(steps) == campaigns
    {
      hide Grows, After, Apply, CampaignsWorked, ScanWorked, TookRows, Worked;
      NothingWorked(me, campaigns);
      ghost var r0 := db.run;
      steps := [];
      var t := db.Interleave(me);
      assert Did(me, r0, db.run, []);
      if !t.ok {
        return true, [];
      }
      err := false;
      for i := 0 to |campaigns|
        invariant db.Valid() && old(db.clock) < db.clock && Did(me, r0, db.run, steps)
        invariant Free(PcOf(db.View(), me)) && CampaignsWorked(steps, me, campaigns[..i])
        invariant db.AllOk(old(db.clock)) ==> Scans(steps) == campaigns[..i]
      {
        ghost var r := db.run;
        ghost var more := ScanCampaign(me, campaigns[i]);
        OneMoreCampaign(steps, me, campaigns, i, more);
        DidMore(me, r0, r, db.run, steps, more);
        ScansConcat(steps, more);
        steps := steps + more;
        assert campaigns[..i + 1] == campaigns[..i] + [campaigns[i]];
      }
      assert campaigns[..|campaigns|] == campaigns;
      if PcOf(db.View(), me) != Idle {
        ghost var r := db.run;
        ScanEnds(steps, me, campaigns);
        db.Finish(me);
        DidMore(me, r0, r, db.run, steps, [Leave(me)]);
        ScansConcat(steps, [Leave(me)]);
        NoScans([Leave(me)]);
        steps := steps + [Leave(me)];
      }
    }

    /** Fetch the rows of one campaign, and take them one by one. */
    method ScanCampaign(me: nat, k: Campaign) returns (ghost steps: seq<Action>)
      requires db.Valid() && Free(PcOf(db.View(), me))
      modifies db
      ensures db.Valid() && old(db.clock) < db.clock && Did(me, old(db.run), db.run, steps)
      ensures Free(PcOf(db.View(), me)) && ScanWorked(steps, me, k)
      ensures steps == [] <==> !db.schedule(old(db.clock)).ok
      ensures db.AllOk(old(db.clock)) ==> Scans(steps) == [k]
    {
      hide Grows, After, Apply, DoScan, TookRows, Worked;
      ghost var r0 := db.run;
      var t := db.Interleave(me);
      if !t.ok {
        assert !db.AllOk(old(db.clock)) by { assert !db.schedule(old(db.clock)).ok; }
        return [];
      }
      var rows := db.QueryOpen(me, k, t.rows);
      ghost var scan := Scan(me, k, rows);
      ghost var r1 := db.run;
      assert Did(me, r0, r1, [scan]);
      ghost var work := WorkThrough(me, k, rows);
      DidMore(me, r0, r1, db.run, [scan], work);
      CampaignScanned(scan, me, k, work);
      ScansConcat([scan], work);
      return [scan] + work;
    }

    method WorkThrough(me: nat, k: Campaign, rows: seq<Id>) returns (ghost steps: seq<Action>)
      requires db.Valid() && PcOf(db.View(), me) == Scanning(k, rows)
      modifies db
      ensures db.Valid() && old(db.clock) <= db.clock && Did(me, old(db.run), db.run, steps)
      ensures PcOf(db.View(), me) == Scanning(k, []) && Scans(steps) == [] && TookRows(steps, |rows|)
    {
      hide Grows, After, Apply, TookRows, Took, Worked;
      NothingWorked(me, []);
      ghost var r0 := db.run;
      steps := [];
      for i := 0 to |rows|
        invariant db.Valid() && old(db.clock) <= db.clock && Did(me, r0, db.run, steps)
        invariant PcOf(db.View(), me) == Scanning(k, rows[i..]) && Scans(steps) == [] && TookRows(steps, i)
      {
        ghost var r := db.run;
        ghost var more := TakeRow(me, k, rows[i..]);
        OneMoreRow(steps, i, more);
        DidMore(me, r0, r, db.run, steps, more);
        ScansConcat(steps, more);
        steps := steps + more;
        assert rows[i..][1..] == rows[i + 1..];
      }
    }

    method LookForSend(me: nat, k: Campaign, rows: seq<Id>) returns (found: bool, ghost a: Action)
      requires db.Valid() && PcOf(db.View(), me) == Scanning(k, rows) && rows != []
      modifies db
      ensures db.Valid() && old(db.clock) <= db.clock && Did(me, old(db.run), db.run, [a]) && a.Check?
      ensures found ==> a.ok
      ensures PcOf(db.View(), me) == if found then Scanning(k, rows[1..]) else Working(k, rows[1..], rows[0], NIL, "", Checked)
    {
      hide After, Apply, Grows;
      var t := db.Interleave(me);
      found := db.FindSendOf(me, k, rows, t.ok);
      a := Check(me, t.ok);
    }

    /** Check the first row of the queue and, unless a send of the campaign is found, work it. */
    method TakeRow(me: nat, k: Campaign, rows: seq<Id>) returns (ghost steps: seq<Action>)
      requires db.Valid() && PcOf(db.View(), me) == Scanning(k, rows) && rows != []
      modifies db
      ensures db.Valid() && old(db.clock) <= db.clock && Did(me, old(db.run), db.run, steps)
      ensures PcOf(db.View(), me) == Scanning(k, rows[1..]) && Scans(steps) == [] && Took(steps)
    {
      hide *;
      ghost var r0 := db.run;
      var found, check := LookForSend(me, k, rows);
      CheckIsNoScan(check);
      if found {
        RowSkipped(check);
        return [check];
      }
      ghost var r1 := db.run;
      var failed;
      ghost var work;
      failed, work := ProcessCheckout(me, k, rows[1..], rows[0]);
      DidMore(me, r0, r1, db.run, [check], work);
      RowWorked(check, work, failed);
      WorkHasNoScan(work, failed);
      ScansConcat([check], work);
      return [check] + work;
    }
  }
}
