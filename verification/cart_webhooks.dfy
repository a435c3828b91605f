/**
 The two webhooks that write the cart recovery tables.
 */
module CartWebhooks {
  import opened CartState
  import opened CartInvariant
  import opened CartSafety
  import opened CartHandlers

  /**
   Checkout webhook. A delivery with a token upserts one row: a row of that token is refreshed and keeps its
   status whatever the topic says; a new one is open for checkouts/create and ordered for any other topic.
   `before` is what the statement finds. (Nothing happens if it fails, or if the generated id is taken.)
   */
  method HandleCheckout(db: Shop, me: nat, topic: string, token: string, email: string) returns (ghost before: State)
    requires db.Valid()
    modifies db
    ensures db.Valid() && old(db.run) <= db.run && Own(db.run, me) == Own(old(db.run), me)
    ensures token == "" ==> db.View() == old(db.View())
    ensures Grows(old(db.View()), before) && Grows(before, db.View())
    ensures var t := db.schedule(old(db.clock));
            if token == "" || !t.ok then db.View() == before
            else
              && |db.run| > |old(db.run)| && before == After(db.run[..|db.run| - 1]) && db.run[|db.run| - 1].Upsert?
              && (forall c :: c in before.checkouts && before.checkouts[c].token == token ==>
                    db.checkouts == before.checkouts[c := before.checkouts[c].(email := email)])
              && (!HasToken(before.checkouts, token) && t.newId != NIL && t.newId !in before.checkouts ==>
                    db.checkouts == before.checkouts[t.newId :=
                      Checkout(token, email, if topic == "checkouts/create" then Open else Ordered, NIL, "")])
    ensures Grows(old(db.View()), db.View())
  {
    hide After, Apply, Grows, Inv;
    before := db.View();
    GrowsReflexive(before);
    if token == "" {
      return;
    }
    var t := db.Interleave(me);
    before := db.View();
    GrowsReflexive(before);
    if t.ok {
      var row := db.UpsertCheckout(t.newId, token, email, topic == "checkouts/create");
      ghost var a := Upsert(row, token, email, topic == "checkouts/create");
      OwnAppend(db.run[..|db.run| - 1], a, me);
      UpsertGrows(before, row, token, email, topic == "checkouts/create");
      GrowsTransitive(old(db.View()), before, db.View());
    }
  }

  /** E-mail opened webhook: events of other kinds and events without an id change nothing of ours. */
  method HandleEmailEvent(db: Shop, me: nat, kind: string, emailId: string)
    requires db.Valid() && PcOf(db.View(), me) == Idle
    modifies db
    ensures db.Valid() && old(db.run) <= db.run && PcOf(db.View(), me) == Idle && old(db.clock) <= db.clock
    ensures kind != "email.opened" || emailId == "" ==> db.View() == old(db.View())
    ensures kind == "email.opened" && emailId != "" && db.AllOk(old(db.clock)) ==>
              forall e :: e in old(db.sends) && old(db.sends)[e].message == emailId ==>
                exists r :: r in db.sends && db.sends[r].message == emailId && db.sends[r].status == Opened
  {
    if kind != "email.opened" || emailId == "" {
      return;
    }
    var t := db.Interleave(me);
    if !t.ok {
      assert !db.AllOk(old(db.clock)) by { assert !db.schedule(db.clock - 1).ok; }
      return;
    }
    var found, e := db.FindSendBy(me, emailId);
    if found {
      t := db.Interleave(me);
      db.UpdateOpened(me, e, t.ok);
    }
  }
}
