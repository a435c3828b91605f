/**
 The consumer of review replies, running over the shared insight table while other consumers run too.

 As for the cart handlers, an arbitrary `schedule` decides before each statement which steps others
 take and whether ours succeeds, and `run` records all steps; the table always is what that run leaves
 behind, so what is proved of runs holds at every point of the consumer.
 */
module ReviewConsumer {
  import opened ReviewIssues
  import opened ReviewInsights

  /** The steps others take before one of our statements, and whether ours succeeds. */
  datatype Tick = Tick(others: seq<Action>, ok: bool)

  predicate Mine(a: Action, me: nat) {
    !a.Start? && a.call == me
  }

  /** The statements of a run that call `me` made, in order. */
  function Own(run: seq<Action>, me: nat): seq<Action> {
    if run == [] then []
    else Own(run[..|run| - 1], me) + if Mine(run[|run| - 1], me) then [run[|run| - 1]] else []
  }

  lemma OwnAppend(run: seq<Action>, a: Action, me: nat)
    ensures Own(run + [a], me) == Own(run, me) + if Mine(a, me) then [a] else []
  {
    assert (run + [a])[..|run|] == run;
  }

  /** A step of another call leaves ours as it is. */
  lemma OthersLeaveMe(s: State, a: Action, me: nat)
    requires me < |s.calls| && !Mine(a, me)
    ensures me < |Apply(s, a).calls| && Apply(s, a).calls[me] == s.calls[me]
  {
    hide Find, HistoryOf, Merge;
  }

  class InsightTable {
    var rows: seq<Row>
    var calls: seq<Call>
    var merges: seq<Merged>
    var clock: nat
    const schedule: nat -> Tick
    ghost var run: seq<Action>

    function View(): State
      reads this
    {
      State(rows, calls, merges)
    }

    /** The table is what the recorded run leaves behind. */
    ghost predicate Valid()
      reads this
    {
      View() == After(run)
    }

    /** Every statement since tick `from` succeeded. */
    ghost predicate AllOk(from: nat)
      reads this
    {
      forall n :: from <= n < clock ==> schedule(n).ok
    }

    constructor (schedule: nat -> Tick)
      ensures Valid() && rows == [] && calls == [] && run == [] && clock == 0 && this.schedule == schedule
    {
      this.schedule := schedule;
      rows, calls, merges, clock, run := [], [], [], 0, [];
    }

    /** Execute one step of somebody else. */
    method Perform(a: Action)
      requires Valid()
      modifies this
      ensures Valid() && run == old(run) + [a] && clock == old(clock) && View() == Apply(old(View()), a)
    {
      AfterAppend(run, a);
      var s := Apply(View(), a);
      rows, calls, merges := s.rows, s.calls, s.merges;
      run := run + [a];
    }

    /** Enter the statement of `me` that has just been carried out into the record. */
    ghost method Record(a: Action, me: nat)
      requires View() == Apply(After(run), a) && Mine(a, me)
      modifies this`run
      ensures Valid() && run == old(run) + [a] && Own(run, me) == Own(old(run), me) + [a]
    {
      AfterAppend(run, a);
      OwnAppend(run, a, me);
      run := run + [a];
    }

    /** Time passes before our next statement: others take their steps. */
    method Interleave(me: nat) returns (ok: bool)
      requires Valid() && me < |calls|
      modifies this
      ensures Valid() && old(run) <= run && clock == old(clock) + 1 && ok == schedule(old(clock)).ok
      ensures me < |calls| && calls[me] == old(calls[me]) && Own(run, me) == Own(old(run), me)
    {
      hide Apply, After;
      var t := schedule(clock);
      ok := t.ok;
      clock := clock + 1;
      for i := 0 to |t.others|
        invariant Valid() && old(run) <= run && clock == old(clock) + 1
        invariant me < |calls| && calls[me] == old(calls[me]) && Own(run, me) == Own(old(run), me)
      {
        var a := t.others[i];
        if !Mine(a, me) {
          OthersLeaveMe(View(), a, me);
          OwnAppend(run, a, me);
          Perform(a);
        }
      }
    }

    /** A review reply arrives for a product. */
    method Begin(p: Payload) returns (me: nat)
      requires Valid() && p.product != ""
      modifies this
      ensures Valid() && run == old(run) + [Start(p)] && clock == old(clock)
      ensures me == |old(calls)| < |calls| && calls[me] == Call(p, Inserting, false, false, false)
      ensures Own(run, me) == Own(old(run), me)
    {
      me := |calls|;
      AfterAppend(run, Start(p));
      OwnAppend(run, Start(p), me);
      calls := calls + [Call(p, Inserting, false, false, false)];
      run := run + [Start(p)];
    }

    method FindRow(p: Payload) returns (f: nat)
      ensures f == Find(rows, p)
    {
      f := 0;
      while f < |rows| && !Matches(rows[f], p)
        invariant f <= |rows| && forall g :: 0 <= g < f ==> !Matches(rows[g], p)
      {
        f := f + 1;
      }
    }

    /** INSERT ... ON CONFLICT DO NOTHING. */
    method InsertOrSkip(me: nat, ok: bool)
      requires Valid() && me < |calls| && calls[me].pc.Inserting?
      modifies this
      ensures Valid() && run == old(run) + [Insert(me, ok)] && Own(run, me) == Own(old(run), me) + [Insert(me, ok)]
      ensures View() == DoInsert(old(View()), me, ok) && clock == old(clock)
    {
      var c := calls[me];
      if ok {
        var f := FindRow(c.payload);
        if f == |rows| {
          rows := rows + [Row(c.payload.shop, c.payload.product, c.payload.product, 0, 0, 0, "")];
        }
      }
      calls := calls[me := c.(pc := Counting, inserted := ok)];
      Record(Insert(me, ok), me);
    }

    /** UPDATE ... SET total_reviews = total_reviews + 1, ... */
    method Increment(me: nat, negIncr: nat, givenIncr: nat, ok: bool)
      requires Valid() && me < |calls| && calls[me].pc.Counting?
      requires negIncr == One(calls[me].payload.sentiment == "negative") && givenIncr == One(calls[me].payload.discount != "")
      modifies this
      ensures Valid() && run == old(run) + [Count(me, ok)] && Own(run, me) == Own(old(run), me) + [Count(me, ok)]
      ensures View() == DoCount(old(View()), me, ok) && clock == old(clock)
    {
      hide HistoryOf, Merge, Own, After;
      var c, hit := calls[me], false;
      if ok {
        var f := FindRow(c.payload);
        if f < |rows| {
          hit := true;
          rows := rows[f := rows[f].(total := rows[f].total + 1, negative := rows[f].negative + negIncr, given := rows[f].given + givenIncr)];
        }
      }
      calls := calls[me := c.(pc := if c.payload.issues == "" then Done else Reading, incremented := ok, counted := hit)];
      assert View() == DoCount(old(View()), me, ok);
      Record(Count(me, ok), me);
    }

    /** SELECT of the row; a failed or empty one leaves a row without a key, which is not written back. */
    method ReadIssues(me: nat, ok: bool) returns (found: bool)
      requires Valid() && me < |calls| && calls[me].pc.Reading?
      modifies this
      ensures Valid() && run == old(run) + [Read(me, ok)] && Own(run, me) == Own(old(run), me) + [Read(me, ok)]
      ensures View() == DoRead(old(View()), me, ok) && clock == old(clock)
      ensures found == calls[me].pc.Writing?
    {
      var c, f := calls[me], |rows|;
      if ok {
        f := FindRow(c.payload);
      }
      found := f < |rows|;
      calls := calls[me := c.(pc := if found then Writing(f, rows[f].top, |HistoryOf(merges, f)|) else Done)];
      Record(Read(me, ok), me);
    }

    /** UPDATE of top_issues in the row that was read. */
    method WriteIssues(me: nat, top: string, ok: bool)
      requires Valid() && me < |calls| && calls[me].pc.Writing? && calls[me].pc.row < |rows|
      requires top == Merge(calls[me].pc.seen, calls[me].payload.issues)
      modifies this
      ensures Valid() && run == old(run) + [Write(me, ok)] && Own(run, me) == Own(old(run), me) + [Write(me, ok)]
      ensures View() == DoWrite(old(View()), me, ok) && clock == old(clock)
    {
      var c := calls[me];
      if ok {
        rows := rows[c.pc.row := rows[c.pc.row].(top := top)];
        merges := merges + [Merged(c.pc.row, c.payload.issues, c.pc.version)];
      }
      calls := calls[me := c.(pc := Done)];
      Record(Write(me, ok), me);
    }
  }

  lemma WriterHasRow(run: seq<Action>, me: nat)
    requires me < |After(run).calls| && After(run).calls[me].pc.Writing?
    ensures var c := After(run).calls[me]; c.pc.row < |After(run).rows| && Matches(After(run).rows[c.pc.row], c.payload)
  {
    ReachableInv(run);
    assert CallOk(After(run), After(run).calls[me]);
  }

  /** A call whose statements succeeded is counted when it is past them. */
  lemma SuccessCounts(run: seq<Action>, me: nat)
    requires me < |After(run).calls| && After(run).calls[me].inserted && After(run).calls[me].incremented
    ensures After(run).calls[me].counted
  {
    ReachableInv(run);
    assert CallOk(After(run), After(run).calls[me]);
  }

  lemma CountedHasRow(run: seq<Action>, me: nat)
    requires me < |After(run).calls| && After(run).calls[me].counted
    ensures HasRow(After(run).rows, After(run).calls[me].payload)
  {
    ReachableInv(run);
    assert CallOk(After(run), After(run).calls[me]);
  }

  /** Insert-or-skip and increment: going on after a failure, and counted if there was none. */
  method CountReview(db: InsightTable, p: Payload, negIncr: nat, givenIncr: nat) returns (me: nat)
    requires db.Valid() && p.product != ""
    requires negIncr == One(p.sentiment == "negative") && givenIncr == One(p.discount != "")
    modifies db
    ensures db.Valid() && old(db.run) <= db.run && db.clock == old(db.clock) + 2
    ensures var ok, ok' := db.schedule(old(db.clock)).ok, db.schedule(old(db.clock) + 1).ok;
            && me < |db.calls| && db.calls[me].payload == p
            && db.calls[me].pc == (if p.issues == "" then Done else Reading)
            && Own(db.run, me) == Own(old(db.run), me) + [Insert(me, ok), Count(me, ok')]
            && (ok && ok' ==> db.calls[me].counted)
  {
    hide Apply, After, HistoryOf, Find, HasRow, Own;
    me := db.Begin(p);
    var ok := db.Interleave(me);
    db.InsertOrSkip(me, ok);
    var ok' := db.Interleave(me);
    db.Increment(me, negIncr, givenIncr, ok');
    if ok && ok' {
      SuccessCounts(db.run, me);
    }
  }

  /** Read the list and write it back merged with the new issues; nothing is written if the read found no row. */
  method TrackIssues(db: InsightTable, me: nat)
    requires db.Valid() && me < |db.calls| && db.calls[me].pc.Reading?
    modifies db
    ensures db.Valid() && old(db.run) <= db.run && old(db.clock) <= db.clock
    ensures me < |db.calls| && db.calls[me] == old(db.calls[me]).(pc := Done)
    ensures Own(db.run, me) == Own(old(db.run), me) + [Read(me, db.schedule(old(db.clock)).ok)]
         || Own(db.run, me) == Own(old(db.run), me) + [Read(me, true), Write(me, db.schedule(old(db.clock) + 1).ok)]
    ensures db.AllOk(old(db.clock)) && db.calls[me].counted ==>
              exists f, seen :: 0 <= f < |db.rows| && Matches(db.rows[f], db.calls[me].payload)
                             && db.rows[f].top == Merge(seen, db.calls[me].payload.issues)
  {
    hide Apply, After, HistoryOf, Own, Merge;
    var ok := db.Interleave(me);
    if db.calls[me].counted {
      CountedHasRow(db.run, me);
    }
    var found := db.ReadIssues(me, ok);
    if found {
      ok := db.Interleave(me);
      WriterHasRow(db.run, me);
      ghost var f, seen := db.calls[me].pc.row, db.calls[me].pc.seen;
      var top := MergeIssues(db.calls[me].pc.seen, db.calls[me].payload.issues);
      db.WriteIssues(me, top, ok);
      assert ok ==> Matches(db.rows[f], db.calls[me].payload) && db.rows[f].top == Merge(seen, db.calls[me].payload.issues);
    }
  }

  /**
   upsertProductInsight. A reply without a product changes nothing. Otherwise the call inserts or skips,
   increments, and, if it has issues, reads and writes back the list, going on after any failure. If no
   statement failed it has been counted, and the list it has just written begins with its own issues.
   */
  method UpsertProductInsight(db: InsightTable, p: Payload) returns (me: nat)
    requires db.Valid()
    modifies db
    ensures db.Valid() && old(db.run) <= db.run
    ensures p.product == "" ==> db.View() == old(db.View()) && db.run == old(db.run)
    ensures p.product != "" ==>
              var before, n := Own(old(db.run), me), old(db.clock);
              var counting := before + [Insert(me, db.schedule(n).ok), Count(me, db.schedule(n + 1).ok)];
              && me < |db.calls| && db.calls[me].payload == p && db.calls[me].pc == Done
              && (p.issues == "" ==> Own(db.run, me) == counting)
              && (p.issues != "" ==>
                    || Own(db.run, me) == counting + [Read(me, db.schedule(n + 2).ok)]
                    || Own(db.run, me) == counting + [Read(me, true), Write(me, db.schedule(n + 3).ok)])
    ensures p.product != "" && db.AllOk(old(db.clock)) ==> db.calls[me].counted
    ensures p.product != "" && p.issues != "" && db.AllOk(old(db.clock)) ==>
              exists f, seen :: 0 <= f < |db.rows| && Matches(db.rows[f], p) && db.rows[f].top == Merge(seen, p.issues)
  {
    hide Apply, After, HistoryOf, Own, Merge;
    me := 0;
    if p.product == "" {
      return;
    }
    var negIncr := 0;
    if p.sentiment == "negative" {
      negIncr := 1;
    }
    var givenIncr := 0;
    if p.discount != "" {
      givenIncr := 1;
    }
    me := CountReview(db, p, negIncr, givenIncr);
    if p.issues != "" {
      TrackIssues(db, me);
    }
  }
}
