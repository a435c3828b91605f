/**
 The per-product review counters and issue list, written by any number of consumers at once. Every
 database statement is one atomic step and may fail without the consumer noticing; the steps of
 different calls interleave in any order.
 */
module ReviewInsights {
  import opened ReviewIssues

  datatype Payload = Payload(shop: string, product: string, sentiment: string, discount: string, issues: string)

  /** A row of product_review_insights; (shop, product) carries a unique index. */
  datatype Row = Row(shop: string, product: string, title: string, total: nat, negative: nat, given: nat, top: string)

  /** What a call does next. `version` is how many merges the row had seen when it was read. */
  datatype Pc = Inserting | Counting | Reading | Writing(row: nat, seen: string, version: nat) | Done

  /** A call: which of its two counter statements succeeded, and whether it was counted in a row. */
  datatype Call = Call(payload: Payload, pc: Pc, inserted: bool, incremented: bool, counted: bool)

  /** A merge that was written. */
  datatype Merged = Merged(row: nat, issues: string, version: nat)

  datatype State = State(rows: seq<Row>, calls: seq<Call>, merges: seq<Merged>)

  datatype Action =
    | Start(payload: Payload)
    | Insert(call: nat, ok: bool)
    | Count(call: nat, ok: bool)
    | Read(call: nat, ok: bool)
    | Write(call: nat, ok: bool)

  // ---------- the statements ----------

  predicate Matches(row: Row, p: Payload) {
    row.shop == p.shop && row.product == p.product
  }

  /** Where the row of this shop and product is, or the number of rows if there is none. */
  function Find(rows: seq<Row>, p: Payload): (f: nat)
    ensures f <= |rows|
    ensures f < |rows| ==> Matches(rows[f], p)
    ensures forall g :: 0 <= g < f ==> !Matches(rows[g], p)
  {
    if rows == [] then 0
    else if Matches(rows[0], p) then 0
    else 1 + Find(rows[1..], p)
  }

  datatype Kind = Total | Negative | Given

  predicate IsOf(p: Payload, kind: Kind) {
    match kind
    case Total => true
    case Negative => p.sentiment == "negative"
    case Given => p.discount != ""
  }

  function Counter(row: Row, kind: Kind): nat {
    match kind
    case Total => row.total
    case Negative => row.negative
    case Given => row.given
  }

  function One(b: bool): nat {
    if b then 1 else 0
  }

  function AtWork(s: State, i: nat): Pc {
    if i < |s.calls| then s.calls[i].pc else Done
  }

  function DoInsert(s: State, i: nat, ok: bool): State
    requires i < |s.calls|
  {
    var c := s.calls[i];
    var isNew := ok && Find(s.rows, c.payload) == |s.rows|;
    s.(rows := if isNew then s.rows + [Row(c.payload.shop, c.payload.product, c.payload.product, 0, 0, 0, "")] else s.rows,
       calls := s.calls[i := c.(pc := Counting, inserted := ok)])
  }

  function Incremented(row: Row, p: Payload): Row {
    row.(total := row.total + 1,
         negative := row.negative + One(p.sentiment == "negative"),
         given := row.given + One(p.discount != ""))
  }

  function DoCount(s: State, i: nat, ok: bool): State
    requires i < |s.calls|
  {
    var c := s.calls[i];
    var f := Find(s.rows, c.payload);
    var hit := ok && f < |s.rows|;
    s.(rows := if hit then s.rows[f := Incremented(s.rows[f], c.payload)] else s.rows,
       calls := s.calls[i := c.(pc := if c.payload.issues == "" then Done else Reading, incremented := ok, counted := hit)])
  }

  function DoRead(s: State, i: nat, ok: bool): State
    requires i < |s.calls|
  {
    var c := s.calls[i];
    var f := Find(s.rows, c.payload);
    s.(calls := s.calls[i := c.(pc :=
         if ok && f < |s.rows| then Writing(f, s.rows[f].top, |HistoryOf(s.merges, f)|) else Done)])
  }

  function DoWrite(s: State, i: nat, ok: bool): State
    requires i < |s.calls| && s.calls[i].pc.Writing? && s.calls[i].pc.row < |s.rows|
  {
    var c := s.calls[i];
    var f := c.pc.row;
    State(if ok then s.rows[f := s.rows[f].(top := Merge(c.pc.seen, c.payload.issues))] else s.rows,
          s.calls[i := c.(pc := Done)],
          if ok then s.merges + [Merged(f, c.payload.issues, c.pc.version)] else s.merges)
  }

  /** A review without a product is ignored; a step that is not this call's turn does nothing. */
  function Apply(s: State, a: Action): State {
    match a
    case Start(p) =>
      if p.product == "" then s else s.(calls := s.calls + [Call(p, Inserting, false, false, false)])
    case Insert(i, ok) => if AtWork(s, i).Inserting? then DoInsert(s, i, ok) else s
    case Count(i, ok) => if AtWork(s, i).Counting? then DoCount(s, i, ok) else s
    case Read(i, ok) => if AtWork(s, i).Reading? then DoRead(s, i, ok) else s
    case Write(i, ok) => if AtWork(s, i).Writing? && AtWork(s, i).row < |s.rows| then DoWrite(s, i, ok) else s
  }

  function After(run: seq<Action>): State {
    if run == [] then State([], [], []) else Apply(After(run[..|run| - 1]), run[|run| - 1])
  }

  lemma AfterAppend(run: seq<Action>, a: Action)
    ensures After(run + [a]) == Apply(After(run), a)
  {
    assert (run + [a])[..|run|] == run;
  }

  // ---------- what the calls add up to ----------

  /** The issue strings merged into row `f`, oldest first. */
  function HistoryOf(merges: seq<Merged>, f: nat): seq<string> {
    if merges == [] then []
    else
      var last := merges[|merges| - 1];
      HistoryOf(merges[..|merges| - 1], f) + if last.row == f then [last.issues] else []
  }

  predicate Contributes(c: Call, p: Payload, kind: Kind) {
    c.counted && c.payload.shop == p.shop && c.payload.product == p.product && IsOf(c.payload, kind)
  }

  /** How many counted calls of this shop and product there are, of one kind. */
  function Tally(calls: seq<Call>, p: Payload, kind: Kind): nat {
    if calls == [] then 0 else Tally(calls[..|calls| - 1], p, kind) + One(Contributes(calls[|calls| - 1], p, kind))
  }

  lemma TallyAppend(calls: seq<Call>, c: Call, p: Payload, kind: Kind)
    ensures Tally(calls + [c], p, kind) == Tally(calls, p, kind) + One(Contributes(c, p, kind))
  {
    assert (calls + [c])[..|calls|] == calls;
  }

  lemma {:induction false} TallyUpdate(calls: seq<Call>, i: nat, c: Call, p: Payload, kind: Kind)
    requires i < |calls|
    ensures Tally(calls[i := c], p, kind) + One(Contributes(calls[i], p, kind))
         == Tally(calls, p, kind) + One(Contributes(c, p, kind))
    decreases |calls|
  {
    var n := |calls| - 1;
    if i == n {
      assert calls[i := c][..n] == calls[..n];
    } else {
      TallyUpdate(calls[..n], i, c, p, kind);
      assert calls[i := c][..n] == calls[..n][i := c];
    }
  }

  lemma {:induction false} TallyOrder(calls: seq<Call>, p: Payload, kind: Kind)
    ensures Tally(calls, p, kind) <= Tally(calls, p, Total)
    decreases |calls|
  {
    if calls != [] {
      TallyOrder(calls[..|calls| - 1], p, kind);
    }
  }

  // ---------- the invariant ----------

  predicate Unique(rows: seq<Row>) {
    forall f, g :: 0 <= f < g < |rows| ==> rows[f].shop != rows[g].shop || rows[f].product != rows[g].product
  }

  function KeyOf(row: Row): Payload {
    Payload(row.shop, row.product, "", "", "")
  }

  predicate Exact(s: State, f: nat)
    requires f < |s.rows|
  {
    forall kind :: Counter(s.rows[f], kind) == Tally(s.calls, KeyOf(s.rows[f]), kind)
  }

  predicate HasRow(rows: seq<Row>, p: Payload) {
    Find(rows, p) < |rows|
  }

  /** What is known of a call: nothing it did successfully is lost. */
  predicate CallOk(s: State, c: Call) {
    && (c.pc.Inserting? ==> !c.inserted)
    && (c.inserted ==> HasRow(s.rows, c.payload))
    && (c.counted ==> HasRow(s.rows, c.payload))
    && (c.pc.Inserting? || c.pc.Counting? ==> !c.incremented && !c.counted)
    && (c.inserted && c.incremented ==> c.counted)
    && (c.pc.Writing? ==> c.pc.row < |s.rows| && Matches(s.rows[c.pc.row], c.payload))
  }

  predicate Inv(s: State) {
    && Unique(s.rows)
    && (forall f :: 0 <= f < |s.rows| ==> Exact(s, f))
    && (forall i :: 0 <= i < |s.calls| ==> CallOk(s, s.calls[i]))
  }

  /** Only counters and lists changed, or one row was added. */
  predicate RowsKept(rows: seq<Row>, rows': seq<Row>) {
    && |rows| <= |rows'|
    && forall f :: 0 <= f < |rows| ==> rows'[f].shop == rows[f].shop && rows'[f].product == rows[f].product
  }

  lemma KeptRowIsFound(rows: seq<Row>, rows': seq<Row>, p: Payload)
    requires RowsKept(rows, rows') && HasRow(rows, p)
    ensures HasRow(rows', p)
  {
    assert Matches(rows'[Find(rows, p)], p);
  }

  lemma CallsStayOk(s: State, s': State, i: nat)
    requires forall j :: 0 <= j < |s.calls| ==> CallOk(s, s.calls[j])
    requires RowsKept(s.rows, s'.rows) && |s'.calls| == |s.calls|
    requires forall j :: 0 <= j < |s.calls| && j != i ==> s'.calls[j] == s.calls[j]
    requires i < |s.calls| && CallOk(s', s'.calls[i])
    ensures forall j :: 0 <= j < |s'.calls| ==> CallOk(s', s'.calls[j])
  {
    forall j | 0 <= j < |s'.calls| && j != i ensures CallOk(s', s'.calls[j]) {
      var c := s.calls[j];
      assert CallOk(s, c);
      if HasRow(s.rows, c.payload) {
        KeptRowIsFound(s.rows, s'.rows, c.payload);
      }
    }
  }

  /** A row stays exact if its counters and what is counted for it do. */
  lemma StaysExact(s: State, s': State, f: nat, f': nat)
    requires f < |s.rows| && f' < |s'.rows| && Exact(s, f)
    requires KeyOf(s.rows[f]) == KeyOf(s'.rows[f'])
    requires forall kind :: Counter(s'.rows[f'], kind) - Counter(s.rows[f], kind)
               == Tally(s'.calls, KeyOf(s.rows[f]), kind) - Tally(s.calls, KeyOf(s.rows[f]), kind)
    ensures Exact(s', f')
  {
  }

  lemma {:induction false} NoneCounted(calls: seq<Call>, p: Payload, kind: Kind)
    requires forall i :: 0 <= i < |calls| && calls[i].counted ==> calls[i].payload.shop != p.shop || calls[i].payload.product != p.product
    ensures Tally(calls, p, kind) == 0
    decreases |calls|
  {
    if calls != [] {
      NoneCounted(calls[..|calls| - 1], p, kind);
    }
  }

  /** A statement that counts nothing leaves all tallies as they are. */
  lemma TalliesStay(calls: seq<Call>, i: nat, c: Call)
    requires i < |calls| && c.counted == calls[i].counted && c.payload == calls[i].payload
    ensures forall p, kind :: Tally(calls[i := c], p, kind) == Tally(calls, p, kind)
  {
    forall p, kind ensures Tally(calls[i := c], p, kind) == Tally(calls, p, kind) {
      TallyUpdate(calls, i, c, p, kind);
    }
  }

  lemma InsertInv(s: State, i: nat, ok: bool)
    requires Inv(s) && i < |s.calls| && s.calls[i].pc.Inserting?
    ensures Inv(DoInsert(s, i, ok))
  {
    hide Tally;
    var s', c := DoInsert(s, i, ok), s.calls[i];
    assert CallOk(s, c);
    TalliesStay(s.calls, i, s'.calls[i]);
    forall f | 0 <= f < |s'.rows| ensures Exact(s', f) {
      if f < |s.rows| {
        StaysExact(s, s', f, f);
      } else {
        NewRowIsExact(s, c.payload);
        var key := KeyOf(s'.rows[f]);
        forall kind ensures Counter(s'.rows[f], kind) == Tally(s'.calls, key, kind) {
          assert Tally(s'.calls, key, kind) == Tally(s.calls, key, kind) == 0;
        }
      }
    }
    if ok {
      assert Matches(s'.rows[Find(s'.rows, c.payload)], c.payload) by { InsertedIsFound(s, i); }
    }
    CallsStayOk(s, s', i);
  }

  lemma InsertedIsFound(s: State, i: nat)
    requires i < |s.calls|
    ensures HasRow(DoInsert(s, i, true).rows, s.calls[i].payload)
  {
    var s' := DoInsert(s, i, true);
    if Find(s.rows, s.calls[i].payload) == |s.rows| {
      assert Matches(s'.rows[|s.rows|], s.calls[i].payload);
    }
  }

  /** Nothing was counted for a shop and product that has no row yet. */
  lemma NewRowIsExact(s: State, p: Payload)
    requires forall j :: 0 <= j < |s.calls| ==> CallOk(s, s.calls[j])
    requires Find(s.rows, p) == |s.rows|
    ensures forall q: Payload, kind :: q.shop == p.shop && q.product == p.product ==> Tally(s.calls, q, kind) == 0
  {
    forall q: Payload, kind | q.shop == p.shop && q.product == p.product ensures Tally(s.calls, q, kind) == 0 {
      forall j | 0 <= j < |s.calls| && s.calls[j].counted
        ensures s.calls[j].payload.shop != q.shop || s.calls[j].payload.product != q.product
      {
        assert CallOk(s, s.calls[j]);
        assert Matches(s.rows[Find(s.rows, s.calls[j].payload)], s.calls[j].payload);
      }
      NoneCounted(s.calls, q, kind);
    }
  }

  lemma CountIsExact(s: State, i: nat, ok: bool, f: nat)
    requires Inv(s) && i < |s.calls| && s.calls[i].pc.Counting? && f < |s.rows|
    ensures Exact(DoCount(s, i, ok), f)
  {
    hide Tally, Find;
    var s', c := DoCount(s, i, ok), s.calls[i];
    var hit := Find(s.rows, c.payload);
    assert CallOk(s, c);
    assert Exact(s, f);
    var key := KeyOf(s.rows[f]);
    forall kind ensures Counter(s'.rows[f], kind) == Tally(s'.calls, key, kind) {
      TallyUpdate(s.calls, i, s'.calls[i], key, kind);
      assert Counter(s.rows[f], kind) == Tally(s.calls, key, kind);
    }
  }

  lemma CountInv(s: State, i: nat, ok: bool)
    requires Inv(s) && i < |s.calls| && s.calls[i].pc.Counting?
    ensures Inv(DoCount(s, i, ok))
  {
    hide Tally, Exact;
    var s', c := DoCount(s, i, ok), s.calls[i];
    assert CallOk(s, c);
    forall f | 0 <= f < |s'.rows| ensures Exact(s', f) {
      CountIsExact(s, i, ok, f);
    }
    if HasRow(s.rows, c.payload) {
      KeptRowIsFound(s.rows, s'.rows, c.payload);
    }
    CallsStayOk(s, s', i);
  }

  lemma ReadInv(s: State, i: nat, ok: bool)
    requires Inv(s) && i < |s.calls| && s.calls[i].pc.Reading?
    ensures Inv(DoRead(s, i, ok))
  {
    hide Tally;
    var s' := DoRead(s, i, ok);
    assert CallOk(s, s.calls[i]);
    TalliesStay(s.calls, i, s'.calls[i]);
    forall f | 0 <= f < |s'.rows| ensures Exact(s', f) {
      StaysExact(s, s', f, f);
    }
    CallsStayOk(s, s', i);
  }

  lemma WriteInv(s: State, i: nat, ok: bool)
    requires Inv(s) && i < |s.calls| && s.calls[i].pc.Writing? && s.calls[i].pc.row < |s.rows|
    ensures Inv(DoWrite(s, i, ok))
  {
    hide Tally, Merge;
    var s', c := DoWrite(s, i, ok), s.calls[i];
    assert CallOk(s, c);
    TalliesStay(s.calls, i, s'.calls[i]);
    forall f | 0 <= f < |s'.rows| ensures Exact(s', f) {
      StaysExact(s, s', f, f);
    }
    if HasRow(s.rows, c.payload) {
      KeptRowIsFound(s.rows, s'.rows, c.payload);
    }
    CallsStayOk(s, s', i);
  }

  lemma StartInv(s: State, p: Payload)
    requires Inv(s)
    ensures Inv(Apply(s, Start(p)))
  {
    hide Tally;
    var s' := Apply(s, Start(p));
    if s' != s {
      var c := Call(p, Inserting, false, false, false);
      forall f | 0 <= f < |s.rows| ensures Exact(s', f) {
        forall kind ensures Tally(s'.calls, KeyOf(s.rows[f]), kind) == Tally(s.calls, KeyOf(s.rows[f]), kind) {
          TallyAppend(s.calls, c, KeyOf(s.rows[f]), kind);
        }
        StaysExact(s, s', f, f);
      }
      forall j | 0 <= j < |s'.calls| ensures CallOk(s', s'.calls[j]) {
        assert j < |s.calls| ==> CallOk(s, s.calls[j]);
      }
    }
  }

  lemma StepInv(s: State, a: Action)
    requires Inv(s)
    ensures Inv(Apply(s, a))
  {
    hide Inv, DoInsert, DoCount, DoRead, DoWrite;
    match a
    case Start(p) => StartInv(s, p);
    case Insert(i, ok) => if AtWork(s, i).Inserting? { InsertInv(s, i, ok); }
    case Count(i, ok) => if AtWork(s, i).Counting? { CountInv(s, i, ok); }
    case Read(i, ok) => if AtWork(s, i).Reading? { ReadInv(s, i, ok); }
    case Write(i, ok) => if AtWork(s, i).Writing? && AtWork(s, i).row < |s.rows| { WriteInv(s, i, ok); }
  }

  lemma {:induction false} ReachableInv(run: seq<Action>)
    ensures Inv(After(run))
    decreases |run|
  {
    if run != [] {
      ReachableInv(run[..|run| - 1]);
      StepInv(After(run[..|run| - 1]), run[|run| - 1]);
    }
  }

  // ---------- the counters ----------

  /**
   In every reachable state a shop and product have at most one row; its three counters are exactly the
   numbers of calls counted for it, so neither part exceeds the total; and every call whose insert and
   increment both succeeded is counted, in a row that exists.
   */
  lemma CountersAreExact(run: seq<Action>)
    ensures var s := After(run);
            && (forall f, g :: 0 <= f < g < |s.rows| ==> s.rows[f].shop != s.rows[g].shop || s.rows[f].product != s.rows[g].product)
            && (forall f :: 0 <= f < |s.rows| ==>
                  && s.rows[f].total == Tally(s.calls, KeyOf(s.rows[f]), Total)
                  && s.rows[f].negative == Tally(s.calls, KeyOf(s.rows[f]), Negative) <= s.rows[f].total
                  && s.rows[f].given == Tally(s.calls, KeyOf(s.rows[f]), Given) <= s.rows[f].total)
            && (forall i :: 0 <= i < |s.calls| && s.calls[i].inserted && s.calls[i].incremented ==>
                  s.calls[i].counted && HasRow(s.rows, s.calls[i].payload))
  {
    var s := After(run);
    ReachableInv(run);
    forall f | 0 <= f < |s.rows|
      ensures s.rows[f].total == Tally(s.calls, KeyOf(s.rows[f]), Total)
      ensures s.rows[f].negative == Tally(s.calls, KeyOf(s.rows[f]), Negative) <= s.rows[f].total
      ensures s.rows[f].given == Tally(s.calls, KeyOf(s.rows[f]), Given) <= s.rows[f].total
    {
      hide Tally;
      assert Exact(s, f);
      assert Counter(s.rows[f], Total) == Tally(s.calls, KeyOf(s.rows[f]), Total);
      assert Counter(s.rows[f], Negative) == Tally(s.calls, KeyOf(s.rows[f]), Negative);
      assert Counter(s.rows[f], Given) == Tally(s.calls, KeyOf(s.rows[f]), Given);
      TallyOrder(s.calls, KeyOf(s.rows[f]), Negative);
      TallyOrder(s.calls, KeyOf(s.rows[f]), Given);
    }
    assert forall i :: 0 <= i < |s.calls| ==> CallOk(s, s.calls[i]);
  }

  predicate Succeeds(a: Action) {
    a.Start? || a.ok
  }

  predicate Past(c: Call, p: Payload) {
    c.payload.shop == p.shop && c.payload.product == p.product && !c.pc.Inserting? && !c.pc.Counting?
  }

  /** How many calls of this shop and product are past their increment. */
  function PastIncrement(calls: seq<Call>, p: Payload): nat {
    if calls == [] then 0 else PastIncrement(calls[..|calls| - 1], p) + One(Past(calls[|calls| - 1], p))
  }

  predicate Flagged(c: Call) {
    && (!c.pc.Inserting? ==> c.inserted)
    && (!c.pc.Inserting? && !c.pc.Counting? ==> c.incremented)
  }

  lemma StepFlagged(s: State, a: Action)
    requires Succeeds(a) && forall i :: 0 <= i < |s.calls| ==> Flagged(s.calls[i])
    ensures forall i :: 0 <= i < |Apply(s, a).calls| ==> Flagged(Apply(s, a).calls[i])
  {
    hide Find, Merge, HistoryOf;
    var s' := Apply(s, a);
    if !a.Start? && a.call < |s.calls| {
      assert Flagged(s.calls[a.call]);
    }
  }

  lemma {:induction false} SuccessIsFlagged(run: seq<Action>)
    requires forall j :: 0 <= j < |run| ==> Succeeds(run[j])
    ensures forall i :: 0 <= i < |After(run).calls| ==> Flagged(After(run).calls[i])
    decreases |run|
  {
    if run != [] {
      hide Flagged, Succeeds, Apply;
      SuccessIsFlagged(run[..|run| - 1]);
      StepFlagged(After(run[..|run| - 1]), run[|run| - 1]);
    }
  }

  lemma {:induction false} PastIsCounted(s: State, calls: seq<Call>, p: Payload)
    requires forall i :: 0 <= i < |calls| ==> Flagged(calls[i]) && CallOk(s, calls[i])
    ensures PastIncrement(calls, p) == Tally(calls, p, Total)
    decreases |calls|
  {
    if calls != [] {
      PastIsCounted(s, calls[..|calls| - 1], p);
      var c := calls[|calls| - 1];
      assert Flagged(c) && CallOk(s, c);
      assert Past(c, p) <==> Contributes(c, p, Total);
    }
  }

  /** If no statement fails, the total is the number of calls past their increment: nothing is lost. */
  lemma NoIncrementIsLost(run: seq<Action>, p: Payload)
    requires forall j :: 0 <= j < |run| ==> Succeeds(run[j])
    ensures var s := After(run);
            if HasRow(s.rows, p) then s.rows[Find(s.rows, p)].total == PastIncrement(s.calls, p)
            else PastIncrement(s.calls, p) == 0
  {
    hide Tally, PastIncrement;
    var s := After(run);
    ReachableInv(run);
    SuccessIsFlagged(run);
    PastIsCounted(s, s.calls, p);
    if HasRow(s.rows, p) {
      var f := Find(s.rows, p);
      assert Exact(s, f);
      assert Counter(s.rows[f], Total) == Tally(s.calls, KeyOf(s.rows[f]), Total);
      PastIsCounted(s, s.calls, KeyOf(s.rows[f]));
      SamePast(s.calls, p, KeyOf(s.rows[f]));
    } else {
      NewRowIsExact(s, p);
    }
  }

  lemma {:induction false} SamePast(calls: seq<Call>, p: Payload, q: Payload)
    requires p.shop == q.shop && p.product == q.product
    ensures PastIncrement(calls, p) == PastIncrement(calls, q)
    decreases |calls|
  {
    if calls != [] {
      SamePast(calls[..|calls| - 1], p, q);
    }
  }
}
