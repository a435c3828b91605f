/**
 Handlers of one return that overlap. Each reads the row, decides, and later writes some columns of it;
 between its read and its writes others may write. The history stays good exactly as long as every update finds
 a row from which it leads up the table, or to which it does nothing new; if every update finds the very
 status its handler decided on, that is so. Otherwise a final status can be left.
 */
module ReturnsOverlap {
  import opened Returns

  /** What one UPDATE sets, with the status its handler takes the row to be in. */
  datatype Patch =
    | SetStatus(expected: Status, to: Status)
    | SetLabel(expected: Status, url: string, tracking: string)
    | SetRefund(expected: Status, amount: real)
    | SetStatusAndNote(expected: Status, to: Status, note: string)
    | SetNote(note: string)

  function Patched(r: Row, p: Patch): Row {
    match p
    case SetStatus(_, to) => r.(status := to)
    case SetLabel(_, url, tracking) => Labelled(r, url, tracking)
    case SetRefund(_, amount) => r.(status := Refunded, refund := amount)
    case SetStatusAndNote(_, to, note) => r.(status := to, note := note)
    case SetNote(note) => r.(note := note)
  }

  /** The updates a handler decides on when it has read the row. */
  function Patches(read: Row, q: Request): seq<Patch> {
    match q
    case Approve(carrier, saved, labelSaved) =>
      if Approved !in Allowed(read.status) then []
      else
        (if saved then [SetStatus(read.status, Approved)] else [])
        + if carrier.Issues? && read.labelURL == "" && labelSaved then
            [SetLabel(if saved then Approved else read.status, carrier.url, carrier.tracking)] else []
    case GenerateLabel(carrier, number, saved) =>
      if (read.status != Approved && read.status != Pending) || read.labelURL != "" || !saved then []
      else (
        match carrier
        case NoCarrier(id) => [SetLabel(read.status, PlaceholderURL(id), number)]
        case CarrierFails => []
        case Issues(url, tracking) => [SetLabel(read.status, url, tracking)])
    case MarkReceived(saved) =>
      if Received in Allowed(read.status) && saved then [SetStatus(read.status, Received)] else []
    case Refund(amount, full, reason, saved) =>
      if (read.status != Inspecting && read.status != Received) || !saved then []
      else [SetRefund(read.status, if full || amount <= 0.0 then CalculateRefundAmount(reason) else amount)]
    case UpdateStatus(to, text, saved) =>
      if to !in Allowed(read.status) || !saved then []
      else [SetStatusAndNote(read.status, to, if text != "" then read.note + "; " + text else read.note)]
    case UpdateNote(text, saved) =>
      if saved then [SetNote(text)] else []
  }

  function Trail(r: Row, ps: seq<Patch>): seq<Row>
    decreases |ps|
  {
    if ps == [] then [] else [Patched(r, ps[0])] + Trail(Patched(r, ps[0]), ps[1..])
  }

  /** A handler that nobody disturbs writes what it writes when handlers run one after the other. */
  lemma AloneAsInSequence(r: Row, q: Request)
    ensures Trail(r, Patches(r, q)) == Commits(r, q)
  {
    hide PlaceholderURL, CalculateRefundAmount;
    if q.Approve? {
      TrailOfApprove(r, q);
    }
  }

  /** The row that an update of a handler finds if nobody disturbs it. */
  function RowBefore(r: Row, ps: seq<Patch>, i: nat): Row
    requires i < |ps|
  {
    if i == 0 then r else Patched(RowBefore(r, ps, i - 1), ps[i - 1])
  }

  /** And each of its updates then finds the status that the handler takes the row to be in. */
  lemma AloneFindsItsStatus(r: Row, q: Request, i: nat)
    requires i < |Patches(r, q)| && !Patches(r, q)[i].SetNote?
    ensures RowBefore(r, Patches(r, q), i).status == Patches(r, q)[i].expected
  {
    hide PlaceholderURL, CalculateRefundAmount;
    if q.Approve? {
      assert r.status == Pending;
    }
  }

  lemma TrailOfApprove(r: Row, q: Request)
    requires q.Approve?
    ensures Trail(r, Patches(r, q)) == Commits(r, q)
  {
    var ps := Patches(r, q);
    assert |ps| <= 2;
    if |ps| == 2 {
      assert ps[1..] == [ps[1]];
      assert Trail(Patched(r, ps[0]), [ps[1]]) == [Patched(Patched(r, ps[0]), ps[1])] + [];
    }
  }

  // ---------- overlapping runs ----------

  datatype Step = Read(handler: nat, q: Request) | Write(handler: nat)

  /** All committed rows, and the updates that handlers have decided on and not yet made. */
  datatype State = State(rows: seq<Row>, pending: map<nat, seq<Patch>>)

  function Undone(s: State, h: nat): seq<Patch> {
    if h in s.pending then s.pending[h] else []
  }

  function Apply(s: State, step: Step): State
    requires s.rows != []
  {
    var row := s.rows[|s.rows| - 1];
    match step
    case Read(h, q) => if Undone(s, h) == [] then s.(pending := s.pending[h := Patches(row, q)]) else s
    case Write(h) =>
      var ps := Undone(s, h);
      if ps == [] then s else State(s.rows + [Patched(row, ps[0])], s.pending[h := ps[1..]])
  }

  function After(run: seq<Step>): (s: State)
    ensures s.rows != []
  {
    if run == [] then State([Created()], map[]) else Apply(After(run[..|run| - 1]), run[|run| - 1])
  }

  lemma AfterAppend(run: seq<Step>, step: Step)
    ensures After(run + [step]) == Apply(After(run), step)
  {
    assert (run + [step])[..|run|] == run;
  }

  /** The write finds the status its handler decided on; a note does not depend on one. */
  predicate Finds(s: State, step: Step)
    requires s.rows != []
  {
    step.Write? && Undone(s, step.handler) != [] ==>
      var p := Undone(s, step.handler)[0];
      p.SetNote? || s.rows[|s.rows| - 1].status == p.expected
  }

  predicate Undisturbed(run: seq<Step>) {
    run == [] || (Undisturbed(run[..|run| - 1]) && Finds(After(run[..|run| - 1]), run[|run| - 1]))
  }

  /** What handlers decide on fits the status they decided on. */
  predicate Fits(p: Patch) {
    match p
    case SetStatus(e, to) => to in Allowed(e)
    case SetLabel(e, _, _) => e == Pending || e == Approved
    case SetRefund(e, amount) => (e == Received || e == Inspecting) && amount > 0.0
    case SetStatusAndNote(e, to, _) => to in Allowed(e)
    case SetNote(_) => true
  }

  lemma DecisionsFit(read: Row, q: Request)
    ensures forall p :: p in Patches(read, q) ==> Fits(p)
  {
    hide PlaceholderURL, CalculateRefundAmount;
  }

  // ---------- which updates do no harm ----------

  /**
   The guard that an update would need on the row it finds: a status from which the new one lies up the
   table, or the new one itself; for labels and refunds a row that may still get one, or has this very one.
   */
  predicate Harmless(row: Row, p: Patch) {
    match p
    case SetStatus(_, to) => row.status == to || Rank(row.status) < Rank(to)
    case SetStatusAndNote(_, to, _) => row.status == to || Rank(row.status) < Rank(to)
    case SetLabel(_, url, tracking) =>
      || row.status == Pending || row.status == Approved
      || (row.status == LabelIssued && row.labelURL == url && row.tracking == tracking)
    case SetRefund(_, amount) =>
      || row.status == Received || row.status == Inspecting
      || (row.status == Refunded && row.refund == amount)
    case SetNote(_) => true
  }

  lemma StepAndOn(a: Status, b: Status, c: Status)
    requires b in Allowed(a) && Reaches(b, c)
    ensures Reaches(a, c)
  {
    var p :| Path(p) && p[0] == b && p[|p| - 1] == c;
    hide Allowed;
    assert Path([a] + p);
  }

  /** The status behind this one on the way that no rejection cuts short. */
  function Next(s: Status): Status {
    match s
    case Pending => Approved
    case Approved => LabelIssued
    case LabelIssued => CustomerShipped
    case CustomerShipped => Received
    case Received => Inspecting
    case _ => Refunded
  }

  /** The ranks are the table's closure: from every status each status of a higher rank is reached. */
  lemma {:induction false} HigherIsReached(a: Status, b: Status)
    requires Rank(a) < Rank(b) && !b.Unknown?
    ensures Reaches(a, b)
    decreases 6 - Rank(a)
  {
    if b in Allowed(a) {
      OneStep(a, b);
    } else {
      HigherIsReached(Next(a), b);
      StepAndOn(a, Next(a), b);
    }
  }

  lemma ReachesIff(a: Status, b: Status)
    requires !b.Unknown?
    ensures Reaches(a, b) <==> Rank(a) < Rank(b)
  {
    hide Reaches;
    if Rank(a) < Rank(b) {
      HigherIsReached(a, b);
    } else if Reaches(a, b) {
      ReachesClimbs(a, b);
    }
  }

  lemma FitsTo(p: Patch)
    requires Fits(p) && (p.SetStatus? || p.SetStatusAndNote?)
    ensures !p.to.Unknown? && Rank(p.to) > 0
  {
  }

  /** One update of a sound row is good if and only if the guard holds. */
  lemma GoodIffHarmless(a: Row, p: Patch)
    requires Sound(a) && Fits(p)
    ensures GoodWrite(a, Patched(a, p)) <==> Harmless(a, p)
  {
    hide Reaches, Fits;
    match p
    case SetStatus(_, to) =>
      FitsTo(p);
      ReachesIff(a.status, to);
    case SetStatusAndNote(_, to, _) =>
      FitsTo(p);
      ReachesIff(a.status, to);
    case SetLabel(_, _, _) => ReachesIff(a.status, LabelIssued);
    case SetRefund(_, _) =>
      assert p.amount > 0.0 by { PaysSomething(p); }
      ReachesIff(a.status, Refunded);
    case SetNote(_) =>
  }

  lemma PaysSomething(p: Patch)
    requires Fits(p) && p.SetRefund?
    ensures p.amount > 0.0
  {
  }

  /** Whoever writes when, all that is still to be written fits what its handler had read. */
  predicate AllFit(s: State) {
    forall h :: h in s.pending ==> forall p :: p in s.pending[h] ==> Fits(p)
  }

  lemma StepFits(s: State, step: Step)
    requires s.rows != [] && AllFit(s)
    ensures AllFit(Apply(s, step))
  {
    hide Patches, Patched, Fits;
    match step
    case Read(h, q) => DecisionsFit(s.rows[|s.rows| - 1], q);
    case Write(h) =>
  }

  lemma {:induction false} DecisionsAlwaysFit(run: seq<Step>)
    ensures AllFit(After(run))
    decreases |run|
  {
    hide Apply;
    if run != [] {
      DecisionsAlwaysFit(run[..|run| - 1]);
      StepFits(After(run[..|run| - 1]), run[|run| - 1]);
    }
  }

  lemma LastIsSound(rows: seq<Row>)
    requires GoodHistory(rows)
    ensures Sound(rows[|rows| - 1])
  {
    hide GoodWrite;
    if |rows| > 1 {
      assert GoodWrite(rows[|rows| - 2], rows[|rows| - 2 + 1]);
      GoodWriteIsSound(rows[|rows| - 2], rows[|rows| - 1]);
    }
  }

  lemma GoodHistoryGrows(rows: seq<Row>, r: Row)
    requires GoodHistory(rows) && GoodWrite(rows[|rows| - 1], r)
    ensures GoodHistory(rows + [r])
  {
    hide GoodWrite;
    var longer := rows + [r];
    forall i | 0 <= i < |longer| - 1 ensures GoodWrite(longer[i], longer[i + 1]) {
      assert i < |rows| - 1 ==> GoodWrite(rows[i], rows[i + 1]);
    }
  }

  lemma GoodHistoryShrinks(rows: seq<Row>, r: Row)
    requires rows != [] && GoodHistory(rows + [r])
    ensures GoodHistory(rows) && GoodWrite(rows[|rows| - 1], r)
  {
    hide GoodWrite, Sound;
    var longer := rows + [r];
    assert longer[0] == rows[0];
    forall i | 0 <= i < |rows| - 1 ensures GoodWrite(rows[i], rows[i + 1]) {
      assert GoodWrite(longer[i], longer[i + 1]);
    }
    assert GoodWrite(longer[|rows| - 1], longer[|rows| - 1 + 1]);
  }

  /** The step makes no update, or one that does no harm to the row it finds. */
  predicate DoesNoHarm(s: State, step: Step)
    requires s.rows != []
  {
    step.Write? && Undone(s, step.handler) != [] ==>
      Harmless(s.rows[|s.rows| - 1], Undone(s, step.handler)[0])
  }

  /** Every update of the run finds a row to which it does no harm. */
  predicate NoHarm(run: seq<Step>) {
    run == [] || (NoHarm(run[..|run| - 1]) && DoesNoHarm(After(run[..|run| - 1]), run[|run| - 1]))
  }

  lemma FirstFits(s: State, h: nat)
    requires AllFit(s) && Undone(s, h) != []
    ensures Fits(Undone(s, h)[0])
  {
    hide Fits;
    assert Undone(s, h)[0] in s.pending[h];
  }

  lemma StepGoodIff(s: State, step: Step)
    requires s.rows != [] && AllFit(s)
    ensures GoodHistory(Apply(s, step).rows) <==> GoodHistory(s.rows) && DoesNoHarm(s, step)
  {
    hide GoodHistory, GoodWrite, Sound, Patches, Patched, Harmless, AllFit;
    var row := s.rows[|s.rows| - 1];
    if step.Write? && Undone(s, step.handler) != [] {
      var p := Undone(s, step.handler)[0];
      FirstFits(s, step.handler);
      if GoodHistory(s.rows) {
        LastIsSound(s.rows);
        GoodIffHarmless(row, p);
        if Harmless(row, p) {
          GoodHistoryGrows(s.rows, Patched(row, p));
        }
      }
      if GoodHistory(s.rows + [Patched(row, p)]) {
        GoodHistoryShrinks(s.rows, Patched(row, p));
      }
    }
  }

  /**
   However handlers of one return overlap, its history is good if and only if every update was harmless
   to the row it found.
   */
  lemma {:induction false} OverlapIff(run: seq<Step>)
    ensures GoodHistory(After(run).rows) <==> NoHarm(run)
    decreases |run|
  {
    hide GoodHistory, Apply, DoesNoHarm;
    InitialHistory();
    if run != [] {
      var before := run[..|run| - 1];
      OverlapIff(before);
      DecisionsAlwaysFit(before);
      StepGoodIff(After(before), run[|run| - 1]);
    }
  }

  /** An update that finds the status its handler decided on does no harm. */
  lemma FoundIsHarmless(row: Row, p: Patch)
    requires Fits(p) && (p.SetNote? || row.status == p.expected)
    ensures Harmless(row, p)
  {
  }

  lemma {:induction false} UndisturbedDoesNoHarm(run: seq<Step>)
    requires Undisturbed(run)
    ensures NoHarm(run)
    decreases |run|
  {
    hide Apply, Harmless, Fits;
    if run != [] {
      var before, step := run[..|run| - 1], run[|run| - 1];
      UndisturbedDoesNoHarm(before);
      DecisionsAlwaysFit(before);
      if step.Write? && Undone(After(before), step.handler) != [] {
        FirstFits(After(before), step.handler);
        FoundIsHarmless(After(before).rows[|After(before).rows| - 1], Undone(After(before), step.handler)[0]);
      }
    }
  }

  /**
   So harmless updates keep all that handlers in sequence keep: the bounds of a return's life and its final
   status.
   */
  lemma NoHarmKeepsBounds(run: seq<Step>)
    requires NoHarm(run)
    ensures StatusChanges(After(run).rows) <= 6 && LabelWrites(After(run).rows) <= 1 && RefundWrites(After(run).rows) <= 1
    ensures forall i, j :: 0 <= i <= j < |After(run).rows| && Final(After(run).rows[i].status) ==>
              After(run).rows[j].status == After(run).rows[i].status
  {
    hide *;
    OverlapIff(run);
    Bounds(After(run).rows);
    RankIsSix(After(run).rows[|After(run).rows| - 1].status);
    FinalStays(After(run).rows);
  }

  /** In particular handlers may overlap as long as every write finds the status its handler decided on. */
  lemma OverlapKeepsHistoryGood(run: seq<Step>)
    requires Undisturbed(run)
    ensures GoodHistory(After(run).rows)
    ensures StatusChanges(After(run).rows) <= 6 && LabelWrites(After(run).rows) <= 1 && RefundWrites(After(run).rows) <= 1
    ensures forall i, j :: 0 <= i <= j < |After(run).rows| && Final(After(run).rows[i].status) ==>
              After(run).rows[j].status == After(run).rows[i].status
  {
    hide *;
    UndisturbedDoesNoHarm(run);
    OverlapIff(run);
    NoHarmKeepsBounds(run);
  }

  lemma RankIsSix(s: Status)
    ensures Rank(s) <= 6
  {
  }

  lemma FinalStays(rows: seq<Row>)
    requires GoodHistory(rows)
    ensures forall i, j :: 0 <= i <= j < |rows| && Final(rows[i].status) ==> rows[j].status == rows[i].status
  {
    hide GoodHistory;
    forall i, j | 0 <= i <= j < |rows| && Final(rows[i].status) ensures rows[j].status == rows[i].status {
      RankNeverFalls(rows, i, j);
    }
  }

  // ---------- a run that is disturbed ----------

  lemma Then(run: seq<Step>, step: Step, s: State) returns (longer: seq<Step>)
    requires After(run) == s
    ensures longer == run + [step] && After(longer) == Apply(s, step)
  {
    AfterAppend(run, step);
    longer := run + [step];
  }

  lemma Decided(rows: seq<Row>, to: Status)
    requires rows != [] && to in Allowed(rows[|rows| - 1].status)
    ensures var row := rows[|rows| - 1];
            && Apply(State(rows, map[0 := []]), Read(0, UpdateStatus(to, "", true)))
            == State(rows, map[0 := [SetStatusAndNote(row.status, to, row.note)]])
  {
  }

  lemma Made(rows: seq<Row>, to: Status)
    requires rows != []
    ensures var row := rows[|rows| - 1];
            Apply(State(rows, map[0 := [SetStatusAndNote(row.status, to, row.note)]]), Write(0))
            == State(rows + [row.(status := to)], map[0 := []])
  {
  }

  /** One manual update, read and written by handler 0. */
  lemma Updated(run: seq<Step>, rows: seq<Row>, to: Status) returns (longer: seq<Step>)
    requires rows != [] && After(run) == State(rows, map[0 := []]) && to in Allowed(rows[|rows| - 1].status)
    ensures After(longer) == State(rows + [rows[|rows| - 1].(status := to)], map[0 := []])
  {
    hide After, Apply, Allowed;
    Decided(rows, to);
    Made(rows, to);
    var row := rows[|rows| - 1];
    longer := Then(run, Read(0, UpdateStatus(to, "", true)), State(rows, map[0 := []]));
    longer := Then(longer, Write(0), State(rows, map[0 := [SetStatusAndNote(row.status, to, row.note)]]));
  }

  function At(s: Status): Row {
    Created().(status := s)
  }

  lemma IntoInspection() returns (run: seq<Step>)
    ensures exists rows :: rows != [] && rows[|rows| - 1] == At(Inspecting) && After(run) == State(rows, map[0 := []])
  {
    hide After, Apply;
    run := Started();
    var rows := [At(Pending)];
    run := Updated(run, rows, Approved);
    rows := rows + [At(Approved)];
    run := Updated(run, rows, LabelIssued);
    rows := rows + [At(LabelIssued)];
    run := Updated(run, rows, CustomerShipped);
    rows := rows + [At(CustomerShipped)];
    run := Updated(run, rows, Received);
    rows := rows + [At(Received)];
    run := Updated(run, rows, Inspecting);
    rows := rows + [At(Inspecting)];
  }

  /** A note that is not saved leaves handler 0 known and the return as created. */
  lemma Started() returns (run: seq<Step>)
    ensures After(run) == State([At(Pending)], map[0 := []])
  {
    run := Then([], Read(0, UpdateNote("", false)), State([Created()], map[]));
  }

  lemma RefundOverRejection(run: seq<Step>, rows: seq<Row>) returns (longer: seq<Step>)
    requires rows != [] && rows[|rows| - 1] == At(Inspecting) && After(run) == State(rows, map[0 := []])
    ensures longer == run + [Read(1, Refund(10.0, false, "", true)), Read(2, UpdateStatus(Rejected, "", true)), Write(2), Write(1)]
    ensures After(longer).rows == rows + [At(Rejected)] + [At(Refunded).(refund := 10.0)]
  {
    hide After;
    var refund, rejection := SetRefund(Inspecting, 10.0), SetStatusAndNote(Inspecting, Rejected, "");
    longer := Then(run, Read(1, Refund(10.0, false, "", true)), State(rows, map[0 := []]));
    longer := Then(longer, Read(2, UpdateStatus(Rejected, "", true)), State(rows, map[0 := [], 1 := [refund]]));
    longer := Then(longer, Write(2), State(rows, map[0 := [], 1 := [refund], 2 := [rejection]]));
    longer := Then(longer, Write(1), State(rows + [At(Rejected)], map[0 := [], 1 := [refund], 2 := []]));
  }

  /**
   Why the handlers must not overlap: two handlers read a return in inspection, one writes a rejection and
   then the other its refund. The run leaves the final status rejected, which no way through the table does.
   */
  lemma OverlappingHandlersLeaveTheTable() returns (run: seq<Step>)
    ensures var rows := After(run).rows;
            && |rows| >= 2 && rows[|rows| - 2].status == Rejected && rows[|rows| - 1].status == Refunded
            && !GoodHistory(rows) && !Undisturbed(run)
  {
    var start := IntoInspection();
    var rows :| rows != [] && rows[|rows| - 1] == At(Inspecting) && After(start) == State(rows, map[0 := []]);
    run := RefundOverRejection(start, rows);
    hide After, GoodHistory, Undisturbed;
    if GoodHistory(After(run).rows) {
      RejectedStays(After(run).rows);
    }
    if Undisturbed(run) {
      OverlapKeepsHistoryGood(run);
    }
  }

  lemma NoHarmAppend(run: seq<Step>, step: Step)
    ensures NoHarm(run + [step]) <==> NoHarm(run) && DoesNoHarm(After(run), step)
    ensures Undisturbed(run + [step]) <==> Undisturbed(run) && Finds(After(run), step)
  {
    hide After, DoesNoHarm, Finds;
    assert (run + [step])[..|run|] == run;
  }

  const APPROVAL := SetStatus(Pending, Approved)

  lemma ApprovalDecided()
    ensures Patches(At(Pending), Approve(NoCarrier(""), true, false)) == [APPROVAL]
    ensures Harmless(At(Pending), APPROVAL)
  {
    assert [APPROVAL] + [] == [APPROVAL];
  }

  lemma ThenHarmless(run: seq<Step>, step: Step, s: State) returns (longer: seq<Step>)
    requires After(run) == s && NoHarm(run) && DoesNoHarm(s, step)
    ensures longer == run + [step] && After(longer) == Apply(s, step) && NoHarm(longer)
  {
    hide After, Apply, DoesNoHarm;
    NoHarmAppend(run, step);
    longer := Then(run, step, s);
  }

  /** Handler 2 has yet to write its approval, handler 1 these updates. */
  function Deciding(rows: seq<Row>, first: seq<Patch>): State {
    State(rows, map[1 := first, 2 := [APPROVAL]])
  }

  lemma ApprovalStates()
    ensures var approve, rows := Approve(NoCarrier(""), true, false), [At(Pending)];
            && Apply(State(rows, map[]), Read(1, approve)) == State(rows, map[1 := [APPROVAL]])
            && Apply(State(rows, map[1 := [APPROVAL]]), Read(2, approve)) == Deciding(rows, [APPROVAL])
            && Apply(Deciding(rows, [APPROVAL]), Write(1)) == Deciding(rows + [At(Approved)], [])
            && DoesNoHarm(Deciding(rows, [APPROVAL]), Write(1))
  {
    hide Patches, Harmless;
    ApprovalDecided();
  }

  /** Two handlers have read a pending return and each decided to approve it, and handler 1 has done so. */
  lemma ApprovedOnce() returns (run: seq<Step>)
    ensures NoHarm(run) && After(run) == Deciding([At(Pending), At(Approved)], [])
  {
    hide After, Apply, NoHarm, Deciding;
    var approve, rows := Approve(NoCarrier(""), true, false), [At(Pending)];
    ApprovalStates();
    NothingRun();
    run := ThenHarmless([], Read(1, approve), State(rows, map[]));
    run := ThenHarmless(run, Read(2, approve), State(rows, map[1 := [APPROVAL]]));
    run := ThenHarmless(run, Write(1), Deciding(rows, [APPROVAL]));
    assert rows + [At(Approved)] == [At(Pending), At(Approved)];
  }

  lemma NothingRun()
    ensures NoHarm([]) && After([]) == State([At(Pending)], map[])
  {
  }

  /**
   Finding the status read is more than is needed: two handlers that read a pending return both approve it,
   the second finds it approved, and the history is good.
   */
  lemma OverlappingApprovalsDoNoHarm() returns (run: seq<Step>)
    ensures |After(run).rows| == 3 && NoHarm(run) && GoodHistory(After(run).rows) && !Undisturbed(run)
  {
    hide After, GoodHistory, NoHarm, Undisturbed;
    var once := ApprovedOnce();
    NoHarmAppend(once, Write(2));
    run := Then(once, Write(2), After(once));
    OverlapIff(run);
  }

  lemma RejectedStays(rows: seq<Row>)
    requires GoodHistory(rows) && |rows| >= 2 && rows[|rows| - 2].status == Rejected
    ensures rows[|rows| - 1].status == Rejected
  {
    RankNeverFalls(rows, |rows| - 2, |rows| - 1);
  }
}
