/**
 The life of one return request: the status table, the handlers that obey it, and the two that
 go around it. Handlers of one return run one after the other; any of their writes may fail.
 */
module Returns {
  import Text

  datatype Status =
    | Pending | Approved | LabelIssued | CustomerShipped | Received | Inspecting
    | Refunded | Exchanged | Rejected
    | Unknown(name: string)

  datatype Row = Row(status: Status, labelURL: string, tracking: string, refund: real, note: string)

  /** What asking the carrier for a label comes to; without a carrier a placeholder label is drawn. */
  datatype Carrier = NoCarrier(placeholder: string) | CarrierFails | Issues(url: string, tracking: string)

  /** One request to a handler; the flags say which of its writes reach the database. */
  datatype Request =
    | Approve(carrier: Carrier, saved: bool, labelSaved: bool)
    | GenerateLabel(carrier: Carrier, number: string, saved: bool)
    | MarkReceived(saved: bool)
    | Refund(amount: real, full: bool, reason: string, saved: bool)
    | UpdateStatus(to: Status, text: string, saved: bool)
    | UpdateNote(text: string, saved: bool)

  function Allowed(s: Status): seq<Status> {
    match s
    case Pending => [Approved, Rejected]
    case Approved => [LabelIssued, Rejected]
    case LabelIssued => [CustomerShipped, Rejected]
    case CustomerShipped => [Received]
    case Received => [Inspecting]
    case Inspecting => [Refunded, Exchanged, Rejected]
    case _ => []
  }

  function Created(): Row {
    Row(Pending, "", "", 0.0, "")
  }

  /** The amount refunded when the request names none. */
  function CalculateRefundAmount(reason: string): (amount: real)
    ensures amount > 0.0
  {
    var base := 100.0;
    if reason == "wrong_item" || reason == "defective" || reason == "quality" then base
    else if Text.Contains(reason, "size") || Text.Contains(reason, "fit") then Max(base - 10.0)
    else if reason == "changed_mind" || reason == "not_wanted" then Max(base - 10.0 - base * 0.05)
    else base
  }

  function Max(x: real): real {
    if x < 0.0 then 0.0 else x
  }

  /** Reasons that are the merchant's fault. */
  const FAULTS := ["wrong_item", "defective", "quality"]

  /** Reasons that are the customer's change of mind. */
  const REGRETS := ["changed_mind", "not_wanted"]

  predicate NamesSize(reason: string) {
    Text.Contains(reason, "size") || Text.Contains(reason, "fit")
  }

  lemma Inside(s: string, sub: string) returns (i: nat)
    requires Text.Contains(s, sub)
    ensures i + |sub| <= |s| && s[i..i + |sub|] == sub
  {
    i :| 0 <= i <= |s| && Text.HasPrefix(s[i..], sub);
    assert s[i..][..|sub|] == sub && s[i..i + |sub|] == s[i..][..|sub|];
  }

  /** A text that names size has a 'z', one that names fit an 'f' with an 'i' behind it. */
  predicate Spelled(s: string) {
    'z' in s || exists i :: 0 < i < |s| && s[i - 1] == 'f' && s[i] == 'i'
  }

  lemma SizeIsSpelled(s: string)
    requires NamesSize(s)
    ensures Spelled(s)
  {
    hide Text.Contains;
    if Text.Contains(s, "size") {
      var i := Inside(s, "size");
      assert s[i..i + 4][2] == 'z' && s[i + 2] == 'z';
    } else {
      var i := Inside(s, "fit");
      assert s[i..i + 3][0] == 'f' && s[i..i + 3][1] == 'i' && s[i + 1 - 1] == 'f' && s[i + 1] == 'i';
    }
  }

  lemma NotSpelled()
    ensures !Spelled("wrong_item") && !Spelled("defective") && !Spelled("quality")
    ensures !Spelled("changed_mind") && !Spelled("not_wanted")
  {
    assert "wrong_item" == ['w', 'r', 'o', 'n', 'g', '_', 'i', 't', 'e', 'm'];
    assert "defective" == ['d', 'e', 'f', 'e', 'c', 't', 'i', 'v', 'e'];
    assert "quality" == ['q', 'u', 'a', 'l', 'i', 't', 'y'];
    assert "changed_mind" == ['c', 'h', 'a', 'n', 'g', 'e', 'd', '_', 'm', 'i', 'n', 'd'];
    assert "not_wanted" == ['n', 'o', 't', '_', 'w', 'a', 'n', 't', 'e', 'd'];
  }

  lemma NoneNamesSize(reason: string)
    requires reason in FAULTS || reason in REGRETS
    ensures !NamesSize(reason)
  {
    hide NamesSize, Spelled;
    NotSpelled();
    if NamesSize(reason) {
      SizeIsSpelled(reason);
    }
  }

  /**
   What a refund comes to: the merchant's faults are refunded in full, a wrong size or fit less the shipping
   of 10, a change of mind less shipping and a fee of 5 in the hundred, and anything else in full.
   */
  lemma RefundAmounts(reason: string)
    ensures reason in FAULTS ==> CalculateRefundAmount(reason) == 100.0
    ensures NamesSize(reason) ==> CalculateRefundAmount(reason) == 100.0 - 10.0
    ensures reason in REGRETS ==> CalculateRefundAmount(reason) == 100.0 - 10.0 - 5.0
    ensures reason !in FAULTS && reason !in REGRETS && !NamesSize(reason) ==> CalculateRefundAmount(reason) == 100.0
  {
    hide Text.Contains;
    if reason in FAULTS || reason in REGRETS {
      NoneNamesSize(reason);
    }
  }

  /** No reason is refunded more than a fault of the merchant's. */
  lemma FaultsArePaidMost(reason: string, fault: string)
    requires fault in FAULTS
    ensures CalculateRefundAmount(reason) <= CalculateRefundAmount(fault)
  {
    hide CalculateRefundAmount, NamesSize;
    RefundAmounts(reason);
    RefundAmounts(fault);
  }

  /** The placeholder label of a shop without a carrier. */
  function PlaceholderURL(id: string): string {
    "https://labels.vela.dev/" + id + ".pdf"
  }

  function Labelled(r: Row, url: string, tracking: string): Row {
    r.(status := LabelIssued, labelURL := url, tracking := tracking)
  }

  /** The row after each write a request gets through, in order. */
  function Commits(r: Row, q: Request): seq<Row> {
    match q
    case Approve(carrier, saved, labelSaved) =>
      if Approved !in Allowed(r.status) then []
      else
        var approved := if saved then r.(status := Approved) else r;
        (if saved then [approved] else [])
        + if carrier.Issues? && r.labelURL == "" && labelSaved then [Labelled(approved, carrier.url, carrier.tracking)] else []
    case GenerateLabel(carrier, number, saved) =>
      if (r.status != Approved && r.status != Pending) || r.labelURL != "" || !saved then []
      else (
        match carrier
        case NoCarrier(id) => [Labelled(r, PlaceholderURL(id), number)]
        case CarrierFails => []
        case Issues(url, tracking) => [Labelled(r, url, tracking)])
    case MarkReceived(saved) =>
      if Received in Allowed(r.status) && saved then [r.(status := Received)] else []
    case Refund(amount, full, reason, saved) =>
      if (r.status != Inspecting && r.status != Received) || !saved then []
      else [r.(status := Refunded, refund := if full || amount <= 0.0 then CalculateRefundAmount(reason) else amount)]
    case UpdateStatus(to, text, saved) =>
      if to !in Allowed(r.status) || !saved then []
      else [r.(status := to, note := if text != "" then r.note + "; " + text else r.note)]
    case UpdateNote(text, saved) =>
      if saved then [r.(note := text)] else []
  }

  function Last(r: Row, more: seq<Row>): Row {
    if more == [] then r else more[|more| - 1]
  }

  /** All committed rows of a return, from its creation on. */
  function History(requests: seq<Request>): (rows: seq<Row>)
    ensures |rows| >= 1
  {
    if requests == [] then [Created()]
    else
      var before := History(requests[..|requests| - 1]);
      before + Commits(before[|before| - 1], requests[|requests| - 1])
  }

  // ---------- the table and its closure ----------

  function Rank(s: Status): (n: nat)
    ensures n <= 6
  {
    match s
    case Pending => 0
    case Approved => 1
    case LabelIssued => 2
    case CustomerShipped => 3
    case Received => 4
    case Inspecting => 5
    case _ => 6
  }

  /** A way through the table. */
  predicate Path(p: seq<Status>) {
    |p| >= 2 && forall i :: 0 <= i < |p| - 1 ==> p[i + 1] in Allowed(p[i])
  }

  /** The transitive closure of the table. */
  ghost predicate Reaches(a: Status, b: Status) {
    exists p: seq<Status> :: Path(p) && p[0] == a && p[|p| - 1] == b
  }

  lemma {:induction false} PathClimbs(p: seq<Status>)
    requires Path(p)
    ensures Rank(p[0]) < Rank(p[|p| - 1])
    decreases |p|
  {
    assert p[1] in Allowed(p[0]) && Rank(p[0]) < Rank(p[1]);
    if |p| > 2 {
      assert Path(p[1..]) by {
        forall i | 0 <= i < |p| - 2 ensures p[1..][i + 1] in Allowed(p[1..][i]) {
          assert p[i + 2] in Allowed(p[i + 1]);
        }
      }
      PathClimbs(p[1..]);
    }
  }

  lemma ReachesClimbs(a: Status, b: Status)
    requires Reaches(a, b)
    ensures Rank(a) < Rank(b)
  {
    var p :| Path(p) && p[0] == a && p[|p| - 1] == b;
    PathClimbs(p);
  }

  lemma OneStep(a: Status, b: Status)
    requires b in Allowed(a)
    ensures Reaches(a, b)
  {
    assert Path([a, b]);
  }

  lemma TwoSteps(a: Status, b: Status, c: Status)
    requires b in Allowed(a) && c in Allowed(b)
    ensures Reaches(a, c)
  {
    assert Path([a, b, c]);
  }

  /**
   The table: every move but a rejection goes one rank up, from each status that is not final to each status
   of the next rank; a rejection is possible before the parcel is on its way and after inspection.
   */
  lemma TableIsByRank(a: Status, b: Status)
    ensures b in Allowed(a) <==>
              if b == Rejected then a == Pending || a == Approved || a == LabelIssued || a == Inspecting
              else !b.Unknown? && !Final(a) && !a.Unknown? && Rank(b) == Rank(a) + 1
  {
  }

  // ---------- what one write may change ----------

  /** A label means the return is past approval; money was paid back only if it is refunded. */
  predicate Sound(r: Row) {
    && (r.labelURL != "" || r.tracking != "" ==> r.status != Pending && r.status != Approved)
    && (r.refund != 0.0 ==> r.status == Refunded && r.refund > 0.0)
  }

  predicate LabelWritten(a: Row, b: Row) {
    a.labelURL != b.labelURL || a.tracking != b.tracking
  }

  ghost predicate GoodWrite(a: Row, b: Row) {
    && (a.status != b.status ==> Reaches(a.status, b.status))
    && (LabelWritten(a, b) ==> (a.status == Pending || a.status == Approved) && b.status == LabelIssued)
    && (a.refund != b.refund ==> (a.status == Received || a.status == Inspecting) && b.status == Refunded && b.refund > 0.0)
    && Sound(b)
  }

  lemma WriteIsGood(r: Row, q: Request, i: nat)
    requires Sound(r) && i < |Commits(r, q)|
    ensures GoodWrite(if i == 0 then r else Commits(r, q)[i - 1], Commits(r, q)[i])
  {
    hide Reaches, PlaceholderURL, CalculateRefundAmount;
    match q
    case Approve(_, _, _) =>
      OneStep(Pending, Approved);
      OneStep(Approved, LabelIssued);
      TwoSteps(Pending, Approved, LabelIssued);
    case GenerateLabel(_, _, _) =>
      OneStep(Approved, LabelIssued);
      TwoSteps(Pending, Approved, LabelIssued);
    case MarkReceived(_) => OneStep(CustomerShipped, Received);
    case Refund(_, _, _, _) =>
      OneStep(Inspecting, Refunded);
      TwoSteps(Received, Inspecting, Refunded);
    case UpdateStatus(to, _, _) =>
      if to in Allowed(r.status) {
        OneStep(r.status, to);
      }
    case UpdateNote(_, _) =>
  }

  // ---------- whole lives ----------

  ghost predicate GoodHistory(rows: seq<Row>) {
    && |rows| >= 1 && rows[0] == Created() && Sound(rows[0])
    && forall i :: 0 <= i < |rows| - 1 ==> GoodWrite(rows[i], rows[i + 1])
  }

  lemma InitialHistory()
    ensures GoodHistory([Created()])
  {
  }

  lemma GoodWriteIsSound(a: Row, b: Row)
    requires GoodWrite(a, b)
    ensures Sound(b)
  {
  }

  /** Every write of every run goes along the table's closure, although two handlers never consult the table. */
  lemma {:induction false} HistoryIsGood(requests: seq<Request>)
    ensures GoodHistory(History(requests))
    decreases |requests|
  {
    hide Commits, GoodWrite;
    InitialHistory();
    if requests != [] {
      var before, q := History(requests[..|requests| - 1]), requests[|requests| - 1];
      HistoryIsGood(requests[..|requests| - 1]);
      var r := before[|before| - 1];
      assert Sound(r) by {
        if |before| > 1 {
          assert GoodWrite(before[|before| - 2], before[|before| - 2 + 1]);
          GoodWriteIsSound(before[|before| - 2], before[|before| - 1]);
        }
      }
      var rows := before + Commits(r, q);
      forall i | 0 <= i < |rows| - 1 ensures GoodWrite(rows[i], rows[i + 1]) {
        if i >= |before| - 1 {
          WriteIsGood(r, q, i + 1 - |before|);
        }
      }
    }
  }

  lemma {:induction false} RankNeverFalls(rows: seq<Row>, i: nat, j: nat)
    requires GoodHistory(rows) && i <= j < |rows|
    ensures Rank(rows[i].status) <= Rank(rows[j].status)
    ensures Rank(rows[i].status) == Rank(rows[j].status) ==> rows[i].status == rows[j].status
    decreases j - i
  {
    if i < j {
      assert GoodWrite(rows[i], rows[i + 1]);
      if rows[i].status != rows[i + 1].status {
        ReachesClimbs(rows[i].status, rows[i + 1].status);
      }
      RankNeverFalls(rows, i + 1, j);
    }
  }

  predicate Final(s: Status) {
    s == Refunded || s == Exchanged || s == Rejected
  }

  /** Refunded, exchanged and rejected returns keep their status for ever. */
  lemma FinalStaysFinal(requests: seq<Request>)
    ensures forall i, j :: 0 <= i <= j < |History(requests)| && History(requests)[i].status in {Refunded, Exchanged, Rejected} ==>
              History(requests)[j].status == History(requests)[i].status
  {
    hide History, GoodHistory;
    HistoryIsGood(requests);
    var rows := History(requests);
    forall i, j | 0 <= i <= j < |rows| && rows[i].status in {Refunded, Exchanged, Rejected} ensures rows[j].status == rows[i].status {
      RankNeverFalls(rows, i, j);
    }
  }

  /** How many of the steps from one row to the next change the status. */
  function StatusChanges(rows: seq<Row>): nat {
    if |rows| < 2 then 0
    else StatusChanges(rows[..|rows| - 1]) + if rows[|rows| - 2].status != rows[|rows| - 1].status then 1 else 0
  }

  function LabelWrites(rows: seq<Row>): nat {
    if |rows| < 2 then 0
    else LabelWrites(rows[..|rows| - 1]) + if LabelWritten(rows[|rows| - 2], rows[|rows| - 1]) then 1 else 0
  }

  function RefundWrites(rows: seq<Row>): nat {
    if |rows| < 2 then 0
    else RefundWrites(rows[..|rows| - 1]) + if rows[|rows| - 2].refund != rows[|rows| - 1].refund then 1 else 0
  }

  lemma {:induction false} Bounds(rows: seq<Row>)
    requires GoodHistory(rows)
    ensures StatusChanges(rows) <= Rank(rows[|rows| - 1].status)
    ensures LabelWrites(rows) <= if Rank(rows[|rows| - 1].status) >= 2 then 1 else 0
    ensures RefundWrites(rows) <= if Rank(rows[|rows| - 1].status) >= 6 then 1 else 0
    decreases |rows|
  {
    if |rows| > 1 {
      var init := rows[..|rows| - 1];
      assert GoodHistory(init) by {
        forall i | 0 <= i < |init| - 1 ensures GoodWrite(init[i], init[i + 1]) {
          assert GoodWrite(rows[i], rows[i + 1]);
        }
      }
      Bounds(init);
      assert GoodWrite(rows[|rows| - 2], rows[|rows| - 2 + 1]);
      if rows[|rows| - 2].status != rows[|rows| - 1].status {
        ReachesClimbs(rows[|rows| - 2].status, rows[|rows| - 1].status);
      }
    }
  }

  /** However many requests arrive, a return changes status at most six times, gets one label and one refund. */
  lemma LifetimeBounds(requests: seq<Request>)
    ensures StatusChanges(History(requests)) <= 6
    ensures LabelWrites(History(requests)) <= 1
    ensures RefundWrites(History(requests)) <= 1
  {
    hide History, GoodHistory;
    HistoryIsGood(requests);
    Bounds(History(requests));
  }

  lemma LabelRaisesRank(rows: seq<Row>, i: nat)
    requires GoodHistory(rows) && 0 < i < |rows|
    ensures LabelWritten(rows[i - 1], rows[i]) ==> Rank(rows[i - 1].status) < 2 && Rank(rows[i].status) == 2
    ensures rows[i - 1].refund != rows[i].refund ==> Rank(rows[i - 1].status) < 6 && Rank(rows[i].status) == 6
  {
    assert GoodWrite(rows[i - 1], rows[i - 1 + 1]);
  }

  /** Of any two writes of one return at most one writes a label, and at most one a refund. */
  lemma OneLabelOneRefund(requests: seq<Request>, i: nat, j: nat)
    requires 0 < i < j < |History(requests)|
    ensures var rows := History(requests);
            && !(LabelWritten(rows[i - 1], rows[i]) && LabelWritten(rows[j - 1], rows[j]))
            && !(rows[i - 1].refund != rows[i].refund && rows[j - 1].refund != rows[j].refund)
  {
    hide History, GoodHistory, LabelWritten, Rank;
    var rows := History(requests);
    HistoryIsGood(requests);
    LabelRaisesRank(rows, i);
    LabelRaisesRank(rows, j);
    RankNeverFalls(rows, i, j - 1);
  }

  lemma HistoryStep(requests: seq<Request>, q: Request, rows: seq<Row>)
    requires History(requests) == rows
    ensures History(requests + [q]) == rows + Commits(rows[|rows| - 1], q)
  {
    hide Commits;
    assert (requests + [q])[..|requests|] == requests;
  }

  /** One more status change, committed by a manual update along the table. */
  lemma OneMoreChange(requests: seq<Request>, to: Status) returns (longer: seq<Request>)
    requires to in Allowed(Current(requests).status) && to != Current(requests).status
    ensures longer == requests + [UpdateStatus(to, "", true)]
    ensures Current(longer).status == to
    ensures StatusChanges(History(longer)) == StatusChanges(History(requests)) + 1
  {
    hide StatusChanges, History;
    longer := requests + [UpdateStatus(to, "", true)];
    var rows := History(requests);
    HistoryStep(requests, UpdateStatus(to, "", true), rows);
    ChangesAppend(rows, History(longer)[|rows|]);
    assert History(longer) == rows + [History(longer)[|rows|]];
  }

  lemma ChangesAppend(rows: seq<Row>, r: Row)
    requires |rows| >= 1
    ensures StatusChanges(rows + [r]) == StatusChanges(rows) + if rows[|rows| - 1].status != r.status then 1 else 0
  {
    assert (rows + [r])[..|rows|] == rows;
  }

  function Current(requests: seq<Request>): Row {
    History(requests)[|History(requests)| - 1]
  }

  /** The bound of six is met. */
  lemma SixChangesHappen() returns (requests: seq<Request>)
    ensures StatusChanges(History(requests)) == 6
  {
    hide StatusChanges, History, Current;
    requests := NoRequests();
    requests := OneMoreChange(requests, Approved);
    requests := OneMoreChange(requests, LabelIssued);
    requests := OneMoreChange(requests, CustomerShipped);
    requests := OneMoreChange(requests, Received);
    requests := OneMoreChange(requests, Inspecting);
    requests := OneMoreChange(requests, Refunded);
  }

  lemma NoRequests() returns (requests: seq<Request>)
    ensures requests == [] && StatusChanges(History(requests)) == 0 && Current(requests).status == Pending
  {
    requests := [];
  }

  /** GenerateLabel's answer with an existing label is never given: its status guard already turned such returns away. */
  lemma ExistingLabelBranchIsDead(requests: seq<Request>)
    ensures forall r :: r in History(requests) && (r.status == Approved || r.status == Pending) ==> r.labelURL == ""
  {
    hide History;
    HistoryIsGood(requests);
    var rows := History(requests);
    forall i | 0 <= i < |rows| ensures Sound(rows[i]) {
      if i > 0 {
        assert GoodWrite(rows[i - 1], rows[i - 1 + 1]);
      }
    }
  }

  // ---------- the handlers ----------

  class ReturnRecord {
    var status: Status
    var labelURL: string
    var tracking: string
    var refund: real
    var note: string
    ghost var rows: seq<Row>
    ghost var requests: seq<Request>

    function View(): Row
      reads this
    {
      Row(status, labelURL, tracking, refund, note)
    }

    ghost predicate Valid()
      reads this
    {
      rows == History(requests) && View() == rows[|rows| - 1]
    }

    /** Create: a pending return without label or refund. */
    constructor ()
      ensures Valid() && View() == Created() && requests == []
    {
      status, labelURL, tracking, refund, note := Pending, "", "", 0.0, "";
      rows, requests := [Created()], [];
    }

    /** Bookkeeping after a handler: the request and what it committed become part of the record. */
    ghost method Served(q: Request, before: Row)
      requires rows == History(requests) && before == rows[|rows| - 1]
      requires View() == Last(before, Commits(before, q))
      modifies this`rows, this`requests
      ensures Valid() && requests == old(requests) + [q]
    {
      hide History, Commits;
      HistoryStep(requests, q, rows);
      rows := rows + Commits(before, q);
      requests := requests + [q];
    }

    /** Walk the allowed targets of the current status. */
    method Transition(to: Status) returns (ok: bool)
      ensures ok <==> to in Allowed(status)
    {
      var allowed := Allowed(status);
      for i := 0 to |allowed|
        invariant to !in allowed[..i]
      {
        if allowed[i] == to {
          return true;
        }
      }
      return false;
    }

    method DoApprove(carrier: Carrier, saved: bool, labelSaved: bool) returns (code: int)
      requires Valid()
      modifies this
      ensures Valid() && requests == old(requests) + [Approve(carrier, saved, labelSaved)]
      ensures code == if old(status) == Pending then 200 else 400
      ensures code == 400 ==> View() == old(View())
      ensures code == 200 ==> refund == old(refund) && note == old(note)
      ensures code == 200 && carrier.Issues? && labelSaved ==>
                status == LabelIssued && labelURL == carrier.url && tracking == carrier.tracking
      ensures code == 200 && !(carrier.Issues? && labelSaved) ==>
                status == (if saved then Approved else Pending) && labelURL == old(labelURL) && tracking == old(tracking)
    {
      hide History;
      ghost var before := View();
      ExistingLabelBranchIsDeadHere();
      var ok := Transition(Approved);
      if !ok {
        Served(Approve(carrier, saved, labelSaved), before);
        return 400;
      }
      if saved {
        status := Approved;
      }
      if carrier.Issues? && labelURL == "" && labelSaved {
        status, labelURL, tracking := LabelIssued, carrier.url, carrier.tracking;
      }
      Served(Approve(carrier, saved, labelSaved), before);
      return 200;
    }

    method DoGenerateLabel(carrier: Carrier, number: string, saved: bool) returns (code: int, url: string)
      requires Valid()
      modifies this
      ensures Valid() && requests == old(requests) + [GenerateLabel(carrier, number, saved)]
      ensures code == 400 <==> old(status) != Approved && old(status) != Pending
      ensures code == 500 <==> (old(status) == Approved || old(status) == Pending) && carrier == CarrierFails
      ensures (code != 200 || !saved ==> View() == old(View())) && (code != 200 ==> url == "")
      ensures code == 200 && saved ==>
                status == LabelIssued && url == labelURL && refund == old(refund) && note == old(note)
                && match carrier
                   case NoCarrier(id) => labelURL == "https://labels.vela.dev/" + id + ".pdf" && tracking == number
                   case CarrierFails => false
                   case Issues(u, t) => labelURL == u && tracking == t
    {
      hide History;
      ghost var before := View();
      ExistingLabelBranchIsDeadHere();
      if status != Approved && status != Pending {
        Served(GenerateLabel(carrier, number, saved), before);
        return 400, "";
      }
      match carrier {
        case NoCarrier(id) =>
          url := PlaceholderURL(id);
          if saved {
            labelURL, tracking, status := url, number, LabelIssued;
          }
          code := 200;
        case CarrierFails =>
          url, code := "", 500;
        case Issues(u, t) =>
          url := u;
          if saved {
            labelURL, tracking, status := u, t, LabelIssued;
          }
          code := 200;
      }
      Served(GenerateLabel(carrier, number, saved), before);
    }

    lemma ExistingLabelBranchIsDeadHere()
      requires Valid()
      ensures status == Approved || status == Pending ==> labelURL == ""
    {
      ExistingLabelBranchIsDead(requests);
      assert View() in History(requests);
    }

    method DoMarkReceived(saved: bool) returns (code: int)
      requires Valid()
      modifies this
      ensures Valid() && requests == old(requests) + [MarkReceived(saved)]
      ensures code == if old(status) == CustomerShipped then 200 else 400
      ensures View() == if code == 200 && saved then old(View()).(status := Received) else old(View())
    {
      hide History;
      ghost var before := View();
      var ok := Transition(Received);
      if ok && saved {
        status := Received;
      }
      Served(MarkReceived(saved), before);
      return if ok then 200 else 400;
    }

    method DoRefund(amount: real, full: bool, reason: string, saved: bool) returns (code: int, paid: real)
      requires Valid()
      modifies this
      ensures Valid() && requests == old(requests) + [Refund(amount, full, reason, saved)]
      ensures code == if old(status) == Inspecting || old(status) == Received then 200 else 400
      ensures if code == 200 then paid > 0.0 else paid == 0.0
      ensures View() == if code == 200 && saved then old(View()).(status := Refunded, refund := paid) else old(View())
      ensures code == 200 && !full && amount > 0.0 ==> paid == amount
      ensures code == 200 && (full || amount <= 0.0) ==>
                && (reason in ["wrong_item", "defective", "quality"] ==> paid == 100.0)
                && (NamesSize(reason) ==> paid == 90.0)
                && (reason in ["changed_mind", "not_wanted"] ==> paid == 85.0)
                && (reason !in FAULTS && reason !in REGRETS && !NamesSize(reason) ==> paid == 100.0)
    {
      hide History;
      ghost var before := View();
      if status != Inspecting && status != Received {
        Served(Refund(amount, full, reason, saved), before);
        return 400, 0.0;
      }
      paid := amount;
      if full || paid <= 0.0 {
        paid := CalculateRefundAmount(reason);
        RefundAmounts(reason);
      }
      if saved {
        status, refund := Refunded, paid;
      }
      Served(Refund(amount, full, reason, saved), before);
      return 200, paid;
    }

    method DoUpdateStatus(to: Status, text: string, saved: bool) returns (code: int)
      requires Valid()
      modifies this
      ensures Valid() && requests == old(requests) + [UpdateStatus(to, text, saved)]
      ensures code == if to in Allowed(old(status)) then 200 else 400
      ensures View() == if code == 200 && saved then
                          old(View()).(status := to, note := if text == "" then old(note) else old(note) + "; " + text)
                        else old(View())
    {
      hide History;
      ghost var before := View();
      var ok := Transition(to);
      if ok && saved {
        status := to;
        if text != "" {
          note := note + "; " + text;
        }
      }
      Served(UpdateStatus(to, text, saved), before);
      return if ok then 200 else 400;
    }

    method DoUpdateNote(text: string, saved: bool)
      requires Valid()
      modifies this
      ensures Valid() && requests == old(requests) + [UpdateNote(text, saved)]
      ensures View() == if saved then old(View()).(note := text) else old(View())
    {
      hide History;
      ghost var before := View();
      if saved {
        note := text;
      }
      Served(UpdateNote(text, saved), before);
    }
  }
}
