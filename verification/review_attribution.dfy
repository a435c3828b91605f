/**
 Attributing orders to auto replies, by any number of concurrent webhook deliveries. A repurchase is
 looked up and then inserted, backed by a unique index; a reply code is looked up and then marked used,
 backed by nothing. Tables are those of one shop; every statement is one atomic step and may fail.
 */
module ReviewAttribution {

  type Id = nat

  /** A reply that was sent. */
  datatype Reply = Reply(email: string, sentAt: int, platformId: string)

  /** The unique index is on (email, order). */
  datatype Repurchase = Repurchase(email: string, order: string, amount: int, reply: Id, review: string)

  datatype Code = Code(reply: Id, isUsed: bool, total: int)

  /** A successful update that marks a code used. */
  datatype Use = Use(caller: nat, code: string, total: int)

  datatype Pc =
    | Idle
    | Matched(email: string, order: string, total: int, reply: Id)
    | Unseen(email: string, order: string, total: int, reply: Id)
    | Found(code: string, total: int)
    | Marked(code: string)

  /**
   Of the replies on record, `discountUsed` holds that one column and `sent` the rest, once they are sent.
   A code's reply is on record before the code is.
   */
  datatype State = State(
    discountUsed: map<Id, bool>, sent: map<Id, Reply>, codes: map<string, Code>, rows: seq<Repurchase>,
    pcs: map<nat, Pc>, uses: seq<Use>)

  datatype Action =
    | CreateReply(id: Id)
    | SendReply(id: Id, email: string, sentAt: int, platformId: string)
    | IssueCode(code: string, reply: Id)
    | FindReply(caller: nat, email: string, order: string, total: int, reply: Id, ok: bool)
    | FindExisting(caller: nat, ok: bool)
    | Insert(caller: nat, ok: bool)
    | FindCode(caller: nat, code: string, total: int, ok: bool)
    | MarkCode(caller: nat, ok: bool)
    | MarkReply(caller: nat, ok: bool)

  function Init(): State {
    State(map[], map[], map[], [], map[], [])
  }

  function PcOf(s: State, i: nat): Pc {
    if i in s.pcs then s.pcs[i] else Idle
  }

  function Goto(s: State, i: nat, pc: Pc): State {
    s.(pcs := s.pcs[i := pc])
  }

  /** The reply most recently sent to this address. */
  predicate Latest(sent: map<Id, Reply>, r: Id, email: string) {
    r in sent && sent[r].email == email && forall q :: q in sent && sent[q].email == email ==> sent[q].sentAt <= sent[r].sentAt
  }

  predicate Exists(rows: seq<Repurchase>, email: string, order: string) {
    exists k :: 0 <= k < |rows| && rows[k].email == email && rows[k].order == order
  }

  function DoFindReply(s: State, a: Action): State
    requires a.FindReply?
  {
    if a.ok && Latest(s.sent, a.reply, a.email) then Goto(s, a.caller, Matched(a.email, a.order, a.total, a.reply)) else s
  }

  /** Only a row that is found ends the call: a failed lookup goes on like an empty one. */
  function DoFindExisting(s: State, i: nat, ok: bool): State
    requires PcOf(s, i).Matched?
  {
    var pc := PcOf(s, i);
    Goto(s, i, if ok && Exists(s.rows, pc.email, pc.order) then Idle else Unseen(pc.email, pc.order, pc.total, pc.reply))
  }

  /** The unique index refuses a second row. */
  function DoInsert(s: State, i: nat, ok: bool): State
    requires PcOf(s, i).Unseen?
  {
    var pc := PcOf(s, i);
    var done := Goto(s, i, Idle);
    if ok && !Exists(s.rows, pc.email, pc.order) && pc.reply in s.sent then
      done.(rows := s.rows + [Repurchase(pc.email, pc.order, pc.total, pc.reply, s.sent[pc.reply].platformId)])
    else done
  }

  function DoFindCode(s: State, i: nat, code: string, total: int, ok: bool): State {
    if ok && code in s.codes && !s.codes[code].isUsed then Goto(s, i, Found(code, total)) else s
  }

  /** The update does not look at is_used again. */
  function DoMarkCode(s: State, i: nat, ok: bool): State
    requires PcOf(s, i).Found?
  {
    var pc := PcOf(s, i);
    var next := Goto(s, i, Marked(pc.code));
    if ok && pc.code in s.codes then
      next.(codes := s.codes[pc.code := Code(s.codes[pc.code].reply, true, pc.total)], uses := s.uses + [Use(i, pc.code, pc.total)])
    else next
  }

  function DoMarkReply(s: State, i: nat, ok: bool): State
    requires PcOf(s, i).Marked?
  {
    var code := PcOf(s, i).code;
    var done := Goto(s, i, Idle);
    if ok && code in s.codes && s.codes[code].reply in s.discountUsed then
      done.(discountUsed := s.discountUsed[s.codes[code].reply := true])
    else done
  }

  function Apply(s: State, a: Action): State {
    match a
    case CreateReply(id) =>
      if id in s.discountUsed then s else s.(discountUsed := s.discountUsed[id := false])
    case SendReply(id, email, sentAt, platformId) =>
      if id in s.sent || id !in s.discountUsed then s else s.(sent := s.sent[id := Reply(email, sentAt, platformId)])
    case IssueCode(code, reply) =>
      if code in s.codes || reply !in s.discountUsed then s else s.(codes := s.codes[code := Code(reply, false, 0)])
    case FindReply(i, _, _, _, _, _) => if PcOf(s, i).Idle? then DoFindReply(s, a) else s
    case FindExisting(i, ok) => if PcOf(s, i).Matched? then DoFindExisting(s, i, ok) else s
    case Insert(i, ok) => if PcOf(s, i).Unseen? then DoInsert(s, i, ok) else s
    case FindCode(i, code, total, ok) => if PcOf(s, i).Idle? then DoFindCode(s, i, code, total, ok) else s
    case MarkCode(i, ok) => if PcOf(s, i).Found? then DoMarkCode(s, i, ok) else s
    case MarkReply(i, ok) => if PcOf(s, i).Marked? then DoMarkReply(s, i, ok) else s
  }

  function After(run: seq<Action>): State {
    if run == [] then Init() else Apply(After(run[..|run| - 1]), run[|run| - 1])
  }

  lemma AfterAppend(run: seq<Action>, a: Action)
    ensures After(run + [a]) == Apply(After(run), a)
  {
    assert (run + [a])[..|run|] == run;
  }

  // ---------- repurchases ----------

  predicate OneRowEach(rows: seq<Repurchase>) {
    forall k, l :: 0 <= k < l < |rows| ==> rows[k].email != rows[l].email || rows[k].order != rows[l].order
  }

  predicate WasSentTo(sent: map<Id, Reply>, r: Id, email: string) {
    r in sent && sent[r].email == email
  }

  predicate RowOk(s: State, row: Repurchase) {
    WasSentTo(s.sent, row.reply, row.email) && row.review == s.sent[row.reply].platformId
  }

  predicate RepurchaseInv(s: State) {
    && OneRowEach(s.rows)
    && (forall k :: 0 <= k < |s.rows| ==> RowOk(s, s.rows[k]))
    && (forall i :: i in s.pcs ==>
          var pc := s.pcs[i]; pc.Matched? || pc.Unseen? ==> WasSentTo(s.sent, pc.reply, pc.email))
  }

  /** Rows are only added, replies keep whom they were sent to and codes their replies; what is used stays used. */
  predicate Grows(s: State, s': State) {
    && s.rows <= s'.rows
    && (forall r :: r in s.sent ==> r in s'.sent && s'.sent[r].email == s.sent[r].email && s'.sent[r].platformId == s.sent[r].platformId)
    && (forall c :: c in s.codes && s.codes[c].isUsed ==> c in s'.codes && s'.codes[c].isUsed)
    && (forall c :: c in s.codes ==> c in s'.codes && s'.codes[c].reply == s.codes[c].reply)
    && (forall r :: r in s.discountUsed ==> r in s'.discountUsed && (s.discountUsed[r] ==> s'.discountUsed[r]))
  }

  lemma StepGrows(s: State, a: Action)
    ensures Grows(s, Apply(s, a))
  {
    hide Exists, Latest;
  }

  /** Rows stay as they are, or the caller comes to know a reply that was sent. */
  lemma LookupsKeepRows(s: State, a: Action)
    requires RepurchaseInv(s) && !a.Insert?
    ensures RepurchaseInv(Apply(s, a))
  {
    hide Exists, OneRowEach;
    var s' := Apply(s, a);
    forall k | 0 <= k < |s'.rows| ensures RowOk(s', s'.rows[k]) {
      assert RowOk(s, s.rows[k]);
    }
  }

  lemma InsertKeepsRows(s: State, a: Action)
    requires RepurchaseInv(s) && a.Insert? && PcOf(s, a.caller).Unseen?
    ensures RepurchaseInv(DoInsert(s, a.caller, a.ok))
  {
    hide Exists, OneRowEach;
    var s' := DoInsert(s, a.caller, a.ok);
    InsertKeepsOne(s, a.caller, a.ok);
    forall k | 0 <= k < |s'.rows| ensures RowOk(s', s'.rows[k]) {
      assert k < |s.rows| ==> s'.rows[k] == s.rows[k] && RowOk(s, s.rows[k]);
    }
  }

  lemma StepRepurchaseInv(s: State, a: Action)
    requires RepurchaseInv(s)
    ensures RepurchaseInv(Apply(s, a))
  {
    hide RepurchaseInv, DoInsert;
    if !a.Insert? {
      LookupsKeepRows(s, a);
    } else if PcOf(s, a.caller).Unseen? {
      InsertKeepsRows(s, a);
    }
  }

  lemma InsertKeepsOne(s: State, i: nat, ok: bool)
    requires OneRowEach(s.rows) && PcOf(s, i).Unseen?
    ensures OneRowEach(DoInsert(s, i, ok).rows)
  {
  }

  lemma {:induction false} ReachableRepurchases(run: seq<Action>)
    ensures RepurchaseInv(After(run))
    decreases |run|
  {
    hide Apply, RepurchaseInv;
    if run == [] {
      InitIsFine();
    } else {
      ReachableRepurchases(run[..|run| - 1]);
      StepRepurchaseInv(After(run[..|run| - 1]), run[|run| - 1]);
    }
  }

  lemma InitIsFine()
    ensures RepurchaseInv(Init())
  {
  }

  /**
   However deliveries interleave, repeat and fail, a customer and order have at most one repurchase row,
   and each row names a reply that was sent to that customer, with the review it answered.
   */
  lemma OneRepurchaseEach(run: seq<Action>)
    ensures var s := After(run);
            && (forall k, l :: 0 <= k < l < |s.rows| ==> s.rows[k].email != s.rows[l].email || s.rows[k].order != s.rows[l].order)
            && forall k :: 0 <= k < |s.rows| ==>
                 var row := s.rows[k];
                 row.reply in s.sent && s.sent[row.reply].email == row.email && s.sent[row.reply].platformId == row.review
  {
    ReachableRepurchases(run);
    var s := After(run);
    hide After;
    forall k | 0 <= k < |s.rows|
      ensures var row := s.rows[k];
              row.reply in s.sent && s.sent[row.reply].email == row.email && s.sent[row.reply].platformId == row.review
    {
      assert RowOk(s, s.rows[k]);
    }
  }

  /** A delivery of this order asked for the replies to this customer, with this total. */
  ghost predicate Came(run: seq<Action>, email: string, order: string, total: int) {
    exists n :: 0 <= n < |run| && run[n].FindReply? && run[n].email == email && run[n].order == order && run[n].total == total
  }

  ghost predicate AmountsCame(run: seq<Action>, s: State) {
    && (forall k :: 0 <= k < |s.rows| ==> Came(run, s.rows[k].email, s.rows[k].order, s.rows[k].amount))
    && (forall i :: i in s.pcs && (s.pcs[i].Matched? || s.pcs[i].Unseen?) ==>
          Came(run, s.pcs[i].email, s.pcs[i].order, s.pcs[i].total))
  }

  lemma CameStays(run: seq<Action>, a: Action, s: State)
    requires AmountsCame(run, s)
    ensures AmountsCame(run + [a], s)
  {
    forall email, order, total | Came(run, email, order, total) ensures Came(run + [a], email, order, total) {
      var n :| 0 <= n < |run| && run[n].FindReply? && run[n].email == email && run[n].order == order && run[n].total == total;
      assert (run + [a])[n] == run[n];
    }
  }

  lemma StepAmounts(run: seq<Action>, s: State, a: Action)
    requires AmountsCame(run + [a], s)
    ensures AmountsCame(run + [a], Apply(s, a))
  {
    hide Exists, Latest;
    if a.FindReply? {
      assert (run + [a])[|run|] == a;
      assert Came(run + [a], a.email, a.order, a.total);
    }
    hide Came;
  }

  /** The amount of a repurchase row is the total with which a delivery of that order came. */
  lemma {:induction false} AmountsAreTotals(run: seq<Action>)
    ensures AmountsCame(run, After(run))
    decreases |run|
  {
    hide Apply, AmountsCame;
    if run == [] {
      NothingCame();
    } else {
      var before, a := run[..|run| - 1], run[|run| - 1];
      assert before + [a] == run;
      AmountsAreTotals(before);
      CameStays(before, a, After(before));
      StepAmounts(before, After(before), a);
    }
  }

  lemma NothingCame()
    ensures AmountsCame([], Init())
  {
  }

  lemma Asked() returns (run: seq<Action>)
    ensures run == [CreateReply(7), SendReply(7, "a@b", 1, "review"), FindReply(1, "a@b", "order", 30, 7, true)]
    ensures After(run) == State(map[7 := false], map[7 := Reply("a@b", 1, "review")], map[], [], map[1 := Matched("a@b", "order", 30, 7)], [])
  {
    var sent := map[7 := Reply("a@b", 1, "review")];
    run := Then([], CreateReply(7), Init());
    run := Then(run, SendReply(7, "a@b", 1, "review"), State(map[7 := false], map[], map[], [], map[], []));
    run := Then(run, FindReply(1, "a@b", "order", 30, 7, true), State(map[7 := false], sent, map[], [], map[], []));
  }

  /** An order of a customer who was sent a reply becomes a repurchase with the order's total. */
  lemma RepurchaseHappens() returns (run: seq<Action>)
    ensures After(run).rows == [Repurchase("a@b", "order", 30, 7, "review")]
  {
    hide After;
    run := Asked();
    var sent := map[7 := Reply("a@b", 1, "review")];
    run := Then(run, FindExisting(1, true), After(run));
    run := Then(run, Insert(1, true), State(map[7 := false], sent, map[], [], map[1 := Unseen("a@b", "order", 30, 7)], []));
  }

  // ---------- replies whose discount was used ----------

  /** Not a failed update of a code or a reply. */
  predicate UpdateSucceeds(a: Action) {
    a.MarkCode? || a.MarkReply? ==> a.ok
  }

  predicate HasUsedCode(codes: map<string, Code>, r: Id) {
    exists c :: c in codes && codes[c].isUsed && codes[c].reply == r
  }

  predicate HalfDone(s: State, code: string) {
    exists i :: i in s.pcs && s.pcs[i] == Marked(code)
  }

  predicate CodesHaveReplies(s: State) {
    forall c :: c in s.codes ==> s.codes[c].reply in s.discountUsed
  }

  predicate RepliesOk(s: State) {
    && CodesHaveReplies(s)
    && (forall c :: c in s.codes && s.codes[c].isUsed ==> s.discountUsed[s.codes[c].reply] || HalfDone(s, c))
    && (forall i :: i in s.pcs && s.pcs[i].Found? ==> s.pcs[i].code in s.codes)
    && (forall i :: i in s.pcs && s.pcs[i].Marked? ==> s.pcs[i].code in s.codes && s.codes[s.pcs[i].code].isUsed)
    && (forall r :: r in s.discountUsed && s.discountUsed[r] ==> HasUsedCode(s.codes, r))
  }

  lemma {:induction false} EveryCodeHasItsReply(run: seq<Action>)
    ensures CodesHaveReplies(After(run))
    decreases |run|
  {
    hide Apply;
    if run != [] {
      EveryCodeHasItsReply(run[..|run| - 1]);
      StepCodesHaveReplies(After(run[..|run| - 1]), run[|run| - 1]);
    }
  }

  lemma StepCodesHaveReplies(s: State, a: Action)
    requires CodesHaveReplies(s)
    ensures CodesHaveReplies(Apply(s, a))
  {
    hide Exists, Latest;
  }

  lemma UsedCodeStays(s: State, a: Action)
    ensures forall r :: HasUsedCode(s.codes, r) ==> HasUsedCode(Apply(s, a).codes, r)
  {
    StepGrows(s, a);
    hide Apply;
    forall r | HasUsedCode(s.codes, r) ensures HasUsedCode(Apply(s, a).codes, r) {
      var c :| c in s.codes && s.codes[c].isUsed && s.codes[c].reply == r;
      assert c in Apply(s, a).codes;
    }
  }

  /** Marking a code leaves its caller between the two updates. */
  lemma MarkCodeReplies(s: State, i: nat)
    requires RepliesOk(s) && PcOf(s, i).Found?
    ensures RepliesOk(DoMarkCode(s, i, true))
  {
    var s', code := DoMarkCode(s, i, true), PcOf(s, i).code;
    assert Apply(s, MarkCode(i, true)) == s';
    UsedCodeStays(s, MarkCode(i, true));
    hide HasUsedCode;
    assert s'.pcs[i] == Marked(code);
    forall c | c in s'.codes && s'.codes[c].isUsed ensures s'.discountUsed[s'.codes[c].reply] || HalfDone(s', c) {
      if c != code && HalfDone(s, c) {
        var j :| j in s.pcs && s.pcs[j] == Marked(c);
        assert s'.pcs[j] == Marked(c);
      }
    }
  }

  lemma MarkReplyReplies(s: State, i: nat)
    requires RepliesOk(s) && PcOf(s, i).Marked?
    ensures RepliesOk(DoMarkReply(s, i, true))
  {
    var s', code := DoMarkReply(s, i, true), PcOf(s, i).code;
    assert HasUsedCode(s.codes, s.codes[code].reply);
    hide HasUsedCode;
    forall c | c in s'.codes && s'.codes[c].isUsed ensures s'.discountUsed[s'.codes[c].reply] || HalfDone(s', c) {
      if c != code && HalfDone(s, c) {
        var j :| j in s.pcs && s.pcs[j] == Marked(c);
        assert s'.pcs[j] == Marked(c);
      }
    }
  }

  lemma OthersReplies(s: State, a: Action)
    requires RepliesOk(s) && !a.MarkCode? && !a.MarkReply?
    ensures RepliesOk(Apply(s, a))
  {
    var s' := Apply(s, a);
    UsedCodeStays(s, a);
    MarkedStays(s, a);
    hide HasUsedCode, HalfDone, Exists, Latest;
  }

  lemma MarkedStays(s: State, a: Action)
    requires !a.MarkReply?
    ensures forall c :: HalfDone(s, c) ==> HalfDone(Apply(s, a), c)
  {
    hide Exists, Latest;
    var s' := Apply(s, a);
    forall c | HalfDone(s, c) ensures HalfDone(s', c) {
      var j :| j in s.pcs && s.pcs[j] == Marked(c);
      assert j in s'.pcs && s'.pcs[j] == Marked(c);
    }
  }

  lemma StepReplies(s: State, a: Action)
    requires RepliesOk(s) && UpdateSucceeds(a)
    ensures RepliesOk(Apply(s, a))
  {
    hide RepliesOk, DoMarkCode, DoMarkReply;
    if a.MarkCode? {
      if PcOf(s, a.caller).Found? {
        MarkCodeReplies(s, a.caller);
      }
    } else if a.MarkReply? {
      if PcOf(s, a.caller).Marked? {
        MarkReplyReplies(s, a.caller);
      }
    } else {
      OthersReplies(s, a);
    }
  }

  lemma NoReplies()
    ensures RepliesOk(Init())
  {
  }

  lemma {:induction false} ReachableReplies(run: seq<Action>)
    requires forall j :: 0 <= j < |run| ==> UpdateSucceeds(run[j])
    ensures RepliesOk(After(run))
    decreases |run|
  {
    hide Apply, RepliesOk;
    if run == [] {
      NoReplies();
    } else {
      ReachableReplies(run[..|run| - 1]);
      StepReplies(After(run[..|run| - 1]), run[|run| - 1]);
    }
  }

  /**
   In a run whose updates succeeded and in which nobody stands between the two updates of a redemption, the
   replies marked as having their discount used are exactly those with a used code.
   */
  lemma MarkedRepliesAreThoseOfUsedCodes(run: seq<Action>)
    requires forall j :: 0 <= j < |run| ==> UpdateSucceeds(run[j])
    requires forall i :: i in After(run).pcs ==> !After(run).pcs[i].Marked?
    ensures var s := After(run);
            && (forall c :: c in s.codes ==> s.codes[c].reply in s.discountUsed)
            && forall r :: r in s.discountUsed ==> (s.discountUsed[r] <==> HasUsedCode(s.codes, r))
  {
    ReachableReplies(run);
    hide After;
  }

  // ---------- reply codes ----------

  /** How often a code was used. */
  function Uses(uses: seq<Use>, code: string): nat {
    if uses == [] then 0 else Uses(uses[..|uses| - 1], code) + if uses[|uses| - 1].code == code then 1 else 0
  }

  lemma UsesAppend(uses: seq<Use>, u: Use, code: string)
    ensures Uses(uses + [u], code) == Uses(uses, code) + if u.code == code then 1 else 0
  {
    assert (uses + [u])[..|uses|] == uses;
  }

  predicate Holds(s: State, i: nat, code: string) {
    PcOf(s, i).Found? && PcOf(s, i).code == code
  }

  /** A lookup that takes effect: it finds the code unused. */
  predicate Effective(s: State, a: Action) {
    a.FindCode? && a.ok && PcOf(s, a.caller).Idle? && a.code in s.codes && !s.codes[a.code].isUsed
  }

  /** A delivery finds a code that another has found and not yet marked. */
  predicate Clash(s: State, a: Action) {
    Effective(s, a) && exists i :: i in s.pcs && Holds(s, i, a.code)
  }

  predicate NoClash(run: seq<Action>) {
    run == [] || (NoClash(run[..|run| - 1]) && !Clash(After(run[..|run| - 1]), run[|run| - 1]))
  }

  predicate CodeOk(s: State, code: string) {
    && (Uses(s.uses, code) > 0 ==> code in s.codes && s.codes[code].isUsed)
    && Uses(s.uses, code) <= 1
    && (forall i, j :: i in s.pcs && j in s.pcs && Holds(s, i, code) && Holds(s, j, code) ==> i == j)
    && (forall i :: i in s.pcs && Holds(s, i, code) ==> code in s.codes && !s.codes[code].isUsed)
  }

  /** A statement that marks no code: who holds it stays, or the caller comes to hold it alone. */
  lemma OthersCodeOk(s: State, a: Action, code: string)
    requires CodeOk(s, code) && !Clash(s, a) && !a.MarkCode?
    ensures CodeOk(Apply(s, a), code)
  {
    hide Uses, Exists, Latest;
  }

  lemma StepCodeOk(s: State, a: Action, code: string)
    requires CodeOk(s, code) && !Clash(s, a)
    ensures CodeOk(Apply(s, a), code)
  {
    hide CodeOk, Clash, DoMarkCode;
    if !a.MarkCode? {
      OthersCodeOk(s, a, code);
    } else if PcOf(s, a.caller).Found? {
      MarkCodeOk(s, a.caller, a.ok, code);
    }
  }

  lemma MarkCodeOk(s: State, i: nat, ok: bool, code: string)
    requires CodeOk(s, code) && PcOf(s, i).Found?
    ensures CodeOk(DoMarkCode(s, i, ok), code)
  {
    hide Uses;
    var pc, s' := PcOf(s, i), DoMarkCode(s, i, ok);
    UsesAppend(s.uses, Use(i, pc.code, pc.total), code);
    assert i in s.pcs;
    assert pc.code == code ==> Holds(s, i, code);
    assert forall j :: j in s'.pcs && Holds(s', j, code) ==> j != i && j in s.pcs && Holds(s, j, code);
  }

  lemma InitCodeOk(code: string)
    ensures CodeOk(Init(), code)
  {
  }

  lemma {:induction false} QuietRunIsOk(run: seq<Action>, code: string)
    requires NoClash(run)
    ensures CodeOk(After(run), code)
    decreases |run|
  {
    hide Apply, Clash, CodeOk;
    if run == [] {
      InitCodeOk(code);
    } else {
      QuietRunIsOk(run[..|run| - 1], code);
      StepCodeOk(After(run[..|run| - 1]), run[|run| - 1], code);
    }
  }

  /** The total stored with a code is that of its last use, if it was used. */
  predicate TotalOfLastUse(s: State, code: string) {
    && (Uses(s.uses, code) > 0 <==> code in s.codes && s.codes[code].isUsed)
    && (Uses(s.uses, code) > 0 ==> s.codes[code].total == LastTotal(s.uses, code))
  }

  function LastTotal(uses: seq<Use>, code: string): int {
    if uses == [] then 0 else if uses[|uses| - 1].code == code then uses[|uses| - 1].total else LastTotal(uses[..|uses| - 1], code)
  }

  lemma LastTotalAppend(uses: seq<Use>, u: Use, code: string)
    ensures LastTotal(uses + [u], code) == if u.code == code then u.total else LastTotal(uses, code)
  {
    assert (uses + [u])[..|uses|] == uses;
  }

  lemma MarkKeepsTotal(s: State, i: nat, ok: bool, code: string)
    requires TotalOfLastUse(s, code) && PcOf(s, i).Found?
    ensures TotalOfLastUse(DoMarkCode(s, i, ok), code)
  {
    hide Uses, LastTotal;
    var u := Use(i, PcOf(s, i).code, PcOf(s, i).total);
    UsesAppend(s.uses, u, code);
    LastTotalAppend(s.uses, u, code);
  }

  lemma OthersKeepTotal(s: State, a: Action, code: string)
    requires TotalOfLastUse(s, code) && !a.MarkCode?
    ensures TotalOfLastUse(Apply(s, a), code)
  {
    hide Uses, LastTotal, Exists, Latest;
  }

  lemma NoUses(code: string)
    ensures TotalOfLastUse(Init(), code)
  {
  }

  /** A code is used exactly if some use of it is on record, and holds the total of the last one. */
  lemma {:induction false} TotalsAreOfLastUses(run: seq<Action>, code: string)
    ensures TotalOfLastUse(After(run), code)
    decreases |run|
  {
    hide TotalOfLastUse, DoMarkCode;
    if run == [] {
      NoUses(code);
    } else {
      var before, a := After(run[..|run| - 1]), run[|run| - 1];
      TotalsAreOfLastUses(run[..|run| - 1], code);
      if !a.MarkCode? {
        OthersKeepTotal(before, a, code);
      } else if PcOf(before, a.caller).Found? {
        MarkKeepsTotal(before, a.caller, a.ok, code);
      }
    }
  }

  // ---------- what a clash leads to ----------

  function Holders(s: State, code: string): set<nat> {
    set i | i in s.pcs && Holds(s, i, code)
  }

  /** How often the code was used or is about to be. */
  function Weight(s: State, code: string): nat {
    Uses(s.uses, code) + |Holders(s, code)|
  }

  /** Not a failed mark. */
  predicate MarkSucceeds(a: Action) {
    a.MarkCode? ==> a.ok
  }

  /** What is held is on record. */
  predicate HeldExist(s: State) {
    forall i :: i in s.pcs && s.pcs[i].Found? ==> s.pcs[i].code in s.codes
  }

  lemma StepHeldExist(s: State, a: Action)
    requires HeldExist(s)
    ensures HeldExist(Apply(s, a))
  {
    hide Exists, Latest;
  }

  /** An effective lookup adds its caller to the holders. */
  lemma LookupWeighs(s: State, a: Action)
    requires Effective(s, a)
    ensures Weight(Apply(s, a), a.code) == Weight(s, a.code) + 1
  {
    hide Uses;
    var s' := Apply(s, a);
    assert a.caller !in Holders(s, a.code);
    assert Holders(s', a.code) == Holders(s, a.code) + {a.caller};
  }

  /** A successful mark turns a holder into a use; marks of other codes and failures change nothing. */
  lemma MarkKeepsWeight(s: State, i: nat, code: string)
    requires HeldExist(s) && PcOf(s, i).Found?
    ensures Weight(DoMarkCode(s, i, true), code) == Weight(s, code)
  {
    hide Uses;
    var pc, s' := PcOf(s, i), DoMarkCode(s, i, true);
    UsesAppend(s.uses, Use(i, pc.code, pc.total), code);
    if pc.code == code {
      assert i in Holders(s, code);
      assert Holders(s', code) == Holders(s, code) - {i};
    } else {
      assert Holders(s', code) == Holders(s, code);
    }
  }

  /** Statements other than lookups and marks touch neither uses nor holders. */
  lemma OthersKeepWeight(s: State, a: Action, code: string)
    requires !a.MarkCode? && !(Effective(s, a) && a.code == code)
    ensures Weight(Apply(s, a), code) == Weight(s, code)
  {
    hide Uses, Exists, Latest;
    assert Holders(Apply(s, a), code) == Holders(s, code);
  }

  lemma WeightNeverFalls(s: State, a: Action, code: string)
    requires HeldExist(s) && MarkSucceeds(a)
    ensures Weight(s, code) <= Weight(Apply(s, a), code)
  {
    hide Weight, Holds, HeldExist, DoMarkCode;
    if a.MarkCode? {
      if PcOf(s, a.caller).Found? {
        MarkKeepsWeight(s, a.caller, code);
      }
    } else if Effective(s, a) && a.code == code {
      LookupWeighs(s, a);
    } else {
      OthersKeepWeight(s, a, code);
    }
  }

  lemma {:induction false} HeldAlwaysExist(run: seq<Action>)
    ensures HeldExist(After(run))
    decreases |run|
  {
    hide Apply;
    if run != [] {
      HeldAlwaysExist(run[..|run| - 1]);
      StepHeldExist(After(run[..|run| - 1]), run[|run| - 1]);
    }
  }

  /** After a clash the code weighs two, and goes on to. */
  lemma {:induction false} ClashWeighs(run: seq<Action>) returns (code: string)
    requires !NoClash(run) && forall j :: 0 <= j < |run| ==> MarkSucceeds(run[j])
    ensures Weight(After(run), code) >= 2
    decreases |run|
  {
    var before, a := run[..|run| - 1], run[|run| - 1];
    HeldAlwaysExist(before);
    hide Weight, Apply, HeldExist, Holds, After;
    LastStep(run);
    if Clash(After(before), a) {
      code := a.code;
      HeldAlready(After(before), code);
      LookupWeighs(After(before), a);
    } else {
      code := ClashWeighs(before);
      WeightNeverFalls(After(before), a, code);
    }
  }

  lemma LastStep(run: seq<Action>)
    requires run != []
    ensures After(run) == Apply(After(run[..|run| - 1]), run[|run| - 1])
  {
  }

  lemma HeldAlready(s: State, code: string)
    requires exists i :: i in s.pcs && Holds(s, i, code)
    ensures Weight(s, code) >= 1
  {
    hide Uses, Holds;
    var i :| i in s.pcs && Holds(s, i, code);
    assert i in Holders(s, code);
  }

  lemma NobodyHolds(s: State, code: string)
    requires forall i :: i in s.pcs ==> !s.pcs[i].Found?
    ensures Weight(s, code) == Uses(s.uses, code)
  {
    hide Uses;
    assert Holders(s, code) == {};
  }

  /**
   Exactly when codes are used once: in a run that is over and whose marks succeeded, every code was used at
   most once if and only if no delivery ever found a code that another had found and not yet marked.
   */
  lemma CodesAreUsedOnce(run: seq<Action>)
    requires forall j :: 0 <= j < |run| ==> MarkSucceeds(run[j])
    requires forall i :: i in After(run).pcs ==> !After(run).pcs[i].Found?
    ensures (forall code :: Uses(After(run).uses, code) <= 1) <==> NoClash(run)
  {
    if NoClash(run) {
      forall code ensures Uses(After(run).uses, code) <= 1 {
        NoClashUsesOnce(run, code);
      }
    } else {
      var code := ClashWeighs(run);
      NobodyHolds(After(run), code);
    }
  }

  /** Without a clash no code is used twice, whatever fails and whoever is still at work. */
  lemma NoClashUsesOnce(run: seq<Action>, code: string)
    requires NoClash(run)
    ensures Uses(After(run).uses, code) <= 1
  {
    QuietRunIsOk(run, code);
  }

  lemma Then(run: seq<Action>, a: Action, s: State) returns (longer: seq<Action>)
    requires After(run) == s
    ensures longer == run + [a] && After(longer) == Apply(s, a)
  {
    AfterAppend(run, a);
    longer := run + [a];
  }

  const FIRST := Use(1, "RV-1", 10)
  const SECOND := Use(2, "RV-1", 30)

  lemma BothFind() returns (run: seq<Action>)
    ensures After(run) == State(map[7 := false], map[], map["RV-1" := Code(7, false, 0)], [],
                                map[1 := Found("RV-1", 10), 2 := Found("RV-1", 30)], [])
  {
    var codes := map["RV-1" := Code(7, false, 0)];
    run := Then([], CreateReply(7), Init());
    run := Then(run, IssueCode("RV-1", 7), State(map[7 := false], map[], map[], [], map[], []));
    run := Then(run, FindCode(1, "RV-1", 10, true), State(map[7 := false], map[], codes, [], map[], []));
    run := Then(run, FindCode(2, "RV-1", 30, true), State(map[7 := false], map[], codes, [], map[1 := Found("RV-1", 10)], []));
  }

  lemma BothMark(found: seq<Action>) returns (run: seq<Action>)
    requires After(found) == State(map[7 := false], map[], map["RV-1" := Code(7, false, 0)], [],
                                   map[1 := Found("RV-1", 10), 2 := Found("RV-1", 30)], [])
    ensures After(run).uses == [FIRST] + [SECOND] && After(run).codes == map["RV-1" := Code(7, true, 30)]
  {
    hide Uses;
    run := Then(found, MarkCode(1, true), After(found));
    var pcs := map[1 := Marked("RV-1"), 2 := Found("RV-1", 30)];
    run := Then(run, MarkCode(2, true), State(map[7 := false], map[], map["RV-1" := Code(7, true, 10)], [], pcs, [FIRST]));
  }

  lemma TwoUses()
    ensures Uses([FIRST] + [SECOND], "RV-1") == 2
  {
    assert [] + [FIRST] == [FIRST];
    UsesAppend([], FIRST, "RV-1");
    UsesAppend([FIRST], SECOND, "RV-1");
  }

  /** With overlap it is used twice: two orders redeem one code, and the second total replaces the first. */
  lemma OverlappingOrdersUseACodeTwice() returns (run: seq<Action>)
    ensures Uses(After(run).uses, "RV-1") == 2
    ensures After(run).codes == map["RV-1" := Code(7, true, 30)]
  {
    hide *;
    run := BothFind();
    run := BothMark(run);
    TwoUses();
  }
}
