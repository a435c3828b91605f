/**
 The three tables behind cart recovery (checkouts, discount codes, e-mail sends), the actors that
 change them, and one function that says what every single statement of every actor does.

 A statement is one SQL statement, or one call to the mail provider. Statements are atomic;
 everything between two statements of one actor may be filled by statements of others.
 The tables are those of one shop: every query of the four actors is restricted to its shop.
 */
module CartState {

  type Id = nat

  /** The zero UUID, and the null of a nullable reference. */
  const NIL: Id := 0

  datatype Status = Open | Abandoned | Recovered | Ordered

  datatype Checkout = Checkout(token: string, email: string, status: Status, campaign: Id, order: string)

  datatype Code = Code(campaign: Id, checkout: Id, text: string, isUsed: bool, order: string, total: int)

  datatype SendStatus = Sent | Opened | Failed

  datatype Send = Send(campaign: Id, checkout: Id, code: Id, message: string, status: SendStatus)

  /** What the executor keeps of a campaign row while it works: its id, discount and code prefix. */
  datatype Campaign = Campaign(id: Id, percent: real, prefix: string)

  /** A successful claim of a code: who made it, for which order, worth how many cents. */
  datatype Claim = Claim(actor: nat, code: Id, campaign: Id, order: string, total: int)

  /** A mail that the provider accepted: its discount, the code it carries, and the id the provider gave it. */
  datatype Mail = Mail(checkout: Id, campaign: Id, percent: real, code: Id, message: string)

  /** How far processCheckout has come with one checkout. */
  datatype Stage = Checked | Coded | Refused | Mailed | Noted

  /** Where an actor stands between two of its statements. */
  datatype Pc =
    | Idle
    | Found(code: Id, order: string, total: int)
    | Claimed(code: Id, order: string, total: int)
    | Opening(send: Id)
    | Scanning(k: Campaign, rest: seq<Id>)
    | Working(k: Campaign, rest: seq<Id>, checkout: Id, issued: Id, message: string, stage: Stage)

  /**
   The tables, the program counters, and the history that the properties speak of:
   the accepted mails, the successful claims, and which writes failed.
   */
  datatype State = State(
    checkouts: map<Id, Checkout>,
    codes: map<Id, Code>,
    sends: map<Id, Send>,
    pcs: map<nat, Pc>,
    outbox: seq<Mail>,
    ledger: seq<Claim>,
    unrecovered: set<Id>, // codes whose claim succeeded but whose checkout update failed
    unnoted: set<Id>,     // checkouts mailed without a stored "sent" row
    unmarked: set<Id>     // checkouts mailed whose "abandoned" update failed
  )

  function Init(): State {
    State(map[], map[], map[], map[], [], [], {}, {}, {})
  }

  /** One statement of one actor; `ok` says whether the database or the remote service answered. */
  datatype Action =
    // checkout webhook
    | Upsert(row: Id, token: string, email: string, create: bool)
    // order attributor
    | Lookup(actor: nat, row: Id, order: string, total: int)
    | ClaimCode(actor: nat, ok: bool)
    | Recover(actor: nat, ok: bool)
    // e-mail opened webhook
    | FindSend(actor: nat, row: Id, message: string)
    | MarkOpened(actor: nat, ok: bool)
    // scanning executor
    | Scan(actor: nat, k: Campaign, rows: seq<Id>)
    | Check(actor: nat, ok: bool)
    | Issue(actor: nat, row: Id, suffix: string, ok: bool)
    | SendMail(actor: nat, message: string, ok: bool)
    | NoteSent(actor: nat, row: Id, ok: bool)
    | NoteFailed(actor: nat, row: Id, ok: bool)
    | MarkAbandoned(actor: nat, ok: bool)
    | Leave(actor: nat)

  function PcOf(s: State, t: nat): Pc {
    if t in s.pcs then s.pcs[t] else Idle
  }

  /** An executor that may fetch the rows of its next campaign. */
  predicate Free(pc: Pc) {
    pc == Idle || (pc.Scanning? && pc.rest == [])
  }

  function Goto(s: State, t: nat, pc: Pc): State {
    s.(pcs := s.pcs[t := pc])
  }

  /** At most the program counter of `t` differs. */
  predicate MovesOnly(s: State, s': State, t: nat) {
    s'.pcs == s.pcs || s'.pcs == s.pcs[t := PcOf(s', t)]
  }

  predicate HasToken(rows: map<Id, Checkout>, token: string) {
    exists c :: c in rows && rows[c].token == token
  }

  predicate HasText(codes: map<Id, Code>, text: string) {
    exists d :: d in codes && codes[d].text == text
  }

  predicate HasSend(sends: map<Id, Send>, checkout: Id, campaign: Id) {
    exists e :: e in sends && sends[e].checkout == checkout && sends[e].campaign == campaign
  }

  predicate Distinct(rows: seq<Id>) {
    forall i, j :: 0 <= i < j < |rows| ==> rows[i] != rows[j]
  }

  /** What the executor's query may return: distinct rows, open and with an address. */
  predicate Eligible(checkouts: map<Id, Checkout>, rows: seq<Id>) {
    && Distinct(rows)
    && (forall c :: c in rows ==> c in checkouts && checkouts[c].status == Open && checkouts[c].email != "")
  }

  /** Insert a checkout, or refresh the row with the same token; `status` is set on insert only. */
  function DoUpsert(s: State, row: Id, token: string, email: string, create: bool): (s': State)
    ensures s' == s.(checkouts := s'.checkouts)
  {
    if row in s.checkouts && s.checkouts[row].token == token then
      s.(checkouts := s.checkouts[row := s.checkouts[row].(email := email)])
    else if row != NIL && row !in s.checkouts && !HasToken(s.checkouts, token) then
      s.(checkouts := s.checkouts[row := Checkout(token, email, if create then Open else Ordered, NIL, "")])
    else s
  }

  function DoLookup(s: State, t: nat, row: Id, order: string, total: int): (s': State)
    ensures s' == s.(pcs := s'.pcs)
    ensures MovesOnly(s, s', t)
  {
    if PcOf(s, t) == Idle && row in s.codes then Goto(s, t, Found(row, order, total)) else s
  }

  /** UPDATE codes SET is_used = true, ... WHERE id = ? AND is_used = false. */
  function DoClaim(s: State, t: nat, ok: bool): (s': State)
    ensures s' == s.(codes := s'.codes, ledger := s'.ledger, pcs := s'.pcs)
    ensures MovesOnly(s, s', t)
  {
    match PcOf(s, t)
    case Found(d, order, total) =>
      if ok && d in s.codes && !s.codes[d].isUsed then
        Goto(s.(codes := s.codes[d := s.codes[d].(isUsed := true, order := order, total := total)],
                ledger := s.ledger + [Claim(t, d, s.codes[d].campaign, order, total)]),
             t, Claimed(d, order, total))
      else Goto(s, t, Idle)
    case _ => s
  }

  /** UPDATE checkouts SET status = 'recovered', ... WHERE id = ?, by the order that claimed the code. */
  function DoRecover(s: State, t: nat, ok: bool): (s': State)
    ensures s' == s.(checkouts := s'.checkouts, unrecovered := s'.unrecovered, pcs := s'.pcs)
    ensures MovesOnly(s, s', t)
  {
    match PcOf(s, t)
    case Claimed(d, order, total) =>
      if d !in s.codes || s.codes[d].checkout == NIL then Goto(s, t, Idle)
      else
        var c := s.codes[d].checkout;
        if !ok then Goto(s.(unrecovered := s.unrecovered + {d}), t, Idle)
        else if c in s.checkouts then
          Goto(s.(checkouts := s.checkouts[c := s.checkouts[c].(status := Recovered, order := order)]), t, Idle)
        else Goto(s, t, Idle)
    case _ => s
  }

  /** An e-mail id is matched against the stored message ids; an event without an id is dropped before. */
  function DoFindSend(s: State, t: nat, row: Id, message: string): (s': State)
    ensures s' == s.(pcs := s'.pcs)
    ensures MovesOnly(s, s', t)
  {
    if PcOf(s, t) == Idle && row in s.sends && message != "" && s.sends[row].message == message
    then Goto(s, t, Opening(row)) else s
  }

  function DoMarkOpened(s: State, t: nat, ok: bool): (s': State)
    ensures s' == s.(sends := s'.sends, pcs := s'.pcs)
    ensures MovesOnly(s, s', t)
  {
    match PcOf(s, t)
    case Opening(e) =>
      if ok && e in s.sends then Goto(s.(sends := s.sends[e := s.sends[e].(status := Opened)]), t, Idle)
      else Goto(s, t, Idle)
    case _ => s
  }

  /** Fetch the rows for the next campaign, once the rows of the previous one are worked off. */
  function DoScan(s: State, t: nat, k: Campaign, rows: seq<Id>): (s': State)
    ensures s' == s.(pcs := s'.pcs)
    ensures MovesOnly(s, s', t)
  {
    if Free(PcOf(s, t)) && Eligible(s.checkouts, rows)
    then Goto(s, t, Scanning(k, rows)) else s
  }

  /** Skip the next row if a send of this campaign is found for it; a failed query finds none. */
  function DoCheck(s: State, t: nat, ok: bool): (s': State)
    ensures s' == s.(pcs := s'.pcs)
    ensures MovesOnly(s, s', t)
  {
    match PcOf(s, t)
    case Scanning(k, rest) =>
      if rest == [] then s
      else if ok && HasSend(s.sends, rest[0], k.id) then Goto(s, t, Scanning(k, rest[1..]))
      else Goto(s, t, Working(k, rest[1..], rest[0], NIL, "", Checked))
    case _ => s
  }

  /** Create the discount code, if the campaign has a discount; on any failure give the checkout up. */
  function DoIssue(s: State, t: nat, row: Id, suffix: string, ok: bool): (s': State)
    ensures s' == s.(codes := s'.codes, pcs := s'.pcs)
    ensures MovesOnly(s, s', t)
  {
    match PcOf(s, t)
    case Working(k, rest, c, _, m, stage) =>
      if stage != Checked then s
      else if k.percent <= 0.0 then Goto(s, t, Working(k, rest, c, NIL, m, Coded))
      else
        var text := k.prefix + "-" + suffix;
        if ok && row != NIL && row !in s.codes && !HasText(s.codes, text) then
          Goto(s.(codes := s.codes[row := Code(k.id, c, text, false, "", 0)]),
               t, Working(k, rest, c, row, m, Coded))
        else Goto(s, t, Scanning(k, rest))
    case _ => s
  }

  function DoSendMail(s: State, t: nat, message: string, ok: bool): (s': State)
    ensures s' == s.(outbox := s'.outbox, pcs := s'.pcs)
    ensures MovesOnly(s, s', t)
  {
    match PcOf(s, t)
    case Working(k, rest, c, d, _, stage) =>
      if stage != Coded then s
      else if ok then Goto(s.(outbox := s.outbox + [Mail(c, k.id, k.percent, d, message)]), t, Working(k, rest, c, d, message, Mailed))
      else Goto(s, t, Working(k, rest, c, d, "", Refused))
    case _ => s
  }

  /** Store the "sent" row; a failure is logged and the work goes on. */
  function DoNoteSent(s: State, t: nat, row: Id, ok: bool): (s': State)
    ensures s' == s.(sends := s'.sends, unnoted := s'.unnoted, pcs := s'.pcs)
    ensures MovesOnly(s, s', t)
  {
    match PcOf(s, t)
    case Working(k, rest, c, d, m, stage) =>
      if stage != Mailed then s
      else if ok && row != NIL && row !in s.sends then
        Goto(s.(sends := s.sends[row := Send(k.id, c, d, m, Sent)]), t, Working(k, rest, c, d, m, Noted))
      else Goto(s.(unnoted := s.unnoted + {c}), t, Working(k, rest, c, d, m, Noted))
    case _ => s
  }

  /** Store the "failed" row, without a message id, and give the checkout up. */
  function DoNoteFailed(s: State, t: nat, row: Id, ok: bool): (s': State)
    ensures s' == s.(sends := s'.sends, pcs := s'.pcs)
    ensures MovesOnly(s, s', t)
  {
    match PcOf(s, t)
    case Working(k, rest, c, d, m, stage) =>
      if stage != Refused then s
      else if ok && row != NIL && row !in s.sends then
        Goto(s.(sends := s.sends[row := Send(k.id, c, d, "", Failed)]), t, Scanning(k, rest))
      else Goto(s, t, Scanning(k, rest))
    case _ => s
  }

  /** UPDATE checkouts SET status = 'abandoned', ... WHERE id = ? AND status = 'open'. */
  function DoMarkAbandoned(s: State, t: nat, ok: bool): (s': State)
    ensures s' == s.(checkouts := s'.checkouts, unmarked := s'.unmarked, pcs := s'.pcs)
    ensures MovesOnly(s, s', t)
  {
    match PcOf(s, t)
    case Working(k, rest, c, _, _, stage) =>
      if stage != Noted then s
      else if !ok then Goto(s.(unmarked := s.unmarked + {c}), t, Scanning(k, rest))
      else if c in s.checkouts && s.checkouts[c].status == Open then
        Goto(s.(checkouts := s.checkouts[c := s.checkouts[c].(status := Abandoned, campaign := k.id)]),
             t, Scanning(k, rest))
      else Goto(s, t, Scanning(k, rest))
    case _ => s
  }

  function DoLeave(s: State, t: nat): (s': State)
    ensures s' == s.(pcs := s'.pcs)
    ensures MovesOnly(s, s', t)
  {
    var pc := PcOf(s, t);
    if pc.Scanning? && pc.rest == [] then Goto(s, t, Idle) else s
  }

  /** The effect of one statement. A statement that its actor is not about to execute has none. */
  function Apply(s: State, a: Action): State {
    match a
    case Upsert(row, token, email, create) => DoUpsert(s, row, token, email, create)
    case Lookup(t, row, order, total) => DoLookup(s, t, row, order, total)
    case ClaimCode(t, ok) => DoClaim(s, t, ok)
    case Recover(t, ok) => DoRecover(s, t, ok)
    case FindSend(t, row, message) => DoFindSend(s, t, row, message)
    case MarkOpened(t, ok) => DoMarkOpened(s, t, ok)
    case Scan(t, k, rows) => DoScan(s, t, k, rows)
    case Check(t, ok) => DoCheck(s, t, ok)
    case Issue(t, row, suffix, ok) => DoIssue(s, t, row, suffix, ok)
    case SendMail(t, message, ok) => DoSendMail(s, t, message, ok)
    case NoteSent(t, row, ok) => DoNoteSent(s, t, row, ok)
    case NoteFailed(t, row, ok) => DoNoteFailed(s, t, row, ok)
    case MarkAbandoned(t, ok) => DoMarkAbandoned(s, t, ok)
    case Leave(t) => DoLeave(s, t)
  }

  /** The state after a whole run, an arbitrary interleaving of statements. */
  function Exec(s: State, run: seq<Action>): State {
    if run == [] then s else Apply(Exec(s, run[..|run| - 1]), run[|run| - 1])
  }

  lemma ExecAppend(s: State, run: seq<Action>, a: Action)
    ensures Exec(s, run + [a]) == Apply(Exec(s, run), a)
  {
    assert (run + [a])[..|run|] == run;
  }

  lemma {:induction false} ExecConcat(s: State, first: seq<Action>, second: seq<Action>)
    ensures Exec(s, first + second) == Exec(Exec(s, first), second)
    decreases |second|
  {
    if second == [] {
      assert first + second == first;
    } else {
      var init, last := second[..|second| - 1], second[|second| - 1];
      assert first + second == (first + init) + [last];
      ExecAppend(s, first + init, last);
      ExecConcat(s, first, init);
    }
  }
}
