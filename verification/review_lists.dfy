/**
 The issue lists that concurrent consumers leave behind. A list is read and written back in two
 statements: while no other write falls between them it shows the five most recent distinct issues of
 all merged reviews; under races it may miss issues, but stays well formed and never invents one.
 */
module ReviewLists {
  import opened Text
  import opened ReviewIssues
  import opened ReviewInsights

  /** Every merge was computed from the list as the previous merge of that row left it. */
  predicate Serial(merges: seq<Merged>) {
    merges == [] ||
    var init, last := merges[..|merges| - 1], merges[|merges| - 1];
    Serial(init) && last.version == |HistoryOf(init, last.row)|
  }

  predicate Reported(merges: seq<Merged>, f: nat, x: string) {
    exists j :: 0 <= j < |merges| && merges[j].row == f && x in Issues(merges[j].issues)
  }

  /** A proper list: at most five distinct issues, joined the usual way, each reported by a merged review. */
  predicate Shows(merges: seq<Merged>, f: nat, top: string) {
    var xs := Issues(top);
    && top == Join(xs, ", ") && |xs| <= 5 && Distinct(xs)
    && forall x :: x in xs ==> Reported(merges, f, x)
  }

  predicate RowOk(s: State, f: nat)
    requires f < |s.rows|
  {
    && Shows(s.merges, f, s.rows[f].top)
    && (Serial(s.merges) ==> s.rows[f].top == Top(HistoryOf(s.merges, f)))
  }

  predicate ReaderOk(s: State, pc: Pc) {
    pc.Writing? ==>
      && pc.row < |s.rows|
      && Shows(s.merges, pc.row, pc.seen)
      && pc.version <= |HistoryOf(s.merges, pc.row)|
      && (pc.version == |HistoryOf(s.merges, pc.row)| ==> pc.seen == s.rows[pc.row].top)
  }

  predicate ListInv(s: State) {
    && (forall j :: 0 <= j < |s.merges| ==> s.merges[j].row < |s.rows|)
    && (forall f :: 0 <= f < |s.rows| ==> RowOk(s, f))
    && (forall i :: 0 <= i < |s.calls| ==> ReaderOk(s, s.calls[i].pc))
  }

  // ---------- merging ----------

  lemma EmptyShows(merges: seq<Merged>, f: nat)
    ensures Shows(merges, f, "")
  {
    IssuesOfNothing();
  }

  /** What a merge shows can be read back from it: the new issues first, then those of the list before. */
  lemma MergeReadsBack(existing: string, newIssues: string)
    ensures var xs := Issues(Merge(existing, newIssues));
            && xs == Take(Dedup(Issues(newIssues) + Issues(existing)), LIMIT)
            && Merge(existing, newIssues) == Join(xs, ", ")
            && Distinct(xs)
            && forall x :: x in xs ==> x in Issues(newIssues) || x in Issues(existing)
  {
    var all := Issues(newIssues) + Issues(existing);
    IssuesAreEntries(newIssues);
    IssuesAreEntries(existing);
    hide Entry, Issues;
    IssuesOfShown(all);
    EmptyIsDistinct();
    ExtendDistinct([], all);
    ExtendMembers([], all);
    TakeIsPart(Dedup(all), LIMIT);
  }

  lemma TakeIsPart(xs: seq<string>, n: nat)
    ensures Take(xs, n) <= xs && forall x :: x in Take(xs, n) ==> x in xs
  {
  }

  lemma ReportedStays(merges: seq<Merged>, m: Merged, f: nat, top: string)
    requires Shows(merges, f, top)
    ensures Shows(merges + [m], f, top)
  {
    hide Issues, Distinct;
    forall x | x in Issues(top) ensures Reported(merges + [m], f, x) {
      var j :| 0 <= j < |merges| && merges[j].row == f && x in Issues(merges[j].issues);
      assert (merges + [m])[j] == merges[j];
    }
  }

  lemma MergeShows(merges: seq<Merged>, m: Merged, existing: string)
    requires Shows(merges, m.row, existing)
    ensures Shows(merges + [m], m.row, Merge(existing, m.issues))
  {
    hide Issues, Distinct, Merge;
    MergeReadsBack(existing, m.issues);
    ReportedStays(merges, m, m.row, existing);
    var top := Merge(existing, m.issues);
    forall x | x in Issues(top) ensures Reported(merges + [m], m.row, x) {
      if x in Issues(m.issues) {
        assert (merges + [m])[|merges|] == m;
      } else {
        assert x in Issues(existing);
      }
    }
  }

  // ---------- the steps ----------

  lemma HistoryAppend(merges: seq<Merged>, m: Merged, f: nat)
    ensures HistoryOf(merges + [m], f) == HistoryOf(merges, f) + if m.row == f then [m.issues] else []
    ensures Serial(merges + [m]) <==> Serial(merges) && m.version == |HistoryOf(merges, m.row)|
  {
    assert (merges + [m])[..|merges|] == merges;
  }

  lemma TopAppend(history: seq<string>, issues: string)
    ensures Top(history + [issues]) == Merge(Top(history), issues)
  {
    assert (history + [issues])[..|history|] == history;
  }

  lemma {:induction false} NoHistory(merges: seq<Merged>, f: nat)
    requires forall j :: 0 <= j < |merges| ==> merges[j].row != f
    ensures HistoryOf(merges, f) == []
    decreases |merges|
  {
    if merges != [] {
      NoHistory(merges[..|merges| - 1], f);
    }
  }

  /** A statement that writes no list keeps the lists in order; a row that is new starts empty. */
  lemma ListsStay(s: State, s': State)
    requires ListInv(s) && s'.merges == s.merges && |s.rows| <= |s'.rows|
    requires forall f :: 0 <= f < |s.rows| ==> s'.rows[f].top == s.rows[f].top
    requires forall f :: |s.rows| <= f < |s'.rows| ==> s'.rows[f].top == ""
    requires forall i :: 0 <= i < |s'.calls| && s'.calls[i].pc.Writing? ==> i < |s.calls| && s'.calls[i].pc == s.calls[i].pc
    ensures ListInv(s')
  {
    hide Shows, Serial, HistoryOf;
    forall f | 0 <= f < |s'.rows| ensures RowOk(s', f) {
      if f < |s.rows| {
        assert RowOk(s, f);
      } else {
        EmptyShows(s.merges, f);
        NoHistory(s.merges, f);
      }
    }
    forall i | 0 <= i < |s'.calls| ensures ReaderOk(s', s'.calls[i].pc) {
      if s'.calls[i].pc.Writing? {
        assert ReaderOk(s, s.calls[i].pc);
      }
    }
  }

  lemma ReadKeepsLists(s: State, i: nat, ok: bool)
    requires ListInv(s) && i < |s.calls| && s.calls[i].pc.Reading?
    ensures ListInv(DoRead(s, i, ok))
  {
    hide Shows, Serial, HistoryOf;
    var s' := DoRead(s, i, ok);
    forall f | 0 <= f < |s'.rows| ensures RowOk(s', f) {
      assert RowOk(s, f);
    }
    forall j | 0 <= j < |s'.calls| ensures ReaderOk(s', s'.calls[j].pc) {
      if j != i {
        assert ReaderOk(s, s.calls[j].pc);
      } else if s'.calls[i].pc.Writing? {
        assert RowOk(s, s'.calls[i].pc.row);
      }
    }
  }

  lemma WrittenRowOk(s: State, i: nat, f: nat)
    requires ListInv(s) && i < |s.calls| && s.calls[i].pc.Writing? && s.calls[i].pc.row < |s.rows| && f < |s.rows|
    ensures RowOk(DoWrite(s, i, true), f)
  {
    hide Shows, Serial, HistoryOf, Merge, Top;
    var c := s.calls[i];
    var m := Merged(c.pc.row, c.payload.issues, c.pc.version);
    assert RowOk(s, f) && ReaderOk(s, c.pc);
    HistoryAppend(s.merges, m, f);
    if f == c.pc.row {
      MergeShows(s.merges, m, c.pc.seen);
      TopAppend(HistoryOf(s.merges, f), m.issues);
    } else {
      ReportedStays(s.merges, m, f, s.rows[f].top);
      assert HistoryOf(s.merges, f) + [] == HistoryOf(s.merges, f);
    }
  }

  lemma WriteKeepsLists(s: State, i: nat, ok: bool)
    requires ListInv(s) && i < |s.calls| && s.calls[i].pc.Writing? && s.calls[i].pc.row < |s.rows|
    ensures ListInv(DoWrite(s, i, ok))
  {
    hide Shows, Serial, HistoryOf, Merge;
    var s', c := DoWrite(s, i, ok), s.calls[i];
    if ok {
      var m := Merged(c.pc.row, c.payload.issues, c.pc.version);
      hide RowOk;
      forall f | 0 <= f < |s'.rows| ensures RowOk(s', f) {
        WrittenRowOk(s, i, f);
      }
      forall j | 0 <= j < |s'.calls| ensures ReaderOk(s', s'.calls[j].pc) {
        var pc := s'.calls[j].pc;
        if pc.Writing? {
          assert ReaderOk(s, s.calls[j].pc);
          HistoryAppend(s.merges, m, pc.row);
          ReportedStays(s.merges, m, pc.row, pc.seen);
        }
      }
    } else {
      ListsStay(s, s');
    }
  }

  lemma StepKeepsLists(s: State, a: Action)
    requires ListInv(s)
    ensures ListInv(Apply(s, a))
  {
    hide ListInv, HistoryOf, Merge;
    var s' := Apply(s, a);
    match a
    case Start(p) => ListsStay(s, s');
    case Insert(i, ok) => ListsStay(s, s');
    case Count(i, ok) => ListsStay(s, s');
    case Read(i, ok) => if AtWork(s, i).Reading? { ReadKeepsLists(s, i, ok); }
    case Write(i, ok) => if AtWork(s, i).Writing? && AtWork(s, i).row < |s.rows| { WriteKeepsLists(s, i, ok); }
  }

  lemma {:induction false} ListsAreKept(run: seq<Action>)
    ensures ListInv(After(run))
    decreases |run|
  {
    if run != [] {
      ListsAreKept(run[..|run| - 1]);
      StepKeepsLists(After(run[..|run| - 1]), run[|run| - 1]);
    }
  }

  // ---------- the results ----------

  /**
   Whatever interleaves and fails, every stored list holds at most five distinct issues, each from a
   review merged into that row; and if no write of a row fell between another call's read and write of
   it, the list is the first five distinct issues of all merged reviews, newest first.
   */
  lemma ListsAgreeWithHistory(run: seq<Action>)
    ensures var s := After(run);
            && (forall f :: 0 <= f < |s.rows| ==> Shows(s.merges, f, s.rows[f].top))
            && (Serial(s.merges) ==>
                  forall f :: 0 <= f < |s.rows| ==> s.rows[f].top == Show(Dedup(Everything(HistoryOf(s.merges, f)))))
  {
    hide Shows, Serial, HistoryOf, Top, Show, Dedup, Everything;
    var s := After(run);
    ListsAreKept(run);
    forall f | 0 <= f < |s.rows|
      ensures Shows(s.merges, f, s.rows[f].top)
      ensures Serial(s.merges) ==> s.rows[f].top == Show(Dedup(Everything(HistoryOf(s.merges, f))))
    {
      assert RowOk(s, f);
      TopAgreesWithHistory(HistoryOf(s.merges, f));
    }
  }

  lemma MergeOfOne(x: string)
    requires Entry(x)
    ensures Merge("", x) == x
  {
    hide Issues, Entry;
    IssuesOfOne(x);
    IssuesOfNothing();
    assert [x] + [] == [x] && [] + [x] == [x];
    ExtendAppend([], [], x);
  }

  const SLOW := Payload("s", "p", "", "", "slow")
  const TORN := Payload("s", "p", "", "", "torn")

  lemma Then(run: seq<Action>, a: Action, s: State) returns (longer: seq<Action>)
    requires After(run) == s
    ensures longer == run + [a] && After(longer) == Apply(s, a)
  {
    AfterAppend(run, a);
    longer := run + [a];
  }

  lemma BothInserted() returns (run: seq<Action>)
    ensures After(run) == State([Row("s", "p", "p", 0, 0, 0, "")],
                                [Call(SLOW, Counting, true, false, false), Call(TORN, Counting, true, false, false)], [])
    ensures forall j :: 0 <= j < |run| ==> Succeeds(run[j])
  {
    var slow, torn := Call(SLOW, Inserting, false, false, false), Call(TORN, Inserting, false, false, false);
    run := Then([], Start(SLOW), State([], [], []));
    run := Then(run, Start(TORN), State([], [slow], []));
    run := Then(run, Insert(0, true), State([], [slow, torn], []));
    run := Then(run, Insert(1, true), State([Row("s", "p", "p", 0, 0, 0, "")], [Call(SLOW, Counting, true, false, false), torn], []));
  }

  lemma BothCounted(inserted: seq<Action>) returns (run: seq<Action>)
    requires After(inserted) == State([Row("s", "p", "p", 0, 0, 0, "")],
                                      [Call(SLOW, Counting, true, false, false), Call(TORN, Counting, true, false, false)], [])
    requires forall j :: 0 <= j < |inserted| ==> Succeeds(inserted[j])
    ensures After(run) == State([Row("s", "p", "p", 2, 0, 0, "")],
                                [Call(SLOW, Reading, true, true, true), Call(TORN, Reading, true, true, true)], [])
    ensures forall j :: 0 <= j < |run| ==> Succeeds(run[j])
  {
    run := Then(inserted, Count(0, true), After(inserted));
    run := Then(run, Count(1, true), State([Row("s", "p", "p", 1, 0, 0, "")],
                                           [Call(SLOW, Reading, true, true, true), Call(TORN, Counting, true, false, false)], []));
  }

  lemma BothWrite(counted: seq<Action>) returns (run: seq<Action>)
    requires forall j :: 0 <= j < |counted| ==> Succeeds(counted[j])
    requires After(counted) == State([Row("s", "p", "p", 2, 0, 0, "")],
                                     [Call(SLOW, Reading, true, true, true), Call(TORN, Reading, true, true, true)], [])
    ensures After(run).rows == [Row("s", "p", "p", 2, 0, 0, Merge("", "torn"))]
    ensures After(run).merges == [Merged(0, "slow", 0), Merged(0, "torn", 0)]
    ensures forall j :: 0 <= j < |run| ==> Succeeds(run[j])
  {
    hide Merge;
    var row := Row("s", "p", "p", 2, 0, 0, "");
    var w, d := Call(SLOW, Writing(0, "", 0), true, true, true), Call(SLOW, Done, true, true, true);
    var v := Call(TORN, Writing(0, "", 0), true, true, true);
    run := Then(counted, Read(0, true), After(counted));
    run := Then(run, Read(1, true), State([row], [w, Call(TORN, Reading, true, true, true)], []));
    run := Then(run, Write(0, true), State([row], [w, v], []));
    run := Then(run, Write(1, true), State([row.(top := Merge("", "slow"))], [d, v], [Merged(0, "slow", 0)]));
  }

  /** Two reviews that race on the list: no statement fails and both are counted, but one's issue is lost. */
  lemma RacingMergeLosesAnIssue() returns (run: seq<Action>)
    ensures forall j :: 0 <= j < |run| ==> Succeeds(run[j])
    ensures After(run).rows == [Row("s", "p", "p", 2, 0, 0, "torn")]
    ensures HistoryOf(After(run).merges, 0) == ["slow", "torn"]
    ensures "slow" in Everything(["slow", "torn"]) && "slow" !in Issues("torn")
    ensures !Serial(After(run).merges)
  {
    hide *;
    run := BothInserted();
    run := BothCounted(run);
    run := BothWrite(run);
    LostIssue();
  }

  lemma LostIssue()
    ensures var merges := [Merged(0, "slow", 0), Merged(0, "torn", 0)];
            HistoryOf(merges, 0) == ["slow", "torn"] && !Serial(merges)
    ensures "slow" in Everything(["slow", "torn"]) && "slow" !in Issues("torn")
    ensures Merge("", "torn") == "torn"
  {
    WordsAreEntries();
    hide *;
    MergeOfOne("torn");
    TwoMerges(Merged(0, "slow", 0), Merged(0, "torn", 0));
    IssuesOfOne("slow");
    IssuesOfOne("torn");
    EverythingOfTwo("slow", "torn");
    assert "slow"[0] != "torn"[0];
  }

  lemma WordsAreEntries()
    ensures Entry("slow") && Entry("torn")
  {
  }

  lemma EverythingAppend(history: seq<string>, last: string)
    ensures Everything(history + [last]) == Issues(last) + Everything(history)
  {
    hide Issues;
    assert (history + [last])[..|history|] == history;
  }

  lemma EverythingOfTwo(a: string, b: string)
    ensures forall x :: x in Everything([a, b]) <==> x in Issues(b) || x in Issues(a)
  {
    EverythingOfNone();
    hide *;
    EverythingAppend([], a);
    EverythingAppend([a], b);
    assert [] + [a] == [a] && [a] + [b] == [a, b];
  }

  lemma EverythingOfNone()
    ensures Everything([]) == []
  {
  }

  lemma NoMerges()
    ensures HistoryOf([], 0) == [] && Serial([])
  {
  }

  lemma TwoMerges(a: Merged, b: Merged)
    requires a.row == b.row == 0
    ensures HistoryOf([a, b], 0) == [a.issues, b.issues]
    ensures Serial([a, b]) <==> a.version == 0 && b.version == 1
  {
    hide *;
    NoMerges();
    HistoryAppend([], a, 0);
    assert [] + [a] == [a] && [] + [a.issues] == [a.issues];
    HistoryAppend([a], b, 0);
    assert [a] + [b] == [a, b] && [a.issues] + [b.issues] == [a.issues, b.issues];
  }
}
