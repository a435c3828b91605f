/**
 Issue lists under races, exactly. A merge is computed from the list as it was `version` writes ago or just
 now; the stored list is determined by these versions and the texts merged. It shows the whole history for
 all texts if and only if every merge saw the write before it.
 */
module ReviewRaces {
  import opened Text
  import opened ReviewIssues
  import opened ReviewInsights
  import opened ReviewLists

  /** A merge can only have read what earlier merges wrote. */
  predicate ReadsPast(versions: seq<nat>) {
    forall j :: 0 <= j < |versions| ==> versions[j] <= j
  }

  /** Every merge saw the write before it. */
  predicate InOrder(versions: seq<nat>) {
    forall j :: 0 <= j < |versions| ==> versions[j] == j
  }

  /** The list after these merges, each computed from the list after `version` of them. */
  function Stored(versions: seq<nat>, texts: seq<string>): string
    requires |versions| == |texts| && ReadsPast(versions)
    decreases |versions|
  {
    if versions == [] then ""
    else
      var n := |versions| - 1;
      Merge(Stored(versions[..versions[n]], texts[..versions[n]]), texts[n])
  }

  lemma StoredAppend(versions: seq<nat>, texts: seq<string>, v: nat, text: string)
    requires |versions| == |texts| && ReadsPast(versions) && v <= |versions|
    ensures ReadsPast(versions + [v])
    ensures Stored(versions + [v], texts + [text]) == Merge(Stored(versions[..v], texts[..v]), text)
  {
    hide Merge;
    assert (versions + [v])[..v] == versions[..v] && (texts + [text])[..v] == texts[..v];
  }

  // ---------- which list a run leaves ----------

  /** The versions of the merges into row `f`, oldest first. */
  function VersionsOf(merges: seq<Merged>, f: nat): seq<nat> {
    if merges == [] then []
    else
      var last := merges[|merges| - 1];
      VersionsOf(merges[..|merges| - 1], f) + if last.row == f then [last.version] else []
  }

  lemma VersionsAppend(merges: seq<Merged>, m: Merged, f: nat)
    ensures VersionsOf(merges + [m], f) == VersionsOf(merges, f) + if m.row == f then [m.version] else []
  {
    assert (merges + [m])[..|merges|] == merges;
  }

  lemma {:induction false} OneVersionEach(merges: seq<Merged>, f: nat)
    ensures |VersionsOf(merges, f)| == |HistoryOf(merges, f)|
    decreases |merges|
  {
    if merges != [] {
      OneVersionEach(merges[..|merges| - 1], f);
    }
  }

  /** This is what `version` merges into row `f` left. */
  predicate IsStored(merges: seq<Merged>, f: nat, version: nat, top: string) {
    var vs, ts := VersionsOf(merges, f), HistoryOf(merges, f);
    && |vs| == |ts| && ReadsPast(vs) && version <= |vs|
    && top == Stored(vs[..version], ts[..version])
  }

  predicate StoredInv(s: State) {
    && (forall j :: 0 <= j < |s.merges| ==> s.merges[j].row < |s.rows|)
    && (forall f :: 0 <= f < |s.rows| ==> IsStored(s.merges, f, |HistoryOf(s.merges, f)|, s.rows[f].top))
    && (forall i :: 0 <= i < |s.calls| && s.calls[i].pc.Writing? ==>
          var pc := s.calls[i].pc; pc.row < |s.rows| && IsStored(s.merges, pc.row, pc.version, pc.seen))
  }

  lemma {:induction false} NoVersions(merges: seq<Merged>, f: nat)
    requires forall j :: 0 <= j < |merges| ==> merges[j].row != f
    ensures IsStored(merges, f, 0, "") && HistoryOf(merges, f) == []
    decreases |merges|
  {
    if merges != [] {
      NoVersions(merges[..|merges| - 1], f);
    }
    OneVersionEach(merges, f);
    NoHistory(merges, f);
  }

  /** A further merge changes nothing about what earlier ones left. */
  lemma StaysStored(merges: seq<Merged>, m: Merged, f: nat, version: nat, top: string)
    requires IsStored(merges, f, version, top) && (m.row == f ==> m.version <= |HistoryOf(merges, f)|)
    ensures IsStored(merges + [m], f, version, top)
  {
    hide Stored;
    var vs, ts := VersionsOf(merges, f), HistoryOf(merges, f);
    VersionsAppend(merges, m, f);
    HistoryAppend(merges, m, f);
    OneVersionEach(merges + [m], f);
    assert VersionsOf(merges + [m], f)[..version] == vs[..version];
    assert HistoryOf(merges + [m], f)[..version] == ts[..version];
  }

  lemma MergeIsStored(merges: seq<Merged>, m: Merged, seen: string)
    requires IsStored(merges, m.row, m.version, seen)
    ensures IsStored(merges + [m], m.row, |HistoryOf(merges + [m], m.row)|, Merge(seen, m.issues))
  {
    hide Stored, Merge;
    var vs, ts := VersionsOf(merges, m.row), HistoryOf(merges, m.row);
    VersionsAppend(merges, m, m.row);
    HistoryAppend(merges, m, m.row);
    StoredAppend(vs, ts, m.version, m.issues);
    assert (vs + [m.version])[..|vs| + 1] == vs + [m.version] && (ts + [m.issues])[..|ts| + 1] == ts + [m.issues];
  }

  lemma UnwrittenStays(s: State, s': State)
    requires StoredInv(s) && s'.merges == s.merges && |s.rows| <= |s'.rows|
    requires forall f :: 0 <= f < |s.rows| ==> s'.rows[f].top == s.rows[f].top
    requires forall f :: |s.rows| <= f < |s'.rows| ==> s'.rows[f].top == ""
    requires forall i :: 0 <= i < |s'.calls| && s'.calls[i].pc.Writing? ==> i < |s.calls| && s'.calls[i].pc == s.calls[i].pc
    ensures StoredInv(s')
  {
    hide IsStored;
    forall f | 0 <= f < |s'.rows| ensures IsStored(s'.merges, f, |HistoryOf(s'.merges, f)|, s'.rows[f].top) {
      if f >= |s.rows| {
        NoVersions(s.merges, f);
      }
    }
  }

  lemma ReadStays(s: State, i: nat, ok: bool)
    requires StoredInv(s) && i < |s.calls| && s.calls[i].pc.Reading?
    ensures StoredInv(DoRead(s, i, ok))
  {
    hide IsStored;
  }

  lemma WrittenRowStored(s: State, i: nat, f: nat)
    requires StoredInv(s) && i < |s.calls| && s.calls[i].pc.Writing? && s.calls[i].pc.row < |s.rows| && f < |s.rows|
    ensures var s' := DoWrite(s, i, true); IsStored(s'.merges, f, |HistoryOf(s'.merges, f)|, s'.rows[f].top)
  {
    var c := s.calls[i];
    var m := Merged(c.pc.row, c.payload.issues, c.pc.version);
    hide IsStored, Merge, HistoryOf;
    HistoryAppend(s.merges, m, f);
    if f == m.row {
      MergeIsStored(s.merges, m, c.pc.seen);
    } else {
      assert HistoryOf(s.merges, f) + [] == HistoryOf(s.merges, f);
      StaysStored(s.merges, m, f, |HistoryOf(s.merges, f)|, s.rows[f].top);
    }
  }

  lemma ReaderStaysStored(s: State, i: nat, j: nat)
    requires StoredInv(s) && i < |s.calls| && s.calls[i].pc.Writing? && s.calls[i].pc.row < |s.rows|
    requires j < |s.calls| && j != i && s.calls[j].pc.Writing?
    ensures var pc := s.calls[j].pc; pc.row < |s.rows| && IsStored(DoWrite(s, i, true).merges, pc.row, pc.version, pc.seen)
  {
    var c, pc := s.calls[i], s.calls[j].pc;
    VersionFits(s.merges, c.pc.row, c.pc.version, c.pc.seen);
    hide IsStored, Merge;
    StaysStored(s.merges, Merged(c.pc.row, c.payload.issues, c.pc.version), pc.row, pc.version, pc.seen);
  }

  lemma WriteStays(s: State, i: nat, ok: bool)
    requires StoredInv(s) && i < |s.calls| && s.calls[i].pc.Writing? && s.calls[i].pc.row < |s.rows|
    ensures StoredInv(DoWrite(s, i, ok))
  {
    hide IsStored, Merge, HistoryOf;
    var s' := DoWrite(s, i, ok);
    if ok {
      forall f | 0 <= f < |s'.rows| ensures IsStored(s'.merges, f, |HistoryOf(s'.merges, f)|, s'.rows[f].top) {
        WrittenRowStored(s, i, f);
      }
      forall j | 0 <= j < |s'.calls| && s'.calls[j].pc.Writing?
        ensures var pc := s'.calls[j].pc; pc.row < |s'.rows| && IsStored(s'.merges, pc.row, pc.version, pc.seen)
      {
        ReaderStaysStored(s, i, j);
      }
    } else {
      UnwrittenStays(s, s');
    }
  }

  lemma VersionFits(merges: seq<Merged>, f: nat, version: nat, top: string)
    requires IsStored(merges, f, version, top)
    ensures version <= |HistoryOf(merges, f)|
  {
  }

  lemma StepStored(s: State, a: Action)
    requires StoredInv(s)
    ensures StoredInv(Apply(s, a))
  {
    hide StoredInv, HistoryOf, Merge;
    var s' := Apply(s, a);
    match a
    case Start(p) => UnwrittenStays(s, s');
    case Insert(i, ok) => UnwrittenStays(s, s');
    case Count(i, ok) => UnwrittenStays(s, s');
    case Read(i, ok) => if AtWork(s, i).Reading? { ReadStays(s, i, ok); }
    case Write(i, ok) => if AtWork(s, i).Writing? && AtWork(s, i).row < |s.rows| { WriteStays(s, i, ok); }
  }

  lemma {:induction false} ReachableStored(run: seq<Action>)
    ensures StoredInv(After(run))
    decreases |run|
  {
    hide Apply;
    if run != [] {
      ReachableStored(run[..|run| - 1]);
      StepStored(After(run[..|run| - 1]), run[|run| - 1]);
    }
  }

  /** Whatever interleaves and fails, every stored list is the one that its merges' versions and texts determine. */
  lemma ListsAreStored(run: seq<Action>, f: nat)
    requires f < |After(run).rows|
    ensures var vs, ts := VersionsOf(After(run).merges, f), HistoryOf(After(run).merges, f);
            |vs| == |ts| && ReadsPast(vs) && After(run).rows[f].top == Stored(vs, ts)
  {
    ReachableStored(run);
    var s := After(run);
    hide After, Stored;
    var vs, ts := VersionsOf(s.merges, f), HistoryOf(s.merges, f);
    assert vs[..|vs|] == vs && ts[..|ts|] == ts;
  }

  lemma InOrderAppend(versions: seq<nat>, v: nat)
    ensures InOrder(versions + [v]) <==> InOrder(versions) && v == |versions|
  {
    var longer := versions + [v];
    assert forall j :: 0 <= j < |versions| ==> longer[j] == versions[j];
    assert longer[|versions|] == v;
  }

  ghost predicate AllInOrder(merges: seq<Merged>) {
    forall f: nat :: InOrder(VersionsOf(merges, f))
  }

  lemma OthersInOrder(merges: seq<Merged>, m: Merged)
    ensures AllInOrder(merges + [m]) <==> AllInOrder(merges) && m.version == |VersionsOf(merges, m.row)|
  {
    hide InOrder, VersionsOf;
    forall f: nat
      ensures InOrder(VersionsOf(merges + [m], f))
         <==> InOrder(VersionsOf(merges, f)) && (f == m.row ==> m.version == |VersionsOf(merges, f)|)
    {
      VersionsAppend(merges, m, f);
      InOrderAppend(VersionsOf(merges, f), m.version);
      assert VersionsOf(merges, f) + [] == VersionsOf(merges, f);
    }
    if AllInOrder(merges + [m]) {
      assert InOrder(VersionsOf(merges + [m], m.row));
      forall f: nat ensures InOrder(VersionsOf(merges, f)) {
        assert InOrder(VersionsOf(merges + [m], f));
      }
    }
    if AllInOrder(merges) && m.version == |VersionsOf(merges, m.row)| {
      forall f: nat ensures InOrder(VersionsOf(merges + [m], f)) {
        assert InOrder(VersionsOf(merges, f));
      }
    }
  }

  /** Merges are serial exactly if the versions of every row are in order. */
  lemma {:induction false} SerialIsInOrder(merges: seq<Merged>)
    ensures Serial(merges) <==> AllInOrder(merges)
    decreases |merges|
  {
    if merges == [] {
      assert forall f: nat :: VersionsOf([], f) == [];
    } else {
      hide AllInOrder, VersionsOf;
      var init, last := merges[..|merges| - 1], merges[|merges| - 1];
      assert init + [last] == merges;
      SerialIsInOrder(init);
      OneVersionEach(init, last.row);
      OthersInOrder(init, last);
    }
  }

  // ---------- when the list shows the history ----------

  lemma {:induction false} InOrderShows(versions: seq<nat>, texts: seq<string>)
    requires |versions| == |texts| && InOrder(versions)
    ensures Stored(versions, texts) == Top(texts)
    decreases |versions|
  {
    if versions != [] {
      hide Merge;
      InOrderShows(versions[..|versions| - 1], texts[..|versions| - 1]);
    }
  }

  /** A one-word issue; no two are alike. */
  function Word(n: nat): (w: string)
    ensures |w| == n + 1 && forall i :: 0 <= i <= n ==> w[i] == 'x'
  {
    if n == 0 then "x" else Word(n - 1) + "x"
  }

  function Words(n: nat): (ws: seq<string>)
    ensures |ws| == n && forall i :: 0 <= i < n ==> ws[i] == Word(i)
  {
    if n == 0 then [] else Words(n - 1) + [Word(n - 1)]
  }

  lemma WordIsEntry(n: nat)
    ensures Entry(Word(n)) && Issues(Word(n)) == [Word(n)]
  {
    IssuesOfOne(Word(n));
  }

  lemma WordsBegin(n: nat, k: nat)
    requires k <= n
    ensures Words(n)[..k] == Words(k)
  {
  }

  lemma {:induction false} EverythingIsShort(n: nat)
    ensures forall x :: x in Everything(Words(n)) ==> |x| <= n
    decreases n
  {
    hide Issues, Entry, Word, Words;
    if n > 0 {
      WordIsEntry(n - 1);
      WordsBegin(n, n - 1);
      EverythingIsShort(n - 1);
    } else {
      assert Words(0) == [];
    }
  }

  /** What the list shows after some words is no longer than they are. */
  lemma TopIsShort(n: nat)
    ensures forall x :: x in Issues(Top(Words(n))) ==> |x| <= n
  {
    var all := Everything(Words(n));
    EverythingIsEntries(Words(n));
    TopAgreesWithHistory(Words(n));
    EverythingIsShort(n);
    hide Issues, Entry, Everything, Top, Show, Words;
    IssuesOfShown(all);
    ExtendMembers([], all);
    TakeIsPart(Dedup(all), LIMIT);
  }

  /** A merge computed from an earlier list does not show the word in between. */
  lemma SkippedIsMissing(v: nat, j: nat)
    requires v < j
    ensures Word(j - 1) !in Issues(Merge(Top(Words(v)), Word(j)))
  {
    hide Issues, Merge, Top, Words, Word, Entry;
    MergeReadsBack(Top(Words(v)), Word(j));
    WordIsEntry(j);
    TopIsShort(v);
    assert forall x :: x in Issues(Merge(Top(Words(v)), Word(j))) ==> |x| <= v || |x| == j + 1;
  }

  lemma OneStays(a: string)
    ensures Extend([], [a]) == [a]
  {
    ExtendAppend([], [], a);
    assert [] + [a] == [a];
  }

  lemma TwoStay(a: string, b: string)
    requires a != b
    ensures Extend([], [a, b]) == [a, b]
  {
    hide Extend;
    OneStays(a);
    ExtendAppend([], [a], b);
    assert [a] + [b] == [a, b];
  }

  lemma FirstShows(a: string, rest: seq<string>)
    ensures var shown := Take(Dedup([a] + rest), LIMIT); shown != [] && shown[0] == a
  {
    hide Extend;
    ExtendConcat([], [a], rest);
    OneStays(a);
    ExtendMembers([a], rest);
  }

  lemma FirstTwoShow(a: string, b: string, rest: seq<string>)
    requires a != b
    ensures b in Take(Dedup([a] + ([b] + rest)), LIMIT)
  {
    hide Extend;
    var all := Dedup([a] + ([b] + rest));
    assert [a] + ([b] + rest) == [a, b] + rest;
    ExtendConcat([], [a, b], rest);
    TwoStay(a, b);
    ExtendMembers([a, b], rest);
    assert all[1] == b && Take(all, LIMIT)[1] == b;
  }

  /** A merge shows its own word first. */
  lemma NewestFirst(older: string, n: nat)
    ensures var shown := Issues(Merge(older, Word(n))); shown != [] && shown[0] == Word(n)
  {
    hide Issues, Merge, Entry, Word, Dedup, Take;
    MergeReadsBack(older, Word(n));
    WordIsEntry(n);
    FirstShows(Word(n), Issues(older));
  }

  lemma TopOfWords(n: nat)
    ensures Top(Words(n + 1)) == Merge(Top(Words(n)), Word(n))
  {
    hide Merge, Word;
    WordsBegin(n + 1, n);
  }

  /** The last two words of a history are both shown. */
  lemma LastButOneIsShown(j: nat)
    requires j >= 1
    ensures Word(j - 1) in Issues(Top(Words(j + 1)))
  {
    hide Issues, Merge, Entry, Dedup, Take, Top, Words, Word;
    var older := Issues(Top(Words(j)));
    TopOfWords(j - 1);
    TopOfWords(j);
    NewestFirst(Top(Words(j - 1)), j - 1);
    MergeReadsBack(Top(Words(j)), Word(j));
    WordIsEntry(j);
    assert older == [Word(j - 1)] + older[1..];
    assert |Word(j - 1)| != |Word(j)|;
    FirstTwoShow(Word(j), Word(j - 1), older[1..]);
  }

  /** Versions out of order have a first merge that missed the write before it. */
  lemma {:induction false} FirstMiss(versions: seq<nat>) returns (j: nat)
    requires ReadsPast(versions) && !InOrder(versions)
    ensures j < |versions| && versions[j] < j && InOrder(versions[..j])
    decreases |versions|
  {
    var init := versions[..|versions| - 1];
    if InOrder(init) {
      j := |versions| - 1;
    } else {
      j := FirstMiss(init);
      assert versions[..j] == init[..j];
    }
  }

  /** For some texts the list went wrong at some point: it missed an issue that the history shows. */
  lemma MissLosesAnIssue(versions: seq<nat>) returns (n: nat)
    requires ReadsPast(versions) && !InOrder(versions)
    ensures n <= |versions| && ReadsPast(versions[..n])
    ensures Stored(versions[..n], Words(|versions|)[..n]) != Top(Words(|versions|)[..n])
  {
    hide Merge, Top, Issues;
    var j := FirstMiss(versions);
    var v := versions[j];
    n := j + 1;
    WordsBegin(|versions|, n);
    WordsBegin(n, v);
    assert versions[..n][..v] == versions[..j][..v];
    InOrderShows(versions[..j][..v], Words(v));
    assert Stored(versions[..n], Words(n)) == Merge(Top(Words(v)), Word(j));
    SkippedIsMissing(v, j);
    LastButOneIsShown(j);
  }

  /**
   The exact condition for the list: with these versions it shows the history's first five distinct issues
   after every merge and for all texts, if and only if every merge saw the write before it.
   */
  lemma ShowsHistoryIff(versions: seq<nat>)
    requires ReadsPast(versions)
    ensures (forall texts: seq<string>, n: nat :: |texts| == |versions| && n <= |versions| ==>
               Stored(versions[..n], texts[..n]) == Top(texts[..n]))
       <==> InOrder(versions)
  {
    hide Stored, Top;
    if InOrder(versions) {
      forall texts: seq<string>, n: nat | |texts| == |versions| && n <= |versions|
        ensures Stored(versions[..n], texts[..n]) == Top(texts[..n])
      {
        InOrderShows(versions[..n], texts[..n]);
      }
    } else {
      var n := MissLosesAnIssue(versions);
    }
  }
}
