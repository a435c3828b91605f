/**
 The list of a product's most recent distinct issues, kept as a comma-joined string of at most five
 and merged with each review. Cutting it to five every time loses nothing: it always shows the first
 five of the duplicate-free list of all issues ever reported, newest first.
 */
module ReviewIssues {
  import opened Text

  const LIMIT: nat := 5

  // ---------- the specification ----------

  /** The parts that are not blank, trimmed. */
  function Clean(parts: seq<string>): seq<string> {
    if parts == [] then []
    else
      var last := Trim(parts[|parts| - 1]);
      Clean(parts[..|parts| - 1]) + if last == "" then [] else [last]
  }

  function Issues(text: string): seq<string> {
    Clean(Split(text, ','))
  }

  /** Go through `more` and append to `acc` what is not in it yet. */
  function Extend(acc: seq<string>, more: seq<string>): seq<string> {
    if more == [] then acc
    else
      var before := Extend(acc, more[..|more| - 1]);
      if more[|more| - 1] in before then before else before + [more[|more| - 1]]
  }

  /** Without duplicates, first occurrences kept. */
  function Dedup(xs: seq<string>): seq<string> {
    Extend([], xs)
  }

  function Take(xs: seq<string>, n: nat): seq<string> {
    if |xs| <= n then xs else xs[..n]
  }

  function Show(issues: seq<string>): string {
    Join(Take(issues, LIMIT), ", ")
  }

  function Merge(existing: string, newIssues: string): string {
    Show(Dedup(Issues(newIssues) + Issues(existing)))
  }

  /** The stored string after a history of reviews, oldest first. */
  function Top(history: seq<string>): string {
    if history == [] then "" else Merge(Top(history[..|history| - 1]), history[|history| - 1])
  }

  /** All issues ever reported, newest review first. */
  function Everything(history: seq<string>): seq<string> {
    if history == [] then [] else Issues(history[|history| - 1]) + Everything(history[..|history| - 1])
  }

  // ---------- the loop ----------

  lemma CleanAppend(parts: seq<string>, n: nat)
    requires n < |parts|
    ensures Clean(parts[..n + 1]) == if Trim(parts[n]) == "" then Clean(parts[..n]) else Clean(parts[..n]) + [Trim(parts[n])]
  {
    assert Clean(parts[..n]) + [] == Clean(parts[..n]);
    assert parts[..n + 1][..n] == parts[..n];
  }

  lemma ExtendAppend(acc: seq<string>, xs: seq<string>, x: string)
    ensures Extend(acc, xs + [x]) == if x in Extend(acc, xs) then Extend(acc, xs) else Extend(acc, xs) + [x]
  {
    assert (xs + [x])[..|xs|] == xs;
  }

  lemma NothingYet(parts: seq<string>, recent: seq<string>)
    ensures Dedup(Clean(parts[..0])) == [] && recent + Clean(parts[..0]) == recent
    ensures parts[..|parts|] == parts
  {
    assert parts[..0] == [];
  }

  /** One more trimmed part, in the first loop. */
  lemma StepNew(parts: seq<string>, n: nat)
    requires n < |parts|
    ensures var merged, p := Dedup(Clean(parts[..n])), Trim(parts[n]);
            Dedup(Clean(parts[..n + 1])) == if p == "" || p in merged then merged else merged + [p]
  {
    CleanAppend(parts, n);
    ExtendAppend([], Clean(parts[..n]), Trim(parts[n]));
  }

  /** One more trimmed part, in the second loop. */
  lemma StepStored(recent: seq<string>, parts: seq<string>, n: nat)
    requires n < |parts|
    ensures var merged, p := Dedup(recent + Clean(parts[..n])), Trim(parts[n]);
            Dedup(recent + Clean(parts[..n + 1])) == if p == "" || p in merged then merged else merged + [p]
  {
    CleanAppend(parts, n);
    ExtendAppend([], recent + Clean(parts[..n]), Trim(parts[n]));
    assert recent + (Clean(parts[..n]) + [Trim(parts[n])]) == (recent + Clean(parts[..n])) + [Trim(parts[n])];
  }

  /** mergeIssues: the new issues first, then the stored ones, skipping blanks and repetitions. */
  method MergeIssues(existing: string, newIssues: string) returns (r: string)
    ensures r == Merge(existing, newIssues)
  {
    hide Dedup, Clean, Split, Trim, Join;
    var merged, seen: set<string> := [], {};
    var parts := Split(newIssues, ',');
    NothingYet(parts, []);
    for i := 0 to |parts|
      invariant merged == Dedup(Clean(parts[..i]))
      invariant forall x :: x in seen <==> x in merged
    {
      var p := Trim(parts[i]);
      StepNew(parts, i);
      if p == "" || p in seen {
        continue;
      }
      seen := seen + {p};
      merged := merged + [p];
    }
    ghost var recent := Issues(newIssues);
    var stored := Split(existing, ',');
    NothingYet(stored, recent);
    for i := 0 to |stored|
      invariant merged == Dedup(recent + Clean(stored[..i]))
      invariant forall x :: x in seen <==> x in merged
    {
      var p := Trim(stored[i]);
      StepStored(recent, stored, i);
      if p == "" || p in seen {
        continue;
      }
      seen := seen + {p};
      merged := merged + [p];
    }
    if |merged| > 5 {
      merged := merged[..5];
    }
    r := Join(merged, ", ");
  }

  // ---------- splitting undoes joining ----------

  /** What an entry of the list looks like. */
  predicate Entry(x: string) {
    x != "" && Trimmed(x) && ',' !in x
  }

  lemma {:induction false} CleanEntries(parts: seq<string>)
    requires forall p :: p in parts ==> ',' !in p
    ensures forall x :: x in Clean(parts) ==> Entry(x)
    decreases |parts|
  {
    if parts != [] {
      CleanEntries(parts[..|parts| - 1]);
      assert parts[|parts| - 1] in parts;
      TrimIsTrimmed(parts[|parts| - 1]);
    }
  }

  lemma IssuesAreEntries(text: string)
    ensures forall x :: x in Issues(text) ==> Entry(x)
  {
    CleanEntries(Split(text, ','));
  }

  lemma {:induction false} CleanConcat(a: seq<string>, b: seq<string>)
    ensures Clean(a + b) == Clean(a) + Clean(b)
    decreases |b|
  {
    if b == [] {
      assert a + b == a;
    } else {
      CleanConcat(a, b[..|b| - 1]);
      assert (a + b)[..|a + b| - 1] == a + b[..|b| - 1];
    }
  }

  lemma CleanOne(p: string)
    ensures Clean([p]) == if Trim(p) == "" then [] else [Trim(p)]
  {
    assert [p][..0] == [];
  }

  /** A leading blank, as the join puts it in front of every entry but the first, is trimmed away. */
  lemma LeadingBlank(text: string)
    ensures Issues(" " + text) == Issues(text)
  {
    var parts := Split(text, ',');
    assert (" " + text)[1..] == text;
    assert Split(" " + text, ',') == [[' '] + parts[0]] + parts[1..];
    assert parts == [parts[0]] + parts[1..];
    CleanConcat([[' '] + parts[0]], parts[1..]);
    CleanConcat([parts[0]], parts[1..]);
    CleanOne([' '] + parts[0]);
    CleanOne(parts[0]);
    assert ([' '] + parts[0])[1..] == parts[0];
  }

  /** One entry in front, with the separator the join puts between. */
  lemma IssuesOfLonger(x: string, rest: string)
    requires Entry(x)
    ensures Issues(x + [','] + (" " + rest)) == [x] + Issues(rest)
  {
    hide Split, Trim, Clean;
    LeadingBlank(rest);
    SplitFirst(x, " " + rest, ',');
    CleanConcat([x], Split(" " + rest, ','));
    CleanOne(x);
    TrimOfTrimmed(x);
  }

  lemma IssuesOfOne(x: string)
    requires Entry(x)
    ensures Issues(x) == [x]
  {
    hide Split, Trim, Clean;
    SplitPlain(x, ',');
    CleanOne(x);
    TrimOfTrimmed(x);
  }

  lemma SeparatorApart(a: string, b: string)
    ensures a + ", " + b == a + [','] + (" " + b)
  {
    assert ", " == [','] + " ";
  }

  lemma {:induction false} IssuesOfJoin(xs: seq<string>)
    requires forall i :: 0 <= i < |xs| ==> Entry(xs[i])
    ensures Issues(Join(xs, ", ")) == xs
  {
    hide Issues, Entry;
    if |xs| == 0 {
      IssuesOfNothing();
    } else if |xs| == 1 {
      IssuesOfOne(xs[0]);
    } else {
      var rest := Join(xs[1..], ", ");
      IssuesOfJoin(xs[1..]);
      IssuesOfLonger(xs[0], rest);
      SeparatorApart(xs[0], rest);
    }
  }

  lemma IssuesOfNothing()
    ensures Issues("") == []
  {
    CleanOne("");
  }

  // ---------- dropping duplicates ----------

  lemma {:induction false} ExtendMembers(acc: seq<string>, more: seq<string>)
    ensures forall x :: x in Extend(acc, more) <==> x in acc || x in more
    ensures acc <= Extend(acc, more)
    decreases |more|
  {
    if more != [] {
      ExtendMembers(acc, more[..|more| - 1]);
      assert more == more[..|more| - 1] + [more[|more| - 1]];
    }
  }

  lemma {:induction false} ExtendConcat(acc: seq<string>, a: seq<string>, b: seq<string>)
    ensures Extend(acc, a + b) == Extend(Extend(acc, a), b)
    decreases |b|
  {
    if b == [] {
      assert a + b == a;
    } else {
      ExtendConcat(acc, a, b[..|b| - 1]);
      assert (a + b)[..|a + b| - 1] == a + b[..|b| - 1];
    }
  }

  predicate Distinct(xs: seq<string>) {
    forall i, j :: 0 <= i < j < |xs| ==> xs[i] != xs[j]
  }

  lemma {:induction false} ExtendDistinct(acc: seq<string>, more: seq<string>)
    requires Distinct(acc)
    ensures Distinct(Extend(acc, more))
    decreases |more|
  {
    if more != [] {
      ExtendDistinct(acc, more[..|more| - 1]);
    }
  }

  /** Extending by a list or by its duplicate-free form comes to the same. */
  lemma {:induction false} ExtendByDedup(acc: seq<string>, b: seq<string>)
    ensures Extend(acc, Dedup(b)) == Extend(acc, b)
    decreases |b|
  {
    if b != [] {
      var init, x := b[..|b| - 1], b[|b| - 1];
      ExtendByDedup(acc, init);
      ExtendMembers(acc, init);
      ExtendMembers([], init);
      if x !in Dedup(init) {
        ExtendAppend(acc, Dedup(init), x);
      }
    }
  }

  lemma {:induction false} MembersBound(xs: seq<string>)
    ensures |set x | x in xs| <= |xs|
    ensures Distinct(xs) ==> |set x | x in xs| == |xs|
    decreases |xs|
  {
    if xs != [] {
      var init, x := xs[..|xs| - 1], xs[|xs| - 1];
      MembersBound(init);
      assert (set y | y in xs) == (set y | y in init) + {x};
      assert Distinct(xs) ==> x !in (set y | y in init);
    }
  }

  /** A list that holds all elements of a duplicate-free list is at least as long. */
  lemma HoldsAtLeast(xs: seq<string>, ys: seq<string>)
    requires Distinct(xs) && forall x :: x in xs ==> x in ys
    ensures |xs| <= |ys|
  {
    MembersBound(xs);
    MembersBound(ys);
    SubsetSmaller(set x | x in xs, set y | y in ys);
  }

  lemma {:induction false} SubsetSmaller(a: set<string>, b: set<string>)
    requires a <= b
    ensures |a| <= |b|
    decreases |a|
  {
    if a != {} {
      var x :| x in a;
      SubsetSmaller(a - {x}, b - {x});
    }
  }

  lemma TakePrefix(xs: seq<string>, ys: seq<string>, n: nat)
    requires xs <= ys && |xs| >= n
    ensures Take(xs, n) == Take(ys, n)
  {
  }

  /** Extending by a long duplicate-free list: its first n elements already fill the first n places. */
  lemma CutExtension(acc: seq<string>, d: seq<string>, n: nat)
    requires Distinct(d) && |d| > n
    ensures Take(Extend(acc, d[..n]), n) == Take(Extend(acc, d), n)
  {
    var p := d[..n];
    assert d == p + d[n..];
    ExtendConcat(acc, p, d[n..]);
    ExtendMembers(acc, p);
    ExtendMembers(Extend(acc, p), d[n..]);
    HoldsAtLeast(p, Extend(acc, p));
    TakePrefix(Extend(acc, p), Extend(acc, d), n);
  }

  /** The heart of it: cutting the tail to n before merging does not show in the first n. */
  lemma CutBeforeMerge(a: seq<string>, b: seq<string>, n: nat)
    ensures Take(Dedup(a + Take(Dedup(b), n)), n) == Take(Dedup(a + b), n)
  {
    hide Extend, Distinct;
    var acc, d := Dedup(a), Dedup(b);
    ExtendConcat([], a, Take(d, n));
    ExtendConcat([], a, b);
    ExtendByDedup(acc, b);
    if |d| > n {
      EmptyIsDistinct();
      ExtendDistinct([], b);
      CutExtension(acc, d, n);
    }
  }

  lemma EmptyIsDistinct()
    ensures Distinct([])
  {
  }

  // ---------- the history ----------

  lemma {:induction false} EverythingIsEntries(history: seq<string>)
    ensures forall x :: x in Everything(history) ==> Entry(x)
    decreases |history|
  {
    if history != [] {
      EverythingIsEntries(history[..|history| - 1]);
      IssuesAreEntries(history[|history| - 1]);
    }
  }

  /** The list that was shown is read back from the string as it was. */
  lemma IssuesOfShown(xs: seq<string>)
    requires forall x :: x in xs ==> Entry(x)
    ensures Issues(Show(Dedup(xs))) == Take(Dedup(xs), LIMIT)
  {
    ExtendMembers([], xs);
    IssuesOfJoin(Take(Dedup(xs), LIMIT));
  }

  /** The stored string always shows the first five distinct issues of the whole history, newest first. */
  lemma {:induction false} TopAgreesWithHistory(history: seq<string>)
    ensures Top(history) == Show(Dedup(Everything(history))) == Join(Take(Dedup(Everything(history)), 5), ", ")
    decreases |history|
  {
    if history != [] {
      var before, last := history[..|history| - 1], history[|history| - 1];
      TopAgreesWithHistory(before);
      EverythingIsEntries(before);
      IssuesOfShown(Everything(before));
      CutBeforeMerge(Issues(last), Everything(before), LIMIT);
    }
  }

  lemma {:induction false} NothingNew(acc: seq<string>, xs: seq<string>)
    requires forall x :: x in xs ==> x in acc
    ensures Extend(acc, xs) == acc
    decreases |xs|
  {
    if xs != [] {
      NothingNew(acc, xs[..|xs| - 1]);
    }
  }

  /** Merging the same review twice changes nothing, whatever was stored before. */
  lemma MergeIsIdempotent(existing: string, newIssues: string)
    ensures Merge(Merge(existing, newIssues), newIssues) == Merge(existing, newIssues)
  {
    var recent, stored := Issues(newIssues), Issues(existing);
    IssuesAreEntries(newIssues);
    IssuesAreEntries(existing);
    IssuesOfShown(recent + stored);
    CutBeforeMerge(recent, recent + stored, LIMIT);
    ExtendConcat([], recent, recent + stored);
    ExtendConcat(Dedup(recent), recent, stored);
    ExtendMembers([], recent);
    NothingNew(Dedup(recent), recent);
    ExtendConcat([], recent, stored);
  }
}
