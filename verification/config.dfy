/**
 The string helpers of the configuration, written by hand in the source: splitting at a separator of
 any length, trimming blanks and tabs, finding a substring, and cutting host:port out of a Redis URL.
 */
module Config {
  import opened Text

  // ---------- splitting ----------

  /** `sub` stands at position `i` of `s`. */
  predicate Here(s: string, i: nat, sub: string) {
    i + |sub| <= |s| && forall j :: 0 <= j < |sub| ==> s[i + j] == sub[j]
  }

  predicate StartsWith(s: string, prefix: string) {
    |s| >= |prefix| && s[..|prefix|] == prefix
  }

  lemma PrefixIsHere(s: string, i: nat, sub: string)
    requires i <= |s|
    ensures StartsWith(s[i..], sub) <==> Here(s, i, sub)
  {
    if |s[i..]| >= |sub| {
      assert forall j :: 0 <= j < |sub| ==> s[i..][..|sub|][j] == s[i + j];
    }
  }

  /** hasPrefix of what remains from `i`. */
  predicate PrefixFrom(s: string, i: nat, sub: string): (b: bool)
    requires i <= |s|
    ensures b <==> Here(s, i, sub)
  {
    PrefixIsHere(s, i, sub);
    StartsWith(s[i..], sub)
  }

  /** Where `sub` first stands at `from` or later, or |s| if it does not before the end. */
  function First(s: string, sub: string, from: nat): (k: nat)
    requires from <= |s|
    ensures from <= k <= |s|
    ensures k < |s| ==> Here(s, k, sub)
    ensures forall i :: from <= i < k ==> !Here(s, i, sub)
    decreases |s| - from
  {
    if from == |s| || Here(s, from, sub) then from else First(s, sub, from + 1)
  }

  /** Cut at the first separator, go on behind it. */
  function Parts(s: string, sep: string, start: nat): (parts: seq<string>)
    requires sep != "" && start <= |s|
    ensures |parts| >= 1
    decreases |s| - start
  {
    var k := First(s, sep, start);
    if k == |s| then [s[start..]] else [s[start..k]] + Parts(s, sep, k + |sep|)
  }

  function Split(s: string, sep: string): seq<string>
    requires sep != ""
  {
    if s == "" then [] else Parts(s, sep, 0)
  }

  /** The variables of the splitting loop. */
  datatype Cursor = Cursor(parts: seq<string>, start: int, i: int)

  /** One turn of the loop. */
  function Turn(s: string, sep: string, c: Cursor): Cursor
    requires 0 <= c.start <= c.i < |s|
  {
    if Here(s, c.i, sep) then Cursor(c.parts + [s[c.start..c.i]], c.i + |sep|, c.i + |sep|)
    else c.(i := c.i + 1)
  }

  function Turns(s: string, sep: string, c: Cursor, n: nat): Cursor
    requires 0 <= c.start <= c.i
    decreases n
  {
    if n == 0 || c.i >= |s| then c else Turns(s, sep, Turn(s, sep, c), n - 1)
  }

  /** With an empty separator the loop never ends: after any number of turns it is where it began. */
  lemma {:induction false} EmptySeparatorNeverEnds(s: string, c: Cursor, n: nat)
    requires 0 <= c.start <= c.i < |s|
    ensures Turns(s, "", c, n).i == c.i && |Turns(s, "", c, n).parts| == |c.parts| + n
    decreases n
  {
    if n > 0 {
      EmptySeparatorNeverEnds(s, Turn(s, "", c), n - 1);
    }
  }

  /** With any other it ends after at most |s| turns, with all parts but the last. */
  lemma {:induction false} TurnsGiveParts(s: string, sep: string, c: Cursor, n: nat)
    requires sep != "" && 0 <= c.start <= c.i <= |s| && n >= |s| - c.i
    requires forall j :: c.start <= j < c.i ==> !Here(s, j, sep)
    ensures var end := Turns(s, sep, c, n);
            end.i == |s| && 0 <= end.start <= |s| && end.parts + [s[end.start..]] == c.parts + Parts(s, sep, c.start)
    decreases |s| - c.i
  {
    hide Here, Parts;
    if c.i == |s| {
      LastPart(s, sep, c.start);
    } else if Here(s, c.i, sep) {
      PartEndsHere(s, sep, c.start, c.i);
      TurnsGiveParts(s, sep, Turn(s, sep, c), n - 1);
      Regroup(c.parts, s[c.start..c.i], Parts(s, sep, c.i + |sep|));
    } else {
      TurnsGiveParts(s, sep, Turn(s, sep, c), n - 1);
    }
  }

  lemma FirstIs(s: string, sub: string, from: nat, k: nat)
    requires from <= k < |s| && Here(s, k, sub) && forall i :: from <= i < k ==> !Here(s, i, sub)
    ensures First(s, sub, from) == k
  {
  }

  lemma NoFirst(s: string, sub: string, from: nat)
    requires from <= |s| && forall i :: from <= i < |s| ==> !Here(s, i, sub)
    ensures First(s, sub, from) == |s|
  {
  }

  /** A separator found at `i` ends the part that began at `start`. */
  lemma PartEndsHere(s: string, sep: string, start: nat, i: nat)
    requires sep != "" && start <= i < |s| && Here(s, i, sep) && forall j :: start <= j < i ==> !Here(s, j, sep)
    ensures i + |sep| <= |s|
    ensures Parts(s, sep, start) == [s[start..i]] + Parts(s, sep, i + |sep|)
  {
    hide First;
    FirstIs(s, sep, start, i);
  }

  lemma LastPart(s: string, sep: string, start: nat)
    requires sep != "" && start <= |s| && forall j :: start <= j < |s| ==> !Here(s, j, sep)
    ensures Parts(s, sep, start) == [s[start..]]
  {
    hide First;
    NoFirst(s, sep, start);
  }

  lemma Regroup(parts: seq<string>, part: string, rest: seq<string>)
    ensures (parts + [part]) + rest == parts + ([part] + rest)
  {
  }

  /** What holds before every turn: no separator was passed over, and nothing of the text was lost. */
  predicate AtTurn(s: string, sep: string, parts: seq<string>, start: nat, i: nat)
    requires sep != ""
  {
    && start <= i <= |s| && (forall j :: start <= j < i ==> !Here(s, j, sep))
    && parts + Parts(s, sep, start) == Split(s, sep)
  }

  lemma TurnKeeps(s: string, sep: string, parts: seq<string>, start: nat, i: nat)
    requires sep != "" && AtTurn(s, sep, parts, start, i) && i < |s|
    ensures Here(s, i, sep) ==> i + |sep| <= |s| && AtTurn(s, sep, parts + [s[start..i]], i + |sep|, i + |sep|)
    ensures !Here(s, i, sep) ==> AtTurn(s, sep, parts, start, i + 1)
  {
    hide Here, Parts, Split;
    if Here(s, i, sep) {
      PartEndsHere(s, sep, start, i);
      Regroup(parts, s[start..i], Parts(s, sep, i + |sep|));
    }
  }

  lemma FirstTurn(s: string, sep: string)
    requires sep != ""
    ensures s == "" ==> Split(s, sep) == []
    ensures s != "" ==> AtTurn(s, sep, [], 0, 0)
  {
  }

  lemma LastTurn(s: string, sep: string, parts: seq<string>, start: nat)
    requires sep != "" && AtTurn(s, sep, parts, start, |s|)
    ensures parts + [s[start..]] == Split(s, sep)
  {
    LastPart(s, sep, start);
  }

  /** splitStr: nothing for the empty text, otherwise the parts between the separators. */
  method SplitStr(s: string, sep: string) returns (parts: seq<string>)
    requires sep != ""
    ensures parts == Split(s, sep)
  {
    hide *;
    parts := [];
    FirstTurn(s, sep);
    if s == "" {
      return;
    }
    var start, i := 0, 0;
    while i < |s|
      invariant 0 <= start <= i <= |s| && AtTurn(s, sep, parts, start, i)
    {
      TurnKeeps(s, sep, parts, start, i);
      if PrefixFrom(s, i, sep) {
        parts := parts + [s[start..i]];
        i := i + |sep| - 1;
        start := i + 1;
      }
      i := i + 1;
    }
    LastTurn(s, sep, parts, start);
    parts := parts + [s[start..]];
  }

  // ---------- splitting undoes joining ----------

  /** No separator begins inside `p`, not even one that reaches into `rest`. */
  predicate Uncut(p: string, rest: string, sep: string) {
    forall i :: 0 <= i < |p| ==> !Here(p + rest, i, sep)
  }

  /** What parts look like: no separator begins inside any of them. */
  predicate Separated(parts: seq<string>, sep: string) {
    && |parts| >= 1
    && (forall n :: 0 <= n < |parts| - 1 ==> Uncut(parts[n], sep, sep))
    && Uncut(parts[|parts| - 1], "", sep)
  }

  lemma SameHere(s: string, at: nat, t: string, i: nat, sub: string)
    requires at + |t| <= |s| && i + |sub| <= |t|
    requires forall j :: 0 <= j < |t| ==> t[j] == s[at + j]
    ensures Here(s, at + i, sub) <==> Here(t, i, sub)
  {
    if Here(s, at + i, sub) {
      assert forall j :: 0 <= j < |sub| ==> t[i + j] == s[at + i + j] == sub[j];
    }
    if Here(t, i, sub) {
      assert forall j :: 0 <= j < |sub| ==> s[at + i + j] == t[i + j] == sub[j];
    }
  }

  lemma SeparatorAt(s: string, k: nat, sep: string)
    requires Here(s, k, sep)
    ensures s[k..k + |sep|] == sep && s[k..] == sep + s[k + |sep|..]
  {
  }

  lemma {:induction false} JoinOfParts(s: string, sep: string, start: nat)
    requires sep != "" && start <= |s|
    ensures Join(Parts(s, sep, start), sep) == s[start..]
    decreases |s| - start
  {
    hide First, Here;
    var k := First(s, sep, start);
    if k < |s| {
      SeparatorAt(s, k, sep);
      JoinOfParts(s, sep, k + |sep|);
      assert s[start..] == s[start..k] + s[k..];
    }
  }

  lemma PartIsUncut(s: string, sep: string, start: nat, k: nat)
    requires start <= k && Here(s, k, sep) && forall i :: start <= i < k ==> !Here(s, i, sep)
    ensures Uncut(s[start..k], sep, sep)
  {
    SeparatorAt(s, k, sep);
    var t := s[start..k] + sep;
    assert t == s[start..k + |sep|];
    forall i | 0 <= i < k - start ensures !Here(t, i, sep) {
      SameHere(s, start, t, i, sep);
    }
  }

  lemma LastIsUncut(s: string, sep: string, start: nat)
    requires start <= |s| && forall i :: start <= i < |s| ==> !Here(s, i, sep)
    ensures Uncut(s[start..], "", sep)
  {
    var t := s[start..] + "";
    assert t == s[start..];
    forall i | 0 <= i < |t| ensures !Here(t, i, sep) {
      if i + |sep| <= |t| {
        SameHere(s, start, t, i, sep);
      }
    }
  }

  lemma {:induction false} PartsAreSeparated(s: string, sep: string, start: nat)
    requires sep != "" && start <= |s|
    ensures Separated(Parts(s, sep, start), sep)
    decreases |s| - start
  {
    hide First, Here, Uncut;
    var k := First(s, sep, start);
    if k < |s| {
      SeparatorAt(s, k, sep);
      PartsAreSeparated(s, sep, k + |sep|);
      PartIsUncut(s, sep, start, k);
    } else {
      LastIsUncut(s, sep, start);
    }
  }

  lemma HereBetween(before: string, sep: string, tail: string)
    ensures Here(before + sep + tail, |before|, sep)
  {
    var s := before + sep + tail;
    assert forall j :: 0 <= j < |sep| ==> s[|before| + j] == sep[j];
  }

  lemma CutHere(before: string, p: string, sep: string, tail: string)
    requires sep != "" && Uncut(p, sep, sep)
    ensures First(before + p + sep + tail, sep, |before|) == |before| + |p|
  {
    hide Here, First;
    var s, t := before + p + sep + tail, p + sep;
    assert forall j :: 0 <= j < |t| ==> t[j] == s[|before| + j];
    forall i | |before| <= i < |before| + |p| ensures !Here(s, i, sep) {
      SameHere(s, |before|, t, i - |before|, sep);
    }
    HereBetween(before + p, sep, tail);
    FirstIs(s, sep, |before|, |before| + |p|);
  }

  lemma CutNowhere(before: string, p: string, sep: string)
    requires Uncut(p, "", sep)
    ensures First(before + p, sep, |before|) == |before + p|
  {
    var s := before + p;
    assert p + "" == p;
    forall i | |before| <= i < |s| ensures !Here(s, i, sep) {
      if i + |sep| <= |s| {
        SameHere(s, |before|, p, i - |before|, sep);
      }
    }
    NoFirst(s, sep, |before|);
  }

  lemma Middle(before: string, p: string, sep: string, tail: string)
    ensures before + (p + sep + tail) == before + p + sep + tail
    ensures (before + p + sep + tail)[|before|..|before| + |p|] == p
  {
  }

  lemma TailIsSeparated(parts: seq<string>, sep: string)
    requires |parts| > 1 && Separated(parts, sep)
    ensures Uncut(parts[0], sep, sep) && Separated(parts[1..], sep)
    ensures Join(parts, sep) == parts[0] + sep + Join(parts[1..], sep) && parts == [parts[0]] + parts[1..]
  {
    hide Uncut;
  }

  lemma OneIsSeparated(parts: seq<string>, sep: string)
    requires |parts| == 1 && Separated(parts, sep)
    ensures Uncut(parts[0], "", sep) && Join(parts, sep) == parts[0]
  {
    hide Uncut;
  }

  lemma PartsByFirst(s: string, sep: string, start: nat, k: nat)
    requires sep != "" && start <= |s| && k == First(s, sep, start)
    ensures k <= |s| && (k < |s| ==> k + |sep| <= |s|)
    ensures Parts(s, sep, start) == if k == |s| then [s[start..]] else [s[start..k]] + Parts(s, sep, k + |sep|)
  {
    hide First;
  }

  lemma {:induction false} PartsOfJoin(before: string, parts: seq<string>, sep: string)
    requires sep != "" && parts != [] && Separated(parts, sep)
    ensures Parts(before + Join(parts, sep), sep, |before|) == parts
    decreases |parts|
  {
    hide *;
    var p := parts[0];
    if |parts| == 1 {
      OneIsSeparated(parts, sep);
      CutNowhere(before, p, sep);
      PartsByFirst(before + p, sep, |before|, |before + p|);
    } else {
      var tail := Join(parts[1..], sep);
      TailIsSeparated(parts, sep);
      PartsOfJoin(before + p + sep, parts[1..], sep);
      CutHere(before, p, sep, tail);
      Middle(before, p, sep, tail);
      PartsByFirst(before + p + sep + tail, sep, |before|, |before| + |p|);
    }
  }

  /** The parts, joined, give the text back: nothing is lost. */
  lemma JoinUndoesSplit(s: string, sep: string)
    requires sep != ""
    ensures Join(Split(s, sep), sep) == s
  {
    JoinOfParts(s, sep, 0);
  }

  /** A list of parts is read back from its join exactly if no separator begins inside any of them. */
  lemma SplitUndoesJoin(parts: seq<string>, sep: string)
    requires sep != ""
    ensures Split(Join(parts, sep), sep) == parts <==> parts == [] || (parts != [""] && Separated(parts, sep))
  {
    var s := Join(parts, sep);
    if s != "" {
      hide Separated;
      PartsAreSeparated(s, sep, 0);
      if parts != [] && Separated(parts, sep) {
        PartsOfJoin("", parts, sep);
        assert "" + s == s;
      }
    } else if |parts| == 1 {
      assert parts == [""];
    }
  }

  lemma HereChar(s: string, c: char)
    ensures forall i :: 0 <= i <= |s| ==> (Here(s, i, [c]) <==> i < |s| && s[i] == c)
  {
    assert [c][0] == c;
    assert forall i :: 0 <= i < |s| ==> s[i + 0] == s[i];
  }

  /** For a separator of one character that is: no part contains it. */
  lemma SeparatedByChar(parts: seq<string>, c: char)
    requires |parts| >= 1
    ensures Separated(parts, [c]) <==> forall n :: 0 <= n < |parts| ==> c !in parts[n]
  {
    hide Here;
    forall n | 0 <= n < |parts|
      ensures Uncut(parts[n], [c], [c]) <==> c !in parts[n]
      ensures Uncut(parts[n], "", [c]) <==> c !in parts[n]
    {
      UncutByChar(parts[n], [c], c);
      UncutByChar(parts[n], "", c);
    }
  }

  lemma UncutByChar(p: string, rest: string, c: char)
    ensures Uncut(p, rest, [c]) <==> c !in p
  {
    hide Here;
    HereChar(p + rest, c);
    if c in p {
      var i :| 0 <= i < |p| && p[i] == c;
      assert (p + rest)[i] == c && Here(p + rest, i, [c]);
    }
  }

  // ---------- trimming ----------

  predicate Blank(c: char) {
    c == ' ' || c == '\t'
  }

  /** Without blanks and tabs at either end; other white space stays. */
  function Strip(s: string): (r: string)
    ensures r == "" || (!Blank(r[0]) && !Blank(r[|r| - 1]))
    decreases |s|
  {
    if s == "" then s
    else if Blank(s[0]) then Strip(s[1..])
    else if Blank(s[|s| - 1]) then Strip(s[..|s| - 1])
    else s
  }

  /** trimSpace: first from the left, then from the right. */
  method TrimSpace(s: string) returns (r: string, ghost left: nat)
    ensures r == Strip(s)
    ensures left + |r| <= |s| && s[left..left + |r|] == r
    ensures forall i :: 0 <= i < |s| && !(left <= i < left + |r|) ==> s[i] == ' ' || s[i] == '\t'
    ensures r == "" || (r[0] !in " \t" && r[|r| - 1] !in " \t")
  {
    hide Strip;
    var start, end := 0, |s|;
    while start < end && (s[start] == ' ' || s[start] == '\t')
      invariant 0 <= start <= end == |s|
      invariant forall i :: 0 <= i < start ==> s[i] == ' ' || s[i] == '\t'
    {
      start := start + 1;
    }
    while end > start && (s[end - 1] == ' ' || s[end - 1] == '\t')
      invariant start <= end <= |s|
      invariant start < end ==> s[start] != ' ' && s[start] != '\t'
      invariant forall i :: end <= i < |s| ==> s[i] == ' ' || s[i] == '\t'
    {
      end := end - 1;
    }
    r, left := s[start..end], start;
    assert s == s[..start] + r + s[end..];
    StripPadded(s[..start], r, s[end..]);
  }

  predicate AllBlank(s: string) {
    forall i :: 0 <= i < |s| ==> Blank(s[i])
  }

  /** Blanks around a text that has none at its ends are exactly what is removed. */
  lemma {:induction false} StripPadded(left: string, s: string, right: string)
    requires AllBlank(left) && AllBlank(right) && (s == "" || (!Blank(s[0]) && !Blank(s[|s| - 1])))
    ensures Strip(left + s + right) == s
    decreases |left| + |right|
  {
    var all := left + s + right;
    if left != "" {
      assert all[1..] == left[1..] + s + right;
      StripPadded(left[1..], s, right);
    } else if right != "" {
      assert all == s + right;
      if s == "" {
        assert all[1..] == "" + s + right[1..];
        StripPadded(left, s, right[1..]);
      } else {
        assert all[..|all| - 1] == left + s + right[..|right| - 1];
        StripPadded(left, s, right[..|right| - 1]);
      }
    } else {
      assert all == s;
    }
  }

  /** The parts that are not blank, stripped. */
  function Entries(parts: seq<string>): seq<string> {
    if parts == [] then []
    else
      var t := Strip(parts[|parts| - 1]);
      Entries(parts[..|parts| - 1]) + if t == "" then [] else [t]
  }

  /** splitAndTrim. */
  method SplitAndTrim(s: string, sep: string) returns (result: seq<string>)
    requires sep != ""
    ensures result == Entries(Split(s, sep))
  {
    hide Split, Strip;
    result := [];
    var parts := SplitStr(s, sep);
    assert parts[..0] == [];
    for n := 0 to |parts|
      invariant result == Entries(parts[..n])
    {
      assert parts[..n + 1][..n] == parts[..n];
      var t, _ := TrimSpace(parts[n]);
      if t != "" {
        result := result + [t];
      }
    }
    assert parts[..|parts|] == parts;
  }

  /** However a list of origins is padded with blanks, the list itself is read back. */
  lemma OriginsAreReadBack(origins: seq<string>, padded: seq<string>)
    requires |origins| == |padded|
    requires forall n :: 0 <= n < |origins| ==> origins[n] != "" && ',' !in padded[n] && Strip(padded[n]) == origins[n]
    ensures Entries(Split(Join(padded, ","), ",")) == origins
  {
    hide Strip, Separated;
    if padded != [] {
      SeparatedByChar(padded, ',');
      assert "," == [','];
      EmptyStays();
      assert Strip(padded[0]) == origins[0] != "";
      SplitUndoesJoin(padded, ",");
    }
    EntriesOf(origins, padded);
  }

  lemma EmptyStays()
    ensures Strip("") == ""
  {
  }

  lemma {:induction false} EntriesOf(origins: seq<string>, padded: seq<string>)
    requires |origins| == |padded|
    requires forall n :: 0 <= n < |origins| ==> origins[n] != "" && Strip(padded[n]) == origins[n]
    ensures Entries(padded) == origins
    decreases |padded|
  {
    hide Strip;
    if padded != [] {
      var n := |padded| - 1;
      EntriesOf(origins[..n], padded[..n]);
      assert origins == origins[..n] + [origins[n]];
    }
  }

  // ---------- Redis addresses ----------

  /** indexOf: the first occurrence, or -1; an empty text contains nothing, not even the empty one. */
  method IndexOf(s: string, sub: string) returns (i: int)
    ensures i == if First(s, sub, 0) < |s| then First(s, sub, 0) else -1
  {
    hide First, Here;
    i := 0;
    while i < |s|
      invariant 0 <= i <= |s|
      invariant forall j :: 0 <= j < i ==> !Here(s, j, sub)
    {
      if PrefixFrom(s, i, sub) {
        FirstIs(s, sub, 0, i);
        return;
      }
      i := i + 1;
    }
    NoFirst(s, sub, 0);
    i := -1;
  }

  const REDIS := "redis://"
  const REDISS := "rediss://"

  lemma SchemeLength(s: string)
    ensures StartsWith(s, REDIS) ==> |s| >= 8
    ensures StartsWith(s, REDISS) ==> |s| >= 9
  {
  }

  function WithoutScheme(s: string): string {
    if StartsWith(s, REDIS) then s[8..] else if StartsWith(s, REDISS) then s[9..] else s
  }

  function AfterAt(s: string): string {
    var k := First(s, "@", 0);
    if k < |s| then s[k + 1..] else s
  }

  function BeforeSlash(s: string): string {
    s[..First(s, "/", 0)]
  }

  /** The two cuts in terms of what indexOf answers. */
  lemma AtByIndex(s: string, at: int)
    requires at == if First(s, "@", 0) < |s| then First(s, "@", 0) else -1
    ensures at < |s| || at == -1
    ensures AfterAt(s) == if at >= 0 then s[at + 1..] else s
  {
    hide First;
  }

  lemma SlashByIndex(s: string, slash: int)
    requires slash == if First(s, "/", 0) < |s| then First(s, "/", 0) else -1
    ensures slash <= |s| && BeforeSlash(s) == if slash >= 0 then s[..slash] else s
  {
    hide First;
    assert s[..|s|] == s;
  }

  /** extractAddr. */
  method ExtractAddr(redisURL: string) returns (s: string)
    ensures s == BeforeSlash(AfterAt(WithoutScheme(redisURL)))
  {
    hide First, StartsWith, AfterAt, BeforeSlash;
    s := redisURL;
    SchemeLength(s);
    if StartsWith(s, REDIS) {
      s := s[8..];
    } else if StartsWith(s, REDISS) {
      s := s[9..];
    }
    var idx := IndexOf(s, "@");
    AtByIndex(s, idx);
    if idx >= 0 {
      s := s[idx + 1..];
    }
    idx := IndexOf(s, "/");
    SlashByIndex(s, idx);
    if idx >= 0 {
      s := s[..idx];
    }
  }

  datatype User = Anonymous | Named(name: string)

  /** A Redis URL: scheme as written, user part, host with port, path, and with their marks query and fragment. */
  datatype URL = URL(scheme: string, user: User, host: string, path: string, query: string, fragment: string)

  function Authority(u: URL): string {
    (if u.user.Named? then u.user.name + "@" else "") + u.host
  }

  /** Everything behind the path. */
  function Tail(u: URL): string {
    u.query + u.fragment
  }

  /** Everything behind the scheme. */
  function Rest(u: URL): string {
    Authority(u) + (u.path + Tail(u))
  }

  function Print(u: URL): string {
    u.scheme + "://" + Rest(u)
  }

  /** redis or rediss, which clients take in any case. */
  predicate IsRedisScheme(scheme: string) {
    && (|scheme| == 5 || |scheme| == 6)
    && forall i :: 0 <= i < |scheme| ==> scheme[i] == "rediss"[i] || scheme[i] == "REDISS"[i]
  }

  predicate LowerScheme(u: URL) {
    u.scheme == "redis" || u.scheme == "rediss"
  }

  predicate Valid(u: URL) {
    && IsRedisScheme(u.scheme)
    && (forall c :: c in u.host ==> c !in "@/?#")
    && (u.path == "" || u.path[0] == '/')
    && (u.query == "" || u.query[0] == '?')
    && (u.fragment == "" || u.fragment[0] == '#')
  }

  /** The host is followed by its path, if by anything. */
  predicate HostEnds(u: URL) {
    u.path != "" || Tail(u) == ""
  }

  function Extracted(u: URL): string {
    BeforeSlash(AfterAt(WithoutScheme(Print(u))))
  }

  lemma FirstChar(before: string, c: char, after: string)
    requires c !in before
    ensures First(before + [c] + after, [c], 0) == |before|
  {
    hide Here, First;
    var s := before + [c] + after;
    HereChar(s, c);
    assert forall i :: 0 <= i < |before| ==> s[i] == before[i];
    FirstIs(s, [c], 0, |before|);
  }

  lemma NoChar(s: string, c: char)
    requires c !in s
    ensures First(s, [c], 0) == |s|
  {
    hide Here, First;
    HereChar(s, c);
    NoFirst(s, [c], 0);
  }

  lemma HostBeforeSlash(host: string, path: string)
    requires '/' !in host && (path == "" || path[0] == '/')
    ensures BeforeSlash(host + path) == host
  {
    hide First;
    assert "/" == ['/'];
    if path == "" {
      assert host + path == host;
      NoChar(host, '/');
    } else {
      assert host + path == host + ['/'] + path[1..];
      FirstChar(host, '/', path[1..]);
    }
  }

  lemma AtRemoved(name: string, rest: string)
    requires '@' !in name
    ensures AfterAt(name + "@" + rest) == rest
  {
    hide First;
    assert "@" == ['@'];
    FirstChar(name, '@', rest);
  }

  lemma NoAt(s: string)
    requires '@' !in s
    ensures AfterAt(s) == s
  {
    hide First;
    assert "@" == ['@'];
    NoChar(s, '@');
  }

  lemma RedisSchemeChars(scheme: string)
    requires IsRedisScheme(scheme)
    ensures '@' !in scheme && '/' !in scheme && ':' !in scheme
  {
    assert "rediss" == ['r', 'e', 'd', 'i', 's', 's'] && "REDISS" == ['R', 'E', 'D', 'I', 'S', 'S'];
  }

  lemma SchemeRemoved(u: URL)
    requires LowerScheme(u)
    ensures WithoutScheme(Print(u)) == Rest(u)
  {
    hide Rest;
    var s := Print(u);
    if u.scheme == "rediss" {
      assert s[..|REDIS|][5] == 's' && REDIS[5] == ':';
      assert s == REDISS + Rest(u);
    } else {
      assert s == REDIS + Rest(u);
    }
  }

  lemma CutSchemes(u: URL)
    requires IsRedisScheme(u.scheme)
    ensures StartsWith(Print(u), REDIS) ==> u.scheme == "redis"
    ensures StartsWith(Print(u), REDISS) ==> u.scheme == "rediss"
  {
    hide Rest;
    var s := Print(u);
    RedisSchemeChars(u.scheme);
    assert s[|u.scheme|] == ':' && s[..|u.scheme|] == u.scheme;
    if StartsWith(s, REDIS) {
      assert s[..8] == REDIS && s[..8][..5] == s[..5] && REDIS[..5] == "redis" && REDIS[5] == ':';
      assert s[5] == s[..8][5];
    }
    if StartsWith(s, REDISS) {
      assert s[..9] == REDISS && s[..9][..6] == s[..6] && REDISS[..6] == "rediss" && REDISS[5] == 's';
      assert s[5] == s[..9][5];
    }
  }

  /** A scheme with a capital letter is not recognised. */
  lemma SchemeStays(u: URL)
    requires IsRedisScheme(u.scheme) && !LowerScheme(u)
    ensures WithoutScheme(Print(u)) == Print(u)
  {
    hide StartsWith;
    CutSchemes(u);
  }

  // ---------- when the address comes out ----------

  /** A text with a '@', cut at its first one. */
  lemma {:induction false} FirstAt(name: string) returns (left: string, right: string)
    requires '@' in name
    ensures '@' !in left && name == left + "@" + right
  {
    if name[0] == '@' {
      left, right := "", name[1..];
    } else {
      left, right := FirstAt(name[1..]);
      left := [name[0]] + left;
    }
  }

  /** Up to its first '/', or in whole, the text is `host`. */
  predicate Begins(text: string, host: string) {
    host <= text && (|text| == |host| || text[|host|] == '/')
  }

  lemma BeforeSlashIs(text: string, host: string)
    requires '/' !in host
    ensures BeforeSlash(text) == host <==> Begins(text, host)
  {
    hide First;
    HereChar(text, '/');
    var k := First(text, "/", 0);
    assert "/" == ['/'];
    SlashOrEnd(text);
    if Begins(text, host) {
      HostBeforeSlash(host, text[|host|..]);
      assert host + text[|host|..] == text;
    }
  }

  lemma SlashOrEnd(text: string)
    ensures var k := First(text, "/", 0); k == |text| || text[k] == '/'
  {
    assert "/" == ['/'];
    HereChar(text, '/');
  }

  /** Behind the first '@' of a URL without its scheme. */
  ghost predicate BehindFirstAt(rest: string, host: string) {
    exists left, right :: '@' !in left && rest == left + "@" + right && Begins(right, host)
  }

  lemma AtIsUnique(left: string, right: string, left': string, right': string)
    requires '@' !in left && '@' !in left' && left + "@" + right == left' + "@" + right'
    ensures right == right'
  {
    AtRemoved(left, right);
    AtRemoved(left', right');
  }

  lemma HostSlash(u: URL)
    requires Valid(u)
    ensures '/' !in u.host && '@' !in u.host
  {
  }

  /** Where the host begins a text that goes on as the URL does, it is cut out exactly if its path follows or nothing. */
  lemma HostCutOff(u: URL)
    requires Valid(u)
    ensures Begins(u.host + (u.path + Tail(u)), u.host) <==> HostEnds(u)
  {
    var after := u.path + Tail(u);
    var text := u.host + after;
    assert text[..|u.host|] == u.host;
    assert after != "" ==> text[|u.host|] == after[0];
  }

  lemma UserMeansAt(u: URL)
    requires Valid(u)
    ensures u.user.Named? ==> '@' in Rest(u)
    ensures u.user.Anonymous? ==> Rest(u) == u.host + (u.path + Tail(u))
  {
    if u.user.Named? {
      assert Rest(u)[|u.user.name|] == '@';
    }
  }

  /** Whether the scheme was cut off or not, what is behind the first '@' is the same. */
  lemma BehindAt(u: URL, left: string, right: string)
    requires Valid(u) && '@' !in left && Rest(u) == left + "@" + right
    ensures AfterAt(WithoutScheme(Print(u))) == right
  {
    hide WithoutScheme, AfterAt, Rest;
    RedisSchemeChars(u.scheme);
    if LowerScheme(u) {
      SchemeRemoved(u);
      AtRemoved(left, right);
    } else {
      SchemeStays(u);
      var longer := u.scheme + "://" + left;
      assert Print(u) == longer + "@" + right;
      AtRemoved(longer, right);
    }
  }

  /** With a '@' behind the scheme the scheme's spelling does not matter. */
  lemma AddressWithAt(u: URL)
    requires Valid(u) && '@' in Rest(u)
    ensures Extracted(u) == u.host <==> BehindFirstAt(Rest(u), u.host)
  {
    hide WithoutScheme, AfterAt, BeforeSlash, Begins, Rest;
    var left, right := FirstAt(Rest(u));
    BehindAt(u, left, right);
    HostSlash(u);
    BeforeSlashIs(right, u.host);
    forall l, r | '@' !in l && Rest(u) == l + "@" + r && Begins(r, u.host) ensures Begins(right, u.host) {
      AtIsUnique(l, r, left, right);
    }
  }

  lemma CapitalsLeaveScheme(u: URL)
    requires IsRedisScheme(u.scheme) && !LowerScheme(u) && '@' !in Rest(u)
    ensures Extracted(u) == u.scheme + ":"
  {
    hide WithoutScheme, AfterAt, BeforeSlash, Rest;
    SchemeStays(u);
    RedisSchemeChars(u.scheme);
    var rest := Rest(u);
    assert forall c :: c in Print(u) ==> c in u.scheme || c in "://" || c in rest;
    NoAt(Print(u));
    assert Print(u) == (u.scheme + ":") + ("//" + rest);
    HostBeforeSlash(u.scheme + ":", "//" + rest);
  }

  lemma AddressWithoutAt(u: URL)
    requires Valid(u) && '@' !in Rest(u)
    ensures Extracted(u) == u.host <==> if LowerScheme(u) then HostEnds(u) else u.host == u.scheme + ":"
  {
    hide WithoutScheme, AfterAt, BeforeSlash, Begins, Rest, HostEnds;
    UserMeansAt(u);
    HostSlash(u);
    if LowerScheme(u) {
      SchemeRemoved(u);
      NoAt(Rest(u));
      BeforeSlashIs(Rest(u), u.host);
      HostCutOff(u);
    } else {
      CapitalsLeaveScheme(u);
    }
  }

  /**
   Exactly when the address comes out, for every URL. With a '@' behind the scheme, where the host follows
   the first one and then its path or nothing: so a '@' in a password or, without a user part, further back
   goes wrong unless the text behind it happens to begin with the host again. Without a '@', if the scheme is
   in lower case and the host is followed by its path or nothing; with a capital letter in the scheme the
   answer is the scheme and its colon.
   */
  lemma AddressIff(u: URL)
    requires Valid(u)
    ensures Extracted(u) == u.host <==>
              if '@' in Rest(u) then BehindFirstAt(Rest(u), u.host)
              else if LowerScheme(u) then HostEnds(u)
              else u.host == u.scheme + ":"
  {
    hide *;
    if '@' in Rest(u) {
      AddressWithAt(u);
    } else {
      AddressWithoutAt(u);
    }
  }

  /**
   In terms of the URL's parts: host and port come out if its path or nothing follows the host, the user
   part has no '@', and without a user part there is none further back and the scheme is in lower case.
   */
  lemma AddressIsExtracted(u: URL)
    requires Valid(u) && HostEnds(u)
    requires if u.user.Named? then '@' !in u.user.name else '@' !in u.path + Tail(u) && LowerScheme(u)
    ensures Extracted(u) == u.host
  {
    hide Extracted, Begins, Rest, HostEnds;
    AddressIff(u);
    if u.user.Named? {
      NamedRest(u);
      HostCutOff(u);
    } else {
      UserMeansAt(u);
      HostSlash(u);
    }
  }

  lemma NamedRest(u: URL)
    requires u.user.Named?
    ensures Rest(u) == u.user.name + "@" + (u.host + (u.path + Tail(u))) && '@' in Rest(u)
  {
    assert Rest(u) == u.user.name + "@" + (u.host + (u.path + Tail(u)));
    assert Rest(u)[|u.user.name|] == '@';
  }

  /**
   For a user part without '/', as URLs require, the address comes out exactly if the user part has no
   '@', so a password that contains one ends up in the address, and the path or nothing follows the host.
   */
  lemma AddressIffNoAt(u: URL)
    requires Valid(u) && u.user.Named? && '/' !in u.user.name
    ensures Extracted(u) == u.host <==> '@' !in u.user.name && HostEnds(u)
  {
    hide Extracted, HostEnds, Rest, BehindFirstAt;
    if '@' in u.user.name {
      AddressWithTwoAts(u);
      HostSlash(u);
    } else {
      AddressWithOneAt(u);
    }
  }

  lemma AddressWithOneAt(u: URL)
    requires Valid(u) && u.user.Named? && '@' !in u.user.name
    ensures Extracted(u) == u.host <==> HostEnds(u)
  {
    hide WithoutScheme, AfterAt, BeforeSlash, Begins, Rest, HostEnds;
    var right := u.host + (u.path + Tail(u));
    NamedRest(u);
    BehindAt(u, u.user.name, right);
    HostSlash(u);
    BeforeSlashIs(right, u.host);
    HostCutOff(u);
  }

  lemma BeforeSlashKeeps(front: string, after: string)
    requires '/' !in front
    ensures front <= BeforeSlash(front + after)
  {
    var s := front + after;
    assert forall i :: 0 <= i < |front| ==> s[i] == front[i];
    SlashOrEnd(s);
    hide First;
    assert s[..|front|] == front;
  }

  lemma AddressWithTwoAts(u: URL)
    requires Valid(u) && u.user.Named? && '/' !in u.user.name && '@' in u.user.name
    ensures '@' in Extracted(u)
  {
    hide WithoutScheme, AfterAt, BeforeSlash, Rest;
    var left, right := FirstAt(u.user.name);
    var wrong, after := right + "@", u.host + (u.path + Tail(u));
    NamedRest(u);
    assert u.user.name + "@" + after == left + "@" + (wrong + after);
    BehindAt(u, left, wrong + after);
    assert forall c :: c in right ==> c in u.user.name;
    BeforeSlashKeeps(wrong, after);
    assert wrong[|right|] == '@';
  }

  /** Without a path all that follows the host is taken for a part of it. */
  lemma TailStaysWithHost(u: URL)
    requires Valid(u) && LowerScheme(u) && u.user.Anonymous? && u.path == "" && '@' !in Tail(u) && '/' !in Tail(u)
    ensures Extracted(u) == u.host + Tail(u)
  {
    hide WithoutScheme, AfterAt, BeforeSlash, Rest, Tail;
    SchemeRemoved(u);
    UserMeansAt(u);
    HostSlash(u);
    assert u.host + ("" + Tail(u)) == (u.host + Tail(u)) + "";
    NoAt(Rest(u));
    HostBeforeSlash(u.host + Tail(u), "");
  }

  lemma ExampleSchemes()
    ensures IsRedisScheme("redis") && IsRedisScheme("REDIS")
  {
    assert "rediss" == ['r', 'e', 'd', 'i', 's', 's'] && "REDISS" == ['R', 'E', 'D', 'I', 'S', 'S'];
  }

  /** So a database in the query ends up in the address. */
  lemma QueryInAddress()
    ensures Extracted(URL("redis", Anonymous, "h:6379", "", "?db=1", "")) == "h:6379?db=1"
  {
    hide Extracted, IsRedisScheme;
    var u := URL("redis", Anonymous, "h:6379", "", "?db=1", "");
    ExampleSchemes();
    assert Tail(u) == "?db=1" && "h:6379" + "?db=1" == "h:6379?db=1";
    TailStaysWithHost(u);
  }

  /** A capital letter in the scheme leaves nothing of the address. */
  lemma CapitalsLoseAddress()
    ensures Extracted(URL("REDIS", Anonymous, "h:6379", "/0", "", "")) == "REDIS:"
  {
    hide Extracted, IsRedisScheme;
    var u := URL("REDIS", Anonymous, "h:6379", "/0", "", "");
    ExampleSchemes();
    assert Rest(u) == "h:6379/0" && "REDIS" + ":" == "REDIS:";
    CapitalsLeaveScheme(u);
  }
}
