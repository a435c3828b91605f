/**
 slugify: a product title as a URL handle. The loop writes letters and digits and one dash for every
 run of other characters; the result is the title's words joined by dashes.
 */
module Slug {
  import opened Text

  predicate Plain(c: char) {
    'a' <= c <= 'z' || '0' <= c <= '9'
  }

  /** unicode.ToLower where it matters: besides A-Z only U+212A and U+0130 have an ASCII lower case. */
  function LowerLetter(c: char): char {
    if 'A' <= c <= 'Z' then c - 'A' + 'a'
    else if c == '\U{212A}' then 'k'
    else if c == '\U{130}' then 'i'
    else c
  }

  function Lower(s: string): (r: string)
    ensures |r| == |s| && forall i :: 0 <= i < |s| ==> r[i] == LowerLetter(s[i])
  {
    if s == "" then "" else [LowerLetter(s[0])] + Lower(s[1..])
  }

  /** What a handle keeps: lower-case letters and digits; capitals and the two other runes become such. */
  lemma HandleLetters(c: char)
    ensures Plain(c) <==> c in LOWERS || c in DIGITS
    ensures forall i :: 0 <= i < 26 ==> LowerLetter(UPPERS[i]) == LOWERS[i]
    ensures c !in UPPERS ==> LowerLetter(c) == if c == '\U{212A}' then 'k' else if c == '\U{130}' then 'i' else c
  {
    AlphabetsInOrder();
    ThreeAlphabets(c);
  }

  /** What the loop still writes, given whether it has just written a dash. */
  function Dashed(s: string, prevDash: bool): string {
    if s == "" then ""
    else if Plain(s[0]) then [s[0]] + Dashed(s[1..], false)
    else if prevDash then Dashed(s[1..], true)
    else "-" + Dashed(s[1..], true)
  }

  function TrimDashes(s: string): string
    decreases |s|
  {
    if s != "" && s[0] == '-' then TrimDashes(s[1..])
    else if s != "" && s[|s| - 1] == '-' then TrimDashes(s[..|s| - 1])
    else s
  }

  function Slug(title: string): string {
    TrimDashes(Dashed(Trim(Lower(title)), false))
  }

  /** slugify. */
  method Slugify(title: string) returns (r: string)
    ensures r == Slug(title)
  {
    hide Lower, Trim;
    var slug := Lower(title);
    slug := Trim(slug);
    var b, prevDash := "", false;
    assert slug[0..] == slug;
    for i := 0 to |slug|
      invariant b + Dashed(slug[i..], prevDash) == Dashed(slug, false)
    {
      assert slug[i..][1..] == slug[i + 1..];
      if Plain(slug[i]) {
        b := b + [slug[i]];
        prevDash := false;
      } else if !prevDash {
        b := b + "-";
        prevDash := true;
      }
    }
    assert b + "" == b && slug[|slug|..] == "";
    r := TrimDashes(b);
  }

  // ---------- the words of a title ----------

  /** The maximal runs of letters and digits. */
  function Words(s: string): seq<string> {
    if s == "" then []
    else
      var rest := Words(s[1..]);
      if !Plain(s[0]) then rest
      else if |s| > 1 && Plain(s[1]) && rest != [] then [[s[0]] + rest[0]] + rest[1..]
      else [[s[0]]] + rest
  }

  predicate Word(w: string) {
    w != "" && forall i :: 0 <= i < |w| ==> Plain(w[i])
  }

  lemma {:induction false} WordsAreWords(s: string)
    ensures forall i :: 0 <= i < |Words(s)| ==> Word(Words(s)[i])
  {
    if s != "" {
      WordsAreWords(s[1..]);
      var rest := Words(s[1..]);
      assert rest != [] ==> Word(rest[0]);
    }
  }

  lemma {:induction false} SomeWord(s: string)
    requires s != "" && (Plain(s[0]) || Plain(s[|s| - 1]))
    ensures Words(s) != []
  {
    if !Plain(s[0]) {
      assert s[1..][|s| - 2] == s[|s| - 1];
      SomeWord(s[1..]);
    }
  }

  function Joined(s: string): string {
    Join(Words(s), "-")
  }

  /** The dash that is left behind the last word. */
  function Tail(s: string): string {
    if Words(s) != [] && !Plain(s[|s| - 1]) then "-" else ""
  }

  lemma FirstGrows(c: char, words: seq<string>)
    requires words != []
    ensures Join([[c] + words[0]] + words[1..], "-") == [c] + Join(words, "-")
  {
    var longer := [[c] + words[0]] + words[1..];
    assert longer[1..] == words[1..];
    if |words| > 1 {
      Regroup([c], words[0], "-", Join(words[1..], "-"));
    }
  }

  lemma Regroup(a: string, b: string, c: string, d: string)
    ensures (a + b) + c + d == a + (b + c + d)
  {
  }

  lemma WordBefore(c: char, words: seq<string>)
    requires words != []
    ensures Join([[c]] + words, "-") == [c] + ("-" + Join(words, "-"))
  {
    assert ([[c]] + words)[1..] == words;
  }

  lemma TailStays(s: string)
    requires |s| > 1
    ensures !Plain(s[0]) ==> Tail(s) == Tail(s[1..])
    ensures Words(s[1..]) != [] ==> Tail(s) == Tail(s[1..])
  {
    assert s[1..][|s| - 2] == s[|s| - 1];
  }

  /** Behind a dash, or at a letter, the loop writes the words joined by dashes, and maybe one dash more. */
  lemma {:induction false} DashedIsJoined(s: string, prevDash: bool)
    ensures Dashed(s, prevDash) == (if prevDash || s == "" || Plain(s[0]) then "" else "-") + (Joined(s) + Tail(s))
    decreases |s|
  {
    if s == "" {
    } else if !Plain(s[0]) {
      DashedIsJoined(s[1..], true);
      if |s| > 1 { TailStays(s); }
    } else {
      DashedAfterLetter(s, prevDash);
    }
  }

  lemma {:induction false} DashedAfterLetter(s: string, prevDash: bool)
    requires s != "" && Plain(s[0])
    ensures Dashed(s, prevDash) == Joined(s) + Tail(s)
    decreases |s|, 0
  {
    var rest := s[1..];
    if rest == "" {
      OneLetter(s);
    } else {
      DashedIsJoined(rest, false);
      if Words(rest) == [] {
        LastWord(s);
      } else {
        MoreWords(s);
      }
    }
  }

  lemma OneLetter(s: string)
    requires |s| == 1 && Plain(s[0])
    ensures Dashed(s, true) == Dashed(s, false) == Joined(s) + Tail(s) == s
  {
    assert Words(s[1..]) == [];
    assert Words(s) == [[s[0]]] + [];
    assert s == [s[0]];
  }

  /** A letter that only other characters follow. */
  lemma LastWord(s: string)
    requires |s| > 1 && Plain(s[0]) && Words(s[1..]) == []
    ensures Joined(s) == [s[0]] && Tail(s) == "-" && Joined(s[1..]) == "" && Tail(s[1..]) == "" && !Plain(s[1])
  {
    if Plain(s[1..][0]) || Plain(s[1..][|s| - 2]) {
      SomeWord(s[1..]);
    }
    assert s[1..][0] == s[1] && s[1..][|s| - 2] == s[|s| - 1];
    assert Words(s) == [[s[0]]] + [];
  }

  /** A letter after which more words come. */
  lemma MoreWords(s: string)
    requires |s| > 1 && Plain(s[0]) && Words(s[1..]) != []
    ensures Joined(s) + Tail(s) == [s[0]] + ((if Plain(s[1]) then "" else "-") + (Joined(s[1..]) + Tail(s[1..])))
  {
    TailStays(s);
    FirstGrows(s[0], Words(s[1..]));
    WordBefore(s[0], Words(s[1..]));
  }

  lemma {:induction false} JoinOfWords(words: seq<string>)
    requires words != [] && forall i :: 0 <= i < |words| ==> Word(words[i])
    ensures var j := Join(words, "-"); j != "" && Plain(j[0]) && Plain(j[|j| - 1])
  {
    assert Word(words[0]);
    if |words| > 1 {
      JoinOfWords(words[1..]);
    }
  }

  lemma TrimsToJoin(j: string, left: string, right: string)
    requires j != "" && j[0] != '-' && j[|j| - 1] != '-'
    requires (left == "" || left == "-") && (right == "" || right == "-")
    ensures TrimDashes(left + (j + right)) == j
  {
    var s := left + (j + right);
    assert right == "-" ==> (j + right)[..|j|] == j;
    assert right == "" ==> j + right == j;
    assert TrimDashes(j + right) == j;
    assert left == "-" ==> s[1..] == j + right;
    assert left == "" ==> s == j + right;
  }

  lemma {:induction false} LeadingSpaces(s: string)
    ensures Words(TrimLeft(s)) == Words(s)
  {
    if s != "" && IsSpace(s[0]) {
      LeadingSpaces(s[1..]);
    }
  }

  lemma {:induction false} TrailingOther(s: string, c: char)
    requires !Plain(c)
    ensures Words(s + [c]) == Words(s)
  {
    var longer := s + [c];
    if s == "" {
      assert longer[1..] == "";
    } else {
      assert longer[1..] == s[1..] + [c];
      TrailingOther(s[1..], c);
      if |s| == 1 {
        assert longer[1] == c;
      }
    }
  }

  lemma {:induction false} TrailingSpaces(s: string)
    ensures Words(TrimRight(s)) == Words(s)
  {
    if s != "" && IsSpace(s[|s| - 1]) {
      var init := s[..|s| - 1];
      TrailingSpaces(init);
      TrailingOther(init, s[|s| - 1]);
      assert s == init + [s[|s| - 1]];
    }
  }

  /** The handle is the lower-case words of the title joined by single dashes: every letter and digit stays, in order. */
  lemma SlugIsJoinedWords(title: string)
    ensures Slug(title) == Join(Words(Lower(title)), "-")
  {
    hide Words, Dashed, Lower, TrimDashes, Tail;
    var s := Trim(Lower(title));
    LeadingSpaces(Lower(title));
    TrailingSpaces(TrimLeft(Lower(title)));
    DashedIsJoined(s, false);
    TrimmedDashes(s, if s == "" || Plain(s[0]) then "" else "-");
  }

  lemma TrimmedDashes(s: string, left: string)
    requires left == "" || left == "-"
    ensures TrimDashes(left + (Joined(s) + Tail(s))) == Joined(s)
  {
    WordsAreWords(s);
    if Words(s) != [] {
      JoinOfWords(Words(s));
      TrimsToJoin(Joined(s), left, Tail(s));
    } else {
      assert left + ("" + "") == left;
    }
  }

  // ---------- the shape of a handle ----------

  /** Letters, digits and single inner dashes. */
  predicate IsSlug(s: string) {
    && (forall i :: 0 <= i < |s| ==> Plain(s[i]) || s[i] == '-')
    && (forall i :: 0 <= i < |s| - 1 ==> s[i] != '-' || s[i + 1] != '-')
    && (s != "" ==> s[0] != '-' && s[|s| - 1] != '-')
  }

  lemma {:induction false} JoinIsSlug(words: seq<string>)
    requires forall i :: 0 <= i < |words| ==> Word(words[i])
    ensures IsSlug(Join(words, "-"))
  {
    if |words| == 1 {
      assert Word(words[0]);
    } else if |words| > 1 {
      assert Word(words[0]);
      JoinIsSlug(words[1..]);
      JoinOfWords(words[1..]);
      DashBetween(words[0], Join(words[1..], "-"));
    }
  }

  lemma DashBetween(w: string, rest: string)
    requires Word(w) && IsSlug(rest) && rest != ""
    ensures IsSlug(w + "-" + rest)
  {
    var s := w + "-" + rest;
    assert s[|w|] == '-' && s[|w| + 1] == rest[0];
    assert forall i :: 0 <= i < |w| ==> s[i] == w[i];
    assert forall i :: 0 <= i < |rest| ==> s[|w| + 1 + i] == rest[i];
    assert forall i :: |w| < i < |s| ==> s[i] == rest[i - |w| - 1];
    forall i | 0 <= i < |s| - 1 ensures s[i] != '-' || s[i + 1] != '-' {
      if i > |w| {
        assert s[i] == rest[i - |w| - 1] && s[i + 1] == rest[i - |w|];
      }
    }
  }

  lemma {:induction false} DashedFixed(s: string, prevDash: bool)
    requires forall i :: 0 <= i < |s| ==> Plain(s[i]) || s[i] == '-'
    requires forall i :: 0 <= i < |s| - 1 ==> s[i] != '-' || s[i + 1] != '-'
    requires prevDash && s != "" ==> s[0] != '-'
    ensures Dashed(s, prevDash) == s
  {
    if s != "" {
      var rest := s[1..];
      assert forall i :: 0 <= i < |rest| ==> rest[i] == s[i + 1];
      forall i | 0 <= i < |rest| - 1 ensures rest[i] != '-' || rest[i + 1] != '-' {
        assert s[i + 1] != '-' || s[i + 2] != '-';
      }
      DashedFixed(rest, s[0] == '-');
      assert s == [s[0]] + rest;
    }
  }

  lemma SlugIsPlain(s: string)
    requires IsSlug(s)
    ensures Lower(s) == s && Trimmed(s) && TrimDashes(s) == s
  {
  }

  /** A text is left as it is exactly if it has the shape of a handle. */
  lemma SlugFixesExactlySlugs(s: string)
    ensures Slug(s) == s <==> IsSlug(s)
  {
    hide Lower, Trim, Dashed, TrimDashes;
    SlugShape(s);
    if IsSlug(s) {
      SlugIsPlain(s);
      TrimOfTrimmed(s);
      DashedFixed(s, false);
    }
  }

  lemma SlugShape(title: string)
    ensures IsSlug(Slug(title))
  {
    hide Slug, IsSlug;
    SlugIsJoinedWords(title);
    WordsAreWords(Lower(title));
    JoinIsSlug(Words(Lower(title)));
  }

  lemma SlugIsIdempotent(title: string)
    ensures Slug(Slug(title)) == Slug(title)
  {
    hide Slug, IsSlug;
    SlugShape(title);
    SlugFixesExactlySlugs(Slug(title));
  }
}
