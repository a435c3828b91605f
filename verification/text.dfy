/**
 The few string operations of the Go standard library that the handlers rely on, with the laws
 the rest of the project uses. A string is its sequence of code points.
 */
module Text {

  /** Unicode white space, as strings.TrimSpace understands it. */
  predicate IsSpace(c: char) {
    || '\t' <= c <= '\r' || c == ' ' || c == '\U{85}' || c == '\U{A0}' || c == '\U{1680}'
    || '\U{2000}' <= c <= '\U{200A}' || c == '\U{2028}' || c == '\U{2029}' || c == '\U{202F}'
    || c == '\U{205F}' || c == '\U{3000}'
  }

  function TrimLeft(s: string): string {
    if s != "" && IsSpace(s[0]) then TrimLeft(s[1..]) else s
  }

  function TrimRight(s: string): string {
    if s != "" && IsSpace(s[|s| - 1]) then TrimRight(s[..|s| - 1]) else s
  }

  /** strings.TrimSpace */
  function Trim(s: string): string {
    TrimRight(TrimLeft(s))
  }

  predicate Trimmed(s: string) {
    s == "" || (!IsSpace(s[0]) && !IsSpace(s[|s| - 1]))
  }

  lemma {:induction false} TrimLeftStarts(s: string)
    ensures TrimLeft(s) == "" || !IsSpace(TrimLeft(s)[0])
    ensures forall c :: c in TrimLeft(s) ==> c in s
  {
    if s != "" && IsSpace(s[0]) {
      TrimLeftStarts(s[1..]);
    }
  }

  lemma {:induction false} TrimRightEnds(s: string)
    ensures TrimRight(s) == "" || !IsSpace(TrimRight(s)[|TrimRight(s)| - 1])
    ensures TrimRight(s) <= s
  {
    if s != "" && IsSpace(s[|s| - 1]) {
      TrimRightEnds(s[..|s| - 1]);
    }
  }

  lemma TrimIsTrimmed(s: string)
    ensures Trimmed(Trim(s))
    ensures forall c :: c in Trim(s) ==> c in s
  {
    TrimLeftStarts(s);
    TrimRightEnds(TrimLeft(s));
  }

  lemma TrimOfTrimmed(s: string)
    requires Trimmed(s)
    ensures Trim(s) == s
  {
  }

  predicate HasPrefix(s: string, prefix: string) {
    prefix <= s
  }

  function Contains(s: string, sub: string): bool {
    exists i :: 0 <= i <= |s| && HasPrefix(s[i..], sub)
  }

  const UPPERS := "ABCDEFGHIJKLMNOPQRSTUVWXYZ"
  const LOWERS := "abcdefghijklmnopqrstuvwxyz"
  const DIGITS := "0123456789"

  lemma ThreeAlphabets(c: char)
    ensures 'A' <= c <= 'Z' <==> c in UPPERS
    ensures 'a' <= c <= 'z' <==> c in LOWERS
    ensures '0' <= c <= '9' <==> c in DIGITS
  {
    AlphabetsInOrder();
    hide *;
    if 'A' <= c <= 'Z' {
      assert c == UPPERS[c as int - 'A' as int];
    }
    if 'a' <= c <= 'z' {
      assert c == LOWERS[c as int - 'a' as int];
    }
    if '0' <= c <= '9' {
      assert c == DIGITS[c as int - '0' as int];
    }
  }

  lemma AlphabetsInOrder()
    ensures |UPPERS| == |LOWERS| == 26 && |DIGITS| == 10
    ensures forall i :: 0 <= i < 26 ==> UPPERS[i] as int == 'A' as int + i && LOWERS[i] as int == 'a' as int + i
    ensures forall i :: 0 <= i < 10 ==> DIGITS[i] as int == '0' as int + i
  {
  }

  /** Letters go up in pairs; besides them only U+0131 and U+017F change, to I and S. */
  lemma UpperLetters(c: char)
    ensures forall i :: 0 <= i < 26 ==> UpperChar(LOWERS[i]) == UPPERS[i]
    ensures c !in LOWERS ==> UpperChar(c) == if c == '\U{131}' then 'I' else if c == '\U{17F}' then 'S' else c
  {
    AlphabetsInOrder();
    ThreeAlphabets(c);
  }

  function UpperChar(c: char): char {
    if 'a' <= c <= 'z' then c - 'a' + 'A'
    else if c == '\U{131}' then 'I'
    else if c == '\U{17F}' then 'S'
    else c
  }

  /** strings.ToUpper where it matters: besides a-z only U+0131 and U+017F have an ASCII upper case. */
  function ToUpper(s: string): (r: string)
    ensures |r| == |s|
    ensures forall i :: 0 <= i < |s| ==> r[i] == UpperChar(s[i])
  {
    if s == "" then "" else [UpperChar(s[0])] + ToUpper(s[1..])
  }

  /** strings.Split by a single character: always at least one part, none of which has the separator. */
  function Split(s: string, sep: char): (parts: seq<string>)
    ensures |parts| >= 1
    ensures forall i :: 0 <= i < |parts| ==> sep !in parts[i]
  {
    if s == "" then [""]
    else
      var rest := Split(s[1..], sep);
      if s[0] == sep then [""] + rest else [[s[0]] + rest[0]] + rest[1..]
  }

  function Join(parts: seq<string>, sep: string): string {
    if |parts| == 0 then "" else if |parts| == 1 then parts[0]
    else parts[0] + sep + Join(parts[1..], sep)
  }

  lemma {:induction false} SplitPlain(s: string, sep: char)
    requires sep !in s
    ensures Split(s, sep) == [s]
  {
    if s != "" {
      SplitPlain(s[1..], sep);
      assert [s[0]] + s[1..] == s;
    }
  }

  /** The first part of a split is what precedes the first separator. */
  lemma {:induction false} SplitFirst(head: string, tail: string, sep: char)
    requires sep !in head
    ensures Split(head + [sep] + tail, sep) == [head] + Split(tail, sep)
  {
    var s := head + [sep] + tail;
    if head == "" {
      assert s[1..] == tail;
    } else {
      assert s[1..] == head[1..] + [sep] + tail;
      SplitFirst(head[1..], tail, sep);
      assert [head[0]] + head[1..] == head;
    }
  }

  // ---------- cutting ----------

  /** strings.Cut at a single character: the text before its first occurrence, and what follows. */
  function Before(s: string, c: char): (r: string)
    ensures c !in r && |r| <= |s|
  {
    if s == "" || s[0] == c then "" else [s[0]] + Before(s[1..], c)
  }

  function Behind(s: string, c: char): (r: string)
    ensures |r| <= |s| && (s != "" ==> |r| < |s|)
  {
    if s == "" then "" else if s[0] == c then s[1..] else Behind(s[1..], c)
  }

  lemma {:induction false} CutAt(left: string, c: char, right: string)
    requires c !in left
    ensures Before(left + [c] + right, c) == left && Behind(left + [c] + right, c) == right
  {
    var s := left + [c] + right;
    if left == "" {
      assert s[1..] == right;
    } else {
      assert s[1..] == left[1..] + [c] + right;
      CutAt(left[1..], c, right);
      assert left == [left[0]] + left[1..];
    }
  }

  lemma {:induction false} CutNowhere(s: string, c: char)
    requires c !in s
    ensures Before(s, c) == s && Behind(s, c) == ""
  {
    if s != "" {
      CutNowhere(s[1..], c);
      assert s == [s[0]] + s[1..];
    }
  }
}
