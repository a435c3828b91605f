/**
 Go strings as bytes: how they decode into runes, and what strings.ToLower makes of them. A string here
 is a sequence of bytes, each given as a character below 256.
 */
module Utf8 {

  predicate Bytes(s: string) {
    forall i :: 0 <= i < |s| ==> s[i] as int < 256
  }

  predicate Ascii(s: string) {
    forall i :: 0 <= i < |s| ==> s[i] < '\U{80}'
  }

  predicate Within(s: string, i: nat, low: char, high: char) {
    i < |s| && low <= s[i] <= high
  }

  predicate Continues(s: string, i: nat) {
    Within(s, i, '\U{80}', '\U{BF}')
  }

  /** How many bytes the first rune takes; 1 for a byte that begins no valid encoding. */
  function RuneLen(s: string): (n: nat)
    requires s != ""
    ensures 1 <= n <= |s|
    ensures forall i :: 1 <= i < n ==> s[i] >= '\U{80}'
    ensures n > 1 ==> s[0] >= '\U{80}'
  {
    var c := s[0];
    if '\U{C2}' <= c <= '\U{DF}' && Continues(s, 1) then 2
    else if c == '\U{E0}' && Within(s, 1, '\U{A0}', '\U{BF}') && Continues(s, 2) then 3
    else if c == '\U{ED}' && Within(s, 1, '\U{80}', '\U{9F}') && Continues(s, 2) then 3
    else if '\U{E1}' <= c <= '\U{EF}' && c != '\U{ED}' && Continues(s, 1) && Continues(s, 2) then 3
    else if c == '\U{F0}' && Within(s, 1, '\U{90}', '\U{BF}') && Continues(s, 2) && Continues(s, 3) then 4
    else if c == '\U{F4}' && Within(s, 1, '\U{80}', '\U{8F}') && Continues(s, 2) && Continues(s, 3) then 4
    else if '\U{F1}' <= c <= '\U{F3}' && Continues(s, 1) && Continues(s, 2) && Continues(s, 3) then 4
    else 1
  }

  function LowerChar(c: char): char {
    if 'A' <= c <= 'Z' then c - 'A' + 'a' else c
  }

  const REPLACEMENT := "\U{EF}\U{BF}\U{BD}"

  /**
   The lower case of one encoded rune, which may be shorter or longer: U+0130 and U+212A become the letters
   i and k, a stray byte becomes U+FFFD, and `table` is Unicode's lower-case table for all other runes.
   */
  function LowerRune(rune: string, table: string -> string): string
    requires rune != ""
  {
    if |rune| == 1 then (if rune[0] < '\U{80}' then [LowerChar(rune[0])] else REPLACEMENT)
    else if rune == "\U{C4}\U{B0}" then "i"
    else if rune == "\U{E2}\U{84}\U{AA}" then "k"
    else table(rune)
  }

  /** strings.ToLower */
  function ToLower(s: string, table: string -> string): string
    decreases |s|
  {
    if s == "" then "" else LowerRune(s[..RuneLen(s)], table) + ToLower(s[RuneLen(s)..], table)
  }

  lemma RuneLenOfFront(a: string, b: string)
    requires a != "" && (b == "" || b[0] < '\U{80}')
    ensures RuneLen(a + b) == RuneLen(a)
  {
    var s := a + b;
    assert forall i :: 0 <= i < |a| ==> s[i] == a[i];
    assert b != "" ==> s[|a|] == b[0];
  }

  /** An ASCII byte always begins a rune, so what precedes it is lowered on its own. */
  lemma {:induction false} ToLowerConcat(a: string, b: string, table: string -> string)
    requires b == "" || b[0] < '\U{80}'
    ensures ToLower(a + b, table) == ToLower(a, table) + ToLower(b, table)
    decreases |a|
  {
    hide RuneLen, LowerRune;
    if a == "" {
      assert a + b == b;
    } else {
      var n := RuneLen(a);
      RuneLenOfFront(a, b);
      assert (a + b)[..n] == a[..n] && (a + b)[n..] == a[n..] + b;
      ToLowerConcat(a[n..], b, table);
      assert ToLower(a + b, table) == LowerRune(a[..n], table) + (ToLower(a[n..], table) + ToLower(b, table));
    }
  }

  lemma OneAsciiByte(s: string, table: string -> string)
    requires s != "" && s[0] < '\U{80}'
    ensures ToLower(s, table) == [LowerChar(s[0])] + ToLower(s[1..], table)
  {
    assert s[..1] == [s[0]];
  }

  /** On ASCII it keeps every byte in its place. */
  lemma {:induction false} ToLowerAscii(s: string, table: string -> string)
    requires Ascii(s)
    ensures |ToLower(s, table)| == |s|
    ensures forall i :: 0 <= i < |s| ==> ToLower(s, table)[i] == LowerChar(s[i])
  {
    if s != "" {
      hide ToLower, LowerChar;
      OneAsciiByte(s, table);
      ToLowerAscii(s[1..], table);
      var rest := ToLower(s[1..], table);
      forall i | 0 <= i < |s| ensures ToLower(s, table)[i] == LowerChar(s[i]) {
        if i > 0 {
          assert rest[i - 1] == LowerChar(s[1..][i - 1]);
        }
      }
    } else {
      assert ToLower("", table) == "";
    }
  }
}
