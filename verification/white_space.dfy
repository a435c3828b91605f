/**
 strings.TrimSpace on bytes against Unicode's white space: exactly the UTF-8 encodings of white space
 characters are trimmed. Strings are sequences of bytes.
 */
module WhiteSpace {
  import opened Text
  import opened ContentURL
  import opened Utf8Runes

  /** A byte that continues an encoded character. */
  predicate Continuation(c: char) {
    '\U{80}' <= c <= '\U{BF}'
  }

  lemma SpacesAreShort(c: char)
    requires IsSpace(c)
    ensures c < '\U{10000}'
  {
  }

  /** The encodings of white space, by length. */
  lemma EncodedSpace(c: char)
    requires IsSpace(c)
    ensures c < '\U{10000}'
    ensures var e := EncodeRune(c);
            && (|e| == 1 ==> '\t' <= e[0] <= '\r' || e[0] == ' ')
            && (|e| == 2 ==> TwoByteSpace(e[0], e[1]))
            && (|e| == 3 ==> ThreeByteSpace(e[0], e[1], e[2]))
  {
    var n := c as int;
    if 0x2000 <= n <= 0x200A {
      assert n / 4096 == 2 && n / 64 == 128 && n % 64 == n - 0x2000;
    }
  }

  lemma SpaceBytes(a: char, b: char, c: char)
    ensures TwoByteSpace(a, b) ==> a >= '\U{C0}' && Continuation(b)
    ensures ThreeByteSpace(a, b, c) ==> a >= '\U{C0}' && Continuation(b) && Continuation(c) && a != '\U{C2}' && b != '\U{C2}'
  {
  }

  /** White space at either end is seen, whatever follows or precedes it. */
  lemma SpaceIsSeen(c: char, rest: string)
    requires IsSpace(c)
    ensures c < '\U{10000}'
    ensures SpaceInFront(EncodeRune(c) + rest) == |EncodeRune(c)|
    ensures SpaceAtEnd(rest + EncodeRune(c)) == |EncodeRune(c)|
  {
    EncodedSpace(c);
    hide TwoByteSpace, ThreeByteSpace, EncodeRune, IsSpace;
    var e := EncodeRune(c);
    var front, end, k := e + rest, rest + e, |rest + e|;
    assert front[0] == e[0] && end[k - 1] == e[|e| - 1];
    if |e| >= 2 {
      SpaceBytes(e[0], e[1], if |e| == 3 then e[2] else ' ');
      assert front[1] == e[1] && end[k - 2] == e[|e| - 2];
    }
    if |e| == 3 {
      assert front[2] == e[2] && end[k - 3] == e[0];
      SpaceBytes(e[0], e[1], ' ');
      SpaceBytes(e[1], e[2], ' ');
    }
  }

  lemma TwoByteRune(a: char, b: char) returns (c: char)
    requires TwoByteSpace(a, b)
    ensures IsSpace(c) && c < '\U{10000}' && EncodeRune(c) == [a, b]
  {
    c := if b == '\U{85}' then '\U{85}' else '\U{A0}';
  }

  lemma ThreeByteRune(a: char, b: char, d: char) returns (c: char)
    requires ThreeByteSpace(a, b, d)
    ensures IsSpace(c) && c < '\U{10000}' && EncodeRune(c) == [a, b, d]
  {
    if a == '\U{E1}' {
      c := '\U{1680}';
    } else if a == '\U{E3}' {
      c := '\U{3000}';
    } else if b == '\U{81}' {
      c := '\U{205F}';
    } else {
      var n := 0x2000 + (d as int - 0x80);
      assert n / 4096 == 2 && n / 64 == 128 && n % 64 == n - 0x2000;
      c := n as char;
    }
  }

  /** Conversely, what is seen at the front is an encoded white space character. */
  lemma SeenInFront(s: string) returns (c: char)
    requires SpaceInFront(s) > 0
    ensures IsSpace(c) && c < '\U{10000}' && s[..SpaceInFront(s)] == EncodeRune(c)
  {
    var n := SpaceInFront(s);
    if n == 1 {
      c := s[0];
    } else if n == 2 {
      c := TwoByteRune(s[0], s[1]);
    } else {
      c := ThreeByteRune(s[0], s[1], s[2]);
    }
  }

  lemma SeenAtEnd(s: string) returns (c: char)
    requires SpaceAtEnd(s) > 0
    ensures IsSpace(c) && c < '\U{10000}' && s[|s| - SpaceAtEnd(s)..] == EncodeRune(c)
  {
    var n, k := SpaceAtEnd(s), |s|;
    if n == 1 {
      c := s[k - 1];
    } else if n == 2 {
      c := TwoByteRune(s[k - 2], s[k - 1]);
    } else {
      c := ThreeByteRune(s[k - 3], s[k - 2], s[k - 1]);
    }
  }

  predicate AllSpace(cs: string) {
    forall i :: 0 <= i < |cs| ==> IsSpace(cs[i])
  }

  function EncodeSpaces(cs: string): string
    requires AllSpace(cs)
  {
    if cs == "" then ""
    else
      SpacesAreShort(cs[0]);
      EncodeRune(cs[0]) + EncodeSpaces(cs[1..])
  }

  lemma {:induction false} FrontIsTrimmed(front: string, rest: string)
    requires AllSpace(front)
    ensures TrimSpaceBytes(EncodeSpaces(front) + rest) == TrimSpaceBytes(rest)
  {
    if front == "" {
      assert EncodeSpaces(front) + rest == rest;
    } else {
      SpacesAreShort(front[0]);
      var e, more := EncodeRune(front[0]), EncodeSpaces(front[1..]) + rest;
      hide IsSpace, EncodeRune, SpaceInFront, SpaceAtEnd;
      SpaceIsSeen(front[0], more);
      assert EncodeSpaces(front) + rest == e + more && (e + more)[|e|..] == more;
      FrontIsTrimmed(front[1..], rest);
    }
  }

  lemma EncodeFirst(cs: string)
    requires AllSpace(cs) && cs != ""
    ensures cs[0] < '\U{10000}' && AllSpace(cs[1..])
    ensures EncodeSpaces(cs) == EncodeRune(cs[0]) + EncodeSpaces(cs[1..])
  {
    hide IsSpace, EncodeRune;
    SpacesAreShort(cs[0]);
  }

  lemma FrontIsSpace(cs: string)
    requires AllSpace(cs) && cs != ""
    ensures AllSpace(cs[..|cs| - 1])
    ensures cs[|cs| - 1] < '\U{10000}' && IsSpace(cs[|cs| - 1])
  {
    SpacesAreShort(cs[|cs| - 1]);
  }

  lemma {:induction false} EncodeLast(cs: string)
    requires AllSpace(cs) && cs != ""
    ensures AllSpace(cs[..|cs| - 1]) && cs[|cs| - 1] < '\U{10000}' && IsSpace(cs[|cs| - 1])
    ensures EncodeSpaces(cs) == EncodeSpaces(cs[..|cs| - 1]) + EncodeRune(cs[|cs| - 1])
  {
    FrontIsSpace(cs);
    EncodeFirst(cs);
    if |cs| == 1 {
      assert cs[1..] == "" && cs[..0] == "";
    } else {
      var init := cs[..|cs| - 1];
      EncodeFirst(init);
      hide IsSpace, EncodeRune, EncodeSpaces, AllSpace;
      EncodeLast(cs[1..]);
      assert cs[1..][..|cs| - 2] == init[1..] && init[0] == cs[0];
    }
  }

  /** What does not begin with white space does not because of white space behind it. */
  lemma StillNoSpace(core: string, back: string)
    requires core != "" && SpaceInFront(core) == 0 && AllSpace(back)
    ensures SpaceInFront(core + EncodeSpaces(back)) == 0
  {
    var s := core + EncodeSpaces(back);
    if back == "" {
      assert s == core;
    } else {
      BeginsFresh(back);
      hide IsSpace;
      assert s[0] == core[0] && (|core| > 1 ==> s[1] == core[1]) && (|core| > 2 ==> s[2] == core[2]);
      assert |core| < 3 ==> s[|core|] == EncodeSpaces(back)[0];
      if |s| >= 2 {
        SpaceBytes(s[0], s[1], if |s| > 2 then s[2] else ' ');
      }
    }
  }

  lemma BeginsFresh(cs: string)
    requires AllSpace(cs) && cs != ""
    ensures EncodeSpaces(cs) != "" && !Continuation(EncodeSpaces(cs)[0])
  {
    EncodedSpace(cs[0]);
    hide IsSpace;
    var e := EncodeRune(cs[0]);
    if |e| >= 2 {
      SpaceBytes(e[0], e[1], if |e| == 3 then e[2] else ' ');
    }
  }

  lemma {:induction false} BackIsTrimmed(core: string, back: string)
    requires core != "" && SpaceInFront(core) == 0 && SpaceAtEnd(core) == 0 && AllSpace(back)
    ensures TrimSpaceBytes(core + EncodeSpaces(back)) == core
    decreases |back|
  {
    if back == "" {
      assert core + EncodeSpaces(back) == core;
    } else {
      hide IsSpace, EncodeRune, SpaceInFront, SpaceAtEnd, EncodeSpaces, AllSpace;
      StillNoSpace(core, back);
      EncodeLast(back);
      var init, last := back[..|back| - 1], back[|back| - 1];
      var shorter := core + EncodeSpaces(init);
      SpaceIsSeen(last, shorter);
      assert core + EncodeSpaces(back) == shorter + EncodeRune(last);
      assert (shorter + EncodeRune(last))[..|shorter|] == shorter;
      BackIsTrimmed(core, init);
    }
  }

  /** White space around a text is trimmed, all of it and nothing else. */
  lemma PaddingIsTrimmed(front: string, core: string, back: string)
    requires AllSpace(front) && AllSpace(back) && SpaceInFront(core) == 0 && SpaceAtEnd(core) == 0
    ensures TrimSpaceBytes(EncodeSpaces(front) + (core + EncodeSpaces(back))) == core
  {
    hide TrimSpaceBytes, SpaceInFront, SpaceAtEnd, EncodeSpaces, AllSpace;
    FrontIsTrimmed(front, core + EncodeSpaces(back));
    if core == "" {
      OnlySpace(back);
    } else {
      BackIsTrimmed(core, back);
    }
  }

  lemma OnlySpace(cs: string)
    requires AllSpace(cs)
    ensures TrimSpaceBytes("" + EncodeSpaces(cs)) == ""
  {
    assert EncodeSpaces(cs) + "" == "" + EncodeSpaces(cs);
    FrontIsTrimmed(cs, "");
  }
}
