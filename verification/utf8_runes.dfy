/**
 UTF-8 (section 3 of RFC 3629) as the partner of the decoder behind strings.ToLower: what is encoded is
 taken as one rune, nothing else is, and this is what each rune becomes.
 */
module Utf8Runes {
  import opened Text
  import opened Utf8

  /** The UTF-8 encoding of a character. */
  function EncodeRune(c: char): (r: string)
    ensures 1 <= |r| <= 4
  {
    var n := c as int;
    if n < 0x80 then [c]
    else if n < 0x800 then [(0xC0 + n / 64) as char, (0x80 + n % 64) as char]
    else if n < 0x10000 then [(0xE0 + n / 4096) as char, (0x80 + n / 64 % 64) as char, (0x80 + n % 64) as char]
    else [(0xF0 + n / 262144) as char, (0x80 + n / 4096 % 64) as char, (0x80 + n / 64 % 64) as char, (0x80 + n % 64) as char]
  }

  lemma EncodedTwo(c: char, s: string)
    requires 0x80 <= c as int < 0x800 && EncodeRune(c) <= s
    ensures RuneLen(s) == 2
  {
    var n, e := c as int, EncodeRune(c);
    assert s[0] == e[0] && s[1] == e[1];
    assert 2 <= n / 64 < 32 && 0 <= n % 64 < 64;
  }

  /** The second byte is cut short behind E0 and ED, where shorter encodings and surrogates would be. */
  lemma SecondOfThree(n: int)
    requires 0x800 <= n < 0x10000 && !(0xD800 <= n < 0xE000)
    ensures 0 <= n / 4096 < 16 && 0 <= n / 64 % 64 < 64 && 0 <= n % 64 < 64
    ensures n / 4096 == 0 ==> n / 64 % 64 >= 32
    ensures n / 4096 == 13 ==> n / 64 % 64 < 32
  {
    if n / 4096 == 0 {
      assert n / 64 < 64;
    } else if n / 4096 == 13 {
      assert 832 <= n / 64 < 864;
    }
  }

  lemma EncodedThree(c: char, s: string)
    requires 0x800 <= c as int < 0x10000 && EncodeRune(c) <= s
    ensures RuneLen(s) == 3
  {
    var e := EncodeRune(c);
    assert s[0] == e[0] && s[1] == e[1] && s[2] == e[2];
    SecondOfThree(c as int);
  }

  /** And behind F0 and F4, where shorter encodings and characters beyond the last would be. */
  lemma SecondOfFour(n: int)
    requires 0x10000 <= n < 0x110000
    ensures 0 <= n / 262144 <= 4 && 0 <= n / 4096 % 64 < 64 && 0 <= n / 64 % 64 < 64 && 0 <= n % 64 < 64
    ensures n / 262144 == 0 ==> n / 4096 % 64 >= 16
    ensures n / 262144 == 4 ==> n / 4096 % 64 < 16
  {
    if n / 262144 == 0 {
      assert 16 <= n / 4096 < 64;
    } else if n / 262144 == 4 {
      assert 256 <= n / 4096 < 272;
    }
  }

  lemma EncodedFour(c: char, s: string)
    requires 0x10000 <= c as int && EncodeRune(c) <= s
    ensures RuneLen(s) == 4
  {
    var e := EncodeRune(c);
    assert s[0] == e[0] && s[1] == e[1] && s[2] == e[2] && s[3] == e[3];
    SecondOfFour(c as int);
  }

  /** An encoded character is taken as one rune, whatever follows. */
  lemma EncodedIsOneRune(c: char, rest: string)
    ensures RuneLen(EncodeRune(c) + rest) == |EncodeRune(c)|
  {
    var s := EncodeRune(c) + rest;
    assert EncodeRune(c) <= s;
    if c as int >= 0x10000 {
      EncodedFour(c, s);
    } else if c as int >= 0x800 {
      EncodedThree(c, s);
    } else if c as int >= 0x80 {
      EncodedTwo(c, s);
    }
  }

  lemma QuotientsOfTwo(a: int, b: int)
    requires 0 <= a && 0 <= b < 64
    ensures (64 * a + b) / 64 == a && (64 * a + b) % 64 == b
  {
  }

  lemma QuotientsOfThree(a: int, b: int, d: int)
    requires 0 <= a && 0 <= b < 64 && 0 <= d < 64
    ensures var n := 4096 * a + 64 * b + d; n / 4096 == a && n / 64 % 64 == b && n % 64 == d
  {
    assert 4096 * a + 64 * b + d == 64 * (64 * a + b) + d;
    QuotientsOfTwo(64 * a + b, d);
    QuotientsOfTwo(a, b);
  }

  lemma QuotientsOfFour(a: int, b: int, d: int, e: int)
    requires 0 <= a && 0 <= b < 64 && 0 <= d < 64 && 0 <= e < 64
    ensures var n := 262144 * a + 4096 * b + 64 * d + e;
            n / 262144 == a && n / 4096 % 64 == b && n / 64 % 64 == d && n % 64 == e
  {
    var m := 64 * a + b;
    assert 262144 * a + 4096 * b + 64 * d + e == 4096 * m + 64 * d + e;
    QuotientsOfThree(m, d, e);
    QuotientsOfTwo(a, b);
  }

  lemma DecodeTwo(s: string) returns (c: char)
    requires s != "" && RuneLen(s) == 2
    ensures s[..2] == EncodeRune(c)
  {
    var a, b := s[0] as int - 0xC0, s[1] as int - 0x80;
    QuotientsOfTwo(a, b);
    c := (64 * a + b) as char;
    assert s[..2] == [s[0], s[1]];
  }

  lemma DecodeThree(s: string) returns (c: char)
    requires s != "" && RuneLen(s) == 3
    ensures s[..3] == EncodeRune(c)
  {
    var a, b, d := s[0] as int - 0xE0, s[1] as int - 0x80, s[2] as int - 0x80;
    QuotientsOfThree(a, b, d);
    c := (4096 * a + 64 * b + d) as char;
    assert s[..3] == [s[0], s[1], s[2]];
  }

  lemma DecodeFour(s: string) returns (c: char)
    requires s != "" && RuneLen(s) == 4
    ensures s[..4] == EncodeRune(c)
  {
    var a, b, d, e := s[0] as int - 0xF0, s[1] as int - 0x80, s[2] as int - 0x80, s[3] as int - 0x80;
    QuotientsOfFour(a, b, d, e);
    c := (262144 * a + 4096 * b + 64 * d + e) as char;
    assert s[..4] == [s[0], s[1], s[2], s[3]];
  }

  /** Conversely, several bytes are taken as one rune only if they are the encoding of a character. */
  lemma OneRuneIsEncoded(s: string) returns (c: char)
    requires s != "" && RuneLen(s) > 1
    ensures s[..RuneLen(s)] == EncodeRune(c)
  {
    if RuneLen(s) == 2 {
      c := DecodeTwo(s);
    } else if RuneLen(s) == 3 {
      c := DecodeThree(s);
    } else {
      c := DecodeFour(s);
    }
  }

  // ---------- lower case ----------

  /** ASCII letters go down in pairs, other ASCII stays. */
  lemma LowerChars(c: char)
    ensures forall i :: 0 <= i < 26 ==> LowerChar(UPPERS[i]) == LOWERS[i]
    ensures c !in UPPERS ==> LowerChar(c) == c
  {
    AlphabetsInOrder();
    ThreeAlphabets(c);
  }

  lemma ShrinkingRunes()
    ensures EncodeRune('\U{130}') == "\U{C4}\U{B0}" && EncodeRune('\U{212A}') == "\U{E2}\U{84}\U{AA}"
    ensures EncodeRune('\U{FFFD}') == "\U{EF}\U{BF}\U{BD}"
  {
  }

  lemma TakeFront(front: string, rest: string, n: nat)
    requires n == |front|
    ensures (front + rest)[..n] == front && (front + rest)[n..] == rest
  {
  }

  lemma OnlyDottedCapital(c: char)
    requires EncodeRune(c) == "\U{C4}\U{B0}"
    ensures c == '\U{130}'
  {
    var n := c as int;
    assert |EncodeRune(c)| == 2 && EncodeRune(c)[0] as int == 0xC4 && EncodeRune(c)[1] as int == 0xB0;
    assert n / 64 == 4 && n % 64 == 48;
  }

  lemma OnlyKelvin(c: char)
    requires EncodeRune(c) == "\U{E2}\U{84}\U{AA}"
    ensures c == '\U{212A}'
  {
    var n := c as int;
    var e := EncodeRune(c);
    assert |e| == 3 && e[0] as int == 0xE2 && e[1] as int == 0x84 && e[2] as int == 0xAA;
    var m := n / 64;
    assert m / 64 == n / 4096 && n == 64 * m + n % 64 && m == 64 * (m / 64) + m % 64;
  }

  /**
   What a character becomes: ASCII its lower case, U+0130 and U+212A the letters i and k, any other what the
   table says.
   */
  lemma RuneIsLowered(c: char, rest: string, table: string -> string)
    ensures ToLower(EncodeRune(c) + rest, table) ==
              (if c < '\U{80}' then [LowerChar(c)]
               else if c == '\U{130}' then "i"
               else if c == '\U{212A}' then "k"
               else table(EncodeRune(c))) + ToLower(rest, table)
  {
    hide RuneLen, EncodeRune;
    var e := EncodeRune(c);
    EncodedIsOneRune(c, rest);
    TakeFront(e, rest, RuneLen(e + rest));
    ShrinkingRunes();
    LongUnlessASCII(c);
    if e == EncodeRune('\U{130}') {
      OnlyDottedCapital(c);
    }
    if e == EncodeRune('\U{212A}') {
      OnlyKelvin(c);
    }
  }

  lemma LongUnlessASCII(c: char)
    ensures if c < '\U{80}' then EncodeRune(c) == [c] else |EncodeRune(c)| > 1
  {
  }

  /** A byte that begins no encoding becomes U+FFFD. */
  lemma StrayByteIsReplaced(s: string, table: string -> string)
    requires s != "" && RuneLen(s) == 1 && s[0] >= '\U{80}'
    ensures ToLower(s, table) == EncodeRune('\U{FFFD}') + ToLower(s[1..], table)
  {
    ShrinkingRunes();
    hide RuneLen, EncodeRune;
    assert s[..1] == [s[0]];
  }
}
