/**
 Decimal text, written and read by hand: itoa (gateway) and parseInt (review analytics). Go's int is
 modelled as a 64-bit two's complement integer.
 */
module Decimal {
  import Arithmetic

  const MIN: int := -0x8000_0000_0000_0000
  const MAX: int := 0x7fff_ffff_ffff_ffff

  predicate IsInt64(n: int) {
    MIN <= n <= MAX
  }

  /** Reduce to 64 bits, as Go's arithmetic does. */
  function Wrap(n: int): (r: int)
    ensures IsInt64(r)
    ensures IsInt64(n) ==> r == n
  {
    (n - MIN) % 0x1_0000_0000_0000_0000 + MIN
  }

  predicate IsDigit(c: char) {
    '0' <= c <= '9'
  }

  function DigitChar(d: nat): (c: char)
    requires d < 10
    ensures IsDigit(c) && DigitValue(c) == d
  {
    '0' + d as char
  }

  function DigitValue(c: char): (d: nat)
    requires IsDigit(c)
    ensures d < 10
  {
    (c - '0') as nat
  }

  /** Decimal digits of n, without leading zeros. */
  function Digits(n: nat): (s: string)
    ensures |s| >= 1
    ensures forall c :: c in s ==> IsDigit(c)
    ensures n > 0 ==> s[0] != '0'
  {
    if n < 10 then [DigitChar(n)] else Digits(n / 10) + [DigitChar(n % 10)]
  }

  /** The number that a digit string stands for. */
  function Value(s: string): nat
    requires forall c :: c in s ==> IsDigit(c)
  {
    if s == "" then 0 else Value(s[..|s| - 1]) * 10 + DigitValue(s[|s| - 1])
  }

  lemma {:induction false} ValueOfDigits(n: nat)
    ensures Value(Digits(n)) == n
  {
    if n >= 10 {
      ValueOfDigits(n / 10);
      var s := Digits(n);
      assert s[..|s| - 1] == Digits(n / 10);
    } else {
      assert Digits(n)[..0] == "";
    }
  }

  /** Canonical decimal text of an integer. */
  function Decimal(n: int): string {
    if n < 0 then "-" + Digits(-n) else Digits(n)
  }

  lemma DigitsInjective(m: nat, n: nat)
    requires Digits(m) == Digits(n)
    ensures m == n
  {
    ValueOfDigits(m);
    ValueOfDigits(n);
  }

  /**
   itoa of the gateway. For every 64-bit integer but the smallest it writes the canonical text; the
   smallest is its own negation, so the digit loop never runs and only the sign comes out.
   */
  method Itoa(number: int) returns (s: string)
    requires IsInt64(number)
    ensures number != MIN ==> s == Decimal(number)
    ensures number == MIN ==> s == "-"
  {
    if number == 0 {
      return "0";
    }
    var n, digits := number, "";
    var neg := n < 0;
    if neg {
      n := Wrap(-n);
    }
    ghost var start := n;
    while n > 0
      invariant n >= 0 || n == start == MIN
      invariant start > 0 ==> n <= start
      invariant start <= 0 ==> n == start && digits == ""
      invariant start > 0 ==> Digits(start) == if n == 0 then digits else Digits(n) + digits
      decreases n
    {
      if n < 10 {
        assert n / 10 == 0 && n % 10 == n;
        assert Digits(n) == [DigitChar(n % 10)];
      } else {
        assert Digits(n) + digits == Digits(n / 10) + ([DigitChar(n % 10)] + digits);
      }
      digits := [DigitChar(n % 10)] + digits;
      n := n / 10;
    }
    if neg {
      digits := "-" + digits;
    }
    return digits;
  }

  /** Read a signed decimal text back. */
  function ReadSigned(s: string): (n: int)
    requires s != "" && (forall i :: 1 <= i < |s| ==> IsDigit(s[i])) && (s[0] == '-' || IsDigit(s[0]))
  {
    if s[0] == '-' then -(Value(s[1..]) as int) else Value(s)
  }

  lemma ReadNegative(n: nat)
    requires n > 0
    ensures var s := "-" + Digits(n); (forall i :: 1 <= i < |s| ==> IsDigit(s[i])) && ReadSigned(s) == -(n as int)
  {
    hide Digits;
    var s := "-" + Digits(n);
    ValueOfDigits(n);
    assert s[1..] == Digits(n);
    assert forall i :: 1 <= i < |s| ==> s[i] == Digits(n)[i - 1] && s[i] in Digits(n);
  }

  lemma ReadNatural(n: nat)
    ensures var s := Digits(n); (forall i :: 0 <= i < |s| ==> IsDigit(s[i])) && ReadSigned(s) == n
  {
    hide Digits;
    ValueOfDigits(n);
    assert Digits(n)[0] in Digits(n);
  }

  /** Reading the canonical text gives the number back. */
  lemma ReadBack(n: int)
    ensures var s := Decimal(n);
            && s != "" && (forall i :: 1 <= i < |s| ==> IsDigit(s[i])) && (s[0] == '-' || IsDigit(s[0]))
            && ReadSigned(s) == n
  {
    hide Digits, ReadSigned;
    if n < 0 {
      ReadNegative(-n);
    } else {
      ReadNatural(n);
    }
  }

  // ---------- reading ----------

  /** How many digits stand at the front of a text. */
  function LeadingDigits(s: string): (k: nat)
    ensures k <= |s|
    ensures forall i :: 0 <= i < k ==> IsDigit(s[i])
    ensures k < |s| ==> !IsDigit(s[k])
  {
    if s == "" || !IsDigit(s[0]) then 0 else
      assert forall i :: 0 <= i < |s| - 1 ==> s[1..][i] == s[i + 1];
      1 + LeadingDigits(s[1..])
  }

  /** The number in front of a text, as 64-bit arithmetic accumulates it: 0 if there is none. */
  function Prefix(s: string): int {
    Wrap(Value(s[..LeadingDigits(s)]))
  }

  /** Multiply-and-add under wrap-around stays the wrapped value of the digits read. */
  lemma WrapStep(v: nat, d: nat)
    requires d < 10
    ensures Wrap(Wrap(v) * 10 + d) == Wrap(v * 10 + d)
  {
    var m := 0x1_0000_0000_0000_0000;
    var q := (v - MIN) / m;
    assert Wrap(v) == v - q * m;
    assert Wrap(v) * 10 + d - MIN == (v * 10 + d - MIN) + (-q * 10) * m;
    Arithmetic.ModShift(v * 10 + d - MIN, -q * 10, m);
  }

  lemma ValueStep(s: string, j: nat)
    requires j < |s| && forall i :: 0 <= i <= j ==> IsDigit(s[i])
    ensures Value(s[..j + 1]) == Value(s[..j]) * 10 + DigitValue(s[j])
  {
    assert s[..j + 1][..j] == s[..j];
  }

  /** parseInt of the review analytics: the number in front of "30d", wrapped to 64 bits. */
  method ParseInt(s: string) returns (n: int)
    ensures n == Prefix(s)
  {
    n := 0;
    var i := 0;
    while i < |s|
      invariant 0 <= i <= |s| && (forall j :: 0 <= j < i ==> IsDigit(s[j]))
      invariant n == Wrap(Value(s[..i]))
    {
      if s[i] < '0' || s[i] > '9' {
        break;
      }
      ValueStep(s, i);
      WrapStep(Value(s[..i]), DigitValue(s[i]));
      n := Wrap(n * 10 + DigitValue(s[i]));
      i := i + 1;
    }
    assert i == LeadingDigits(s);
  }

  /** A number printed in front of a text that does not go on with a digit is read back. */
  lemma PrefixOfPrinted(n: nat, tail: string)
    requires n <= MAX && (tail == "" || !IsDigit(tail[0]))
    ensures Prefix(Digits(n) + tail) == n
    ensures LeadingDigits(Digits(n) + tail) == |Digits(n)|
  {
    var s := Digits(n) + tail;
    var k := LeadingDigits(s);
    assert forall i :: 0 <= i < |Digits(n)| ==> s[i] == Digits(n)[i] && s[i] in Digits(n);
    if tail != "" {
      assert s[|Digits(n)|] == tail[0];
    }
    assert k == |Digits(n)|;
    assert s[..k] == Digits(n);
    ValueOfDigits(n);
  }

  /** parseInt reads "<n>d" as n. */
  lemma ParseIntOfDays(n: nat)
    requires n <= MAX
    ensures Prefix(Decimal(n) + "d") == n
  {
    PrefixOfPrinted(n, "d");
  }
}
