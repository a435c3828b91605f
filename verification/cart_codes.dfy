/**
 Discount code texts: how the executor makes them and how the attributor recognises them.
 */
module CartCodes {
  import opened Text

  predicate HexUpper(s: string) {
    forall c :: c in s ==> '0' <= c <= '9' || 'A' <= c <= 'F'
  }

  function HexDigit(n: nat): (c: char)
    requires n < 16
    ensures HexUpper([c])
  {
    "0123456789ABCDEF"[n]
  }

  /** Two random bytes, hex encoded in upper case. */
  function RandomSuffix(hi: nat, lo: nat): (s: string)
    requires hi < 256 && lo < 256
    ensures |s| == 4 && HexUpper(s)
  {
    [HexDigit(hi / 16), HexDigit(hi % 16), HexDigit(lo / 16), HexDigit(lo % 16)]
  }

  function ValueOfDigit(c: char): int {
    if c <= '9' then c as int - '0' as int else c as int - 'A' as int + 10
  }

  /** A suffix says which bytes were drawn. */
  lemma SuffixTellsBytes(hi: nat, lo: nat)
    requires hi < 256 && lo < 256
    ensures var s := RandomSuffix(hi, lo);
            16 * ValueOfDigit(s[0]) + ValueOfDigit(s[1]) == hi && 16 * ValueOfDigit(s[2]) + ValueOfDigit(s[3]) == lo
  {
    DigitValue(hi / 16);
    DigitValue(hi % 16);
    DigitValue(lo / 16);
    DigitValue(lo % 16);
  }

  lemma DigitValue(n: nat)
    requires n < 16
    ensures ValueOfDigit(HexDigit(n)) == n
  {
    var digits := "0123456789ABCDEF";
    assert digits[n] == if n < 10 then (n + '0' as int) as char else (n - 10 + 'A' as int) as char;
  }

  function GenerateCodePrefix(hi: nat, lo: nat): string
    requires hi < 256 && lo < 256
  {
    "RECOVER-" + RandomSuffix(hi, lo)
  }

  /** The campaign part of a code, or "" if the code is not one of ours. */
  function ExtractCodePrefix(code: string): string {
    if !HasPrefix(ToUpper(code), "RECOVER-") then ""
    else
      var parts := Split(code, '-');
      if |parts| < 3 then (if |parts| == 2 then ToUpper(code) else "")
      else parts[0] + "-" + parts[1]
  }

  /** The filter lets exactly the codes through that start with RECOVER- in any case. */
  lemma PrefixFilter(code: string)
    ensures ExtractCodePrefix(code) != "" <==> HasPrefix(ToUpper(code), "RECOVER-")
  {
    if HasPrefix(ToUpper(code), "RECOVER-") {
      var upper := ToUpper(code);
      assert upper[..8] == "RECOVER-";
      assert forall i :: 0 <= i < 8 ==> upper[i] == "RECOVER-"[i];
      assert forall i :: 0 <= i < 7 ==> code[i] != '-';
      assert upper[7] == UpperChar(code[7]) && code[7] == '-';
      assert code == code[..7] + ['-'] + code[8..];
      SplitFirst(code[..7], code[8..], '-');
    }
  }

  /** Whatever suffix is drawn, the attributor reads back the prefix of the campaign that issued the code. */
  lemma IssuedCodeIsRecognised(hi: nat, lo: nat, hi': nat, lo': nat)
    requires hi < 256 && lo < 256 && hi' < 256 && lo' < 256
    ensures var prefix, code := GenerateCodePrefix(hi, lo), GenerateCodePrefix(hi, lo) + "-" + RandomSuffix(hi', lo');
            Trim(code) == code && ExtractCodePrefix(code) == prefix
  {
    var mid, end := RandomSuffix(hi, lo), RandomSuffix(hi', lo');
    var code := GenerateCodePrefix(hi, lo) + "-" + end;
    assert code == "RECOVER" + ['-'] + (mid + ['-'] + end);
    SplitFirst("RECOVER", mid + ['-'] + end, '-');
    SplitFirst(mid, end, '-');
    SplitPlain(end, '-');
    assert Split(code, '-') == ["RECOVER", mid, end];
    assert forall i :: 0 <= i < 8 ==> ToUpper(code)[i] == "RECOVER-"[i];
    assert ToUpper(code)[..8] == "RECOVER-";
    assert end[3] in end && code[|code| - 1] == end[3];
    TrimOfTrimmed(code);
    assert "RECOVER" + "-" + mid == GenerateCodePrefix(hi, lo);
  }
}
