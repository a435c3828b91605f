/**
 Form encoding of query parameters, as net/url does it (and section 2.1 of RFC 3986 for the escapes).
 A string here is a sequence of bytes, each given as a character below 256.
 */
module QueryString {
  import opened Text
  import opened Utf8

  datatype Option<T> = None | Some(value: T)

  // ---------- escaping ----------

  /** Section 2.3 of RFC 3986. */
  predicate Unreserved(c: char) {
    'a' <= c <= 'z' || 'A' <= c <= 'Z' || '0' <= c <= '9' || c == '-' || c == '_' || c == '.' || c == '~'
  }

  const HEX := "0123456789ABCDEF"

  function HexValue(c: char): Option<nat> {
    if '0' <= c <= '9' then Some(c as int - '0' as int)
    else if 'A' <= c <= 'F' then Some(c as int - 'A' as int + 10)
    else if 'a' <= c <= 'f' then Some(c as int - 'a' as int + 10)
    else None
  }

  function EscapeByte(c: char): string
    requires c as int < 256
  {
    if Unreserved(c) then [c]
    else if c == ' ' then "+"
    else ['%', HEX[c as int / 16], HEX[c as int % 16]]
  }

  /** url.QueryEscape */
  function Escape(s: string): string
    requires Bytes(s)
  {
    if s == "" then "" else EscapeByte(s[0]) + Escape(s[1..])
  }

  /** The byte at the front of an escaped text, and how many characters it takes. */
  function Front(s: string): Option<(char, nat)>
    requires s != ""
  {
    if s[0] == '+' then Some((' ', 1))
    else if s[0] != '%' then Some((s[0], 1))
    else if |s| < 3 || HexValue(s[1]).None? || HexValue(s[2]).None? then None
    else Some(((16 * HexValue(s[1]).value + HexValue(s[2]).value) as char, 3))
  }

  /** url.QueryUnescape; an incomplete escape is an error. */
  function Unescape(s: string): Option<string> {
    if s == "" then Some("")
    else
      match Front(s)
      case None => None
      case Some((c, n)) =>
        assert 1 <= n <= |s|;
        match Unescape(s[n..])
        case None => None
        case Some(rest) => Some([c] + rest)
  }

  /** What escaped text consists of: in particular no '&', ';', '=', '#', '?' and no control character. */
  predicate Escaped(s: string) {
    forall i :: 0 <= i < |s| ==> Unreserved(s[i]) || s[i] == '+' || s[i] == '%'
  }

  lemma HexRoundTrip(n: nat)
    requires n < 16
    ensures HexValue(HEX[n]) == Some(n) && Unreserved(HEX[n])
  {
    if n < 10 {
      assert HEX[n] as int == '0' as int + n;
    } else {
      assert HEX[n] as int == 'A' as int + n - 10;
    }
  }

  /** The digits of either case stand for their values, and no other character is a digit. */
  lemma HexDigits(n: nat)
    requires n < 16
    ensures HexValue("0123456789ABCDEF"[n]) == Some(n) && HexValue("0123456789abcdef"[n]) == Some(n)
    ensures forall c :: HexValue(c).Some? ==> c == HEX[HexValue(c).value % 16] || c == "0123456789abcdef"[HexValue(c).value % 16]
  {
    var upper, lower := "0123456789ABCDEF", "0123456789abcdef";
    assert forall i :: 0 <= i < 16 ==> upper[i] == if i < 10 then (i + '0' as int) as char else (i - 10 + 'A' as int) as char;
    assert forall i :: 0 <= i < 16 ==> lower[i] == if i < 10 then (i + '0' as int) as char else (i - 10 + 'a' as int) as char;
  }

  /** What needs no escape: letters, digits and four signs. */
  lemma UnreservedCharacters(c: char)
    ensures Unreserved(c) <==> c in UPPERS || c in LOWERS || c in DIGITS || c in "-_.~"
  {
    ThreeAlphabets(c);
  }

  lemma FrontOfEscape(c: char, rest: string)
    requires c as int < 256
    ensures var e := EscapeByte(c);
            && Escaped(e) && e != "" && Front(e + rest) == Some((c, |e|)) && (e + rest)[|e|..] == rest
  {
    var e, n := EscapeByte(c), c as int;
    HexRoundTrip(n / 16);
    HexRoundTrip(n % 16);
    assert forall i :: 0 <= i < |e| ==> (e + rest)[i] == e[i];
  }

  lemma {:induction false} UnescapeUndoesEscape(s: string)
    requires Bytes(s)
    ensures Unescape(Escape(s)) == Some(s) && Escaped(Escape(s))
  {
    if s != "" {
      hide Front, EscapeByte, Unreserved;
      UnescapeUndoesEscape(s[1..]);
      FrontOfEscape(s[0], Escape(s[1..]));
      assert s == [s[0]] + s[1..];
    }
  }

  // ---------- parameters ----------

  datatype Param = Param(key: string, value: string)

  /** Params.Encode, given the parameters in the order of their keys. */
  function EncodeParam(p: Param): string
    requires Bytes(p.key) && Bytes(p.value)
  {
    Escape(p.key) + "=" + Escape(p.value)
  }

  predicate AllBytes(ps: seq<Param>) {
    forall i :: 0 <= i < |ps| ==> Bytes(ps[i].key) && Bytes(ps[i].value)
  }

  function Encode(ps: seq<Param>): string
    requires AllBytes(ps)
  {
    if ps == [] then ""
    else if |ps| == 1 then EncodeParam(ps[0])
    else EncodeParam(ps[0]) + "&" + Encode(ps[1..])
  }

  /** One piece between two '&'; pieces that are empty, have a ';' or a broken escape are skipped. */
  function ParsePiece(piece: string): seq<Param> {
    if piece == "" || ';' in piece then []
    else
      var key, value := Unescape(Before(piece, '=')), Unescape(Behind(piece, '='));
      if key.None? || value.None? then [] else [Param(key.value, value.value)]
  }

  /** url.ParseQuery, keeping what it could read. */
  function Parse(query: string): seq<Param>
    decreases |query|
  {
    if query == "" then [] else ParsePiece(Before(query, '&')) + Parse(Behind(query, '&'))
  }

  /** Values.Get: the first value of the key, or nothing. */
  function Get(ps: seq<Param>, key: string): string {
    if ps == [] then "" else if ps[0].key == key then ps[0].value else Get(ps[1..], key)
  }

  lemma EscapedHas(s: string, c: char)
    requires Escaped(s) && !Unreserved(c) && c != '+' && c != '%'
    ensures c !in s
  {
  }

  lemma PieceReadsBack(p: Param)
    requires Bytes(p.key) && Bytes(p.value)
    ensures ParsePiece(EncodeParam(p)) == [p] && '&' !in EncodeParam(p) && EncodeParam(p) != ""
  {
    hide Escape, Unescape, Escaped, Before, Behind;
    var key, value := Escape(p.key), Escape(p.value);
    UnescapeUndoesEscape(p.key);
    UnescapeUndoesEscape(p.value);
    EscapedHas(key, '=');
    EscapedHas(key, '&');
    EscapedHas(key, ';');
    EscapedHas(value, '&');
    EscapedHas(value, ';');
    assert EncodeParam(p) == key + ['='] + value;
    CutAt(key, '=', value);
  }

  /** Any list of parameters, whatever bytes they hold, is read back from its encoding as it was. */
  lemma {:induction false} ParseUndoesEncode(ps: seq<Param>)
    requires AllBytes(ps)
    ensures Parse(Encode(ps)) == ps
  {
    if ps != [] {
      hide ParsePiece, EncodeParam, Before, Behind;
      var piece := EncodeParam(ps[0]);
      PieceReadsBack(ps[0]);
      if |ps| == 1 {
        CutNowhere(piece, '&');
        assert Parse("") == [];
      } else {
        ParseUndoesEncode(ps[1..]);
        CutAt(piece, '&', Encode(ps[1..]));
        assert Encode(ps) == piece + ['&'] + Encode(ps[1..]);
        assert ps == [ps[0]] + ps[1..];
      }
    }
  }

  /** Empty pieces, and pieces with a ';' or a broken escape, are passed over and the rest is read. */
  lemma BadPiecesAreSkipped(piece: string, rest: string)
    requires '&' !in piece
    requires piece == "" || ';' in piece || Unescape(Before(piece, '=')).None? || Unescape(Behind(piece, '=')).None?
    ensures Parse(piece + "&" + rest) == Parse(rest)
  {
    hide Unescape, Before, Behind;
    assert piece + "&" + rest == piece + ['&'] + rest;
    CutAt(piece, '&', rest);
  }

  predicate QuerySafe(s: string) {
    forall i :: 0 <= i < |s| ==> Unreserved(s[i]) || s[i] in "+%=&"
  }

  lemma SafeConcat(a: string, b: string)
    requires QuerySafe(a) && QuerySafe(b)
    ensures QuerySafe(a + b)
  {
    hide Unreserved;
    assert forall i :: 0 <= i < |a| ==> (a + b)[i] == a[i];
    assert forall i :: |a| <= i < |a + b| ==> (a + b)[i] == b[i - |a|];
  }

  lemma EscapedIsSafe(s: string)
    requires Escaped(s)
    ensures QuerySafe(s) && QuerySafe("=") && QuerySafe("&")
  {
    hide Unreserved;
  }

  lemma ParamIsSafe(p: Param)
    requires Bytes(p.key) && Bytes(p.value)
    ensures QuerySafe(EncodeParam(p)) && QuerySafe("&")
  {
    hide Escape, Escaped, QuerySafe;
    UnescapeUndoesEscape(p.key);
    UnescapeUndoesEscape(p.value);
    EscapedIsSafe(Escape(p.key));
    EscapedIsSafe(Escape(p.value));
    SafeConcat(Escape(p.key), "=");
    SafeConcat(Escape(p.key) + "=", Escape(p.value));
  }

  lemma {:induction false} EncodedIsSafe(ps: seq<Param>)
    requires AllBytes(ps)
    ensures QuerySafe(Encode(ps))
  {
    if ps != [] {
      hide EncodeParam, QuerySafe;
      ParamIsSafe(ps[0]);
      EncodedIsSafe(ps[1..]);
      SafeConcat(EncodeParam(ps[0]), "&");
      SafeConcat(EncodeParam(ps[0]) + "&", Encode(ps[1..]));
    }
  }
}
