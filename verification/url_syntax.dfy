/**
 What net/url's parser accepts in front of the query: an optional scheme, an authority behind two slashes,
 and a path whose escapes are complete. Strings are sequences of bytes.
 */
module URLSyntax {
  import opened QueryString
  import opened Text

  predicate Control(c: char) {
    c < ' ' || c == '\U{7F}'
  }

  predicate HasControl(s: string) {
    exists i :: 0 <= i < |s| && Control(s[i])
  }

  /** Every '%' begins a complete escape. */
  predicate ValidEscapes(s: string) {
    forall i :: 0 <= i < |s| && s[i] == '%' ==> i + 2 < |s| && HexValue(s[i + 1]).Some? && HexValue(s[i + 2]).Some?
  }

  predicate Letter(c: char) {
    'a' <= c <= 'z' || 'A' <= c <= 'Z'
  }

  predicate SchemeChar(c: char) {
    Letter(c) || '0' <= c <= '9' || c == '+' || c == '-' || c == '.'
  }

  /** How many scheme characters the text begins with. */
  function SchemeChars(u: string): (k: nat)
    ensures k <= |u| && (k < |u| ==> !SchemeChar(u[k])) && forall i :: 0 <= i < k ==> SchemeChar(u[i])
  {
    if u == "" || !SchemeChar(u[0]) then 0
    else
      var k := SchemeChars(u[1..]);
      assert forall i :: 0 < i <= k ==> u[i] == u[1..][i - 1];
      1 + k
  }

  /** The length of the scheme, which a colon ends; 0 if there is none. */
  function Scheme(u: string): (k: nat)
    ensures k > 0 ==> k < |u| && u[k] == ':'
  {
    var k := SchemeChars(u);
    if u != "" && Letter(u[0]) && k < |u| && u[k] == ':' then k else 0
  }

  lemma SchemeEnds(u: string, k: nat)
    requires 0 < k < |u| && u[k] == ':' && Letter(u[0]) && forall i :: 0 <= i < k ==> SchemeChar(u[i])
    ensures Scheme(u) == k
  {
    assert !SchemeChar(u[k]);
  }

  /** What a host may hold besides bytes outside ASCII. */
  predicate HostChar(c: char) {
    Unreserved(c) || c >= '\U{80}' || c in "!$&'()*+,;=:[]<>\""
  }

  function ColonCount(s: string): nat {
    if s == "" then 0 else ColonCount(s[1..]) + if s[0] == ':' then 1 else 0
  }

  predicate AllDigits(s: string) {
    forall i :: 0 <= i < |s| ==> '0' <= s[i] <= '9'
  }

  predicate OddAuthority(authority: string) {
    '@' in authority || '[' in authority || ']' in authority || '%' in authority || ColonCount(authority) > 1
  }

  /** A host and an optional port of digits; `odd` decides the authorities with user, brackets, escapes or several colons. */
  predicate AuthorityOk(authority: string, odd: string -> bool) {
    if OddAuthority(authority) then odd(authority)
    else (forall i :: 0 <= i < |authority| ==> HostChar(authority[i])) && AllDigits(Behind(authority, ':'))
  }

  /** What precedes the query is accepted. */
  predicate Accepts(u: string, odd: string -> bool) {
    if u == "*" then true
    else if u != "" && u[0] == ':' then false
    else
      var rest := if Scheme(u) > 0 then u[Scheme(u) + 1..] else u;
      if !HasPrefix(rest, "/") then Scheme(u) > 0 || (':' !in Before(rest, '/') && ValidEscapes(rest))
      else if HasPrefix(rest, "//") && (Scheme(u) > 0 || !HasPrefix(rest, "///")) then
        var authority := Before(rest[2..], '/');
        AuthorityOk(authority, odd) && ValidEscapes(rest[2..][|authority|..])
      else ValidEscapes(rest)
  }

  // ---------- which characters ----------

  lemma URLCharacters(c: char)
    ensures Letter(c) <==> c in UPPERS || c in LOWERS
    ensures SchemeChar(c) <==> c in UPPERS || c in LOWERS || c in DIGITS || c in "+-."
    ensures c < '\U{80}' ==> (HostChar(c) <==> c in UPPERS || c in LOWERS || c in DIGITS || c in "-_.~!$&'()*+,;=:[]<>\"")
    ensures c >= '\U{80}' ==> HostChar(c)
    ensures Control(c) <==> c as int < 32 || c as int == 127
  {
    ThreeAlphabets(c);
    hide UPPERS, LOWERS, DIGITS;
  }

  // ---------- which URLs ----------

  predicate IsScheme(scheme: string) {
    scheme != "" && Letter(scheme[0]) && forall i :: 0 <= i < |scheme| ==> SchemeChar(scheme[i])
  }

  predicate NoOdd(s: string) {
    '@' !in s && '[' !in s && ']' !in s && '%' !in s && ':' !in s
  }

  lemma {:induction false} ColonsConcat(a: string, b: string)
    ensures ColonCount(a + b) == ColonCount(a) + ColonCount(b)
  {
    if a == "" {
      assert a + b == b;
    } else {
      assert (a + b)[1..] == a[1..] + b;
      ColonsConcat(a[1..], b);
    }
  }

  lemma {:induction false} NoColonCount(s: string)
    ensures ColonCount(s) == 0 <==> ':' !in s
  {
    if s != "" {
      NoColonCount(s[1..]);
    }
  }

  /** A host of host characters, alone or with a port of digits, is in order, and no other of the plain kind. */
  lemma HostAndPort(host: string, port: string, odd: string -> bool)
    requires NoOdd(host) && NoOdd(port)
    ensures AuthorityOk(host, odd) <==> forall i :: 0 <= i < |host| ==> HostChar(host[i])
    ensures AuthorityOk(host + ":" + port, odd) <==>
              (forall i :: 0 <= i < |host| ==> HostChar(host[i])) && forall i :: 0 <= i < |port| ==> port[i] in DIGITS
  {
    hide HostChar;
    NoColonCount(host);
    NoColonCount(port);
    CutNowhere(host, ':');
    PlainAuthority(host, port);
    var both := host + [':'] + port;
    assert host + ":" + port == both;
    CutAt(host, ':', port);
    ColonIsHostChar();
    forall i | 0 <= i < |port| ensures '0' <= port[i] <= '9' <==> port[i] in DIGITS {
      ThreeAlphabets(port[i]);
      hide DIGITS;
    }
    DigitsAreHostChars(port);
    assert forall i :: 0 <= i < |host| ==> both[i] == host[i];
    assert forall i :: 0 <= i < |port| ==> both[|host| + 1 + i] == port[i];
    assert forall i :: 0 <= i < |both| ==> i < |host| || i == |host| || both[i] == port[i - |host| - 1];
  }

  lemma ColonIsHostChar()
    ensures HostChar(':')
  {
  }

  lemma DigitsAreHostChars(port: string)
    ensures AllDigits(port) ==> forall i :: 0 <= i < |port| ==> HostChar(port[i])
  {
  }

  lemma PlainAuthority(host: string, port: string)
    requires NoOdd(host) && NoOdd(port)
    ensures !OddAuthority(host) && !OddAuthority(host + ":" + port)
  {
    var both := host + ":" + port;
    NoColonCount(host);
    NoColonCount(port);
    ColonsConcat(host + ":", port);
    ColonsConcat(host, ":");
    assert ColonCount(":") == 1;
    assert forall c :: c in both ==> c in host || c == ':' || c in port;
  }

  /** Any user, bracket or escape, and any second colon, leave the verdict to the parser. */
  lemma OddIsLeft(authority: string, odd: string -> bool)
    requires '@' in authority || '[' in authority || ']' in authority || '%' in authority
             || exists i, j :: 0 <= i < j < |authority| && authority[i] == authority[j] == ':'
    ensures AuthorityOk(authority, odd) <==> odd(authority)
  {
    if i, j :| 0 <= i < j < |authority| && authority[i] == authority[j] == ':' {
      assert authority == authority[..j] + authority[j..];
      ColonsConcat(authority[..j], authority[j..]);
      NoColonCount(authority[..j]);
      NoColonCount(authority[j..]);
      assert authority[..j][i] == ':' && authority[j..][0] == ':';
    }
  }

  lemma SchemeCut(scheme: string, rest: string)
    requires IsScheme(scheme)
    ensures var u := scheme + ":" + rest;
            u != "" && u != "*" && u[0] != ':' && Scheme(u) == |scheme| && u[|scheme| + 1..] == rest
  {
    var u := scheme + ":" + rest;
    assert u[|scheme|] == ':' && u[0] == scheme[0];
    assert forall i :: 0 <= i < |scheme| ==> u[i] == scheme[i];
    SchemeEnds(u, |scheme|);
  }

  /** A URL with scheme and authority is accepted exactly if its authority and the escapes of its path are. */
  lemma FullURL(scheme: string, authority: string, path: string, odd: string -> bool)
    requires IsScheme(scheme) && '/' !in authority && (path == "" || path[0] == '/')
    ensures Accepts(scheme + ":" + ("//" + (authority + path)), odd) <==> AuthorityOk(authority, odd) && ValidEscapes(path)
  {
    var rest := "//" + (authority + path);
    SchemeCut(scheme, rest);
    hide Before, Scheme, AuthorityOk, ValidEscapes, IsScheme;
    assert rest[..1] == "/" && rest[..2] == "//" && rest[2..] == authority + path;
    if path == "" {
      assert authority + path == authority;
      CutNowhere(authority, '/');
    } else {
      assert authority + path == authority + ['/'] + path[1..];
      CutAt(authority, '/', path[1..]);
    }
    assert (authority + path)[|authority|..] == path;
  }

  /** After a scheme a path without authority needs complete escapes, and anything else is taken as it is. */
  lemma SchemeOnly(scheme: string, rest: string, odd: string -> bool)
    requires IsScheme(scheme) && !HasPrefix(rest, "//")
    ensures Accepts(scheme + ":" + rest, odd) <==> (HasPrefix(rest, "/") ==> ValidEscapes(rest))
  {
    SchemeCut(scheme, rest);
    hide Before, Scheme, ValidEscapes, IsScheme;
  }

  lemma NoScheme(u: string)
    requires u == "" || !Letter(u[0]) || ':' !in u
    ensures Scheme(u) == 0
  {
  }

  /** A path alone needs complete escapes. */
  lemma PathOnly(path: string, odd: string -> bool)
    requires HasPrefix(path, "/") && (!HasPrefix(path, "//") || HasPrefix(path, "///"))
    ensures Accepts(path, odd) <==> ValidEscapes(path)
  {
    assert path[..1] == "/" && path[0] == '/';
    NoScheme(path);
    hide Before, Scheme, ValidEscapes;
  }

  /** So does a relative path, and its first segment must not have a colon unless a scheme ends there. */
  lemma RelativePath(u: string, odd: string -> bool)
    requires u == "" || (u[0] != '/' && (!Letter(u[0]) || ':' !in u))
    ensures u != "*" ==> (Accepts(u, odd) <==> ':' !in Before(u, '/') && ValidEscapes(u))
    ensures u == "*" ==> Accepts(u, odd)
  {
    NoScheme(u);
    hide Scheme, ValidEscapes;
    if u != "" && u[0] == ':' {
      assert Before(u, '/')[0] == ':';
    }
  }
}
