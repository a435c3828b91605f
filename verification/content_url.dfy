/**
 The tagged product URL a content piece is published with, and reading its short id back from the
 landing page of an order. Strings are sequences of bytes.
 */
module ContentURL {
  import opened QueryString
  import opened URLSyntax
  import opened Text
  import opened Utf8
  import Slug

  // ---------- building ----------

  function MediumOf(contentType: string): string {
    if contentType == "desc" then "product_desc" else contentType
  }

  function Base(shopDomain: string, handle: string): string {
    "https://" + shopDomain + "/products/" + handle
  }

  /** The order of strings: byte by byte, a prefix before what it begins. */
  predicate Less(a: string, b: string) {
    b != "" && (a == "" || a[0] < b[0] || (a[0] == b[0] && Less(a[1..], b[1..])))
  }

  /** Put a parameter behind all that have no greater key. */
  function Insert(p: Param, ps: seq<Param>): seq<Param> {
    if ps == [] || Less(p.key, ps[0].key) then [p] + ps else [ps[0]] + Insert(p, ps[1..])
  }

  /** Encode emits the parameters sorted by key. */
  function SortByKey(ps: seq<Param>): seq<Param> {
    if ps == [] then [] else Insert(ps[0], SortByKey(ps[1..]))
  }

  /** The parameters in the order in which they are set. */
  function Tags(shortID: string, contentType: string): seq<Param> {
    [Param("utm_source", "vela_ai"), Param("utm_medium", MediumOf(contentType)),
     Param("utm_campaign", "content_factory"), Param("utm_content", shortID)]
  }

  /** buildUTMURL */
  function BuildUTMURL(shopDomain: string, handle: string, shortID: string, contentType: string): string
    requires Bytes(shortID) && Bytes(contentType)
  {
    SortKeepsBytes(shortID, contentType);
    if shopDomain == "" then "" else Base(shopDomain, handle) + "?" + Encode(SortByKey(Tags(shortID, contentType)))
  }

  lemma {:induction false} LessIsTotal(a: string, b: string)
    ensures a == b || Less(a, b) || Less(b, a)
  {
    if a != "" && b != "" && a[0] == b[0] {
      LessIsTotal(a[1..], b[1..]);
      assert a == [a[0]] + a[1..] && b == [b[0]] + b[1..];
    }
  }

  lemma {:induction false} LessTransitive(a: string, b: string, c: string)
    requires Less(a, b) && Less(b, c)
    ensures Less(a, c)
  {
    if a != "" && a[0] == b[0] == c[0] {
      LessTransitive(a[1..], b[1..], c[1..]);
    }
  }

  /** No parameter of the list has a smaller key. */
  predicate UpTo(key: string, ps: seq<Param>) {
    forall q :: q in ps ==> key == q.key || Less(key, q.key)
  }

  predicate Sorted(ps: seq<Param>) {
    ps == [] || (UpTo(ps[0].key, ps[1..]) && Sorted(ps[1..]))
  }

  lemma {:induction false} InsertAdds(p: Param, ps: seq<Param>)
    ensures multiset(Insert(p, ps)) == multiset(ps) + multiset{p}
  {
    hide Less;
    if ps != [] {
      InsertAdds(p, ps[1..]);
      assert ps == [ps[0]] + ps[1..];
    }
  }

  lemma SameMembers(a: seq<Param>, b: seq<Param>)
    requires multiset(a) == multiset(b)
    ensures forall q :: q in a <==> q in b
  {
    forall q ensures q in a <==> q in b {
      assert q in multiset(a) <==> q in multiset(b);
    }
  }

  lemma InsertMembers(p: Param, ps: seq<Param>)
    ensures forall q :: q in Insert(p, ps) ==> q in ps || q == p
  {
    hide Insert;
    InsertAdds(p, ps);
    assert multiset(ps + [p]) == multiset(ps) + multiset{p};
    SameMembers(Insert(p, ps), ps + [p]);
  }

  lemma SortedByParts(p: Param, ps: seq<Param>)
    ensures Sorted([p] + ps) <==> UpTo(p.key, ps) && Sorted(ps)
  {
    hide UpTo;
    assert ([p] + ps)[1..] == ps;
  }

  lemma UpToSmaller(small: string, key: string, ps: seq<Param>)
    requires Less(small, key) && UpTo(key, ps)
    ensures UpTo(small, ps)
  {
    hide Less;
    forall q | q in ps ensures Less(small, q.key) {
      if key != q.key {
        LessTransitive(small, key, q.key);
      }
    }
  }

  lemma {:induction false} InsertSorts(p: Param, ps: seq<Param>)
    requires Sorted(ps)
    ensures Sorted(Insert(p, ps))
  {
    hide Less, Sorted;
    if ps == [] {
      SortedByParts(p, []);
      NothingIsSorted();
    } else {
      var first, rest := ps[0], ps[1..];
      assert ps == [first] + rest;
      SortedByParts(first, rest);
      if Less(p.key, first.key) {
        UpToSmaller(p.key, first.key, rest);
        SortedByParts(p, ps);
      } else {
        InsertSorts(p, rest);
        LessIsTotal(p.key, first.key);
        InsertMembers(p, rest);
        SortedByParts(first, Insert(p, rest));
      }
    }
  }

  lemma NothingIsSorted()
    ensures Sorted([])
  {
  }

  /** Whatever parameters are set in whatever order, they are emitted sorted by key, each as often as it was set. */
  lemma {:induction false} TagsAreSorted(ps: seq<Param>)
    ensures Sorted(SortByKey(ps)) && multiset(SortByKey(ps)) == multiset(ps)
  {
    hide Sorted, Insert;
    if ps == [] {
      NothingIsSorted();
    } else {
      TagsAreSorted(ps[1..]);
      InsertSorts(ps[0], SortByKey(ps[1..]));
      InsertAdds(ps[0], SortByKey(ps[1..]));
      assert ps == [ps[0]] + ps[1..];
    }
  }

  lemma MediumIsBytes(contentType: string)
    requires Bytes(contentType)
    ensures Bytes(MediumOf(contentType))
  {
  }

  lemma ValuesAreBytes()
    ensures Bytes("vela_ai") && Bytes("content_factory")
  {
  }

  lemma KeysAreBytes()
    ensures Bytes("utm_source") && Bytes("utm_medium") && Bytes("utm_campaign") && Bytes("utm_content")
  {
  }

  lemma TagsAreBytes(shortID: string, contentType: string)
    requires Bytes(shortID) && Bytes(contentType)
    ensures forall p :: p in Tags(shortID, contentType) ==> Bytes(p.key) && Bytes(p.value)
  {
    hide Bytes, MediumOf;
    KeysAreBytes();
    ValuesAreBytes();
    MediumIsBytes(contentType);
  }

  lemma SortKeepsBytes(shortID: string, contentType: string)
    requires Bytes(shortID) && Bytes(contentType)
    ensures AllBytes(SortByKey(Tags(shortID, contentType)))
  {
    hide Tags, SortByKey, Bytes;
    var ps := Tags(shortID, contentType);
    TagsAreSorted(ps);
    TagsAreBytes(shortID, contentType);
    SameMembers(SortByKey(ps), ps);
  }

  // ---------- reading back ----------

  /** How many bytes the white space character at the front takes, in UTF-8; 0 if there is none. */
  function SpaceInFront(s: string): (n: nat)
    ensures n <= |s|
  {
    if s != "" && ('\t' <= s[0] <= '\r' || s[0] == ' ') then 1
    else if |s| >= 2 && TwoByteSpace(s[0], s[1]) then 2
    else if |s| >= 3 && ThreeByteSpace(s[0], s[1], s[2]) then 3
    else 0
  }

  function SpaceAtEnd(s: string): (n: nat)
    ensures n <= |s|
  {
    var k := |s|;
    if s != "" && ('\t' <= s[k - 1] <= '\r' || s[k - 1] == ' ') then 1
    else if k >= 2 && TwoByteSpace(s[k - 2], s[k - 1]) then 2
    else if k >= 3 && ThreeByteSpace(s[k - 3], s[k - 2], s[k - 1]) then 3
    else 0
  }

  /** U+0085 and U+00A0. */
  predicate TwoByteSpace(a: char, b: char) {
    a == '\U{C2}' && (b == '\U{85}' || b == '\U{A0}')
  }

  /** U+1680, U+2000 to U+200A, U+2028, U+2029, U+202F, U+205F and U+3000. */
  predicate ThreeByteSpace(a: char, b: char, c: char) {
    || (a == '\U{E1}' && b == '\U{9A}' && c == '\U{80}')
    || (a == '\U{E2}' && b == '\U{80}' && ('\U{80}' <= c <= '\U{8A}' || c == '\U{A8}' || c == '\U{A9}' || c == '\U{AF}'))
    || (a == '\U{E2}' && b == '\U{81}' && c == '\U{9F}')
    || (a == '\U{E3}' && b == '\U{80}' && c == '\U{80}')
  }

  /** strings.TrimSpace on bytes. */
  function TrimSpaceBytes(s: string): string
    decreases |s|
  {
    if SpaceInFront(s) > 0 then TrimSpaceBytes(s[SpaceInFront(s)..])
    else if SpaceAtEnd(s) > 0 then TrimSpaceBytes(s[..|s| - SpaceAtEnd(s)])
    else s
  }

  /**
   parseContentShortID. `odd` is the URL parser's verdict on hosts with user, brackets, escapes or several
   colons; `table` is Unicode's lower-case table.
   */
  function ParseContentShortID(landing: string, odd: string -> bool, table: string -> string): string {
    var url, fragment := Before(landing, '#'), Behind(landing, '#');
    if landing == "" || HasControl(url) || !Accepts(Before(url, '?'), odd) || !ValidEscapes(fragment) then ""
    else
      var params := Parse(Behind(url, '?'));
      if ToLower(Get(params, "utm_source"), table) != "vela_ai" then ""
      else TrimSpaceBytes(Get(params, "utm_content"))
  }

  /** No character that would end the URL's path or make it an error. */
  predicate URLSafe(s: string) {
    forall i :: 0 <= i < |s| ==> s[i] != '#' && s[i] != '?' && !Control(s[i])
  }

  lemma QueryHasNone(query: string)
    requires QuerySafe(query)
    ensures URLSafe(query)
  {
  }

  lemma URLOfTags(base: string, query: string)
    requires URLSafe(base) && QuerySafe(query)
    ensures var url := base + "?" + query;
            && Before(url, '#') == url && Behind(url, '#') == "" && !HasControl(url)
            && Before(url, '?') == base && Behind(url, '?') == query
  {
    var url := base + ['?'] + query;
    assert "?" == ['?'];
    QueryHasNone(query);
    assert '#' !in url;
    CutNowhere(url, '#');
    CutAt(base, '?', query);
  }

  lemma BaseIsSafe(shopDomain: string, handle: string)
    requires URLSafe(shopDomain) && URLSafe(handle)
    ensures URLSafe(Base(shopDomain, handle))
  {
  }

  lemma SourceMatches(table: string -> string)
    ensures ToLower("vela_ai", table) == "vela_ai"
  {
    hide ToLower;
    ToLowerAscii("vela_ai", table);
  }

  /** In a sorted list whose keys are all different, the value of a key is that of its parameter. */
  lemma {:induction false} GetFinds(ps: seq<Param>, p: Param)
    requires p in ps && forall q :: q in ps && q.key == p.key ==> q == p
    ensures Get(ps, p.key) == p.value
  {
    if ps[0].key != p.key {
      assert ps == [ps[0]] + ps[1..];
      GetFinds(ps[1..], p);
    } else {
      assert ps[0] in ps;
    }
  }

  lemma KeysDiffer()
    ensures "utm_campaign" != "utm_content" && "utm_campaign" != "utm_source"
    ensures "utm_content" != "utm_source" && "utm_medium" != "utm_source" && "utm_medium" != "utm_content"
  {
    assert "utm_campaign"[5] == 'a' && "utm_content"[5] == 'o';
    assert "utm_campaign"[4] == 'c' && "utm_content"[4] == 'c' && "utm_medium"[4] == 'm' && "utm_source"[4] == 's';
  }

  lemma TagsByKey(shortID: string, contentType: string)
    ensures var ps := SortByKey(Tags(shortID, contentType)); Get(ps, "utm_source") == "vela_ai" && Get(ps, "utm_content") == shortID
  {
    hide Get, SortByKey, MediumOf, Sorted;
    var tags := Tags(shortID, contentType);
    var ps := SortByKey(tags);
    TagsAreSorted(tags);
    KeysDiffer();
    SameMembers(ps, tags);
    assert tags[0] in tags && tags[3] in tags;
    GetFinds(ps, tags[0]);
    GetFinds(ps, tags[3]);
  }

  /** If the URL parser accepts domain and handle, the id that is read back is the trimmed one. */
  lemma ReadsBackIfAccepted(shopDomain: string, handle: string, shortID: string, contentType: string,
                            odd: string -> bool, table: string -> string)
    requires shopDomain != "" && URLSafe(shopDomain) && URLSafe(handle) && Accepts(Base(shopDomain, handle), odd)
    requires Bytes(shortID) && Bytes(contentType)
    ensures ParseContentShortID(BuildUTMURL(shopDomain, handle, shortID, contentType), odd, table) == TrimSpaceBytes(shortID)
  {
    hide Base, Tags, SortByKey, ToLower, TrimSpaceBytes, Get, Parse, Encode, Before, Behind, URLSafe, QuerySafe, HasControl, Accepts;
    var base, ps := Base(shopDomain, handle), SortByKey(Tags(shortID, contentType));
    SortKeepsBytes(shortID, contentType);
    BaseIsSafe(shopDomain, handle);
    EncodedIsSafe(ps);
    URLOfTags(base, Encode(ps));
    ParseUndoesEncode(ps);
    TagsByKey(shortID, contentType);
    SourceMatches(table);
    assert ValidEscapes("");
  }

  /** A domain name: unreserved characters only. */
  predicate PlainHost(s: string) {
    s != "" && forall i :: 0 <= i < |s| ==> Unreserved(s[i])
  }

  predicate PlainHandle(s: string) {
    URLSafe(s) && '%' !in s
  }

  lemma BaseIsAccepted(shopDomain: string, handle: string, odd: string -> bool)
    requires PlainHost(shopDomain) && PlainHandle(handle)
    ensures Accepts(Base(shopDomain, handle), odd)
  {
    var path := "/products/" + handle;
    HostIsPlain(shopDomain, odd);
    PathIsPlain(handle);
    NoSlash(shopDomain);
    assert path[0] == '/';
    hide *;
    HostAndPathAccepted(shopDomain, path, odd);
    BaseInParts(shopDomain, handle);
  }

  lemma NoSlash(host: string)
    requires PlainHost(host)
    ensures '/' !in host
  {
  }

  lemma BaseInParts(shopDomain: string, handle: string)
    ensures Base(shopDomain, handle) == HTTPS + ":" + ("//" + (shopDomain + ("/products/" + handle)))
  {
  }

  const HTTPS := "https"

  lemma HttpsIsScheme(rest: string)
    ensures var u := HTTPS + ":" + rest; |u| > 5 && u[6..] == rest && u[0] != ':' && u[0] != '*' && Scheme(u) == 5
  {
    var u := HTTPS + ":" + rest;
    assert u[5] == ':' && u[0] == 'h' && u[1] == 't' && u[2] == 't' && u[3] == 'p' && u[4] == 's';
    assert forall i :: 0 <= i < 5 ==> SchemeChar(u[i]);
    SchemeEnds(u, 5);
  }

  /** An https URL whose host and path are in order. */
  lemma HostAndPathAccepted(host: string, path: string, odd: string -> bool)
    requires AuthorityOk(host, odd) && '/' !in host && path != "" && path[0] == '/' && ValidEscapes(path)
    ensures Accepts(HTTPS + ":" + ("//" + (host + path)), odd)
  {
    var rest := "//" + (host + path);
    HttpsIsScheme(rest);
    hide Before, Behind, AuthorityOk, ValidEscapes, Scheme;
    assert rest[..1] == "/" && rest[..2] == "//" && rest[2..] == host + path;
    assert host + path == host + ['/'] + path[1..];
    CutAt(host, '/', path[1..]);
    assert (host + path)[|host|..] == path;
  }

  lemma {:induction false} NoColons(s: string)
    requires ':' !in s
    ensures ColonCount(s) == 0 && Behind(s, ':') == ""
  {
    if s != "" {
      NoColons(s[1..]);
    }
  }

  lemma HostIsPlain(host: string, odd: string -> bool)
    requires PlainHost(host)
    ensures AuthorityOk(host, odd)
  {
    NoColons(host);
  }

  lemma PathIsPlain(handle: string)
    requires '%' !in handle
    ensures ValidEscapes("/products/" + handle)
  {
  }

  lemma PlainIsSafe(shopDomain: string)
    requires PlainHost(shopDomain)
    ensures URLSafe(shopDomain)
  {
  }

  /** For every domain name and handle, and whatever the id and the content type are, the trimmed id is read back. */
  lemma ShortIDReadsBack(shopDomain: string, handle: string, shortID: string, contentType: string,
                         odd: string -> bool, table: string -> string)
    requires PlainHost(shopDomain) && PlainHandle(handle) && Bytes(shortID) && Bytes(contentType)
    ensures ParseContentShortID(BuildUTMURL(shopDomain, handle, shortID, contentType), odd, table) == TrimSpaceBytes(shortID)
  {
    hide ParseContentShortID, BuildUTMURL, TrimSpaceBytes, Accepts, URLSafe;
    PlainIsSafe(shopDomain);
    BaseIsAccepted(shopDomain, handle, odd);
    ReadsBackIfAccepted(shopDomain, handle, shortID, contentType, odd, table);
  }

  lemma TrimSpaceLeaves(s: string)
    ensures TrimSpaceBytes(s) == s <==> SpaceInFront(s) == 0 && SpaceAtEnd(s) == 0
  {
    TrimSpaceShortens(s);
  }

  lemma {:induction false} TrimSpaceShortens(s: string)
    ensures |TrimSpaceBytes(s)| <= |s|
    ensures SpaceInFront(s) > 0 || SpaceAtEnd(s) > 0 ==> |TrimSpaceBytes(s)| < |s|
    decreases |s|
  {
    if SpaceInFront(s) > 0 {
      TrimSpaceShortens(s[SpaceInFront(s)..]);
    } else if SpaceAtEnd(s) > 0 {
      TrimSpaceShortens(s[..|s| - SpaceAtEnd(s)]);
    }
  }

  /** So an id survives the trip exactly if it neither begins nor ends with white space. */
  lemma ShortIDSurvivesIff(shopDomain: string, handle: string, shortID: string, contentType: string,
                           odd: string -> bool, table: string -> string)
    requires PlainHost(shopDomain) && PlainHandle(handle) && Bytes(shortID) && Bytes(contentType)
    ensures ParseContentShortID(BuildUTMURL(shopDomain, handle, shortID, contentType), odd, table) == shortID
       <==> SpaceInFront(shortID) == 0 && SpaceAtEnd(shortID) == 0
  {
    hide ParseContentShortID, BuildUTMURL, TrimSpaceBytes;
    ShortIDReadsBack(shopDomain, handle, shortID, contentType, odd, table);
    TrimSpaceLeaves(shortID);
  }

  /** Handles made by slugify are plain. */
  lemma SlugIsSafe(handle: string)
    requires Slug.IsSlug(handle)
    ensures PlainHandle(handle)
  {
  }
}
