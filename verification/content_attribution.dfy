/**
 Which landing pages name a content piece: those that the URL parser takes and whose first utm_source is
 vela_ai. And what a tagged product URL says, parameter by parameter. Strings are sequences of bytes.
 */
module ContentAttribution {
  import opened QueryString
  import opened URLSyntax
  import opened Text
  import opened Utf8
  import opened ContentURL

  /** Parameter i is the first of its key. */
  predicate IsFirst(ps: seq<Param>, key: string, i: int) {
    0 <= i < |ps| && ps[i].key == key && forall j :: 0 <= j < i ==> ps[j].key != key
  }

  predicate Lacks(ps: seq<Param>, key: string) {
    forall j :: 0 <= j < |ps| ==> ps[j].key != key
  }

  lemma {:induction false} GetFirst(ps: seq<Param>, key: string, i: int)
    requires IsFirst(ps, key, i)
    ensures Get(ps, key) == ps[i].value
    decreases i
  {
    if i > 0 {
      assert ps[0].key != key;
      assert forall j :: 0 <= j < i - 1 ==> ps[1..][j] == ps[j + 1];
      GetFirst(ps[1..], key, i - 1);
    }
  }

  lemma {:induction false} GetNothing(ps: seq<Param>, key: string)
    requires Lacks(ps, key)
    ensures Get(ps, key) == ""
  {
    if ps != [] {
      GetNothing(ps[1..], key);
    }
  }

  /** "vela_ai" in any case. */
  predicate IsVela(source: string) {
    |source| == 7 && forall i :: 0 <= i < 7 ==> source[i] == "vela_ai"[i] || source[i] == "VELA_AI"[i]
  }

  lemma VelaLetters()
    ensures "vela_ai" == ['v', 'e', 'l', 'a', '_', 'a', 'i'] && "VELA_AI" == ['V', 'E', 'L', 'A', '_', 'A', 'I']
  {
  }

  lemma VelaIsAscii(source: string)
    requires IsVela(source)
    ensures Ascii(source)
  {
    VelaLetters();
  }

  lemma LowerIsVela(source: string, table: string -> string)
    requires Ascii(source)
    ensures ToLower(source, table) == "vela_ai" <==> IsVela(source)
  {
    hide ToLower;
    ToLowerAscii(source, table);
    VelaLetters();
    var low := ToLower(source, table);
    if IsVela(source) {
      assert forall i :: 0 <= i < 7 ==> low[i] == "vela_ai"[i];
    }
    if low == "vela_ai" {
      assert forall i :: 0 <= i < 7 ==> LowerChar(source[i]) == "vela_ai"[i];
    }
  }

  /** Nothing, or a '#' and a text whose escapes are complete. */
  predicate FragmentOk(fragment: string) {
    fragment == "" || (fragment[0] == '#' && ValidEscapes(fragment[1..]))
  }

  lemma NoControl(s: string)
    requires URLSafe(s)
    ensures !HasControl(s) && '#' !in s
  {
  }

  lemma SafeURL(base: string, query: string)
    requires URLSafe(base) && QuerySafe(query)
    ensures var url := base + "?" + query;
            '#' !in url && !HasControl(url) && url != "" && Before(url, '?') == base && Behind(url, '?') == query
  {
    URLOfTags(base, query);
    NoControl(base);
    QueryHasNone(query);
  }

  lemma CutFragment(url: string, fragment: string)
    requires '#' !in url && FragmentOk(fragment)
    ensures Before(url + fragment, '#') == url && ValidEscapes(Behind(url + fragment, '#'))
  {
    hide Before, Behind;
    if fragment == "" {
      assert url + fragment == url;
      CutNowhere(url, '#');
      assert ValidEscapes("");
    } else {
      assert url + fragment == url + ['#'] + fragment[1..];
      CutAt(url, '#', fragment[1..]);
    }
  }

  /** A page that the parser takes is read by its parameters alone. */
  lemma ReadByParameters(base: string, ps: seq<Param>, fragment: string, odd: string -> bool, table: string -> string)
    requires URLSafe(base) && Accepts(base, odd) && AllBytes(ps) && FragmentOk(fragment)
    ensures ParseContentShortID(base + "?" + Encode(ps) + fragment, odd, table)
         == if ToLower(Get(ps, "utm_source"), table) == "vela_ai" then TrimSpaceBytes(Get(ps, "utm_content")) else ""
  {
    hide Before, Behind, Accepts, HasControl, URLSafe, QuerySafe, Parse, Encode, Get, ToLower, TrimSpaceBytes, FragmentOk, ValidEscapes;
    EncodedIsSafe(ps);
    SafeURL(base, Encode(ps));
    CutFragment(base + "?" + Encode(ps), fragment);
    ParseUndoesEncode(ps);
  }

  /**
   Which pages name a content piece, for every page the parser takes, with any parameters and fragment: those
   whose first utm_source is vela_ai in any case, and they name the trimmed first utm_content. A page with any
   other ASCII source, or without one, names none.
   */
  lemma SourceDecides(base: string, ps: seq<Param>, fragment: string, odd: string -> bool, table: string -> string)
    requires URLSafe(base) && Accepts(base, odd) && AllBytes(ps) && FragmentOk(fragment)
    ensures var id := ParseContentShortID(base + "?" + Encode(ps) + fragment, odd, table);
            && (Lacks(ps, "utm_source") ==> id == "")
            && (forall i :: IsFirst(ps, "utm_source", i) && Ascii(ps[i].value) && !IsVela(ps[i].value) ==> id == "")
            && (forall i :: IsFirst(ps, "utm_source", i) && IsVela(ps[i].value) ==>
                  && (Lacks(ps, "utm_content") ==> id == "")
                  && (forall j :: IsFirst(ps, "utm_content", j) ==> id == TrimSpaceBytes(ps[j].value)))
  {
    hide ParseContentShortID, Accepts, URLSafe, Encode, ToLower, TrimSpaceBytes, FragmentOk, Get, IsVela, Ascii, Lacks;
    ReadByParameters(base, ps, fragment, odd, table);
    var id := ParseContentShortID(base + "?" + Encode(ps) + fragment, odd, table);
    if Lacks(ps, "utm_source") {
      GetNothing(ps, "utm_source");
      EmptyIsNotVela(table);
    }
    forall i | IsFirst(ps, "utm_source", i) && Ascii(ps[i].value) && !IsVela(ps[i].value) ensures id == "" {
      GetFirst(ps, "utm_source", i);
      LowerIsVela(ps[i].value, table);
    }
    forall i | IsFirst(ps, "utm_source", i) && IsVela(ps[i].value)
      ensures Lacks(ps, "utm_content") ==> id == ""
      ensures forall j :: IsFirst(ps, "utm_content", j) ==> id == TrimSpaceBytes(ps[j].value)
    {
      GetFirst(ps, "utm_source", i);
      VelaIsAscii(ps[i].value);
      LowerIsVela(ps[i].value, table);
      if Lacks(ps, "utm_content") {
        GetNothing(ps, "utm_content");
        NothingToTrim();
      }
      forall j | IsFirst(ps, "utm_content", j) ensures id == TrimSpaceBytes(ps[j].value) {
        GetFirst(ps, "utm_content", j);
      }
    }
  }

  lemma EmptyIsNotVela(table: string -> string)
    ensures ToLower("", table) != "vela_ai"
  {
  }

  lemma NothingToTrim()
    ensures TrimSpaceBytes("") == ""
  {
  }

  /** Every product URL of a plain domain and handle is such a page, and so is every plain path of one's own. */
  lemma PagesAreTaken(shopDomain: string, handle: string, odd: string -> bool)
    requires PlainHandle(handle)
    ensures PlainHost(shopDomain) ==> URLSafe(Base(shopDomain, handle)) && Accepts(Base(shopDomain, handle), odd)
    ensures var path := "/products/" + handle; URLSafe(path) && Accepts(path, odd)
  {
    var path := "/products/" + handle;
    assert URLSafe(path);
    PathIsPlain(handle);
    assert path[0] == '/' && path[1] == 'p';
    assert SchemeChars(path) == 0;
    assert HasPrefix(path, "/") by { assert path[..1] == "/"; }
    assert !HasPrefix(path, "//") by { assert path[..2][1] == 'p'; }
    if PlainHost(shopDomain) {
      BaseIsAccepted(shopDomain, handle, odd);
      PlainIsSafe(shopDomain);
      BaseIsSafe(shopDomain, handle);
    }
  }

  // ---------- pages the parser refuses ----------

  /** A control character in front of the fragment. */
  lemma ControlNamesNothing(head: string, c: char, tail: string, odd: string -> bool, table: string -> string)
    requires '#' !in head && Control(c)
    ensures ParseContentShortID(head + [c] + tail, odd, table) == ""
  {
    var landing := head + [c] + tail;
    var url := Before(landing, '#');
    BeforeKeeps(head + [c], tail, '#');
    assert url[|head|] == c;
  }

  lemma {:induction false} BeforeKeeps(head: string, tail: string, c: char)
    requires c !in head
    ensures head <= Before(head + tail, c)
  {
    if head != "" {
      assert (head + tail)[1..] == head[1..] + tail;
      BeforeKeeps(head[1..], tail, c);
    }
  }

  /** An incomplete escape in the fragment. */
  lemma BrokenFragmentNamesNothing(url: string, fragment: string, odd: string -> bool, table: string -> string)
    requires '#' !in url && !ValidEscapes(fragment)
    ensures ParseContentShortID(url + "#" + fragment, odd, table) == ""
  {
    hide Accepts, HasControl, Before, Behind, ValidEscapes;
    assert url + "#" + fragment == url + ['#'] + fragment;
    CutAt(url, '#', fragment);
  }

  /** An incomplete escape in the path of a product URL. */
  lemma BrokenPathNamesNothing(shopDomain: string, handle: string, query: string, odd: string -> bool, table: string -> string)
    requires PlainHost(shopDomain) && URLSafe(handle) && !ValidEscapes(handle) && QuerySafe(query)
    ensures ParseContentShortID(Base(shopDomain, handle) + "?" + query, odd, table) == ""
  {
    var base, path := Base(shopDomain, handle), "/products/" + handle;
    PlainIsSafe(shopDomain);
    BaseIsSafe(shopDomain, handle);
    BrokenBehind("/products/", handle);
    BrokenPathIsRefused(shopDomain, path, odd);
    BaseInParts(shopDomain, handle);
    hide Accepts, HasControl, Before, Behind, ValidEscapes, URLSafe, QuerySafe, Parse;
    SafeURL(base, query);
    CutFragment(base + "?" + query, "");
    assert base + "?" + query + "" == base + "?" + query;
  }

  lemma BrokenBehind(front: string, s: string)
    requires !ValidEscapes(s)
    ensures !ValidEscapes(front + s)
  {
    var i :| 0 <= i < |s| && s[i] == '%' && !(i + 2 < |s| && HexValue(s[i + 1]).Some? && HexValue(s[i + 2]).Some?);
    var longer, k := front + s, |front| + i;
    assert longer[k] == '%';
    assert i + 2 < |s| ==> longer[k + 1] == s[i + 1] && longer[k + 2] == s[i + 2];
  }

  lemma BrokenPathIsRefused(host: string, path: string, odd: string -> bool)
    requires PlainHost(host) && path != "" && path[0] == '/' && !ValidEscapes(path)
    ensures !Accepts(HTTPS + ":" + ("//" + (host + path)), odd)
  {
    var rest := "//" + (host + path);
    HttpsIsScheme(rest);
    NoSlash(host);
    hide Before, Behind, AuthorityOk, ValidEscapes, Scheme, PlainHost;
    assert rest[..1] == "/" && rest[..2] == "//" && rest[2..] == host + path;
    assert host + path == host + ['/'] + path[1..];
    CutAt(host, '/', path[1..]);
    assert (host + path)[|host|..] == path;
  }

  // ---------- what a tagged URL says ----------

  /**
   A tagged URL is the product's, with the four parameters and no other; without a domain there is none.
   */
  lemma TagsReadBack(shopDomain: string, handle: string, shortID: string, contentType: string)
    requires PlainHost(shopDomain) && PlainHandle(handle) && Bytes(shortID) && Bytes(contentType)
    ensures var url := BuildUTMURL(shopDomain, handle, shortID, contentType);
            var ps := Parse(Behind(url, '?'));
            && Before(url, '?') == "https://" + shopDomain + "/products/" + handle
            && |ps| == 4
            && Get(ps, "utm_source") == "vela_ai" && Get(ps, "utm_campaign") == "content_factory"
            && Get(ps, "utm_medium") == (if contentType == "desc" then "product_desc" else contentType)
            && Get(ps, "utm_content") == shortID
    ensures BuildUTMURL("", handle, shortID, contentType) == ""
  {
    hide Tags, SortByKey, Get, Parse, Encode, Before, Behind, URLSafe, QuerySafe, MediumOf;
    var base, ps := Base(shopDomain, handle), SortByKey(Tags(shortID, contentType));
    PlainIsSafe(shopDomain);
    BaseIsSafe(shopDomain, handle);
    SortKeepsBytes(shortID, contentType);
    EncodedIsSafe(ps);
    SafeURL(base, Encode(ps));
    ParseUndoesEncode(ps);
    AllTagsByKey(shortID, contentType);
    Medium(contentType);
  }

  lemma Medium(contentType: string)
    ensures MediumOf(contentType) == if contentType == "desc" then "product_desc" else contentType
  {
  }

  lemma AllTagsByKey(shortID: string, contentType: string)
    ensures var ps := SortByKey(Tags(shortID, contentType));
            && |ps| == 4
            && Get(ps, "utm_source") == "vela_ai" && Get(ps, "utm_campaign") == "content_factory"
            && Get(ps, "utm_medium") == MediumOf(contentType) && Get(ps, "utm_content") == shortID
  {
    hide Get, SortByKey, MediumOf, Sorted;
    var tags := Tags(shortID, contentType);
    var ps := SortByKey(tags);
    TagsAreSorted(tags);
    KeysDiffer();
    MediumKeyDiffers();
    SameMembers(ps, tags);
    assert |multiset(ps)| == |multiset(tags)|;
    assert tags[0] in tags && tags[1] in tags && tags[2] in tags && tags[3] in tags;
    GetFinds(ps, tags[0]);
    GetFinds(ps, tags[1]);
    GetFinds(ps, tags[2]);
    GetFinds(ps, tags[3]);
  }

  lemma MediumKeyDiffers()
    ensures "utm_campaign" != "utm_medium"
  {
    assert "utm_campaign"[4] == 'c' && "utm_medium"[4] == 'm';
  }
}
