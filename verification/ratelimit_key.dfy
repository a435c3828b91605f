/**
 Which rule a request falls under and which key counts it.
 */
module RateLimitKey {
  import opened Text
  import opened Decimal
  import opened RateLimit

  datatype Rule = Rule(pathPrefix: string, window: int, maxRequests: int, perShop: bool, perIP: bool)

  const DEFAULT_RULES: seq<Rule> := [
    Rule("/api/contact", 60 * SECOND, 5, false, true),
    Rule("/api/llm", 60 * SECOND, 10, true, false),
    Rule("/api/admin/observability", 60 * SECOND, 10, true, false),
    Rule("/api", 60 * SECOND, 60, true, false)]

  /** The first rule whose prefix the path has; |rules| if there is none. */
  method FindRule(path: string, rules: seq<Rule>) returns (i: nat)
    ensures i <= |rules|
    ensures i < |rules| ==> HasPrefix(path, rules[i].pathPrefix)
    ensures forall j :: 0 <= j < i ==> !HasPrefix(path, rules[j].pathPrefix)
  {
    i := 0;
    while i < |rules|
      invariant i <= |rules|
      invariant forall j :: 0 <= j < i ==> !HasPrefix(path, rules[j].pathPrefix)
    {
      if HasPrefix(path, rules[i].pathPrefix) {
        return;
      }
      i := i + 1;
    }
  }

  /** "contact", "llm", "admin:observability" and, because "/api" lacks the trimmed "/api/", ":api". */
  function Component(pathPrefix: string): string {
    var trimmed := if HasPrefix(pathPrefix, "/api/") then pathPrefix[5..] else pathPrefix;
    SlashesToColons(trimmed)
  }

  function SlashesToColons(s: string): string {
    if s == "" then "" else [if s[0] == '/' then ':' else s[0]] + SlashesToColons(s[1..])
  }

  /** The key of a request: rule component, shop if the rule counts per shop and one is known, address, bucket. */
  function Key(rule: Rule, shop: string, ip: string, bucket: nat): string {
    "ratelimit:" + Component(rule.pathPrefix) + ShopPart(rule, shop) + IPPart(rule, ip) + ":" + Digits(bucket)
  }

  function ShopPart(rule: Rule, shop: string): string {
    if rule.perShop && shop != "" then ":" + shop else ""
  }

  function IPPart(rule: Rule, ip: string): string {
    if rule.perIP then ":" + ip else ""
  }

  // ---------- which rule ----------

  /** For every path under /api/ some default rule matches, and the first that does has the longest prefix. */
  lemma FirstMatchIsLongest(path: string, i: nat)
    requires HasPrefix(path, "/api/")
    requires i <= |DEFAULT_RULES| && (i < |DEFAULT_RULES| ==> HasPrefix(path, DEFAULT_RULES[i].pathPrefix))
    requires forall j :: 0 <= j < i ==> !HasPrefix(path, DEFAULT_RULES[j].pathPrefix)
    ensures i < |DEFAULT_RULES|
    ensures forall j :: 0 <= j < |DEFAULT_RULES| && HasPrefix(path, DEFAULT_RULES[j].pathPrefix) ==>
              |DEFAULT_RULES[j].pathPrefix| <= |DEFAULT_RULES[i].pathPrefix|
  {
    assert path[..5] == "/api/";
    assert path[..4] == "/api" by { assert path[..4] == path[..5][..4]; }
    assert HasPrefix(path, DEFAULT_RULES[3].pathPrefix);
    forall j | 0 <= j < 3 && HasPrefix(path, DEFAULT_RULES[j].pathPrefix)
      ensures path[5] == ['c', 'l', 'a'][j]
    {
      assert path[5] == DEFAULT_RULES[j].pathPrefix[5];
    }
  }

  /** Requests in a minute for this path, in the numbers of the default rules. */
  function LimitOf(path: string): nat {
    if HasPrefix(path, "/api/contact") then 5
    else if HasPrefix(path, "/api/llm") || HasPrefix(path, "/api/admin/observability") then 10
    else 60
  }

  /** In numbers: contact requests are limited by address, all others by shop, all of them per minute. */
  lemma DefaultLimits(path: string, i: nat)
    requires HasPrefix(path, "/api/")
    requires i <= |DEFAULT_RULES| && (i < |DEFAULT_RULES| ==> HasPrefix(path, DEFAULT_RULES[i].pathPrefix))
    requires forall j :: 0 <= j < i ==> !HasPrefix(path, DEFAULT_RULES[j].pathPrefix)
    ensures i < |DEFAULT_RULES|
    ensures var rule := DEFAULT_RULES[i];
            && rule.window == 60_000_000_000 && rule.maxRequests == LimitOf(path)
            && (rule.perIP <==> HasPrefix(path, "/api/contact")) && (rule.perShop <==> !HasPrefix(path, "/api/contact"))
  {
    FirstMatchIsLongest(path, i);
    hide HasPrefix;
    assert DEFAULT_RULES[0].pathPrefix == "/api/contact" && DEFAULT_RULES[1].pathPrefix == "/api/llm";
    assert DEFAULT_RULES[2].pathPrefix == "/api/admin/observability";
  }

  // ---------- which key ----------

  lemma {:induction false} NoSlash(s: string)
    requires '/' !in s
    ensures SlashesToColons(s) == s
  {
    if s != "" {
      NoSlash(s[1..]);
    }
  }

  lemma {:induction false} SlashesConcat(a: string, b: string)
    ensures SlashesToColons(a + b) == SlashesToColons(a) + SlashesToColons(b)
  {
    if a == "" {
      assert a + b == b;
    } else {
      assert (a + b)[1..] == a[1..] + b;
      SlashesConcat(a[1..], b);
    }
  }

  lemma SlashBetween(a: string, b: string)
    requires '/' !in a && '/' !in b
    ensures SlashesToColons(a + "/" + b) == a + ":" + b
  {
    SlashesConcat(a + "/", b);
    SlashesConcat(a, "/");
    NoSlash(a);
    NoSlash(b);
    assert SlashesToColons("/") == ":";
  }

  lemma ContactComponent()
    ensures Component("/api/contact") == "contact"
  {
    hide SlashesToColons;
    assert "/api/contact"[5..] == "contact";
    NoSlash("contact");
  }

  lemma LlmComponent()
    ensures Component("/api/llm") == "llm"
  {
    hide SlashesToColons;
    assert "/api/llm"[5..] == "llm";
    NoSlash("llm");
  }

  lemma ObservabilityComponent()
    ensures Component("/api/admin/observability") == "admin:observability"
  {
    hide SlashesToColons;
    assert "/api/admin/observability"[5..] == "admin" + "/" + "observability";
    SlashBetween("admin", "observability");
  }

  lemma ApiComponent()
    ensures Component("/api") == ":api"
  {
    hide SlashesToColons;
    assert "/api" == "" + "/" + "api";
    SlashBetween("", "api");
  }

  /** The first character of the four components: they are all different. */
  function Initial(i: nat): char
    requires i < 4
  {
    "cla:"[i]
  }

  lemma ComponentStarts(i: nat)
    requires i < 4
    ensures var c := Component(DEFAULT_RULES[i].pathPrefix); c != "" && c[0] == Initial(i)
  {
    hide Component;
    if i == 0 {
      ContactComponent();
    } else if i == 1 {
      LlmComponent();
    } else if i == 2 {
      ObservabilityComponent();
    } else {
      ApiComponent();
    }
  }

  /** A text that ends in a colon and a number can be taken apart in one way only. */
  lemma LastColon(a: string, m: nat, b: string, n: nat)
    requires a + ":" + Digits(m) == b + ":" + Digits(n)
    ensures a == b && m == n
  {
    var s := a + ":" + Digits(m);
    NoColonAfter(a, m);
    NoColonAfter(b, n);
    assert s[|a|] == ':' && s[|b|] == ':';
    assert a == s[..|a|] && b == s[..|b|];
    assert Digits(m) == s[|a| + 1..] && Digits(n) == s[|b| + 1..];
    DigitsInjective(m, n);
  }

  lemma NoColonAfter(a: string, m: nat)
    ensures var s := a + ":" + Digits(m); forall j :: |a| < j < |s| ==> s[j] != ':'
  {
    var s := a + ":" + Digits(m);
    forall j | |a| < j < |s| ensures s[j] != ':' {
      assert s[j] == Digits(m)[j - |a| - 1];
      assert Digits(m)[j - |a| - 1] in Digits(m);
    }
  }

  /** What a key says besides rule and bucket. */
  function Middle(rule: Rule, shop: string, ip: string): string {
    ShopPart(rule, shop) + IPPart(rule, ip)
  }

  lemma MiddleTells(rule: Rule, shop: string, ip: string, shop': string, ip': string)
    requires rule.perShop != rule.perIP && Middle(rule, shop, ip) == Middle(rule, shop', ip')
    ensures rule.perShop ==> shop == shop'
    ensures rule.perIP ==> ip == ip'
  {
    if rule.perIP {
      assert Middle(rule, shop, ip) == ":" + ip && Middle(rule, shop', ip') == ":" + ip';
      assert (":" + ip)[1..] == ip && (":" + ip')[1..] == ip';
    } else {
      assert Middle(rule, shop, ip) == ShopPart(rule, shop) && Middle(rule, shop', ip') == ShopPart(rule, shop');
      assert (":" + shop)[1..] == shop && (":" + shop')[1..] == shop';
    }
  }

  lemma KeyShape(i: nat, shop: string, ip: string, b: nat)
    requires i < 4
    ensures var r := DEFAULT_RULES[i];
            var head := "ratelimit:" + Component(r.pathPrefix) + Middle(r, shop, ip);
            Key(r, shop, ip, b) == head + ":" + Digits(b) && |head| > 10 && head[10] == Initial(i)
  {
    hide Component;
    var r := DEFAULT_RULES[i];
    ComponentStarts(i);
    var part, front := Component(r.pathPrefix), "ratelimit:";
    assert |front| == 10;
    assert (front + part + Middle(r, shop, ip))[10] == part[0];
    assert front + part + Middle(r, shop, ip) == front + part + ShopPart(r, shop) + IPPart(r, ip);
  }

  lemma SameKey(i: nat, shop: string, ip: string, b: nat, i': nat, shop': string, ip': string, b': nat)
    requires i < |DEFAULT_RULES| && i' < |DEFAULT_RULES|
    requires Key(DEFAULT_RULES[i], shop, ip, b) == Key(DEFAULT_RULES[i'], shop', ip', b')
    ensures i == i' && b == b'
    ensures DEFAULT_RULES[i].perShop ==> shop == shop'
    ensures DEFAULT_RULES[i].perIP ==> ip == ip'
  {
    hide Key, Component, Digits;
    var r, r' := DEFAULT_RULES[i], DEFAULT_RULES[i'];
    KeyShape(i, shop, ip, b);
    KeyShape(i', shop', ip', b');
    var head := "ratelimit:" + Component(r.pathPrefix) + Middle(r, shop, ip);
    var head' := "ratelimit:" + Component(r'.pathPrefix) + Middle(r', shop', ip');
    LastColon(head, b, head', b');
    assert i == i';
    var front := "ratelimit:" + Component(r.pathPrefix);
    assert head[|front|..] == Middle(r, shop, ip) && head'[|front|..] == Middle(r, shop', ip');
    MiddleTells(r, shop, ip, shop', ip');
  }

  /**
   Two requests under the default rules share a key if and only if they fall under the same rule, in the
   same bucket, for the same shop (or both for none) where the rule counts per shop, and for the same
   address where it counts per address. Colons inside shop ids or addresses do no harm.
   */
  lemma KeyInjective(i: nat, shop: string, ip: string, b: nat, i': nat, shop': string, ip': string, b': nat)
    requires i < |DEFAULT_RULES| && i' < |DEFAULT_RULES|
    ensures Key(DEFAULT_RULES[i], shop, ip, b) == Key(DEFAULT_RULES[i'], shop', ip', b')
       <==> && i == i' && b == b'
            && (DEFAULT_RULES[i].perShop ==> shop == shop')
            && (DEFAULT_RULES[i].perIP ==> ip == ip')
  {
    hide Component, Digits;
    if Key(DEFAULT_RULES[i], shop, ip, b) == Key(DEFAULT_RULES[i'], shop', ip', b') {
      SameKey(i, shop, ip, b, i', shop', ip', b');
    }
  }

  lemma KeyInParts(rule: Rule, shop: string, ip: string, b: nat)
    ensures rule.perIP && !rule.perShop ==>
              Key(rule, shop, ip, b) == "ratelimit:" + Component(rule.pathPrefix) + ":" + ip + ":" + Digits(b)
    ensures rule.perShop && !rule.perIP && shop != "" ==>
              Key(rule, shop, ip, b) == "ratelimit:" + Component(rule.pathPrefix) + ":" + shop + ":" + Digits(b)
    ensures rule.perShop && !rule.perIP && shop == "" ==>
              Key(rule, shop, ip, b) == "ratelimit:" + Component(rule.pathPrefix) + ":" + Digits(b)
  {
    hide Component, Digits;
  }

  /** The default rules' keys in full, for an address and for a shop. */
  lemma KeyTexts(shop: string, ip: string, b: nat)
    requires shop != ""
    ensures Key(DEFAULT_RULES[0], shop, ip, b) == "ratelimit:" + "contact" + ":" + ip + ":" + Digits(b)
    ensures Key(DEFAULT_RULES[1], shop, ip, b) == "ratelimit:" + "llm" + ":" + shop + ":" + Digits(b)
    ensures Key(DEFAULT_RULES[2], shop, ip, b) == "ratelimit:" + "admin:observability" + ":" + shop + ":" + Digits(b)
    ensures Key(DEFAULT_RULES[3], shop, ip, b) == "ratelimit:" + ":api" + ":" + shop + ":" + Digits(b)
    ensures Key(DEFAULT_RULES[3], "", ip, b) == "ratelimit:" + ":api" + ":" + Digits(b)
  {
    hide Component, Digits, Key;
    ContactComponent();
    LlmComponent();
    ObservabilityComponent();
    ApiComponent();
    KeyInParts(DEFAULT_RULES[0], shop, ip, b);
    KeyInParts(DEFAULT_RULES[1], shop, ip, b);
    KeyInParts(DEFAULT_RULES[2], shop, ip, b);
    KeyInParts(DEFAULT_RULES[3], shop, ip, b);
    KeyInParts(DEFAULT_RULES[3], "", ip, b);
  }

  // ---------- building the key ----------

  /** What precedes the last occurrence of c, or all of s. */
  function BeforeLast(s: string, c: char): (r: string)
    ensures r <= s && (|r| < |s| ==> s[|r|] == c)
    ensures forall j :: |r| < j < |s| ==> s[j] != c
    ensures c in s ==> |r| < |s|
  {
    if c !in s then s
    else if s[|s| - 1] == c then s[..|s| - 1]
    else BeforeLast(s[..|s| - 1], c)
  }

  function ClientIP(forwarded: string, realIP: string, remote: string): string {
    if forwarded != "" then Before(forwarded, ',')
    else if realIP != "" then realIP
    else BeforeLast(remote, ':')
  }

  method ExtractClientIP(forwarded: string, realIP: string, remote: string) returns (ip: string)
    ensures ip == ClientIP(forwarded, realIP, remote)
    ensures forwarded != "" ==> ip <= forwarded && ',' !in ip && (|ip| < |forwarded| ==> forwarded[|ip|] == ',')
    ensures forwarded == "" && realIP != "" ==> ip == realIP
    ensures forwarded == "" && realIP == "" && ':' !in remote ==> ip == remote
    ensures forwarded == "" && realIP == "" && ':' in remote ==>
              ip < remote && remote[|ip|] == ':' && ':' !in remote[|ip| + 1..]
  {
    if forwarded != "" {
      for i := 0 to |forwarded|
        invariant forall j :: 0 <= j < i ==> forwarded[j] != ','
      {
        if forwarded[i] == ',' {
          CutAt(forwarded[..i], ',', forwarded[i + 1..]);
          assert forwarded == forwarded[..i] + [','] + forwarded[i + 1..];
          return forwarded[..i];
        }
      }
      CutNowhere(forwarded, ',');
      return forwarded;
    }
    if realIP != "" {
      return realIP;
    }
    var i := |remote| - 1;
    while i >= 0
      invariant -1 <= i < |remote|
      invariant forall j :: i < j < |remote| ==> remote[j] != ':'
    {
      if remote[i] == ':' {
        return remote[..i];
      }
      i := i - 1;
    }
    return remote;
  }

  /** The key is put together piece by piece; the shop is taken from the context, the header or the query. */
  method BuildRateLimitKey(rule: Rule, contextShop: string, headerShop: string, queryShop: string,
                           forwarded: string, realIP: string, remote: string, now: nat) returns (key: string)
    ensures var shop := if contextShop != "" then contextShop else if headerShop != "" then headerShop else queryShop;
            key == Key(rule, shop, ClientIP(forwarded, realIP, remote), BucketOf(now, rule.window))
  {
    key := "ratelimit:" + Component(rule.pathPrefix);
    if rule.perShop {
      var shop := contextShop;
      if shop == "" {
        shop := headerShop;
      }
      if shop == "" {
        shop := queryShop;
      }
      if shop != "" {
        key := key + (":" + shop);
      }
    }
    if rule.perIP {
      var ip := ExtractClientIP(forwarded, realIP, remote);
      key := key + (":" + ip);
    }
    key := key + ":" + Digits(BucketOf(now, rule.window));
  }
}
