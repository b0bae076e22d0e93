/**
 * The cache keys: the decision key 'device:browser:version', the route
 * filters' key that extends it with the filter type and the hashed path,
 * and the key of a parsed filter string. md5 is a parameter: nothing about
 * it is assumed.
 */
module CacheKeys {
  import opened Rules
  import opened Polarity

  /** generateCacheKey: the client's device family, browser family and version joined by ':'. */
  function DecisionKey(client: Client): string {
    client.device + ":" + client.browser + ":" + client.version
  }

  /** The route filters' generateCacheKey: the decision key, the filter type and md5 of the path. */
  function RouteDecisionKey(client: Client, p: Polarity, path: string, md5: string -> string): string {
    DecisionKey(client) + ":" + FilterType(p) + ":" + md5(path)
  }

  /** generateFilterStringCacheKey: 'filter_string:' and md5 of the filter string. */
  function FilterStringKey(filterString: string, md5: string -> string): string {
    "filter_string:" + md5(filterString)
  }

  /** Where the ':' after a sits, a longer first part b has one of its own characters. */
  lemma ColonAt(a: string, x: string, b: string, y: string)
    requires |a| < |b|
    ensures (a + ":" + x)[|a|] == ':'
    ensures (b + ":" + y)[|a|] == b[|a|]
  {
  }

  /** Two strings cut at a ':' that neither first part contains are cut at the same place. */
  lemma CutAtColon(a: string, x: string, b: string, y: string)
    requires ':' !in a && ':' !in b
    requires a + ":" + x == b + ":" + y
    ensures a == b && x == y
  {
    var s := a + ":" + x;
    if |a| < |b| {
      ColonAt(a, x, b, y);
      assert false;
    } else if |b| < |a| {
      ColonAt(b, y, a, x);
      assert false;
    }
    assert a == s[..|a|] == b;
    assert x == s[|a| + 1..] == y;
  }

  /** Clients whose families hold no ':' have the same decision key only when they are the same client. */
  lemma DecisionKeyInjective(c1: Client, c2: Client)
    requires ':' !in c1.device && ':' !in c1.browser
    requires ':' !in c2.device && ':' !in c2.browser
    requires DecisionKey(c1) == DecisionKey(c2)
    ensures c1 == c2
  {
    assert DecisionKey(c1) == c1.device + ":" + (c1.browser + ":" + c1.version);
    assert DecisionKey(c2) == c2.device + ":" + (c2.browser + ":" + c2.version);
    CutAtColon(c1.device, c1.browser + ":" + c1.version, c2.device, c2.browser + ":" + c2.version);
    CutAtColon(c1.browser, c1.version, c2.browser, c2.version);
  }

  /** With a ':' inside a family name, two different clients share a decision key. */
  lemma DecisionKeyCollision()
    ensures Client("a:b", "c", "1") != Client("a", "b:c", "1")
    ensures DecisionKey(Client("a:b", "c", "1")) == DecisionKey(Client("a", "b:c", "1"))
  {
    assert DecisionKey(Client("a:b", "c", "1")) == "a:b:c:1";
    assert DecisionKey(Client("a", "b:c", "1")) == "a:b:c:1";
  }

  /** The route key starts with the decision key, then the filter type, then the hashed path. */
  lemma RouteKeyLayout(client: Client, p: Polarity, path: string, md5: string -> string)
    ensures var key := RouteDecisionKey(client, p, path, md5); var n := |DecisionKey(client)|;
      && key[..n] == DecisionKey(client)
      && key[n..n + 7] == ":" + FilterType(p) + ":"
      && key[n + 7..] == md5(path)
  {
  }

  /** A block filter and an allow filter never share a route key. */
  lemma PolaritiesSeparateKeys(client: Client, path: string, md5: string -> string)
    ensures RouteDecisionKey(client, Block, path, md5) != RouteDecisionKey(client, Allow, path, md5)
  {
    var n := |DecisionKey(client)|;
    RouteKeyLayout(client, Block, path, md5);
    RouteKeyLayout(client, Allow, path, md5);
    assert RouteDecisionKey(client, Block, path, md5)[n + 1] == 'b';
    assert RouteDecisionKey(client, Allow, path, md5)[n + 1] == 'a';
  }

  /** Filter strings share a key exactly when their hashes are equal. */
  lemma FilterStringKeySameHash(s1: string, s2: string, md5: string -> string)
    ensures FilterStringKey(s1, md5) == FilterStringKey(s2, md5) <==> md5(s1) == md5(s2)
  {
    if FilterStringKey(s1, md5) == FilterStringKey(s2, md5) {
      assert md5(s1) == FilterStringKey(s1, md5)[14..];
    }
  }

  /** With a hash free of ':', the only ':' of a filter-string key is the one after 'filter_string'. */
  lemma FilterStringKeyColon(filterString: string, md5: string -> string, i: int)
    requires ':' !in md5(filterString)
    requires 0 <= i < |FilterStringKey(filterString, md5)| && FilterStringKey(filterString, md5)[i] == ':'
    ensures i == 13
  {
    var key := FilterStringKey(filterString, md5);
    if i >= 14 {
      assert false;
    }
    assert key[..14] == "filter_string:";
  }

  /**
   * The decision keys and the route keys never collide with a filter-string
   * key in the shared store: they hold two ':' where a filter-string key,
   * whose hash has none, holds one.
   */
  lemma KeysApartFromFilterStrings(client: Client, p: Polarity, path: string, filterString: string, md5: string -> string)
    requires ':' !in md5(filterString)
    ensures DecisionKey(client) != FilterStringKey(filterString, md5)
    ensures RouteDecisionKey(client, p, path, md5) != FilterStringKey(filterString, md5)
  {
    var a, b := |client.device|, |client.device| + 1 + |client.browser|;
    var key, route := DecisionKey(client), RouteDecisionKey(client, p, path, md5);
    assert key[a] == ':' && key[b] == ':';
    assert route[a] == ':' && route[b] == ':';
    if key == FilterStringKey(filterString, md5) {
      FilterStringKeyColon(filterString, md5, a);
      FilterStringKeyColon(filterString, md5, b);
      assert false;
    }
    if route == FilterStringKey(filterString, md5) {
      FilterStringKeyColon(filterString, md5, a);
      FilterStringKeyColon(filterString, md5, b);
      assert false;
    }
  }
}
