/**
 * The browser filter middleware: for each request it skips its own
 * redirect route, looks the client's decision up in the cache, runs the
 * matcher on a miss, turns `true` into a redirect, stores the decision and
 * either returns the redirect or passes the request on.
 */
module BrowserFilter {
  import opened Optional
  import opened Rules
  import opened DecipherRules
  import opened Outcomes
  import opened CacheKeys

  /** The browserfilter.* configuration: the blocked rules, the redirect route and the cache timeout. */
  datatype Config = Config(blocked: RuleSet, route: string, timeout: nat)

  /** The decision cache. */
  type Cache = map<string, Entry<Decision>>

  /** cache->get(key): the stored value, or null when nothing is stored. */
  function Lookup(cache: Cache, key: string): (v: Option<Decision>)
    ensures v.Some? <==> key in cache
    ensures v.Some? ==> v.value == cache[key].value
  {
    if key in cache then Some(cache[key].value) else None
  }

  /** Whether a call runs the matcher: off the redirect route, with nothing stored for the client. */
  predicate Evaluates(config: Config, client: Client, cache: Cache, path: string) {
    path != config.route && DecisionKey(client) !in cache
  }

  /**
   * The decision handle stores for a stored value other than false: the
   * matcher's answer on a miss, the stored value on a hit, with true
   * replaced by a redirect to the configured route.
   */
  function Settle(config: Config, client: Client, stored: Option<Decision>): (d: Decision)
    requires stored != Some(False)
    requires stored.None? ==> Comparable(config.blocked, client)
    ensures d != True
    ensures Truthy(d) <==> (stored.None? ==> Blocked(config.blocked, client))
  {
    var raw := if stored.Some? then stored.value else if Blocked(config.blocked, client) then True else False;
    if raw == True then Redirect(RedirectResponse(config.route)) else raw
  }

  /** One call of handle: what it returns and the cache it leaves behind. */
  function HandleStep(config: Config, client: Client, cache: Cache, path: string): (Outcome, Cache)
    requires Evaluates(config, client, cache, path) ==> Comparable(config.blocked, client)
  {
    if path == config.route then (Next, cache)
    else
      var key := DecisionKey(client);
      var stored := Lookup(cache, key);
      if stored == Some(False) then (Next, cache)
      else
        var d := Settle(config, client, stored);
        (Answer(d), cache[key := Entry(d, config.timeout)])
  }

  /** On its own redirect route the filter passes the request on and leaves the cache alone. */
  lemma RedirectRoutePasses(config: Config, client: Client, cache: Cache)
    ensures HandleStep(config, client, cache, config.route) == (Next, cache)
    ensures !Evaluates(config, client, cache, config.route)
  {
  }

  /** A stored false passes the request on and stores nothing. */
  lemma StoredFalsePasses(config: Config, client: Client, cache: Cache, path: string)
    requires DecisionKey(client) in cache && cache[DecisionKey(client)].value == False
    ensures HandleStep(config, client, cache, path) == (Next, cache)
  {
  }

  /**
   * On a miss the matcher decides: a blocked client is redirected to the
   * configured route, any other passes; the decision is stored under the
   * client's key with the configured timeout.
   */
  lemma MissStoresDecision(config: Config, client: Client, cache: Cache, path: string)
    requires Comparable(config.blocked, client)
    requires Evaluates(config, client, cache, path)
    ensures var d := if Blocked(config.blocked, client) then Redirect(RedirectResponse(config.route)) else False;
      HandleStep(config, client, cache, path) == (if d == False then Next else Respond(d), cache[DecisionKey(client) := Entry(d, config.timeout)])
  {
  }

  /** A stored true or redirect is returned as a redirect and put back under the key. */
  lemma HitIsPutBack(config: Config, client: Client, cache: Cache, path: string)
    requires path != config.route
    requires DecisionKey(client) in cache && cache[DecisionKey(client)].value != False
    ensures var stored := cache[DecisionKey(client)].value;
      var d := if stored == True then Redirect(RedirectResponse(config.route)) else stored;
      HandleStep(config, client, cache, path) == (Respond(d), cache[DecisionKey(client) := Entry(d, config.timeout)])
  {
  }

  /** Only the client's own key can change; every other entry stays as it was. */
  lemma OtherKeysUntouched(config: Config, client: Client, cache: Cache, path: string, key: string)
    requires Evaluates(config, client, cache, path) ==> Comparable(config.blocked, client)
    requires key != DecisionKey(client)
    ensures var after := HandleStep(config, client, cache, path).1;
      (key in after <==> key in cache) && (key in cache ==> after[key] == cache[key])
  {
  }

  /**
   * A repeated request from the same client gets the same answer, leaves the
   * cache as the first call left it and does not run the matcher again.
   */
  lemma RepeatIsCached(config: Config, client: Client, cache: Cache, path: string)
    requires Evaluates(config, client, cache, path) ==> Comparable(config.blocked, client)
    ensures var (first, after) := HandleStep(config, client, cache, path);
      && !Evaluates(config, client, after, path)
      && HandleStep(config, client, after, path) == (first, after)
  {
    var key := DecisionKey(client);
    var (first, after) := HandleStep(config, client, cache, path);
    if path != config.route && Lookup(cache, key) != Some(False) {
      var d := Settle(config, client, Lookup(cache, key));
      assert d != True && after == cache[key := Entry(d, config.timeout)];
      assert Lookup(after, key) == Some(d);
      if d != False {
        assert Settle(config, client, Some(d)) == d;
        assert after[key := Entry(d, config.timeout)] == after;
      }
    }
  }

  /** The middleware: the cache it reads and writes, its configuration and the parsed client. */
  class Filter {
    var cache: Cache
    const config: Config
    const client: Client
    /** How many times handle has run the matcher. */
    ghost var matcherRuns: nat

    constructor(cache: Cache, config: Config, client: Client)
      ensures this.cache == cache && this.config == config && this.client == client
      ensures matcherRuns == 0
    {
      this.cache := cache;
      this.config := config;
      this.client := client;
      matcherRuns := 0;
    }

    /** onRedirectPath: the request path is the configured redirect route. */
    predicate OnRedirectPath(path: string) {
      path == config.route
    }

    /** handle: answer one request for the path, reading and writing the cache. */
    method Handle(path: string) returns (result: Outcome)
      requires Evaluates(config, client, cache, path) ==> Comparable(config.blocked, client)
      modifies this
      ensures (result, cache) == HandleStep(config, client, old(cache), path)
      ensures matcherRuns == old(matcherRuns) + (if Evaluates(config, client, old(cache), path) then 1 else 0)
    {
      if OnRedirectPath(path) {
        return Next;
      }
      var key := DecisionKey(client);
      var redirect := Lookup(cache, key);
      if redirect == Some(False) {
        return Next;
      }
      var decision: Decision;
      if redirect.None? {
        var blocked := IsBlocked(config.blocked, client);
        matcherRuns := matcherRuns + 1;
        decision := if blocked then True else False;
      } else {
        decision := redirect.value;
      }
      if decision == True {
        decision := Redirect(RedirectResponse(config.route));
      }
      cache := cache[key := Entry(decision, config.timeout)];
      if Truthy(decision) {
        return Respond(decision);
      }
      return Next;
    }
  }
}
