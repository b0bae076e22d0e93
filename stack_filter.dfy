/**
 * The stack variant of the middleware: it asks determineRedirect only when
 * nothing is stored for the client, stores that answer, and otherwise uses
 * whatever the cache holds without writing to it.
 */
module StackFilter {
  import opened Optional
  import opened Rules
  import opened DecipherRules
  import opened Outcomes
  import opened CacheKeys
  import opened BrowserFilter

  /** One call of handle: what it returns and the cache it leaves behind. */
  function StackStep(config: Config, client: Client, cache: Cache, path: string): (Outcome, Cache)
    requires Evaluates(config, client, cache, path) ==> Comparable(config.blocked, client)
  {
    if path == config.route then (Next, cache)
    else
      var key := DecisionKey(client);
      if key in cache then (Answer(cache[key].value), cache)
      else
        var d := Determination(config.blocked, client, config.route);
        (Answer(d), cache[key := Entry(d, config.timeout)])
  }

  /** On its own redirect route the filter passes the request on and leaves the cache alone. */
  lemma RedirectRoutePasses(config: Config, client: Client, cache: Cache)
    ensures StackStep(config, client, cache, config.route) == (Next, cache)
  {
  }

  /** Any stored value, false included, is used as it is: truthy ones are returned, and nothing is put. */
  lemma HitChangesNothing(config: Config, client: Client, cache: Cache, path: string)
    requires path != config.route && DecisionKey(client) in cache
    ensures var stored := cache[DecisionKey(client)].value;
      StackStep(config, client, cache, path) == (if stored == False then Next else Respond(stored), cache)
  {
  }

  /** On a miss a blocked client is redirected to the configured route, and the answer is stored. */
  lemma MissStoresDecision(config: Config, client: Client, cache: Cache, path: string)
    requires Comparable(config.blocked, client)
    requires Evaluates(config, client, cache, path)
    ensures var d := if Blocked(config.blocked, client) then Redirect(RedirectResponse(config.route)) else False;
      StackStep(config, client, cache, path) == (if d == False then Next else Respond(d), cache[DecisionKey(client) := Entry(d, config.timeout)])
  {
  }

  /** A repeated request gets the same answer and changes nothing. */
  lemma RepeatIsCached(config: Config, client: Client, cache: Cache, path: string)
    requires Evaluates(config, client, cache, path) ==> Comparable(config.blocked, client)
    ensures var (first, after) := StackStep(config, client, cache, path);
      && !Evaluates(config, client, after, path)
      && StackStep(config, client, after, path) == (first, after)
  {
    var (first, after) := StackStep(config, client, cache, path);
    if Evaluates(config, client, cache, path) {
      var key := DecisionKey(client);
      assert after[key].value == Determination(config.blocked, client, config.route);
    }
  }

  /**
   * The two middlewares agree on every request except one whose cached value
   * is true: the stack variant returns that true, the other a redirect.
   */
  lemma AgreesWithBrowserFilter(config: Config, client: Client, cache: Cache, path: string)
    requires Evaluates(config, client, cache, path) ==> Comparable(config.blocked, client)
    requires Lookup(cache, DecisionKey(client)) != Some(True)
    ensures StackStep(config, client, cache, path).0 == BrowserFilter.HandleStep(config, client, cache, path).0
  {
  }

  /** The stack middleware: the cache it reads and writes, its configuration and the parsed client. */
  class Filter {
    var cache: Cache
    const config: Config
    const client: Client
    /** How many times handle has run the matcher. */
    ghost var matcherRuns: nat

    constructor(cache: Cache, config: Config, client: Client)
      ensures this.cache == cache && this.config == config && this.client == client
      ensures matcherRuns == 0
    {
      this.cache := cache;
      this.config := config;
      this.client := client;
      matcherRuns := 0;
    }

    /** onRedirectPath: the request path is the configured redirect route. */
    predicate OnRedirectPath(path: string) {
      path == config.route
    }

    /** handle: answer one request for the path, asking determineRedirect only on a miss. */
    method Handle(path: string) returns (result: Outcome)
      requires Evaluates(config, client, cache, path) ==> Comparable(config.blocked, client)
      modifies this
      ensures (result, cache) == StackStep(config, client, old(cache), path)
      ensures matcherRuns == old(matcherRuns) + (if Evaluates(config, client, old(cache), path) then 1 else 0)
    {
      if OnRedirectPath(path) {
        return Next;
      }
      var key := DecisionKey(client);
      var redirect := Lookup(cache, key);
      var decision: Decision;
      if redirect.None? {
        decision := DetermineRedirect(config.blocked, client, config.route);
        matcherRuns := matcherRuns + 1;
        cache := cache[key := Entry(decision, config.timeout)];
      } else {
        decision := redirect.value;
      }
      if Truthy(decision) {
        return Respond(decision);
      }
      return Next;
    }
  }
}
