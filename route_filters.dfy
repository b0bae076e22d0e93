/**
 * The route middlewares, which take their rules from a filter string given
 * on the route instead of from the configuration.
 *
 * BlockFilter: handle records the per-route redirect route, parses the
 * filter string into the rules it already holds, and redirects a client the
 * rules match. RouteFilter: parses each filter string from scratch through a
 * cache of parsed rule sets, and keys its decisions by filter type and path;
 * AllowFilter is a RouteFilter of allow polarity.
 */
module RouteFilters {
  import opened Optional
  import opened Php
  import opened Rules
  import opened RuleParser
  import opened StringFilterParsing
  import opened DecipherRules
  import opened Outcomes
  import opened Polarity
  import opened CacheKeys

  /** getRedirectRoute: the route given to handle when it is truthy, the configured route otherwise. */
  function RedirectRouteFor(perRoute: Option<string>, configured: string): (route: string)
    ensures perRoute.Some? && !Falsy(perRoute.value) ==> route == perRoute.value
    ensures perRoute.None? || Falsy(perRoute.value) ==> route == configured
  {
    match perRoute
    case Some(r) => if Falsy(r) then configured else r
    case None => configured
  }

  /** The block filter of the route middlewares: it redirects the clients its parsed rules match. */
  class BlockFilter {
    /** The parser holding the rules parsed so far ($this->rules). */
    const parser: StringFilterParser
    /** The redirect route handle was last given; null when none. */
    var redirectRoute: Option<string>
    /** Config browserfilter.route. */
    const configuredRoute: string
    const client: Client

    /** The $blockFilter flag. */
    const polarity: Polarity := BlockFilterPolarity

    constructor(configuredRoute: string, client: Client)
      ensures fresh(parser) && parser.rules == map[]
      ensures redirectRoute == None && this.configuredRoute == configuredRoute && this.client == client
    {
      parser := new StringFilterParser();
      redirectRoute := None;
      this.configuredRoute := configuredRoute;
      this.client := client;
    }

    /** process: the redirect determineRedirect gives for a blocked client, otherwise $next($request). */
    method Process() returns (result: Outcome)
      requires Comparable(parser.rules, client)
      ensures result.Respond? <==> Blocked(parser.rules, client)
      ensures result.Respond? ==> result.value == Redirect(RedirectResponse(RedirectRouteFor(redirectRoute, configuredRoute)))
    {
      var redirect := DetermineRedirect(parser.rules, client, RedirectRouteFor(redirectRoute, configuredRoute));
      if Truthy(redirect) {
        return Respond(redirect);
      }
      return Next;
    }

    /**
     * handle: records the route's redirect route (null included), parses the
     * filter string on top of the rules already held, then processes.
     */
    method Handle(filterString: string, redirectRoute: Option<string>) returns (result: Outcome)
      requires Parse(parser.rules, filterString).Some?
      requires Comparable(Parse(parser.rules, filterString).value, client)
      modifies this, parser
      ensures this.redirectRoute == redirectRoute
      ensures Some(parser.rules) == Parse(old(parser.rules), filterString)
      ensures result.Respond? <==> Blocked(parser.rules, client)
      ensures result.Respond? ==> result.value == Redirect(RedirectResponse(RedirectRouteFor(redirectRoute, configuredRoute)))
    {
      this.redirectRoute := redirectRoute;
      parser.ParseFilterString(filterString);
      result := Process();
    }
  }

  /** The cache of parsed filter strings. */
  type RulesCache = map<string, Entry<RuleSet>>

  /** cache->get(key, []): the stored rule set, or [] when nothing is stored. */
  function CachedRules(cache: RulesCache, key: string): RuleSet {
    if key in cache then cache[key].value else map[]
  }

  /** Whether parseFilterString will parse: the string is truthy and no non-empty rule set is cached for it. */
  predicate Reparses(cache: RulesCache, filterString: string, md5: string -> string) {
    !Falsy(filterString) && CachedRules(cache, FilterStringKey(filterString, md5)) == map[]
  }

  /**
   * parseFilterString of the route filter: the rules and the cache it
   * leaves. A falsy string changes nothing; a cached non-empty rule set is
   * taken as it is; otherwise the string is parsed from [] and put.
   */
  function CachedParse(rules: RuleSet, cache: RulesCache, filterString: string, md5: string -> string, timeout: nat): (RuleSet, RulesCache)
    requires Reparses(cache, filterString, md5) ==> Parse(map[], filterString).Some?
  {
    if Falsy(filterString) then (rules, cache)
    else
      var key := FilterStringKey(filterString, md5);
      var cached := CachedRules(cache, key);
      if cached != map[] then (cached, cache)
      else
        var parsed := Parse(map[], filterString).value;
        (parsed, cache[key := Entry(parsed, timeout)])
  }

  /** An empty filter string (null, '' or '0') leaves the rules and the cache alone. */
  lemma EmptyFilterString(rules: RuleSet, cache: RulesCache, filterString: string, md5: string -> string, timeout: nat)
    requires Falsy(filterString)
    ensures CachedParse(rules, cache, filterString, md5, timeout) == (rules, cache)
  {
  }

  /** A non-empty rule set cached for the string becomes the rules as it is, with no put. */
  lemma CachedRulesVerbatim(rules: RuleSet, cache: RulesCache, filterString: string, md5: string -> string, timeout: nat)
    requires !Falsy(filterString)
    requires var key := FilterStringKey(filterString, md5); key in cache && cache[key].value != map[]
    ensures CachedParse(rules, cache, filterString, md5, timeout) == (cache[FilterStringKey(filterString, md5)].value, cache)
  {
  }

  /** Otherwise the rules are the string parsed from [], put under its key with the timeout. */
  lemma MissParsesFromEmpty(rules: RuleSet, cache: RulesCache, filterString: string, md5: string -> string, timeout: nat)
    requires Reparses(cache, filterString, md5) && Parse(map[], filterString).Some?
    ensures var parsed := Parse(map[], filterString).value;
      CachedParse(rules, cache, filterString, md5, timeout) == (parsed, cache[FilterStringKey(filterString, md5) := Entry(parsed, timeout)])
  {
  }

  /** For a truthy string the rules held before make no difference: nothing accumulates. */
  lemma NoAccumulation(r1: RuleSet, r2: RuleSet, cache: RulesCache, filterString: string, md5: string -> string, timeout: nat)
    requires !Falsy(filterString)
    requires Reparses(cache, filterString, md5) ==> Parse(map[], filterString).Some?
    ensures CachedParse(r1, cache, filterString, md5, timeout) == CachedParse(r2, cache, filterString, md5, timeout)
  {
  }

  /** Parsing the same string again gives the same rules and leaves the cache as it was. */
  lemma RepeatIsStable(rules: RuleSet, cache: RulesCache, filterString: string, md5: string -> string, timeout: nat)
    requires Reparses(cache, filterString, md5) ==> Parse(map[], filterString).Some?
    ensures var (r1, c1) := CachedParse(rules, cache, filterString, md5, timeout);
      && (Reparses(c1, filterString, md5) ==> Parse(map[], filterString).Some?)
      && CachedParse(r1, c1, filterString, md5, timeout) == (r1, c1)
  {
    var (r1, c1) := CachedParse(rules, cache, filterString, md5, timeout);
    if !Falsy(filterString) {
      var key := FilterStringKey(filterString, md5);
      if CachedRules(cache, key) == map[] {
        assert c1 == cache[key := Entry(r1, timeout)];
        assert CachedRules(c1, key) == r1;
        assert c1[key := Entry(r1, timeout)] == c1;
      }
    }
  }

  /** The route filter: a parser, the cache of parsed filter strings, and the filter's polarity. */
  class RouteFilter {
    /** The parser holding the rules ($this->rules). */
    const parser: StringFilterParser
    var rulesCache: RulesCache
    const md5: string -> string
    /** Config browserfilter.timeout. */
    const timeout: nat
    const polarity: Polarity
    const client: Client

    /** AllowFilter: a route filter whose $blockFilter flag is false. */
    constructor Allow(rulesCache: RulesCache, md5: string -> string, timeout: nat, client: Client)
      ensures fresh(parser) && parser.rules == map[]
      ensures polarity == AllowFilterPolarity
      ensures this.rulesCache == rulesCache && this.md5 == md5 && this.timeout == timeout && this.client == client
    {
      parser := new StringFilterParser();
      this.rulesCache := rulesCache;
      this.md5 := md5;
      this.timeout := timeout;
      polarity := AllowFilterPolarity;
      this.client := client;
    }

    /** generateCacheKey: the decision key extended with the filter type and the hashed path. */
    function GenerateCacheKey(path: string): string {
      RouteDecisionKey(client, polarity, path, md5)
    }

    /** parseFilterString: through the cache of parsed filter strings, starting over from []. */
    method ParseFilterString(filterString: string)
      requires Reparses(rulesCache, filterString, md5) ==> Parse(map[], filterString).Some?
      modifies this, parser
      ensures (parser.rules, rulesCache) == CachedParse(old(parser.rules), old(rulesCache), filterString, md5, timeout)
    {
      if Falsy(filterString) {
        return;
      }
      var key := FilterStringKey(filterString, md5);
      parser.rules := CachedRules(rulesCache, key);
      if parser.rules != map[] {
        return;
      }
      parser.ParseFilterString(filterString);
      rulesCache := rulesCache[key := Entry(parser.rules, timeout)];
    }
  }

  /** An allow filter's decision key: 'Device:Browser:1.2.3:allow:' followed by md5 of the path. */
  lemma AllowFilterKey(client: Client, path: string, md5: string -> string)
    ensures RouteDecisionKey(client, AllowFilterPolarity, path, md5) == DecisionKey(client) + ":allow:" + md5(path)
  {
    assert ":" + FilterType(Allow) + ":" == ":allow:";
  }
}
