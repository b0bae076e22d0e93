/**
 * Deciding whether a client is blocked by a rule set: the device is '*',
 * or the browser is '*', or any operator/version pair of the browser is
 * satisfied by the client's version.
 */
module DecipherRules {
  import opened Optional
  import opened Rules
  import opened Versions
  import opened Outcomes

  /** isBlockedDevice: the device's entry is the string '*'. */
  predicate IsBlockedDevice(rules: RuleSet, client: Client) {
    GetBlockedBrowsers(rules, client.device) == Some(AllBrowsers)
  }

  /** isBlockedBrowser: the browser's entry under the device is the string '*'. */
  predicate IsBlockedBrowser(rules: RuleSet, client: Client) {
    GetBlockedBrowserVersions(rules, client.device, client.browser) == Some(AllVersions)
  }

  /**
   * The operator/version pairs the version check walks: the browser's map,
   * or none when there is no entry ((array) null is []).
   */
  function VersionRules(rules: RuleSet, client: Client): map<string, string> {
    match GetBlockedBrowserVersions(rules, client.device, client.browser)
    case Some(Versions(ops)) => ops
    case _ => map[]
  }

  /**
   * Every pair can be handed to version_compare with the client's version.
   * With no pairs nothing is compared, so nothing is asked of the version.
   */
  predicate ComparablePairs(version: string, ops: map<string, string>) {
    forall op :: op in ops ==> IsVersion(version) && IsOperator(op) && IsVersion(ops[op])
  }

  /** A known operator and dotted numeric versions on both sides of every comparison. */
  predicate Comparable(rules: RuleSet, client: Client) {
    ComparablePairs(client.version, VersionRules(rules, client))
  }

  /** Some pair among the given operators is satisfied by the version. */
  predicate AnySatisfied(version: string, ops: map<string, string>, among: set<string>)
    requires ComparablePairs(version, ops) && among <= ops.Keys
  {
    exists op :: op in among && Satisfies(version, op, ops[op])
  }

  /** One more operator ORs its own answer into the others'. */
  lemma AnySatisfiedAdd(version: string, ops: map<string, string>, among: set<string>, op: string)
    requires ComparablePairs(version, ops) && among <= ops.Keys && op in ops
    ensures AnySatisfied(version, ops, among + {op}) == (AnySatisfied(version, ops, among) || Satisfies(version, op, ops[op]))
  {
    if AnySatisfied(version, ops, among + {op}) && !Satisfies(version, op, ops[op]) {
      var o :| o in among + {op} && Satisfies(version, o, ops[o]);
      assert o in among;
    }
  }

  /** Moving one element from the remaining to the seen part of a set keeps them complementary. */
  lemma MoveOne<T>(all: set<T>, remaining: set<T>, seen: set<T>, x: T)
    requires remaining <= all && seen == all - remaining && x in remaining
    ensures remaining - {x} <= all && seen + {x} == all - (remaining - {x})
    ensures |remaining - {x}| < |remaining|
  {
  }

  /** isBlockedBrowserVersion's answer: some pair is satisfied (OR over the pairs). */
  predicate VersionMatched(rules: RuleSet, client: Client)
    requires Comparable(rules, client)
  {
    AnySatisfied(client.version, VersionRules(rules, client), VersionRules(rules, client).Keys)
  }

  /** isBlocked: device wildcard, browser wildcard, or a matching version pair. */
  predicate Blocked(rules: RuleSet, client: Client)
    requires Comparable(rules, client)
  {
    IsBlockedDevice(rules, client) || IsBlockedBrowser(rules, client) || VersionMatched(rules, client)
  }

  /**
   * isBlockedBrowserVersion: $denied |= version_compare(...) over every pair.
   * Only reached when the browser's entry is not '*' (isBlocked's ||
   * stops first), so '*' is never cast to an array and compared.
   */
  method IsBlockedBrowserVersion(rules: RuleSet, client: Client) returns (denied: bool)
    requires Comparable(rules, client)
    requires !IsBlockedBrowser(rules, client)
    ensures denied <==> VersionMatched(rules, client)
  {
    var ops := VersionRules(rules, client);
    denied := false;
    var remaining := ops.Keys;
    ghost var seen: set<string> := {};
    while remaining != {}
      invariant remaining <= ops.Keys
      invariant seen == ops.Keys - remaining
      invariant denied == AnySatisfied(client.version, ops, seen)
      decreases |remaining|
    {
      var op :| op in remaining;
      AnySatisfiedAdd(client.version, ops, seen, op);
      MoveOne(ops.Keys, remaining, seen, op);
      denied := denied || Satisfies(client.version, op, ops[op]);
      remaining := remaining - {op};
      seen := seen + {op};
    }
  }

  /** isBlocked, with the short-circuit of ||: the version loop runs only when neither wildcard holds. */
  method IsBlocked(rules: RuleSet, client: Client) returns (blocked: bool)
    requires Comparable(rules, client)
    ensures blocked == Blocked(rules, client)
  {
    if IsBlockedDevice(rules, client) {
      return true;
    }
    if IsBlockedBrowser(rules, client) {
      return true;
    }
    blocked := IsBlockedBrowserVersion(rules, client);
  }

  /** What determineRedirect answers: a redirect to the route for a blocked client, false otherwise. */
  function Determination(rules: RuleSet, client: Client, route: string): (d: Decision)
    requires Comparable(rules, client)
    ensures Truthy(d) <==> Blocked(rules, client)
    ensures d != True
    ensures Truthy(d) ==> d == Redirect(RedirectResponse(route))
  {
    if Blocked(rules, client) then Redirect(RedirectResponse(route)) else False
  }

  /** determineRedirect, given the route getRedirectRoute names. */
  method DetermineRedirect(rules: RuleSet, client: Client, route: string) returns (d: Decision)
    requires Comparable(rules, client)
    ensures d == Determination(rules, client, route)
  {
    var blocked := IsBlocked(rules, client);
    if blocked {
      return Redirect(RedirectResponse(route));
    }
    return False;
  }

  /** A device mapped to '*' blocks every browser and version on it. */
  lemma DeviceWildcardBlocks(rules: RuleSet, client: Client)
    requires client.device in rules && rules[client.device] == AllBrowsers
    ensures Comparable(rules, client) && Blocked(rules, client)
  {
  }

  /** A browser mapped to '*' blocks every version of it. */
  lemma BrowserWildcardBlocks(rules: RuleSet, client: Client)
    requires client.device in rules && rules[client.device].Browsers?
    requires client.browser in rules[client.device].browsers
    requires rules[client.device].browsers[client.browser] == AllVersions
    ensures Comparable(rules, client) && Blocked(rules, client)
  {
  }

  /** A client whose device has no rule, or whose browser has none under it, is not blocked. */
  lemma NoRuleNoBlock(rules: RuleSet, client: Client)
    requires !HaveVersionsForBrowser(rules, client.device, client.browser)
    requires client.device in rules ==> rules[client.device].Browsers?
    ensures Comparable(rules, client) && !Blocked(rules, client)
  {
  }

  /** With specific versions, the client is blocked exactly when one of the pairs holds. */
  lemma BlockedByPairs(rules: RuleSet, client: Client, ops: map<string, string>)
    requires client.device in rules && rules[client.device].Browsers?
    requires client.browser in rules[client.device].browsers
    requires rules[client.device].browsers[client.browser] == Versions(ops)
    requires Comparable(rules, client)
    ensures Blocked(rules, client) == AnySatisfied(client.version, ops, ops.Keys)
  {
    assert VersionRules(rules, client) == ops;
  }

  /** Pairs combine by OR: adding a pair never unblocks, and a satisfied pair blocks on its own. */
  lemma PairsCombineByOr(rules: RuleSet, client: Client, ops: map<string, string>, op: string)
    requires client.device in rules && rules[client.device].Browsers?
    requires client.browser in rules[client.device].browsers
    requires rules[client.device].browsers[client.browser] == Versions(ops)
    requires Comparable(rules, client)
    requires op in ops && Satisfies(client.version, op, ops[op])
    ensures Blocked(rules, client)
  {
    assert VersionRules(rules, client) == ops;
  }

  /**
   * isBlocked read directly off the rule set: the device is '*', or the
   * browser under it is '*', or one of the browser's pairs is satisfied.
   */
  lemma BlockedExactly(rules: RuleSet, client: Client)
    requires Comparable(rules, client)
    ensures Blocked(rules, client) <==>
      client.device in rules &&
      (rules[client.device].AllBrowsers? ||
       (client.browser in rules[client.device].browsers &&
        (rules[client.device].browsers[client.browser].AllVersions? ||
         exists op :: op in rules[client.device].browsers[client.browser].ops &&
           Satisfies(client.version, op, rules[client.device].browsers[client.browser].ops[op]))))
  {
  }
}
