/**
 * Block and allow filters. A block filter redirects the clients its rules
 * match; an allow filter redirects the clients they do not match.
 */
module Polarity {
  import opened Optional
  import opened Rules
  import opened Versions
  import opened DecipherRules

  datatype Polarity = Block | Allow

  /** The $blockFilter flag of BlockFilter (true). */
  const BlockFilterPolarity: Polarity := Block

  /** The $blockFilter flag of AllowFilter (false). */
  const AllowFilterPolarity: Polarity := Allow

  /** getFilterType: the name a filter reports and puts in its cache keys. */
  function FilterType(p: Polarity): (t: string)
    ensures |t| == 5 && ':' !in t
    ensures t == "block" <==> p == Block
    ensures t == "allow" <==> p == Allow
  {
    match p
    case Block => "block"
    case Allow => "allow"
  }

  /** Whether a client needs redirecting, given whether the rules match it. */
  predicate NeedsRedirect(p: Polarity, matched: bool) {
    match p
    case Block => matched
    case Allow => !matched
  }

  /** The single rule the polarity tests use: the device and browser, at exactly this version. */
  function ExactRule(client: Client): (rules: RuleSet)
    ensures rules.Keys == {client.device}
  {
    map[client.device := Browsers(map[client.browser := Versions(map["==" := client.version])])]
  }

  /** Empty rules match no client: a block filter lets it through, an allow filter redirects it. */
  lemma EmptyRules(client: Client)
    ensures Comparable(map[], client)
    ensures !NeedsRedirect(BlockFilterPolarity, Blocked(map[], client))
    ensures NeedsRedirect(AllowFilterPolarity, Blocked(map[], client))
  {
    NoRuleNoBlock(map[], client);
  }

  /** A client matched by its own exact rule: a block filter redirects it, an allow filter does not. */
  lemma MatchedClient(client: Client)
    requires IsVersion(client.version)
    ensures Comparable(ExactRule(client), client)
    ensures NeedsRedirect(BlockFilterPolarity, Blocked(ExactRule(client), client))
    ensures !NeedsRedirect(AllowFilterPolarity, Blocked(ExactRule(client), client))
  {
    var rules := ExactRule(client);
    var ops := map["==" := client.version];
    assert OperatorRelation("==") == Some(Equal);
    assert VersionRules(rules, client) == ops;
    PairsCombineByOr(rules, client, ops, "==");
  }
}
