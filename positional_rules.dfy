/**
 * The positional route middleware: handle(device, browser = '*',
 * operator = '=', version = '*') builds a one-device rule map from its
 * arguments and hands it to process.
 */
module PositionalRules {
  import opened Optional
  import opened Php
  import opened Rules
  import opened Versions
  import opened RuleParser
  import opened DecipherRules
  import opened ParserExamples

  /** The rule map handle builds: every browser, every version, or one operator and version. */
  function RuleFromArguments(device: string, browser: string, operator: string, version: string): (rules: RuleSet)
    ensures rules.Keys == {device}
    ensures rules[device] == AllBrowsers <==> browser == "*"
    ensures rules[device].Browsers? ==> rules[device].browsers.Keys == {browser}
    ensures rules[device].Browsers? ==>
      (rules[device].browsers[browser] == AllVersions <==> version == "*")
    ensures rules[device].Browsers? && rules[device].browsers[browser].Versions? ==>
      rules[device].browsers[browser].ops == map[operator := version]
  {
    if browser == "*" then map[device := AllBrowsers]
    else if version == "*" then map[device := Browsers(map[browser := AllVersions])]
    else map[device := Browsers(map[browser := Versions(map[operator := version])])]
  }

  /**
   * Arguments the matcher can compare: a known operator and a dotted numeric
   * version, unless the browser or the version is '*' and no pair is built.
   */
  predicate ComparableArguments(browser: string, operator: string, version: string) {
    browser == "*" || version == "*" || (IsOperator(operator) && IsVersion(version))
  }

  /**
   * The built rules block exactly the clients of that device, then of that
   * browser unless it is '*', then whose version satisfies the operator
   * unless the version is '*'.
   */
  lemma BlocksExactly(device: string, browser: string, operator: string, version: string, client: Client)
    requires ComparableArguments(browser, operator, version)
    requires client.device == device && client.browser == browser && browser != "*" && version != "*" ==> IsVersion(client.version)
    ensures Comparable(RuleFromArguments(device, browser, operator, version), client)
    ensures Blocked(RuleFromArguments(device, browser, operator, version), client) <==>
      && client.device == device
      && (browser == "*" || client.browser == browser)
      && (browser == "*" || version == "*" || Satisfies(client.version, operator, version))
  {
    var rules := RuleFromArguments(device, browser, operator, version);
    if client.device == device && browser != "*" && client.browser == browser && version != "*" {
      var ops := map[operator := version];
      assert VersionRules(rules, client) == ops;
      if Satisfies(client.version, operator, version) {
        PairsCombineByOr(rules, client, ops, operator);
      } else {
        BlockedByPairs(rules, client, ops);
        assert ops.Keys == {operator};
      }
    } else if client.device != device || (browser != "*" && client.browser != browser) {
      NoRuleNoBlock(rules, client);
    }
  }

  /** A filter string of one truthy segment without ';' is that segment applied to the rules. */
  lemma OneSegment(rules: RuleSet, segment: string)
    requires !Falsy(segment) && ';' !in segment
    ensures Parse(rules, segment) == ApplyRule(rules, segment)
  {
    ExplodeWithoutSeparator(segment, ';');
    assert FilterSegments(segment) == [segment];
    assert [segment][..0] == [];
    assert ParseSegments(rules, []) == Some(rules);
  }

  /** Device only: the same rules as the filter string 'device'. */
  lemma AgreesOnDevice(device: string, operator: string, version: string)
    requires Name(device)
    ensures Parse(map[], device) == Some(RuleFromArguments(device, "*", operator, version))
  {
    OneSegment(map[], device);
    DeviceWildcardOverrides(map[], device);
  }

  /** Device and browser: the same rules as the filter string 'device/browser'. */
  lemma AgreesOnBrowser(device: string, browser: string, operator: string)
    requires Name(device) && Name(browser)
    ensures Parse(map[], device + "/" + browser) == Some(RuleFromArguments(device, browser, operator, "*"))
  {
    assert (device + "/" + browser)[0] == device[0];
    OneSegment(map[], device + "/" + browser);
    BrowserWildcardOverrides(map[], device, browser);
  }

  /** All four arguments: the same rules as the filter string 'device/browser/operatorversion'. */
  lemma AgreesOnVersion(device: string, browser: string, operator: string, version: string)
    requires Name(device) && Name(browser) && OperatorText(operator) && BareVersion(version)
    ensures Parse(map[], device + "/" + browser + "/" + (operator + version)) == Some(RuleFromArguments(device, browser, operator, version))
  {
    var s := device + "/" + browser + "/" + (operator + version);
    assert s[0] == device[0];
    OneSegment(map[], s);
    assert (operator + version)[|operator|] == version[0];
    NewVersions(map[], device, browser, operator + version);
    OperatorToken(map[], operator, version);
  }

  /** The default operator: a bare version in a filter string means '='. */
  lemma AgreesOnDefaultOperator(device: string, browser: string, version: string)
    requires Name(device) && Name(browser) && BareVersion(version)
    ensures Parse(map[], device + "/" + browser + "/" + version) == Some(RuleFromArguments(device, browser, "=", version))
  {
    var s := device + "/" + browser + "/" + version;
    assert s[0] == device[0];
    OneSegment(map[], s);
    NewVersions(map[], device, browser, version);
    BareVersionField(version);
  }
}
