/**
 * The rule-string parser as the filters run it: an object holding the rules,
 * updated in place segment by segment. The route filter, the route filter
 * base class and the parser trait all carry this same code.
 */
module StringFilterParsing {
  import opened Optional
  import opened Php
  import opened Rules
  import opened RuleParser

  /**
   * The body of the token loop: the version is what preg_replace leaves, the
   * operator what str_replace leaves of the token once the version is gone,
   * '=' when that is falsy.
   */
  method OperatorVersion(token: string) returns (operator: string, version: string)
    ensures Token(operator, version) == SplitToken(token)
  {
    version := StripNonDigitPrefix(token);
    operator := StrReplaceWithEmpty(token, version);
    if Falsy(operator) {
      operator := "=";
    }
    SplitTokenAsWritten(token);
  }

  /**
   * The token loop of extractVersions: sets operator => version for each
   * token in turn, starting from the browser's existing rule.
   */
  method MergeVersionTokens(start: BrowserRule, tokens: seq<string>) returns (versions: BrowserRule)
    requires tokens != [] ==> start.Versions?
    ensures tokens == [] ==> versions == start
    ensures tokens != [] ==> versions == Versions(MergeTokens(start.ops, tokens))
  {
    versions := start;
    var i := 0;
    while i < |tokens|
      invariant 0 <= i <= |tokens|
      invariant i == 0 ==> versions == start
      invariant i > 0 ==> versions == Versions(MergeTokens(start.ops, tokens[..i]))
    {
      var operator, version := OperatorVersion(tokens[i]);
      MergeTokensStep(start.ops, tokens, i);
      assert i == 0 ==> tokens[..i] == [];
      versions := Versions(versions.ops[operator := version]);
      i := i + 1;
    }
    assert tokens[..|tokens|] == tokens;
  }

  class StringFilterParser {
    /** The rules parsed so far. */
    var rules: RuleSet

    constructor()
      ensures rules == map[]
    {
      rules := map[];
    }

    /**
     * extractVersions: starts from the browser's existing rule (or []) and
     * sets operator => version for each '|'-token in turn.
     */
    method ExtractVersions(device: string, browser: string, operatorVersions: string) returns (versions: BrowserRule)
      requires RuleParser.ExtractVersions(GetBlockedBrowserVersions(rules, device, browser), operatorVersions).Some?
      ensures Some(versions) == RuleParser.ExtractVersions(GetBlockedBrowserVersions(rules, device, browser), operatorVersions)
    {
      var existing := GetBlockedBrowserVersions(rules, device, browser);
      ExtractVersionsMerged(existing, operatorVersions);
      versions := MergeVersionTokens(StartingRule(existing), VersionTokens(operatorVersions));
    }

    /**
     * extractRule: a missing browser field sets the device to '*', a missing
     * version field sets the browser to '*', anything else merges versions.
     */
    method ExtractRule(filter: string)
      requires ApplyRule(rules, filter).Some?
      modifies this
      ensures Some(rules) == ApplyRule(old(rules), filter)
    {
      var fields := SplitRule(filter);
      if fields.browser == "*" {
        rules := rules[fields.device := AllBrowsers];
        return;
      }
      var browsers := BrowsersOf(rules, fields.device);
      if fields.operatorVersions == "*" {
        rules := rules[fields.device := Browsers(browsers[fields.browser := AllVersions])];
        return;
      }
      var versions := ExtractVersions(fields.device, fields.browser, fields.operatorVersions);
      rules := rules[fields.device := Browsers(browsers[fields.browser := versions])];
    }

    /**
     * parseFilterString: extractRule on each non-blank ';'-segment in order,
     * on top of the rules already held (nothing is reset).
     */
    method ParseFilterString(filterString: string)
      requires Parse(rules, filterString).Some?
      modifies this
      ensures Some(rules) == Parse(old(rules), filterString)
    {
      var segments := FilterSegments(filterString);
      var i := 0;
      while i < |segments|
        invariant 0 <= i <= |segments|
        invariant ParseSegments(old(rules), segments[..i]) == Some(rules)
      {
        ParseSegmentsStep(old(rules), segments, i, rules);
        ExtractRule(segments[i]);
        i := i + 1;
      }
      assert segments[..|segments|] == segments;
    }
  }
}
