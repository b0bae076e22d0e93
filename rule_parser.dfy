/**
 * The filter-string grammar as pure functions: what extractRule,
 * extractVersions and parseFilterString do to the rules, segment by segment.
 *
 * A browser or version segment that lands on a wildcard of the same device
 * (or, with version tokens, of the same browser) makes PHP index into the
 * string '*', which raises an Error; the functions return None for it.
 */
module RuleParser {
  import opened Optional
  import opened Php
  import opened Rules

  /** The three fields of one rule segment: device, browser, operator/versions. */
  datatype RuleFields = RuleFields(device: string, browser: string, operatorVersions: string)

  /**
   * explode('/', segment, 3), drop falsy fields, pad with '*' to three: a blank
   * field shifts the later ones left and a missing one becomes '*'.
   */
  function SplitRule(segment: string): (f: RuleFields)
    ensures !Falsy(f.device) && !Falsy(f.browser) && !Falsy(f.operatorVersions)
  {
    var fields := Pad(DropFalsy(ExplodeLimit(segment, '/', 3)), 3, "*");
    RuleFields(fields[0], fields[1], fields[2])
  }

  /** One operator/version token split into its operator and its version. */
  datatype Token = Token(operator: string, version: string)

  /**
   * The version is the token from its first digit on; the operator is the
   * run of non-digits before it, '=' when there is none.
   */
  function SplitToken(token: string): Token {
    var k := NonDigitPrefixLength(token);
    Token(if k == 0 then "=" else token[..k], token[k..])
  }

  /**
   * What the code computes for a token: preg_replace strips the non-digit
   * prefix to give the version, str_replace removes the version from the
   * token, and ?: turns an empty operator into '='. It agrees with SplitToken.
   */
  lemma SplitTokenAsWritten(token: string)
    ensures StripNonDigitPrefix(token) == SplitToken(token).version
    ensures var operator := StrReplaceWithEmpty(token, StripNonDigitPrefix(token));
      (if Falsy(operator) then "=" else operator) == SplitToken(token).operator
  {
    var version := StripNonDigitPrefix(token);
    var k := NonDigitPrefixLength(token);
    assert token == token[..k] + version;
    if version != [] {
      RemoveDigitLedSuffix(token[..k], version);
    }
    assert k > 0 ==> !IsDigit(token[..k][0]);
  }

  /** Splitting an operator written before a version gives them back. */
  lemma SplitTokenOfJoined(operator: string, version: string)
    requires operator != [] && forall i :: 0 <= i < |operator| ==> !IsDigit(operator[i])
    requires version == [] || IsDigit(version[0])
    ensures SplitToken(operator + version) == Token(operator, version)
  {
    var token := operator + version;
    var k := NonDigitPrefixLength(token);
    assert token[..|operator|] == operator && token[|operator|..] == version;
  }

  /**
   * What a token splits into: a non-empty operator without digits and a
   * version that is empty or starts with a digit, which together spell the
   * token, except that a missing operator reads as '='.
   */
  lemma SplitTokenParts(token: string)
    ensures var t := SplitToken(token);
      && t.operator != [] && (forall i :: 0 <= i < |t.operator| ==> !IsDigit(t.operator[i]))
      && (t.version == [] || IsDigit(t.version[0]))
      && (token == t.operator + t.version || (t.operator == "=" && token == t.version))
  {
    var k := NonDigitPrefixLength(token);
    assert token == token[..k] + token[k..];
  }

  /** A token without an operator is an equality test. */
  lemma SplitBareVersion(version: string)
    requires version != [] && IsDigit(version[0])
    ensures SplitToken(version) == Token("=", version)
  {
  }

  /** The '|'-separated tokens of the version field, blank ones dropped. */
  function VersionTokens(field: string): seq<string> {
    DropFalsy(Explode(field, '|'))
  }

  /** $versions[$operator] = $version for each token in turn. */
  function MergeTokens(ops: map<string, string>, tokens: seq<string>): map<string, string>
    decreases |tokens|
  {
    if tokens == [] then ops
    else
      var t := SplitToken(tokens[|tokens| - 1]);
      MergeTokens(ops, tokens[..|tokens| - 1])[t.operator := t.version]
  }

  /** Merging one more token updates the operator it names. */
  lemma MergeTokensStep(ops: map<string, string>, tokens: seq<string>, i: nat)
    requires i < |tokens|
    ensures MergeTokens(ops, tokens[..i + 1]) == MergeTokens(ops, tokens[..i])[SplitToken(tokens[i]).operator := SplitToken(tokens[i]).version]
  {
    assert tokens[..i + 1][..i] == tokens[..i];
  }

  /** The operators named by a list of tokens. */
  function Operators(tokens: seq<string>): set<string>
    decreases |tokens|
  {
    if tokens == [] then {}
    else Operators(tokens[..|tokens| - 1]) + {SplitToken(tokens[|tokens| - 1]).operator}
  }

  /** Merging keeps every old operator and adds the operator of every token. */
  lemma {:induction false} MergeTokensKeys(ops: map<string, string>, tokens: seq<string>)
    ensures MergeTokens(ops, tokens).Keys == ops.Keys + Operators(tokens)
    decreases |tokens|
  {
    if tokens != [] {
      MergeTokensKeys(ops, tokens[..|tokens| - 1]);
    }
  }

  /** An operator that no token names keeps its old version, or stays absent. */
  lemma {:induction false} MergeTokensUntouched(ops: map<string, string>, tokens: seq<string>, op: string)
    requires op !in Operators(tokens)
    ensures op in MergeTokens(ops, tokens) <==> op in ops
    ensures op in ops ==> MergeTokens(ops, tokens)[op] == ops[op]
    decreases |tokens|
  {
    if tokens != [] {
      MergeTokensUntouched(ops, tokens[..|tokens| - 1], op);
    }
  }

  lemma {:induction false} MergeTokensAppend(ops: map<string, string>, a: seq<string>, b: seq<string>)
    ensures MergeTokens(ops, a + b) == MergeTokens(MergeTokens(ops, a), b)
    decreases |b|
  {
    if b == [] {
      assert a + b == a;
    } else {
      assert (a + b)[..|a + b| - 1] == a + b[..|b| - 1];
      MergeTokensAppend(ops, a, b[..|b| - 1]);
    }
  }

  /** For a repeated operator the later token wins. */
  lemma LaterTokenWins(ops: map<string, string>, before: seq<string>, token: string, after: seq<string>)
    requires SplitToken(token).operator !in Operators(after)
    ensures SplitToken(token).operator in MergeTokens(ops, before + [token] + after)
    ensures MergeTokens(ops, before + [token] + after)[SplitToken(token).operator] == SplitToken(token).version
  {
    MergeTokensAppend(ops, before + [token], after);
    assert (before + [token])[..|before + [token]| - 1] == before;
    MergeTokensUntouched(MergeTokens(ops, before + [token]), after, SplitToken(token).operator);
  }

  /**
   * extractVersions: the existing rule for the browser (none, or an empty
   * map, starts from []) with every token of the field merged in. Tokens
   * merged into '*' are a PHP Error (None); with no tokens '*' stays.
   */
  function ExtractVersions(existing: Option<BrowserRule>, field: string): Option<BrowserRule>
  {
    var tokens := VersionTokens(field);
    var start := StartingRule(existing);
    if tokens == [] then Some(start)
    else if start.AllVersions? then None
    else Some(Versions(MergeTokens(start.ops, tokens)))
  }

  /** The rule a browser's versions start from: its existing rule, or []. */
  function StartingRule(existing: Option<BrowserRule>): BrowserRule {
    if existing.Some? then existing.value else Versions(map[])
  }

  /** When extractVersions succeeds it is the start itself or the start with every token merged in. */
  lemma ExtractVersionsMerged(existing: Option<BrowserRule>, field: string)
    requires ExtractVersions(existing, field).Some?
    ensures VersionTokens(field) == [] ==> ExtractVersions(existing, field) == Some(StartingRule(existing))
    ensures VersionTokens(field) != [] ==>
      && StartingRule(existing).Versions?
      && ExtractVersions(existing, field) == Some(Versions(MergeTokens(StartingRule(existing).ops, VersionTokens(field))))
  {
  }

  /**
   * extractVersions fails exactly when tokens are merged into a browser
   * whose rule is '*'; otherwise a field with tokens gives a map holding
   * the existing operators and the operator of every token.
   */
  lemma ExtractVersionsOutcome(existing: Option<BrowserRule>, field: string)
    ensures ExtractVersions(existing, field).None? <==> VersionTokens(field) != [] && existing == Some(AllVersions)
    ensures VersionTokens(field) == [] ==> ExtractVersions(existing, field) == Some(if existing.Some? then existing.value else Versions(map[]))
    ensures VersionTokens(field) != [] && existing != Some(AllVersions) ==>
      var r := ExtractVersions(existing, field);
      && r.Some? && r.value.Versions?
      && r.value.ops.Keys == (if existing.Some? then existing.value.ops.Keys else {}) + Operators(VersionTokens(field))
  {
    if VersionTokens(field) != [] && existing != Some(AllVersions) {
      MergeTokensKeys(StartingRule(existing).ops, VersionTokens(field));
    }
  }

  /** extractRule applied to one segment: the new rules, or None for a PHP Error. */
  function ApplyRule(rules: RuleSet, segment: string): Option<RuleSet> {
    var f := SplitRule(segment);
    if f.browser == "*" then Some(rules[f.device := AllBrowsers])
    else if f.device in rules && rules[f.device].AllBrowsers? then None
    else
      var browsers := BrowsersOf(rules, f.device);
      if f.operatorVersions == "*" then Some(rules[f.device := Browsers(browsers[f.browser := AllVersions])])
      else
        var existing := if f.browser in browsers then Some(browsers[f.browser]) else None;
        match ExtractVersions(existing, f.operatorVersions)
        case None => None
        case Some(versions) => Some(rules[f.device := Browsers(browsers[f.browser := versions])])
  }

  /**
   * What one segment does to the rules: it fails exactly when it names a
   * browser of a device that is '*', or merges version tokens into a browser
   * that is '*'; otherwise only the segment's device gains or changes an
   * entry, and every other device keeps its rule.
   */
  lemma ApplyRuleOutcome(rules: RuleSet, segment: string)
    ensures var f := SplitRule(segment);
      ApplyRule(rules, segment).None? <==>
        && f.browser != "*" && f.device in rules
        && (|| rules[f.device].AllBrowsers?
            || (&& f.operatorVersions != "*" && VersionTokens(f.operatorVersions) != []
                && f.browser in rules[f.device].browsers && rules[f.device].browsers[f.browser] == AllVersions))
    ensures var f, r := SplitRule(segment), ApplyRule(rules, segment);
      r.Some? ==>
        && r.value.Keys == rules.Keys + {f.device}
        && forall d :: d in rules && d != f.device ==> r.value[d] == rules[d]
  {
    var f := SplitRule(segment);
    if f.browser != "*" && !(f.device in rules && rules[f.device].AllBrowsers?) && f.operatorVersions != "*" {
      var browsers := BrowsersOf(rules, f.device);
      var existing := if f.browser in browsers then Some(browsers[f.browser]) else None;
      ExtractVersionsOutcome(existing, f.operatorVersions);
    }
  }

  /** extractRule over the segments, left to right, starting from the given rules. */
  function ParseSegments(rules: RuleSet, segments: seq<string>): Option<RuleSet>
    decreases |segments|
  {
    if segments == [] then Some(rules)
    else
      match ParseSegments(rules, segments[..|segments| - 1])
      case None => None
      case Some(before) => ApplyRule(before, segments[|segments| - 1])
  }

  /** The segments of a filter string: explode(';') with blank pieces dropped. */
  function FilterSegments(filterString: string): seq<string> {
    DropFalsy(Explode(filterString, ';'))
  }

  /** parseFilterString of the trait: the segments applied on top of the given rules. */
  function Parse(rules: RuleSet, filterString: string): Option<RuleSet> {
    ParseSegments(rules, FilterSegments(filterString))
  }

  /** Segments apply left to right: a longer list continues from the rules of its prefix. */
  lemma {:induction false} ParseSegmentsAppend(rules: RuleSet, a: seq<string>, b: seq<string>)
    ensures ParseSegments(rules, a + b) ==
      match ParseSegments(rules, a)
      case None => None
      case Some(mid) => ParseSegments(mid, b)
    decreases |b|
  {
    if b == [] {
      assert a + b == a;
    } else {
      assert (a + b)[..|a + b| - 1] == a + b[..|b| - 1];
      ParseSegmentsAppend(rules, a, b[..|b| - 1]);
    }
  }

  /** A list of segments that parses has prefixes that parse. */
  lemma ParsePrefix(rules: RuleSet, segments: seq<string>, k: nat)
    requires k <= |segments|
    requires ParseSegments(rules, segments).Some?
    ensures ParseSegments(rules, segments[..k]).Some?
  {
    assert segments == segments[..k] + segments[k..];
    ParseSegmentsAppend(rules, segments[..k], segments[k..]);
  }

  /** The next segment of a list that parses applies to the rules of the segments before it. */
  lemma ParseSegmentsStep(rules: RuleSet, segments: seq<string>, i: nat, mid: RuleSet)
    requires i < |segments|
    requires ParseSegments(rules, segments).Some?
    requires ParseSegments(rules, segments[..i]) == Some(mid)
    ensures ApplyRule(mid, segments[i]).Some?
    ensures ParseSegments(rules, segments[..i + 1]) == ApplyRule(mid, segments[i])
  {
    ParsePrefix(rules, segments, i + 1);
    assert segments[..i + 1][..i] == segments[..i];
  }

  /** Two rule strings joined by ';' parse as the first followed by the second. */
  lemma ParseConcat(rules: RuleSet, first: string, second: string)
    ensures Parse(rules, first + ";" + second) ==
      match Parse(rules, first)
      case None => None
      case Some(mid) => Parse(mid, second)
  {
    ExplodeAround(first, ';', second);
    DropFalsyAppend(Explode(first, ';'), Explode(second, ';'));
    ParseSegmentsAppend(rules, FilterSegments(first), FilterSegments(second));
  }

  /** A filter string with no truthy segment leaves the rules as they are. */
  lemma ParseNothing(rules: RuleSet, filterString: string)
    requires forall i :: 0 <= i < |Explode(filterString, ';')| ==> Falsy(Explode(filterString, ';')[i])
    ensures Parse(rules, filterString) == Some(rules)
  {
    DropFalsyAllFalsy(Explode(filterString, ';'));
  }

  /** The segments of a ';'-joined list of truthy segments are that list. */
  lemma FilterSegmentsOfJoin(segments: seq<string>)
    requires |segments| >= 1
    requires forall i :: 0 <= i < |segments| ==> ';' !in segments[i] && !Falsy(segments[i])
    ensures FilterSegments(Join(segments, ';')) == segments
  {
    ExplodeJoin(segments, ';');
    DropFalsyKeepsTruthy(segments);
  }

  lemma {:induction false} DropFalsyKeepsTruthy(xs: seq<string>)
    requires forall i :: 0 <= i < |xs| ==> !Falsy(xs[i])
    ensures DropFalsy(xs) == xs
    decreases |xs|
  {
    if xs != [] {
      DropFalsyKeepsTruthy(xs[1..]);
    }
  }

  /** SplitRule of a segment with at most three '/'-pieces, from those pieces. */
  lemma SplitRuleOfPieces(segment: string, pieces: seq<string>, fields: seq<string>)
    requires Explode(segment, '/') == pieces && |pieces| <= 3
    requires Pad(DropFalsy(pieces), 3, "*") == fields
    ensures SplitRule(segment) == RuleFields(fields[0], fields[1], fields[2])
  {
  }

  /** A device alone, or followed by a blank field, is a device wildcard. */
  lemma DeviceOnlySegment(device: string)
    requires !Falsy(device) && '/' !in device
    ensures SplitRule(device) == RuleFields(device, "*", "*")
    ensures SplitRule(device + "/") == RuleFields(device, "*", "*")
  {
    ExplodeWithoutSeparator(device, '/');
    assert DropFalsy([device]) == [device];
    SplitRuleOfPieces(device, [device], [device, "*", "*"]);
    assert device + "/" == device + ['/'] + "";
    ExplodeAround(device, '/', "");
    assert Explode("", '/') == [""];
    assert DropFalsy([device, ""]) == [device] by {
      assert [device, ""][1..] == [""];
      assert DropFalsy([""]) == [];
    }
    SplitRuleOfPieces(device + "/", [device, ""], [device, "*", "*"]);
  }

  /** A device and a browser, with or without a trailing '/', make a browser wildcard. */
  lemma DeviceBrowserSegment(device: string, browser: string)
    requires !Falsy(device) && '/' !in device
    requires !Falsy(browser) && '/' !in browser
    ensures SplitRule(device + "/" + browser) == RuleFields(device, browser, "*")
    ensures SplitRule(device + "/" + browser + "/") == RuleFields(device, browser, "*")
  {
    ExplodeWithoutSeparator(device, '/');
    ExplodeWithoutSeparator(browser, '/');
    ExplodeAround(device, '/', browser);
    assert device + "/" + browser == device + ['/'] + browser;
    TwoPieces(device, browser);
    SplitRuleOfPieces(device + "/" + browser, [device, browser], [device, browser, "*"]);
    DeviceBrowserSlash(device, browser);
  }

  /** Two truthy pieces are kept as they are. */
  lemma TwoPieces(device: string, browser: string)
    requires !Falsy(device) && !Falsy(browser)
    ensures DropFalsy([device, browser]) == [device, browser]
  {
    assert [device, browser][1..] == [browser];
    assert DropFalsy([browser]) == [browser];
  }

  /** 'device/browser/' cut at every '/': the two names and a blank piece. */
  lemma ExplodeDeviceBrowserSlash(device: string, browser: string)
    requires '/' !in device && '/' !in browser
    ensures Explode(device + "/" + browser + "/", '/') == [device, browser, ""]
  {
    ExplodeWithoutSeparator(device, '/');
    ExplodeWithoutSeparator(browser, '/');
    ExplodeAround(browser, '/', "");
    assert browser + ['/'] + "" == browser + "/";
    assert Explode("", '/') == [""];
    assert device + "/" + browser + "/" == device + ['/'] + (browser + "/");
    ExplodeAround(device, '/', browser + "/");
  }

  /** The blank piece after 'device/browser/' is dropped. */
  lemma DeviceBrowserSlash(device: string, browser: string)
    requires !Falsy(device) && '/' !in device
    requires !Falsy(browser) && '/' !in browser
    ensures SplitRule(device + "/" + browser + "/") == RuleFields(device, browser, "*")
  {
    ExplodeDeviceBrowserSlash(device, browser);
    assert DropFalsy([device, browser, ""]) == [device, browser] by {
      assert [device, browser, ""][1..] == [browser, ""];
      assert [browser, ""][1..] == [""];
      assert DropFalsy([""]) == [];
    }
    SplitRuleOfPieces(device + "/" + browser + "/", [device, browser, ""], [device, browser, "*"]);
  }

  /** A blank middle field shifts the version field into the browser position. */
  lemma BlankBrowserField(device: string, third: string)
    requires !Falsy(device) && '/' !in device
    requires !Falsy(third) && '/' !in third
    ensures SplitRule(device + "//" + third) == RuleFields(device, third, "*")
  {
    ExplodeWithoutSeparator(device, '/');
    ExplodeWithoutSeparator(third, '/');
    ExplodeAround("", '/', third);
    assert "" + ['/'] + third == "/" + third;
    assert Explode("", '/') == [""];
    assert device + "//" + third == device + ['/'] + ("/" + third);
    ExplodeAround(device, '/', "/" + third);
    assert DropFalsy([device, "", third]) == [device, third] by {
      assert [device, "", third][1..] == ["", third];
      assert ["", third][1..] == [third];
      assert DropFalsy([third]) == [third];
    }
    SplitRuleOfPieces(device + "//" + third, [device, "", third], [device, third, "*"]);
  }

  /** Only the first two '/' split: the third field keeps any further '/'. */
  lemma FullSegment(device: string, browser: string, versions: string)
    requires !Falsy(device) && '/' !in device
    requires !Falsy(browser) && '/' !in browser
    requires !Falsy(versions)
    ensures SplitRule(device + "/" + browser + "/" + versions) == RuleFields(device, browser, versions)
  {
    var s := device + "/" + browser + "/" + versions;
    var rest := Explode(versions, '/');
    var all := [device, browser] + rest;
    assert Explode(s, '/') == all by {
      ExplodeWithoutSeparator(device, '/');
      ExplodeWithoutSeparator(browser, '/');
      ExplodeAround(browser, '/', versions);
      assert s == device + ['/'] + (browser + ['/'] + versions);
      ExplodeAround(device, '/', browser + ['/'] + versions);
    }
    var limited := ExplodeLimit(s, '/', 3);
    assert limited == [device, browser, versions] by {
      JoinExplode(versions, '/');
      if |rest| == 1 {
        assert versions == rest[0];
      } else {
        assert all[2..] == rest;
      }
    }
    assert DropFalsy(limited) == limited by {
      assert limited[1..] == [browser, versions];
      assert limited[1..][1..] == [versions];
      assert DropFalsy([versions]) == [versions];
    }
  }

  /** A device wildcard replaces whatever the device had; nothing else changes. */
  lemma DeviceWildcardOverrides(rules: RuleSet, device: string)
    requires !Falsy(device) && '/' !in device
    ensures ApplyRule(rules, device) == Some(rules[device := AllBrowsers])
  {
    DeviceOnlySegment(device);
  }

  /**
   * A browser wildcard replaces whatever the browser had; other browsers of
   * the device and other devices are unchanged.
   */
  lemma BrowserWildcardOverrides(rules: RuleSet, device: string, browser: string)
    requires !Falsy(device) && '/' !in device
    requires !Falsy(browser) && '/' !in browser && browser != "*"
    requires device in rules ==> rules[device].Browsers?
    ensures ApplyRule(rules, device + "/" + browser) == Some(rules[device := Browsers(BrowsersOf(rules, device)[browser := AllVersions])])
  {
    DeviceBrowserSegment(device, browser);
  }

  /** Version tokens merge into the operators the browser already has. */
  lemma VersionsMerge(rules: RuleSet, device: string, browser: string, versions: string)
    requires !Falsy(device) && '/' !in device
    requires !Falsy(browser) && '/' !in browser && browser != "*"
    requires !Falsy(versions) && versions != "*"
    requires device in rules ==> rules[device].Browsers?
    requires browser in BrowsersOf(rules, device) ==> BrowsersOf(rules, device)[browser].Versions?
    ensures var old_ops := if browser in BrowsersOf(rules, device) then BrowsersOf(rules, device)[browser].ops else map[];
      ApplyRule(rules, device + "/" + browser + "/" + versions)
        == Some(rules[device := Browsers(BrowsersOf(rules, device)[browser := Versions(MergeTokens(old_ops, VersionTokens(versions)))])])
  {
    FullSegment(device, browser, versions);
  }
}
