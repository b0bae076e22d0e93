/**
 * The filter strings of the route filter's parsing tests, stated for any
 * family names and versions of the same shape, and worked through the
 * parser's specification from an empty rule set.
 */
module ParserExamples {
  import opened Optional
  import opened Php
  import opened Rules
  import opened RuleParser

  /** A family name usable as a field: truthy, not '*', with no separator in it. */
  predicate Name(s: string) {
    !Falsy(s) && s != "*" && '/' !in s && ';' !in s && '|' !in s
  }

  /** A bare version: starts with a digit, truthy, with no separator in it. */
  predicate BareVersion(v: string) {
    v != [] && IsDigit(v[0]) && !Falsy(v) && '/' !in v && ';' !in v && '|' !in v
  }

  /** An operator spelling: non-empty, without digits or separators. */
  predicate OperatorText(op: string) {
    op != [] && (forall i :: 0 <= i < |op| ==> !IsDigit(op[i])) && '/' !in op && ';' !in op && '|' !in op
  }

  lemma ParseOne(rules: RuleSet, before: seq<string>, s: string, mid: RuleSet, after: RuleSet)
    requires ParseSegments(rules, before) == Some(mid)
    requires ApplyRule(mid, s) == Some(after)
    ensures ParseSegments(rules, before + [s]) == Some(after)
  {
    assert (before + [s])[..|before|] == before;
  }

  /** The segment lists of three and four segments, built one segment at a time. */
  lemma Snoc(a: string, b: string, c: string, d: string)
    ensures [] + [a] == [a] && [a] + [b] == [a, b]
    ensures [a, b] + [c] == [a, b, c] && [a, b, c] + [d] == [a, b, c, d]
  {
  }

  lemma ParseThree(rules: RuleSet, a: string, b: string, c: string, r1: RuleSet, r2: RuleSet, r3: RuleSet)
    requires ApplyRule(rules, a) == Some(r1)
    requires ApplyRule(r1, b) == Some(r2)
    requires ApplyRule(r2, c) == Some(r3)
    ensures ParseSegments(rules, [a, b, c]) == Some(r3)
  {
    Snoc(a, b, c, c);
    assert ParseSegments(rules, []) == Some(rules);
    ParseOne(rules, [], a, rules, r1);
    ParseOne(rules, [a], b, r1, r2);
    ParseOne(rules, [a, b], c, r2, r3);
  }

  lemma ParseFour(rules: RuleSet, a: string, b: string, c: string, d: string,
                  r1: RuleSet, r2: RuleSet, r3: RuleSet, r4: RuleSet)
    requires ApplyRule(rules, a) == Some(r1)
    requires ApplyRule(r1, b) == Some(r2)
    requires ApplyRule(r2, c) == Some(r3)
    requires ApplyRule(r3, d) == Some(r4)
    ensures ParseSegments(rules, [a, b, c, d]) == Some(r4)
  {
    Snoc(a, b, c, d);
    ParseThree(rules, a, b, c, r1, r2, r3);
    ParseOne(rules, [a, b, c], d, r3, r4);
  }

  /** Three segments joined by ';' are the segments of the joined string. */
  lemma ThreeSegments(a: string, b: string, c: string)
    requires !Falsy(a) && !Falsy(b) && !Falsy(c)
    requires ';' !in a && ';' !in b && ';' !in c
    ensures FilterSegments(a + ";" + b + ";" + c) == [a, b, c]
  {
    var segments := [a, b, c];
    assert Join(segments, ';') == a + ";" + b + ";" + c by {
      assert segments[1..] == [b, c];
      assert [b, c][1..] == [c];
      assert Join([b, c], ';') == b + [';'] + c;
      assert Join(segments, ';') == a + [';'] + (b + [';'] + c);
    }
    FilterSegmentsOfJoin(segments);
  }

  /** Four segments joined by ';' are the segments of the joined string. */
  lemma FourSegments(a: string, b: string, c: string, d: string)
    requires !Falsy(a) && !Falsy(b) && !Falsy(c) && !Falsy(d)
    requires ';' !in a && ';' !in b && ';' !in c && ';' !in d
    ensures FilterSegments(a + ";" + b + ";" + c + ";" + d) == [a, b, c, d]
  {
    var segments := [a, b, c, d];
    assert Join(segments, ';') == a + ";" + b + ";" + c + ";" + d by {
      assert segments[1..] == [b, c, d];
      assert [b, c, d][1..] == [c, d];
      assert [c, d][1..] == [d];
      assert Join([c, d], ';') == c + [';'] + d;
      assert Join([b, c, d], ';') == b + [';'] + (c + [';'] + d);
      assert Join(segments, ';') == a + [';'] + (b + [';'] + (c + [';'] + d));
    }
    FilterSegmentsOfJoin(segments);
  }

  /** A trailing ';' adds only a blank segment, which is dropped. */
  lemma TrailingSemicolon(s: string)
    ensures FilterSegments(s + ";") == FilterSegments(s)
  {
    assert s + ";" == s + [';'] + "";
    ExplodeAround(s, ';', "");
    assert Explode("", ';') == [""];
    DropFalsyAppend(Explode(s, ';'), [""]);
    assert DropFalsy([""]) == [];
  }

  /** A bare version field is one equality test on that version. */
  lemma BareVersionField(v: string)
    requires BareVersion(v)
    ensures VersionTokens(v) == [v]
    ensures MergeTokens(map[], VersionTokens(v)) == map["=" := v]
  {
    ExplodeWithoutSeparator(v, '|');
    SplitBareVersion(v);
    assert [v][..0] == [];
  }

  /** A trailing '|' adds only a blank token, which is dropped. */
  lemma TrailingBar(v: string)
    requires BareVersion(v)
    ensures VersionTokens(v + "|") == [v]
  {
    assert v + "|" == v + ['|'] + "";
    ExplodeAround(v, '|', "");
    ExplodeWithoutSeparator(v, '|');
    assert Explode("", '|') == [""];
    assert DropFalsy([v, ""]) == [v] by {
      assert [v, ""][1..] == [""];
      assert DropFalsy([""]) == [];
    }
  }

  /** An operator and version token merged into existing operators. */
  lemma OperatorToken(ops: map<string, string>, op: string, v: string)
    requires OperatorText(op) && BareVersion(v)
    ensures VersionTokens(op + v) == [op + v]
    ensures MergeTokens(ops, VersionTokens(op + v)) == ops[op := v]
  {
    assert '|' !in op + v;
    assert !Falsy(op + v) by {
      assert (op + v)[|op|] == v[0];
    }
    ExplodeWithoutSeparator(op + v, '|');
    SplitTokenOfJoined(op, v);
    assert [op + v][..0] == [];
  }

  /** 'First;Second/Third;Fourth/Fifth/6': omitted fields default to '*' and a bare version to '='. */
  lemma DefaultsRemainingFields(d1: string, d2: string, b2: string, d3: string, b3: string, v: string)
    requires Name(d1) && Name(d2) && Name(b2) && Name(d3) && Name(b3) && BareVersion(v)
    requires d1 != d2 && d1 != d3 && d2 != d3
    ensures Parse(map[], d1 + ";" + d2 + "/" + b2 + ";" + d3 + "/" + b3 + "/" + v) == Some(map[
      d1 := AllBrowsers,
      d2 := Browsers(map[b2 := AllVersions]),
      d3 := Browsers(map[b3 := Versions(map["=" := v])])])
  {
    var a, b, c := d1, d2 + "/" + b2, d3 + "/" + b3 + "/" + v;
    assert b[0] == d2[0] && c[0] == d3[0];
    assert ';' !in b && ';' !in c;
    ThreeSegments(a, b, c);
    DefaultsString(d1, d2, b2, d3, b3, v);
    var r1: RuleSet := map[d1 := AllBrowsers];
    var r2 := r1[d2 := Browsers(map[b2 := AllVersions])];
    var r3 := r2[d3 := Browsers(map[b3 := Versions(map["=" := v])])];
    DeviceWildcardOverrides(map[], d1);
    NewBrowser(r1, d2, b2);
    NewBareVersion(r2, d3, b3, v);
    ParseThree(map[], a, b, c, r1, r2, r3);
  }

  /** The string of the defaults test, cut into its three segments. */
  lemma DefaultsString(d1: string, d2: string, b2: string, d3: string, b3: string, v: string)
    ensures d1 + ";" + d2 + "/" + b2 + ";" + d3 + "/" + b3 + "/" + v
      == d1 + ";" + (d2 + "/" + b2) + ";" + (d3 + "/" + b3 + "/" + v)
  {
  }

  /** A device/browser segment for a device the rules do not name yet. */
  lemma NewBrowser(rules: RuleSet, d: string, b: string)
    requires Name(d) && Name(b) && d !in rules
    ensures ApplyRule(rules, d + "/" + b) == Some(rules[d := Browsers(map[b := AllVersions])])
  {
    BrowserWildcardOverrides(rules, d, b);
  }

  /** A device/browser/version segment with a bare version, for a device the rules do not name yet. */
  lemma NewBareVersion(rules: RuleSet, d: string, b: string, v: string)
    requires Name(d) && Name(b) && BareVersion(v) && d !in rules
    ensures ApplyRule(rules, d + "/" + b + "/" + v) == Some(rules[d := Browsers(map[b := Versions(map["=" := v])])])
  {
    NewVersions(rules, d, b, v);
    BareVersionField(v);
  }

  /** A device/browser/versions segment for a device the rules do not name yet. */
  lemma NewVersions(rules: RuleSet, d: string, b: string, t: string)
    requires Name(d) && Name(b) && d !in rules
    requires !Falsy(t) && t != "*"
    ensures ApplyRule(rules, d + "/" + b + "/" + t) == Some(rules[d := Browsers(map[b := Versions(MergeTokens(map[], VersionTokens(t)))])])
  {
    VersionsMerge(rules, d, b, t);
  }

  /** An operator and version added to a browser that already has operators. */
  lemma AddOperator(rules: RuleSet, d: string, b: string, ops: map<string, string>, op: string, v: string)
    requires Name(d) && Name(b) && OperatorText(op) && BareVersion(v)
    requires d in rules && rules[d].Browsers? && b in rules[d].browsers && rules[d].browsers[b] == Versions(ops)
    ensures ApplyRule(rules, d + "/" + b + "/" + (op + v)) == Some(rules[d := Browsers(rules[d].browsers[b := Versions(ops[op := v])])])
  {
    assert (op + v)[|op|] == v[0];
    VersionsMerge(rules, d, b, op + v);
    OperatorToken(ops, op, v);
  }

  /** The string of the blank-pieces test, cut into its three segments and a trailing ';'. */
  lemma BlankPiecesString(d1: string, d2: string, b2: string, d3: string, b3: string, v: string)
    ensures d1 + "/;" + d2 + "/" + b2 + "/;" + d3 + "/" + b3 + "/" + v + "|;"
      == (d1 + "/") + ";" + (d2 + "/" + b2 + "/") + ";" + (d3 + "/" + b3 + "/" + (v + "|")) + ";"
  {
    assert "/;" == "/" + ";";
    assert "|;" == "|" + ";";
  }

  /** A device followed by a blank field, as the whole segment. */
  lemma DeviceSlash(rules: RuleSet, d: string)
    requires Name(d)
    ensures ApplyRule(rules, d + "/") == Some(rules[d := AllBrowsers])
  {
    DeviceOnlySegment(d);
  }

  /** A device and a browser followed by a blank field, for a new device. */
  lemma BrowserSlash(rules: RuleSet, d: string, b: string)
    requires Name(d) && Name(b) && d !in rules
    ensures ApplyRule(rules, d + "/" + b + "/") == Some(rules[d := Browsers(map[b := AllVersions])])
  {
    DeviceBrowserSegment(d, b);
  }

  /** A bare version followed by a blank token, for a new device. */
  lemma VersionBar(rules: RuleSet, d: string, b: string, v: string)
    requires Name(d) && Name(b) && BareVersion(v) && d !in rules
    ensures ApplyRule(rules, d + "/" + b + "/" + (v + "|")) == Some(rules[d := Browsers(map[b := Versions(map["=" := v])])])
  {
    assert (v + "|")[0] == v[0];
    NewVersions(rules, d, b, v + "|");
    TrailingBar(v);
    BareVersionField(v);
  }

  /** 'First/;Second/Third/;Fourth/Fifth/6|;': blank pieces after '/', '|' and ';' are ignored. */
  lemma IgnoresBlankPieces(d1: string, d2: string, b2: string, d3: string, b3: string, v: string)
    requires Name(d1) && Name(d2) && Name(b2) && Name(d3) && Name(b3) && BareVersion(v)
    requires d1 != d2 && d1 != d3 && d2 != d3
    ensures Parse(map[], d1 + "/;" + d2 + "/" + b2 + "/;" + d3 + "/" + b3 + "/" + v + "|;") == Some(map[
      d1 := AllBrowsers,
      d2 := Browsers(map[b2 := AllVersions]),
      d3 := Browsers(map[b3 := Versions(map["=" := v])])])
  {
    var a, b, c := d1 + "/", d2 + "/" + b2 + "/", d3 + "/" + b3 + "/" + (v + "|");
    BlankPiecesString(d1, d2, b2, d3, b3, v);
    assert a[0] == d1[0] && b[0] == d2[0] && c[0] == d3[0];
    assert ';' !in a && ';' !in b && ';' !in c;
    ThreeSegments(a, b, c);
    TrailingSemicolon(a + ";" + b + ";" + c);
    var r1: RuleSet := map[d1 := AllBrowsers];
    var r2 := r1[d2 := Browsers(map[b2 := AllVersions])];
    var r3 := r2[d3 := Browsers(map[b3 := Versions(map["=" := v])])];
    DeviceSlash(map[], d1);
    BrowserSlash(r1, d2, b2);
    VersionBar(r2, d3, b3, v);
    ParseThree(map[], a, b, c, r1, r2, r3);
  }

  /**
   * 'First/Second/<=3;First/Second/>4;First/Fifth': operators of one browser
   * accumulate across segments (the later version wins when an operator
   * repeats), and another browser of the device is added beside them.
   */
  lemma MergesOperators(d: string, b: string, b2: string, op1: string, v1: string, op2: string, v2: string)
    requires Name(d) && Name(b) && Name(b2) && b != b2
    requires OperatorText(op1) && BareVersion(v1) && OperatorText(op2) && BareVersion(v2)
    ensures Parse(map[], d + "/" + b + "/" + op1 + v1 + ";" + d + "/" + b + "/" + op2 + v2 + ";" + d + "/" + b2) == Some(map[
      d := Browsers(map[b := Versions(map[op1 := v1, op2 := v2]), b2 := AllVersions])])
  {
    var x, y, z := d + "/" + b + "/" + (op1 + v1), d + "/" + b + "/" + (op2 + v2), d + "/" + b2;
    assert (op1 + v1)[|op1|] == v1[0] && (op2 + v2)[|op2|] == v2[0];
    assert x[0] == d[0] && y[0] == d[0] && z[0] == d[0];
    assert ';' !in x && ';' !in y && ';' !in z;
    ThreeSegments(x, y, z);
    MergesString(d, b, b2, op1, v1, op2, v2);
    var r1 := map[d := Browsers(map[b := Versions(map[op1 := v1])])];
    var r2 := r1[d := Browsers(r1[d].browsers[b := Versions(map[op1 := v1][op2 := v2])])];
    var r3 := r2[d := Browsers(BrowsersOf(r2, d)[b2 := AllVersions])];
    NewVersions(map[], d, b, op1 + v1);
    OperatorToken(map[], op1, v1);
    AddOperator(r1, d, b, map[op1 := v1], op2, v2);
    BrowserWildcardOverrides(r2, d, b2);
    ParseThree(map[], x, y, z, r1, r2, r3);
    MergesMaps(d, b, b2, op1, v1, op2, v2, r1, r2, r3);
  }

  lemma MergesString(d: string, b: string, b2: string, op1: string, v1: string, op2: string, v2: string)
    ensures d + "/" + b + "/" + op1 + v1 + ";" + d + "/" + b + "/" + op2 + v2 + ";" + d + "/" + b2
      == (d + "/" + b + "/" + (op1 + v1)) + ";" + (d + "/" + b + "/" + (op2 + v2)) + ";" + (d + "/" + b2)
  {
  }

  lemma MergesMaps(d: string, b: string, b2: string, op1: string, v1: string, op2: string, v2: string,
                   r1: RuleSet, r2: RuleSet, r3: RuleSet)
    requires r1 == map[d := Browsers(map[b := Versions(map[op1 := v1])])]
    requires r2 == r1[d := Browsers(r1[d].browsers[b := Versions(map[op1 := v1][op2 := v2])])]
    requires r3 == r2[d := Browsers(BrowsersOf(r2, d)[b2 := AllVersions])]
    ensures r3 == map[d := Browsers(map[b := Versions(map[op1 := v1, op2 := v2]), b2 := AllVersions])]
  {
    assert r1[d].browsers == map[b := Versions(map[op1 := v1])];
    assert r1[d].browsers[b := Versions(map[op1 := v1][op2 := v2])] == map[b := Versions(map[op1 := v1, op2 := v2])];
    assert r2 == map[d := Browsers(map[b := Versions(map[op1 := v1, op2 := v2])])];
  }

  /**
   * 'First/Second/<=2;First/Second;Third/Forth/=3;Third': a later wildcard
   * for the browser, or for the whole device, replaces the detail before it.
   */
  lemma WildcardsOverride(d1: string, b1: string, t1: string, d2: string, b2: string, t2: string)
    requires Name(d1) && Name(b1) && Name(d2) && Name(b2) && d1 != d2
    requires !Falsy(t1) && t1 != "*" && ';' !in t1
    requires !Falsy(t2) && t2 != "*" && ';' !in t2
    ensures Parse(map[], d1 + "/" + b1 + "/" + t1 + ";" + d1 + "/" + b1 + ";" + d2 + "/" + b2 + "/" + t2 + ";" + d2) == Some(map[
      d1 := Browsers(map[b1 := AllVersions]),
      d2 := AllBrowsers])
  {
    var w, x, y, z := d1 + "/" + b1 + "/" + t1, d1 + "/" + b1, d2 + "/" + b2 + "/" + t2, d2;
    assert w[0] == d1[0] && x[0] == d1[0] && y[0] == d2[0];
    assert ';' !in w && ';' !in x && ';' !in y;
    FourSegments(w, x, y, z);
    OverrideString(d1, b1, t1, d2, b2, t2);
    var r1 := map[d1 := Browsers(map[b1 := Versions(MergeTokens(map[], VersionTokens(t1)))])];
    var r2 := map[d1 := Browsers(map[b1 := AllVersions])];
    var r3 := r2[d2 := Browsers(map[b2 := Versions(MergeTokens(map[], VersionTokens(t2)))])];
    var r4 := r3[d2 := AllBrowsers];
    NewVersions(map[], d1, b1, t1);
    BrowserWildcardOverrides(r1, d1, b1);
    ReplaceBrowser(d1, b1, Versions(MergeTokens(map[], VersionTokens(t1))));
    NewVersions(r2, d2, b2, t2);
    DeviceWildcardOverrides(r3, d2);
    ParseFour(map[], w, x, y, z, r1, r2, r3, r4);
    ReplacedDevice(d1, Browsers(map[b1 := AllVersions]), d2, r3[d2], AllBrowsers);
  }

  lemma ReplacedDevice(d1: string, x: DeviceRule, d2: string, y: DeviceRule, z: DeviceRule)
    requires d1 != d2
    ensures map[d1 := x][d2 := y][d2 := z] == map[d1 := x, d2 := z]
  {
  }

  /** A browser wildcard for the only browser of the only device leaves that browser at '*'. */
  lemma ReplaceBrowser(d: string, b: string, before: BrowserRule)
    ensures var rules := map[d := Browsers(map[b := before])];
      rules[d := Browsers(BrowsersOf(rules, d)[b := AllVersions])] == map[d := Browsers(map[b := AllVersions])]
  {
    var rules := map[d := Browsers(map[b := before])];
    assert BrowsersOf(rules, d) == map[b := before];
    assert map[b := before][b := AllVersions] == map[b := AllVersions];
  }

  lemma OverrideString(d1: string, b1: string, t1: string, d2: string, b2: string, t2: string)
    ensures d1 + "/" + b1 + "/" + t1 + ";" + d1 + "/" + b1 + ";" + d2 + "/" + b2 + "/" + t2 + ";" + d2
      == (d1 + "/" + b1 + "/" + t1) + ";" + (d1 + "/" + b1) + ";" + (d2 + "/" + b2 + "/" + t2) + ";" + d2
  {
  }

}
