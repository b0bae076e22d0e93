/**
 * PHP's version_compare(client, version, operator) for dotted numeric
 * versions ("1.2.3", "10", and the empty version ""), with the fourteen
 * operator spellings PHP accepts.
 */
module Versions {
  import opened Optional
  import opened Php

  /** The six comparisons behind the fourteen operator spellings. */
  datatype Relation = Less | LessOrEqual | Greater | GreaterOrEqual | Equal | NotEqual

  /** The operator spellings version_compare accepts, grouped by meaning. */
  function OperatorRelation(op: string): (r: Option<Relation>)
    ensures r.Some? <==> op in {"<", "lt", "<=", "le", ">", "gt", ">=", "ge", "==", "=", "eq", "!=", "<>", "ne"}
  {
    if op == "<" || op == "lt" then Some(Less)
    else if op == "<=" || op == "le" then Some(LessOrEqual)
    else if op == ">" || op == "gt" then Some(Greater)
    else if op == ">=" || op == "ge" then Some(GreaterOrEqual)
    else if op == "==" || op == "=" || op == "eq" then Some(Equal)
    else if op == "!=" || op == "<>" || op == "ne" then Some(NotEqual)
    else None
  }

  predicate IsOperator(op: string) {
    OperatorRelation(op).Some?
  }

  predicate IsNumeral(s: string) {
    |s| > 0 && forall i :: 0 <= i < |s| ==> IsDigit(s[i])
  }

  /** A dotted numeric version: "" or numerals separated by single dots. */
  predicate IsVersion(s: string) {
    s == "" || var pieces := Explode(s, '.'); forall i :: 0 <= i < |pieces| ==> IsNumeral(pieces[i])
  }

  function DigitValue(c: char): nat {
    if IsDigit(c) then c as int - '0' as int else 0
  }

  /** The decimal value of a numeral, unbounded. */
  function NumeralValue(s: string): nat {
    if s == [] then 0 else 10 * NumeralValue(s[..|s| - 1]) + DigitValue(s[|s| - 1])
  }

  /** LONG_MAX of a 64-bit build, where strtol stops. */
  const LongMax: nat := 0x7FFF_FFFF_FFFF_FFFF

  /** What strtol gives for a numeral: its value, saturated at LONG_MAX. */
  function SegmentValue(s: string): nat {
    if NumeralValue(s) > LongMax then LongMax else NumeralValue(s)
  }

  /** The value version_compare compares for each numeral, in order. */
  function Values(pieces: seq<string>): (p: seq<nat>)
    ensures |p| == |pieces|
    ensures forall i :: 0 <= i < |pieces| ==> p[i] == SegmentValue(pieces[i]) && p[i] <= LongMax
  {
    if pieces == [] then [] else [SegmentValue(pieces[0])] + Values(pieces[1..])
  }

  /** The numeric segments of a version; the empty version has none. */
  function Parts(s: string): seq<nat> {
    if s == "" then [] else Values(Explode(s, '.'))
  }

  /**
   * Segment-by-segment comparison; when one version is a prefix of the other
   * the longer one is greater, so "1.2" < "1.2.0" as in PHP.
   */
  function Compare(a: seq<nat>, b: seq<nat>): (c: int)
    ensures -1 <= c <= 1
    ensures c == 0 <==> a == b
  {
    if a == [] && b == [] then 0
    else if a == [] then -1
    else if b == [] then 1
    else if a[0] < b[0] then -1
    else if a[0] > b[0] then 1
    else
      var c := Compare(a[1..], b[1..]);
      assert a == [a[0]] + a[1..] && b == [b[0]] + b[1..];
      c
  }

  lemma {:induction false} CompareAntisymmetric(a: seq<nat>, b: seq<nat>)
    ensures Compare(a, b) == -Compare(b, a)
  {
    if a != [] && b != [] && a[0] == b[0] {
      CompareAntisymmetric(a[1..], b[1..]);
    }
  }

  lemma {:induction false} CompareTransitive(a: seq<nat>, b: seq<nat>, c: seq<nat>)
    requires Compare(a, b) == -1 && Compare(b, c) == -1
    ensures Compare(a, c) == -1
  {
    if a != [] && b != [] && c != [] && a[0] == b[0] && b[0] == c[0] {
      CompareTransitive(a[1..], b[1..], c[1..]);
    }
  }

  /** A version followed by more segments is greater than the version itself. */
  lemma {:induction false} LongerIsGreater(a: seq<nat>, more: seq<nat>)
    requires more != []
    ensures Compare(a, a + more) == -1
  {
    if a != [] {
      assert (a + more)[1..] == a[1..] + more;
      LongerIsGreater(a[1..], more);
    }
  }

  /** version_compare(a, b): -1, 0 or 1. */
  function VersionCompare(a: string, b: string): (c: int)
    requires IsVersion(a) && IsVersion(b)
    ensures -1 <= c <= 1
    ensures c == 0 <==> Parts(a) == Parts(b)
  {
    Compare(Parts(a), Parts(b))
  }

  /** What version_compare's boolean form answers for a relation and a comparison result. */
  function Holds(rel: Relation, cmp: int): bool {
    match rel
    case Less => cmp == -1
    case LessOrEqual => cmp != 1
    case Greater => cmp == 1
    case GreaterOrEqual => cmp != -1
    case Equal => cmp == 0
    case NotEqual => cmp != 0
  }

  /** version_compare(clientVersion, version, op) as a boolean. */
  predicate Satisfies(clientVersion: string, op: string, version: string)
    requires IsOperator(op) && IsVersion(clientVersion) && IsVersion(version)
  {
    Holds(OperatorRelation(op).value, VersionCompare(clientVersion, version))
  }

  /** Spellings of one operator give the same answer. */
  lemma AliasesAgree(op1: string, op2: string, clientVersion: string, version: string)
    requires IsOperator(op1) && OperatorRelation(op1) == OperatorRelation(op2)
    requires IsVersion(clientVersion) && IsVersion(version)
    ensures IsOperator(op2)
    ensures Satisfies(clientVersion, op1, version) == Satisfies(clientVersion, op2, version)
  {
  }

  /** a > b exactly when b < a; a >= b exactly when b <= a. */
  lemma ConverseOperators(a: string, b: string)
    requires IsVersion(a) && IsVersion(b)
    ensures Satisfies(a, ">", b) <==> Satisfies(b, "<", a)
    ensures Satisfies(a, ">=", b) <==> Satisfies(b, "<=", a)
    ensures Satisfies(a, "==", b) <==> Satisfies(b, "==", a)
  {
    CompareAntisymmetric(Parts(a), Parts(b));
  }

  /** Each operator and its opposite split every pair of versions between them. */
  lemma ComplementaryOperators(a: string, b: string)
    requires IsVersion(a) && IsVersion(b)
    ensures Satisfies(a, ">=", b) <==> !Satisfies(a, "<", b)
    ensures Satisfies(a, "<=", b) <==> !Satisfies(a, ">", b)
    ensures Satisfies(a, "!=", b) <==> !Satisfies(a, "==", b)
    ensures Satisfies(a, "<=", b) <==> Satisfies(a, "<", b) || Satisfies(a, "==", b)
  {
    assert OperatorRelation("<") == Some(Less);
    assert OperatorRelation("<=") == Some(LessOrEqual);
    assert OperatorRelation(">") == Some(Greater);
    assert OperatorRelation(">=") == Some(GreaterOrEqual);
    assert OperatorRelation("==") == Some(Equal);
    assert OperatorRelation("!=") == Some(NotEqual);
  }

  /** "<" on versions is transitive. */
  lemma LessIsTransitive(a: string, b: string, c: string)
    requires IsVersion(a) && IsVersion(b) && IsVersion(c)
    requires Satisfies(a, "<", b) && Satisfies(b, "<", c)
    ensures Satisfies(a, "<", c)
  {
    CompareTransitive(Parts(a), Parts(b), Parts(c));
  }

  /** Parts and validity of a version made of numerals joined by dots. */
  lemma {:induction false} JoinedNumerals(pieces: seq<string>)
    requires |pieces| >= 1
    requires forall i :: 0 <= i < |pieces| ==> IsNumeral(pieces[i])
    ensures IsVersion(Join(pieces, '.'))
    ensures Parts(Join(pieces, '.')) == Values(pieces)
  {
    ExplodeJoin(pieces, '.');
    assert Join(pieces, '.') != "" by {
      if |pieces| == 1 {
        assert Join(pieces, '.') == pieces[0];
      } else {
        assert |Join(pieces, '.')| >= |pieces[0]|;
      }
    }
  }

  /** Versions that differ only in their last segment compare as those segments do. */
  lemma {:induction false} LastSegmentDecides(p: seq<nat>, x: nat, y: nat)
    ensures Compare(p + [x], p + [y]) == (if x < y then -1 else if x > y then 1 else 0)
  {
    if p != [] {
      assert (p + [x])[1..] == p[1..] + [x];
      assert (p + [y])[1..] == p[1..] + [y];
      LastSegmentDecides(p[1..], x, y);
    } else {
      assert [x][1..] == [] && [y][1..] == [];
    }
  }

  lemma ValuesAppend(pieces: seq<string>, x: string)
    ensures Values(pieces + [x]) == Values(pieces) + [SegmentValue(x)]
  {
    var l, r := Values(pieces + [x]), Values(pieces) + [SegmentValue(x)];
    forall i | 0 <= i < |l|
      ensures l[i] == r[i]
    {
      if i < |pieces| {
        assert (pieces + [x])[i] == pieces[i];
      }
    }
  }

  /** Dotted versions that differ only in their last numeral are ordered by it. */
  lemma OrderedByLastSegment(pieces: seq<string>, x: string, y: string)
    requires forall i :: 0 <= i < |pieces| ==> IsNumeral(pieces[i])
    requires IsNumeral(x) && IsNumeral(y) && NumeralValue(x) < NumeralValue(y) <= LongMax
    ensures var lo, hi := Join(pieces + [x], '.'), Join(pieces + [y], '.');
      && IsVersion(lo) && IsVersion(hi)
      && VersionCompare(lo, hi) == -1 && VersionCompare(hi, lo) == 1
  {
    forall i | 0 <= i < |pieces| + 1
      ensures IsNumeral((pieces + [x])[i]) && IsNumeral((pieces + [y])[i])
    {
      if i < |pieces| {
        assert (pieces + [x])[i] == (pieces + [y])[i] == pieces[i];
      }
    }
    JoinedNumerals(pieces + [x]);
    JoinedNumerals(pieces + [y]);
    var vs := Values(pieces);
    ValuesAppend(pieces, x);
    ValuesAppend(pieces, y);
    LastSegmentDecides(vs, SegmentValue(x), SegmentValue(y));
    LastSegmentDecides(vs, SegmentValue(y), SegmentValue(x));
  }

  /**
   * strtol saturates: two single-numeral versions at or beyond LONG_MAX
   * compare equal, however far apart their digits are.
   */
  lemma SaturatedNumeralsTie(x: string, y: string)
    requires IsNumeral(x) && IsNumeral(y) && NumeralValue(x) >= LongMax && NumeralValue(y) >= LongMax
    ensures IsVersion(x) && IsVersion(y)
    ensures VersionCompare(x, y) == 0
  {
    ExplodeWithoutSeparator(x, '.');
    ExplodeWithoutSeparator(y, '.');
    assert Parts(x) == [LongMax] == Parts(y);
  }

  /**
   * Which of the three pairs an operator holds on, for a lower and a higher
   * version (1.2.2 and 1.2.3, or 1.2.3 and 1.2.4): higher against lower,
   * a version against itself, lower against higher.
   */
  lemma OperatorTable(lo: string, hi: string, op: string, rel: Relation)
    requires IsVersion(lo) && IsVersion(hi) && OperatorRelation(op) == Some(rel)
    requires VersionCompare(lo, hi) == -1 && VersionCompare(hi, lo) == 1
    ensures IsOperator(op)
    ensures Satisfies(hi, op, lo) <==> rel in {Greater, GreaterOrEqual, NotEqual}
    ensures Satisfies(hi, op, hi) <==> rel in {LessOrEqual, GreaterOrEqual, Equal}
    ensures Satisfies(lo, op, hi) <==> rel in {Less, LessOrEqual, NotEqual}
  {
    assert VersionCompare(hi, hi) == 0;
  }
}
