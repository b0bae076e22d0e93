/** The usual Some/None wrapper, standing for a PHP value that may be null. */
module Optional {
  datatype Option<+T> = None | Some(value: T)
}

/**
 * The PHP built-ins the filter relies on, restricted to strings:
 * truthiness, explode (with and without a limit), array_filter without a
 * callback, array_pad, preg_replace('/^[^\d]*\/u', '', s) and
 * str_replace(search, '', subject).
 */
module Php {

  /** A string is falsy in PHP exactly when it is "" or "0". */
  predicate Falsy(s: string) {
    s == "" || s == "0"
  }

  predicate IsDigit(c: char) {
    '0' <= c <= '9'
  }

  /** explode(sep, s): the pieces of s between occurrences of sep. */
  function Explode(s: string, sep: char): (parts: seq<string>)
    ensures |parts| >= 1
    ensures forall i :: 0 <= i < |parts| ==> sep !in parts[i]
    decreases |s|
  {
    if |s| == 0 then [""]
    else
      var rest := Explode(s[1..], sep);
      if s[0] == sep then [""] + rest
      else [[s[0]] + rest[0]] + rest[1..]
  }

  /** implode(sep, parts), the inverse of Explode. */
  function Join(parts: seq<string>, sep: char): string
  {
    if |parts| == 0 then ""
    else if |parts| == 1 then parts[0]
    else parts[0] + [sep] + Join(parts[1..], sep)
  }

  lemma {:induction false} JoinExplode(s: string, sep: char)
    ensures Join(Explode(s, sep), sep) == s
    decreases |s|
  {
    if |s| > 0 {
      var rest := Explode(s[1..], sep);
      JoinExplode(s[1..], sep);
      if s[0] != sep && |rest| > 1 {
        assert Join(rest, sep) == rest[0] + [sep] + Join(rest[1..], sep);
        assert Join(Explode(s, sep), sep) == [s[0]] + rest[0] + [sep] + Join(rest[1..], sep);
      }
    }
  }

  lemma {:induction false} ExplodeWithoutSeparator(s: string, sep: char)
    requires sep !in s
    ensures Explode(s, sep) == [s]
    decreases |s|
  {
    if |s| > 0 {
      assert s[0] in s;
      ExplodeWithoutSeparator(s[1..], sep);
      assert [s[0]] + s[1..] == s;
    }
  }

  /** A separator between a and b splits exactly there. */
  lemma {:induction false} ExplodeAround(a: string, sep: char, b: string)
    ensures Explode(a + [sep] + b, sep) == Explode(a, sep) + Explode(b, sep)
    decreases |a|
  {
    var s := a + [sep] + b;
    if |a| == 0 {
      assert s[1..] == b;
    } else {
      assert s[1..] == a[1..] + [sep] + b;
      ExplodeAround(a[1..], sep, b);
    }
  }

  /** Explode undoes Join when no part contains the separator. */
  lemma {:induction false} ExplodeJoin(parts: seq<string>, sep: char)
    requires |parts| >= 1
    requires forall i :: 0 <= i < |parts| ==> sep !in parts[i]
    ensures Explode(Join(parts, sep), sep) == parts
    decreases |parts|
  {
    ExplodeWithoutSeparator(parts[0], sep);
    if |parts| > 1 {
      ExplodeJoin(parts[1..], sep);
      ExplodeAround(parts[0], sep, Join(parts[1..], sep));
      assert parts == [parts[0]] + parts[1..];
    }
  }

  /** Joining the first k parts and the joined rest gives the whole. */
  lemma {:induction false} JoinTail(parts: seq<string>, sep: char, k: nat)
    requires k < |parts|
    ensures Join(parts[..k] + [Join(parts[k..], sep)], sep) == Join(parts, sep)
    decreases k
  {
    if k > 0 {
      var xs := parts[..k] + [Join(parts[k..], sep)];
      assert xs[0] == parts[0];
      assert xs[1..] == parts[1..][..k - 1] + [Join(parts[1..][k - 1..], sep)];
      JoinTail(parts[1..], sep, k - 1);
    } else {
      assert parts[k..] == parts;
    }
  }

  /**
   * explode(sep, s, limit) with a positive limit: at most limit pieces, the
   * last one holding the rest of the string, separators included.
   */
  function ExplodeLimit(s: string, sep: char, limit: nat): (parts: seq<string>)
    requires limit >= 1
    ensures 1 <= |parts| <= limit
    ensures forall i :: 0 <= i < |parts| - 1 ==> sep !in parts[i]
    ensures |parts| < limit ==> sep !in parts[|parts| - 1]
  {
    var all := Explode(s, sep);
    if |all| <= limit then all
    else all[..limit - 1] + [Join(all[limit - 1..], sep)]
  }

  /** Nothing of the input is lost by a limited explode. */
  lemma JoinExplodeLimit(s: string, sep: char, limit: nat)
    requires limit >= 1
    ensures Join(ExplodeLimit(s, sep, limit), sep) == s
  {
    var all := Explode(s, sep);
    JoinExplode(s, sep);
    if |all| > limit {
      JoinTail(all, sep, limit - 1);
    }
  }

  /** array_filter without a callback: keeps the truthy strings, in order. */
  function DropFalsy(xs: seq<string>): (ys: seq<string>)
    ensures |ys| <= |xs|
    ensures forall i :: 0 <= i < |ys| ==> !Falsy(ys[i])
  {
    if xs == [] then []
    else (if Falsy(xs[0]) then [] else [xs[0]]) + DropFalsy(xs[1..])
  }

  /** A list of falsy strings filters down to nothing. */
  lemma {:induction false} DropFalsyAllFalsy(xs: seq<string>)
    requires forall i :: 0 <= i < |xs| ==> Falsy(xs[i])
    ensures DropFalsy(xs) == []
  {
    if xs != [] {
      DropFalsyAllFalsy(xs[1..]);
    }
  }

  lemma {:induction false} DropFalsyAppend(a: seq<string>, b: seq<string>)
    ensures DropFalsy(a + b) == DropFalsy(a) + DropFalsy(b)
    decreases |a|
  {
    if a != [] {
      assert (a + b)[1..] == a[1..] + b;
      DropFalsyAppend(a[1..], b);
    } else {
      assert a + b == b;
    }
  }

  /** array_pad(xs, n, v) on a list: v appended until there are n items. */
  function Pad(xs: seq<string>, n: nat, v: string): (ys: seq<string>)
    ensures |ys| == if |xs| < n then n else |xs|
    ensures ys[..|xs|] == xs
    ensures forall i :: |xs| <= i < |ys| ==> ys[i] == v
  {
    if |xs| < n then xs + seq(n - |xs|, _ => v) else xs
  }

  /** Length of the run of non-digits that starts s. */
  function NonDigitPrefixLength(s: string): (k: nat)
    ensures k <= |s|
    ensures forall i :: 0 <= i < k ==> !IsDigit(s[i])
    ensures k < |s| ==> IsDigit(s[k])
  {
    if s == [] || IsDigit(s[0]) then 0 else 1 + NonDigitPrefixLength(s[1..])
  }

  /** preg_replace('/^[^\d]*\/u', '', s): s from its first digit on. */
  function StripNonDigitPrefix(s: string): (r: string)
    ensures r == s[NonDigitPrefixLength(s)..]
    ensures r == [] || IsDigit(r[0])
  {
    s[NonDigitPrefixLength(s)..]
  }

  /** Removes every non-overlapping occurrence of pat, scanning left to right. */
  function RemoveAll(s: string, pat: string): string
    requires pat != []
    decreases |s|
  {
    if |s| < |pat| then s
    else if s[..|pat|] == pat then RemoveAll(s[|pat|..], pat)
    else [s[0]] + RemoveAll(s[1..], pat)
  }

  /** str_replace(search, '', subject); an empty search leaves subject as is. */
  function StrReplaceWithEmpty(subject: string, search: string): string {
    if search == [] then subject else RemoveAll(subject, search)
  }

  /**
   * Removing a digit-led suffix from a string whose prefix has no digit
   * leaves exactly the prefix: no occurrence can start inside the prefix.
   */
  lemma {:induction false} RemoveDigitLedSuffix(prefix: string, suffix: string)
    requires forall i :: 0 <= i < |prefix| ==> !IsDigit(prefix[i])
    requires suffix != [] && IsDigit(suffix[0])
    ensures RemoveAll(prefix + suffix, suffix) == prefix
    decreases |prefix|
  {
    var s := prefix + suffix;
    if prefix == [] {
      assert s == suffix;
      assert s[..|suffix|] == suffix;
      assert s[|suffix|..] == [];
    } else {
      assert s[..|suffix|][0] == prefix[0];
      assert s[..|suffix|] != suffix;
      assert s[1..] == prefix[1..] + suffix;
      RemoveDigitLedSuffix(prefix[1..], suffix);
      assert s == [prefix[0]] + (prefix[1..] + suffix);
    }
  }
}
