/**
 * The Python string operations the agent's tools and REPL rely on:
 * `str.isspace`/`str.strip`, `str.lower`/`str.upper`, the `in` operator on
 * strings, `str.join` and the decimal rendering of a non-negative `int`.
 */
module Text {

  /** Python's `str.isspace()`: the characters `str.strip()` removes when given no argument. */
  predicate IsSpace(c: char) {
    c == ' ' || '\t' <= c <= '\r' || '\U{1C}' <= c <= '\U{1F}' || c == '\U{85}' || c == '\U{A0}'
    || c == '\U{1680}' || '\U{2000}' <= c <= '\U{200A}' || c == '\U{2028}' || c == '\U{2029}'
    || c == '\U{202F}' || c == '\U{205F}' || c == '\U{3000}'
  }

  predicate AllSpace(s: string) {
    forall k :: 0 <= k < |s| ==> IsSpace(s[k])
  }

  /** `s.lstrip()` */
  function StripLeft(s: string): (r: string)
    ensures |r| <= |s|
    ensures r != [] ==> !IsSpace(r[0])
  {
    if s != [] && IsSpace(s[0]) then StripLeft(s[1..]) else s
  }

  /** `lstrip` cuts off a prefix of whitespace and keeps the rest as it is. */
  lemma {:induction false} StripLeftCuts(s: string)
    ensures var r := StripLeft(s);
            r == s[|s| - |r|..] && AllSpace(s[..|s| - |r|])
    decreases |s|
  {
    if s != [] && IsSpace(s[0]) {
      StripLeftCuts(s[1..]);
      var n := |s| - |StripLeft(s)|;
      assert s[1..][n - 1..] == s[n..];
      assert s[..n] == [s[0]] + s[1..][..n - 1];
    }
  }

  /** `s.rstrip()` */
  function StripRight(s: string): (r: string)
    ensures |r| <= |s|
    ensures r != [] ==> !IsSpace(r[|r| - 1])
  {
    if s != [] && IsSpace(s[|s| - 1]) then StripRight(s[..|s| - 1]) else s
  }

  /** `rstrip` cuts off a suffix of whitespace and keeps the rest as it is. */
  lemma {:induction false} StripRightCuts(s: string)
    ensures var r := StripRight(s);
            r == s[..|r|] && AllSpace(s[|r|..])
    decreases |s|
  {
    if s != [] && IsSpace(s[|s| - 1]) {
      var front := s[..|s| - 1];
      StripRightCuts(front);
      var n := |StripRight(s)|;
      assert front[..n] == s[..n];
      assert s[n..] == front[n..] + [s[|s| - 1]];
    }
  }

  /** `s.strip()`: what remains starts and ends with a non-space. */
  function Strip(s: string): (r: string)
    ensures |r| <= |s|
    ensures r != [] ==> !IsSpace(r[0]) && !IsSpace(r[|r| - 1])
  {
    var l := StripLeft(s);
    StripRightCuts(l);
    StripRight(l)
  }

  /** `strip` keeps the slice of `s` left once the leading and trailing whitespace is cut off. */
  lemma StripCuts(s: string)
    ensures exists i, j :: 0 <= i <= j <= |s| && Strip(s) == s[i..j] && AllSpace(s[..i]) && AllSpace(s[j..])
  {
    var l := StripLeft(s);
    var r := StripRight(l);
    StripLeftCuts(s);
    StripRightCuts(l);
    var i := |s| - |l|;
    assert r == s[i..i + |r|];
    assert s[i + |r|..] == l[|r|..];
  }

  lemma {:induction false} StripLeftPadded(a: string, s: string)
    requires AllSpace(a)
    ensures StripLeft(a + s) == StripLeft(s)
    decreases |a|
  {
    if a != [] {
      assert (a + s)[1..] == a[1..] + s;
      StripLeftPadded(a[1..], s);
    } else {
      assert a + s == s;
    }
  }

  lemma {:induction false} StripRightPadded(s: string, b: string)
    requires AllSpace(b)
    ensures StripRight(s + b) == StripRight(s)
    decreases |b|
  {
    if b != [] {
      assert (s + b)[..|s + b| - 1] == s + b[..|b| - 1];
      StripRightPadded(s, b[..|b| - 1]);
    } else {
      assert s + b == s;
    }
  }

  /** Surrounding whitespace never changes what `strip` keeps. */
  lemma StripIgnoresPadding(a: string, s: string, b: string)
    requires AllSpace(a) && AllSpace(b)
    ensures Strip(a + s + b) == Strip(s)
  {
    StripLeftPadded(a, s + b);
    assert a + s + b == a + (s + b);
    if StripLeft(s) == [] {
      StripLeftCuts(s);
      AllSpaceAppend(s, b);
      AllSpaceStripsToEmpty(s + b);
      AllSpaceStripsToEmpty(s);
    } else {
      StripLeftAppend(s, b);
      StripRightPadded(StripLeft(s), b);
    }
  }

  /** A string with no space at either end strips to itself. */
  lemma StripKeepsTrimmed(s: string)
    requires s != [] && !IsSpace(s[0]) && !IsSpace(s[|s| - 1])
    ensures Strip(s) == s
  {
    assert StripLeft(s) == s;
    assert StripRight(s) == s;
  }

  lemma AllSpaceAppend(s: string, b: string)
    requires AllSpace(s) && AllSpace(b)
    ensures AllSpace(s + b)
  {
  }

  lemma AllSpaceStripsToEmpty(s: string)
    requires AllSpace(s)
    ensures StripLeft(s) == [] && Strip(s) == []
  {
  }

  lemma {:induction false} StripLeftAppend(s: string, b: string)
    requires StripLeft(s) != []
    ensures StripLeft(s + b) == StripLeft(s) + b
    decreases |s|
  {
    if IsSpace(s[0]) {
      assert (s + b)[1..] == s[1..] + b;
      StripLeftAppend(s[1..], b);
    } else {
      assert (s + b)[0] == s[0];
    }
  }

  /** `str.lower()` on one character; only the ASCII capitals are mapped. */
  function Lower(c: char): char {
    if 'A' <= c <= 'Z' then c - 'A' + 'a' else c
  }

  /** `str.upper()` on one character; only the ASCII small letters are mapped. */
  function Upper(c: char): char {
    if 'a' <= c <= 'z' then c - 'a' + 'A' else c
  }

  function LowerStr(s: string): (r: string)
    ensures |r| == |s| && forall k :: 0 <= k < |s| ==> r[k] == Lower(s[k])
  {
    seq(|s|, k requires 0 <= k < |s| => Lower(s[k]))
  }

  function UpperStr(s: string): (r: string)
    ensures |r| == |s| && forall k :: 0 <= k < |s| ==> r[k] == Upper(s[k])
  {
    seq(|s|, k requires 0 <= k < |s| => Upper(s[k]))
  }

  lemma LowerAppend(x: string, y: string)
    ensures LowerStr(x + y) == LowerStr(x) + LowerStr(y)
  {
  }

  /** Lower-casing leaves whitespace alone. */
  lemma LowerKeepsSpace(a: string)
    requires AllSpace(a)
    ensures LowerStr(a) == a
  {
  }

  /** Lower-casing an upper-cased string is lower-casing the original. */
  lemma LowerOfUpper(s: string)
    ensures LowerStr(UpperStr(s)) == LowerStr(s)
  {
  }

  /** Lower-casing twice is lower-casing once. */
  lemma LowerIdempotent(s: string)
    ensures LowerStr(LowerStr(s)) == LowerStr(s)
  {
  }

  /** Lower-casing then stripping is stripping then lower-casing: case and whitespace do not interact. */
  lemma {:induction false} StripLowerCommute(s: string)
    ensures Strip(LowerStr(s)) == LowerStr(Strip(s))
  {
    StripLeftLower(s);
    StripRightLower(StripLeft(s));
    assert LowerStr(StripLeft(s)) == StripLeft(LowerStr(s));
  }

  lemma LowerKeepsSpaceness(c: char)
    ensures IsSpace(Lower(c)) == IsSpace(c)
  {
  }

  lemma {:induction false} StripLeftLower(s: string)
    ensures StripLeft(LowerStr(s)) == LowerStr(StripLeft(s))
    decreases |s|
  {
    if s != [] {
      var l := LowerStr(s);
      LowerKeepsSpaceness(s[0]);
      if IsSpace(s[0]) {
        assert l[1..] == LowerStr(s[1..]);
        StripLeftLower(s[1..]);
      }
    }
  }

  lemma {:induction false} StripRightLower(s: string)
    ensures StripRight(LowerStr(s)) == LowerStr(StripRight(s))
    decreases |s|
  {
    if s != [] {
      var l := LowerStr(s);
      LowerKeepsSpaceness(s[|s| - 1]);
      if IsSpace(s[|s| - 1]) {
        assert l[..|s| - 1] == LowerStr(s[..|s| - 1]);
        StripRightLower(s[..|s| - 1]);
      }
    }
  }

  /** Concatenation regrouped. */
  lemma Regroup<T>(a: seq<T>, b: seq<T>, c: seq<T>)
    ensures a + (b + c) == (a + b) + c
  {
  }

  predicate IsPrefix(p: string, s: string) {
    |p| <= |s| && s[..|p|] == p
  }

  /** Python's `needle in haystack` on strings. */
  predicate Contains(needle: string, haystack: string)
    decreases |haystack|
  {
    IsPrefix(needle, haystack) || (haystack != [] && Contains(needle, haystack[1..]))
  }

  /** `needle` sits in `haystack` starting at offset `i`. */
  predicate OccursAt(needle: string, haystack: string, i: int) {
    0 <= i <= |haystack| - |needle| && haystack[i..i + |needle|] == needle
  }

  /** `needle in haystack` holds exactly when `needle` occurs at some offset of `haystack`. */
  lemma {:induction false} ContainsIffOccurs(needle: string, haystack: string)
    ensures Contains(needle, haystack) <==> exists i :: OccursAt(needle, haystack, i)
    decreases |haystack|
  {
    var n := |needle|;
    if IsPrefix(needle, haystack) {
      assert OccursAt(needle, haystack, 0);
    } else if haystack == [] {
      assert forall i :: !OccursAt(needle, haystack, i);
    } else {
      var t := haystack[1..];
      ContainsIffOccurs(needle, t);
      if Contains(needle, t) {
        var i :| OccursAt(needle, t, i);
        assert haystack[i + 1..i + 1 + n] == needle;
        assert OccursAt(needle, haystack, i + 1);
      }
      if i :| OccursAt(needle, haystack, i) {
        assert i > 0;
        assert t[i - 1..i - 1 + n] == needle;
        assert OccursAt(needle, t, i - 1);
      }
    }
  }

  /** The empty string is in every string. */
  lemma {:induction false} EmptyContained(haystack: string)
    ensures Contains([], haystack)
  {
    assert IsPrefix([], haystack);
  }

  /** Every character of a contained string occurs in the containing one. */
  lemma {:induction false} ContainsKeepsChars(needle: string, haystack: string, k: nat)
    requires Contains(needle, haystack) && k < |needle|
    ensures needle[k] in haystack
    decreases |haystack|
  {
    if IsPrefix(needle, haystack) {
      assert haystack[k] == needle[k];
    } else {
      ContainsKeepsChars(needle, haystack[1..], k);
      assert needle[k] in haystack[1..];
    }
  }

  /** Being part of is transitive: a part of a part is a part. */
  lemma {:induction false} ContainsTransitive(a: string, b: string, c: string)
    requires Contains(a, b) && Contains(b, c)
    ensures Contains(a, c)
  {
    ContainsIffOccurs(a, b);
    ContainsIffOccurs(b, c);
    var i :| OccursAt(a, b, i);
    var j :| OccursAt(b, c, j);
    assert b == c[j..j + |b|];
    assert a == b[i..i + |a|];
    forall k | 0 <= k < |a|
      ensures c[j + i..j + i + |a|][k] == a[k]
    {
      assert a[k] == b[i + k] == c[j + i + k];
    }
    assert OccursAt(a, c, j + i);
    ContainsIffOccurs(a, c);
  }

  /** A string is never inside a shorter one. */
  lemma {:induction false} LongerNotContained(needle: string, haystack: string)
    requires |needle| > |haystack|
    ensures !Contains(needle, haystack)
    decreases |haystack|
  {
    if haystack != [] {
      LongerNotContained(needle, haystack[1..]);
    }
  }

  /** `sep.join(parts)` */
  function Join(parts: seq<string>, sep: string): (r: string)
    ensures parts == [] ==> r == []
    ensures |parts| == 1 ==> r == parts[0]
  {
    if parts == [] then []
    else if |parts| == 1 then parts[0]
    else parts[0] + sep + Join(parts[1..], sep)
  }

  /** A string inside `y` is inside anything that ends with `y`. */
  lemma ContainedInSuffix(x: string, front: string, y: string)
    requires Contains(x, y)
    ensures Contains(x, front + y)
  {
    ContainsIffOccurs(x, y);
    var i :| OccursAt(x, y, i);
    assert (front + y)[|front| + i..|front| + i + |x|] == y[i..i + |x|];
    assert OccursAt(x, front + y, |front| + i);
    ContainsIffOccurs(x, front + y);
  }

  /** A string is in any string that quotes it. */
  lemma QuotedContained(front: string, x: string, back: string)
    ensures Contains(x, front + x + back)
  {
    assert IsPrefix(x, x + back);
    ContainedInSuffix(x, front, x + back);
    assert front + (x + back) == front + x + back;
  }

  /** Every part is in the joined string. */
  lemma {:induction false} JoinContainsParts(parts: seq<string>, sep: string, k: nat)
    requires k < |parts|
    ensures Contains(parts[k], Join(parts, sep))
    decreases |parts|
  {
    var r := Join(parts, sep);
    if k == 0 {
      assert r[..|parts[0]|] == parts[0];
      assert IsPrefix(parts[0], r);
    } else {
      JoinContainsParts(parts[1..], sep, k - 1);
      ContainedInSuffix(parts[k], parts[0] + sep, Join(parts[1..], sep));
    }
  }

  /**
   * Joining one more part appends the separator and that part, so the parts
   * appear in order with one separator between neighbours.
   */
  lemma {:induction false} JoinAppend(parts: seq<string>, p: string, sep: string)
    requires parts != []
    ensures Join(parts + [p], sep) == Join(parts, sep) + sep + p
    decreases |parts|
  {
    var all := parts + [p];
    assert all[0] == parts[0];
    if |parts| == 1 {
      assert all[1..] == [p];
    } else {
      assert all[1..] == parts[1..] + [p];
      JoinAppend(parts[1..], p, sep);
      Regroup(parts[0] + sep, Join(parts[1..], sep), sep + p);
      Regroup(Join(parts[1..], sep), sep, p);
      Regroup(parts[0] + sep + Join(parts[1..], sep), sep, p);
    }
  }

  predicate IsDigit(c: char) {
    '0' <= c <= '9'
  }

  predicate AllDigits(s: string) {
    forall k :: 0 <= k < |s| ==> IsDigit(s[k])
  }

  function DigitChar(d: nat): (c: char)
    requires d < 10
    ensures IsDigit(c) && c as int - '0' as int == d
  {
    '0' + d as char
  }

  /** `str(n)` for a non-negative `int`: its decimal digits, without leading zeros. */
  function Decimal(n: nat): (r: string)
    ensures r != [] && AllDigits(r)
    ensures |r| > 1 ==> r[0] != '0'
  {
    if n < 10 then [DigitChar(n)] else Decimal(n / 10) + [DigitChar(n % 10)]
  }

  function DigitValue(c: char): nat
    requires IsDigit(c)
  {
    c as int - '0' as int
  }

  /** The number a string of decimal digits denotes. */
  function DigitsValue(s: string): nat
    requires AllDigits(s)
  {
    if s == [] then 0
    else DigitsValue(s[..|s| - 1]) * 10 + DigitValue(s[|s| - 1])
  }

  /** Reading back the digits `Decimal` writes gives the number. */
  lemma {:induction false} DecimalRoundTrip(n: nat)
    ensures DigitsValue(Decimal(n)) == n
  {
    if n >= 10 {
      DecimalRoundTrip(n / 10);
      var s := Decimal(n);
      assert s[..|s| - 1] == Decimal(n / 10);
    }
  }
}
