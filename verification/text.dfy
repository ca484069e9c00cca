/**
 * String predicates of the .NET base library that the order service relies
 * on: ordinal prefix tests and comparison, and `char.IsWhiteSpace`.
 * Strings are sequences of Unicode scalar values.
 */
module Text {

  /** `s.StartsWith(prefix, StringComparison.Ordinal)`. */
  predicate StartsWith(s: string, prefix: string) {
    |prefix| <= |s| && s[..|prefix|] == prefix
  }

  /** Ordinal (code-point by code-point) strict order, as `string.CompareOrdinal(a, b) < 0`. */
  predicate OrdinalLess(a: string, b: string)
    decreases |a|
  {
    if |a| == 0 then |b| > 0
    else if |b| == 0 then false
    else if a[0] != b[0] then a[0] < b[0]
    else OrdinalLess(a[1..], b[1..])
  }

  predicate OrdinalLeq(a: string, b: string) {
    a == b || OrdinalLess(a, b)
  }

  lemma {:induction false} OrdinalLessIrreflexive(a: string)
    ensures !OrdinalLess(a, a)
    decreases |a|
  {
    if |a| > 0 {
      OrdinalLessIrreflexive(a[1..]);
    }
  }

  lemma {:induction false} OrdinalLessTransitive(a: string, b: string, c: string)
    requires OrdinalLess(a, b) && OrdinalLess(b, c)
    ensures OrdinalLess(a, c)
    decreases |a|
  {
    if |a| > 0 && |b| > 0 && |c| > 0 && a[0] == b[0] && b[0] == c[0] {
      OrdinalLessTransitive(a[1..], b[1..], c[1..]);
    }
  }

  lemma {:induction false} OrdinalTotal(a: string, b: string)
    ensures a == b || OrdinalLess(a, b) || OrdinalLess(b, a)
    decreases |a|
  {
    if |a| > 0 && |b| > 0 && a[0] == b[0] {
      OrdinalTotal(a[1..], b[1..]);
      if a[1..] == b[1..] {
        assert a == [a[0]] + a[1..] && b == [b[0]] + b[1..];
      }
    }
  }

  lemma {:induction false} OrdinalLessAsymmetric(a: string, b: string)
    requires OrdinalLess(a, b)
    ensures !OrdinalLess(b, a) && a != b
  {
    if OrdinalLess(b, a) {
      OrdinalLessTransitive(a, b, a);
      OrdinalLessIrreflexive(a);
    }
    if a == b {
      OrdinalLessIrreflexive(a);
    }
  }

  /** A common prefix does not change the ordinal comparison of the rest. */
  lemma {:induction false} OrdinalLessCommonPrefix(p: string, a: string, b: string)
    ensures OrdinalLess(p + a, p + b) <==> OrdinalLess(a, b)
    decreases |p|
  {
    if |p| > 0 {
      assert (p + a)[0] == p[0] == (p + b)[0];
      assert (p + a)[1..] == p[1..] + a;
      assert (p + b)[1..] == p[1..] + b;
      OrdinalLessCommonPrefix(p[1..], a, b);
    } else {
      assert p + a == a && p + b == b;
    }
  }

  /** `char.IsWhiteSpace`: the Unicode space separators plus U+0009-U+000D, U+0085, U+2028 and U+2029. */
  predicate IsWhiteSpace(c: char) {
    || '\U{0009}' <= c <= '\U{000D}'
    || c == ' ' || c == '\U{0085}' || c == '\U{00A0}' || c == '\U{1680}'
    || '\U{2000}' <= c <= '\U{200A}'
    || c == '\U{2028}' || c == '\U{2029}' || c == '\U{202F}' || c == '\U{205F}' || c == '\U{3000}'
  }

  /** `string.IsNullOrWhiteSpace` on a non-null string. */
  predicate IsWhiteSpaceOnly(s: string) {
    forall i :: 0 <= i < |s| ==> IsWhiteSpace(s[i])
  }
}
