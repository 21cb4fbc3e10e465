/** `string.Equals(a, b, StringComparison.OrdinalIgnoreCase)` restricted to
    ASCII: two strings are equal when they have the same length and agree
    character by character after upper-casing. Addresses and transaction
    hashes are hex strings, so ASCII is all that matters here. */
module Ascii {
  import opened Wrappers

  function ToUpper(c: char): (u: char)
    ensures 'a' <= c <= 'z' ==> u as int == c as int - 32
    ensures !('a' <= c <= 'z') ==> u == c
  {
    if 'a' <= c <= 'z' then (c as int - 32) as char else c
  }

  /** The upper-cased copy of `s`. */
  function Fold(s: string): (f: string)
    ensures |f| == |s|
    ensures forall i :: 0 <= i < |s| ==> f[i] == ToUpper(s[i])
  {
    seq(|s|, i requires 0 <= i < |s| => ToUpper(s[i]))
  }

  /** Ordinal, case-insensitive equality of two non-null strings. */
  predicate EqualsIgnoreCase(a: string, b: string)
    ensures a == b ==> EqualsIgnoreCase(a, b)
    ensures EqualsIgnoreCase(a, b) ==> |a| == |b|
  {
    |a| == |b| && forall i :: 0 <= i < |a| ==> ToUpper(a[i]) == ToUpper(b[i])
  }

  /** `string.Equals(x, y, OrdinalIgnoreCase)` where `x` may be null and `y`
      is not: a null string equals no non-null string. */
  predicate MatchesIgnoreCase(x: Option<string>, y: string) {
    x.Some? && EqualsIgnoreCase(x.value, y)
  }

  /** Case-insensitive equality is equality of the upper-cased copies. */
  lemma EqualsIgnoreCaseIsFoldEquality(a: string, b: string)
    ensures EqualsIgnoreCase(a, b) <==> Fold(a) == Fold(b)
  {
    if Fold(a) == Fold(b) {
      forall i | 0 <= i < |a| ensures ToUpper(a[i]) == ToUpper(b[i]) {
        assert Fold(a)[i] == Fold(b)[i];
      }
    }
  }

  /** It is an equivalence relation, so "already known" does not depend on
      which of two spellings of a hash was seen first. */
  lemma EqualsIgnoreCaseIsEquivalence(a: string, b: string, c: string)
    ensures EqualsIgnoreCase(a, a)
    ensures EqualsIgnoreCase(a, b) ==> EqualsIgnoreCase(b, a)
    ensures EqualsIgnoreCase(a, b) && EqualsIgnoreCase(b, c) ==> EqualsIgnoreCase(a, c)
  {
  }

  /** Examples: upper- and lower-case hex digits are the same address. */
  lemma MixedCaseAddressesMatch()
    ensures EqualsIgnoreCase("0xAbC1", "0xaBc1")
    ensures !EqualsIgnoreCase("0xab", "0xac")
  {
    assert ToUpper("0xab"[3]) != ToUpper("0xac"[3]);
  }
}
