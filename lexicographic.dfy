/**
 * Swift's `String` comparison `<` and `String.hasPrefix`, modelled as
 * lexicographic order and prefix on sequences of characters.
 */
module Lexicographic {

  /** `a < b`: a proper prefix is smaller; otherwise the first differing character decides. */
  predicate Less(a: string, b: string)
    decreases |a|
  {
    if |a| == 0 then |b| > 0
    else if |b| == 0 then false
    else a[0] < b[0] || (a[0] == b[0] && Less(a[1..], b[1..]))
  }

  /** `s.hasPrefix(p)` */
  predicate HasPrefix(s: string, p: string) {
    |p| <= |s| && s[..|p|] == p
  }

  lemma {:induction false} LessIrreflexive(a: string)
    ensures !Less(a, a)
  {
    if |a| > 0 {
      LessIrreflexive(a[1..]);
    }
  }

  lemma {:induction false} LessTransitive(a: string, b: string, c: string)
    requires Less(a, b) && Less(b, c)
    ensures Less(a, c)
  {
    if |a| > 0 && |b| > 0 && |c| > 0 && a[0] == b[0] && b[0] == c[0] {
      LessTransitive(a[1..], b[1..], c[1..]);
    }
  }

  /** The order is total: two names are equal or one of them is smaller. */
  lemma {:induction false} LessTotal(a: string, b: string)
    ensures a == b || Less(a, b) || Less(b, a)
  {
    if |a| > 0 && |b| > 0 && a[0] == b[0] {
      LessTotal(a[1..], b[1..]);
      if a[1..] == b[1..] {
        assert a == [a[0]] + a[1..];
        assert b == [b[0]] + b[1..];
      }
    }
  }

  lemma LessAsymmetric(a: string, b: string)
    requires Less(a, b)
    ensures !Less(b, a)
  {
    if Less(b, a) {
      LessTransitive(a, b, a);
      LessIrreflexive(a);
    }
  }
}
