/** Splitting composed texts back at their separators. */
module Texts {

  predicate Without(s: string, c: char) {
    forall i :: 0 <= i < |s| ==> s[i] != c
  }

  lemma SeparatorsDiffer(a: string, x: string, b: string, y: string, c: char)
    requires |a| < |b| && (Without(b, c) || Without(x, c))
    ensures a + [c] + x != b + [c] + y
  {
    var s, t := a + [c] + x, b + [c] + y;
    assert s[|a|] == c && t[|a|] == b[|a|];
    assert t[|b|] == c && (|b| < |s| ==> s[|b|] == x[|b| - |a| - 1]);
  }

  /** Texts split uniquely at their first separator, and at their last. */
  lemma SplitUnique(a: string, x: string, b: string, y: string, c: char)
    requires (Without(a, c) && Without(b, c)) || (Without(x, c) && Without(y, c))
    requires a + [c] + x == b + [c] + y
    ensures a == b && x == y
  {
    if |a| < |b| {
      SeparatorsDiffer(a, x, b, y, c);
    } else if |b| < |a| {
      SeparatorsDiffer(b, y, a, x, c);
    } else {
      var s, t := a + [c] + x, b + [c] + y;
      assert a == s[..|a|] && b == t[..|b|];
      assert x == s[|a| + 1..] && y == t[|b| + 1..];
    }
  }
}
