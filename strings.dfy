/**
 * The three java.lang.String queries the merge relies on (startsWith,
 * endsWith, contains), over Dafny strings, with the facts about them
 * that the rest of the model uses.
 */
module Strings {

  /** s.startsWith(prefix) */
  predicate StartsWith(s: string, prefix: string) {
    |prefix| <= |s| && s[..|prefix|] == prefix
  }

  /** s.endsWith(suffix) */
  predicate EndsWith(s: string, suffix: string) {
    |suffix| <= |s| && s[|s| - |suffix|..] == suffix
  }

  /** s.contains(t): t occurs in s at some offset (the empty string occurs everywhere). */
  predicate Contains(s: string, t: string) {
    exists i :: 0 <= i <= |s| - |t| && StartsWith(s[i..], t)
  }

  /** A string that is longer than s never occurs in it; in particular nothing non-empty occurs in "". */
  lemma NotContainsLonger(s: string, t: string)
    requires |s| < |t|
    ensures !Contains(s, t)
  {
  }

  /** Containment survives any text put before or after the searched string. */
  lemma ContainsWithin(p: string, c: string, s: string, t: string)
    requires Contains(c, t)
    ensures Contains(p + c + s, t)
  {
    var i :| 0 <= i <= |c| - |t| && StartsWith(c[i..], t);
    var w := p + c + s;
    var j := |p| + i;
    assert w[j..][..|t|] == c[i..][..|t|];
    assert StartsWith(w[j..], t);
  }

  /** Every string contains itself. */
  lemma ContainsSelf(t: string)
    ensures Contains(t, t)
  {
    assert StartsWith(t[0..], t);
  }

  /** When a + x == b + y and a is the shorter head, x goes on with the next character of b. */
  lemma NextCharAfterShorter(a: string, x: string, b: string, y: string)
    requires a + x == b + y
    ensures |a| < |b| ==> x != [] && x[0] == b[|a|]
  {
    if |a| < |b| {
      assert (a + x)[|a|] == (b + y)[|a|];
    }
  }

  /**
   * Cancellation at a separator: when neither a nor b contains sep, and
   * each is followed by nothing or by text starting with sep, equal
   * concatenations have equal heads.
   */
  lemma {:induction false} SplitAtSeparator(a: string, x: string, b: string, y: string, sep: char)
    requires sep !in a && sep !in b
    requires x == [] || x[0] == sep
    requires y == [] || y[0] == sep
    requires a + x == b + y
    ensures a == b && x == y
  {
    NextCharAfterShorter(a, x, b, y);
    NextCharAfterShorter(b, y, a, x);
    if |a| == |b| {
      assert a == (a + x)[..|a|] == (b + y)[..|b|] == b;
      assert x == (a + x)[|a|..] == (b + y)[|b|..] == y;
    }
  }
}
