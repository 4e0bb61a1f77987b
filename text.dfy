/** Prefix and suffix tests on strings (`String.prototype.startsWith`/`endsWith`). */
module Text {

  predicate StartsWith(s: string, prefix: string) {
    |prefix| <= |s| && s[..|prefix|] == prefix
  }

  predicate EndsWith(s: string, suffix: string) {
    |suffix| <= |s| && s[|s| - |suffix|..] == suffix
  }

  /** A string ends with `suffix` exactly when it is some stem followed by `suffix`. */
  lemma EndsWithIffStem(s: string, suffix: string)
    ensures EndsWith(s, suffix) <==> exists stem: string :: s == stem + suffix
  {
    if EndsWith(s, suffix) {
      var stem := s[..|s| - |suffix|];
      assert s == stem + suffix;
    }
    if exists stem: string :: s == stem + suffix {
      var stem: string :| s == stem + suffix;
      assert s[|s| - |suffix|..] == suffix;
    }
  }

  /** A common head can be taken off both sides of a prefix test. */
  lemma StartsWithCancel(a: string, x: string, y: string)
    ensures StartsWith(a + x, a + y) <==> StartsWith(x, y)
  {
    if |y| <= |x| {
      assert (a + x)[..|a + y|] == a + x[..|y|];
      if StartsWith(a + x, a + y) {
        assert x[..|y|] == (a + x)[..|a + y|][|a|..];
      }
    }
  }

  /** Being under a directory is transitive: a path under `d + "/"` where `d` is
      itself under `root + "/"` is under `root + "/"`. */
  lemma StartsWithTrans(q: string, d: string, root: string)
    requires StartsWith(q, d + "/") && StartsWith(d, root + "/")
    ensures StartsWith(q, root + "/")
  {
    assert q[..|d|] == d;
    assert q[..|root| + 1] == d[..|root| + 1];
  }

  /** Index of the first `c` in `s`, or `|s|` when there is none. */
  function IndexOf(s: string, c: char): (n: nat)
    ensures n <= |s|
  {
    if s == [] || s[0] == c then 0 else 1 + IndexOf(s[1..], c)
  }

  /** In `a + [c] + b`, where `a` has no `c`, the first `c` is the one after `a`. */
  lemma {:induction false} IndexOfAfter(a: string, c: char, b: string)
    requires forall i :: 0 <= i < |a| ==> a[i] != c
    ensures IndexOf(a + [c] + b, c) == |a|
  {
    if a != [] {
      assert (a + [c] + b)[1..] == a[1..] + [c] + b;
      IndexOfAfter(a[1..], c, b);
    }
  }
}
