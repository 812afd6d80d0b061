/**
 * Python compares `str` values lexicographically by code point, a proper
 * prefix sorting first. Dafny's `<` on sequences means "proper prefix", so the
 * order is written out here. The date sort uses it as Python's order; the
 * month window, which the database compares, is modelled with it as well.
 */
module Lex {

  /** `a < b` on Python strings. */
  predicate Below(a: string, b: string)
    ensures Below(a, b) ==> a != b && |b| > 0
  {
    if |a| == 0 then |b| > 0
    else if |b| == 0 then false
    else if a[0] != b[0] then a[0] < b[0]
    else Below(a[1..], b[1..])
  }

  /** `a <= b` on Python strings. */
  predicate AtMost(a: string, b: string)
  {
    !Below(b, a)
  }

  lemma {:induction false} BelowIrreflexive(a: string)
    ensures !Below(a, a)
  {
    if |a| > 0 {
      BelowIrreflexive(a[1..]);
    }
  }

  lemma {:induction false} BelowAsymmetric(a: string, b: string)
    requires Below(a, b)
    ensures !Below(b, a)
  {
    if |a| > 0 && |b| > 0 && a[0] == b[0] {
      BelowAsymmetric(a[1..], b[1..]);
    }
  }

  lemma {:induction false} BelowTransitive(a: string, b: string, c: string)
    requires Below(a, b) && Below(b, c)
    ensures Below(a, c)
  {
    if |a| > 0 && a[0] == b[0] && b[0] == c[0] {
      BelowTransitive(a[1..], b[1..], c[1..]);
    }
  }

  /** Any two distinct strings are ordered one way or the other. */
  lemma {:induction false} BelowTotal(a: string, b: string)
    ensures a == b || Below(a, b) || Below(b, a)
  {
    if |a| > 0 && |b| > 0 && a[0] == b[0] {
      BelowTotal(a[1..], b[1..]);
      if a[1..] == b[1..] {
        assert a == [a[0]] + a[1..] && b == [b[0]] + b[1..];
      }
    }
  }

  /** "Not below" is transitive: the relation a descending sort keeps. */
  lemma AtMostTransitive(a: string, b: string, c: string)
    requires AtMost(a, b) && AtMost(b, c)
    ensures AtMost(a, c)
  {
    if Below(c, a) {
      BelowTotal(a, b);
      BelowTotal(b, c);
      if a == b {
      } else if b == c {
      } else {
        BelowTransitive(a, b, c);
        BelowAsymmetric(a, c);
      }
    }
  }

  /** A common prefix does not change the comparison. */
  lemma {:induction false} BelowCommonPrefix(p: string, u: string, v: string)
    ensures Below(p + u, p + v) <==> Below(u, v)
  {
    if |p| > 0 {
      assert (p + u)[1..] == p[1..] + u;
      assert (p + v)[1..] == p[1..] + v;
      BelowCommonPrefix(p[1..], u, v);
    } else {
      assert p + u == u && p + v == v;
    }
  }

  /**
   * A string that does not start with `p` lies on the same side of every
   * string that does.
   */
  lemma {:induction false} BelowOffPrefix(p: string, f: string, u: string, v: string)
    requires !(|p| <= |f| && f[..|p|] == p)
    ensures Below(f, p + u) <==> Below(f, p + v)
    ensures Below(p + u, f) <==> Below(p + v, f)
  {
    assert |p| > 0;
    if |f| > 0 && f[0] == p[0] {
      assert (p + u)[1..] == p[1..] + u;
      assert (p + v)[1..] == p[1..] + v;
      assert !(|p[1..]| <= |f[1..]| && f[1..][..|p[1..]|] == p[1..]);
      BelowOffPrefix(p[1..], f[1..], u, v);
    }
  }
}
