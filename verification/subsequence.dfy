/**
 * Order-preserving selection: `r` is obtained from `s` by deleting elements.
 * Used for the vertices kept by line simplification and for the features
 * kept by a delete.
 */
module Subsequence {

  /** `r` is a subsequence of `s` (not necessarily contiguous). */
  predicate IsSubsequence<T(==)>(r: seq<T>, s: seq<T>)
    decreases |s|
  {
    if r == [] then true
    else if s == [] then false
    else (r[0] == s[0] && IsSubsequence(r[1..], s[1..])) || IsSubsequence(r, s[1..])
  }

  lemma {:induction false} SubsequenceReflexive<T>(s: seq<T>)
    ensures IsSubsequence(s, s)
    decreases |s|
  {
    if s != [] {
      SubsequenceReflexive(s[1..]);
    }
  }

  /** Elements may be added in front of the larger sequence. */
  lemma {:induction false} SubsequenceExtendFront<T>(r: seq<T>, x: seq<T>, s: seq<T>)
    requires IsSubsequence(r, s)
    ensures IsSubsequence(r, x + s)
    decreases |x|
  {
    if x == [] {
      assert x + s == s;
    } else if r != [] {
      SubsequenceExtendFront(r, x[1..], s);
      assert (x + s)[1..] == x[1..] + s;
    }
  }

  /** Subsequences of the two halves concatenate to a subsequence of the whole. */
  lemma {:induction false} SubsequenceConcat<T>(a: seq<T>, x: seq<T>, b: seq<T>, y: seq<T>)
    requires IsSubsequence(a, x) && IsSubsequence(b, y)
    ensures IsSubsequence(a + b, x + y)
    decreases |x|
  {
    if a == [] {
      assert a + b == b;
      SubsequenceExtendFront(b, x, y);
    } else {
      assert (x + y)[1..] == x[1..] + y;
      if a[0] == x[0] && IsSubsequence(a[1..], x[1..]) {
        SubsequenceConcat(a[1..], x[1..], b, y);
        assert (a + b)[1..] == a[1..] + b;
      } else {
        SubsequenceConcat(a, x[1..], b, y);
      }
    }
  }

  /** Dropping the last kept element lets the last element of the whole go too. */
  lemma {:induction false} SubsequenceDropLast<T>(r: seq<T>, s: seq<T>)
    requires r != [] && IsSubsequence(r, s)
    ensures s != [] && IsSubsequence(r[..|r| - 1], s[..|s| - 1])
    decreases |s|
  {
    if |r| == 1 {
      assert r[..0] == [];
    } else if r[0] == s[0] && IsSubsequence(r[1..], s[1..]) {
      SubsequenceDropLast(r[1..], s[1..]);
      assert r[1..][..|r| - 2] == r[..|r| - 1][1..];
      assert s[1..][..|s| - 2] == s[..|s| - 1][1..];
    } else {
      SubsequenceDropLast(r, s[1..]);
      assert s[1..][..|s| - 2] == s[..|s| - 1][1..];
    }
  }

  /** The last element alone is a subsequence. */
  lemma {:induction false} LastIsSubsequence<T>(s: seq<T>)
    requires s != []
    ensures IsSubsequence([s[|s| - 1]], s)
    decreases |s|
  {
    if |s| > 1 {
      LastIsSubsequence(s[1..]);
    } else {
      assert [s[|s| - 1]][1..] == [];
    }
  }

  /** First and last element together are a subsequence. */
  lemma EndpointsSubsequence<T>(s: seq<T>)
    requires |s| >= 2
    ensures IsSubsequence([s[0], s[|s| - 1]], s)
  {
    LastIsSubsequence(s[1..]);
    assert [s[0], s[|s| - 1]][1..] == [s[1..][|s[1..]| - 1]];
  }
}
