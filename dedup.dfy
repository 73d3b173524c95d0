/**
 * Whole-row deduplication as `DataFrame.drop_duplicates()` does it with its
 * default `keep="first"`: the first occurrence of every distinct row stays,
 * in its original position order, and every later copy goes.
 */
module Dedup {

  predicate NoDuplicates<T(==)>(s: seq<T>) {
    forall i, j :: 0 <= i < j < |s| ==> s[i] != s[j]
  }

  /** `s[i]` does not occur before position `i`. */
  predicate IsFirst<T(==)>(s: seq<T>, i: nat)
    requires i < |s|
  {
    s[i] !in s[..i]
  }

  predicate Increasing(r: seq<nat>) {
    forall a, b :: 0 <= a < b < |r| ==> r[a] < r[b]
  }

  /**
   * The positions `drop_duplicates` keeps: exactly the first occurrences, in
   * increasing order.
   */
  function FirstIndices<T(==)>(s: seq<T>): (r: seq<nat>)
    ensures Increasing(r)
    ensures forall k :: 0 <= k < |r| ==> r[k] < |s| && IsFirst(s, r[k])
    ensures forall i :: 0 <= i < |s| && IsFirst(s, i) ==> i in r
  {
    if s == [] then []
    else
      var n := |s| - 1;
      var p := FirstIndices(s[..n]);
      assert forall k :: 0 <= k < |p| ==> s[..n][..p[k]] == s[..p[k]];
      assert forall i :: 0 <= i < n ==> s[..n][..i] == s[..i];
      if s[n] in s[..n] then p else p + [n]
  }

  /** The rows at the kept positions. */
  function Unique<T(==)>(s: seq<T>): (r: seq<T>)
    ensures |r| == |FirstIndices(s)|
  {
    var f := FirstIndices(s);
    seq(|f|, k requires 0 <= k < |f| => s[f[k]])
  }

  /** No row is left twice. */
  lemma UniqueHasNoDuplicates<T>(s: seq<T>)
    ensures NoDuplicates(Unique(s))
  {
    var f := FirstIndices(s);
    var u := Unique(s);
    forall a, b | 0 <= a < b < |u| ensures u[a] != u[b] {
      assert f[a] < f[b];
      assert s[f[a]] in s[..f[b]];
    }
  }

  /** Some occurrence of every row is a first occurrence at or before it. */
  lemma {:induction false} FirstOccurrence<T>(s: seq<T>, i: nat) returns (j: nat)
    requires i < |s|
    ensures j <= i && s[j] == s[i] && IsFirst(s, j)
    decreases i
  {
    if s[i] in s[..i] {
      var k :| 0 <= k < i && s[..i][k] == s[i];
      j := FirstOccurrence(s, k);
    } else {
      j := i;
    }
  }

  /** No row disappears: every row of the input is among the kept rows, and nothing else is. */
  lemma UniqueKeepsEveryRow<T>(s: seq<T>)
    ensures forall x :: x in Unique(s) <==> x in s
  {
    var f := FirstIndices(s);
    var u := Unique(s);
    forall x | x in s ensures x in u {
      var i :| 0 <= i < |s| && s[i] == x;
      var j := FirstOccurrence(s, i);
      var k :| 0 <= k < |f| && f[k] == j;
      assert u[k] == x;
    }
  }

  /** Already distinct rows are left as they are. */
  lemma {:induction false} UniqueOfDistinct<T>(s: seq<T>)
    requires NoDuplicates(s)
    ensures Unique(s) == s
  {
    if s != [] {
      var n := |s| - 1;
      assert NoDuplicates(s[..n]);
      UniqueOfDistinct(s[..n]);
      assert s[n] !in s[..n];
      var f := FirstIndices(s);
      assert |FirstIndices(s[..n])| == n;
      assert |f| == |s|;
      forall k | 0 <= k < |s| ensures f[k] == k {
        if k < n {
          assert FirstIndices(s[..n])[k] == k by {
            assert Unique(s[..n])[k] == s[..n][k];
            IncreasingIsIdentity(FirstIndices(s[..n]), n);
          }
        }
      }
    }
  }

  /** A strictly increasing sequence of `n` positions below `n` is 0, 1, ..., n-1. */
  lemma {:induction false} IncreasingIsIdentity(r: seq<nat>, n: nat)
    requires |r| == n && Increasing(r)
    requires forall k :: 0 <= k < |r| ==> r[k] < n
    ensures forall k :: 0 <= k < |r| ==> r[k] == k
  {
    forall k | 0 <= k < |r| ensures r[k] == k {
      LowerBound(r, k);
      UpperBound(r, k, n);
    }
  }

  lemma {:induction false} LowerBound(r: seq<nat>, k: nat)
    requires Increasing(r) && k < |r|
    ensures r[k] >= k
    decreases k
  {
    if k > 0 { LowerBound(r, k - 1); }
  }

  lemma {:induction false} UpperBound(r: seq<nat>, k: nat, n: nat)
    requires Increasing(r) && k < |r| && forall j :: 0 <= j < |r| ==> r[j] < n
    ensures r[k] <= n - (|r| - k)
    decreases |r| - k
  {
    if k + 1 < |r| { UpperBound(r, k + 1, n); }
  }

  /** Deduplication never adds rows. */
  lemma UniqueNoLonger<T>(s: seq<T>)
    ensures |Unique(s)| <= |s|
  {
    var f := FirstIndices(s);
    if |f| > 0 {
      UpperBound(f, 0, |s|);
    }
  }

  /**
   * `drop_duplicates` as a single pass with a set of rows already seen; it
   * returns the kept rows and the positions they came from.
   */
  method DropDuplicates<T(==)>(s: seq<T>) returns (out: seq<T>, keep: seq<nat>)
    ensures keep == FirstIndices(s)
    ensures out == Unique(s)
  {
    var seen: set<T> := {};
    out, keep := [], [];
    for i := 0 to |s|
      invariant keep == FirstIndices(s[..i])
      invariant |out| == |keep|
      invariant forall k :: 0 <= k < |keep| ==> out[k] == s[keep[k]]
      invariant forall x :: x in seen <==> x in s[..i]
    {
      assert s[..i + 1][..i] == s[..i];
      if s[i] !in seen {
        seen := seen + {s[i]};
        keep := keep + [i];
        out := out + [s[i]];
      }
    }
    assert s[..|s|] == s;
  }
}
