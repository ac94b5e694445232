/** Permutations of 0 .. n-1 held as sequences, as the sorter's pointer arrays hold them. */
module Permutations {

  /** p lists every position below n exactly once. */
  ghost predicate IsPermutation(p: seq<nat>, n: nat) {
    && |p| == n
    && (forall i :: 0 <= i < n ==> p[i] < n)
    && (forall i, j :: 0 <= i < j < n ==> p[i] != p[j])
  }

  ghost function Elements<T>(s: seq<T>): set<T> {
    set x | x in s
  }

  ghost predicate Distinct<T>(s: seq<T>) {
    forall i, j :: 0 <= i < j < |s| ==> s[i] != s[j]
  }

  lemma {:induction false} DistinctCount<T>(s: seq<T>)
    requires Distinct(s)
    ensures |Elements(s)| == |s|
  {
    if s == [] {
      assert Elements(s) == {};
    } else {
      var m := |s| - 1;
      DistinctCount(s[..m]);
      assert s == s[..m] + [s[m]];
      assert Elements(s) == Elements(s[..m]) + {s[m]};
    }
  }

  ghost function Below(n: nat): (s: set<nat>)
    ensures |s| == n
    ensures forall k: nat :: k in s <==> k < n
  {
    if n == 0 then {} else Below(n - 1) + {n - 1}
  }

  lemma SubsetCount<T>(a: set<T>, b: set<T>)
    requires a <= b
    ensures |a| <= |b|
    ensures |a| == |b| ==> a == b
  {
    assert b == a + (b - a);
    assert |b| == |a| + |b - a|;
  }

  /** A permutation reaches every position. */
  lemma PermutationReaches(p: seq<nat>, n: nat, k: nat)
    requires IsPermutation(p, n) && k < n
    ensures k in p
  {
    DistinctCount(p);
    assert Elements(p) <= Below(n);
    SubsetCount(Elements(p), Below(n));
    assert k in Below(n);
  }

  /** Rearranging a permutation gives a permutation. */
  lemma PermutationRearranged(p: seq<nat>, q: seq<nat>, n: nat)
    requires IsPermutation(p, n)
    requires multiset(p) == multiset(q)
    ensures IsPermutation(q, n)
  {
    assert |q| == |multiset(q)| == n;
    forall i | 0 <= i < n
      ensures q[i] < n
    {
      assert q[i] in multiset(q);
      assert q[i] in p;
    }
    forall i, j | 0 <= i < j < n
      ensures q[i] != q[j]
    {
      if q[i] == q[j] {
        assert q == q[..j] + [q[j]] + q[j + 1..];
        assert q[..j] == q[..i] + [q[i]] + q[i + 1..j];
        assert multiset(q)[q[i]] >= 2;
        var m := OccursTwice(p, q[i]);
      }
    }
  }

  lemma {:induction false} OccursTwice(p: seq<nat>, x: nat) returns (m: (nat, nat))
    requires multiset(p)[x] >= 2
    ensures m.0 < m.1 < |p| && p[m.0] == x == p[m.1]
  {
    var l := |p| - 1;
    assert p == p[..l] + [p[l]];
    if p[l] == x {
      assert multiset(p[..l])[x] >= 1;
      assert x in p[..l];
      var i :| 0 <= i < l && p[i] == x;
      m := (i, l);
    } else {
      m := OccursTwice(p[..l], x);
    }
  }
}
