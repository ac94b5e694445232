/**
  Whether the compressed block depends on which sort was used.  The last column never
  does; the row of the unrotated block does not if and only if no other rotation equals it.
 */
module SortAgreement {

  import opened Permutations
  import opened Rotations
  import opened BurrowsWheeler
  import opened MainCompare

  /** No proper rotation gives the block back. */
  ghost predicate Aperiodic(b: Block) {
    forall i :: 0 < i < |b| ==> !SameRotation(b, 0, i)
  }

  /** Equal rotations anywhere are equal rotations at the beginning. */
  lemma EqualFromStart(b: Block, i: nat, j: nat)
    requires i < j < |b| && EqualTo(b, i, j, |b|)
    ensures SameRotation(b, 0, j - i)
  {
    var n := |b|;
    SameRotationAnyDepth(b, i, j, n - i + n);
    SplitDepth(b, i, j, n - i, n);
    ShiftValue(i, n - i, n);
    ShiftValue(j, n - i, n);
  }

  /** In a sorted order of different rotations, the rows in front hold exactly the smaller rotations. */
  lemma RowIsOrder(b: Block, p: seq<nat>, k: nat)
    requires SortsRotations(b, p) && Aperiodic(b) && k < |b|
    ensures |SmallerRotations(b, p[k])| == k
  {
    var n, s, t := |b|, Elements(p[..k]), SmallerRotations(b, p[k]);
    DistinctCount(p[..k]);
    forall y | y in s
      ensures y in t
    {
      var i :| 0 <= i < k && p[i] == y;
      Trichotomy(b, y, p[k], n);
      if EqualTo(b, y, p[k], n) {
        EqualTurns(b, y, p[k]);
      }
    }
    forall y | y in t
      ensures y in s
    {
      PermutationReaches(p, n, y);
      var m :| 0 <= m < |p| && p[m] == y;
      Trichotomy(b, y, y, n);
      if m < k {
        assert p[..k][m] == y;
      }
    }
    assert s == t;
  }

  lemma EqualTurns(b: Block, x: nat, y: nat)
    requires x < |b| && y < |b| && x != y && EqualTo(b, x, y, |b|)
    ensures !Aperiodic(b)
  {
    if x < y {
      EqualFromStart(b, x, y);
    } else {
      EqualToSymmetric(b, x, y, |b|);
      EqualFromStart(b, y, x);
    }
  }

  lemma {:induction false} EqualToSymmetric(b: Block, x: nat, y: nat, h: nat)
    requires x < |b| && y < |b| && EqualTo(b, x, y, h)
    ensures EqualTo(b, y, x, h)
    decreases h
  {
    if h > 0 {
      EqualToSymmetric(b, Next(x, |b|), Next(y, |b|), h - 1);
    }
  }

  lemma AperiodicOrder(b: Block, p: seq<nat>, q: seq<nat>)
    requires SortsRotations(b, p) && SortsRotations(b, q) && Aperiodic(b)
    ensures p == q
  {
    forall k | 0 <= k < |b|
      ensures p[k] == q[k]
    {
      PermutationReaches(q, |b|, p[k]);
      var m :| 0 <= m < |q| && q[m] == p[k];
      RowIsOrder(b, p, k);
      RowIsOrder(b, q, m);
    }
  }

  ghost function Preimage(r: seq<nat>, n: nat, k: nat): (x: nat)
    requires IsPermutation(r, n) && k < n
    ensures x < n && r[x] == k
  {
    PermutationReaches(r, n, k);
    var x :| 0 <= x < |r| && r[x] == k;
    x
  }

  /** Every block has a sorted order. */
  lemma SortExists(b: Block) returns (p: seq<nat>)
    ensures SortsRotations(b, p)
  {
    hide Rank, Orders, LessTo;
    var n, r := |b|, Ranks(Orders(b));
    RanksArePermutation(Orders(b));
    p := seq(n, k requires 0 <= k < n => Preimage(r, n, k));
    forall i, j | 0 <= i < j < n
      ensures p[i] != p[j] && !LessTo(b, p[j], p[i], n)
    {
      assert r[p[i]] == i && r[p[j]] == j;
      OrdersDecide(b, p[j], p[i]);
      RankOrder(Orders(b), p[j], p[i]);
    }
  }

  /** 0 and i trade places. */
  ghost function Traded(x: nat, i: nat): nat {
    if x == 0 then i else if x == i then 0 else x
  }

  ghost function TradedAll(p: seq<nat>, i: nat): (q: seq<nat>)
    ensures |q| == |p|
  {
    seq(|p|, k requires 0 <= k < |p| => Traded(p[k], i))
  }

  /** Equal rotations may trade their rows. */
  lemma TradedSorts(b: Block, p: seq<nat>, i: nat)
    requires SortsRotations(b, p) && 0 < i < |b| && SameRotation(b, 0, i)
    ensures SortsRotations(b, TradedAll(p, i))
  {
    hide Orders, LessTo;
    var n, q := |b|, TradedAll(p, i);
    TurnDecides(b, 0, i, n);
    forall a, c | 0 <= a < c < n
      ensures q[a] < n && q[c] < n && q[a] != q[c] && !LessTo(b, q[c], q[a], n)
    {
      OrdersDecide(b, p[c], p[a]);
      OrdersDecide(b, q[c], q[a]);
    }
    forall a | 0 <= a < n
      ensures q[a] < n
    {
    }
  }

  /** Whatever the sort, the last column is the same. */
  lemma SameColumn(b: Block, p: seq<nat>, q: seq<nat>)
    requires SortsRotations(b, p) && SortsRotations(b, q)
    ensures LastColumn(b, p) == LastColumn(b, q)
  {
    var n := |b|;
    forall k | 0 <= k < n
      ensures b[Prev(p[k], n)] == b[Prev(q[k], n)]
    {
      SortedOrdersAgree(b, p, q, n, k);
      SplitDepth(b, p[k], q[k], n - 1, 1);
      ShiftValue(p[k], n - 1, n);
      ShiftValue(q[k], n - 1, n);
    }
  }

  /**
    The row of the unrotated block, origPtr, is the same for every sort if and only if the
    block is not periodic.
   */
  lemma OrigPtrUniqueIff(b: Block)
    requires b != []
    ensures Aperiodic(b) <==>
            forall p, q, k :: SortsRotations(b, p) && SortsRotations(b, q) && 0 <= k < |b| && p[k] == 0 ==> q[k] == 0
  {
    if Aperiodic(b) {
      forall p, q, k | SortsRotations(b, p) && SortsRotations(b, q) && 0 <= k < |b| && p[k] == 0
        ensures q[k] == 0
      {
        AperiodicOrder(b, p, q);
      }
    } else {
      var i :| 0 < i < |b| && SameRotation(b, 0, i);
      var p := SortExists(b);
      TradedSorts(b, p, i);
      PermutationReaches(p, |b|, 0);
      var k :| 0 <= k < |p| && p[k] == 0;
      assert TradedAll(p, i)[k] == i;
    }
  }
}
