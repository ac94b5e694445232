/**
  The Burrows-Wheeler transform and why it can be undone.

  The compressor sends the last column of the sorted rotations and the row
  (origPtr) of the unrotated block.  The decompressor links each row to the row
  holding the next rotation.  `LinkAdvances` shows that link to be right for
  every weakly sorted order, also for periodic blocks, where equal rotations
  make the link a permutation of several cycles.
 */
module BurrowsWheeler {

  import opened Permutations
  import opened Rotations

  /** The byte before each sorted rotation: what generateMTFValues reads off. */
  function LastColumn(b: Block, p: seq<nat>): (c: seq<Byte>)
    requires forall i :: 0 <= i < |p| ==> p[i] < |b|
    ensures |c| == |p|
  {
    seq(|p|, i requires 0 <= i < |p| => b[Prev(p[i], |b|)])
  }

  /** How many of the first m bytes are smaller than v. */
  function Smaller(c: seq<int>, v: int, m: nat): (r: nat)
    requires m <= |c|
    ensures r <= m
  {
    if m == 0 then 0 else Smaller(c, v, m - 1) + if c[m - 1] < v then 1 else 0
  }

  /** How many of the first m bytes equal v. */
  function Occurrences(c: seq<int>, v: int, m: nat): (r: nat)
    requires m <= |c|
    ensures r <= m
  {
    if m == 0 then 0 else Occurrences(c, v, m - 1) + if c[m - 1] == v then 1 else 0
  }

  /** The row that a stable sort of the column by byte gives to row i. */
  function Rank(c: seq<int>, i: nat): (r: nat)
    requires i < |c|
  {
    Smaller(c, c[i], |c|) + Occurrences(c, c[i], i)
  }

  lemma {:induction false} SmallerNext(c: seq<int>, v: int, m: nat)
    requires m <= |c|
    ensures Smaller(c, v + 1, m) == Smaller(c, v, m) + Occurrences(c, v, m)
  {
    if m > 0 {
      SmallerNext(c, v, m - 1);
    }
  }

  lemma {:induction false} SmallerMonotone(c: seq<int>, v: int, w: int, m: nat)
    requires m <= |c| && v <= w
    ensures Smaller(c, v, m) <= Smaller(c, w, m)
  {
    if m > 0 {
      SmallerMonotone(c, v, w, m - 1);
    }
  }

  lemma {:induction false} OccurrencesMonotone(c: seq<int>, v: int, k: nat, m: nat)
    requires k <= m <= |c|
    ensures Occurrences(c, v, k) <= Occurrences(c, v, m)
    ensures k < m && c[k] == v ==> Occurrences(c, v, k) < Occurrences(c, v, m)
    decreases m
  {
    if k < m {
      OccurrencesMonotone(c, v, k, m - 1);
    }
  }

  /** Each byte value owns a contiguous range of rows. */
  lemma RankInRange(c: seq<int>, i: nat)
    requires i < |c|
    ensures Smaller(c, c[i], |c|) <= Rank(c, i) < Smaller(c, c[i] + 1, |c|) <= |c|
  {
    OccurrencesMonotone(c, c[i], i, |c|);
    SmallerNext(c, c[i], |c|);
  }

  /** Rows are ranked by byte, and in their own order within one byte value. */
  lemma RankOrder(c: seq<int>, i: nat, j: nat)
    requires i < |c| && j < |c|
    ensures Rank(c, i) < Rank(c, j) <==> c[i] < c[j] || (c[i] == c[j] && i < j)
  {
    RankInRange(c, i);
    RankInRange(c, j);
    if c[i] < c[j] {
      SmallerMonotone(c, c[i] + 1, c[j], |c|);
    } else if c[j] < c[i] {
      SmallerMonotone(c, c[j] + 1, c[i], |c|);
    } else if i < j {
      OccurrencesMonotone(c, c[i], i, j);
    } else {
      OccurrencesMonotone(c, c[i], j, i);
    }
  }

  /** All ranks, in row order: the vector T of the decompressor. */
  function Ranks(c: seq<int>): (t: seq<nat>)
    ensures |t| == |c|
  {
    seq(|c|, i requires 0 <= i < |c| => Rank(c, i))
  }

  lemma RanksArePermutation(c: seq<int>)
    ensures IsPermutation(Ranks(c), |c|)
  {
    forall i | 0 <= i < |c|
      ensures Ranks(c)[i] < |c|
    {
      RankInRange(c, i);
    }
    forall i, j | 0 <= i < j < |c|
      ensures Ranks(c)[i] != Ranks(c)[j]
    {
      RankOrder(c, i, j);
      RankOrder(c, j, i);
    }
  }

  /** link is the inverse of the ranking: T^(-1) in the decompressor. */
  ghost predicate Links(c: seq<Byte>, link: seq<nat>) {
    && |link| == |c|
    && (forall k :: 0 <= k < |c| ==> link[k] < |c| && Rank(c, link[k]) == k)
  }

  /** Filling slot Rank(c, i) with i for every row fills every slot. */
  lemma LinksFromRanks(c: seq<Byte>, link: seq<nat>)
    requires |link| == |c|
    requires forall i :: 0 <= i < |c| ==> Rank(c, i) < |c| && link[Rank(c, i)] == i
    ensures Links(c, link)
  {
    RanksArePermutation(c);
    forall k | 0 <= k < |c|
      ensures link[k] < |c| && Rank(c, link[k]) == k
    {
      PermutationReaches(Ranks(c), |c|, k);
      var i :| 0 <= i < |c| && Ranks(c)[i] == k;
    }
  }

  /** The same for the opposite direction. */
  lemma LinksInvert(c: seq<Byte>, link: seq<nat>, i: nat)
    requires Links(c, link) && i < |c|
    ensures Rank(c, i) < |c| && link[Rank(c, i)] == i
  {
    RankInRange(c, i);
    var j := link[Rank(c, i)];
    RankOrder(c, i, j);
    RankOrder(c, j, i);
  }

  /** Any two orders sorted to depth h show h-equal rotations in each row. */
  lemma SortedOrdersAgree(b: Block, p: seq<nat>, q: seq<nat>, h: nat, k: nat)
    requires IsPermutation(p, |b|) && SortedTo(b, p, h)
    requires IsPermutation(q, |b|) && SortedTo(b, q, h)
    requires k < |b|
    ensures EqualTo(b, p[k], q[k], h)
  {
    RowNotSmaller(b, p, q, h, k);
    RowNotSmaller(b, q, p, h, k);
    Trichotomy(b, p[k], q[k], h);
  }

  lemma RowNotSmaller(b: Block, p: seq<nat>, q: seq<nat>, h: nat, k: nat)
    requires IsPermutation(p, |b|) && SortedTo(b, p, h)
    requires IsPermutation(q, |b|) && SortedTo(b, q, h)
    requires k < |b|
    ensures !LessTo(b, p[k], q[k], h)
  {
    var n := |b|;
    if LessTo(b, p[k], q[k], h) {
      var A, B := Elements(p[..k + 1]), Elements(q[..k]);
      forall x | x in A
        ensures x in B
      {
        var i :| 0 <= i <= k && p[i] == x;
        PermutationReaches(q, n, x);
        var m :| 0 <= m < n && q[m] == x;
        if m >= k {
          Trichotomy(b, p[k], q[k], h);
          Trichotomy(b, p[k], p[k], h);
          Trichotomy(b, q[k], q[k], h);
          NotGreaterTransitive(b, q[k], q[m], p[k], h);
        } else {
          assert x == q[..k][m];
        }
      }
      DistinctCount(p[..k + 1]);
      DistinctCount(q[..k]);
      SubsetCount(A, B);
    }
  }

  /** The rotations one byte to the left, listed in rank order. */
  function LeftRotations(b: Block, p: seq<nat>, link: seq<nat>): (q: seq<nat>)
    requires forall i :: 0 <= i < |p| ==> p[i] < |b|
    requires forall k :: 0 <= k < |link| ==> link[k] < |p|
    ensures |q| == |link|
  {
    seq(|link|, k requires 0 <= k < |link| => Prev(p[link[k]], |b|))
  }

  lemma LeftRotationsSorted(b: Block, p: seq<nat>, link: seq<nat>)
    requires SortsRotations(b, p)
    requires Links(LastColumn(b, p), link)
    ensures SortsRotations(b, LeftRotations(b, p, link))
  {
    var n, c, q := |b|, LastColumn(b, p), LeftRotations(b, p, link);
    forall k, m | 0 <= k < m < n
      ensures q[k] != q[m] && !LessTo(b, q[m], q[k], n)
    {
      var i, j := link[k], link[m];
      RankOrder(c, i, j);
      assert i != j;
      assert p[i] != p[j];
      if c[i] == c[j] {
        assert !LessTo(b, p[j], p[i], n);
        assert Next(q[m], n) == p[j] && Next(q[k], n) == p[i];
        if LessTo(b, q[m], q[k], n) {
          LessToGrows(b, p[j], p[i], n - 1, n);
        }
      }
    }
  }

  /**
    From the row of a rotation, the link leads to a row showing the next rotation.
    "A row showing": with equal rotations it need not be the row of that very position.
   */
  lemma LinkAdvances(b: Block, p: seq<nat>, link: seq<nat>, k: nat)
    requires SortsRotations(b, p)
    requires Links(LastColumn(b, p), link)
    requires k < |b|
    ensures SameRotation(b, p[link[k]], Next(p[k], |b|))
  {
    LeftRotationsSorted(b, p, link);
    SortedOrdersAgree(b, LeftRotations(b, p, link), p, |b|, k);
    SameRotationNext(b, LeftRotations(b, p, link)[k], p[k]);
  }

  /** The bytes met when following the link m times, starting at row k. */
  function Walk(c: seq<Byte>, link: seq<nat>, k: nat, m: nat): (s: seq<Byte>)
    requires |link| == |c| && k < |c|
    requires forall i :: 0 <= i < |c| ==> link[i] < |c|
    ensures |s| == m
    decreases m
  {
    if m == 0 then [] else [c[link[k]]] + Walk(c, link, link[k], m - 1)
  }

  lemma {:induction false} WalkReadsWindow(b: Block, p: seq<nat>, link: seq<nat>, k: nat, i: nat, m: nat)
    requires SortsRotations(b, p)
    requires Links(LastColumn(b, p), link)
    requires k < |b| && i < |b|
    requires SameRotation(b, p[k], i)
    ensures Walk(LastColumn(b, p), link, k, m) == Window(b, i, m)
    decreases m
  {
    if m > 0 {
      var n, c, i' := |b|, LastColumn(b, p), Next(i, |b|);
      LinkAdvances(b, p, link, k);
      SameRotationNext(b, p[k], i);
      Transitivity(b, p[link[k]], Next(p[k], n), i', n);
      WalkReadsWindow(b, p, link, link[k], i', m - 1);
      SameRotationPrev(b, p[link[k]], i');
      assert c[link[k]] == b[i];
    }
  }

  /** Walking from the row of the unrotated block spells out the block. */
  lemma WalkRestoresBlock(b: Block, p: seq<nat>, link: seq<nat>, origPtr: nat)
    requires SortsRotations(b, p)
    requires Links(LastColumn(b, p), link)
    requires origPtr < |b| && p[origPtr] == 0
    ensures Walk(LastColumn(b, p), link, origPtr, |b|) == b
  {
    EqualReflexive(b, 0, |b|);
    WalkReadsWindow(b, p, link, origPtr, 0, |b|);
    WindowIsSlice(b, 0, |b|);
  }
}
