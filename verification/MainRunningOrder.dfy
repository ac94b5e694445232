/** The running order of mainSort: the big buckets, the least full first. */
module MainRunningOrder {

  import opened Permutations
  import opened QuickSort
  import opened MainShellSort
  import opened MainRadixSort
  import opened MainBucketCopy

  /** How many rows each big bucket has. */
  ghost function Sizes(w: seq<int>): (e: seq<nat>)
    ensures |e| == 256
  {
    seq(256, s requires 0 <= s < 256 => BigSize(w, s))
  }

  ghost function BigSize(w: seq<int>, s: nat): nat {
    RowsGrow(w, 256 * s, 256 * (s + 1));
    Row(w, 256 * (s + 1)) - Row(w, 256 * s)
  }

  /** ftab holds the first rows of all buckets, no flag yet. */
  ghost predicate PlainTable(ftab: seq<nat>, w: seq<int>) {
    |ftab| == WORDS + 1 && forall u :: 0 <= u <= WORDS ==> ftab[u] == Row(w, u)
  }

  /** BIGFREQ */
  method BigFreq(ftab: array<nat>, s: nat, ghost w: seq<int>) returns (f: int)
    requires PlainTable(ftab[..], w) && s < 256
    ensures f == Sizes(w)[s]
  {
    hide Row;
    assert ftab[..][256 * (s + 1)] == ftab[256 * (s + 1)];
    f := ftab[256 * (s + 1)] as int - ftab[256 * s];
  }

  /** One entry finds its place among those h apart. */
  method InsertBucket(runningOrder: array<nat>, ftab: array<nat>, i: nat, h: nat, ghost w: seq<int>)
    requires runningOrder != ftab && PlainTable(ftab[..], w) && runningOrder.Length == 256 && 1 <= h <= i < 256
    requires Indexes(runningOrder[..], Sizes(w)) && (h == 1 ==> SortedBy(runningOrder[..], Sizes(w), 0, i))
    modifies runningOrder
    ensures Shuffled(old(runningOrder[..]), runningOrder[..], 0, 256) && Indexes(runningOrder[..], Sizes(w))
    ensures h == 1 ==> SortedBy(runningOrder[..], Sizes(w), 0, i + 1)
  {
    hide *;
    ghost var e, a, c, s := Sizes(w), runningOrder[..], runningOrder[..], Below(256);
    AllBuckets(a, e);
    SinkStarts(a, e, 0, 256, i, h, s);
    SinkFacts(a, c, e, 0, 256, i, i, h, s);
    var vv := runningOrder[i];
    var fv := BigFreq(ftab, vv, w);
    var j: int := i;
    var f := BigFreq(ftab, runningOrder[j - h], w);
    while f > fv
      invariant h <= j <= i && |c| == 256 && c[j] == vv && vv < 256 && |e| == 256 && fv == e[vv]
      invariant forall k :: 0 <= k < 256 && k != j ==> runningOrder[k] == c[k]
      invariant c[j - h] < 256 && f == e[c[j - h]]
      invariant Sinking(a, c, e, 0, 256, i, j, h, s)
      decreases j
    {
      SinkStep(a, c, e, 0, 256, i, j, h, s);
      SwapValue(c, j, j - h);
      c := Swap(c, j, j - h);
      runningOrder[j] := runningOrder[j - h];
      j := j - h;
      if j <= h - 1 {
        break;
      }
      SinkFacts(a, c, e, 0, 256, i, j, h, s);
      assert runningOrder[j - h] == c[j - h];
      f := BigFreq(ftab, runningOrder[j - h], w);
    }
    SinkFacts(a, c, e, 0, 256, i, j, h, s);
    SinkEnds(a, c, e, 0, 256, i, j, h, s);
    runningOrder[j] := vv;
    assert runningOrder[..] == c;
  }

  lemma AllBuckets(a: seq<nat>, e: seq<nat>)
    requires Indexes(a, e) && |a| == |e| == 256
    ensures Holds(a, 0, 256, Below(256))
  {
  }

  lemma FirstAlone(a: seq<nat>, e: seq<nat>)
    requires Indexes(a, e) && |a| == 256
    ensures SortedBy(a, e, 0, 1)
  {
  }

  /** "Calculate the running order, from smallest to largest big bucket." */
  method FindRunningOrder(runningOrder: array<nat>, ftab: array<nat>, ghost w: seq<int>)
    requires runningOrder != ftab && PlainTable(ftab[..], w) && runningOrder.Length == 256
    modifies runningOrder
    ensures IsPermutation(runningOrder[..], 256) && Indexes(runningOrder[..], Sizes(w))
    ensures SortedBy(runningOrder[..], Sizes(w), 0, 256)
  {
    hide PlainTable, Sizes, Shuffled, SortedBy;
    for i := 0 to 256
      invariant forall k :: 0 <= k < i ==> runningOrder[k] == k
    {
      runningOrder[i] := i;
    }
    ghost var a, e := runningOrder[..], Sizes(w);
    assert IsPermutation(a, 256);
    ShuffledRefl(a, 0, 256);
    var h := 1;
    while h <= 256
      invariant h in {1, 4, 13, 40, 121, 364}
      decreases 364 - h
    {
      h := 3 * h + 1;
    }
    while h != 1
      invariant h in {364, 121, 40, 13, 4, 1}
      invariant Shuffled(a, runningOrder[..], 0, 256) && Indexes(runningOrder[..], e)
      invariant h == 1 ==> SortedBy(runningOrder[..], e, 0, 256)
    {
      h := h / 3;
      FirstAlone(runningOrder[..], e);
      for i := h to 256
        invariant Shuffled(a, runningOrder[..], 0, 256) && Indexes(runningOrder[..], e)
        invariant h == 1 ==> SortedBy(runningOrder[..], e, 0, i)
      {
        ghost var c := runningOrder[..];
        InsertBucket(runningOrder, ftab, i, h, w);
        ShuffledCompose(a, c, runningOrder[..], 0, 256, 0, 256);
      }
    }
    OrderIsPermutation(a, runningOrder[..]);
  }

  lemma OrderIsPermutation(a: seq<nat>, c: seq<nat>)
    requires IsPermutation(a, 256) && Shuffled(a, c, 0, 256)
    ensures IsPermutation(c, 256)
  {
    PermutationRearranged(a, c, 256);
  }
}
