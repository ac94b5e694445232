/** The UPHEAP and DOWNHEAP macros of huffman.c, over a heap of node numbers kept in order of weight. */
module Heap {

  import opened QuickSort

  /** Parents weigh no more than their children, in positions 1 .. n. */
  ghost predicate Ordered(h: seq<nat>, w: seq<nat>, n: nat) {
    && n < |h| && Indexes(h, w)
    && (forall i :: 1 < i <= n ==> w[h[i / 2]] <= w[h[i]])
  }

  /** In order, but for the entry at z, which may be too light for its place. */
  ghost predicate OrderedButUp(h: seq<nat>, w: seq<nat>, n: nat, z: nat) {
    && n < |h| && Indexes(h, w) && 1 <= z <= n
    && (forall i :: 1 < i <= n && i != z ==> w[h[i / 2]] <= w[h[i]])
    && (forall i :: 1 < i <= n && i / 2 == z && z > 1 ==> w[h[z / 2]] <= w[h[i]])
  }

  /** In order, but for the entry at z, which may be too heavy for its place. */
  ghost predicate OrderedButDown(h: seq<nat>, w: seq<nat>, n: nat, z: nat) {
    && n < |h| && Indexes(h, w) && 1 <= z < |h|
    && (forall i :: 1 < i <= n && i / 2 != z ==> w[h[i / 2]] <= w[h[i]])
    && (forall i :: 1 < i <= n && i / 2 == z && z > 1 ==> w[h[z / 2]] <= w[h[i]])
  }

  lemma {:induction false} RootIsLightest(h: seq<nat>, w: seq<nat>, n: nat, i: nat)
    requires Ordered(h, w, n) && 1 <= i <= n
    ensures w[h[1]] <= w[h[i]]
    decreases i
  {
    if i > 1 {
      RootIsLightest(h, w, n, i / 2);
    }
  }

  lemma UpStep(h: seq<nat>, w: seq<nat>, n: nat, z: nat)
    requires OrderedButUp(h, w, n, z) && z > 1 && w[h[z]] < w[h[z / 2]]
    ensures OrderedButUp(Swap(h, z, z / 2), w, n, z / 2)
  {
    var h' := Swap(h, z, z / 2);
    assert h' == h[z := h[z / 2]][z / 2 := h[z]];
    forall i | 1 < i <= n
      ensures i != z / 2 ==> w[h'[i / 2]] <= w[h'[i]]
      ensures i / 2 == z / 2 && z / 2 > 1 ==> w[h'[z / 2 / 2]] <= w[h'[i]]
    {
      if z / 2 > 1 {
        assert w[h[z / 2 / 2]] <= w[h[z / 2]];
      }
    }
  }

  lemma UpDone(h: seq<nat>, w: seq<nat>, n: nat, z: nat)
    requires OrderedButUp(h, w, n, z) && (z == 1 || w[h[z]] >= w[h[z / 2]])
    ensures Ordered(h, w, n)
  {
  }

  lemma DownStep(h: seq<nat>, w: seq<nat>, n: nat, z: nat, y: nat)
    requires OrderedButDown(h, w, n, z) && 1 < y <= n && y / 2 == z
    requires w[h[y]] <= w[h[z]]
    requires forall i :: 1 < i <= n && i / 2 == z ==> w[h[y]] <= w[h[i]]
    ensures OrderedButDown(Swap(h, z, y), w, n, y)
  {
    var h' := Swap(h, z, y);
    assert h' == h[z := h[y]][y := h[z]];
    forall i | 1 < i <= n
      ensures i / 2 != y ==> w[h'[i / 2]] <= w[h'[i]]
      ensures i / 2 == y && y > 1 ==> w[h'[y / 2]] <= w[h'[i]]
    {
      if i / 2 == y {
        assert w[h[y]] <= w[h[i]];
      }
    }
  }

  lemma DownDone(h: seq<nat>, w: seq<nat>, n: nat, z: nat)
    requires OrderedButDown(h, w, n, z)
    requires forall i :: 1 < i <= n && i / 2 == z ==> w[h[z]] <= w[h[i]]
    ensures Ordered(h, w, n)
  {
  }

  /** h with its entry at z still to find its place is a rearrangement of a. */
  ghost predicate Rising(a: seq<nat>, h: seq<nat>, w: seq<nat>, n: nat, z: nat) {
    OrderedButUp(h, w, n, z) && Shuffled(a, h, 1, n + 1)
  }

  ghost predicate Sinking(a: seq<nat>, h: seq<nat>, w: seq<nat>, n: nat, z: nat) {
    OrderedButDown(h, w, n, z) && Shuffled(a, h, 1, n + 1)
  }

  lemma RisingBounds(a: seq<nat>, h: seq<nat>, w: seq<nat>, n: nat, z: nat)
    requires Rising(a, h, w, n, z)
    ensures 1 <= z <= n < |h| == |a| && h[z] < |w| && h[z / 2] < |w|
  {
  }

  lemma RisingStep(a: seq<nat>, h: seq<nat>, w: seq<nat>, n: nat, z: nat)
    requires Rising(a, h, w, n, z) && 1 < z < |h| && h[z] < |w| && h[z / 2] < |w| && w[h[z]] < w[h[z / 2]]
    ensures Rising(a, h[z := h[z / 2]][z / 2 := h[z]], w, n, z / 2)
  {
    SwapShuffles(a, h, z, z / 2, 1, n + 1);
    UpStep(h, w, n, z);
  }

  lemma RisingEnd(a: seq<nat>, h: seq<nat>, w: seq<nat>, n: nat, z: nat)
    requires Rising(a, h, w, n, z) && 1 <= z < |h| && h[z] < |w| && h[z / 2] < |w|
    requires z == 1 || w[h[z]] >= w[h[z / 2]]
    ensures Ordered(h, w, n) && Shuffled(a, h, 1, n + 1)
  {
    UpDone(h, w, n, z);
  }

  /** UPHEAP of the last entry.  Entry 0 is the sentinel, of weight 0. */
  method UpHeap(heap: array<nat>, weight: array<nat>, z: nat)
    requires heap != weight && 1 <= z < heap.Length && weight.Length > 0
    requires OrderedButUp(heap[..], weight[..], z, z)
    requires heap[0] == 0 && weight[0] == 0
    modifies heap
    ensures Ordered(heap[..], weight[..], z) && Shuffled(old(heap[..]), heap[..], 1, z + 1)
    ensures heap[0] == 0
  {
    hide *;
    ghost var a, h, w := heap[..], heap[..], weight[..];
    RisingStart(a, w, z);
    var zz := z;
    var tmp := heap[zz];
    RisingBounds(a, h, w, z, zz);
    while weight[tmp] < weight[heap[zz / 2]]
      invariant 1 <= zz <= z && weight[..] == w && |h| == heap.Length && h[zz] == tmp && tmp < |w|
      invariant heap[zz / 2] < |w| && heap[0] == 0 && h[0] == 0
      invariant forall k :: 0 <= k < |h| && k != zz ==> heap[k] == h[k]
      invariant Rising(a, h, w, z, zz)
      decreases zz
    {
      RisingBounds(a, h, w, z, zz);
      RisingStep(a, h, w, z, zz);
      heap[zz] := heap[zz / 2];
      h := h[zz := h[zz / 2]][zz / 2 := h[zz]];
      zz := zz / 2;
      RisingBounds(a, h, w, z, zz);
    }
    RisingEnd(a, h, w, z, zz);
    heap[zz] := tmp;
    assert heap[..] == h;
  }

  lemma RisingStart(a: seq<nat>, w: seq<nat>, z: nat)
    requires OrderedButUp(a, w, z, z)
    ensures Rising(a, a, w, z, z)
  {
  }

  lemma SinkingBounds(a: seq<nat>, h: seq<nat>, w: seq<nat>, n: nat, z: nat)
    requires Sinking(a, h, w, n, z)
    ensures n < |h| == |a| && 1 <= z < |h|
    ensures forall k :: 0 <= k < |h| ==> h[k] < |w|
  {
  }

  lemma SinkingStep(a: seq<nat>, h: seq<nat>, w: seq<nat>, n: nat, z: nat, y: nat)
    requires Sinking(a, h, w, n, z) && n < |h| && 1 <= z < y <= n && y / 2 == z
      && (forall k :: 0 <= k < |h| ==> h[k] < |w|)
    requires w[h[y]] <= w[h[z]]
    requires y % 2 == 0 && y < n ==> w[h[y]] <= w[h[y + 1]]
    requires y % 2 == 1 ==> w[h[y]] <= w[h[y - 1]]
    ensures Sinking(a, h[z := h[y]][y := h[z]], w, n, y)
  {
    hide OrderedButDown, Shuffled;
    SwapShuffles(a, h, z, y, 1, n + 1);
    forall i | 1 < i <= n && i / 2 == z
      ensures w[h[y]] <= w[h[i]]
    {
      assert i == 2 * z || i == 2 * z + 1;
    }
    DownStep(h, w, n, z, y);
  }

  lemma SinkingEnd(a: seq<nat>, h: seq<nat>, w: seq<nat>, n: nat, z: nat)
    requires Sinking(a, h, w, n, z) && n < |h| && 1 <= z < |h| && (forall k :: 0 <= k < |h| ==> h[k] < |w|)
    requires forall i :: 1 < i <= n && i / 2 == z ==> w[h[z]] <= w[h[i]]
    ensures Ordered(h, w, n) && Shuffled(a, h, 1, n + 1)
  {
    DownDone(h, w, n, z);
  }

  /** DOWNHEAP of the first entry, over positions 1 .. nHeap. */
  method DownHeap(heap: array<nat>, weight: array<nat>, nHeap: nat)
    requires heap != weight && 1 < heap.Length
    requires OrderedButDown(heap[..], weight[..], nHeap, 1)
    modifies heap
    ensures Ordered(heap[..], weight[..], nHeap) && Shuffled(old(heap[..]), heap[..], 1, nHeap + 1)
    ensures heap[0] == old(heap[0])
  {
    hide *;
    ghost var a, h, w := heap[..], heap[..], weight[..];
    SinkingStart(a, w, nHeap);
    SinkingBounds(a, h, w, nHeap, 1);
    var zz := 1;
    var tmp := heap[zz];
    while true
      invariant 1 <= zz < heap.Length && nHeap < heap.Length
      invariant weight[..] == w && |h| == heap.Length && h[zz] == tmp
      invariant forall k :: 0 <= k < |h| ==> h[k] < |w|
      invariant forall k :: 0 <= k < |h| && k != zz ==> heap[k] == h[k]
      invariant heap[0] == old(heap[0])
      invariant Sinking(a, h, w, nHeap, zz)
      decreases heap.Length - zz
    {
      var yy := 2 * zz;
      if yy > nHeap {
        break;
      }
      if yy < nHeap && weight[heap[yy + 1]] < weight[heap[yy]] {
        yy := yy + 1;
      }
      if weight[tmp] < weight[heap[yy]] {
        assert forall i :: 1 < i <= nHeap && i / 2 == zz ==> i == 2 * zz || i == 2 * zz + 1;
        break;
      }
      SinkingStep(a, h, w, nHeap, zz, yy);
      heap[zz] := heap[yy];
      h := h[zz := h[yy]][yy := h[zz]];
      zz := yy;
    }
    SinkingEnd(a, h, w, nHeap, zz);
    heap[zz] := tmp;
    assert heap[..] == h;
  }

  lemma SinkingStart(a: seq<nat>, w: seq<nat>, n: nat)
    requires OrderedButDown(a, w, n, 1)
    ensures Sinking(a, a, w, n, 1)
  {
  }
}
