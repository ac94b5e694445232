/** BZ2_hbMakeCodeLengths: Huffman code lengths of at most maxLen bits. */
module CodeLengths {

  import opened Bits
  import opened QuickSort
  import opened Heap
  import opened HuffmanTree
  import opened HuffmanOptimal

  const MAX_ALPHA_SIZE: nat := 258

  /** Weights stay below 2^23, so that a weight word fits a signed 32-bit integer. */
  const WEIGHT_LIMIT: nat := 0x80_0000

  // ----- The heap holds the roots -----

  ghost function Roots(parent: seq<int>, n: nat): (r: set<nat>)
    requires n < |parent|
  {
    set i: nat | 1 <= i <= n && parent[i] == -1
  }

  /** The heap's entries 1 .. nHeap. */
  ghost function Entries(heap: seq<nat>, nHeap: nat): (r: multiset<nat>)
    requires nHeap < |heap|
  {
    multiset(heap[1..nHeap + 1])
  }

  lemma EntriesShuffled(h: seq<nat>, h': seq<nat>, n: nat)
    requires n < |h| && Shuffled(h, h', 1, n + 1)
    ensures n < |h'| && Entries(h, n) == Entries(h', n)
  {
    ShuffledStretch(h, h', 1, n + 1);
  }

  lemma EntriesLast(h: seq<nat>, n: nat)
    requires 1 <= n < |h|
    ensures Entries(h, n) == Entries(h, n - 1) + multiset{h[n]}
  {
    assert h[1..n + 1] == h[1..n] + [h[n]];
  }

  lemma EntriesFirst(h: seq<nat>, n: nat)
    requires 1 <= n < |h|
    ensures Entries(h, n) == multiset{h[1]} + multiset(h[2..n + 1])
  {
    assert h[1..n + 1] == [h[1]] + h[2..n + 1];
  }

  /** Moving the last entry to the top of the heap takes the first one out. */
  lemma EntriesPopped(h: seq<nat>, n: nat)
    requires 1 <= n < |h|
    ensures h[1] in Entries(h, n) && Entries(h[1 := h[n]], n - 1) == Entries(h, n) - multiset{h[1]}
  {
    EntriesFirst(h, n);
    var h' := h[1 := h[n]];
    if n > 1 {
      EntriesFirst(h', n - 1);
      assert h[2..n + 1] == h[2..n] + [h[n]];
      assert h'[2..n] == h[2..n];
    } else {
      assert h'[1..1] == [] && h[2..2] == [];
    }
  }

  lemma PoppedOrder(h: seq<nat>, w: seq<nat>, n: nat)
    requires Ordered(h, w, n) && 1 <= n
    ensures OrderedButDown(h[1 := h[n]], w, n - 1, 1)
  {
  }

  lemma LightestFirst(h: seq<nat>, w: seq<nat>, n: nat)
    requires Ordered(h, w, n) && 1 <= n
    ensures h[1] < |w| && forall r :: r in Entries(h, n) ==> r < |w| && w[h[1]] <= w[r]
  {
    forall r | r in Entries(h, n)
      ensures r < |w| && w[h[1]] <= w[r]
    {
      assert r in h[1..n + 1];
      var i :| 0 <= i < n && h[1..n + 1][i] == r;
      RootIsLightest(h, w, n, i + 1);
    }
  }

  /** n1 = heap[1]; heap[1] = heap[nHeap]; nHeap--; DOWNHEAP(1) */
  method PopLightest(heap: array<nat>, weight: array<nat>, nHeap: nat) returns (x: nat)
    requires heap != weight && 1 <= nHeap < heap.Length && Ordered(heap[..], weight[..], nHeap)
    modifies heap
    ensures x < weight.Length && x in Entries(old(heap[..]), nHeap)
    ensures forall r :: r in Entries(old(heap[..]), nHeap) ==> r < weight.Length && weight[x] <= weight[r]
    ensures Ordered(heap[..], weight[..], nHeap - 1)
    ensures Entries(heap[..], nHeap - 1) == Entries(old(heap[..]), nHeap) - multiset{x}
    ensures heap[0] == old(heap[0])
  {
    hide *;
    ghost var h, w := heap[..], weight[..];
    LightestFirst(h, w, nHeap);
    PoppedOrder(h, w, nHeap);
    EntriesPopped(h, nHeap);
    x := heap[1];
    heap[1] := heap[nHeap];
    assert heap[..] == h[1 := h[nHeap]];
    DownHeap(heap, weight, nHeap - 1);
    EntriesShuffled(h[1 := h[nHeap]], heap[..], nHeap - 1);
    assert weight[..] == w;
    assert forall r: nat :: r < |w| ==> weight[r] == w[r];
  }

  lemma PushedOrder(h: seq<nat>, w: seq<nat>, n: nat, x: nat)
    requires Ordered(h, w, n) && n + 1 < |h| && x < |w|
    ensures OrderedButUp(h[n + 1 := x], w, n + 1, n + 1)
  {
  }

  lemma EntriesPushed(h: seq<nat>, n: nat, x: nat)
    requires n + 1 < |h|
    ensures Entries(h[n + 1 := x], n + 1) == Entries(h, n) + multiset{x}
  {
    var h' := h[n + 1 := x];
    EntriesLast(h', n + 1);
    assert h'[1..n + 1] == h[1..n + 1];
  }

  /** nHeap++; heap[nHeap] = x; UPHEAP(nHeap) */
  method Push(heap: array<nat>, weight: array<nat>, nHeap: nat, x: nat)
    requires heap != weight && nHeap + 1 < heap.Length && 0 < x < weight.Length
    requires Ordered(heap[..], weight[..], nHeap) && heap[0] == 0 && weight[0] == 0
    modifies heap
    ensures Ordered(heap[..], weight[..], nHeap + 1) && heap[0] == 0
    ensures Entries(heap[..], nHeap + 1) == Entries(old(heap[..]), nHeap) + multiset{x}
  {
    hide *;
    ghost var h, w := heap[..], weight[..];
    PushedOrder(h, w, nHeap, x);
    EntriesPushed(h, nHeap, x);
    heap[nHeap + 1] := x;
    assert heap[..] == h[nHeap + 1 := x];
    UpHeap(heap, weight, nHeap + 1);
    EntriesShuffled(h[nHeap + 1 := x], heap[..], nHeap + 1);
  }

  // ----- Growing the tree -----

  /** The ghost side of the forest: plain weights and heights, children, and the sum of all weights. */
  datatype Ghosts = Ghosts(wt: seq<nat>, ht: seq<nat>, kids: seq<Pair>, total: nat)

  ghost predicate Grown(weight: seq<nat>, parent: seq<int>, a: nat, n: nat, g: Ghosts) {
    && |weight| == |parent| == |g.wt| && n < 2 * a <= |weight|
    && Forest(g.wt, g.ht, parent, g.kids, a, n)
    && RootSum(g.wt, parent, n) == g.total < WEIGHT_LIMIT
    && (forall i :: 1 <= i <= n ==> weight[i] == Word(g.wt[i], g.ht[i]) && g.ht[i] < 33)
    && weight[0] == 0 && parent[n] == -1
  }

  /** Exactly the roots are on the heap, which is in order. */
  ghost predicate Heaped(heap: seq<nat>, weight: seq<nat>, parent: seq<int>, nHeap: nat, n: nat) {
    && nHeap < |heap| && n < |parent| && heap[0] == 0
    && Ordered(heap, weight, nHeap)
    && Entries(heap, nHeap) == multiset(Roots(parent, n))
  }

  lemma RootsMember(parent: seq<int>, n: nat, i: nat)
    requires n < |parent|
    ensures i in multiset(Roots(parent, n)) <==> Root(parent, n, i)
    ensures multiset(Roots(parent, n))[i] <= 1
  {
  }

  /** The first two nodes taken off the heap are the two lightest roots. */
  lemma PoppedLightest(weight: seq<nat>, parent: seq<int>, a: nat, n: nat, g: Ghosts, E: multiset<nat>, x: nat, y: nat)
    requires Grown(weight, parent, a, n, g) && E == multiset(Roots(parent, n))
    requires x in E && y in E - multiset{x}
    requires forall r :: r in E ==> r < |weight| && weight[x] <= weight[r]
    requires forall r :: r in E - multiset{x} ==> r < |weight| && weight[y] <= weight[r]
    ensures Lightest(g.wt, parent, n, x, y)
  {
    RootsMember(parent, n, x);
    RootsMember(parent, n, y);
    assert Root(parent, n, x) && Root(parent, n, y) && x != y;
    forall z: int | Root(parent, n, z) && z != x && z != y
      ensures g.wt[x] <= g.wt[z] && g.wt[y] <= g.wt[z]
    {
      RootsMember(parent, n, z);
      assert z in E && z in E - multiset{x};
      WordOrder(g.wt[x], g.ht[x], g.wt[z], g.ht[z]);
      WordOrder(g.wt[y], g.ht[y], g.wt[z], g.ht[z]);
    }
  }

  /** The ghost side after merging x and y. */
  ghost function MergedGhosts(g: Ghosts, n: nat, x: nat, y: nat): (r: Ghosts)
    requires n + 1 < |g.wt| == |g.ht| == |g.kids| && x <= n && y <= n
  {
    Ghosts(g.wt[n + 1 := g.wt[x] + g.wt[y]],
           g.ht[n + 1 := 1 + if g.ht[x] > g.ht[y] then g.ht[x] else g.ht[y]],
           g.kids[n + 1 := Pair(x, y)],
           g.total)
  }

  lemma GrownSizes(weight: seq<nat>, parent: seq<int>, a: nat, n: nat, g: Ghosts)
    requires Grown(weight, parent, a, n, g)
    ensures 1 <= a <= n < |g.wt| == |g.ht| == |g.kids| == |weight| == |parent| && n < 2 * a <= |weight|
    ensures g.total < WEIGHT_LIMIT && weight[0] == 0
  {
  }

  /** The forest after merging the two lightest roots; nothing overflows. */
  lemma GrownMore(weight: seq<nat>, parent: seq<int>, a: nat, n: nat, g: Ghosts, x: nat, y: nat)
    requires Grown(weight, parent, a, n, g) && n + 1 < 2 * a && Lightest(g.wt, parent, n, x, y)
    ensures 1 <= x <= n && 1 <= y <= n && n + 1 < |g.wt| == |g.ht| == |g.kids| == |weight| == |parent|
    ensures var word := AddWeights(weight[x], weight[y]);
            && Grown(weight[n + 1 := word], MergedParent(parent, n, x, y), a, n + 1, MergedGhosts(g, n, x, y))
            && word < 0x8000_0000
  {
    hide Forest, RootSum, Fib, AddWeights, MergedParent;
    GrownSizes(weight, parent, a, n, g);
    var g' := MergedGhosts(g, n, x, y);
    var w, h := g.wt[x] + g.wt[y], 1 + (if g.ht[x] > g.ht[y] then g.ht[x] else g.ht[y]);
    AddWeightsJoins(g.wt[x], g.ht[x], g.wt[y], g.ht[y]);
    Merged(g.wt, g.ht, parent, g.kids, a, n, x, y, w, h);
    MergedParentAt(parent, n, x, y);
    RootInSum(g'.wt, MergedParent(parent, n, x, y), n + 1, n + 1);
    ForestParts(g'.wt, g'.ht, MergedParent(parent, n, x, y), g'.kids, a, n + 1);
    HeightFits(g'.wt, g'.ht, g'.kids, a, n + 1, n + 1);
  }

  lemma MergedParentAt(parent: seq<int>, n: nat, x: nat, y: nat)
    requires n + 1 < |parent| && x <= n && y <= n
    ensures MergedParent(parent, n, x, y)[n + 1] == -1
  {
  }

  lemma MergedRoots(parent: seq<int>, n: nat, x: nat, y: nat, z: nat)
    requires z == n + 1 < |parent| && Root(parent, n, x) && Root(parent, n, y) && x != y
    ensures multiset(Roots(MergedParent(parent, n, x, y), n + 1))
         == multiset(Roots(parent, n)) - multiset{x} - multiset{y} + multiset{z}
  {
    var R, R' := Roots(parent, n), Roots(MergedParent(parent, n, x, y), n + 1);
    assert R' == R - {x, y} + {n + 1};
  }

  lemma OrderKept(h: seq<nat>, w: seq<nat>, k: nat, n: nat, v: nat)
    requires Ordered(h, w, k) && n + 1 < |w| && forall r :: r in Entries(h, k) ==> r <= n
    ensures Ordered(h, w[n + 1 := v], k)
  {
    forall i | 1 <= i <= k
      ensures h[i] <= n
    {
      assert h[i] == h[1..k + 1][i - 1];
      assert h[i] in Entries(h, k);
    }
  }

  /** The first half of a turn of the merging loop: n1 and n2 come off the heap. */
  method TakeTwo(heap: array<nat>, weight: array<nat>, nHeap: nat, ghost parent: seq<int>, ghost n: nat, ghost a: nat,
                 ghost g: Ghosts)
    returns (x: nat, y: nat)
    requires heap != weight && 2 <= nHeap
    requires Grown(weight[..], parent, a, n, g) && Heaped(heap[..], weight[..], parent, nHeap, n)
    modifies heap
    ensures Lightest(g.wt, parent, n, x, y)
    ensures nHeap < heap.Length && heap[0] == 0 && Ordered(heap[..], weight[..], nHeap - 2)
    ensures Entries(heap[..], nHeap - 2) == multiset(Roots(parent, n)) - multiset{x} - multiset{y}
  {
    hide *;
    HeapedParts(heap[..], weight[..], parent, nHeap, n);
    ghost var E := Entries(heap[..], nHeap);
    x := PopLightest(heap, weight, nHeap);
    y := PopLightest(heap, weight, nHeap - 1);
    PoppedLightest(weight[..], parent, a, n, g, E, x, y);
  }

  /** One turn of the merging loop. */
  method MergeStep(heap: array<nat>, weight: array<nat>, parent: array<int>, nHeap: nat, nNodes: nat, ghost a: nat,
                   ghost g: Ghosts)
    returns (ghost g': Ghosts)
    requires heap != weight && 2 <= nHeap && nNodes + nHeap == 2 * a
    requires Grown(weight[..], parent[..], a, nNodes, g) && Heaped(heap[..], weight[..], parent[..], nHeap, nNodes)
    modifies heap, weight, parent
    ensures Grown(weight[..], parent[..], a, nNodes + 1, g')
    ensures Heaped(heap[..], weight[..], parent[..], nHeap - 1, nNodes + 1)
    ensures g'.total == g.total && weight[..a + 1] == old(weight[..a + 1])
  {
    hide *;
    GrownSizes(weight[..], parent[..], a, nNodes, g);
    ghost var w, p := weight[..], parent[..];
    var x, y := TakeTwo(heap, weight, nHeap, p, nNodes, a, g);
    GrownMore(w, p, a, nNodes, g, x, y);
    LightestRoots(g.wt, p, nNodes, x, y);
    MergedRoots(p, nNodes, x, y, nNodes + 1);
    var word := AddWeights(weight[x], weight[y]);
    OrderKeptBelow(heap[..], w, nHeap - 2, p, nNodes, x, y, word);
    parent[x] := nNodes + 1;
    parent[y] := nNodes + 1;
    weight[nNodes + 1] := word;
    parent[nNodes + 1] := -1;
    assert weight[..] == w[nNodes + 1 := word];
    MergedParentIs(p, nNodes, x, y);
    assert parent[..] == MergedParent(p, nNodes, x, y);
    Push(heap, weight, nHeap - 2, nNodes + 1);
    HeapedOf(heap[..], weight[..], parent[..], nHeap - 1, nNodes + 1);
    g' := MergedGhosts(g, nNodes, x, y);
    MergedTotal(g, nNodes, x, y);
  }

  lemma OrderKeptBelow(h: seq<nat>, w: seq<nat>, k: nat, parent: seq<int>, n: nat, x: nat, y: nat, v: nat)
    requires Ordered(h, w, k) && n + 1 < |w| && n < |parent|
    requires Entries(h, k) == multiset(Roots(parent, n)) - multiset{x} - multiset{y}
    ensures Ordered(h, w[n + 1 := v], k)
  {
    RestAreRoots(parent, n, multiset(Roots(parent, n)), x, y);
    OrderKept(h, w, k, n, v);
  }

  lemma MergedTotal(g: Ghosts, n: nat, x: nat, y: nat)
    requires n + 1 < |g.wt| == |g.ht| == |g.kids| && x <= n && y <= n
    ensures MergedGhosts(g, n, x, y).total == g.total
  {
  }

  lemma MergedParentIs(parent: seq<int>, n: nat, x: nat, y: nat)
    requires n + 1 < |parent| && x <= n && y <= n
    ensures MergedParent(parent, n, x, y) == parent[x := n + 1][y := n + 1][n + 1 := -1]
  {
  }

  lemma LightestRoots(wt: seq<nat>, parent: seq<int>, n: nat, x: nat, y: nat)
    requires Lightest(wt, parent, n, x, y)
    ensures Root(parent, n, x) && Root(parent, n, y) && x != y
  {
  }

  lemma RestAreRoots(parent: seq<int>, n: nat, E: multiset<nat>, x: nat, y: nat)
    requires n < |parent| && E == multiset(Roots(parent, n))
    ensures forall r :: r in E - multiset{x} - multiset{y} ==> r <= n
  {
  }

  lemma HeapedParts(heap: seq<nat>, weight: seq<nat>, parent: seq<int>, nHeap: nat, n: nat)
    requires Heaped(heap, weight, parent, nHeap, n)
    ensures nHeap < |heap| && n < |parent| && heap[0] == 0 && Ordered(heap, weight, nHeap)
    ensures Entries(heap, nHeap) == multiset(Roots(parent, n))
  {
  }

  lemma HeapedOf(heap: seq<nat>, weight: seq<nat>, parent: seq<int>, nHeap: nat, n: nat)
    requires nHeap < |heap| && n < |parent| && heap[0] == 0 && Ordered(heap, weight, nHeap)
    requires Entries(heap, nHeap) == multiset(Roots(parent, n))
    ensures Heaped(heap, weight, parent, nHeap, n)
  {
  }

  // ----- The outer loop -----

  /** The sum of the weights of symbols 1 .. m. */
  ghost function Total(weight: seq<nat>, m: nat): nat
    requires m < |weight|
  {
    if m == 0 then 0 else Total(weight, m - 1) + weight[m] / 256
  }

  /** Each symbol has a weight of at least one and height zero. */
  ghost predicate Leaves(weight: seq<nat>, a: nat) {
    a < |weight| && forall i :: 1 <= i <= a ==> weight[i] % 256 == 0 && weight[i] >= 256
  }

  lemma {:induction false} TotalIsRootSum(weight: seq<nat>, wt: seq<nat>, parent: seq<int>, m: nat)
    requires m < |weight| == |wt| == |parent|
    requires forall i :: 1 <= i <= m ==> wt[i] == weight[i] / 256 && parent[i] == -1
    ensures RootSum(wt, parent, m) == Total(weight, m)
  {
    if m > 0 {
      TotalIsRootSum(weight, wt, parent, m - 1);
    }
  }

  lemma {:induction false} TotalSame(v: seq<nat>, w: seq<nat>, m: nat)
    requires m < |v| && m < |w| && forall i :: 1 <= i <= m ==> v[i] == w[i]
    ensures Total(v, m) == Total(w, m)
  {
    if m > 0 {
      TotalSame(v, w, m - 1);
    }
  }

  /** Before the first merge every symbol is a root. */
  lemma GrownStart(weight: seq<nat>, parent: seq<int>, a: nat) returns (g: Ghosts)
    requires |weight| == |parent| && 1 <= a && 2 * a <= |weight| && Leaves(weight, a) && weight[0] == 0
    requires forall i :: 1 <= i <= a ==> parent[i] == -1
    requires Total(weight, a) < WEIGHT_LIMIT
    ensures Grown(weight, parent, a, a, g) && g.total == Total(weight, a)
  {
    var n := |weight|;
    var wt: seq<nat> := seq(n, i requires 0 <= i < n => weight[i] / 256);
    g := Ghosts(wt, seq(n, _ => 0), seq(n, _ => Pair(0, 0)), Total(weight, a));
    TotalIsRootSum(weight, wt, parent, a);
    assert Forest(wt, g.ht, parent, g.kids, a, a) by {
      hide RootSum;
      assert UpLinks(parent, a, a) && TwoKids(parent, g.kids, a, a) && Sums(wt, g.ht, g.kids, a, a);
      assert RootsHeavy(wt, parent, a) && PathsGrow(wt, parent, a) && Greedy(wt, parent, g.kids, a, a);
    }
  }

  /** With one root left, it is the last node. */
  lemma OneRoot(heap: seq<nat>, weight: seq<nat>, parent: seq<int>, a: nat, n: nat, g: Ghosts)
    requires Grown(weight, parent, a, n, g) && Heaped(heap, weight, parent, 1, n)
    ensures Tree(parent, a, n)
  {
    hide Forest, RootSum;
    ForestParts(g.wt, g.ht, parent, g.kids, a, n);
    var E := Entries(heap, 1);
    assert heap[1..2] == [heap[1]];
    assert E == multiset{heap[1]};
    forall i | 1 <= i < n
      ensures parent[i] != -1
    {
      assert n in Roots(parent, n) && n in E;
      assert i in Roots(parent, n) ==> i in E;
    }
  }

  /** Fill the heap and merge until one root is left. */
  method BuildTree(weight: array<nat>, parent: array<int>, alphaSize: nat) returns (ghost n: nat, ghost g: Ghosts)
    requires weight.Length == parent.Length == 2 * MAX_ALPHA_SIZE && 2 <= alphaSize <= MAX_ALPHA_SIZE
    requires Leaves(weight[..], alphaSize) && Total(weight[..], alphaSize) < WEIGHT_LIMIT
    modifies weight, parent
    ensures Grown(weight[..], parent[..], alphaSize, n, g) && Tree(parent[..], alphaSize, n)
    ensures g.total == Total(old(weight[..]), alphaSize)
    ensures n == 2 * alphaSize - 1 && forall i :: 1 <= i <= alphaSize ==> weight[i] == old(weight[i])
  {
    hide Ordered, Entries, Roots, Grown, Heaped, Tree, Total, Leaves;
    var heap := new nat[MAX_ALPHA_SIZE + 2](_ => 0);
    ghost var w0 := weight[..];
    var nNodes, nHeap := alphaSize, 0;
    heap[0] := 0;
    weight[0] := 0;
    parent[0] := -2;
    ghost var w := weight[..];
    StartEmpty(heap[..], w, parent[..]);
    for i := 1 to alphaSize + 1
      invariant nHeap == i - 1 && weight[..] == w && fresh(heap) && heap.Length == MAX_ALPHA_SIZE + 2
      invariant forall k :: 1 <= k < i ==> parent[k] == -1
      invariant Heaped(heap[..], w, parent[..], nHeap, i - 1)
    {
      ghost var p := parent[..];
      parent[i] := -1;
      HeapedParts(heap[..], w, p, nHeap, i - 1);
      Push(heap, weight, nHeap, i);
      OneMoreRoot(p, parent[..], i);
      nHeap := nHeap + 1;
      HeapedOf(heap[..], w, parent[..], nHeap, i);
    }
    assert nHeap < MAX_ALPHA_SIZE + 2;
    StartLeaves(w0, w, alphaSize);
    g := GrownStart(w, parent[..], alphaSize);
    while nHeap > 1
      invariant 1 <= nHeap && nNodes + nHeap == 2 * alphaSize && fresh(heap)
      invariant Grown(weight[..], parent[..], alphaSize, nNodes, g)
        && Heaped(heap[..], weight[..], parent[..], nHeap, nNodes)
      invariant g.total == Total(w0, alphaSize) && weight[..alphaSize + 1] == w[..alphaSize + 1]
    {
      g := MergeStep(heap, weight, parent, nHeap, nNodes, alphaSize, g);
      nNodes := nNodes + 1;
      nHeap := nHeap - 1;
    }
    assert nNodes < 2 * MAX_ALPHA_SIZE;
    n := nNodes;
    OneRoot(heap[..], weight[..], parent[..], alphaSize, nNodes, g);
    forall i | 1 <= i <= alphaSize
      ensures weight[i] == w0[i]
    {
      assert weight[i] == weight[..alphaSize + 1][i] == w[..alphaSize + 1][i];
    }
  }

  lemma StartEmpty(heap: seq<nat>, w: seq<nat>, parent: seq<int>)
    requires |heap| > 0 && |parent| > 0 && |w| > 0 && forall i :: 0 <= i < |heap| ==> heap[i] == 0
    ensures Heaped(heap, w, parent, 0, 0)
  {
    assert heap[1..1] == [];
    assert Roots(parent, 0) == {};
  }

  lemma OneMoreRoot(p: seq<int>, p': seq<int>, i: nat)
    requires 1 <= i < |p| && p' == p[i := -1]
    ensures multiset(Roots(p', i)) == multiset(Roots(p, i - 1)) + multiset{i}
  {
    assert Roots(p', i) == Roots(p, i - 1) + {i};
  }

  lemma StartLeaves(w0: seq<nat>, w: seq<nat>, a: nat)
    requires Leaves(w0, a) && w == w0[0 := 0]
    ensures Leaves(w, a) && Total(w, a) == Total(w0, a)
  {
    TotalSame(w, w0, a);
  }

  /** Walk up from each symbol: its code length is its depth. */
  method MeasureDepths(parent: array<int>, len: array<nat>, alphaSize: nat, maxLen: nat, ghost n: nat)
    returns (tooLong: bool)
    requires Tree(parent[..], alphaSize, n) && alphaSize <= len.Length
    modifies len
    ensures forall i :: alphaSize <= i < len.Length ==> len[i] == old(len[i])
    ensures forall i :: 0 <= i < alphaSize ==> len[i] == Depth(parent[..], alphaSize, n, i + 1)
    ensures tooLong <==> exists i :: 0 <= i < alphaSize && len[i] > maxLen
  {
    ghost var p := parent[..];
    ghost var deep := 0;
    tooLong := false;
    for i := 1 to alphaSize + 1
      invariant parent[..] == p
      invariant forall t :: alphaSize <= t < len.Length ==> len[t] == old(len[t])
      invariant forall t :: 0 <= t < i - 1 ==> len[t] == Depth(p, alphaSize, n, t + 1)
      invariant tooLong ==> 0 <= deep < i - 1 && len[deep] > maxLen
      invariant !tooLong ==> forall t :: 0 <= t < i - 1 ==> len[t] <= maxLen
    {
      var j, k := 0, i;
      while parent[k] >= 0
        invariant 1 <= k <= n && j + Depth(p, alphaSize, n, k) == Depth(p, alphaSize, n, i)
        decreases n - k
      {
        assert parent[k] == p[k];
        k := parent[k];
        j := j + 1;
      }
      assert parent[k] == p[k] == -1;
      len[i - 1] := j;
      if j > maxLen {
        tooLong := true;
        deep := i - 1;
      }
    }
  }

  /** Symbol i has plain weight w[i] and height 0. */
  ghost predicate Carries(weight: seq<nat>, w: seq<nat>) {
    |w| < |weight| && forall i :: 0 <= i < |w| ==> weight[i + 1] == w[i] * 256
  }

  /** What scaling makes of plain weights. */
  function Halved(w: seq<nat>): (r: seq<nat>)
    ensures |r| == |w|
  {
    seq(|w|, i requires 0 <= i < |w| => 1 + w[i] / 2)
  }

  /** Halving the weights. */
  method ScaleWeights(weight: array<nat>, alphaSize: nat, ghost plain: seq<nat>)
    requires Leaves(weight[..], alphaSize) && Carries(weight[..], plain) && |plain| == alphaSize
    modifies weight
    ensures Leaves(weight[..], alphaSize) && Carries(weight[..], Halved(plain))
    ensures 2 * Total(weight[..], alphaSize) <= 2 * alphaSize + Total(old(weight[..]), alphaSize)
  {
    hide Total;
    ghost var w := weight[..];
    for i := 1 to alphaSize + 1
      invariant forall k :: 1 <= k < i ==> weight[k] == (1 + w[k] / 256 / 2) * 256
      invariant forall k :: i <= k <= alphaSize ==> weight[k] == w[k]
    {
      var j := weight[i] / 256;
      j := 1 + (j / 2);
      weight[i] := j * 256;
    }
    ScaledTotal(w, weight[..], alphaSize);
    HalvedCarried(w, weight[..], plain);
  }

  lemma HalvedCarried(w: seq<nat>, w': seq<nat>, plain: seq<nat>)
    requires Carries(w, plain) && |plain| < |w'|
    requires forall k :: 1 <= k <= |plain| ==> w'[k] == (1 + w[k] / 256 / 2) * 256
    ensures Carries(w', Halved(plain))
  {
    forall i | 0 <= i < |plain|
      ensures w'[i + 1] == Halved(plain)[i] * 256
    {
      assert w[i + 1] == plain[i] * 256;
    }
  }

  lemma {:induction false} ScaledTotal(w: seq<nat>, w': seq<nat>, m: nat)
    requires m < |w| && m < |w'| && forall k :: 1 <= k <= m ==> w'[k] == (1 + w[k] / 256 / 2) * 256
    ensures 2 * Total(w', m) <= 2 * m + Total(w, m)
  {
    if m > 0 {
      ScaledTotal(w, w', m - 1);
    }
  }

  /** Adequate lengths: all between 1 and maxLen, and complete. */
  ghost predicate GoodLengths(len: seq<nat>, maxLen: nat) {
    && (forall i :: 0 <= i < |len| ==> 1 <= len[i] <= maxLen)
    && KraftSum(len, maxLen) == Pow2(maxLen)
  }

  lemma TreeGivesGoodLengths(parent: seq<int>, kids: seq<Pair>, a: nat, n: nat, len: seq<nat>, maxLen: nat)
    requires Tree(parent, a, n) && TwoKids(parent, kids, a, n) && 1 <= a < n
    requires |len| == a && forall i :: 0 <= i < a ==> len[i] == Depth(parent, a, n, i + 1)
    requires forall i :: 0 <= i < a ==> len[i] <= maxLen
    ensures GoodLengths(len, maxLen)
  {
    hide KraftSum;
    TreeIsComplete(parent, kids, a, n, len, maxLen + n);
    CompleteAtAnyScale(len, maxLen, n);
  }

  /** Some symbol lies too deep: the weights add up to more than scaling can keep. */
  lemma TooLongIsHeavy(weight: seq<nat>, parent: seq<int>, a: nat, n: nat, g: Ghosts, i: nat, maxLen: nat)
    requires Grown(weight, parent, a, n, g) && Tree(parent, a, n) && 1 <= i <= a
    requires Depth(parent, a, n, i) > maxLen
    ensures g.total >= Fib(maxLen + 1)
  {
    hide Forest, Fib;
    RootInSum(g.wt, parent, n, n);
    DepthNeedsWeight(g.wt, g.ht, parent, g.kids, a, n, i);
    FibMonotone(maxLen + 1, Depth(parent, a, n, i));
  }

  /** The number of times a symbol counts: at least once. */
  function Counted(f: nat): nat {
    if f == 0 then 1 else f
  }

  ghost function CountedSum(freq: seq<nat>): nat {
    if freq == [] then 0 else CountedSum(freq[..|freq| - 1]) + Counted(freq[|freq| - 1])
  }

  /** The plain weights after k scalings. */
  function Scaled(freq: seq<nat>, k: nat): (r: seq<nat>)
    ensures |r| == |freq|
    decreases k
  {
    if k == 0 then seq(|freq|, i requires 0 <= i < |freq| => Counted(freq[i])) else Halved(Scaled(freq, k - 1))
  }

  /** Some shortest code for these weights has a code word of more than maxLen bits. */
  ghost predicate TooDeep(w: seq<nat>, maxLen: nat) {
    exists len: seq<nat>, big: nat :: Shortest(w, len) && Codable(len, big) && Exceeds(len, maxLen)
  }

  ghost predicate Exceeds(len: seq<nat>, maxLen: nat) {
    exists i :: 0 <= i < |len| && len[i] > maxLen
  }

  /** k scalings were called for: each time a shortest code was too long, and the first time the weights were heavy. */
  ghost predicate ScalingsDue(freq: seq<nat>, k: nat, maxLen: nat) {
    && (forall j :: 0 <= j < k ==> TooDeep(Scaled(freq, j), maxLen))
    && (k > 0 ==> CountedSum(freq) >= Fib(maxLen + 1))
  }

  /** The lengths are shortest for the frequencies, scaled no more often than was called for. */
  ghost predicate HuffmanLengths(freq: seq<nat>, len: seq<nat>, maxLen: nat) {
    exists k: nat :: ScalingsDue(freq, k, maxLen) && Shortest(Scaled(freq, k), len)
  }

  /** For light frequencies the lengths are shortest as they stand. */
  lemma LightIsShortest(freq: seq<nat>, len: seq<nat>, maxLen: nat)
    requires HuffmanLengths(freq, len, maxLen) && CountedSum(freq) < Fib(maxLen + 1)
    ensures Shortest(Scaled(freq, 0), len)
  {
    hide Shortest, Fib, CountedSum, Scaled;
  }

  /**
    BZ2_hbMakeCodeLengths.  It ends, since scaling always makes the weights lighter
    until no symbol can lie deeper than maxLen, and its lengths form a complete code,
    a shortest one for the weights it was left with.  Assertions 2001 and 2002 cannot fail.
   */
  method MakeCodeLengths(len: array<nat>, freq: array<nat>, alphaSize: nat, maxLen: nat)
    requires len != freq && 2 <= alphaSize <= MAX_ALPHA_SIZE && alphaSize <= len.Length && alphaSize <= freq.Length
    requires CountedSum(freq[..alphaSize]) < WEIGHT_LIMIT
    requires Fib(maxLen + 1) > 2 * alphaSize
    modifies len
    ensures GoodLengths(len[..alphaSize], maxLen)
    ensures HuffmanLengths(freq[..alphaSize], len[..alphaSize], maxLen)
    ensures CountedSum(freq[..alphaSize]) < Fib(maxLen + 1) ==>
              Shortest(Scaled(freq[..alphaSize], 0), len[..alphaSize])
    ensures forall i :: alphaSize <= i < len.Length ==> len[i] == old(len[i])
  {
    hide *;
    var weight := new nat[2 * 258];
    var parent := new int[2 * 258];
    AlphaLimit(alphaSize);
    ghost var f, k := freq[..alphaSize], 0;
    FillWeights(weight, freq, alphaSize);
    NotScaled(f, maxLen);
    while true
      invariant fresh(weight) && fresh(parent) && weight.Length == parent.Length == 516 && freq[..alphaSize] == f
      invariant Leaves(weight[..], alphaSize) && Total(weight[..], alphaSize) < WEIGHT_LIMIT
      invariant Carries(weight[..], Scaled(f, k)) && ScalingsDue(f, k, maxLen)
      invariant k == 0 ==> Total(weight[..], alphaSize) == CountedSum(f)
      invariant forall i :: alphaSize <= i < len.Length ==> len[i] == old(len[i])
      decreases Total(weight[..], alphaSize)
    {
      ghost var w := weight[..];
      ghost var n, g := BuildTree(weight, parent, alphaSize);
      var tooLong := MeasureDepths(parent, len, alphaSize, maxLen, n);
      CarriedKept(w, weight[..], Scaled(f, k));
      GrownShortest(weight[..], parent[..], alphaSize, n, g, Scaled(f, k), len[..alphaSize]);
      if !tooLong {
        LengthsFit(weight[..], parent[..], alphaSize, n, g, len[..alphaSize], maxLen);
        HuffmanOf(f, k, len[..alphaSize], maxLen);
        break;
      }
      TooLong(weight[..], parent[..], alphaSize, n, g, len[..alphaSize], maxLen);
      OnceMore(f, k, len[..alphaSize], n, maxLen);
      LeavesKept(w, weight[..], alphaSize);
      ScaleWeights(weight, alphaSize, Scaled(f, k));
      k := k + 1;
    }
  }

  lemma CarriedKept(w: seq<nat>, w': seq<nat>, plain: seq<nat>)
    requires Carries(w, plain) && |plain| < |w'| && forall i :: 1 <= i <= |plain| ==> w'[i] == w[i]
    ensures Carries(w', plain)
  {
  }

  /** The depths are shortest for the plain weights, and codable. */
  lemma GrownShortest(weight: seq<nat>, parent: seq<int>, a: nat, n: nat, g: Ghosts, plain: seq<nat>, len: seq<nat>)
    requires Grown(weight, parent, a, n, g) && Tree(parent, a, n) && Carries(weight, plain)
    requires |len| == |plain| == a && forall i :: 0 <= i < a ==> len[i] == Depth(parent, a, n, i + 1)
    ensures Shortest(plain, len) && Codable(len, n)
  {
    hide *;
    GrownParts(weight, parent, a, n, g);
    GrownAdds(g.wt, g.ht, parent, g.kids, a, n);
    PlainOnLeaves(weight, parent, a, n, g, plain);
    TreeIsShortest(plain, len, g.wt, parent, g.kids, a, n);
    TreeIsComplete(parent, g.kids, a, n, len, n);
    CodableOf(len, n);
  }

  lemma GrownParts(weight: seq<nat>, parent: seq<int>, a: nat, n: nat, g: Ghosts)
    requires Grown(weight, parent, a, n, g)
    ensures TwoKids(parent, g.kids, a, n) && Sums(g.wt, g.ht, g.kids, a, n) && Greedy(g.wt, parent, g.kids, a, n)
  {
    hide TwoKids, Sums, Greedy;
  }

  lemma GrownAdds(wt: seq<nat>, ht: seq<nat>, parent: seq<int>, kids: seq<Pair>, a: nat, n: nat)
    requires Sums(wt, ht, kids, a, n) && TwoKids(parent, kids, a, n)
    ensures Adds(wt, kids, a, n)
  {
  }

  lemma PlainOnLeaves(weight: seq<nat>, parent: seq<int>, a: nat, n: nat, g: Ghosts, plain: seq<nat>)
    requires Grown(weight, parent, a, n, g) && Carries(weight, plain) && |plain| == a
    ensures OnLeaves(g.wt, plain)
  {
    forall i | 0 <= i < a
      ensures g.wt[i + 1] == plain[i]
    {
      assert weight[i + 1] == Word(g.wt[i + 1], g.ht[i + 1]);
    }
  }

  lemma CodableOf(len: seq<nat>, big: nat)
    requires forall i :: 0 <= i < |len| ==> len[i] <= big
    requires KraftSum(len, big) == Pow2(big)
    ensures Codable(len, big)
  {
  }

  lemma NotScaled(f: seq<nat>, maxLen: nat)
    ensures ScalingsDue(f, 0, maxLen)
  {
  }

  lemma HuffmanOf(f: seq<nat>, k: nat, len: seq<nat>, maxLen: nat)
    requires ScalingsDue(f, k, maxLen) && Shortest(Scaled(f, k), len)
    ensures HuffmanLengths(f, len, maxLen)
    ensures CountedSum(f) < Fib(maxLen + 1) ==> Shortest(Scaled(f, 0), len)
  {
    hide Shortest, Fib, CountedSum, Scaled, ScalingsDue;
    if CountedSum(f) < Fib(maxLen + 1) {
      LightIsShortest(f, len, maxLen);
    }
  }

  lemma OnceMore(f: seq<nat>, k: nat, len: seq<nat>, big: nat, maxLen: nat)
    requires ScalingsDue(f, k, maxLen) && Shortest(Scaled(f, k), len) && Codable(len, big)
    requires exists i :: 0 <= i < |len| && len[i] > maxLen
    requires k == 0 ==> CountedSum(f) >= Fib(maxLen + 1)
    ensures ScalingsDue(f, k + 1, maxLen) && Scaled(f, k + 1) == Halved(Scaled(f, k))
  {
    hide Shortest, Codable, Fib, CountedSum;
    assert TooDeep(Scaled(f, k), maxLen);
  }

  lemma AlphaLimit(alphaSize: nat)
    ensures MAX_ALPHA_SIZE == 258
  {
  }

  lemma LengthsFit(weight: seq<nat>, parent: seq<int>, a: nat, n: nat, g: Ghosts, len: seq<nat>, maxLen: nat)
    requires Grown(weight, parent, a, n, g) && Tree(parent, a, n) && n == 2 * a - 1 && a >= 2
    requires |len| == a && forall i :: 0 <= i < a ==> len[i] == Depth(parent, a, n, i + 1)
    requires forall i :: 0 <= i < a ==> len[i] <= maxLen
    ensures GoodLengths(len, maxLen)
  {
    hide Forest, RootSum, GoodLengths;
    ForestParts(g.wt, g.ht, parent, g.kids, a, n);
    TreeGivesGoodLengths(parent, g.kids, a, n, len, maxLen);
  }

  lemma TooLong(weight: seq<nat>, parent: seq<int>, a: nat, n: nat, g: Ghosts, len: seq<nat>, maxLen: nat)
    requires Grown(weight, parent, a, n, g) && Tree(parent, a, n)
    requires |len| == a && forall i :: 0 <= i < a ==> len[i] == Depth(parent, a, n, i + 1)
    requires exists i :: 0 <= i < a && len[i] > maxLen
    ensures g.total >= Fib(maxLen + 1)
  {
    hide Grown, Fib;
    var i :| 0 <= i < a && len[i] > maxLen;
    TooLongIsHeavy(weight, parent, a, n, g, i + 1, maxLen);
  }

  lemma LeavesKept(w: seq<nat>, w': seq<nat>, a: nat)
    requires Leaves(w, a) && a < |w'| && forall i :: 1 <= i <= a ==> w'[i] == w[i]
    ensures Leaves(w', a) && Total(w', a) == Total(w, a)
  {
    TotalSame(w', w, a);
  }

  /** weight[i+1] = (freq[i] == 0 ? 1 : freq[i]) << 8 */
  method FillWeights(weight: array<nat>, freq: array<nat>, alphaSize: nat)
    requires weight != freq && alphaSize < weight.Length && alphaSize <= freq.Length
    modifies weight
    ensures Leaves(weight[..], alphaSize) && Total(weight[..], alphaSize) == CountedSum(freq[..alphaSize])
    ensures Carries(weight[..], Scaled(freq[..alphaSize], 0))
  {
    ghost var f := freq[..alphaSize];
    for i := 0 to alphaSize
      invariant freq[..alphaSize] == f
      invariant forall k :: 1 <= k <= i ==> weight[k] == Counted(f[k - 1]) * 256
    {
      assert freq[i] == f[i];
      weight[i + 1] := (if freq[i] == 0 then 1 else freq[i]) * 256;
    }
    TotalCounted(weight[..], f, alphaSize);
    assert f[..alphaSize] == f;
  }

  lemma {:induction false} TotalCounted(w: seq<nat>, f: seq<nat>, m: nat)
    requires m <= |f| && m < |w| && forall k :: 1 <= k <= m ==> w[k] == Counted(f[k - 1]) * 256
    ensures Total(w, m) == CountedSum(f[..m])
  {
    if m > 0 {
      TotalCounted(w, f, m - 1);
      assert f[..m][..m - 1] == f[..m - 1];
    }
  }
}
