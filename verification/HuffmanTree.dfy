/**
  The forest that BZ2_hbMakeCodeLengths grows, and why its trees are shallow.

  Nodes are numbered from 1; 1 .. a are the symbols.  parent[i] is -1 for a root.
  A weight word holds the weight in its upper bits and, in its low byte, the height
  of the node's tree.  Light nodes are merged first, so along every path the weights
  grow at least like Fibonacci numbers.
 */
module HuffmanTree {

  import opened Bits

  /** 1, 2, 3, 5, 8, ... */
  function Fib(n: nat): (r: nat)
    ensures r >= 1
  {
    if n == 0 then 1 else if n == 1 then 2 else Fib(n - 1) + Fib(n - 2)
  }

  lemma {:induction false} FibMonotone(m: nat, n: nat)
    requires m <= n
    ensures Fib(m) <= Fib(n)
    decreases n
  {
    if m < n {
      FibMonotone(m, n - 1);
    }
  }

  lemma FibValues()
    ensures Fib(18) == 6765 && Fib(33) == 9227465
  {
    assert Fib(2) == 3 && Fib(3) == 5;
    assert Fib(4) == 8 && Fib(5) == 13;
    assert Fib(6) == 21 && Fib(7) == 34;
    assert Fib(8) == 55 && Fib(9) == 89;
    assert Fib(10) == 144 && Fib(11) == 233;
    assert Fib(12) == 377 && Fib(13) == 610;
    assert Fib(14) == 987 && Fib(15) == 1597;
    assert Fib(16) == 2584 && Fib(17) == 4181;
    assert Fib(18) == 6765 && Fib(19) == 10946;
    assert Fib(20) == 17711 && Fib(21) == 28657;
    assert Fib(22) == 46368 && Fib(23) == 75025;
    assert Fib(24) == 121393 && Fib(25) == 196418;
    assert Fib(26) == 317811 && Fib(27) == 514229;
    assert Fib(28) == 832040 && Fib(29) == 1346269;
    assert Fib(30) == 2178309 && Fib(31) == 3524578;
    assert Fib(32) == 5702887;
  }

  datatype Pair = Pair(left: nat, right: nat)

  /** Parents are inner nodes and have higher numbers than their children. */
  ghost predicate UpLinks(parent: seq<int>, a: nat, n: nat) {
    && 1 <= a <= n < |parent|
    && (forall i :: 1 <= i <= n ==> parent[i] == -1 || (i < parent[i] <= n && a < parent[i]))
  }

  /** Every inner node has exactly two children. */
  ghost predicate TwoKids(parent: seq<int>, kids: seq<Pair>, a: nat, n: nat) {
    && n < |parent| == |kids|
    && (forall p :: a < p <= n ==> 1 <= kids[p].left < p && 1 <= kids[p].right < p && kids[p].left != kids[p].right)
    && (forall p :: a < p <= n ==> parent[kids[p].left] == p && parent[kids[p].right] == p)
    && (forall i, p :: 1 <= i <= n && a < p <= n && parent[i] == p ==> i == kids[p].left || i == kids[p].right)
  }

  ghost predicate Root(parent: seq<int>, n: nat, i: int)
    requires n < |parent|
  {
    1 <= i <= n && parent[i] == -1
  }

  /** Weights add up, heights are those of the trees, and weight bounds height. */
  ghost predicate Sums(wt: seq<nat>, ht: seq<nat>, kids: seq<Pair>, a: nat, n: nat) {
    && a <= n < |wt| == |ht| == |kids|
    && (forall i :: 1 <= i <= n ==> wt[i] >= Fib(ht[i]))
    && (forall i :: 1 <= i <= a ==> ht[i] == 0)
    && (forall p {:trigger kids[p]} :: a < p <= n ==>
       kids[p].left <= n && kids[p].right <= n && Joins(wt, ht, kids[p].left, kids[p].right, wt[p], ht[p]))
  }

  /** A node of weight w and height h may have children x and y. */
  ghost predicate Joins(wt: seq<nat>, ht: seq<nat>, x: nat, y: nat, w: nat, h: nat)
    requires x < |wt| == |ht| && y < |wt|
  {
    w == wt[x] + wt[y] && h == 1 + (if ht[x] > ht[y] then ht[x] else ht[y])
  }

  /** A child of a root is not heavier than any other root: the light nodes were merged first. */
  ghost predicate RootsHeavy(wt: seq<nat>, parent: seq<int>, n: nat) {
    && n < |wt| && n < |parent|
    && (forall j, p, y :: 1 <= j <= n && parent[j] == p && Root(parent, n, p) && Root(parent, n, y) && y != p ==>
       wt[j] <= wt[y])
  }

  /** A node weighs at least as much as a child and a grandchild on one path together. */
  ghost predicate PathsGrow(wt: seq<nat>, parent: seq<int>, n: nat) {
    && n < |wt| && n < |parent|
    && (forall j, p, g :: 1 <= j <= n && 1 <= p <= n && 1 <= g <= n && parent[j] == p && parent[p] == g ==>
       wt[g] >= wt[p] + wt[j])
  }

  /** Of the nodes that had no parent before node p was made, p joined two lightest ones. */
  ghost predicate Greedy(wt: seq<nat>, parent: seq<int>, kids: seq<Pair>, a: nat, n: nat) {
    && n < |wt| && n < |parent| && n < |kids|
    && (forall p, z :: a < p <= n && 1 <= z < p && (parent[z] == -1 || parent[z] >= p) ==>
       Lighter(wt, kids[p], z))
  }

  /** Neither of the two weighs more than z, unless it is z. */
  ghost predicate Lighter(wt: seq<nat>, two: Pair, z: nat)
    requires z < |wt|
  {
    && two.left < |wt| && two.right < |wt|
    && (z == two.left || z == two.right || (wt[two.left] <= wt[z] && wt[two.right] <= wt[z]))
  }

  ghost predicate Forest(wt: seq<nat>, ht: seq<nat>, parent: seq<int>, kids: seq<Pair>, a: nat, n: nat) {
    && |parent| == |wt|
    && UpLinks(parent, a, n) && TwoKids(parent, kids, a, n) && Sums(wt, ht, kids, a, n)
    && RootsHeavy(wt, parent, n) && PathsGrow(wt, parent, n) && Greedy(wt, parent, kids, a, n)
  }

  // ----- The sum over the roots -----

  /** The sum of the weights of the roots among 1 .. m. */
  ghost function RootSum(wt: seq<nat>, parent: seq<int>, m: nat): (r: nat)
    requires m < |wt| && m < |parent|
  {
    if m == 0 then 0 else RootSum(wt, parent, m - 1) + if parent[m] == -1 then wt[m] else 0
  }

  lemma {:induction false} RootInSum(wt: seq<nat>, parent: seq<int>, m: nat, i: nat)
    requires m < |wt| && m < |parent| && 1 <= i <= m && parent[i] == -1
    ensures wt[i] <= RootSum(wt, parent, m)
    decreases m
  {
    if i < m {
      RootInSum(wt, parent, m - 1, i);
    }
  }

  /** Giving root i a parent takes it out of the sum. */
  lemma {:induction false} RootSumWithout(wt: seq<nat>, parent: seq<int>, m: nat, i: nat, p: int)
    requires m < |wt| && m < |parent| && 1 <= i < |parent| && i < |wt| && parent[i] == -1 && p != -1
    ensures RootSum(wt, parent[i := p], m) == RootSum(wt, parent, m) - (if i <= m then wt[i] else 0)
    decreases m
  {
    if m > 0 {
      RootSumWithout(wt, parent, m - 1, i, p);
    }
  }

  lemma {:induction false} RootSumSame(wt: seq<nat>, wt': seq<nat>, parent: seq<int>, parent': seq<int>, m: nat)
    requires m < |wt| == |wt'| && m < |parent| == |parent'|
    requires forall i :: 1 <= i <= m ==> wt[i] == wt'[i] && (parent[i] == -1 <==> parent'[i] == -1)
    ensures RootSum(wt, parent, m) == RootSum(wt', parent', m)
    decreases m
  {
    if m > 0 {
      RootSumSame(wt, wt', parent, parent', m - 1);
    }
  }

  // ----- Merging two roots -----

  ghost predicate Lightest(wt: seq<nat>, parent: seq<int>, n: nat, x: nat, y: nat) {
    && n < |wt| && n < |parent|
    && Root(parent, n, x) && Root(parent, n, y) && x != y
    && (forall z :: Root(parent, n, z) && z != x && z != y ==> wt[x] <= wt[z] && wt[y] <= wt[z])
  }

  /** The parents once node n + 1 has children x and y. */
  function MergedParent(parent: seq<int>, n: nat, x: nat, y: nat): (r: seq<int>)
    requires n + 1 < |parent| && x <= n && y <= n
    ensures |r| == |parent|
  {
    parent[x := n + 1][y := n + 1][n + 1 := -1]
  }

  lemma MergedLinks(parent: seq<int>, kids: seq<Pair>, a: nat, n: nat, x: nat, y: nat)
    requires UpLinks(parent, a, n) && TwoKids(parent, kids, a, n) && n + 1 < |parent|
    requires Root(parent, n, x) && Root(parent, n, y) && x != y
    ensures UpLinks(MergedParent(parent, n, x, y), a, n + 1)
    ensures TwoKids(MergedParent(parent, n, x, y), kids[n + 1 := Pair(x, y)], a, n + 1)
  {
    var parent', kids' := MergedParent(parent, n, x, y), kids[n + 1 := Pair(x, y)];
    forall p | a < p <= n
      ensures parent'[kids'[p].left] == p && parent'[kids'[p].right] == p
    {
      assert parent[kids[p].left] == p && parent[kids[p].right] == p;
    }
  }

  lemma MergedRootsHeavy(wt: seq<nat>, parent: seq<int>, n: nat, x: nat, y: nat)
    requires n + 1 < |parent| == |wt| && (forall i :: 1 <= i <= n ==> parent[i] <= n)
    requires RootsHeavy(wt, parent, n) && Lightest(wt, parent, n, x, y) && wt[n + 1] == wt[x] + wt[y]
    ensures RootsHeavy(wt, MergedParent(parent, n, x, y), n + 1)
  {
    var parent' := MergedParent(parent, n, x, y);
    forall j, z | 1 <= j <= n + 1 && Root(parent', n + 1, parent'[j]) && Root(parent', n + 1, z) && z != parent'[j]
      ensures wt[j] <= wt[z]
    {
      var p := parent'[j];
      if j == x || j == y {
        assert Root(parent, n, z);
      } else {
        assert Root(parent, n, p) && parent[j] == p;
        assert wt[j] <= wt[x];
        assert z == n + 1 || Root(parent, n, z);
      }
    }
  }

  lemma MergedPathsGrow(wt: seq<nat>, parent: seq<int>, n: nat, x: nat, y: nat)
    requires n + 1 < |parent| == |wt| && (forall i :: 1 <= i <= n ==> parent[i] <= n)
    requires RootsHeavy(wt, parent, n) && PathsGrow(wt, parent, n)
    requires Lightest(wt, parent, n, x, y) && wt[n + 1] == wt[x] + wt[y]
    ensures PathsGrow(wt, MergedParent(parent, n, x, y), n + 1)
  {
    var parent' := MergedParent(parent, n, x, y);
    forall j, p, g | 1 <= j <= n + 1 && 1 <= p <= n + 1 && 1 <= g <= n + 1 && parent'[j] == p && parent'[p] == g
      ensures wt[g] >= wt[p] + wt[j]
    {
      assert parent[j] == p && p <= n;
      if p == x || p == y {
        assert Root(parent, n, x) && Root(parent, n, y);
      }
    }
  }

  /** The heavier a tree must be the taller it is. */
  lemma MergedHeight(wt: seq<nat>, ht: seq<nat>, parent: seq<int>, kids: seq<Pair>, a: nat, n: nat, x: nat, y: nat)
    requires TwoKids(parent, kids, a, n) && Sums(wt, ht, kids, a, n) && RootsHeavy(wt, parent, n)
    requires Root(parent, n, x) && Root(parent, n, y) && x != y
    ensures wt[x] + wt[y] >= Fib(1 + ht[x])
  {
    hide Fib;
    FibStep(ht[x]);
    FibStep(ht[y]);
    if x > a {
      var l, r := kids[x].left, kids[x].right;
      assert Joins(wt, ht, l, r, wt[x], ht[x]);
      assert parent[l] == x && parent[r] == x;
      assert wt[l] <= wt[y] && wt[r] <= wt[y];
    }
  }

  lemma FibStep(h: nat)
    ensures Fib(h) >= 1 && Fib(1) == 2
    ensures h >= 1 ==> Fib(1 + h) == Fib(h) + Fib(h - 1)
  {
  }

  lemma MergedSums(wt: seq<nat>, ht: seq<nat>, kids: seq<Pair>, a: nat, n: nat, x: nat, y: nat, w: nat, h: nat)
    requires Sums(wt, ht, kids, a, n) && a <= n && n + 1 < |wt| && x <= n && y <= n
    requires Joins(wt, ht, x, y, w, h) && w >= Fib(h)
    ensures Sums(wt[n + 1 := w], ht[n + 1 := h], kids[n + 1 := Pair(x, y)], a, n + 1)
  {
    var wt', ht', kids' := wt[n + 1 := w], ht[n + 1 := h], kids[n + 1 := Pair(x, y)];
    forall p | a < p <= n + 1
      ensures kids'[p].left <= n + 1 && kids'[p].right <= n + 1
      ensures Joins(wt', ht', kids'[p].left, kids'[p].right, wt'[p], ht'[p])
    {
      if p <= n {
        assert Joins(wt, ht, kids[p].left, kids[p].right, wt[p], ht[p]);
      }
    }
  }

  lemma MergedGreedy(wt: seq<nat>, parent: seq<int>, kids: seq<Pair>, a: nat, n: nat, x: nat, y: nat, w: nat)
    requires UpLinks(parent, a, n) && TwoKids(parent, kids, a, n) && Greedy(wt, parent, kids, a, n)
    requires n + 1 < |parent| == |wt| && Lightest(wt, parent, n, x, y)
    ensures Greedy(wt[n + 1 := w], MergedParent(parent, n, x, y), kids[n + 1 := Pair(x, y)], a, n + 1)
  {
    var wt', parent', kids' := wt[n + 1 := w], MergedParent(parent, n, x, y), kids[n + 1 := Pair(x, y)];
    forall p, z | a < p <= n + 1 && 1 <= z < p && (parent'[z] == -1 || parent'[z] >= p)
      ensures Lighter(wt', kids'[p], z)
    {
      if p <= n {
        assert parent[z] == -1 || parent[z] >= p;
        assert Lighter(wt, kids[p], z);
      } else if z != x && z != y {
        assert Root(parent, n, z);
      }
    }
  }

  /** The weight of node n + 1 plays no part among n nodes. */
  lemma MergedAgain(wt: seq<nat>, parent: seq<int>, n: nat, x: nat, y: nat, w: nat)
    requires n + 1 < |wt| == |parent| && RootsHeavy(wt, parent, n) && PathsGrow(wt, parent, n)
      && Lightest(wt, parent, n, x, y)
    ensures RootsHeavy(wt[n + 1 := w], parent, n) && PathsGrow(wt[n + 1 := w], parent, n)
    ensures Lightest(wt[n + 1 := w], parent, n, x, y)
  {
  }

  /** Merging the two lightest roots gives a forest again. */
  lemma Merged(wt: seq<nat>, ht: seq<nat>, parent: seq<int>, kids: seq<Pair>, a: nat, n: nat, x: nat, y: nat, w: nat,
               h: nat)
    requires Forest(wt, ht, parent, kids, a, n) && n + 1 < |wt|
    requires Lightest(wt, parent, n, x, y) && Joins(wt, ht, x, y, w, h)
    ensures Forest(wt[n + 1 := w], ht[n + 1 := h], MergedParent(parent, n, x, y), kids[n + 1 := Pair(x, y)], a, n + 1)
    ensures RootSum(wt[n + 1 := w], MergedParent(parent, n, x, y), n + 1) == RootSum(wt, parent, n)
  {
    hide *;
    ForestParts(wt, ht, parent, kids, a, n);
    MergedParts(wt, ht, parent, kids, a, n, x, y, w, h);
    MergedSum(wt, parent, n, x, y, w);
    MergedLinks(parent, kids, a, n, x, y);
    MergedSums(wt, ht, kids, a, n, x, y, w, h);
    MergedAgain(wt, parent, n, x, y, w);
    MergedRootsHeavy(wt[n + 1 := w], parent, n, x, y);
    MergedPathsGrow(wt[n + 1 := w], parent, n, x, y);
    MergedGreedy(wt, parent, kids, a, n, x, y, w);
    ForestOf(wt[n + 1 := w], ht[n + 1 := h], MergedParent(parent, n, x, y), kids[n + 1 := Pair(x, y)], a, n + 1);
  }

  lemma MergedParts(wt: seq<nat>, ht: seq<nat>, parent: seq<int>, kids: seq<Pair>, a: nat, n: nat, x: nat, y: nat,
                    w: nat, h: nat)
    requires TwoKids(parent, kids, a, n) && Sums(wt, ht, kids, a, n) && RootsHeavy(wt, parent, n)
    requires Lightest(wt, parent, n, x, y) && Joins(wt, ht, x, y, w, h)
    ensures w == wt[x] + wt[y] && w >= Fib(h)
    ensures Root(parent, n, x) && Root(parent, n, y) && x != y && 1 <= x <= n && 1 <= y <= n
  {
    MergedHeight(wt, ht, parent, kids, a, n, x, y);
    MergedHeight(wt, ht, parent, kids, a, n, y, x);
  }

  lemma ForestParts(wt: seq<nat>, ht: seq<nat>, parent: seq<int>, kids: seq<Pair>, a: nat, n: nat)
    requires Forest(wt, ht, parent, kids, a, n)
    ensures UpLinks(parent, a, n) && TwoKids(parent, kids, a, n) && Sums(wt, ht, kids, a, n)
    ensures RootsHeavy(wt, parent, n) && PathsGrow(wt, parent, n) && Greedy(wt, parent, kids, a, n)
    ensures 1 <= a <= n < |parent| == |wt| == |ht| == |kids| && (forall i :: 1 <= i <= n ==> parent[i] <= n)
  {
  }

  lemma ForestOf(wt: seq<nat>, ht: seq<nat>, parent: seq<int>, kids: seq<Pair>, a: nat, n: nat)
    requires UpLinks(parent, a, n) && TwoKids(parent, kids, a, n) && Sums(wt, ht, kids, a, n)
    requires RootsHeavy(wt, parent, n) && PathsGrow(wt, parent, n) && Greedy(wt, parent, kids, a, n)
    requires |parent| == |wt|
    ensures Forest(wt, ht, parent, kids, a, n)
  {
  }

  /** The sum of the roots' weights is the same after a merge. */
  lemma MergedSum(wt: seq<nat>, parent: seq<int>, n: nat, x: nat, y: nat, w: nat)
    requires n + 1 < |parent| == |wt| && Root(parent, n, x) && Root(parent, n, y) && x != y && w == wt[x] + wt[y]
    ensures RootSum(wt[n + 1 := w], MergedParent(parent, n, x, y), n + 1) == RootSum(wt, parent, n)
  {
    RootSumWithout(wt, parent, n, x, n + 1);
    RootSumWithout(wt, parent[x := n + 1], n, y, n + 1);
    RootSumSame(wt[n + 1 := w], wt, MergedParent(parent, n, x, y), parent[x := n + 1][y := n + 1], n);
  }

  // ----- Weight words -----

  /** The word for weight w and height h. */
  function Word(w: nat, h: nat): nat {
    256 * w + h
  }

  /** ADDWEIGHTS: WEIGHTOF masks out the low byte, DEPTHOF keeps it. */
  function AddWeights(u: nat, v: nat): (r: nat) {
    BitOr(u / 256 * 256 + v / 256 * 256, 1 + if u % 256 > v % 256 then u % 256 else v % 256)
  }

  lemma AddWeightsJoins(u: nat, d: nat, v: nat, e: nat)
    requires d < 255 && e < 255
    ensures AddWeights(Word(u, d), Word(v, e)) == Word(u + v, 1 + if d > e then d else e)
  {
    hide BitOr, Shl;
    var h := 1 + if d > e then d else e;
    WordParts(u, d);
    WordParts(v, e);
    hide Word;
    assert 256 * u + 256 * v == 256 * (u + v);
    ByteFits(h);
    OrDisjoint(u + v, h, 8);
    ShlByte(u + v);
    assert Word(u + v, h) == 256 * (u + v) + h by { WordParts(u + v, h); }
  }

  lemma WordParts(w: nat, h: nat)
    requires h < 256
    ensures Word(w, h) == 256 * w + h && Word(w, h) / 256 == w && Word(w, h) % 256 == h
  {
  }

  /** Order of words is order of weights first. */
  lemma WordOrder(w: nat, h: nat, w': nat, h': nat)
    requires Word(w, h) <= Word(w', h') && h < 256 && h' < 256
    ensures w <= w'
  {
  }

  /** With a total weight below 2^23 the height always fits its byte. */
  lemma HeightFits(wt: seq<nat>, ht: seq<nat>, kids: seq<Pair>, a: nat, n: nat, i: nat)
    requires Sums(wt, ht, kids, a, n) && 1 <= i <= n && wt[i] < 0x80_0000
    ensures ht[i] < 33
  {
    FibValues();
    if ht[i] >= 33 {
      FibMonotone(33, ht[i]);
    }
  }

  // ----- The finished tree -----

  /** Node n is the only root. */
  ghost predicate Tree(parent: seq<int>, a: nat, n: nat) {
    UpLinks(parent, a, n) && parent[n] == -1 && forall i :: 1 <= i < n ==> parent[i] != -1
  }

  /** The number of steps from node i to the root: the code length. */
  function Depth(parent: seq<int>, a: nat, n: nat, i: nat): (d: nat)
    requires UpLinks(parent, a, n) && 1 <= i <= n
    ensures d <= n - i
    decreases n - i
  {
    if parent[i] == -1 then 0 else 1 + Depth(parent, a, n, parent[i])
  }

  lemma SiblingsAdd(wt: seq<nat>, ht: seq<nat>, parent: seq<int>, kids: seq<Pair>, a: nat, n: nat, i: nat)
    requires Forest(wt, ht, parent, kids, a, n) && 1 <= i <= n && parent[i] != -1
    ensures 1 <= parent[i] <= n && wt[parent[i]] >= wt[i] + 1
  {
    hide Fib;
    var p := parent[i];
    assert i == kids[p].left || i == kids[p].right;
    assert Joins(wt, ht, kids[p].left, kids[p].right, wt[p], ht[p]);
    assert wt[kids[p].left] >= Fib(ht[kids[p].left]) >= 1;
    assert wt[kids[p].right] >= Fib(ht[kids[p].right]) >= 1;
  }

  /** Climbing from i, whose child j is known to be heavy too. */
  lemma {:induction false} Climb(wt: seq<nat>, ht: seq<nat>, parent: seq<int>, kids: seq<Pair>, a: nat, n: nat, i: nat,
                                 j: nat, k: nat)
    requires Forest(wt, ht, parent, kids, a, n) && Tree(parent, a, n)
    requires 1 <= i <= n && wt[i] >= Fib(k)
    requires k >= 1 ==> 1 <= j <= n && parent[j] == i && wt[j] >= Fib(k - 1)
    ensures wt[n] >= Fib(k + Depth(parent, a, n, i))
    decreases n - i
  {
    hide Fib, TwoKids, Sums, RootsHeavy, PathsGrow;
    if i < n {
      ClimbStep(wt, ht, parent, kids, a, n, i, j, k);
      Climb(wt, ht, parent, kids, a, n, parent[i], i, k + 1);
    }
  }

  lemma ClimbStep(wt: seq<nat>, ht: seq<nat>, parent: seq<int>, kids: seq<Pair>, a: nat, n: nat, i: nat, j: nat, k: nat)
    requires Forest(wt, ht, parent, kids, a, n) && 1 <= i <= n && parent[i] != -1 && wt[i] >= Fib(k)
    requires k >= 1 ==> 1 <= j <= n && parent[j] == i && wt[j] >= Fib(k - 1)
    ensures 1 <= parent[i] <= n && wt[parent[i]] >= Fib(k + 1)
  {
    hide Fib, TwoKids, Sums, RootsHeavy;
    FibStep(k);
    FibZero();
    SiblingsAdd(wt, ht, parent, kids, a, n, i);
  }

  lemma FibZero()
    ensures Fib(0) == 1
  {
  }

  /** A deep symbol needs a heavy tree. */
  lemma DepthNeedsWeight(wt: seq<nat>, ht: seq<nat>, parent: seq<int>, kids: seq<Pair>, a: nat, n: nat, i: nat)
    requires Forest(wt, ht, parent, kids, a, n) && Tree(parent, a, n) && 1 <= i <= n
    ensures wt[n] >= Fib(Depth(parent, a, n, i))
  {
    FibZero();
    Climb(wt, ht, parent, kids, a, n, i, 0, 0);
  }

  // ----- The Kraft sum -----

  /** The sum of f over the nodes among 1 .. m whose parent is above k: over the roots, once there are k nodes. */
  ghost function Frontier(f: seq<nat>, parent: seq<int>, k: nat, m: nat): (r: nat)
    requires m < |f| && m < |parent|
    decreases m
  {
    if m == 0 then 0 else Frontier(f, parent, k, m - 1) + if Open(parent, k, m) then f[m] else 0
  }

  ghost predicate Open(parent: seq<int>, k: nat, i: nat)
    requires i < |parent|
  {
    parent[i] == -1 || parent[i] > k
  }

  /** The sum of f over the children of k among 1 .. m. */
  ghost function KidSum(f: seq<nat>, parent: seq<int>, k: nat, m: nat): nat
    requires m < |f| && m < |parent|
    decreases m
  {
    if m == 0 then 0 else KidSum(f, parent, k, m - 1) + if parent[m] == k then f[m] else 0
  }

  lemma {:induction false} FrontierWiden(f: seq<nat>, parent: seq<int>, k: nat, m: nat)
    requires m < |f| && m < |parent| && k >= 1
    ensures Frontier(f, parent, k - 1, m) == Frontier(f, parent, k, m) + KidSum(f, parent, k, m)
    decreases m
  {
    if m > 0 {
      FrontierWiden(f, parent, k, m - 1);
    }
  }

  lemma {:induction false} KidSumIs(f: seq<nat>, parent: seq<int>, kids: seq<Pair>, a: nat, n: nat, k: nat, m: nat)
    requires TwoKids(parent, kids, a, n) && n < |f| && m <= n && a < k <= n
    ensures kids[k].left < k && kids[k].right < k
    ensures KidSum(f, parent, k, m)
         == (if kids[k].left <= m then f[kids[k].left] else 0) + (if kids[k].right <= m then f[kids[k].right] else 0)
    decreases m
  {
    if m > 0 {
      KidSumIs(f, parent, kids, a, n, k, m - 1);
      assert parent[kids[k].left] == k && parent[kids[k].right] == k;
    }
  }

  /** An inner node takes the place of its two children. */
  lemma FrontierStep(f: seq<nat>, parent: seq<int>, kids: seq<Pair>, a: nat, n: nat, k: nat)
    requires UpLinks(parent, a, n) && TwoKids(parent, kids, a, n) && n < |f| && a < k <= n
    ensures kids[k].left < k && kids[k].right < k
    ensures Frontier(f, parent, k, k) + f[kids[k].left] + f[kids[k].right] == Frontier(f, parent, k - 1, k - 1) + f[k]
  {
    FrontierWiden(f, parent, k, k - 1);
    KidSumIs(f, parent, kids, a, n, k, k - 1);
    assert Open(parent, k, k);
  }

  lemma {:induction false} FrontierTop(f: seq<nat>, parent: seq<int>, a: nat, n: nat, m: nat)
    requires Tree(parent, a, n) && m < n < |f|
    ensures Frontier(f, parent, n, m) == 0
    decreases m
  {
    if m > 0 {
      FrontierTop(f, parent, a, n, m - 1);
    }
  }

  /** What each node of depth d contributes, 2^-d, in units of 2^-big. */
  ghost function Shares(parent: seq<int>, a: nat, n: nat, big: nat): (r: seq<nat>)
    requires UpLinks(parent, a, n) && n <= big
    ensures |r| == n + 1
  {
    seq(n + 1, i requires 0 <= i <= n => if i == 0 then 0 else Pow2(big - Depth(parent, a, n, i)))
  }

  lemma KidDepths(parent: seq<int>, kids: seq<Pair>, a: nat, n: nat, k: nat)
    requires UpLinks(parent, a, n) && TwoKids(parent, kids, a, n) && a < k <= n
    ensures 1 <= kids[k].left < k && 1 <= kids[k].right < k
    ensures Depth(parent, a, n, kids[k].left) == Depth(parent, a, n, kids[k].right) == 1 + Depth(parent, a, n, k)
  {
    assert parent[kids[k].left] == k && parent[kids[k].right] == k;
  }

  lemma SharesAt(parent: seq<int>, a: nat, n: nat, big: nat, i: nat)
    requires UpLinks(parent, a, n) && 1 <= i <= n <= big
    ensures Depth(parent, a, n, i) <= big
    ensures Shares(parent, a, n, big)[i] == Pow2(big - Depth(parent, a, n, i))
  {
    hide UpLinks, Depth, Pow2;
  }

  lemma SharesStep(parent: seq<int>, kids: seq<Pair>, a: nat, n: nat, big: nat, k: nat)
    requires UpLinks(parent, a, n) && TwoKids(parent, kids, a, n) && a < k <= n <= big
    ensures kids[k].left < k && kids[k].right < k
    ensures var f := Shares(parent, a, n, big); f[kids[k].left] + f[kids[k].right] == f[k]
  {
    hide UpLinks, Depth, Shares;
    KidDepths(parent, kids, a, n, k);
    SharesAt(parent, a, n, big, k);
    SharesAt(parent, a, n, big, kids[k].left);
    SharesAt(parent, a, n, big, kids[k].right);
  }

  lemma SharesTop(parent: seq<int>, a: nat, n: nat, big: nat)
    requires Tree(parent, a, n) && n <= big
    ensures Frontier(Shares(parent, a, n, big), parent, n, n) == Pow2(big)
  {
    hide Pow2, Shares;
    SharesAt(parent, a, n, big, n);
    FrontierTop(Shares(parent, a, n, big), parent, a, n, n - 1);
  }

  lemma {:induction false} FrontierAll(parent: seq<int>, kids: seq<Pair>, a: nat, n: nat, big: nat, k: nat)
    requires Tree(parent, a, n) && TwoKids(parent, kids, a, n) && n <= big && a <= k <= n
    ensures Frontier(Shares(parent, a, n, big), parent, k, k) == Pow2(big)
    decreases n - k
  {
    hide UpLinks, TwoKids, Frontier, Shares, Pow2;
    var f := Shares(parent, a, n, big);
    if k == n {
      SharesTop(parent, a, n, big);
    } else {
      FrontierAll(parent, kids, a, n, big, k + 1);
      FrontierStep(f, parent, kids, a, n, k + 1);
      SharesStep(parent, kids, a, n, big, k + 1);
    }
  }

  /** Sum of 2^(big - len) over a length table. */
  function KraftSum(len: seq<nat>, big: nat): (r: nat)
    requires forall i :: 0 <= i < |len| ==> len[i] <= big
  {
    if len == [] then 0 else KraftSum(len[..|len| - 1], big) + Pow2(big - len[|len| - 1])
  }

  lemma TreeOpen(parent: seq<int>, a: nat, n: nat, m: nat)
    requires Tree(parent, a, n) && 1 <= m <= a
    ensures Open(parent, a, m)
  {
  }

  lemma {:induction false} FrontierIsKraft(parent: seq<int>, a: nat, n: nat, big: nat, len: seq<nat>, m: nat)
    requires Tree(parent, a, n) && n <= big && m <= a
    requires |len| == m && forall i :: 0 <= i < m ==> len[i] == Depth(parent, a, n, i + 1)
    ensures forall i :: 0 <= i < m ==> len[i] <= big
    ensures Frontier(Shares(parent, a, n, big), parent, a, m) == KraftSum(len, big)
    decreases m
  {
    if m > 0 {
      hide UpLinks, Depth, Pow2;
      FrontierIsKraft(parent, a, n, big, len[..m - 1], m - 1);
      SharesAt(parent, a, n, big, m);
      TreeOpen(parent, a, n, m);
    }
  }

  /** The depths of the symbols in the finished tree form a complete code. */
  lemma TreeIsComplete(parent: seq<int>, kids: seq<Pair>, a: nat, n: nat, len: seq<nat>, big: nat)
    requires Tree(parent, a, n) && TwoKids(parent, kids, a, n) && n <= big
    requires |len| == a && forall i :: 0 <= i < a ==> len[i] == Depth(parent, a, n, i + 1)
    ensures (forall i :: 0 <= i < a ==> len[i] <= big) && KraftSum(len, big) == Pow2(big)
  {
    FrontierAll(parent, kids, a, n, big, a);
    FrontierIsKraft(parent, a, n, big, len, a);
  }

  lemma {:induction false} KraftScales(len: seq<nat>, big: nat, k: nat)
    requires forall i :: 0 <= i < |len| ==> len[i] <= big
    ensures KraftSum(len, big + k) == Shl(KraftSum(len, big), k)
  {
    if len == [] {
      ShlZero(k);
    } else {
      var m := |len| - 1;
      KraftScales(len[..m], big, k);
      PowShl(big - len[m], k);
      ShlAdd(KraftSum(len[..m], big), Pow2(big - len[m]), k);
    }
  }

  lemma {:induction false} PowShl(m: nat, k: nat)
    ensures Pow2(m + k) == Shl(Pow2(m), k)
  {
    if k > 0 {
      PowShl(m, k - 1);
    }
  }

  /** Completeness does not depend on the unit. */
  lemma CompleteAtAnyScale(len: seq<nat>, big: nat, k: nat)
    requires (forall i :: 0 <= i < |len| ==> len[i] <= big) && KraftSum(len, big + k) == Pow2(big + k)
    ensures KraftSum(len, big) == Pow2(big)
  {
    KraftScales(len, big, k);
    PowShl(big, k);
    ShrShl(KraftSum(len, big), k);
    ShrShl(Pow2(big), k);
  }
}
