/**
  Merging the two lightest roots gives a shortest code: no lengths that some prefix code
  could have make the weighted sum smaller than the depths of the symbols do.

  The weighted depths add up to the weights of the inner nodes.  In the other direction,
  any lengths for the roots before a merge can be turned into lengths for the roots after
  it that cost less by at least the weight of the new node: an exchange gives the two
  lightest roots the two greatest lengths, and those may be made equal.
 */
module HuffmanOptimal {

  import opened Bits
  import opened HuffmanTree

  /** The sum of the products. */
  function Weighted(w: seq<nat>, len: seq<nat>): (r: nat)
    requires |w| == |len|
  {
    if w == [] then 0 else Weighted(w[..|w| - 1], len[..|w| - 1]) + w[|w| - 1] * len[|w| - 1]
  }

  /** Lengths that the code words of some prefix code could have, by Kraft's inequality. */
  ghost predicate Codable(len: seq<nat>, big: nat) {
    (forall i :: 0 <= i < |len| ==> len[i] <= big) && KraftSum(len, big) <= Pow2(big)
  }

  /** No codable lengths have a smaller weighted sum. */
  ghost predicate Shortest(w: seq<nat>, len: seq<nat>) {
    && |w| == |len|
    && (forall other: seq<nat>, big: nat :: |other| == |w| && Codable(other, big) ==>
       Weighted(w, len) <= Weighted(w, other))
  }

  // ----- Lengths for the open nodes of one stage -----

  /** Node i is a root while there are k nodes. */
  ghost predicate RootAt(parent: seq<int>, k: nat, i: int)
    requires k < |parent|
  {
    1 <= i <= k && Open(parent, k, i)
  }

  ghost function Terms(len: seq<nat>, big: nat): (r: seq<nat>)
    requires forall i :: 0 <= i < |len| ==> len[i] <= big
    ensures |r| == |len| && forall i :: 0 <= i < |len| ==> r[i] == Pow2(big - len[i])
  {
    seq(|len|, i requires 0 <= i < |len| => Pow2(big - len[i]))
  }

  ghost function Products(wt: seq<nat>, len: seq<nat>): (r: seq<nat>)
    requires |wt| == |len|
    ensures |r| == |len|
  {
    seq(|len|, i requires 0 <= i < |len| => wt[i] * len[i])
  }

  /** The lengths give the roots among k nodes a Kraft sum of at most 1. */
  ghost predicate Fits(len: seq<nat>, parent: seq<int>, k: nat, big: nat) {
    && k < |len| && k < |parent|
    && (forall i :: 0 <= i < |len| ==> len[i] <= big)
    && Frontier(Terms(len, big), parent, k, k) <= Pow2(big)
  }

  /** The weighted sum over the roots among k nodes. */
  ghost function Cost(wt: seq<nat>, len: seq<nat>, parent: seq<int>, k: nat): nat
    requires |wt| == |len| && k < |len| && k < |parent|
  {
    Frontier(Products(wt, len), parent, k, k)
  }

  // ----- Sums over a stage -----

  lemma {:induction false} FrontierSame(f: seq<nat>, g: seq<nat>, parent: seq<int>, k: nat, m: nat)
    requires m < |f| && m < |g| && m < |parent|
    requires forall i :: 1 <= i <= m && Open(parent, k, i) ==> f[i] == g[i]
    ensures Frontier(f, parent, k, m) == Frontier(g, parent, k, m)
  {
    if m > 0 {
      FrontierSame(f, g, parent, k, m - 1);
    }
  }

  /** A new value for one root. */
  lemma {:induction false} FrontierSet(f: seq<nat>, parent: seq<int>, k: nat, m: nat, i: nat, v: nat)
    requires m < |f| && m < |parent| && i < |f| && (i <= m ==> 1 <= i && Open(parent, k, i))
    ensures Frontier(f[i := v], parent, k, m) == Frontier(f, parent, k, m) + if i <= m then v - f[i] else 0
  {
    if m > 0 {
      FrontierSet(f, parent, k, m - 1, i, v);
    }
  }

  lemma {:induction false} FrontierShl(f: seq<nat>, g: seq<nat>, parent: seq<int>, k: nat, m: nat, j: nat)
    requires m < |f| && m < |g| && m < |parent|
    requires forall i :: 1 <= i <= m && Open(parent, k, i) ==> f[i] == Shl(g[i], j)
    ensures Frontier(f, parent, k, m) == Shl(Frontier(g, parent, k, m), j)
  {
    if m == 0 {
      ShlZero(j);
    } else {
      FrontierShl(f, g, parent, k, m - 1, j);
      if Open(parent, k, m) {
        ShlAdd(Frontier(g, parent, k, m - 1), g[m], j);
      }
    }
  }

  /** Two roots change values. */
  lemma FrontierSwap(f: seq<nat>, parent: seq<int>, k: nat, x: nat, z: nat, u: nat, v: nat)
    requires k < |f| && k < |parent| && RootAt(parent, k, x) && RootAt(parent, k, z) && x != z
    ensures Frontier(f[x := u][z := v], parent, k, k) == Frontier(f, parent, k, k) - f[x] - f[z] + u + v
  {
    FrontierSet(f, parent, k, k, x, u);
    FrontierSet(f[x := u], parent, k, k, z, v);
  }

  // ----- The exchange -----

  lemma LighterFirst(v: nat, w: nat, l: nat, m: nat)
    requires v <= w && l <= m
    ensures v * m + w * l <= v * l + w * m
  {
    assert (w - v) * (m - l) >= 0;
  }

  /** Exchanging the lengths of a light root and a heavy one whose length is no smaller. */
  lemma Exchange(wt: seq<nat>, len: seq<nat>, parent: seq<int>, k: nat, big: nat, x: nat, z: nat)
    requires |wt| == |len| && Fits(len, parent, k, big) && RootAt(parent, k, x) && RootAt(parent, k, z) && x != z
    requires wt[x] <= wt[z] && len[x] <= len[z]
    ensures var len' := len[x := len[z]][z := len[x]];
            Fits(len', parent, k, big) && Cost(wt, len', parent, k) <= Cost(wt, len, parent, k)
  {
    hide Frontier, Open, Pow2;
    var len' := len[x := len[z]][z := len[x]];
    var t: seq<nat>, p: seq<nat> := Terms(len, big), Products(wt, len);
    assert Terms(len', big) == t[x := t[z]][z := t[x]];
    FrontierSwap(t, parent, k, x, z, t[z], t[x]);
    var u: nat, v: nat := wt[x] * len[z], wt[z] * len[x];
    assert Products(wt, len') == p[x := u][z := v];
    FrontierSwap(p, parent, k, x, z, u, v);
    LighterFirst(wt[x], wt[z], len[x], len[z]);
  }

  /** Of the roots but skip, none has a greater length than z. */
  ghost predicate NoneLonger(len: seq<nat>, parent: seq<int>, k: nat, skip: nat, z: nat)
    requires k < |len| && k < |parent|
  {
    z < |len| && forall i :: RootAt(parent, k, i) && i != skip ==> len[i] <= len[z]
  }

  lemma Longest(len: seq<nat>, parent: seq<int>, k: nat, skip: nat, some: nat) returns (z: nat)
    requires k < |len| && k < |parent| && RootAt(parent, k, some) && some != skip
    ensures RootAt(parent, k, z) && z != skip && NoneLonger(len, parent, k, skip, z)
  {
    z := some;
    for m := 1 to k + 1
      invariant RootAt(parent, k, z) && z != skip
      invariant forall i :: RootAt(parent, k, i) && i != skip && i < m ==> len[i] <= len[z]
    {
      if RootAt(parent, k, m) && m != skip && len[m] > len[z] {
        z := m;
      }
    }
  }

  /** An exchange that leaves root x with the greatest length but for that of skip. */
  lemma Raise(wt: seq<nat>, len: seq<nat>, parent: seq<int>, k: nat, big: nat, skip: nat, x: nat)
    returns (len': seq<nat>, z: nat)
    requires k < |wt| == |len| && k < |parent| && Fits(len, parent, k, big) && RootAt(parent, k, x) && x != skip
    requires forall z :: RootAt(parent, k, z) && z != skip ==> wt[x] <= wt[z]
    ensures |len'| == |len| && Fits(len', parent, k, big) && Cost(wt, len', parent, k) <= Cost(wt, len, parent, k)
    ensures NoneLonger(len', parent, k, skip, x)
    ensures RootAt(parent, k, z) && len'[x] == len[z] && (skip < |len| ==> len'[skip] == len[skip])
  {
    hide Fits, Cost;
    z := Longest(len, parent, k, skip, x);
    len' := len;
    if z != x {
      Exchange(wt, len, parent, k, big, x, z);
      len' := len[x := len[z]][z := len[x]];
    }
  }

  /** x and y are roots, and no other root is lighter than either. */
  ghost predicate TwoLightest(wt: seq<nat>, parent: seq<int>, k: nat, x: nat, y: nat)
    requires k < |parent|
  {
    && RootAt(parent, k, x) && RootAt(parent, k, y) && x != y && k < |wt|
    && (forall z :: RootAt(parent, k, z) && z != x && z != y ==> wt[x] <= wt[z] && wt[y] <= wt[z])
  }

  /** One of the two may be given the greatest length of all. */
  lemma RaiseOne(wt: seq<nat>, len: seq<nat>, parent: seq<int>, k: nat, big: nat, x: nat, y: nat)
    returns (len': seq<nat>, u: nat, v: nat)
    requires k < |wt| == |len| && k < |parent| && Fits(len, parent, k, big) && TwoLightest(wt, parent, k, x, y)
    ensures |len'| == |len| && Fits(len', parent, k, big) && Cost(wt, len', parent, k) <= Cost(wt, len, parent, k)
    ensures TwoLightest(wt, parent, k, u, v) && ((u == x && v == y) || (u == y && v == x))
    ensures u < |len| && forall i :: RootAt(parent, k, i) ==> len'[i] <= len'[u]
  {
    hide Fits, Cost, Open;
    var z := Longest(len, parent, k, 0, x);
    len', u, v := len, x, y;
    if z == y {
      u, v := y, x;
    } else if z != x {
      Exchange(wt, len, parent, k, big, x, z);
      len' := len[x := len[z]][z := len[x]];
    }
  }

  /** The two have the two greatest lengths, v the smaller of them. */
  ghost predicate Deepest(len: seq<nat>, parent: seq<int>, k: nat, u: nat, v: nat)
    requires k < |len| && k < |parent|
  {
    && RootAt(parent, k, u) && RootAt(parent, k, v) && u != v
    && len[v] <= len[u] && NoneLonger(len, parent, k, u, v)
  }

  lemma RaiseBoth(wt: seq<nat>, len: seq<nat>, parent: seq<int>, k: nat, big: nat, x: nat, y: nat)
    returns (len': seq<nat>, u: nat, v: nat)
    requires k < |wt| == |len| && k < |parent| && Fits(len, parent, k, big) && TwoLightest(wt, parent, k, x, y)
    ensures |len'| == |len| && Fits(len', parent, k, big) && Cost(wt, len', parent, k) <= Cost(wt, len, parent, k)
    ensures ((u == x && v == y) || (u == y && v == x)) && Deepest(len', parent, k, u, v)
  {
    hide Fits, Cost, Open;
    var len1;
    len1, u, v := RaiseOne(wt, len, parent, k, big, x, y);
    var z;
    len', z := Raise(wt, len1, parent, k, big, u, v);
  }

  // ----- Making the two equally long -----

  /** All but the longest term are multiples of the unit 2^(big - len[v]), so there is room for one unit more. */
  lemma RoomForUnit(len: seq<nat>, parent: seq<int>, k: nat, big: nat, u: nat, v: nat)
    requires Fits(len, parent, k, big) && Deepest(len, parent, k, u, v)
    ensures len[v] <= big
    ensures Frontier(Terms(len, big)[u := 0], parent, k, k) + Pow2(big - len[v]) <= Pow2(big)
  {
    hide Frontier, Open, Pow2, Shl;
    var t, m := Terms(len, big), len[v];
    var f := t[u := 0];
    var g := seq(|len|, i requires 0 <= i < |len| => if i == u || len[i] > m then 0 else Pow2(m - len[i]));
    forall i | 1 <= i <= k && Open(parent, k, i)
      ensures f[i] == Shl(g[i], big - m)
    {
      if i == u {
        ShlZero(big - m);
      } else {
        assert RootAt(parent, k, i);
        PowShl(m - len[i], big - m);
      }
    }
    FrontierShl(f, g, parent, k, k, big - m);
    FrontierSet(t, parent, k, k, u, 0);
    UnitMore(Frontier(g, parent, k, k), m, big - m);
  }

  /** A multiple of 2^j below 2^(m + j) leaves room for 2^j. */
  lemma UnitMore(q: nat, m: nat, j: nat)
    requires Shl(q, j) < Pow2(m + j)
    ensures Shl(q, j) + Pow2(j) <= Pow2(m + j)
  {
    PowShl(m, j);
    PowShl(0, j);
    if q >= Pow2(m) {
      ShlAdd(Pow2(m), q - Pow2(m), j);
    } else {
      ShlAdd(q, 1, j);
      ShlAdd(q + 1, Pow2(m) - q - 1, j);
    }
  }

  /** The longest is cut to the length of the second longest. */
  lemma Level(wt: seq<nat>, len: seq<nat>, parent: seq<int>, k: nat, big: nat, u: nat, v: nat)
    requires |wt| == |len| && Fits(len, parent, k, big) && Deepest(len, parent, k, u, v)
    ensures len[v] >= 1
    ensures var len' := len[u := len[v]];
            Fits(len', parent, k, big) && Cost(wt, len', parent, k) <= Cost(wt, len, parent, k)
  {
    hide Frontier, Open, Pow2;
    RoomForUnit(len, parent, k, big, u, v);
    var len' := len[u := len[v]];
    var t: seq<nat>, p: seq<nat> := Terms(len, big), Products(wt, len);
    FrontierSet(t[u := 0], parent, k, k, v, 0);
    assert t[v] >= 1;
    var unit: nat, less: nat := Pow2(big - len[v]), wt[u] * len[v];
    assert Terms(len', big) == t[u := 0][u := unit];
    FrontierSet(t[u := 0], parent, k, k, u, unit);
    assert Products(wt, len') == p[u := less];
    FrontierSet(p, parent, k, k, u, less);
    LighterFirst(0, wt[u], len[v], len[u]);
  }

  /** Two equally long roots give way to their parent, one bit shorter. */
  lemma Join(wt: seq<nat>, len: seq<nat>, parent: seq<int>, kids: seq<Pair>, a: nat, n: nat, k: nat, big: nat)
    requires UpLinks(parent, a, n) && TwoKids(parent, kids, a, n) && a <= k < n < |len| == |wt|
    requires n < |parent| && n < |kids|
    requires kids[k + 1].left <= k && kids[k + 1].right <= k
      && wt[k + 1] == wt[kids[k + 1].left] + wt[kids[k + 1].right]
    requires Fits(len, parent, k, big) && 1 <= len[kids[k + 1].left] == len[kids[k + 1].right]
    ensures var len' := len[k + 1 := len[kids[k + 1].left] - 1];
            && Fits(len', parent, k + 1, big)
            && Cost(wt, len', parent, k + 1) + wt[k + 1] == Cost(wt, len, parent, k)
  {
    hide Fits, Cost, UpLinks, TwoKids;
    JoinFits(len, parent, kids, a, n, k, big);
    JoinCost(wt, len, parent, kids, a, n, k);
  }

  lemma JoinFits(len: seq<nat>, parent: seq<int>, kids: seq<Pair>, a: nat, n: nat, k: nat, big: nat)
    requires UpLinks(parent, a, n) && TwoKids(parent, kids, a, n) && a <= k < n < |len|
    requires n < |parent| && n < |kids|
    requires kids[k + 1].left <= k && kids[k + 1].right <= k
    requires Fits(len, parent, k, big) && 1 <= len[kids[k + 1].left] == len[kids[k + 1].right]
    ensures Fits(len[k + 1 := len[kids[k + 1].left] - 1], parent, k + 1, big)
  {
    hide Frontier, Open, UpLinks, TwoKids, Pow2;
    var x, m: nat := kids[k + 1].left, len[kids[k + 1].left] - 1;
    var len' := len[k + 1 := m];
    var t, t' := Terms(len, big), Terms(len', big);
    FrontierStep(t', parent, kids, a, n, k + 1);
    FrontierSame(t', t, parent, k, k);
    PowDouble(big - len[x]);
    assert t'[k + 1] == t'[x] + t'[kids[k + 1].right];
  }

  lemma PowDouble(n: nat)
    ensures Pow2(n + 1) == Pow2(n) + Pow2(n)
  {
  }

  lemma JoinCost(wt: seq<nat>, len: seq<nat>, parent: seq<int>, kids: seq<Pair>, a: nat, n: nat, k: nat)
    requires UpLinks(parent, a, n) && TwoKids(parent, kids, a, n) && a <= k < n < |len| == |wt|
    requires n < |parent| && n < |kids|
    requires kids[k + 1].left <= k && kids[k + 1].right <= k
    requires wt[k + 1] == wt[kids[k + 1].left] + wt[kids[k + 1].right]
    requires 1 <= len[kids[k + 1].left] == len[kids[k + 1].right]
    ensures Cost(wt, len[k + 1 := len[kids[k + 1].left] - 1], parent, k + 1) + wt[k + 1] == Cost(wt, len, parent, k)
  {
    hide Frontier, Open, TwoKids, Products;
    var x, y, m: nat := kids[k + 1].left, kids[k + 1].right, len[kids[k + 1].left] - 1;
    var p, p' := Products(wt, len), Products(wt, len[k + 1 := m]);
    FrontierStep(p', parent, kids, a, n, k + 1);
    JoinProducts(wt, len, k + 1, x, y);
    FrontierSame(p', p, parent, k, k);
  }

  lemma JoinProducts(wt: seq<nat>, len: seq<nat>, z: nat, x: nat, y: nat)
    requires x < z && y < z < |len| == |wt| && wt[z] == wt[x] + wt[y] && 1 <= len[x] == len[y]
    ensures var p, p' := Products(wt, len), Products(wt, len[z := len[x] - 1]);
            && p'[x] + p'[y] == p'[z] + wt[z]
            && (forall i :: 0 <= i < z ==> p'[i] == p[i])
  {
    OneBitMore(wt[x], wt[y], len[x] - 1);
  }

  lemma OneBitMore(v: nat, w: nat, m: nat)
    ensures v * (m + 1) + w * (m + 1) == (v + w) * m + (v + w)
  {
  }

  /** The children of node k + 1 were the lightest roots among k nodes. */
  lemma GreedyLightest(wt: seq<nat>, parent: seq<int>, kids: seq<Pair>, a: nat, n: nat, k: nat)
    requires UpLinks(parent, a, n) && TwoKids(parent, kids, a, n) && Greedy(wt, parent, kids, a, n) && a <= k < n
    ensures TwoLightest(wt, parent, k, kids[k + 1].left, kids[k + 1].right)
  {
    var two := kids[k + 1];
    assert parent[two.left] == k + 1 && parent[two.right] == k + 1;
    forall z | RootAt(parent, k, z)
      ensures Lighter(wt, two, z)
    {
    }
  }

  /** Every inner node weighs what its children weigh. */
  ghost predicate Adds(wt: seq<nat>, kids: seq<Pair>, a: nat, n: nat) {
    && n < |wt| && n < |kids|
    && (forall p :: a < p <= n ==> kids[p].left < p && kids[p].right < p)
    && (forall p {:trigger kids[p]} :: a < p <= n ==> wt[p] == wt[kids[p].left] + wt[kids[p].right])
  }

  /** Lengths before a merge give lengths after it that cost less by the weight of the new node. */
  lemma StageStep(wt: seq<nat>, len: seq<nat>, parent: seq<int>, kids: seq<Pair>, a: nat, n: nat, k: nat, big: nat)
    returns (len': seq<nat>)
    requires UpLinks(parent, a, n) && TwoKids(parent, kids, a, n) && Greedy(wt, parent, kids, a, n)
    requires Adds(wt, kids, a, n) && a <= k < n < |wt| == |len| && n < |parent| && Fits(len, parent, k, big)
    ensures |len'| == |len| && Fits(len', parent, k + 1, big)
    ensures Cost(wt, len', parent, k + 1) + wt[k + 1] <= Cost(wt, len, parent, k)
  {
    hide UpLinks, TwoKids, Greedy, Fits, Cost, TwoLightest;
    GreedyLightest(wt, parent, kids, a, n, k);
    var u, v;
    len', u, v := RaiseBoth(wt, len, parent, k, big, kids[k + 1].left, kids[k + 1].right);
    Level(wt, len', parent, k, big, u, v);
    len' := len'[u := len'[v]];
    Join(wt, len', parent, kids, a, n, k, big);
    len' := len'[k + 1 := len'[kids[k + 1].left] - 1];
  }

  /** The weights of the inner nodes up to k. */
  ghost function InnerSum(wt: seq<nat>, a: nat, k: nat): (r: nat)
    requires a <= k < |wt|
  {
    if k == a then 0 else InnerSum(wt, a, k - 1) + wt[k]
  }

  /** All lengths for the symbols cost at least the weights of the inner nodes. */
  lemma {:induction false} StagesCost(wt: seq<nat>, len: seq<nat>, parent: seq<int>, kids: seq<Pair>, a: nat, n: nat,
                                      k: nat, big: nat) returns (len': seq<nat>)
    requires UpLinks(parent, a, n) && TwoKids(parent, kids, a, n) && Greedy(wt, parent, kids, a, n)
    requires Adds(wt, kids, a, n) && a <= k <= n < |wt| == |len| && n < |parent| && Fits(len, parent, a, big)
    ensures |len'| == |len| && Fits(len', parent, k, big)
    ensures Cost(wt, len', parent, k) + InnerSum(wt, a, k) <= Cost(wt, len, parent, a)
    decreases k
  {
    hide UpLinks, TwoKids, Greedy, Adds, Cost;
    len' := len;
    if k > a {
      len' := StagesCost(wt, len, parent, kids, a, n, k - 1, big);
      len' := StageStep(wt, len', parent, kids, a, n, k - 1, big);
    }
  }

  // ----- The cost of the tree itself -----

  ghost function Depths(parent: seq<int>, a: nat, n: nat, size: nat): (r: seq<nat>)
    requires UpLinks(parent, a, n)
    ensures |r| == size
  {
    seq(size, i requires 0 <= i < size => if 1 <= i <= n then Depth(parent, a, n, i) else 0)
  }

  /** Putting back a merge adds the weight of its node. */
  lemma UnfoldStep(wt: seq<nat>, parent: seq<int>, kids: seq<Pair>, a: nat, n: nat, k: nat)
    requires UpLinks(parent, a, n) && TwoKids(parent, kids, a, n) && Adds(wt, kids, a, n) && a <= k < n
    ensures var d := Depths(parent, a, n, |wt|);
            Cost(wt, d, parent, k) == Cost(wt, d, parent, k + 1) + wt[k + 1]
  {
    hide UpLinks, Frontier, Depth;
    var d, two := Depths(parent, a, n, |wt|), kids[k + 1];
    KidDepths(parent, kids, a, n, k + 1);
    FrontierStep(Products(wt, d), parent, kids, a, n, k + 1);
    assert d[two.left] == d[two.right] == d[k + 1] + 1;
    OneBitMore(wt[two.left], wt[two.right], d[k + 1]);
  }

  lemma RootIsFree(wt: seq<nat>, parent: seq<int>, a: nat, n: nat)
    requires Tree(parent, a, n) && n < |wt|
    ensures Cost(wt, Depths(parent, a, n, |wt|), parent, n) == 0
  {
    var f := Products(wt, Depths(parent, a, n, |wt|));
    FrontierTop(f, parent, a, n, n - 1);
    assert f[n] == wt[n] * 0;
  }

  /** The weighted depths add up to the weights of the inner nodes. */
  lemma {:induction false} TreeCost(wt: seq<nat>, parent: seq<int>, kids: seq<Pair>, a: nat, n: nat, k: nat)
    requires Tree(parent, a, n) && TwoKids(parent, kids, a, n) && Adds(wt, kids, a, n) && a <= k <= n
    ensures Cost(wt, Depths(parent, a, n, |wt|), parent, k) + InnerSum(wt, a, k) == InnerSum(wt, a, n)
    decreases n - k
  {
    hide UpLinks, TwoKids, Frontier, Depth;
    if k == n {
      RootIsFree(wt, parent, a, n);
    } else {
      UnfoldStep(wt, parent, kids, a, n, k);
      TreeCost(wt, parent, kids, a, n, k + 1);
    }
  }

  // ----- Lengths of symbols and lengths of nodes -----

  /** Symbol i is node i + 1. */
  ghost predicate OnLeaves(f: seq<nat>, v: seq<nat>) {
    |v| < |f| && forall i :: 0 <= i < |v| ==> f[i + 1] == v[i]
  }

  /** Lengths for all nodes, 0 for those that are not symbols. */
  ghost function Spread(len: seq<nat>, size: nat): (r: seq<nat>)
    requires |len| < size
    ensures |r| == size && OnLeaves(r, len)
    ensures forall i :: 0 <= i < size ==> r[i] == 0 || (1 <= i <= |len| && r[i] == len[i - 1])
  {
    [0] + len + seq(size - |len| - 1, _ => 0)
  }

  lemma {:induction false} LeavesWeighted(w: seq<nat>, len: seq<nat>, wt: seq<nat>, nodeLen: seq<nat>,
                                          parent: seq<int>, a: nat, n: nat)
    requires UpLinks(parent, a, n) && n < |wt| == |nodeLen| && |w| == |len| <= a
    requires OnLeaves(wt, w) && OnLeaves(nodeLen, len)
    ensures Frontier(Products(wt, nodeLen), parent, a, |w|) == Weighted(w, len)
  {
    if w != [] {
      var m := |w| - 1;
      LeavesWeighted(w[..m], len[..m], wt, nodeLen, parent, a, n);
      assert Open(parent, a, |w|);
      assert wt[|w|] == w[m] && nodeLen[|w|] == len[m];
    }
  }

  lemma {:induction false} LeavesKraft(len: seq<nat>, nodeLen: seq<nat>, parent: seq<int>, a: nat, n: nat, big: nat)
    requires UpLinks(parent, a, n) && n < |nodeLen| && |len| <= a && OnLeaves(nodeLen, len)
    requires forall i :: 0 <= i < |nodeLen| ==> nodeLen[i] <= big
    ensures forall i :: 0 <= i < |len| ==> len[i] <= big
    ensures Frontier(Terms(nodeLen, big), parent, a, |len|) == KraftSum(len, big)
  {
    if len != [] {
      hide Pow2;
      var m := |len| - 1;
      LeavesKraft(len[..m], nodeLen, parent, a, n, big);
      assert Open(parent, a, |len|);
      assert nodeLen[|len|] == len[m];
    }
  }

  /** No codable lengths for the symbols cost less than the inner nodes weigh. */
  lemma OthersCost(w: seq<nat>, other: seq<nat>, big: nat, wt: seq<nat>, parent: seq<int>, kids: seq<Pair>, a: nat,
                   n: nat)
    requires UpLinks(parent, a, n) && TwoKids(parent, kids, a, n) && Greedy(wt, parent, kids, a, n)
    requires Adds(wt, kids, a, n) && OnLeaves(wt, w) && |w| == |other| == a && Codable(other, big)
    ensures a <= n && InnerSum(wt, a, n) <= Weighted(w, other)
  {
    hide TwoKids, Greedy, Adds, Frontier, Depth, Pow2, InnerSum, Weighted, Spread, KraftSum;
    TreeSizes(wt, parent, kids, a, n);
    var nodeLen := Spread(other, |wt|);
    LeavesKraft(other, nodeLen, parent, a, n, big);
    LeavesWeighted(w, other, wt, nodeLen, parent, a, n);
    var _ := StagesCost(wt, nodeLen, parent, kids, a, n, n, big);
  }

  /** The depths of the symbols in a tree grown greedily are shortest. */
  lemma TreeIsShortest(w: seq<nat>, len: seq<nat>, wt: seq<nat>, parent: seq<int>, kids: seq<Pair>, a: nat, n: nat)
    requires Tree(parent, a, n) && TwoKids(parent, kids, a, n) && Greedy(wt, parent, kids, a, n)
    requires Adds(wt, kids, a, n) && OnLeaves(wt, w) && |w| == |len| == a
    requires forall i :: 0 <= i < a ==> len[i] == Depth(parent, a, n, i + 1)
    ensures Shortest(w, len)
  {
    hide TwoKids, Greedy, Adds, Frontier, Depth, InnerSum, Weighted, Codable, UpLinks;
    TreeSizes(wt, parent, kids, a, n);
    var nodeLen := Depths(parent, a, n, |wt|);
    TreeCost(wt, parent, kids, a, n, a);
    LeavesWeighted(w, len, wt, nodeLen, parent, a, n);
    InnerSumStart(wt, a);
    forall other: seq<nat>, big: nat | |other| == |w| && Codable(other, big)
      ensures Weighted(w, len) <= Weighted(w, other)
    {
      OthersCost(w, other, big, wt, parent, kids, a, n);
    }
  }

  lemma InnerSumStart(wt: seq<nat>, a: nat)
    requires a < |wt|
    ensures InnerSum(wt, a, a) == 0
  {
  }

  lemma TreeSizes(wt: seq<nat>, parent: seq<int>, kids: seq<Pair>, a: nat, n: nat)
    requires UpLinks(parent, a, n) && Adds(wt, kids, a, n)
    ensures a <= n < |wt| && n < |parent|
  {
  }
}
