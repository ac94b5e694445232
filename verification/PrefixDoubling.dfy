/**
  The theory of fallbackSort: refining an order by the first h bytes into an
  order by the first 2h bytes.

  heads[i] is the header bit of row i: it is set where a new class of rotations,
  equal on their first h bytes, begins.
 */
module PrefixDoubling {

  import opened Permutations
  import opened Rotations

  /** f is ordered by the first h bytes, and the header bits mark exactly the h-equal classes. */
  ghost predicate OrderedTo(b: Block, f: seq<nat>, heads: seq<bool>, h: nat) {
    && IsPermutation(f, |b|) && |heads| > |b| && heads[0]
    && SortedTo(b, f, h)
    && (forall i :: 0 < i < |b| ==> heads[i] == !EqualTo(b, f[i - 1], f[i], h))
  }

  /** No class begins after row i up to and including row j. */
  ghost predicate SameClass(heads: seq<bool>, i: int, j: int)
    requires 0 <= i && j < |heads|
  {
    forall t :: i < t <= j ==> !heads[t]
  }

  lemma {:induction false} ClassEqual(b: Block, f: seq<nat>, heads: seq<bool>, h: nat, i: int, j: int)
    requires OrderedTo(b, f, heads, h) && 0 <= i <= j < |b| && SameClass(heads, i, j)
    ensures EqualTo(b, f[i], f[j], h)
    decreases j - i
  {
    if i == j {
      EqualReflexive(b, f[i], h);
    } else {
      ClassEqual(b, f, heads, h, i, j - 1);
      Transitivity(b, f[i], f[j - 1], f[j], h);
    }
  }

  /** Rows of different classes are strictly ordered. */
  lemma ClassLess(b: Block, f: seq<nat>, heads: seq<bool>, h: nat, i: int, j: int)
    requires OrderedTo(b, f, heads, h) && 0 <= i < j < |b| && !SameClass(heads, i, j)
    ensures LessTo(b, f[i], f[j], h)
  {
    var t :| i < t <= j && heads[t];
    Trichotomy(b, f[t - 1], f[t], h);
    assert !LessTo(b, f[t], f[t - 1], h);
    if i < t - 1 {
      assert !LessTo(b, f[t - 1], f[i], h);
      NotGreaterThenLess(b, f[i], f[t - 1], f[t], h);
    }
    if t < j {
      assert !LessTo(b, f[j], f[t], h);
      LessThenNotGreater(b, f[i], f[t], f[j], h);
    }
  }

  lemma NotGreaterThenLess(b: Block, i: nat, j: nat, k: nat, h: nat)
    requires i < |b| && j < |b| && k < |b|
    requires !LessTo(b, j, i, h) && LessTo(b, j, k, h)
    ensures LessTo(b, i, k, h)
  {
    Trichotomy(b, i, j, h);
    Transitivity(b, i, j, k, h);
  }

  lemma LessThenNotGreater(b: Block, i: nat, j: nat, k: nat, h: nat)
    requires i < |b| && j < |b| && k < |b|
    requires LessTo(b, i, j, h) && !LessTo(b, k, j, h)
    ensures LessTo(b, i, k, h)
  {
    Trichotomy(b, j, k, h);
    Transitivity(b, i, j, k, h);
  }

  /** The first row of the class of row i: the running j of the class loop. */
  function Head(heads: seq<bool>, i: nat): (r: nat)
    requires i < |heads|
    ensures r <= i
    ensures forall t :: r < t <= i ==> !heads[t]
    ensures r == 0 || heads[r]
  {
    if i == 0 || heads[i] then i else Head(heads, i - 1)
  }

  lemma HeadOrder(b: Block, f: seq<nat>, heads: seq<bool>, h: nat, i: nat, j: nat)
    requires OrderedTo(b, f, heads, h) && i < |b| && j < |b|
    ensures Head(heads, i) < Head(heads, j) <==> LessTo(b, f[i], f[j], h)
  {
    var x, y := Head(heads, i), Head(heads, j);
    if i <= j {
      if SameClass(heads, i, j) {
        ClassEqual(b, f, heads, h, i, j);
        Trichotomy(b, f[i], f[j], h);
        assert x <= i;
        assert y <= i;
      } else {
        ClassLess(b, f, heads, h, i, j);
        assert y > i;
      }
    } else {
      assert !LessTo(b, f[i], f[j], h);
    }
  }

  /** e orders positions by the h bytes that start h further on. */
  ghost predicate RanksNext(b: Block, e: seq<nat>, h: nat) {
    |e| == |b| && forall x, y :: 0 <= x < |b| && 0 <= y < |b| ==>
      (e[x] < e[y] <==> LessTo(b, Shift(x, h, |b|), Shift(y, h, |b|), h))
  }

  /** The class loop assigns the class of row i to the position h before it. */
  lemma ClassesRankNext(b: Block, f: seq<nat>, heads: seq<bool>, e: seq<nat>, h: nat)
    requires OrderedTo(b, f, heads, h) && |e| == |b| && h <= |b|
    requires forall i :: 0 <= i < |b| ==> e[Back(f[i], h, |b|)] == Head(heads, i)
    ensures RanksNext(b, e, h)
  {
    forall x, y | 0 <= x < |b| && 0 <= y < |b|
      ensures e[x] < e[y] <==> LessTo(b, Shift(x, h, |b|), Shift(y, h, |b|), h)
    {
      var i := RowOf(b, f, heads, h, x);
      var j := RowOf(b, f, heads, h, y);
      HeadOrder(b, f, heads, h, i, j);
    }
  }

  /** f[i] - H, plus nblock if negative. */
  function Back(i: nat, h: nat, n: nat): (r: nat)
    requires i < n && h <= n
    ensures r < n
  {
    if i >= h then i - h else i - h + n
  }

  lemma RowOf(b: Block, f: seq<nat>, heads: seq<bool>, h: nat, x: nat) returns (i: nat)
    requires OrderedTo(b, f, heads, h) && x < |b| && h <= |b|
    ensures i < |b| && f[i] == Shift(x, h, |b|) && Back(f[i], h, |b|) == x
  {
    ShiftValue(x, h, |b|);
    PermutationReaches(f, |b|, Shift(x, h, |b|));
    i :| 0 <= i < |b| && f[i] == Shift(x, h, |b|);
  }

  // ----- One refinement pass -----

  /**
    Rows below d have been refined: each class is rearranged within itself, in order
    of e, and header bits are added where e changes.  Rows from d on are untouched.
   */
  ghost predicate Refined(b: Block, f0: seq<nat>, heads0: seq<bool>, f: seq<nat>, heads: seq<bool>, e: seq<nat>,
                          h: nat, d: int)
  {
    && |f0| == |f| == |b| == |e| && |heads0| == |heads| > |b| && 0 <= d <= |b|
    && IsPermutation(f, |b|)
    && (forall i :: d <= i < |b| ==> f[i] == f0[i])
    && (forall i :: d <= i < |heads| ==> heads[i] == heads0[i])
    && heads[0]
    && (forall i :: 0 <= i < |b| ==> f0[i] < |b| && EqualTo(b, f[i], f0[i], h))
    && (forall i, j :: 0 <= i < j < d && SameClass(heads0, i, j) ==> e[f[i]] <= e[f[j]])
    && (forall i, p :: 0 <= p < i < d && p == i - 1 ==> heads[i] == (heads0[i] || e[f[p]] != e[f[i]]))
  }

  /** A finished pass has doubled the depth. */
  lemma PassDoubles(b: Block, f0: seq<nat>, heads0: seq<bool>, f: seq<nat>, heads: seq<bool>, e: seq<nat>, h: nat)
    requires OrderedTo(b, f0, heads0, h) && RanksNext(b, e, h)
    requires Refined(b, f0, heads0, f, heads, e, h, |b|)
    ensures OrderedTo(b, f, heads, 2 * h)
  {
    forall i, j | 0 <= i < j < |b|
      ensures !LessTo(b, f[j], f[i], 2 * h)
    {
      PairOrdered(b, f0, heads0, f, heads, e, h, i, j);
    }
    forall i | 0 < i < |b|
      ensures heads[i] == !EqualTo(b, f[i - 1], f[i], 2 * h)
    {
      HeadMarks(b, f0, heads0, f, heads, e, h, i);
    }
  }

  lemma PairOrdered(b: Block, f0: seq<nat>, heads0: seq<bool>, f: seq<nat>, heads: seq<bool>, e: seq<nat>,
                    h: nat, i: int, j: int)
    requires OrderedTo(b, f0, heads0, h) && RanksNext(b, e, h)
    requires Refined(b, f0, heads0, f, heads, e, h, |b|) && 0 <= i < j < |b|
    ensures !LessTo(b, f[j], f[i], 2 * h)
  {
    SplitDepth(b, f[j], f[i], h, h);
    Trichotomy(b, f[i], f[j], h);
    Trichotomy(b, f[j], f[i], h);
    if SameClass(heads0, i, j) {
      SameClassKept(b, f0, heads0, f, heads, e, h, i, j);
      assert !(e[f[j]] < e[f[i]]);
    } else {
      ClassLess(b, f0, heads0, h, i, j);
      Transitivity(b, f[i], f0[i], f0[j], h);
      Trichotomy(b, f[j], f0[j], h);
      Transitivity(b, f[i], f0[j], f[j], h);
    }
  }

  lemma SameClassKept(b: Block, f0: seq<nat>, heads0: seq<bool>, f: seq<nat>, heads: seq<bool>, e: seq<nat>,
                      h: nat, i: int, j: int)
    requires OrderedTo(b, f0, heads0, h)
    requires Refined(b, f0, heads0, f, heads, e, h, |b|) && 0 <= i < j < |b| && SameClass(heads0, i, j)
    ensures EqualTo(b, f[i], f[j], h)
  {
    ClassEqual(b, f0, heads0, h, i, j);
    Transitivity(b, f[i], f0[i], f0[j], h);
    Trichotomy(b, f[j], f0[j], h);
    Transitivity(b, f[i], f0[j], f[j], h);
  }

  lemma HeadMarks(b: Block, f0: seq<nat>, heads0: seq<bool>, f: seq<nat>, heads: seq<bool>, e: seq<nat>, h: nat, i: int)
    requires OrderedTo(b, f0, heads0, h) && RanksNext(b, e, h)
    requires Refined(b, f0, heads0, f, heads, e, h, |b|) && 0 < i < |b|
    ensures heads[i] == !EqualTo(b, f[i - 1], f[i], 2 * h)
  {
    var x, y := f[i - 1], f[i];
    SplitDepth(b, x, y, h, h);
    Trichotomy(b, Shift(x, h, |b|), Shift(y, h, |b|), h);
    if SameClass(heads0, i - 1, i) {
      SameClassKept(b, f0, heads0, f, heads, e, h, i - 1, i);
      assert e[x] < e[y] <==> LessTo(b, Shift(x, h, |b|), Shift(y, h, |b|), h);
      assert e[y] < e[x] <==> LessTo(b, Shift(y, h, |b|), Shift(x, h, |b|), h);
    } else {
      ClassLess(b, f0, heads0, h, i - 1, i);
      Transitivity(b, x, f0[i - 1], f0[i], h);
      Trichotomy(b, y, f0[i], h);
      Transitivity(b, x, f0[i], y, h);
      Trichotomy(b, x, y, h);
    }
  }

  // ----- When to stop -----

  /** Depth beyond a full turn: the order is final. */
  lemma FullDepthIsSorted(b: Block, f: seq<nat>, heads: seq<bool>, h: nat)
    requires OrderedTo(b, f, heads, h) && h >= |b|
    ensures SortsRotations(b, f)
  {
    forall i, j | 0 <= i < j < |b|
      ensures !LessTo(b, f[j], f[i], |b|)
    {
      FullTurnDecides(b, f[j], f[i], h);
    }
  }
}
