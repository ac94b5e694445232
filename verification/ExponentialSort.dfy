/**
  fallbackSort: the exponential radix sort of the block's rotations.

  The header bits live in bhtab, modelled as an array of bits; a word test looks at
  32 aligned bits at once.
 */
module ExponentialSort {

  import opened Permutations
  import opened Rotations
  import opened BurrowsWheeler
  import opened PrefixDoubling
  import opened QuickSort

  // ----- Initial one-byte radix sort -----

  /** The row given to position i: each bucket is filled from its end. */
  function BucketRow(b: seq<Byte>, i: nat): (r: int)
    requires i < |b|
  {
    Smaller(b, b[i] as int + 1, |b|) - 1 - Occurrences(b, b[i], i)
  }

  lemma BucketRowInRange(b: seq<Byte>, i: nat)
    requires i < |b|
    ensures 0 <= Smaller(b, b[i], |b|) <= BucketRow(b, i) < Smaller(b, b[i] as int + 1, |b|) <= |b|
  {
    OccurrencesMonotone(b, b[i], i, |b|);
    SmallerNext(b, b[i], |b|);
  }

  /** Rows of bytes do not overlap. */
  lemma RowByte(b: seq<Byte>, k: int, v: Byte, w: Byte)
    requires Smaller(b, v, |b|) <= k < Smaller(b, v as int + 1, |b|)
    requires Smaller(b, w, |b|) <= k < Smaller(b, w as int + 1, |b|)
    ensures v == w
  {
    if v < w {
      SmallerMonotone(b, v as int + 1, w, |b|);
    } else if w < v {
      SmallerMonotone(b, w as int + 1, v, |b|);
    }
  }

  lemma BucketRowDistinct(b: seq<Byte>, i: nat, j: nat)
    requires i < j < |b|
    ensures BucketRow(b, i) != BucketRow(b, j)
  {
    BucketRowInRange(b, i);
    BucketRowInRange(b, j);
    if b[i] == b[j] {
      OccurrencesMonotone(b, b[i], i, j);
    } else if BucketRow(b, i) == BucketRow(b, j) {
      RowByte(b, BucketRow(b, i), b[i], b[j]);
    }
  }

  /** Each row holds a position whose byte owns that row. */
  ghost predicate Bucketed(b: seq<Byte>, f: seq<nat>) {
    && IsPermutation(f, |b|)
    && (forall k :: 0 <= k < |b| ==> Smaller(b, b[f[k]], |b|) <= k < Smaller(b, b[f[k]] as int + 1, |b|))
  }

  lemma RowsAreBucketed(b: seq<Byte>, f: seq<nat>)
    requires |f| == |b|
    requires forall i :: 0 <= i < |b| ==> 0 <= BucketRow(b, i) < |b| && f[BucketRow(b, i)] == i
    ensures Bucketed(b, f)
  {
    hide BucketRow, Smaller;
    var rows: seq<nat> := seq(|b|, i requires 0 <= i < |b| => BucketRow(b, i));
    forall i, j | 0 <= i < j < |b|
      ensures rows[i] != rows[j]
    {
      BucketRowDistinct(b, i, j);
    }
    assert IsPermutation(rows, |b|);
    forall k | 0 <= k < |b|
      ensures f[k] < |b| && rows[f[k]] == k && Smaller(b, b[f[k]], |b|) <= k < Smaller(b, b[f[k]] as int + 1, |b|)
    {
      PermutationReaches(rows, |b|, k);
      var i :| 0 <= i < |b| && rows[i] == k;
      BucketRowInRange(b, i);
    }
  }

  lemma BucketedSorted(b: Block, f: seq<nat>)
    requires Bucketed(b, f)
    ensures SortedTo(b, f, 1)
  {
    forall i, j | 0 <= i < j < |b|
      ensures !LessTo(b, f[j], f[i], 1)
    {
      if b[f[j]] < b[f[i]] {
        SmallerMonotone(b, b[f[j]] as int + 1, b[f[i]], |b|);
      }
    }
  }

  /** A row is the first of some bucket exactly where the byte changes. */
  lemma BucketHeads(b: Block, f: seq<nat>, i: int, v: Byte)
    requires Bucketed(b, f) && 0 < i < |b|
    ensures Smaller(b, v, |b|) == i ==> b[f[i - 1]] != b[f[i]]
    ensures b[f[i - 1]] != b[f[i]] ==> Smaller(b, b[f[i]], |b|) == i
  {
    hide Smaller;
    var x, y := b[f[i - 1]], b[f[i]];
    if Smaller(b, v, |b|) == i {
      if v <= x {
        SmallerMonotone(b, v, x, |b|);
      } else if y < v {
        SmallerMonotone(b, y as int + 1, v, |b|);
      }
    }
    if x != y && Smaller(b, y, |b|) != i {
      RowByte(b, i - 1, x, y);
    }
  }

  /** Any rotation order has the bucket layout. */
  lemma SortedIsBucketed(b: Block, f: seq<nat>, g: seq<nat>)
    requires SortsRotations(b, f) && Bucketed(b, g)
    ensures Bucketed(b, f)
  {
    BucketedSorted(b, g);
    forall i, j | 0 <= i < j < |b|
      ensures !LessTo(b, f[j], f[i], 1)
    {
      NotLessShallower(b, f[j], f[i], 1, |b|);
    }
    forall k | 0 <= k < |b|
      ensures b[f[k]] == b[g[k]]
    {
      SortedOrdersAgree(b, f, g, 1, k);
    }
  }

  method CountBytes(eclass8: array<Byte>) returns (ftab: array<nat>, ftabCopy: array<nat>)
    ensures fresh(ftab) && fresh(ftabCopy) && ftab.Length == 257 && ftabCopy.Length == 256 && ftab != ftabCopy
    ensures forall v :: 0 <= v < 257 ==> ftab[v] == Smaller(eclass8[..], v + 1, eclass8.Length)
    ensures forall v :: 0 <= v < 256 ==> ftabCopy[v] == Occurrences(eclass8[..], v, eclass8.Length)
  {
    ghost var b, n := eclass8[..], eclass8.Length;
    ftab := new nat[257](_ => 0);
    for i := 0 to eclass8.Length
      invariant forall v :: 0 <= v < 257 ==> ftab[v] == Occurrences(b, v, i)
    {
      assert b[i] == eclass8[i];
      ftab[eclass8[i]] := ftab[eclass8[i]] + 1;
    }
    ftabCopy := new nat[256](_ => 0);
    for i := 0 to 256
      invariant forall v :: 0 <= v < 257 ==> ftab[v] == Occurrences(b, v, n)
      invariant forall v :: 0 <= v < i ==> ftabCopy[v] == Occurrences(b, v, n)
    {
      ftabCopy[i] := ftab[i];
    }
    Cumulate(ftab, b);
    assert forall v :: 0 <= v < 256 ==> ftabCopy[v] == Occurrences(b, v, n);
  }

  method Cumulate(ftab: array<nat>, ghost b: seq<Byte>)
    requires ftab.Length == 257
    requires forall v :: 0 <= v < 257 ==> ftab[v] == Occurrences(b, v, |b|)
    modifies ftab
    ensures forall v :: 0 <= v < 257 ==> ftab[v] == Smaller(b, v + 1, |b|)
  {
    NoneSmaller(b, |b|);
    SmallerNext(b, 0, |b|);
    for i := 1 to 257
      invariant forall v :: 0 <= v < i ==> ftab[v] == Smaller(b, v + 1, |b|)
      invariant forall v :: i <= v < 257 ==> ftab[v] == Occurrences(b, v, |b|)
    {
      SmallerNext(b, i, |b|);
      ftab[i] := ftab[i] + ftab[i - 1];
    }
  }

  lemma {:induction false} NoneSmaller(b: seq<Byte>, m: nat)
    requires m <= |b|
    ensures Smaller(b, 0, m) == 0
  {
    if m > 0 {
      NoneSmaller(b, m - 1);
    }
  }

  /** The radix sort proper; afterwards ftab[v] is the first row of byte v. */
  method FillBuckets(eclass8: array<Byte>, fmap: array<nat>, ftab: array<nat>)
    requires fmap.Length == eclass8.Length && ftab.Length == 257 && ftab != fmap
    requires forall v :: 0 <= v < 257 ==> ftab[v] == Smaller(eclass8[..], v + 1, eclass8.Length)
    modifies fmap, ftab
    ensures Bucketed(eclass8[..], fmap[..])
    ensures forall v :: 0 <= v < 256 ==> ftab[v] == Smaller(eclass8[..], v, eclass8.Length)
  {
    hide Smaller, Bucketed;
    ghost var b, n := eclass8[..], eclass8.Length;
    for i := 0 to eclass8.Length
      invariant eclass8[..] == b
      invariant forall v :: 0 <= v < 256 ==> ftab[v] == Smaller(b, v + 1, n) - Occurrences(b, v, i)
      invariant forall t :: 0 <= t < i ==> 0 <= BucketRow(b, t) < n && fmap[BucketRow(b, t)] == t
    {
      var j := eclass8[i];
      assert b[i] == j;
      BucketRowInRange(b, i);
      var k := ftab[j] - 1;
      assert k == BucketRow(b, i);
      ftab[j] := k;
      fmap[k] := i;
      forall t | 0 <= t < i
        ensures BucketRow(b, t) != k
      {
        BucketRowDistinct(b, t, i);
      }
    }
    RowsAreBucketed(b, fmap[..]);
    forall v | 0 <= v < 256
      ensures ftab[v] == Smaller(b, v, n)
    {
      SmallerNext(b, v, n);
    }
  }

  // ----- Header bits -----

  /** Behind the last row, 64 bits alternate set and clear, to stop the scans. */
  ghost predicate Sentinels(heads: seq<bool>, n: nat) {
    && n + 64 <= |heads| && |heads| % 32 == 0
    && (forall i :: 0 <= i < 32 ==> heads[n + 2 * i] && !heads[n + 2 * i + 1])
  }

  /** Room for the sentinel bits: the word after the cleared words may be partly used too. */
  function TableBits(n: nat): nat {
    32 * (3 + n / 32)
  }

  /** Row k is the first row of a byte below m. */
  ghost predicate Begins(b: seq<Byte>, m: nat, k: int) {
    exists v :: 0 <= v < m && Smaller(b, v, |b|) == k
  }

  lemma NoneBegin(b: seq<Byte>)
    ensures forall k :: !Begins(b, 0, k)
  {
  }

  lemma BeginsNext(b: seq<Byte>, m: nat)
    ensures forall k :: Begins(b, m + 1, k) == (Begins(b, m, k) || Smaller(b, m, |b|) == k)
  {
    hide Smaller;
  }

  /** The heads mark exactly the rows where a byte below i begins. */
  ghost predicate Headed(heads: seq<bool>, b: Block, i: nat) {
    forall k :: 0 <= k < |heads| ==> heads[k] == Begins(b, i, k)
  }

  lemma HeadedNone(heads: seq<bool>, b: Block)
    requires forall k :: 0 <= k < |heads| ==> !heads[k]
    ensures Headed(heads, b, 0)
  {
    NoneBegin(b);
  }

  lemma HeadedNext(heads: seq<bool>, b: Block, i: nat, p: nat)
    requires Headed(heads, b, i) && p == Smaller(b, i, |b|)
    ensures Headed(if p < |heads| then heads[p := true] else heads, b, i + 1)
    ensures p <= |b|
  {
    hide Begins, Smaller;
    BeginsNext(b, i);
    var heads' := if p < |heads| then heads[p := true] else heads;
    forall k | 0 <= k < |heads'|
      ensures heads'[k] == Begins(b, i + 1, k)
    {
      assert heads[k] == Begins(b, i, k);
    }
  }

  lemma HeadedAll(heads: seq<bool>, b: Block)
    requires Headed(heads, b, 256)
    ensures forall k :: 0 <= k < |heads| ==> heads[k] == Begins(b, 256, k)
  {
  }

  method SetHeaders(bhtab: array<bool>, ftab: array<nat>, nblock: nat, ghost b: Block, ghost f: seq<nat>)
    requires nblock == |b| && bhtab.Length >= TableBits(nblock) && bhtab.Length % 32 == 0
    requires ftab.Length == 257 && Bucketed(b, f)
    requires forall v :: 0 <= v < 256 ==> ftab[v] == Smaller(b, v, |b|)
    modifies bhtab
    ensures OrderedTo(b, f, bhtab[..], 1) && Sentinels(bhtab[..], |b|)
  {
    hide Smaller, Bucketed, Begins, Headed;
    var nBhtab := 2 + nblock / 32;
    for i := 0 to nBhtab * 32
      invariant forall k :: 0 <= k < i ==> !bhtab[k]
    {
      bhtab[i] := false;
    }
    HeadedNone(bhtab[..nblock], b);
    for i := 0 to 256
      invariant Headed(bhtab[..nblock], b, i)
    {
      ghost var before, p := bhtab[..nblock], ftab[i];
      assert p == Smaller(b, i, |b|);
      HeadedNext(before, b, i, p);
      bhtab[ftab[i]] := true;
      assert bhtab[..nblock] == if p < nblock then before[p := true] else before;
    }
    ghost var marked := bhtab[..nblock];
    HeadedAll(marked, b);
    for i := 0 to 32
      invariant bhtab[..nblock] == marked
      invariant forall k :: 0 <= k < i ==> bhtab[nblock + 2 * k] && !bhtab[nblock + 2 * k + 1]
    {
      bhtab[nblock + 2 * i] := true;
      bhtab[nblock + 2 * i + 1] := false;
    }
    HeadersOrdered(b, f, bhtab[..], marked);
  }

  lemma HeadersOrdered(b: Block, f: seq<nat>, heads: seq<bool>, marked: seq<bool>)
    requires Bucketed(b, f) && |heads| > |b| && heads[..|b|] == marked
    requires forall k :: 0 <= k < |b| ==> marked[k] == Begins(b, 256, k)
    ensures OrderedTo(b, f, heads, 1)
  {
    hide Smaller;
    BucketedSorted(b, f);
    assert forall k :: 0 <= k < |b| ==> heads[k] == marked[k];
    assert heads[0] by {
      NoneSmaller(b, |b|);
      assert Smaller(b, 0, |b|) == 0;
    }
    forall i | 0 < i < |b|
      ensures heads[i] == !EqualTo(b, f[i - 1], f[i], 1)
    {
      if heads[i] {
        var v :| 0 <= v < 256 && Smaller(b, v, |b|) == i;
        BucketHeads(b, f, i, v);
      } else {
        BucketHeads(b, f, i, 0);
        assert Smaller(b, b[f[i]], |b|) != i;
      }
    }
  }

  /** The word test on the 32 bits starting at an aligned position. */
  predicate WordIs(bhtab: array<bool>, k: nat, v: bool)
    requires k + 32 <= bhtab.Length
    reads bhtab
  {
    forall t :: k <= t < k + 32 ==> bhtab[t] == v
  }

  /**
    The scans for the next clear bit (v == true) and the next set bit (v == false):
    step to a word border, skip whole words, step to the bit.  The result is that of
    a bit-by-bit scan.
   */
  method SkipBits(bhtab: array<bool>, start: nat, v: bool, ghost stop: nat) returns (k: nat)
    requires start <= stop && stop + 32 < bhtab.Length && bhtab.Length % 32 == 0 && bhtab[stop] != v
    ensures start <= k <= stop && bhtab[k] != v
    ensures forall t :: start <= t < k ==> bhtab[t] == v
  {
    k := start;
    while bhtab[k] == v && k % 32 != 0
      invariant start <= k <= stop
      invariant forall t :: start <= t < k ==> bhtab[t] == v
      decreases stop - k
    {
      k := k + 1;
    }
    if bhtab[k] == v {
      while WordIs(bhtab, k, v)
        invariant start <= k <= stop
        invariant forall t :: start <= t < k ==> bhtab[t] == v
        decreases stop - k
      {
        k := k + 32;
      }
      while bhtab[k] == v
        invariant start <= k <= stop
        invariant forall t :: start <= t < k ==> bhtab[t] == v
        decreases stop - k
      {
        k := k + 1;
      }
    }
  }

  /** The class loop: eclass[k] becomes the class of the rotation H bytes after k. */
  method AssignClasses(fmap: array<nat>, eclass: array<nat>, bhtab: array<bool>, nblock: nat, h: nat, ghost b: Block)
    requires fmap != eclass && fmap.Length == eclass.Length == nblock == |b| && h <= |b|
    requires OrderedTo(b, fmap[..], bhtab[..], h)
    modifies eclass
    ensures RanksNext(b, eclass[..], h)
  {
    hide OrderedTo, Head;
    ghost var f, heads := fmap[..], bhtab[..];
    OrderedFacts(b, f, heads, h);
    var j := 0;
    for i := 0 to nblock
      invariant fmap[..] == f && bhtab[..] == heads
      invariant i > 0 ==> j == Head(heads, i - 1)
      invariant i == 0 ==> j == 0
      invariant forall t :: 0 <= t < i ==> eclass[Back(f[t], h, |b|)] == Head(heads, t)
    {
      HeadStep(heads, i);
      if bhtab[i] {
        j := i;
      }
      var k: int := fmap[i] - h;
      if k < 0 {
        k := k + nblock;
      }
      assert k == Back(f[i], h, |b|);
      eclass[k] := j;
      forall t | 0 <= t < i
        ensures Back(f[t], h, |b|) != k
      {
        assert f[t] != f[i];
      }
    }
    ClassesRankNext(b, f, heads, eclass[..], h);
  }

  lemma OrderedFacts(b: Block, f: seq<nat>, heads: seq<bool>, h: nat)
    requires OrderedTo(b, f, heads, h)
    ensures IsPermutation(f, |b|) && |heads| > |b| && heads[0]
  {
  }

  lemma HeadStep(heads: seq<bool>, i: nat)
    requires i < |heads|
    ensures Head(heads, i) == if i == 0 || heads[i] then i else Head(heads, i - 1)
  {
  }

  // ----- One pass over the buckets -----

  lemma RefinedStart(b: Block, f: seq<nat>, heads: seq<bool>, e: seq<nat>, h: nat)
    requires OrderedTo(b, f, heads, h) && |e| == |b|
    ensures Refined(b, f, heads, f, heads, e, h, 0)
  {
    forall i | 0 <= i < |b|
      ensures EqualTo(b, f[i], f[i], h)
    {
      EqualReflexive(b, f[i], h);
    }
  }

  /** Classes of one rotation need no work. */
  lemma RefinedSingles(b: Block, f0: seq<nat>, heads0: seq<bool>, f: seq<nat>, heads: seq<bool>, e: seq<nat>,
                       h: nat, d: int, l: int)
    requires Refined(b, f0, heads0, f, heads, e, h, d) && d <= l <= |b|
    requires forall t :: d <= t < l ==> heads0[t]
    ensures Refined(b, f0, heads0, f, heads, e, h, l)
  {
    forall i, j | 0 <= i < j < l && SameClass(heads0, i, j)
      ensures e[f[i]] <= e[f[j]]
    {
      assert !heads0[j];
    }
  }

  /** heads' adds to heads, in rows l .. r, a bit at l and wherever e changes. */
  ghost predicate Marked(heads: seq<bool>, heads': seq<bool>, f: seq<nat>, e: seq<nat>, l: int, r: int)
    requires Indexes(f, e)
  {
    && |heads| == |heads'| && 0 <= l && r < |f| && r < |heads|
    && (forall i :: 0 <= i < |heads| && !(l <= i <= r) ==> heads'[i] == heads[i])
    && (l <= r ==> heads'[l])
    && (forall i, p :: l <= p < i <= r && p == i - 1 ==> heads'[i] == (heads[i] || e[f[p]] != e[f[i]]))
  }

  /** The rows sorted keep their rotations' first h bytes. */
  lemma BucketRows(b: Block, f0: seq<nat>, heads0: seq<bool>, f: seq<nat>, h: nat, l: int, r: int, f': seq<nat>)
    requires OrderedTo(b, f0, heads0, h) && 0 <= l <= r < |b| < |heads0| && SameClass(heads0, l, r)
    requires |f0| == |f| == |f'| == |b| < |heads0| && (forall i :: 0 <= i < |b| ==> f0[i] < |b| && f'[i] < |b|)
    requires (forall i :: l <= i < |b| ==> f[i] == f0[i]) && Shuffled(f, f', l, r + 1)
    ensures forall i :: l <= i <= r ==> EqualTo(b, f'[i], f0[i], h)
  {
    hide OrderedTo, SameClass, EqualTo;
    forall i | l <= i <= r
      ensures EqualTo(b, f'[i], f0[i], h)
    {
      var j := ShuffledMember(f, f', l, r + 1, i);
      ClassMates(b, f0, heads0, h, l, r, j, i);
    }
  }

  /** Within a class, the rows below r + 1 are ordered by e. */
  lemma BucketOrder(heads0: seq<bool>, f: seq<nat>, e: seq<nat>, l: int, r: int, f': seq<nat>)
    requires 0 <= l <= r < |f| == |f'| == |e| && r < |heads0| && heads0[l]
    requires (forall i :: 0 <= i < |f| ==> f[i] < |e| && f'[i] < |e|) && (forall i :: 0 <= i < l ==> f'[i] == f[i])
    requires forall i, j :: 0 <= i < j < l && SameClass(heads0, i, j) ==> e[f[i]] <= e[f[j]]
    requires Indexes(f', e) && SortedBy(f', e, l, r + 1)
    ensures forall i, j :: 0 <= i < j < r + 1 && SameClass(heads0, i, j) ==> e[f'[i]] <= e[f'[j]]
  {
    forall i, j | 0 <= i < j < r + 1 && SameClass(heads0, i, j)
      ensures e[f'[i]] <= e[f'[j]]
    {
      assert !(i < l <= j) by {
        assert heads0[l];
      }
    }
  }

  /** Sorting one class by e and marking the changes refines it. */
  lemma RefinedBucket(b: Block, f0: seq<nat>, heads0: seq<bool>, f: seq<nat>, heads: seq<bool>, e: seq<nat>,
                      h: nat, l: int, r: int, f': seq<nat>, heads': seq<bool>)
    requires OrderedTo(b, f0, heads0, h) && Refined(b, f0, heads0, f, heads, e, h, l)
    requires l <= r < |b| && heads0[l] && SameClass(heads0, l, r)
    requires Shuffled(f, f', l, r + 1) && Indexes(f', e) && SortedBy(f', e, l, r + 1)
    requires Marked(heads, heads', f', e, l, r)
    ensures Refined(b, f0, heads0, f', heads', e, h, r + 1)
  {
    hide EqualTo, SameClass, SortedBy;
    PermutationRearranged(f, f', |b|);
    BucketRows(b, f0, heads0, f, h, l, r, f');
    BucketOrder(heads0, f, e, l, r, f');
    BucketMarks(heads0, heads, f, e, l, r, f', heads');
  }

  /** The header bits of the rows below r + 1. */
  lemma BucketMarks(heads0: seq<bool>, heads: seq<bool>, f: seq<nat>, e: seq<nat>, l: int, r: int, f': seq<nat>,
                    heads': seq<bool>)
    requires Indexes(f, e) && Indexes(f', e) && Marked(heads, heads', f', e, l, r) && |f| == |f'| && |heads0| == |heads|
    requires l <= r < |heads0| && heads0[l] && (forall i :: 0 <= i < l ==> f'[i] == f[i])
    requires forall i :: l <= i < |heads| ==> heads[i] == heads0[i]
    requires forall i, p :: 0 <= p < i < l && p == i - 1 ==> heads[i] == (heads0[i] || e[f[p]] != e[f[i]])
    ensures forall i, p :: 0 <= p < i < r + 1 && p == i - 1 ==> heads'[i] == (heads0[i] || e[f'[p]] != e[f'[i]])
  {
    forall i, p | 0 <= p < i < r + 1 && p == i - 1
      ensures heads'[i] == (heads0[i] || e[f'[p]] != e[f'[i]])
    {
      if i < l {
        assert heads'[i] == heads[i];
      } else if i > l {
        assert heads'[i] == (heads[i] || e[f'[p]] != e[f'[i]]);
      }
    }
  }

  lemma ClassMates(b: Block, f: seq<nat>, heads: seq<bool>, h: nat, l: int, r: int, i: int, j: int)
    requires OrderedTo(b, f, heads, h) && 0 <= l <= r < |b| && SameClass(heads, l, r)
    requires l <= i <= r && l <= j <= r
    ensures EqualTo(b, f[i], f[j], h)
  {
    if i <= j {
      ClassEqual(b, f, heads, h, i, j);
    } else {
      ClassEqual(b, f, heads, h, j, i);
      Trichotomy(b, f[i], f[j], h);
    }
  }

  lemma MarkedNone(heads: seq<bool>, f: seq<nat>, e: seq<nat>, l: nat)
    requires Indexes(f, e) && l <= |f| && l <= |heads|
    ensures Marked(heads, heads, f, e, l, l - 1)
  {
  }

  lemma MarkedAt(heads: seq<bool>, h: seq<bool>, f: seq<nat>, e: seq<nat>, l: int, r: int, k: nat, p: nat)
    requires Indexes(f, e) && Marked(heads, h, f, e, l, r) && l <= p < k <= r && p == k - 1
    ensures h[k] == (heads[k] || e[f[p]] != e[f[k]])
  {
  }

  lemma MarkedStep(heads: seq<bool>, h: seq<bool>, f: seq<nat>, e: seq<nat>, l: nat, i: nat)
    requires Indexes(f, e) && l <= i < |f| && i < |heads| && Marked(heads, h, f, e, l, i - 1)
    ensures |h| == |heads| && h[i] == heads[i]
    ensures i == l || e[f[i - 1]] != e[f[i]] ==> Marked(heads, h[i := true], f, e, l, i)
    ensures i > l && e[f[i - 1]] == e[f[i]] ==> Marked(heads, h, f, e, l, i)
  {
    var h' := h[i := true];
    var changed := i == l || e[f[i - 1]] != e[f[i]];
    forall k, p | l <= p < k <= i && p == k - 1
      ensures changed ==> h'[k] == (heads[k] || e[f[p]] != e[f[k]])
      ensures !changed ==> h[k] == (heads[k] || e[f[p]] != e[f[k]])
    {
      if k < i {
        assert h'[k] == h[k];
        MarkedAt(heads, h, f, e, l, i - 1, k, p);
      }
    }
    forall k | 0 <= k < |heads| && !(l <= k <= i)
      ensures h'[k] == heads[k] && h[k] == heads[k]
    {
    }
  }

  /** "Scan bucket and generate header bits". */
  method MarkClasses(bhtab: array<bool>, fmap: array<nat>, eclass: array<nat>, l: nat, r: nat)
    requires l <= r < fmap.Length && r < bhtab.Length && Indexes(fmap[..], eclass[..])
    modifies bhtab
    ensures Marked(old(bhtab[..]), bhtab[..], fmap[..], eclass[..], l, r)
  {
    hide Marked;
    var cc: int := -1;
    ghost var heads, f, e := bhtab[..], fmap[..], eclass[..];
    MarkedNone(heads, f, e, l);
    for i := l to r + 1
      invariant fmap[..] == f && eclass[..] == e
      invariant i == l ==> cc == -1
      invariant i > l ==> cc == e[f[i - 1]]
      invariant Marked(heads, bhtab[..], f, e, l, i - 1)
    {
      assert fmap[i] == f[i] && eclass[fmap[i]] == e[f[i]];
      var cc1 := eclass[fmap[i]];
      ghost var h := bhtab[..];
      MarkedStep(heads, h, f, e, l, i);
      if cc != cc1 {
        bhtab[i] := true;
        assert bhtab[..] == h[i := true];
        cc := cc1;
      }
    }
  }

  /** Where the pass stands: rows below d are done, and a class begins at row d. */
  ghost predicate Standing(b: Block, f0: seq<nat>, heads0: seq<bool>, f: seq<nat>, heads: seq<bool>, e: seq<nat>,
                           h: nat, d: int, notDone: nat)
  {
    && Refined(b, f0, heads0, f, heads, e, h, d) && Sentinels(heads0, |b|) && Indexes(f, e)
    && heads0[d]
    && (notDone == 0 ==> forall t :: 0 <= t < d ==> heads0[t])
  }

  lemma StandingFacts(b: Block, f0: seq<nat>, heads0: seq<bool>, f: seq<nat>, heads: seq<bool>, e: seq<nat>,
                      h: nat, d: int, notDone: nat)
    requires Standing(b, f0, heads0, f, heads, e, h, d, notDone)
    ensures 0 <= d <= |b| == |f| == |e| && |b| + 64 <= |heads| == |heads0| && |heads| % 32 == 0
    ensures heads[d] && heads[|b|] && !heads[|b| + 1] && Indexes(f, e)
    ensures forall t :: d <= t < |heads| ==> heads[t] == heads0[t]
  {
    assert heads0[|b| + 2 * 0] && !heads0[|b| + 2 * 0 + 1];
  }

  lemma StandingStart(b: Block, f: seq<nat>, heads: seq<bool>, e: seq<nat>, h: nat)
    requires OrderedTo(b, f, heads, h) && |e| == |b| && Sentinels(heads, |b|)
    ensures Standing(b, f, heads, f, heads, e, h, 0, 0)
  {
    RefinedStart(b, f, heads, e, h);
  }

  lemma StandingNext(b: Block, f0: seq<nat>, heads0: seq<bool>, f: seq<nat>, heads: seq<bool>, e: seq<nat>,
                     h: nat, d: int, notDone: nat, l: int, r: int, f': seq<nat>, heads': seq<bool>)
    requires OrderedTo(b, f0, heads0, h) && Standing(b, f0, heads0, f, heads, e, h, d, notDone)
    requires d <= l < r < |b| && (forall t :: d <= t <= l ==> heads[t]) && (forall t :: l < t <= r ==> !heads[t])
    requires heads[r + 1]
    requires Shuffled(f, f', l, r + 1) && Indexes(f', e) && SortedBy(f', e, l, r + 1)
    requires Marked(heads, heads', f', e, l, r)
    ensures Standing(b, f0, heads0, f', heads', e, h, r + 1, notDone + (r - l + 1))
  {
    StandingFacts(b, f0, heads0, f, heads, e, h, d, notDone);
    hide OrderedTo, Shuffled, SortedBy, Marked;
    RefinedSingles(b, f0, heads0, f, heads, e, h, d, l);
    RefinedBucket(b, f0, heads0, f, heads, e, h, l, r, f', heads');
  }

  /** No class of several rotations is left. */
  lemma StandingEnd(b: Block, f0: seq<nat>, heads0: seq<bool>, f: seq<nat>, heads: seq<bool>, e: seq<nat>,
                    h: nat, d: int, notDone: nat)
    requires Standing(b, f0, heads0, f, heads, e, h, d, notDone)
    requires forall t :: d <= t < |b| ==> heads[t]
    ensures Refined(b, f0, heads0, f, heads, e, h, |b|)
    ensures notDone == 0 ==> forall t :: 0 <= t < |b| ==> heads0[t]
    ensures Sentinels(heads, |b|)
  {
    StandingFacts(b, f0, heads0, f, heads, e, h, d, notDone);
    RefinedSingles(b, f0, heads0, f, heads, e, h, d, |b|);
  }

  /** The inner loop of the log(N) loop: every class of several rotations is sorted by eclass. */
  method RefineBuckets(fmap: array<nat>, eclass: array<nat>, bhtab: array<bool>, nblock: nat, h: nat, ghost b: Block)
    returns (nNotDone: nat)
    requires fmap != eclass && fmap.Length == eclass.Length == nblock == |b| <= MAX_BLOCK
    requires OrderedTo(b, fmap[..], bhtab[..], h) && Sentinels(bhtab[..], |b|)
    modifies fmap, bhtab
    ensures Refined(b, old(fmap[..]), old(bhtab[..]), fmap[..], bhtab[..], eclass[..], h, |b|)
    ensures nNotDone == 0 ==> forall t :: 0 <= t < |b| ==> old(bhtab[..])[t]
    ensures Sentinels(bhtab[..], |b|)
  {
    hide *;
    ghost var f0, heads0, e := fmap[..], bhtab[..], eclass[..];
    StandingStart(b, f0, heads0, e, h);
    nNotDone := 0;
    var r: int := -1;
    while true
      invariant -1 <= r < nblock && eclass[..] == e
      invariant Standing(b, f0, heads0, fmap[..], bhtab[..], e, h, r + 1, nNotDone)
      decreases nblock - r
    {
      ghost var f, heads := fmap[..], bhtab[..];
      StandingFacts(b, f0, heads0, f, heads, e, h, r + 1, nNotDone);
      var k := SkipBits(bhtab, r + 1, true, nblock + 1);
      var l := k - 1;
      if l >= nblock {
        break;
      }
      k := SkipBits(bhtab, k, false, nblock);
      ghost var d := r + 1;
      r := k - 1;
      if r >= nblock {
        break;
      }
      if r > l {
        nNotDone := nNotDone + (r - l + 1);
        FallbackQSort3(fmap, eclass, l, r);
        MarkClasses(bhtab, fmap, eclass, l, r);
        StandingNext(b, f0, heads0, f, heads, e, h, d, nNotDone - (r - l + 1), l, r, fmap[..], bhtab[..]);
      }
    }
    StandingEnd(b, f0, heads0, fmap[..], bhtab[..], e, h, r + 1, nNotDone);
  }

  /** The log(N) loop. */
  method Refine(fmap: array<nat>, eclass: array<nat>, bhtab: array<bool>, nblock: nat, ghost b: Block)
    requires fmap != eclass && fmap.Length == eclass.Length == nblock == |b| <= MAX_BLOCK
    requires OrderedTo(b, fmap[..], bhtab[..], 1) && Sentinels(bhtab[..], |b|)
    modifies fmap, eclass, bhtab
    ensures SortsRotations(b, fmap[..])
  {
    hide *;
    var h := 1;
    while true
      invariant 1 <= h <= nblock
      invariant OrderedTo(b, fmap[..], bhtab[..], h) && Sentinels(bhtab[..], |b|)
      decreases nblock - h
    {
      ghost var f, heads := fmap[..], bhtab[..];
      AssignClasses(fmap, eclass, bhtab, nblock, h, b);
      var nNotDone := RefineBuckets(fmap, eclass, bhtab, nblock, h, b);
      PassDoubles(b, f, heads, fmap[..], bhtab[..], eclass[..], h);
      if nNotDone == 0 {
        SinglesStay(b, f, heads, fmap[..], bhtab[..], eclass[..], h);
      }
      h := h * 2;
      if h > nblock || nNotDone == 0 {
        if nNotDone != 0 {
          FullDepthIsSorted(b, fmap[..], bhtab[..], h);
        }
        break;
      }
    }
  }

  lemma SinglesStay(b: Block, f0: seq<nat>, heads0: seq<bool>, f: seq<nat>, heads: seq<bool>, e: seq<nat>, h: nat)
    requires OrderedTo(b, f0, heads0, h) && RanksNext(b, e, h) && h <= |b|
    requires Refined(b, f0, heads0, f, heads, e, h, |b|)
    requires forall t :: 0 <= t < |b| ==> heads0[t]
    ensures SortsRotations(b, f)
  {
    PassDoubles(b, f0, heads0, f, heads, e, h);
    forall i, j | 0 <= i < j < |b|
      ensures !LessTo(b, f[j], f[i], |b|)
    {
      HeadsStay(b, f0, heads0, f, heads, e, h, j);
      ClassLess(b, f, heads, 2 * h, i, j);
      StrictAnyDepth(b, f[i], f[j], 2 * h);
    }
  }

  lemma HeadsStay(b: Block, f0: seq<nat>, heads0: seq<bool>, f: seq<nat>, heads: seq<bool>, e: seq<nat>, h: nat, i: int)
    requires Refined(b, f0, heads0, f, heads, e, h, |b|) && 0 < i < |b|
    ensures heads0[i] ==> heads[i]
  {
    assert f[i - 1] < |b| && f[i] < |b|;
    assert heads[i] == (heads0[i] || e[f[i - 1]] != e[f[i]]);
  }

  /** A strict verdict at some depth is a strict verdict at a full turn. */
  lemma StrictAnyDepth(b: Block, i: nat, j: nat, h: nat)
    requires i < |b| && j < |b| && LessTo(b, i, j, h)
    ensures !LessTo(b, j, i, |b|)
  {
    if h <= |b| {
      LessToGrows(b, i, j, h, |b|);
    } else {
      FullTurnDecides(b, i, j, h);
    }
    Trichotomy(b, i, j, |b|);
  }

  /** What the reconstruction loop has left of each count before row i. */
  function Remaining(b: seq<Byte>, v: nat, i: nat): (r: int) {
    var first, next := Smaller(b, v, |b|), Smaller(b, v + 1, |b|);
    if i <= first then next - first else if i < next then next - i else 0
  }

  /** Rebuilding the block, which the classes in eclass have overwritten. */
  method Reconstruct(ftabCopy: array<nat>, fmap: array<nat>, eclass8: array<Byte>, ghost b: Block)
    requires ftabCopy != fmap && ftabCopy.Length == 256 && fmap.Length == eclass8.Length == |b|
    requires forall v :: 0 <= v < 256 ==> ftabCopy[v] == Occurrences(b, v, |b|)
    requires Bucketed(b, fmap[..])
    modifies ftabCopy, eclass8
    ensures eclass8[..] == b
  {
    ghost var f := fmap[..];
    RemainingStart(b);
    hide Smaller, Remaining;
    var j := 0;
    var n := fmap.Length;
    for i := 0 to n
      invariant fmap[..] == f && 0 <= j < 256
      invariant i < n ==> j <= b[f[i]]
      invariant forall v :: 0 <= v < 256 ==> ftabCopy[v] == Remaining(b, v, i)
      invariant forall k :: 0 <= k < i ==> eclass8[f[k]] == b[f[k]]
    {
      RemainingRow(b, f, i);
      ghost var row := f[i];
      assert fmap[i] == row;
      while ftabCopy[j] == 0
        invariant 0 <= j <= b[row]
        decreases b[row] - j
      {
        j := j + 1;
      }
      assert j == b[row];
      ftabCopy[j] := ftabCopy[j] - 1;
      eclass8[fmap[i]] := j;
      assert j < 256;
    }
    forall k | 0 <= k < n
      ensures eclass8[k] == b[k]
    {
      PermutationReaches(f, n, k);
      var i :| 0 <= i < n && f[i] == k;
    }
  }

  lemma RemainingStart(b: seq<Byte>)
    ensures forall v: nat :: Remaining(b, v, 0) == Occurrences(b, v, |b|)
  {
    forall v: nat
      ensures Remaining(b, v, 0) == Occurrences(b, v, |b|)
    {
      SmallerNext(b, v, |b|);
    }
  }

  lemma RemainingRow(b: Block, f: seq<nat>, i: nat)
    requires Bucketed(b, f) && i < |b|
    ensures f[i] < |b| && Remaining(b, b[f[i]], i) > 0
    ensures forall v: nat :: v < b[f[i]] ==> Remaining(b, v, i) == 0
    ensures forall v: nat :: Remaining(b, v, i + 1) == Remaining(b, v, i) - if v == b[f[i]] then 1 else 0
    ensures i + 1 < |b| ==> b[f[i]] <= b[f[i + 1]]
  {
    hide Smaller;
    var c := b[f[i]];
    forall v: nat
      ensures v < c ==> Remaining(b, v, i) == 0
      ensures Remaining(b, v, i + 1) == Remaining(b, v, i) - if v == c then 1 else 0
    {
      SmallerMonotone(b, v, v + 1, |b|);
      if v < c {
        SmallerMonotone(b, v + 1, c, |b|);
      } else if v > c {
        SmallerMonotone(b, c as int + 1, v, |b|);
      }
    }
    BucketedSorted(b, f);
    assert i + 1 < |b| ==> !LessTo(b, f[i + 1], f[i], 1);
  }

  /** The classes overlay the block in memory: its bytes are lost meanwhile. */
  method Overwrite(eclass8: array<Byte>)
    modifies eclass8
  {
    for i := 0 to eclass8.Length {
      eclass8[i] := *;
    }
  }

  /**
    fallbackSort: on return fmap holds the sorted order of the rotations of the block
    that eclass8 held on entry, and eclass8 holds that block again.
   */
  method FallbackSort(fmap: array<nat>, eclass: array<nat>, eclass8: array<Byte>, bhtab: array<bool>)
    requires fmap != eclass
    requires 0 < fmap.Length == eclass.Length == eclass8.Length <= MAX_BLOCK
    requires bhtab.Length >= TableBits(fmap.Length) && bhtab.Length % 32 == 0
    modifies fmap, eclass, eclass8, bhtab
    ensures eclass8[..] == old(eclass8[..])
    ensures SortsRotations(eclass8[..], fmap[..])
  {
    hide *;
    ghost var b: Block := eclass8[..];
    var nblock := fmap.Length;
    var ftab, ftabCopy := CountBytes(eclass8);
    FillBuckets(eclass8, fmap, ftab);
    ghost var g := fmap[..];
    SetHeaders(bhtab, ftab, nblock, b, g);
    Overwrite(eclass8);
    Refine(fmap, eclass, bhtab, nblock, b);
    SortedIsBucketed(b, fmap[..], g);
    Reconstruct(ftabCopy, fmap, eclass8, b);
  }
}
