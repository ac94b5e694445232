/** Step 1 of mainSort, and what is known of the buckets at all times. */
module MainSmallBuckets {

  import opened Permutations
  import opened Rotations
  import opened BurrowsWheeler
  import opened QuickSort
  import opened MainCompare
  import opened MainShellSort
  import opened MainQuickSort
  import opened MainRadixSort
  import opened MainBucketOrder
  import opened MainBucketCopy
  import opened MainScanResult

  /** Every row is in its bucket, and the buckets with a flag are in order. */
  ghost predicate Progress(p: seq<nat>, ftab: seq<nat>, b: Block) {
    && Table(ftab, Words(b)) && Layout(p, Words(b))
    && forall u :: 0 <= u < WORDS && IsSet(ftab[u]) ==> BucketOrdered(p, b, u)
  }

  lemma ProgressParts(p: seq<nat>, ftab: seq<nat>, b: Block)
    requires Progress(p, ftab, b)
    ensures Table(ftab, Words(b)) && Layout(p, Words(b)) && |p| == |b| == |Words(b)| && |ftab| == 65537
      && WORDS == 65536
  {
    hide Row, BucketOrdered;
  }

  lemma ProgressAt(p: seq<nat>, ftab: seq<nat>, b: Block, u: int)
    requires Progress(p, ftab, b) && 0 <= u < 65536 && IsSet(ftab[u])
    ensures BucketOrdered(p, b, u)
  {
    hide Row, BucketOrdered;
  }

  /** The flag of a bucket in order may be set. */
  lemma FlagBucket(p: seq<nat>, ftab: seq<nat>, b: Block, u: int)
    requires Progress(p, ftab, b) && 0 <= u < 65536 && BucketOrdered(p, b, u)
    ensures Progress(p, ftab[u := SetFlag(ftab[u])], b) && IsSet(SetFlag(ftab[u]))
  {
    hide Row, BucketOrdered, IsSet, SetFlag, Clear, Layout;
    FlagFacts(ftab[u]);
  }

  // ----- One small bucket -----

  /** The rotations of one bucket agree on two bytes. */
  lemma BucketUniform(p: seq<nat>, b: Block, u: int)
    requires Layout(p, Words(b)) && 0 <= u < WORDS
    ensures Uniform(p, b, Range(Row(Words(b), u), Row(Words(b), u + 1) - 1), 2)
  {
    hide Smaller, Words;
    var w := Words(b);
    RowsGrow(w, u, u + 1);
    RowsGrow(w, u + 1, u + 1);
    forall k, m | Row(w, u) <= k < Row(w, u + 1) && Row(w, u) <= m < Row(w, u + 1)
      ensures p[k] < |b| && EqualTo(b, p[k], p[m], 2)
    {
      OneBucket(w, k, u, Owner(p, w, k));
      OneBucket(w, m, u, Owner(p, w, m));
      SameWord(b, p[k], p[m]);
    }
  }

  lemma SameWord(b: Block, x: nat, y: nat)
    requires x < |b| && y < |b| && Words(b)[x] == Words(b)[y]
    ensures EqualTo(b, x, y, 2)
  {
    assert b[x] == b[y] && b[Next(x, |b|)] == b[Next(y, |b|)];
    assert EqualTo(b, Next(Next(x, |b|), |b|), Next(Next(y, |b|), |b|), 0);
    assert EqualTo(b, Next(x, |b|), Next(y, |b|), 1);
  }

  lemma LayoutIndexes(p: seq<nat>, b: Block)
    requires Layout(p, Words(b))
    ensures |p| == |b| == |Orders(b)| && Indexes(p, Orders(b)) && Positions(p, |b|)
  {
    hide Row, Orders;
  }

  /** Rearranging a bucket keeps the layout. */
  lemma LayoutShuffled(p: seq<nat>, p': seq<nat>, w: seq<int>, u: int)
    requires Layout(p, w) && Shuffled(p, p', Row(w, u), Row(w, u + 1))
    ensures Layout(p', w)
  {
    hide Row;
    PermutationRearranged(p, p', |w|);
    forall k | 0 <= k < |w|
      ensures p'[k] < |w| && Row(w, w[p'[k]]) <= k < Row(w, w[p'[k]] + 1)
    {
      if Row(w, u) <= k < Row(w, u + 1) {
        var j := ShuffledMember(p, p', Row(w, u), Row(w, u + 1), k);
        OneBucket(w, j, u, Owner(p, w, j));
      }
    }
  }

  /** Rearranging a bucket leaves the others in order. */
  lemma OthersOrdered(p: seq<nat>, p': seq<nat>, b: Block, u: int, v: int)
    requires Layout(p, Words(b)) && Layout(p', Words(b)) && Shuffled(p, p', Row(Words(b), u), Row(Words(b), u + 1))
    requires u != v && |p| == |b| && BucketOrdered(p, b, v)
    ensures |p'| == |b| && BucketOrdered(p', b, v)
  {
    hide Smaller, Orders, Words;
    var w := Words(b);
    LayoutIndexes(p', b);
    forall i, j | Row(w, v) <= i < j < Row(w, v + 1) && j < |p'|
      ensures Orders(b)[p'[i]] <= Orders(b)[p'[j]]
    {
      if Row(w, u) <= i < Row(w, u + 1) {
        OneBucket(w, i, u, v);
      }
      if Row(w, u) <= j < Row(w, u + 1) {
        OneBucket(w, j, u, v);
      }
    }
  }

  lemma SortedBucket(p: seq<nat>, b: Block, u: int, lo: int, hi: int)
    requires Layout(p, Words(b)) && |p| == |b| && Indexes(p, Orders(b)) && 0 <= lo && hi <= |p|
    requires lo == Row(Words(b), u) && hi == Row(Words(b), u + 1) && SortedBy(p, Orders(b), lo, hi)
    ensures BucketOrdered(p, b, u)
  {
    hide Row, Orders;
    LayoutIndexes(p, b);
  }

  lemma ShortBucket(p: seq<nat>, b: Block, u: int)
    requires Layout(p, Words(b)) && |p| == |b| && Row(Words(b), u + 1) <= Row(Words(b), u) + 1
    ensures BucketOrdered(p, b, u)
  {
    hide Row, Orders;
    LayoutIndexes(p, b);
  }

  /** After the quicksort of bucket u. */
  lemma BucketSorted(p: seq<nat>, p': seq<nat>, ftab: seq<nat>, b: Block, u: int)
    requires Progress(p, ftab, b) && |ftab| == 65537 && 0 <= u < 65536 && !IsSet(ftab[u])
    requires Shuffled(p, p', Row(Words(b), u), Row(Words(b), u + 1))
    requires Indexes(p', Orders(b)) && SortedBy(p', Orders(b), Row(Words(b), u), Row(Words(b), u + 1))
    ensures Progress(p', ftab, b) && |p'| == |b| && BucketOrdered(p', b, u)
  {
    hide Row, Orders, BucketOrdered, Layout, IsSet, Table, SortedBy, Indexes;
    ProgressParts(p, ftab, b);
    LayoutShuffled(p, p', Words(b), u);
    LayoutIndexes(p', b);
    SortedBucket(p', b, u, Row(Words(b), u), Row(Words(b), u + 1));
    forall v | 0 <= v < 65536 && IsSet(ftab[v])
      ensures BucketOrdered(p', b, v)
    {
      ProgressAt(p, ftab, b, v);
      OthersOrdered(p, p', b, u, v);
    }
  }

  // ----- Step 1 -----

  /** The small buckets [ss, k] with k below j, but not [ss, ss], have their flags. */
  ghost predicate RowFlagged(ftab: seq<nat>, ss: Byte, j: int)
    requires |ftab| == 65537
  {
    forall u :: 256 * (ss as int) <= u < 256 * (ss as int) + j && u < 65536 && u != Word(ss, ss) ==> IsSet(ftab[u])
  }

  /** Flags are never taken away. */
  ghost predicate FlagsKept(f: seq<nat>, f': seq<nat>) {
    |f| == |f'| && forall u :: 0 <= u < |f| && IsSet(f[u]) ==> IsSet(f'[u])
  }

  lemma FlagsMore(f: seq<nat>, g: seq<nat>, ss: Byte, j: int, u: int)
    requires |f| == |g| == 65537 && FlagsKept(f, g) && RowFlagged(g, ss, j) && 0 <= j < 256
      && u == 256 * (ss as int) + j
    ensures FlagsKept(f, g[u := SetFlag(g[u])]) && RowFlagged(g[u := SetFlag(g[u])], ss, j + 1)
  {
    hide IsSet, SetFlag;
    FlagFacts(g[u]);
  }

  lemma RowSkips(f: seq<nat>, ss: Byte)
    requires |f| == 65537 && RowFlagged(f, ss, ss as int)
    ensures RowFlagged(f, ss, ss as int + 1)
  {
  }

  lemma LayoutOnce(p: seq<nat>, w: seq<int>)
    requires Layout(p, w)
    ensures OnceEach(p)
  {
    DistinctOnce(p);
  }

  /** One small bucket of Step 1. */
  method SortSmallBucket(ptr: array<nat>, block: array<Byte>, quadrant: array<nat>, ftab: array<nat>, nblock: nat,
                         sb: nat,
                         budget0: int, ghost b: Block) returns (budget: int)
    requires Extended(block[..], quadrant[..], b) && nblock == |b| == ptr.Length <= MAX_BLOCK
    requires ptr != quadrant && ptr != ftab && sb < 65536 && budget0 >= 0 && Progress(ptr[..], ftab[..], b)
    modifies ptr
    ensures budget <= budget0 && (Varied(b) ==> budget == budget0)
    ensures budget >= 0 ==> Progress(ptr[..], ftab[..], b) && BucketOrdered(ptr[..], b, sb)
  {
    hide *;
    ghost var p, f, w := ptr[..], ftab[..], Words(b);
    budget := budget0;
    ProgressParts(p, f, b);
    if IsSet(ftab[sb]) {
      ProgressAt(p, f, b, sb);
    } else {
      TableAt(f, w, sb);
      TableAt(f, w, sb + 1);
      LayoutIndexes(p, b);
      RowsGrow(w, sb, sb + 1);
      RowsGrow(w, sb + 1, sb + 1);
      var lo := Clear(ftab[sb]);
      var hi := Clear(ftab[sb + 1]) as int - 1;
      if hi > lo {
        BucketUniform(p, b, sb);
        LayoutOnce(p, Words(b));
        budget := MainQSort3(ptr, block, quadrant, nblock, lo, hi, 2, budget, b);
        if budget >= 0 {
          BucketSorted(p, ptr[..], f, b, sb);
        }
      } else {
        ShortBucket(p, b, sb);
      }
    }
  }

  /** Step 1: "Complete the big bucket [ss] by quicksorting any unsorted small buckets [ss, j], for j != ss." */
  method SortRow(ptr: array<nat>, block: array<Byte>, quadrant: array<nat>, ftab: array<nat>, nblock: nat, ss: Byte,
                 budget0: int, ghost b: Block) returns (budget: int)
    requires Extended(block[..], quadrant[..], b) && nblock == |b| == ptr.Length <= MAX_BLOCK
    requires ptr != quadrant && ptr != ftab && ftab != quadrant && budget0 >= 0 && Progress(ptr[..], ftab[..], b)
    modifies ptr, ftab
    ensures budget <= budget0 && (Varied(b) ==> budget == budget0)
    ensures budget >= 0 ==>
      Progress(ptr[..], ftab[..], b) && RowFlagged(ftab[..], ss, 256) && FlagsKept(old(ftab[..]), ftab[..])
  {
    hide *;
    ghost var f0 := ftab[..];
    budget := budget0;
    ProgressParts(ptr[..], ftab[..], b);
    FlagsStart(f0, ss);
    for j := 0 to 256
      invariant budget0 >= budget >= 0 && (Varied(b) ==> budget == budget0) && Progress(ptr[..], ftab[..], b)
        && |ftab[..]| == 65537
      invariant RowFlagged(ftab[..], ss, j) && FlagsKept(f0, ftab[..])
    {
      if j != ss as int {
        var sb := 256 * (ss as int) + j;
        budget := SortSmallBucket(ptr, block, quadrant, ftab, nblock, sb, budget, b);
        if budget < 0 {
          return;
        }
        ghost var f := ftab[..];
        FlagBucket(ptr[..], f, b, sb);
        FlagsMore(f0, f, ss, j, sb);
        ftab[sb] := SetFlag(ftab[sb]);
        assert ftab[..] == f[sb := SetFlag(f[sb])];
      } else {
        RowSkips(ftab[..], ss);
      }
    }
  }

  lemma FlagsStart(f: seq<nat>, ss: Byte)
    requires |f| == 65537
    ensures RowFlagged(f, ss, 0) && FlagsKept(f, f)
  {
  }
}
