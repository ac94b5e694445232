/** mainSort: big buckets one after the other, each by quicksort, by scanning, or both. */
module MainSort {

  import opened Permutations
  import opened Rotations
  import opened BurrowsWheeler
  import opened QuickSort
  import opened MainCompare
  import opened MainRadixSort
  import opened MainBucketOrder
  import opened MainBucketScan
  import opened MainBucketCopy
  import opened MainScanResult
  import opened MainRunningOrder
  import opened MainSmallBuckets
  import opened MainQuadrants

  // ----- The flags of big buckets -----

  /** The first i buckets in the running order are done, and all of their small buckets are flagged. */
  ghost predicate BigOk(big: seq<bool>, ftab: seq<nat>, order: seq<nat>, i: int) {
    && |big| == 256 && |ftab| == 65537 && IsPermutation(order, 256)
    && (forall k :: 0 <= k < 256 ==> (big[order[k]] <==> k < i))
    && (forall s, u :: 0 <= s < 256 && big[s] && 256 * s <= u < 256 * (s + 1) ==> IsSet(ftab[u]))
  }

  lemma BigStart(big: seq<bool>, ftab: seq<nat>, order: seq<nat>)
    requires |big| == 256 && |ftab| == 65537 && IsPermutation(order, 256) && forall s :: 0 <= s < 256 ==> !big[s]
    ensures BigOk(big, ftab, order, 0)
  {
  }

  lemma BigNext(big: seq<bool>, ftab: seq<nat>, ftab': seq<nat>, order: seq<nat>, i: int, ss: Byte)
    requires BigOk(big, ftab, order, i) && 0 <= i < 256 && ss == order[i] && FlagsKept(ftab, ftab')
    requires |ftab'| == 65537 && RowFlagged(ftab', ss, 256) && IsSet(ftab'[Word(ss, ss)])
    ensures BigOk(big[ss := true], ftab', order, i + 1)
  {
    hide IsSet;
  }

  lemma BigParts(big: seq<bool>, ftab: seq<nat>, order: seq<nat>, i: int)
    requires BigOk(big, ftab, order, i) && 0 <= i < 256
    ensures |big| == 256 && |ftab| == 65537 && |order| == 256 && 0 <= order[i] < 256 && !big[order[i]]
  {
  }

  lemma RowKept(f: seq<nat>, g: seq<nat>, ss: Byte, j: int)
    requires |f| == |g| == 65537 && FlagsKept(f, g) && RowFlagged(f, ss, j)
    ensures RowFlagged(g, ss, j)
  {
    hide IsSet;
  }

  /** With its flags, the row of ss is ready to be scanned. */
  lemma FlaggedReady(p: seq<nat>, ftab: seq<nat>, b: Block, ss: Byte)
    requires Progress(p, ftab, b) && |ftab| == 65537 && |p| == |b| && RowFlagged(ftab, ss, 256)
    ensures RowReady(p, b, ss)
    ensures IsSet(ftab[Word(ss, ss)]) ==> RowOrdered(p, b, ss)
  {
    hide Progress, IsSet, BucketOrdered;
    forall u | 256 * (ss as int) <= u < 256 * (ss as int + 1) && IsSet(ftab[u])
      ensures BucketOrdered(p, b, u)
    {
      ProgressAt(p, ftab, b, u);
    }
  }

  // ----- Step 2 as a whole -----

  /** A bucket that is no target stays in order. */
  lemma ElsewhereOrdered(p: seq<nat>, p0: seq<nat>, b: Block, big: seq<bool>, v: Byte, u: int)
    requires Layout(p0, Words(b)) && Layout(p, Words(b)) && |p| == |p0| == |b| && |big| == 256
    requires Elsewhere(p, p0, Words(b), big, v) && !Target(big, v, u) && BucketOrdered(p0, b, u)
    ensures BucketOrdered(p, b, u)
  {
    hide Smaller, Orders, Words, Target;
    var w := Words(b);
    LayoutIndexes(p, b);
    forall k | Row(w, u) <= k < Row(w, u + 1) && k < |p|
      ensures p[k] == p0[k]
    {
      OneBucket(w, k, u, Owner(p0, w, k));
    }
  }

  lemma TargetAt(big: seq<bool>, v: Byte, u: int) returns (t: int)
    requires |big| == 256 && Target(big, v, u)
    ensures 0 <= t < 256 && !big[t] && u == Word(t, v)
  {
    t :| 0 <= t < 256 && !big[t] && u == Word(t, v);
  }

  /** What was in order before the scans still is. */
  lemma AfterScan(p: seq<nat>, p0: seq<nat>, ftab: seq<nat>, b: Block, big: seq<bool>, v: Byte)
    requires Progress(p0, ftab, b) && Layout(p0, Words(b)) && Layout(p, Words(b)) && |p| == |p0| == |b| && |big| == 256
    requires Elsewhere(p, p0, Words(b), big, v)
    requires forall t :: 0 <= t < 256 && !big[t] ==> BucketOrdered(p, b, Word(t, v))
    ensures Progress(p, ftab, b)
  {
    hide Row, Orders, Words, Target, BucketOrdered, Elsewhere, Layout, IsSet, Table;
    ProgressParts(p0, ftab, b);
    forall u | 0 <= u < WORDS && IsSet(ftab[u])
      ensures BucketOrdered(p, b, u)
    {
      assert BucketOrdered(p0, b, u);
      if Target(big, v, u) {
        var t := TargetAt(big, v, u);
      } else {
        ElsewhereOrdered(p, p0, b, big, v, u);
      }
    }
  }

  /** The whole column of ss is in order. */
  lemma ColumnOrdered(p: seq<nat>, ftab: seq<nat>, b: Block, big: seq<bool>, order: seq<nat>, i: int, v: Byte)
    requires Progress(p, ftab, b) && |p| == |b| && BigOk(big, ftab, order, i)
    requires forall t :: 0 <= t < 256 && !big[t] ==> BucketOrdered(p, b, Word(t, v))
    ensures forall t :: 0 <= t < 256 ==> BucketOrdered(p, b, Word(t, v))
  {
    hide BucketOrdered, Progress, IsSet;
    forall t | 0 <= t < 256
      ensures BucketOrdered(p, b, Word(t, v))
    {
      if big[t] {
        assert 256 * t <= Word(t, v) < 256 * (t + 1);
        ProgressAt(p, ftab, b, Word(t, v));
      }
    }
  }

  /** All [j, ss] get their flags. */
  method FlagColumn(ftab: array<nat>, ss: Byte, ghost p: seq<nat>, ghost b: Block)
    requires Progress(p, ftab[..], b) && |p| == |b| && ftab.Length == 65537
    requires forall t :: 0 <= t < 256 ==> BucketOrdered(p, b, Word(t, ss))
    modifies ftab
    ensures Progress(p, ftab[..], b) && FlagsKept(old(ftab[..]), ftab[..]) && IsSet(ftab[..][Word(ss, ss)])
  {
    hide Progress, IsSet, BucketOrdered, SetFlag;
    ghost var f0 := ftab[..];
    for j := 0 to 256
      invariant Progress(p, ftab[..], b) && FlagsKept(f0, ftab[..])
      invariant forall t :: 0 <= t < j ==> IsSet(ftab[Word(t, ss)])
    {
      ghost var f := ftab[..];
      FlagBucket(p, f, b, Word(j, ss));
      FlagFacts(f[Word(j, ss)]);
      ftab[256 * j + ss as int] := SetFlag(ftab[256 * j + ss as int]);
      assert ftab[..] == f[Word(j, ss) := SetFlag(f[Word(j, ss)])];
      FlagMore(f0, f, Word(j, ss));
    }
  }

  lemma FlagMore(f: seq<nat>, g: seq<nat>, u: int)
    requires |f| == |g| == 65537 && FlagsKept(f, g) && 0 <= u < 65537
    ensures FlagsKept(f, g[u := SetFlag(g[u])])
  {
    hide IsSet, SetFlag;
    FlagFacts(g[u]);
  }

  // ----- Start and end -----

  /** The table as the radix sort leaves it. */
  lemma PlainTableOf(ftab: seq<nat>, b: Block)
    requires |ftab| == WORDS + 1 && (forall v :: 0 <= v < WORDS ==> ftab[v] == Row(Words(b), v)) && ftab[WORDS] == |b|
    ensures PlainTable(ftab, Words(b))
  {
    hide Smaller;
    RowEnds(Words(b), |b|);
  }

  /** At the beginning no bucket has a flag. */
  lemma ProgressStart(p: seq<nat>, ftab: seq<nat>, b: Block)
    requires PlainTable(ftab, Words(b)) && Layout(p, Words(b)) && |b| <= MAX_BLOCK
    ensures Progress(p, ftab, b)
  {
    hide Smaller, Words, IsSet, Clear, BucketOrdered;
    forall u | 0 <= u <= WORDS
      ensures Clear(ftab[u]) == Row(Words(b), u) && !IsSet(ftab[u])
    {
      FlagFacts(ftab[u]);
    }
  }

  /** When all big buckets are done, the positions are in the order of their rotations. */
  lemma AllDone(p: seq<nat>, ftab: seq<nat>, b: Block, big: seq<bool>, order: seq<nat>)
    requires Progress(p, ftab, b) && |p| == |b| && BigOk(big, ftab, order, 256)
    ensures SortsRotations(b, p)
  {
    hide Row, Orders, Words, BucketOrdered, IsSet, Table;
    forall u | 0 <= u < 65536
      ensures BucketOrdered(p, b, u)
    {
      BigByte(big, ftab, order, u);
    }
    RangeOrdered(p, b, 0, 65536);
    RowsAll(b);
    forall i, j | 0 <= i < j < |p|
      ensures !LessTo(b, p[j], p[i], |b|)
    {
      OrdersDecide(b, p[j], p[i]);
    }
  }

  lemma RowsAll(b: Block)
    ensures Row(Words(b), 0) == 0 && Row(Words(b), 65536) == |b| == |Words(b)|
  {
    RowEnds(Words(b), |b|);
  }

  lemma BigByte(big: seq<bool>, ftab: seq<nat>, order: seq<nat>, u: int)
    requires BigOk(big, ftab, order, 256) && 0 <= u < 65536
    ensures IsSet(ftab[u])
  {
    hide IsSet;
    var s := u / 256;
    PermutationReaches(order, 256, s);
    var k :| 0 <= k < 256 && order[k] == s;
    assert big[s] && 256 * s <= u < 256 * (s + 1);
  }

  // ----- mainSort -----

  /** One big bucket: Steps 1 to 3. */
  method SortBigBucket(ptr: array<nat>, block: array<Byte>, quadrant: array<nat>, ftab: array<nat>,
                       bigDone: array<bool>,
                       copyStart: array<int>, copyEnd: array<int>, runningOrder: array<nat>, i: nat, nblock: nat,
                       budget0: int, ghost b: Block) returns (budget: int)
    requires Extended(block[..], quadrant[..], b) && nblock == |b| == ptr.Length <= MAX_BLOCK && budget0 >= 0 && i < 256
    requires ptr != quadrant && ptr != ftab && ftab != quadrant && runningOrder !in {ptr, ftab, quadrant}
    requires copyStart != copyEnd && bigDone.Length == copyStart.Length == copyEnd.Length == 256
    requires Progress(ptr[..], ftab[..], b) && BigOk(bigDone[..], ftab[..], runningOrder[..], i)
    modifies ptr, quadrant, ftab, bigDone, copyStart, copyEnd
    ensures budget <= budget0 && (Varied(b) ==> budget == budget0) && runningOrder[..] == old(runningOrder[..])
    ensures budget >= 0 ==> Progress(ptr[..], ftab[..], b) && BigOk(bigDone[..], ftab[..], runningOrder[..], i + 1)
    ensures budget >= 0 ==> Extended(block[..], quadrant[..], b)
  {
    hide *;
    ghost var big, f0, order := bigDone[..], ftab[..], runningOrder[..];
    BigParts(big, f0, order, i);
    assert runningOrder[i] == order[i];
    var ss: Byte := runningOrder[i];
    ProgressParts(ptr[..], f0, b);
    ExtendedBlock(block[..], quadrant[..], b);

    // Step 1
    budget := SortRow(ptr, block, quadrant, ftab, nblock, ss, budget0, b);
    if budget < 0 {
      return;
    }
    assert !bigDone[ss];

    // Step 2
    ghost var p1, f1 := ptr[..], ftab[..];
    ProgressParts(p1, f1, b);
    FlaggedReady(p1, f1, b, ss);
    ScanBucket(ptr, block, ftab, bigDone, copyStart, copyEnd, nblock, ss, b);
    assert copyStart[ss] - 1 == copyEnd[ss] || (copyStart[ss] == 0 && copyEnd[ss] == nblock - 1);
    AfterScan(ptr[..], p1, f1, b, big, ss);
    BigKept(big, f0, f1, order, i);
    ColumnOrdered(ptr[..], f1, b, big, order, i, ss);
    FlagColumn(ftab, ss, ptr[..], b);
    ghost var f2 := ftab[..];
    ProgressParts(ptr[..], f2, b);
    RowKept(f1, f2, ss, 256);
    BigNext(big, f1, f2, order, i, ss);

    // Step 3
    bigDone[ss] := true;
    assert bigDone[..] == big[ss := true];
    if i < 255 {
      FlaggedReady(ptr[..], f2, b, ss);
      UpdateQuadrants(ptr, quadrant, ftab, nblock, ss, b, block[..]);
    }
  }

  lemma ExtendedBlock(block: seq<Byte>, quadrant: seq<nat>, b: Block)
    requires Extended(block, quadrant, b)
    ensures |b| <= |block| && block[..|b|] == b
  {
  }

  lemma BigKept(big: seq<bool>, f: seq<nat>, g: seq<nat>, order: seq<nat>, i: int)
    requires BigOk(big, f, order, i) && |g| == 65537 && FlagsKept(f, g)
    ensures BigOk(big, g, order, i)
  {
    hide IsSet;
  }

  /**
    mainSort, on a block with room for its overshoot area.  When the budget lasts, ptr
    lists the rotations in order, and it always lasts unless two rotations begin with the
    same 20 bytes; the block itself is unchanged in any case.
   */
  method Sort(ptr: array<nat>, block: array<Byte>, quadrant: array<nat>, ftab: array<nat>, nblock: nat, budget0: int)
    returns (budget: int)
    requires N_OVERSHOOT < nblock == ptr.Length <= MAX_BLOCK && block.Length == quadrant.Length == nblock + N_OVERSHOOT
    requires ftab.Length == WORDS + 1 && ptr != quadrant && ptr != ftab && ftab != quadrant && budget0 >= 0
    modifies ptr, block, quadrant, ftab
    ensures block[..nblock] == old(block[..nblock]) && budget <= budget0
    ensures Varied(block[..nblock]) ==> budget == budget0
    ensures budget >= 0 ==> SortsRotations(block[..nblock], ptr[..])
  {
    hide *;
    ghost var b: Block := block[..nblock];
    Sizes65536();
    CountWords(block, quadrant, ftab, nblock, b);
    FillOvershoot(block, quadrant, nblock, b);
    WordsRange(b);
    CumulateWords(ftab, Words(b));
    PlacePositions(ptr, block, ftab, nblock, b);
    PlainTableOf(ftab[..], b);
    ProgressStart(ptr[..], ftab[..], b);
    var runningOrder := new nat[256];
    var bigDone := new bool[256](_ => false);
    var copyStart, copyEnd := new int[256], new int[256];
    FindRunningOrder(runningOrder, ftab, Words(b));
    BigStart(bigDone[..], ftab[..], runningOrder[..]);
    budget := budget0;
    for i := 0 to 256
      invariant 0 <= budget <= budget0 && (Varied(b) ==> budget == budget0) && block[..nblock] == b
      invariant Extended(block[..], quadrant[..], b) && Progress(ptr[..], ftab[..], b)
      invariant BigOk(bigDone[..], ftab[..], runningOrder[..], i)
    {
      budget := SortBigBucket(ptr, block, quadrant, ftab, bigDone, copyStart, copyEnd, runningOrder, i, nblock, budget,
                              b);
      if budget < 0 {
        return;
      }
    }
    AllDone(ptr[..], ftab[..], b, bigDone[..], runningOrder[..]);
  }

  lemma Sizes65536()
    ensures WORDS == 65536 && N_OVERSHOOT == 34
  {
  }
}
