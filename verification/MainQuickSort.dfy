/** mainQSort3: three-way quicksort of rotations by the byte at a depth, with an explicit stack. */
module MainQuickSort {

  import opened Rotations
  import opened Bits
  import opened QuickSort
  import opened MainCompare
  import opened MainShellSort

  const SMALL_THRESH: int := 20
  const DEPTH_THRESH: nat := 14
  const STACK_SIZE: nat := 100

  // ----- Keys at a depth -----

  /** The bytes that the partitioning at depth d looks at. */
  function Keys(block: seq<Byte>, n: nat, d: nat): (e: seq<nat>)
    requires n + d <= |block|
    ensures |e| == n
  {
    seq(n, x requires 0 <= x < n => block[x + d])
  }

  lemma KeyIsByte(block: seq<Byte>, quadrant: seq<nat>, b: Block, x: nat, d: nat)
    requires Extended(block, quadrant, b) && x < |b| && d <= 15
    ensures |b| + d <= |block| && Keys(block, |b|, d)[x] == b[Shift(x, d, |b|)]
  {
    StandsAt(x, d, |b|);
    StandsValue(block, |b|, x + d, Shift(x, d, |b|));
  }

  // ----- The partitioning pass, reading block[ptr[x] + d] -----

  method MainScanUp(ptr: array<nat>, block: array<Byte>, n: nat, d: nat, lo: int, hi: int, med: nat, z0: Zones,
                    ghost a: seq<nat>)
    returns (z: Zones)
    requires n + d <= block.Length && Pass(a, ptr[..], Keys(block[..], n, d), lo, hi, med, z0)
    modifies ptr
    ensures Pass(a, ptr[..], Keys(block[..], n, d), lo, hi, med, z) && z.unHi == z0.unHi && z.unLo >= z0.unLo
    ensures z.unLo <= z.unHi ==> 0 <= z.unLo < ptr.Length && ptr[z.unLo] < n && block[ptr[z.unLo] + d] > med
  {
    hide *;
    ghost var e := Keys(block[..], n, d);
    z := z0;
    while true
      invariant Pass(a, ptr[..], e, lo, hi, med, z) && z.unHi == z0.unHi && z.unLo >= z0.unLo
      decreases z.unHi - z.unLo + 1
    {
      ghost var b := ptr[..];
      PassBounds(a, b, e, lo, hi, med, z);
      if z.unLo > z.unHi {
        break;
      }
      PassUp(a, b, e, lo, hi, med, z);
      KeyAt(block[..], n, d, ptr[z.unLo]);
      var k: int := block[ptr[z.unLo] + d] - med;
      if k == 0 {
        ptr[z.unLo], ptr[z.ltLo] := ptr[z.ltLo], ptr[z.unLo];
        assert ptr[..] == b[z.unLo := b[z.ltLo]][z.ltLo := b[z.unLo]];
        z := z.(ltLo := z.ltLo + 1, unLo := z.unLo + 1);
        continue;
      }
      if k > 0 {
        break;
      }
      z := z.(unLo := z.unLo + 1);
    }
  }

  lemma KeyAt(block: seq<Byte>, n: nat, d: nat, x: nat)
    requires n + d <= |block| && x < n
    ensures Keys(block, n, d)[x] == block[x + d]
  {
  }

  method MainScanDown(ptr: array<nat>, block: array<Byte>, n: nat, d: nat, lo: int, hi: int, med: nat, z0: Zones,
                      ghost a: seq<nat>)
    returns (z: Zones)
    requires n + d <= block.Length && Pass(a, ptr[..], Keys(block[..], n, d), lo, hi, med, z0)
    requires z0.unLo <= z0.unHi ==> 0 <= z0.unLo < ptr.Length && ptr[z0.unLo] < n && block[ptr[z0.unLo] + d] > med
    modifies ptr
    ensures Pass(a, ptr[..], Keys(block[..], n, d), lo, hi, med, z) && z.unLo == z0.unLo && z.unHi <= z0.unHi
    ensures z.unLo <= z.unHi ==>
      && 0 <= z.unLo < ptr.Length && ptr[z.unLo] < n && block[ptr[z.unLo] + d] > med
      && z.unHi < ptr.Length && ptr[z.unHi] < n && block[ptr[z.unHi] + d] < med
  {
    hide *;
    ghost var e := Keys(block[..], n, d);
    z := z0;
    while true
      invariant Pass(a, ptr[..], e, lo, hi, med, z) && z.unLo == z0.unLo && z.unHi <= z0.unHi
      invariant z.unLo <= z.unHi ==> 0 <= z.unLo < ptr.Length && ptr[z.unLo] < n && block[ptr[z.unLo] + d] > med
      decreases z.unHi - z.unLo + 1
    {
      ghost var b := ptr[..];
      PassBounds(a, b, e, lo, hi, med, z);
      if z.unLo > z.unHi {
        break;
      }
      PassDown(a, b, e, lo, hi, med, z);
      KeyAt(block[..], n, d, ptr[z.unHi]);
      var k: int := block[ptr[z.unHi] + d] - med;
      if k == 0 {
        ptr[z.unHi], ptr[z.gtHi] := ptr[z.gtHi], ptr[z.unHi];
        assert ptr[..] == b[z.unHi := b[z.gtHi]][z.gtHi := b[z.unHi]];
        z := z.(gtHi := z.gtHi - 1, unHi := z.unHi - 1);
        continue;
      }
      if k < 0 {
        break;
      }
      z := z.(unHi := z.unHi - 1);
    }
  }

  method MainPartition(ptr: array<nat>, block: array<Byte>, n: nat, d: nat, lo: int, hi: int, med: nat)
    returns (z: Zones)
    requires n + d <= block.Length && Indexes(ptr[..], Keys(block[..], n, d)) && 0 <= lo <= hi < ptr.Length
    modifies ptr
    ensures Pass(old(ptr[..]), ptr[..], Keys(block[..], n, d), lo, hi, med, z)
    ensures z.unHi == z.unLo - 1
  {
    ghost var a, e := ptr[..], Keys(block[..], n, d);
    z := Zones(lo, lo, hi, hi);
    assert Pass(a, a, e, lo, hi, med, z);
    hide *;
    while true
      invariant Pass(a, ptr[..], e, lo, hi, med, z)
      decreases z.unHi - z.unLo + 1
    {
      z := MainScanUp(ptr, block, n, d, lo, hi, med, z, a);
      z := MainScanDown(ptr, block, n, d, lo, hi, med, z, a);
      ghost var b := ptr[..];
      PassBounds(a, b, e, lo, hi, med, z);
      if z.unLo > z.unHi {
        break;
      }
      KeyAt(block[..], n, d, b[z.unLo]);
      KeyAt(block[..], n, d, b[z.unHi]);
      PassSwap(a, b, e, lo, hi, med, z);
      ptr[z.unLo], ptr[z.unHi] := ptr[z.unHi], ptr[z.unLo];
      assert ptr[..] == b[z.unLo := b[z.unHi]][z.unHi := b[z.unLo]];
      z := z.(unLo := z.unLo + 1, unHi := z.unHi - 1);
    }
  }

  // ----- Parts of a partitioned range, in the order of rotations -----

  /** The rotations in the range agree on their first d bytes. */
  ghost predicate Uniform(a: seq<nat>, b: Block, r: Range, d: nat) {
    && 0 <= r.lo && r.hi < |a|
    && (forall p :: r.lo <= p <= r.hi ==> a[p] < |b|)
    && (forall p, q :: r.lo <= p <= r.hi && r.lo <= q <= r.hi ==> EqualTo(b, a[p], a[q], d))
  }

  lemma UniformShuffled(a: seq<nat>, c: seq<nat>, b: Block, r: Range, d: nat)
    requires Uniform(a, b, r, d) && r.lo <= r.hi + 1 && Shuffled(a, c, r.lo, r.hi + 1)
    ensures Uniform(c, b, r, d)
  {
    hide Shuffled, EqualTo;
    ShuffledLength(a, c, r.lo, r.hi + 1);
    forall p | r.lo <= p <= r.hi
      ensures c[p] < |b|
    {
      var p' := ShuffledMember(a, c, r.lo, r.hi + 1, p);
    }
    forall p, q | r.lo <= p <= r.hi && r.lo <= q <= r.hi
      ensures EqualTo(b, c[p], c[q], d)
    {
      var p' := ShuffledMember(a, c, r.lo, r.hi + 1, p);
      var q' := ShuffledMember(a, c, r.lo, r.hi + 1, q);
      assert EqualTo(b, a[p'], a[q'], d);
    }
  }

  lemma UniformPart(a: seq<nat>, b: Block, r: Range, d: nat, s: Range)
    requires Uniform(a, b, r, d) && r.lo <= s.lo && s.hi <= r.hi
    ensures Uniform(a, b, s, d)
  {
  }

  /** Equal keys carry the agreement one byte further. */
  lemma UniformDeeper(a: seq<nat>, block: seq<Byte>, quadrant: seq<nat>, b: Block, r: Range, d: nat, med: nat)
    requires Extended(block, quadrant, b) && Uniform(a, b, r, d) && d <= 15 && |b| + d <= |block|
    requires forall k :: r.lo <= k <= r.hi ==> a[k] < |b| && Keys(block, |b|, d)[a[k]] == med
    ensures Uniform(a, b, r, d + 1)
  {
    hide Extended, Keys;
    forall p, q | r.lo <= p <= r.hi && r.lo <= q <= r.hi
      ensures EqualTo(b, a[p], a[q], d + 1)
    {
      KeyIsByte(block, quadrant, b, a[p], d);
      KeyIsByte(block, quadrant, b, a[q], d);
      SplitDepth(b, a[p], a[q], d, 1);
    }
  }

  /** Entries of different parts are in order. */
  ghost predicate PartsOrdered(a: seq<nat>, e: seq<nat>, lo: int, hi: int, n: int, m: int)
    requires Indexes(a, e)
  {
    && 0 <= lo <= n + 1 <= m <= hi + 1 <= |a|
    && (forall p, q :: lo <= p <= n < q <= hi ==> e[a[p]] <= e[a[q]])
    && (forall p, q :: lo <= p < m <= q <= hi ==> e[a[p]] <= e[a[q]])
  }

  lemma ThreeWayOrders(a: seq<nat>, block: seq<Byte>, quadrant: seq<nat>, b: Block, lo: int, hi: int, n: int, m: int,
                       med: nat, d: nat)
    requires Extended(block, quadrant, b) && d <= 15 && |b| + d <= |block| && Uniform(a, b, Range(lo, hi), d)
    requires ThreeWay(a, Keys(block, |b|, d), lo, hi, n, m, med) && Indexes(a, Orders(b))
    ensures PartsOrdered(a, Orders(b), lo, hi, n, m)
  {
    hide Extended, Keys, Orders;
    forall p, q | lo <= p < q <= hi && (p <= n < q || p < m <= q)
      ensures Orders(b)[a[p]] <= Orders(b)[a[q]]
    {
      KeyIsByte(block, quadrant, b, a[p], d);
      KeyIsByte(block, quadrant, b, a[q], d);
      assert EqualTo(b, a[p], a[q], d);
      ByteDecides(b, a[p], a[q], d);
    }
  }

  // ----- The stack -----

  datatype Level = Level(r: Range, d: nat)

  ghost function Ranges(stack: seq<Level>): (s: seq<Range>)
    ensures |s| == |stack|
  {
    seq(|stack|, k requires 0 <= k < |stack| => stack[k].r)
  }

  function HalfOf(k: nat): nat {
    k / 2
  }

  /** The k-th range from the bottom has at most size / 2^(k/2) entries. */
  ghost predicate LevelsOk(stack: seq<Level>, lo: int, hi: int) {
    && RangesApart(Ranges(stack), lo, hi)
    && (forall k :: 0 <= k < |stack| ==> stack[k].r.Size() >= 0 && Shl(stack[k].r.Size(), HalfOf(k)) <= hi - lo + 1)
    && (forall k :: 0 <= k < |stack| ==> stack[k].d <= 15)
  }

  /** What a range at depth d can still cost: every split shrinks ranges or goes deeper. */
  ghost function Cost(size: int, d: nat): (w: nat)
    decreases 16 - d
  {
    if d >= 16 || size <= 0 then 0 else 4 * size + Cost(size, d + 1)
  }

  ghost function Costs(stack: seq<Level>): (w: nat) {
    if stack == [] then 0
    else
      var top := stack[|stack| - 1];
      Costs(stack[..|stack| - 1]) + 1 + Cost(top.r.Size(), top.d)
  }

  lemma {:induction false} CostAdds(x: int, y: int, d: nat)
    requires x >= 0 && y >= 0
    ensures Cost(x, d) + Cost(y, d) == Cost(x + y, d)
    decreases 16 - d
  {
    if d < 16 {
      CostAdds(x, y, d + 1);
    }
  }

  lemma CostDeeper(size: int, d: nat)
    requires size > 0 && d <= 15
    ensures Cost(size, d + 1) + 4 * size == Cost(size, d)
  {
  }

  /** Three parts, the middle one deeper, cost less than the whole. */
  lemma SplitCosts(x: int, y: int, z: int, d: nat)
    requires x >= 0 && y >= 0 && z > 0 && d <= 15
    ensures 3 + Cost(x, d) + Cost(y, d) + Cost(z, d + 1) < 1 + Cost(x + y + z, d)
  {
    hide Cost;
    CostAdds(x, y, d);
    CostAdds(x + y, z, d);
    CostDeeper(z, d);
  }

  lemma CostsPush(stack: seq<Level>, l: Level)
    ensures Costs(stack + [l]) == Costs(stack) + 1 + Cost(l.r.Size(), l.d)
  {
    assert (stack + [l])[..|stack|] == stack;
  }

  lemma RangesPush(stack: seq<Level>, l: Level)
    ensures Ranges(stack + [l]) == Ranges(stack) + [l.r]
  {
  }

  lemma LevelsPop(stack: seq<Level>, l: Level, lo: int, hi: int)
    requires LevelsOk(stack + [l], lo, hi)
    ensures LevelsOk(stack, lo, hi) && RangesApart(Ranges(stack) + [l.r], lo, hi)
    ensures lo <= l.r.lo <= l.r.hi + 1 <= hi + 1 && l.d <= 15 && Shl(l.r.Size(), HalfOf(|stack|)) <= hi - lo + 1
  {
    hide Shl, HalfOf;
    RangesPush(stack, l);
    var s := stack + [l];
    assert s[|stack|] == l;
    assert forall k :: 0 <= k < |stack| ==> s[k] == stack[k] && Ranges(s)[k] == Ranges(stack)[k];
    assert Ranges(s)[|stack|] == l.r;
  }

  /** Three disjoint parts of r, the larger first. */
  ghost predicate Falls(r: Range, x: Range, y: Range, z: Range) {
    && r.lo <= x.lo <= x.hi + 1 <= r.hi + 1 && r.lo <= y.lo <= y.hi + 1 <= r.hi + 1
       && r.lo <= z.lo <= z.hi + 1 <= r.hi + 1
    && (x.hi < y.lo || y.hi < x.lo) && (x.hi < z.lo || z.hi < x.lo) && (y.hi < z.lo || z.hi < y.lo)
    && x.Size() + y.Size() + z.Size() == r.Size() && x.Size() >= y.Size() >= z.Size()
  }

  lemma HalfSteps(k: nat)
    ensures HalfOf(k + 1) <= HalfOf(k) + 1 && HalfOf(k + 2) == HalfOf(k) + 1
  {
  }

  lemma {:induction false} ShlDeeper(v: nat, j: nat, k: nat)
    requires j <= k
    ensures Shl(v, j) <= Shl(v, k)
    decreases k
  {
    if j < k {
      ShlDeeper(v, j, k - 1);
    }
  }

  /** The largest part keeps its place; the other two, at most half as large, may lie one or two places higher. */
  lemma FallSizes(r: Range, x: Range, y: Range, z: Range, k: nat)
    requires Falls(r, x, y, z) && r.Size() >= 0
    ensures x.Size() >= 0 && y.Size() >= 0 && z.Size() >= 0
    ensures Shl(x.Size(), HalfOf(k)) <= Shl(r.Size(), HalfOf(k))
    ensures Shl(y.Size(), HalfOf(k + 1)) <= Shl(r.Size(), HalfOf(k))
    ensures Shl(z.Size(), HalfOf(k + 2)) <= Shl(r.Size(), HalfOf(k))
  {
    HalfSteps(k);
    var h := HalfOf(k);
    ShlMonotone(x.Size(), r.Size(), h);
    ShlMonotone(2 * y.Size(), r.Size(), h);
    ShlMonotone(2 * z.Size(), r.Size(), h);
    ShlShl(y.Size(), 1, h);
    ShlShl(z.Size(), 1, h);
    assert Shl(y.Size(), 1) == 2 * y.Size() && Shl(z.Size(), 1) == 2 * z.Size();
    ShlDeeper(y.Size(), HalfOf(k + 1), h + 1);
  }

  /** Replacing r by disjoint parts keeps the ranges apart. */
  lemma PartsApart(rs: seq<Range>, r: Range, lo: int, hi: int, x: Range, y: Range, z: Range)
    requires RangesApart(rs + [r], lo, hi) && Falls(r, x, y, z)
    ensures RangesApart(rs + [x, y, z], lo, hi)
  {
    var s, t, n := rs + [r], rs + [x, y, z], |rs|;
    assert s[n] == r && t[n] == x && t[n + 1] == y && t[n + 2] == z;
    forall k | 0 <= k < |t|
      ensures lo <= t[k].lo <= t[k].hi + 1 <= hi + 1
    {
      assert k < n ==> t[k] == s[k];
    }
    forall j, k | 0 <= j < k < |t|
      ensures t[j].hi < t[k].lo || t[k].hi < t[j].lo
    {
      assert j < n ==> t[j] == s[j];
      assert k < n ==> t[k] == s[k];
      assert j < n ==> s[j].hi < r.lo || r.hi < s[j].lo;
    }
  }

  lemma LevelsSplit(stack: seq<Level>, l: Level, lo: int, hi: int, x: Level, y: Level, z: Level)
    requires LevelsOk(stack + [l], lo, hi) && Falls(l.r, x.r, y.r, z.r) && x.d <= 15 && y.d <= 15 && z.d <= 15
    ensures LevelsOk(stack + [x, y, z], lo, hi)
  {
    hide Shl, HalfOf, RangesApart;
    LevelsPop(stack, l, lo, hi);
    var t, n := stack + [x, y, z], |stack|;
    PartsApart(Ranges(stack), l.r, lo, hi, x.r, y.r, z.r);
    assert Ranges(t) == Ranges(stack) + [x.r, y.r, z.r];
    FallSizes(l.r, x.r, y.r, z.r, n);
    forall k | 0 <= k < |t|
      ensures t[k].r.Size() >= 0 && Shl(t[k].r.Size(), HalfOf(k)) <= hi - lo + 1 && t[k].d <= 15
    {
      if k < n {
        assert t[k] == stack[k];
      } else if k == n {
        assert t[k] == x;
      } else if k == n + 1 {
        assert t[k] == y;
      } else {
        assert t[k] == z;
      }
    }
  }

  /** A range that is not small cannot lie deep on the stack. */
  lemma LargeIsShallow(size: nat, k: nat)
    requires size > 0 && Shl(size, HalfOf(k)) <= MAX_BLOCK
    ensures k < 40
  {
    NonEmptyIsShallow(size, HalfOf(k));
  }

  // ----- The main loop -----

  /** What the main loop of mainQSort3 keeps. */
  ghost predicate MainSorting(a: seq<nat>, c: seq<nat>, b: Block, lo: int, hi: int, stack: seq<Level>) {
    && Indexes(c, Orders(b)) && 0 <= lo <= hi + 1 <= |c|
    && Shuffled(a, c, lo, hi + 1) && LevelsOk(stack, lo, hi)
    && OrderedBut(c, Orders(b), lo, hi, Ranges(stack))
    && AllUniform(c, b, stack)
  }

  ghost predicate AllUniform(c: seq<nat>, b: Block, stack: seq<Level>) {
    forall k :: 0 <= k < |stack| ==> Uniform(c, b, stack[k].r, stack[k].d)
  }

  lemma MainStart(a: seq<nat>, b: Block, lo: int, hi: int, d: nat)
    requires Indexes(a, Orders(b)) && 0 <= lo <= hi + 1 <= |a| && Uniform(a, b, Range(lo, hi), d) && d <= 15
    ensures MainSorting(a, a, b, lo, hi, [Level(Range(lo, hi), d)])
  {
    hide Orders, Uniform;
    var stack := [Level(Range(lo, hi), d)];
    assert Ranges(stack) == [Range(lo, hi)];
    OrderedStart(a, Orders(b), lo, hi);
    assert Shl(stack[0].r.Size(), HalfOf(0)) == hi - lo + 1;
  }

  lemma MainTop(a: seq<nat>, c: seq<nat>, b: Block, lo: int, hi: int, stack: seq<Level>, l: Level)
    requires MainSorting(a, c, b, lo, hi, stack + [l])
    ensures 0 <= lo <= l.r.lo <= l.r.hi + 1 <= hi + 1 <= |c| == |a| && l.d <= 15 && Indexes(c, Orders(b))
    ensures Uniform(c, b, l.r, l.d) && LevelsOk(stack, lo, hi) && AllUniform(c, b, stack)
    ensures Shl(l.r.Size(), HalfOf(|stack|)) <= hi - lo + 1
    ensures RangesApart(Ranges(stack) + [l.r], lo, hi) && OrderedBut(c, Orders(b), lo, hi, Ranges(stack) + [l.r])
  {
    hide Orders, Uniform, Shl, HalfOf, LevelsOk, RangesApart;
    LevelsPop(stack, l, lo, hi);
    RangesPush(stack, l);
    var s := stack + [l];
    assert s[|stack|] == l;
    assert forall k :: 0 <= k < |stack| ==> s[k] == stack[k];
  }

  /** Rearranging one range leaves the rotations of the other ranges alone. */
  lemma OthersUniform(c: seq<nat>, c': seq<nat>, b: Block, stack: seq<Level>, r: Range, lo: int, hi: int)
    requires AllUniform(c, b, stack) && RangesApart(Ranges(stack) + [r], lo, hi) && Shuffled(c, c', r.lo, r.hi + 1)
    ensures AllUniform(c', b, stack)
  {
    hide EqualTo;
    var rs := Ranges(stack) + [r];
    forall k | 0 <= k < |stack|
      ensures Uniform(c', b, stack[k].r, stack[k].d)
    {
      assert rs[k] == stack[k].r && rs[|stack|] == r;
      assert forall p :: stack[k].r.lo <= p <= stack[k].r.hi ==> c'[p] == c[p];
      assert Uniform(c, b, stack[k].r, stack[k].d);
    }
  }

  /** A range has been sorted. */
  lemma MainPop(a: seq<nat>, c: seq<nat>, c': seq<nat>, b: Block, lo: int, hi: int, stack: seq<Level>, l: Level)
    requires MainSorting(a, c, b, lo, hi, stack + [l]) && Indexes(c', Orders(b))
    requires Shuffled(c, c', l.r.lo, l.r.hi + 1) && SortedBy(c', Orders(b), l.r.lo, l.r.hi + 1)
    ensures MainSorting(a, c', b, lo, hi, stack)
  {
    MainTop(a, c, b, lo, hi, stack, l);
    hide Orders, Uniform, Shuffled, LevelsOk, OrderedBut, SortedBy, Indexes, RangesApart, AllUniform;
    RangeSorted(c, c', Orders(b), lo, hi, Ranges(stack), l.r);
    ShuffledCompose(a, c, c', lo, hi + 1, l.r.lo, l.r.hi + 1);
    ShuffledLength(c, c', l.r.lo, l.r.hi + 1);
    OthersUniform(c, c', b, stack, l.r, lo, hi);
  }

  /** Two entries not both in r: where they stood before r was rearranged. */
  lemma StillTogether(rs: seq<Range>, x: Range, y: Range, z: Range, p: int, q: int)
    requires Together(rs, p, q) || x.Covers(p, q) || y.Covers(p, q) || z.Covers(p, q)
    ensures Together(rs + [x, y, z], p, q)
  {
    var t, n := rs + [x, y, z], |rs|;
    assert t[n] == x && t[n + 1] == y && t[n + 2] == z;
    if Together(rs, p, q) {
      var k :| 0 <= k < n && rs[k].Covers(p, q);
      assert t[k].Covers(p, q);
    }
  }

  lemma RangeInThree(c: seq<nat>, c': seq<nat>, e: seq<nat>, lo: int, hi: int, rs: seq<Range>, r: Range, n: int, m: int,
                     x: Range, y: Range, z: Range)
    requires Indexes(c, e) && Indexes(c', e) && 0 <= lo && hi < |c|
    requires RangesApart(rs + [r], lo, hi) && OrderedBut(c, e, lo, hi, rs + [r]) && Shuffled(c, c', r.lo, r.hi + 1)
    requires PartsOrdered(c', e, r.lo, r.hi, n, m)
    requires {x, y, z} == {Range(r.lo, n), Range(m, r.hi), Range(n + 1, m - 1)}
    ensures hi < |c'| && OrderedBut(c', e, lo, hi, rs + [x, y, z])
  {
    hide RangesApart, OrderedBut, Together, Shuffled;
    ShuffledLength(c, c', r.lo, r.hi + 1);
    forall p, q | lo <= p < q <= hi
      ensures e[c'[p]] <= e[c'[q]] || Together(rs + [x, y, z], p, q)
    {
      if !r.Covers(p, q) {
        AcrossRange(c, c', e, lo, hi, rs, r, p, q);
        if Together(rs, p, q) {
          StillTogether(rs, x, y, z, p, q);
        }
      } else if q <= n || p >= m || (n < p && q < m) {
        var w := if q <= n then Range(r.lo, n) else if p >= m then Range(m, r.hi) else Range(n + 1, m - 1);
        assert w in {x, y, z} && w.Covers(p, q);
        StillTogether(rs, x, y, z, p, q);
      }
    }
    OrderedButIs(c', e, lo, hi, rs + [x, y, z]);
  }

  lemma OrderedButIs(a: seq<nat>, e: seq<nat>, lo: int, hi: int, stack: seq<Range>)
    requires Indexes(a, e) && 0 <= lo && hi < |a|
    requires forall p, q :: lo <= p < q <= hi ==> e[a[p]] <= e[a[q]] || Together(stack, p, q)
    ensures OrderedBut(a, e, lo, hi, stack)
  {
  }

  /** A range has been split in three. */
  lemma MainSplit(a: seq<nat>, c: seq<nat>, c': seq<nat>, b: Block, lo: int, hi: int, stack: seq<Level>, l: Level,
                  n: int, m: int,
                  x: Level, y: Level, z: Level)
    requires MainSorting(a, c, b, lo, hi, stack + [l]) && Indexes(c', Orders(b)) && Shuffled(c, c', l.r.lo, l.r.hi + 1)
    requires PartsOrdered(c', Orders(b), l.r.lo, l.r.hi, n, m) && Falls(l.r, x.r, y.r, z.r)
    requires {x.r, y.r, z.r} == {Range(l.r.lo, n), Range(m, l.r.hi), Range(n + 1, m - 1)}
    requires x.d <= 15 && y.d <= 15 && z.d <= 15
    requires Uniform(c', b, x.r, x.d) && Uniform(c', b, y.r, y.d) && Uniform(c', b, z.r, z.d)
    ensures MainSorting(a, c', b, lo, hi, stack + [x, y, z])
  {
    MainTop(a, c, b, lo, hi, stack, l);
    assert LevelsOk(stack + [l], lo, hi);
    hide Orders, Uniform, Shuffled, LevelsOk, OrderedBut, SortedBy, Indexes, RangesApart, PartsOrdered, Falls;
    RangeInThree(c, c', Orders(b), lo, hi, Ranges(stack), l.r, n, m, x.r, y.r, z.r);
    assert Ranges(stack + [x, y, z]) == Ranges(stack) + [x.r, y.r, z.r];
    ShuffledCompose(a, c, c', lo, hi + 1, l.r.lo, l.r.hi + 1);
    ShuffledLength(c, c', l.r.lo, l.r.hi + 1);
    OthersUniform(c, c', b, stack, l.r, lo, hi);
    LevelsSplit(stack, l, lo, hi, x, y, z);
    var t, k := stack + [x, y, z], |stack|;
    assert t[k] == x && t[k + 1] == y && t[k + 2] == z && forall i :: 0 <= i < k ==> t[i] == stack[i];
  }

  /** All keys of a range are equal: it goes back on the stack one byte deeper. */
  lemma MainDeeper(a: seq<nat>, c: seq<nat>, c': seq<nat>, b: Block, lo: int, hi: int, stack: seq<Level>, l: Level)
    requires MainSorting(a, c, b, lo, hi, stack + [l]) && Indexes(c', Orders(b)) && Shuffled(c, c', l.r.lo, l.r.hi + 1)
    requires l.d < 15 && Uniform(c', b, l.r, l.d + 1)
    ensures MainSorting(a, c', b, lo, hi, stack + [Level(l.r, l.d + 1)])
  {
    MainTop(a, c, b, lo, hi, stack, l);
    var l' := Level(l.r, l.d + 1);
    LevelsDeeper(stack, l, lo, hi, l.d + 1);
    hide Orders, Uniform, Shuffled, LevelsOk, SortedBy, Indexes, RangesApart;
    RangesPush(stack, l);
    RangesPush(stack, l');
    ShuffledCompose(a, c, c', lo, hi + 1, l.r.lo, l.r.hi + 1);
    ShuffledLength(c, c', l.r.lo, l.r.hi + 1);
    OthersUniform(c, c', b, stack, l.r, lo, hi);
    assert forall i :: 0 <= i < |stack| ==> (stack + [l'])[i] == stack[i];
    StillOrderedBut(c, c', Orders(b), lo, hi, Ranges(stack), l.r);
  }

  lemma LevelsDeeper(stack: seq<Level>, l: Level, lo: int, hi: int, d: nat)
    requires LevelsOk(stack + [l], lo, hi) && d <= 15
    ensures LevelsOk(stack + [Level(l.r, d)], lo, hi)
  {
    hide Shl, HalfOf;
    var s, t := stack + [l], stack + [Level(l.r, d)];
    RangesPush(stack, l);
    RangesPush(stack, Level(l.r, d));
    assert forall k :: 0 <= k < |s| ==> t[k].r == s[k].r && (k < |stack| ==> t[k] == s[k]);
  }

  /** Rearranging a range that stays on the stack. */
  lemma StillOrderedBut(c: seq<nat>, c': seq<nat>, e: seq<nat>, lo: int, hi: int, rs: seq<Range>, r: Range)
    requires Indexes(c, e) && Indexes(c', e) && 0 <= lo && hi < |c|
    requires RangesApart(rs + [r], lo, hi) && OrderedBut(c, e, lo, hi, rs + [r]) && Shuffled(c, c', r.lo, r.hi + 1)
    ensures hi < |c'| && OrderedBut(c', e, lo, hi, rs + [r])
  {
    hide RangesApart, OrderedBut, Together, Shuffled;
    ShuffledLength(c, c', r.lo, r.hi + 1);
    forall p, q | lo <= p < q <= hi
      ensures e[c'[p]] <= e[c'[q]] || Together(rs + [r], p, q)
    {
      if !r.Covers(p, q) {
        AcrossRange(c, c', e, lo, hi, rs, r, p, q);
      }
      TogetherMore(rs, r, p, q);
    }
    OrderedButIs(c', e, lo, hi, rs + [r]);
  }

  lemma TogetherMore(rs: seq<Range>, r: Range, p: int, q: int)
    ensures Together(rs, p, q) || r.Covers(p, q) ==> Together(rs + [r], p, q)
  {
    assert (rs + [r])[|rs|] == r;
    if Together(rs, p, q) {
      var k :| 0 <= k < |rs| && rs[k].Covers(p, q);
      assert (rs + [r])[k].Covers(p, q);
    }
  }

  /** mmed3 */
  method MedianOfThree(a0: Byte, b0: Byte, c0: Byte) returns (r: Byte)
    ensures r == a0 || r == b0 || r == c0
    ensures (a0 <= r || b0 <= r) && (b0 <= r || c0 <= r) && (a0 <= r || c0 <= r)
    ensures (a0 >= r || b0 >= r) && (b0 >= r || c0 >= r) && (a0 >= r || c0 >= r)
  {
    var a, b, c := a0, b0, c0;
    if a > b {
      a, b := b, a;
    }
    if b > c {
      b := c;
      if a > b {
        b := a;
      }
    }
    return b;
  }

  lemma SameIndexes(a: seq<nat>, e: seq<nat>, e': seq<nat>)
    requires Indexes(a, e) && |e| == |e'|
    ensures Indexes(a, e')
  {
  }

  lemma OrdersSize(b: Block)
    ensures |Orders(b)| == |b|
  {
  }

  /** Nothing below or above the pivot was found. */
  lemma AllPivot(a: seq<nat>, c: seq<nat>, e: seq<nat>, lo: int, hi: int, med: nat, z: Zones)
    requires Pass(a, c, e, lo, hi, med, z) && z.unHi == z.unLo - 1 && z.gtHi < z.ltLo
    ensures Shuffled(a, c, lo, hi + 1) && Indexes(c, e) && forall k :: lo <= k <= hi ==> e[c[k]] == med
  {
  }

  lemma MiddleKeys(c: seq<nat>, e: seq<nat>, lo: int, hi: int, n: int, m: int, med: nat)
    requires ThreeWay(c, e, lo, hi, n, m, med)
    ensures Indexes(c, e) && 0 <= lo <= n + 1 <= m <= hi + 1 <= |c|
    ensures forall k :: n + 1 <= k <= m - 1 ==> c[k] < |e| && e[c[k]] == med
  {
  }

  /** Partitioning one range: all keys equal, or three parts in order, the middle one not empty. */
  method PartitionRange(ptr: array<nat>, block: array<Byte>, nblock: nat, lo: int, hi: int, d: nat, med: nat,
                        ghost k: int,
                        ghost quadrant: seq<nat>, ghost b: Block) returns (done: bool, n: int, m: int)
    requires Extended(block[..], quadrant, b) && nblock == |b| && d <= 14 && 0 <= lo <= hi < ptr.Length
    requires Indexes(ptr[..], Orders(b)) && Uniform(ptr[..], b, Range(lo, hi), d)
    requires lo <= k <= hi && nblock + d <= block.Length && ptr[k] < nblock && block[ptr[k] + d] == med
    modifies ptr
    ensures Shuffled(old(ptr[..]), ptr[..], lo, hi + 1) && Indexes(ptr[..], Orders(b))
    ensures done ==> Uniform(ptr[..], b, Range(lo, hi), d + 1)
    ensures !done ==> n + 1 < m && PartsOrdered(ptr[..], Orders(b), lo, hi, n, m)
    ensures !done ==> Uniform(ptr[..], b, Range(lo, n), d) && Uniform(ptr[..], b, Range(m, hi), d)
    ensures !done ==> Uniform(ptr[..], b, Range(n + 1, m - 1), d + 1)
  {
    hide *;
    ghost var a, e := ptr[..], Keys(block[..], nblock, d);
    OrdersSize(b);
    SameIndexes(a, Orders(b), e);
    KeyAt(block[..], nblock, d, a[k]);
    var z := MainPartition(ptr, block, nblock, d, lo, hi, med);
    n, m := lo, hi;
    PivotSeen(a, ptr[..], e, lo, hi, med, z, k);
    PassBounds(a, ptr[..], e, lo, hi, med, z);
    if z.gtHi < z.ltLo {
      AllPivot(a, ptr[..], e, lo, hi, med, z);
      SameIndexes(ptr[..], e, Orders(b));
      UniformShuffled(a, ptr[..], b, Range(lo, hi), d);
      UniformDeeper(ptr[..], block[..], quadrant, b, Range(lo, hi), d, med);
      return true, n, m;
    }
    n, m := GatherEquals(ptr, lo, hi, med, z, a, e);
    ghost var c := ptr[..];
    MiddleKeys(c, e, lo, hi, n, m, med);
    SameIndexes(c, e, Orders(b));
    UniformShuffled(a, c, b, Range(lo, hi), d);
    ThreeWayOrders(c, block[..], quadrant, b, lo, hi, n, m, med, d);
    UniformPart(c, b, Range(lo, hi), d, Range(lo, n));
    UniformPart(c, b, Range(lo, hi), d, Range(m, hi));
    UniformPart(c, b, Range(lo, hi), d, Range(n + 1, m - 1));
    UniformDeeper(c, block[..], quadrant, b, Range(n + 1, m - 1), d, med);
    done := false;
  }

  /** The three parts, larger first. */
  method SortParts(less: Level, more: Level, same: Level) returns (x: Level, y: Level, z: Level)
    ensures x.r.Size() >= y.r.Size() >= z.r.Size()
    ensures [x, y, z] in Orderings(less, more, same)
  {
    x, y, z := less, more, same;
    if x.r.Size() < y.r.Size() {
      x, y := y, x;
    }
    if y.r.Size() < z.r.Size() {
      y, z := z, y;
    }
    if x.r.Size() < y.r.Size() {
      x, y := y, x;
    }
  }

  /** The six orders of three parts. */
  ghost function Orderings(x: Level, y: Level, z: Level): set<seq<Level>> {
    {[x, y, z], [x, z, y], [y, x, z], [y, z, x], [z, x, y], [z, y, x]}
  }

  lemma OrderingFacts(c: seq<nat>, b: Block, r: Range, less: Level, more: Level, same: Level, x: Level, y: Level,
                      z: Level)
    requires [x, y, z] in Orderings(less, more, same) && x.r.Size() >= y.r.Size() >= z.r.Size()
    requires less.r.lo == r.lo && less.r.hi + 1 == same.r.lo && same.r.hi + 1 == more.r.lo && more.r.hi == r.hi
    requires r.lo <= less.r.hi + 1 <= more.r.lo <= r.hi + 1
    requires less.d <= 15 && more.d <= 15 && same.d <= 15
    requires Uniform(c, b, less.r, less.d) && Uniform(c, b, more.r, more.d) && Uniform(c, b, same.r, same.d)
    ensures Falls(r, x.r, y.r, z.r) && x.d <= 15 && y.d <= 15 && z.d <= 15
      && {x.r, y.r, z.r} == {less.r, more.r, same.r}
    ensures Uniform(c, b, x.r, x.d) && Uniform(c, b, y.r, y.d) && Uniform(c, b, z.r, z.d)
  {
    hide Uniform;
    var s := [x, y, z];
    assert s[0] == x && s[1] == y && s[2] == z;
    assert s in Orderings(less, more, same);
  }

  lemma OrderingCosts(stack: seq<Level>, less: Level, more: Level, same: Level, x: Level, y: Level, z: Level, l: Level)
    requires [x, y, z] in Orderings(less, more, same) && l.d <= 14
    requires less.d == more.d == l.d && same.d == l.d + 1
    requires less.r.Size() >= 0 && more.r.Size() >= 0 && same.r.Size() > 0
    requires less.r.Size() + more.r.Size() + same.r.Size() == l.r.Size()
    ensures Costs(stack + [x, y, z]) < Costs(stack + [l])
  {
    hide Cost, Costs;
    var s := [x, y, z];
    assert s[0] == x && s[1] == y && s[2] == z;
    assert s in Orderings(less, more, same);
    SplitCosts(less.r.Size(), more.r.Size(), same.r.Size(), l.d);
    CostsPush(stack, l);
    CostsPush(stack, x);
    CostsPush(stack + [x], y);
    CostsPush(stack + [x, y], z);
    assert stack + [x] + [y] == stack + [x, y] && stack + [x, y] + [z] == stack + [x, y, z];
  }

  lemma DeeperCosts(stack: seq<Level>, l: Level)
    requires l.d <= 14 && l.r.Size() > 0
    ensures Costs(stack + [Level(l.r, l.d + 1)]) < Costs(stack + [l])
  {
    hide Cost, Costs;
    CostDeeper(l.r.Size(), l.d);
    CostsPush(stack, l);
    CostsPush(stack, Level(l.r, l.d + 1));
  }

  lemma PopCosts(stack: seq<Level>, l: Level)
    ensures Costs(stack) < Costs(stack + [l])
  {
    hide Cost, Costs;
    CostsPush(stack, l);
  }

  /** The rotations a range holds. */
  ghost function Held(c: seq<nat>, r: Range): set<nat>
    requires 0 <= r.lo && r.hi < |c|
  {
    set k | r.lo <= k <= r.hi :: c[k]
  }

  lemma HeldAgree(c: seq<nat>, b: Block, r: Range, d: nat)
    requires Uniform(c, b, r, d) && r.lo <= r.hi + 1
    ensures Agreeing(b, Held(c, r), d) && Holds(c, r.lo, r.hi + 1, Held(c, r))
  {
    hide EqualTo;
  }

  lemma MainEnd(a: seq<nat>, c: seq<nat>, b: Block, lo: int, hi: int)
    requires MainSorting(a, c, b, lo, hi, [])
    ensures SortedBy(c, Orders(b), lo, hi + 1)
  {
    hide Orders;
    assert Ranges([]) == [];
    OrderedEnd(c, Orders(b), lo, hi);
  }

  lemma MainKept(a: seq<nat>, c: seq<nat>, b: Block, lo: int, hi: int, stack: seq<Level>)
    requires MainSorting(a, c, b, lo, hi, stack)
    ensures Shuffled(a, c, lo, hi + 1) && Indexes(c, Orders(b))
  {
  }

  /** One range comes off the stack: it is sorted, or split, or put back one byte deeper. */
  method Turn(ptr: array<nat>, block: array<Byte>, quadrant: array<nat>, nblock: nat, stack0: seq<Level>, top: Level,
              budget0: int,
              ghost a: seq<nat>, ghost b: Block, ghost loSt: int, ghost hiSt: int)
    returns (stack: seq<Level>, budget: int)
    requires Extended(block[..], quadrant[..], b) && nblock == |b| <= MAX_BLOCK && ptr != quadrant
      && ptr.Length <= MAX_BLOCK
    requires MainSorting(a, ptr[..], b, loSt, hiSt, stack0 + [top]) && |stack0| < 43 && budget0 >= 0
    modifies ptr
    ensures Shuffled(a, ptr[..], loSt, hiSt + 1) && Indexes(ptr[..], Orders(b)) && budget <= budget0
    ensures OnceEach(a) && Varied(b) ==> budget == budget0
    ensures budget >= 0 ==> MainSorting(a, ptr[..], b, loSt, hiSt, stack)
    ensures |stack| <= 43 && Costs(stack) < Costs(stack0 + [top])
  {
    hide *;
    ghost var c := ptr[..];
    MainTop(a, c, b, loSt, hiSt, stack0, top);
    MainKept(a, c, b, loSt, hiSt, stack0 + [top]);
    PopCosts(stack0, top);
    Thresholds();
    budget := budget0;
    stack := stack0;
    var lo, hi, d := top.r.lo, top.r.hi, top.d;
    RangeIs(top.r);
    if hi - lo < SMALL_THRESH || d > DEPTH_THRESH {
      HeldAgree(c, b, top.r, d);
      OnceEachShuffled(a, c, loSt, hiSt + 1);
      budget := MainSimpleSort(ptr, block, quadrant, nblock, lo, hi, d, budget, b, Held(c, top.r));
      KeptParts(c, ptr[..], Orders(b), lo, hi + 1, Held(c, top.r));
      ShuffledCompose(a, c, ptr[..], loSt, hiSt + 1, lo, hi + 1);
      if budget >= 0 {
        MainPop(a, c, ptr[..], b, loSt, hiSt, stack0, top);
      }
      return;
    }
    LargeIsShallow(top.r.Size(), |stack0|);
    ExtendedSizes(block[..], quadrant[..], b);
    UniformBelow(c, b, top.r, d);
    var mid := (lo + hi) / 2;
    var med := MedianOfThree(block[ptr[lo] + d], block[ptr[hi] + d], block[ptr[mid] + d]);
    ghost var k := if med == block[ptr[lo] + d] then lo else if med == block[ptr[hi] + d] then hi else mid;
    var done, n, m := PartitionRange(ptr, block, nblock, lo, hi, d, med, k, quadrant[..], b);
    ShuffledCompose(a, c, ptr[..], loSt, hiSt + 1, lo, hi + 1);
    if done {
      MainDeeper(a, c, ptr[..], b, loSt, hiSt, stack0, top);
      DeeperCosts(stack0, top);
      stack := stack0 + [Level(Range(lo, hi), d + 1)];
      return;
    }
    OrderedParts(ptr[..], Orders(b), lo, hi, n, m);
    var less, more, same := Level(Range(lo, n), d), Level(Range(m, hi), d), Level(Range(n + 1, m - 1), d + 1);
    RangeIs(less.r);
    RangeIs(more.r);
    RangeIs(same.r);
    var x, y, z := SortParts(less, more, same);
    OrderingFacts(ptr[..], b, top.r, less, more, same, x, y, z);
    MainSplit(a, c, ptr[..], b, loSt, hiSt, stack0, top, n, m, x, y, z);
    OrderingCosts(stack0, less, more, same, x, y, z, top);
    stack := stack0 + [x, y, z];
  }

  lemma RangeIs(r: Range)
    ensures r == Range(r.lo, r.hi) && r.Size() == r.hi - r.lo + 1
  {
  }

  lemma UniformBelow(c: seq<nat>, b: Block, r: Range, d: nat)
    requires Uniform(c, b, r, d)
    ensures 0 <= r.lo && r.hi < |c| && forall p :: r.lo <= p <= r.hi ==> c[p] < |b|
  {
  }

  lemma OrderedParts(a: seq<nat>, e: seq<nat>, lo: int, hi: int, n: int, m: int)
    requires Indexes(a, e) && PartsOrdered(a, e, lo, hi, n, m)
    ensures 0 <= lo <= n + 1 <= m <= hi + 1 <= |a|
  {
  }

  /**
    mainQSort3: when the budget lasts, the range is in the order of its rotations.  At
    most 43 ranges are on the stack, so assertion 1001 cannot fail.
   */
  method MainQSort3(ptr: array<nat>, block: array<Byte>, quadrant: array<nat>, nblock: nat, loSt: int, hiSt: int,
                    dSt: nat,
                    budget0: int, ghost b: Block) returns (budget: int)
    requires Extended(block[..], quadrant[..], b) && nblock == |b| <= MAX_BLOCK && ptr != quadrant
      && ptr.Length <= MAX_BLOCK
    requires Indexes(ptr[..], Orders(b)) && 0 <= loSt <= hiSt + 1 <= ptr.Length && dSt <= 15 && budget0 >= 0
    requires Uniform(ptr[..], b, Range(loSt, hiSt), dSt)
    modifies ptr
    ensures Shuffled(old(ptr[..]), ptr[..], loSt, hiSt + 1) && Indexes(ptr[..], Orders(b)) && budget <= budget0
    ensures OnceEach(old(ptr[..])) && Varied(b) ==> budget == budget0
    ensures budget >= 0 ==> SortedBy(ptr[..], Orders(b), loSt, hiSt + 1)
  {
    hide *;
    ghost var a := ptr[..];
    MainStart(a, b, loSt, hiSt, dSt);
    Thresholds();
    budget := budget0;
    var stack := [Level(Range(loSt, hiSt), dSt)];
    MainKept(a, a, b, loSt, hiSt, stack);
    while |stack| > 0
      invariant |stack| <= 43 && budget <= budget0 && budget >= 0
      invariant OnceEach(a) && Varied(b) ==> budget == budget0
      invariant MainSorting(a, ptr[..], b, loSt, hiSt, stack)
      decreases Costs(stack)
    {
      assert |stack| < STACK_SIZE - 2;
      var top := stack[|stack| - 1];
      var below := stack[..|stack| - 1];
      assert stack == below + [top];
      stack, budget := Turn(ptr, block, quadrant, nblock, below, top, budget, a, b, loSt, hiSt);
      if budget < 0 {
        return;
      }
    }
    MainKept(a, ptr[..], b, loSt, hiSt, stack);
    MainEnd(a, ptr[..], b, loSt, hiSt);
  }

  lemma Thresholds()
    ensures SMALL_THRESH == 20 && DEPTH_THRESH == 14 && MAX_BLOCK == 900000 && STACK_SIZE == 100
  {
  }

  lemma KeptParts(a: seq<nat>, c: seq<nat>, e: seq<nat>, lo: int, hi: int, s: set<nat>)
    requires Kept(a, c, e, lo, hi, s)
    ensures Shuffled(a, c, lo, hi) && Indexes(c, e)
  {
  }
}
