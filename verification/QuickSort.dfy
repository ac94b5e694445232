/** fallbackSimpleSort and fallbackQSort3: sorting a stretch of fmap by eclass. */
module QuickSort {

  import opened Bits

  const FALLBACK_QSORT_SMALL_THRESH := 10
  const FALLBACK_QSORT_STACK_SIZE := 100

  /** The largest block: blockSize100k is at most 9. */
  const MAX_BLOCK: nat := 900000

  /** b rearranges the entries lo .. hi - 1 of a and leaves the others alone. */
  ghost predicate Shuffled(a: seq<nat>, b: seq<nat>, lo: int, hi: int) {
    && |a| == |b|
    && 0 <= lo <= hi <= |a|
    && (forall k :: 0 <= k < lo ==> a[k] == b[k])
    && (forall k :: hi <= k < |a| ==> a[k] == b[k])
    && multiset(a) == multiset(b)
  }

  /** Every entry of a is an index into e. */
  ghost predicate Indexes(a: seq<nat>, e: seq<nat>) {
    forall k :: 0 <= k < |a| ==> a[k] < |e|
  }

  ghost predicate SortedBy(a: seq<nat>, e: seq<nat>, lo: int, hi: int)
    requires Indexes(a, e) && 0 <= lo && hi <= |a|
  {
    forall p, q :: lo <= p < q < hi ==> e[a[p]] <= e[a[q]]
  }

  lemma MultisetThree(a: seq<nat>, lo: int, hi: int)
    requires 0 <= lo <= hi <= |a|
    ensures multiset(a[lo..hi]) == multiset(a) - multiset(a[..lo]) - multiset(a[hi..])
  {
    assert a == a[..lo] + a[lo..hi] + a[hi..];
  }

  lemma ShuffledStretch(a: seq<nat>, b: seq<nat>, lo: int, hi: int)
    requires Shuffled(a, b, lo, hi)
    ensures multiset(a[lo..hi]) == multiset(b[lo..hi])
  {
    MultisetThree(a, lo, hi);
    MultisetThree(b, lo, hi);
    assert a[..lo] == b[..lo] && a[hi..] == b[hi..];
  }

  /** A rearranged stretch holds nothing that was not in it before. */
  lemma ShuffledMember(a: seq<nat>, b: seq<nat>, lo: int, hi: int, k: int) returns (j: int)
    requires Shuffled(a, b, lo, hi) && lo <= k < hi
    ensures lo <= j < hi && a[j] == b[k]
  {
    var x, y := a[lo..hi], b[lo..hi];
    ShuffledStretch(a, b, lo, hi);
    assert y[k - lo] in multiset(y);
    assert y[k - lo] in x;
    var i :| 0 <= i < |x| && x[i] == y[k - lo];
    j := lo + i;
  }

  lemma ShuffledIndexes(a: seq<nat>, b: seq<nat>, e: seq<nat>)
    requires multiset(a) == multiset(b) && Indexes(a, e)
    ensures Indexes(b, e)
  {
    forall k | 0 <= k < |b|
      ensures b[k] < |e|
    {
      assert b[k] in multiset(b);
      assert b[k] in a;
    }
  }

  /** Exchanging two entries. */
  function Swap(a: seq<nat>, i: int, j: int): (b: seq<nat>)
    requires 0 <= i < |a| && 0 <= j < |a|
    ensures |b| == |a|
  {
    a[i := a[j]][j := a[i]]
  }

  lemma SwapShuffles(a: seq<nat>, b: seq<nat>, i: int, j: int, lo: int, hi: int)
    requires Shuffled(a, b, lo, hi) && lo <= i < hi && lo <= j < hi
    ensures Shuffled(a, Swap(b, i, j), lo, hi)
  {
  }

  lemma SwapIndexes(a: seq<nat>, e: seq<nat>, i: int, j: int)
    requires 0 <= i < |a| && 0 <= j < |a| && Indexes(a, e)
    ensures Indexes(Swap(a, i, j), e)
  {
  }

  // ----- fallbackSimpleSort -----

  /** lo .. hi - 1 is sorted but for the entry at hole, which is at least all before it. */
  ghost predicate SortedButHole(a: seq<nat>, e: seq<nat>, lo: int, hi: int, hole: int)
    requires Indexes(a, e) && 0 <= lo && hi <= |a|
  {
    && (forall p, q :: lo <= p < q < hi && p != hole && q != hole ==> e[a[p]] <= e[a[q]])
    && (forall p :: lo <= p < hole < hi ==> e[a[p]] <= e[a[hole]])
  }

  lemma HoleMoves(a: seq<nat>, e: seq<nat>, lo: int, hi: int, hole: int)
    requires Indexes(a, e) && 0 <= lo <= hole && hole + 1 < hi <= |a|
    requires SortedButHole(a, e, lo, hi, hole)
    requires e[a[hole]] >= e[a[hole + 1]]
    ensures Indexes(Swap(a, hole, hole + 1), e)
    ensures SortedButHole(Swap(a, hole, hole + 1), e, lo, hi, hole + 1)
  {
  }

  lemma HoleSettles(a: seq<nat>, e: seq<nat>, lo: int, hi: int, hole: int)
    requires Indexes(a, e) && 0 <= lo <= hole < hi <= |a|
    requires SortedButHole(a, e, lo, hi, hole)
    requires hole + 1 < hi ==> e[a[hole]] <= e[a[hole + 1]]
    ensures SortedBy(a, e, lo, hi)
  {
  }

  /** c, with its entry at hole still to find its place, is a rearrangement of a. */
  ghost predicate Inserting(a: seq<nat>, c: seq<nat>, e: seq<nat>, lo: int, hi: int, hole: int, stride: int) {
    && Indexes(c, e) && Shuffled(a, c, lo, hi) && 0 <= lo <= hole < hi <= |c|
    && (stride == 1 ==> SortedButHole(c, e, lo, hi, hole))
  }

  lemma InsertStep(a: seq<nat>, c: seq<nat>, e: seq<nat>, lo: int, hi: int, hole: int, stride: int)
    requires Inserting(a, c, e, lo, hi, hole, stride)
    requires 1 <= stride && hole + stride < hi && e[c[hole]] >= e[c[hole + stride]]
    ensures Inserting(a, Swap(c, hole, hole + stride), e, lo, hi, hole + stride, stride)
  {
    hide Shuffled, SortedButHole, Indexes, Swap;
    SwapIndexes(c, e, hole, hole + stride);
    SwapShuffles(a, c, hole, hole + stride, lo, hi);
    if stride == 1 {
      HoleMoves(c, e, lo, hi, hole);
    }
  }

  lemma InsertEnds(a: seq<nat>, c: seq<nat>, e: seq<nat>, lo: int, hi: int, hole: int, stride: int)
    requires Inserting(a, c, e, lo, hi, hole, stride)
    requires 1 <= stride && (hole + stride < hi ==> e[c[hole]] <= e[c[hole + stride]])
    ensures Shuffled(a, c, lo, hi) && Indexes(c, e)
    ensures stride == 1 ==> SortedBy(c, e, lo, hi)
  {
    if stride == 1 {
      HoleSettles(c, e, lo, hi, hole);
    }
  }

  lemma InsertStarts(a: seq<nat>, e: seq<nat>, lo: int, hi: int, stride: int)
    requires Indexes(a, e) && 0 <= lo < hi <= |a|
    requires stride == 1 ==> SortedBy(a, e, lo + 1, hi)
    ensures Inserting(a, a, e, lo, hi, lo, stride)
    ensures forall k :: 0 <= k < |a| ==> a[k] < |e|
  {
  }

  /** One insertion with a given stride: the bodies of both loops of fallbackSimpleSort. */
  method Insert(fmap: array<nat>, eclass: array<nat>, i: int, hi: int, stride: int)
    requires fmap != eclass && Indexes(fmap[..], eclass[..])
    requires 0 <= i < i + stride <= hi < fmap.Length && stride >= 1
    requires stride == 1 ==> SortedBy(fmap[..], eclass[..], i + 1, hi + 1)
    modifies fmap
    ensures Shuffled(old(fmap[..]), fmap[..], i, hi + 1) && Indexes(fmap[..], eclass[..])
    ensures stride == 1 ==> SortedBy(fmap[..], eclass[..], i, hi + 1)
  {
    hide *;
    ghost var e, a, c := eclass[..], fmap[..], fmap[..];
    InsertStarts(a, e, i, hi + 1, stride);
    var tmp := fmap[i];
    var ecTmp := eclass[tmp];
    var j := i + stride;
    while j <= hi && ecTmp > eclass[fmap[j]]
      invariant i + stride <= j <= hi + stride
      invariant eclass[..] == e && |c| == fmap.Length && c[j - stride] == tmp
      invariant forall k :: 0 <= k < |c| ==> c[k] < |e|
      invariant forall k :: 0 <= k < |c| && k != j - stride ==> fmap[k] == c[k]
      invariant Inserting(a, c, e, i, hi + 1, j - stride, stride)
    {
      InsertStep(a, c, e, i, hi + 1, j - stride, stride);
      SwapValue(c, j - stride, j);
      c := Swap(c, j - stride, j);
      fmap[j - stride] := fmap[j];
      j := j + stride;
    }
    InsertEnds(a, c, e, i, hi + 1, j - stride, stride);
    fmap[j - stride] := tmp;
    assert fmap[..] == c;
  }

  lemma SwapValue(a: seq<nat>, i: int, j: int)
    requires 0 <= i < |a| && 0 <= j < |a|
    ensures Swap(a, i, j) == a[i := a[j]][j := a[i]]
  {
  }

  lemma ShuffledCompose(a: seq<nat>, b: seq<nat>, c: seq<nat>, lo: int, hi: int, lo': int, hi': int)
    requires Shuffled(a, b, lo, hi) && Shuffled(b, c, lo', hi') && lo <= lo' && hi' <= hi
    ensures Shuffled(a, c, lo, hi)
  {
  }

  lemma ShuffledRefl(a: seq<nat>, lo: int, hi: int)
    requires 0 <= lo <= hi <= |a|
    ensures Shuffled(a, a, lo, hi)
  {
  }

  /** fallbackSimpleSort.  hi is lo - 1 for an empty stretch. */
  method FallbackSimpleSort(fmap: array<nat>, eclass: array<nat>, lo: int, hi: int)
    requires fmap != eclass && Indexes(fmap[..], eclass[..])
    requires 0 <= lo <= hi + 1 <= fmap.Length
    modifies fmap
    ensures Shuffled(old(fmap[..]), fmap[..], lo, hi + 1) && Indexes(fmap[..], eclass[..])
    ensures SortedBy(fmap[..], eclass[..], lo, hi + 1)
  {
    hide Shuffled, Indexes;
    ShuffledRefl(fmap[..], lo, hi + 1);
    if lo == hi {
      return;
    }
    if hi - lo > 3 {
      var i := hi - 4;
      while i >= lo
        invariant lo - 1 <= i <= hi - 4
        invariant Shuffled(old(fmap[..]), fmap[..], lo, hi + 1) && Indexes(fmap[..], eclass[..])
      {
        ghost var b := fmap[..];
        Insert(fmap, eclass, i, hi, 4);
        ShuffledCompose(old(fmap[..]), b, fmap[..], lo, hi + 1, i, hi + 1);
        i := i - 1;
      }
    }
    var i := hi - 1;
    while i >= lo
      invariant lo - 1 <= i || (lo == hi + 1 && i == hi - 1)
      invariant Shuffled(old(fmap[..]), fmap[..], lo, hi + 1) && Indexes(fmap[..], eclass[..])
      invariant i + 1 >= 0 ==> SortedBy(fmap[..], eclass[..], i + 1, hi + 1)
    {
      ghost var b := fmap[..];
      Insert(fmap, eclass, i, hi, 1);
      ShuffledCompose(old(fmap[..]), b, fmap[..], lo, hi + 1, i, hi + 1);
      i := i - 1;
    }
  }

  // ----- fallbackQSort3 -----

  /** fvswap: exchange two disjoint stretches of length n. */
  method VectorSwap(fmap: array<nat>, p1: int, p2: int, n: int)
    requires 0 <= p1 && p1 + n <= p2 && p2 + n <= fmap.Length && n >= 0
    modifies fmap
    ensures VectorSwapped(old(fmap[..]), fmap[..], p1, p2, n)
    ensures Shuffled(old(fmap[..]), fmap[..], p1, p2 + n)
  {
    hide Shuffled, Swap;
    ghost var a := fmap[..];
    var yyp1, yyp2, yyn := p1, p2, n;
    ShuffledRefl(a, p1, p2 + n);
    while yyn > 0
      invariant 0 <= yyn <= n && yyp1 == p1 + (n - yyn) && yyp2 == p2 + (n - yyn)
      invariant VectorSwapped(a, fmap[..], p1, p2, n - yyn)
      invariant Shuffled(a, fmap[..], p1, p2 + n)
    {
      ghost var b := fmap[..];
      SwapShuffles(a, b, yyp1, yyp2, p1, p2 + n);
      SwapValue(b, yyp1, yyp2);
      fmap[yyp1], fmap[yyp2] := fmap[yyp2], fmap[yyp1];
      assert fmap[..] == Swap(b, yyp1, yyp2);
      yyp1, yyp2, yyn := yyp1 + 1, yyp2 + 1, yyn - 1;
    }
  }

  ghost predicate VectorSwapped(a: seq<nat>, b: seq<nat>, p1: int, p2: int, n: int) {
    && |a| == |b| && 0 <= p1 && p1 + n <= p2 && p2 + n <= |a|
    && (forall k :: p1 <= k < p1 + n ==> b[k] == a[k - p1 + p2])
    && (forall k :: p2 <= k < p2 + n ==> b[k] == a[k - p2 + p1])
    && (forall k :: 0 <= k < |a| && !(p1 <= k < p1 + n) && !(p2 <= k < p2 + n) ==> b[k] == a[k])
  }

  /** The borders of the five zones a partitioning pass keeps: equal, less, unseen, greater, equal. */
  datatype Zones = Zones(ltLo: int, unLo: int, unHi: int, gtHi: int)

  ghost predicate Parted(a: seq<nat>, e: seq<nat>, lo: int, hi: int, med: nat, z: Zones) {
    && Indexes(a, e) && 0 <= lo <= z.ltLo <= z.unLo <= z.unHi + 1 <= z.gtHi + 1 <= hi + 1 <= |a|
    && (forall k :: lo <= k < z.ltLo ==> e[a[k]] == med)
    && (forall k :: z.ltLo <= k < z.unLo ==> e[a[k]] < med)
    && (forall k :: z.unHi < k <= z.gtHi ==> e[a[k]] > med)
    && (forall k :: z.gtHi < k <= hi ==> e[a[k]] == med)
  }

  lemma PartUp(a: seq<nat>, e: seq<nat>, lo: int, hi: int, med: nat, z: Zones)
    requires Parted(a, e, lo, hi, med, z) && z.unLo <= z.unHi
    ensures e[a[z.unLo]] == med ==>
      Parted(Swap(a, z.unLo, z.ltLo), e, lo, hi, med, z.(ltLo := z.ltLo + 1, unLo := z.unLo + 1))
    ensures e[a[z.unLo]] < med ==> Parted(a, e, lo, hi, med, z.(unLo := z.unLo + 1))
  {
  }

  lemma PartDown(a: seq<nat>, e: seq<nat>, lo: int, hi: int, med: nat, z: Zones)
    requires Parted(a, e, lo, hi, med, z) && z.unLo <= z.unHi
    ensures e[a[z.unHi]] == med ==>
      Parted(Swap(a, z.unHi, z.gtHi), e, lo, hi, med, z.(gtHi := z.gtHi - 1, unHi := z.unHi - 1))
    ensures e[a[z.unHi]] > med ==> Parted(a, e, lo, hi, med, z.(unHi := z.unHi - 1))
  {
  }

  lemma PartSwap(a: seq<nat>, e: seq<nat>, lo: int, hi: int, med: nat, z: Zones)
    requires Parted(a, e, lo, hi, med, z) && z.unLo < z.unHi
    requires e[a[z.unLo]] > med && e[a[z.unHi]] < med
    ensures Parted(Swap(a, z.unLo, z.unHi), e, lo, hi, med, z.(unLo := z.unLo + 1, unHi := z.unHi - 1))
  {
  }

  /** What the loops of a partitioning pass keep: zones within range, entries rearranged. */
  ghost predicate Pass(a: seq<nat>, b: seq<nat>, e: seq<nat>, lo: int, hi: int, med: nat, z: Zones) {
    Parted(b, e, lo, hi, med, z) && Shuffled(a, b, lo, hi + 1)
  }

  lemma PassBounds(a: seq<nat>, b: seq<nat>, e: seq<nat>, lo: int, hi: int, med: nat, z: Zones)
    requires Pass(a, b, e, lo, hi, med, z)
    ensures 0 <= lo <= z.ltLo <= z.unLo <= z.unHi + 1 <= z.gtHi + 1 <= hi + 1 <= |b| == |a|
    ensures z.unLo <= z.unHi ==> b[z.unLo] < |e| && b[z.unHi] < |e|
  {
  }

  lemma PassUp(a: seq<nat>, b: seq<nat>, e: seq<nat>, lo: int, hi: int, med: nat, z: Zones)
    requires Pass(a, b, e, lo, hi, med, z) && z.unLo <= z.unHi && b[z.unLo] < |e|
    ensures z.ltLo < |b|
    ensures e[b[z.unLo]] == med ==>
      Pass(a, b[z.unLo := b[z.ltLo]][z.ltLo := b[z.unLo]], e, lo, hi, med, z.(ltLo := z.ltLo + 1, unLo := z.unLo + 1))
    ensures e[b[z.unLo]] < med ==> Pass(a, b, e, lo, hi, med, z.(unLo := z.unLo + 1))
  {
    PassBounds(a, b, e, lo, hi, med, z);
    hide Parted, Shuffled;
    PartUp(b, e, lo, hi, med, z);
    SwapShuffles(a, b, z.unLo, z.ltLo, lo, hi + 1);
  }

  lemma PassDown(a: seq<nat>, b: seq<nat>, e: seq<nat>, lo: int, hi: int, med: nat, z: Zones)
    requires Pass(a, b, e, lo, hi, med, z) && z.unLo <= z.unHi && b[z.unHi] < |e|
    ensures z.gtHi < |b|
    ensures e[b[z.unHi]] == med ==>
      Pass(a, b[z.unHi := b[z.gtHi]][z.gtHi := b[z.unHi]], e, lo, hi, med, z.(gtHi := z.gtHi - 1, unHi := z.unHi - 1))
    ensures e[b[z.unHi]] > med ==> Pass(a, b, e, lo, hi, med, z.(unHi := z.unHi - 1))
  {
    PassBounds(a, b, e, lo, hi, med, z);
    hide Parted, Shuffled;
    PartDown(b, e, lo, hi, med, z);
    SwapShuffles(a, b, z.unHi, z.gtHi, lo, hi + 1);
  }

  lemma PassSwap(a: seq<nat>, b: seq<nat>, e: seq<nat>, lo: int, hi: int, med: nat, z: Zones)
    requires Pass(a, b, e, lo, hi, med, z) && z.unLo <= z.unHi && b[z.unLo] < |e| && b[z.unHi] < |e|
    requires e[b[z.unLo]] > med && e[b[z.unHi]] < med
    ensures z.unLo < z.unHi
    ensures Pass(a, b[z.unLo := b[z.unHi]][z.unHi := b[z.unLo]], e, lo, hi, med,
                 z.(unLo := z.unLo + 1, unHi := z.unHi - 1))
  {
    PassBounds(a, b, e, lo, hi, med, z);
    hide Parted, Shuffled;
    PartSwap(b, e, lo, hi, med, z);
    SwapShuffles(a, b, z.unLo, z.unHi, lo, hi + 1);
  }

  /** The first inner loop of a partitioning pass. */
  method ScanUp(fmap: array<nat>, eclass: array<nat>, lo: int, hi: int, med: nat, z0: Zones, ghost a: seq<nat>)
    returns (z: Zones)
    requires fmap != eclass && Pass(a, fmap[..], eclass[..], lo, hi, med, z0)
    modifies fmap
    ensures Pass(a, fmap[..], eclass[..], lo, hi, med, z) && z.unHi == z0.unHi && z.unLo >= z0.unLo
    ensures z.unLo <= z.unHi ==>
      0 <= z.unLo < fmap.Length && fmap[z.unLo] < eclass.Length && eclass[fmap[z.unLo]] > med
  {
    hide *;
    z := z0;
    while true
      invariant Pass(a, fmap[..], eclass[..], lo, hi, med, z) && z.unHi == z0.unHi && z.unLo >= z0.unLo
      decreases z.unHi - z.unLo + 1
    {
      ghost var b := fmap[..];
      PassBounds(a, b, eclass[..], lo, hi, med, z);
      if z.unLo > z.unHi {
        break;
      }
      PassUp(a, b, eclass[..], lo, hi, med, z);
      var n: int := eclass[fmap[z.unLo]] - med;
      if n == 0 {
        fmap[z.unLo], fmap[z.ltLo] := fmap[z.ltLo], fmap[z.unLo];
        assert fmap[..] == b[z.unLo := b[z.ltLo]][z.ltLo := b[z.unLo]];
        z := z.(ltLo := z.ltLo + 1, unLo := z.unLo + 1);
        continue;
      }
      if n > 0 {
        break;
      }
      z := z.(unLo := z.unLo + 1);
    }
  }

  /** The second inner loop. */
  method ScanDown(fmap: array<nat>, eclass: array<nat>, lo: int, hi: int, med: nat, z0: Zones, ghost a: seq<nat>)
    returns (z: Zones)
    requires fmap != eclass && Pass(a, fmap[..], eclass[..], lo, hi, med, z0)
    requires z0.unLo <= z0.unHi ==>
      0 <= z0.unLo < fmap.Length && fmap[z0.unLo] < eclass.Length && eclass[fmap[z0.unLo]] > med
    modifies fmap
    ensures Pass(a, fmap[..], eclass[..], lo, hi, med, z) && z.unLo == z0.unLo && z.unHi <= z0.unHi
    ensures z.unLo <= z.unHi ==>
      && 0 <= z.unLo < fmap.Length && fmap[z.unLo] < eclass.Length && eclass[fmap[z.unLo]] > med
      && z.unHi < fmap.Length && fmap[z.unHi] < eclass.Length && eclass[fmap[z.unHi]] < med
  {
    hide *;
    z := z0;
    while true
      invariant Pass(a, fmap[..], eclass[..], lo, hi, med, z) && z.unLo == z0.unLo && z.unHi <= z0.unHi
      invariant z.unLo <= z.unHi ==>
        0 <= z.unLo < fmap.Length && fmap[z.unLo] < eclass.Length && eclass[fmap[z.unLo]] > med
      decreases z.unHi - z.unLo + 1
    {
      ghost var b := fmap[..];
      PassBounds(a, b, eclass[..], lo, hi, med, z);
      if z.unLo > z.unHi {
        break;
      }
      PassDown(a, b, eclass[..], lo, hi, med, z);
      var n: int := eclass[fmap[z.unHi]] - med;
      if n == 0 {
        fmap[z.unHi], fmap[z.gtHi] := fmap[z.gtHi], fmap[z.unHi];
        assert fmap[..] == b[z.unHi := b[z.gtHi]][z.gtHi := b[z.unHi]];
        z := z.(gtHi := z.gtHi - 1, unHi := z.unHi - 1);
        continue;
      }
      if n < 0 {
        break;
      }
      z := z.(unHi := z.unHi - 1);
    }
  }

  /** A whole partitioning pass: nothing is left unseen. */
  method Partition(fmap: array<nat>, eclass: array<nat>, lo: int, hi: int, med: nat) returns (z: Zones)
    requires fmap != eclass && Indexes(fmap[..], eclass[..]) && 0 <= lo <= hi < fmap.Length
    modifies fmap
    ensures Pass(old(fmap[..]), fmap[..], eclass[..], lo, hi, med, z)
    ensures z.unHi == z.unLo - 1
  {
    ghost var a := fmap[..];
    z := Zones(lo, lo, hi, hi);
    assert Pass(a, a, eclass[..], lo, hi, med, z);
    hide *;
    while true
      invariant Pass(a, fmap[..], eclass[..], lo, hi, med, z)
      decreases z.unHi - z.unLo + 1
    {
      z := ScanUp(fmap, eclass, lo, hi, med, z, a);
      z := ScanDown(fmap, eclass, lo, hi, med, z, a);
      ghost var b := fmap[..];
      PassBounds(a, b, eclass[..], lo, hi, med, z);
      if z.unLo > z.unHi {
        break;
      }
      PassSwap(a, b, eclass[..], lo, hi, med, z);
      fmap[z.unLo], fmap[z.unHi] := fmap[z.unHi], fmap[z.unLo];
      assert fmap[..] == b[z.unLo := b[z.unHi]][z.unHi := b[z.unLo]];
      z := z.(unLo := z.unLo + 1, unHi := z.unHi - 1);
    }
  }

  /** lo .. n is below med, n+1 .. m-1 equals med, m .. hi is above. */
  ghost predicate ThreeWay(a: seq<nat>, e: seq<nat>, lo: int, hi: int, n: int, m: int, med: nat) {
    && Indexes(a, e) && 0 <= lo <= n + 1 <= m <= hi + 1 <= |a|
    && (forall k :: lo <= k <= n ==> e[a[k]] < med)
    && (forall k :: n < k < m ==> e[a[k]] == med)
    && (forall k :: m <= k <= hi ==> e[a[k]] > med)
  }

  /** Moving the equal entries at the left end inwards. */
  lemma GatherLeft(a: seq<nat>, b: seq<nat>, e: seq<nat>, lo: int, hi: int, med: nat, z: Zones, n: int)
    requires Parted(a, e, lo, hi, med, z) && z.unHi == z.unLo - 1 && Indexes(b, e)
    requires n == if z.ltLo - lo < z.unLo - z.ltLo then z.ltLo - lo else z.unLo - z.ltLo
    requires VectorSwapped(a, b, lo, z.unLo - n, n)
    ensures ThreeWay(b, e, lo, z.gtHi, lo + z.unLo - z.ltLo - 1, z.unLo, med)
    ensures forall k :: z.gtHi < k <= hi ==> e[b[k]] == med
  {
  }

  /** Moving the equal entries at the right end inwards. */
  lemma GatherRight(a: seq<nat>, b: seq<nat>, e: seq<nat>, lo: int, hi: int, med: nat, z: Zones, n: int, w: int)
    requires z.unHi == z.unLo - 1 && 0 <= lo <= z.ltLo <= z.unLo <= z.gtHi + 1 <= hi + 1 <= |a|
    requires ThreeWay(a, e, lo, z.gtHi, n, z.unLo, med) && Indexes(b, e)
    requires forall k :: z.gtHi < k <= hi ==> e[a[k]] == med
    requires w == if hi - z.gtHi < z.gtHi - z.unHi then hi - z.gtHi else z.gtHi - z.unHi
    requires VectorSwapped(a, b, z.unLo, hi - w + 1, w)
    ensures ThreeWay(b, e, lo, hi, n, hi - (z.gtHi - z.unHi) + 1, med)
  {
  }

  /** The pivot value occurs, so the equal zones are not both empty. */
  lemma PivotSeen(a: seq<nat>, b: seq<nat>, e: seq<nat>, lo: int, hi: int, med: nat, z: Zones, k: int)
    requires Pass(a, b, e, lo, hi, med, z) && z.unHi == z.unLo - 1
    requires lo <= k <= hi && a[k] < |e| && e[a[k]] == med
    ensures z.ltLo > lo || z.gtHi < hi
  {
    assert Shuffled(b, a, lo, hi + 1);
    var j := ShuffledMember(b, a, lo, hi + 1, k);
  }

  /** The two fvswap calls and the new borders. */
  method GatherEquals(fmap: array<nat>, lo: int, hi: int, med: nat, z: Zones, ghost a: seq<nat>, ghost e: seq<nat>)
    returns (n: int, m: int)
    requires Pass(a, fmap[..], e, lo, hi, med, z) && z.unHi == z.unLo - 1
    modifies fmap
    ensures Shuffled(a, fmap[..], lo, hi + 1) && ThreeWay(fmap[..], e, lo, hi, n, m, med)
    ensures n - lo + 1 == z.unLo - z.ltLo && hi - m + 1 == z.gtHi - z.unHi
  {
    hide Shuffled, Indexes, Parted, VectorSwapped, ThreeWay;
    ghost var b := fmap[..];
    PassBounds(a, b, e, lo, hi, med, z);
    assert Indexes(b, e) by { PartedIndexes(b, e, lo, hi, med, z); }
    n := if z.ltLo - lo < z.unLo - z.ltLo then z.ltLo - lo else z.unLo - z.ltLo;
    VectorSwap(fmap, lo, z.unLo - n, n);
    ghost var c := fmap[..];
    ShuffledCompose(a, b, c, lo, hi + 1, lo, z.unLo);
    ShuffledIndexesIn(b, c, e, lo, z.unLo);
    GatherLeft(b, c, e, lo, hi, med, z, n);
    m := if hi - z.gtHi < z.gtHi - z.unHi then hi - z.gtHi else z.gtHi - z.unHi;
    VectorSwap(fmap, z.unLo, hi - m + 1, m);
    ghost var d := fmap[..];
    ShuffledCompose(a, c, d, lo, hi + 1, z.unLo, hi + 1);
    ShuffledIndexesIn(c, d, e, z.unLo, hi + 1);
    GatherRight(c, d, e, lo, hi, med, z, lo + z.unLo - z.ltLo - 1, m);
    n := lo + z.unLo - z.ltLo - 1;
    m := hi - (z.gtHi - z.unHi) + 1;
  }

  lemma PartedIndexes(b: seq<nat>, e: seq<nat>, lo: int, hi: int, med: nat, z: Zones)
    requires Parted(b, e, lo, hi, med, z)
    ensures Indexes(b, e)
  {
  }

  lemma ShuffledIndexesIn(a: seq<nat>, b: seq<nat>, e: seq<nat>, lo: int, hi: int)
    requires Shuffled(a, b, lo, hi) && Indexes(a, e)
    ensures Indexes(b, e)
  {
    ShuffledIndexes(a, b, e);
  }

  // ----- The explicit stack -----

  /** A stretch still to be sorted; hi is lo - 1 when it is empty. */
  datatype Range = Range(lo: int, hi: int) {
    function Size(): int {
      hi - lo + 1
    }

    predicate Covers(p: int, q: int) {
      lo <= p && q <= hi
    }
  }

  /** Work left: pays for every range, even an empty one, and for splitting. */
  ghost function Work(stack: seq<Range>): (w: nat) {
    if stack == [] then 0
    else
      var size := stack[|stack| - 1].Size();
      Work(stack[..|stack| - 1]) + 1 + if size > 0 then 2 * size else 0
  }

  /** Ranges lie within [lo, hi] and do not overlap. */
  ghost predicate RangesApart(stack: seq<Range>, lo: int, hi: int) {
    && (forall k :: 0 <= k < |stack| ==> lo <= stack[k].lo <= stack[k].hi + 1 <= hi + 1)
    && (forall j, k :: 0 <= j < k < |stack| ==> stack[j].hi < stack[k].lo || stack[k].hi < stack[j].lo)
  }

  /** The k-th range from the bottom has at most size / 2^k entries. */
  ghost predicate StackOk(stack: seq<Range>, lo: int, hi: int) {
    && RangesApart(stack, lo, hi)
    && (forall k :: 0 <= k < |stack| ==> Shl(stack[k].Size(), k) <= hi - lo + 1)
  }

  ghost predicate Together(stack: seq<Range>, p: int, q: int) {
    exists k :: 0 <= k < |stack| && stack[k].Covers(p, q)
  }

  /** Entries are in order unless some range on the stack still holds both. */
  ghost predicate OrderedBut(a: seq<nat>, e: seq<nat>, lo: int, hi: int, stack: seq<Range>)
    requires Indexes(a, e) && 0 <= lo && hi < |a|
  {
    forall p, q :: lo <= p < q <= hi ==> e[a[p]] <= e[a[q]] || Together(stack, p, q)
  }

  /** Where the entry at p was before a stretch was rearranged. */
  lemma MovedFrom(a: seq<nat>, b: seq<nat>, lo: int, hi: int, p: int) returns (p': int)
    requires Shuffled(a, b, lo, hi) && 0 <= p < |a|
    ensures 0 <= p' < |a| && a[p'] == b[p] && if lo <= p < hi then lo <= p' < hi else p' == p
  {
    p' := p;
    if lo <= p < hi {
      p' := ShuffledMember(a, b, lo, hi, p);
    }
  }

  /** Entries outside r keep their order with all entries of r when r is rearranged. */
  lemma AcrossRange(a: seq<nat>, b: seq<nat>, e: seq<nat>, lo: int, hi: int, stack: seq<Range>, r: Range, p: int,
                    q: int)
    requires Indexes(a, e) && Indexes(b, e) && 0 <= lo && hi < |a|
    requires RangesApart(stack + [r], lo, hi) && OrderedBut(a, e, lo, hi, stack + [r])
    requires Shuffled(a, b, r.lo, r.hi + 1)
    requires lo <= p < q <= hi && !r.Covers(p, q)
    ensures e[b[p]] <= e[b[q]] || Together(stack, p, q)
  {
    var p' := MovedFrom(a, b, r.lo, r.hi + 1, p);
    var q' := MovedFrom(a, b, r.lo, r.hi + 1, q);
    assert a[p'] == b[p] && a[q'] == b[q] && p' < q' && !r.Covers(p', q');
    assert e[a[p']] <= e[a[q']] || Together(stack + [r], p', q');
    if Together(stack + [r], p', q') {
      var k :| 0 <= k < |stack + [r]| && (stack + [r])[k].Covers(p', q');
      assert k < |stack| && stack[k] == (stack + [r])[k] && (stack + [r])[|stack|] == r;
      assert stack[k].hi < r.lo || r.hi < stack[k].lo;
      assert p' == p && q' == q;
    }
  }

  /** A range sorted in place can be taken off the stack. */
  lemma RangeSorted(a: seq<nat>, b: seq<nat>, e: seq<nat>, lo: int, hi: int, stack: seq<Range>, r: Range)
    requires Indexes(a, e) && Indexes(b, e) && 0 <= lo && hi < |a|
    requires RangesApart(stack + [r], lo, hi) && OrderedBut(a, e, lo, hi, stack + [r])
    requires Shuffled(a, b, r.lo, r.hi + 1)
    requires SortedBy(b, e, r.lo, r.hi + 1)
    ensures OrderedBut(b, e, lo, hi, stack)
  {
    forall p, q | lo <= p < q <= hi
      ensures e[b[p]] <= e[b[q]] || Together(stack, p, q)
    {
      if !r.Covers(p, q) {
        AcrossRange(a, b, e, lo, hi, stack, r, p, q);
      }
    }
  }

  /** A partitioned range can be replaced by its two outer parts, in either order. */
  lemma RangeSplit(a: seq<nat>, b: seq<nat>, e: seq<nat>, lo: int, hi: int, stack: seq<Range>, r: Range,
                   n: int, m: int, med: nat, x: Range, y: Range)
    requires Indexes(a, e) && Indexes(b, e) && 0 <= lo && hi < |a|
    requires RangesApart(stack + [r], lo, hi) && OrderedBut(a, e, lo, hi, stack + [r])
    requires Shuffled(a, b, r.lo, r.hi + 1)
    requires ThreeWay(b, e, r.lo, r.hi, n, m, med)
    requires {x, y} == {Range(r.lo, n), Range(m, r.hi)}
    ensures OrderedBut(b, e, lo, hi, stack + [x, y])
  {
    forall p, q | lo <= p < q <= hi
      ensures e[b[p]] <= e[b[q]] || Together(stack + [x, y], p, q)
    {
      var s := stack + [x, y];
      assert s[|stack|] == x && s[|stack| + 1] == y;
      if !r.Covers(p, q) {
        AcrossRange(a, b, e, lo, hi, stack, r, p, q);
        if Together(stack, p, q) {
          var k :| 0 <= k < |stack| && stack[k].Covers(p, q);
          assert s[k].Covers(p, q);
        }
      } else if q <= n {
        assert Range(r.lo, n) in {x, y};
        assert x.Covers(p, q) || y.Covers(p, q);
      } else if p >= m {
        assert Range(m, r.hi) in {x, y};
        assert x.Covers(p, q) || y.Covers(p, q);
      }
    }
  }

  lemma {:induction false} ShlMonotone(v: nat, w: nat, k: nat)
    requires v <= w
    ensures Shl(v, k) <= Shl(w, k)
    decreases k
  {
    if k > 0 {
      ShlMonotone(v, w, k - 1);
    }
  }

  lemma {:induction false} ShlAtLeast(v: nat, k: nat)
    requires v >= 1
    ensures Shl(v, k) >= Pow2(k)
    decreases k
  {
    if k > 0 {
      ShlAtLeast(v, k - 1);
    }
  }

  lemma Million()
    ensures Pow2(20) == 1048576
  {
    assert Pow2(10) == 1024;
    assert Pow2(15) == 32768;
  }

  /** A range that is not empty cannot lie deep on the stack. */
  lemma NonEmptyIsShallow(size: nat, k: nat)
    requires size > 0 && Shl(size, k) <= MAX_BLOCK
    ensures k < 20
  {
    ShlAtLeast(size, k);
    if k >= 20 {
      PowMonotone(20, k);
      Million();
    }
  }

  lemma StackPop(stack: seq<Range>, r: Range, lo: int, hi: int)
    requires StackOk(stack + [r], lo, hi)
    ensures StackOk(stack, lo, hi) && RangesApart(stack + [r], lo, hi)
    ensures lo <= r.lo <= r.hi + 1 <= hi + 1 && Shl(r.Size(), |stack|) <= hi - lo + 1
    ensures Work(stack) < Work(stack + [r])
  {
    var s := stack + [r];
    assert s[|stack|] == r && s[..|stack|] == stack;
    assert forall k :: 0 <= k < |stack| ==> s[k] == stack[k];
  }

  /** x and y are disjoint parts of r, y at most half of it. */
  ghost predicate Splits(r: Range, x: Range, y: Range) {
    && r.lo <= x.lo <= x.hi + 1 <= r.hi + 1 && r.lo <= y.lo <= y.hi + 1 <= r.hi + 1
    && (x.hi < y.lo || y.hi < x.lo)
    && x.Size() + y.Size() < r.Size() && y.Size() <= x.Size()
  }

  lemma SplitSizes(r: Range, x: Range, y: Range, k: nat)
    requires Splits(r, x, y)
    ensures Shl(x.Size(), k) <= Shl(r.Size(), k)
    ensures Shl(y.Size(), k + 1) <= Shl(r.Size(), k)
  {
    ShlMonotone(x.Size(), r.Size(), k);
    ShlMonotone(2 * y.Size(), r.Size(), k);
    ShlShl(y.Size(), 1, k);
    assert Shl(y.Size(), 1) == 2 * y.Size();
  }

  lemma SplitWork(stack: seq<Range>, r: Range, x: Range, y: Range)
    requires Splits(r, x, y)
    ensures Work(stack + [x, y]) < Work(stack + [r])
  {
    var n := |stack|;
    assert (stack + [x, y])[..n + 1] == stack + [x];
    assert (stack + [x])[..n] == stack && (stack + [r])[..n] == stack;
  }

  /** The larger part goes below, the smaller part, at most half of r, on top. */
  lemma StackSplit(stack: seq<Range>, r: Range, lo: int, hi: int, x: Range, y: Range)
    requires StackOk(stack + [r], lo, hi) && Splits(r, x, y)
    ensures StackOk(stack + [x, y], lo, hi)
    ensures Work(stack + [x, y]) < Work(stack + [r])
  {
    hide Shl, Work;
    StackPop(stack, r, lo, hi);
    SplitWork(stack, r, x, y);
    var s, t, n := stack + [r], stack + [x, y], |stack|;
    assert s[n] == r && t[n] == x && t[n + 1] == y;
    assert forall k :: 0 <= k < n ==> s[k] == stack[k] == t[k];
    SplitSizes(r, x, y, n);
  }

  lemma Popped(stack: seq<Range>)
    requires stack != []
    ensures stack == stack[..|stack| - 1] + [stack[|stack| - 1]]
  {
  }

  lemma OrderedStart(a: seq<nat>, e: seq<nat>, lo: int, hi: int)
    requires Indexes(a, e) && 0 <= lo <= hi + 1 <= |a|
    ensures StackOk([Range(lo, hi)], lo, hi) && OrderedBut(a, e, lo, hi, [Range(lo, hi)])
  {
    var s := [Range(lo, hi)];
    assert s[0].lo == lo && s[0].hi == hi;
    forall p, q | lo <= p < q <= hi
      ensures Together(s, p, q)
    {
      assert s[0].Covers(p, q);
    }
  }

  lemma OrderedEnd(a: seq<nat>, e: seq<nat>, lo: int, hi: int)
    requires Indexes(a, e) && 0 <= lo <= hi + 1 <= |a| && OrderedBut(a, e, lo, hi, [])
    ensures SortedBy(a, e, lo, hi + 1)
  {
    forall p, q | lo <= p < q < hi + 1
      ensures e[a[p]] <= e[a[q]]
    {
      assert !Together([], p, q);
    }
  }

  /** What the main loop of fallbackQSort3 keeps. */
  ghost predicate Sorting(a: seq<nat>, b: seq<nat>, e: seq<nat>, lo: int, hi: int, stack: seq<Range>) {
    && Indexes(b, e) && 0 <= lo <= hi + 1 <= |b|
    && Shuffled(a, b, lo, hi + 1)
    && StackOk(stack, lo, hi) && OrderedBut(b, e, lo, hi, stack)
  }

  lemma SortingRange(a: seq<nat>, b: seq<nat>, e: seq<nat>, lo: int, hi: int, stack: seq<Range>, r: Range)
    requires Sorting(a, b, e, lo, hi, stack + [r])
    ensures 0 <= lo <= r.lo <= r.hi + 1 <= hi + 1 <= |b| && Indexes(b, e)
    ensures Shl(r.Size(), |stack|) <= hi - lo + 1
    ensures Work(stack) < Work(stack + [r])
  {
    StackPop(stack, r, lo, hi);
  }

  lemma SortingPop(a: seq<nat>, b: seq<nat>, c: seq<nat>, e: seq<nat>, lo: int, hi: int, stack: seq<Range>, r: Range)
    requires Sorting(a, b, e, lo, hi, stack + [r]) && Indexes(c, e)
    requires Shuffled(b, c, r.lo, r.hi + 1) && SortedBy(c, e, r.lo, r.hi + 1)
    ensures Sorting(a, c, e, lo, hi, stack)
  {
    hide Shuffled, StackOk, OrderedBut, SortedBy, Indexes;
    StackPop(stack, r, lo, hi);
    RangeSorted(b, c, e, lo, hi, stack, r);
    ShuffledCompose(a, b, c, lo, hi + 1, r.lo, r.hi + 1);
    ShuffledLength(b, c, r.lo, r.hi + 1);
  }

  lemma SortingSplit(a: seq<nat>, b: seq<nat>, c: seq<nat>, e: seq<nat>, lo: int, hi: int, stack: seq<Range>, r: Range,
                     n: int, m: int, med: nat, x: Range, y: Range)
    requires Sorting(a, b, e, lo, hi, stack + [r])
    requires Shuffled(b, c, r.lo, r.hi + 1) && ThreeWay(c, e, r.lo, r.hi, n, m, med)
    requires {x, y} == {Range(r.lo, n), Range(m, r.hi)} && Splits(r, x, y)
    ensures Sorting(a, c, e, lo, hi, stack + [x, y])
    ensures Work(stack + [x, y]) < Work(stack + [r])
  {
    hide Shuffled, StackOk, OrderedBut, Indexes, Work;
    StackPop(stack, r, lo, hi);
    RangeSplit(b, c, e, lo, hi, stack, r, n, m, med, x, y);
    StackSplit(stack, r, lo, hi, x, y);
    ShuffledCompose(a, b, c, lo, hi + 1, r.lo, r.hi + 1);
    ShuffledLength(b, c, r.lo, r.hi + 1);
  }

  lemma ShuffledLength(a: seq<nat>, b: seq<nat>, lo: int, hi: int)
    requires Shuffled(a, b, lo, hi)
    ensures |a| == |b|
  {
  }

  lemma AllEqual(a: seq<nat>, b: seq<nat>, e: seq<nat>, lo: int, hi: int, med: nat, z: Zones)
    requires Pass(a, b, e, lo, hi, med, z) && z.unHi == z.unLo - 1 && z.gtHi < z.ltLo
    ensures Indexes(b, e) && Shuffled(a, b, lo, hi + 1) && SortedBy(b, e, lo, hi + 1)
  {
  }

  /** Sorting one popped range down to at most two smaller ones. */
  method SplitRange(fmap: array<nat>, eclass: array<nat>, lo: int, hi: int, med: nat, ghost k: int)
    returns (done: bool, n: int, m: int)
    requires fmap != eclass && Indexes(fmap[..], eclass[..]) && 0 <= lo <= hi < fmap.Length
    requires lo <= k <= hi && fmap[k] < eclass.Length && eclass[fmap[k]] == med
    modifies fmap
    ensures Shuffled(old(fmap[..]), fmap[..], lo, hi + 1) && Indexes(fmap[..], eclass[..])
    ensures done ==> SortedBy(fmap[..], eclass[..], lo, hi + 1)
    ensures !done ==> ThreeWay(fmap[..], eclass[..], lo, hi, n, m, med) && (n - lo + 1) + (hi - m + 1) <= hi - lo
    ensures !done ==> lo <= n + 1 <= m <= hi + 1
  {
    hide Shuffled, Indexes, SortedBy, Pass, Parted;
    ghost var a, e := fmap[..], eclass[..];
    var z := Partition(fmap, eclass, lo, hi, med);
    n, m := lo, hi;
    PivotSeen(a, fmap[..], e, lo, hi, med, z, k);
    PassBounds(a, fmap[..], e, lo, hi, med, z);
    if z.gtHi < z.ltLo {
      AllEqual(a, fmap[..], e, lo, hi, med, z);
      return true, n, m;
    }
    n, m := GatherEquals(fmap, lo, hi, med, z, a, e);
    done := false;
  }

  /** fallbackQSort3.  The stack never outgrows its 100 entries, so assertion 1004 cannot fail. */
  method FallbackQSort3(fmap: array<nat>, eclass: array<nat>, loSt: int, hiSt: int)
    requires fmap != eclass && Indexes(fmap[..], eclass[..])
    requires 0 <= loSt <= hiSt + 1 <= fmap.Length <= MAX_BLOCK
    modifies fmap
    ensures Shuffled(old(fmap[..]), fmap[..], loSt, hiSt + 1) && Indexes(fmap[..], eclass[..])
    ensures SortedBy(fmap[..], eclass[..], loSt, hiSt + 1)
  {
    hide Shuffled, Indexes, SortedBy, StackOk, OrderedBut, Work, ThreeWay, Shl;
    ghost var a, e := fmap[..], eclass[..];
    var r := 0;
    var stack := [Range(loSt, hiSt)];
    OrderedStart(a, e, loSt, hiSt);
    ShuffledRefl(a, loSt, hiSt + 1);
    while |stack| > 0
      invariant |stack| <= 21 && 0 <= r < 32768
      invariant eclass[..] == e && Sorting(a, fmap[..], e, loSt, hiSt, stack)
      decreases Work(stack)
    {
      assert |stack| < FALLBACK_QSORT_STACK_SIZE - 1;
      Popped(stack);
      var top := stack[|stack| - 1];
      stack := stack[..|stack| - 1];
      var lo, hi := top.lo, top.hi;
      ghost var b := fmap[..];
      SortingRange(a, b, e, loSt, hiSt, stack, top);
      if hi - lo < FALLBACK_QSORT_SMALL_THRESH {
        FallbackSimpleSort(fmap, eclass, lo, hi);
        SortingPop(a, b, fmap[..], e, loSt, hiSt, stack, top);
        continue;
      }
      NonEmptyIsShallow(top.Size(), |stack|);
      r := ((r * 7621) + 1) % 32768;
      var r3 := r % 3;
      var pivot := if r3 == 0 then lo else if r3 == 1 then (lo + hi) / 2 else hi;
      assert fmap[pivot] < eclass.Length by { IndexesAt(b, e, pivot); }
      var med := eclass[fmap[pivot]];
      var done, n, m := SplitRange(fmap, eclass, lo, hi, med, pivot);
      if done {
        SortingPop(a, b, fmap[..], e, loSt, hiSt, stack, top);
        continue;
      }
      var less, more := Range(lo, n), Range(m, hi);
      if n - lo > hi - m {
        SortingSplit(a, b, fmap[..], e, loSt, hiSt, stack, top, n, m, med, less, more);
        stack := stack + [less, more];
      } else {
        SortingSplit(a, b, fmap[..], e, loSt, hiSt, stack, top, n, m, med, more, less);
        stack := stack + [more, less];
      }
    }
    OrderedEnd(fmap[..], e, loSt, hiSt);
  }

  lemma IndexesAt(a: seq<nat>, e: seq<nat>, k: int)
    requires Indexes(a, e) && 0 <= k < |a|
    ensures a[k] < |e|
  {
  }
}
