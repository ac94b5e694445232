/** mainSimpleSort: shell sort of rotations that agree on their first bytes. */
module MainShellSort {

  import opened Rotations
  import opened QuickSort
  import opened MainCompare

  /** The rotations in s agree on their first d bytes. */
  ghost predicate Agreeing(b: Block, s: set<nat>, d: nat) {
    && (forall x :: x in s ==> x < |b|)
    && (forall x, y :: x in s && y in s ==> EqualTo(b, x, y, d))
  }

  ghost predicate Holds(a: seq<nat>, lo: int, hi: int, s: set<nat>) {
    0 <= lo && hi <= |a| && forall k :: lo <= k < hi ==> a[k] in s
  }

  // ----- Insertion from the right -----

  /** lo .. hi - 1 is sorted but for the entry at hole, which is at most all behind it. */
  ghost predicate SortedButLow(a: seq<nat>, e: seq<nat>, lo: int, hi: int, hole: int)
    requires Indexes(a, e) && 0 <= lo && hi <= |a|
  {
    && (forall p, q :: lo <= p < q < hi && p != hole && q != hole ==> e[a[p]] <= e[a[q]])
    && (forall q :: lo <= hole < q < hi ==> e[a[hole]] <= e[a[q]])
  }

  /** c, with its entry at hole still to find its place among lo .. i, rearranges a. */
  ghost predicate Sinking(a: seq<nat>, c: seq<nat>, e: seq<nat>, lo: int, hi: int, i: int, hole: int, stride: int,
                          s: set<nat>) {
    && Indexes(c, e) && Shuffled(a, c, lo, hi) && 0 <= lo <= hole <= i < hi <= |c| && Holds(c, lo, hi, s)
    && (stride == 1 ==> SortedButLow(c, e, lo, i + 1, hole))
  }

  lemma SinkStep(a: seq<nat>, c: seq<nat>, e: seq<nat>, lo: int, hi: int, i: int, hole: int, stride: int, s: set<nat>)
    requires Sinking(a, c, e, lo, hi, i, hole, stride, s)
    requires 1 <= stride && lo <= hole - stride && e[c[hole]] <= e[c[hole - stride]]
    ensures Sinking(a, Swap(c, hole, hole - stride), e, lo, hi, i, hole - stride, stride, s)
  {
    hide Shuffled;
    SwapIndexes(c, e, hole, hole - stride);
    SwapShuffles(a, c, hole, hole - stride, lo, hi);
  }

  lemma SinkEnds(a: seq<nat>, c: seq<nat>, e: seq<nat>, lo: int, hi: int, i: int, hole: int, stride: int, s: set<nat>)
    requires Sinking(a, c, e, lo, hi, i, hole, stride, s) && 1 <= stride
    requires hole - stride < lo || e[c[hole - stride]] <= e[c[hole]]
    ensures Shuffled(a, c, lo, hi) && Indexes(c, e) && Holds(c, lo, hi, s)
    ensures stride == 1 ==> SortedBy(c, e, lo, i + 1)
  {
  }

  lemma SinkStarts(a: seq<nat>, e: seq<nat>, lo: int, hi: int, i: int, stride: int, s: set<nat>)
    requires Indexes(a, e) && 0 <= lo <= i < hi <= |a| && Holds(a, lo, hi, s)
    requires stride == 1 ==> SortedBy(a, e, lo, i)
    ensures Sinking(a, a, e, lo, hi, i, i, stride, s)
  {
  }

  lemma SinkFacts(a: seq<nat>, c: seq<nat>, e: seq<nat>, lo: int, hi: int, i: int, hole: int, stride: int, s: set<nat>)
    requires Sinking(a, c, e, lo, hi, i, hole, stride, s)
    ensures |c| == |a| && 0 <= lo <= hole <= i < hi <= |c|
    ensures forall k :: lo <= k < hi ==> c[k] in s && c[k] < |e|
  {
  }

  /** No value occurs twice. */
  ghost predicate OnceEach(a: seq<nat>) {
    forall x: nat :: multiset(a)[x] <= 1
  }

  lemma OnceEachDiffers(a: seq<nat>, i: nat, j: nat)
    requires OnceEach(a) && i < j < |a|
    ensures a[i] != a[j]
  {
    assert a == a[..i] + [a[i]] + a[i + 1..];
    assert a[j] == a[i + 1..][j - i - 1] && a[j] in a[i + 1..];
    assert multiset(a)[a[i]] == multiset(a[..i])[a[i]] + 1 + multiset(a[i + 1..])[a[i]];
  }

  lemma {:induction false} DistinctOnce(a: seq<nat>)
    requires forall i, j :: 0 <= i < j < |a| ==> a[i] != a[j]
    ensures OnceEach(a)
  {
    if a != [] {
      var m := |a| - 1;
      DistinctOnce(a[..m]);
      assert a == a[..m] + [a[m]];
      assert a[m] !in a[..m];
    }
  }

  lemma OnceEachShuffled(a: seq<nat>, c: seq<nat>, lo: int, hi: int)
    requires Shuffled(a, c, lo, hi)
    ensures OnceEach(c) == OnceEach(a)
  {
  }

  /** Comparing two different entries costs nothing in a varied block. */
  lemma SinkFree(a: seq<nat>, c: seq<nat>, e: seq<nat>, lo: int, hi: int, i: int, hole: int, stride: int, s: set<nat>,
                 b: Block, d: nat, charge: int)
    requires Sinking(a, c, e, lo, hi, i, hole, stride, s) && stride >= 1 && lo <= hole - stride
    requires 0 <= hole < |c| && c[hole - stride] < |b| && c[hole] < |b|
    requires ChargedFor(b, c[hole - stride], c[hole], d, charge)
    ensures charge >= 0 && (OnceEach(a) && Varied(b) ==> charge == 0)
  {
    hide Holds, Indexes, SortedButLow, OnceEach, Varied;
    OnceEachShuffled(a, c, lo, hi);
    if OnceEach(a) && Varied(b) {
      OnceEachDiffers(c, hole - stride, hole);
      NoCharge(b, c[hole - stride], c[hole], d, charge);
    }
  }

  lemma AgreeingAt(b: Block, s: set<nat>, d: nat, x: nat, y: nat)
    requires Agreeing(b, s, d) && x in s && y in s
    ensures x < |b| && y < |b| && EqualTo(b, x, y, d)
  {
  }

  /** The body of one "copy" in mainSimpleSort. */
  method InsertBack(ptr: array<nat>, block: array<Byte>, quadrant: array<nat>, nblock: nat, lo: int, hi: int, i: int,
                    h: int, d: nat,
                    budget0: int, ghost b: Block, ghost s: set<nat>) returns (budget: int)
    requires Extended(block[..], quadrant[..], b) && nblock == |b| && d <= 15 && Agreeing(b, s, d)
    requires ptr != quadrant && Indexes(ptr[..], Orders(b)) && 0 <= lo && h >= 1 && lo + h <= i <= hi < ptr.Length
    requires Holds(ptr[..], lo, hi + 1, s) && (h == 1 ==> SortedBy(ptr[..], Orders(b), lo, i))
    modifies ptr
    ensures Shuffled(old(ptr[..]), ptr[..], lo, hi + 1) && Indexes(ptr[..], Orders(b)) && Holds(ptr[..], lo, hi + 1, s)
    ensures h == 1 ==> SortedBy(ptr[..], Orders(b), lo, i + 1)
    ensures budget <= budget0 && (OnceEach(old(ptr[..])) && Varied(b) ==> budget == budget0)
  {
    hide *;
    ghost var e, a, c := Orders(b), ptr[..], ptr[..];
    SinkStarts(a, e, lo, hi + 1, i, h, s);
    SinkFacts(a, c, e, lo, hi + 1, i, i, h, s);
    budget := budget0;
    var v := ptr[i];
    var j := i;
    var gt := true;
    while true
      invariant lo + h <= j <= i && |c| == ptr.Length && c[j] == v
      invariant budget <= budget0 && (OnceEach(a) && Varied(b) ==> budget == budget0)
      invariant forall k :: 0 <= k < |c| && k != j ==> ptr[k] == c[k]
      invariant Sinking(a, c, e, lo, hi + 1, i, j, h, s)
      decreases j
    {
      SinkFacts(a, c, e, lo, hi + 1, i, j, h, s);
      AgreeingAt(b, s, d, c[j - h], v);
      ghost var last, before := 0, budget;
      gt, budget, last := MainGtU(ptr[j - h] + d, v + d, block, quadrant, nblock, budget, b, ptr[j - h], v, d);
      SinkFree(a, c, e, lo, hi + 1, i, j, h, s, b, d, before - budget);
      if !gt {
        break;
      }
      SinkStep(a, c, e, lo, hi + 1, i, j, h, s);
      SwapValue(c, j, j - h);
      c := Swap(c, j, j - h);
      ptr[j] := ptr[j - h];
      j := j - h;
      if j <= lo + h - 1 {
        break;
      }
    }
    SinkFacts(a, c, e, lo, hi + 1, i, j, h, s);
    SinkEnds(a, c, e, lo, hi + 1, i, j, h, s);
    ptr[j] := v;
    assert ptr[..] == c;
  }

  // ----- The shell sort -----

  const INCS: seq<nat> := [1, 4, 13, 40, 121, 364, 1093, 3280, 9841, 29524, 88573, 265720, 797161, 2391484]

  /** What the sort keeps at all times. */
  ghost predicate Kept(a: seq<nat>, c: seq<nat>, e: seq<nat>, lo: int, hi: int, s: set<nat>) {
    Shuffled(a, c, lo, hi) && Indexes(c, e) && Holds(c, lo, hi, s)
  }

  lemma KeptMore(a: seq<nat>, c: seq<nat>, c': seq<nat>, e: seq<nat>, lo: int, hi: int, s: set<nat>)
    requires Kept(a, c, e, lo, hi, s) && Kept(c, c', e, lo, hi, s)
    ensures Kept(a, c', e, lo, hi, s)
  {
    ShuffledCompose(a, c, c', lo, hi, lo, hi);
  }

  lemma KeptOnce(a: seq<nat>, c: seq<nat>, e: seq<nat>, lo: int, hi: int, s: set<nat>)
    requires Kept(a, c, e, lo, hi, s)
    ensures OnceEach(c) == OnceEach(a)
  {
    OnceEachShuffled(a, c, lo, hi);
  }

  /** One stage with stride h; false when the budget ran out. */
  method Stage(ptr: array<nat>, block: array<Byte>, quadrant: array<nat>, nblock: nat, lo: int, hi: int, h: int, d: nat,
               budget0: int, ghost b: Block, ghost s: set<nat>) returns (done: bool, budget: int)
    requires Extended(block[..], quadrant[..], b) && nblock == |b| && d <= 15 && Agreeing(b, s, d)
    requires ptr != quadrant && Indexes(ptr[..], Orders(b)) && 0 <= lo <= hi < ptr.Length && h >= 1
    requires Holds(ptr[..], lo, hi + 1, s)
    modifies ptr
    ensures Kept(old(ptr[..]), ptr[..], Orders(b), lo, hi + 1, s) && budget <= budget0
    ensures OnceEach(old(ptr[..])) && Varied(b) ==> budget == budget0
    ensures done && h == 1 ==> SortedBy(ptr[..], Orders(b), lo, hi + 1)
    ensures !done ==> budget < 0
  {
    hide Extended, Agreeing, Holds, Shuffled, Indexes, SortedBy, Orders, OnceEach, Varied;
    ghost var e, a := Orders(b), ptr[..];
    ShuffledRefl(a, lo, hi + 1);
    budget := budget0;
    done := true;
    var i := lo + h;
    SortedAlone(a, e, lo);
    while true
      invariant lo + h <= i && (i <= hi + 1 || i == lo + h) && budget <= budget0
      invariant OnceEach(a) && Varied(b) ==> budget == budget0
      invariant Kept(a, ptr[..], e, lo, hi + 1, s)
      invariant h == 1 && i <= hi + 1 ==> SortedBy(ptr[..], e, lo, i)
      decreases hi - i
    {
      ghost var i0 := i;
      var n := 0;
      while n < 3 && i <= hi
        invariant lo + h <= i && (i <= hi + 1 || i == lo + h) && budget <= budget0 && n <= 3 && i == i0 + n
        invariant OnceEach(a) && Varied(b) ==> budget == budget0
        invariant Kept(a, ptr[..], e, lo, hi + 1, s)
        invariant h == 1 && i <= hi + 1 ==> SortedBy(ptr[..], e, lo, i)
        decreases hi - i
      {
        ghost var c := ptr[..];
        KeptOnce(a, c, e, lo, hi + 1, s);
        budget := InsertBack(ptr, block, quadrant, nblock, lo, hi, i, h, d, budget, b, s);
        KeptMore(a, c, ptr[..], e, lo, hi + 1, s);
        i := i + 1;
        n := n + 1;
      }
      if n < 3 {
        break;
      }
      if budget < 0 {
        return false, budget;
      }
    }
  }

  lemma SortedAlone(a: seq<nat>, e: seq<nat>, lo: int)
    requires Indexes(a, e) && 0 <= lo < |a|
    ensures SortedBy(a, e, lo, lo + 1)
  {
  }

  /** mainSimpleSort: when the budget lasts, the range is in order. */
  method MainSimpleSort(ptr: array<nat>, block: array<Byte>, quadrant: array<nat>, nblock: nat, lo: int, hi: int,
                        d: nat,
                        budget0: int, ghost b: Block, ghost s: set<nat>) returns (budget: int)
    requires Extended(block[..], quadrant[..], b) && nblock == |b| <= MAX_BLOCK && d <= 15 && Agreeing(b, s, d)
    requires ptr != quadrant && Indexes(ptr[..], Orders(b)) && 0 <= lo <= hi + 1 <= ptr.Length <= MAX_BLOCK
    requires Holds(ptr[..], lo, hi + 1, s)
    modifies ptr
    ensures Kept(old(ptr[..]), ptr[..], Orders(b), lo, hi + 1, s) && budget <= budget0
    ensures OnceEach(old(ptr[..])) && Varied(b) ==> budget == budget0
    ensures budget >= 0 ==> SortedBy(ptr[..], Orders(b), lo, hi + 1)
  {
    hide Extended, Agreeing, Holds, Shuffled, Indexes, SortedBy, Orders, OnceEach, Varied;
    ghost var e, a := Orders(b), ptr[..];
    ShuffledRefl(a, lo, hi + 1);
    budget := budget0;
    var bigN := hi - lo + 1;
    if bigN < 2 {
      SortedShort(a, e, lo, hi + 1);
      return;
    }
    var hp := 0;
    while INCS[hp] < bigN
      invariant 0 <= hp <= 13
      decreases 13 - hp
    {
      hp := hp + 1;
    }
    hp := hp - 1;
    while hp >= 0
      invariant -1 <= hp <= 12 && budget <= budget0 && (OnceEach(a) && Varied(b) ==> budget == budget0)
      invariant Kept(a, ptr[..], e, lo, hi + 1, s)
      invariant hp == -1 ==> SortedBy(ptr[..], e, lo, hi + 1)
    {
      ghost var c := ptr[..];
      KeptOnce(a, c, e, lo, hi + 1, s);
      var done;
      done, budget := Stage(ptr, block, quadrant, nblock, lo, hi, INCS[hp], d, budget, b, s);
      KeptMore(a, c, ptr[..], e, lo, hi + 1, s);
      if !done {
        return;
      }
      hp := hp - 1;
    }
  }

  lemma SortedShort(a: seq<nat>, e: seq<nat>, lo: int, hi: int)
    requires Indexes(a, e) && 0 <= lo && hi <= |a| && hi <= lo + 1
    ensures SortedBy(a, e, lo, hi)
  {
  }
}
