/** The first half of mainSort: counting two-byte words and the radix sort by them. */
module MainRadixSort {

  import opened Permutations
  import opened Rotations
  import opened BurrowsWheeler
  import opened QuickSort
  import opened MainCompare

  const WORDS: nat := 65536

  /** The two bytes at each position, as one number. */
  function Words(b: Block): (w: seq<int>)
    ensures |w| == |b|
    ensures forall x :: 0 <= x < |w| ==> 0 <= w[x] < WORDS && w[x] == 256 * (b[x] as int) + b[Next(x, |b|)]
  {
    seq(|b|, x requires 0 <= x < |b| => WordAt(b, x))
  }

  function WordAt(b: Block, x: nat): (v: int)
    requires x < |b|
    ensures 0 <= v < WORDS
  {
    256 * (b[x] as int) + b[Next(x, |b|)]
  }

  /** The first row of small bucket v; bucket v ends where bucket v + 1 begins. */
  function Row(w: seq<int>, v: int): (r: nat)
    ensures r <= |w|
  {
    Smaller(w, v, |w|)
  }

  /** Each row holds a position whose word owns that row. */
  ghost predicate Layout(p: seq<nat>, w: seq<int>) {
    && IsPermutation(p, |w|)
    && (forall k :: 0 <= k < |w| ==> Row(w, w[p[k]]) <= k < Row(w, w[p[k]] + 1))
  }

  lemma {:induction false} RowEnds(w: seq<int>, m: nat)
    requires m <= |w| && forall x :: 0 <= x < |w| ==> 0 <= w[x] < WORDS
    ensures Smaller(w, 0, m) == 0 && Smaller(w, WORDS, m) == m
  {
    if m > 0 {
      RowEnds(w, m - 1);
    }
  }

  // ----- Counting -----

  /** ftab[v] counts the words v at positions i and above. */
  ghost predicate Tallies(ftab: seq<nat>, w: seq<int>, i: nat)
    requires i <= |w|
  {
    && |ftab| == WORDS + 1
    && forall v :: 0 <= v <= WORDS ==> ftab[v] == Occurrences(w, v, |w|) - Occurrences(w, v, i)
  }

  lemma TalliesNext(ftab: seq<nat>, w: seq<int>, i: nat)
    requires i < |w| && Tallies(ftab, w, i + 1) && 0 <= w[i] < WORDS
    ensures Tallies(ftab[w[i] := ftab[w[i]] + 1], w, i)
  {
    hide Occurrences;
    forall v | 0 <= v <= WORDS
      ensures Occurrences(w, v, i + 1) == Occurrences(w, v, i) + if w[i] == v then 1 else 0
    {
      OccurrencesStep(w, v, i);
    }
  }

  lemma OccurrencesStep(w: seq<int>, v: int, i: nat)
    requires i < |w|
    ensures Occurrences(w, v, i + 1) == Occurrences(w, v, i) + if w[i] == v then 1 else 0
  {
  }

  /** The word at i from the word after it: (j >> 8) | (block[i] << 8). */
  lemma WordFromNext(b: Block, i: nat, j: int)
    requires i < |b| && (if i == |b| - 1 then j == 256 * (b[0] as int) else j == Words(b)[i + 1])
    ensures j / 256 + 256 * (b[i] as int) == Words(b)[i]
  {
  }

  /** "set up the 2-byte frequency table"; the quadrants are cleared on the way. */
  method CountWords(block: array<Byte>, quadrant: array<nat>, ftab: array<nat>, nblock: nat, ghost b: Block)
    requires ftab != quadrant && ftab.Length == WORDS + 1 && nblock == |b| <= block.Length && nblock <= quadrant.Length
    requires block[..nblock] == b
    modifies ftab, quadrant
    ensures Tallies(ftab[..], Words(b), 0)
    ensures forall k :: 0 <= k < nblock ==> quadrant[k] == 0
  {
    hide Words, Tallies;
    ghost var w := Words(b);
    var t := WORDS;
    ClearTable(ftab);
    TalliesStart(ftab[..], w);
    var j := 256 * (block[0] as int);
    var i: int := nblock - 1;
    while i >= 0
      invariant -1 <= i < nblock && block[..nblock] == b
      invariant if i == nblock - 1 then j == 256 * (b[0] as int) else j == w[i + 1]
      invariant Tallies(ftab[..], w, i + 1)
      invariant forall k :: i < k < nblock ==> quadrant[k] == 0
    {
      quadrant[i] := 0;
      WordFromNext(b, i, j);
      WordRange(b, i);
      TalliesSize(ftab[..], w, i + 1);
      assert block[i] == block[..nblock][i];
      j := j / 256 + 256 * (block[i] as int);
      ghost var f := ftab[..];
      TalliesNext(f, w, i);
      ftab[j] := ftab[j] + 1;
      assert ftab[..] == f[j := f[j] + 1];
      i := i - 1;
    }
  }

  method ClearTable(ftab: array<nat>)
    modifies ftab
    ensures forall v :: 0 <= v < ftab.Length ==> ftab[v] == 0
  {
    for v := 0 to ftab.Length
      invariant forall u :: 0 <= u < v ==> ftab[u] == 0
    {
      ftab[v] := 0;
    }
  }

  lemma TalliesStart(ftab: seq<nat>, w: seq<int>)
    requires |ftab| == WORDS + 1 && forall v :: 0 <= v < |ftab| ==> ftab[v] == 0
    ensures Tallies(ftab, w, |w|)
  {
  }

  lemma TalliesSize(ftab: seq<nat>, w: seq<int>, i: nat)
    requires i <= |w| && Tallies(ftab, w, i)
    ensures |ftab| == WORDS + 1
  {
  }

  lemma WordRange(b: Block, i: nat)
    requires i < |b|
    ensures |Words(b)| == |b| && 0 <= Words(b)[i] < WORDS
  {
  }

  /** ftab[v] is the row behind bucket v, less what is still to be placed there. */
  ghost predicate Filling(ftab: seq<nat>, ptr: seq<nat>, w: seq<int>, i: nat)
    requires i <= |w|
  {
    && |ftab| == WORDS + 1 && |ptr| >= |w|
    && (forall v :: 0 <= v < WORDS ==> ftab[v] == Row(w, v) + Occurrences(w, v, i))
    && (forall x :: i <= x < |w| ==> Rank(w, x) < |w| && ptr[Rank(w, x)] == x)
    && ftab[WORDS] == |w|
  }

  lemma RunningTotal(ftab: seq<nat>, w: seq<int>)
    requires |ftab| == WORDS + 1 && forall v :: 0 <= v <= WORDS ==> ftab[v] == Smaller(w, v + 1, |w|)
    requires forall x :: 0 <= x < |w| ==> 0 <= w[x] < WORDS
    ensures forall v :: 0 <= v < WORDS ==> ftab[v] == Row(w, v) + Occurrences(w, v, |w|)
    ensures ftab[WORDS] == |w|
  {
    hide Smaller, Occurrences;
    forall v | 0 <= v < WORDS
      ensures ftab[v] == Row(w, v) + Occurrences(w, v, |w|)
    {
      SmallerNext(w, v, |w|);
    }
    RowEnds(w, |w|);
    SmallerMonotone(w, WORDS, WORDS + 1, |w|);
    RowBound(w, WORDS + 1);
  }

  lemma RowBound(w: seq<int>, v: int)
    ensures Smaller(w, v, |w|) <= |w|
  {
  }

  /** "Complete the initial radix sort": first the running totals. */
  method CumulateWords(ftab: array<nat>, ghost w: seq<int>)
    requires ftab.Length == WORDS + 1 && Tallies(ftab[..], w, 0)
    requires forall x :: 0 <= x < |w| ==> 0 <= w[x] < WORDS
    modifies ftab
    ensures forall v :: 0 <= v <= WORDS ==> ftab[v] == Smaller(w, v + 1, |w|)
  {
    hide Smaller;
    ghost var f := ftab[..];
    TalliesAre(f, w);
    RowEnds(w, |w|);
    SmallerNext(w, 0, |w|);
    for i := 1 to WORDS + 1
      invariant forall v :: 0 <= v < i ==> ftab[v] == Smaller(w, v + 1, |w|)
      invariant forall v :: i <= v <= WORDS ==> ftab[v] == f[v]
    {
      SmallerNext(w, i, |w|);
      ftab[i] := ftab[i] + ftab[i - 1];
    }
  }

  lemma TalliesAre(ftab: seq<nat>, w: seq<int>)
    requires Tallies(ftab, w, 0)
    ensures |ftab| == WORDS + 1 && forall v :: 0 <= v <= WORDS ==> ftab[v] == Occurrences(w, v, |w|)
  {
  }

  lemma FillingNext(ftab: seq<nat>, ptr: seq<nat>, w: seq<int>, i: nat)
    requires i < |w| && Filling(ftab, ptr, w, i + 1) && 0 <= w[i] < WORDS
    ensures var j := ftab[w[i]] as int - 1;
            0 <= j < |w| && Filling(ftab[w[i] := j], ptr[j := i], w, i)
  {
    hide Smaller, Occurrences;
    var j := ftab[w[i]] as int - 1;
    OccurrencesStep(w, w[i], i);
    RankIs(w, i);
    RankInRange(w, i);
    assert j == Rank(w, i);
    forall v | 0 <= v < WORDS
      ensures Occurrences(w, v, i + 1) == Occurrences(w, v, i) + if w[i] == v then 1 else 0
    {
      OccurrencesStep(w, v, i);
    }
    forall x | i < x < |w|
      ensures Rank(w, x) != j
    {
      RankOrder(w, i, x);
      RankOrder(w, x, i);
    }
  }

  lemma RankIs(w: seq<int>, i: nat)
    requires i < |w|
    ensures Rank(w, i) == Row(w, w[i]) + Occurrences(w, w[i], i)
  {
  }

  lemma FillingDone(ftab: seq<nat>, ptr: seq<nat>, w: seq<int>)
    requires Filling(ftab, ptr, w, 0) && |ptr| == |w|
    ensures Layout(ptr, w)
    ensures forall v :: 0 <= v < WORDS ==> ftab[v] == Row(w, v)
    ensures ftab[WORDS] == |w|
  {
    hide Smaller, Rank;
    RanksArePermutation(w);
    forall k | 0 <= k < |w|
      ensures ptr[k] < |w| && Rank(w, ptr[k]) == k && Row(w, w[ptr[k]]) <= k < Row(w, w[ptr[k]] + 1)
    {
      PermutationReaches(Ranks(w), |w|, k);
      var x :| 0 <= x < |w| && Ranks(w)[x] == k;
      RankInRange(w, x);
    }
  }

  /** Then each position to its bucket, from the last to the first. */
  method PlacePositions(ptr: array<nat>, block: array<Byte>, ftab: array<nat>, nblock: nat, ghost b: Block)
    requires ftab != ptr && ftab.Length == WORDS + 1 && nblock == |b| == ptr.Length <= block.Length
      && block[..nblock] == b
    requires forall v :: 0 <= v <= WORDS ==> ftab[v] == Smaller(Words(b), v + 1, |b|)
    modifies ptr, ftab
    ensures Layout(ptr[..], Words(b))
    ensures forall v :: 0 <= v < WORDS ==> ftab[v] == Row(Words(b), v)
    ensures ftab[WORDS] == nblock
  {
    hide *;
    ghost var w := Words(b);
    WordsRange(b);
    RunningTotal(ftab[..], w);
    FillingStart(ftab[..], ptr[..], w);
    var s := 256 * (block[0] as int);
    var i: int := nblock - 1;
    while i >= 0
      invariant -1 <= i < nblock && block[..nblock] == b
      invariant if i == nblock - 1 then s == 256 * (b[0] as int) else s == w[i + 1]
      invariant Filling(ftab[..], ptr[..], w, i + 1)
    {
      WordFromNext(b, i, s);
      WordRange(b, i);
      assert block[i] == block[..nblock][i];
      s := s / 256 + 256 * (block[i] as int);
      ghost var f, p := ftab[..], ptr[..];
      FillingNext(f, p, w, i);
      assert f[s] == ftab[s];
      var j: nat := ftab[s] - 1;
      ghost var x: nat := i;
      ftab[s] := j;
      ptr[j] := i;
      assert ftab[..] == f[s := j] && ptr[..] == p[j := x];
      i := i - 1;
    }
    FillingDone(ftab[..], ptr[..], w);
  }

  lemma WordsRange(b: Block)
    ensures |Words(b)| == |b| && (forall x :: 0 <= x < |b| ==> 0 <= Words(b)[x] < WORDS) && WORDS == 65536
  {
  }

  lemma FillingStart(ftab: seq<nat>, ptr: seq<nat>, w: seq<int>)
    requires |ftab| == WORDS + 1 && |ptr| >= |w|
    requires forall v :: 0 <= v < WORDS ==> ftab[v] == Row(w, v) + Occurrences(w, v, |w|)
    requires ftab[WORDS] == |w|
    ensures Filling(ftab, ptr, w, |w|)
  {
  }

  /** The first bytes of the block are repeated behind it, with quadrants clear. */
  method FillOvershoot(block: array<Byte>, quadrant: array<nat>, nblock: nat, ghost b: Block)
    requires nblock == |b| > N_OVERSHOOT && block.Length == quadrant.Length == nblock + N_OVERSHOOT
      && block[..nblock] == b
    requires forall k :: 0 <= k < nblock ==> quadrant[k] == 0
    modifies block, quadrant
    ensures Extended(block[..], quadrant[..], b) && block[..nblock] == b
  {
    hide Orders;
    for i := 0 to N_OVERSHOOT
      invariant block[..nblock] == b && (forall k :: 0 <= k < nblock + i ==> quadrant[k] == 0)
      invariant forall k, t :: 0 <= k < i && t == k + nblock ==> block[t] == block[k]
    {
      block[nblock + i] := block[i];
      quadrant[nblock + i] := 0;
    }
    assert forall k :: 0 <= k < nblock + N_OVERSHOOT ==> quadrant[..][k] == 0;
  }
}
