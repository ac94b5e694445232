/** What Step 2 of mainSort leaves, and the method that does it. */
module MainScanResult {

  import opened Permutations
  import opened Rotations
  import opened BurrowsWheeler
  import opened QuickSort
  import opened MainCompare
  import opened MainRadixSort
  import opened MainBucketOrder
  import opened MainBucketScan
  import opened MainBucketCopy

  /** u is a small bucket that the scans of big bucket v fill. */
  ghost predicate Target(big: seq<bool>, v: Byte, u: int)
    requires |big| == 256
  {
    exists t :: 0 <= t < 256 && !big[t] && u == Word(t, v)
  }

  /** Buckets that are no target keep their rows. */
  ghost predicate Elsewhere(p: seq<nat>, p0: seq<nat>, w: seq<int>, big: seq<bool>, v: Byte)
    requires Layout(p0, w) && |p| == |w| && |big| == 256
  {
    forall k, u :: 0 <= k < |w| && u == Owner(p0, w, k) && !Target(big, v, u) ==> p[k] == p0[k]
  }

  ghost predicate TargetOk(p: seq<nat>, b: Block, u: int)
    requires |p| == |b|
  {
    && Row(Words(b), u) <= Row(Words(b), u + 1) <= |p|
    && var s := p[Row(Words(b), u)..Row(Words(b), u + 1)];
       Positions(s, |b|) && Distinct<nat>(s) && AllOfWord(Words(b), s, u) && Ordered(Orders(b), s)
  }

  /** A bucket filled from both sides without a gap. */
  lemma FilledWhole(p: seq<nat>, w: seq<int>, u: int, start: int, end: int, s: seq<nat>, r: seq<nat>)
    requires FilledUp(p, w, u, start, s) && FilledDown(p, w, u, end, r) && |s + r| == Row(w, u + 1) - Row(w, u)
    ensures start == end + 1 && 0 <= Row(w, u) <= Row(w, u + 1) <= |p| && p[Row(w, u)..Row(w, u + 1)] == s + r
  {
    hide Smaller;
    assert p[Row(w, u)..Row(w, u + 1)] == p[Row(w, u)..start] + p[start..Row(w, u + 1)];
  }

  lemma FilledAt(p: seq<nat>, b: Block, big: seq<bool>, v: Byte, cs: seq<int>, ce: seq<int>, low: seq<nat>,
                 high: seq<nat>, t: Byte)
    requires Positions(low, |b|) && Positions(high, |b|) && |p| == |b| && |big| == |cs| == |ce| == 256 && !big[t]
    requires LeftFilled(p, b, big, v, cs, low) && RightFilled(p, b, big, v, ce, high)
    ensures FilledUp(p, Words(b), Word(t, v), cs[t], Scan(b, low, t))
    ensures FilledDown(p, Words(b), Word(t, v), ce[t], Scan(b, high, t))
  {
  }

  lemma TargetOkOf(p: seq<nat>, b: Block, u: int, s: seq<nat>)
    requires |p| == |b| && 0 <= Row(Words(b), u) <= Row(Words(b), u + 1) <= |p|
      && p[Row(Words(b), u)..Row(Words(b), u + 1)] == s
    requires Positions(s, |b|) && Distinct<nat>(s) && AllOfWord(Words(b), s, u) && Ordered(Orders(b), s)
    ensures TargetOk(p, b, u)
  {
  }

  /** All rows of a target bucket, when both scans are over. */
  lemma TargetFull(p: seq<nat>, b: Block, big: seq<bool>, v: Byte, cs: seq<int>, ce: seq<int>,
                   baseL: seq<nat>, low: seq<nat>, baseR: seq<nat>, high: seq<nat>, t: Byte)
    requires |p| == |b| && |big| == |cs| == |ce| == 256 && !big[t]
    requires LeftScan(b, v, baseL, low, low) && RightScan(b, v, baseR, high, high)
    requires Positions(low, |b|) && Positions(high, |b|)
    requires LeftFilled(p, b, big, v, cs, low) && RightFilled(p, b, big, v, ce, high)
    requires forall y :: 0 <= y < |b| && b[y] == v && b[Next(y, |b|)] < v ==> y in baseL
    requires forall y :: 0 <= y < |b| && b[y] == v && b[Next(y, |b|)] > v ==> y in baseR
    requires exists y :: 0 <= y < |b| && b[y] != v
    ensures cs[t] == ce[t] + 1 && TargetOk(p, b, Word(t, v))
  {
    hide *;
    ScansFill(b, v, baseL, baseR, low, high, t);
    var s := Scan(b, low, t) + Scan(b, high, t);
    FilledAt(p, b, big, v, cs, ce, low, high, t);
    assert Word(t, v) == 256 * (t as int) + v by {
      WordIs(t, v);
    }
    FilledWhole(p, Words(b), Word(t, v), cs[t], ce[t], Scan(b, low, t), Scan(b, high, t));
    TargetOkOf(p, b, Word(t, v), s);
  }

  lemma WordIs(t: int, v: Byte)
    ensures Word(t, v) == 256 * t + v
  {
  }

  /** Row k of a target holds a position of that bucket. */
  lemma TargetRow(p: seq<nat>, b: Block, u: int, k: int)
    requires |p| == |b| && Row(Words(b), u) <= k < Row(Words(b), u + 1) <= |p|
    requires AllOfWord(Words(b), p[Row(Words(b), u)..Row(Words(b), u + 1)], u)
    ensures p[k] < |b| && Words(b)[p[k]] == u
  {
    var s := p[Row(Words(b), u)..Row(Words(b), u + 1)];
    assert s[k - Row(Words(b), u)] in s;
  }

  lemma TargetRows(p: seq<nat>, b: Block, u: int)
    requires |p| == |b| && Row(Words(b), u) <= Row(Words(b), u + 1) <= |p| && Positions(p, |b|)
    requires var s := p[Row(Words(b), u)..Row(Words(b), u + 1)];
             Positions(s, |b|) && Distinct<nat>(s) && Ordered(Orders(b), s)
    ensures BucketOrdered(p, b, u)
    ensures forall k, m :: Row(Words(b), u) <= k < m < Row(Words(b), u + 1) ==> p[k] != p[m]
  {
    hide Orders, Words, Smaller;
    var lo := Row(Words(b), u);
    var s := p[lo..Row(Words(b), u + 1)];
    forall i, j | lo <= i < j < Row(Words(b), u + 1)
      ensures Orders(b)[p[i]] <= Orders(b)[p[j]] && p[i] != p[j]
    {
      assert s[i - lo] == p[i] && s[j - lo] == p[j];
    }
  }

  /** Every target bucket is complete, and nothing else has moved. */
  ghost predicate Finished(p: seq<nat>, p0: seq<nat>, b: Block, big: seq<bool>, v: Byte)
    requires Layout(p0, Words(b)) && |p| == |b| && |big| == 256
  {
    && Elsewhere(p, p0, Words(b), big, v)
    && forall t :: 0 <= t < 256 && !big[t] ==> TargetOk(p, b, Word(t, v))
  }

  lemma FinishedRow(p: seq<nat>, p0: seq<nat>, b: Block, big: seq<bool>, v: Byte, k: nat)
    requires Layout(p0, Words(b)) && |p| == |b| && |big| == 256 && Finished(p, p0, b, big, v) && k < |b|
    ensures p[k] < |b| && Words(b)[p[k]] == Owner(p0, Words(b), k)
  {
    hide Orders, Smaller, Words, Ordered, Distinct;
    var u := Owner(p0, Words(b), k);
    if Target(big, v, u) {
      assert TargetOk(p, b, u);
      TargetRow(p, b, u, k);
    } else {
      assert p[k] == p0[k];
    }
  }

  /** The layout is a layout again, with the targets in order. */
  lemma FinishedLayout(p: seq<nat>, p0: seq<nat>, b: Block, big: seq<bool>, v: Byte)
    requires Layout(p0, Words(b)) && |p| == |b| && |big| == 256 && Finished(p, p0, b, big, v)
    ensures Layout(p, Words(b))
    ensures forall t :: 0 <= t < 256 && !big[t] ==> BucketOrdered(p, b, Word(t, v))
  {
    hide Orders, Smaller, Words, Ordered, Distinct, AllOfWord;
    var w := Words(b);
    forall k | 0 <= k < |b|
      ensures p[k] < |b| && Row(w, w[p[k]]) <= k < Row(w, w[p[k]] + 1)
    {
      FinishedRow(p, p0, b, big, v, k);
    }
    forall t | 0 <= t < 256 && !big[t]
      ensures BucketOrdered(p, b, Word(t, v))
      ensures forall k, m :: Row(w, Word(t, v)) <= k < m < Row(w, Word(t, v) + 1) ==> p[k] != p[m]
    {
      assert TargetOk(p, b, Word(t, v));
      TargetRows(p, b, Word(t, v));
    }
    forall k, m | 0 <= k < m < |b|
      ensures p[k] != p[m]
    {
      FinishedRow(p, p0, b, big, v, k);
      FinishedRow(p, p0, b, big, v, m);
      var u := Owner(p0, w, k);
      if u == Owner(p0, w, m) && !Target(big, v, u) {
        assert p[k] == p0[k] && p[m] == p0[m];
      }
    }
  }

  // ----- The block that is one repeated byte -----

  lemma {:induction false} OneWord(w: seq<int>, u: int, m: nat)
    requires m <= |w| && forall x :: 0 <= x < |w| ==> w[x] == u
    ensures Smaller(w, u, m) == 0 && Smaller(w, u + 1, m) == m
    decreases m
  {
    if m > 0 {
      OneWord(w, u, m - 1);
    }
  }

  lemma NoLowRows(b: Block, v: Byte, low: seq<nat>, high: seq<nat>)
    requires AllLow(b, low, v) && AllHigh(b, high, v) && forall y :: 0 <= y < |b| ==> b[y] == v
    ensures low == [] && high == []
  {
    if low != [] {
      assert low[0] in low;
      AllSame(b, low[0], v, |b|);
      RunsExclude(b, low[0], v, |b|);
    }
    if high != [] {
      assert high[0] in high;
      AllSame(b, high[0], v, |b|);
      RunsExclude(b, high[0], v, |b|);
    }
  }

  lemma OneByteBlock(b: Block, v: Byte, x: nat, y: nat)
    requires x < |b| && y < |b| && forall z :: 0 <= z < |b| ==> b[z] == v
    ensures Orders(b)[x] == Orders(b)[y]
  {
    SameBytes(b, v, x, y, |b|);
    TurnDecides(b, x, y, |b|);
  }

  lemma {:induction false} SameBytes(b: Block, v: Byte, x: nat, y: nat, h: nat)
    requires x < |b| && y < |b| && forall z :: 0 <= z < |b| ==> b[z] == v
    ensures EqualTo(b, x, y, h)
    decreases h
  {
    if h > 0 {
      SameBytes(b, v, Next(x, |b|), Next(y, |b|), h - 1);
    }
  }

  /** Nothing has been scanned, nothing has moved, and everything is in order already. */
  lemma OneByteFinished(p: seq<nat>, p0: seq<nat>, b: Block, big: seq<bool>, v: Byte, cs: seq<int>, ce: seq<int>)
    requires Layout(p0, Words(b)) && |p| == |b| && |big| == |cs| == |ce| == 256 && !big[v]
    requires LeftFilled(p, b, big, v, cs, []) && RightFilled(p, b, big, v, ce, [])
    requires Unmoved(p, p0, Words(b), big, v, cs, ce) && forall y :: 0 <= y < |b| ==> b[y] == v
    ensures p == p0 && cs[v] == 0 && ce[v] == |b| - 1
    ensures Layout(p, Words(b)) && forall u :: BucketOrdered(p, b, u)
  {
    hide *;
    NoRows(b, v);
    NothingScanned(p, b, big, v, cs, ce);
    NothingMoved(p, p0, Words(b), big, v, cs, ce);
    OneByteRows(b, v);
    LayoutFits(p, b);
    OneByteOrdered(p, b, v);
  }

  lemma LayoutFits(p: seq<nat>, b: Block)
    requires Layout(p, Words(b))
    ensures |p| == |b| && Positions(p, |b|)
  {
    hide Row;
  }

  lemma OneByteRows(b: Block, v: Byte)
    requires forall y :: 0 <= y < |b| ==> b[y] == v
    ensures Row(Words(b), Word(v, v)) == 0 && Row(Words(b), Word(v, v) + 1) == |b|
  {
    OneWord(Words(b), Word(v, v), |b|);
  }

  lemma NothingScanned(p: seq<nat>, b: Block, big: seq<bool>, v: Byte, cs: seq<int>, ce: seq<int>)
    requires |p| == |b| && |big| == |cs| == |ce| == 256 && Positions([], |b|)
    requires LeftFilled(p, b, big, v, cs, []) && RightFilled(p, b, big, v, ce, [])
    ensures forall t :: 0 <= t < 256 && !big[t] ==>
              cs[t] == Row(Words(b), Word(t, v)) && ce[t] + 1 == Row(Words(b), Word(t, v) + 1)
  {
    hide Row, Words, Scan;
    forall t | 0 <= t < 256 && !big[t]
      ensures cs[t] == Row(Words(b), Word(t, v)) && ce[t] + 1 == Row(Words(b), Word(t, v) + 1)
    {
      ScanNone(b, t);
      assert FilledUp(p, Words(b), Word(t, v), cs[t], Scan(b, [], t));
      assert FilledDown(p, Words(b), Word(t, v), ce[t], Scan(b, [], t));
    }
  }

  lemma NothingMoved(p: seq<nat>, p0: seq<nat>, w: seq<int>, big: seq<bool>, v: Byte, cs: seq<int>, ce: seq<int>)
    requires Layout(p0, w) && |p| == |w| && |big| == |cs| == |ce| == 256 && Unmoved(p, p0, w, big, v, cs, ce)
    requires forall t :: 0 <= t < 256 && !big[t] ==>
               cs[t] == Row(w, Word(t, v)) && ce[t] + 1 == Row(w, Word(t, v) + 1)
    ensures p == p0
  {
    hide Smaller;
    forall k | 0 <= k < |w|
      ensures p[k] == p0[k]
    {
      var u := Owner(p0, w, k);
      assert Untouched(big, v, cs, ce, k, u);
    }
  }

  lemma OneByteOrdered(p: seq<nat>, b: Block, v: Byte)
    requires |p| == |b| && Positions(p, |b|) && forall y :: 0 <= y < |b| ==> b[y] == v
    ensures forall u :: BucketOrdered(p, b, u)
  {
    hide Row, Orders, Words;
    forall u
      ensures BucketOrdered(p, b, u)
    {
      forall i, j | Row(Words(b), u) <= i < j < Row(Words(b), u + 1) && j < |p|
        ensures Orders(b)[p[i]] <= Orders(b)[p[j]]
      {
        OneByteBlock(b, v, p[i], p[j]);
      }
    }
  }

  /**
    Step 2 does what it should: the targets are in order, nothing else moves, and the two
    scans meet unless the block is one repeated byte (assertion 1007).
   */
  lemma ScanEnd(p: seq<nat>, p0: seq<nat>, b: Block, big: seq<bool>, v: Byte, cs: seq<int>, ce: seq<int>,
                baseL: seq<nat>, low: seq<nat>, baseR: seq<nat>, high: seq<nat>)
    requires ScanningRight(p, p0, b, big, v, cs, ce, baseL, low, baseR, high, high)
    requires forall y :: 0 <= y < |b| && b[y] == v && b[Next(y, |b|)] < v ==> y in baseL
    requires forall y :: 0 <= y < |b| && b[y] == v && b[Next(y, |b|)] > v ==> y in baseR
    ensures Layout(p, Words(b)) && forall t :: 0 <= t < 256 && !big[t] ==> BucketOrdered(p, b, Word(t, v))
    ensures Layout(p0, Words(b)) && Elsewhere(p, p0, Words(b), big, v)
    ensures cs[v] - 1 == ce[v] || (cs[v] == 0 && ce[v] == |b| - 1)
  {
    RightStateParts(p, p0, b, big, v, cs, ce, baseL, low, baseR, high, high);
    HighRows(b, v, baseR, high);
    hide Smaller, Orders, Words, LeftScan, RightScan, Low, High, LeftFilled, RightFilled, BucketOrdered, Layout,
      ScanningRight;
    if exists y :: 0 <= y < |b| && b[y] != v {
      forall t | 0 <= t < 256 && !big[t]
        ensures TargetOk(p, b, Word(t, v)) && cs[t] == ce[t] + 1
      {
        TargetFull(p, b, big, v, cs, ce, baseL, low, baseR, high, t);
      }
      FinishedFrom(p, p0, b, big, v, cs, ce);
      FinishedLayout(p, p0, b, big, v);
    } else {
      NoLowRows(b, v, low, high);
      OneByteFinished(p, p0, b, big, v, cs, ce);
    }
  }

  lemma HighRows(b: Block, v: Byte, base: seq<nat>, high: seq<nat>)
    requires RightScan(b, v, base, high, high)
    ensures AllHigh(b, high, v) && Positions(high, |b|)
  {
    hide High;
  }

  lemma FinishedFrom(p: seq<nat>, p0: seq<nat>, b: Block, big: seq<bool>, v: Byte, cs: seq<int>, ce: seq<int>)
    requires Layout(p0, Words(b)) && |p| == |b| && |big| == |cs| == |ce| == 256
    requires Unmoved(p, p0, Words(b), big, v, cs, ce)
    requires forall t :: 0 <= t < 256 && !big[t] ==> TargetOk(p, b, Word(t, v))
    ensures Finished(p, p0, b, big, v)
  {
    hide TargetOk, Smaller, Words;
    forall k, u | 0 <= k < |b| && u == Owner(p0, Words(b), k) && !Target(big, v, u)
      ensures p[k] == p0[k]
    {
      assert Untouched(big, v, cs, ce, k, u);
    }
  }

  // ----- The frequency table, with its flags -----

  const SETMASK: nat := 2097152

  predicate IsSet(x: nat) {
    x / SETMASK % 2 == 1
  }

  /** x & CLEARMASK. */
  function Clear(x: nat): nat {
    if IsSet(x) then x - SETMASK else x
  }

  /** x | SETMASK. */
  function SetFlag(x: nat): nat {
    if IsSet(x) then x else x + SETMASK
  }

  lemma FlagFacts(x: nat)
    ensures IsSet(SetFlag(x)) && Clear(SetFlag(x)) == Clear(x)
    ensures x < SETMASK ==> !IsSet(x) && Clear(x) == x
  {
    assert (x + SETMASK) / SETMASK == x / SETMASK + 1;
  }

  /** Below its flag, each entry of the table holds the first row of its bucket. */
  ghost predicate Table(ftab: seq<nat>, w: seq<int>) {
    |ftab| == WORDS + 1 && forall u :: 0 <= u <= WORDS ==> Clear(ftab[u]) == Row(w, u)
  }

  lemma TableAt(ftab: seq<nat>, w: seq<int>, u: int)
    requires Table(ftab, w) && 0 <= u <= 65536
    ensures |ftab| == 65537 && Clear(ftab[u]) == Row(w, u)
  {
  }

  // ----- Step 2 -----

  /** Where the scans start to write. */
  method FindCopyRanges(copyStart: array<int>, copyEnd: array<int>, ftab: array<nat>, ss: Byte, ghost w: seq<int>)
    requires copyStart != copyEnd && copyStart.Length == copyEnd.Length == 256 && Table(ftab[..], w)
    modifies copyStart, copyEnd
    ensures forall t :: 0 <= t < 256 ==>
      copyStart[t] == Row(w, Word(t, ss)) && copyEnd[t] == Row(w, Word(t, ss) + 1) - 1
  {
    hide Table, Row, Clear;
    for j := 0 to 256
      invariant forall t :: 0 <= t < j ==>
        copyStart[t] == Row(w, Word(t, ss)) && copyEnd[t] == Row(w, Word(t, ss) + 1) - 1
    {
      TableAt(ftab[..], w, Word(j, ss));
      TableAt(ftab[..], w, Word(j, ss) + 1);
      copyStart[j] := Clear(ftab[256 * j + ss as int]);
      copyEnd[j] := Clear(ftab[256 * j + ss as int + 1]) - 1;
    }
  }

  lemma NothingFilled(p: seq<nat>, b: Block, big: seq<bool>, v: Byte, cs: seq<int>, ce: seq<int>)
    requires Layout(p, Words(b)) && |p| == |b| && |big| == |cs| == |ce| == 256
    requires forall t :: 0 <= t < 256 ==>
      cs[t] == Row(Words(b), Word(t, v)) && ce[t] == Row(Words(b), Word(t, v) + 1) - 1
    ensures Positions([], |b|) && LeftFilled(p, b, big, v, cs, []) && RightFilled(p, b, big, v, ce, [])
    ensures Unmoved(p, p, Words(b), big, v, cs, ce)
  {
    hide Smaller, Words;
    var w := Words(b);
    forall t | 0 <= t < 256
      ensures FilledUp(p, w, Word(t, v), cs[t], Scan(b, [], t)) && FilledDown(p, w, Word(t, v), ce[t], Scan(b, [], t))
    {
      ScanNone(b, t);
      RowsGrow(w, Word(t, v), Word(t, v) + 1);
      RowsGrow(w, Word(t, v) + 1, Word(t, v) + 1);
    }
  }

  /** The small buckets [v, j] with j different from v are in order. */
  ghost predicate RowReady(p: seq<nat>, b: Block, v: Byte)
    requires |p| == |b|
  {
    forall u :: 256 * (v as int) <= u < 256 * (v as int + 1) && u != Word(v, v) ==> BucketOrdered(p, b, u)
  }

  /** The scan from the left can start. */
  lemma ScanReady(p: seq<nat>, b: Block, big: seq<bool>, v: Byte, cs: seq<int>, ce: seq<int>)
    returns (baseL: seq<nat>, baseR: seq<nat>)
    requires Layout(p, Words(b)) && |p| == |b| && |big| == |cs| == |ce| == 256 && !big[v] && RowReady(p, b, v)
    requires forall t :: 0 <= t < 256 ==>
      cs[t] == Row(Words(b), Word(t, v)) && ce[t] == Row(Words(b), Word(t, v) + 1) - 1
    ensures ScanningLeft(p, p, b, big, v, cs, ce, baseL, [], baseL)
    ensures RightBase(b, v, baseR) && Stretch(p, Row(Words(b), Word(v, v) + 1), Row(Words(b), 256 * (v as int + 1)),
                                              baseR)
    ensures forall y :: 0 <= y < |b| && b[y] == v && b[Next(y, |b|)] < v ==> y in baseL
    ensures forall y :: 0 <= y < |b| && b[y] == v && b[Next(y, |b|)] > v ==> y in baseR
  {
    hide *;
    assert (forall u :: 256 * (v as int) <= u < Word(v, v) ==> BucketOrdered(p, b, u))
           && Word(v, v) < 256 * (v as int + 1) && 256 * (v as int) <= Word(v, v)
           && (forall u :: Word(v, v) < u < 256 * (v as int + 1) ==> BucketOrdered(p, b, u)) by {
      ReadyHalves(p, b, v);
    }
    NothingFilled(p, b, big, v, cs, ce);
    LeftBaseReady(p, b, v);
    RightBaseReady(p, b, v);
    baseL := RowsOf(p, Words(b), 256 * (v as int), Word(v, v));
    baseR := RowsOf(p, Words(b), Word(v, v) + 1, 256 * (v as int + 1));
    LeftStart(b, v, baseL);
    LeftOf(p, p, b, big, v, cs, ce, baseL, [], baseL);
  }

  lemma ReadyHalves(p: seq<nat>, b: Block, v: Byte)
    requires |p| == |b| && RowReady(p, b, v)
    ensures 256 * (v as int) <= Word(v, v) < 256 * (v as int + 1)
    ensures forall u :: 256 * (v as int) <= u < Word(v, v) ==> BucketOrdered(p, b, u)
    ensures forall u :: Word(v, v) < u < 256 * (v as int + 1) ==> BucketOrdered(p, b, u)
  {
    hide BucketOrdered;
  }

  /** The scan from the left is over, and that from the right starts. */
  lemma ScanTurns(p: seq<nat>, p0: seq<nat>, b: Block, big: seq<bool>, v: Byte, cs: seq<int>, ce: seq<int>,
                  baseL: seq<nat>, low: seq<nat>, baseR: seq<nat>)
    requires ScanningLeft(p, p0, b, big, v, cs, ce, baseL, low, low) && RightBase(b, v, baseR)
    requires Stretch(p0, Row(Words(b), Word(v, v) + 1), Row(Words(b), 256 * (v as int + 1)), baseR)
    ensures ScanningRight(p, p0, b, big, v, cs, ce, baseL, low, baseR, [], baseR)
  {
    hide *;
    LeftParts(p, p0, b, big, v, cs, ce, baseL, low, low);
    RightStart(b, v, baseR);
    RightStateOf(p, p0, b, big, v, cs, ce, baseL, low, baseR, [], baseR);
  }

  /** The body of the scan from the left: the rotation one position earlier goes to the next row of its bucket. */
  method CopyUp(ptr: array<nat>, block: array<Byte>, bigDone: array<bool>, copyStart: array<int>, nblock: nat, x: nat)
    requires x < nblock == ptr.Length <= block.Length && bigDone.Length == copyStart.Length == 256
    requires 0 <= Prev(x, nblock) < nblock
    requires var c := block[Prev(x, nblock)]; !bigDone[c] ==> 0 <= copyStart[c] < ptr.Length
    modifies ptr, copyStart
    ensures var k := Prev(x, nblock);
            var c := block[k];
            if bigDone[c] then ptr[..] == old(ptr[..]) && copyStart[..] == old(copyStart[..])
            else
              && ptr[..] == old(ptr[..])[old(copyStart[c]) := k]
              && copyStart[..] == old(copyStart[..])[c := old(copyStart[c]) + 1]
  {
    var k := x as int - 1;
    if k < 0 {
      k := k + nblock;
    }
    var c1 := block[k];
    if !bigDone[c1] {
      ptr[copyStart[c1]] := k;
      copyStart[c1] := copyStart[c1] + 1;
    }
  }

  /** The body of the scan from the right. */
  method CopyDown(ptr: array<nat>, block: array<Byte>, bigDone: array<bool>, copyEnd: array<int>, nblock: nat, x: nat)
    requires x < nblock == ptr.Length <= block.Length && bigDone.Length == copyEnd.Length == 256
    requires 0 <= Prev(x, nblock) < nblock
    requires var c := block[Prev(x, nblock)]; !bigDone[c] ==> 0 <= copyEnd[c] < ptr.Length
    modifies ptr, copyEnd
    ensures var k := Prev(x, nblock);
            var c := block[k];
            if bigDone[c] then ptr[..] == old(ptr[..]) && copyEnd[..] == old(copyEnd[..])
            else
              && ptr[..] == old(ptr[..])[old(copyEnd[c]) := k]
              && copyEnd[..] == old(copyEnd[..])[c := old(copyEnd[c]) - 1]
  {
    var k := x as int - 1;
    if k < 0 {
      k := k + nblock;
    }
    var c1 := block[k];
    if !bigDone[c1] {
      ptr[copyEnd[c1]] := k;
      copyEnd[c1] := copyEnd[c1] - 1;
    }
  }

  /**
    Step 2.  When the small buckets [ss, j] with j different from ss are in order, both scans
    together put every [t, ss] of a big bucket that is not done in order, [ss, ss] too.
   */
  method ScanBucket(ptr: array<nat>, block: array<Byte>, ftab: array<nat>, bigDone: array<bool>,
                    copyStart: array<int>, copyEnd: array<int>, nblock: nat, ss: Byte, ghost b: Block)
    requires nblock == |b| == ptr.Length <= block.Length && block[..nblock] == b && ftab != ptr
    requires copyStart != copyEnd && bigDone.Length == copyStart.Length == copyEnd.Length == 256 && !bigDone[ss]
    requires Table(ftab[..], Words(b)) && Layout(ptr[..], Words(b)) && RowReady(ptr[..], b, ss)
    modifies ptr, copyStart, copyEnd
    ensures Layout(ptr[..], Words(b)) && forall t :: 0 <= t < 256 && !bigDone[t] ==>
      BucketOrdered(ptr[..], b, Word(t, ss))
    ensures Layout(old(ptr[..]), Words(b)) && Elsewhere(ptr[..], old(ptr[..]), Words(b), bigDone[..], ss)
    ensures copyStart[ss] - 1 == copyEnd[ss] || (copyStart[ss] == 0 && copyEnd[ss] == nblock - 1)
  {
    hide *;
    ghost var p0, w, big := ptr[..], Words(b), bigDone[..];
    FindCopyRanges(copyStart, copyEnd, ftab, ss, w);
    ghost var baseL, baseR := ScanReady(p0, b, big, ss, copyStart[..], copyEnd[..]);
    ghost var rows: seq<nat>, known := [], baseL;
    TableAt(ftab[..], w, 256 * (ss as int));
    var j: int := Clear(ftab[256 * (ss as int)]);
    KnownInPlace(ptr[..], p0, b, big, ss, copyStart[..], copyEnd[..], baseL, rows, known);
    StretchSize(ptr[..], Row(w, 256 * ss), copyStart[ss], known);
    while j < copyStart[ss]
      invariant bigDone[..] == big && block[..nblock] == b
      invariant ScanningLeft(ptr[..], p0, b, big, ss, copyStart[..], copyEnd[..], baseL, rows, known)
      invariant j == Row(w, 256 * ss) + |rows| && |rows| <= |known|
      invariant copyStart[ss] == Row(w, 256 * ss) + |known| <= nblock
      invariant Stretch(ptr[..], Row(w, 256 * ss), copyStart[ss], known)
      decreases nblock - j
    {
      ghost var p, cs := ptr[..], copyStart[..];
      StretchAt(p, Row(w, 256 * ss), copyStart[ss], known, j);
      LeftTurn(p, p0, b, big, ss, cs, copyEnd[..], baseL, rows, known);
      PrevInBlock(ptr[j], nblock);
      assert block[Prev(ptr[j], nblock)] == block[..nblock][Prev(ptr[j], nblock)];
      CopyUp(ptr, block, bigDone, copyStart, nblock, ptr[j]);
      OnePosition(p[j], |b|);
      known := known + Scan(b, [known[|rows|]], ss);
      rows := rows + [p[j]];
      KnownInPlace(ptr[..], p0, b, big, ss, copyStart[..], copyEnd[..], baseL, rows, known);
      StretchSize(ptr[..], Row(w, 256 * ss), copyStart[ss], known);
      j := j + 1;
    }
    ScanDone(ptr[..], p0, b, big, ss, copyStart[..], copyEnd[..], baseL, rows, known);
    ScanTurns(ptr[..], p0, b, big, ss, copyStart[..], copyEnd[..], baseL, rows, baseR);
    ghost var low := rows;
    ScanBackward(ptr, block, ftab, bigDone, copyStart, copyEnd, nblock, ss, b, p0, baseL, low, baseR);
    ghost var high :| ScanningRight(ptr[..], p0, b, big, ss, copyStart[..], copyEnd[..], baseL, low, baseR, high, high);
    ScanEnd(ptr[..], p0, b, big, ss, copyStart[..], copyEnd[..], baseL, low, baseR, high);
  }

  lemma PrevInBlock(x: nat, n: nat)
    requires x < n
    ensures 0 <= Prev(x, n) < n
  {
  }

  lemma StretchAt(p: seq<nat>, a: int, c: int, s: seq<nat>, j: int)
    requires Stretch(p, a, c, s) && a <= j < c
    ensures 0 <= j < |p| && j - a < |s| && p[j] == s[j - a] && |s| == c - a
  {
  }

  lemma StretchSize(p: seq<nat>, a: int, c: int, s: seq<nat>)
    requires Stretch(p, a, c, s)
    ensures 0 <= a <= c <= |p| && |s| == c - a
  {
  }

  lemma ScanDone(p: seq<nat>, p0: seq<nat>, b: Block, big: seq<bool>, v: Byte, cs: seq<int>, ce: seq<int>,
                 base: seq<nat>, rows: seq<nat>, known: seq<nat>)
    requires ScanningLeft(p, p0, b, big, v, cs, ce, base, rows, known) && |rows| >= |known|
    ensures rows == known
  {
    hide Smaller, Scan, LeftBase, Low, Orders, Distinct, Ordered;
  }

  lemma RightDone(b: Block, v: Byte, base: seq<nat>, rows: seq<nat>, known: seq<nat>)
    requires RightScan(b, v, base, rows, known) && |rows| >= |known|
    ensures rows == known
  {
    hide Scan, RightBase, High, Orders, Distinct, Ordered;
  }

  /** The second of the two scans. */
  method ScanBackward(ptr: array<nat>, block: array<Byte>, ftab: array<nat>, bigDone: array<bool>,
                      copyStart: array<int>, copyEnd: array<int>, nblock: nat, ss: Byte, ghost b: Block,
                      ghost p0: seq<nat>, ghost baseL: seq<nat>, ghost low: seq<nat>, ghost baseR: seq<nat>)
    requires nblock == |b| == ptr.Length <= block.Length && block[..nblock] == b && ftab != ptr
      && Table(ftab[..], Words(b))
    requires copyStart != copyEnd && bigDone.Length == copyStart.Length == copyEnd.Length == 256 && !bigDone[ss]
    requires ScanningRight(ptr[..], p0, b, bigDone[..], ss, copyStart[..], copyEnd[..], baseL, low, baseR, [], baseR)
    modifies ptr, copyEnd
    ensures exists high :: ScanningRight(ptr[..], p0, b, bigDone[..], ss, copyStart[..], copyEnd[..], baseL, low, baseR,
                                         high, high)
  {
    hide *;
    ghost var w, big := Words(b), bigDone[..];
    ghost var rows: seq<nat>, known := [], baseR;
    ghost var E := Row(w, 256 * (ss + 1));
    TableAt(ftab[..], w, 256 * (ss as int + 1));
    var j: int := Clear(ftab[256 * (ss as int + 1)]) - 1;
    RightInPlace(ptr[..], p0, b, big, ss, copyStart[..], copyEnd[..], baseL, low, baseR, rows, known);
    StretchSize(ptr[..], copyEnd[ss] + 1, E, known);
    while j > copyEnd[ss]
      invariant bigDone[..] == big && block[..nblock] == b
      invariant ScanningRight(ptr[..], p0, b, big, ss, copyStart[..], copyEnd[..], baseL, low, baseR, rows, known)
      invariant j == E - 1 - |rows| && |rows| <= |known|
      invariant copyEnd[ss] + 1 == E - |known| && 0 <= copyEnd[ss] + 1
      invariant Stretch(ptr[..], copyEnd[ss] + 1, E, known)
      decreases j
    {
      ghost var p, ce := ptr[..], copyEnd[..];
      StretchAt(p, copyEnd[ss] + 1, E, known, j);
      RightTurn(p, p0, b, big, ss, copyStart[..], ce, baseL, low, baseR, rows, known);
      assert ptr[j] == NextRow(rows, known) by {
        NextRowAt(p, copyEnd[ss] + 1, E, rows, known, j);
      }
      PrevInBlock(ptr[j], nblock);
      assert block[Prev(ptr[j], nblock)] == block[..nblock][Prev(ptr[j], nblock)];
      CopyDown(ptr, block, bigDone, copyEnd, nblock, ptr[j]);
      OnePosition(p[j], |b|);
      known := Scan(b, [p[j]], ss) + known;
      rows := [p[j]] + rows;
      RightInPlace(ptr[..], p0, b, big, ss, copyStart[..], copyEnd[..], baseL, low, baseR, rows, known);
      StretchSize(ptr[..], copyEnd[ss] + 1, E, known);
      j := j - 1;
    }
    RightStateParts(ptr[..], p0, b, big, ss, copyStart[..], copyEnd[..], baseL, low, baseR, rows, known);
    RightDone(b, ss, baseR, rows, known);
  }

  lemma NextRowAt(p: seq<nat>, a: int, c: int, rows: seq<nat>, known: seq<nat>, j: int)
    requires Stretch(p, a, c, known) && |rows| < |known| && j == c - 1 - |rows|
    ensures 0 <= j < |p| && p[j] == NextRow(rows, known)
  {
  }
}
