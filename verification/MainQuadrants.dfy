/** Step 3 of mainSort: the quadrants of a finished big bucket. */
module MainQuadrants {

  import opened Permutations
  import opened Rotations
  import opened BurrowsWheeler
  import opened Bits
  import opened QuickSort
  import opened MainCompare
  import opened MainRadixSort
  import opened MainBucketOrder
  import opened MainBucketScan
  import opened MainBucketCopy
  import opened MainScanResult

  /** The small buckets of ss are in order. */
  ghost predicate RowOrdered(p: seq<nat>, b: Block, ss: Byte)
    requires |p| == |b|
  {
    forall u :: 256 * (ss as int) <= u < 256 * (ss as int + 1) ==> BucketOrdered(p, b, u)
  }

  lemma {:induction false} ShrOrdered(u: nat, v: nat, k: nat)
    requires u <= v
    ensures Shr(u, k) <= Shr(v, k)
    decreases k
  {
    if k > 0 {
      ShrOrdered(u / 2, v / 2, k - 1);
    }
  }

  /** s are the rows of big bucket ss; those from j on have their quadrants. */
  ghost predicate Marked(q: seq<nat>, q0: seq<nat>, s: seq<nat>, j: int, shifts: nat, n: nat) {
    && |q| == |q0| >= n && Positions(s, n) && 0 <= j
    && (forall k :: j <= k < |s| ==> q[s[k]] == Shr(k, shifts))
    && (forall x :: 0 <= x < n && (forall k :: j <= k < |s| ==> s[k] != x) ==> q[x] == q0[x])
  }

  lemma MarkStart(q: seq<nat>, s: seq<nat>, shifts: nat, n: nat)
    requires |q| >= n && Positions(s, n)
    ensures Marked(q, q, s, |s|, shifts, n)
  {
  }

  lemma MarkNext(q: seq<nat>, q': seq<nat>, q0: seq<nat>, s: seq<nat>, j: int, shifts: nat, n: nat)
    requires 0 <= j < |s| && Marked(q, q0, s, j + 1, shifts, n) && Distinct<nat>(s) && |q'| == |q|
    requires forall x :: 0 <= x < n ==> q'[x] == if x == s[j] then Shr(j, shifts) else q[x]
    ensures Marked(q', q0, s, j, shifts, n)
  {
    hide Shr;
    assert s[j] < n;
    forall x | 0 <= x < n && (forall k :: j <= k < |s| ==> s[k] != x)
      ensures q'[x] == q0[x]
    {
      assert s[j] != x;
      assert forall k :: j + 1 <= k < |s| ==> s[k] != x;
    }
  }

  lemma BigRows(p: seq<nat>, b: Block, ss: Byte)
    requires Layout(p, Words(b)) && |p| == |b| && RowOrdered(p, b, ss)
    ensures var s := RowsOf(p, Words(b), 256 * (ss as int), 256 * (ss as int + 1));
            && Positions(s, |b|) && Distinct<nat>(s) && Ordered(Orders(b), s)
            && Stretch(p, Row(Words(b), 256 * (ss as int)), Row(Words(b), 256 * (ss as int + 1)), s)
            && forall x :: 0 <= x < |b| ==> (x in s <==> b[x] == ss)
  {
    hide Row, RowsOf, Stretch, BucketOrdered, Ordered, Distinct;
    var u1, u2 := 256 * (ss as int), 256 * (ss as int + 1);
    RangeHolds(p, b, u1, u2);
    RangeIsOrdered(p, b, u1, u2);
    var s := RowsOf(p, Words(b), u1, u2);
    forall x | 0 <= x < |b|
      ensures x in s <==> b[x] == ss
    {
      ByteOfWord(b, x, ss);
    }
  }

  lemma ByteOfWord(b: Block, x: nat, ss: Byte)
    requires x < |b|
    ensures b[x] == ss <==> 256 * (ss as int) <= Words(b)[x] < 256 * (ss as int + 1)
  {
  }

  /** The new quadrants are as good as the old ones. */
  lemma MarkedOk(q: seq<nat>, q0: seq<nat>, s: seq<nat>, shifts: nat, b: Block, ss: Byte)
    requires Marked(q, q0, s, 0, shifts, |b|) && QuadrantsOk(q0, b) && Ordered(Orders(b), s)
    requires forall x :: 0 <= x < |b| ==> (x in s <==> b[x] == ss)
    ensures QuadrantsOk(q, b)
  {
    hide Shr, Orders;
    forall x, y | 0 <= x < |b| && 0 <= y < |b| && b[x] == b[y] && q[x] < q[y]
      ensures Orders(b)[x] <= Orders(b)[y]
    {
      if b[x] == ss {
        var k :| 0 <= k < |s| && s[k] == x;
        var m :| 0 <= m < |s| && s[m] == y;
        if m < k {
          ShrOrdered(m, k, shifts);
        }
      } else {
        assert forall k :: 0 <= k < |s| ==> s[k] in s;
      }
    }
  }

  lemma ShrSmall(k: nat, size: nat, shifts: nat)
    requires k < size && Shr(size, shifts) <= 65534
    ensures Shr(k, shifts) <= 65534 && Shr(k, shifts) % 65536 == Shr(k, shifts)
  {
    ShrOrdered(k, size, shifts);
  }

  lemma ExtendedParts(block: seq<Byte>, q: seq<nat>, b: Block)
    requires Extended(block, q, b)
    ensures Repeats(block, |b|) && Repeats(q, |b|) && block[..|b|] == b && QuadrantsOk(q, b)
  {
  }

  lemma ExtendedOf(block: seq<Byte>, q: seq<nat>, b: Block)
    requires Repeats(block, |b|) && Repeats(q, |b|) && block[..|b|] == b && QuadrantsOk(q, b)
    ensures Extended(block, q, b)
  {
  }

  /** One new quadrant, in the overshoot area too. */
  lemma RepeatsWrite(q: seq<nat>, q': seq<nat>, n: nat, x: nat, v: nat)
    requires Repeats(q, n) && x < n && |q'| == |q|
    requires forall y :: 0 <= y < |q| ==> q'[y] == if y == x || (x < N_OVERSHOOT && y == x + n) then v else q[y]
    ensures Repeats(q', n)
  {
  }

  lemma RepeatsSize(q: seq<nat>, n: nat)
    requires Repeats(q, n)
    ensures |q| == n + N_OVERSHOOT && n > N_OVERSHOOT
  {
  }

  /** Step 3: quadrants are 16 bits wide, so that the rows of a large bucket share them; assertion 1002 holds. */
  method UpdateQuadrants(ptr: array<nat>, quadrant: array<nat>, ftab: array<nat>, nblock: nat, ss: Byte, ghost b: Block,
                         ghost block: seq<Byte>)
    requires nblock == |b| == ptr.Length && quadrant != ptr && quadrant != ftab && Extended(block, quadrant[..], b)
    requires Table(ftab[..], Words(b)) && Layout(ptr[..], Words(b)) && RowOrdered(ptr[..], b, ss)
    modifies quadrant
    ensures Extended(block, quadrant[..], b)
  {
    hide *;
    ghost var w, p, q0 := Words(b), ptr[..], quadrant[..];
    BigRows(p, b, ss);
    ghost var u1, u2 := 256 * (ss as int), 256 * (ss as int + 1);
    ghost var s := RowsOf(p, w, u1, u2);
    ExtendedParts(block, q0, b);
    TableAt(ftab[..], w, u1);
    TableAt(ftab[..], w, u2);
    StretchSize(p, Row(w, u1), Row(w, u2), s);
    var bbStart := Clear(ftab[256 * (ss as int)]);
    var bbSize := Clear(ftab[256 * (ss as int + 1)]) - bbStart;
    var shifts := 0;
    while Shr(bbSize, shifts) > 65534
      invariant quadrant[..] == q0
      decreases Shr(bbSize, shifts)
    {
      ShrLast(bbSize, shifts);
      shifts := shifts + 1;
    }
    RepeatsSize(q0, nblock);
    MarkStart(q0, s, shifts, nblock);
    var j: int := bbSize - 1;
    while j >= 0
      invariant -1 <= j < bbSize == |s|
      invariant Marked(quadrant[..], q0, s, j + 1, shifts, nblock) && Repeats(quadrant[..], nblock)
    {
      ghost var q := quadrant[..];
      StretchAt(p, Row(w, u1), Row(w, u2), s, bbStart + j);
      var a2update := ptr[bbStart + j];
      InPositions(s, nblock, s[j]);
      var qVal := Shr(j, shifts) % 65536;
      ShrSmall(j, bbSize, shifts);
      RepeatsSize(q, nblock);
      quadrant[a2update] := qVal;
      if a2update < N_OVERSHOOT {
        quadrant[a2update + nblock] := qVal;
      }
      RepeatsWrite(q, quadrant[..], nblock, a2update, qVal);
      MarkNext(q, quadrant[..], q0, s, j, shifts, nblock);
      j := j - 1;
    }
    if bbSize > 0 {
      ShrSmall(bbSize - 1, bbSize, shifts);
      assert Shr(bbSize - 1, shifts) <= 65535;
    }
    MarkedOk(quadrant[..], q0, s, shifts, b, ss);
    ExtendedOf(block, quadrant[..], b);
  }
}
