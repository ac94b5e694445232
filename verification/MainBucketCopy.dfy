/** Step 2 of mainSort: the two pointer scans over the finished big bucket. */
module MainBucketCopy {

  import opened Permutations
  import opened Rotations
  import opened BurrowsWheeler
  import opened QuickSort
  import opened MainCompare
  import opened MainRadixSort
  import opened MainBucketOrder
  import opened MainBucketScan

  /** Small bucket [t, v]. */
  function Word(t: int, v: Byte): int {
    256 * t + v
  }

  // ----- Rows of buckets -----

  lemma RowsGrow(w: seq<int>, u: int, u': int)
    requires u <= u'
    ensures Row(w, u) <= Row(w, u') <= |w|
  {
    SmallerMonotone(w, u, u', |w|);
  }

  /** A row belongs to one bucket only. */
  lemma OneBucket(w: seq<int>, k: int, u: int, u': int)
    requires Row(w, u) <= k < Row(w, u + 1) && Row(w, u') <= k < Row(w, u' + 1)
    ensures u == u'
  {
    if u < u' {
      RowsGrow(w, u + 1, u');
    } else if u' < u {
      RowsGrow(w, u' + 1, u);
    }
  }

  /** The bucket that owns row k. */
  ghost function Owner(p: seq<nat>, w: seq<int>, k: nat): (u: int)
    requires Layout(p, w) && k < |w|
    ensures Row(w, u) <= k < Row(w, u + 1)
  {
    w[p[k]]
  }

  // ----- What the scans have written -----

  /** For every big bucket t not done, cs[t] is where [t, v] has been filled to from the left. */
  ghost predicate LeftFilled(p: seq<nat>, b: Block, big: seq<bool>, v: Byte, cs: seq<int>, rows: seq<nat>)
    requires Positions(rows, |b|)
  {
    && |p| == |b| && |cs| == |big| == 256
    && forall t :: 0 <= t < 256 && !big[t] ==> FilledUp(p, Words(b), Word(t, v), cs[t], Scan(b, rows, t))
  }

  ghost predicate FilledUp(p: seq<nat>, w: seq<int>, u: int, end: int, s: seq<nat>) {
    && |p| == |w| && Row(w, u) <= end <= Row(w, u + 1) && end == Row(w, u) + |s|
    && p[Row(w, u)..end] == s
  }

  ghost predicate RightFilled(p: seq<nat>, b: Block, big: seq<bool>, v: Byte, ce: seq<int>, rows: seq<nat>)
    requires Positions(rows, |b|)
  {
    && |p| == |b| && |ce| == |big| == 256
    && forall t :: 0 <= t < 256 && !big[t] ==> FilledDown(p, Words(b), Word(t, v), ce[t], Scan(b, rows, t))
  }

  ghost predicate FilledDown(p: seq<nat>, w: seq<int>, u: int, end: int, s: seq<nat>) {
    && |p| == |w| && Row(w, u) <= end + 1 <= Row(w, u + 1) && end + 1 == Row(w, u + 1) - |s|
    && p[end + 1..Row(w, u + 1)] == s
  }

  /** Everything else is as it was. */
  ghost predicate Unmoved(p: seq<nat>, p0: seq<nat>, w: seq<int>, big: seq<bool>, v: Byte, cs: seq<int>, ce: seq<int>)
    requires Layout(p0, w) && |p| == |w| && |cs| == |ce| == |big| == 256
  {
    forall k, u :: 0 <= k < |w| && u == Owner(p0, w, k) && Untouched(big, v, cs, ce, k, u) ==> p[k] == p0[k]
  }

  /** Row k of bucket u lies outside what has been written. */
  ghost predicate Untouched(big: seq<bool>, v: Byte, cs: seq<int>, ce: seq<int>, k: int, u: int)
    requires |cs| == |ce| == |big| == 256
  {
    forall t :: 0 <= t < 256 && !big[t] && u == Word(t, v) ==> cs[t] <= k <= ce[t]
  }

  lemma WordsDiffer(t: int, t': int, v: Byte)
    ensures Word(t, v) == Word(t', v) ==> t == t'
  {
  }

  /** Writing the next entry of [c, v] from the left. */
  lemma LeftWrite(p: seq<nat>, b: Block, big: seq<bool>, v: Byte, cs: seq<int>, rows: seq<nat>, x: nat)
    requires Positions(rows, |b|) && LeftFilled(p, b, big, v, cs, rows) && x < |b|
    requires var k := Prev(x, |b|);
             !big[b[k]] ==> cs[b[k]] < Row(Words(b), Word(b[k], v) + 1)
    ensures Positions(rows + [x], |b|)
    ensures var k := Prev(x, |b|);
            var c := b[k];
            if big[c] then LeftFilled(p, b, big, v, cs, rows + [x])
            else 0 <= cs[c] < |p| && LeftFilled(p[cs[c] := k], b, big, v, cs[c := cs[c] + 1], rows + [x])
  {
    hide Scan, Words, Smaller;
    var n, k := |b|, Prev(x, |b|);
    var c, w := b[k], Words(b);
    var i := cs[c];
    forall t | 0 <= t < 256 && !big[t]
      ensures FilledUp(p, w, Word(t, v), cs[t], Scan(b, rows, t))
      ensures Scan(b, rows + [x], t) == Scan(b, rows, t) + if t == c then [k] else []
    {
      ScanAppend(b, rows, [x], t);
      ScanOne(b, x, t);
    }
    if !big[c] {
      var p', cs' := p[i := k], cs[c := i + 1];
      forall t | 0 <= t < 256 && !big[t]
        ensures FilledUp(p', w, Word(t, v), cs'[t], Scan(b, rows + [x], t))
      {
        if t == c {
          FilledUpMore(p, w, Word(t, v), i, Scan(b, rows, t), k);
        } else {
          if Row(w, Word(t, v)) <= i < cs[t] {
            OneBucket(w, i, Word(t, v), Word(c, v));
            WordsDiffer(t, c, v);
          }
          FilledUpSame(p, w, Word(t, v), cs[t], Scan(b, rows, t), i, k);
        }
      }
    } else {
      forall t | 0 <= t < 256 && !big[t]
        ensures FilledUp(p, w, Word(t, v), cs[t], Scan(b, rows + [x], t))
      {
        assert Scan(b, rows, t) + [] == Scan(b, rows, t);
      }
    }
  }

  lemma FilledUpMore(p: seq<nat>, w: seq<int>, u: int, end: int, s: seq<nat>, k: nat)
    requires FilledUp(p, w, u, end, s) && end < Row(w, u + 1)
    ensures end < |p| && FilledUp(p[end := k], w, u, end + 1, s + [k])
  {
    RowsGrow(w, u + 1, u + 1);
  }

  lemma FilledUpSame(p: seq<nat>, w: seq<int>, u: int, end: int, s: seq<nat>, i: int, k: nat)
    requires FilledUp(p, w, u, end, s) && 0 <= i < |p| && !(Row(w, u) <= i < end)
    ensures FilledUp(p[i := k], w, u, end, s + [])
  {
    assert s + [] == s;
    assert p[i := k][Row(w, u)..end] == p[Row(w, u)..end];
  }

  lemma FilledDownMore(p: seq<nat>, w: seq<int>, u: int, end: int, s: seq<nat>, k: nat)
    requires FilledDown(p, w, u, end, s) && end >= Row(w, u)
    ensures end < |p| && FilledDown(p[end := k], w, u, end - 1, [k] + s)
  {
    RowsGrow(w, u, u + 1);
  }

  lemma FilledDownSame(p: seq<nat>, w: seq<int>, u: int, end: int, s: seq<nat>, i: int, k: nat)
    requires FilledDown(p, w, u, end, s) && 0 <= i < |p| && !(end < i < Row(w, u + 1))
    ensures FilledDown(p[i := k], w, u, end, [] + s)
  {
    assert [] + s == s;
    assert p[i := k][end + 1..Row(w, u + 1)] == p[end + 1..Row(w, u + 1)];
  }

  /** Writing the next entry of [c, v] from the right. */
  lemma RightWrite(p: seq<nat>, b: Block, big: seq<bool>, v: Byte, ce: seq<int>, rows: seq<nat>, x: nat)
    requires Positions(rows, |b|) && RightFilled(p, b, big, v, ce, rows) && x < |b|
    requires var k := Prev(x, |b|);
             !big[b[k]] ==> ce[b[k]] >= Row(Words(b), Word(b[k], v))
    ensures Positions([x] + rows, |b|)
    ensures var k := Prev(x, |b|);
            var c := b[k];
            if big[c] then RightFilled(p, b, big, v, ce, [x] + rows)
            else 0 <= ce[c] < |p| && RightFilled(p[ce[c] := k], b, big, v, ce[c := ce[c] - 1], [x] + rows)
  {
    hide Scan, Words, Smaller;
    var n, k := |b|, Prev(x, |b|);
    var c, w := b[k], Words(b);
    var i := ce[c];
    forall t | 0 <= t < 256 && !big[t]
      ensures FilledDown(p, w, Word(t, v), ce[t], Scan(b, rows, t))
      ensures Scan(b, [x] + rows, t) == (if t == c then [k] else []) + Scan(b, rows, t)
    {
      ScanAppend(b, [x], rows, t);
      ScanOne(b, x, t);
    }
    if !big[c] {
      var p', ce' := p[i := k], ce[c := i - 1];
      forall t | 0 <= t < 256 && !big[t]
        ensures FilledDown(p', w, Word(t, v), ce'[t], Scan(b, [x] + rows, t))
      {
        if t == c {
          FilledDownMore(p, w, Word(t, v), i, Scan(b, rows, t), k);
        } else {
          if ce[t] < i < Row(w, Word(t, v) + 1) {
            OneBucket(w, i, Word(t, v), Word(c, v));
            WordsDiffer(t, c, v);
          }
          FilledDownSame(p, w, Word(t, v), ce[t], Scan(b, rows, t), i, k);
        }
      }
    } else {
      forall t | 0 <= t < 256 && !big[t]
        ensures FilledDown(p, w, Word(t, v), ce[t], Scan(b, [x] + rows, t))
      {
        assert [] + Scan(b, rows, t) == Scan(b, rows, t);
      }
    }
  }

  /** A write to one side's next entry leaves the other side and everything else alone. */
  lemma OtherSide(p: seq<nat>, b: Block, big: seq<bool>, v: Byte, cs: seq<int>, ce: seq<int>, low: seq<nat>,
                  high: seq<nat>, c: int, i: int, k: nat)
    requires Positions(low, |b|) && Positions(high, |b|) && |cs| == |ce| == |big| == 256 && 0 <= c < 256 && !big[c]
      && 0 <= i < |p|
    requires Row(Words(b), Word(c, v)) <= i < Row(Words(b), Word(c, v) + 1) && cs[c] <= i <= ce[c]
    ensures LeftFilled(p, b, big, v, cs, low) ==> LeftFilled(p[i := k], b, big, v, cs, low)
    ensures RightFilled(p, b, big, v, ce, high) ==> RightFilled(p[i := k], b, big, v, ce, high)
  {
    hide Scan, Words, Smaller;
    var w := Words(b);
    forall t | 0 <= t < 256 && !big[t]
      ensures FilledUp(p, w, Word(t, v), cs[t], Scan(b, low, t)) ==>
        FilledUp(p[i := k], w, Word(t, v), cs[t], Scan(b, low, t))
      ensures FilledDown(p, w, Word(t, v), ce[t], Scan(b, high, t)) ==>
        FilledDown(p[i := k], w, Word(t, v), ce[t], Scan(b, high, t))
    {
      var s, r := Scan(b, low, t), Scan(b, high, t);
      if FilledUp(p, w, Word(t, v), cs[t], s) {
        if Row(w, Word(t, v)) <= i < cs[t] {
          OneBucket(w, i, Word(t, v), Word(c, v));
          WordsDiffer(t, c, v);
        }
        FilledUpSame(p, w, Word(t, v), cs[t], s, i, k);
        assert s + [] == s;
      }
      if FilledDown(p, w, Word(t, v), ce[t], r) {
        if ce[t] < i < Row(w, Word(t, v) + 1) {
          OneBucket(w, i, Word(t, v), Word(c, v));
          WordsDiffer(t, c, v);
        }
        FilledDownSame(p, w, Word(t, v), ce[t], r, i, k);
        assert [] + r == r;
      }
    }
  }

  lemma UnmovedWrite(p: seq<nat>, p0: seq<nat>, w: seq<int>, big: seq<bool>, v: Byte, cs: seq<int>, ce: seq<int>,
                     c: int, i: int, k: nat,
                     cs': seq<int>, ce': seq<int>)
    requires Layout(p0, w) && |p| == |w| && |cs| == |ce| == |big| == 256 && Unmoved(p, p0, w, big, v, cs, ce)
    requires 0 <= c < 256 && !big[c] && 0 <= i < |p| && Row(w, Word(c, v)) <= i < Row(w, Word(c, v) + 1)
    requires (i == cs[c] && cs' == cs[c := i + 1] && ce' == ce) || (i == ce[c] && cs' == cs && ce' == ce[c := i - 1])
    ensures Unmoved(p[i := k], p0, w, big, v, cs', ce')
  {
    assert |p0| == |w|;
    assert !Untouched(big, v, cs', ce', i, Word(c, v)) by {
      assert !(cs'[c] <= i <= ce'[c]);
    }
    hide Layout, Smaller;
    forall m, u | 0 <= m < |w| && u == Owner(p0, w, m) && Untouched(big, v, cs', ce', m, u)
      ensures p[i := k][m] == p0[m]
    {
      if m == i {
        OneBucket(w, i, u, Word(c, v));
      } else {
        forall t | 0 <= t < 256 && !big[t] && u == Word(t, v)
          ensures cs[t] <= m <= ce[t]
        {
          assert cs'[t] <= m <= ce'[t];
        }
        assert Untouched(big, v, cs, ce, m, u);
      }
    }
  }

  // ----- The two scans -----

  /** The rows a..c of p, as a sequence. */
  ghost predicate Stretch(p: seq<nat>, a: int, c: int, s: seq<nat>) {
    0 <= a <= c <= |p| && p[a..c] == s
  }

  /** The state of the scan from the left. */
  ghost predicate ScanningLeft(p: seq<nat>, p0: seq<nat>, b: Block, big: seq<bool>, v: Byte, cs: seq<int>, ce: seq<int>,
                               base: seq<nat>, rows: seq<nat>, known: seq<nat>) {
    && Layout(p0, Words(b)) && |p| == |b| && |cs| == |ce| == |big| == 256 && !big[v]
    && LeftScan(b, v, base, rows, known)
    && LeftFilled(p, b, big, v, cs, rows) && RightFilled(p, b, big, v, ce, [])
    && Unmoved(p, p0, Words(b), big, v, cs, ce)
    && Stretch(p0, Row(Words(b), 256 * v), Row(Words(b), Word(v, v)), base)
  }

  /** Rows of the big bucket that are not in [v, v] do not move. */
  lemma BaseStays(p: seq<nat>, p0: seq<nat>, b: Block, big: seq<bool>, v: Byte, cs: seq<int>, ce: seq<int>)
    requires Layout(p0, Words(b)) && |p| == |b| && |cs| == |ce| == |big| == 256
      && Unmoved(p, p0, Words(b), big, v, cs, ce)
    ensures var w := Words(b);
            && (forall k :: Row(w, 256 * v) <= k < Row(w, Word(v, v)) ==> k < |b| && p[k] == p0[k])
            && (forall k :: Row(w, Word(v, v) + 1) <= k < Row(w, 256 * (v as int + 1)) ==> k < |b| && p[k] == p0[k])
  {
    hide Smaller;
    var w := Words(b);
    RowsGrow(w, 256 * v, Word(v, v));
    RowsGrow(w, Word(v, v) + 1, 256 * (v as int + 1));
    forall k | Row(w, 256 * v) <= k < Row(w, Word(v, v)) || Row(w, Word(v, v) + 1) <= k < Row(w, 256 * (v as int + 1))
      ensures k < |b| && p[k] == p0[k]
    {
      var u := Owner(p0, w, k);
      NotOfBucket(w, v, k, u);
      assert Untouched(big, v, cs, ce, k, u);
    }
  }

  /** A row of the big bucket v outside [v, v] belongs to a bucket [v, j], not to any [t, v]. */
  lemma NotOfBucket(w: seq<int>, v: Byte, k: int, u: int)
    requires Row(w, u) <= k < Row(w, u + 1)
    requires Row(w, 256 * v) <= k < Row(w, Word(v, v)) || Row(w, Word(v, v) + 1) <= k < Row(w, 256 * (v as int + 1))
    ensures forall t :: 0 <= t < 256 ==> u != Word(t, v)
  {
    hide Smaller;
    RowsGrow(w, 256 * v, Word(v, v) + 1);
    RowsGrow(w, Word(v, v), 256 * (v as int + 1));
    if u < 256 * v {
      RowsGrow(w, u + 1, 256 * v);
    }
    if u >= 256 * (v as int + 1) {
      RowsGrow(w, 256 * (v as int + 1), u);
    }
    assert 256 * v <= u < 256 * (v as int + 1);
    assert u != Word(v, v);
    forall t | 0 <= t < 256
      ensures u != Word(t, v)
    {
      assert u == Word(t, v) ==> t == v;
    }
  }

  /** All rows known are in place, at the beginning of the big bucket. */
  lemma KnownInPlace(p: seq<nat>, p0: seq<nat>, b: Block, big: seq<bool>, v: Byte, cs: seq<int>, ce: seq<int>,
                     base: seq<nat>, rows: seq<nat>, known: seq<nat>)
    requires ScanningLeft(p, p0, b, big, v, cs, ce, base, rows, known)
    ensures var B := Row(Words(b), 256 * v);
            && cs[v] == B + |known| && Stretch(p, B, cs[v], known)
  {
    hide Smaller, Scan, LeftBase, Low, Orders, Distinct, Ordered;
    var w := Words(b);
    BaseStays(p, p0, b, big, v, cs, ce);
    var B, A := Row(w, 256 * v), Row(w, Word(v, v));
    assert FilledUp(p, w, Word(v, v), cs[v], Scan(b, rows, v));
    assert p[B..A] == base;
    assert p[B..cs[v]] == p[B..A] + p[A..cs[v]];
  }

  /** The bucket of the next entry has room: the left scan is short of what the right scan has taken. */
  lemma LeftRoom(b: Block, v: Byte, cs: seq<int>, ce: seq<int>, big: seq<bool>, p: seq<nat>, low: seq<nat>,
                 high: seq<nat>, x: nat)
    requires Positions(low, |b|) && Positions(high, |b|) && Positions(low + [x], |b|) && x < |b|
    requires Distinct<nat>(low + [x]) && Distinct<nat>(high) && AllLow(b, low + [x], v) && AllHigh(b, high, v)
    requires LeftFilled(p, b, big, v, cs, low) && RightFilled(p, b, big, v, ce, high)
    ensures var c := b[Prev(x, |b|)];
            !big[c] ==> Row(Words(b), Word(c, v)) <= cs[c] <= ce[c] && cs[c] < Row(Words(b), Word(c, v) + 1)
  {
    hide Smaller, Scan, Low, High, Words, Distinct, AllLow, AllHigh;
    var k := Prev(x, |b|);
    var c := b[k];
    ScansFit(b, v, low + [x], high, c);
    ScanAppend(b, low, [x], c);
    ScanOne(b, x, c);
    if !big[c] {
      assert FilledUp(p, Words(b), Word(c, v), cs[c], Scan(b, low, c));
      assert FilledDown(p, Words(b), Word(c, v), ce[c], Scan(b, high, c));
    }
  }

  lemma RightRoom(b: Block, v: Byte, cs: seq<int>, ce: seq<int>, big: seq<bool>, p: seq<nat>, low: seq<nat>,
                  high: seq<nat>, x: nat)
    requires Positions(low, |b|) && Positions(high, |b|) && Positions([x] + high, |b|) && x < |b|
    requires Distinct<nat>(low) && Distinct<nat>([x] + high) && AllLow(b, low, v) && AllHigh(b, [x] + high, v)
    requires LeftFilled(p, b, big, v, cs, low) && RightFilled(p, b, big, v, ce, high)
    ensures var c := b[Prev(x, |b|)];
            !big[c] ==> cs[c] <= ce[c] && Row(Words(b), Word(c, v)) <= ce[c] < Row(Words(b), Word(c, v) + 1)
  {
    hide Smaller, Scan, Low, High, Words, Distinct, AllLow, AllHigh;
    var k := Prev(x, |b|);
    var c := b[k];
    ScansFit(b, v, low, [x] + high, c);
    ScanAppend(b, [x], high, c);
    ScanOne(b, x, c);
    if !big[c] {
      assert FilledUp(p, Words(b), Word(c, v), cs[c], Scan(b, low, c));
      assert FilledDown(p, Words(b), Word(c, v), ce[c], Scan(b, high, c));
    }
  }

  lemma PrefixDistinct(rows: seq<nat>, known: seq<nat>)
    requires rows <= known && |rows| < |known| && Distinct<nat>(known)
    ensures Distinct<nat>(rows) && Distinct<nat>(rows + [known[|rows|]])
    ensures forall x :: x in rows + [known[|rows|]] ==> x in known
  {
    var r := rows + [known[|rows|]];
    assert r == known[..|rows| + 1];
    assert forall i :: 0 <= i < |r| ==> r[i] == known[i];
  }

  lemma LeftParts(p: seq<nat>, p0: seq<nat>, b: Block, big: seq<bool>, v: Byte, cs: seq<int>, ce: seq<int>,
                  base: seq<nat>, rows: seq<nat>, known: seq<nat>)
    requires ScanningLeft(p, p0, b, big, v, cs, ce, base, rows, known)
    ensures Layout(p0, Words(b)) && |p| == |b| == |Words(b)| && |cs| == |ce| == |big| == 256 && !big[v]
    ensures LeftScan(b, v, base, rows, known) && Positions(rows, |b|) && Positions([], |b|)
    ensures LeftFilled(p, b, big, v, cs, rows) && RightFilled(p, b, big, v, ce, [])
    ensures Unmoved(p, p0, Words(b), big, v, cs, ce)
    ensures Stretch(p0, Row(Words(b), 256 * v), Row(Words(b), Word(v, v)), base)
  {
  }

  lemma LeftOf(p: seq<nat>, p0: seq<nat>, b: Block, big: seq<bool>, v: Byte, cs: seq<int>, ce: seq<int>,
               base: seq<nat>, rows: seq<nat>, known: seq<nat>)
    requires Layout(p0, Words(b)) && |p| == |b| == |Words(b)| && |cs| == |ce| == |big| == 256 && !big[v]
    requires LeftScan(b, v, base, rows, known) && Positions(rows, |b|) && Positions([], |b|)
    requires LeftFilled(p, b, big, v, cs, rows) && RightFilled(p, b, big, v, ce, [])
    requires Unmoved(p, p0, Words(b), big, v, cs, ce)
    requires Stretch(p0, Row(Words(b), 256 * v), Row(Words(b), Word(v, v)), base)
    ensures ScanningLeft(p, p0, b, big, v, cs, ce, base, rows, known)
  {
  }

  lemma LeftRows(b: Block, v: Byte, base: seq<nat>, rows: seq<nat>, known: seq<nat>)
    requires LeftScan(b, v, base, rows, known) && |rows| < |known|
    ensures var x := known[|rows|];
            && x < |b| && Prev(x, |b|) < |b| && Positions(rows, |b|) && Positions(rows + [x], |b|)
               && Positions([x], |b|)
            && Distinct<nat>(rows + [x]) && AllLow(b, rows + [x], v)
  {
    hide Low, Orders, Scan, LeftBase, Ordered;
    var x := known[|rows|];
    assert x in known;
    NextPrev(x, |b|);
    PrefixDistinct(rows, known);
    LeftPositions(b, v, rows, known, x);
  }

  /** One turn of the first scan. */
  lemma LeftTurn(p: seq<nat>, p0: seq<nat>, b: Block, big: seq<bool>, v: Byte, cs: seq<int>, ce: seq<int>,
                 base: seq<nat>, rows: seq<nat>, known: seq<nat>)
    requires ScanningLeft(p, p0, b, big, v, cs, ce, base, rows, known) && |rows| < |known|
    ensures known[|rows|] < |b|
    ensures var x := known[|rows|];
            var k := Prev(x, |b|);
            var c := b[k];
            var known' := known + Scan(b, [x], v);
            if big[c] then ScanningLeft(p, p0, b, big, v, cs, ce, base, rows + [x], known')
            else 0 <= cs[c] < |p| && cs[c] <= ce[c]
                 && ScanningLeft(p[cs[c] := k], p0, b, big, v, cs[c := cs[c] + 1], ce, base, rows + [x], known')
  {
    hide *;
    LeftParts(p, p0, b, big, v, cs, ce, base, rows, known);
    LeftRows(b, v, base, rows, known);
    var x := known[|rows|];
    LeftStep(b, v, base, rows, known);
    NoRows(b, v);
    LeftRoom(b, v, cs, ce, big, p, rows, [], x);
    LeftWrite(p, b, big, v, cs, rows, x);
    var k := Prev(x, |b|);
    var c := b[k];
    var known' := known + Scan(b, [x], v);
    if big[c] {
      LeftOf(p, p0, b, big, v, cs, ce, base, rows + [x], known');
    } else {
      OtherSide(p, b, big, v, cs, ce, rows, [], c, cs[c], k);
      UnmovedWrite(p, p0, Words(b), big, v, cs, ce, c, cs[c], k, cs[c := cs[c] + 1], ce);
      LeftOf(p[cs[c] := k], p0, b, big, v, cs[c := cs[c] + 1], ce, base, rows + [x], known');
    }
  }

  lemma LeftPositions(b: Block, v: Byte, rows: seq<nat>, known: seq<nat>, x: nat)
    requires Positions(known, |b|) && AllLow(b, known, v) && rows <= known && |rows| < |known| && x == known[|rows|]
    ensures Positions(rows, |b|) && Positions(rows + [x], |b|) && AllLow(b, rows + [x], v)
  {
    hide Low;
    var r := rows + [x];
    assert r == known[..|rows| + 1];
    assert forall y :: y in r ==> y in known;
  }

  lemma NoRows(b: Block, v: Byte)
    ensures Positions([], |b|) && Distinct<nat>([]) && AllHigh(b, [], v) && AllLow(b, [], v)
  {
  }

  /** The state of the scan from the right: the scan from the left is over. */
  ghost predicate ScanningRight(p: seq<nat>, p0: seq<nat>, b: Block, big: seq<bool>, v: Byte, cs: seq<int>,
                                ce: seq<int>,
                                baseL: seq<nat>, low: seq<nat>, baseR: seq<nat>, rows: seq<nat>, known: seq<nat>) {
    && Layout(p0, Words(b)) && |p| == |b| && |cs| == |ce| == |big| == 256 && !big[v]
    && LeftScan(b, v, baseL, low, low) && RightScan(b, v, baseR, rows, known)
    && LeftFilled(p, b, big, v, cs, low) && RightFilled(p, b, big, v, ce, rows)
    && Unmoved(p, p0, Words(b), big, v, cs, ce)
    && Stretch(p0, Row(Words(b), 256 * v), Row(Words(b), Word(v, v)), baseL)
    && Stretch(p0, Row(Words(b), Word(v, v) + 1), Row(Words(b), 256 * (v as int + 1)), baseR)
  }

  lemma RightStateParts(p: seq<nat>, p0: seq<nat>, b: Block, big: seq<bool>, v: Byte, cs: seq<int>, ce: seq<int>,
                        baseL: seq<nat>, low: seq<nat>, baseR: seq<nat>, rows: seq<nat>, known: seq<nat>)
    requires ScanningRight(p, p0, b, big, v, cs, ce, baseL, low, baseR, rows, known)
    ensures Layout(p0, Words(b)) && |p| == |p0| == |b| == |Words(b)| && |cs| == |ce| == |big| == 256 && !big[v]
    ensures LeftScan(b, v, baseL, low, low) && RightScan(b, v, baseR, rows, known) && Positions(low, |b|)
      && Positions(rows, |b|)
    ensures Distinct<nat>(low) && AllLow(b, low, v)
    ensures LeftFilled(p, b, big, v, cs, low) && RightFilled(p, b, big, v, ce, rows)
    ensures Unmoved(p, p0, Words(b), big, v, cs, ce)
    ensures Stretch(p0, Row(Words(b), 256 * v), Row(Words(b), Word(v, v)), baseL)
    ensures Stretch(p0, Row(Words(b), Word(v, v) + 1), Row(Words(b), 256 * (v as int + 1)), baseR)
  {
    hide Smaller, Orders, Low, LeftBase, Scan;
  }

  lemma RightStateOf(p: seq<nat>, p0: seq<nat>, b: Block, big: seq<bool>, v: Byte, cs: seq<int>, ce: seq<int>,
                     baseL: seq<nat>, low: seq<nat>, baseR: seq<nat>, rows: seq<nat>, known: seq<nat>)
    requires Layout(p0, Words(b)) && |p| == |b| == |Words(b)| && |cs| == |ce| == |big| == 256 && !big[v]
    requires LeftScan(b, v, baseL, low, low) && RightScan(b, v, baseR, rows, known) && Positions(low, |b|)
      && Positions(rows, |b|)
    requires LeftFilled(p, b, big, v, cs, low) && RightFilled(p, b, big, v, ce, rows)
    requires Unmoved(p, p0, Words(b), big, v, cs, ce)
    requires Stretch(p0, Row(Words(b), 256 * v), Row(Words(b), Word(v, v)), baseL)
    requires Stretch(p0, Row(Words(b), Word(v, v) + 1), Row(Words(b), 256 * (v as int + 1)), baseR)
    ensures ScanningRight(p, p0, b, big, v, cs, ce, baseL, low, baseR, rows, known)
  {
  }

  lemma RightRows(b: Block, v: Byte, base: seq<nat>, rows: seq<nat>, known: seq<nat>)
    requires RightScan(b, v, base, rows, known) && |rows| < |known|
    ensures var x := NextRow(rows, known);
            && x < |b| && Prev(x, |b|) < |b| && Positions(rows, |b|) && Positions([x] + rows, |b|)
               && Positions([x], |b|)
            && Distinct<nat>([x] + rows) && AllHigh(b, [x] + rows, v)
  {
    hide High, Orders, Scan, RightBase, Ordered;
    var x := NextRow(rows, known);
    var r := [x] + rows;
    assert x in known;
    NextPrev(x, |b|);
    var at := |known| - |rows| - 1;
    assert forall i :: 0 <= i < |r| ==> r[i] == known[at + i];
    assert forall y :: y in r ==> y in known;
  }

  /** All rows known are in place, at the end of the big bucket. */
  lemma RightInPlace(p: seq<nat>, p0: seq<nat>, b: Block, big: seq<bool>, v: Byte, cs: seq<int>, ce: seq<int>,
                     baseL: seq<nat>, low: seq<nat>, baseR: seq<nat>, rows: seq<nat>, known: seq<nat>)
    requires ScanningRight(p, p0, b, big, v, cs, ce, baseL, low, baseR, rows, known)
    ensures var E := Row(Words(b), 256 * (v as int + 1));
            && ce[v] + 1 == E - |known| && Stretch(p, ce[v] + 1, E, known)
  {
    hide Smaller, Scan, LeftBase, RightBase, Low, High, Orders, Distinct, Ordered;
    var w := Words(b);
    BaseStays(p, p0, b, big, v, cs, ce);
    var Z, E := Row(w, Word(v, v) + 1), Row(w, 256 * (v as int + 1));
    RowsGrow(w, Word(v, v) + 1, 256 * (v as int + 1));
    assert FilledDown(p, w, Word(v, v), ce[v], Scan(b, rows, v));
    assert p[Z..E] == baseR;
    assert p[ce[v] + 1..E] == p[ce[v] + 1..Z] + p[Z..E];
  }

  /** One turn of the second scan. */
  lemma RightTurn(p: seq<nat>, p0: seq<nat>, b: Block, big: seq<bool>, v: Byte, cs: seq<int>, ce: seq<int>,
                  baseL: seq<nat>, low: seq<nat>, baseR: seq<nat>, rows: seq<nat>, known: seq<nat>)
    requires ScanningRight(p, p0, b, big, v, cs, ce, baseL, low, baseR, rows, known) && |rows| < |known|
    ensures NextRow(rows, known) < |b|
    ensures var x := NextRow(rows, known);
            var k := Prev(x, |b|);
            var c := b[k];
            var known' := Scan(b, [x], v) + known;
            if big[c] then ScanningRight(p, p0, b, big, v, cs, ce, baseL, low, baseR, [x] + rows, known')
            else 0 <= ce[c] < |p|
                 && ScanningRight(p[ce[c] := k], p0, b, big, v, cs, ce[c := ce[c] - 1], baseL, low, baseR, [x] + rows,
                                  known')
  {
    hide *;
    RightStateParts(p, p0, b, big, v, cs, ce, baseL, low, baseR, rows, known);
    RightRows(b, v, baseR, rows, known);
    var x := NextRow(rows, known);
    RightStep(b, v, baseR, rows, known);
    RightRoom(b, v, cs, ce, big, p, low, rows, x);
    RightWrite(p, b, big, v, ce, rows, x);
    var k := Prev(x, |b|);
    var c := b[k];
    var known' := Scan(b, [x], v) + known;
    if big[c] {
      RightStateOf(p, p0, b, big, v, cs, ce, baseL, low, baseR, [x] + rows, known');
    } else {
      OtherSide(p, b, big, v, cs, ce, low, rows, c, ce[c], k);
      UnmovedWrite(p, p0, Words(b), big, v, cs, ce, c, ce[c], k, cs, ce[c := ce[c] - 1]);
      RightStateOf(p[ce[c] := k], p0, b, big, v, cs, ce[c := ce[c] - 1], baseL, low, baseR, [x] + rows, known');
    }
  }

  // ----- Ranges of small buckets -----

  ghost predicate BucketOrdered(p: seq<nat>, b: Block, u: int)
    requires |p| == |b|
  {
    && Positions(p, |b|)
    && forall i, j :: Row(Words(b), u) <= i < j < Row(Words(b), u + 1) && j < |p| ==> Orders(b)[p[i]] <= Orders(b)[p[j]]
  }

  /** Neighbouring buckets in order make a range in order. */
  lemma RangeOrdered(p: seq<nat>, b: Block, u1: int, u2: int)
    requires Layout(p, Words(b)) && u1 <= u2 && forall u :: u1 <= u < u2 ==> BucketOrdered(p, b, u)
    ensures Row(Words(b), u1) <= Row(Words(b), u2) <= |p|
    ensures forall i, j :: Row(Words(b), u1) <= i < j < Row(Words(b), u2) ==> Orders(b)[p[i]] <= Orders(b)[p[j]]
  {
    hide Smaller, Orders;
    var w := Words(b);
    RowsGrow(w, u1, u2);
    forall i, j | Row(w, u1) <= i < j < Row(w, u2)
      ensures Orders(b)[p[i]] <= Orders(b)[p[j]]
    {
      var x, y := Owner(p, w, i), Owner(p, w, j);
      OwnerWithin(w, i, x, u1, u2);
      OwnerWithin(w, j, y, u1, u2);
      if x < y {
        WordDecides(b, p[i], p[j]);
      } else if y < x {
        RowsGrow(w, y + 1, x);
      } else {
        assert BucketOrdered(p, b, x);
      }
    }
  }

  lemma OwnerWithin(w: seq<int>, k: int, u: int, u1: int, u2: int)
    requires Row(w, u) <= k < Row(w, u + 1) && Row(w, u1) <= k < Row(w, u2)
    ensures u1 <= u < u2
  {
    if u < u1 {
      RowsGrow(w, u + 1, u1);
    }
    if u >= u2 {
      RowsGrow(w, u2, u);
    }
  }

  /** The rows of a range of buckets. */
  ghost function RowsOf(p: seq<nat>, w: seq<int>, u1: int, u2: int): (s: seq<nat>)
    requires |p| == |w| && u1 <= u2
  {
    RowsGrow(w, u1, u2);
    p[Row(w, u1)..Row(w, u2)]
  }

  lemma RowInRange(p: seq<nat>, b: Block, u1: int, u2: int, i: nat)
    requires Layout(p, Words(b)) && u1 <= u2 && i < |RowsOf(p, Words(b), u1, u2)|
    ensures var x := RowsOf(p, Words(b), u1, u2)[i];
            x < |b| && u1 <= Words(b)[x] < u2 && Row(Words(b), u1) + i < |p| && x == p[Row(Words(b), u1) + i]
  {
    hide Smaller;
    var w := Words(b);
    RowsGrow(w, u1, u2);
    var k := Row(w, u1) + i;
    OwnerWithin(w, k, w[p[k]], u1, u2);
  }

  lemma PositionInRange(p: seq<nat>, b: Block, u1: int, u2: int, x: nat)
    requires Layout(p, Words(b)) && u1 <= u2 && x < |b| && u1 <= Words(b)[x] < u2
    ensures x in RowsOf(p, Words(b), u1, u2)
  {
    hide Smaller, Words;
    var w := Words(b);
    PermutationReaches(p, |w|, x);
    var k :| 0 <= k < |p| && p[k] == x;
    RowsGrow(w, u1, w[x]);
    RowsGrow(w, w[x] + 1, u2);
    assert RowsOf(p, w, u1, u2)[k - Row(w, u1)] == x;
  }

  /** They are different positions with words in the range, and all of those. */
  lemma RangeHolds(p: seq<nat>, b: Block, u1: int, u2: int)
    requires Layout(p, Words(b)) && u1 <= u2
    ensures var s := RowsOf(p, Words(b), u1, u2);
            && Positions(s, |b|) && Distinct<nat>(s)
            && (forall x :: x in s ==> x < |b| && u1 <= Words(b)[x] < u2)
            && (forall x :: 0 <= x < |b| && u1 <= Words(b)[x] < u2 ==> x in s)
  {
    hide Smaller, RowsOf;
    var s := RowsOf(p, Words(b), u1, u2);
    forall i | 0 <= i < |s|
      ensures s[i] < |b| && u1 <= Words(b)[s[i]] < u2
    {
      RowInRange(p, b, u1, u2, i);
    }
    forall i, j | 0 <= i < j < |s|
      ensures s[i] != s[j]
    {
      RowInRange(p, b, u1, u2, i);
      RowInRange(p, b, u1, u2, j);
    }
    forall x | 0 <= x < |b| && u1 <= Words(b)[x] < u2
      ensures x in s
    {
      PositionInRange(p, b, u1, u2, x);
    }
  }

  lemma RangeIsOrdered(p: seq<nat>, b: Block, u1: int, u2: int)
    requires Layout(p, Words(b)) && u1 <= u2 && forall u :: u1 <= u < u2 ==> BucketOrdered(p, b, u)
    ensures var s := RowsOf(p, Words(b), u1, u2);
            Positions(s, |b|) && Ordered(Orders(b), s) && Stretch(p, Row(Words(b), u1), Row(Words(b), u2), s)
  {
    hide Smaller, Orders, BucketOrdered;
    var s := RowsOf(p, Words(b), u1, u2);
    RangeOrdered(p, b, u1, u2);
    RowsGrow(Words(b), u1, u2);
    forall i, j | 0 <= i < j < |s|
      ensures Orders(b)[s[i]] <= Orders(b)[s[j]]
    {
      assert s[i] == p[Row(Words(b), u1) + i] && s[j] == p[Row(Words(b), u1) + j];
    }
  }

  /** The rows in front of [v, v] are a base for the scan from the left. */
  lemma LeftBaseReady(p: seq<nat>, b: Block, v: Byte)
    requires Layout(p, Words(b)) && forall u :: 256 * v <= u < Word(v, v) ==> BucketOrdered(p, b, u)
    ensures var base := RowsOf(p, Words(b), 256 * v, Word(v, v));
            && LeftBase(b, v, base) && Stretch(p, Row(Words(b), 256 * v), Row(Words(b), Word(v, v)), base)
            && forall y :: 0 <= y < |b| && b[y] == v && b[Next(y, |b|)] < v ==> y in base
  {
    hide Smaller, Orders, BucketOrdered, RowsOf, Stretch, Ordered, Row;
    var base := RowsOf(p, Words(b), 256 * v, Word(v, v));
    RangeHolds(p, b, 256 * v, Word(v, v));
    RangeIsOrdered(p, b, 256 * v, Word(v, v));
  }

  /** The rows behind [v, v] are a base for the scan from the right. */
  lemma RightBaseReady(p: seq<nat>, b: Block, v: Byte)
    requires Layout(p, Words(b)) && forall u :: Word(v, v) < u < 256 * (v as int + 1) ==> BucketOrdered(p, b, u)
    ensures var base := RowsOf(p, Words(b), Word(v, v) + 1, 256 * (v as int + 1));
            && RightBase(b, v, base)
            && Stretch(p, Row(Words(b), Word(v, v) + 1), Row(Words(b), 256 * (v as int + 1)), base)
            && forall y :: 0 <= y < |b| && b[y] == v && b[Next(y, |b|)] > v ==> y in base
  {
    hide Smaller, Orders, BucketOrdered, RowsOf, Stretch, Ordered, Row;
    var u1, u2 := Word(v, v) + 1, 256 * (v as int + 1);
    var base := RowsOf(p, Words(b), u1, u2);
    RangeHolds(p, b, u1, u2);
    RangeIsOrdered(p, b, u1, u2);
  }
}
