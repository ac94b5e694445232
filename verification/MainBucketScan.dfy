/** The state of the two scans over a big bucket, and what they leave. */
module MainBucketScan {

  import opened Permutations
  import opened Rotations
  import opened BurrowsWheeler
  import opened MainCompare
  import opened MainRadixSort
  import opened MainBucketOrder

  // ----- Rows of one word -----

  ghost predicate AllOfWord(w: seq<int>, s: seq<nat>, u: int) {
    forall x :: x in s ==> x < |w| && w[x] == u
  }

  ghost function OfWord(w: seq<int>, u: int, m: nat): set<nat>
    requires m <= |w|
  {
    set x | 0 <= x < m && w[x] == u
  }

  lemma {:induction false} OfWordSize(w: seq<int>, u: int, m: nat)
    requires m <= |w|
    ensures |OfWord(w, u, m)| == Occurrences(w, u, m)
  {
    if m == 0 {
      assert OfWord(w, u, 0) == {};
    } else {
      OfWordSize(w, u, m - 1);
      var s, t := OfWord(w, u, m), OfWord(w, u, m - 1);
      if w[m - 1] == u {
        assert s == t + {m - 1};
      } else {
        assert s == t;
      }
    }
  }

  /** Different positions with one word fit its bucket; they fill it if none is missing. */
  lemma WordRoom(w: seq<int>, s: seq<nat>, u: int)
    requires Distinct(s) && AllOfWord(w, s, u)
    ensures |s| <= Row(w, u + 1) - Row(w, u)
    ensures (forall x :: 0 <= x < |w| && w[x] == u ==> x in s) ==> |s| == Row(w, u + 1) - Row(w, u)
  {
    var all := OfWord(w, u, |w|);
    OfWordSize(w, u, |w|);
    SmallerNext(w, u, |w|);
    DistinctCount(s);
    assert Elements(s) <= all;
    SubsetCount(Elements(s), all);
    if forall x :: 0 <= x < |w| && w[x] == u ==> x in s {
      assert Elements(s) == all;
    }
  }

  ghost predicate AllByte(b: Block, s: seq<nat>, v: Byte) {
    forall x :: x in s ==> x < |b| && b[x] == v
  }

  lemma ScanWords(b: Block, rows: seq<nat>, t: Byte, v: Byte)
    requires Positions(rows, |b|) && AllByte(b, rows, v)
    ensures AllOfWord(Words(b), Scan(b, rows, t), 256 * (t as int) + v)
  {
    forall x | x in Scan(b, rows, t)
      ensures x < |b| && Words(b)[x] == 256 * (t as int) + v
    {
      InPositions(Scan(b, rows, t), |b|, x);
      ScanMember(b, rows, t, x);
    }
  }

  lemma InPositions(s: seq<nat>, n: nat, x: nat)
    requires Positions(s, n) && x in s
    ensures x < n
  {
  }

  // ----- The scan from the left -----

  ghost predicate AllLow(b: Block, s: seq<nat>, v: Byte) {
    forall x :: x in s ==> x < |b| && b[x] == v && Low(b, x, v)
  }

  ghost predicate AllHigh(b: Block, s: seq<nat>, v: Byte) {
    forall x :: x in s ==> x < |b| && b[x] == v && High(b, x, v)
  }

  /** base are the rows sorted before the scan; the byte behind each is smaller than v. */
  ghost predicate LeftBase(b: Block, v: Byte, base: seq<nat>) {
    && Positions(base, |b|) && Distinct(base) && Ordered(Orders(b), base)
    && forall x :: x in base ==> x < |b| && b[x] == v && b[Next(x, |b|)] < v
  }

  /** rows have been scanned; known are all rows in place so far, of which rows are the first. */
  ghost predicate LeftScan(b: Block, v: Byte, base: seq<nat>, rows: seq<nat>, known: seq<nat>) {
    && LeftBase(b, v, base) && Positions(rows, |b|) && rows <= known && known == base + Scan(b, rows, v)
    && Positions(known, |b|) && Distinct(known) && Ordered(Orders(b), known) && AllLow(b, known, v)
  }

  lemma BaseLow(b: Block, v: Byte, x: nat)
    requires x < |b| && b[x] == v
    ensures b[Next(x, |b|)] < v ==> Low(b, x, v)
    ensures b[Next(x, |b|)] > v ==> High(b, x, v)
  {
    var y := Next(x, |b|);
    assert BelowRun(b, y, v, 1) == (b[y] < v) && AboveRun(b, y, v, 1) == (b[y] > v);
    RunDecided(b, x, v, 2);
  }

  lemma LeftStart(b: Block, v: Byte, base: seq<nat>)
    requires LeftBase(b, v, base)
    ensures LeftScan(b, v, base, [], base)
  {
    hide Orders, Low;
    ScanNone(b, v);
    assert base + [] == base;
    forall x | x in base
      ensures Low(b, x, v)
    {
      BaseLow(b, v, x);
    }
  }

  /** The predecessor of the next row comes behind all rows known so far. */
  lemma LeftNewRow(b: Block, v: Byte, base: seq<nat>, rows: seq<nat>, known: seq<nat>, y: nat)
    requires LeftScan(b, v, base, rows, known) && |rows| < |known| && y in known
    ensures known[|rows|] < |b|
    ensures var x := known[|rows|];
            var k := Prev(x, |b|);
            b[k] == v ==> y < |b| && y != k && Orders(b)[y] <= Orders(b)[k]
  {
    hide Orders, Low;
    var n, x := |b|, known[|rows|];
    assert x in known;
    var k := Prev(x, n);
    NextPrev(x, n);
    if b[k] == v {
      if y in base {
        WordDecides(b, y, k);
      } else {
        assert y in Scan(b, rows, v);
        InPositions(known, n, y);
        ScanMember(b, rows, v, y);
        NextPrev(y, n);
        var z := Next(y, n);
        var i :| 0 <= i < |rows| && rows[i] == z;
        assert known[i] == z;
        PrevOrdered(b, z, x);
      }
    }
  }

  lemma LeftStep(b: Block, v: Byte, base: seq<nat>, rows: seq<nat>, known: seq<nat>)
    requires LeftScan(b, v, base, rows, known) && |rows| < |known|
    ensures known[|rows|] < |b|
    ensures var x := known[|rows|];
            LeftScan(b, v, base, rows + [x], known + Scan(b, [x], v))
  {
    hide Orders, Low, LeftBase, Scan;
    var n, x := |b|, known[|rows|];
    assert x in known;
    var k := Prev(x, n);
    NextPrev(x, n);
    ScanAppend(b, rows, [x], v);
    ScanOne(b, x, v);
    assert base + (Scan(b, rows, v) + Scan(b, [x], v)) == known + Scan(b, [x], v);
    if b[k] == v {
      forall y | y in known
        ensures y != k && Orders(b)[y] <= Orders(b)[k]
      {
        LeftNewRow(b, v, base, rows, known, y);
      }
      RunLonger(b, k, v);
      KnownGrows(b, known, k);
    } else {
      assert known + [] == known;
    }
  }

  lemma KnownGrows(b: Block, known: seq<nat>, k: nat)
    requires Positions(known, |b|) && Distinct(known) && Ordered(Orders(b), known) && k < |b|
    requires forall y :: y in known ==> y != k && y < |b| && Orders(b)[y] <= Orders(b)[k]
    ensures Positions(known + [k], |b|) && Distinct(known + [k]) && Ordered(Orders(b), known + [k])
  {
    hide Orders;
    OrderedJoin(Orders(b), known, [k]);
  }

  /** When nothing is left to scan, every low rotation of the bucket is in place. */
  lemma {:induction false} LeftComplete(b: Block, v: Byte, base: seq<nat>, rows: seq<nat>, x: nat, h: nat)
    requires LeftScan(b, v, base, rows, rows) && x < |b| && b[x] == v && BelowRun(b, x, v, h)
    requires forall y :: 0 <= y < |b| && b[y] == v && b[Next(y, |b|)] < v ==> y in base
    ensures x in rows
    decreases h
  {
    hide Orders, LeftBase;
    var y := Next(x, |b|);
    if b[y] == v {
      LeftComplete(b, v, base, rows, y, h - 1);
      ScanMember(b, rows, v, x);
    }
  }

  // ----- The scan from the right -----

  ghost predicate RightBase(b: Block, v: Byte, base: seq<nat>) {
    && Positions(base, |b|) && Distinct(base) && Ordered(Orders(b), base)
    && forall x :: x in base ==> x < |b| && b[x] == v && b[Next(x, |b|)] > v
  }

  ghost predicate Suffix(rows: seq<nat>, known: seq<nat>) {
    |rows| <= |known| && rows == known[|known| - |rows|..]
  }

  ghost predicate RightScan(b: Block, v: Byte, base: seq<nat>, rows: seq<nat>, known: seq<nat>) {
    && RightBase(b, v, base) && Positions(rows, |b|) && Suffix(rows, known)
    && known == Scan(b, rows, v) + base
    && Positions(known, |b|) && Distinct(known) && Ordered(Orders(b), known) && AllHigh(b, known, v)
  }

  lemma RightStart(b: Block, v: Byte, base: seq<nat>)
    requires RightBase(b, v, base)
    ensures RightScan(b, v, base, [], base)
  {
    hide Orders, High;
    ScanNone(b, v);
    assert [] + base == base;
    forall x | x in base
      ensures High(b, x, v)
    {
      BaseLow(b, v, x);
    }
  }

  /** The row that is scanned next: the one before those scanned. */
  ghost function NextRow(rows: seq<nat>, known: seq<nat>): nat
    requires |rows| < |known|
  {
    known[|known| - |rows| - 1]
  }

  lemma RightNewRow(b: Block, v: Byte, base: seq<nat>, rows: seq<nat>, known: seq<nat>, y: nat)
    requires RightScan(b, v, base, rows, known) && |rows| < |known| && y in known
    ensures NextRow(rows, known) < |b|
    ensures var k := Prev(NextRow(rows, known), |b|);
            b[k] == v ==> y < |b| && y != k && Orders(b)[k] <= Orders(b)[y]
  {
    hide Orders, High;
    var n, x := |b|, NextRow(rows, known);
    assert x in known;
    var k := Prev(x, n);
    NextPrev(x, n);
    if b[k] == v {
      if y in base {
        WordDecides(b, k, y);
      } else {
        assert y in Scan(b, rows, v);
        InPositions(known, n, y);
        ScanMember(b, rows, v, y);
        NextPrev(y, n);
        var z := Next(y, n);
        var i :| 0 <= i < |rows| && rows[i] == z;
        assert known[|known| - |rows| + i] == z;
        PrevOrdered(b, x, z);
      }
    }
  }

  lemma SuffixGrows(rows: seq<nat>, known: seq<nat>, front: seq<nat>)
    requires |rows| < |known| && Suffix(rows, known)
    ensures Suffix([NextRow(rows, known)] + rows, front + known)
  {
    var more := front + known;
    assert more[|more| - |rows| - 1..] == known[|known| - |rows| - 1..];
  }

  /** What is known after one more row. */
  lemma RightKnown(b: Block, v: Byte, base: seq<nat>, rows: seq<nat>, known: seq<nat>)
    requires RightScan(b, v, base, rows, known) && |rows| < |known|
    ensures NextRow(rows, known) < |b|
    ensures var known' := Scan(b, [NextRow(rows, known)], v) + known;
            Positions(known', |b|) && Distinct(known') && Ordered(Orders(b), known') && AllHigh(b, known', v)
  {
    hide Orders, High, RightBase, Scan, Ordered, Distinct;
    var n, x := |b|, NextRow(rows, known);
    assert x in known;
    var k := Prev(x, n);
    NextPrev(x, n);
    ScanOne(b, x, v);
    if b[k] == v {
      forall y | y in known
        ensures y != k && Orders(b)[k] <= Orders(b)[y]
      {
        RightNewRow(b, v, base, rows, known, y);
      }
      RunLonger(b, k, v);
      KnownGrowsFront(b, known, k);
    } else {
      assert [] + known == known;
    }
  }

  lemma OnePosition(x: nat, n: nat)
    requires x < n
    ensures Positions([x], n)
  {
  }

  lemma AppendAssoc(r: seq<nat>, s: seq<nat>, t: seq<nat>)
    ensures r + (s + t) == r + s + t
  {
  }

  lemma RightScanOf(b: Block, v: Byte, base: seq<nat>, rows: seq<nat>, known: seq<nat>)
    requires RightBase(b, v, base) && Positions(rows, |b|) && Suffix(rows, known) && known == Scan(b, rows, v) + base
    requires Positions(known, |b|) && Distinct(known) && Ordered(Orders(b), known) && AllHigh(b, known, v)
    ensures RightScan(b, v, base, rows, known)
  {
  }

  lemma RightParts(b: Block, v: Byte, base: seq<nat>, rows: seq<nat>, known: seq<nat>)
    requires RightScan(b, v, base, rows, known)
    ensures RightBase(b, v, base) && Positions(rows, |b|) && Suffix(rows, known) && known == Scan(b, rows, v) + base
  {
  }

  lemma RightStep(b: Block, v: Byte, base: seq<nat>, rows: seq<nat>, known: seq<nat>)
    requires RightScan(b, v, base, rows, known) && |rows| < |known|
    ensures NextRow(rows, known) < |b|
    ensures var x := NextRow(rows, known);
            RightScan(b, v, base, [x] + rows, Scan(b, [x], v) + known)
  {
    hide *;
    RightKnown(b, v, base, rows, known);
    RightParts(b, v, base, rows, known);
    var x := NextRow(rows, known);
    OnePosition(x, |b|);
    var more := Scan(b, [x], v);
    ScanAppend(b, [x], rows, v);
    SuffixGrows(rows, known, more);
    AppendAssoc(more, Scan(b, rows, v), base);
    RightScanOf(b, v, base, [x] + rows, more + known);
  }

  lemma KnownGrowsFront(b: Block, known: seq<nat>, k: nat)
    requires Positions(known, |b|) && Distinct(known) && Ordered(Orders(b), known) && k < |b|
    requires forall y :: y in known ==> y != k && y < |b| && Orders(b)[k] <= Orders(b)[y]
    ensures Positions([k] + known, |b|) && Distinct([k] + known) && Ordered(Orders(b), [k] + known)
  {
    hide Orders;
    OrderedJoin(Orders(b), [k], known);
  }

  lemma {:induction false} RightComplete(b: Block, v: Byte, base: seq<nat>, rows: seq<nat>, x: nat, h: nat)
    requires RightScan(b, v, base, rows, rows) && x < |b| && b[x] == v && AboveRun(b, x, v, h)
    requires forall y :: 0 <= y < |b| && b[y] == v && b[Next(y, |b|)] > v ==> y in base
    ensures x in rows
    decreases h
  {
    hide Orders, RightBase;
    var y := Next(x, |b|);
    if b[y] == v {
      RightComplete(b, v, base, rows, y, h - 1);
      ScanMember(b, rows, v, x);
    }
  }

  // ----- Both scans together -----

  /** Low rows and high rows lead to different predecessors. */
  lemma ScansApart(b: Block, v: Byte, low: seq<nat>, high: seq<nat>, t: Byte)
    requires Positions(low, |b|) && Positions(high, |b|) && Distinct(low) && Distinct(high)
    requires AllLow(b, low, v) && AllHigh(b, high, v)
    ensures Distinct(Scan(b, low, t) + Scan(b, high, t))
    ensures AllOfWord(Words(b), Scan(b, low, t) + Scan(b, high, t), 256 * (t as int) + v)
  {
    hide Low, High, Scan, Words;
    var s, r := Scan(b, low, t), Scan(b, high, t);
    ScanDistinct(b, low, t);
    ScanDistinct(b, high, t);
    ScanWords(b, low, t, v);
    ScanWords(b, high, t, v);
    forall x | x in s
      ensures x !in r
    {
      InPositions(s, |b|, x);
      ScanMember(b, low, t, x);
      ScanMember(b, high, t, x);
      NextPrev(x, |b|);
      LowOrHigh(b, Next(x, |b|), v);
    }
    DistinctJoin(s, r);
  }

  lemma DistinctJoin(s: seq<nat>, r: seq<nat>)
    requires Distinct(s) && Distinct(r) && forall x :: x in s ==> x !in r
    ensures Distinct(s + r)
  {
    var u := s + r;
    forall i, j | 0 <= i < j < |u|
      ensures u[i] != u[j]
    {
      if i < |s| <= j {
        assert s[i] in s && r[j - |s|] in r;
      }
    }
  }

  /** There is room for what the scans have found. */
  lemma ScansFit(b: Block, v: Byte, low: seq<nat>, high: seq<nat>, t: Byte)
    requires Positions(low, |b|) && Positions(high, |b|) && Distinct(low) && Distinct(high)
    requires AllLow(b, low, v) && AllHigh(b, high, v)
    ensures var u := 256 * (t as int) + v;
            |Scan(b, low, t)| + |Scan(b, high, t)| <= Row(Words(b), u + 1) - Row(Words(b), u)
  {
    hide *;
    ScansApart(b, v, low, high, t);
    WordRoom(Words(b), Scan(b, low, t) + Scan(b, high, t), 256 * (t as int) + v);
  }

  /** The finished scans put small bucket [t, v] in order and leave no gap. */
  lemma ScansFill(b: Block, v: Byte, baseL: seq<nat>, baseR: seq<nat>, low: seq<nat>, high: seq<nat>, t: Byte)
    requires LeftScan(b, v, baseL, low, low) && RightScan(b, v, baseR, high, high)
    requires forall y :: 0 <= y < |b| && b[y] == v && b[Next(y, |b|)] < v ==> y in baseL
    requires forall y :: 0 <= y < |b| && b[y] == v && b[Next(y, |b|)] > v ==> y in baseR
    requires exists y :: 0 <= y < |b| && b[y] != v
    ensures var s, u := Scan(b, low, t) + Scan(b, high, t), 256 * (t as int) + v;
            && Positions(s, |b|) && Distinct(s) && AllOfWord(Words(b), s, u) && Ordered(Orders(b), s)
            && |s| == Row(Words(b), u + 1) - Row(Words(b), u)
  {
    hide Orders, Scan, Words, LeftBase, RightBase, Low, High, Ordered, Distinct, AllOfWord, Before;
    var n, s, u := |b|, Scan(b, low, t) + Scan(b, high, t), 256 * (t as int) + v;
    ScansApart(b, v, low, high, t);
    ScanOrdered(b, low, t);
    ScanOrdered(b, high, t);
    LowRowsFirst(b, v, low, high);
    ScansBefore(b, low, high, t);
    OrderedJoin(Orders(b), Scan(b, low, t), Scan(b, high, t));
    forall x | 0 <= x < n && Words(b)[x] == u
      ensures x in s
    {
      WordParts(b, x, t, v);
      var y := Next(x, n);
      NextPrev(x, n);
      LowOrHigh(b, y, v);
      RunAt(b, y, v);
      if Low(b, y, v) {
        LeftComplete(b, v, baseL, low, y, n);
        ScanMember(b, low, t, x);
      } else {
        RightComplete(b, v, baseR, high, y, n);
        ScanMember(b, high, t, x);
      }
    }
    WordRoom(Words(b), s, u);
  }

  lemma LowRowsFirst(b: Block, v: Byte, low: seq<nat>, high: seq<nat>)
    requires Positions(low, |b|) && Positions(high, |b|) && AllLow(b, low, v) && AllHigh(b, high, v)
    ensures Before(Orders(b), low, high)
  {
    hide Orders, Low, High;
    forall x, y | x in low && y in high
      ensures x < |b| && y < |b| && Orders(b)[x] <= Orders(b)[y]
    {
      LowBeforeHigh(b, x, y, v);
    }
  }

  lemma RunAt(b: Block, y: nat, v: Byte)
    requires y < |b|
    ensures Low(b, y, v) == BelowRun(b, y, v, |b|) && High(b, y, v) == AboveRun(b, y, v, |b|)
  {
  }

  lemma WordParts(b: Block, x: nat, t: Byte, v: Byte)
    requires x < |b| && Words(b)[x] == 256 * (t as int) + v
    ensures b[x] == t && b[Next(x, |b|)] == v
  {
  }
}
