/**
  Why scanning one big bucket puts other small buckets in order (Step 2 of mainSort): the
  mathematics.  v is the byte of the big bucket.  A rotation that starts with a run of v
  is low if the byte behind the run is smaller than v, and high if it is larger.
 */
module MainBucketOrder {

  import opened Permutations
  import opened Rotations
  import opened BurrowsWheeler
  import opened MainCompare
  import opened MainRadixSort

  // ----- Runs -----

  ghost predicate BelowRun(b: Block, x: nat, v: Byte, h: nat)
    requires x < |b|
    decreases h
  {
    h > 0 && (b[x] < v || (b[x] == v && BelowRun(b, Next(x, |b|), v, h - 1)))
  }

  ghost predicate AboveRun(b: Block, x: nat, v: Byte, h: nat)
    requires x < |b|
    decreases h
  {
    h > 0 && (b[x] > v || (b[x] == v && AboveRun(b, Next(x, |b|), v, h - 1)))
  }

  ghost predicate AllRun(b: Block, x: nat, v: Byte, h: nat)
    requires x < |b|
    decreases h
  {
    h == 0 || (b[x] == v && AllRun(b, Next(x, |b|), v, h - 1))
  }

  lemma {:induction false} RunsExclude(b: Block, x: nat, v: Byte, h: nat)
    requires x < |b|
    ensures BelowRun(b, x, v, h) || AboveRun(b, x, v, h) || AllRun(b, x, v, h)
    ensures !(BelowRun(b, x, v, h) && AboveRun(b, x, v, h))
    ensures !(AllRun(b, x, v, h) && (BelowRun(b, x, v, h) || AboveRun(b, x, v, h)))
    decreases h
  {
    if h > 0 {
      RunsExclude(b, Next(x, |b|), v, h - 1);
    }
  }

  lemma {:induction false} RunsGrow(b: Block, x: nat, v: Byte, g: nat, h: nat)
    requires x < |b| && g <= h
    ensures BelowRun(b, x, v, g) ==> BelowRun(b, x, v, h)
    ensures AboveRun(b, x, v, g) ==> AboveRun(b, x, v, h)
    ensures AllRun(b, x, v, h) ==> AllRun(b, x, v, g)
    decreases g
  {
    if g > 0 {
      RunsGrow(b, Next(x, |b|), v, g - 1, h - 1);
    }
  }

  lemma {:induction false} AllRunAt(b: Block, x: nat, v: Byte, h: nat, m: nat)
    requires x < |b| && AllRun(b, x, v, h) && m < h
    ensures b[Shift(x, m, |b|)] == v
    decreases m
  {
    if m > 0 {
      AllRunAt(b, Next(x, |b|), v, h - 1, m - 1);
    }
  }

  /** A run around the whole block: every byte is v. */
  lemma WholeRun(b: Block, x: nat, v: Byte)
    requires x < |b| && AllRun(b, x, v, |b|)
    ensures forall y :: 0 <= y < |b| ==> b[y] == v
  {
    var n := |b|;
    forall y | 0 <= y < n
      ensures b[y] == v
    {
      var m := if x <= y then y - x else y + n - x;
      ShiftValue(x, m, n);
      AllRunAt(b, x, v, n, m);
    }
  }

  lemma {:induction false} AllSame(b: Block, x: nat, v: Byte, h: nat)
    requires x < |b| && forall y :: 0 <= y < |b| ==> b[y] == v
    ensures AllRun(b, x, v, h)
    decreases h
  {
    if h > 0 {
      AllSame(b, Next(x, |b|), v, h - 1);
    }
  }

  ghost predicate Low(b: Block, x: nat, v: Byte)
    requires x < |b|
  {
    BelowRun(b, x, v, |b|)
  }

  ghost predicate High(b: Block, x: nat, v: Byte)
    requires x < |b|
  {
    AboveRun(b, x, v, |b|)
  }

  /** One turn decides. */
  lemma RunDecided(b: Block, x: nat, v: Byte, h: nat)
    requires x < |b|
    ensures BelowRun(b, x, v, h) ==> Low(b, x, v)
    ensures AboveRun(b, x, v, h) ==> High(b, x, v)
  {
    var n := |b|;
    RunsExclude(b, x, v, n);
    if h <= n {
      RunsGrow(b, x, v, h, n);
    } else {
      RunsGrow(b, x, v, n, h);
      RunsExclude(b, x, v, h);
      if AllRun(b, x, v, n) {
        WholeRun(b, x, v);
        AllSame(b, x, v, h);
      }
    }
  }

  /** One more v in front changes nothing. */
  lemma RunLonger(b: Block, x: nat, v: Byte)
    requires x < |b| && b[x] == v
    ensures Low(b, x, v) == Low(b, Next(x, |b|), v) && High(b, x, v) == High(b, Next(x, |b|), v)
  {
    var n, y := |b|, Next(x, |b|);
    RunDecided(b, x, v, n + 1);
    assert BelowRun(b, x, v, n + 1) == BelowRun(b, y, v, n) && AboveRun(b, x, v, n + 1) == AboveRun(b, y, v, n);
    RunsGrow(b, x, v, n, n + 1);
  }

  lemma LowOrHigh(b: Block, x: nat, v: Byte)
    requires x < |b|
    ensures !(Low(b, x, v) && High(b, x, v))
    ensures Low(b, x, v) || High(b, x, v) || forall y :: 0 <= y < |b| ==> b[y] == v
  {
    RunsExclude(b, x, v, |b|);
    if AllRun(b, x, v, |b|) {
      WholeRun(b, x, v);
    }
  }

  lemma {:induction false} RunsOrder(b: Block, x: nat, y: nat, v: Byte, h: nat)
    requires x < |b| && y < |b| && BelowRun(b, x, v, h) && AboveRun(b, y, v, h)
    ensures LessTo(b, x, y, h)
    decreases h
  {
    if b[x] == v && b[y] == v {
      RunsOrder(b, Next(x, |b|), Next(y, |b|), v, h - 1);
    }
  }

  /** Low rotations come before high ones. */
  lemma LowBeforeHigh(b: Block, x: nat, y: nat, v: Byte)
    requires x < |b| && y < |b| && Low(b, x, v) && High(b, y, v)
    ensures Orders(b)[x] < Orders(b)[y]
  {
    RunsOrder(b, x, y, v, |b|);
    OrdersDecide(b, x, y);
  }

  // ----- Going back one position keeps the order -----

  lemma NextPrev(x: nat, n: nat)
    requires x < n
    ensures Prev(x, n) < n && Next(x, n) < n && Next(Prev(x, n), n) == x && Prev(Next(x, n), n) == x
  {
  }

  lemma PrevOrdered(b: Block, x: nat, y: nat)
    requires x < |b| && y < |b| && b[Prev(x, |b|)] == b[Prev(y, |b|)] && Orders(b)[x] <= Orders(b)[y]
    ensures Orders(b)[Prev(x, |b|)] <= Orders(b)[Prev(y, |b|)]
  {
    var n := |b|;
    var x', y' := Prev(x, n), Prev(y, n);
    NextPrev(x, n);
    NextPrev(y, n);
    assert EqualTo(b, x', y', 1);
    assert Shift(x', 1, n) == x && Shift(y', 1, n) == y;
    TailDecides(b, x', y', 1);
  }

  /** A smaller word means a smaller rotation. */
  lemma WordDecides(b: Block, x: nat, y: nat)
    requires x < |b| && y < |b| && Words(b)[x] < Words(b)[y]
    ensures Orders(b)[x] < Orders(b)[y]
  {
    if b[x] < b[y] {
      ByteDecides(b, x, y, 0);
    } else {
      assert EqualTo(b, x, y, 1);
      assert Shift(x, 1, |b|) == Next(x, |b|) && Shift(y, 1, |b|) == Next(y, |b|);
      ByteDecides(b, x, y, 1);
    }
  }

  // ----- What a scan finds -----

  ghost predicate Positions(s: seq<nat>, n: nat) {
    forall i :: 0 <= i < |s| ==> s[i] < n
  }

  /** The predecessors of the rows, in order, as far as they hold the byte t. */
  ghost function Scan(b: Block, rows: seq<nat>, t: int): (r: seq<nat>)
    requires Positions(rows, |b|)
    ensures |r| <= |rows| && Positions(r, |b|)
  {
    if rows == [] then []
    else
      var k := Prev(rows[0], |b|);
      (if b[k] == t then [k] else []) + Scan(b, rows[1..], t)
  }

  lemma ScanFirst(b: Block, r: seq<nat>, t: int)
    requires Positions(r, |b|) && r != []
    ensures Positions([r[0]], |b|) && Positions(r[1..], |b|)
    ensures Scan(b, r, t) == Scan(b, [r[0]], t) + Scan(b, r[1..], t)
  {
    ScanOne(b, r[0], t);
  }

  lemma {:induction false} ScanAppend(b: Block, r: seq<nat>, s: seq<nat>, t: int)
    requires Positions(r, |b|) && Positions(s, |b|)
    ensures Positions(r + s, |b|) && Scan(b, r + s, t) == Scan(b, r, t) + Scan(b, s, t)
  {
    if r == [] {
      assert r + s == s;
    } else {
      assert (r + s)[1..] == r[1..] + s;
      ScanAppend(b, r[1..], s, t);
      ScanFirst(b, r, t);
      ScanFirst(b, r + s, t);
      hide Scan;
      var first := Scan(b, [r[0]], t);
      assert first + (Scan(b, r[1..], t) + Scan(b, s, t)) == first + Scan(b, r[1..], t) + Scan(b, s, t);
    }
  }

  lemma ScanOne(b: Block, x: nat, t: int)
    requires x < |b|
    ensures Positions([x], |b|) && Scan(b, [x], t) == if b[Prev(x, |b|)] == t then [Prev(x, |b|)] else []
  {
    assert [x][1..] == [];
  }

  lemma {:induction false} ScanMember(b: Block, rows: seq<nat>, t: int, x: nat)
    requires Positions(rows, |b|) && x < |b|
    ensures x in Scan(b, rows, t) <==> b[x] == t && Next(x, |b|) in rows
  {
    if rows != [] {
      ScanMember(b, rows[1..], t, x);
      NextPrev(x, |b|);
      NextPrev(rows[0], |b|);
    }
  }

  ghost predicate Ordered(e: seq<nat>, s: seq<nat>)
    requires Positions(s, |e|)
  {
    forall i, j :: 0 <= i < j < |s| ==> e[s[i]] <= e[s[j]]
  }

  /** Everything in s comes before, or with, everything in t. */
  ghost predicate Before(e: seq<nat>, s: seq<nat>, t: seq<nat>)
    requires Positions(s, |e|) && Positions(t, |e|)
  {
    forall x, y :: x in s && y in t ==> x < |e| && y < |e| && e[x] <= e[y]
  }

  lemma OrderedJoin(e: seq<nat>, s: seq<nat>, t: seq<nat>)
    requires Positions(s, |e|) && Positions(t, |e|) && Ordered(e, s) && Ordered(e, t) && Before(e, s, t)
    ensures Positions(s + t, |e|) && Ordered(e, s + t)
  {
    var u := s + t;
    forall i, j | 0 <= i < j < |u|
      ensures e[u[i]] <= e[u[j]]
    {
      if i < |s| <= j {
        assert s[i] in s && t[j - |s|] in t;
      }
    }
  }

  lemma OrderedSplit(e: seq<nat>, s: seq<nat>, t: seq<nat>)
    requires Positions(s + t, |e|) && Ordered(e, s + t)
    ensures Positions(s, |e|) && Positions(t, |e|) && Ordered(e, s) && Ordered(e, t) && Before(e, s, t)
  {
    var u := s + t;
    assert forall i :: 0 <= i < |s| ==> u[i] == s[i];
    assert forall i :: 0 <= i < |t| ==> u[|s| + i] == t[i];
    forall x, y | x in s && y in t
      ensures x < |e| && y < |e| && e[x] <= e[y]
    {
      var i :| 0 <= i < |s| && s[i] == x;
      var j :| 0 <= j < |t| && t[j] == y;
      assert u[i] == x && u[|s| + j] == y;
    }
  }

  /** Scans of rows in order are in order. */
  lemma ScansBefore(b: Block, r: seq<nat>, s: seq<nat>, t: int)
    requires Positions(r, |b|) && Positions(s, |b|) && Before(Orders(b), r, s)
    ensures Before(Orders(b), Scan(b, r, t), Scan(b, s, t))
  {
    hide Orders, Scan;
    forall x, y | x in Scan(b, r, t) && y in Scan(b, s, t)
      ensures x < |b| && y < |b| && Orders(b)[x] <= Orders(b)[y]
    {
      ScanMember(b, r, t, x);
      ScanMember(b, s, t, y);
      NextPrev(x, |b|);
      NextPrev(y, |b|);
      assert Next(x, |b|) in r && Next(y, |b|) in s;
      PrevOrdered(b, Next(x, |b|), Next(y, |b|));
    }
  }

  lemma {:induction false} ScanOrdered(b: Block, rows: seq<nat>, t: int)
    requires Positions(rows, |b|) && Ordered(Orders(b), rows)
    ensures Ordered(Orders(b), Scan(b, rows, t))
  {
    hide Orders, Scan;
    if rows == [] {
      ScanNone(b, t);
    } else {
      var x, rest := rows[0], rows[1..];
      assert rows == [x] + rest;
      OrderedSplit(Orders(b), [x], rest);
      ScanOrdered(b, rest, t);
      ScanAppend(b, [x], rest, t);
      ScanOne(b, x, t);
      ScansBefore(b, [x], rest, t);
      OrderedJoin(Orders(b), Scan(b, [x], t), Scan(b, rest, t));
    }
  }

  lemma ScanNone(b: Block, t: int)
    ensures Scan(b, [], t) == []
  {
  }

  lemma {:induction false} ScanDistinct(b: Block, rows: seq<nat>, t: int)
    requires Positions(rows, |b|) && Distinct(rows)
    ensures Distinct(Scan(b, rows, t))
  {
    if rows != [] {
      var k, rest := Prev(rows[0], |b|), Scan(b, rows[1..], t);
      ScanDistinct(b, rows[1..], t);
      ScanMember(b, rows[1..], t, k);
      NextPrev(rows[0], |b|);
      assert rows[0] !in rows[1..];
    }
  }
}
