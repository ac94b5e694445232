/** mainGtU: comparing rotations through the block's overshoot area and the quadrants. */
module MainCompare {

  import opened Rotations

  const N_OVERSHOOT: nat := 34

  // ----- The order of rotations, as numbers -----

  ghost function SmallerRotations(b: Block, x: nat): (s: set<nat>)
    requires x < |b|
  {
    set y | 0 <= y < |b| && LessTo(b, y, x, |b|)
  }

  /** How many rotations are smaller: equal rotations get equal numbers. */
  ghost function Orders(b: Block): (e: seq<nat>)
    ensures |e| == |b|
  {
    seq(|b|, x requires 0 <= x < |b| => |SmallerRotations(b, x)|)
  }

  lemma SubsetSize(s: set<nat>, t: set<nat>)
    requires s <= t
    ensures |s| <= |t| && (s != t ==> |s| < |t|)
  {
    assert t == s + (t - s);
  }

  /** The numbers are in the order of the rotations. */
  lemma OrdersDecide(b: Block, x: nat, y: nat)
    requires x < |b| && y < |b|
    ensures Orders(b)[x] < Orders(b)[y] <==> LessTo(b, x, y, |b|)
  {
    var n := |b|;
    var s, t := SmallerRotations(b, x), SmallerRotations(b, y);
    Trichotomy(b, x, y, n);
    Trichotomy(b, x, x, n);
    if LessTo(b, x, y, n) {
      forall z | z in s
        ensures z in t
      {
        Transitivity(b, z, x, y, n);
      }
      assert x in t && x !in s;
      SubsetSize(s, t);
    } else {
      forall z | z in t
        ensures z in s
      {
        Trichotomy(b, y, x, n);
        Transitivity(b, z, y, x, n);
      }
      SubsetSize(t, s);
    }
  }

  /** The first byte that differs decides. */
  lemma ByteDecides(b: Block, x: nat, y: nat, d: nat)
    requires x < |b| && y < |b| && EqualTo(b, x, y, d) && b[Shift(x, d, |b|)] < b[Shift(y, d, |b|)]
    ensures Orders(b)[x] < Orders(b)[y]
  {
    var n := |b|;
    SplitDepth(b, x, y, d, 1);
    assert LessTo(b, x, y, d + 1);
    if d + 1 <= n {
      LessToGrows(b, x, y, d + 1, n);
    } else {
      FullTurnDecides(b, x, y, d + 1);
    }
    OrdersDecide(b, x, y);
  }

  /** Behind equal bytes the order of what follows decides. */
  lemma TailDecides(b: Block, x: nat, y: nat, d: nat)
    requires x < |b| && y < |b| && EqualTo(b, x, y, d) && Orders(b)[Shift(x, d, |b|)] <= Orders(b)[Shift(y, d, |b|)]
    ensures Orders(b)[x] <= Orders(b)[y]
  {
    var n := |b|;
    OrdersDecide(b, y, x);
    OrdersDecide(b, Shift(y, d, n), Shift(x, d, n));
    if LessTo(b, y, x, n) {
      LessToGrows(b, y, x, n, d + n);
      Trichotomy(b, x, y, d);
      Trichotomy(b, y, x, d);
      SplitDepth(b, y, x, d, n);
    }
  }

  lemma TurnDecides(b: Block, x: nat, y: nat, d: nat)
    requires x < |b| && y < |b| && EqualTo(b, x, y, d) && d >= |b|
    ensures Orders(b)[x] == Orders(b)[y]
  {
    SplitDepth(b, x, y, |b|, d - |b|);
    Trichotomy(b, x, y, |b|);
    Trichotomy(b, y, x, |b|);
    OrdersDecide(b, x, y);
    OrdersDecide(b, y, x);
  }

  // ----- Overshoot and quadrants -----

  /** Values behind the end repeat those at the beginning. */
  ghost predicate Repeats<T>(a: seq<T>, n: nat) {
    |a| == n + N_OVERSHOOT && n > N_OVERSHOOT && forall k, i :: 0 <= k < N_OVERSHOOT && i == k + n ==> a[i] == a[k]
  }

  /** Different quadrants of rotations with the same first byte order those rotations. */
  ghost predicate QuadrantsOk(quadrant: seq<nat>, b: Block) {
    && |quadrant| >= |b|
    && forall x, y :: 0 <= x < |b| && 0 <= y < |b| && b[x] == b[y] && quadrant[x] < quadrant[y] ==>
       Orders(b)[x] <= Orders(b)[y]
  }

  /** The block and its quadrants, both with their overshoot areas. */
  ghost predicate Extended(block: seq<Byte>, quadrant: seq<nat>, b: Block) {
    && Repeats(block, |b|) && Repeats(quadrant, |b|) && block[..|b|] == b && QuadrantsOk(quadrant, b)
  }

  /** Position i, perhaps in the overshoot area, stands for position x. */
  predicate Stands(i: nat, x: nat, n: nat) {
    x < n && (i == x || i == x + n)
  }

  lemma StandsValue<T>(a: seq<T>, n: nat, i: nat, x: nat)
    requires Repeats(a, n) && Stands(i, x, n) && i < n + N_OVERSHOOT
    ensures a[i] == a[x]
  {
  }

  lemma StandsNext(i: nat, p: nat, m: nat, n: nat)
    requires p < n && n > N_OVERSHOOT && Stands(i, Shift(p, m, n), n) && i < n + N_OVERSHOOT
    ensures Stands(i + 1, Shift(p, m + 1, n), n)
  {
    ShiftAdd(p, m, 1, n);
  }

  lemma StandsAt(p: nat, d: nat, n: nat)
    requires p < n && d <= n
    ensures Stands(p + d, Shift(p, d, n), n)
  {
    ShiftValue(p, d, n);
  }

  /** Both comparisons have come m bytes without a difference. */
  ghost predicate Abreast(b: Block, p: nat, q: nat, m: nat, i1: nat, i2: nat) {
    && p < |b| && q < |b| && EqualTo(b, p, q, m)
    && Stands(i1, Shift(p, m, |b|), |b|) && Stands(i2, Shift(q, m, |b|), |b|)
  }

  /** One more byte: it decides, or both go on. */
  lemma CompareByte(block: seq<Byte>, quadrant: seq<nat>, b: Block, p: nat, q: nat, m: nat, i1: nat, i2: nat)
    requires Extended(block, quadrant, b) && Abreast(b, p, q, m, i1, i2) && i1 < |b| + N_OVERSHOOT
      && i2 < |b| + N_OVERSHOOT
    ensures |block| == |quadrant| == |b| + N_OVERSHOOT
    ensures block[i1] < block[i2] ==> Orders(b)[p] <= Orders(b)[q]
    ensures block[i1] > block[i2] ==> Orders(b)[q] <= Orders(b)[p]
    ensures block[i1] == block[i2] && quadrant[i1] < quadrant[i2] ==> Orders(b)[p] <= Orders(b)[q]
    ensures block[i1] == block[i2] && quadrant[i1] > quadrant[i2] ==> Orders(b)[q] <= Orders(b)[p]
    ensures block[i1] == block[i2] ==> Abreast(b, p, q, m + 1, i1 + 1, i2 + 1)
  {
    hide Orders, LessTo;
    var n := |b|;
    var x, y := Shift(p, m, n), Shift(q, m, n);
    StandsValue(block, n, i1, x);
    StandsValue(block, n, i2, y);
    StandsValue(quadrant, n, i1, x);
    StandsValue(quadrant, n, i2, y);
    assert block[x] == b[x] && block[y] == b[y];
    Trichotomy(b, p, q, m);
    if b[x] < b[y] {
      ByteDecides(b, p, q, m);
    } else if b[x] > b[y] {
      ByteDecides(b, q, p, m);
    } else {
      SplitDepth(b, p, q, m, 1);
      StandsNext(i1, p, m, n);
      StandsNext(i2, q, m, n);
      if quadrant[x] < quadrant[y] {
        TailDecides(b, p, q, m);
      } else if quadrant[x] > quadrant[y] {
        TailDecides(b, q, p, m);
      }
    }
  }

  /** The next j cells agree, in the block and in the quadrants. */
  ghost predicate CellsAgree(block: seq<Byte>, quadrant: seq<nat>, i1: nat, i2: nat, j: nat)
    requires i1 + j <= |block| == |quadrant| && i2 + j <= |block|
  {
    forall k, t :: i1 <= k < i1 + j && t == k - i1 + i2 ==> block[k] == block[t] && quadrant[k] == quadrant[t]
  }

  lemma CellsDiffer(block: seq<Byte>, quadrant: seq<nat>, i1: nat, i2: nat, k: nat, j: nat)
    requires i1 + j < |block| == |quadrant| && i2 + j < |block| && k < j
    requires block[i1 + k] != block[i2 + k] || quadrant[i1 + k] != quadrant[i2 + k]
    ensures !CellsAgree(block, quadrant, i1, i2, j)
  {
    var x, y := i1 + k, i2 + k;
    assert block[x] != block[y] || quadrant[x] != quadrant[y];
  }

  /**
    The first twelve comparisons, of bytes only: undecided when all agree.  last is the
    last cell read so far; where 19 cells agree the comparisons go on.
   */
  method CompareBytes(i10: nat, i20: nat, block: array<Byte>, quadrant: array<nat>,
                      ghost b: Block, ghost p: nat, ghost q: nat, ghost d: nat)
                        returns (decided: bool, gt: bool, ghost last: nat)
    requires Extended(block[..], quadrant[..], b)
    requires Abreast(b, p, q, d, i10, i20) && i10 <= |b| + 14 && i20 <= |b| + 14
    ensures decided && gt ==> Orders(b)[q] <= Orders(b)[p]
    ensures decided && !gt ==> Orders(b)[p] <= Orders(b)[q]
    ensures !decided ==> Abreast(b, p, q, d + 12, i10 + 12, i20 + 12)
    ensures last < |b| + N_OVERSHOOT
    ensures block.Length == quadrant.Length == |b| + N_OVERSHOOT && i10 + 19 < block.Length && i20 + 19 < block.Length
    ensures decided ==> !CellsAgree(block[..], quadrant[..], i10, i20, 19)
  {
    hide *;
    ExtendedSizes(block[..], quadrant[..], b);
    last := 0;
    for turn := 0 to 12
      invariant Abreast(b, p, q, d + turn, i10 + turn, i20 + turn) && last < |b| + 34
    {
      var i1, i2 := i10 + turn, i20 + turn;
      CompareByte(block[..], quadrant[..], b, p, q, d + turn, i1, i2);
      last := Farthest(last, i1, i2);
      var c1, c2 := block[i1], block[i2];
      assert c1 == block[..][i1] && c2 == block[..][i2];
      if c1 != c2 {
        CellsDiffer(block[..], quadrant[..], i10, i20, turn, 19);
        return true, c1 > c2, last;
      }
    }
    decided, gt := false, false;
  }

  /** Eight comparisons of bytes and quadrants. */
  method CompareCells(i10: nat, i20: nat, block: array<Byte>, quadrant: array<nat>,
                      ghost b: Block, ghost p: nat, ghost q: nat, ghost m: nat, ghost last0: nat)
    returns (decided: bool, gt: bool, ghost last: nat)
    requires Extended(block[..], quadrant[..], b) && last0 < |b| + N_OVERSHOOT
    requires Abreast(b, p, q, m, i10, i20) && i10 <= |b| + 26 && i20 <= |b| + 26
    ensures decided && gt ==> Orders(b)[q] <= Orders(b)[p]
    ensures decided && !gt ==> Orders(b)[p] <= Orders(b)[q]
    ensures !decided ==> Abreast(b, p, q, m + 8, i10 + 8, i20 + 8)
    ensures last0 <= last < |b| + N_OVERSHOOT
    ensures block.Length == quadrant.Length == |b| + N_OVERSHOOT && i10 + 7 < block.Length && i20 + 7 < block.Length
    ensures CellsAgree(block[..], quadrant[..], i10, i20, 7) ==> last >= i10 + 7 && last >= i20 + 7
    ensures !decided ==> last >= i10 + 7 && last >= i20 + 7
  {
    hide *;
    ExtendedSizes(block[..], quadrant[..], b);
    last := last0;
    for turn := 0 to 8
      invariant Abreast(b, p, q, m + turn, i10 + turn, i20 + turn) && last0 <= last < |b| + 34
      invariant turn > 0 ==> last >= i10 + turn - 1 && last >= i20 + turn - 1
    {
      var i1, i2 := i10 + turn, i20 + turn;
      CompareByte(block[..], quadrant[..], b, p, q, m + turn, i1, i2);
      last := Farthest(last, i1, i2);
      var c1, c2, q1, q2 := block[i1], block[i2], quadrant[i1], quadrant[i2];
      assert c1 == block[..][i1] && c2 == block[..][i2] && q1 == quadrant[..][i1] && q2 == quadrant[..][i2];
      if (c1 != c2 || q1 != q2) && turn < 7 {
        CellsDiffer(block[..], quadrant[..], i10, i20, turn, 7);
      }
      if c1 != c2 {
        return true, c1 > c2, last;
      }
      if q1 != q2 {
        return true, q1 > q2, last;
      }
    }
    decided, gt := false, false;
  }

  /** No two rotations begin with the same 20 bytes. */
  ghost predicate Varied(b: Block) {
    forall p: nat, q: nat :: p < |b| && q < |b| && p != q ==> !EqualTo(b, p, q, 20)
  }

  lemma {:induction false} EqualShorter(b: Block, p: nat, q: nat, h: nat, m: nat)
    requires p < |b| && q < |b| && h <= m && EqualTo(b, p, q, m)
    ensures EqualTo(b, p, q, h)
    decreases h
  {
    if h > 0 {
      EqualShorter(b, Next(p, |b|), Next(q, |b|), h - 1, m - 1);
    }
  }

  /** What has been charged for is agreement: 8 bytes each time, beyond the first 12. */
  ghost predicate ChargedFor(b: Block, p: nat, q: nat, d: nat, charge: int)
    requires p < |b| && q < |b|
  {
    charge >= 0 && (charge > 0 ==> EqualTo(b, p, q, d + 12 + 8 * charge))
  }

  lemma NoCharge(b: Block, p: nat, q: nat, d: nat, charge: int)
    requires p < |b| && q < |b| && p != q && ChargedFor(b, p, q, d, charge) && Varied(b)
    ensures charge == 0
  {
    if charge > 0 {
      EqualShorter(b, p, q, 20, d + 12 + 8 * charge);
    }
  }

  lemma ChargeNow(b: Block, p: nat, q: nat, m: nat, i1: nat, i2: nat, d: nat, charge: nat)
    requires Abreast(b, p, q, m, i1, i2) && (charge > 0 ==> m == d + 12 + 8 * charge)
    ensures p < |b| && q < |b| && ChargedFor(b, p, q, d, charge)
  {
  }

  /**
    mainGtU, asked about the rotations at p and q, whose first d bytes agree.  With d at
    most 15 it reads no further than the overshoot area.  last is the last cell read:
    where the next 19 cells agree, it is at least 19 cells away.
   */
  method MainGtU(i10: nat, i20: nat, block: array<Byte>, quadrant: array<nat>, nblock: nat, budget0: int,
                 ghost b: Block, ghost p: nat, ghost q: nat, ghost d: nat)
                   returns (gt: bool, budget: int, ghost last: nat)
    requires Extended(block[..], quadrant[..], b) && nblock == |b|
    requires p < |b| && q < |b| && d <= 15 && EqualTo(b, p, q, d) && i10 == p + d && i20 == q + d
    ensures gt ==> Orders(b)[q] <= Orders(b)[p]
    ensures !gt ==> Orders(b)[p] <= Orders(b)[q]
    ensures budget <= budget0 && ChargedFor(b, p, q, d, budget0 - budget) && last < nblock + N_OVERSHOOT
    ensures block.Length == quadrant.Length == nblock + N_OVERSHOOT && i10 + 19 < block.Length
      && i20 + 19 < block.Length
    ensures CellsAgree(block[..], quadrant[..], i10, i20, 19) ==> last >= i10 + 19 && last >= i20 + 19
  {
    hide *;
    ExtendedSizes(block[..], quadrant[..], b);
    budget := budget0;
    AbreastStart(b, p, q, d);
    ChargeNow(b, p, q, d, i10, i20, d, 0);
    var decided;
    decided, gt, last := CompareBytes(i10, i20, block, quadrant, b, p, q, d);
    if decided {
      return;
    }
    CellsBehind(block[..], quadrant[..], i10, i20);
    var i1: nat, i2: nat := i10 + 12, i20 + 12;
    var k: int := nblock + 8;
    ghost var m, first := d + 12, true;
    while true
      invariant i1 <= nblock + 26 && i2 <= nblock + 26 && 0 <= k && m + k == d + 12 + nblock + 8
      invariant Abreast(b, p, q, m, i1, i2) && m == d + 12 + 8 * (budget0 - budget) && last < nblock + 34
      invariant budget <= budget0 && ChargedFor(b, p, q, d, budget0 - budget)
      invariant if first then i1 == i10 + 12 && i2 == i20 + 12 else last >= i10 + 19 && last >= i20 + 19
      decreases k
    {
      decided, gt, last := CompareCells(i1, i2, block, quadrant, b, p, q, m, last);
      if decided {
        return;
      }
      i1, i2, m, first := i1 + 8, i2 + 8, m + 8, false;
      AbreastWrapped(b, p, q, m, i1, i2);
      if i1 >= nblock {
        i1 := i1 - nblock;
      }
      if i2 >= nblock {
        i2 := i2 - nblock;
      }
      k := k - 8;
      budget := budget - 1;
      ChargeNow(b, p, q, m, i1, i2, d, budget0 - budget);
      if k < 0 {
        break;
      }
    }
    AbreastTurn(b, p, q, m, i1, i2);
    gt := false;
  }

  lemma CellsBehind(block: seq<Byte>, quadrant: seq<nat>, i1: nat, i2: nat)
    requires i1 + 19 <= |block| == |quadrant| && i2 + 19 <= |block|
    ensures CellsAgree(block, quadrant, i1, i2, 19) ==> CellsAgree(block, quadrant, i1 + 12, i2 + 12, 7)
  {
  }

  ghost function Farthest(last: nat, i1: nat, i2: nat): (r: nat)
    ensures r >= last && r >= i1 && r >= i2 && (r == last || r == i1 || r == i2)
  {
    if i1 >= i2 && i1 >= last then i1 else if i2 >= last then i2 else last
  }

  /**
    No cell of the overshoot area is spare: for every block length there is a call, with
    15 bytes known to agree, that reads its last cell.
   */
  lemma OvershootTight(n: nat) returns (block: seq<Byte>, quadrant: seq<nat>, b: Block)
    requires n > N_OVERSHOOT
    ensures |b| == n && Extended(block, quadrant, b) && EqualTo(b, n - 1, 0, 15)
    ensures |block| == |quadrant| == n + N_OVERSHOOT
    ensures n - 1 + 15 + 19 == n + N_OVERSHOOT - 1 && CellsAgree(block, quadrant, n - 1 + 15, 15, 19)
  {
    hide Orders;
    b := seq(n, _ => 0);
    block := seq(n + N_OVERSHOOT, _ => 0);
    quadrant := seq(n + N_OVERSHOOT, _ => 0);
    assert block[..n] == b;
    ConstantEqual(b, n - 1, 0, 15);
  }

  lemma {:induction false} ConstantEqual(b: Block, x: nat, y: nat, h: nat)
    requires x < |b| && y < |b| && forall k :: 0 <= k < |b| ==> b[k] == 0
    ensures EqualTo(b, x, y, h)
    decreases h
  {
    if h > 0 {
      ConstantEqual(b, Next(x, |b|), Next(y, |b|), h - 1);
    }
  }

  lemma ExtendedSizes(block: seq<Byte>, quadrant: seq<nat>, b: Block)
    requires Extended(block, quadrant, b)
    ensures |block| == |quadrant| == |b| + N_OVERSHOOT && N_OVERSHOOT == 34 && |b| > 34 && |Orders(b)| == |b|
  {
  }

  lemma AbreastStart(b: Block, p: nat, q: nat, d: nat)
    requires p < |b| && q < |b| && d <= |b| && EqualTo(b, p, q, d)
    ensures Abreast(b, p, q, d, p + d, q + d)
  {
    StandsAt(p, d, |b|);
    StandsAt(q, d, |b|);
  }

  lemma AbreastWrapped(b: Block, p: nat, q: nat, m: nat, i1: nat, i2: nat)
    requires Abreast(b, p, q, m, i1, i2)
    ensures Abreast(b, p, q, m, if i1 >= |b| then i1 - |b| else i1, if i2 >= |b| then i2 - |b| else i2)
  {
  }

  lemma AbreastTurn(b: Block, p: nat, q: nat, m: nat, i1: nat, i2: nat)
    requires Abreast(b, p, q, m, i1, i2) && m >= |b|
    ensures Orders(b)[p] == Orders(b)[q]
  {
    TurnDecides(b, p, q, m);
  }
}
