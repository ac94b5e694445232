/**
  The decoder's move-to-front list: 256 values in 16 segments that slide to the left
  inside an array of 4096 cells.  It behaves as the plain list of MoveToFront.
 */
module SlidingMtf {

  import opened MoveToFront

  const MTFA_SIZE: int := 4096
  const MTFL_SIZE: int := 16

  /** Segments lie in order within the array and do not overlap. */
  ghost predicate Layout(base: seq<int>) {
    && |base| == 16 && base[0] >= 0
    && (forall s :: 0 <= s < 15 ==> base[s] + 16 <= base[s + 1])
    && base[15] + 16 <= 4096
  }

  lemma {:induction false} LayoutOrder(base: seq<int>, s: int, t: int)
    requires Layout(base) && 0 <= s < t < 16
    ensures base[s] + 16 * (t - s) <= base[t]
    decreases t - s
  {
    if s + 1 < t {
      LayoutOrder(base, s, t - 1);
    }
  }

  lemma LayoutBounds(base: seq<int>, s: int)
    requires Layout(base) && 0 <= s < 16
    ensures 16 * s <= base[s] <= 4096 - 16 * (16 - s)
  {
    if s > 0 {
      LayoutOrder(base, 0, s);
    }
    if s < 15 {
      LayoutOrder(base, s, 15);
    }
  }

  /** The 16 cells from at on hold segment s of the list. */
  ghost predicate Holds(m: seq<nat>, at: int, s: int, list: seq<nat>)
    requires |m| == 4096 && |list| == 256 && 0 <= s < 16
  {
    0 <= at <= 4080 && forall i :: at <= i < at + 16 ==> m[i] == list[i - at + 16 * s]
  }

  /** The same, but for the first cell. */
  ghost predicate HoldsBehind(m: seq<nat>, at: int, s: int, list: seq<nat>)
    requires |m| == 4096 && |list| == 256 && 0 <= s < 16
  {
    0 <= at <= 4080 && forall i :: at < i < at + 16 ==> m[i] == list[i - at + 16 * s]
  }

  /** The list that the two arrays stand for. */
  ghost predicate Represents(m: seq<nat>, base: seq<int>, list: seq<nat>) {
    && |m| == 4096 && |list| == 256 && Layout(base)
    && (forall s :: 0 <= s < 16 ==> Holds(m, base[s], s, list))
  }

  // ----- Access within the first segment -----

  /** Cells from at: values up to k in place, those above k, up to n, moved back by one. */
  ghost predicate Shifting(m: seq<nat>, was: seq<nat>, at: int, n: int, k: int) {
    && |m| == |was| && 0 <= at && 0 <= k <= n && at + n < |m|
    && (forall i :: 0 <= i < |m| && !(at + k < i <= at + n) ==> m[i] == was[i])
    && (forall i :: at + k < i <= at + n ==> m[i] == was[i - 1])
  }

  lemma FrontMovedValues(list: seq<nat>, j: int)
    requires 0 <= j < |list|
    ensures forall k :: 0 <= k < |list| ==>
      FrontMoved(list, j)[k] == if k == 0 then list[j] else if k <= j then list[k - 1] else list[k]
  {
    var head, tail := [list[j]] + list[..j], list[j + 1..];
    assert FrontMoved(list, j) == head + tail;
    assert forall k :: 0 < k <= j ==> head[k] == list[k - 1];
    assert forall k :: j < k < |list| ==> (head + tail)[k] == list[k];
  }

  lemma FirstSegmentMoved(m: seq<nat>, was: seq<nat>, base: seq<int>, list: seq<nat>, n: int)
    requires Represents(was, base, list) && 0 <= n < 16
    requires Shifting(m, was, base[0], n, 0)
    ensures Represents(m[base[0] := was[base[0] + n]], base, FrontMoved(list, n))
  {
    var m' := m[base[0] := was[base[0] + n]];
    FrontMovedValues(list, n);
    hide FrontMoved;
    forall s | 0 <= s < 16
      ensures Holds(m', base[s], s, FrontMoved(list, n))
    {
      LayoutBounds(base, s);
      if s > 0 {
        LayoutOrder(base, 0, s);
      }
      assert Holds(was, base[s], s, list) && Holds(was, base[0], 0, list);
    }
  }

  // ----- General access -----

  /** The base of a segment after a move from segment lno. */
  function NewBase(base: seq<int>, lno: int, s: int): int
    requires |base| == 16 && 0 <= s < 16
  {
    if s < lno then base[s] - 1 else base[s]
  }

  /**
    Segments above l have taken their new place and content, segment l is next.
    Segment lno itself has lost one value and has its first cell free.
   */
  ghost predicate Sliding(m: seq<nat>, base: seq<int>, list: seq<nat>, n: int, l: int) {
    && |m| == 4096 && |list| == 256 && Layout(base) && base[0] >= 1 && 16 <= n < 256 && 0 <= l <= n / 16
    && (forall k :: 0 <= k < l ==> Holds(m, base[k], k, list))
    && (forall k :: l < k < 16 ==> Holds(m, NewBase(base, n / 16, k), k, FrontMoved(list, n)))
    && (l < n / 16 ==> Holds(m, base[l], l, list))
    && (l == n / 16 ==> HoldsBehind(m, base[l], l, FrontMoved(list, n)))
  }

  lemma SlidingStart(m: seq<nat>, was: seq<nat>, base: seq<int>, list: seq<nat>, n: int)
    requires Represents(was, base, list) && base[0] >= 1 && 16 <= n < 256
    requires Shifting(m, was, base[n / 16], n % 16, 0)
    ensures Sliding(m, base, list, n, n / 16)
  {
    var l := n / 16;
    forall k | 0 <= k < 16
      ensures k < l ==> Holds(m, base[k], k, list)
      ensures k > l ==> Holds(m, base[k], k, FrontMoved(list, n))
      ensures k == l ==> HoldsBehind(m, base[l], l, FrontMoved(list, n))
    {
      StartSegment(m, was, base, list, n, k);
    }
  }

  lemma StartSegment(m: seq<nat>, was: seq<nat>, base: seq<int>, list: seq<nat>, n: int, k: int)
    requires Represents(was, base, list) && 16 <= n < 256 && 0 <= k < 16
    requires Shifting(m, was, base[n / 16], n % 16, 0)
    ensures k < n / 16 ==> Holds(m, base[k], k, list)
    ensures k > n / 16 ==> Holds(m, base[k], k, FrontMoved(list, n))
    ensures k == n / 16 ==> HoldsBehind(m, base[k], k, FrontMoved(list, n))
  {
    var l := n / 16;
    LayoutBounds(base, k);
    if k < l {
      LayoutOrder(base, k, l);
    } else if k > l {
      LayoutOrder(base, l, k);
    }
    assert Holds(was, base[k], k, list);
    FrontMovedValues(list, n);
  }

  /** Moving the last value of segment l - 1 to the front of segment l. */
  lemma SlidingNext(m: seq<nat>, base: seq<int>, list: seq<nat>, n: int, l: int)
    requires Sliding(m, base, list, n, l) && l > 0
    ensures 0 <= NewBase(base, n / 16, l) < 4096 && 0 <= base[l - 1] <= 4080
    ensures Sliding(m[NewBase(base, n / 16, l) := m[base[l - 1] + 15]], base, list, n, l - 1)
  {
    LayoutBounds(base, l);
    LayoutBounds(base, l - 1);
    var c := NewBase(base, n / 16, l);
    var m' := m[c := m[base[l - 1] + 15]];
    forall k | 0 <= k < 16
      ensures k < l ==> Holds(m', base[k], k, list)
      ensures k >= l ==> Holds(m', NewBase(base, n / 16, k), k, FrontMoved(list, n))
    {
      if k < l {
        NextBelow(m, base, list, n, l, k);
      } else if k == l {
        NextHere(m, base, list, n, l);
      } else {
        NextAbove(m, base, list, n, l, k);
      }
    }
  }

  lemma NextBelow(m: seq<nat>, base: seq<int>, list: seq<nat>, n: int, l: int, k: int)
    requires Sliding(m, base, list, n, l) && 0 <= k < l
    requires 0 <= NewBase(base, n / 16, l) < 4096 && 0 <= base[l - 1] <= 4080
    ensures Holds(m[NewBase(base, n / 16, l) := m[base[l - 1] + 15]], base[k], k, list)
  {
    assert Holds(m, base[k], k, list);
    if k < l - 1 {
      LayoutOrder(base, k, l - 1);
    }
  }

  lemma NextHere(m: seq<nat>, base: seq<int>, list: seq<nat>, n: int, l: int)
    requires Sliding(m, base, list, n, l) && l > 0
    requires 0 <= NewBase(base, n / 16, l) < 4096 && 0 <= base[l - 1] <= 4080
    ensures Holds(m[NewBase(base, n / 16, l) := m[base[l - 1] + 15]], NewBase(base, n / 16, l), l, FrontMoved(list, n))
  {
    LayoutBounds(base, l);
    var c, N := NewBase(base, n / 16, l), FrontMoved(list, n);
    var m' := m[c := m[base[l - 1] + 15]];
    assert Holds(m, base[l - 1], l - 1, list);
    assert m[base[l - 1] + 15] == list[16 * (l - 1) + 15];
    FrontMovedValues(list, n);
  }

  lemma NextAbove(m: seq<nat>, base: seq<int>, list: seq<nat>, n: int, l: int, k: int)
    requires Sliding(m, base, list, n, l) && 0 < l < k < 16
    requires 0 <= NewBase(base, n / 16, l) < 4096 && 0 <= base[l - 1] <= 4080
    ensures Holds(m[NewBase(base, n / 16, l) := m[base[l - 1] + 15]], NewBase(base, n / 16, k), k, FrontMoved(list, n))
  {
    LayoutOrder(base, l, k);
    assert Holds(m, NewBase(base, n / 16, k), k, FrontMoved(list, n));
  }

  /** The bases after a move from segment lno. */
  function NewBases(base: seq<int>, lno: int): (r: seq<int>)
    requires |base| == 16
    ensures |r| == 16
  {
    seq(16, s requires 0 <= s < 16 => NewBase(base, lno, s))
  }

  lemma SlidingEnd(m: seq<nat>, base: seq<int>, list: seq<nat>, n: int)
    requires Sliding(m, base, list, n, 0)
    ensures Represents(m[base[0] - 1 := list[n]], NewBases(base, n / 16), FrontMoved(list, n))
  {
    LayoutBounds(base, 0);
    var m', N, nb := m[base[0] - 1 := list[n]], FrontMoved(list, n), NewBases(base, n / 16);
    forall k | 0 <= k < 16
      ensures Holds(m', nb[k], k, N)
    {
      if k == 0 {
        FrontMovedValues(list, n);
      } else {
        LayoutOrder(base, 0, k);
        assert Holds(m, NewBase(base, n / 16, k), k, N);
      }
    }
  }

  // ----- The data structure -----

  class SlidingList {
    const mtfa: array<nat>
    const mtfbase: array<int>
    ghost var list: seq<nat>

    ghost predicate Valid()
      reads this, mtfa, mtfbase
    {
      && mtfa.Length == MTFA_SIZE && mtfbase.Length == 16
      && Represents(mtfa[..], mtfbase[..], list) && mtfbase[0] >= 1
    }

    /** "MTF init": the identity list, at the right end of the array. */
    constructor ()
      ensures Valid() && list == seq(256, i => i)
      ensures fresh(mtfa) && fresh(mtfbase)
    {
      mtfa := new nat[4096](_ => 0);
      mtfbase := new int[16](_ => 0);
      new;
      var kk := MTFA_SIZE - 1;
      var ii := 256 / MTFL_SIZE - 1;
      while ii >= 0
        invariant -1 <= ii <= 15 && kk == 4095 - 16 * (15 - ii)
        invariant forall i :: kk < i < 4096 ==> mtfa[i] == i - 3840
        invariant forall s :: ii < s < 16 ==> mtfbase[s] == 3840 + 16 * s
      {
        var jj := MTFL_SIZE - 1;
        while jj >= 0
          invariant -1 <= jj <= 15 && kk == 4095 - 16 * (15 - ii) - (15 - jj)
          invariant forall i :: kk < i < 4096 ==> mtfa[i] == i - 3840
          invariant forall s :: ii < s < 16 ==> mtfbase[s] == 3840 + 16 * s
        {
          mtfa[kk] := ii * MTFL_SIZE + jj;
          kk := kk - 1;
          jj := jj - 1;
        }
        mtfbase[ii] := kk + 1;
        ii := ii - 1;
      }
      list := seq(256, i => i);
    }

    /** Move the first n values of a segment, starting at cell at, back by one. */
    method ShiftBack(at: int, n: int)
      requires 0 <= at && 0 <= n && at + n < mtfa.Length
      modifies mtfa
      ensures Shifting(mtfa[..], old(mtfa[..]), at, n, 0)
    {
      var pp := at + n;
      while pp > at
        invariant at <= pp <= at + n
        invariant Shifting(mtfa[..], old(mtfa[..]), at, n, pp - at)
      {
        mtfa[pp] := mtfa[pp - 1];
        pp := pp - 1;
      }
    }

    /** The same, four values at a time while there are more than three. */
    method ShiftBackFast(at: int, n: int)
      requires 0 <= at && 0 <= n && at + n < mtfa.Length
      modifies mtfa
      ensures Shifting(mtfa[..], old(mtfa[..]), at, n, 0)
    {
      var nn := n;
      while nn > 3
        invariant 0 <= nn <= n
        invariant Shifting(mtfa[..], old(mtfa[..]), at, n, nn)
      {
        var z := at + nn;
        mtfa[z] := mtfa[z - 1];
        mtfa[z - 1] := mtfa[z - 2];
        mtfa[z - 2] := mtfa[z - 3];
        mtfa[z - 3] := mtfa[z - 4];
        nn := nn - 4;
      }
      while nn > 0
        invariant 0 <= nn <= n
        invariant Shifting(mtfa[..], old(mtfa[..]), at, n, nn)
      {
        mtfa[at + nn] := mtfa[at + nn - 1];
        nn := nn - 1;
      }
    }

    /** The general case: the value leaves segment n / 16, and one value moves down from each segment before it. */
    method SlideTo(n: int) returns (uc: nat)
      requires Valid() && 16 <= n < 256
      modifies this, mtfa, mtfbase
      ensures Represents(mtfa[..], mtfbase[..], list) && mtfbase[0] >= 0
      ensures list == FrontMoved(old(list), n) && uc == old(list)[n]
    {
      hide *;
      Sizes();
      ghost var was, base := mtfa[..], mtfbase[..];
      SegmentCell(was, base, list, n);
      var lno, off := n / 16, n % 16;
      uc := mtfa[mtfbase[lno] + off];
      ShiftBack(mtfbase[lno], off);
      SlidingStart(mtfa[..], was, base, list, n);
      mtfbase[lno] := mtfbase[lno] + 1;
      MoveDown(lno, n, base);
      SlidingEnd(mtfa[..], base, list, n);
      SlidingFirst(mtfa[..], base, list, n);
      ghost var m := mtfa[..];
      mtfbase[0] := mtfbase[0] - 1;
      mtfa[mtfbase[0]] := uc;
      assert mtfa[..] == m[base[0] - 1 := uc];
      NewBasesAre(base, n / 16, mtfbase[..]);
      list := FrontMoved(list, n);
    }

    lemma Sizes()
      requires Valid()
      ensures mtfa.Length == 4096 && mtfbase.Length == 16 && |list| == 256
      ensures Represents(mtfa[..], mtfbase[..], list) && mtfbase[0] >= 1
    {
    }

    /** The last value of each segment before lno moves to the front of the next segment. */
    method MoveDown(lno: int, n: int, ghost base: seq<int>)
      requires mtfa.Length == 4096 && mtfbase.Length == 16 == |base| && lno == n / 16 && 16 <= n < 256
      requires Sliding(mtfa[..], base, list, n, lno)
      requires forall s :: 0 <= s < 16 ==> mtfbase[s] == if s == lno then base[s] + 1 else base[s]
      modifies mtfa, mtfbase
      ensures Sliding(mtfa[..], base, list, n, 0)
      ensures forall s :: 0 < s < 16 ==> mtfbase[s] == if s < lno then base[s] - 1 else base[s]
      ensures mtfbase[0] == base[0]
    {
      hide *;
      var l := lno;
      while l > 0
        invariant 0 <= l <= lno
        invariant Sliding(mtfa[..], base, list, n, l)
        invariant forall s :: 0 <= s < l ==> mtfbase[s] == base[s]
        invariant mtfbase[l] == if l == lno then base[l] + 1 else base[l]
        invariant forall s :: l < s < 16 ==> mtfbase[s] == if s < lno then base[s] - 1 else base[s]
      {
        SlidingNext(mtfa[..], base, list, n, l);
        NewBaseIs(base, n / 16, l);
        ghost var m := mtfa[..];
        mtfbase[l] := mtfbase[l] - 1;
        mtfa[mtfbase[l]] := mtfa[mtfbase[l - 1] + 15];
        assert mtfa[..] == m[mtfbase[l] := m[base[l - 1] + 15]];
        l := l - 1;
      }
    }

    /** The rebuild at mtfbase[0] == 0: every segment is copied to the right end of the same array. */
    method Rebuild()
      requires mtfa.Length == MTFA_SIZE && mtfbase.Length == 16
      requires Represents(mtfa[..], mtfbase[..], list)
      modifies mtfa, mtfbase
      ensures Valid()
    {
      ghost var was, base := mtfa[..], mtfbase[..];
      var kk := MTFA_SIZE - 1;
      var ii := 256 / MTFL_SIZE - 1;
      while ii >= 0
        invariant -1 <= ii <= 15 && kk == 3840 + 16 * ii + 15
        invariant forall i :: kk < i < 4096 ==> mtfa[i] == list[i - 3840]
        invariant forall i :: 0 <= i <= kk ==> mtfa[i] == was[i]
        invariant forall s :: ii < s < 16 ==> mtfbase[s] == 3840 + 16 * s
        invariant forall s :: 0 <= s <= ii ==> mtfbase[s] == base[s]
      {
        LayoutBounds(base, ii);
        assert Holds(was, base[ii], ii, list);
        var jj := MTFL_SIZE - 1;
        while jj >= 0
          invariant -1 <= jj <= 15 && kk == 3840 + 16 * ii + jj
          invariant forall i :: kk < i < 4096 ==> mtfa[i] == list[i - 3840]
          invariant forall i :: 0 <= i <= kk ==> mtfa[i] == was[i]
          invariant forall s :: ii < s < 16 ==> mtfbase[s] == 3840 + 16 * s
          invariant forall s :: 0 <= s <= ii ==> mtfbase[s] == base[s]
        {
          mtfa[kk] := mtfa[mtfbase[ii] + jj];
          kk := kk - 1;
          jj := jj - 1;
        }
        mtfbase[ii] := kk + 1;
        ii := ii - 1;
      }
    }

    /** mtfa[mtfbase[0]] */
    method First() returns (uc: nat)
      requires Valid()
      ensures |list| == 256 && uc == list[0]
    {
      SegmentCell(mtfa[..], mtfbase[..], list, 0);
      uc := mtfa[mtfbase[0]];
    }

    /** uc = MTF ( nextSym-1 ): the n-th value of the list, which moves to the front. */
    method Access(n: nat) returns (uc: nat)
      requires Valid() && n < 256
      modifies this, mtfa, mtfbase
      ensures Valid() && uc == old(list)[n] && list == FrontMoved(old(list), n)
    {
      if n < MTFL_SIZE {
        ghost var was, base := mtfa[..], mtfbase[..];
        SegmentCell(was, base, list, n);
        var pp := mtfbase[0];
        uc := mtfa[pp + n];
        hide Represents, Shifting, FrontMoved;
        ShiftBackFast(pp, n);
        FirstSegmentMoved(mtfa[..], was, base, list, n);
        ghost var m := mtfa[..];
        mtfa[pp] := uc;
        assert mtfa[..] == m[pp := uc];
        list := FrontMoved(list, n);
      } else {
        hide Represents, FrontMoved;
        uc := SlideTo(n);
        RepresentsSizes(mtfa[..], mtfbase[..], list);
        if mtfbase[0] == 0 {
          Rebuild();
        }
      }
    }
  }

  lemma RepresentsSizes(m: seq<nat>, base: seq<int>, list: seq<nat>)
    requires Represents(m, base, list)
    ensures |m| == 4096 && |base| == 16 && |list| == 256
  {
  }

  lemma NewBaseIs(base: seq<int>, lno: int, s: int)
    requires |base| == 16 && 0 <= s < 16
    ensures NewBase(base, lno, s) == if s < lno then base[s] - 1 else base[s]
  {
  }

  lemma NewBasesAre(base: seq<int>, lno: int, nb: seq<int>)
    requires |base| == 16 == |nb| && forall s :: 0 <= s < 16 ==> nb[s] == if s < lno then base[s] - 1 else base[s]
    ensures nb == NewBases(base, lno)
  {
  }

  lemma SlidingFirst(m: seq<nat>, base: seq<int>, list: seq<nat>, n: int)
    requires Sliding(m, base, list, n, 0)
    ensures 1 <= base[0] <= 4080 && n / 16 > 0
  {
    LayoutBounds(base, 0);
  }

  lemma SegmentCell(m: seq<nat>, base: seq<int>, list: seq<nat>, n: int)
    requires Represents(m, base, list) && 0 <= n < 256
    ensures 0 <= base[n / 16] <= 4080 && m[base[n / 16] + n % 16] == list[n]
  {
    assert Holds(m, base[n / 16], n / 16, list);
  }
}
