/**
  Undoing the Burrows-Wheeler transform: the fast form, with one 32-bit word per
  row, and the small form, with 20 bits per row and a binary search.

  Both forms are cursors over the same abstract walk: at row r they hand out the
  byte c[link[r]] and move to row link[r].  They therefore emit the same bytes
  for every column and every start row, and `BurrowsWheeler.WalkRestoresBlock`
  says what those bytes are when the column comes from the compressor.
 */
module InverseTransform {

  import opened Permutations
  import opened Rotations
  import opened BurrowsWheeler
  import opened Bits

  const ALPHABET: nat := 256

  /** cftab[v] is the first row whose first byte is v. */
  ghost predicate FirstRows(cftab: seq<nat>, c: seq<Byte>) {
    |cftab| == ALPHABET + 1 && forall v :: 0 <= v <= ALPHABET ==> cftab[v] == Smaller(c, v, |c|)
  }

  /** unzftab counts the bytes of the column. */
  ghost predicate Counts(unzftab: seq<nat>, c: seq<Byte>) {
    |unzftab| == ALPHABET && forall v :: 0 <= v < ALPHABET ==> unzftab[v] == Occurrences(c, v, |c|)
  }

  lemma {:induction false} SmallerEnds(c: seq<Byte>, m: nat)
    requires m <= |c|
    ensures Smaller(c, 0, m) == 0 && Smaller(c, ALPHABET, m) == m
  {
    if m > 0 {
      SmallerEnds(c, m - 1);
    }
  }

  /** cftab from unzftab.  The range and order checks on both tables cannot fail. */
  method MakeFirstRows(unzftab: array<nat>, nblock: nat, ghost c: seq<Byte>) returns (ok: bool, cftab: array<nat>)
    requires unzftab.Length == ALPHABET && Counts(unzftab[..], c) && nblock == |c|
    ensures ok && fresh(cftab) && FirstRows(cftab[..], c)
  {
    cftab := new nat[ALPHABET + 1](_ => 0);
    ok := false;
    for i := 0 to ALPHABET {
      assert unzftab[i] == unzftab[..][i];
      if unzftab[i] > nblock {
        assert false;
        return;
      }
    }
    SmallerEnds(c, |c|);
    for i := 1 to ALPHABET + 1
      invariant cftab[0] == 0
      invariant forall v :: 1 <= v < i ==> cftab[v] == unzftab[v - 1]
    {
      cftab[i] := unzftab[i - 1];
    }
    for i := 1 to ALPHABET + 1
      invariant forall v :: 0 <= v < i ==> cftab[v] == Smaller(c, v, |c|)
      invariant forall v :: i <= v <= ALPHABET ==> cftab[v] == unzftab[v - 1]
    {
      SmallerNext(c, i - 1, |c|);
      assert unzftab[i - 1] == unzftab[..][i - 1];
      cftab[i] := cftab[i] + cftab[i - 1];
    }
    for i := 1 to ALPHABET + 1
      invariant FirstRows(cftab[..], c)
    {
      assert cftab[..][i] == cftab[i] && cftab[..][i - 1] == cftab[i - 1];
      SmallerMonotone(c, i - 1, i, |c|);
      if cftab[i] > nblock || cftab[i - 1] > cftab[i] {
        assert false;
        return;
      }
    }
    ok := true;
  }

  // ----- The fast form -----

  /** Word k of tt holds the byte of row k and, above it, the link of row k. */
  ghost predicate Packed(tt: seq<nat>, c: seq<Byte>, link: seq<nat>) {
    && |link| == |c| <= |tt|
    && (forall k :: 0 <= k < |c| ==> tt[k] == Shl(link[k], 8) + c[k])
  }

  /** Links of the rows numbered below m are in place, all others are still zero. */
  ghost predicate LinkedBelow(c: seq<Byte>, link: seq<nat>, m: nat) {
    && |link| == |c| && m <= |c|
    && (forall i :: 0 <= i < m ==> Rank(c, i) < |c| && link[Rank(c, i)] == i)
    && (forall k :: 0 <= k < |c| ==> link[k] == 0 || (link[k] < m && Rank(c, link[k]) == k))
  }

  lemma LinkOneMore(c: seq<Byte>, link: seq<nat>, m: nat)
    requires LinkedBelow(c, link, m) && m < |c|
    ensures Rank(c, m) < |c| && link[Rank(c, m)] == 0
    ensures LinkedBelow(c, link[Rank(c, m) := m], m + 1)
  {
    hide Rank;
    RanksArePermutation(c);
    assert forall i :: 0 <= i < |c| ==> Ranks(c)[i] == Rank(c, i);
    assert Ranks(c)[m] == Rank(c, m);
    assert forall i :: 0 <= i < m ==> Rank(c, i) != Rank(c, m);
  }

  /** Every column has a link. */
  lemma LinksExist(c: seq<Byte>) returns (link: seq<nat>)
    ensures Links(c, link)
  {
    link := LinkedUpTo(c, |c|);
    LinksFromRanks(c, link);
  }

  lemma {:induction false} LinkedUpTo(c: seq<Byte>, m: nat) returns (link: seq<nat>)
    requires m <= |c|
    ensures LinkedBelow(c, link, m)
    decreases m
  {
    if m == 0 {
      link := seq(|c|, _ => 0);
    } else {
      var before := LinkedUpTo(c, m - 1);
      LinkOneMore(c, before, m - 1);
      link := before[Rank(c, m - 1) := m - 1];
    }
  }

  lemma {:induction false} OccurrencesTotal(c: seq<Byte>, v: int, i: nat)
    requires i < |c|
    ensures Occurrences(c, v, i + 1) == Occurrences(c, v, i) + if c[i] == v then 1 else 0
  {
  }

  /** Low byte and link of one word. */
  lemma PackedWord(l: nat, v: Byte)
    ensures Low(Shl(l, 8) + v, 8) == v
    ensures Shr(Shl(l, 8) + v, 8) == l
    ensures BitOr(v, Shl(l, 8)) == Shl(l, 8) + v
    ensures Shl(0, 8) + v == v
  {
    hide *;
    ByteFits(v);
    PackedFields(l, v, 8);
    OrDisjoint(l, v, 8);
    OrCommutes(v, Shl(l, 8));
    ShlZero(8);
  }

  /** The links of the rows below i are in tt, and cftab counts those rows. */
  ghost predicate Linking(tt: seq<nat>, cftab: seq<nat>, c: seq<Byte>, link: seq<nat>, i: nat) {
    && LinkedBelow(c, link, i) && |c| <= |tt| && |cftab| == ALPHABET + 1 && Packed(tt, c, link)
    && (forall v :: 0 <= v < ALPHABET ==> cftab[v] == Smaller(c, v, |c|) + Occurrences(c, v, i))
  }

  lemma LinkingStart(tt: seq<nat>, cftab: seq<nat>, c: seq<Byte>)
    requires |c| <= |tt| && (forall k :: 0 <= k < |c| ==> tt[k] == c[k]) && FirstRows(cftab, c)
    ensures Linking(tt, cftab, c, seq(|c|, _ => 0), 0)
  {
    hide Smaller, Rank, Shl;
    forall k | 0 <= k < |c|
      ensures Shl(0, 8) + c[k] == c[k]
    {
      PackedWord(0, c[k]);
    }
  }

  /** One turn of the loop that builds T^(-1). */
  lemma LinkingStep(tt: seq<nat>, cftab: seq<nat>, c: seq<Byte>, link: seq<nat>, i: nat)
    requires Linking(tt, cftab, c, link, i) && i < |c|
    ensures var uc := Low(tt[i], 8);
            && uc < ALPHABET
            && var k := cftab[uc];
               && k < |c|
               && Linking(tt[k := BitOr(tt[k], Shl(i, 8))], cftab[uc := cftab[uc] + 1], c, link[k := i], i + 1)
  {
    hide Shl, Shr, Low, BitOr, Rank, Smaller, Occurrences, LinkedBelow;
    PackedWord(link[i], c[i]);
    var uc := Low(tt[i], 8);
    assert uc == c[i];
    var k := cftab[uc];
    RankIs(c, i);
    LinkOneMore(c, link, i);
    PackedWord(0, c[k]);
    PackedWord(i, c[k]);
    assert tt[k] == Shl(link[k], 8) + c[k] == c[k];
    forall v | 0 <= v < ALPHABET
      ensures cftab[uc := cftab[uc] + 1][v] == Smaller(c, v, |c|) + Occurrences(c, v, i + 1)
    {
      OccurrencesTotal(c, v, i);
    }
  }

  /** The T^(-1) vector, built in the high bits of tt. */
  method LinkRows(tt: array<nat>, nblock: nat, cftab: array<nat>, ghost c: seq<Byte>) returns (ghost link: seq<nat>)
    requires nblock == |c| <= tt.Length && tt != cftab
    requires forall k :: 0 <= k < |c| ==> tt[k] == c[k]
    requires FirstRows(cftab[..], c)
    modifies tt, cftab
    ensures Links(c, link) && Packed(tt[..], c, link)
  {
    hide *;
    link := seq(|c|, _ => 0);
    LinkingStart(tt[..], cftab[..], c);
    LinkingSize(tt[..], cftab[..], c, link, 0);
    var i := 0;
    while i < nblock
      invariant i <= nblock && |link| == |c| && cftab.Length == 257
      invariant Linking(tt[..], cftab[..], c, link, i)
    {
      ghost var t, f := tt[..], cftab[..];
      LinkingStep(t, f, c, link, i);
      var uc := Low(tt[i], 8);
      var k := cftab[uc];
      assert t[i] == tt[i] && f[uc] == cftab[uc] && t[k] == tt[k];
      tt[k] := BitOr(tt[k], Shl(i, 8));
      link := link[k := i];
      cftab[uc] := cftab[uc] + 1;
      i := i + 1;
    }
    LinkingDone(tt[..], cftab[..], c, link);
  }

  lemma LinkingSize(tt: seq<nat>, cftab: seq<nat>, c: seq<Byte>, link: seq<nat>, i: nat)
    requires Linking(tt, cftab, c, link, i)
    ensures |cftab| == 257 && ALPHABET == 256 && |link| == |c|
  {
  }

  lemma LinkingDone(tt: seq<nat>, cftab: seq<nat>, c: seq<Byte>, link: seq<nat>)
    requires Linking(tt, cftab, c, link, |c|)
    ensures Links(c, link) && Packed(tt, c, link)
  {
    hide Rank, Smaller, Occurrences;
    LinksFromRanks(c, link);
  }

  lemma RankIs(c: seq<Byte>, i: nat)
    requires i < |c|
    ensures Rank(c, i) == Smaller(c, c[i], |c|) + Occurrences(c, c[i], i)
  {
  }

  /** BZ_GET_FAST over a linked tt. */
  class FastCursor {
    const tt: array<nat>
    const limit: nat
    var tPos: nat
    ghost const c: seq<Byte>
    ghost const link: seq<nat>
    ghost var row: nat

    /** tPos already stands on the row after `row`. */
    ghost predicate Valid()
      reads this, tt
    {
      && Links(c, link) && Packed(tt[..], c, link)
      && |c| <= limit
      && row < |c| && tPos == link[row]
    }

    /** limit is 100000 * blockSize100k. */
    constructor (tt: array<nat>, limit: nat, origPtr: nat, ghost c: seq<Byte>, ghost link: seq<nat>)
      requires Links(c, link) && Packed(tt[..], c, link) && |c| <= limit && origPtr < |c|
      ensures Valid() && row == origPtr && this.c == c && this.link == link && this.tt == tt
    {
      hide Shl, Shr, Low, Rank;
      this.tt, this.limit, this.c, this.link := tt, limit, c, link;
      PackedWord(link[origPtr], c[origPtr]);
      assert tt[origPtr] == tt[..][origPtr];
      this.tPos := Shr(tt[origPtr], 8);
      this.row := origPtr;
    }

    method Get() returns (corrupt: bool, ch: Byte)
      requires Valid()
      modifies this
      ensures Valid() && !corrupt
      ensures ch == c[link[old(row)]] && row == link[old(row)]
    {
      hide Shl, Shr, Low, Rank;
      corrupt, ch := true, 0;
      if tPos >= limit {
        assert false;
        return;
      }
      PackedWord(link[tPos], c[tPos]);
      assert tt[tPos] == tt[..][tPos];
      var w := tt[tPos];
      ch := Low(w, 8);
      row := tPos;
      tPos := Shr(w, 8);
      corrupt := false;
    }
  }

  // ----- The small form -----

  /** 20 bits per entry: ll16 holds the low 16 bits, ll4 the high nibbles, two to a byte. */
  class PackedVector {
    const ll16: array<nat>
    const ll4: array<nat>

    ghost predicate Valid()
      reads this, ll16, ll4
    {
      && ll16 != ll4
      && ll16.Length <= 2 * ll4.Length
      && (forall i :: 0 <= i < ll16.Length ==> ll16[i] < Pow2(16))
      && (forall i :: 0 <= i < ll4.Length ==> ll4[i] < Pow2(8))
    }

    /** GET_LL4 */
    function Nibble(i: nat): nat
      requires i < 2 * ll4.Length
      reads this, ll4
    {
      Low(if i % 2 == 0 then ll4[i / 2] else Shr(ll4[i / 2], 4), 4)
    }

    /** GET_LL */
    function Get(i: nat): nat
      requires i < ll16.Length <= 2 * ll4.Length
      reads this, ll16, ll4
    {
      BitOr(ll16[i], Shl(Nibble(i), 16))
    }

    /** The vector the two arrays stand for. */
    ghost function View(): (v: seq<nat>)
      requires Valid()
      reads this, ll16, ll4
      ensures |v| == ll16.Length
    {
      seq(ll16.Length, i requires 0 <= i < ll16.Length reads this, ll16, ll4 => Shl(Nibble(i), 16) + ll16[i])
    }

    /** ((1 + n) >> 1) bytes suffice for n nibbles. */
    constructor (size: nat)
      ensures Valid() && ll16.Length == size && fresh(ll16) && fresh(ll4)
    {
      ll16 := new nat[size](_ => 0);
      ll4 := new nat[(1 + size) / 2](_ => 0);
    }

    /** The column comes to stand in ll16. */
    method Load(column: array<nat>, nblock: nat, ghost c: seq<Byte>)
      requires Valid() && nblock == |c| <= ll16.Length && nblock <= column.Length && column != ll16
      requires forall i :: 0 <= i < nblock ==> column[i] == c[i]
      modifies ll16
      ensures Valid() && forall i :: 0 <= i < nblock ==> ll16[i] == c[i]
    {
      hide Pow2;
      assert Pow2(16) >= 256 by { SixteenHold(); }
      for i := 0 to nblock
        invariant Valid() && forall k :: 0 <= k < i ==> ll16[k] == c[k]
      {
        ll16[i] := column[i];
      }
    }

    method GetLL(i: nat) returns (n: nat)
      requires Valid() && i < ll16.Length
      ensures n == View()[i]
    {
      hide Shl, BitOr, Pow2;
      n := Get(i);
      OrDisjoint(Nibble(i), ll16[i], 16);
      OrCommutes(ll16[i], Shl(Nibble(i), 16));
    }

    /** SET_LL: no other entry changes, also not the one sharing the byte in ll4. */
    method SetLL(i: nat, n: nat)
      requires Valid() && i < ll16.Length && n < Pow2(20)
      modifies ll16, ll4
      ensures Valid() && View() == old(View())[i := n]
      ensures forall j :: 0 <= j < ll16.Length && j != i ==> ll16[j] == old(ll16[j])
    {
      hide Shl, Shr, Low, BitOr, Pow2;
      LowShr(n, 16);
      ShrFits(n, 4, 16);
      ghost var before := ll4[i / 2];
      NibblePair(before, Shr(n, 16));
      ll16[i] := Low(n, 16);
      if i % 2 == 0 {
        ll4[i / 2] := BitOr(Shl(Shr(ll4[i / 2], 4), 4), Shr(n, 16));
      } else {
        ll4[i / 2] := BitOr(Low(ll4[i / 2], 4), Shl(Shr(n, 16), 4));
      }
      assert Nibble(i) == Shr(n, 16);
      forall j | 0 <= j < ll16.Length && j != i
        ensures Nibble(j) == old(Nibble(j))
      {
        if j / 2 == i / 2 {
          assert j % 2 != i % 2;
        }
      }
      assert View() == old(View())[i := n];
    }
  }

  /** Replacing the low or the high nibble of a byte keeps the other one. */
  lemma SixteenHold()
    ensures Pow2(16) >= 256
  {
    assert Pow2(8) == 256;
    PowMonotone(8, 16);
  }

  lemma NibblePair(x: nat, h: nat)
    requires x < Pow2(8) && h < Pow2(4)
    ensures
      var lo := BitOr(Shl(Shr(x, 4), 4), h);
      lo < Pow2(8) && Low(lo, 4) == h && Shr(lo, 4) == Shr(x, 4)
    ensures
      var hi := BitOr(Low(x, 4), Shl(h, 4));
      hi < Pow2(8) && Low(hi, 4) == Low(x, 4) && Shr(hi, 4) == h
    ensures Low(h, 4) == h
    ensures Low(Shr(x, 4), 4) == Shr(x, 4)
  {
    hide *;
    var a := Shr(x, 4);
    ShrFits(x, 4, 4);
    OrDisjoint(a, h, 4);
    PackedFields(a, h, 4);
    ShlFits(a, 4, 4);
    OrCommutes(Low(x, 4), Shl(h, 4));
    OrDisjoint(h, Low(x, 4), 4);
    PackedFields(h, Low(x, 4), 4);
    ShlFits(h, 4, 4);
    LowFits(h, 4);
    LowFits(a, 4);
  }

  /** The T vector: entry i becomes the rank of row i.  ll16 comes in holding the column. */
  method RankRows(ll: PackedVector, nblock: nat, cftab: array<nat>, ghost c: seq<Byte>)
    requires ll.Valid() && nblock == |c| <= ll.ll16.Length && |c| <= Pow2(20)
    requires cftab != ll.ll16 && cftab != ll.ll4
    requires forall i :: 0 <= i < |c| ==> ll.ll16[i] == c[i]
    requires FirstRows(cftab[..], c)
    modifies ll.ll16, ll.ll4
    ensures ll.Valid() && ll.View()[..|c|] == Ranks(c)
  {
    hide Rank, Smaller, Pow2, Shl, Shr, Low, BitOr;
    var cftabCopy := new nat[ALPHABET + 1](v requires 0 <= v <= ALPHABET
      && cftab.Length == ALPHABET + 1 reads cftab => cftab[v]);
    var i := 0;
    while i < nblock
      invariant i <= nblock
      invariant ll.Valid()
      invariant fresh(cftabCopy) && cftabCopy.Length == ALPHABET + 1
      invariant forall j :: i <= j < |c| ==> ll.ll16[j] == c[j]
      invariant forall j :: 0 <= j < i ==> ll.View()[j] == Rank(c, j)
      invariant forall v :: 0 <= v < ALPHABET ==> cftabCopy[v] == Smaller(c, v, |c|) + Occurrences(c, v, i)
    {
      var uc := ll.ll16[i];
      RankIs(c, i);
      RankBounded(c, i);
      ll.SetLL(i, cftabCopy[uc]);
      cftabCopy[uc] := cftabCopy[uc] + 1;
      i := i + 1;
    }
    assert ll.View()[..|c|] == Ranks(c);
  }

  lemma RankBounded(c: seq<Byte>, i: nat)
    requires i < |c|
    ensures Rank(c, i) < |c|
  {
    RankInRange(c, i);
  }

  /** A stretch of the cycle of t through its first element. */
  ghost predicate Orbit(t: seq<nat>, orbit: seq<nat>) {
    && orbit != []
    && Distinct(orbit)
    && (forall r :: 0 <= r < |orbit| ==> orbit[r] < |t|)
    && (forall r :: 0 < r < |orbit| ==> t[orbit[r - 1]] == orbit[r])
  }

  /** The next step either closes the cycle or reaches a new position. */
  lemma OrbitGrows(t: seq<nat>, orbit: seq<nat>)
    requires IsPermutation(t, |t|) && Orbit(t, orbit)
    ensures |orbit| <= |t|
    ensures var j := t[orbit[|orbit| - 1]];
            j < |t| && (j == orbit[0] || (Orbit(t, orbit + [j]) && |orbit| < |t|))
    ensures forall r :: 0 < r < |orbit| ==> orbit[r] != t[orbit[|orbit| - 1]]
  {
    OrbitShort(t, orbit);
    var last := orbit[|orbit| - 1];
    forall r | 0 < r < |orbit|
      ensures orbit[r] != t[last]
    {
      assert orbit[r - 1] != last;
    }
    if t[last] != orbit[0] {
      OrbitShort(t, orbit + [t[last]]);
    }
  }

  lemma OrbitShort(t: seq<nat>, orbit: seq<nat>)
    requires Orbit(t, orbit)
    ensures |orbit| <= |t|
  {
    DistinctCount(orbit);
    assert Elements(orbit) <= Below(|t|);
    SubsetCount(Elements(orbit), Below(|t|));
  }

  /** The entries of the orbit after its first have been turned round, all others are as in t. */
  ghost predicate TurnedRound(v: seq<nat>, t: seq<nat>, orbit: seq<nat>)
    requires Orbit(t, orbit)
  {
    && |v| >= |t|
    && (forall r :: 0 < r < |orbit| ==> v[orbit[r]] == orbit[r - 1])
    && (forall k :: 0 <= k < |t| && k !in orbit[1..] ==> v[k] == t[k])
  }

  lemma TurnOneMore(v: seq<nat>, t: seq<nat>, orbit: seq<nat>)
    requires IsPermutation(t, |t|) && Orbit(t, orbit) && TurnedRound(v, t, orbit)
    requires t[orbit[|orbit| - 1]] != orbit[0]
    ensures var i := orbit[|orbit| - 1];
            var j := t[i];
            && Orbit(t, orbit + [j])
            && v[j] == t[j]
            && TurnedRound(v[j := i], t, orbit + [j])
  {
    OrbitGrows(t, orbit);
    var i := orbit[|orbit| - 1];
    var j := t[i];
    var orbit' := orbit + [j];
    assert orbit'[1..] == orbit[1..] + [j];
    assert j !in orbit[1..];
    forall r | 0 < r < |orbit'|
      ensures v[j := i][orbit'[r]] == orbit'[r - 1]
    {
      if r < |orbit| {
        assert orbit'[r] == orbit[r] != j;
      }
    }
  }

  /**
    Pointer reversal.  It ends, and on the cycle of t through origPtr it leaves the
    inverse of t; that cycle is closed under the result.
   */
  method ReverseCycle(ll: PackedVector, nblock: nat, origPtr: nat, ghost t: seq<nat>) returns (ghost orbit: seq<nat>)
    requires ll.Valid() && nblock == |t| <= ll.ll16.Length && |t| <= Pow2(20)
    requires ll.View()[..|t|] == t && IsPermutation(t, |t|) && origPtr < |t|
    modifies ll.ll16, ll.ll4
    ensures ll.Valid() && origPtr in orbit && ReversedOn(ll.View(), t, orbit)
  {
    hide Pow2, Shl, Shr, Low, BitOr, IsPermutation, Distinct, PackedVector.Nibble, PackedVector.Get;
    ghost var v := ll.View();
    orbit := [origPtr];
    var i := origPtr;
    var j := ll.GetLL(i);
    OrbitStarts(v, t, origPtr);
    while true
      invariant ll.Valid() && ll.View() == v && |v| == ll.ll16.Length
      invariant Orbit(t, orbit) && orbit[0] == origPtr
      invariant i == orbit[|orbit| - 1] && j == t[i]
      invariant TurnedRound(v, t, orbit)
      decreases |t| - |orbit|
    {
      TurnStep(v, t, orbit);
      var tmp := ll.GetLL(j);
      ll.SetLL(j, i);
      v := v[j := i];
      i := j;
      j := tmp;
      if i == origPtr {
        break;
      }
      orbit := orbit + [i];
    }
  }

  lemma OrbitStarts(v: seq<nat>, t: seq<nat>, origPtr: nat)
    requires |t| <= |v| && v[..|t|] == t && IsPermutation(t, |t|) && origPtr < |t|
    ensures Orbit(t, [origPtr]) && TurnedRound(v, t, [origPtr]) && v[origPtr] == t[origPtr]
  {
    assert forall k :: 0 <= k < |t| ==> v[k] == v[..|t|][k];
  }

  /** One turn of the loop: either the cycle closes, or the orbit gets longer. */
  lemma TurnStep(v: seq<nat>, t: seq<nat>, orbit: seq<nat>)
    requires IsPermutation(t, |t|) && Orbit(t, orbit) && TurnedRound(v, t, orbit)
    ensures
      var i := orbit[|orbit| - 1];
      var j := t[i];
      && i < |t| && j < |t|
      && (if j == orbit[0] then ReversedOn(v[j := i], t, orbit)
          else |orbit| < |t| && Orbit(t, orbit + [j]) && v[j] == t[j] && TurnedRound(v[j := i], t, orbit + [j]))
  {
    OrbitGrows(t, orbit);
    if t[orbit[|orbit| - 1]] == orbit[0] {
      CycleClosed(v, t, orbit);
    } else {
      TurnOneMore(v, t, orbit);
    }
  }

  /** The positions in orbit are closed under v, and there v undoes t. */
  ghost predicate ReversedOn(v: seq<nat>, t: seq<nat>, orbit: seq<nat>) {
    && (forall x :: x in orbit ==> x < |t| && x < |v|)
    && (forall x {:trigger v[x]} :: x in orbit ==> v[x] in orbit && v[x] < |t| && t[v[x]] == x)
  }

  lemma CycleClosed(v: seq<nat>, t: seq<nat>, orbit: seq<nat>)
    requires Orbit(t, orbit) && TurnedRound(v, t, orbit)
    requires t[orbit[|orbit| - 1]] == orbit[0]
    ensures var w := v[orbit[0] := orbit[|orbit| - 1]];
            ReversedOn(w, t, orbit)
  {
    var w := v[orbit[0] := orbit[|orbit| - 1]];
    forall x | x in orbit
      ensures x < |t| && w[x] in orbit && w[x] < |t| && t[w[x]] == x
    {
      var r :| 0 <= r < |orbit| && orbit[r] == x;
      if r > 0 {
        assert orbit[0] != orbit[r];
        assert w[x] == orbit[r - 1];
      }
    }
  }

  /** BZ2_indexIntoF: the byte whose range of rows contains indx. */
  method IndexIntoF(indx: nat, cftab: array<nat>, ghost c: seq<Byte>) returns (nb: Byte)
    requires FirstRows(cftab[..], c) && indx < |c|
    ensures Smaller(c, nb, |c|) <= indx < Smaller(c, nb as int + 1, |c|)
  {
    SmallerEnds(c, |c|);
    assert forall v :: 0 <= v <= ALPHABET ==> cftab[v] == cftab[..][v];
    var lo, na := 0, ALPHABET;
    while true
      invariant 0 <= lo < na <= ALPHABET && na - lo > 1
      invariant Smaller(c, lo, |c|) <= indx < Smaller(c, na, |c|)
      decreases na - lo
    {
      var mid := (lo + na) / 2;
      if indx >= cftab[mid] {
        lo := mid;
      } else {
        na := mid;
      }
      if na - lo == 1 {
        break;
      }
    }
    nb := lo;
  }

  /** The byte owning a row in the first column is the column byte its link leads to. */
  lemma FirstColumn(c: seq<Byte>, link: seq<nat>, k: nat, v: Byte)
    requires Links(c, link) && k < |c|
    requires Smaller(c, v, |c|) <= k < Smaller(c, v as int + 1, |c|)
    ensures v == c[link[k]]
  {
    var w := c[link[k]];
    RankInRange(c, link[k]);
    if w < v {
      SmallerMonotone(c, w as int + 1, v, |c|);
    } else if v < w {
      SmallerMonotone(c, v as int + 1, w, |c|);
    }
  }

  lemma LinkInside(c: seq<Byte>, link: seq<nat>, k: nat)
    requires Links(c, link) && k < |c|
    ensures |link| == |c| && link[k] < |c|
  {
  }

  /** On the orbit, the reversed vector is the link. */
  lemma SmallStep(c: seq<Byte>, link: seq<nat>, v: seq<nat>, orbit: seq<nat>, k: nat)
    requires Links(c, link) && ReversedOn(v, Ranks(c), orbit) && k in orbit
    ensures k < |c| && k < |v|
    ensures v[k] == link[k] && link[k] in orbit && link[k] < |c|
  {
    hide Rank, Links;
    assert v[k] in orbit && v[k] < |Ranks(c)|;
    assert Ranks(c)[v[k]] == Rank(c, v[k]);
    LinksInvert(c, link, v[k]);
    LinkInside(c, link, k);
  }

  /** BZ_GET_SMALL over a reversed PackedVector. */
  class SmallCursor {
    const ll: PackedVector
    const cftab: array<nat>
    const limit: nat
    var tPos: nat
    ghost const c: seq<Byte>
    ghost const link: seq<nat>
    ghost const orbit: seq<nat>

    ghost predicate Valid()
      reads this, ll, ll.ll16, ll.ll4, cftab
    {
      && Links(c, link) && FirstRows(cftab[..], c)
      && ll.Valid() && ll.ll16.Length >= |c|
      && ReversedOn(ll.View(), Ranks(c), orbit)
      && |c| <= limit
      && tPos in orbit && tPos < |c|
    }

    constructor (ll: PackedVector, cftab: array<nat>, limit: nat, origPtr: nat,
                 ghost c: seq<Byte>, ghost link: seq<nat>, ghost orbit: seq<nat>)
      requires Links(c, link) && FirstRows(cftab[..], c) && ll.Valid() && ll.ll16.Length >= |c|
      requires ReversedOn(ll.View(), Ranks(c), orbit) && |c| <= limit && origPtr in orbit && origPtr < |c|
      ensures Valid() && tPos == origPtr && this.c == c && this.link == link
      ensures this.ll == ll && this.cftab == cftab
    {
      hide Links, FirstRows, ReversedOn, PackedVector.View, PackedVector.Valid;
      this.ll, this.cftab, this.limit := ll, cftab, limit;
      this.c, this.link, this.orbit := c, link, orbit;
      this.tPos := origPtr;
    }

    /** The same contract as FastCursor.Get, with tPos standing on the row itself. */
    method Get() returns (corrupt: bool, ch: Byte)
      requires Valid()
      modifies this
      ensures Valid() && !corrupt
      ensures ch == c[link[old(tPos)]] && tPos == link[old(tPos)]
    {
      hide FirstRows, ReversedOn, Rank, Smaller, PackedVector.View, PackedVector.Valid;
      SmallStep(c, link, ll.View(), orbit, tPos);
      corrupt, ch := true, 0;
      if tPos >= limit {
        assert false;
        return;
      }
      ch := IndexIntoF(tPos, cftab, c);
      FirstColumn(c, link, tPos, ch);
      tPos := ll.GetLL(tPos);
      corrupt := false;
    }
  }
}
