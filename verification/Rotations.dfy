/**
  Cyclic rotations of a block and their lexicographic order.

  The block sorter never builds a rotation: it compares rotations byte by byte
  from their starting positions.  `EqualTo` and `LessTo` follow that scan to a
  given depth; `OrderIsLexicographic` ties them, at full depth, to the plain
  lexicographic order on the rotated sequences.
 */
module Rotations {

  import opened Permutations

  type Byte = x: int | 0 <= x < 256

  type Block = b: seq<Byte> | |b| > 0 witness [0]

  /** The position after i on a circle of n positions. */
  function Next(i: nat, n: nat): nat
    requires i < n
  {
    if i + 1 == n then 0 else i + 1
  }

  /** The position before i on a circle of n positions. */
  function Prev(i: nat, n: nat): nat
    requires i < n
  {
    if i == 0 then n - 1 else i - 1
  }

  /** The position h steps after i. */
  function Shift(i: nat, h: nat, n: nat): (r: nat)
    requires i < n
    ensures r < n
    decreases h
  {
    if h == 0 then i else Shift(Next(i, n), h - 1, n)
  }

  /** The rotations starting at i and j agree on their first h bytes. */
  ghost predicate EqualTo(b: Block, i: nat, j: nat, h: nat)
    requires i < |b| && j < |b|
    decreases h
  {
    h == 0 || (b[i] == b[j] && EqualTo(b, Next(i, |b|), Next(j, |b|), h - 1))
  }

  /** The rotation starting at i is strictly smaller within the first h bytes. */
  ghost predicate LessTo(b: Block, i: nat, j: nat, h: nat)
    requires i < |b| && j < |b|
    decreases h
  {
    h > 0 && (b[i] < b[j] || (b[i] == b[j] && LessTo(b, Next(i, |b|), Next(j, |b|), h - 1)))
  }

  /** The rotations starting at i and j are the same string. */
  ghost predicate SameRotation(b: Block, i: nat, j: nat)
    requires i < |b| && j < |b|
  {
    EqualTo(b, i, j, |b|)
  }

  /** The rotations listed by p never decrease; equal rotations may come in any order. */
  ghost predicate SortedTo(b: Block, p: seq<nat>, h: nat)
    requires IsPermutation(p, |b|)
  {
    forall i, j :: 0 <= i < j < |p| ==> !LessTo(b, p[j], p[i], h)
  }

  /** p is what BZ2_blockSort must produce for b. */
  ghost predicate SortsRotations(b: Block, p: seq<nat>) {
    IsPermutation(p, |b|) && SortedTo(b, p, |b|)
  }

  // ----- Order laws at a fixed depth -----

  lemma {:induction false} EqualReflexive(b: Block, i: nat, h: nat)
    requires i < |b|
    ensures EqualTo(b, i, i, h)
    decreases h
  {
    if h > 0 {
      EqualReflexive(b, Next(i, |b|), h - 1);
    }
  }

  lemma {:induction false} Trichotomy(b: Block, i: nat, j: nat, h: nat)
    requires i < |b| && j < |b|
    ensures LessTo(b, i, j, h) || EqualTo(b, i, j, h) || LessTo(b, j, i, h)
    ensures !(LessTo(b, i, j, h) && EqualTo(b, i, j, h))
    ensures !(LessTo(b, i, j, h) && LessTo(b, j, i, h))
    ensures EqualTo(b, i, j, h) == EqualTo(b, j, i, h)
    decreases h
  {
    if h > 0 {
      Trichotomy(b, Next(i, |b|), Next(j, |b|), h - 1);
    }
  }

  lemma {:induction false} Transitivity(b: Block, i: nat, j: nat, k: nat, h: nat)
    requires i < |b| && j < |b| && k < |b|
    ensures EqualTo(b, i, j, h) && EqualTo(b, j, k, h) ==> EqualTo(b, i, k, h)
    ensures EqualTo(b, i, j, h) && LessTo(b, j, k, h) ==> LessTo(b, i, k, h)
    ensures LessTo(b, i, j, h) && EqualTo(b, j, k, h) ==> LessTo(b, i, k, h)
    ensures LessTo(b, i, j, h) && LessTo(b, j, k, h) ==> LessTo(b, i, k, h)
    decreases h
  {
    if h > 0 {
      Transitivity(b, Next(i, |b|), Next(j, |b|), Next(k, |b|), h - 1);
    }
  }

  /** Not greater is transitive. */
  lemma NotGreaterTransitive(b: Block, i: nat, j: nat, k: nat, h: nat)
    requires i < |b| && j < |b| && k < |b|
    requires !LessTo(b, j, i, h) && !LessTo(b, k, j, h)
    ensures !LessTo(b, k, i, h)
  {
    Trichotomy(b, i, j, h);
    Trichotomy(b, j, k, h);
    Trichotomy(b, i, k, h);
    Trichotomy(b, k, i, h);
    Transitivity(b, i, j, k, h);
  }

  // ----- Depth g + h is depth g, then depth h further on -----

  lemma {:induction false} SplitDepth(b: Block, i: nat, j: nat, g: nat, h: nat)
    requires i < |b| && j < |b|
    ensures EqualTo(b, i, j, g + h)
         == (EqualTo(b, i, j, g) && EqualTo(b, Shift(i, g, |b|), Shift(j, g, |b|), h))
    ensures LessTo(b, i, j, g + h)
         == (LessTo(b, i, j, g) || (EqualTo(b, i, j, g) && LessTo(b, Shift(i, g, |b|), Shift(j, g, |b|), h)))
    decreases g
  {
    if g > 0 {
      SplitDepth(b, Next(i, |b|), Next(j, |b|), g - 1, h);
    }
  }

  lemma {:induction false} ShiftValue(i: nat, h: nat, n: nat)
    requires i < n && h <= n
    ensures Shift(i, h, n) == if i + h < n then i + h else i + h - n
    decreases h
  {
    if h > 0 {
      ShiftValue(Next(i, n), h - 1, n);
    }
  }

  lemma {:induction false} ShiftAdd(i: nat, g: nat, h: nat, n: nat)
    requires i < n
    ensures Shift(Shift(i, g, n), h, n) == Shift(i, g + h, n)
    decreases g
  {
    if g > 0 {
      ShiftAdd(Next(i, n), g - 1, h, n);
    }
  }

  // ----- A full turn decides everything -----

  /** Equal rotations stay equal when both are advanced by one byte. */
  lemma SameRotationNext(b: Block, i: nat, j: nat)
    requires i < |b| && j < |b|
    requires SameRotation(b, i, j)
    ensures SameRotation(b, Next(i, |b|), Next(j, |b|))
  {
    var n := |b|;
    assert EqualTo(b, i, j, n + 1) by {
      ShiftValue(i, n, n);
      ShiftValue(j, n, n);
      SplitDepth(b, i, j, n, 1);
    }
  }

  /** Equal rotations stay equal when both are moved back by one byte. */
  lemma {:induction false} SameRotationPrev(b: Block, i: nat, j: nat)
    requires i < |b| && j < |b|
    requires SameRotation(b, i, j)
    ensures SameRotation(b, Prev(i, |b|), Prev(j, |b|))
  {
    var n := |b|;
    SameRotationShift(b, i, j, n - 1);
    ShiftValue(i, n - 1, n);
    ShiftValue(j, n - 1, n);
  }

  lemma {:induction false} SameRotationShift(b: Block, i: nat, j: nat, h: nat)
    requires i < |b| && j < |b|
    requires SameRotation(b, i, j)
    ensures SameRotation(b, Shift(i, h, |b|), Shift(j, h, |b|))
    decreases h
  {
    if h > 0 {
      SameRotationNext(b, i, j);
      SameRotationShift(b, Next(i, |b|), Next(j, |b|), h - 1);
    }
  }

  lemma {:induction false} SameRotationAnyDepth(b: Block, i: nat, j: nat, h: nat)
    requires i < |b| && j < |b|
    requires SameRotation(b, i, j)
    ensures EqualTo(b, i, j, h)
    decreases h
  {
    if h > 0 {
      SameRotationNext(b, i, j);
      SameRotationAnyDepth(b, Next(i, |b|), Next(j, |b|), h - 1);
    }
  }

  /** Comparing more than a full turn gives the same verdict as a full turn. */
  lemma FullTurnDecides(b: Block, i: nat, j: nat, h: nat)
    requires i < |b| && j < |b|
    requires h >= |b|
    ensures LessTo(b, i, j, h) == LessTo(b, i, j, |b|)
  {
    var n := |b|;
    SplitDepth(b, i, j, n, h - n);
    if EqualTo(b, i, j, n) && LessTo(b, i, j, h) {
      SameRotationAnyDepth(b, i, j, h);
      Trichotomy(b, i, j, h);
    }
  }

  /** A verdict reached within h bytes stands at every greater depth. */
  lemma LessToGrows(b: Block, i: nat, j: nat, g: nat, h: nat)
    requires i < |b| && j < |b| && g <= h
    requires LessTo(b, i, j, g)
    ensures LessTo(b, i, j, h)
  {
    SplitDepth(b, i, j, g, h - g);
  }

  lemma NotLessShallower(b: Block, i: nat, j: nat, g: nat, h: nat)
    requires i < |b| && j < |b| && g <= h
    requires !LessTo(b, i, j, h)
    ensures !LessTo(b, i, j, g)
  {
    SplitDepth(b, i, j, g, h - g);
  }

  // ----- Agreement with the lexicographic order on sequences -----

  function Rotation(b: Block, i: nat): (r: seq<Byte>)
    requires i < |b|
  {
    b[i..] + b[..i]
  }

  ghost predicate Lexicographic(s: seq<Byte>, t: seq<Byte>)
    requires |s| == |t|
  {
    s != [] && (s[0] < t[0] || (s[0] == t[0] && Lexicographic(s[1..], t[1..])))
  }

  /** The h bytes read from position i onwards. */
  function Window(b: Block, i: nat, h: nat): (w: seq<Byte>)
    requires i < |b|
    ensures |w| == h
    decreases h
  {
    if h == 0 then [] else [b[i]] + Window(b, Next(i, |b|), h - 1)
  }

  lemma {:induction false} WindowIsSlice(b: Block, i: nat, h: nat)
    requires i < |b| && h <= |b|
    ensures Window(b, i, h) == if i + h <= |b| then b[i..i + h] else b[i..] + b[..i + h - |b|]
    decreases h
  {
    if h > 0 {
      WindowIsSlice(b, Next(i, |b|), h - 1);
    }
  }

  lemma {:induction false} WindowOrder(b: Block, i: nat, j: nat, h: nat)
    requires i < |b| && j < |b|
    ensures LessTo(b, i, j, h) == Lexicographic(Window(b, i, h), Window(b, j, h))
    ensures EqualTo(b, i, j, h) == (Window(b, i, h) == Window(b, j, h))
    decreases h
  {
    if h > 0 {
      var v, w := Window(b, i, h), Window(b, j, h);
      var i', j' := Next(i, |b|), Next(j, |b|);
      WindowOrder(b, i', j', h - 1);
      assert v[1..] == Window(b, i', h - 1);
      assert w[1..] == Window(b, j', h - 1);
      assert v == [v[0]] + v[1..] && w == [w[0]] + w[1..];
    }
  }

  /** The byte-by-byte scan over a full turn is the lexicographic order of the rotated sequences. */
  lemma OrderIsLexicographic(b: Block, i: nat, j: nat)
    requires i < |b| && j < |b|
    ensures LessTo(b, i, j, |b|) == Lexicographic(Rotation(b, i), Rotation(b, j))
    ensures SameRotation(b, i, j) == (Rotation(b, i) == Rotation(b, j))
  {
    WindowOrder(b, i, j, |b|);
    WindowIsSlice(b, i, |b|);
    WindowIsSlice(b, j, |b|);
    assert Window(b, i, |b|) == Rotation(b, i);
    assert Window(b, j, |b|) == Rotation(b, j);
  }
}
