/**
  The C bit operators on unsigned words, as functions on naturals, and
  most-significant-bit-first bit strings.
 */
module Bits {

  import opened Rotations

  const WORD_BITS: nat := 32

  function Pow2(n: nat): (r: nat)
    ensures r >= 1
  {
    if n == 0 then 1 else 2 * Pow2(n - 1)
  }

  /** v << k, before truncation to a word. */
  function Shl(v: nat, k: nat): (r: nat)
    decreases v, k
  {
    if k == 0 then v else 2 * Shl(v, k - 1)
  }

  /** v >> k */
  function Shr(v: nat, k: nat): (r: nat)
    decreases v, k
  {
    if k == 0 then v else Shr(v / 2, k - 1)
  }

  /** v & ((1 << k) - 1); with k == 32, truncation to a word. */
  function Low(v: nat, k: nat): (r: nat)
    ensures r < Pow2(k)
    decreases v, k
  {
    if k == 0 then 0 else 2 * Low(v / 2, k - 1) + v % 2
  }

  /** a | b */
  function BitOr(a: nat, b: nat): (r: nat) {
    if a == 0 && b == 0 then 0
    else (if a % 2 == 1 || b % 2 == 1 then 1 else 0) + 2 * BitOr(a / 2, b / 2)
  }

  lemma {:induction false} PowMonotone(m: nat, n: nat)
    requires m <= n
    ensures Pow2(m) <= Pow2(n)
    ensures m < n ==> 2 * Pow2(m) <= Pow2(n)
  {
    if m < n {
      PowMonotone(m, n - 1);
    }
  }

  lemma {:induction false} OrZero(a: nat)
    ensures BitOr(a, 0) == a
  {
    if a > 0 {
      OrZero(a / 2);
    }
  }

  /** Or-ing a value into bits that are all clear is addition. */
  lemma {:induction false} OrDisjoint(a: nat, b: nat, k: nat)
    requires b < Pow2(k)
    ensures BitOr(Shl(a, k), b) == Shl(a, k) + b
    decreases k
  {
    if k == 0 {
      OrZero(a);
    } else {
      OrDisjoint(a, b / 2, k - 1);
    }
  }

  lemma {:induction false} OrCommutes(a: nat, b: nat)
    ensures BitOr(a, b) == BitOr(b, a)
  {
    if a > 0 || b > 0 {
      OrCommutes(a / 2, b / 2);
    }
  }

  /** A word holding b in its low k bits and a above them. */
  lemma {:induction false} PackedFields(a: nat, b: nat, k: nat)
    requires b < Pow2(k)
    ensures Low(Shl(a, k) + b, k) == b
    ensures Shr(Shl(a, k) + b, k) == a
    decreases k
  {
    if k > 0 {
      PackedFields(a, b / 2, k - 1);
      assert (Shl(a, k) + b) / 2 == Shl(a, k - 1) + b / 2;
    }
  }

  lemma {:induction false} LowShr(v: nat, k: nat)
    ensures v == Shl(Shr(v, k), k) + Low(v, k)
    decreases v, k
  {
    if k > 0 {
      LowShr(v / 2, k - 1);
    }
  }

  lemma {:induction false} LowFits(v: nat, k: nat)
    requires v < Pow2(k)
    ensures Low(v, k) == v
    decreases k
  {
    if k > 0 {
      LowFits(v / 2, k - 1);
    }
  }

  lemma {:induction false} ShrFits(v: nat, m: nat, k: nat)
    requires v < Pow2(m + k)
    ensures Shr(v, k) < Pow2(m)
    decreases k
  {
    if k > 0 {
      ShrFits(v / 2, m, k - 1);
    }
  }

  lemma {:induction false} ShlFits(v: nat, m: nat, k: nat)
    requires v < Pow2(m)
    ensures Shl(v, k) + Pow2(k) <= Pow2(m + k)
    decreases k
  {
    if k > 0 {
      ShlFits(v, m, k - 1);
    }
  }

  lemma {:induction false} ShlZero(k: nat)
    ensures Shl(0, k) == 0 && Shr(0, k) == 0
    decreases k
  {
    if k > 0 {
      ShlZero(k - 1);
    }
  }

  lemma ShlByte(x: nat)
    ensures Shl(x, 8) == 256 * x
  {
    assert Shl(x, 1) == 2 * Shl(x, 0);
    assert Shl(x, 2) == 4 * x;
    assert Shl(x, 3) == 8 * x;
    assert Shl(x, 4) == 16 * x;
    assert Shl(x, 5) == 32 * x;
    assert Shl(x, 6) == 64 * x;
    assert Shl(x, 7) == 128 * x;
  }

  lemma {:induction false} ShlShl(v: nat, j: nat, k: nat)
    ensures Shl(Shl(v, j), k) == Shl(v, j + k)
    decreases k
  {
    if k > 0 {
      ShlShl(v, j, k - 1);
    }
  }

  lemma {:induction false} ShrShl(v: nat, k: nat)
    ensures Shr(Shl(v, k), k) == v
    decreases k
  {
    if k > 0 {
      ShrShl(v, k - 1);
    }
  }

  lemma {:induction false} ShrShr(v: nat, j: nat, k: nat)
    ensures Shr(Shr(v, j), k) == Shr(v, j + k)
    decreases j
  {
    if j > 0 {
      ShrShr(v / 2, j - 1, k);
    }
  }

  lemma {:induction false} ShlAdd(a: nat, b: nat, k: nat)
    ensures Shl(a + b, k) == Shl(a, k) + Shl(b, k)
    decreases k
  {
    if k > 0 {
      ShlAdd(a, b, k - 1);
    }
  }

  lemma {:induction false} LowShl(v: nat, k: nat, m: nat)
    ensures Low(Shl(v, k), k + m) == Shl(Low(v, m), k)
    decreases k
  {
    if k > 0 {
      LowShl(v, k - 1, m);
    }
  }

  lemma {:induction false} ShrLast(v: nat, k: nat)
    ensures Shr(v, k + 1) == Shr(v, k) / 2
    decreases k
  {
    if k > 0 {
      ShrLast(v / 2, k - 1);
    }
  }

  // ----- Bit strings -----

  /** The low n bits of v, most significant first. */
  function ToBits(v: nat, n: nat): (s: seq<bool>)
    ensures |s| == n
    decreases v, n
  {
    if n == 0 then [] else ToBits(v / 2, n - 1) + [v % 2 == 1]
  }

  /** The number a bit string spells. */
  function FromBits(s: seq<bool>): (v: nat) {
    if s == [] then 0 else 2 * FromBits(s[..|s| - 1]) + if s[|s| - 1] then 1 else 0
  }

  lemma {:induction false} FromToBits(v: nat, n: nat)
    ensures FromBits(ToBits(v, n)) == Low(v, n)
    decreases n
  {
    if n > 0 {
      FromToBits(v / 2, n - 1);
      assert ToBits(v, n)[..n - 1] == ToBits(v / 2, n - 1);
    }
  }

  lemma {:induction false} ToFromBits(s: seq<bool>)
    ensures FromBits(s) < Pow2(|s|)
    ensures ToBits(FromBits(s), |s|) == s
  {
    if s != [] {
      var m := |s| - 1;
      ToFromBits(s[..m]);
      assert s == s[..m] + [s[m]];
    }
  }

  /** Writing b below a concatenates their bit strings. */
  lemma {:induction false} ToBitsConcat(a: nat, b: nat, m: nat, n: nat)
    requires b < Pow2(n)
    ensures ToBits(Shl(a, n) + b, m + n) == ToBits(a, m) + ToBits(b, n)
    decreases n
  {
    if n > 0 {
      ToBitsConcat(a, b / 2, m, n - 1);
      assert (Shl(a, n) + b) / 2 == Shl(a, n - 1) + b / 2;
    }
  }

  /** The high part and the low part of the low m + n bits. */
  lemma {:induction false} ToBitsSplit(v: nat, m: nat, n: nat)
    ensures ToBits(v, m + n) == ToBits(Shr(v, n), m) + ToBits(v, n)
    decreases n
  {
    if n > 0 {
      ToBitsSplit(v / 2, m, n - 1);
    }
  }

  /** Bits above the lowest n do not show. */
  lemma {:induction false} ToBitsLow(v: nat, n: nat, k: nat)
    requires n <= k
    ensures ToBits(Low(v, k), n) == ToBits(v, n)
    decreases n
  {
    if n > 0 {
      ToBitsLow(v / 2, n - 1, k - 1);
    }
  }

  // ----- Byte strings as bit strings -----

  function BytesToBits(s: seq<Byte>): (r: seq<bool>)
    ensures |r| == 8 * |s|
  {
    if s == [] then [] else ToBits(s[0], 8) + BytesToBits(s[1..])
  }

  lemma {:induction false} BytesToBitsAppend(s: seq<Byte>, t: seq<Byte>)
    ensures BytesToBits(s + t) == BytesToBits(s) + BytesToBits(t)
  {
    if s == [] {
      assert s + t == t;
    } else {
      assert (s + t)[1..] == s[1..] + t;
      BytesToBitsAppend(s[1..], t);
    }
  }

  lemma ByteFits(c: Byte)
    ensures c < Pow2(8)
  {
    assert Pow2(8) == 256;
  }

  lemma BytesToBitsPush(s: seq<Byte>, c: Byte)
    ensures BytesToBits(s + [c]) == BytesToBits(s) + ToBits(c, 8)
  {
    BytesToBitsAppend(s, [c]);
    assert BytesToBits([c]) == ToBits(c, 8) + [];
  }
}
