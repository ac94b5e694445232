/** The checksums: BZ_UPDATE_CRC and its kin, for any table of 32-bit words. */
module Checksum {

  import opened Rotations
  import opened Bits

  /** BZ2_crc32Table, indexed by the word (crc >> 24) ^ ch. */
  type Table = bv32 -> bv32

  /** A byte as a word, from its highest bit down. */
  function Word(ch: Byte): bv32 {
    if ch == 0 then 0 else WithBit(Word(ch / 2), ch % 2 == 1)
  }

  function WithBit(w: bv32, bit: bool): bv32 {
    (w << 1) | if bit then 1 else 0
  }

  function Index(crc: bv32, ch: Byte): bv32 {
    (crc >> 24) ^ Word(ch)
  }

  function Update(table: Table, crc: bv32, ch: Byte): bv32 {
    (crc << 8) ^ table(Index(crc, ch))
  }

  /** The running checksum of s. */
  function CrcOf(table: Table, s: seq<Byte>): bv32 {
    if s == [] then 0xffffffff else Update(table, CrcOf(table, s[..|s| - 1]), s[|s| - 1])
  }

  /** BZ_FINALISE_CRC */
  function Finalise(crc: bv32): bv32 {
    !crc
  }

  /** The finalised checksum of s. */
  function FinalCrc(table: Table, s: seq<Byte>): bv32 {
    Finalise(CrcOf(table, s))
  }

  /** How a block's checksum enters the stream's. */
  function Combine(combined: bv32, crc: bv32): bv32 {
    ((combined << 1) | (combined >> 31)) ^ crc
  }

  lemma CrcPush(table: Table, s: seq<Byte>, ch: Byte)
    ensures CrcOf(table, s + [ch]) == Update(table, CrcOf(table, s), ch)
  {
    assert (s + [ch])[..|s|] == s;
  }

  lemma WordFits(v: bv32)
    ensures v as nat < Pow2(32)
  {
    WordSize();
  }

  lemma WordSize()
    ensures Pow2(32) == 0x1_0000_0000
  {
    assert Pow2(8) == 256;
    assert Pow2(12) == 4096;
    assert Pow2(16) == 65536;
    assert Pow2(20) == 0x10_0000;
    assert Pow2(24) == 0x100_0000;
    assert Pow2(28) == 0x1000_0000;
  }

  // ----- What the checksums detect -----

  /** 2^n, for n up to 8. */
  function PowerOfTwo(n: nat): (r: bv32)
    requires n <= 8
    ensures n == 8 ==> r == 256
  {
    match n
    case 0 => 1
    case 1 => 2
    case 2 => 4
    case 3 => 8
    case 4 => 16
    case 5 => 32
    case 6 => 64
    case 7 => 128
    case 8 => 256
  }

  lemma PowerDoubles(n: nat)
    requires 1 <= n <= 8
    ensures 1 <= PowerOfTwo(n - 1) <= 128 && PowerOfTwo(n) == PowerOfTwo(n - 1) + PowerOfTwo(n - 1)
  {
  }

  lemma WithBitFits(v: bv32, bit: bool, l: bv32)
    requires v < l && l <= 128
    ensures WithBit(v, bit) < l + l
  {
  }

  lemma WithBitDiffers(v: bv32, w: bv32, a: bool, b: bool)
    requires v < 128 && w < 128 && WithBit(v, a) == WithBit(w, b)
    ensures v == w && a == b
  {
  }

  lemma {:induction false} WordFits8(ch: Byte, n: nat)
    requires n <= 8 && ch < Pow2(n)
    ensures Word(ch) < PowerOfTwo(n)
    decreases n
  {
    hide PowerOfTwo, WithBit;
    if n == 0 {
      WordZero();
    } else {
      PowerDoubles(n);
      WordFits8(ch / 2, n - 1);
      WithBitFits(Word(ch / 2), ch % 2 == 1, PowerOfTwo(n - 1));
      WordHalves(ch);
    }
  }

  lemma WordZero()
    ensures Word(0) == 0 && Word(0) < PowerOfTwo(0) && Pow2(0) == 1
  {
  }

  lemma WordHalves(ch: Byte)
    ensures Word(ch) == WithBit(Word(ch / 2), ch % 2 == 1)
  {
  }

  lemma {:induction false} WordDiffers(a: Byte, b: Byte)
    requires Word(a) == Word(b)
    ensures a == b
    decreases a + b
  {
    hide WithBit, Word, PowerOfTwo;
    if a != b {
      WordHalves(a);
      WordHalves(b);
      HalfFits(a);
      HalfFits(b);
      WithBitDiffers(Word(a / 2), Word(b / 2), a % 2 == 1, b % 2 == 1);
      WordDiffers(a / 2, b / 2);
    }
  }

  lemma HalfFits(ch: Byte)
    ensures Word(ch / 2) < 128 && Word(ch) < 256
  {
    hide Word;
    assert Pow2(4) == 16;
    assert Pow2(7) == 128 && Pow2(8) == 256;
    WordFits8(ch / 2, 7);
    WordFits8(ch, 8);
  }

  lemma WordFacts(a: Byte, b: Byte)
    ensures Word(a) < 256 && (Word(a) == Word(b) ==> a == b)
  {
    hide Word;
    HalfFits(a);
    if Word(a) == Word(b) {
      WordDiffers(a, b);
    }
  }

  /** The low bytes of the 256 entries are pairwise different. */
  ghost predicate LowBytesDiffer(table: Table) {
    forall x: bv32, y: bv32 :: x < 256 && y < 256 && x != y ==> table(x) & 0xff != table(y) & 0xff
  }

  lemma IndexBits(c: bv32, d: bv32, a: bv32, b: bv32)
    requires a < 256 && b < 256
    ensures (c >> 24) ^ a < 256
    ensures a == b && (c >> 24) ^ a == (d >> 24) ^ b && c != d ==> c << 8 != d << 8
    ensures c == d && a != b ==> (c >> 24) ^ a != (d >> 24) ^ b
  {
  }

  lemma IndexFacts(c: bv32, d: bv32, a: Byte, b: Byte)
    ensures Index(c, a) < 256
    ensures a == b && Index(c, a) == Index(d, b) && c != d ==> c << 8 != d << 8
    ensures c == d && a != b ==> Index(c, a) != Index(d, b)
  {
    hide Word;
    WordFacts(a, b);
    WordFacts(b, a);
    IndexBits(c, d, Word(a), Word(b));
  }

  lemma UpdateBits(c: bv32, d: bv32, t: bv32, u: bv32)
    ensures t & 0xff != u & 0xff ==> (c << 8) ^ t != (d << 8) ^ u
    ensures t == u && c << 8 != d << 8 ==> (c << 8) ^ t != (d << 8) ^ u
  {
  }

  /** One byte keeps different checksums apart, and different bytes set equal ones apart. */
  lemma UpdateDiffers(table: Table, c: bv32, d: bv32, a: Byte, b: Byte)
    requires LowBytesDiffer(table) && ((c != d && a == b) || (c == d && a != b))
    ensures Update(table, c, a) != Update(table, d, b)
  {
    IndexFacts(c, d, a, b);
    IndexFacts(d, c, b, a);
    hide Index;
    UpdateBits(c, d, table(Index(c, a)), table(Index(d, b)));
  }

  lemma {:induction false} CrcKeepsApart(table: Table, s: seq<Byte>, t: seq<Byte>, m: nat)
    requires LowBytesDiffer(table) && m <= |s| == |t| && CrcOf(table, s[..m]) != CrcOf(table, t[..m])
    requires forall i :: m <= i < |s| ==> s[i] == t[i]
    ensures CrcOf(table, s) != CrcOf(table, t)
    decreases |s|
  {
    hide Update, LowBytesDiffer;
    if m == |s| {
      assert s[..m] == s && t[..m] == t;
    } else {
      var n := |s| - 1;
      assert s[..n][..m] == s[..m] && t[..n][..m] == t[..m];
      CrcKeepsApart(table, s[..n], t[..n], m);
      UpdateDiffers(table, CrcOf(table, s[..n]), CrcOf(table, t[..n]), s[n], t[n]);
    }
  }

  /** A single wrong byte never goes undetected. */
  lemma ByteErrorDetected(table: Table, s: seq<Byte>, t: seq<Byte>, k: nat)
    requires LowBytesDiffer(table) && k < |s| == |t| && s[k] != t[k]
    requires forall i :: 0 <= i < |s| && i != k ==> s[i] == t[i]
    ensures CrcOf(table, s) != CrcOf(table, t) && FinalCrc(table, s) != FinalCrc(table, t)
  {
    hide Update, LowBytesDiffer, Finalise;
    assert s[..k] == t[..k];
    CrcPush(table, s[..k], s[k]);
    CrcPush(table, t[..k], t[k]);
    assert s[..k + 1] == s[..k] + [s[k]] && t[..k + 1] == t[..k] + [t[k]];
    UpdateDiffers(table, CrcOf(table, s[..k]), CrcOf(table, t[..k]), s[k], t[k]);
    CrcKeepsApart(table, s, t, k + 1);
    FinalDiffers(CrcOf(table, s), CrcOf(table, t));
  }

  lemma Complements(c: bv32, d: bv32)
    ensures !c == !d ==> c == d
  {
  }

  lemma FinalDiffers(c: bv32, d: bv32)
    ensures Finalise(c) == Finalise(d) ==> c == d
  {
    Complements(c, d);
  }

  lemma AllOnes(c: bv32)
    ensures !c + c == 0xffffffff
  {
  }

  lemma FinalIsComplement(c: bv32)
    ensures Finalise(c) + c == 0xffffffff
  {
    AllOnes(c);
  }

  lemma TurnBits(c: bv32, x: bv32)
    ensures (((c << 1) | (c >> 31)) ^ x) ^ x == c + c + if c & 0x80000000 != 0 then 1 else 0
  {
  }

  lemma TurnsSame(c: bv32, d: bv32, x: bv32)
    ensures ((c << 1) | (c >> 31)) ^ x == ((d << 1) | (d >> 31)) ^ x ==> c == d
  {
  }

  lemma TakenSame(c: bv32, x: bv32, y: bv32)
    ensures ((c << 1) | (c >> 31)) ^ x == ((c << 1) | (c >> 31)) ^ y ==> x == y
  {
  }

  /**
    The combined checksum is turned left by one place for each block, so that the order of
    blocks matters, and then takes the block's checksum in.
   */
  lemma CombineTurns(c: bv32, crc: bv32)
    ensures Combine(c, crc) ^ crc == c + c + if c & 0x80000000 != 0 then 1 else 0
  {
    TurnBits(c, crc);
  }

  /** A different checksum of a block makes a different combined checksum. */
  lemma CombineTakes(c: bv32, x: bv32, y: bv32)
    ensures Combine(c, x) == Combine(c, y) ==> x == y
  {
    TakenSame(c, x, y);
  }

  /** And a difference so far stays. */
  lemma CombineKeeps(c: bv32, d: bv32, crc: bv32)
    ensures Combine(c, crc) == Combine(d, crc) ==> c == d
  {
    TurnsSame(c, d, crc);
  }
}
