/** The bit buffers on both sides: bsW and its kin in compress.c, GET_BITS in decompress.c. */
module BitStream {

  import opened Rotations
  import opened Bits

  /** The bit-output part of EState.  bsBuff is a 32-bit word, filled from the top. */
  class BitWriter {
    var zbits: seq<Byte>
    var bsBuff: nat
    var bsLive: int

    /** The bits of bsBuff below the live ones are clear. */
    ghost predicate Valid()
      reads this
    {
      && 0 <= bsLive <= WORD_BITS
      && bsBuff < Pow2(WORD_BITS)
      && bsBuff == Shl(Shr(bsBuff, WORD_BITS - bsLive), WORD_BITS - bsLive)
    }

    /** Every bit written so far. */
    ghost function Written(): (s: seq<bool>)
      reads this
      requires Valid()
    {
      BytesToBits(zbits) + ToBits(Shr(bsBuff, WORD_BITS - bsLive), bsLive)
    }

    /** BZ2_bsInitWrite, on a writer with no bytes out yet. */
    constructor ()
      ensures Valid() && Written() == [] && zbits == [] && bsLive == 0
    {
      zbits, bsBuff, bsLive := [], 0, 0;
      new;
      ShlZero(WORD_BITS);
    }

    /** numZ = 0: the bytes written so far have been taken away, the bits in bsBuff stay. */
    method Restart()
      requires Valid()
      modifies this`zbits
      ensures Valid() && zbits == [] && old(Written()) == BytesToBits(old(zbits)) + Written()
    {
      zbits := [];
    }

    /** One turn of the loops in bsNEEDW and bsFinishWrite. */
    method PutByte()
      requires Valid() && bsLive > 0
      modifies this
      ensures |zbits| == old(|zbits|) + 1 && zbits[..old(|zbits|)] == old(zbits)
      ensures bsLive == old(bsLive) - 8
      ensures old(bsLive) >= 8 ==> Valid() && Written() == old(Written())
      ensures old(bsLive) < 8 ==>
        BytesToBits(zbits) == old(Written()) + ToBits(0, 8 - old(bsLive))
    {
      hide Shr, Shl, Low, ToBits, BytesToBits;
      ghost var live, hi := bsLive, Shr(bsBuff, WORD_BITS - bsLive);
      ShrFits(bsBuff, 8, 24);
      var out: Byte := Shr(bsBuff, 24);
      BytesToBitsPush(zbits, out);
      zbits := zbits + [out];
      if live >= 8 {
        TopByte(hi, live);
      } else {
        TopByteShort(hi, live);
      }
      bsBuff := Low(Shl(bsBuff, 8), WORD_BITS);
      bsLive := bsLive - 8;
    }

    method NeedW()
      requires Valid()
      modifies this
      ensures Valid() && bsLive < 8
      ensures Written() == old(Written())
      ensures old(zbits) <= zbits
    {
      while bsLive >= 8
        invariant Valid()
        invariant Written() == old(Written())
        invariant old(zbits) <= zbits
      {
        PutByte();
      }
    }

    /** bsW: append the n bits of v. */
    method Write(n: nat, v: nat)
      requires Valid()
      requires 1 <= n <= 24 && v < Pow2(n)
      modifies this
      ensures Valid()
      ensures Written() == old(Written()) + ToBits(v, n)
      ensures old(zbits) <= zbits
    {
      hide Shr, Shl, Low, ToBits, BytesToBits, BitOr;
      NeedW();
      ghost var hi := Shr(bsBuff, WORD_BITS - bsLive);
      AppendBits(hi, bsLive, v, n, WORD_BITS);
      bsBuff := BitOr(bsBuff, Low(Shl(v, WORD_BITS - bsLive - n), WORD_BITS));
      bsLive := bsLive + n;
    }

    /** bsFinishWrite: the last byte is filled up with zero bits. */
    method FinishWrite() returns (ghost pad: nat)
      requires Valid()
      modifies this
      ensures pad < 8 && -8 < bsLive <= 0
      ensures BytesToBits(zbits) == old(Written()) + ToBits(0, pad)
      ensures old(zbits) <= zbits
    {
      pad := 0;
      while bsLive > 0
        invariant -8 < bsLive <= WORD_BITS
        invariant old(zbits) <= zbits
        invariant bsLive >= 0 ==> Valid() && Written() == old(Written()) && pad == 0
        invariant bsLive < 0 ==> pad == -bsLive && BytesToBits(zbits) == old(Written()) + ToBits(0, pad)
      {
        if bsLive < 8 {
          pad := 8 - bsLive;
        }
        PutByte();
      }
      assert bsLive == 0 ==> BytesToBits(zbits) == Written() + ToBits(0, 0);
    }
  }

  /** Sending the top byte of a word with at least eight live bits. */
  lemma TopByte(hi: nat, live: nat)
    requires 8 <= live <= WORD_BITS
    ensures
      var buff := Shl(hi, WORD_BITS - live);
      var buff' := Low(Shl(buff, 8), WORD_BITS);
      && ToBits(hi, live) == ToBits(Shr(buff, 24), 8) + ToBits(Shr(buff', WORD_BITS - (live - 8)), live - 8)
      && buff' == Shl(Shr(buff', WORD_BITS - (live - 8)), WORD_BITS - (live - 8))
  {
    var k, m := WORD_BITS - live, live - 8;
    ShrShr(Shl(hi, k), k, m);
    ShrShl(hi, k);
    ShlShl(hi, k, 8);
    LowShl(hi, k + 8, m);
    ShrShl(Low(hi, m), k + 8);
    ToBitsSplit(hi, 8, m);
    ToBitsLow(hi, m, m);
  }

  /** Sending the last, partly filled byte. */
  lemma TopByteShort(hi: nat, live: nat)
    requires 0 < live < 8
    ensures ToBits(Shr(Shl(hi, WORD_BITS - live), 24), 8) == ToBits(hi, live) + ToBits(0, 8 - live)
  {
    var k := 8 - live;
    ShlShl(hi, k, 24);
    ShrShl(Shl(hi, k), 24);
    ToBitsConcat(hi, 0, live, k);
  }

  /** Or-ing the n bits of v in below the live bits of a w-bit word. */
  lemma AppendBits(hi: nat, live: nat, v: nat, n: nat, w: nat)
    requires live + n <= w && v < Pow2(n)
    requires Shl(hi, w - live) < Pow2(w)
    ensures
      var k := w - live - n;
      var buff := BitOr(Shl(hi, w - live), Low(Shl(v, k), w));
      && buff < Pow2(w)
      && buff == Shl(Shr(buff, k), k)
      && ToBits(Shr(buff, k), live + n) == ToBits(hi, live) + ToBits(v, n)
  {
    hide *;
    var k := w - live - n;
    AppendSum(hi, live, v, n, k);
    ShlFits(v, n, k);
    PowMonotone(n + k, w);
    LowFits(Shl(v, k), w);
    OrDisjoint(hi, Shl(v, k), n + k);
    ShrShl(Shl(hi, n) + v, k);
    ToBitsConcat(hi, v, live, n);
  }

  lemma AppendSum(hi: nat, live: nat, v: nat, n: nat, k: nat)
    requires v < Pow2(n) && Shl(hi, n + k) < Pow2(live + n + k)
    ensures Shl(hi, n + k) + Shl(v, k) == Shl(Shl(hi, n) + v, k) < Pow2(live + n + k)
  {
    ShlShl(hi, n, k);
    ShlAdd(Shl(hi, n), v, k);
    ShlFits(v, n, k);
    ShrShl(hi, n + k);
    ShrFits(Shl(hi, n + k), live, n + k);
    ShlFits(hi, live, n + k);
  }

  /**
    The bit-input part of DState and its bz_stream.  bsBuff is a 32-bit word holding
    the live bits at the bottom, with stale bits above them.
   */
  class BitReader {
    var input: seq<Byte>
    var nextIn: nat
    var bsBuff: nat
    var bsLive: nat

    ghost predicate Valid()
      reads this
    {
      nextIn <= |input| && bsLive <= WORD_BITS && bsBuff < Pow2(WORD_BITS)
    }

    /** Every bit received and not yet handed out. */
    ghost function Pending(): (s: seq<bool>)
      reads this
      requires Valid()
    {
      ToBits(bsBuff, bsLive) + BytesToBits(input[nextIn..])
    }

    constructor ()
      ensures Valid() && Pending() == []
    {
      input, nextIn, bsBuff, bsLive := [], 0, 0, 0;
    }

    /** The caller supplies more input: next_in and avail_in before the next call. */
    method Supply(more: seq<Byte>)
      requires Valid()
      modifies this
      ensures Valid() && Pending() == old(Pending()) + BytesToBits(more)
      ensures bsBuff == old(bsBuff) && bsLive == old(bsLive)
    {
      BytesToBitsAppend(input[nextIn..], more);
      input, nextIn := input[nextIn..] + more, 0;
    }

    /**
      GET_BITS.  Without enough input it takes in all there is, loses nothing and
      reports failure; the same request can be made again when there is more.
     */
    method GetBits(n: nat) returns (ok: bool, v: nat)
      requires Valid() && n <= 24
      modifies this
      ensures Valid()
      ensures ok == (n <= |old(Pending())|)
      ensures ok ==> v == FromBits(old(Pending())[..n]) && Pending() == old(Pending())[n..]
      ensures !ok ==> Pending() == old(Pending()) && nextIn == |input|
      ensures input == old(input)
    {
      hide Shr, Shl, Low, ToBits, FromBits, BitOr, Pow2;
      while bsLive < n
        invariant Valid()
        invariant Pending() == old(Pending())
        invariant input == old(input)
        decreases |input| - nextIn
      {
        if nextIn == |input| {
          return false, 0;
        }
        ghost var rest := input[nextIn..];
        TakeByte(bsBuff, bsLive, input[nextIn], WORD_BITS);
        bsBuff := BitOr(Low(Shl(bsBuff, 8), WORD_BITS), input[nextIn]);
        bsLive := bsLive + 8;
        nextIn := nextIn + 1;
        assert input[nextIn..] == rest[1..];
      }
      v := Low(Shr(bsBuff, bsLive - n), n);
      FromToBits(Shr(bsBuff, bsLive - n), n);
      ToBitsSplit(bsBuff, n, bsLive - n);
      bsLive := bsLive - n;
      assert old(Pending())[..n] == ToBits(Shr(bsBuff, bsLive), n);
      ok := true;
    }
  }

  /** Shifting a byte in below the live bits of a w-bit word. */
  lemma TakeByte(buff: nat, live: nat, c: Byte, w: nat)
    requires live + 8 <= w
    ensures
      var buff' := BitOr(Low(Shl(buff, 8), w), c);
      buff' < Pow2(w) && ToBits(buff', live + 8) == ToBits(buff, live) + ToBits(c, 8)
  {
    hide *;
    var low := Low(buff, w - 8);
    ByteFits(c);
    LowShl(buff, 8, w - 8);
    OrDisjoint(low, c, 8);
    ShlFits(low, w - 8, 8);
    ToBitsConcat(low, c, live, 8);
    ToBitsLow(buff, live, w - 8);
  }
}
