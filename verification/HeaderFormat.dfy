/** The fixed-width fields of the stream: magic numbers, checksums and origPtr. */
module HeaderFormat {

  import opened Rotations
  import opened Bits
  import opened DecodeMachine
  import opened MoveToFront

  /** A number read byte by byte, most significant byte first, below a number already there. */
  lemma ByteOfNumber(x: nat, v: nat, n: nat)
    requires v < Pow2(8 + n)
    ensures Shr(v, n) < Pow2(8) && Low(v, n) < Pow2(n)
    ensures ToBits(v, 8 + n) == ToBits(Shr(v, n), 8) + ToBits(Low(v, n), n)
    ensures Shl(256 * x + Shr(v, n), n) + Low(v, n) == Shl(x, 8 + n) + v
  {
    hide ToBits, Shr, Low, Pow2;
    ShrFits(v, 8, n);
    ToBitsSplit(v, 8, n);
    ToBitsLow(v, n, n);
    LowShr(v, n);
    ShlAdd(256 * x, Shr(v, n), n);
    ShlByte(x);
    ShlShl(x, 8, n);
  }

  function FieldBits(k: nat): nat {
    if k == 0 then 0 else 8 + FieldBits(k - 1)
  }

  lemma LastByte(x: nat)
    ensures Shl(x, 0) == x && Pow2(0) == 1 && FieldBits(0) == 0
    ensures ToBits(0, 0) == []
  {
  }

  lemma {:induction false} RunBlockMagic(st: State, k: nat, rest: seq<bool>)
    requires Ok(st) && st.phase == BlockHeader(k)
    ensures Ok(st.(storedBlockCrc := 0, phase := BlockCrc(0)))
    ensures Run(st, BytesToBits(BLOCK_MAGIC[k..]) + rest) == Run(st.(storedBlockCrc := 0, phase := BlockCrc(0)), rest)
    decreases 6 - k
  {
    hide Run, ToBits;
    var c := BLOCK_MAGIC[k];
    ByteFits(c);
    assert BLOCK_MAGIC[k..][1..] == BLOCK_MAGIC[k + 1..];
    var bits := BytesToBits(BLOCK_MAGIC[k + 1..]);
    assert BytesToBits(BLOCK_MAGIC[k..]) + rest == ToBits(c, 8) + (bits + rest);
    RunStep(st, c, 8, bits + rest);
    if k < 5 {
      RunBlockMagic(st.(phase := BlockHeader(k + 1)), k + 1, rest);
    } else {
      assert BLOCK_MAGIC[6..] == [];
      assert bits + rest == rest;
    }
  }

  /** The trailer's magic number, from its first byte on. */
  lemma {:induction false} RunEndMagic(st: State, k: nat, rest: seq<bool>)
    requires Ok(st) && k < 6 && st.phase == if k == 0 then BlockHeader(0) else EndHeader(k)
    ensures Ok(st.(storedCombinedCrc := 0, phase := CombinedCrc(0)))
    ensures Run(st, BytesToBits(END_MAGIC[k..]) + rest) == Run(st.(storedCombinedCrc := 0, phase := CombinedCrc(0)),
                                                               rest)
    decreases 6 - k
  {
    hide Run, ToBits;
    var c := END_MAGIC[k];
    ByteFits(c);
    assert END_MAGIC[k..][1..] == END_MAGIC[k + 1..];
    var bits := BytesToBits(END_MAGIC[k + 1..]);
    assert BytesToBits(END_MAGIC[k..]) + rest == ToBits(c, 8) + (bits + rest);
    RunStep(st, c, 8, bits + rest);
    if k < 5 {
      RunEndMagic(st.(phase := EndHeader(k + 1)), k + 1, rest);
    } else {
      assert END_MAGIC[6..] == [];
      assert bits + rest == rest;
    }
  }

  lemma {:induction false} RunBlockCrc(st: State, k: nat, v: nat, rest: seq<bool>)
    requires Ok(st) && st.phase == BlockCrc(k) && v < Pow2(FieldBits(4 - k))
    ensures var s := st.(storedBlockCrc := Shl(st.storedBlockCrc, FieldBits(4 - k)) + v, phase := RandBit);
            Ok(s) && Run(st, ToBits(v, FieldBits(4 - k)) + rest) == Run(s, rest)
    decreases 4 - k
  {
    hide Run, Pow2, ToBits, Shr, Shl, Low, FieldBits;
    var n := FieldBits(3 - k);
    assert FieldBits(4 - k) == 8 + n by { FieldStep(4 - k); }
    ByteOfNumber(st.storedBlockCrc, v, n);
    var hi, lo := Shr(v, n), Low(v, n);
    assert ToBits(v, 8 + n) + rest == ToBits(hi, 8) + (ToBits(lo, n) + rest);
    RunStep(st, hi, 8, ToBits(lo, n) + rest);
    var s := st.(storedBlockCrc := 256 * st.storedBlockCrc + hi);
    if k < 3 {
      RunBlockCrc(s.(phase := BlockCrc(k + 1)), k + 1, lo, rest);
    } else {
      LastByte(s.storedBlockCrc);
      assert ToBits(lo, n) + rest == rest;
    }
  }

  lemma {:induction false} RunCombinedCrc(st: State, k: nat, v: nat, rest: seq<bool>)
    requires Ok(st) && st.phase == CombinedCrc(k) && v < Pow2(FieldBits(4 - k))
    ensures var s := st.(storedCombinedCrc := Shl(st.storedCombinedCrc, FieldBits(4 - k)) + v, phase := StreamEnd);
            Ok(s) && Run(st, ToBits(v, FieldBits(4 - k)) + rest) == Run(s, rest)
    decreases 4 - k
  {
    hide Run, Pow2, ToBits, Shr, Shl, Low, FieldBits;
    var n := FieldBits(3 - k);
    assert FieldBits(4 - k) == 8 + n by { FieldStep(4 - k); }
    ByteOfNumber(st.storedCombinedCrc, v, n);
    var hi, lo := Shr(v, n), Low(v, n);
    assert ToBits(v, 8 + n) + rest == ToBits(hi, 8) + (ToBits(lo, n) + rest);
    RunStep(st, hi, 8, ToBits(lo, n) + rest);
    var s := st.(storedCombinedCrc := 256 * st.storedCombinedCrc + hi);
    if k < 3 {
      RunCombinedCrc(s.(phase := CombinedCrc(k + 1)), k + 1, lo, rest);
    } else {
      LastByte(s.storedCombinedCrc);
      assert ToBits(lo, n) + rest == rest;
    }
  }

  lemma FieldStep(k: nat)
    requires k > 0
    ensures FieldBits(k) == 8 + FieldBits(k - 1)
  {
  }

  lemma FieldWidths()
    ensures FieldBits(3) == 24 && FieldBits(4) == 32
  {
  }

  lemma {:induction false} RunOrigPtr(st: State, k: nat, v: nat, rest: seq<bool>)
    requires Ok(st) && st.phase == OrigPtr(k) && v < Pow2(FieldBits(3 - k))
    requires Shl(st.origPtr, FieldBits(3 - k)) + v <= 10 + 100000 * st.blockSize100k
    ensures var s := st.(origPtr := Shl(st.origPtr, FieldBits(3 - k)) + v, inUse16 := [], phase := Mapping1);
            Ok(s) && Run(st, ToBits(v, FieldBits(3 - k)) + rest) == Run(s, rest)
    decreases 3 - k
  {
    hide Run, Pow2, ToBits, Shr, Shl, Low, FieldBits;
    var n := FieldBits(2 - k);
    assert FieldBits(3 - k) == 8 + n by { FieldStep(3 - k); }
    ByteOfNumber(st.origPtr, v, n);
    var hi, lo := Shr(v, n), Low(v, n);
    assert ToBits(v, 8 + n) + rest == ToBits(hi, 8) + (ToBits(lo, n) + rest);
    RunStep(st, hi, 8, ToBits(lo, n) + rest);
    var s := st.(origPtr := 256 * st.origPtr + hi);
    if k < 2 {
      RunOrigPtr(s.(phase := OrigPtr(k + 1)), k + 1, lo, rest);
    } else {
      LastByte(s.origPtr);
      assert ToBits(lo, n) + rest == rest;
    }
  }

  /** The stream header. */
  function HeaderBits(blockSize100k: nat): seq<bool>
    requires 1 <= blockSize100k <= 9
  {
    BytesToBits(HDR) + ToBits(0x30 + blockSize100k, 8)
  }

  /** Everything before the mapping table of a block. */
  function PrologueBits(crc: nat, origPtr: nat): seq<bool> {
    BytesToBits(BLOCK_MAGIC) + ToBits(crc, 32) + [false] + ToBits(origPtr, 24)
  }

  function TrailerBits(crc: nat): seq<bool> {
    BytesToBits(END_MAGIC) + ToBits(crc, 32)
  }

  lemma {:induction false} RunHeader(st: State, k: nat, blockSize100k: nat, rest: seq<bool>)
    requires Ok(st) && k <= 3 && st.phase == Magic(k) && 1 <= blockSize100k <= 9
    ensures var s := st.(blockSize100k := blockSize100k, phase := BlockHeader(0));
            Ok(s) && Run(st, BytesToBits(HDR[k..]) + ToBits(0x30 + blockSize100k, 8) + rest) == Run(s, rest)
    decreases 3 - k
  {
    hide Run, ToBits;
    var tail := ToBits(0x30 + blockSize100k, 8) + rest;
    if k < 3 {
      var c := HDR[k];
      ByteFits(c);
      assert HDR[k..][1..] == HDR[k + 1..];
      var bits := BytesToBits(HDR[k + 1..]);
      assert BytesToBits(HDR[k..]) + ToBits(0x30 + blockSize100k, 8) + rest
          == ToBits(c, 8) + (bits + ToBits(0x30 + blockSize100k, 8) + rest);
      RunStep(st, c, 8, bits + ToBits(0x30 + blockSize100k, 8) + rest);
      RunHeader(st.(phase := Magic(k + 1)), k + 1, blockSize100k, rest);
    } else {
      assert HDR[3..] == [];
      assert BytesToBits(HDR[3..]) + ToBits(0x30 + blockSize100k, 8) + rest == tail;
      ByteFits(0x30 + blockSize100k);
      RunStep(st, 0x30 + blockSize100k, 8, rest);
    }
  }

  lemma RunPrologue(st: State, crc: nat, origPtr: nat, rest: seq<bool>)
    requires Ok(st) && st.phase == BlockHeader(0) && crc < Pow2(32) && origPtr < Pow2(24)
    requires origPtr <= 10 + 100000 * st.blockSize100k
    ensures var s := st.(storedBlockCrc := crc, randomised := false, origPtr := origPtr, inUse16 := [],
                         phase := Mapping1);
            Ok(s) && Run(st, PrologueBits(crc, origPtr) + rest) == Run(s, rest)
  {
    hide Run, Pow2, ToBits, BytesToBits, Shl, FieldBits;
    FieldWidths();
    ShlZero(24);
    ShlZero(32);
    var tail2 := ToBits(origPtr, 24) + rest;
    var tail1 := ToBits(crc, 32) + ([false] + tail2);
    assert PrologueBits(crc, origPtr) + rest == BytesToBits(BLOCK_MAGIC) + tail1;
    assert BLOCK_MAGIC[0..] == BLOCK_MAGIC;
    RunBlockMagic(st, 0, tail1);
    var s1 := st.(storedBlockCrc := 0, phase := BlockCrc(0));
    RunBlockCrc(s1, 0, crc, [false] + tail2);
    var s2 := s1.(storedBlockCrc := crc, phase := RandBit);
    RunBit(s2, false, tail2);
    var s3 := s2.(randomised := false, origPtr := 0, phase := OrigPtr(0));
    RunOrigPtr(s3, 0, origPtr, rest);
  }

  lemma RunTrailer(st: State, crc: nat, rest: seq<bool>)
    requires Ok(st) && st.phase == BlockHeader(0) && crc < Pow2(32)
    ensures var s := st.(storedCombinedCrc := crc, phase := StreamEnd);
            Ok(s) && Run(st, TrailerBits(crc) + rest) == (s, rest)
  {
    hide Pow2, ToBits, BytesToBits, Shl, FieldBits, Run;
    FieldWidths();
    ShlZero(32);
    assert TrailerBits(crc) + rest == BytesToBits(END_MAGIC) + (ToBits(crc, 32) + rest);
    assert END_MAGIC[0..] == END_MAGIC;
    RunEndMagic(st, 0, ToBits(crc, 32) + rest);
    var s1 := st.(storedCombinedCrc := 0, phase := CombinedCrc(0));
    RunCombinedCrc(s1, 0, crc, rest);
    RunStopped(st.(storedCombinedCrc := crc, phase := StreamEnd), rest);
  }

  lemma RunStopped(st: State, bits: seq<bool>)
    requires Ok(st) && Need(st.phase) == 0
    ensures Run(st, bits) == (st, bits)
  {
  }
}
