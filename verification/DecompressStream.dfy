/** BZ2_bzDecompress: blocks read, turned back and unpacked, over any split of input and output. */
module DecompressStream {

  import opened Permutations
  import opened Rotations
  import opened BurrowsWheeler
  import opened Bits
  import opened BitStream
  import opened Checksum
  import opened MoveToFront
  import opened MtfEncoder
  import opened InverseTransform
  import opened DecodeMachine
  import opened BlockRoundTrip
  import opened RunLength
  import opened StreamFormat
  import opened CompressStream
  import opened MtfDecoder
  import opened RunDecoder
  import opened Decompressor
  import opened StreamSoundness

  const BZ_OK: int := 0
  const BZ_DATA_ERROR: int := -4
  const BZ_DATA_ERROR_MAGIC: int := -5

  /** The column of a finished block, as bytes. */
  ghost function ColumnOf(dec: ColumnDecoder): (c: seq<Byte>)
    requires dec.Valid()
    reads dec, dec.list, dec.list.mtfa, dec.list.mtfbase, dec.store, dec.unzftab
  {
    Unmapped(dec.out, dec.seqToUnseq)
  }

  lemma ColumnStored(dec: ColumnDecoder)
    requires dec.Valid()
    ensures |ColumnOf(dec)| == dec.nblock <= dec.store.Length && dec.unzftab.Length == ALPHABET
    ensures forall i :: 0 <= i < dec.nblock ==> dec.store[i] == ColumnOf(dec)[i]
    ensures Counts(dec.unzftab[..], ColumnOf(dec))
  {
    hide Counts;
    var s, u := dec.store[..], dec.unzftab[..];
    assert Stored(s, u, dec.out, dec.seqToUnseq);
    forall i | 0 <= i < dec.nblock
      ensures dec.store[i] == ColumnOf(dec)[i]
    {
      assert s[i] == dec.seqToUnseq[dec.out[i]];
    }
  }

  /** T^(-1) in tt, for the fast form. */
  method PrepareFast(dec: ColumnDecoder, origPtr: nat) returns (src: ByteSource)
    requires dec.Valid() && origPtr < dec.nblock
    modifies dec.store
    ensures src.Valid() && src.pos == 0 && src.c == old(ColumnOf(dec)) && Links(src.c, src.link)
      && src.origPtr == origPtr
    ensures fresh(src) && src.fast != null && fresh(src.fast) && src.tiny == null && !src.small
  {
    hide ColumnDecoder.Valid, FirstRows, Counts, Rank, FastCursor.Valid;
    ColumnStored(dec);
    ghost var c := ColumnOf(dec);
    var nblock := dec.nblock;
    var ok, cftab := MakeFirstRows(dec.unzftab, nblock, c);
    ghost var link := LinkRows(dec.store, nblock, cftab, c);
    var cursor := new FastCursor(dec.store, dec.store.Length, origPtr, c, link);
    src := new ByteSource.Fast(cursor, origPtr);
  }

  /** T and its reversed cycle, for the small form. */
  method PrepareSmall(dec: ColumnDecoder, origPtr: nat) returns (src: ByteSource)
    requires dec.Valid() && origPtr < dec.nblock <= 900000
    ensures src.Valid() && src.pos == 0 && src.c == ColumnOf(dec) && Links(src.c, src.link) && src.origPtr == origPtr
    ensures fresh(src) && src.tiny != null && fresh(src.tiny) && src.fast == null && src.small
  {
    hide ColumnDecoder.Valid, FirstRows, Counts, Rank, SmallCursor.Valid, PackedVector.View, ReversedOn, Pow2;
    ColumnStored(dec);
    ghost var c := ColumnOf(dec);
    var nblock := dec.nblock;
    TwentyBits(nblock);
    var ok, cftab := MakeFirstRows(dec.unzftab, nblock, c);
    var ll := new PackedVector(dec.store.Length);
    ll.Load(dec.store, nblock, c);
    RankRows(ll, nblock, cftab, c);
    RanksArePermutation(c);
    ghost var link := LinksExist(c);
    ghost var orbit := ReverseCycle(ll, nblock, origPtr, Ranks(c));
    var cursor := new SmallCursor(ll, cftab, dec.store.Length, origPtr, c, link, orbit);
    src := new ByteSource.Small(cursor, origPtr);
  }

  lemma TwentyBits(n: nat)
    requires n <= 900000
    ensures n <= Pow2(20)
  {
    RunLimitPow();
    assert Pow2(21) == 2 * Pow2(20);
  }

  // ----- The promise of a good stream -----

  /** A step further in the run is as good. */
  lemma DecodesOn(table: Table, st: State, a: seq<bool>, st': State, a': seq<bool>, future: seq<bool>, combined: bv32,
                  blocks: seq<Block>, rest: seq<bool>)
    requires Ok(st) && Run(st, a) == (st', a') && Decodes(table, st, a + future, combined, blocks, rest)
    ensures Ok(st') && Decodes(table, st', a' + future, combined, blocks, rest)
  {
    hide Ok, Run, Yields, Whole, FinalCrc, Combine, Unpacked, NextBlock;
    RunAppend(st, a, future);
  }

  /** At a finished block the stream must hold that block. */
  lemma DecodesBlock(table: Table, st: State, bits: seq<bool>, combined: bv32, blocks: seq<Block>, rest: seq<bool>)
    requires Ok(st) && st.phase.Output? && |st.inUse| == 256 && Decodes(table, st, bits, combined, blocks, rest)
    ensures blocks != [] && Yields(st, blocks[0]) && Whole(blocks[0])
    ensures st.storedBlockCrc == FinalCrc(table, Unpacked(blocks[0])) as nat
    ensures Decodes(table, NextBlock(st), bits, Combine(combined, FinalCrc(table, Unpacked(blocks[0]))), blocks[1..],
                    rest)
  {
    hide Ok, Yields, Whole, FinalCrc, Combine, Unpacked, NextBlock, Run;
    StoppedHere(st, bits);
  }

  lemma StoppedHere(st: State, bits: seq<bool>)
    requires Ok(st) && Need(st.phase) == 0
    ensures Run(st, bits) == (st, bits)
  {
    hide Ok, Resume;
  }

  lemma YieldsOutput(st: State, b: Block)
    requires Yields(st, b)
    ensures st.phase.Output?
  {
    hide Links, Walk, Used;
  }

  /** Where the machine stops otherwise, the stream must be at its end. */
  lemma DecodesStopped(table: Table, st: State, bits: seq<bool>, combined: bv32, blocks: seq<Block>, rest: seq<bool>)
    requires Ok(st) && Need(st.phase) == 0 && !st.phase.Output? && Decodes(table, st, bits, combined, blocks, rest)
    ensures st.phase == StreamEnd && blocks == [] && st.storedCombinedCrc == combined as nat && bits == rest
  {
    hide Ok, Yields, Whole, FinalCrc, Combine, Unpacked, NextBlock, Run;
    StoppedHere(st, bits);
    if blocks != [] {
      YieldsOutput(st, blocks[0]);
      assert false;
    }
  }

  /** All bits of a good stream are enough for the next step. */
  lemma DecodesNeeds(table: Table, st: State, bits: seq<bool>, combined: bv32, blocks: seq<Block>, rest: seq<bool>)
    requires Ok(st) && Decodes(table, st, bits, combined, blocks, rest)
    ensures Need(st.phase) <= |bits|
  {
    hide Ok, Resume, Yields, Whole, FinalCrc, Combine, Unpacked, NextBlock;
    if Need(st.phase) > |bits| {
      RunNone(st, bits);
      if blocks != [] {
        YieldsOutput(st, blocks[0]);
      }
      assert false;
    }
  }

  /** s is spelt by the column of a finished block. */
  ghost predicate Spells(st: State, s: seq<Byte>) {
    && |st.inUse| == 256 && OutputOk(st)
    && var used := Used(st.inUse, 256);
       && (forall k :: 0 <= k < |st.mtf.column| ==> st.mtf.column[k] < |used|)
       && var c := Unmapped(st.mtf.column, used);
          exists link :: Links(c, link) && s == Walk(c, link, st.origPtr, |c|)
  }

  lemma SpellsBlock(st: State, s: seq<Byte>, b: Block)
    requires Spells(st, s) && Yields(st, b)
    ensures s == b
  {
    hide Links, Walk, Used;
  }

  lemma SpellsYields(st: State, s: seq<Byte>)
    requires Spells(st, s) && st.phase.Output?
    ensures Yields(st, s)
  {
    hide Rank, Walk, Used;
    var c := Unmapped(st.mtf.column, Used(st.inUse, 256));
    var link :| Links(c, link) && s == Walk(c, link, st.origPtr, |c|);
    WalkYields(st, link, s);
  }

  /** A run that ends at a finished block takes bits. */
  lemma {:induction false} RunShrinks(st: State, bits: seq<bool>)
    requires Ok(st)
    ensures |Run(st, bits).1| <= |bits|
    ensures Need(st.phase) > 0 && Need(Run(st, bits).0.phase) == 0 ==> |Run(st, bits).1| < |bits|
    decreases |bits|
  {
    hide Ok, Resume;
    var n := Need(st.phase);
    if 0 < n <= |bits| {
      NextOk(st, FromBits(bits[..n]));
      RunShrinks(Resume(st, FromBits(bits[..n])), bits[n..]);
    }
  }

  // ----- The stream -----

  class BzDecoder {
    const d: DState
    const strm: Stream
    const small: bool
    const table: Table
    var unpacker: Unpacker?
    var calculatedCombinedCRC: bv32
    ghost var done: seq<Byte>
    ghost var fed: seq<Byte>
    ghost var history: seq<Block>

    /** What the unpacker's validity depends on. */
    ghost function Behind(): set<object>
      reads this, unpacker, if unpacker != null then {unpacker.src, unpacker.src.tiny, unpacker.src.fast} else {}
    {
      if unpacker == null then {}
      else
        {unpacker, unpacker.src}
        + (if unpacker.src.fast != null then {unpacker.src.fast, unpacker.src.fast.tt} else {})
        + (if unpacker.src.tiny != null then
             {unpacker.src.tiny, unpacker.src.tiny.ll, unpacker.src.tiny.ll.ll16, unpacker.src.tiny.ll.ll4,
              unpacker.src.tiny.cftab}
           else {})
    }

    /** The part of it that moves. */
    ghost function Active(): set<object>
      reads this, unpacker, if unpacker != null then {unpacker.src} else {}
    {
      if unpacker == null then {}
      else
        {unpacker, unpacker.src} + (if unpacker.src.fast != null then {unpacker.src.fast} else {})
        + (if unpacker.src.tiny != null then {unpacker.src.tiny} else {})
    }

    /** The objects a call may change besides the decoder and its streams. */
    ghost function Touched(): set<object>
      reads this, d, d.dec, unpacker, if unpacker != null then {unpacker.src} else {}
    {
      d.Data() + Active()
    }

    ghost predicate UnpackerOk()
      reads this, Behind(), d
    {
      && (unpacker != null <==> d.st.phase.Output?)
      && (unpacker != null ==>
            unpacker.Valid() && unpacker.strm == strm && unpacker.table == table && d.dec == null
              && Spells(d.abs, unpacker.s))
    }

    ghost predicate Valid()
      reads this, d, d.Data(), d.reader, d.tables.Repr(), strm, Behind()
    {
      && d.Valid() && UnpackerOk() && (strm as object) !in d.Data() && (this as object) !in d.Data()
      && (strm as object) !in d.tables.Repr() && (this as object) !in d.tables.Repr()
      && strm.out == done + if unpacker != null then unpacker.emitted else []
    }

    /** The rest of the input, of which future has not arrived yet, holds these blocks. */
    ghost predicate Promised(blocks: seq<Block>, future: seq<bool>, rest: seq<bool>)
      requires d.Valid()
      reads this, d, d.Data(), d.reader, d.tables.Repr(), Behind()
    {
      if unpacker != null then
        && blocks != [] && unpacker.s == blocks[0] && Whole(blocks[0]) && |d.abs.inUse| == 256
        && d.abs.storedBlockCrc == FinalCrc(table, Unpacked(blocks[0])) as nat
        && Decodes(table, NextBlock(d.abs), d.reader.Pending() + future,
                   Combine(calculatedCombinedCRC, FinalCrc(table, Unpacked(blocks[0]))),
                   blocks[1..], rest)
      else Decodes(table, d.abs, d.reader.Pending() + future, calculatedCombinedCRC, blocks, rest)
    }

    /**
      What is known of the input, whatever it is: the blocks written so far stand at its
      beginning, with their checksums, and what the machine has still before it follows.
     */
    ghost predicate Sound()
      reads this`fed, this`history, this`done, this`calculatedCombinedCRC, d`abs, d.reader
    {
      && d.reader.Valid() && done == UnpackedAll(history)
      && Explains(table, BytesToBits(fed), history, d.abs, d.reader.Pending(), calculatedCombinedCRC)
      && Header(fed, history, d.abs, d.reader.Pending())
    }

    /** The block being written is not a whole block, or not the block its checksum was made for. */
    ghost predicate Bad()
      requires unpacker != null
      reads this, unpacker, unpacker.src, d
    {
      !Whole(unpacker.s) || d.abs.storedBlockCrc != FinalCrc(table, Unpacked(unpacker.s)) as nat
    }

    /** The block being written has been written to its end. */
    ghost predicate UsedUp()
      requires unpacker != null
      reads this, unpacker
    {
      unpacker.nblockUsed == unpacker.saveNblock + 1 && unpacker.stateOutLen == 0
    }

    /** Why a call has stopped, and what it answers. */
    ghost predicate Answered(ret: int)
      reads this, strm, d, d.reader, unpacker, if unpacker != null then {unpacker.src} else {}
    {
      if unpacker != null then
        if ret == BZ_DATA_ERROR then Bad() else ret == BZ_OK && strm.availOut == 0 && !UsedUp()
      else
        match d.abs.phase
        case StreamEnd =>
          ret == if d.abs.storedCombinedCrc == calculatedCombinedCRC as nat then BZ_STREAM_END else BZ_DATA_ERROR
        case DataError => ret == BZ_DATA_ERROR
        case DataErrorMagic => ret == BZ_DATA_ERROR_MAGIC
        case _ =>
          && ret == BZ_OK && d.reader.nextIn == |d.reader.input|
          && d.reader.Valid() && Need(d.abs.phase) > |d.reader.Pending()|
    }

    constructor (strm: Stream, small: bool, table: Table)
      requires strm.out == []
      ensures Valid() && this.strm == strm && this.small == small && this.table == table && fresh(d) && fresh(d.reader)
        && fresh(d.tables.Repr())
      ensures unpacker == null && done == [] && calculatedCombinedCRC == 0 && d.abs == Initial()
        && d.reader.Pending() == []
      ensures d.dec == null && Sound() && fed == [] && history == []
    {
      hide Ok, DState.TablesOk, BitReader.Valid, BitReader.Pending, Agree, Decodes, Explains, Header;
      var st := new DState();
      d := st;
      this.strm, this.small, this.table := strm, small, table;
      unpacker, calculatedCombinedCRC, done, fed, history := null, 0, [], [], [];
      new;
      d.Known();
      ExplainsStart(table, []);
      HeaderStart();
    }

    /** A block has been read: turn it back and fetch its first byte. */
    method PrepareOutput()
      requires d.Valid() && d.st.phase.Output? && d.dec != null && unpacker == null
      modifies this`unpacker, d`dec, d.Data()
      ensures d.Valid() && UnpackerOk() && unpacker != null && unpacker.emitted == [] && fresh(unpacker)
        && fresh(unpacker.src)
      ensures d.abs == old(d.abs) && d.reader.Pending() == old(d.reader.Pending())
      ensures unpacker.src.fast != null ==> fresh(unpacker.src.fast)
      ensures unpacker.src.tiny != null ==> fresh(unpacker.src.tiny)
    {
      hide Ok, ColumnDecoder.Valid, Used, DState.TablesOk, BitReader.Valid, BitReader.Pending, Links, Walk,
        Unpacker.Valid, Start, Identity;
      d.Known();
      BlockBounds(d.abs, d.st, d.dec);
      ghost var c := ColumnOf(d.dec);
      ghost var link;
      unpacker, link := MakeUnpacker(d.dec, d.sc.origPtr, small, table, strm);
      SpellsNow(d.abs, c, link, unpacker.s);
      d.dec := null;
    }

    /** The unpacker fills the room there is. */
    method Pour() returns (corrupt: bool)
      requires Valid() && unpacker != null
      modifies strm, Active()
      ensures Valid() && unpacker == old(unpacker) && Active() == old(Active()) && d.abs == old(d.abs)
      ensures d.reader.Pending() == old(d.reader.Pending())
      ensures old(strm.out) <= strm.out && strm.availOut + |strm.out| == old(strm.availOut + |strm.out|)
      ensures corrupt ==> !Whole(unpacker.s)
      ensures !corrupt ==>
        (unpacker.nblockUsed == unpacker.saveNblock + 1 && unpacker.stateOutLen == 0) || strm.availOut == 0
    {
      hide DState.Valid, Unpacker.Valid, Spells, Whole, BitReader.Pending;
      assert d.Data() == {} && (d as object) !in unpacker.Footprint() && (d.reader as object) !in unpacker.Footprint();
      if small {
        corrupt := unpacker.UnRleSmall();
      } else {
        corrupt := unpacker.UnRleFast();
      }
      assert unpacker.emitted == old(unpacker.emitted) + unpacker.emitted[|old(unpacker.emitted)|..];
    }

    /** A block is out: compare its checksum and look for the next block. */
    method FinishBlock() returns (ok: bool)
      requires Valid() && Sound() && unpacker != null && UsedUp()
      modifies this, d`sc, d`st, d`abs
      ensures Sound() && fed == old(fed)
      ensures ok == (old(d.abs.storedBlockCrc) == FinalCrc(table, Unpacked(old(unpacker.s))) as nat)
      ensures ok ==> Valid() && unpacker == null && done == old(done) + Unpacked(old(unpacker.s))
      ensures ok ==> |old(d.abs).inUse| == 256 && d.abs == NextBlock(old(d.abs))
      ensures ok ==> d.reader.Pending() == old(d.reader.Pending())
      ensures ok ==> calculatedCombinedCRC == Combine(old(calculatedCombinedCRC),
                                                      FinalCrc(table, Unpacked(old(unpacker.s))))
      ensures !ok ==> Valid() && unpacker == old(unpacker) && d.abs == old(d.abs)
    {
      hide Decodes, Explains, Header, Whole, Yields, UnpackedAll, Combine, Finalise, CrcOf, Unpacked, Ok, Used,
        DState.TablesOk, BitReader.Valid, BitReader.Pending,
        ColumnDecoder.Valid, Emitting,
        ByteSource.Valid, Links, Walk;
      unpacker.AllOut();
      d.Known();
      var crc := Finalise(unpacker.calculatedBlockCRC);
      if crc as nat != d.sc.storedBlockCrc {
        return false;
      }
      SpellsYields(d.abs, unpacker.s);
      ExplainsBlock(table, BytesToBits(fed), history, d.abs, d.reader.Pending(), calculatedCombinedCRC, unpacker.s);
      HeaderBlock(fed, history, d.abs, d.reader.Pending(), unpacker.s);
      UnpackedPush(history, unpacker.s);
      history := history + [unpacker.s];
      calculatedCombinedCRC := Combine(calculatedCombinedCRC, crc);
      done := done + unpacker.emitted;
      unpacker := null;
      d.LookForBlock();
      ok := true;
    }

    /** BZ2_decompress; a block that is complete is made ready for output. */
    method ReadOn()
      requires Valid() && Sound() && unpacker == null
      modifies this`unpacker, d, d.reader, d.Data(), d.tables.Repr()
      ensures Valid() && d.reader.input == old(d.reader.input)
      ensures Ok(old(d.abs)) && Run(old(d.abs), old(d.reader.Pending())) == (d.abs, d.reader.Pending())
      ensures unpacker == null ==>
        Need(d.abs.phase) == 0 || (d.reader.nextIn == |d.reader.input| && Need(d.abs.phase) > |d.reader.Pending()|)
      ensures unpacker != null ==> unpacker.emitted == [] && Spells(d.abs, unpacker.s)
      ensures fresh(Touched() - old(d.Data()))
      ensures strm.out == old(strm.out) && strm.availOut == old(strm.availOut) && done == old(done)
      ensures calculatedCombinedCRC == old(calculatedCombinedCRC) && Sound() && fed == old(fed)
    {
      hide Decodes, Explains, Header, UnpackedAll, Ok, Run, DState.TablesOk, BitReader.Valid, BitReader.Pending,
        ColumnDecoder.Valid, Unpacker.Valid, Spells,
        Need, DState.DataOk;
      d.Known();
      ghost var st0, bits0 := d.abs, d.reader.Pending();
      d.Decompress();
      d.Known();
      ExplainsRun(table, BytesToBits(fed), history, st0, bits0, calculatedCombinedCRC, d.abs, d.reader.Pending());
      HeaderRun(fed, history, st0, bits0, d.abs, d.reader.Pending());
      if d.sc.phase.Output? {
        PrepareOutput();
      }
    }

    /** Output as far as there is room: stop with ret, or the block is done. */
    method OutputTurn(ghost good: bool, ghost blocks: seq<Block>, ghost future: seq<bool>, ghost rest: seq<bool>)
      returns (stop: bool, ret: int, ghost left: seq<Block>)
      requires Valid() && Sound() && unpacker != null && (good ==> Promised(blocks, future, rest))
      modifies this, strm, d`sc, d`st, d`abs, Active()
      ensures Valid() && (good ==>
        Promised(left, future, rest) && done + UnpackedAll(left) == old(done) + UnpackedAll(blocks))
      ensures old(strm.out) <= strm.out && strm.availOut + |strm.out| == old(strm.availOut + |strm.out|)
      ensures d.reader.Pending() == old(d.reader.Pending()) && d.Data() == old(d.Data())
      ensures !stop ==> unpacker == null && Need(d.abs.phase) > 0
      ensures Touched() <= old(Touched()) && (stop ==> unpacker != null)
      ensures stop && ret != BZ_DATA_ERROR ==> ret == BZ_OK && strm.availOut == 0
      ensures stop && good ==> ret == BZ_OK
      ensures Sound() && fed == old(fed) && (stop ==> Answered(ret))
    {
      hide Sound, Valid, UnpackedAll, DState.Valid, UnpackerOk, Spells, Whole, Decodes, FinalCrc, Combine, Unpacked,
        BitReader.Pending, Need;
      left := blocks;
      var corrupt := Pour();
      if corrupt {
        return true, BZ_DATA_ERROR, left;
      }
      if unpacker.nblockUsed == unpacker.saveNblock + 1 && unpacker.stateOutLen == 0 {
        var ok := FinishBlock();
        if !ok {
          return true, BZ_DATA_ERROR, left;
        }
        if good {
          left := blocks[1..];
          UnpackedFirst(blocks);
          assert old(done) + (Unpacked(blocks[0]) + UnpackedAll(left)) == old(done) + Unpacked(blocks[0])
            + UnpackedAll(left);
        }
        NeedNext(d.abs);
        return false, BZ_OK, left;
      }
      return true, BZ_OK, left;
    }

    /** Input as far as it goes: stop with ret, or a block is ready. */
    method InputTurn(ghost good: bool, ghost blocks: seq<Block>, ghost future: seq<bool>, ghost rest: seq<bool>)
      returns (stop: bool, ret: int)
      requires Valid() && Sound() && unpacker == null
      requires good ==> Promised(blocks, future, rest) && Need(d.abs.phase) > 0
      modifies this`unpacker, d, d.reader, d.Data(), d.tables.Repr()
      ensures Valid() && (good ==> Promised(blocks, future, rest)) && d.reader.input == old(d.reader.input)
      ensures fresh(Touched() - old(d.Data())) && (!stop <==> unpacker != null)
      ensures strm.out == old(strm.out) && strm.availOut == old(strm.availOut) && done == old(done)
      ensures !stop ==> |d.reader.Pending()| < |old(d.reader.Pending())|
      ensures stop && ret == BZ_OK ==> d.reader.nextIn == |d.reader.input|
      ensures stop && ret == BZ_STREAM_END ==>
        d.st.phase.StreamEnd? && (good ==> blocks == [] && d.reader.Pending() + future == rest)
      ensures stop && good ==> ret == BZ_OK || ret == BZ_STREAM_END
      ensures stop && good && future == [] ==> ret == BZ_STREAM_END
      ensures stop ==> ret != BZ_SEQUENCE_ERROR
      ensures Sound() && fed == old(fed) && (stop ==> Answered(ret))
    {
      hide Sound, Ok, Run, Decodes, Yields, Spells, Whole, FinalCrc, Combine, Unpacked, BitReader.Pending,
        BitReader.Valid,
        DState.Valid, Need,
        Unpacker.Valid, NextBlock;
      d.Known();
      ghost var st0, bits0 := d.abs, d.reader.Pending();
      NeedNothing(st0);
      if Need(st0.phase) == 0 {
        StoppedHere(st0, bits0);
      }
      ReadOn();
      d.Known();
      RunShrinks(st0, bits0);
      ghost var bits := d.reader.Pending() + future;
      NeedNothing(d.abs);
      if good {
        DecodesOn(table, st0, bits0, d.abs, d.reader.Pending(), future, calculatedCombinedCRC, blocks, rest);
      }
      if unpacker != null {
        if good {
          DecodesBlock(table, d.abs, bits, calculatedCombinedCRC, blocks, rest);
          SpellsBlock(d.abs, unpacker.s, blocks[0]);
        }
        return false, BZ_OK;
      }
      stop, ret := true, BZ_OK;
      if good && future == [] {
        assert bits == d.reader.Pending();
        DecodesNeeds(table, d.abs, bits, calculatedCombinedCRC, blocks, rest);
      }
      if good && Need(d.abs.phase) == 0 {
        DecodesStopped(table, d.abs, bits, calculatedCombinedCRC, blocks, rest);
      }
      match d.sc.phase
      case StreamEnd =>
        ret := if calculatedCombinedCRC as nat != d.sc.storedCombinedCrc then BZ_DATA_ERROR else BZ_STREAM_END;
      case DataError => ret := BZ_DATA_ERROR;
      case DataErrorMagic => ret := BZ_DATA_ERROR_MAGIC;
      case _ =>
    }

    /** The caller offers more input: some of what was still to come has arrived. */
    method Feed(more: seq<Byte>, ghost good: bool, ghost blocks: seq<Block>, ghost future: seq<bool>,
                ghost rest: seq<bool>)
      requires Valid() && Sound() && (good ==> Promised(blocks, BytesToBits(more) + future, rest))
      modifies d.reader, this`fed
      ensures Sound() && fed == old(fed) + more && history == old(history)
      ensures Valid() && (good ==> Promised(blocks, future, rest))
      ensures done == old(done) && strm.out == old(strm.out) && d.abs == old(d.abs)
      ensures d.reader.Pending() == old(d.reader.Pending()) + BytesToBits(more)
    {
      hide Explains, Header, UnpackedAll, Ok, Decodes, Spells, Unpacker.Valid, DState.TablesOk, ColumnDecoder.Valid,
        BitReader.Valid,
        BitReader.Pending, BytesToBits, Used, Whole,
        FinalCrc, Combine, Unpacked, NextBlock, Start, Identity;
      ghost var bits := d.reader.Pending();
      d.reader.Supply(more);
      BytesToBitsAppend(fed, more);
      ExplainsFed(table, BytesToBits(fed), history, d.abs, bits, calculatedCombinedCRC, BytesToBits(more));
      HeaderFed(fed, history, d.abs, bits, more);
      fed := fed + more;
      assert bits + (BytesToBits(more) + future) == bits + BytesToBits(more) + future;
    }

    /** The output only grows, by as much as the room shrinks. */
    twostate predicate Grown()
      reads strm
    {
      old(strm.out) <= strm.out && strm.availOut + |strm.out| == old(strm.availOut + |strm.out|)
    }

    /** One turn of the loop in BZ2_bzDecompress. */
    method Turn(ghost good: bool, ghost blocks: seq<Block>, ghost future: seq<bool>, ghost rest: seq<bool>,
                ghost before: set<object>)
      returns (stop: bool, ret: int, ghost left: seq<Block>)
      requires Valid() && Sound() && (good ==> Promised(blocks, future, rest)) && !d.st.phase.StreamEnd?
      requires before == Touched()
      modifies this, strm, d, d.reader, d.tables.Repr(), before
      ensures Valid() && Grown() && fresh(Touched() - before)
      ensures good ==> Promised(left, future, rest) && done + UnpackedAll(left) == old(done) + UnpackedAll(blocks)
      ensures !stop ==> |d.reader.Pending()| < |old(d.reader.Pending())| && !d.st.phase.StreamEnd?
      ensures stop ==> ret != BZ_SEQUENCE_ERROR && (good ==> ret == BZ_OK || ret == BZ_STREAM_END)
      ensures stop && ret == BZ_OK ==>
        (unpacker != null && strm.availOut == 0) || (unpacker == null && d.reader.nextIn == |d.reader.input|)
      ensures stop && ret == BZ_OK && good && future == [] ==> unpacker != null && strm.availOut == 0
      ensures stop && ret == BZ_STREAM_END ==>
        unpacker == null && (good ==> left == [] && d.reader.Pending() + future == rest)
      ensures Sound() && fed == old(fed) && (stop ==> Answered(ret))
    {
      hide Sound, Answered, DState.Valid, Valid, Decodes, Promised, Need, BitReader.Pending, BitReader.Valid,
        UnpackedAll, DState.Data,
        Active;
      left := blocks;
      OutIs();
      if unpacker != null {
        stop, ret, left := OutputTurn(good, left, future, rest);
        if stop {
          return;
        }
      } else if good {
        GoodNotStopped(left, future, rest);
      }
      OutIs();
      ghost var data := d.Data();
      label L:
      stop, ret := InputTurn(good, left, future, rest);
      forall o: object | o in Touched() && o !in before
        ensures fresh(o)
      {
        assert o in Touched() - data;
        assert fresh@L(o);
      }
      OutIs();
      OutputIffUnpacker();
    }

    /**
      BZ2_bzDecompress, on any input.  The end of the stream is reported only if the input
      is a stream and exactly its plain text has been written; each error has its reason.
      If the input so far and the input to come are a good stream, no error is reported,
      and nothing is lost or repeated between calls.
     */
    method Decompress(ghost good: bool, ghost blocks: seq<Block>, ghost future: seq<bool>, ghost rest: seq<bool>)
      returns (ret: int, ghost left: seq<Block>)
      requires Valid() && Sound() && (good ==> Promised(blocks, future, rest))
      modifies this, strm, d, d.reader, d.tables.Repr(), Touched()
      ensures Valid() && Grown()
      ensures good ==> Promised(left, future, rest) && done + UnpackedAll(left) == old(done) + UnpackedAll(blocks)
      ensures ret == BZ_SEQUENCE_ERROR <==> old(d.st.phase.StreamEnd?)
      ensures good ==> ret == BZ_OK || ret == BZ_STREAM_END || ret == BZ_SEQUENCE_ERROR
      ensures ret == BZ_OK ==>
        (unpacker != null && strm.availOut == 0) || (unpacker == null && d.reader.nextIn == |d.reader.input|)
      ensures good && future == [] && ret == BZ_OK ==> unpacker != null && strm.availOut == 0
      ensures ret == BZ_STREAM_END ==> unpacker == null && strm.out == done
      ensures good && ret == BZ_STREAM_END ==> left == [] && d.reader.Pending() + future == rest
      ensures Sound() && fed == old(fed) && (ret != BZ_SEQUENCE_ERROR ==> Answered(ret))
      ensures ret == BZ_STREAM_END ==>
        && strm.out == UnpackedAll(history) && d.reader.Valid() && Ok(Initial())
        && Decodes(table, Initial(), BytesToBits(fed), 0, history, d.reader.Pending())
      ensures ret != BZ_SEQUENCE_ERROR ==> (ret == BZ_DATA_ERROR_MAGIC <==> WrongMagic(fed))
    {
      hide Sound, Answered, Decodes, Valid, DState.Valid, Promised, BitReader.Pending, BitReader.Valid, UnpackedAll,
        Touched;
      left := blocks;
      OutIs();
      if d.sc.phase.StreamEnd? {
        return BZ_SEQUENCE_ERROR, left;
      }
      while true
        invariant Valid() && Grown() && !d.st.phase.StreamEnd? && d.reader.Valid() && d.Valid()
        invariant good ==> Promised(left, future, rest) && done + UnpackedAll(left) == old(done) + UnpackedAll(blocks)
        invariant fresh(Touched() - old(Touched())) && Sound() && fed == old(fed)
        decreases |d.reader.Pending()|
      {
        var stop;
        ghost var before := Touched();
        label L:
        stop, ret, left := Turn(good, left, future, rest, before);
        forall o: object | o in Touched() && o !in old(Touched())
          ensures fresh(o)
        {
          assert o in before - old(Touched()) || (o in Touched() - before && fresh@L(o));
        }
        OutIs();
        if stop {
          break;
        }
      }
      if ret == BZ_STREAM_END {
        EndOfStream(ret);
      }
      MagicAnswered(ret);
    }

    /** The end of the stream is the end of a stream. */
    lemma EndOfStream(ret: int)
      requires Valid() && Sound() && Answered(ret) && ret == BZ_STREAM_END
      ensures unpacker == null && strm.out == UnpackedAll(history) && d.reader.Valid() && Ok(Initial())
      ensures Decodes(table, Initial(), BytesToBits(fed), 0, history, d.reader.Pending())
    {
      hide Decodes, Explains, Header, UnpackedAll, DState.Valid, UnpackerOk, BitReader.Pending, BitReader.Valid, Ok;
      OutIs();
      ExplainsEnd(table, BytesToBits(fed), history, d.abs, d.reader.Pending(), calculatedCombinedCRC);
    }

    lemma MagicAnswered(ret: int)
      requires Valid() && Sound() && Answered(ret)
      ensures ret == BZ_DATA_ERROR_MAGIC <==> WrongMagic(fed)
    {
      hide Decodes, Explains, UnpackedAll, DState.Valid, BitReader.Pending, BitReader.Valid, Ok, Run, WrongMagic, Need;
      d.Known();
      NeedNothing(d.abs);
      HeaderStopped(fed, history, d.abs, d.reader.Pending());
    }


    lemma OutIs()
      requires Valid()
      ensures unpacker == null ==> strm.out == done
      ensures d.Valid() && d.reader.Valid() && d.sc.phase == d.st.phase
    {
      hide UnpackerOk;
      d.Known();
    }

    lemma OutputIffUnpacker()
      requires Valid()
      ensures unpacker != null <==> d.st.phase.Output?
    {
    }

    lemma GoodNotStopped(blocks: seq<Block>, future: seq<bool>, rest: seq<bool>)
      requires Valid() && unpacker == null && !d.st.phase.StreamEnd? && Promised(blocks, future, rest)
      ensures Need(d.abs.phase) > 0
    {
      hide Decodes, Ok, DState.Valid;
      d.Known();
      if Need(d.abs.phase) == 0 {
        DecodesStopped(table, d.abs, d.reader.Pending() + future, calculatedCombinedCRC, blocks, rest);
      }
    }
  }

  lemma NeedNothing(st: State)
    requires Ok(st)
    ensures Need(st.phase) == 0 <==>
      st.phase.Output? || st.phase.StreamEnd? || st.phase.DataError? || st.phase.DataErrorMagic?
  {
  }

  lemma UnpackedFirst(blocks: seq<Block>)
    requires blocks != []
    ensures UnpackedAll(blocks) == Unpacked(blocks[0]) + UnpackedAll(blocks[1..])
  {
  }

  lemma NeedNext(st: State)
    ensures st.phase == BlockHeader(0) ==> Need(st.phase) > 0
  {
  }

  /** T and its inverse, then the first byte. */
  method MakeUnpacker(dec: ColumnDecoder, origPtr: nat, small: bool, table: Table, strm: Stream)
    returns (u: Unpacker, ghost link: seq<nat>)
    requires dec.Valid() && origPtr < dec.nblock <= 900000 && |ColumnOf(dec)| == dec.nblock
    modifies dec.store
    ensures u.Valid() && u.strm == strm && u.table == table && u.emitted == [] && fresh(u) && fresh(u.src)
    ensures (u.src.fast != null ==> fresh(u.src.fast)) && (u.src.tiny != null ==> fresh(u.src.tiny))
    ensures Links(old(ColumnOf(dec)), link) && u.s == Walk(old(ColumnOf(dec)), link, origPtr, |old(ColumnOf(dec))|)
  {
    hide ColumnDecoder.Valid, ColumnOf, Rank, Walk, ByteSource.Valid, Unpacker.Valid;
    var nblock := dec.nblock;
    var src;
    if small {
      src := PrepareSmall(dec, origPtr);
    } else {
      src := PrepareFast(dec, origPtr);
    }
    SourceLaid(src, nblock);
    link := src.link;
    u := new Unpacker(table, strm, src, nblock);
  }

  lemma BlockBounds(abs: State, st: State, dec: ColumnDecoder)
    requires Ok(abs) && Agree(abs, st) && st.phase.Output? && st.blockSize100k <= 9
    requires dec.Valid() && |st.inUse| == 256 && dec.seqToUnseq == Used(st.inUse, 256) && dec.nblockMAX == MaxBlock(st)
    requires abs.mtf == Finished(dec.out)
    ensures st.origPtr < dec.nblock <= 900000 && |ColumnOf(dec)| == dec.nblock && OutputOk(abs) && |abs.inUse| == 256
    ensures ColumnOf(dec) == Unmapped(dec.out, Used(st.inUse, 256))
    ensures forall k :: 0 <= k < |dec.out| ==> dec.out[k] < |Used(st.inUse, 256)|
    ensures abs.inUse == st.inUse && abs.origPtr == st.origPtr
  {
    hide Used, Counts;
    ColumnStored(dec);
  }

  lemma SourceLaid(src: ByteSource, nblock: nat)
    requires src.Valid()
    ensures |src.link| == |src.c| && src.origPtr < |src.c| && (forall i :: 0 <= i < |src.link| ==>
      src.link[i] < |src.link|)
    ensures src.Spelt() == Walk(src.c, src.link, src.origPtr, |src.c|)
  {
  }

  lemma SpellsNow(abs: State, c: seq<Byte>, link: seq<nat>, s: seq<Byte>)
    requires |abs.inUse| == 256 && OutputOk(abs) && Links(c, link)
    requires forall k :: 0 <= k < |abs.mtf.column| ==> abs.mtf.column[k] < |Used(abs.inUse, 256)|
    requires c == Unmapped(abs.mtf.column, Used(abs.inUse, 256)) && s == Walk(c, link, abs.origPtr, |c|)
    ensures Spells(abs, s)
  {
    hide Used, Walk, Rank;
  }
}
