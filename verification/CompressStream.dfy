/** The compression stream: BZ2_bzCompress, handle_compress and the copying of input and output. */
module CompressStream {

  import opened Rotations
  import opened Bits
  import opened BitStream
  import opened Checksum
  import opened MoveToFront
  import opened RunLength
  import opened BlockBuffer
  import opened HeaderFormat
  import opened BlockRoundTrip
  import opened BlockCompressor
  import opened StreamFormat
  import opened Capacity
  import DecodeMachine
  import QuickSort

  /** The caller's side of bz_stream.  out is everything ever stored at next_out, taken everything ever read. */
  class Stream {
    var nextIn: seq<Byte>
    var availOut: nat
    var out: seq<Byte>
    ghost var taken: seq<Byte>

    constructor ()
      ensures nextIn == [] && availOut == 0 && out == [] && taken == []
    {
      nextIn, availOut, out, taken := [], 0, [], [];
    }
  }

  datatype Mode = Idle | Running | Flushing | Finishing
  datatype Side = Input | Output

  const BZ_RUN: int := 0
  const BZ_FLUSH: int := 1
  const BZ_FINISH: int := 2

  const BZ_RUN_OK: int := 1
  const BZ_FLUSH_OK: int := 2
  const BZ_FINISH_OK: int := 3
  const BZ_STREAM_END: int := 4
  const BZ_SEQUENCE_ERROR: int := -1
  const BZ_PARAM_ERROR: int := -2

  /**
    The bytes handed over in finished rounds (given), those of the present round (zbits)
    and the bits still in the bit buffer are the stream of these parts.
   */
  ghost predicate Sent(table: Table, size: nat, parts: seq<Part>, given: seq<Byte>, zbits: seq<Byte>, bits: seq<bool>,
                       started: bool, ended: bool) {
    && 1 <= size <= 9 && PartsOk(table, parts, 100000 * size) && (!started ==> parts == [])
    && if ended then StreamOf(table, size, parts, given + zbits)
       else BytesToBits(given) + bits == (if started then HeaderBits(size) else []) + PartsBits(parts)
  }

  /** These bytes are the complete stream of the parts, filled up with zero bits. */
  ghost predicate StreamOf(table: Table, size: nat, parts: seq<Part>, bytes: seq<Byte>) {
    && 1 <= size <= 9 && PartsOk(table, parts, 100000 * size)
    && exists pad :: 0 <= pad < 8 && BytesToBits(bytes) == StreamBits(table, size, parts) + ToBits(0, pad)
  }

  lemma SentStart(table: Table, size: nat)
    requires 1 <= size <= 9
    ensures Sent(table, size, [], [], [], [], false, false) && Combined(table, [], 0) == 0 && PlainParts([]) == []
  {
  }

  lemma SentHeader(table: Table, size: nat, parts: seq<Part>, given: seq<Byte>, zbits: seq<Byte>, bits: seq<bool>)
    requires Sent(table, size, parts, given, [], bits, false, false)
    ensures Sent(table, size, parts, given, zbits, bits + HeaderBits(size), true, false)
  {
    hide HeaderBits, RecordOk;
    assert PartsBits([]) == [];
    assert BytesToBits(given) + bits == [];
  }

  lemma SentPart(table: Table, size: nat, parts: seq<Part>, given: seq<Byte>, zbits: seq<Byte>, zbits': seq<Byte>,
                 bits: seq<bool>, part: Part)
    requires Sent(table, size, parts, given, zbits, bits, true, false) && PartOk(table, part, 100000 * size)
    ensures Sent(table, size, parts + [part], given, zbits', bits + RecordBits(part.rec), true, false)
  {
    hide HeaderBits, RecordBits, RecordOk, Cut, PartsBits, BytesToBits, FinalCrc;
    PartsBitsPush(parts, part);
    var all := parts + [part];
    assert PartsOk(table, all, 100000 * size);
    var r := RecordBits(part.rec);
    assert BytesToBits(given) + (bits + r) == BytesToBits(given) + bits + r;
    assert HeaderBits(size) + PartsBits(all) == HeaderBits(size) + PartsBits(parts) + r;
  }

  lemma SentEnd(table: Table, size: nat, parts: seq<Part>, given: seq<Byte>, zbits: seq<Byte>, zbits': seq<Byte>,
                bits: seq<bool>, pad: nat)
    requires Sent(table, size, parts, given, zbits, bits, true, false) && pad < 8
    requires BytesToBits(zbits') == bits + TrailerBits(Combined(table, parts, 0) as nat) + ToBits(0, pad)
    ensures Sent(table, size, parts, given, zbits', [], true, true)
  {
    hide HeaderBits, RecordOk, PartsBits, TrailerBits, BytesToBits, ToBits, Combined;
    BytesToBitsAppend(given, zbits');
    assert BytesToBits(given + zbits') == StreamBits(table, size, parts) + ToBits(0, pad);
  }

  /** A round is over: its bytes are all given away. */
  lemma SentRound(table: Table, size: nat, parts: seq<Part>, given: seq<Byte>, zbits: seq<Byte>, bits: seq<bool>,
                  bits': seq<bool>)
    requires Sent(table, size, parts, given, zbits, bits, true, false) && bits == BytesToBits(zbits) + bits'
    ensures Sent(table, size, parts, given + zbits, [], bits', true, false)
  {
    hide HeaderBits, RecordOk, PartsBits, BytesToBits;
    BytesToBitsAppend(given, zbits);
    assert BytesToBits(given) + bits == BytesToBits(given + zbits) + bits';
  }

  /** The stream header. */
  method PutHeader(w: BitWriter, blockSize100k: nat)
    requires w.Valid() && 1 <= blockSize100k <= 9
    modifies w
    ensures w.Valid() && w.Written() == old(w.Written()) + HeaderBits(blockSize100k) && old(w.zbits) <= w.zbits
  {
    hide BitWriter.Valid, BitWriter.Written, BytesToBits, ToBits;
    PutMagic(w, DecodeMachine.HDR);
    PutUChar(w, 0x30 + blockSize100k);
  }

  /** The stream trailer, and the last byte filled up. */
  method PutTrailer(w: BitWriter, combinedCRC: nat) returns (ghost pad: nat)
    requires w.Valid()
    modifies w
    ensures pad < 8 && BytesToBits(w.zbits) == old(w.Written()) + TrailerBits(combinedCRC) + ToBits(0, pad)
    ensures old(w.zbits) <= w.zbits
  {
    hide BitWriter.Valid, BitWriter.Written, BytesToBits, ToBits;
    PutMagic(w, DecodeMachine.END_MAGIC);
    PutUInt32(w, combinedCRC);
    pad := w.FinishWrite();
  }

  class Compressor {
    const strm: Stream
    const buf: Buffer
    const w: BitWriter
    const blockSize100k: nat
    const nblockMAX: int
    const workFactor: nat

    var mode: Mode
    var state: Side
    var availInExpect: nat
    var stateOutPos: nat
    var blockNo: nat
    var combinedCRC: bv32

    ghost var parts: seq<Part>
    ghost var given: seq<Byte>
    ghost var ended: bool

    /** The bits that are not in given. */
    ghost function Unsent(): (bits: seq<bool>)
      reads this, w
    {
      if !ended && w.Valid() then w.Written() else []
    }

    ghost predicate Shape()
      reads this, buf, w
    {
      && 1 <= blockSize100k <= 9 && nblockMAX == 100000 * blockSize100k - 19
      && blockNo >= 1 && buf.inUse.Length == 256 && PendingOk(buf.stateInCh, buf.stateInLen)
      && (!ended ==> w.Valid())
    }

    /** What is sent, and how far it is copied out. */
    ghost predicate OutputOk()
      reads this, w, strm
    {
      && Sent(buf.table, blockSize100k, parts, given, w.zbits, Unsent(), blockNo > 1 || state == Output, ended)
      && combinedCRC == Combined(buf.table, parts, 0)
      && stateOutPos <= |w.zbits| && strm.out == given + w.zbits[..stateOutPos]
    }

    /** Every byte taken is in a finished part, in the open block or in the pending run. */
    ghost predicate Conserved()
      reads this, strm, buf
      requires PendingOk(buf.stateInCh, buf.stateInLen)
    {
      strm.taken == PlainParts(parts) + if state == Input then buf.Taken() else Pending(buf.stateInCh, buf.stateInLen)
    }

    ghost predicate Phases()
      reads this, w, buf
    {
      && (state == Input ==> !ended && w.zbits == [] && stateOutPos == 0 && |buf.block| <= nblockMAX + 4)
      && (state == Output && !ended && buf.stateInCh == 256 ==> mode == Flushing && availInExpect == 0)
      && (ended ==>
            state == Output && (mode == Finishing || mode == Idle) && availInExpect == 0 && buf.stateInCh == 256)
      && (mode == Idle ==> ended && stateOutPos == |w.zbits|)
    }

    ghost predicate Valid()
      reads this, strm, buf, buf.inUse, w
    {
      && Shape() && OutputOk() && Conserved() && Phases()
      && (state == Input ==> buf.Valid())
    }

    /** BZ2_bzCompressInit, with a fresh stream. */
    constructor (strm: Stream, blockSize100k: nat, workFactor: nat, table: Table)
      requires 1 <= blockSize100k <= 9 && workFactor <= 250 && strm.out == [] && strm.taken == []
      ensures Valid() && mode == Running && this.strm == strm && this.blockSize100k == blockSize100k
        && buf.table == table
      ensures fresh(buf) && fresh(buf.inUse) && fresh(w)
    {
      hide Sent, Combined, PlainParts, Collects, BitWriter.Written, BytesToBits, Plain;
      this.strm, this.blockSize100k, this.nblockMAX := strm, blockSize100k, 100000 * blockSize100k - 19;
      this.workFactor := if workFactor == 0 then 30 else workFactor;
      var b := new Buffer(table);
      buf := b;
      w := new BitWriter();
      mode, state, availInExpect, stateOutPos, blockNo, combinedCRC := Running, Input, 0, 0, 1, 0;
      parts, given, ended := [], [], false;
      new;
      SentStart(table, blockSize100k);
      NothingPending();
    }

    /** copy_input_until_stop */
    method CopyInputUntilStop() returns (progressIn: bool)
      requires buf.Valid() && |buf.block| <= nblockMAX + 4
      modifies strm`nextIn, strm`taken, buf, buf.inUse, this`availInExpect
      ensures buf.Valid() && |buf.block| <= nblockMAX + 4
      ensures |strm.nextIn| <= old(|strm.nextIn|) && progressIn == (|strm.nextIn| < old(|strm.nextIn|))
      ensures var n := old(|strm.nextIn|) - |strm.nextIn|;
              && strm.nextIn == old(strm.nextIn)[n..]
              && strm.taken == old(strm.taken) + old(strm.nextIn)[..n]
              && buf.Taken() == old(buf.Taken()) + old(strm.nextIn)[..n]
              && (if mode == Running then availInExpect == old(availInExpect)
                 else n <= old(availInExpect) && availInExpect == old(availInExpect) - n)
      ensures |buf.block| >= nblockMAX || strm.nextIn == [] || (mode != Running && availInExpect == 0)
      ensures |buf.block| > old(|buf.block|) ==> progressIn
    {
      hide Buffer.Taken, Collects;
      ghost var input, n := strm.nextIn, 0;
      progressIn := false;
      while |buf.block| < nblockMAX && strm.nextIn != [] && (mode == Running || availInExpect != 0)
        invariant buf.Valid() && |buf.block| <= nblockMAX + 4
        invariant 0 <= n <= |input| && strm.nextIn == input[n..] && progressIn == (n > 0)
        invariant strm.taken == old(strm.taken) + input[..n] && buf.Taken() == old(buf.Taken()) + input[..n]
        invariant if mode == Running then availInExpect == old(availInExpect)
          else n <= old(availInExpect) && availInExpect == old(availInExpect) - n
        invariant |buf.block| > old(|buf.block|) ==> n > 0
        decreases |strm.nextIn|
      {
        progressIn := true;
        var c := strm.nextIn[0];
        buf.AddChar(c);
        strm.taken := strm.taken + [c];
        strm.nextIn := strm.nextIn[1..];
        if mode != Running {
          availInExpect := availInExpect - 1;
        }
        assert input[..n + 1] == input[..n] + [c];
        n := n + 1;
      }
    }

    /** copy_output_until_stop */
    method CopyOutputUntilStop() returns (progressOut: bool)
      requires stateOutPos <= |w.zbits| && strm.out == given + w.zbits[..stateOutPos]
      modifies strm`out, strm`availOut, this`stateOutPos
      ensures old(stateOutPos) <= stateOutPos <= |w.zbits| && strm.out == given + w.zbits[..stateOutPos]
      ensures old(strm.out) <= strm.out && strm.availOut + |strm.out| == old(strm.availOut) + old(|strm.out|)
      ensures strm.availOut == 0 || stateOutPos == |w.zbits|
      ensures progressOut == (stateOutPos > old(stateOutPos))
    {
      progressOut := false;
      while strm.availOut != 0 && stateOutPos < |w.zbits|
        invariant old(stateOutPos) <= stateOutPos <= |w.zbits| && strm.out == given + w.zbits[..stateOutPos]
        invariant old(strm.out) <= strm.out && strm.availOut + |strm.out| == old(strm.availOut) + old(|strm.out|)
        invariant progressOut == (stateOutPos > old(stateOutPos))
      {
        progressOut := true;
        assert w.zbits[..stateOutPos + 1] == w.zbits[..stateOutPos] + [w.zbits[stateOutPos]];
        strm.out := strm.out + [w.zbits[stateOutPos]];
        stateOutPos := stateOutPos + 1;
        strm.availOut := strm.availOut - 1;
      }
    }

    /** The open block becomes a part. */
    method WriteCollected()
      requires 1 <= blockSize100k <= 9 && w.Valid() && buf.inUse.Length == 256
      requires Sent(buf.table, blockSize100k, parts, given, w.zbits, w.Written(), true, false)
      requires Cut(buf.runs) && buf.block == PackedAll(buf.runs) && 0 < |buf.block| <= 100000 * blockSize100k
      requires forall i :: 0 <= i < |buf.block| ==> buf.inUse[buf.block[i]]
      requires buf.blockCRC == FinalCrc(buf.table, Plain(buf.runs))
      requires combinedCRC == Combine(Combined(buf.table, parts, 0), buf.blockCRC)
      modifies this`parts, w
      ensures w.Valid() && Sent(buf.table, blockSize100k, parts, given, w.zbits, w.Written(), true, false)
      ensures combinedCRC == Combined(buf.table, parts, 0)
      ensures PlainParts(parts) == old(PlainParts(parts)) + Plain(buf.runs)
      ensures OnePart(old(parts), parts, buf.block)
      ensures |w.Written()| + 32 + 32 + 80 + 7 <= old(|w.Written()|) + 8 * Room(blockSize100k, |buf.block|)
    {
      hide *;
      MaxSize();
      WordFits(buf.blockCRC);
      ghost var bits, z := w.Written(), w.zbits;
      ghost var rec := WriteBlock(w, buf.block, buf.inUse, buf.blockCRC as nat, workFactor);
      ghost var part := Part(buf.runs, rec);
      PartMade(buf.table, buf.block, buf.runs, part, 100000 * blockSize100k);
      RecordFits(rec, blockSize100k);
      SentPart(buf.table, blockSize100k, parts, given, z, w.zbits, bits, part);
      CombinedPush(buf.table, parts, part, 0);
      PlainPush(parts, part);
      OnePartMore(parts, part);
      parts := parts + [part];
    }

    /** The stream header goes before the first block. */
    method WriteHeader()
      requires 1 <= blockSize100k <= 9 && w.Valid() && w.zbits == []
      requires Sent(buf.table, blockSize100k, parts, given, [], w.Written(), blockNo > 1, false) && blockNo >= 1
      modifies w
      ensures w.Valid() && Sent(buf.table, blockSize100k, parts, given, w.zbits, w.Written(), true, false)
      ensures |w.Written()| <= old(|w.Written()|) + 32
    {
      hide *;
      HeaderLength(blockSize100k);
      if blockNo == 1 {
        SentHeader(buf.table, blockSize100k, parts, given, w.zbits, w.Written());
        PutHeader(w, blockSize100k);
        SentZbits(buf.table, blockSize100k, parts, given, w.Written(), [], w.zbits);
      }
    }

    /** The block, if there is any. */
    method WriteOpenBlock()
      requires 1 <= blockSize100k <= 9 && w.Valid() && buf.inUse.Length == 256
      requires Sent(buf.table, blockSize100k, parts, given, w.zbits, w.Written(), true, false)
      requires combinedCRC == Combined(buf.table, parts, 0)
      requires Collects(buf.block, buf.runs, buf.inUse[..], buf.blockCRC, buf.table)
        && |buf.block| <= 100000 * blockSize100k
      modifies this`combinedCRC, this`parts, w, buf`blockCRC
      ensures w.Valid() && Sent(buf.table, blockSize100k, parts, given, w.zbits, w.Written(), true, false)
      ensures combinedCRC == Combined(buf.table, parts, 0)
      ensures PlainParts(parts) == old(PlainParts(parts)) + Plain(buf.runs)
      ensures OnePart(old(parts), parts, buf.block)
      ensures |w.Written()| + 32 + 32 + 80 + 7 <= old(|w.Written()|) + 8 * Room(blockSize100k, |buf.block|)
    {
      hide *;
      RoomForNothing(blockSize100k, |buf.block|);
      ghost var plain := PlainParts(parts);
      EmptyBlock(buf.block, buf.runs, buf.inUse[..], buf.blockCRC, buf.table);
      CollectsFinal(buf.block, buf.runs, buf.inUse[..], buf.blockCRC, buf.table);
      if |buf.block| > 0 {
        buf.blockCRC := Finalise(buf.blockCRC);
        combinedCRC := Combine(combinedCRC, buf.blockCRC);
        WriteCollected();
      } else {
        assert plain + [] == plain;
        NoPart(parts);
        assert buf.block == [];
      }
    }

    /** BZ2_compressBlock: header, block and trailer as they are due. */
    method CompressBlock(isLast: bool)
      requires 1 <= blockSize100k <= 9 && blockNo >= 1 && w.Valid() && w.zbits == [] && !ended
        && buf.inUse.Length == 256
      requires Sent(buf.table, blockSize100k, parts, given, [], w.Written(), blockNo > 1, false)
      requires combinedCRC == Combined(buf.table, parts, 0)
      requires Collects(buf.block, buf.runs, buf.inUse[..], buf.blockCRC, buf.table)
        && |buf.block| <= 100000 * blockSize100k
      modifies this`combinedCRC, this`parts, this`ended, w, buf`blockCRC
      ensures ended == isLast && (!ended ==> w.Valid())
      ensures Sent(buf.table, blockSize100k, parts, given, w.zbits, Unsent(), true, ended)
      ensures combinedCRC == Combined(buf.table, parts, 0)
      ensures PlainParts(parts) == old(PlainParts(parts)) + Plain(buf.runs)
      ensures OnePart(old(parts), parts, buf.block)
      ensures |w.zbits| <= Room(blockSize100k, |buf.block|)
    {
      hide *;
      LiveBits(w);
      WriteHeader();
      WriteOpenBlock();
      LiveBits(w);
      UnsentIs();
      if isLast {
        TrailerLength(combinedCRC as nat);
        ghost var bits, z := w.Written(), w.zbits;
        ghost var pad := PutTrailer(w, combinedCRC as nat);
        SentEnd(buf.table, blockSize100k, parts, given, z, w.zbits, bits, pad);
        ended := true;
        UnsentNone();
      }
    }

    /** prepare_new_block, once everything of the last block is out. */
    method PrepareNewBlock()
      requires Valid() && state == Output && !ended && stateOutPos == |w.zbits|
      modifies this, w, buf, buf.inUse
      ensures Valid() && state == Input && buf.block == [] && blockNo > 1
      ensures mode == old(mode) && availInExpect == old(availInExpect) && buf.stateInCh == old(buf.stateInCh)
        && parts == old(parts)
    {
      hide Sent, Combined, PlainParts, BitWriter.Valid, BitWriter.Written, Buffer.Valid, Buffer.Taken, BytesToBits,
        Pending;
      assert w.zbits[..stateOutPos] == w.zbits;
      ghost var zbits, bits := w.zbits, w.Written();
      w.Restart();
      SentRound(buf.table, blockSize100k, parts, given, zbits, bits, w.Written());
      given := given + zbits;
      buf.Renew();
      stateOutPos := 0;
      blockNo := blockNo + 1;
      state := Input;
      assert given + [] == given;
    }

    /** The input is at an end for now: close the block. */
    method CloseBlock()
      requires Valid() && state == Input && (mode == Flushing || mode == Finishing) && availInExpect == 0
      modifies this, w, buf, buf.inUse
      ensures Valid() && state == Output && buf.stateInCh == 256 && ended == (mode == Finishing)
      ensures mode == old(mode) && availInExpect == 0 && OnePart(old(parts), parts, buf.block)
    {
      hide Sent, Combined, PlainParts, BitWriter.Valid, BitWriter.Written, Buffer.Taken, Collects, Plain;
      buf.FlushRL();
      CompressBlock(mode == Finishing);
      state := Output;
      assert PlainParts(parts) + [] == PlainParts(parts);
    }

    /** The block is full: its runs are complete, and the pending run stays for the next block. */
    method CloseFullBlock()
      requires Valid() && state == Input && |buf.block| >= nblockMAX && mode != Idle
      requires mode != Running ==> availInExpect > 0
      modifies this, w, buf, buf.inUse
      ensures Valid() && state == Output && buf.stateInCh < 256 && !ended
      ensures mode == old(mode) && availInExpect == old(availInExpect)
      ensures OnePart(old(parts), parts, buf.block) && |buf.block| >= nblockMAX
    {
      hide Sent, Combined, PlainParts, BitWriter.Valid, BitWriter.Written, Collects, Plain;
      EmptyBlock(buf.block, buf.runs, buf.inUse[..], buf.blockCRC, buf.table);
      ghost var before, plain, pending := PlainParts(parts), Plain(buf.runs), Pending(buf.stateInCh, buf.stateInLen);
      CompressBlock(false);
      state := Output;
      assert before + (plain + pending) == before + plain + pending;
    }

    lemma Halting()
      requires Announced()
      ensures Rank() == 0 ==> mode != Running && strm.nextIn == []
    {
    }

    /** Reading input into the open block. */
    method TakeInput() returns (progressIn: bool)
      requires Valid() && state == Input
      modifies strm`nextIn, strm`taken, buf, buf.inUse, this`availInExpect
      ensures Valid() && Consumed(old(strm.nextIn), old(strm.taken), strm.nextIn, strm.taken)
      ensures !progressIn ==> strm.nextIn == old(strm.nextIn)
      ensures |strm.nextIn| <= old(|strm.nextIn|) && progressIn == (|strm.nextIn| < old(|strm.nextIn|))
      ensures mode != Running ==> availInExpect - |strm.nextIn| == old(availInExpect - |strm.nextIn|)
      ensures mode == Running ==> availInExpect == old(availInExpect)
      ensures |buf.block| >= nblockMAX || strm.nextIn == [] || (mode != Running && availInExpect == 0)
      ensures |buf.block| > old(|buf.block|) ==> |strm.nextIn| < old(|strm.nextIn|)
    {
      hide Sent, Combined, PlainParts, BitWriter.Valid, BitWriter.Written, Collects, Buffer.Taken;
      ghost var before, t := PlainParts(parts), buf.Taken();
      progressIn := CopyInputUntilStop();
      ghost var more := old(strm.nextIn)[..old(|strm.nextIn|) - |strm.nextIn|];
      assert before + (t + more) == before + t + more;
    }

    /** How far a call is from its end: smaller when the next turn of the loop must be the last. */
    ghost function Rank(): nat
      reads this, buf
    {
      if state == Input then 2
      else if mode != Running && availInExpect == 0 && buf.stateInCh == 256 then 0 else 1
    }

    /** isempty_RL */
    predicate IsEmptyRL()
      reads buf
    {
      !(buf.stateInCh < 256 && buf.stateInLen > 0)
    }

    /** Input may be announced only as what is offered. */
    ghost predicate Announced()
      reads this, strm
    {
      mode != Running ==> availInExpect == |strm.nextIn|
    }

    /** The output only grows, by as much as the room shrinks. */
    twostate predicate Grown()
      reads strm
    {
      old(strm.out) <= strm.out && strm.availOut + |strm.out| == old(strm.availOut + |strm.out|)
    }

    /** Input was read or output was written. */
    twostate predicate Moved()
      reads strm
    {
      |strm.nextIn| < old(|strm.nextIn|) || |strm.out| > old(|strm.out|)
    }

    /** A block is closed when it is full, or as the last one before the output halts. */
    twostate predicate CutWhenFull(halts: bool)
      reads this
    {
      && old(parts) <= parts
      && (forall i :: old(|parts|) <= i < |parts| ==>
         |parts[i].rec.b| >= nblockMAX || (i == |parts| - 1 && halts))
    }

    /** Why handle_compress may stop. */
    ghost predicate Stopped()
      reads this, strm, w, buf
    {
      && (mode == Running ==> strm.nextIn == [] || (state == Output && strm.availOut == 0))
      && (mode == Flushing ==> (state == Output && strm.availOut == 0 && stateOutPos < |w.zbits|)
                               || (state == Input && strm.nextIn == [] && buf.stateInCh == 256 && blockNo > 1))
      && (mode == Finishing ==>
         state == Output && ((strm.availOut == 0 && stateOutPos < |w.zbits|) || (ended && stateOutPos == |w.zbits|)))
    }

    /** The input half of a turn. */
    method InputTurn() returns (done: bool, progress: bool)
      requires Valid() && Announced() && mode != Idle && state == Input
      modifies this, strm`nextIn, strm`taken, w, buf, buf.inUse
      ensures Valid() && Announced() && mode == old(mode)
      ensures Consumed(old(strm.nextIn), old(strm.taken), strm.nextIn, strm.taken)
        && |strm.nextIn| <= old(|strm.nextIn|)
      ensures !done ==> state == Output && (Rank() == 0 || old(buf.block) != [] || |strm.nextIn| < old(|strm.nextIn|))
      ensures done ==> Stopped()
      ensures CutWhenFull(Rank() == 0)
      ensures !progress ==> strm.nextIn == old(strm.nextIn)
      ensures progress == (|strm.nextIn| < old(|strm.nextIn|)) && strm.out == old(strm.out)
    {
      hide OutputOk, Conserved, Buffer.Valid, Consumed, BitWriter.Valid;
      progress := TakeInput();
      done := false;
      if mode != Running && availInExpect == 0 {
        CloseBlock();
      } else if |buf.block| >= nblockMAX {
        CloseFullBlock();
      } else if strm.nextIn == [] {
        done := true;
      }
    }

    /** One turn of the loop in handle_compress. */
    method Turn() returns (done: bool, progress: bool)
      requires Valid() && Announced() && mode != Idle
      modifies this, strm, w, buf, buf.inUse
      ensures Valid() && Announced() && mode == old(mode) && Grown()
      ensures Consumed(old(strm.nextIn), old(strm.taken), strm.nextIn, strm.taken)
      ensures !done ==>
        |strm.nextIn| < old(|strm.nextIn|) || (|strm.nextIn| == old(|strm.nextIn|) && Rank() < old(Rank()))
      ensures done ==> Stopped()
      ensures if old(Rank() == 0) then done && parts == old(parts) else CutWhenFull(Rank() == 0)
      ensures !progress ==> strm.nextIn == old(strm.nextIn) && strm.out == old(strm.out)
      ensures progress == Moved() && |strm.nextIn| <= old(|strm.nextIn|)
    {
      hide OutputOk, Conserved, Buffer.Valid, Consumed, BitWriter.Valid;
      ConsumedNone(strm.nextIn, strm.taken);
      progress := false;
      if state == Output {
        progress := PassOutput();
        if stateOutPos < |w.zbits| {
          return true, progress;
        }
        if mode == Finishing && availInExpect == 0 && IsEmptyRL() {
          return true, progress;
        }
        PrepareNewBlock();
        if mode == Flushing && availInExpect == 0 && IsEmptyRL() {
          return true, progress;
        }
      }
      var progressIn;
      done, progressIn := InputTurn();
      progress := progress || progressIn;
    }

    /**
      handle_compress.  It always ends: a turn of the loop either leaves it, or reads
      input, or closes a block after which the next turn leaves it.
     */
    method HandleCompress() returns (progress: bool)
      requires Valid() && Announced() && mode != Idle
      modifies this, strm, w, buf, buf.inUse
      ensures Valid() && Announced() && mode == old(mode) && Grown() && Stopped()
      ensures Consumed(old(strm.nextIn), old(strm.taken), strm.nextIn, strm.taken)
      ensures !progress ==> strm.nextIn == old(strm.nextIn) && strm.out == old(strm.out)
      ensures progress == Moved() && CutWhenFull(mode != Running && strm.nextIn == [])
    {
      hide Valid, Announced, Stopped, Rank, Consumed;
      progress := false;
      ConsumedNone(strm.nextIn, strm.taken);
      while true
        invariant Valid() && Announced() && mode == old(mode) && Grown()
        invariant Consumed(old(strm.nextIn), old(strm.taken), strm.nextIn, strm.taken)
        invariant !progress ==> strm.nextIn == old(strm.nextIn) && strm.out == old(strm.out)
        invariant progress == Moved() && |strm.nextIn| <= old(|strm.nextIn|)
        invariant CutWhenFull(Rank() == 0)
        decreases |strm.nextIn|, Rank()
      {
        ghost var in1, taken1 := strm.nextIn, strm.taken;
        Halting();
        var done, more := Turn();
        Halting();
        ConsumedMore(old(strm.nextIn), old(strm.taken), in1, taken1, strm.nextIn, strm.taken);
        progress := progress || more;
        if done {
          break;
        }
      }
    }

    /** copy_output_until_stop on a valid compressor. */
    method PassOutput() returns (progressOut: bool)
      requires Valid() && state == Output
      modifies strm`out, strm`availOut, this`stateOutPos
      ensures Valid() && Grown() && stateOutPos <= |w.zbits| && (strm.availOut == 0 || stateOutPos == |w.zbits|)
      ensures !progressOut ==> strm.out == old(strm.out)
      ensures progressOut == (|strm.out| > old(|strm.out|))
    {
      hide Sent, Combined, PlainParts, BitWriter.Valid, BitWriter.Written, Buffer.Valid, Buffer.Taken;
      progressOut := CopyOutputUntilStop();
    }

    /** Everything taken is in the stream, and the whole stream is out. */
    ghost predicate Complete()
      reads this, strm
    {
      StreamOf(buf.table, blockSize100k, parts, strm.out) && PlainParts(parts) == strm.taken && strm.nextIn == []
    }

    /** Everything taken is in finished parts, and all but the bits in the bit buffer is out. */
    ghost predicate Flushed()
      reads this, strm, w
    {
      && PlainParts(parts) == strm.taken && strm.nextIn == [] && w.Valid() && w.zbits == []
      && 1 <= blockSize100k <= 9 && PartsOk(buf.table, parts, 100000 * blockSize100k)
      && BytesToBits(strm.out) + w.Written() == HeaderBits(blockSize100k) + PartsBits(parts)
    }

    lemma OutPosBound()
      requires Valid()
      ensures stateOutPos <= |w.zbits|
    {
    }

    lemma CompleteNow()
      requires Valid() && Announced() && ended && stateOutPos == |w.zbits|
      ensures Complete()
    {
      hide StreamOf, Combined, Pending;
      assert w.zbits[..stateOutPos] == w.zbits;
      assert PlainParts(parts) + [] == PlainParts(parts);
      assert Pending(256, 0) == [] by { NothingPending(); }
    }

    lemma FlushedNow()
      requires Valid() && state == Input && buf.stateInCh == 256 && strm.nextIn == [] && blockNo > 1
      ensures Flushed()
    {
      hide Combined, PartsOk, PartsBits, HeaderBits, BytesToBits, BitWriter.Valid, BitWriter.Written, Collects;
      assert buf.Taken() == [] by { NothingPending(); }
      assert PlainParts(parts) + [] == PlainParts(parts);
      assert given + [] == given;
    }

    /** A change of mode that fits the phase. */
    method SetMode(m: Mode, announced: nat)
      requires Valid()
      requires state == Output && !ended && buf.stateInCh == 256 ==> m == Flushing && announced == 0
      requires ended ==> (m == Finishing || m == Idle) && announced == 0
      requires m == Idle ==> ended && stateOutPos == |w.zbits|
      modifies this`mode, this`availInExpect
      ensures Valid() && mode == m && availInExpect == announced
    {
      hide Sent, Combined, PlainParts, BitWriter.Valid, BitWriter.Written, Buffer.Valid, Buffer.Taken, Pending;
      mode, availInExpect := m, announced;
    }

    /** While something is still in zbits, neither a flush nor the stream is complete. */
    lemma NotYetFlushed()
      requires stateOutPos < |w.zbits|
      ensures !Flushed()
    {
      hide PartsOk, PartsBits, HeaderBits, BytesToBits;
    }

    lemma NotYetComplete()
      requires Valid() && state == Output && stateOutPos < |w.zbits|
      ensures !Complete()
    {
      hide Combined, PlainParts, BitWriter.Valid, BitWriter.Written, Collects, Pending, Sent, StreamOf;
      if StreamOf(buf.table, blockSize100k, parts, strm.out) {
        if !ended {
          LiveBits(w);
        }
        StreamPart(buf.table, blockSize100k, parts, given, w.zbits, Unsent(), ended, stateOutPos);
      }
    }

    /** What a call that flushes answers. */
    twostate predicate FlushAnswered(ret: int)
      reads this, strm, w
    {
      if Flushed() then ret == BZ_RUN_OK && mode == Running else ret == BZ_FLUSH_OK && mode == Flushing
    }

    /** What a call that finishes answers. */
    twostate predicate FinishAnswered(ret: int)
      reads this, strm, buf
    {
      if !Moved() then ret == BZ_SEQUENCE_ERROR && mode == Finishing
      else if Complete() then ret == BZ_STREAM_END && mode == Idle
      else ret == BZ_FINISH_OK && mode == Finishing
    }

    /** BZ2_bzCompress once the mode is settled. */
    method Proceed(action: int) returns (ret: int)
      requires Valid() && mode != Idle && (mode == Running ==> action == BZ_RUN)
      modifies this, strm, w, buf, buf.inUse
      ensures Valid() && Grown() && Consumed(old(strm.nextIn), old(strm.taken), strm.nextIn, strm.taken)
      ensures old(mode) == Running ==> mode == Running && ret == if Moved() then BZ_RUN_OK else BZ_PARAM_ERROR
      ensures old(mode) == Flushing && action == BZ_FLUSH && old(availInExpect == |strm.nextIn|) ==> FlushAnswered(ret)
      ensures old(mode) == Finishing && action == BZ_FINISH && old(availInExpect == |strm.nextIn|) ==>
        FinishAnswered(ret)
      ensures (old(mode) == Flushing && action != BZ_FLUSH) || (old(mode) == Finishing && action != BZ_FINISH)
              || (old(mode) != Running && old(availInExpect != |strm.nextIn|)) ==>
        ret == BZ_SEQUENCE_ERROR && mode == old(mode)
      ensures ret == BZ_STREAM_END ==> Complete()
      ensures ret == BZ_RUN_OK && action == BZ_RUN ==> strm.nextIn == [] || strm.availOut == 0
      ensures ret == BZ_FLUSH_OK || ret == BZ_FINISH_OK ==> strm.availOut == 0
      ensures old(mode) == Finishing && action == BZ_FINISH && old(availInExpect == |strm.nextIn|) ==>
        strm.availOut == 0 || Complete()
      ensures ret < 0 ==> strm.nextIn == old(strm.nextIn) && strm.out == old(strm.out)
      ensures CutWhenFull(action != BZ_RUN && strm.nextIn == [])
    {
      hide OutputOk, Conserved, Buffer.Valid, Consumed, BitWriter.Valid, Complete, Flushed;
      ConsumedNone(strm.nextIn, strm.taken);
      match mode
      case Running =>
        var progress := HandleCompress();
        ret := if progress then BZ_RUN_OK else BZ_PARAM_ERROR;
      case Flushing =>
        if action != BZ_FLUSH || availInExpect != |strm.nextIn| {
          return BZ_SEQUENCE_ERROR;
        }
        var progress := HandleCompress();
        if availInExpect > 0 || !IsEmptyRL() || stateOutPos < |w.zbits| {
          NotYetFlushed();
          return BZ_FLUSH_OK;
        }
        SetMode(Running, availInExpect);
        ret := BZ_RUN_OK;
        FlushedNow();
      case Finishing =>
        if action != BZ_FINISH || availInExpect != |strm.nextIn| {
          return BZ_SEQUENCE_ERROR;
        }
        var progress := HandleCompress();
        if ended && stateOutPos == |w.zbits| {
          CompleteNow();
        }
        if !progress {
          return BZ_SEQUENCE_ERROR;
        }
        if availInExpect > 0 || !IsEmptyRL() || stateOutPos < |w.zbits| {
          NotYetComplete();
          return BZ_FINISH_OK;
        }
        OutPosBound();
        SetMode(Idle, availInExpect);
        ret := BZ_STREAM_END;
        CompleteNow();
    }

    /**
      BZ2_bzCompress.  Over every sequence of calls: what is read is kept (Valid), in
      order and once; the output is the stream of the parts, in order.  What is answered
      is settled for every mode, action and room.
     */
    method Compress(action: int) returns (ret: int)
      requires Valid()
      modifies this, strm, w, buf, buf.inUse
      ensures Valid() && Grown() && Consumed(old(strm.nextIn), old(strm.taken), strm.nextIn, strm.taken)
      ensures old(mode) == Idle ==> ret == BZ_SEQUENCE_ERROR && mode == Idle
      ensures old(mode) == Running && action == BZ_RUN ==>
        mode == Running && ret == if Moved() then BZ_RUN_OK else BZ_PARAM_ERROR
      ensures action == BZ_FLUSH && (old(mode) == Running || old(mode == Flushing
        && availInExpect == |strm.nextIn|)) ==>
        FlushAnswered(ret)
      ensures action == BZ_FINISH && (old(mode) == Running || old(mode == Finishing
        && availInExpect == |strm.nextIn|)) ==>
        FinishAnswered(ret)
      ensures old(mode) == Running && action != BZ_RUN && action != BZ_FLUSH && action != BZ_FINISH ==>
        ret == BZ_PARAM_ERROR && mode == Running
      ensures (old(mode) == Flushing && action != BZ_FLUSH) || (old(mode) == Finishing && action != BZ_FINISH)
              || (old(mode == Flushing || mode == Finishing) && old(availInExpect != |strm.nextIn|)) ==>
        ret == BZ_SEQUENCE_ERROR && mode == old(mode)
      ensures ret == BZ_STREAM_END ==> Complete()
      ensures ret == BZ_RUN_OK && action == BZ_RUN ==> strm.nextIn == [] || strm.availOut == 0
      ensures ret == BZ_FLUSH_OK || ret == BZ_FINISH_OK ==> strm.availOut == 0
      ensures old(mode) == Running && action == BZ_FINISH ==> strm.availOut == 0 || Complete()
      ensures ret < 0 ==> strm.nextIn == old(strm.nextIn) && strm.out == old(strm.out)
      ensures CutWhenFull(action != BZ_RUN && strm.nextIn == [])
    {
      hide OutputOk, Conserved, Buffer.Valid, Consumed, BitWriter.Valid, Complete, Flushed;
      ConsumedNone(strm.nextIn, strm.taken);
      if mode == Idle {
        return BZ_SEQUENCE_ERROR;
      }
      if mode == Running {
        if action == BZ_FLUSH {
          SetMode(Flushing, |strm.nextIn|);
        } else if action == BZ_FINISH {
          SetMode(Finishing, |strm.nextIn|);
        } else if action != BZ_RUN {
          return BZ_PARAM_ERROR;
        }
      }
      ret := Proceed(action);
    }

    lemma UnsentIs()
      ensures !ended && w.Valid() ==> Unsent() == w.Written()
    {
    }

    lemma UnsentNone()
      ensures ended ==> Unsent() == []
    {
    }
  }

  /** Input is read from the front, and what is read is recorded. */
  ghost predicate Consumed(in0: seq<Byte>, taken0: seq<Byte>, in1: seq<Byte>, taken1: seq<Byte>) {
    |in1| <= |in0| && in1 == in0[|in0| - |in1|..] && taken1 == taken0 + in0[..|in0| - |in1|]
  }

  lemma ConsumedNone(in0: seq<Byte>, taken0: seq<Byte>)
    ensures Consumed(in0, taken0, in0, taken0)
  {
  }

  lemma ConsumedMore(in0: seq<Byte>, taken0: seq<Byte>, in1: seq<Byte>, taken1: seq<Byte>, in2: seq<Byte>,
                     taken2: seq<Byte>)
    requires Consumed(in0, taken0, in1, taken1) && Consumed(in1, taken1, in2, taken2)
    ensures Consumed(in0, taken0, in2, taken2)
  {
    var a, b := |in0| - |in1|, |in0| - |in2|;
    assert in0[..b] == in0[..a] + in1[..b - a];
  }

  lemma NothingPending()
    ensures Pending(256, 0) == [] && Plain([]) == []
  {
  }

  /** A stream that is short of a byte is not the stream. */
  lemma StreamPart(table: Table, size: nat, parts: seq<Part>, given: seq<Byte>, zbits: seq<Byte>, bits: seq<bool>,
                   ended: bool, pos: nat)
    requires Sent(table, size, parts, given, zbits, bits, true, ended) && pos < |zbits|
    requires !ended ==> |bits| >= 8 * |zbits|
    ensures !StreamOf(table, size, parts, given + zbits[..pos])
  {
    hide PartsOk, PartsBits, HeaderBits, TrailerBits, Combined;
    StreamLength(table, size, parts);
  }

  lemma StreamLength(table: Table, size: nat, parts: seq<Part>)
    requires 1 <= size <= 9 && PartsOk(table, parts, 100000 * size)
    ensures forall i :: 0 <= i < |parts| ==> RecordOk(parts[i].rec)
    ensures |StreamBits(table, size, parts)| == |HeaderBits(size)| + |PartsBits(parts)| + 80
  {
    hide HeaderBits, PartsBits, Combined, TrailerBits;
    TrailerLength(Combined(table, parts, 0) as nat);
  }

  lemma HeaderLength(size: nat)
    requires 1 <= size <= 9
    ensures |HeaderBits(size)| == 32
  {
    hide ToBits;
  }

  lemma TrailerLength(crc: nat)
    ensures |TrailerBits(crc)| == 80
  {
    hide ToBits;
  }

  /** The block became one part more; an empty block leaves none. */
  ghost predicate OnePart(parts: seq<Part>, parts': seq<Part>, block: seq<Byte>) {
    if block == [] then parts' == parts
    else |parts'| == |parts| + 1 && parts <= parts' && parts'[|parts|].rec.b == block
  }

  lemma OnePartMore(parts: seq<Part>, part: Part)
    requires part.rec.b != []
    ensures OnePart(parts, parts + [part], part.rec.b)
  {
  }

  lemma NoPart(parts: seq<Part>)
    ensures OnePart(parts, parts, [])
  {
  }

  lemma RoomForNothing(size: nat, nblock: nat)
    requires 1 <= size
    ensures nblock == 0 ==> 32 + 32 + 80 + 7 <= 8 * Room(size, nblock)
  {
  }

  lemma LiveBits(w: BitWriter)
    requires w.Valid()
    ensures 8 * |w.zbits| <= |w.Written()| <= 8 * |w.zbits| + 32
  {
    hide ToBits, BytesToBits;
  }

  lemma MaxSize()
    ensures QuickSort.MAX_BLOCK == 900000
  {
  }

  /** Which round the bytes belong to matters only once the stream is closed. */
  lemma SentZbits(table: Table, size: nat, parts: seq<Part>, given: seq<Byte>, bits: seq<bool>, zbits: seq<Byte>,
                  zbits': seq<Byte>)
    requires Sent(table, size, parts, given, zbits, bits, true, false)
    ensures Sent(table, size, parts, given, zbits', bits, true, false)
  {
    hide HeaderBits, PartsBits, RecordOk, BytesToBits;
  }

  lemma CollectsFinal(block: seq<Byte>, runs: seq<ByteRun>, used: seq<bool>, crc: bv32, table: Table)
    requires Collects(block, runs, used, crc, table)
    ensures Finalise(crc) == FinalCrc(table, Plain(runs)) && |used| == 256 && forall i :: 0 <= i < |block| ==>
      used[block[i]]
    ensures Cut(runs) && block == PackedAll(runs)
  {
  }

  lemma PartMade(table: Table, block: seq<Byte>, runs: seq<ByteRun>, part: Part, max: nat)
    requires Cut(runs) && block == PackedAll(runs) && |block| <= max
    requires part.runs == runs && RecordOk(part.rec) && part.rec.b == block
      && part.rec.crc == FinalCrc(table, Plain(runs)) as nat
    ensures PartOk(table, part, max)
  {
    hide RecordOk, FinalCrc;
  }
}
