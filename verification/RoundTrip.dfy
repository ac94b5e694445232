/** From BZ2_bzCompress to BZ2_bzDecompress. */
module RoundTrip {

  import opened Rotations
  import opened Bits
  import opened Checksum
  import opened RunLength
  import opened DecodeMachine
  import opened StreamFormat
  import opened CompressStream
  import opened BitStream
  import opened DecompressStream
  import BlockRoundTrip

  /** The bytes of a complete stream decode to its parts, and those unpack to the plain input. */
  lemma StreamDecodes(table: Table, size: nat, parts: seq<Part>, bytes: seq<Byte>) returns (rest: seq<bool>)
    requires StreamOf(table, size, parts, bytes)
    ensures Ok(Initial()) && Decodes(table, Initial(), BytesToBits(bytes), 0, BlocksOf(parts), rest)
    ensures UnpackedAll(BlocksOf(parts)) == PlainParts(parts)
  {
    hide Decodes, BytesToBits, ToBits, StreamBits, UnpackedAll, PlainParts, Ok, BlockRoundTrip.RecordOk, Cut, FinalCrc;
    var pad :| 0 <= pad < 8 && BytesToBits(bytes) == StreamBits(table, size, parts) + ToBits(0, pad);
    rest := ToBits(0, pad);
    InitialOk();
    StreamRestored(table, size, parts, rest);
  }

  /**
    The output of a compressor that has reported the end of its stream is a good stream
    for a new decompressor, fast or small, and its plain text is everything the
    compressor took.
   */
  lemma CompressedIsGood(c: Compressor, d: BzDecoder) returns (blocks: seq<Block>, rest: seq<bool>)
    requires c.Complete() && d.Valid() && d.table == c.buf.table
    requires d.unpacker == null && d.done == [] && d.calculatedCombinedCRC == 0 && d.d.abs == Initial()
    requires d.d.reader.Valid() && d.d.reader.Pending() == []
    ensures d.Promised(blocks, BytesToBits(c.strm.out), rest)
    ensures d.done + UnpackedAll(blocks) == c.strm.taken
  {
    hide Decodes, BytesToBits, StreamOf, UnpackedAll, PlainParts, BzDecoder.Valid, BitReader.Pending, BitReader.Valid,
      Ok;
    blocks := BlocksOf(c.parts);
    rest := StreamDecodes(c.buf.table, c.blockSize100k, c.parts, c.strm.out);
    assert [] + BytesToBits(c.strm.out) == BytesToBits(c.strm.out);
    assert [] + UnpackedAll(blocks) == UnpackedAll(blocks);
  }

  /** What has been written at any time is the beginning of the plain text. */
  lemma WrittenSoFar(d: BzDecoder, blocks: seq<Block>, future: seq<bool>, rest: seq<bool>)
    requires d.Valid() && d.Promised(blocks, future, rest)
    ensures d.strm.out <= d.done + UnpackedAll(blocks)
  {
    hide Decodes, UnpackedAll, Whole, Unpacked, FinalCrc, BitReader.Pending, BitReader.Valid, Ok;
    if d.unpacker != null {
      d.unpacker.SomeOut();
      UnpackedFirst(blocks);
      assert d.done + (Unpacked(blocks[0]) + UnpackedAll(blocks[1..]))
          == d.done + Unpacked(blocks[0]) + UnpackedAll(blocks[1..]);
    }
  }

  /**
    The round trip in one call each way: a new decompressor, fast or small, that is given
    the output of a compressor that has reported the end of its stream, and more room than
    the plain text takes, reports the end of the stream too and has written exactly what
    the compressor took.
   */
  method DecompressAll(c: Compressor, room: nat, small: bool) returns (strm: Stream, ret: int)
    requires c.Complete() && room > |c.strm.taken|
    ensures ret == BZ_STREAM_END && strm.out == c.strm.taken && strm.availOut == room - |c.strm.taken|
  {
    hide BzDecoder.Valid, BzDecoder.Promised, BitReader.Valid, BitReader.Pending, UnpackedAll, Compressor.Complete,
      BytesToBits,
      Ok, Initial;
    strm := new Stream();
    strm.availOut := room;
    var d := new BzDecoder(strm, small, c.buf.table);
    NewDecoder(d);
    ghost var blocks, rest := CompressedIsGood(c, d);
    ghost var bits := BytesToBits(c.strm.out);
    assert bits + [] == bits;
    ghost var taken := c.strm.taken;
    d.Feed(c.strm.out, true, blocks, [], rest);
    ghost var left;
    ret, left := d.Decompress(true, blocks, [], rest);
    WrittenSoFar(d, left, [], rest);
    NothingLeft();
    if left == [] {
      assert d.done + [] == d.done;
    }
  }

  lemma NothingLeft()
    ensures UnpackedAll([]) == []
  {
  }

  lemma NewDecoder(d: BzDecoder)
    requires d.Valid() && d.d.abs == Initial()
    ensures d.d.reader.Valid() && !d.d.st.phase.StreamEnd?
  {
    hide Ok, BitReader.Valid;
    d.OutIs();
  }

  /**
    There and back: any data, compressed in one call with any block size and work factor,
    comes back from a new decompressor if the call reports the end of the stream, and it
    does whenever room is left.
   */
  method ThereAndBack(data: seq<Byte>, blockSize100k: nat, workFactor: nat, table: Table, room: nat, small: bool)
    returns (ret: int, out: seq<Byte>, back: seq<Byte>)
    requires 1 <= blockSize100k <= 9 && workFactor <= 250
    ensures |out| <= room && (|out| < room ==> ret == BZ_STREAM_END)
    ensures ret == BZ_STREAM_END ==> back == data
  {
    hide Compressor.Valid, Compressor.Complete, Compressor.Flushed, Consumed, StreamOf, Compressor.FlushAnswered;
    var strm := new Stream();
    strm.nextIn, strm.availOut := data, room;
    var c := new Compressor(strm, blockSize100k, workFactor, table);
    ret := c.Compress(BZ_FINISH);
    out, back := strm.out, [];
    if strm.availOut > 0 {
      CompleteNotEmpty(c);
    }
    if ret == BZ_STREAM_END {
      CompleteTaken(c, data);
      var plain, end := DecompressAll(c, |data| + 1, small);
      back := plain.out;
    }
  }

  /** Even an empty stream has its header. */
  lemma CompleteNotEmpty(c: Compressor)
    requires c.Complete()
    ensures c.strm.out != []
  {
    hide PartsOk, PlainParts;
    StreamLength(c.buf.table, c.blockSize100k, c.parts);
  }

  lemma CompleteTaken(c: Compressor, data: seq<Byte>)
    requires c.Complete() && Consumed(data, [], c.strm.nextIn, c.strm.taken)
    ensures c.strm.taken == data
  {
    hide StreamOf, PlainParts;
    assert data[..|data|] == data;
  }
}
