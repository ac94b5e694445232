/** A whole compressed stream and what decompressing it means. */
module StreamFormat {

  import opened Rotations
  import opened Bits
  import opened Checksum
  import opened MoveToFront
  import opened DecodeMachine
  import opened HeaderFormat
  import opened BlockRoundTrip
  import opened RunLength
  import BurrowsWheeler
  import MtfEncoder

  /** One block of a stream: the runs it holds and its record. */
  datatype Part = Part(runs: seq<ByteRun>, rec: Record)

  ghost predicate PartOk(table: Table, part: Part, max: nat) {
    && Cut(part.runs) && RecordOk(part.rec) && part.rec.b == PackedAll(part.runs) && |part.rec.b| <= max
    && part.rec.crc == FinalCrc(table, Plain(part.runs)) as nat
  }

  ghost predicate PartsOk(table: Table, parts: seq<Part>, max: nat) {
    forall i :: 0 <= i < |parts| ==> PartOk(table, parts[i], max)
  }

  ghost function PartsBits(parts: seq<Part>): seq<bool>
    requires forall i :: 0 <= i < |parts| ==> RecordOk(parts[i].rec)
  {
    if parts == [] then [] else RecordBits(parts[0].rec) + PartsBits(parts[1..])
  }

  /** The combined checksum after the given parts. */
  ghost function Combined(table: Table, parts: seq<Part>, crc: bv32): bv32
    decreases |parts|
  {
    if parts == [] then crc else Combined(table, parts[1..], Combine(crc, FinalCrc(table, Plain(parts[0].runs))))
  }

  ghost function PlainParts(parts: seq<Part>): seq<Byte> {
    if parts == [] then [] else Plain(parts[0].runs) + PlainParts(parts[1..])
  }

  ghost function StreamBits(table: Table, blockSize100k: nat, parts: seq<Part>): seq<bool>
    requires 1 <= blockSize100k <= 9 && forall i :: 0 <= i < |parts| ==> RecordOk(parts[i].rec)
  {
    HeaderBits(blockSize100k) + PartsBits(parts) + TrailerBits(Combined(table, parts, 0) as nat)
  }

  // ----- Growing at the end -----

  lemma {:induction false} PartsBitsPush(parts: seq<Part>, part: Part)
    requires (forall i :: 0 <= i < |parts| ==> RecordOk(parts[i].rec)) && RecordOk(part.rec)
    ensures forall i :: 0 <= i < |parts + [part]| ==> RecordOk((parts + [part])[i].rec)
    ensures PartsBits(parts + [part]) == PartsBits(parts) + RecordBits(part.rec)
  {
    hide RecordOk, RecordBits;
    if parts == [] {
      assert (parts + [part])[1..] == [];
      assert PartsBits([]) == [];
    } else {
      assert (parts + [part])[1..] == parts[1..] + [part];
      PartsBitsPush(parts[1..], part);
    }
  }

  lemma {:induction false} CombinedPush(table: Table, parts: seq<Part>, part: Part, crc: bv32)
    ensures Combined(table, parts + [part], crc) == Combine(Combined(table, parts, crc),
                                                            FinalCrc(table, Plain(part.runs)))
    decreases |parts|
  {
    hide Combine, FinalCrc, Plain;
    if parts == [] {
      assert (parts + [part])[1..] == [];
    } else {
      assert (parts + [part])[1..] == parts[1..] + [part];
      CombinedPush(table, parts[1..], part, Combine(crc, FinalCrc(table, Plain(parts[0].runs))));
    }
  }

  lemma {:induction false} PlainPush(parts: seq<Part>, part: Part)
    ensures PlainParts(parts + [part]) == PlainParts(parts) + Plain(part.runs)
  {
    hide Plain;
    if parts == [] {
      assert (parts + [part])[1..] == [];
      assert PlainParts([]) == [];
    } else {
      assert (parts + [part])[1..] == parts[1..] + [part];
      PlainPush(parts[1..], part);
    }
  }

  // ----- Decompressing -----

  /**
    From st the bits decode to these blocks: each block is read, unpacked and its
    checksum compared, and behind the last block the combined checksum is compared.
   */
  ghost predicate Decodes(table: Table, st: State, bits: seq<bool>, combined: bv32, blocks: seq<Block>, rest: seq<bool>)
    requires Ok(st)
    decreases |blocks|
  {
    RunOk(st, bits);
    var s, left := Run(st, bits).0, Run(st, bits).1;
    if blocks == [] then
      s.phase == StreamEnd && s.storedCombinedCrc == combined as nat && left == rest
    else
      var crc := FinalCrc(table, Unpacked(blocks[0]));
      && Yields(s, blocks[0]) && Whole(blocks[0]) && s.storedBlockCrc == crc as nat
      && Decodes(table, NextBlock(s), left, Combine(combined, crc), blocks[1..], rest)
  }

  /** After a block the machine looks for the next; the column of the last is done with. */
  function NextBlock(st: State): (r: State)
    requires |st.inUse| == 256
    ensures Ok(r)
  {
    st.(phase := BlockHeader(0), mtf := Corrupt)
  }

  function UnpackedAll(blocks: seq<Block>): seq<Byte> {
    if blocks == [] then [] else Unpacked(blocks[0]) + UnpackedAll(blocks[1..])
  }

  ghost function BlocksOf(parts: seq<Part>): (r: seq<Block>)
    ensures |r| == |parts|
  {
    if parts == [] then [] else [parts[0].rec.b] + BlocksOf(parts[1..])
  }

  lemma RunAfter(st: State, bits: seq<bool>, s: State, rest: seq<bool>)
    requires RunsTo(st, bits, s, rest) && Need(s.phase) == 0
    ensures Run(st, bits) == (s, rest)
  {
    hide Ok;
    RunStopped(s, rest);
  }

  lemma DecodesOne(table: Table, st: State, bits: seq<bool>, combined: bv32, s: State, left: seq<bool>, b: Block,
                   blocks: seq<Block>,
                   rest: seq<bool>)
    requires Ok(st) && Run(st, bits) == (s, left) && |s.inUse| == 256
    requires Yields(s, b) && Whole(b) && s.storedBlockCrc == FinalCrc(table, Unpacked(b)) as nat
    requires Decodes(table, NextBlock(s), left, Combine(combined, FinalCrc(table, Unpacked(b))), blocks, rest)
    ensures Decodes(table, st, bits, combined, [b] + blocks, rest)
  {
    hide Ok, Run, Yields, Whole, FinalCrc, Combine, Unpacked, NextBlock;
    assert ([b] + blocks)[1..] == blocks;
  }

  lemma DecodesEnd(table: Table, st: State, combined: bv32, rest: seq<bool>)
    requires Ok(st) && st.phase == BlockHeader(0)
    ensures Decodes(table, st, TrailerBits(combined as nat) + rest, combined, [], rest)
  {
    hide Run, Ok, TrailerBits, Decodes, Pow2;
    var crc := combined as nat;
    WordFits(combined);
    RunTrailer(st, crc, rest);
    DecodesStop(table, st, TrailerBits(crc) + rest, combined, st.(storedCombinedCrc := crc, phase := StreamEnd), rest);
  }

  lemma DecodesStop(table: Table, st: State, bits: seq<bool>, combined: bv32, s: State, rest: seq<bool>)
    requires Ok(st) && Run(st, bits) == (s, rest) && s.phase == StreamEnd && s.storedCombinedCrc == combined as nat
    ensures Decodes(table, st, bits, combined, [], rest)
  {
    hide Run, Ok, FinalCrc, Combine, Yields, Whole, NextBlock;
  }

  /** Reading one part. */
  lemma PartDecodes(table: Table, st: State, part: Part, tail: seq<bool>)
    requires Ok(st) && st.phase == BlockHeader(0) && 1 <= st.blockSize100k <= 9 && PartOk(table, part, MaxBlock(st))
    ensures var s := AfterRecord(st, part.rec);
            && Run(st, RecordBits(part.rec) + tail) == (s, tail) && |s.inUse| == 256
               && s.blockSize100k == st.blockSize100k
            && Yields(s, part.rec.b) && Whole(part.rec.b) && s.storedBlockCrc
               == FinalCrc(table, Unpacked(part.rec.b)) as nat
    ensures Unpacked(part.rec.b) == Plain(part.runs)
  {
    hide Ok, Run, RecordOk, RecordBits, FinalCrc, Plain, Unpacked, Whole, Yields, AfterRecord, Cut;
    RecordRestored(st, part.rec, tail);
    StopsThere(st, RecordBits(part.rec) + tail, AfterRecord(st, part.rec), part.rec.b, tail);
    RunsRestored(part.runs);
  }

  lemma {:induction false} PartsDecode(table: Table, st: State, parts: seq<Part>, combined: bv32, rest: seq<bool>)
    requires Ok(st) && st.phase == BlockHeader(0) && 1 <= st.blockSize100k <= 9 && PartsOk(table, parts, MaxBlock(st))
    ensures Decodes(table, st, PartsBits(parts) + TrailerBits(Combined(table, parts, combined) as nat) + rest, combined,
                    BlocksOf(parts), rest)
    ensures UnpackedAll(BlocksOf(parts)) == PlainParts(parts)
    decreases |parts|
  {
    hide Ok, Run, RecordOk, RecordBits, TrailerBits, Combine, FinalCrc, Plain, Unpacked, Whole, Yields, AfterRecord,
      Decodes, NextBlock, Cut;
    var trailer := TrailerBits(Combined(table, parts, combined) as nat);
    var bits := PartsBits(parts) + trailer + rest;
    if parts == [] {
      assert bits == trailer + rest;
      DecodesEnd(table, st, combined, rest);
    } else {
      var part := parts[0];
      assert PartOk(table, part, MaxBlock(st));
      var tail := PartsBits(parts[1..]) + trailer + rest;
      assert bits == RecordBits(part.rec) + tail;
      PartDecodes(table, st, part, tail);
      var s := AfterRecord(st, part.rec);
      var crc := FinalCrc(table, Plain(part.runs));
      SizeKept(st, s);
      PartsDecode(table, NextBlock(s), parts[1..], Combine(combined, crc), rest);
      DecodesOne(table, st, bits, combined, s, tail, part.rec.b, BlocksOf(parts[1..]), rest);
      assert BlocksOf(parts)[1..] == BlocksOf(parts[1..]);
    }
  }

  lemma SizeKept(st: State, s: State)
    requires s.blockSize100k == st.blockSize100k && |s.inUse| == 256
    ensures MaxBlock(NextBlock(s)) == MaxBlock(st) && NextBlock(s).phase == BlockHeader(0)
    ensures NextBlock(s).blockSize100k == st.blockSize100k
  {
  }

  lemma StopsThere(st: State, bits: seq<bool>, s: State, b: Block, rest: seq<bool>)
    requires RunsTo(st, bits, s, rest) && Yields(s, b)
    ensures Ok(st) && Run(st, bits) == (s, rest) && |s.inUse| == 256
  {
    hide Ok, BurrowsWheeler.Links, BurrowsWheeler.Walk, MtfEncoder.Used;
    RunAfter(st, bits, s, rest);
  }

  /**
    The round trip of a stream: for all parts, the bits of the stream decode to their
    blocks, every checksum agrees, and the unpacked blocks are the plain input.  What
    follows the stream is left alone.
   */
  lemma StreamRestored(table: Table, blockSize100k: nat, parts: seq<Part>, rest: seq<bool>)
    requires 1 <= blockSize100k <= 9 && PartsOk(table, parts, 100000 * blockSize100k)
    ensures Decodes(table, Initial(), StreamBits(table, blockSize100k, parts) + rest, 0, BlocksOf(parts), rest)
    ensures UnpackedAll(BlocksOf(parts)) == PlainParts(parts)
  {
    hide Run, Ok, RecordOk, PartsBits, TrailerBits, Yields, Whole, Combine, FinalCrc, UnpackedAll, PlainParts,
      BytesToBits, ToBits;
    var st := Initial();
    InitialOk();
    var tail := PartsBits(parts) + TrailerBits(Combined(table, parts, 0) as nat) + rest;
    assert HDR[0..] == HDR;
    assert StreamBits(table, blockSize100k, parts) + rest
        == BytesToBits(HDR[0..]) + ToBits(0x30 + blockSize100k, 8) + tail;
    RunHeader(st, 0, blockSize100k, tail);
    PartsDecode(table, st.(blockSize100k := blockSize100k, phase := BlockHeader(0)), parts, 0, rest);
  }

  lemma InitialOk()
    ensures Ok(Initial()) && Initial().phase == Magic(0)
  {
  }
}
