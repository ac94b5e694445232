/** zbits shares arr2 with the block: the compressed form of a block never outgrows the room behind it. */
module Capacity {

  import opened Rotations
  import opened BurrowsWheeler
  import opened Bits
  import opened Canonical
  import opened CodeLengths
  import opened MoveToFront
  import opened MtfEncoder
  import opened DecodeMachine
  import opened HeaderFormat
  import opened MappingFormat
  import opened SelectorFormat
  import opened TableFormat
  import opened DataFormat
  import opened BlockRoundTrip
  import opened BlockCompressor
  import MainCompare

  /** The bytes of arr2 behind a block of nblock bytes. */
  function Room(blockSize100k: nat, nblock: nat): int {
    4 * (100000 * blockSize100k + MainCompare.N_OVERSHOOT) - nblock
  }

  lemma {:induction false} GroupBitsLength(inUse: seq<bool>, i: nat)
    requires |inUse| == 256 && i <= 16
    ensures |GroupBits(inUse, i)| <= 16 * (16 - i)
    decreases 16 - i
  {
    hide GroupUsed;
    if i < 16 {
      GroupBitsLength(inUse, i + 1);
    }
  }

  lemma {:induction false} SelectorBitsLength(codes: seq<nat>, n: nat)
    requires n <= N_GROUPS && forall k :: 0 <= k < |codes| ==> codes[k] < n
    ensures |SelectorBits(codes)| <= N_GROUPS * |codes|
  {
    if codes != [] {
      SelectorBitsLength(codes[1..], n);
    }
  }

  lemma {:induction false} MovesLength(from: nat, to: nat)
    requires 1 <= from <= LONGEST && 1 <= to <= LONGEST
    ensures |Moves(from, to)| <= 2 * (LONGEST - 1)
    ensures |Moves(from, to)| == 2 * if from < to then to - from else from - to
    decreases if from < to then to - from else from - to
  {
    if from < to {
      MovesLength(from + 1, to);
    } else if from > to {
      MovesLength(from - 1, to);
    }
  }

  lemma {:induction false} DeltaBitsLength(curr: nat, len: seq<nat>)
    requires 1 <= curr <= LONGEST && forall i :: 0 <= i < |len| ==> 1 <= len[i] <= LONGEST
    ensures |DeltaBits(curr, len)| <= 39 * |len|
    decreases |len|
  {
    hide Moves;
    if len != [] {
      MovesLength(curr, len[0]);
      DeltaBitsLength(len[0], len[1..]);
    }
  }

  lemma {:induction false} TablesBitsLength(lens: seq<seq<nat>>, size: nat)
    requires TablesOk(lens, size) && 0 < size <= MAX_ALPHA_SIZE
    ensures forall t :: 0 <= t < |lens| ==> lens[t] != []
    ensures |TablesBits(lens)| <= 10067 * |lens|
  {
    hide DeltaBits, ToBits;
    if lens != [] {
      assert TableOk(lens[0], size);
      DeltaBitsLength(lens[0][0], lens[0]);
      forall t | 0 <= t < |lens|
        ensures lens[t] != []
      {
        assert TableOk(lens[t], size);
      }
      TablesBitsLength(lens[1..], size);
    }
  }

  lemma {:induction false} DataBitsLength(syms: seq<nat>, lens: seq<seq<nat>>, selector: seq<nat>, size: nat, k: nat)
    requires Coded(syms, lens, selector, size) && TablesOk(lens, size) && k <= |syms|
    ensures |DataBits(syms, lens, selector, size, k)| <= LONGEST * (|syms| - k)
    decreases |syms| - k
  {
    hide Code, ToBits;
    if k < |syms| {
      assert TableOk(lens[selector[k / G_SIZE]], size);
      DataBitsLength(syms, lens, selector, size, k + 1);
    }
  }

  lemma CodedBitsLength(inUse: seq<bool>, coding: Coding, syms: seq<nat>, size: nat)
    requires |inUse| == 256 && 0 < size <= MAX_ALPHA_SIZE && Serves(coding, syms, size)
    ensures |CodedBits(inUse, coding, syms, size)| <= 168704 + LONGEST * |syms|
  {
    hide GroupUsed, SelectorCodes, UndoSelectors, GroupBits, SelectorBits, TablesBits, DataBits, ToBits, TablesOk,
      Covers;
    var codes := SelectorCodes(coding.selector, Identity(|coding.lens|));
    SelectorsRoundTrip(coding.selector, Identity(|coding.lens|));
    GroupBitsLength(inUse, 0);
    SelectorBitsLength(codes, |coding.lens|);
    TablesBitsLength(coding.lens, size);
    DataBitsLength(syms, coding.lens, coding.selector, size, 0);
  }

  /**
    With the stream header, the bits left over from the block before, the trailer and
    the filling of the last byte, the compressed block fits.
   */
  lemma RecordFits(rec: Record, blockSize100k: nat)
    requires RecordOk(rec) && 1 <= blockSize100k <= 9 && |rec.b| <= 100000 * blockSize100k
    ensures |RecordBits(rec)| + 32 + 32 + 80 + 7 <= 8 * Room(blockSize100k, |rec.b|)
  {
    hide CodedBits, Serves, ColumnSymbols, SortedTo, ToBits, Pow2, Used;
    var c := LastColumn(rec.b, rec.p);
    assert |c| == |rec.b|;
    AllUsedSome(c, rec.inUse);
    ColumnSymbolsFit(c, rec.inUse);
    UsedAtMost(rec.inUse);
    var size := |Used(rec.inUse, 256)| + 2;
    CodedBitsLength(rec.inUse, rec.coding, ColumnSymbols(c, rec.inUse), size);
    PrologueLength(rec.crc, rec.origPtr);
  }

  lemma UsedAtMost(inUse: seq<bool>)
    requires |inUse| == 256
    ensures |Used(inUse, 256)| + 2 <= MAX_ALPHA_SIZE
  {
  }

  lemma PrologueLength(crc: nat, origPtr: nat)
    ensures |PrologueBits(crc, origPtr)| == 105
  {
    hide ToBits;
  }
}
