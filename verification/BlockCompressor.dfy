/** BZ2_blockSort and BZ2_compressBlock. */
module BlockCompressor {

  import opened Permutations
  import opened Rotations
  import opened BurrowsWheeler
  import opened Bits
  import opened BitStream
  import opened QuickSort
  import ExponentialSort
  import MainSort
  import MainCompare
  import opened CodeLengths
  import opened MoveToFront
  import opened MtfEncoder
  import opened DecodeMachine
  import opened HeaderFormat
  import opened BlockRoundTrip
  import opened TableChoice
  import opened BlockWriter

  /** fallbackSort, with its work arrays. */
  method SortByFallback(ptr: array<nat>, block: array<Byte>)
    requires 0 < block.Length == ptr.Length <= MAX_BLOCK
    modifies ptr, block
    ensures block[..] == old(block[..]) && SortsRotations(block[..], ptr[..])
  {
    hide SortsRotations;
    var nblock := block.Length;
    var eclass := new nat[nblock];
    var bhtab := new bool[32 * (3 + nblock / 32)];
    ExponentialSort.FallbackSort(ptr, eclass, block, bhtab);
  }

  /** mainSort, on a block with an overshoot area. */
  method SortByMain(ptr: array<nat>, block: array<Byte>, budget0: int) returns (budget: int)
    requires MainCompare.N_OVERSHOOT < block.Length == ptr.Length <= MAX_BLOCK && budget0 >= 0
    modifies ptr
    ensures budget <= budget0 && (budget >= 0 ==> SortsRotations(block[..], ptr[..]))
    ensures MainCompare.Varied(block[..]) ==> budget == budget0
  {
    hide SortsRotations;
    var nblock, bytes := block.Length, block[..];
    var arr2 := new Byte[nblock + MainCompare.N_OVERSHOOT](i => if 0 <= i < |bytes| then bytes[i] else 0);
    var quadrant := new nat[nblock + MainCompare.N_OVERSHOOT];
    var ftab := new nat[65537];
    assert arr2[..nblock] == bytes;
    budget := MainSort.Sort(ptr, arr2, quadrant, ftab, nblock, budget0);
  }

  /** How much work mainSort may do before it is given up. */
  function BudgetFor(nblock: nat, workFactor: int): (budget: nat) {
    var wfact := if workFactor < 1 then 1 else if workFactor > 100 then 100 else workFactor;
    nblock * ((wfact - 1) / 3)
  }

  /**
    BZ2_blockSort: whichever sort is used, and whether or not mainSort is given up, the
    result is the sorted order of the rotations and the row of the unrotated block;
    assertion 1003 holds.
   */
  method BlockSort(block: array<Byte>, workFactor: int) returns (ptr: array<nat>, origPtr: int)
    requires 0 < block.Length <= MAX_BLOCK
    modifies block
    ensures block[..] == old(block[..])
    ensures fresh(ptr) && ptr.Length == block.Length && SortsRotations(block[..], ptr[..])
    ensures 0 <= origPtr < ptr.Length && ptr[origPtr] == 0
  {
    hide SortsRotations;
    var nblock := block.Length;
    ptr := new nat[nblock];
    if nblock < 10000 {
      SortByFallback(ptr, block);
    } else {
      var budget := SortByMain(ptr, block, BudgetFor(nblock, workFactor));
      if budget < 0 {
        SortByFallback(ptr, block);
      }
    }
    ZeroPresent(block[..], ptr[..]);
    origPtr := -1;
    ghost var p := ptr[..];
    for i := 0 to nblock
      invariant origPtr == -1 && 0 !in p[..i]
    {
      assert p[..i + 1] == p[..i] + [p[i]];
      if ptr[i] == 0 {
        origPtr := i;
        break;
      }
    }
    assert p[..nblock] == p;
    assert origPtr != -1;
  }

  lemma ZeroPresent(b: Block, p: seq<nat>)
    requires SortsRotations(b, p) && b != []
    ensures 0 in p
  {
    PermutationReaches(p, |b|, 0);
  }

  /** Rows for len, code or rfreq. */
  method NewRows() returns (rows: seq<array<nat>>)
    ensures Rows(rows) && fresh(rows) && forall r :: r in rows ==> fresh(r)
  {
    rows := [];
    for t := 0 to N_GROUPS
      invariant |rows| == t && (forall r :: r in rows ==> fresh(r) && r.Length == MAX_ALPHA_SIZE)
      invariant forall t, u :: 0 <= t < u < |rows| ==> rows[t] != rows[u]
    {
      var row := new nat[MAX_ALPHA_SIZE];
      rows := rows + [row];
    }
  }

  method PutUChar(w: BitWriter, c: Byte)
    requires w.Valid()
    modifies w
    ensures w.Valid() && w.Written() == old(w.Written()) + ToBits(c, 8) && old(w.zbits) <= w.zbits
  {
    ByteFits(c);
    w.Write(8, c);
  }

  method PutMagic(w: BitWriter, magic: seq<Byte>)
    requires w.Valid()
    modifies w
    ensures w.Valid() && w.Written() == old(w.Written()) + BytesToBits(magic) && old(w.zbits) <= w.zbits
  {
    hide BitWriter.Valid, BitWriter.Written, ToBits;
    ghost var start := w.Written();
    for i := 0 to |magic|
      invariant w.Valid() && old(w.zbits) <= w.zbits && w.Written() == start + BytesToBits(magic[..i])
    {
      PutUChar(w, magic[i]);
      BytesToBitsPush(magic[..i], magic[i]);
      assert magic[..i + 1] == magic[..i] + [magic[i]];
    }
    assert magic[..|magic|] == magic;
  }

  lemma FourBytes(u: nat)
    ensures Low(Shr(u, 24), 8) < 256 && Low(Shr(u, 16), 8) < 256 && Low(Shr(u, 8), 8) < 256 && Low(u, 8) < 256
    ensures ToBits(u, 32) == ToBits(Low(Shr(u, 24), 8), 8) + ToBits(Low(Shr(u, 16), 8), 8)
      + ToBits(Low(Shr(u, 8), 8), 8) + ToBits(Low(u, 8), 8)
  {
    hide Shr, ToBits, Low;
    assert Pow2(8) == 256;
    ToBitsSplit(u, 24, 8);
    ToBitsSplit(Shr(u, 8), 16, 8);
    ToBitsSplit(Shr(Shr(u, 8), 8), 8, 8);
    ShrShr(u, 8, 8);
    ShrShr(u, 16, 8);
    ToBitsLow(u, 8, 8);
    ToBitsLow(Shr(u, 8), 8, 8);
    ToBitsLow(Shr(u, 16), 8, 8);
    ToBitsLow(Shr(u, 24), 8, 8);
  }

  /** bsPutUInt32 */
  method PutUInt32(w: BitWriter, u: nat)
    requires w.Valid()
    modifies w
    ensures w.Valid() && w.Written() == old(w.Written()) + ToBits(u, 32) && old(w.zbits) <= w.zbits
  {
    hide BitWriter.Valid, BitWriter.Written, ToBits, Shr, Low;
    FourBytes(u);
    PutUChar(w, Low(Shr(u, 24), 8));
    PutUChar(w, Low(Shr(u, 16), 8));
    PutUChar(w, Low(Shr(u, 8), 8));
    PutUChar(w, Low(u, 8));
  }

  /** The magic number, the checksum, the randomisation bit and origPtr. */
  method PutPrologue(w: BitWriter, crc: nat, origPtr: nat)
    requires w.Valid() && origPtr < 900000
    modifies w
    ensures w.Valid() && w.Written() == old(w.Written()) + PrologueBits(crc, origPtr) && old(w.zbits) <= w.zbits
  {
    hide BitWriter.Valid, BitWriter.Written, ToBits, BytesToBits, Pow2;
    OrigPtrFits(origPtr);
    PutMagic(w, BLOCK_MAGIC);
    PutUInt32(w, crc);
    PutBit(w, false);
    w.Write(24, origPtr);
  }

  lemma ColumnUsed(b: Block, p: seq<nat>, inUse: seq<bool>)
    requires SortsRotations(b, p) && |inUse| == 256 && forall i :: 0 <= i < |b| ==> inUse[b[i]]
    ensures (forall i :: 0 <= i < |p| ==> p[i] < |b|) && |p| == |b|
    ensures AllUsed(LastColumn(b, p), inUse)
  {
    hide SortedTo;
  }

  lemma ColumnSymbolsFit(c: seq<Byte>, inUse: seq<bool>)
    requires AllUsed(c, inUse) && |Used(inUse, 256)| > 0
    ensures InAlphabet(ColumnSymbols(c, inUse), |Used(inUse, 256)| + 2)
    ensures 0 < |ColumnSymbols(c, inUse)| <= |c| + 1
  {
    hide Used, Symbols, Covers;
    var n := |Used(inUse, 256)|;
    RenumberedCovered(c, inUse);
    SymbolsBounded(Renumbered(c, inUse), Identity(n), 0, n + 1);
    SymbolsLength(Renumbered(c, inUse), Identity(n), 0, n + 1);
  }

  /** generateMTFValues on the sorted block. */
  method MakeSymbols(block: array<Byte>, ptr: array<nat>, inUse: array<bool>) returns (out: MtfOutput, nInUse: nat)
    requires 0 < block.Length == ptr.Length <= MAX_BLOCK && SortsRotations(block[..], ptr[..])
    requires inUse.Length == 256 && forall i :: 0 <= i < block.Length ==> inUse[block[i]]
    modifies ptr
    ensures fresh(out) && out.Valid() && out.arr1 == ptr && fresh(out.mtfFreq) && out.mtfFreq.Length == MAX_ALPHA_SIZE
    ensures 1 <= nInUse <= 256 && nInUse == |Used(inUse[..], 256)|
    ensures AllUsed(LastColumn(old(block[..]), old(ptr[..])), old(inUse[..]))
    ensures out.syms == ColumnSymbols(LastColumn(old(block[..]), old(ptr[..])), old(inUse[..]))
    ensures InAlphabet(out.syms, nInUse + 2) && 0 < out.wr == |out.syms| <= MAX_BLOCK + 1
  {
    hide SortsRotations, Used, LastColumn, ColumnSymbols, InAlphabet;
    ghost var b, p, u := block[..], ptr[..], inUse[..];
    ColumnUsed(b, p, u);
    AllUsedSome(LastColumn(b, p), u);
    ColumnSymbolsFit(LastColumn(b, p), u);
    var unseqToSeq := new nat[256];
    nInUse := MakeMapsE(inUse, unseqToSeq);
    var mtfFreq := new nat[MAX_ALPHA_SIZE](_ => 0);
    out := new MtfOutput(ptr, mtfFreq);
    assert block[..block.Length] == b && ptr[..ptr.Length] == p;
    GenerateMtfValues(out, block, block.Length, unseqToSeq, nInUse, p, u);
    OutSize(out);
  }

  lemma OutSize(out: MtfOutput)
    requires out.Valid()
    ensures out.wr == |out.syms|
  {
  }

  /** The part of BZ2_compressBlock that writes a block: whatever the choices made, its record's bits. */
  method WriteBlock(w: BitWriter, data: seq<Byte>, inUse: array<bool>, blockCRC: nat, workFactor: int)
    returns (ghost rec: Record)
    requires w.Valid() && 0 < |data| <= MAX_BLOCK && blockCRC < Pow2(32)
    requires inUse.Length == 256 && forall i :: 0 <= i < |data| ==> inUse[data[i]]
    modifies w
    ensures w.Valid() && old(w.zbits) <= w.zbits
    ensures RecordOk(rec) && rec.b == data && rec.crc == blockCRC && rec.inUse == inUse[..]
    ensures WellChosen(rec.coding.lens, rec.coding.selector, RecordSymbols(rec), |Used(rec.inUse, 256)| + 2)
    ensures w.Written() == old(w.Written()) + RecordBits(rec)
  {
    hide *;
    ghost var start, u := w.Written(), inUse[..];
    Sizes();
    var block := new Byte[|data|](i requires 0 <= i < |data| => data[i]);
    assert block[..] == data;
    var ptr, origPtr := BlockSort(block, workFactor);
    ghost var p := ptr[..];
    PutPrologue(w, blockCRC, origPtr);
    var out, nInUse := MakeSymbols(block, ptr, inUse);
    var len := NewRows();
    var code := NewRows();
    var rfreq := NewRows();
    var selector, selectorMtf := new nat[MAX_SELECTORS], new nat[MAX_SELECTORS];
    FreshWorkspace(out, len, code, rfreq, selector, selectorMtf);
    ghost var coding := SendMtfValues(w, out, inUse, nInUse, len, code, rfreq, selector, selectorMtf);
    rec := Record(data, p, origPtr, blockCRC, u, coding);
    RecordMade(rec, start);
  }

  lemma Sizes()
    ensures MAX_BLOCK == 900000 && MAX_ALPHA_SIZE == 258 && MAX_SELECTORS == 18002
  {
  }

  lemma FreshWorkspace(out: MtfOutput, len: seq<array<nat>>, code: seq<array<nat>>, rfreq: seq<array<nat>>,
                       selector: array<nat>, selectorMtf: array<nat>)
    requires Rows(len) && Rows(code) && Rows(rfreq) && selector != selectorMtf
      && selector.Length == selectorMtf.Length == MAX_SELECTORS
    requires (forall r :: r in code ==> r !in len) && (forall r :: r in rfreq ==> r !in len)
    requires selector !in len && selector !in code && selector !in rfreq && selector != out.arr1
      && selector != out.mtfFreq
    requires selectorMtf !in len && selectorMtf !in code && selectorMtf !in rfreq && selectorMtf != out.arr1
      && selectorMtf != out.mtfFreq
    requires out.arr1 !in len && out.arr1 !in code && out.arr1 !in rfreq
    requires out.mtfFreq !in len && out.mtfFreq !in code && out.mtfFreq !in rfreq
    ensures Workspace(out, len, code, rfreq, selector, selectorMtf)
  {
    forall t, u | 0 <= t < |len| && 0 <= u < N_GROUPS
      ensures len[t] != rfreq[u] && code[u] != len[t]
    {
      assert rfreq[u] in rfreq && code[u] in code;
    }
  }

  lemma RecordMade(rec: Record, start: seq<bool>)
    requires SortsRotations(rec.b, rec.p) && 0 < |rec.b| && rec.origPtr < |rec.b| == |rec.p| && rec.p[rec.origPtr] == 0
    requires rec.crc < Pow2(32) && AllUsed(LastColumn(rec.b, rec.p), rec.inUse)
    requires Serves(rec.coding, ColumnSymbols(LastColumn(rec.b, rec.p), rec.inUse), |Used(rec.inUse, 256)| + 2)
    ensures RecordOk(rec) && RecordSymbols(rec) == ColumnSymbols(LastColumn(rec.b, rec.p), rec.inUse)
    ensures start + PrologueBits(rec.crc, rec.origPtr)
            + CodedBits(rec.inUse, rec.coding, ColumnSymbols(LastColumn(rec.b, rec.p), rec.inUse),
                        |Used(rec.inUse, 256)| + 2)
            == start + RecordBits(rec)
  {
    hide SortsRotations, Serves, ColumnSymbols, CodedBits, PrologueBits, Used, LastColumn, Pow2, AllUsed;
  }
}
