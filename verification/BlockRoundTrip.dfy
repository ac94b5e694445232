/** A whole block: its bits, and the proof that the decoding machine restores it. */
module BlockRoundTrip {

  import opened Permutations
  import opened Rotations
  import opened BurrowsWheeler
  import opened Bits
  import opened Canonical
  import opened MoveToFront
  import opened MtfEncoder
  import opened DecodeMachine
  import opened HeaderFormat
  import opened MappingFormat
  import opened SelectorFormat
  import opened TableFormat
  import opened DataFormat

  /** The choices of sendMTFValues: length tables, and which table codes which group of fifty symbols. */
  datatype Coding = Coding(lens: seq<seq<nat>>, selector: seq<nat>)

  /** What a coding must satisfy for symbols below size. */
  ghost predicate Serves(coding: Coding, syms: seq<nat>, size: nat) {
    && 2 <= |coding.lens| <= N_GROUPS && 1 <= |coding.selector| <= MAX_SELECTORS
    && TablesOk(coding.lens, size) && (exists big :: AllFeasible(coding.lens, big))
    && Coded(syms, coding.lens, coding.selector, size) && Covers(Identity(|coding.lens|), coding.selector)
  }

  lemma ServesCovers(coding: Coding)
    requires forall g :: 0 <= g < |coding.selector| ==> coding.selector[g] < |coding.lens|
    ensures Covers(Identity(|coding.lens|), coding.selector)
  {
    forall v | v in coding.selector
      ensures v in Identity(|coding.lens|)
    {
      assert Identity(|coding.lens|)[v] == v;
    }
  }

  lemma ServesGroups(coding: Coding, syms: seq<nat>, size: nat)
    requires Serves(coding, syms, size) && size > 0
    ensures GroupsOk(coding.selector, |coding.selector|, |coding.lens|)
    ensures forall t :: 0 <= t < |coding.lens| ==> coding.lens[t] != []
  {
    hide AllFeasible;
  }

  /** The tables and symbols of a block, as sendMTFValues writes them. */
  ghost function CodedBits(inUse: seq<bool>, coding: Coding, syms: seq<nat>, size: nat): seq<bool>
    requires |inUse| == 256 && size > 0 && Serves(coding, syms, size)
  {
    var codes := SelectorCodes(coding.selector, Identity(|coding.lens|));
    MappingBits(inUse) + SelectorsBits(|coding.lens|, codes) + TablesBits(coding.lens)
    + DataBits(syms, coding.lens, coding.selector, size, 0)
  }

  /** The bits of a block whose rotations p sorts. */
  ghost function BlockBits(b: Block, p: seq<nat>, origPtr: nat, crc: nat, inUse: seq<bool>, coding: Coding): seq<bool>
    requires SortsRotations(b, p) && AllUsed(LastColumn(b, p), inUse)
    requires Serves(coding, ColumnSymbols(LastColumn(b, p), inUse), |Used(inUse, 256)| + 2)
  {
    var size := |Used(inUse, 256)| + 2;
    PrologueBits(crc, origPtr) + CodedBits(inUse, coding, ColumnSymbols(LastColumn(b, p), inUse), size)
  }

  /** The machine has a block, and undoing the transformation on its column gives b. */
  ghost predicate Yields(st: State, b: Block) {
    && st.phase == Output && |st.inUse| == 256 && OutputOk(st)
    && var used := Used(st.inUse, 256);
       && (forall k :: 0 <= k < |st.mtf.column| ==> st.mtf.column[k] < |used|)
       && var c := Unmapped(st.mtf.column, used);
          forall link :: Links(c, link) ==> Walk(c, link, st.origPtr, |c|) == b
  }

  /** seqToUnseq applied to a column. */
  function Unmapped(column: seq<nat>, used: seq<Byte>): (c: seq<Byte>)
    requires forall k :: 0 <= k < |column| ==> column[k] < |used|
    ensures |c| == |column|
  {
    seq(|column|, k requires 0 <= k < |column| => used[column[k]])
  }

  lemma UnmapsRenumbered(c: seq<Byte>, inUse: seq<bool>)
    requires AllUsed(c, inUse)
    ensures var used, r := Used(inUse, 256), Renumbered(c, inUse);
            && (forall k :: 0 <= k < |r| ==> r[k] < |used|)
            && Unmapped(r, used) == c
  {
    hide Used;
    var used, r := Used(inUse, 256), Renumbered(c, inUse);
    forall k | 0 <= k < |r|
      ensures r[k] < |used| && used[r[k]] == c[k]
    {
      UsedAt(inUse, c[k], 256);
    }
    assert Unmapped(r, used) == c;
  }

  /** The symbols of a column finish a decoder with exactly that column. */
  lemma ColumnDecodes(c: seq<Byte>, inUse: seq<bool>, max: nat)
    requires AllUsed(c, inUse) && |Used(inUse, 256)| > 0 && |c| <= max <= 900000
    ensures var n := |Used(inUse, 256)|;
            Finishes(Start(Identity(256)), ColumnSymbols(c, inUse), 0, n + 1, max, Renumbered(c, inUse))
  {
    hide Used, Steps, Symbols, Covers;
    var n := |Used(inUse, 256)|;
    var s, syms := Renumbered(c, inUse), ColumnSymbols(c, inUse);
    RenumberedCovered(c, inUse);
    assert Identity(256)[..n] == Identity(n);
    SymbolsBounded(s, Identity(n), 0, n + 1);
    SymbolsDecode(s, Identity(256), 0, [], n + 1, max);
    assert [] + Repeat(0, 0) + s == s;
    assert syms[0..] == syms;
  }

  /** Reading tables and symbols. */
  lemma RunCoded(st: State, inUse: seq<bool>, coding: Coding, syms: seq<nat>, column: seq<nat>, rest: seq<bool>)
    requires Ok(st) && st.phase == Mapping1 && st.inUse16 == [] && |inUse| == 256 && |Used(inUse, 256)| > 0
    requires Serves(coding, syms, |Used(inUse, 256)| + 2)
    requires Finishes(Start(Identity(256)), syms, 0, |Used(inUse, 256)| + 1, MaxBlock(st), column)
    requires st.origPtr < |column|
    ensures RunsTo(st, CodedBits(inUse, coding, syms, |Used(inUse, 256)| + 2) + rest,
                   Final(st, inUse, coding, syms, column), rest)
  {
    hide Run, Ok, MappingBits, SelectorsBits, TablesBits, DataBits, Used, TablesOk, AllFeasible, Finishes, Coded,
      SelectorCodes, Covers,
      Start, NextSymbol, MinLen;
    ServesGroups(coding, syms, |Used(inUse, 256)| + 2);
    var size := |Used(inUse, 256)| + 2;
    var codes := SelectorCodes(coding.selector, Identity(|coding.lens|));
    var data := DataBits(syms, coding.lens, coding.selector, size, 0) + rest;
    var tables := TablesBits(coding.lens) + data;
    var selectors := SelectorsBits(|coding.lens|, codes) + tables;
    assert CodedBits(inUse, coding, syms, size) + rest == MappingBits(inUse) + selectors;
    InUseSize(st);
    RunMapping(st, inUse, selectors);
    var s1 := st.(inUse16 := GroupFlags(inUse), inUse := inUse, phase := Selector1);
    RunSelectorsBits(s1, |coding.lens|, coding.selector, tables);
    var s2 := s1.(nGroups := |coding.lens|, nSelectors := |coding.selector|, selectorMtf := codes,
                  selector := coding.selector,
                  lens := [], table := [], phase := Coding1);
    assert coding.lens[0..] == coding.lens && coding.lens[..0] == [];
    RunTables(s2, coding.lens, 0, data);
    RunCodedData(s2, coding, syms, column, rest);
  }

  lemma InUseSize(st: State)
    requires Ok(st)
    ensures |st.inUse| == 256
  {
  }

  lemma RunCodedData(st: State, coding: Coding, syms: seq<nat>, column: seq<nat>, rest: seq<bool>)
    requires |st.inUse| == 256 && Serves(coding, syms, AlphaSize(st)) && NInUse(st) > 0
    requires st.nGroups == |coding.lens| && st.nSelectors == |coding.selector| && st.selector == coding.selector
    requires st.table == [] && GroupsOk(st.selector, st.nSelectors, st.nGroups)
    requires Finishes(Start(Identity(256)), syms, 0, NInUse(st) + 1, MaxBlock(st), column) && st.origPtr < |column|
    ensures RunsTo(AllTables(st, coding.lens), DataBits(syms, coding.lens, coding.selector, AlphaSize(st), 0) + rest,
                   Complete(st.(lens := coding.lens), |syms|, column), rest)
  {
    hide Run, Ok, Used, TablesOk, AllFeasible, NextSymbol, MinLen, DataBits, Coded, Steps, Complete, Awaiting;
    var s := st.(lens := coding.lens, mtf := Start(Identity(256)), groupNo := -1, groupPos := 0);
    var big :| AllFeasible(coding.lens, big);
    RunData(s, syms, big, 0, column, rest);
    AwaitFirst(s);
    CompleteAnyway(st.(lens := coding.lens), s, |syms|, column);
  }

  lemma CompleteAnyway(s: State, t: State, n: nat, column: seq<nat>)
    requires n > 0 && s.(groupNo := -1, groupPos := 0, mtf := Start(Identity(256))) == t
    ensures Complete(s, n, column) == Complete(t, n, column)
  {
  }

  /** The machine when it has read the block. */
  ghost function Final(st: State, inUse: seq<bool>, coding: Coding, syms: seq<nat>, column: seq<nat>): State
    requires |inUse| == 256 && Covers(Identity(|coding.lens|), coding.selector)
  {
    var codes := SelectorCodes(coding.selector, Identity(|coding.lens|));
    Complete(st.(inUse16 := GroupFlags(inUse), inUse := inUse, nGroups := |coding.lens|,
                 nSelectors := |coding.selector|,
                 selectorMtf := codes, selector := coding.selector, lens := coding.lens, table := []), |syms|, column)
  }

  lemma AllUsedSome(c: seq<Byte>, inUse: seq<bool>)
    requires AllUsed(c, inUse) && c != []
    ensures |Used(inUse, 256)| > 0
  {
    UsedAt(inUse, c[0], 256);
  }

  /**
    The round trip of a block: for every block b, every permutation p that sorts its
    rotations and every coding that serves, the machine reads exactly the bits of the
    block and has b.
   */
  lemma BlockRestored(st: State, b: Block, p: seq<nat>, origPtr: nat, crc: nat, inUse: seq<bool>, coding: Coding,
                      rest: seq<bool>)
    requires Ok(st) && st.phase == BlockHeader(0) && 1 <= st.blockSize100k <= 9
    requires SortsRotations(b, p) && 0 < |b| <= MaxBlock(st) && origPtr < |b| && p[origPtr] == 0 && crc < Pow2(32)
    requires AllUsed(LastColumn(b, p), inUse)
    requires Serves(coding, ColumnSymbols(LastColumn(b, p), inUse), |Used(inUse, 256)| + 2)
    ensures var s := Restored(st, b, p, origPtr, crc, inUse, coding);
            && RunsTo(st, BlockBits(b, p, origPtr, crc, inUse, coding) + rest, s, rest)
            && Yields(s, b) && s.storedBlockCrc == crc && !s.randomised && s.blockSize100k == st.blockSize100k
  {
    hide Run, Ok, Used, CodedBits, PrologueBits, Serves, Finishes, ColumnSymbols, Covers, SelectorCodes, LastColumn,
      Pow2, Walk,
      Renumbered, SortedTo, Rank;
    var c := LastColumn(b, p);
    var syms, size := ColumnSymbols(c, inUse), |Used(inUse, 256)| + 2;
    AllUsedSome(c, inUse);
    ColumnDecodes(c, inUse, MaxBlock(st));
    OrigPtrFits(origPtr);
    var tail := CodedBits(inUse, coding, syms, size) + rest;
    assert BlockBits(b, p, origPtr, crc, inUse, coding) + rest == PrologueBits(crc, origPtr) + tail;
    RunPrologue(st, crc, origPtr, tail);
    var s1 := st.(storedBlockCrc := crc, randomised := false, origPtr := origPtr, inUse16 := [], phase := Mapping1);
    RunCoded(s1, inUse, coding, syms, Renumbered(c, inUse), rest);
    UnmapsRenumbered(c, inUse);
    forall link | Links(c, link)
      ensures Walk(c, link, origPtr, |c|) == b
    {
      WalkRestoresBlock(b, p, link, origPtr);
    }
  }

  lemma OrigPtrFits(v: nat)
    requires v < 900000
    ensures v < Pow2(24)
  {
    RunLimitPow();
    PowMonotone(21, 24);
  }

  /** The machine when it has read block b. */
  ghost function Restored(st: State, b: Block, p: seq<nat>, origPtr: nat, crc: nat, inUse: seq<bool>,
                          coding: Coding): State
    requires SortsRotations(b, p) && AllUsed(LastColumn(b, p), inUse)
    requires Serves(coding, ColumnSymbols(LastColumn(b, p), inUse), |Used(inUse, 256)| + 2)
  {
    var c := LastColumn(b, p);
    Final(st.(storedBlockCrc := crc, randomised := false, origPtr := origPtr), inUse, coding, ColumnSymbols(c, inUse),
          Renumbered(c, inUse))
  }

  // ----- Blocks as records -----

  /** A block with all the choices made in compressing it. */
  datatype Record = Record(b: Block, p: seq<nat>, origPtr: nat, crc: nat, inUse: seq<bool>, coding: Coding)

  ghost predicate RecordOk(rec: Record) {
    && SortsRotations(rec.b, rec.p) && 0 < |rec.b| && rec.origPtr < |rec.b| && rec.p[rec.origPtr] == 0
       && rec.crc < Pow2(32)
    && AllUsed(LastColumn(rec.b, rec.p), rec.inUse)
    && Serves(rec.coding, ColumnSymbols(LastColumn(rec.b, rec.p), rec.inUse), |Used(rec.inUse, 256)| + 2)
  }

  /** The symbols a record codes. */
  ghost function RecordSymbols(rec: Record): seq<nat>
    requires RecordOk(rec)
  {
    ColumnSymbols(LastColumn(rec.b, rec.p), rec.inUse)
  }

  ghost function RecordBits(rec: Record): seq<bool>
    requires RecordOk(rec)
  {
    BlockBits(rec.b, rec.p, rec.origPtr, rec.crc, rec.inUse, rec.coding)
  }

  /** The machine when it has read a record. */
  ghost function AfterRecord(st: State, rec: Record): State
    requires RecordOk(rec)
  {
    Restored(st, rec.b, rec.p, rec.origPtr, rec.crc, rec.inUse, rec.coding)
  }

  lemma RecordRestored(st: State, rec: Record, rest: seq<bool>)
    requires Ok(st) && st.phase == BlockHeader(0) && 1 <= st.blockSize100k <= 9
    requires RecordOk(rec) && |rec.b| <= MaxBlock(st)
    ensures RunsTo(st, RecordBits(rec) + rest, AfterRecord(st, rec), rest)
    ensures var s := AfterRecord(st, rec);
            Yields(s, rec.b) && s.storedBlockCrc == rec.crc && !s.randomised && s.blockSize100k == st.blockSize100k
  {
    hide SortsRotations, Pow2, LastColumn, AllUsed, Serves, ColumnSymbols, Used, BlockBits, Restored, Yields, RunsTo,
      Ok;
    BlockRestored(st, rec.b, rec.p, rec.origPtr, rec.crc, rec.inUse, rec.coding, rest);
  }
}
