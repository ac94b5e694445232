/**
  BZ2_decompress.  The tables and headers are read as the decoding machine reads them;
  the block data goes through limit/base/perm tables, the sliding move-to-front list and
  the block's own array.  `Advance` shows that all this refines the machine.
 */
module Decompressor {

  import opened Rotations
  import opened BurrowsWheeler
  import opened Bits
  import opened BitStream
  import opened Canonical
  import opened MoveToFront
  import opened MtfEncoder
  import opened InverseTransform
  import opened DecodeMachine
  import opened BlockRoundTrip
  import opened MtfDecoder
  import opened HeaderTables
  import CodeLengths
  import StreamFormat

  predicate InSymbols(p: Phase) {
    p.FirstBits? || p.MoreBits?
  }

  /** Between blocks the two states are the same; within a block they differ in the decoder only. */
  ghost predicate Agree(abs: State, st: State) {
    && abs == st.(mtf := abs.mtf)
    && (!InSymbols(st.phase) && !st.phase.Output? && !st.phase.DataError? ==> abs == st)
  }

  // ----- What a step of the machine can do outside the block data -----

  lemma NextGroupKind(st: State, i: nat)
    requires |st.inUse16| == 16 && i <= 16 && |st.inUse| == 256
    ensures var p := NextGroup(st, i).phase; p.DataError? || p.Selector1? || p.Mapping2?
    ensures NextGroup(st, i).blockSize100k == st.blockSize100k
    decreases 16 - i
  {
    hide Used;
  }

  lemma NextSelectorKind(st: State, j: nat, v: nat)
    requires |st.inUse| == 256 && SelectorsOk(st) && j < st.nGroups
    ensures var r := NextSelector(st, j, v);
            (r.phase.DataError? || r.phase.Selector3? || r.phase.Coding1?) && r.blockSize100k == st.blockSize100k
  {
    hide UndoSelectors;
  }

  lemma NextLengthKind(st: State, curr: nat)
    requires |st.inUse| == 256 && CodingOk(st) && 1 <= curr <= LONGEST
    ensures var r := NextLength(st, curr);
            && (r.phase.DataError? || r.phase.Coding1? || r.phase.Coding2? || r.phase.FirstBits?)
            && (r.phase.FirstBits? ==> r.mtf == Start(Identity(256))) && r.blockSize100k == st.blockSize100k
  {
    hide Used, MinLen, GroupsOk;
  }

  /** Only the last code length leads into the block data, and it starts a new decoder. */
  lemma ResumeKind(st: State, v: nat)
    requires Ok(st) && !InSymbols(st.phase) && Need(st.phase) > 0
    ensures var r := Resume(st, v);
            && !r.phase.MoreBits? && !r.phase.Output?
            && (r.phase.FirstBits? ==> r.mtf == Start(Identity(256)))
            && (st.blockSize100k <= 9 ==> r.blockSize100k <= 9)
  {
    hide Used, UndoSelectors, TablesOk, TableOk, GroupsOk, NextGroup, MinLen, NextLength, NextSelector;
    match st.phase
    case Selector3(j) => NextSelectorKind(st, j, v);
    case Coding2(curr) =>
      if v == 0 {
        NextLengthKind(st, curr);
      }
    case Mapping1 =>
      var s := st.(inUse16 := st.inUse16 + [v == 1]);
      if |s.inUse16| == 16 {
        NextGroupKind(s.(inUse := Repeat(false, 256)), 0);
      }
    case Mapping2(i, j) =>
      var s := if v == 1 then st.(inUse := st.inUse[16 * i + j := true]) else st;
      NextGroupKind(s, i + 1);
    case _ =>
  }

  // ----- Reading a code -----

  datatype Step = NotYet | Found(sym: nat) | NoCode

  /** limit, base and perm against Decide: the range check on perm never matters. */
  lemma LimitBounds(len: seq<nat>, n: nat, v: nat)
    requires n <= LONGEST && v <= Limit(len, n) && len != []
    ensures v - Base(len, n) < |Shorter(len, MaxLen(len) + 1)|
  {
    hide OfLength, First, MinLen, MaxLen, Shorter;
    OfLengthAt(len, 0, |len|);
    ShorterNext(len, len[0]);
    ShorterPrefix(len, len[0] + 1, MaxLen(len) + 1);
    if MinLen(len) <= n <= MaxLen(len) {
      ShorterNext(len, n);
      ShorterPrefix(len, n + 1, MaxLen(len) + 1);
    } else if n < MinLen(len) {
      FirstIsZero(len, n);
    }
  }

  lemma ReadyParts(st: State)
    requires |st.inUse| == 256 && SymbolOk(st)
    ensures 0 <= st.groupNo < |st.selector| && st.selector[st.groupNo] < |st.lens|
    ensures TableOk(st.lens[st.selector[st.groupNo]], AlphaSize(st)) && AlphaSize(st) >= 2
  {
    hide Used;
  }

  /** One turn of the loop in GET_MTF_VAL. */
  method LookUp(codes: Codes, t: nat, zn: nat, zvec: nat, ghost lens: seq<seq<nat>>) returns (r: Step)
    requires CodesOk(codes, lens) && t < |lens| && lens[t] != []
    ensures var len := lens[t];
            var k, perm := zvec - Base(len, zn), Shorter(len, MaxLen(len) + 1);
            match r
            case NoCode => zn > LONGEST || (zvec <= Limit(len, zn) && (k < 0 || k >= |perm|))
            case NotYet => zn <= LONGEST && zvec > Limit(len, zn)
            case Found(sym) => zn <= LONGEST && zvec <= Limit(len, zn) && 0 <= k < |perm| && sym == perm[k]
  {
    hide Base, Limit, Shorter, MaxLen;
    if zn > 20 {
      return NoCode;
    }
    if zvec <= codes.limit[t][zn] {
      LimitBounds(lens[t], zn, zvec);
      var k := zvec - codes.base[t][zn];
      if k < 0 || k >= 258 {
        return NoCode;
      }
      return Found(codes.perm[t][k]);
    }
    return NotYet;
  }

  // ----- The symbol's effect, seen from either state -----

  lemma NextSymbolMtf(st: State, d: Decoder)
    requires |st.inUse| == 256 && Ready(st) && d.Reading? && |d.list| == 256
    requires -1 <= st.groupNo < st.nSelectors && (st.groupPos > 0 ==> st.groupNo >= 0)
    ensures NextSymbol(st.(mtf := d)) == NextSymbol(st).(mtf := d)
  {
    hide Used, MinLen, TablesOk;
  }

  lemma NextSymbolKind(st: State)
    requires |st.inUse| == 256 && Ready(st)
    requires -1 <= st.groupNo < st.nSelectors && (st.groupPos > 0 ==> st.groupNo >= 0)
    ensures var r := NextSymbol(st); (r.phase.DataError? || r.phase.FirstBits?) && r.mtf == st.mtf
    ensures var r := NextSymbol(st); r.inUse == st.inUse && r.blockSize100k == st.blockSize100k && r.lens == st.lens
  {
    hide Used, MinLen, TablesOk;
  }

  // ----- What the tables hold while symbols are read -----

  /** The tables agree with the machine on the group, the bytes in use and the codes. */
  lemma SymbolTables(v: Views, sc: Scalars, st: State)
    requires Stores(v, sc, st) && InSymbols(st.phase) && |st.inUse| == 256 && SymbolOk(st)
    ensures Same(v, sc, st) && SymbolsStored(v, sc.nInUse, st.selector, st.lens) && CodesOk(v.codes, st.lens)
    ensures 0 <= sc.groupNo == st.groupNo < |st.selector| <= |v.selector|
      && v.selector[sc.groupNo] == st.selector[st.groupNo]
    ensures sc.nInUse <= |v.seqToUnseq| && v.seqToUnseq[..sc.nInUse] == Used(st.inUse, 256)
    ensures sc.blockSize100k == st.blockSize100k && sc.origPtr == st.origPtr
  {
    hide Used, CodesOk, TablesOk, MinLen;
    assert v.selector[..|st.selector|][st.groupNo] == st.selector[st.groupNo];
  }

  lemma StoresPhase(v: Views, sc: Scalars, st: State, p: Phase)
    requires Stores(v, sc, st) && InSymbols(st.phase) && (InSymbols(p) || p.Output? || p.DataError?)
    ensures Stores(v, sc.(phase := p), st.(phase := p))
  {
    hide SymbolsStored;
  }

  lemma StoresMtf(v: Views, sc: Scalars, st: State, d: Decoder)
    requires Stores(v, sc, st)
    ensures Stores(v, sc, st.(mtf := d))
  {
    hide SymbolsStored, CodingStored, MapsStored;
  }

  lemma StoresOutput(v: Views, sc: Scalars, st: State)
    requires Stores(v, sc, st) && st.phase.Output?
    ensures Stores(v, sc.(phase := BlockHeader(0)), st.(phase := BlockHeader(0)))
  {
  }

  class DState {
    const reader: BitReader
    const tables: Tables
    var sc: Scalars
    var dec: ColumnDecoder?
    ghost var st: State
    ghost var abs: State

    /** The objects that hold the block data. */
    ghost function Data(): set<object>
      reads this`dec
    {
      if dec == null then {} else {dec, dec.list, dec.list.mtfa, dec.list.mtfbase, dec.store, dec.unzftab}
    }

    ghost predicate DataOk()
      reads this, Data()
    {
      && dec != null && dec.Valid() && |st.inUse| == 256 && dec.seqToUnseq == Used(st.inUse, 256)
         && dec.nblockMAX == MaxBlock(st)
    }

    /** The tables and counters hold st. */
    ghost predicate TablesOk()
      reads this`sc, this`st, tables.Repr()
    {
      tables.Shape() && Stores(tables.View(), sc, st)
    }

    /** The parts of the decoder share nothing. */
    ghost predicate Apart()
      reads this`dec
    {
      && reader !in Data() && this !in Data() && reader !in tables.Repr() && this !in tables.Repr()
      && tables.Repr() !! Data()
    }

    ghost predicate Valid()
      reads this, Data(), reader, tables.Repr()
    {
      && reader.Valid() && Apart() && TablesOk()
      && Ok(abs) && Agree(abs, st) && st.blockSize100k <= 9
      && (InSymbols(st.phase) ==> DataOk() && st.mtf == Start(Identity(256)) && abs.mtf == dec.Abs())
      && (st.phase.Output? && dec != null ==> DataOk() && abs.mtf == Finished(dec.out))
    }

    constructor ()
      ensures Valid() && st == abs == Initial() && reader.Pending() == [] && fresh(reader) && fresh(tables.Repr())
        && dec == null
    {
      hide Stores, Ok;
      var r := new BitReader();
      var t := new Tables();
      reader, tables := r, t;
      sc, dec, st, abs := START, null, Initial(), Initial();
      new;
      InitialStart();
    }

    /** All tables are there: an empty column. */
    method StartData()
      requires Ok(st) && InSymbols(st.phase) && TablesOk()
      modifies this`dec
      ensures DataOk() && dec.Abs() == Start(Identity(256)) && fresh(Data())
    {
      hide Ok, Used, DecodeMachine.TablesOk, ColumnDecoder.Valid, Start, Identity, ColumnDecoder.Abs, Stores, SymbolOk,
        Same, SymbolsStored;
      SymbolParts(st);
      SymbolTables(tables.View(), sc, st);
      dec := new ColumnDecoder(tables.seqToUnseq[..sc.nInUse], 100000 * sc.blockSize100k);
    }

    /** Headers and tables: the counters and arrays after one wait. */
    method Receive(v: nat) returns (r: Scalars)
      requires TablesOk() && Ok(st) && !InSymbols(st.phase) && Need(st.phase) > 0
      modifies tables.Repr()
      ensures Stores(tables.View(), r, Resume(st, v))
    {
      hide Ok, Stores, Resume;
      StoresIs(tables.View(), sc, st);
      if sc.phase.Mapping1? {
        r := tables.ReceiveGroupUse(v, sc, st);
      } else if sc.phase.Mapping2? {
        r := tables.ReceiveUse(v, sc, st);
      } else if sc.phase.Selector3? {
        r := tables.ReceiveSelector(v, sc, st);
      } else if sc.phase.Coding2? {
        r := tables.ReceiveLength(v, sc, st);
      } else if IsMagic(sc.phase) {
        r := ReceiveMagic(v, sc, tables.View(), st);
      } else if IsNumber(sc.phase) {
        r := ReceiveNumber(v, sc, tables.View(), st);
      } else {
        r := ReceiveCount(v, sc, tables.View(), st);
      }
    }

    /** Headers and tables. */
    method AdvanceHeader(v: nat)
      requires Valid() && !InSymbols(st.phase) && Need(st.phase) > 0
      modifies this, tables.Repr()
      ensures Valid() && abs == Resume(old(abs), v) && !abs.phase.Output?
      ensures fresh(Data() - old(Data()))
    {
      hide Resume, Ok, Used, Stores, DataOk, Start, Identity, Need, ColumnDecoder.Abs, BitReader.Valid, Tables.Shape,
        Tables.View;
      HeaderNotStopped(st, abs);
      NextOk(st, v);
      ResumeKind(st, v);
      sc := Receive(v);
      st := Resume(st, v);
      abs := st;
      PhaseStored();
      if sc.phase.FirstBits? {
        StartData();
      }
    }

    /** The symbol makes the block too long, or a run too large. */
    method Reject()
      requires TablesOk() && InSymbols(st.phase)
      modifies this`sc, this`st
      ensures TablesOk() && st == Fail(old(st))
    {
      hide Stores;
      StoresPhase(tables.View(), sc, st, DataError);
      sc, st := sc.(phase := DataError), Fail(st);
    }

    /** EOB: the column is complete, and origPtr must be a row of it. */
    method EndColumn(nblock: nat) returns (ok: bool)
      requires TablesOk() && InSymbols(st.phase)
      modifies this`sc, this`st
      ensures TablesOk() && ok == (old(st).origPtr < nblock) && st == if ok then old(st).(phase := Output)
        else Fail(old(st))
    {
      hide Stores;
      OrigPtrStored();
      ok := sc.origPtr < nblock;
      if ok {
        StoresPhase(tables.View(), sc, st, Output);
        sc, st := sc.(phase := Output), st.(phase := Output);
      } else {
        Reject();
      }
    }

    lemma OrigPtrStored()
      requires TablesOk()
      ensures sc.origPtr == st.origPtr
    {
    }

    /** On to the next symbol. */
    method WaitOn()
      requires TablesOk() && InSymbols(st.phase) && |st.inUse| == 256 && SymbolOk(st)
      modifies this`sc, this`st
      ensures TablesOk() && st == NextSymbol(old(st))
    {
      hide Stores, Same, SymbolsStored, NextSymbol, Used, DecodeMachine.TablesOk, GroupsOk, CodesOk;
      SymbolTables(tables.View(), sc, st);
      sc := tables.WaitForSymbol(sc, st);
      st := NextSymbol(st);
    }

    /** The symbol goes into the column; the tables do not change. */
    method TakeInto(sym: nat) returns (r: Outcome)
      requires reader.Valid() && Apart() && TablesOk() && dec != null && dec.Valid() && sym <= |dec.seqToUnseq| + 1
      modifies Data()
      ensures reader.Valid() && Apart() && TablesOk()
      ensures var d := MoveToFront.Step(old(dec.Abs()), sym, |dec.seqToUnseq| + 1, dec.nblockMAX);
              match r
              case Bad => d == Corrupt
              case EndOfBlock => dec.Valid() && d == Finished(dec.out)
              case More => dec.Valid() && d == dec.Abs()
    {
      hide Stores, Tables.Shape, ColumnDecoder.Valid, BitReader.Valid, MoveToFront.Step, ColumnDecoder.Abs;
      ghost var view := tables.View();
      r := dec.Take(sym);
      assert tables.View() == view;
    }

    lemma NotInTables()
      requires Apart()
      ensures this !in tables.Repr()
    {
    }

    /** What TakeSymbol makes of each outcome. */
    lemma Outcomes(a: State, sym: nat, d: Decoder)
      requires |a.inUse| == 256 && SymbolOk(a) && sym < AlphaSize(a)
        && d == MoveToFront.Step(a.mtf, sym, NInUse(a) + 1, MaxBlock(a))
      ensures d == Corrupt ==> TakeSymbol(a, sym) == Fail(a)
      ensures d.Finished? ==>
        TakeSymbol(a, sym) == if a.origPtr < |d.column| then a.(mtf := d, phase := Output) else Fail(a)
      ensures d.Reading? ==> Ready(a.(mtf := d)) && TakeSymbol(a, sym) == NextSymbol(a.(mtf := d))
    {
      hide Used, DecodeMachine.TablesOk, GroupsOk, MoveToFront.Step, NextSymbol;
    }

    /** A symbol of the block data. */
    method TakeFound(sym: nat)
      requires Valid() && InSymbols(st.phase) && |abs.inUse| == 256 && SymbolOk(abs) && sym < AlphaSize(abs)
      modifies this, Data()
      ensures Valid() && abs == TakeSymbol(old(abs), sym) && dec == old(dec)
    {
      hide Ok, Used, DecodeMachine.TablesOk, GroupsOk, MoveToFront.Step, ColumnDecoder.Valid, BitReader.Valid,
        NextSymbol, Identity,
        TablesOk, Apart, TakeSymbol;
      TakeSymbolOk(abs, sym);
      SizeFits(st.inUse);
      assert this !in tables.Repr() by { NotInTables(); }
      Outcomes(abs, sym, MoveToFront.Step(abs.mtf, sym, NInUse(abs) + 1, MaxBlock(abs)));
      var r := TakeInto(sym);
      match r
      case Bad =>
        Reject();
        abs := Fail(abs);
      case EndOfBlock =>
        NblockIs(dec);
        var ok := EndColumn(dec.nblock);
        abs := if ok then abs.(mtf := Finished(dec.out), phase := Output) else Fail(abs);
      case More =>
        NextSymbolMtf(st, dec.Abs());
        NextSymbolKind(st);
        WaitOn();
        abs := NextSymbol(abs.(mtf := dec.Abs()));
    }

    /** What limit, base and perm of the group say of zn bits that spell zvec. */
    method LookUpHere(zn: nat, zvec: nat) returns (r: Step)
      requires TablesOk() && InSymbols(st.phase) && |st.inUse| == 256 && SymbolOk(st)
      ensures var len := st.lens[st.selector[st.groupNo]];
              var k, perm := zvec - Base(len, zn), Shorter(len, MaxLen(len) + 1);
              match r
              case NoCode => zn > LONGEST || (zvec <= Limit(len, zn) && (k < 0 || k >= |perm|))
              case NotYet => zn <= LONGEST && zvec > Limit(len, zn)
              case Found(sym) => zn <= LONGEST && zvec <= Limit(len, zn) && 0 <= k < |perm| && sym == perm[k]
    {
      hide Used, CodesOk, DecodeMachine.TablesOk, GroupsOk, Limit, Base, Shorter, MaxLen, Stores, Same, SymbolsStored;
      ReadyParts(st);
      SymbolTables(tables.View(), sc, st);
      var t := tables.selector[sc.groupNo];
      r := LookUp(tables.codes, t, zn, zvec, st.lens);
    }

    /** A longer code is needed. */
    method WaitMore(zn: nat, zvec: nat)
      requires TablesOk() && InSymbols(st.phase)
      modifies this`sc, this`st
      ensures TablesOk() && st == old(st).(phase := MoreBits(zn, zvec))
    {
      hide Stores;
      StoresPhase(tables.View(), sc, st, MoreBits(zn, zvec));
      sc, st := sc.(phase := MoreBits(zn, zvec)), st.(phase := MoreBits(zn, zvec));
    }

    /** zn bits of a code are read and spell zvec. */
    method AdvanceSymbol(zn: nat, zvec: nat)
      requires Valid() && InSymbols(st.phase) && |abs.inUse| == 256 && SymbolOk(abs)
      modifies this, Data()
      ensures Valid() && abs == Decide(old(abs), zn, zvec) && dec == old(dec)
    {
      hide Ok, Used, DecodeMachine.TablesOk, GroupsOk, ColumnDecoder.Valid, BitReader.Valid, TakeSymbol, Limit, Base,
        Shorter,
        MaxLen, Identity, ColumnDecoder.Abs, TablesOk;
      DecideOk(abs, zn, zvec);
      ReadyParts(abs);
      var r := LookUpHere(zn, zvec);
      match r
      case NoCode =>
        Reject();
        abs := Fail(abs);
      case NotYet =>
        WaitMore(zn + 1, zvec);
        abs := abs.(phase := MoreBits(zn + 1, zvec));
      case Found(sym) =>
        TakeFound(sym);
    }

    /** From one wait to the next: exactly a step of the machine. */
    method Advance(v: nat)
      requires Valid() && Need(st.phase) > 0
      modifies this, Data(), tables.Repr()
      ensures Valid() && abs == Resume(old(abs), v) && fresh(Data() - old(Data()))
      ensures abs.phase.Output? ==> dec != null
    {
      hide Ok, ColumnDecoder.Valid, Used, Decide, BitReader.Valid, Stores;
      StoresIs(tables.View(), sc, st);
      if InSymbols(sc.phase) {
        SymbolParts(abs);
        if sc.phase.FirstBits? {
          AdvanceSymbol(sc.phase.zn, v);
        } else {
          AdvanceSymbol(sc.phase.zn, 2 * sc.phase.zvec + v);
        }
      } else {
        AdvanceHeader(v);
      }
    }

    lemma PhaseStored()
      requires TablesOk()
      ensures sc.phase == st.phase
    {
    }

    lemma ReaderApart()
      requires Valid()
      ensures reader !in Data() && reader !in tables.Repr()
    {
      hide Ok, TablesOk, DataOk, Agree;
    }

    lemma Known()
      requires Valid()
      ensures reader.Valid() && Ok(abs) && |abs.inUse| == 256 && st.phase == abs.phase
      ensures st.storedCombinedCrc == abs.storedCombinedCrc && st.storedBlockCrc == abs.storedBlockCrc
      ensures sc.phase == st.phase && sc.storedCombinedCrc == st.storedCombinedCrc
        && sc.storedBlockCrc == st.storedBlockCrc
      ensures sc.origPtr == st.origPtr
    {
      hide ColumnDecoder.Valid, Used;
    }

    /** s->state = BZ_X_BLKHDR_1 */
    method LookForBlock()
      requires Valid() && st.phase.Output?
      modifies this`sc, this`st, this`abs
      ensures Valid() && abs == StreamFormat.NextBlock(old(abs)) && dec == old(dec)
    {
      hide Ok, BitReader.Valid, ColumnDecoder.Valid, Used, Stores;
      UsedSize(abs);
      StoresOutput(tables.View(), sc, st);
      StoresMtf(tables.View(), sc.(phase := BlockHeader(0)), st.(phase := BlockHeader(0)), Corrupt);
      sc := sc.(phase := BlockHeader(0));
      st, abs := StreamFormat.NextBlock(st), StreamFormat.NextBlock(abs);
    }

    /** GET_BITS touches the bit buffer only. */
    method GetBits(n: nat) returns (ok: bool, v: nat)
      requires Valid() && n <= 24
      modifies reader
      ensures Valid() && reader.input == old(reader.input)
      ensures ok == (n <= |old(reader.Pending())|)
      ensures ok ==> v == FromBits(old(reader.Pending())[..n]) && reader.Pending() == old(reader.Pending())[n..]
      ensures !ok ==> reader.Pending() == old(reader.Pending()) && reader.nextIn == |reader.input|
    {
      hide Ok, Stores, Agree, BitReader.Valid, BitReader.Pending, ColumnDecoder.Valid, Used, Identity;
      ok, v := reader.GetBits(n);
    }

    /** BZ2_decompress: run until the machine stops or the input is used up. */
    method Decompress()
      requires Valid()
      modifies this, reader, Data(), tables.Repr()
      ensures Valid() && fresh(Data() - old(Data()))
      ensures Ok(old(abs)) && Run(old(abs), old(reader.Pending())) == (abs, reader.Pending())
      ensures reader.input == old(reader.input)
      ensures Need(abs.phase) > 0 ==> reader.nextIn == |reader.input| && Need(abs.phase) > |reader.Pending()|
      ensures abs.phase.Output? && !old(abs.phase.Output?) ==> dec != null
    {
      hide Ok, Valid, Data, BitReader.Valid, BitReader.Pending, Run, Resume;
      Known();
      while true
        invariant Valid() && fresh(Data() - old(Data())) && reader.input == old(reader.input) && reader.Valid()
          && Ok(abs)
        invariant Run(abs, reader.Pending()) == Run(old(abs), old(reader.Pending()))
        invariant abs.phase.Output? && !old(abs.phase.Output?) ==> dec != null
        decreases |reader.Pending()|
      {
        Known();
        NeedSmall(abs);
        ghost var bits := reader.Pending();
        var n := Need(sc.phase);
        if n == 0 {
          RunNone(abs, bits);
          break;
        }
        var ok, v := GetBits(n);
        if !ok {
          RunNone(abs, bits);
          break;
        }
        RunOne(abs, bits);
        ReaderApart();
        ghost var before := Data();
        label L:
        Advance(v);
        Known();
        forall o: object | o in Data() && o !in old(Data())
          ensures fresh(o)
        {
          assert o in before - old(Data()) || (o in Data() - before && fresh@L(o));
        }
      }
    }
  }

  lemma UsedSize(st: State)
    requires Ok(st)
    ensures |st.inUse| == 256
  {
  }

  lemma InitialStart()
    ensures Ok(Initial())
  {
  }

  lemma NeedSmall(st: State)
    requires Ok(st)
    ensures Need(st.phase) <= 24
  {
  }

  lemma RunOne(st: State, bits: seq<bool>)
    requires Ok(st) && 0 < Need(st.phase) <= |bits|
    ensures var n := Need(st.phase);
            Ok(Resume(st, FromBits(bits[..n]))) && Run(st, bits) == Run(Resume(st, FromBits(bits[..n])), bits[n..])
  {
    hide Ok, Resume;
    NextOk(st, FromBits(bits[..Need(st.phase)]));
  }

  lemma RunNone(st: State, bits: seq<bool>)
    requires Ok(st) && (Need(st.phase) == 0 || Need(st.phase) > |bits|)
    ensures Run(st, bits) == (st, bits)
  {
    hide Ok, Resume;
  }

  lemma NblockIs(dec: ColumnDecoder)
    requires dec.Valid()
    ensures dec.nblock == |dec.out|
  {
  }

  lemma SizeFits(inUse: seq<bool>)
    requires |inUse| == 256
    ensures |Used(inUse, 256)| <= 256
  {
  }

  lemma HeaderNotStopped(st: State, abs: State)
    requires Agree(abs, st) && !InSymbols(st.phase) && Need(st.phase) > 0
    ensures abs == st
  {
  }

  lemma SymbolParts(st: State)
    requires Ok(st) && InSymbols(st.phase)
    ensures |st.inUse| == 256 && 0 < |Used(st.inUse, 256)| <= 256
      && DecodeMachine.TablesOk(st.lens, |Used(st.inUse, 256)| + 2)
    ensures SymbolOk(st)
  {
  }
}
