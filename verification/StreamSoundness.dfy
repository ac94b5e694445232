/** What a decompressor may conclude about its input, whatever that input is. */
module StreamSoundness {

  import opened Rotations
  import opened BurrowsWheeler
  import opened Permutations
  import opened Bits
  import opened Checksum
  import opened MoveToFront
  import opened MtfEncoder
  import opened Canonical
  import opened DecodeMachine
  import opened BlockRoundTrip
  import opened RunLength
  import opened StreamFormat

  // ----- The blocks behind the present state -----

  /**
    The bits fed so far hold these blocks and then what the machine, in state st, has still
    before it: whatever that is, and whatever comes, is a stream behind those blocks.
   */
  ghost predicate Explains(table: Table, fed: seq<bool>, blocks: seq<Block>, st: State, bits: seq<bool>, combined: bv32)
  {
    && Ok(st) && Ok(Initial())
    && forall future, more, rest ::
         Decodes(table, st, bits + future, combined, more, rest) ==>
         Decodes(table, Initial(), fed + future, 0, blocks + more, rest)
  }

  lemma ExplainsStart(table: Table, bits: seq<bool>)
    ensures Explains(table, bits, [], Initial(), bits, 0)
  {
    hide Decodes, Ok;
    InitialOk();
    forall future, more, rest | Decodes(table, Initial(), bits + future, 0, more, rest)
      ensures Decodes(table, Initial(), bits + future, 0, [] + more, rest)
    {
      assert [] + more == more;
    }
  }

  /** More input. */
  lemma ExplainsFed(table: Table, fed: seq<bool>, blocks: seq<Block>, st: State, bits: seq<bool>, combined: bv32,
                    late: seq<bool>)
    requires Explains(table, fed, blocks, st, bits, combined)
    ensures Explains(table, fed + late, blocks, st, bits + late, combined)
  {
    hide Decodes, Ok;
    forall future, more, rest | Decodes(table, st, bits + late + future, combined, more, rest)
      ensures Decodes(table, Initial(), fed + late + future, 0, blocks + more, rest)
    {
      assert bits + late + future == bits + (late + future) && fed + late + future == fed + (late + future);
    }
  }

  lemma DecodesBefore(table: Table, st: State, bits: seq<bool>, st': State, bits': seq<bool>, future: seq<bool>,
                      combined: bv32, more: seq<Block>, rest: seq<bool>)
    requires Ok(st) && Ok(st') && Run(st, bits) == (st', bits')
    requires Decodes(table, st', bits' + future, combined, more, rest)
    ensures Decodes(table, st, bits + future, combined, more, rest)
  {
    hide Ok, Run, Yields, Whole, FinalCrc, Combine, Unpacked, NextBlock;
    RunAppend(st, bits, future);
  }

  /** Running on. */
  lemma ExplainsRun(table: Table, fed: seq<bool>, blocks: seq<Block>, st: State, bits: seq<bool>, combined: bv32,
                    st': State, bits': seq<bool>)
    requires Explains(table, fed, blocks, st, bits, combined) && Run(st, bits) == (st', bits')
    ensures Explains(table, fed, blocks, st', bits', combined)
  {
    hide Decodes, Ok, Run;
    RunOk(st, bits);
    forall future, more, rest | Decodes(table, st', bits' + future, combined, more, rest)
      ensures Decodes(table, Initial(), fed + future, 0, blocks + more, rest)
    {
      DecodesBefore(table, st, bits, st', bits', future, combined, more, rest);
    }
  }

  lemma StoppedRun(st: State, bits: seq<bool>)
    requires Ok(st) && Need(st.phase) == 0
    ensures Run(st, bits) == (st, bits)
  {
    hide Ok, Resume;
  }

  lemma DecodesFirst(table: Table, st: State, bits: seq<bool>, combined: bv32, s: Block, more: seq<Block>,
                     rest: seq<bool>)
    requires Ok(st) && Yields(st, s) && Whole(s) && st.storedBlockCrc == FinalCrc(table, Unpacked(s)) as nat
    requires |st.inUse| == 256 && st.phase.Output?
    requires Decodes(table, NextBlock(st), bits, Combine(combined, FinalCrc(table, Unpacked(s))), more, rest)
    ensures Decodes(table, st, bits, combined, [s] + more, rest)
  {
    hide Ok, Yields, Whole, FinalCrc, Combine, Unpacked, NextBlock, Run;
    StoppedRun(st, bits);
    assert ([s] + more)[1..] == more;
  }

  /** One more block that is whole and has its checksum. */
  lemma ExplainsBlock(table: Table, fed: seq<bool>, blocks: seq<Block>, st: State, bits: seq<bool>, combined: bv32,
                      s: Block)
    requires Explains(table, fed, blocks, st, bits, combined) && |st.inUse| == 256 && st.phase.Output?
    requires Yields(st, s) && Whole(s) && st.storedBlockCrc == FinalCrc(table, Unpacked(s)) as nat
    ensures Explains(table, fed, blocks + [s], NextBlock(st), bits, Combine(combined, FinalCrc(table, Unpacked(s))))
  {
    hide Decodes, Ok, Yields, Whole, FinalCrc, Combine, Unpacked, NextBlock;
    var c := Combine(combined, FinalCrc(table, Unpacked(s)));
    NextBlockOk(st);
    forall future, more, rest | Decodes(table, NextBlock(st), bits + future, c, more, rest)
      ensures Decodes(table, Initial(), fed + future, 0, blocks + [s] + more, rest)
    {
      DecodesFirst(table, st, bits + future, combined, s, more, rest);
      assert blocks + [s] + more == blocks + ([s] + more);
    }
  }

  lemma NextBlockOk(st: State)
    requires |st.inUse| == 256
    ensures Ok(NextBlock(st))
  {
  }

  /** At the end of a stream with the right checksum, the input is a stream of exactly these blocks. */
  lemma ExplainsEnd(table: Table, fed: seq<bool>, blocks: seq<Block>, st: State, bits: seq<bool>, combined: bv32)
    requires Explains(table, fed, blocks, st, bits, combined) && st.phase.StreamEnd?
    requires st.storedCombinedCrc == combined as nat
    ensures Ok(Initial()) && Decodes(table, Initial(), fed, 0, blocks, bits)
  {
    hide Ok, Yields, Whole, FinalCrc, Combine, Unpacked, NextBlock, Run;
    StoppedRun(st, bits);
    assert bits + [] == bits && fed + [] == fed && blocks + [] == blocks;
    assert Decodes(table, st, bits + [], combined, [], bits);
  }

  lemma UnpackedPush(blocks: seq<Block>, s: Block)
    ensures UnpackedAll(blocks + [s]) == UnpackedAll(blocks) + Unpacked(s)
  {
    hide Unpacked;
    if blocks == [] {
      assert [s][1..] == [] && [] + [s] == [s];
      assert Unpacked(s) + [] == Unpacked(s);
      assert UnpackedAll([s]) == Unpacked(s) + UnpackedAll([]);
    } else {
      assert (blocks + [s])[1..] == blocks[1..] + [s];
      UnpackedPush(blocks[1..], s);
    }
  }

  /** The links of a column are unique, so that one walk is every walk. */
  lemma LinksUnique(c: seq<Byte>, l: seq<nat>, m: seq<nat>)
    requires Links(c, l) && Links(c, m)
    ensures l == m
  {
    hide Rank;
    RanksArePermutation(c);
    forall k | 0 <= k < |c|
      ensures l[k] == m[k]
    {
      assert Ranks(c)[l[k]] == k && Ranks(c)[m[k]] == k;
    }
  }

  lemma WalkYields(st: State, link: seq<nat>, s: Block)
    requires st.phase == Output && |st.inUse| == 256 && OutputOk(st)
    requires forall k :: 0 <= k < |st.mtf.column| ==> st.mtf.column[k] < |Used(st.inUse, 256)|
    requires var c := Unmapped(st.mtf.column, Used(st.inUse, 256));
             Links(c, link) && Walk(c, link, st.origPtr, |c|) == s
    ensures Yields(st, s)
  {
    hide Walk, Used, Rank;
    var c := Unmapped(st.mtf.column, Used(st.inUse, 256));
    forall l | Links(c, l)
      ensures Walk(c, l, st.origPtr, |c|) == s
    {
      LinksUnique(c, link, l);
    }
  }

  // ----- The magic bytes -----

  /** What byte k of a stream may be. */
  predicate MagicByte(k: nat, c: Byte) {
    match k
    case 0 => c == 0x42
    case 1 => c == 0x5a
    case 2 => c == 0x68
    case _ => 0x31 <= c <= 0x39
  }

  /** One of the first four bytes, as far as they have come, is wrong. */
  predicate WrongMagic(s: seq<Byte>) {
    exists k :: 0 <= k < 4 && k < |s| && !MagicByte(k, s[k])
  }

  predicate PastMagic(p: Phase) {
    !p.Magic? && !p.DataErrorMagic?
  }

  lemma {:induction false} StaysPast(st: State, bits: seq<bool>)
    requires Ok(st) && PastMagic(st.phase)
    ensures PastMagic(Run(st, bits).0.phase)
    decreases |bits|
  {
    hide Ok, Resume;
    var n := Need(st.phase);
    if 0 < n <= |bits| {
      var v := FromBits(bits[..n]);
      NextOk(st, v);
      ResumePast(st, v);
      StaysPast(Resume(st, v), bits[n..]);
    }
  }

  lemma ResumePast(st: State, v: nat)
    requires Ok(st) && PastMagic(st.phase)
    ensures PastMagic(Resume(st, v).phase)
  {
    hide Used, UndoSelectors, Step, MinLen, MaxLen, Limit, Base, Shorter, NextGroup, NextSelector, NextSymbol, Decide,
      TakeSymbol,
      NextLength, GroupsOk, TablesOk;
    match st.phase
    case Mapping1 =>
      if |st.inUse16| == 15 {
        GroupPast(st.(inUse16 := st.inUse16 + [v == 1], inUse := Repeat(false, 256)), 0);
      }
    case Mapping2(i, j) => GroupPast(if v == 1 then st.(inUse := st.inUse[16 * i + j := true]) else st, i + 1);
    case Selector3(j) => SelectorPast(st, j, v);
    case Coding2(curr) =>
      if v == 0 {
        LengthPast(st, curr);
      }
    case FirstBits(zn) => DecidePast(st, zn, v);
    case MoreBits(zn, zvec) => DecidePast(st, zn, 2 * zvec + v);
    case _ =>
  }

  lemma {:induction false} GroupPast(st: State, i: nat)
    requires |st.inUse16| == 16 && i <= 16 && |st.inUse| == 256
    ensures PastMagic(NextGroup(st, i).phase)
    decreases 16 - i
  {
    hide Used;
    if i < 16 {
      GroupPast(st, i + 1);
    }
  }

  lemma SelectorPast(st: State, j: nat, v: nat)
    requires |st.inUse| == 256 && SelectorsOk(st) && j < st.nGroups
    ensures PastMagic(NextSelector(st, j, v).phase)
  {
    hide UndoSelectors;
  }

  lemma SymbolPast(st: State)
    requires |st.inUse| == 256 && Ready(st)
    requires -1 <= st.groupNo < st.nSelectors && (st.groupPos > 0 ==> st.groupNo >= 0)
    ensures PastMagic(NextSymbol(st).phase)
  {
    hide Used, MinLen, TablesOk;
  }

  lemma LengthPast(st: State, curr: nat)
    requires |st.inUse| == 256 && CodingOk(st) && 1 <= curr <= LONGEST
    ensures PastMagic(NextLength(st, curr).phase)
  {
    hide Used, MinLen, GroupsOk, NextSymbol;
    var table := st.table + [curr];
    if |table| >= AlphaSize(st) && |st.lens| + 1 >= st.nGroups {
      NextLengthOk(st, curr);
      LengthReady(st, curr);
      SymbolPast(st.(lens := st.lens + [table], table := [], groupNo := -1, groupPos := 0,
                     mtf := Start(Identity(256))));
    }
  }

  lemma LengthReady(st: State, curr: nat)
    requires |st.inUse| == 256 && CodingOk(st) && 1 <= curr <= LONGEST
    requires |st.table| + 1 >= AlphaSize(st) && |st.lens| + 1 >= st.nGroups
    ensures var s := st.(lens := st.lens + [st.table + [curr]], table := [], groupNo := -1, groupPos := 0,
                         mtf := Start(Identity(256)));
            Ready(s) && -1 < s.nSelectors
  {
    hide Used;
  }

  lemma DecidePast(st: State, zn: nat, zvec: nat)
    requires |st.inUse| == 256 && SymbolOk(st) && PastMagic(st.phase)
    ensures PastMagic(Decide(st, zn, zvec).phase)
  {
    hide Used, MinLen, MaxLen, Shorter, Limit, Base, TakeSymbol;
    var len := st.lens[st.selector[st.groupNo]];
    var k := zvec - Base(len, zn);
    var perm := Shorter(len, MaxLen(len) + 1);
    DecideOk(st, zn, zvec);
    if zn <= LONGEST && zvec <= Limit(len, zn) && 0 <= k < |perm| {
      TakePast(st, perm[k]);
    }
  }

  lemma TakePast(st: State, sym: nat)
    requires |st.inUse| == 256 && SymbolOk(st) && sym < AlphaSize(st) && PastMagic(st.phase)
    ensures PastMagic(TakeSymbol(st, sym).phase)
  {
    hide Used, MinLen, TablesOk, GroupsOk, Step, NextSymbol;
    var mtf := Step(st.mtf, sym, NInUse(st) + 1, MaxBlock(st));
    if mtf.Reading? {
      TakeSymbolOk(st, sym);
      SymbolPast(st.(mtf := mtf));
    }
  }

  /** One byte of the header. */
  lemma MagicStep(st: State, c: Byte)
    requires Ok(st) && st.phase.Magic?
    ensures var k := st.phase.k;
            var r := Resume(st, c);
            && k < 4 && Ok(r)
            && (if !MagicByte(k, c) then r.phase.DataErrorMagic? else if k < 3 then r.phase == Magic(k + 1)
               else PastMagic(r.phase))
  {
    hide Used;
    NextOk(st, c);
  }

  lemma {:induction false} MagicRun(st: State, k: nat, s: seq<Byte>)
    requires Ok(st) && st.phase == Magic(k)
    ensures Run(st, BytesToBits(s)).0.phase.DataErrorMagic? <==>
            exists i :: 0 <= i < |s| && k + i < 4 && !MagicByte(k + i, s[i])
    decreases |s|
  {
    hide Ok, Resume, ToBits, Run;
    if s == [] {
      NothingToRun(st);
    } else {
      var rest := BytesToBits(s[1..]);
      MagicStep(st, s[0]);
      ByteFits(s[0]);
      RunStep(st, s[0], 8, rest);
      var r := Resume(st, s[0]);
      if !MagicByte(k, s[0]) {
        StoppedRun(r, rest);
        assert !MagicByte(k + 0, s[0]);
      } else if k < 3 {
        MagicRun(r, k + 1, s[1..]);
        if exists i :: 0 <= i < |s| && k + i < 4 && !MagicByte(k + i, s[i]) {
          var i :| 0 <= i < |s| && k + i < 4 && !MagicByte(k + i, s[i]);
          assert s[1..][i - 1] == s[i] && !MagicByte(k + 1 + (i - 1), s[1..][i - 1]);
        }
        if exists i :: 0 <= i < |s[1..]| && k + 1 + i < 4 && !MagicByte(k + 1 + i, s[1..][i]) {
          var i :| 0 <= i < |s[1..]| && k + 1 + i < 4 && !MagicByte(k + 1 + i, s[1..][i]);
          assert s[i + 1] == s[1..][i] && !MagicByte(k + (i + 1), s[i + 1]);
        }
      } else {
        StaysPast(r, rest);
        forall i | 0 <= i < |s| && k + i < 4
          ensures MagicByte(k + i, s[i])
        {
          assert i == 0;
        }
      }
    }
  }

  lemma NothingToRun(st: State)
    requires Ok(st) && st.phase.Magic?
    ensures Run(st, []) == (st, []) && BytesToBits([]) == []
  {
    hide Used;
  }

  /** BZ_DATA_ERROR_MAGIC is for wrong magic bytes and for nothing else. */
  lemma MagicErrorIff(s: seq<Byte>)
    ensures Ok(Initial()) && (Run(Initial(), BytesToBits(s)).0.phase.DataErrorMagic? <==> WrongMagic(s))
  {
    hide Ok, Run, BytesToBits;
    InitialOk();
    MagicRun(Initial(), 0, s);
    if WrongMagic(s) {
      var k :| 0 <= k < 4 && k < |s| && !MagicByte(k, s[k]);
      assert !MagicByte(0 + k, s[k]);
    }
  }

  // ----- The header, as long as no block has come -----

  /** Before the first block the machine is where it comes to from the beginning; behind it the header is behind. */
  ghost predicate Header(fed: seq<Byte>, blocks: seq<Block>, st: State, bits: seq<bool>) {
    && Ok(st) && Ok(Initial())
    && if blocks == [] then Run(Initial(), BytesToBits(fed)) == Run(st, bits)
       else PastMagic(st.phase) && PastMagic(Run(Initial(), BytesToBits(fed)).0.phase)
  }

  lemma HeaderStart()
    ensures Header([], [], Initial(), [])
  {
    hide Run;
    InitialOk();
  }

  lemma HeaderFed(fed: seq<Byte>, blocks: seq<Block>, st: State, bits: seq<bool>, more: seq<Byte>)
    requires Header(fed, blocks, st, bits)
    ensures Header(fed + more, blocks, st, bits + BytesToBits(more))
  {
    hide Run, Ok, BytesToBits;
    BytesToBitsAppend(fed, more);
    RunAppend(Initial(), BytesToBits(fed), BytesToBits(more));
    if blocks == [] {
      RunAppend(st, bits, BytesToBits(more));
    } else {
      var s := Run(Initial(), BytesToBits(fed));
      StaysPast(s.0, s.1 + BytesToBits(more));
    }
  }

  lemma HeaderRun(fed: seq<Byte>, blocks: seq<Block>, st: State, bits: seq<bool>, st': State, bits': seq<bool>)
    requires Header(fed, blocks, st, bits) && Run(st, bits) == (st', bits')
    ensures Header(fed, blocks, st', bits')
  {
    hide Run, Ok, BytesToBits;
    RunOk(st, bits);
    if blocks == [] {
      RunAppend(st, bits, []);
      assert bits + [] == bits && bits' + [] == bits';
    } else {
      StaysPast(st, bits);
    }
  }

  lemma HeaderBlock(fed: seq<Byte>, blocks: seq<Block>, st: State, bits: seq<bool>, s: Block)
    requires Header(fed, blocks, st, bits) && st.phase.Output? && |st.inUse| == 256
    ensures Header(fed, blocks + [s], NextBlock(st), bits)
  {
    hide Run, Ok, BytesToBits;
    StoppedRun(st, bits);
    NextBlockOk(st);
  }

  lemma HeaderStopped(fed: seq<Byte>, blocks: seq<Block>, st: State, bits: seq<bool>)
    requires Header(fed, blocks, st, bits) && (Need(st.phase) == 0 || Need(st.phase) > |bits|)
    ensures st.phase.DataErrorMagic? <==> WrongMagic(fed)
  {
    hide Ok, BytesToBits, WrongMagic, Resume;
    MagicErrorIff(fed);
  }
}
