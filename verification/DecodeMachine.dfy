/**
  BZ2_decompress as a state machine over bits.

  Each phase is a place where the program waits in GET_BITS; `Need` is the number of
  bits it waits for and `Resume` all it does from there to the next wait.  The class
  Decompressor refines this machine with the program's own data structures.
 */
module DecodeMachine {

  import opened Rotations
  import opened Bits
  import opened Canonical
  import opened MoveToFront
  import opened MtfEncoder

  const N_GROUPS: nat := 6
  const G_SIZE: nat := 50
  const MAX_SELECTORS: nat := 18002

  const HDR: seq<Byte> := [0x42, 0x5a, 0x68]
  const BLOCK_MAGIC: seq<Byte> := [0x31, 0x41, 0x59, 0x26, 0x53, 0x59]
  const END_MAGIC: seq<Byte> := [0x17, 0x72, 0x45, 0x38, 0x50, 0x90]

  datatype Phase =
    | Magic(k: nat)
    | BlockHeader(k: nat)
    | EndHeader(k: nat)
    | BlockCrc(k: nat)
    | RandBit
    | OrigPtr(k: nat)
    | Mapping1
    | Mapping2(i: nat, j: nat)
    | Selector1
    | Selector2
    | Selector3(j: nat)
    | Coding1
    | Coding2(curr: nat)
    | Coding3(curr: nat)
    | FirstBits(zn: nat)
    | MoreBits(zn: nat, zvec: nat)
    | CombinedCrc(k: nat)
    | Output
    | StreamEnd
    | DataErrorMagic
    | DataError

  /**
    The fields of DState that outlive a wait.  lens holds the finished length tables and
    table the one being read; their sizes are the loop counters t and i.  mtf is the
    decoding of symbols; its column is what the program leaves in tt.
   */
  datatype State = State(
    phase: Phase,
    blockSize100k: nat,
    storedBlockCrc: nat,
    storedCombinedCrc: nat,
    randomised: bool,
    origPtr: nat,
    inUse16: seq<bool>,
    inUse: seq<bool>,
    nGroups: nat,
    nSelectors: nat,
    selectorMtf: seq<nat>,
    selector: seq<nat>,
    table: seq<nat>,
    lens: seq<seq<nat>>,
    groupNo: int,
    groupPos: nat,
    mtf: Decoder)

  function Initial(): State {
    State(Magic(0), 0, 0, 0, false, 0, [], Repeat(false, 256), 0, 0, [], [], [], [], 0, 0, Corrupt)
  }

  function NInUse(st: State): nat
    requires |st.inUse| == 256
  {
    |Used(st.inUse, 256)|
  }

  function AlphaSize(st: State): nat
    requires |st.inUse| == 256
  {
    NInUse(st) + 2
  }

  // ----- Selectors -----

  /** Undoing the move-to-front coding of the selectors. */
  function UndoSelectors(codes: seq<nat>, pos: seq<nat>): (r: seq<nat>)
    requires forall k :: 0 <= k < |codes| ==> codes[k] < |pos|
    ensures |r| == |codes|
    decreases |codes|
  {
    if codes == [] then [] else [pos[codes[0]]] + UndoSelectors(codes[1..], FrontMoved(pos, codes[0]))
  }

  lemma {:induction false} UndoSelectorsBounded(codes: seq<nat>, pos: seq<nat>, n: nat)
    requires forall k :: 0 <= k < |codes| ==> codes[k] < |pos|
    requires forall k :: 0 <= k < |pos| ==> pos[k] < n
    ensures forall k :: 0 <= k < |codes| ==> UndoSelectors(codes, pos)[k] < n
    decreases |codes|
  {
    if codes != [] {
      UndoSelectorsBounded(codes[1..], FrontMoved(pos, codes[0]), n);
    }
  }

  // ----- Invariant -----

  predicate TableOk(table: seq<nat>, size: nat) {
    |table| == size && forall i :: 0 <= i < size ==> 1 <= table[i] <= LONGEST
  }

  /** What holds at each wait. */
  predicate Ok(st: State) {
    |st.inUse| == 256 &&
    match st.phase
    case Magic(k) => k < 4
    case BlockHeader(k) => k < 6
    case EndHeader(k) => 1 <= k < 6
    case BlockCrc(k) => k < 4
    case RandBit => true
    case OrigPtr(k) => k < 3
    case Mapping1 => |st.inUse16| < 16
    case Mapping2(i, j) => |st.inUse16| == 16 && i < 16 && j < 16
    case Selector1 => NInUse(st) > 0
    case Selector2 => NInUse(st) > 0 && 2 <= st.nGroups <= N_GROUPS
    case Selector3(j) => NInUse(st) > 0 && SelectorsOk(st) && j < st.nGroups
    case Coding1 => CodingOk(st)
    case Coding2(curr) => CodingOk(st) && 1 <= curr <= LONGEST
    case Coding3(curr) => CodingOk(st) && 1 <= curr <= LONGEST
    case FirstBits(zn) => SymbolOk(st) && 1 <= zn <= LONGEST
    case MoreBits(_, _) => SymbolOk(st)
    case CombinedCrc(k) => k < 4
    case Output => OutputOk(st)
    case StreamEnd => true
    case DataErrorMagic => true
    case DataError => true
  }

  predicate SelectorsOk(st: State) {
    && 2 <= st.nGroups <= N_GROUPS && |st.selectorMtf| < st.nSelectors
    && (forall k :: 0 <= k < |st.selectorMtf| ==> st.selectorMtf[k] < st.nGroups)
  }

  predicate GroupsOk(selector: seq<nat>, nSelectors: nat, nGroups: nat) {
    && 2 <= nGroups <= N_GROUPS && |selector| == nSelectors >= 1
    && (forall k :: 0 <= k < |selector| ==> selector[k] < nGroups)
  }

  predicate TablesOk(lens: seq<seq<nat>>, size: nat) {
    forall t :: 0 <= t < |lens| ==> TableOk(lens[t], size)
  }

  predicate CodingOk(st: State)
    requires |st.inUse| == 256
  {
    && NInUse(st) > 0 && GroupsOk(st.selector, st.nSelectors, st.nGroups) && |st.lens| < st.nGroups
       && TablesOk(st.lens, AlphaSize(st))
    && |st.table| < AlphaSize(st) && TableOk(st.table, |st.table|)
  }

  /** All tables are there. */
  predicate Ready(st: State)
    requires |st.inUse| == 256
  {
    && NInUse(st) > 0 && GroupsOk(st.selector, st.nSelectors, st.nGroups) && |st.lens| == st.nGroups
       && TablesOk(st.lens, AlphaSize(st))
    && st.mtf.Reading? && |st.mtf.list| == 256
  }

  predicate SymbolOk(st: State)
    requires |st.inUse| == 256
  {
    Ready(st) && 0 <= st.groupNo < st.nSelectors
  }

  /** A block is complete: its column, renumbered, and the row of the unrotated block in it. */
  predicate OutputOk(st: State) {
    st.mtf.Finished? && st.origPtr < |st.mtf.column|
  }

  // ----- The machine -----

  /** How many bits the machine waits for; 0 when it has stopped. */
  function Need(p: Phase): nat {
    match p
    case Magic(_) => 8
    case BlockHeader(_) => 8
    case EndHeader(_) => 8
    case BlockCrc(_) => 8
    case RandBit => 1
    case OrigPtr(_) => 8
    case Mapping1 => 1
    case Mapping2(_, _) => 1
    case Selector1 => 3
    case Selector2 => 15
    case Selector3(_) => 1
    case Coding1 => 5
    case Coding2(_) => 1
    case Coding3(_) => 1
    case FirstBits(zn) => zn
    case MoreBits(_, _) => 1
    case CombinedCrc(_) => 8
    case Output => 0
    case StreamEnd => 0
    case DataErrorMagic => 0
    case DataError => 0
  }

  function Fail(st: State): State {
    st.(phase := DataError)
  }

  function Resume(st: State, v: nat): (r: State)
    requires Ok(st)
  {
    match st.phase
    case Magic(k) => NextMagic(st, k, v)
    case BlockHeader(k) => NextBlockHeader(st, k, v)
    case EndHeader(k) =>
      if v != END_MAGIC[k] then Fail(st)
      else if k < 5 then st.(phase := EndHeader(k + 1))
      else st.(storedCombinedCrc := 0, phase := CombinedCrc(0))
    case BlockCrc(k) =>
      var s := st.(storedBlockCrc := 256 * st.storedBlockCrc + v);
      if k < 3 then s.(phase := BlockCrc(k + 1)) else s.(phase := RandBit)
    case RandBit => st.(randomised := v == 1, origPtr := 0, phase := OrigPtr(0))
    case OrigPtr(k) =>
      var s := st.(origPtr := 256 * st.origPtr + v);
      if k < 2 then s.(phase := OrigPtr(k + 1))
      else if s.origPtr > 10 + 100000 * s.blockSize100k then Fail(s)
      else s.(inUse16 := [], phase := Mapping1)
    case Mapping1 =>
      var s := st.(inUse16 := st.inUse16 + [v == 1]);
      if |s.inUse16| < 16 then s else NextGroup(s.(inUse := Repeat(false, 256)), 0)
    case Mapping2(i, j) =>
      var s := if v == 1 then st.(inUse := st.inUse[16 * i + j := true]) else st;
      if j < 15 then s.(phase := Mapping2(i, j + 1)) else NextGroup(s, i + 1)
    case Selector1 =>
      if v < 2 || v > N_GROUPS then Fail(st) else st.(nGroups := v, phase := Selector2)
    case Selector2 =>
      if v < 1 then Fail(st) else st.(nSelectors := v, selectorMtf := [], phase := Selector3(0))
    case Selector3(j) => NextSelector(st, j, v)
    case Coding1 => CheckCurr(st, v)
    case Coding2(curr) =>
      if v != 0 then st.(phase := Coding3(curr))
      else NextLength(st, curr)
    case Coding3(curr) => CheckCurr(st, if v == 0 then curr + 1 else curr - 1)
    case FirstBits(zn) => Decide(st, zn, v)
    case MoreBits(zn, zvec) => Decide(st, zn, 2 * zvec + v)
    case CombinedCrc(k) =>
      var s := st.(storedCombinedCrc := 256 * st.storedCombinedCrc + v);
      if k < 3 then s.(phase := CombinedCrc(k + 1)) else s.(phase := StreamEnd)
    case Output => st
    case StreamEnd => st
    case DataErrorMagic => st
    case DataError => st
  }

  function NextMagic(st: State, k: nat, v: nat): State
    requires k < 4
  {
    if k < 3 then
      if v == HDR[k] then st.(phase := Magic(k + 1)) else st.(phase := DataErrorMagic)
    else if 0x31 <= v <= 0x39 then st.(blockSize100k := v - 0x30, phase := BlockHeader(0))
    else st.(phase := DataErrorMagic)
  }

  function NextBlockHeader(st: State, k: nat, v: nat): State
    requires k < 6
  {
    if k == 0 && v == END_MAGIC[0] then st.(phase := EndHeader(1))
    else if v != BLOCK_MAGIC[k] then Fail(st)
    else if k < 5 then st.(phase := BlockHeader(k + 1))
    else st.(storedBlockCrc := 0, phase := BlockCrc(0))
  }

  /** The next group of 16 bytes in use at or after i; behind the last, the maps are made. */
  function NextGroup(st: State, i: nat): State
    requires |st.inUse16| == 16 && i <= 16 && |st.inUse| == 256
    decreases 16 - i
  {
    if i == 16 then
      if NInUse(st) == 0 then Fail(st) else st.(phase := Selector1)
    else if st.inUse16[i] then st.(phase := Mapping2(i, 0))
    else NextGroup(st, i + 1)
  }

  /** One bit of a selector: only the first MAX_SELECTORS are kept. */
  function NextSelector(st: State, j: nat, v: nat): State
    requires |st.inUse| == 256 && SelectorsOk(st) && j < st.nGroups
  {
    if v != 0 then
      if j + 1 >= st.nGroups then Fail(st) else st.(phase := Selector3(j + 1))
    else
      var s := st.(selectorMtf := st.selectorMtf + [j]);
      if |s.selectorMtf| < s.nSelectors then s.(phase := Selector3(0))
      else
        var n := if s.nSelectors > MAX_SELECTORS then MAX_SELECTORS else s.nSelectors;
        s.(nSelectors := n, selector := UndoSelectors(s.selectorMtf[..n], Identity(s.nGroups)),
           lens := [], table := [], phase := Coding1)
  }

  /** The check at the head of the loop that reads one length. */
  function CheckCurr(st: State, curr: int): State {
    if curr < 1 || curr > LONGEST then Fail(st) else st.(phase := Coding2(curr))
  }

  /** One more length is known. */
  function NextLength(st: State, curr: nat): State
    requires |st.inUse| == 256 && CodingOk(st) && 1 <= curr <= LONGEST
  {
    var table := st.table + [curr];
    if |table| < AlphaSize(st) then st.(table := table, phase := Coding2(curr))
    else
      var s := st.(lens := st.lens + [table], table := []);
      if |s.lens| < s.nGroups then s.(phase := Coding1)
      else NextSymbol(s.(groupNo := -1, groupPos := 0, mtf := Start(Identity(256))))
  }

  /** Waiting for a symbol: a new group every 50 symbols. */
  function NextSymbol(st: State): State
    requires |st.inUse| == 256 && Ready(st)
    requires -1 <= st.groupNo < st.nSelectors && (st.groupPos > 0 ==> st.groupNo >= 0)
  {
    if st.groupPos == 0 then
      if st.groupNo + 1 >= st.nSelectors then Fail(st)
      else
        var s := st.(groupNo := st.groupNo + 1, groupPos := G_SIZE - 1);
        s.(phase := FirstBits(MinLen(s.lens[s.selector[s.groupNo]])))
    else st.(groupPos := st.groupPos - 1, phase := FirstBits(MinLen(st.lens[st.selector[st.groupNo]])))
  }

  /** zn bits are read and spell zvec: a code, or not yet. */
  function Decide(st: State, zn: nat, zvec: nat): State
    requires |st.inUse| == 256 && SymbolOk(st)
  {
    var len := st.lens[st.selector[st.groupNo]];
    if zn > LONGEST then Fail(st)
    else if zvec <= Limit(len, zn) then
      var k := zvec - Base(len, zn);
      var perm := Shorter(len, MaxLen(len) + 1);
      if k < 0 || k >= |perm| then Fail(st) else TakeSymbol(st, perm[k])
    else st.(phase := MoreBits(zn + 1, zvec))
  }

  function MaxBlock(st: State): nat {
    100000 * st.blockSize100k
  }

  function TakeSymbol(st: State, sym: nat): State
    requires |st.inUse| == 256 && SymbolOk(st) && sym < AlphaSize(st)
  {
    var mtf := Step(st.mtf, sym, NInUse(st) + 1, MaxBlock(st));
    match mtf
    case Corrupt => Fail(st)
    case Finished(column) =>
      if st.origPtr >= |column| then Fail(st) else st.(mtf := mtf, phase := Output)
    case Reading(_, _, _, _) => NextSymbol(st.(mtf := mtf))
  }

  lemma {:induction false} NextGroupOk(st: State, i: nat)
    requires |st.inUse16| == 16 && i <= 16 && |st.inUse| == 256
    ensures Ok(NextGroup(st, i))
    decreases 16 - i
  {
    hide Used;
    if i < 16 {
      NextGroupOk(st, i + 1);
    }
  }

  lemma NextSelectorOk(st: State, j: nat, v: nat)
    requires |st.inUse| == 256 && NInUse(st) > 0 && SelectorsOk(st) && j < st.nGroups
    ensures Ok(NextSelector(st, j, v))
  {
    hide Used, UndoSelectors;
    var all := st.selectorMtf + [j];
    if v == 0 && |all| >= st.nSelectors {
      var n := if st.nSelectors > MAX_SELECTORS then MAX_SELECTORS else st.nSelectors;
      UndoSelectorsBounded(all[..n], Identity(st.nGroups), st.nGroups);
    }
  }

  lemma NextSymbolOk(st: State)
    requires |st.inUse| == 256 && Ready(st)
    requires -1 <= st.groupNo < st.nSelectors && (st.groupPos > 0 ==> st.groupNo >= 0)
    ensures Ok(NextSymbol(st))
  {
    hide Used, MinLen;
    var g := if st.groupPos == 0 then st.groupNo + 1 else st.groupNo;
    if g < st.nSelectors {
      ShortestCode(st.lens[st.selector[g]], AlphaSize(st));
    }
  }

  lemma ShortestCode(len: seq<nat>, size: nat)
    requires TableOk(len, size) && size > 0
    ensures 1 <= MinLen(len) <= LONGEST
  {
    assert MinLen(len) <= len[0];
  }

  lemma NextLengthOk(st: State, curr: nat)
    requires |st.inUse| == 256 && CodingOk(st) && 1 <= curr <= LONGEST
    ensures Ok(NextLength(st, curr))
  {
    hide Used, MinLen;
    var table := st.table + [curr];
    assert TableOk(table, |table|);
    if |table| >= AlphaSize(st) {
      var s := st.(lens := st.lens + [table], table := []);
      assert TablesOk(s.lens, AlphaSize(s));
      if |s.lens| >= s.nGroups {
        NextSymbolOk(s.(groupNo := -1, groupPos := 0, mtf := Start(Identity(256))));
      }
    }
  }

  lemma DecideOk(st: State, zn: nat, zvec: nat)
    requires |st.inUse| == 256 && SymbolOk(st)
    ensures Ok(Decide(st, zn, zvec))
  {
    hide Used, MinLen, MaxLen, Shorter, Limit, Base, TakeSymbol;
    var len := st.lens[st.selector[st.groupNo]];
    var k := zvec - Base(len, zn);
    var perm := Shorter(len, MaxLen(len) + 1);
    if zn <= LONGEST && zvec <= Limit(len, zn) && 0 <= k < |perm| {
      TakeSymbolOk(st, perm[k]);
    }
  }

  lemma TakeSymbolOk(st: State, sym: nat)
    requires |st.inUse| == 256 && SymbolOk(st) && sym < AlphaSize(st)
    ensures Ok(TakeSymbol(st, sym))
  {
    hide Used, MinLen, TablesOk, GroupsOk, Step;
    var mtf := Step(st.mtf, sym, NInUse(st) + 1, MaxBlock(st));
    if mtf.Reading? {
      NextSymbolOk(st.(mtf := mtf));
    }
  }

  /** Every step keeps the invariant, whatever the bits. */
  lemma NextOk(st: State, v: nat)
    requires Ok(st)
    ensures Ok(Resume(st, v))
  {
    hide Used, NextGroup, NextSelector, NextLength, Decide, NextSymbol, TakeSymbol, TablesOk, GroupsOk, TableOk;
    match st.phase
    case Mapping1 =>
      if |st.inUse16| == 15 {
        NextGroupOk(st.(inUse16 := st.inUse16 + [v == 1], inUse := Repeat(false, 256)), 0);
      }
    case Mapping2(i, j) =>
      var s := if v == 1 then st.(inUse := st.inUse[16 * i + j := true]) else st;
      NextGroupOk(s, i + 1);
    case Selector3(j) => NextSelectorOk(st, j, v);
    case Coding2(curr) =>
      if v == 0 {
        NextLengthOk(st, curr);
      }
    case FirstBits(zn) => DecideOk(st, zn, v);
    case MoreBits(zn, zvec) => DecideOk(st, zn, 2 * zvec + v);
    case _ => OtherOk(st, v);
  }

  lemma OtherOk(st: State, v: nat)
    requires Ok(st) && !st.phase.Mapping1? && !st.phase.Mapping2? && !st.phase.Selector3? && !st.phase.Coding2?
    requires !st.phase.FirstBits? && !st.phase.MoreBits?
    ensures Ok(Resume(st, v))
  {
    hide Used, TablesOk, GroupsOk, TableOk, NextGroup, NextSelector, NextLength, Decide, NextSymbol, TakeSymbol, Fail;
    FailOk(st);
    match st.phase
    case Magic(k) =>
    case BlockHeader(k) =>
    case EndHeader(k) =>
    case BlockCrc(k) =>
    case RandBit =>
    case OrigPtr(k) => FailOk(st.(origPtr := 256 * st.origPtr + v));
    case Selector1 =>
    case Selector2 =>
    case Coding1 =>
    case Coding3(curr) =>
    case CombinedCrc(k) =>
    case _ =>
  }

  lemma FailOk(st: State)
    requires |st.inUse| == 256
    ensures Ok(Fail(st))
  {
  }

  /** Running until the machine stops or the bits run out. */
  function Run(st: State, bits: seq<bool>): (r: (State, seq<bool>))
    requires Ok(st)
    decreases |bits|
  {
    var n := Need(st.phase);
    if n == 0 || n > |bits| then (st, bits)
    else
      NextOk(st, FromBits(bits[..n]));
      Run(Resume(st, FromBits(bits[..n])), bits[n..])
  }

  lemma RunOk(st: State, bits: seq<bool>)
    requires Ok(st)
    ensures Ok(Run(st, bits).0)
    decreases |bits|
  {
    hide Ok, Resume;
    var n := Need(st.phase);
    if 0 < n <= |bits| {
      NextOk(st, FromBits(bits[..n]));
      RunOk(Resume(st, FromBits(bits[..n])), bits[n..]);
    }
  }

  /**
    Splitting the input does not matter: running on a part, then on what is left of it
    and the rest, is running on the whole.
   */
  lemma {:induction false} RunAppend(st: State, a: seq<bool>, b: seq<bool>)
    requires Ok(st)
    ensures Ok(Run(st, a).0) && Run(st, a + b) == Run(Run(st, a).0, Run(st, a).1 + b)
    decreases |a|
  {
    hide Ok, Resume;
    var n := Need(st.phase);
    if 0 < n <= |a| {
      var v := FromBits(a[..n]);
      assert (a + b)[..n] == a[..n] && (a + b)[n..] == a[n..] + b;
      NextOk(st, v);
      RunAppend(Resume(st, v), a[n..], b);
    }
  }

  /** One step of a run. */
  lemma RunStep(st: State, v: nat, n: nat, rest: seq<bool>)
    requires Ok(st) && n == Need(st.phase) > 0 && v < Pow2(n)
    ensures Ok(Resume(st, v)) && Run(st, ToBits(v, n) + rest) == Run(Resume(st, v), rest)
  {
    hide Ok, Resume, ToBits, FromBits, Pow2;
    NextOk(st, v);
    var bits := ToBits(v, n) + rest;
    assert bits[..n] == ToBits(v, n) && bits[n..] == rest;
    FromToBits(v, n);
    LowFits(v, n);
  }

  lemma OneBit(b: bool)
    ensures ToBits(if b then 1 else 0, 1) == [b] && (if b then 1 else 0) < Pow2(1)
  {
    assert ToBits(0, 0) == [];
  }

  lemma RunBit(st: State, b: bool, rest: seq<bool>)
    requires Ok(st) && Need(st.phase) == 1
    ensures Ok(Resume(st, if b then 1 else 0))
    ensures Run(st, [b] + rest) == Run(Resume(st, if b then 1 else 0), rest)
  {
    hide Ok, Resume, Run, ToBits, Pow2;
    OneBit(b);
    RunStep(st, if b then 1 else 0, 1, rest);
  }

  /** Running s on bits is running t on rest. */
  ghost predicate RunsTo(s: State, bits: seq<bool>, t: State, rest: seq<bool>) {
    Ok(s) && Ok(t) && Run(s, bits) == Run(t, rest)
  }
}
