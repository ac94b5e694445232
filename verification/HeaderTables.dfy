/**
  What BZ2_decompress keeps of a block's header between waits: arrays of fixed size and a
  few counters.  `Stores` says which part of the decoding machine's state they hold.
 */
module HeaderTables {

  import opened Rotations
  import opened Canonical
  import opened MoveToFront
  import opened MtfEncoder
  import opened DecodeMachine
  import CodeLengths

  /** The code tables of all groups. */
  datatype Codes = Codes(limit: seq<seq<int>>, base: seq<seq<int>>, perm: seq<seq<nat>>)

  ghost predicate CodesOk(codes: Codes, lens: seq<seq<nat>>) {
    && |codes.limit| == |codes.base| == |codes.perm| == |lens|
    && forall t :: 0 <= t < |lens| ==>
         |codes.perm[t]| == CodeLengths.MAX_ALPHA_SIZE && DecodeTables(codes.limit[t], codes.base[t], codes.perm[t],
             lens[t])
  }

  /** The fields and counters that are saved at a wait. */
  datatype Scalars = Scalars(
    phase: Phase,
    blockSize100k: nat,
    storedBlockCrc: nat,
    storedCombinedCrc: nat,
    randomised: bool,
    origPtr: nat,
    nInUse: nat,
    nGroups: nat,
    nSelectors: nat,
    i: nat,
    t: nat,
    groupNo: int,
    groupPos: nat)

  /** The contents of the arrays. */
  datatype Views = Views(
    inUse16: seq<bool>,
    inUse: seq<bool>,
    seqToUnseq: seq<Byte>,
    selectorMtf: seq<nat>,
    selector: seq<nat>,
    len: seq<seq<nat>>,
    minLens: seq<nat>,
    codes: Codes)

  ghost predicate SizesOk(v: Views) {
    && |v.inUse16| == 16 && |v.inUse| == |v.seqToUnseq| == 256 && |v.selectorMtf| == |v.selector| == MAX_SELECTORS
    && |v.len| == |v.minLens| == N_GROUPS
    && forall t :: 0 <= t < N_GROUPS ==> |v.len[t]| == CodeLengths.MAX_ALPHA_SIZE
  }

  /** The counters and fields are those of the machine, perhaps in another phase. */
  ghost predicate Same(v: Views, sc: Scalars, st: State) {
    && SizesOk(v) && v.inUse == st.inUse
    && sc.blockSize100k == st.blockSize100k && sc.storedBlockCrc == st.storedBlockCrc
       && sc.storedCombinedCrc == st.storedCombinedCrc
    && sc.randomised == st.randomised && sc.origPtr == st.origPtr && sc.nGroups == st.nGroups
       && sc.nSelectors == st.nSelectors
    && sc.groupNo == st.groupNo && sc.groupPos == st.groupPos
  }

  /** seqToUnseq lists the bytes in use. */
  ghost predicate MapsStored(v: Views, nInUse: nat) {
    && |v.inUse| == 256 && nInUse == |Used(v.inUse, 256)| <= |v.seqToUnseq|
    && v.seqToUnseq[..nInUse] == Used(v.inUse, 256)
  }

  /** selectorMtf holds the first MAX_SELECTORS codes, whatever their number. */
  ghost predicate CodesStored(selectorMtf: seq<nat>, codes: seq<nat>) {
    && |selectorMtf| == MAX_SELECTORS
    && forall k :: 0 <= k < |codes| && k < MAX_SELECTORS ==> selectorMtf[k] == codes[k]
  }

  ghost predicate SelectorsStored(v: Views, selector: seq<nat>) {
    |selector| <= |v.selector| && v.selector[..|selector|] == selector
  }

  ghost predicate RowsStored(len: seq<seq<nat>>, lens: seq<seq<nat>>, size: nat) {
    |lens| <= |len| && forall t :: 0 <= t < |lens| ==> size <= |len[t]| && len[t][..size] == lens[t]
  }

  /** Where a table of lengths is being read: t tables and i more lengths are there. */
  ghost predicate CodingStored(v: Views, nInUse: nat, t: nat, i: nat, selector: seq<nat>, lens: seq<seq<nat>>,
                               table: seq<nat>) {
    && MapsStored(v, nInUse) && SelectorsStored(v, selector) && RowsStored(v.len, lens, nInUse + 2)
       && t == |lens| < |v.len|
    && i == |table| <= |v.len[t]| && v.len[t][..i] == table
  }

  /** Where symbols are being read. */
  ghost predicate SymbolsStored(v: Views, nInUse: nat, selector: seq<nat>, lens: seq<seq<nat>>) {
    && MapsStored(v, nInUse) && SelectorsStored(v, selector) && |lens| <= |v.minLens|
    && CodesOk(v.codes, lens) && forall t :: 0 <= t < |lens| ==> v.minLens[t] == MinLen(lens[t])
  }

  /** The arrays and counters hold the machine's state: in each phase, what that phase still needs. */
  ghost predicate Stores(v: Views, sc: Scalars, st: State) {
    && Same(v, sc, st) && sc.phase == st.phase
    && match st.phase
       case Mapping1 => sc.i == |st.inUse16| < 16 && v.inUse16[..sc.i] == st.inUse16
       case Mapping2(_, _) => v.inUse16 == st.inUse16
       case Selector1 => MapsStored(v, sc.nInUse)
       case Selector2 => MapsStored(v, sc.nInUse)
       case Selector3(_) => MapsStored(v, sc.nInUse) && sc.i == |st.selectorMtf|
         && CodesStored(v.selectorMtf, st.selectorMtf)
       case Coding1 => CodingStored(v, sc.nInUse, sc.t, sc.i, st.selector, st.lens, st.table)
       case Coding2(_) => CodingStored(v, sc.nInUse, sc.t, sc.i, st.selector, st.lens, st.table)
       case Coding3(_) => CodingStored(v, sc.nInUse, sc.t, sc.i, st.selector, st.lens, st.table)
       case FirstBits(_) => SymbolsStored(v, sc.nInUse, st.selector, st.lens)
       case MoreBits(_, _) => SymbolsStored(v, sc.nInUse, st.selector, st.lens)
       case _ => true
  }

  // ----- The loops over the arrays -----

  /** makeMaps_d */
  method MakeMapsD(inUse: array<bool>, seqToUnseq: array<Byte>) returns (nInUse: nat)
    requires inUse.Length == seqToUnseq.Length == 256
    modifies seqToUnseq
    ensures nInUse == |Used(inUse[..], 256)| <= 256 && seqToUnseq[..nInUse] == Used(inUse[..], 256)
  {
    nInUse := 0;
    ghost var used := inUse[..];
    for i := 0 to 256
      invariant nInUse == |Used(used, i)| <= i && seqToUnseq[..nInUse] == Used(used, i)
    {
      assert inUse[i] == used[i];
      if inUse[i] {
        seqToUnseq[nInUse] := i;
        nInUse := nInUse + 1;
        assert seqToUnseq[..nInUse] == seqToUnseq[..nInUse - 1] + [i];
      }
    }
  }

  method ClearUse(inUse: array<bool>)
    requires inUse.Length == 256
    modifies inUse
    ensures inUse[..] == Repeat(false, 256)
  {
    for i := 0 to 256
      invariant forall k :: 0 <= k < i ==> !inUse[k]
    {
      inUse[i] := false;
    }
  }

  /** The entry at v comes to the front of pos; those before it make room. */
  method ToFront(pos: array<nat>, n: nat, v0: nat) returns (tmp: nat)
    requires v0 < n <= pos.Length
    modifies pos
    ensures tmp == old(pos[v0]) && pos[..n] == FrontMoved(old(pos[..n]), v0)
  {
    ghost var was := pos[..n];
    tmp := pos[v0];
    var v := v0;
    while v > 0
      invariant 0 <= v <= v0
      invariant forall k :: 0 <= k <= v && k < v0 ==> pos[k] == was[k]
      invariant forall k :: v < k <= v0 ==> pos[k] == was[k - 1]
      invariant forall k :: v0 < k < n ==> pos[k] == was[k]
    {
      pos[v] := pos[v - 1];
      v := v - 1;
    }
    pos[0] := tmp;
    assert pos[..n] == FrontMoved(was, v0);
  }

  lemma UndoNext(codes: seq<nat>, pos: seq<nat>)
    requires codes != [] && forall k :: 0 <= k < |codes| ==> codes[k] < |pos|
    ensures UndoSelectors(codes, pos) == [pos[codes[0]]] + UndoSelectors(codes[1..], FrontMoved(pos, codes[0]))
  {
  }

  /** "Undo the MTF values for the selectors": no more than MAX_SELECTORS of them. */
  method UndoMtf(selectorMtf: array<nat>, selector: array<nat>, nSelectors: nat, nGroups: nat)
    requires selectorMtf != selector && nSelectors <= MAX_SELECTORS == selectorMtf.Length == selector.Length
      && nGroups <= N_GROUPS
    requires forall k :: 0 <= k < nSelectors ==> selectorMtf[k] < nGroups
    modifies selector
    ensures forall k :: 0 <= k < nSelectors ==> selectorMtf[..nSelectors][k] < |Identity(nGroups)|
    ensures selector[..nSelectors] == UndoSelectors(selectorMtf[..nSelectors], Identity(nGroups))
  {
    hide UndoSelectors, FrontMoved;
    ghost var codes, list := selectorMtf[..nSelectors], Identity(nGroups);
    ghost var all := UndoSelectors(codes, list);
    var pos := new nat[N_GROUPS];
    for v := 0 to nGroups
      invariant forall k :: 0 <= k < v ==> pos[k] == k
    {
      pos[v] := v;
    }
    assert pos[..nGroups] == list && codes[0..] == codes;
    for i := 0 to nSelectors
      invariant fresh(pos) && pos[..nGroups] == list && |list| == nGroups && selectorMtf[..nSelectors] == codes
      invariant all == selector[..i] + UndoSelectors(codes[i..], list)
    {
      UndoNext(codes[i..], list);
      assert codes[i..][1..] == codes[i + 1..] && codes[i] == selectorMtf[i];
      var tmp := ToFront(pos, nGroups, selectorMtf[i]);
      list := pos[..nGroups];
      selector[i] := tmp;
      assert selector[..i + 1] == selector[..i] + [tmp];
    }
    assert UndoSelectors([], list) == [] by { UndoNone(list); }
  }

  lemma UndoNone(pos: seq<nat>)
    ensures UndoSelectors([], pos) == []
  {
  }

  // ----- The scalar part -----

  /** "if (curr < 1 || curr > 20) RETURN(BZ_DATA_ERROR)" */
  function CheckLength(sc: Scalars, curr: int): Scalars {
    if curr < 1 || curr > 20 then sc.(phase := DataError) else sc.(phase := Coding2(curr))
  }

  predicate IsMagic(p: Phase) {
    p.Magic? || p.BlockHeader? || p.EndHeader?
  }

  predicate IsNumber(p: Phase) {
    p.BlockCrc? || p.RandBit? || p.OrigPtr? || p.CombinedCrc?
  }

  predicate IsCount(p: Phase) {
    p.Selector1? || p.Selector2? || p.Coding1? || p.Coding3?
  }

  /** The magic numbers of the stream, of a block and of the trailer. */
  method ReceiveMagic(v: nat, sc: Scalars, ghost view: Views, ghost st: State) returns (r: Scalars)
    requires Ok(st) && Stores(view, sc, st) && IsMagic(st.phase)
    ensures Stores(view, r, Resume(st, v))
  {
    hide Used, MapsStored, CodingStored, SymbolsStored, CodesStored, SizesOk, GroupsOk, TablesOk, TableOk,
      UndoSelectors, NInUse;
    r := sc.(phase := DataError);
    match sc.phase
    case Magic(k) =>
      if k < 3 {
        r := sc.(phase := if v == HDR[k] then Magic(k + 1) else DataErrorMagic);
      } else if v < 0x31 || v > 0x39 {
        r := sc.(phase := DataErrorMagic);
      } else {
        r := sc.(blockSize100k := v - 0x30, phase := BlockHeader(0));
      }
    case BlockHeader(k) =>
      if k == 0 && v == END_MAGIC[0] {
        r := sc.(phase := EndHeader(1));
      } else if v == BLOCK_MAGIC[k] {
        r := if k < 5 then sc.(phase := BlockHeader(k + 1)) else sc.(storedBlockCrc := 0, phase := BlockCrc(0));
      }
    case EndHeader(k) =>
      if v == END_MAGIC[k] {
        r := if k < 5 then sc.(phase := EndHeader(k + 1)) else sc.(storedCombinedCrc := 0, phase := CombinedCrc(0));
      }
  }

  /** The checksums, the randomisation bit and origPtr. */
  method ReceiveNumber(v: nat, sc: Scalars, ghost view: Views, ghost st: State) returns (r: Scalars)
    requires Ok(st) && Stores(view, sc, st) && IsNumber(st.phase)
    ensures Stores(view, r, Resume(st, v))
  {
    hide Used, MapsStored, CodingStored, SymbolsStored, CodesStored, SizesOk, GroupsOk, TablesOk, TableOk,
      UndoSelectors, NInUse;
    r := sc;
    match sc.phase
    case BlockCrc(k) =>
      r := sc.(storedBlockCrc := 256 * sc.storedBlockCrc + v, phase := if k < 3 then BlockCrc(k + 1) else RandBit);
    case RandBit =>
      r := sc.(randomised := v == 1, origPtr := 0, phase := OrigPtr(0));
    case OrigPtr(k) =>
      var p := 256 * sc.origPtr + v;
      if k < 2 {
        r := sc.(origPtr := p, phase := OrigPtr(k + 1));
      } else if p <= 10 + 100000 * sc.blockSize100k {
        r := sc.(origPtr := p, i := 0, phase := Mapping1);
      } else {
        r := sc.(origPtr := p, phase := DataError);
      }
    case CombinedCrc(k) =>
      r := sc.(storedCombinedCrc := 256 * sc.storedCombinedCrc + v, phase := if k < 3 then CombinedCrc(k + 1)
        else StreamEnd);
  }

  /** The numbers of groups and selectors, and the parts of a code length that change curr only. */
  method ReceiveCount(v: nat, sc: Scalars, ghost view: Views, ghost st: State) returns (r: Scalars)
    requires Ok(st) && Stores(view, sc, st) && IsCount(st.phase)
    ensures Stores(view, r, Resume(st, v))
  {
    hide Used, MapsStored, CodingStored, SymbolsStored, CodesStored, SizesOk, GroupsOk, TablesOk, TableOk,
      UndoSelectors, NInUse;
    r := sc.(phase := DataError);
    match sc.phase
    case Selector1 =>
      if 2 <= v <= N_GROUPS {
        r := sc.(nGroups := v, phase := Selector2);
      }
    case Selector2 =>
      if v >= 1 {
        r := sc.(nSelectors := v, i := 0, phase := Selector3(0));
        assert CodesStored(view.selectorMtf, []) by { NoCodes(view); }
      }
    case Coding1 =>
      r := CheckLength(sc, v);
    case Coding3(curr) =>
      r := CheckLength(sc, if v == 0 then curr + 1 else curr - 1);
  }

  lemma NoCodes(v: Views)
    requires SizesOk(v)
    ensures CodesStored(v.selectorMtf, [])
  {
  }

  // ----- Steps that write to the arrays, on their contents -----

  lemma StoresMapping1(v: Views, sc: Scalars, st: State, bit: bool)
    requires Stores(v, sc, st) && st.phase.Mapping1?
    ensures |v.inUse16| == 16 && sc.i == |st.inUse16| < 16
    ensures var v', st' := v.(inUse16 := v.inUse16[sc.i := bit]), st.(inUse16 := st.inUse16 + [bit]);
            && (sc.i < 15 ==> Stores(v', sc.(i := sc.i + 1), st'))
            && (sc.i == 15 ==> |st'.inUse16| == 16 && v'.inUse16 == st'.inUse16 && Same(v', sc, st'))
  {
    hide MapsStored, CodingStored, SymbolsStored;
    var w := v.inUse16[sc.i := bit];
    assert w[..sc.i + 1] == st.inUse16 + [bit];
  }

  lemma SameUse(v: Views, sc: Scalars, st: State, inUse: seq<bool>)
    requires Same(v, sc, st) && |inUse| == 256
    ensures Same(v.(inUse := inUse), sc, st.(inUse := inUse))
  {
  }

  /** Behind the last group: the maps are made, and some byte must be in use. */
  lemma StoresMaps(v: Views, sc: Scalars, st: State, seqToUnseq: seq<Byte>, nInUse: nat)
    requires Same(v, sc, st) && |st.inUse16| == 16 && |st.inUse| == 256 && |seqToUnseq| == 256
    requires nInUse == |Used(st.inUse, 256)| <= 256 && seqToUnseq[..nInUse] == Used(st.inUse, 256)
    ensures Stores(v.(seqToUnseq := seqToUnseq), sc.(nInUse := nInUse, phase := if nInUse == 0 then DataError
      else Selector1),
                   NextGroup(st, 16))
  {
    hide Used, CodingStored, SymbolsStored;
  }

  lemma StoresGroup(v: Views, sc: Scalars, st: State, i: nat)
    requires Same(v, sc, st) && |st.inUse16| == 16 && |st.inUse| == 256 && v.inUse16 == st.inUse16 && i < 16
    ensures st.inUse16[i] ==> Stores(v, sc.(phase := Mapping2(i, 0)), NextGroup(st, i))
    ensures !st.inUse16[i] ==> NextGroup(st, i) == NextGroup(st, i + 1)
  {
    hide Used, CodingStored, SymbolsStored, MapsStored;
  }

  /** One code of a selector is complete; beyond MAX_SELECTORS it is dropped. */
  lemma StoresSelector(v: Views, sc: Scalars, st: State, j: nat, selectorMtf: seq<nat>)
    requires Ok(st) && Stores(v, sc, st) && st.phase == Selector3(j)
    requires selectorMtf == if sc.i < MAX_SELECTORS then v.selectorMtf[sc.i := j] else v.selectorMtf
    ensures |v.selectorMtf| == MAX_SELECTORS
    ensures var v', sc', st' := v.(selectorMtf := selectorMtf), sc.(i := sc.i + 1),
      st.(selectorMtf := st.selectorMtf + [j]);
            && Same(v', sc', st') && MapsStored(v', sc'.nInUse)
            && sc'.i == |st'.selectorMtf| && CodesStored(selectorMtf, st'.selectorMtf) && sc.nSelectors == st.nSelectors
  {
    hide Used, CodingStored, SymbolsStored;
  }

  lemma StoresMore(v: Views, sc: Scalars, st: State, st1: State, j: nat, bit: nat)
    requires Ok(st) && st.phase == Selector3(j) && st1 == st.(selectorMtf := st.selectorMtf + [j])
    requires Same(v, sc, st1) && MapsStored(v, sc.nInUse) && sc.i == |st1.selectorMtf|
      && CodesStored(v.selectorMtf, st1.selectorMtf)
    requires sc.i < sc.nSelectors && bit == 0
    ensures Stores(v, sc.(phase := Selector3(0)), Resume(st, bit))
  {
    hide Used, CodingStored, SymbolsStored, MapsStored, CodesStored, UndoSelectors;
  }

  /** The codes that are kept are the first ones, all of them below nGroups. */
  lemma KeptCodes(v: Views, st: State, j: nat, n: nat)
    requires Ok(st) && st.phase == Selector3(j) && CodesStored(v.selectorMtf, st.selectorMtf + [j])
    requires n <= MAX_SELECTORS && n <= |st.selectorMtf + [j]|
    ensures n <= |v.selectorMtf| && v.selectorMtf[..n] == (st.selectorMtf + [j])[..n]
    ensures st.nGroups <= N_GROUPS && forall k :: 0 <= k < n ==> v.selectorMtf[k] < st.nGroups
  {
    hide Used;
    var all := st.selectorMtf + [j];
    assert forall k :: 0 <= k < n ==> all[k] < st.nGroups;
  }

  lemma StoresSelectors(v: Views, sc: Scalars, st: State, st1: State, j: nat, n: nat, selector: seq<nat>)
    requires Ok(st) && st.phase == Selector3(j) && st1 == st.(selectorMtf := st.selectorMtf + [j])
    requires Same(v, sc, st1) && MapsStored(v, sc.nInUse) && sc.i == |st1.selectorMtf| >= sc.nSelectors
    requires n == (if sc.nSelectors > MAX_SELECTORS then MAX_SELECTORS else sc.nSelectors)
      && |selector| == MAX_SELECTORS
    requires (forall k :: 0 <= k < n ==> st1.selectorMtf[..n][k] < |Identity(st.nGroups)|)
    requires selector[..n] == UndoSelectors(st1.selectorMtf[..n], Identity(st.nGroups))
    ensures Stores(v.(selector := selector), sc.(nSelectors := n, t := 0, i := 0, phase := Coding1), Resume(st, 0))
  {
    hide Used, SymbolsStored, UndoSelectors, GroupsOk;
  }

  /** A length in the middle of a table, and the last of a table. */
  lemma StoresLength(v: Views, sc: Scalars, st: State, curr: nat, row: seq<nat>)
    requires Ok(st) && Stores(v, sc, st) && st.phase == Coding2(curr)
    requires sc.t < |v.len| && sc.i < |v.len[sc.t]| && row == v.len[sc.t][sc.i := curr]
    ensures sc.nInUse + 2 <= |row|
    ensures var v' := v.(len := v.len[sc.t := row]);
            if sc.i + 1 < sc.nInUse + 2 then Stores(v', sc.(i := sc.i + 1), Resume(st, 0))
            else
              var lens := st.lens + [st.table + [curr]];
              && sc.t + 1 == |lens| && RowsStored(v'.len, lens, sc.nInUse + 2) && Resume(st, 0) == NextLength(st, curr)
              && (sc.t + 1 < sc.nGroups ==> Stores(v', sc.(i := 0, t := sc.t + 1, phase := Coding1), Resume(st, 0)))
  {
    hide Used, SymbolsStored, GroupsOk, TablesOk, TableOk;
    assert st.nGroups <= N_GROUPS by { GroupsBound(st); }
    assert row[..sc.i + 1] == st.table + [curr];
    assert v.len[sc.t := row][..sc.t] == v.len[..sc.t];
  }

  lemma GroupsBound(st: State)
    requires |st.inUse| == 256 && CodingOk(st)
    ensures st.nGroups <= N_GROUPS
  {
    hide Used, TablesOk, TableOk;
  }

  lemma LengthBounds(v: Views, sc: Scalars, st: State, curr: nat)
    requires Ok(st) && Stores(v, sc, st) && st.phase == Coding2(curr)
    ensures sc.t < |v.len| == N_GROUPS && sc.i < |v.len[sc.t]| == CodeLengths.MAX_ALPHA_SIZE
  {
    hide GroupsOk, TablesOk, TableOk;
  }

  lemma StoresSymbol(v: Views, sc: Scalars, st: State, groupNo: int, groupPos: nat)
    requires |st.inUse| == 256 && Ready(st) && Same(v, sc, st) && SymbolsStored(v, sc.nInUse, st.selector, st.lens)
    requires 0 <= groupNo < st.nSelectors
    ensures |st.selector| == st.nSelectors <= |v.selector| && st.selector[groupNo] < |st.lens| <= |v.minLens|
    ensures v.selector[groupNo] == st.selector[groupNo]
    ensures v.minLens[st.selector[groupNo]] == MinLen(st.lens[st.selector[groupNo]])
    ensures var p := FirstBits(MinLen(st.lens[st.selector[groupNo]]));
            Stores(v, sc.(groupNo := groupNo, groupPos := groupPos, phase := p),
                   st.(groupNo := groupNo, groupPos := groupPos, phase := p))
  {
    hide Used, CodingStored, MapsStored, CodesOk, MinLen, TablesOk;
    assert v.selector[..|st.selector|][groupNo] == st.selector[groupNo];
  }

  /** All tables are there. */
  lemma StoresTables(v: Views, sc: Scalars, st: State, lens: seq<seq<nat>>, curr: nat)
    requires Ok(st) && st.phase == Coding2(curr) && Stores(v, sc, st)
    requires lens == st.lens + [st.table + [curr]] && |lens| == st.nGroups && |st.table| + 1 == sc.nInUse + 2
    ensures var st' := st.(lens := lens, table := [], groupNo := -1, groupPos := 0, mtf := Start(Identity(256)));
            && |st'.inUse| == 256 && Ready(st') && NextLength(st, curr) == NextSymbol(st')
    ensures 2 <= sc.nInUse + 2 <= CodeLengths.MAX_ALPHA_SIZE && TablesOk(lens, sc.nInUse + 2) && |lens| <= N_GROUPS
  {
    hide Used, SymbolsStored, NextSymbol;
    assert AlphaSize(st) == sc.nInUse + 2;
    assert TableOk(st.table + [curr], sc.nInUse + 2);
  }

  lemma RowObjects(rows: seq<array<nat>>)
    ensures forall o :: o in Objects(rows) ==> exists r :: r in rows && o == r
  {
  }

  /** len[BZ_N_GROUPS][BZ_MAX_ALPHA_SIZE] */
  method NewLengths() returns (len: seq<array<nat>>)
    ensures |len| == N_GROUPS && forall r :: r in len ==> fresh(r)
    ensures forall t :: 0 <= t < N_GROUPS ==> len[t].Length == CodeLengths.MAX_ALPHA_SIZE
    ensures forall t, u :: 0 <= t < u < N_GROUPS ==> len[t] != len[u]
  {
    len := [];
    for t := 0 to N_GROUPS
      invariant |len| == t && forall r :: r in len ==> fresh(r) && r.Length == CodeLengths.MAX_ALPHA_SIZE
      invariant forall t, u :: 0 <= t < u < |len| ==> len[t] != len[u]
    {
      var row := new nat[CodeLengths.MAX_ALPHA_SIZE];
      len := len + [row];
    }
  }

  ghost function Objects(rows: seq<array<nat>>): set<object> {
    set r | r in rows
  }

  /** minLen and maxLen of one table, then BZ2_hbCreateDecodeTables. */
  method MakeTable(length: array<nat>, alphaSize: nat, ghost len: seq<nat>)
    returns (minLen: nat, limit: seq<int>, base: seq<int>, perm: seq<nat>)
    requires 2 <= alphaSize <= length.Length && alphaSize <= CodeLengths.MAX_ALPHA_SIZE
    requires length[..alphaSize] == len && TableOk(len, alphaSize)
    ensures minLen == MinLen(len) && |perm| == CodeLengths.MAX_ALPHA_SIZE && DecodeTables(limit, base, perm, len)
  {
    hide MinLen, MaxLen, DecodeTables;
    var limits, bases, perms := new int[MAX_CODE_LEN], new int[MAX_CODE_LEN], new nat[CodeLengths.MAX_ALPHA_SIZE];
    var maxLen;
    minLen, maxLen := LengthRange(length, alphaSize);
    assert forall i :: 0 <= i < alphaSize ==> length[i] == len[i];
    CreateDecodeTables(limits, bases, perms, length, minLen, maxLen, alphaSize);
    limit, base, perm := limits[..], bases[..], perms[..];
  }

  lemma NoCodesOk()
    ensures CodesOk(Codes([], [], []), [])
  {
  }

  lemma CodesMore(codes: Codes, lens: seq<seq<nat>>, limit: seq<int>, base: seq<int>, perm: seq<nat>, len: seq<nat>)
    requires CodesOk(codes, lens) && |perm| == CodeLengths.MAX_ALPHA_SIZE && DecodeTables(limit, base, perm, len)
    ensures CodesOk(Codes(codes.limit + [limit], codes.base + [base], codes.perm + [perm]), lens + [len])
  {
    hide DecodeTables;
  }

  lemma RowAt(rows: seq<seq<nat>>, lens: seq<seq<nat>>, size: nat, t: nat)
    requires RowsStored(rows, lens, size) && TablesOk(lens, size) && t < |lens|
    ensures |lens| <= |rows| && size <= |rows[t]| && rows[t][..size] == lens[t] && TableOk(lens[t], size)
  {
  }

  class Tables {
    const inUse16: array<bool>
    const inUse: array<bool>
    const seqToUnseq: array<Byte>
    const selectorMtf: array<nat>
    const selector: array<nat>
    const len: seq<array<nat>>
    const minLens: array<nat>
    var codes: Codes

    ghost function Repr(): set<object> {
      {this, inUse16, inUse, seqToUnseq, selectorMtf, selector, minLens} + Objects(len)
    }

    /** The sizes of the arrays, as the program declares them. */
    ghost predicate Shape() {
      && inUse16.Length == 16 && inUse.Length == seqToUnseq.Length == 256 && inUse16 != inUse
      && selectorMtf.Length == selector.Length == MAX_SELECTORS && selectorMtf != selector
      && minLens.Length == N_GROUPS && minLens != selectorMtf && minLens != selector
      && |len| == N_GROUPS && selectorMtf !in len && selector !in len && minLens !in len
      && (forall t :: 0 <= t < N_GROUPS ==> len[t].Length == CodeLengths.MAX_ALPHA_SIZE)
      && (forall t, u :: 0 <= t < u < N_GROUPS ==> len[t] != len[u])
    }

    ghost function Rows(): (r: seq<seq<nat>>)
      reads len
      ensures |r| == |len| && forall t :: 0 <= t < |len| ==> r[t] == len[t][..]
    {
      seq(|len|, t requires 0 <= t < |len| reads len => len[t][..])
    }

    ghost function View(): Views
      reads Repr()
    {
      Views(inUse16[..], inUse[..], seqToUnseq[..], selectorMtf[..], selector[..], Rows(), minLens[..], codes)
    }

    constructor ()
      ensures Shape() && fresh(Repr()) && Stores(View(), START, Initial())
    {
      hide Stores, Same, Objects;
      inUse16, inUse, seqToUnseq := new bool[16], new bool[256](_ => false), new Byte[256];
      selectorMtf, selector, minLens := new nat[MAX_SELECTORS], new nat[MAX_SELECTORS], new nat[N_GROUPS];
      var rows := NewLengths();
      assert fresh(Objects(rows)) by { RowObjects(rows); }
      len := rows;
      codes := Codes([], [], []);
      new;
      assert inUse[..] == Repeat(false, 256);
      StoresStart(View());
    }

    /** The next group in use, or the end of the mapping table. */
    method NextUsedGroup(i0: nat, sc: Scalars, ghost st: State) returns (r: Scalars)
      requires Shape() && Same(View(), sc, st) && |st.inUse16| == 16 && |st.inUse| == 256 && inUse16[..] == st.inUse16
        && i0 <= 16
      modifies seqToUnseq
      ensures Stores(View(), r, NextGroup(st, i0))
    {
      hide Stores, NextGroup, Same, Used;
      var i := i0;
      while i < 16
        invariant i0 <= i <= 16 && NextGroup(st, i) == NextGroup(st, i0)
        invariant Same(View(), sc, st) && inUse16[..] == st.inUse16
      {
        StoresGroup(View(), sc, st, i);
        assert inUse16[i] == st.inUse16[i];
        if inUse16[i] {
          return sc.(phase := Mapping2(i, 0));
        }
        i := i + 1;
      }
      ghost var v := View();
      SameIs(v, sc, st);
      var nInUse := MakeMapsD(inUse, seqToUnseq);
      assert View() == v.(seqToUnseq := seqToUnseq[..]);
      StoresMaps(v, sc, st, seqToUnseq[..], nInUse);
      r := sc.(nInUse := nInUse, phase := if nInUse == 0 then DataError else Selector1);
    }

    /** One bit of inUse16. */
    method ReceiveGroupUse(v: nat, sc: Scalars, ghost st: State) returns (r: Scalars)
      requires Shape() && Ok(st) && Stores(View(), sc, st) && st.phase.Mapping1?
      modifies inUse16, inUse, seqToUnseq
      ensures Stores(View(), r, Resume(st, v))
    {
      hide Stores, NextGroup, Same, Used;
      ghost var view := View();
      StoresIs(view, sc, st);
      StoresMapping1(view, sc, st, v == 1);
      inUse16[sc.i] := v == 1;
      ghost var st1 := st.(inUse16 := st.inUse16 + [v == 1]);
      assert View() == view.(inUse16 := view.inUse16[sc.i := v == 1]);
      if sc.i < 15 {
        r := sc.(i := sc.i + 1);
      } else {
        view := View();
        ClearUse(inUse);
        assert View() == view.(inUse := Repeat(false, 256));
        SameUse(view, sc, st1, Repeat(false, 256));
        r := NextUsedGroup(0, sc, st1.(inUse := Repeat(false, 256)));
      }
    }

    /** One bit of inUse. */
    method ReceiveUse(v: nat, sc: Scalars, ghost st: State) returns (r: Scalars)
      requires Shape() && Ok(st) && Stores(View(), sc, st) && st.phase.Mapping2?
      modifies inUse, seqToUnseq
      ensures Stores(View(), r, Resume(st, v))
    {
      hide Stores, NextGroup, Same, Used;
      ghost var view, st1 := View(), st;
      StoresIs(view, sc, st);
      var i, j := sc.phase.i, sc.phase.j;
      if v == 1 {
        inUse[16 * i + j] := true;
        st1 := st.(inUse := st.inUse[16 * i + j := true]);
        assert View() == view.(inUse := view.inUse[16 * i + j := true]);
        SameUse(view, sc, st, st1.inUse);
      }
      if j < 15 {
        r := sc.(phase := Mapping2(i, j + 1));
        StoresMapping2(View(), sc, st1, Mapping2(i, j + 1));
      } else {
        r := NextUsedGroup(i + 1, sc, st1);
      }
    }

    /**
      One bit of a selector.  Nothing is written behind the end of selectorMtf, however
      many selectors are announced, and no more than MAX_SELECTORS are undone.
     */
    method ReceiveSelector(v: nat, sc: Scalars, ghost st: State) returns (r: Scalars)
      requires Shape() && Ok(st) && Stores(View(), sc, st) && st.phase.Selector3?
      modifies selectorMtf, selector
      ensures Stores(View(), r, Resume(st, v))
    {
      hide Stores, Same, Used, CodesStored, MapsStored, UndoSelectors, SelectorsOk;
      ghost var view := View();
      StoresIs(view, sc, st);
      SameIs(view, sc, st);
      var j := sc.phase.j;
      if v != 0 {
        r := sc.(phase := if j + 1 >= sc.nGroups then DataError else Selector3(j + 1));
        StoresUnary(view, sc, st, v);
        return;
      }
      ghost var st1 := st.(selectorMtf := st.selectorMtf + [j]);
      if sc.i < MAX_SELECTORS {
        selectorMtf[sc.i] := j;
      }
      assert View() == view.(selectorMtf := selectorMtf[..]);
      StoresSelector(view, sc, st, j, selectorMtf[..]);
      view := View();
      if sc.i + 1 < sc.nSelectors {
        r := sc.(i := sc.i + 1, phase := Selector3(0));
        StoresMore(view, sc.(i := sc.i + 1), st, st1, j, v);
      } else {
        var n := if sc.nSelectors > MAX_SELECTORS then MAX_SELECTORS else sc.nSelectors;
        KeptCodes(view, st, j, n);
        UndoMtf(selectorMtf, selector, n, sc.nGroups);
        assert View() == view.(selector := selector[..]);
        StoresSelectors(view, sc.(i := sc.i + 1), st, st1, j, n, selector[..]);
        r := sc.(nSelectors := n, t := 0, i := 0, phase := Coding1);
      }
    }

    /** "Create the Huffman decoding tables" */
    method MakeTables(nGroups: nat, alphaSize: nat, ghost lens: seq<seq<nat>>)
      requires Shape() && nGroups == |lens| <= N_GROUPS && 2 <= alphaSize <= CodeLengths.MAX_ALPHA_SIZE
      requires RowsStored(Rows(), lens, alphaSize) && TablesOk(lens, alphaSize)
      modifies minLens, this`codes
      ensures CodesOk(codes, lens) && forall t :: 0 <= t < nGroups ==> minLens[t] == MinLen(lens[t])
    {
      hide MinLen, CodesOk, RowsStored, DecodeTables, TableOk, TablesOk;
      ghost var rows := Rows();
      codes := Codes([], [], []);
      NoCodesOk();
      for t := 0 to nGroups
        invariant CodesOk(codes, lens[..t]) && forall u :: 0 <= u < t ==> minLens[u] == MinLen(lens[u])
        invariant Rows() == rows
      {
        RowAt(rows, lens, alphaSize, t);
        assert len[t] in len && len[t][..] == rows[t];
        assert len[t][..alphaSize] == rows[t][..alphaSize];
        var minLen, limit, base, perm := MakeTable(len[t], alphaSize, lens[t]);
        minLens[t] := minLen;
        CodesMore(codes, lens[..t], limit, base, perm, lens[t]);
        codes := Codes(codes.limit + [limit], codes.base + [base], codes.perm + [perm]);
        assert lens[..t + 1] == lens[..t] + [lens[t]];
      }
      assert lens[..nGroups] == lens;
    }

    /** The part of GET_MTF_VAL before its first wait. */
    method WaitForSymbol(sc: Scalars, ghost st: State) returns (r: Scalars)
      requires Shape() && |st.inUse| == 256 && Ready(st) && -1 <= st.groupNo < st.nSelectors
        && (st.groupPos > 0 ==> st.groupNo >= 0)
      requires Same(View(), sc, st) && SymbolsStored(View(), sc.nInUse, st.selector, st.lens)
      ensures Stores(View(), r, NextSymbol(st))
    {
      hide Stores, SymbolsStored, Used, MinLen, Ready;
      var groupNo, groupPos := sc.groupNo, sc.groupPos;
      if groupPos == 0 {
        groupNo := groupNo + 1;
        if groupNo >= sc.nSelectors {
          StoresFail(View(), sc, st);
          return sc.(phase := DataError);
        }
        groupPos := G_SIZE;
      }
      groupPos := groupPos - 1;
      StoresSymbol(View(), sc, st, groupNo, groupPos);
      r := sc.(groupNo := groupNo, groupPos := groupPos, phase := FirstBits(minLens[selector[groupNo]]));
    }

    /** The last length is read: the code tables, and the wait for the first symbol. */
    method FinishTables(sc: Scalars, ghost st: State, ghost view: Views, ghost curr: nat) returns (r: Scalars)
      requires Shape() && Ok(st) && Stores(view, sc, st) && st.phase == Coding2(curr)
      requires SizesOk(View()) && View() == view.(len := View().len)
      requires RowsStored(View().len, st.lens + [st.table + [curr]], sc.nInUse + 2)
      requires sc.i + 1 >= sc.nInUse + 2 && sc.t + 1 >= sc.nGroups
      modifies minLens, this`codes
      ensures Stores(View(), r, Resume(st, 0))
    {
      hide Stores, Same, Used, NextLength, NextSymbol, Ready, CodingOk, SymbolsStored, RowsStored, TablesOk, CodesOk,
        MinLen, SizesOk;
      FinishReady(view, sc, st, curr);
      ghost var lens := st.lens + [st.table + [curr]];
      StoresTables(view, sc, st, lens, curr);
      ghost var v := View();
      MakeTables(sc.nGroups, sc.nInUse + 2, lens);
      assert View() == v.(minLens := minLens[..], codes := codes);
      ghost var st1 := st.(lens := lens, table := [], groupNo := -1, groupPos := 0, mtf := Start(Identity(256)));
      ReadyForSymbols(view, View(), sc, st, st1, lens);
      r := WaitForSymbol(sc.(groupNo := -1, groupPos := 0), st1);
    }

    /** A bit that may end a code length; after the last, everything is made ready for the first symbol. */
    method ReceiveLength(v: nat, sc: Scalars, ghost st: State) returns (r: Scalars)
      requires Shape() && Ok(st) && Stores(View(), sc, st) && st.phase.Coding2?
      modifies len, minLens, this`codes
      ensures Stores(View(), r, Resume(st, v))
    {
      hide Stores, Same, Used, NextLength, NextSymbol, Ready, CodingOk, SymbolsStored;
      ghost var view := View();
      StoresIs(view, sc, st);
      SameIs(view, sc, st);
      var curr := sc.phase.curr;
      if v != 0 {
        r := sc.(phase := Coding3(curr));
        StoresThird(view, sc, st, v);
        return;
      }
      LengthBounds(view, sc, st, curr);
      assert len[sc.t] in len;
      len[sc.t][sc.i] := curr;
      ghost var row := view.len[sc.t][sc.i := curr];
      assert View() == view.(len := view.len[sc.t := row]);
      StoresLength(view, sc, st, curr, row);
      if sc.i + 1 < sc.nInUse + 2 {
        r := sc.(i := sc.i + 1);
      } else if sc.t + 1 < sc.nGroups {
        r := sc.(i := 0, t := sc.t + 1, phase := Coding1);
      } else {
        r := FinishTables(sc, st, view, curr);
      }
    }
  }

  lemma FinishReady(v: Views, sc: Scalars, st: State, curr: nat)
    requires Ok(st) && Stores(v, sc, st) && st.phase == Coding2(curr) && sc.i + 1 >= sc.nInUse + 2
      && sc.t + 1 >= sc.nGroups
    ensures |st.lens + [st.table + [curr]]| == st.nGroups == sc.nGroups && |st.table| + 1 == sc.nInUse + 2
    ensures |st.inUse| == 256 && Resume(st, 0) == NextLength(st, curr)
  {
    hide Used, SymbolsStored, TablesOk, TableOk;
  }

  lemma ReadyForSymbols(v0: Views, v: Views, sc: Scalars, st: State, st1: State, lens: seq<seq<nat>>)
    requires Ok(st) && Stores(v0, sc, st) && st.phase.Coding2? && SizesOk(v0.(len := v.len))
    requires v == v0.(len := v.len, minLens := v.minLens, codes := v.codes) && |v.minLens| == N_GROUPS
    requires CodesOk(v.codes, lens) && |lens| <= N_GROUPS && forall t :: 0 <= t < |lens| ==>
      v.minLens[t] == MinLen(lens[t])
    requires st1 == st.(lens := lens, table := [], groupNo := -1, groupPos := 0, mtf := Start(Identity(256)))
    ensures Same(v, sc.(groupNo := -1, groupPos := 0), st1) && SymbolsStored(v, sc.nInUse, st1.selector, st1.lens)
    ensures GroupsOk(st.selector, st.nSelectors, st.nGroups)
  {
    hide Used, CodesOk, MinLen, TablesOk, TableOk, RowsStored;
  }

  lemma StoresUnary(v: Views, sc: Scalars, st: State, bit: nat)
    requires Ok(st) && Stores(v, sc, st) && st.phase.Selector3? && bit != 0
    ensures var j := st.phase.j;
            Stores(v, sc.(phase := if j + 1 >= sc.nGroups then DataError else Selector3(j + 1)), Resume(st, bit))
  {
    hide Used, CodesStored, MapsStored;
  }

  lemma StoresThird(v: Views, sc: Scalars, st: State, bit: nat)
    requires Ok(st) && Stores(v, sc, st) && st.phase.Coding2? && bit != 0
    ensures Stores(v, sc.(phase := Coding3(st.phase.curr)), Resume(st, bit))
  {
    hide Used, CodingStored, CodingOk;
  }

  lemma StoresFail(v: Views, sc: Scalars, st: State)
    requires Same(v, sc, st)
    ensures Stores(v, sc.(phase := DataError), Fail(st))
  {
  }

  const START: Scalars := Scalars(Magic(0), 0, 0, 0, false, 0, 0, 0, 0, 0, 0, 0, 0)

  lemma StoresStart(v: Views)
    requires SizesOk(v) && v.inUse == Repeat(false, 256)
    ensures Stores(v, START, Initial())
  {
  }

  lemma SameIs(v: Views, sc: Scalars, st: State)
    requires Same(v, sc, st)
    ensures SizesOk(v) && v.inUse == st.inUse && sc.nGroups == st.nGroups && sc.nSelectors == st.nSelectors
  {
  }

  lemma StoresIs(v: Views, sc: Scalars, st: State)
    requires Stores(v, sc, st)
    ensures Same(v, sc, st) && SizesOk(v) && sc.phase == st.phase && v.inUse == st.inUse
    ensures st.phase.Mapping2? ==> v.inUse16 == st.inUse16
  {
  }

  lemma StoresMapping2(v: Views, sc: Scalars, st: State, p: Phase)
    requires Same(v, sc, st) && v.inUse16 == st.inUse16 && p.Mapping2?
    ensures Stores(v, sc.(phase := p), st.(phase := p))
  {
  }
}
