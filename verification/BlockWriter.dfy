/** The second half of sendMTFValues: coding the selectors, assigning codes and transmitting everything. */
module BlockWriter {

  import opened Rotations
  import opened Bits
  import opened BitStream
  import opened HuffmanTree
  import opened CodeLengths
  import opened Canonical
  import opened MoveToFront
  import opened MtfEncoder
  import opened DecodeMachine
  import opened MappingFormat
  import opened SelectorFormat
  import opened TableFormat
  import opened DataFormat
  import opened TableChoice
  import opened BlockRoundTrip

  method PutBit(w: BitWriter, b: bool)
    requires w.Valid()
    modifies w
    ensures w.Valid() && w.Written() == old(w.Written()) + [b] && old(w.zbits) <= w.zbits
  {
    OneBit(b);
    w.Write(1, if b then 1 else 0);
  }

  lemma TwoBits()
    ensures ToBits(2, 2) == [true, false] && ToBits(3, 2) == [true, true] && Pow2(2) == 4
  {
    assert ToBits(1, 1) == [true] by { OneBit(true); }
  }

  // ----- The mapping table -----

  method FindGroups(inUse: array<bool>) returns (inUse16: array<bool>)
    requires inUse.Length == 256
    ensures fresh(inUse16) && inUse16.Length == 16
    ensures forall i :: 0 <= i < 16 ==> inUse16[i] == GroupUsed(inUse[..], i)
  {
    inUse16 := new bool[16];
    for i := 0 to 16
      invariant forall k :: 0 <= k < i ==> inUse16[k] == GroupUsed(inUse[..], k)
    {
      inUse16[i] := false;
      for j := 0 to 16
        invariant forall k :: 0 <= k < i ==> inUse16[k] == GroupUsed(inUse[..], k)
        invariant inUse16[i] == exists k :: 16 * i <= k < 16 * i + j && inUse[k]
      {
        if inUse[i * 16 + j] {
          inUse16[i] := true;
        }
      }
    }
  }

  /** The flags of the groups, then the sixteen bits of each group in use. */
  method SendMapping(w: BitWriter, inUse: array<bool>)
    requires w.Valid() && inUse.Length == 256
    modifies w
    ensures w.Valid() && w.Written() == old(w.Written()) + MappingBits(inUse[..]) && old(w.zbits) <= w.zbits
  {
    hide BitWriter.Valid, BitWriter.Written, GroupUsed, GroupBits;
    ghost var u := inUse[..];
    var inUse16 := FindGroups(inUse);
    ghost var flags := GroupFlags(u);
    ghost var start := w.Written();
    for i := 0 to 16
      invariant inUse16[..] == flags
      invariant w.Valid() && old(w.zbits) <= w.zbits && w.Written() == start + flags[..i]
    {
      PutBit(w, inUse16[i]);
      assert flags[..i + 1] == flags[..i] + [flags[i]];
    }
    assert flags[..16] == flags;
    ghost var all := start + flags + GroupBits(u, 0);
    for i := 0 to 16
      invariant inUse16[..] == flags
      invariant w.Valid() && old(w.zbits) <= w.zbits && w.Written() + GroupBits(u, i) == all
    {
      GroupBitsAt(u, i);
      ghost var bits := w.Written();
      assert inUse16[..][i] == GroupUsed(u, i);
      if inUse16[i] {
        SendGroup(w, inUse, i);
        assert bits + GroupBits(u, i) == w.Written() + GroupBits(u, i + 1);
      }
    }
    GroupBitsEnd(u);
    assert w.Written() + [] == all;
    assert all == start + (flags + GroupBits(u, 0));
  }

  method SendGroup(w: BitWriter, inUse: array<bool>, i: nat)
    requires w.Valid() && inUse.Length == 256 && i < 16
    modifies w
    ensures w.Valid() && w.Written() == old(w.Written()) + inUse[..][16 * i..16 * i + 16] && old(w.zbits) <= w.zbits
  {
    hide BitWriter.Valid, BitWriter.Written;
    ghost var u, start := inUse[..], w.Written();
    for j := 0 to 16
      invariant w.Valid() && old(w.zbits) <= w.zbits && w.Written() == start + u[16 * i..16 * i + j]
    {
      PutBit(w, inUse[i * 16 + j]);
      assert u[16 * i..16 * i + j + 1] == u[16 * i..16 * i + j] + [u[16 * i + j]];
    }
  }

  lemma GroupBitsAt(u: seq<bool>, i: nat)
    requires |u| == 256 && i < 16
    ensures GroupBits(u, i) == (if GroupUsed(u, i) then u[16 * i..16 * i + 16] else []) + GroupBits(u, i + 1)
  {
  }

  lemma GroupBitsEnd(u: seq<bool>)
    requires |u| == 256
    ensures GroupBits(u, 16) == []
  {
  }

  // ----- Selectors -----

  /** Move selector v to the front of pos, from wherever it stands. */
  method FrontSelector(pos: array<nat>, n: nat, v: nat) returns (j: nat)
    requires n <= pos.Length && v in pos[..n]
    modifies pos
    ensures j < n && j == IndexOf(old(pos[..n]), v)
    ensures pos[..n] == FrontMoved(old(pos[..n]), j)
  {
    ghost var was := pos[..n];
    j := 0;
    var tmp := pos[j];
    while v != tmp
      invariant 0 <= j < n && tmp == was[j]
      invariant forall k :: 0 < k <= j ==> pos[k] == was[k - 1]
      invariant forall k :: j < k < n ==> pos[k] == was[k]
      invariant v !in was[..j]
      decreases n - j
    {
      NotYetSeen(was, j, v);
      j := j + 1;
      var tmp2 := tmp;
      tmp := pos[j];
      pos[j] := tmp2;
    }
    pos[0] := tmp;
    IndexUnique(was, v, j);
    FrontShown(was, pos[..n], j);
  }

  lemma NotYetSeen(was: seq<nat>, j: nat, v: nat)
    requires j < |was| && v in was && v !in was[..j] && v != was[j]
    ensures v !in was[..j + 1] && j + 1 < |was|
  {
    assert was[..j + 1] == was[..j] + [was[j]];
    if j + 1 == |was| {
      assert was[..j + 1] == was;
    }
  }

  lemma FrontShown(was: seq<nat>, c: seq<nat>, j: nat)
    requires j < |was| == |c| && c[0] == was[j]
    requires forall k :: 0 < k <= j ==> c[k] == was[k - 1]
    requires forall k :: j < k < |c| ==> c[k] == was[k]
    ensures c == FrontMoved(was, j)
  {
  }

  lemma SelectorCodesNext(sel: seq<nat>, pos: seq<nat>)
    requires Covers(pos, sel) && sel != []
    ensures sel[0] in pos && IndexOf(pos, sel[0]) < |pos| && Covers(FrontMoved(pos, IndexOf(pos, sel[0])), sel[1..])
    ensures SelectorCodes(sel, pos) == [IndexOf(pos, sel[0])]
      + SelectorCodes(sel[1..], FrontMoved(pos, IndexOf(pos, sel[0])))
  {
    CoversNext(pos, sel);
  }

  /** MTF values for the selectors. */
  method CodeSelectors(selector: array<nat>, selectorMtf: array<nat>, nSelectors: nat, nGroups: nat)
    requires selector != selectorMtf && nSelectors <= selector.Length && nSelectors <= selectorMtf.Length
      && nGroups <= N_GROUPS
    requires Covers(Identity(nGroups), selector[..nSelectors])
    modifies selectorMtf
    ensures selectorMtf[..nSelectors] == SelectorCodes(selector[..nSelectors], Identity(nGroups))
  {
    hide Covers, SelectorCodes, FrontMoved, IndexOf;
    var pos := new nat[N_GROUPS](i => i);
    ghost var sel, list := selector[..nSelectors], Identity(nGroups);
    ghost var all := SelectorCodes(sel, list);
    assert pos[..nGroups] == list && sel[0..] == sel;
    for i := 0 to nSelectors
      invariant fresh(pos) && pos.Length == N_GROUPS && pos[..nGroups] == list
      invariant Covers(list, sel[i..]) && all == selectorMtf[..i] + SelectorCodes(sel[i..], list)
    {
      SelectorCodesNext(sel[i..], list);
      assert sel[i..][1..] == sel[i + 1..];
      var j := FrontSelector(pos, nGroups, selector[i]);
      list := pos[..nGroups];
      selectorMtf[i] := j;
      assert selectorMtf[..i + 1] == selectorMtf[..i] + [j];
    }
    assert sel[nSelectors..] == [];
    SelectorCodesEnd(list);
  }

  lemma SelectorCodesEnd(list: seq<nat>)
    requires Covers(list, [])
    ensures SelectorCodes([], list) == []
  {
  }

  method SendUnary(w: BitWriter, c: nat)
    requires w.Valid()
    modifies w
    ensures w.Valid() && w.Written() == old(w.Written()) + (Repeat(true, c) + [false]) && old(w.zbits) <= w.zbits
  {
    hide BitWriter.Valid, BitWriter.Written;
    ghost var start := w.Written();
    for j := 0 to c
      invariant w.Valid() && old(w.zbits) <= w.zbits && w.Written() == start + Repeat(true, j)
    {
      PutBit(w, true);
      assert Repeat(true, j + 1) == Repeat(true, j) + [true];
    }
    PutBit(w, false);
  }

  method SendSelectors(w: BitWriter, selectorMtf: array<nat>, nSelectors: nat, nGroups: nat)
    requires w.Valid() && nSelectors <= selectorMtf.Length && 2 <= nGroups <= N_GROUPS && nSelectors <= MAX_SELECTORS
    modifies w
    ensures w.Valid() && w.Written() == old(w.Written()) + SelectorsBits(nGroups, selectorMtf[..nSelectors])
      && old(w.zbits) <= w.zbits
  {
    hide BitWriter.Valid, BitWriter.Written, ToBits, Pow2;
    SelectorFields(nGroups, nSelectors);
    ghost var codes, start := selectorMtf[..nSelectors], w.Written();
    w.Write(3, nGroups);
    w.Write(15, nSelectors);
    ghost var all := start + SelectorsBits(nGroups, codes);
    assert codes[0..] == codes;
    for i := 0 to nSelectors
      invariant w.Valid() && old(w.zbits) <= w.zbits && w.Written() + SelectorBits(codes[i..]) == all
    {
      assert codes[i..][1..] == codes[i + 1..];
      ghost var bits := w.Written();
      SendUnary(w, selectorMtf[i]);
      assert bits + SelectorBits(codes[i..]) == w.Written() + SelectorBits(codes[i + 1..]);
    }
    assert codes[nSelectors..] == [];
    assert w.Written() + [] == all;
  }

  // ----- Coding tables -----

  /** The steps up, if any. */
  method SendUp(w: BitWriter, curr0: nat, to: nat) returns (curr: nat)
    requires w.Valid()
    modifies w
    ensures w.Valid() && w.Written() + Moves(curr, to) == old(w.Written()) + Moves(curr0, to) && old(w.zbits) <= w.zbits
    ensures curr >= to
  {
    hide BitWriter.Valid, BitWriter.Written, ToBits, Pow2, Moves;
    TwoBits();
    curr := curr0;
    ghost var all := w.Written() + Moves(curr0, to);
    while curr < to
      invariant w.Valid() && old(w.zbits) <= w.zbits && w.Written() + Moves(curr, to) == all
    {
      MovesNext(curr, to);
      ghost var bits := w.Written();
      w.Write(2, 2);
      assert bits + Moves(curr, to) == w.Written() + Moves(curr + 1, to);
      curr := curr + 1;
    }
  }

  /** The steps down, if any. */
  method SendDown(w: BitWriter, curr0: nat, to: nat) returns (curr: nat)
    requires w.Valid() && curr0 >= to
    modifies w
    ensures w.Valid() && w.Written() == old(w.Written()) + Moves(curr0, to) && old(w.zbits) <= w.zbits
    ensures curr == to
  {
    hide BitWriter.Valid, BitWriter.Written, ToBits, Pow2, Moves;
    TwoBits();
    curr := curr0;
    ghost var all := w.Written() + Moves(curr0, to);
    while curr > to
      invariant w.Valid() && old(w.zbits) <= w.zbits && w.Written() + Moves(curr, to) == all && curr >= to
    {
      MovesNext(curr, to);
      ghost var bits := w.Written();
      w.Write(2, 3);
      assert bits + Moves(curr, to) == w.Written() + Moves(curr - 1, to);
      curr := curr - 1;
    }
    MovesNext(curr, to);
    assert w.Written() + [] == all;
  }

  method SendLength(w: BitWriter, curr0: nat, to: nat) returns (curr: nat)
    requires w.Valid()
    modifies w
    ensures w.Valid() && w.Written() == old(w.Written()) + (Moves(curr0, to) + [false]) && old(w.zbits) <= w.zbits
    ensures curr == to
  {
    hide BitWriter.Valid, BitWriter.Written, Moves;
    ghost var start := w.Written();
    curr := SendUp(w, curr0, to);
    curr := SendDown(w, curr, to);
    assert w.Written() == start + Moves(curr0, to);
    PutBit(w, false);
    assert start + Moves(curr0, to) + [false] == start + (Moves(curr0, to) + [false]);
  }

  lemma MovesNext(curr: nat, to: nat)
    ensures Moves(curr, to)
         == if curr < to then [true, false] + Moves(curr + 1, to)
           else if curr > to then [true, true] + Moves(curr - 1, to) else []
  {
  }

  method SendTable(w: BitWriter, row: array<nat>, alphaSize: nat)
    requires w.Valid() && 0 < alphaSize <= row.Length && forall v :: 0 <= v < alphaSize ==> row[v] <= LONGEST
    modifies w
    ensures w.Valid() && w.Written() == old(w.Written()) + TableBits(row[..alphaSize]) && old(w.zbits) <= w.zbits
  {
    hide BitWriter.Valid, BitWriter.Written, ToBits, Pow2, Moves;
    ghost var len, start := row[..alphaSize], w.Written();
    var curr := row[0];
    FiveBits(curr);
    w.Write(5, curr);
    ghost var all := start + TableBits(len);
    assert len[0..] == len;
    for i := 0 to alphaSize
      invariant w.Valid() && old(w.zbits) <= w.zbits && w.Written() + DeltaBits(curr, len[i..]) == all
    {
      assert len[i..][1..] == len[i + 1..];
      ghost var bits, from := w.Written(), curr;
      curr := SendLength(w, curr, row[i]);
      assert bits + DeltaBits(from, len[i..]) == w.Written() + DeltaBits(curr, len[i + 1..]);
    }
    assert len[alphaSize..] == [];
    assert w.Written() + [] == all;
  }

  method SendTables(w: BitWriter, len: seq<array<nat>>, nGroups: nat, alphaSize: nat, ghost lens: seq<seq<nat>>)
    requires w.Valid() && Rows(len) && nGroups <= N_GROUPS && 0 < alphaSize <= MAX_ALPHA_SIZE
    requires lens == Tables(len, nGroups, alphaSize) && TablesOk(lens, alphaSize)
    modifies w
    ensures forall t :: 0 <= t < |lens| ==> lens[t] != []
    ensures w.Valid() && w.Written() == old(w.Written()) + TablesBits(lens) && old(w.zbits) <= w.zbits
  {
    hide BitWriter.Valid, BitWriter.Written, TableBits, Tables;
    ghost var all := w.Written() + TablesBits(lens);
    assert lens[0..] == lens;
    for t := 0 to nGroups
      invariant w.Valid() && old(w.zbits) <= w.zbits && w.Written() + TablesBits(lens[t..]) == all
    {
      assert lens[t..][1..] == lens[t + 1..];
      RowOf(len, nGroups, alphaSize, t);
      assert TableOk(lens[t], alphaSize);
      assert forall v :: 0 <= v < alphaSize ==> len[t][v] == lens[t][v];
      SendTable(w, len[t], alphaSize);
    }
    assert lens[nGroups..] == [];
  }

  // ----- Codes -----

  /** Each row of codes belongs to its row of lengths. */
  ghost predicate CodesOf(codes: seq<seq<nat>>, lens: seq<seq<nat>>, size: nat) {
    && |codes| == |lens| && Sized(codes, size) && Sized(lens, size)
    && forall t :: 0 <= t < |codes| ==> RowCodes(codes[t], lens[t])
  }

  ghost predicate RowCodes(row: seq<nat>, len: seq<nat>) {
    |row| == |len| && forall v :: 0 <= v < |row| ==> row[v] == Code(len, v)
  }

  lemma GoodRange(len: seq<nat>)
    requires GoodLengths(len, MAX_LEN)
    ensures MaxLen(len) <= MAX_LEN && MinLen(len) >= 1
    ensures forall i :: 0 <= i < |len| ==> MinLen(len) <= len[i] <= MaxLen(len)
  {
    hide KraftSum;
  }

  /** BZ2_hbAssignCodes for every table; assertions 3004 and 3005 hold. */
  method AssignAllCodes(code: seq<array<nat>>, len: seq<array<nat>>, nGroups: nat, alphaSize: nat,
                        ghost lens: seq<seq<nat>>)
    requires Rows(code) && Rows(len) && Apart(code, len) && nGroups <= N_GROUPS && alphaSize <= MAX_ALPHA_SIZE
    requires lens == Tables(len, nGroups, alphaSize) && AllGood(lens)
    modifies code
    ensures CodesOf(Tables(code, nGroups, alphaSize), lens, alphaSize)
  {
    hide GoodLengths, MinLen, MaxLen, Code;
    for t := 0 to nGroups
      invariant Tables(len, nGroups, alphaSize) == lens
      invariant forall u :: 0 <= u < t ==> RowCodes(code[u][..alphaSize], lens[u])
    {
      RowOf(len, nGroups, alphaSize, t);
      GoodRange(lens[t]);
      var minLen, maxLen := LengthRange(len[t], alphaSize);
      assert !(maxLen > 17);
      assert !(minLen < 1);
      assert forall i :: 0 <= i < alphaSize ==> len[t][i] == lens[t][i];
      AssignCodes(code[t], len[t], minLen, maxLen, alphaSize);
    }
  }

  // ----- The block data proper -----

  lemma CodeWritable(lens: seq<seq<nat>>, codes: seq<seq<nat>>, size: nat, t: nat, v: nat)
    requires CodesOf(codes, lens, size) && AllGood(lens) && t < |lens| && v < size
    ensures |codes[t]| == |lens[t]| == size
    ensures codes[t][v] == Code(lens[t], v) < Pow2(lens[t][v]) && 1 <= lens[t][v] <= 24
  {
    hide KraftSum, Code, Pow2;
    GoodFeasible(lens[t]);
    CodeFits(lens[t], MAX_LEN, v);
    assert RowCodes(codes[t], lens[t]);
  }

  lemma GoodFeasible(len: seq<nat>)
    requires GoodLengths(len, MAX_LEN)
    ensures Feasible(len, MAX_LEN)
  {
    hide KraftSum;
  }

  /** One symbol with its group's table. */
  method SendSymbol(w: BitWriter, len: seq<array<nat>>, code: seq<array<nat>>, nGroups: nat, alphaSize: nat, t: nat,
                    v: nat,
                    ghost lens: seq<seq<nat>>)
    requires w.Valid() && Rows(code) && Rows(len) && nGroups <= N_GROUPS && alphaSize <= MAX_ALPHA_SIZE && t < nGroups
      && v < alphaSize
    requires lens == Tables(len, nGroups, alphaSize) && AllGood(lens)
      && CodesOf(Tables(code, nGroups, alphaSize), lens, alphaSize)
    modifies w
    ensures w.Valid() && old(w.zbits) <= w.zbits
    ensures |lens[t]| == alphaSize && w.Written() == old(w.Written()) + ToBits(Code(lens[t], v), lens[t][v])
  {
    hide BitWriter.Valid, BitWriter.Written, ToBits, Pow2, Code, AllGood, CodesOf;
    CodeWritable(lens, Tables(code, nGroups, alphaSize), alphaSize, t, v);
    RowOf(len, nGroups, alphaSize, t);
    RowOf(code, nGroups, alphaSize, t);
    assert len[t][v] == lens[t][v] && code[t][v] == Tables(code, nGroups, alphaSize)[t][v];
    w.Write(len[t][v], code[t][v]);
  }

  lemma DataBitsAt(syms: seq<nat>, lens: seq<seq<nat>>, selector: seq<nat>, size: nat, g: nat, k: nat)
    requires Coded(syms, lens, selector, size) && k < |syms| && G_SIZE * g <= k < G_SIZE * g + G_SIZE
    ensures g < |selector| && |lens[selector[g]]| == size
    ensures var len := lens[selector[g]];
            DataBits(syms, lens, selector, size, k) == ToBits(Code(len, syms[k]), len[syms[k]])
              + DataBits(syms, lens, selector, size, k + 1)
  {
    hide Code, ToBits;
    assert k / G_SIZE == g;
  }

  method SendGroupOfSymbols(w: BitWriter, out: MtfOutput, len: seq<array<nat>>, code: seq<array<nat>>, nGroups: nat,
                            alphaSize: nat,
                   g: nat, t: nat, gs: nat, next: nat, ghost lens: seq<seq<nat>>, ghost sel: seq<nat>)
    requires w.Valid() && out.Valid() && Rows(code) && Rows(len) && nGroups <= N_GROUPS && alphaSize <= MAX_ALPHA_SIZE
    requires lens == Tables(len, nGroups, alphaSize) && AllGood(lens)
      && CodesOf(Tables(code, nGroups, alphaSize), lens, alphaSize)
    requires out.wr == |out.syms| && Coded(out.syms, lens, sel, alphaSize) && G_SIZE * g == gs < next <= out.wr
      && next <= gs + G_SIZE
    requires g < |sel| && sel[g] == t < nGroups
    modifies w
    ensures w.Valid() && old(w.zbits) <= w.zbits
    ensures w.Written() + DataBits(out.syms, lens, sel, alphaSize, next) == old(w.Written())
      + DataBits(out.syms, lens, sel, alphaSize, gs)
  {
    hide BitWriter.Valid, BitWriter.Written, ToBits, DataBits, AllGood, CodesOf, MtfOutput.Valid, Tables, Code;
    ghost var syms := out.syms;
    ghost var all := w.Written() + DataBits(syms, lens, sel, alphaSize, gs);
    for i := gs to next
      invariant w.Valid() && out.Valid() && old(w.zbits) <= w.zbits
        && w.Written() + DataBits(syms, lens, sel, alphaSize, i) == all
    {
      DataBitsAt(syms, lens, sel, alphaSize, g, i);
      var v := out.Get(i);
      ghost var bits := w.Written();
      SendSymbol(w, len, code, nGroups, alphaSize, t, v, lens);
      assert bits + DataBits(syms, lens, sel, alphaSize, i) == w.Written()
        + DataBits(syms, lens, sel, alphaSize, i + 1);
    }
  }

  lemma DataBitsEnd(syms: seq<nat>, lens: seq<seq<nat>>, selector: seq<nat>, size: nat)
    requires Coded(syms, lens, selector, size)
    ensures DataBits(syms, lens, selector, size, |syms|) == []
  {
  }

  /** Every symbol in the code of its group's table; assertions 3006 and 3007 hold. */
  method SendData(w: BitWriter, out: MtfOutput, len: seq<array<nat>>, code: seq<array<nat>>, selector: array<nat>,
                  nSelectors: nat, nGroups: nat, alphaSize: nat, ghost lens: seq<seq<nat>>, ghost sel: seq<nat>)
    requires w.Valid() && out.Valid() && Rows(code) && Rows(len) && nGroups <= N_GROUPS && alphaSize <= MAX_ALPHA_SIZE
    requires lens == Tables(len, nGroups, alphaSize) && AllGood(lens)
      && CodesOf(Tables(code, nGroups, alphaSize), lens, alphaSize)
    requires nSelectors <= selector.Length && sel == selector[..nSelectors] && out.wr == |out.syms|
      && nSelectors == GroupCount(out.wr)
    requires Coded(out.syms, lens, sel, alphaSize)
    modifies w
    ensures w.Valid() && w.Written() == old(w.Written()) + DataBits(out.syms, lens, sel, alphaSize, 0)
      && old(w.zbits) <= w.zbits
  {
    hide BitWriter.Valid, BitWriter.Written, ToBits, DataBits, AllGood, CodesOf, MtfOutput.Valid, Tables, GroupStart,
      GroupCount;
    ghost var syms := out.syms;
    ghost var all := w.Written() + DataBits(syms, lens, sel, alphaSize, 0);
    var selCtr, gs := 0, 0;
    FirstGroup(out.wr);
    while gs < out.wr
      invariant gs <= out.wr && w.Valid() && out.Valid() && old(w.zbits) <= w.zbits
      invariant w.Written() + DataBits(syms, lens, sel, alphaSize, gs) == all
      invariant gs == GroupStart(selCtr, out.wr) && (selCtr > 0 ==> GroupStart(selCtr - 1, out.wr) < out.wr)
      decreases out.wr - gs
    {
      GroupSteps(selCtr, out.wr);
      var ge := gs + G_SIZE - 1;
      if ge >= out.wr {
        ge := out.wr - 1;
      }
      assert selector[selCtr] == sel[selCtr];
      assert selector[selCtr] < nGroups;
      SendGroupOfSymbols(w, out, len, code, nGroups, alphaSize, selCtr, selector[selCtr], gs, ge + 1, lens, sel);
      gs := ge + 1;
      selCtr := selCtr + 1;
    }
    GroupsEnd(selCtr, out.wr);
    assert selCtr == nSelectors;
    DataBitsEnd(syms, lens, sel, alphaSize);
    assert w.Written() + [] == all;
  }

  lemma FirstGroup(n: nat)
    ensures GroupStart(0, n) == 0
  {
  }

  // ----- sendMTFValues -----

  /** The working arrays of sendMTFValues are separate. */
  ghost predicate Workspace(out: MtfOutput, len: seq<array<nat>>, code: seq<array<nat>>, rfreq: seq<array<nat>>,
                            selector: array<nat>, selectorMtf: array<nat>) {
    && Separate(out, len, rfreq, selector) && Rows(code) && Apart(code, len)
    && out.arr1 !in code && out.mtfFreq !in code && selector !in code
    && selectorMtf !in code && selectorMtf !in len && selectorMtf !in rfreq
    && selectorMtf != selector && selectorMtf != out.arr1 && selectorMtf != out.mtfFreq
       && selectorMtf.Length == MAX_SELECTORS
  }

  lemma ChosenServes(lens: seq<seq<nat>>, selector: seq<nat>, syms: seq<nat>, size: nat)
    requires 2 <= |lens| <= N_GROUPS && Sized(lens, size) && AllGood(lens) && InAlphabet(syms, size) && syms != []
    requires |selector| == GroupCount(|syms|) <= MAX_SELECTORS && forall g :: 0 <= g < |selector| ==>
      selector[g] < |lens|
    ensures Serves(Coding(lens, selector), syms, size) && TablesOk(lens, size)
  {
    hide KraftSum;
    forall t | 0 <= t < |lens|
      ensures Feasible(lens[t], MAX_LEN) && TableOk(lens[t], size)
    {
      GoodFeasible(lens[t]);
    }
    assert AllFeasible(lens, MAX_LEN);
    ServesCovers(Coding(lens, selector));
  }

  /** sendMTFValues: the bits of a coding that serves these symbols and was chosen for them. */
  method SendMtfValues(w: BitWriter, out: MtfOutput, inUse: array<bool>, nInUse: nat, len: seq<array<nat>>,
                       code: seq<array<nat>>,
                       rfreq: seq<array<nat>>, selector: array<nat>, selectorMtf: array<nat>)
                         returns (ghost coding: Coding)
    requires w.Valid() && out.Valid() && Workspace(out, len, code, rfreq, selector, selectorMtf) && inUse.Length == 256
    requires 1 <= nInUse <= 256 && nInUse + 2 <= out.mtfFreq.Length && InAlphabet(out.syms, nInUse + 2)
    requires 0 < out.wr == |out.syms| <= 900001
    modifies w, len, code, rfreq, selector, selectorMtf
    ensures w.Valid() && old(w.zbits) <= w.zbits && Serves(coding, out.syms, nInUse + 2)
    ensures WellChosen(coding.lens, coding.selector, out.syms, nInUse + 2)
    ensures w.Written() == old(w.Written()) + CodedBits(inUse[..], coding, out.syms, nInUse + 2)
  {
    hide *;
    AlphaLimit(nInUse);
    WorkspaceParts(out, len, code, rfreq, selector, selectorMtf);
    var alphaSize := nInUse + 2;
    ghost var syms, start, u := out.syms, w.Written(), inUse[..];
    var nGroups, nSelectors := ChooseTables(out, len, rfreq, selector, alphaSize);
    ghost var lens, sel := Tables(len, nGroups, alphaSize), selector[..nSelectors];
    coding := Coding(lens, sel);
    TablesSized(len, nGroups, alphaSize);
    ChosenInRange(lens, sel, syms, alphaSize);
    ChosenServes(lens, sel, syms, alphaSize);
    ServesParts(coding, syms, alphaSize);
    CodeSelectors(selector, selectorMtf, nSelectors, nGroups);
    ghost var codes := selectorMtf[..nSelectors];
    AssignAllCodes(code, len, nGroups, alphaSize, lens);
    SendMapping(w, inUse);
    SendSelectors(w, selectorMtf, nSelectors, nGroups);
    SendTables(w, len, nGroups, alphaSize, lens);
    SendData(w, out, len, code, selector, nSelectors, nGroups, alphaSize, lens, sel);
    CodedBitsAre(start, u, coding, syms, alphaSize);
  }

  lemma WorkspaceParts(out: MtfOutput, len: seq<array<nat>>, code: seq<array<nat>>, rfreq: seq<array<nat>>,
                       selector: array<nat>, selectorMtf: array<nat>)
    requires Workspace(out, len, code, rfreq, selector, selectorMtf)
    ensures Separate(out, len, rfreq, selector) && Rows(code) && Rows(len) && Apart(code, len)
    ensures out.arr1 !in len && out.arr1 !in rfreq && out.mtfFreq !in len && out.mtfFreq !in rfreq
    ensures out.arr1 !in code && out.mtfFreq !in code && selector !in code && selector !in len
    ensures selectorMtf !in code && selectorMtf !in len && selectorMtf !in rfreq
    ensures selectorMtf != selector && selectorMtf != out.arr1 && selectorMtf != out.mtfFreq
    ensures selectorMtf.Length == MAX_SELECTORS == selector.Length
    ensures forall c :: c in code ==> c !in len
    ensures N_GROUPS == 6
  {
  }

  lemma ServesParts(coding: Coding, syms: seq<nat>, size: nat)
    requires Serves(coding, syms, size) && size > 0
    ensures Covers(Identity(|coding.lens|), coding.selector)
    ensures Coded(syms, coding.lens, coding.selector, size)
    ensures forall t :: 0 <= t < |coding.lens| ==> coding.lens[t] != []
  {
    hide AllFeasible;
  }

  lemma CodedBitsAre(start: seq<bool>, u: seq<bool>, coding: Coding, syms: seq<nat>, size: nat)
    requires Serves(coding, syms, size) && size > 0 && |u| == 256
    ensures Covers(Identity(|coding.lens|), coding.selector) && Coded(syms, coding.lens, coding.selector, size)
    ensures forall t :: 0 <= t < |coding.lens| ==> coding.lens[t] != []
    ensures var codes := SelectorCodes(coding.selector, Identity(|coding.lens|));
            start + MappingBits(u) + SelectorsBits(|coding.lens|, codes) + TablesBits(coding.lens)
            + DataBits(syms, coding.lens, coding.selector, size, 0)
            == start + CodedBits(u, coding, syms, size)
  {
    hide MappingBits, SelectorsBits, TablesBits, DataBits, Serves;
    ServesParts(coding, syms, size);
  }
}
