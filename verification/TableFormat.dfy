/** The coding tables: the first length in five bits, then each length by steps from the one before. */
module TableFormat {

  import opened Bits
  import opened Canonical
  import opened MoveToFront
  import opened MtfEncoder
  import opened DecodeMachine

  /** Steps from one length to another: 10 up, 11 down. */
  function Moves(from: nat, to: nat): seq<bool>
    decreases if from < to then to - from else from - to
  {
    if from < to then [true, false] + Moves(from + 1, to)
    else if from > to then [true, true] + Moves(from - 1, to)
    else []
  }

  function DeltaBits(curr: nat, len: seq<nat>): seq<bool>
    decreases |len|
  {
    if len == [] then [] else Moves(curr, len[0]) + [false] + DeltaBits(len[0], len[1..])
  }

  function TableBits(len: seq<nat>): seq<bool>
    requires len != []
  {
    ToBits(len[0], 5) + DeltaBits(len[0], len)
  }

  function TablesBits(lens: seq<seq<nat>>): seq<bool>
    requires forall t :: 0 <= t < |lens| ==> lens[t] != []
  {
    if lens == [] then [] else TableBits(lens[0]) + TablesBits(lens[1..])
  }

  lemma RunMove(st: State, curr: nat, up: bool, rest: seq<bool>)
    requires Ok(st) && st.phase == Coding2(curr) && 1 <= (if up then curr + 1 else curr - 1) <= LONGEST
    ensures var s := st.(phase := Coding2(if up then curr + 1 else curr - 1));
            Ok(s) && Run(st, [true, !up] + rest) == Run(s, rest)
  {
    hide Run, Used, TablesOk, TableOk, GroupsOk, NextLength;
    assert [true, !up] + rest == [true] + ([!up] + rest);
    RunBit(st, true, [!up] + rest);
    RunBit(st.(phase := Coding3(curr)), !up, rest);
  }

  lemma {:induction false} RunMoves(st: State, curr: nat, to: nat, rest: seq<bool>)
    requires Ok(st) && st.phase == Coding2(curr) && 1 <= to <= LONGEST
    ensures var s := st.(phase := Coding2(to));
            Ok(s) && Run(st, Moves(curr, to) + rest) == Run(s, rest)
    decreases if curr < to then to - curr else curr - to
  {
    hide Run, Used, TablesOk, TableOk, GroupsOk, NextLength;
    if curr == to {
      assert Moves(curr, to) + rest == rest;
    } else {
      var next := if curr < to then curr + 1 else curr - 1;
      assert Moves(curr, to) + rest == [true, !(curr < to)] + (Moves(next, to) + rest);
      RunMove(st, curr, curr < to, Moves(next, to) + rest);
      RunMoves(st.(phase := Coding2(next)), next, to, rest);
    }
  }

  /** The state behind a complete table. */
  function TableDone(st: State, len: seq<nat>): (r: State)
    requires |st.inUse| == 256 && CodingOk(st) && TableOk(len, AlphaSize(st))
  {
    var s := st.(lens := st.lens + [len], table := []);
    if |s.lens| < s.nGroups then s.(phase := Coding1)
    else NextSymbol(s.(groupNo := -1, groupPos := 0, mtf := Start(Identity(256))))
  }

  lemma LengthNext(st: State, len: seq<nat>, k: nat)
    requires |st.inUse| == 256 && CodingOk(st) && TableOk(len, AlphaSize(st)) && k < |len| && st.table == len[..k]
    ensures NextLength(st, len[k])
         == if k + 1 < |len| then st.(table := len[..k + 1], phase := Coding2(len[k])) else TableDone(st, len)
  {
    hide Used, MinLen, NextSymbol, GroupsOk;
    assert len[..k] + [len[k]] == len[..k + 1];
    assert len[..|len|] == len;
  }

  lemma LengthNextOk(st: State, len: seq<nat>, k: nat)
    requires |st.inUse| == 256 && CodingOk(st) && TableOk(len, AlphaSize(st)) && k + 1 < |len|
    ensures CodingOk(st.(table := len[..k + 1], phase := Coding2(len[k])))
  {
    hide Used, GroupsOk, TablesOk;
  }

  lemma {:induction false} RunDeltas(st: State, curr: nat, len: seq<nat>, k: nat, rest: seq<bool>)
    requires Ok(st) && st.phase == Coding2(curr)
    requires TableOk(len, AlphaSize(st)) && k < |len| && st.table == len[..k]
    ensures Ok(TableDone(st, len)) && Run(st, DeltaBits(curr, len[k..]) + rest) == Run(TableDone(st, len), rest)
    decreases |len| - k
  {
    hide Run, Used, TablesOk, GroupsOk, NextLength, TableDone, Moves;
    var tail := DeltaBits(len[k], len[k + 1..]) + rest;
    assert len[k..][1..] == len[k + 1..];
    assert DeltaBits(curr, len[k..]) + rest == Moves(curr, len[k]) + ([false] + tail);
    RunMoves(st, curr, len[k], [false] + tail);
    var s := st.(phase := Coding2(len[k]));
    RunBit(s, false, tail);
    LengthNext(s, len, k);
    TableDonePhase(st, len, s.phase);
    if k + 1 < |len| {
      var s' := s.(table := len[..k + 1]);
      LengthNextOk(s, len, k);
      RunDeltas(s', len[k], len, k + 1, rest);
      TableDoneTable(s, len, len[..k + 1]);
    } else {
      assert len[k + 1..] == [];
      assert tail == rest;
    }
  }

  lemma TableDonePhase(st: State, len: seq<nat>, p: Phase)
    requires |st.inUse| == 256 && CodingOk(st) && TableOk(len, AlphaSize(st))
    ensures CodingOk(st.(phase := p)) && TableDone(st.(phase := p), len) == TableDone(st, len)
  {
    hide Used, MinLen, TablesOk, GroupsOk;
  }

  lemma TableDoneTable(st: State, len: seq<nat>, table: seq<nat>)
    requires |st.inUse| == 256 && CodingOk(st) && TableOk(len, AlphaSize(st)) && CodingOk(st.(table := table))
    ensures TableDone(st.(table := table), len) == TableDone(st, len)
  {
    hide Used, MinLen, TablesOk, GroupsOk;
  }

  lemma RunTable(st: State, len: seq<nat>, rest: seq<bool>)
    requires Ok(st) && st.phase == Coding1 && st.table == [] && TableOk(len, AlphaSize(st))
    ensures Ok(TableDone(st, len)) && Run(st, TableBits(len) + rest) == Run(TableDone(st, len), rest)
  {
    hide Run, Used, TablesOk, GroupsOk, TableDone, DeltaBits, ToBits, Pow2;
    var tail := DeltaBits(len[0], len) + rest;
    assert TableBits(len) + rest == ToBits(len[0], 5) + tail;
    FiveBits(len[0]);
    RunStep(st, len[0], 5, tail);
    var s := st.(phase := Coding2(len[0]));
    assert len[0..] == len && len[..0] == [];
    RunDeltas(s, len[0], len, 0, rest);
    TableDonePhase(st, len, s.phase);
  }

  lemma FiveBits(v: nat)
    requires v <= LONGEST
    ensures v < Pow2(5)
  {
    assert Pow2(5) == 32;
  }

  /** The state behind the last table. */
  function AllTables(st: State, lens: seq<seq<nat>>): (r: State)
    requires |st.inUse| == 256 && NInUse(st) > 0 && GroupsOk(st.selector, st.nSelectors, st.nGroups)
    requires |lens| == st.nGroups && TablesOk(lens, AlphaSize(st))
  {
    NextSymbol(st.(lens := lens, table := [], groupNo := -1, groupPos := 0, mtf := Start(Identity(256))))
  }

  lemma TableNext(st: State, lens: seq<seq<nat>>, t: nat)
    requires |st.inUse| == 256 && CodingOk(st) && st.phase == Coding1 && st.table == []
    requires |lens| == st.nGroups && TablesOk(lens, AlphaSize(st)) && t < |lens| && st.lens == lens[..t]
    ensures TableOk(lens[t], AlphaSize(st))
    ensures TableDone(st, lens[t])
         == if t + 1 < |lens| then st.(lens := lens[..t + 1]) else AllTables(st, lens)
    ensures AllTables(st.(lens := lens[..t + 1]), lens) == AllTables(st, lens)
  {
    hide Used, MinLen, TableOk, GroupsOk, NextSymbol;
    assert lens[..t] + [lens[t]] == lens[..t + 1];
    assert lens[..|lens|] == lens;
  }

  /** The coding tables come back. */
  lemma {:induction false} RunTables(st: State, lens: seq<seq<nat>>, t: nat, rest: seq<bool>)
    requires Ok(st) && st.phase == Coding1 && st.table == []
    requires |lens| == st.nGroups && TablesOk(lens, AlphaSize(st)) && t < |lens| && st.lens == lens[..t]
    ensures forall k :: 0 <= k < |lens| ==> lens[k] != []
    ensures Ok(AllTables(st, lens)) && Run(st, TablesBits(lens[t..]) + rest) == Run(AllTables(st, lens), rest)
    decreases |lens| - t
  {
    hide Run, Used, GroupsOk, TableDone, TableBits, AllTables;
    var tail := TablesBits(lens[t + 1..]) + rest;
    assert lens[t..][1..] == lens[t + 1..];
    TableNext(st, lens, t);
    assert TablesBits(lens[t..]) + rest == TableBits(lens[t]) + tail;
    RunTable(st, lens[t], tail);
    if t + 1 < |lens| {
      RunTables(st.(lens := lens[..t + 1]), lens, t + 1, rest);
    } else {
      assert lens[t + 1..] == [];
      assert tail == rest;
    }
  }
}
