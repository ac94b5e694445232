/** The block's symbols, each in the code its group of fifty selects. */
module DataFormat {

  import opened Bits
  import opened Canonical
  import opened MoveToFront
  import opened MtfEncoder
  import opened DecodeMachine

  predicate Coded(syms: seq<nat>, lens: seq<seq<nat>>, selector: seq<nat>, size: nat) {
    && (forall k :: 0 <= k < |syms| ==> syms[k] < size)
    && (forall t :: 0 <= t < |lens| ==> |lens[t]| == size)
    && (forall g :: 0 <= g < |selector| ==> selector[g] < |lens|)
    && |syms| <= G_SIZE * |selector|
  }

  /** The codes of the symbols from the k-th on. */
  function DataBits(syms: seq<nat>, lens: seq<seq<nat>>, selector: seq<nat>, size: nat, k: nat): seq<bool>
    requires Coded(syms, lens, selector, size) && k <= |syms|
    decreases |syms| - k
  {
    if k == |syms| then []
    else
      var len := lens[selector[k / G_SIZE]];
      ToBits(Code(len, syms[k]), len[syms[k]]) + DataBits(syms, lens, selector, size, k + 1)
  }

  function CurrentTable(st: State): (len: seq<nat>)
    requires |st.inUse| == 256 && SymbolOk(st)
  {
    st.lens[st.selector[st.groupNo]]
  }

  lemma TakeSymbolPhase(st: State, sym: nat, p: Phase)
    requires |st.inUse| == 256 && SymbolOk(st) && sym < AlphaSize(st)
    ensures TakeSymbol(st.(phase := p), sym) == TakeSymbol(st, sym)
  {
    hide Used, MinLen, TablesOk, GroupsOk, Step;
  }

  lemma DecideFinds(st: State, sym: nat)
    requires |st.inUse| == 256 && SymbolOk(st) && sym < AlphaSize(st) == |CurrentTable(st)|
    requires CurrentTable(st)[sym] <= LONGEST
    ensures Decide(st, CurrentTable(st)[sym], Code(CurrentTable(st), sym)) == TakeSymbol(st, sym)
  {
    hide Used, MinLen, MaxLen, Code, Limit, Base, Shorter, Step, TakeSymbol, GroupsOk, TablesOk;
    FoundHere(CurrentTable(st), sym);
  }

  /** n bits of the code are read; the rest of it follows. */
  lemma {:induction false} RunCode(st: State, sym: nat, n: nat, rest: seq<bool>)
    requires |st.inUse| == 256 && SymbolOk(st) && sym < AlphaSize(st) == |CurrentTable(st)|
    requires MinLen(CurrentTable(st)) <= n <= CurrentTable(st)[sym] <= LONGEST
    ensures RunsTo(Decide(st, n, Shr(Code(CurrentTable(st), sym), CurrentTable(st)[sym] - n)),
                   ToBits(Code(CurrentTable(st), sym), CurrentTable(st)[sym] - n) + rest, TakeSymbol(st, sym), rest)
    decreases CurrentTable(st)[sym] - n
  {
    hide Used, MinLen, MaxLen, Code, Shr, Limit, Base, Shorter, Step, TakeSymbol, GroupsOk, TablesOk, Run, ToBits;
    var len := CurrentTable(st);
    var v, k := Code(len, sym), len[sym] - n;
    DecideOk(st, n, Shr(v, k));
    TakeSymbolOk(st, sym);
    if k == 0 {
      ShrNone(v);
      DecideFinds(st, sym);
      assert ToBits(v, 0) + rest == rest;
    } else {
      PassedBy(len, sym, n);
      var s := st.(phase := MoreBits(n + 1, Shr(v, k)));
      assert Decide(st, n, Shr(v, k)) == s;
      FirstBit(v, k, rest);
      var bits := ToBits(v, k) + rest;
      assert bits == [bits[0]] + bits[1..];
      RunBit(s, bits[0], bits[1..]);
      RunCode(s, sym, n + 1, rest);
      TakeSymbolPhase(st, sym, s.phase);
    }
  }

  /** Reading one symbol. */
  lemma RunSymbol(st: State, sym: nat, big: nat, rest: seq<bool>)
    requires Ok(st) && SymbolOk(st) && sym < AlphaSize(st) == |CurrentTable(st)|
    requires st.phase == FirstBits(MinLen(CurrentTable(st)))
    requires Feasible(CurrentTable(st), big) && TableOk(CurrentTable(st), AlphaSize(st))
    ensures RunsTo(st, ToBits(Code(CurrentTable(st), sym), CurrentTable(st)[sym]) + rest, TakeSymbol(st, sym), rest)
  {
    hide Used, MaxLen, Code, Shr, Limit, Base, Shorter, Step, TakeSymbol, GroupsOk, TablesOk, Run, ToBits, Feasible,
      Pow2;
    var len := CurrentTable(st);
    var n, v := MinLen(len), Code(len, sym);
    var k := len[sym] - n;
    CodeFits(len, big, sym);
    ToBitsSplit(v, n, k);
    ShrFits(v, n, k);
    assert ToBits(v, len[sym]) + rest == ToBits(Shr(v, k), n) + (ToBits(v, k) + rest);
    MinLenSeen(len, sym);
    RunStep(st, Shr(v, k), n, ToBits(v, k) + rest);
    RunCode(st, sym, n, rest);
  }

  lemma MinLenSeen(len: seq<nat>, i: nat)
    requires i < |len| && forall k :: 0 <= k < |len| ==> 1 <= len[k] <= LONGEST
    ensures 1 <= MinLen(len) <= LONGEST
  {
    assert MinLen(len) <= len[i];
  }

  // ----- All symbols of a block -----

  /** The state that waits for symbol k. */
  function Awaiting(st: State, k: nat): (r: State)
    requires |st.inUse| == 256 && Ready(st) && k < G_SIZE * st.nSelectors
  {
    st.(groupNo := k / G_SIZE, groupPos := G_SIZE - 1 - k % G_SIZE,
        phase := FirstBits(MinLen(st.lens[st.selector[k / G_SIZE]])))
  }

  lemma AwaitFirst(st: State)
    requires |st.inUse| == 256 && Ready(st)
    ensures NextSymbol(st.(groupNo := -1, groupPos := 0)) == Awaiting(st, 0)
  {
    hide Used, MinLen, TablesOk;
  }

  lemma AwaitNext(st: State, k: nat)
    requires |st.inUse| == 256 && Ready(st) && k + 1 < G_SIZE * st.nSelectors
    ensures NextSymbol(st.(groupNo := k / G_SIZE, groupPos := G_SIZE - 1 - k % G_SIZE)) == Awaiting(st, k + 1)
  {
    hide Used, MinLen, TablesOk;
  }

  /** The whole block has been read. */
  function Complete(st: State, n: nat, column: seq<nat>): (r: State) {
    st.(groupNo := (n - 1) / G_SIZE, groupPos := G_SIZE - 1 - (n - 1) % G_SIZE, mtf := Finished(column),
        phase := Output)
  }

  /** The symbols from the k-th on finish the block and leave the given column. */
  ghost predicate Finishes(mtf: Decoder, syms: seq<nat>, k: nat, eob: nat, max: nat, column: seq<nat>) {
    && k < |syms| && syms[|syms| - 1] == eob > 1 && (forall i :: 0 <= i < |syms| - 1 ==> syms[i] < eob)
    && mtf.Reading? && |mtf.list| == 256 && eob <= 257
    && Steps(mtf, syms[k..], eob, max) == Finished(column)
  }

  lemma FinishesNext(mtf: Decoder, syms: seq<nat>, k: nat, eob: nat, max: nat, column: seq<nat>)
    requires Finishes(mtf, syms, k, eob, max, column)
    ensures var next := Step(mtf, syms[k], eob, max);
            if k + 1 == |syms| then next == Finished(column) else Finishes(next, syms, k + 1, eob, max, column)
  {
    var rest := syms[k..];
    var next := Step(mtf, syms[k], eob, max);
    assert rest[1..] == syms[k + 1..];
    assert Steps(next, rest[1..], eob, max) == Finished(column);
    if k + 1 < |syms| {
      assert !next.Finished?;
      StepsCorrupt(rest[1..], eob, max);
    } else {
      assert Steps(next, [], eob, max) == next;
    }
  }

  lemma {:induction false} StepsCorrupt(syms: seq<nat>, eob: nat, max: nat)
    requires forall k :: 0 <= k < |syms| ==> syms[k] <= eob
    ensures Steps(Corrupt, syms, eob, max) == Corrupt
  {
    if syms != [] {
      StepsCorrupt(syms[1..], eob, max);
    }
  }

  ghost predicate AllFeasible(lens: seq<seq<nat>>, big: nat) {
    forall t :: 0 <= t < |lens| ==> Feasible(lens[t], big)
  }

  lemma TakeNext(st: State, syms: seq<nat>, k: nat, column: seq<nat>)
    requires |st.inUse| == 256 && Ready(st) && k < |syms| <= G_SIZE * st.nSelectors && syms[k] <= NInUse(st) + 1
    requires Finishes(st.mtf, syms, k, NInUse(st) + 1, MaxBlock(st), column) && st.origPtr < |column|
    ensures k + 1 < |syms| ==> Ready(st.(mtf := Step(st.mtf, syms[k], NInUse(st) + 1, MaxBlock(st))))
    ensures var next := Step(st.mtf, syms[k], NInUse(st) + 1, MaxBlock(st));
            TakeSymbol(Awaiting(st, k), syms[k])
            == if k + 1 == |syms| then Complete(st, |syms|, column) else Awaiting(st.(mtf := next), k + 1)
  {
    hide Used, MinLen, TablesOk, GroupsOk, Step, Steps, NextSymbol;
    FinishesNext(st.mtf, syms, k, NInUse(st) + 1, MaxBlock(st), column);
    var next := Step(st.mtf, syms[k], NInUse(st) + 1, MaxBlock(st));
    if k + 1 < |syms| {
      AwaitNext(st.(mtf := next, phase := Awaiting(st, k).phase), k);
    }
  }

  lemma AwaitingOk(st: State, k: nat)
    requires |st.inUse| == 256 && Ready(st) && k < G_SIZE * st.nSelectors
    ensures Ok(Awaiting(st, k)) && SymbolOk(Awaiting(st, k))
    ensures CurrentTable(Awaiting(st, k)) == st.lens[st.selector[k / G_SIZE]]
    ensures TableOk(st.lens[st.selector[k / G_SIZE]], AlphaSize(st)) && AlphaSize(Awaiting(st, k)) == AlphaSize(st)
    ensures Awaiting(st, k).phase == FirstBits(MinLen(CurrentTable(Awaiting(st, k))))
  {
    hide Used, MinLen;
    ShortestCode(st.lens[st.selector[k / G_SIZE]], AlphaSize(st));
  }

  /** The data of the block comes back. */
  lemma {:induction false} RunData(st: State, syms: seq<nat>, big: nat, k: nat, column: seq<nat>, rest: seq<bool>)
    requires |st.inUse| == 256 && Ready(st) && k < |syms| && AllFeasible(st.lens, big)
    requires Coded(syms, st.lens, st.selector, AlphaSize(st))
    requires Finishes(st.mtf, syms, k, NInUse(st) + 1, MaxBlock(st), column) && st.origPtr < |column|
    ensures RunsTo(Awaiting(st, k), DataBits(syms, st.lens, st.selector, AlphaSize(st), k) + rest,
                   Complete(st, |syms|, column), rest)
    decreases |syms| - k
  {
    hide Used, MinLen, TablesOk, Step, Steps, NextSymbol, Run, Finishes, Ok, Feasible, Awaiting, CurrentTable,
      TakeSymbol, SymbolOk;
    var tail := DataBits(syms, st.lens, st.selector, AlphaSize(st), k + 1) + rest;
    var len := st.lens[st.selector[k / G_SIZE]];
    var s := Awaiting(st, k);
    AwaitingOk(st, k);
    assert DataBits(syms, st.lens, st.selector, AlphaSize(st), k) + rest == ToBits(Code(len, syms[k]), len[syms[k]])
      + tail;
    RunSymbol(s, syms[k], big, tail);
    TakeNext(st, syms, k, column);
    if k + 1 < |syms| {
      FinishesNext(st.mtf, syms, k, NInUse(st) + 1, MaxBlock(st), column);
      RunData(st.(mtf := Step(st.mtf, syms[k], NInUse(st) + 1, MaxBlock(st))), syms, big, k + 1, column, rest);
    } else {
      assert tail == rest;
    }
  }
}
