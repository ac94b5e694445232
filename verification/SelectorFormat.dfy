/** The selectors: move-to-front coded, then each in unary. */
module SelectorFormat {

  import opened Bits
  import opened MoveToFront
  import opened MtfEncoder
  import opened DecodeMachine

  /** The move-to-front codes of the selectors, as sendMTFValues computes them. */
  function SelectorCodes(selector: seq<nat>, pos: seq<nat>): (r: seq<nat>)
    requires Covers(pos, selector)
    ensures |r| == |selector|
  {
    if selector == [] then []
    else
      CoversNext(pos, selector);
      var j := IndexOf(pos, selector[0]);
      [j] + SelectorCodes(selector[1..], FrontMoved(pos, j))
  }

  /** Undoing the codes gives the selectors back. */
  lemma {:induction false} SelectorsRoundTrip(selector: seq<nat>, pos: seq<nat>)
    requires Covers(pos, selector)
    ensures var codes := SelectorCodes(selector, pos);
            && (forall k :: 0 <= k < |codes| ==> codes[k] < |pos|)
            && UndoSelectors(codes, pos) == selector
  {
    if selector != [] {
      CoversNext(pos, selector);
      var j := IndexOf(pos, selector[0]);
      SelectorsRoundTrip(selector[1..], FrontMoved(pos, j));
      var codes := SelectorCodes(selector, pos);
      assert codes[1..] == SelectorCodes(selector[1..], FrontMoved(pos, j));
    }
  }

  function SelectorBits(codes: seq<nat>): seq<bool> {
    if codes == [] then [] else Repeat(true, codes[0]) + [false] + SelectorBits(codes[1..])
  }

  /** The group counts and the selectors. */
  function SelectorsBits(nGroups: nat, codes: seq<nat>): seq<bool> {
    ToBits(nGroups, 3) + ToBits(|codes|, 15) + SelectorBits(codes)
  }

  /** Reading one unary code. */
  lemma {:induction false} RunUnary(st: State, j: nat, c: nat, rest: seq<bool>)
    requires Ok(st) && st.phase == Selector3(j) && j <= c < st.nGroups
    ensures Ok(NextSelector(st, c, 0))
    ensures Run(st, Repeat(true, c - j) + [false] + rest) == Run(NextSelector(st, c, 0), rest)
    decreases c - j
  {
    hide Run, Used, UndoSelectors;
    NextSelectorOk(st, c, 0);
    if j == c {
      assert Repeat(true, 0) + [false] + rest == [false] + rest;
      RunBit(st, false, rest);
    } else {
      var bits := Repeat(true, c - (j + 1)) + [false] + rest;
      assert Repeat(true, c - j) + [false] + rest == [true] + bits;
      RunBit(st, true, bits);
      var s := st.(phase := Selector3(j + 1));
      RunUnary(s, j + 1, c, rest);
      assert NextSelector(s, c, 0) == NextSelector(st, c, 0);
    }
  }

  /** The state behind the last selector. */
  function AllSelected(st: State, codes: seq<nat>): (r: State)
    requires forall k :: 0 <= k < |codes| ==> codes[k] < st.nGroups
  {
    st.(selectorMtf := codes, selector := UndoSelectors(codes, Identity(st.nGroups)), lens := [], table := [],
        phase := Coding1)
  }

  lemma SelectorNext(st: State, codes: seq<nat>, k: nat)
    requires Ok(st) && st.phase == Selector3(0) && st.nSelectors == |codes| <= MAX_SELECTORS
    requires k < |codes| && st.selectorMtf == codes[..k] && forall i :: 0 <= i < |codes| ==> codes[i] < st.nGroups
    ensures NextSelector(st, codes[k], 0)
         == if k + 1 < |codes| then st.(selectorMtf := codes[..k + 1]) else AllSelected(st, codes)
  {
    hide Used, UndoSelectors;
    assert codes[..k] + [codes[k]] == codes[..k + 1];
    assert codes[..|codes|] == codes;
  }

  lemma {:induction false} RunSelectors(st: State, codes: seq<nat>, k: nat, rest: seq<bool>)
    requires Ok(st) && st.phase == Selector3(0) && st.nSelectors == |codes| <= MAX_SELECTORS
    requires k < |codes| && st.selectorMtf == codes[..k] && forall i :: 0 <= i < |codes| ==> codes[i] < st.nGroups
    ensures Ok(AllSelected(st, codes))
    ensures Run(st, SelectorBits(codes[k..]) + rest) == Run(AllSelected(st, codes), rest)
    decreases |codes| - k
  {
    hide Run, Used, UndoSelectors, NextSelector, Ok;
    var bits := SelectorBits(codes[k + 1..]) + rest;
    assert codes[k..][1..] == codes[k + 1..];
    assert SelectorBits(codes[k..]) + rest == Repeat(true, codes[k] - 0) + [false] + bits;
    RunUnary(st, 0, codes[k], bits);
    SelectorNext(st, codes, k);
    if k + 1 < |codes| {
      RunSelectors(st.(selectorMtf := codes[..k + 1]), codes, k + 1, rest);
    } else {
      assert codes[k + 1..] == [];
      assert bits == rest;
    }
  }

  lemma SelectorFields(nGroups: nat, n: nat)
    requires 2 <= nGroups <= N_GROUPS && n <= MAX_SELECTORS
    ensures nGroups < Pow2(3) && n < Pow2(15)
  {
    assert Pow2(3) == 8;
    assert Pow2(9) == 512;
    assert Pow2(15) == 32768;
  }

  /** The selectors come back. */
  lemma RunSelectorsBits(st: State, nGroups: nat, selector: seq<nat>, rest: seq<bool>)
    requires Ok(st) && st.phase == Selector1 && 2 <= nGroups <= N_GROUPS && 1 <= |selector| <= MAX_SELECTORS
    requires Covers(Identity(nGroups), selector)
    ensures var codes := SelectorCodes(selector, Identity(nGroups));
            var s := st.(nGroups := nGroups, nSelectors := |selector|, selectorMtf := codes, selector := selector,
                         lens := [], table := [], phase := Coding1);
            Ok(s) && Run(st, SelectorsBits(nGroups, codes) + rest) == Run(s, rest)
  {
    hide Run, Used, UndoSelectors, NextSelector, ToBits, Pow2, SelectorBits, SelectorCodes, Covers;
    var codes := SelectorCodes(selector, Identity(nGroups));
    SelectorsRoundTrip(selector, Identity(nGroups));
    SelectorFields(nGroups, |codes|);
    var tail := SelectorBits(codes) + rest;
    assert SelectorsBits(nGroups, codes) + rest == ToBits(nGroups, 3) + (ToBits(|codes|, 15) + tail);
    RunStep(st, nGroups, 3, ToBits(|codes|, 15) + tail);
    var s1 := st.(nGroups := nGroups, phase := Selector2);
    RunStep(s1, |codes|, 15, tail);
    var s2 := s1.(nSelectors := |codes|, selectorMtf := [], phase := Selector3(0));
    assert codes[0..] == codes && codes[..0] == [];
    RunSelectors(s2, codes, 0, rest);
  }
}
