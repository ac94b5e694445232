/**
  The mapping table: which byte values occur in a block, as sendMTFValues writes it and
  the decoding machine reads it back.
 */
module MappingFormat {

  import opened Rotations
  import opened MoveToFront
  import opened MtfEncoder
  import opened DecodeMachine

  /** Some byte of group i is in use. */
  predicate GroupUsed(inUse: seq<bool>, i: nat)
    requires |inUse| == 256 && i < 16
  {
    exists k :: 16 * i <= k < 16 * i + 16 && inUse[k]
  }

  function GroupFlags(inUse: seq<bool>): (r: seq<bool>)
    requires |inUse| == 256
    ensures |r| == 16
  {
    seq(16, i requires 0 <= i < 16 => GroupUsed(inUse, i))
  }

  /** The bits of the groups in use from group i on. */
  function GroupBits(inUse: seq<bool>, i: nat): seq<bool>
    requires |inUse| == 256 && i <= 16
    decreases 16 - i
  {
    if i == 16 then []
    else (if GroupUsed(inUse, i) then inUse[16 * i..16 * i + 16] else []) + GroupBits(inUse, i + 1)
  }

  function MappingBits(inUse: seq<bool>): seq<bool>
    requires |inUse| == 256
  {
    GroupFlags(inUse) + GroupBits(inUse, 0)
  }

  /** What the reader knows of inUse after m bytes. */
  function Known(inUse: seq<bool>, m: nat): (r: seq<bool>)
    requires m <= |inUse| == 256
    ensures |r| == 256
  {
    inUse[..m] + Repeat(false, 256 - m)
  }

  lemma KnownBit(inUse: seq<bool>, m: nat)
    requires m < |inUse| == 256
    ensures Known(inUse, m + 1) == if inUse[m] then Known(inUse, m)[m := true] else Known(inUse, m)
  {
  }

  lemma KnownUnused(inUse: seq<bool>, i: nat)
    requires |inUse| == 256 && i < 16 && !GroupUsed(inUse, i)
    ensures Known(inUse, 16 * i + 16) == Known(inUse, 16 * i)
  {
  }

  /** Reading one group of 16 bits. */
  lemma {:induction false} RunGroup(st: State, inUse: seq<bool>, i: nat, j: nat, rest: seq<bool>)
    requires |inUse| == 256 && |st.inUse16| == 16 && i < 16 && j < 16
    requires st.phase == Mapping2(i, j) && st.inUse == Known(inUse, 16 * i + j)
    ensures Ok(st) && Ok(NextGroup(st.(inUse := Known(inUse, 16 * i + 16)), i + 1))
    ensures Run(st, inUse[16 * i + j..16 * i + 16] + rest)
         == Run(NextGroup(st.(inUse := Known(inUse, 16 * i + 16)), i + 1), rest)
    decreases 16 - j
  {
    hide Run, NextGroup, Used, Known;
    var m := 16 * i + j;
    var b := inUse[m];
    NextGroupOk(st.(inUse := Known(inUse, 16 * i + 16)), i + 1);
    assert inUse[m..16 * i + 16] + rest == [b] + (inUse[m + 1..16 * i + 16] + rest);
    KnownBit(inUse, m);
    RunBit(st, b, inUse[m + 1..16 * i + 16] + rest);
    var s := st.(inUse := Known(inUse, m + 1));
    if j < 15 {
      RunGroup(s.(phase := Mapping2(i, j + 1)), inUse, i, j + 1, rest);
      NextGroupPhase(s.(inUse := Known(inUse, 16 * i + 16)), i + 1, st.phase, Mapping2(i, j + 1));
    } else {
      assert inUse[m + 1..16 * i + 16] + rest == rest;
    }
  }

  /** NextGroup sets the phase anew. */
  lemma {:induction false} NextGroupPhase(st: State, i: nat, p: Phase, q: Phase)
    requires |st.inUse16| == 16 && i <= 16 && |st.inUse| == 256
    ensures NextGroup(st.(phase := p), i) == NextGroup(st.(phase := q), i)
    decreases 16 - i
  {
    hide Used;
    if i < 16 {
      NextGroupPhase(st, i + 1, p, q);
    }
  }

  /** What NextGroup and GroupBits do at group i. */
  lemma GroupCases(st: State, inUse: seq<bool>, i: nat, rest: seq<bool>)
    requires |inUse| == 256 == |st.inUse| && i < 16 && st.inUse16 == GroupFlags(inUse)
    ensures if GroupUsed(inUse, i) then
              && NextGroup(st, i) == st.(phase := Mapping2(i, 0))
              && GroupBits(inUse, i) + rest == inUse[16 * i + 0..16 * i + 16] + (GroupBits(inUse, i + 1) + rest)
            else
              && NextGroup(st, i) == NextGroup(st, i + 1)
              && GroupBits(inUse, i) + rest == GroupBits(inUse, i + 1) + rest
  {
    hide Used, GroupUsed;
    assert st.inUse16[i] == GroupUsed(inUse, i);
  }

  lemma GroupsDone(st: State, inUse: seq<bool>, rest: seq<bool>)
    requires |inUse| == 256 && |Used(inUse, 256)| > 0 && st.inUse16 == GroupFlags(inUse)
      && st.inUse == Known(inUse, 256)
    ensures NextGroup(st, 16) == st.(inUse := inUse, phase := Selector1)
    ensures GroupBits(inUse, 16) + rest == rest
  {
    hide Used, GroupUsed, GroupFlags;
    KnownAll(inUse);
    assert GroupBits(inUse, 16) == [];
  }

  /** Reading all groups from group i on. */
  lemma {:induction false} RunGroups(st: State, inUse: seq<bool>, i: nat, rest: seq<bool>)
    requires |inUse| == 256 && |Used(inUse, 256)| > 0 && i <= 16
    requires st.inUse16 == GroupFlags(inUse) && st.inUse == Known(inUse, 16 * i)
    ensures Ok(NextGroup(st, i)) && Ok(st.(inUse := inUse, phase := Selector1))
    ensures Run(NextGroup(st, i), GroupBits(inUse, i) + rest) == Run(st.(inUse := inUse, phase := Selector1), rest)
    decreases 16 - i
  {
    hide Run, Used, Known, GroupUsed, GroupBits, GroupFlags, NextGroup;
    NextGroupOk(st, i);
    if i == 16 {
      GroupsDone(st, inUse, rest);
    } else {
      GroupCases(st, inUse, i, rest);
      if GroupUsed(inUse, i) {
        var s := st.(phase := Mapping2(i, 0));
        RunGroup(s, inUse, i, 0, GroupBits(inUse, i + 1) + rest);
        RunGroups(s.(inUse := Known(inUse, 16 * i + 16)), inUse, i + 1, rest);
      } else {
        KnownUnused(inUse, i);
        RunGroups(st, inUse, i + 1, rest);
      }
    }
  }

  lemma KnownAll(inUse: seq<bool>)
    requires |inUse| == 256
    ensures Known(inUse, 256) == inUse
  {
  }

  lemma {:induction false} RunFlags(st: State, inUse: seq<bool>, rest: seq<bool>)
    requires |inUse| == 256 == |st.inUse| && st.phase == Mapping1 && |st.inUse16| < 16
    requires st.inUse16 == GroupFlags(inUse)[..|st.inUse16|]
    ensures Ok(st)
    ensures var s := st.(inUse16 := GroupFlags(inUse), inUse := Repeat(false, 256));
            && Ok(NextGroup(s, 0))
            && Run(st, GroupFlags(inUse)[|st.inUse16|..] + rest) == Run(NextGroup(s, 0), rest)
    decreases 16 - |st.inUse16|
  {
    hide Run, Used, NextGroup, GroupUsed;
    var flags, k := GroupFlags(inUse), |st.inUse16|;
    var b := flags[k];
    NextGroupOk(st.(inUse16 := flags, inUse := Repeat(false, 256)), 0);
    assert flags[k..] + rest == [b] + (flags[k + 1..] + rest);
    RunBit(st, b, flags[k + 1..] + rest);
    assert st.inUse16 + [b] == flags[..k + 1];
    if k < 15 {
      RunFlags(st.(inUse16 := flags[..k + 1]), inUse, rest);
    } else {
      assert flags[..16] == flags && flags[16..] + rest == rest;
    }
  }

  /** The mapping table comes back. */
  lemma RunMapping(st: State, inUse: seq<bool>, rest: seq<bool>)
    requires |inUse| == 256 == |st.inUse| && |Used(inUse, 256)| > 0
    requires st.phase == Mapping1 && st.inUse16 == []
    ensures Ok(st)
    ensures var s := st.(inUse16 := GroupFlags(inUse), inUse := inUse, phase := Selector1);
            Ok(s) && Run(st, MappingBits(inUse) + rest) == Run(s, rest)
  {
    hide Run, Used, NextGroup, GroupBits, GroupFlags;
    var flags := GroupFlags(inUse);
    RunFlags(st, inUse, GroupBits(inUse, 0) + rest);
    assert flags[0..] == flags;
    assert MappingBits(inUse) + rest == flags + (GroupBits(inUse, 0) + rest);
    var s := st.(inUse16 := flags, inUse := Repeat(false, 256));
    assert Known(inUse, 0) == Repeat(false, 256);
    RunGroups(s, inUse, 0, rest);
  }
}
