/** The first half of sendMTFValues: choosing coding tables and which of them codes each group. */
module TableChoice {

  import opened Bits
  import opened HuffmanTree
  import opened Heap
  import opened CodeLengths
  import opened Canonical
  import opened MtfEncoder
  import opened DecodeMachine

  const LESSER_ICOST: nat := 0
  const GREATER_ICOST: nat := 15
  const MAX_LEN: nat := 17
  const N_ITERS: nat := 4

  // ----- Rows of tables -----

  /** len, code and rfreq: one row per table. */
  ghost predicate Rows(rows: seq<array<nat>>) {
    && |rows| == N_GROUPS
    && (forall t :: 0 <= t < |rows| ==> rows[t].Length == MAX_ALPHA_SIZE)
    && (forall t, u :: 0 <= t < u < |rows| ==> rows[t] != rows[u])
  }

  ghost predicate Apart(rows: seq<array<nat>>, rows': seq<array<nat>>) {
    forall t, u :: 0 <= t < |rows| && 0 <= u < |rows'| ==> rows[t] != rows'[u]
  }

  /** The first n rows, each cut to the alphabet. */
  ghost function Tables(rows: seq<array<nat>>, n: nat, size: nat): (r: seq<seq<nat>>)
    requires Rows(rows) && n <= N_GROUPS && size <= MAX_ALPHA_SIZE
    reads rows
    ensures |r| == n && forall t :: 0 <= t < n ==> r[t] == rows[t][..size] && |r[t]| == size
  {
    seq(n, t requires 0 <= t < n reads rows => rows[t][..size])
  }

  /** No entry exceeds MAX_LEN, so that costs fit 16 bits. */
  ghost predicate Cheap(lens: seq<seq<nat>>) {
    forall t :: 0 <= t < |lens| ==> forall v :: 0 <= v < |lens[t]| ==> lens[t][v] <= MAX_LEN
  }

  ghost predicate Sized(lens: seq<seq<nat>>, size: nat) {
    forall t :: 0 <= t < |lens| ==> |lens[t]| == size
  }

  ghost predicate InAlphabet(syms: seq<nat>, size: nat) {
    forall k :: 0 <= k < |syms| ==> syms[k] < size
  }

  // ----- Groups -----

  /** Where group g of n symbols starts; group g ends where group g + 1 starts. */
  function GroupStart(g: nat, n: nat): (r: nat)
    ensures r <= n
  {
    if G_SIZE * g < n then G_SIZE * g else n
  }

  function GroupCount(n: nat): nat {
    (n + G_SIZE - 1) / G_SIZE
  }

  /** What coding symbols lo .. hi - 1 with the given lengths costs. */
  ghost function Cost(len: seq<nat>, syms: seq<nat>, lo: nat, hi: nat): (r: nat)
    requires lo <= hi <= |syms| && InAlphabet(syms, |len|)
    decreases hi - lo
  {
    if lo == hi then 0 else Cost(len, syms, lo, hi - 1) + len[syms[hi - 1]]
  }

  function Times(syms: seq<nat>, v: nat, lo: nat, hi: nat): (r: nat)
    requires lo <= hi <= |syms|
    decreases hi - lo
  {
    if lo == hi then 0 else Times(syms, v, lo, hi - 1) + if syms[hi - 1] == v then 1 else 0
  }

  /** How often v occurs in the groups that table t codes. */
  ghost function Tally(syms: seq<nat>, selector: seq<nat>, t: nat, v: nat): (r: nat)
  {
    if selector == [] then 0
    else
      var g := |selector| - 1;
      StartsGrow(g, |syms|);
      Tally(syms, selector[..g], t, v)
      + if selector[g] == t then Times(syms, v, GroupStart(g, |syms|), GroupStart(g + 1, |syms|)) else 0
  }

  lemma StartsGrow(g: nat, n: nat)
    ensures GroupStart(g, n) <= GroupStart(g + 1, n) <= GroupStart(g, n) + G_SIZE
  {
  }

  /** Table t is the first of the cheapest for group g. */
  ghost predicate Best(lens: seq<seq<nat>>, syms: seq<nat>, g: nat, t: nat, size: nat)
    requires Sized(lens, size) && InAlphabet(syms, size)
  {
    var lo, hi := GroupStart(g, |syms|), GroupStart(g + 1, |syms|);
    StartsGrow(g, |syms|);
    && t < |lens| && (forall u :: 0 <= u < |lens| ==> Cost(lens[t], syms, lo, hi) <= Cost(lens[u], syms, lo, hi))
    && (forall u :: 0 <= u < t ==> Cost(lens[t], syms, lo, hi) < Cost(lens[u], syms, lo, hi))
  }

  // ----- The number of tables -----

  /** More symbols get more tables. */
  predicate GroupsDue(nMTF: nat, nGroups: nat) {
    && 2 <= nGroups <= N_GROUPS
    && (nGroups > 2 <==> nMTF >= 200)
    && (nGroups > 3 <==> nMTF >= 600)
    && (nGroups > 4 <==> nMTF >= 1200)
    && (nGroups > 5 <==> nMTF >= 2400)
  }

  method ChooseGroups(nMTF: nat) returns (nGroups: nat)
    ensures GroupsDue(nMTF, nGroups)
  {
    if nMTF < 200 {
      nGroups := 2;
    } else if nMTF < 600 {
      nGroups := 3;
    } else if nMTF < 1200 {
      nGroups := 4;
    } else if nMTF < 2400 {
      nGroups := 5;
    } else {
      nGroups := 6;
    }
  }

  // ----- Initial tables -----

  /** The frequencies from gs on. */
  ghost function SumFrom(freq: seq<nat>, gs: nat): (r: nat)
    requires gs <= |freq|
    decreases |freq| - gs
  {
    if gs == |freq| then 0 else freq[gs] + SumFrom(freq, gs + 1)
  }

  lemma {:induction false} SumFromZero(freq: seq<nat>, gs: nat)
    requires gs <= |freq| && SumFrom(freq, gs) == 0
    ensures forall v :: gs <= v < |freq| ==> freq[v] == 0
    decreases |freq| - gs
  {
    if gs < |freq| {
      SumFromZero(freq, gs + 1);
    }
  }

  /** gs .. next - 1 is the shortest range of symbols whose frequencies reach the share. */
  ghost predicate Reaches(f: seq<nat>, gs: nat, next: nat, share: nat) {
    && gs <= next <= |f|
    && SumFrom(f, gs) >= SumFrom(f, next) + share
    && (next > gs ==> SumFrom(f, gs) < SumFrom(f, next - 1) + share)
  }

  /** Such a range, without its last symbol where it may shrink and has another one. */
  ghost predicate Portion(f: seq<nat>, gs: nat, next: nat, share: nat, mayShrink: bool) {
    exists e: nat :: Reaches(f, gs, e, share) && next == if mayShrink && e > gs + 1 then e - 1 else e
  }

  /** The ranges made so far of symbols, each with its share of the frequencies that were left. */
  ghost predicate Portions(f: seq<nat>, bounds: seq<nat>, nGroups: nat) {
    && 1 <= |bounds| <= nGroups + 1 && bounds[0] == 0
    && (forall j :: 0 <= j < |bounds| ==> bounds[j] <= |f|)
    && (forall j :: 0 <= j < |bounds| - 1 ==>
       Portion(f, bounds[j], bounds[j + 1], Share(SumFrom(f, bounds[j]), nGroups - j), MayShrink(j, nGroups)))
  }

  /** Every other range may be one symbol smaller, but neither the first one nor the last one. */
  predicate MayShrink(j: nat, nGroups: nat) {
    j != 0 && j + 1 != nGroups && j % 2 == 1
  }

  /** The ranges make up all symbols that occur. */
  ghost predicate StartSplit(f: seq<nat>, bounds: seq<nat>, nGroups: nat) {
    Portions(f, bounds, nGroups) && |bounds| == nGroups + 1 && SumFrom(f, bounds[nGroups]) == 0
  }

  ghost predicate CheapRange(row: seq<nat>, lo: nat, hi: nat, alphaSize: nat) {
    alphaSize <= |row|
    && forall v :: 0 <= v < alphaSize ==> row[v] == if lo <= v < hi then LESSER_ICOST else GREATER_ICOST
  }

  /** The j-th table from the end is cheap exactly in the j-th range. */
  ghost predicate StartRows(lens: seq<seq<nat>>, bounds: seq<nat>, alphaSize: nat) {
    |bounds| == |lens| + 1
    && forall j :: 0 <= j < |lens| ==> CheapRange(lens[|lens| - 1 - j], bounds[j], bounds[j + 1], alphaSize)
  }

  lemma {:induction false} BoundsGrow(f: seq<nat>, bounds: seq<nat>, nGroups: nat, j: nat, k: nat)
    requires Portions(f, bounds, nGroups) && j <= k < |bounds|
    ensures bounds[j] <= bounds[k]
    decreases k
  {
    hide SumFrom, Share;
    if j < k {
      BoundsGrow(f, bounds, nGroups, j, k - 1);
    }
  }

  /** Each symbol that occurs lies in exactly one range. */
  lemma OccursInOneRange(f: seq<nat>, bounds: seq<nat>, nGroups: nat, v: nat) returns (j: nat)
    requires StartSplit(f, bounds, nGroups) && v < |f| && f[v] > 0
    ensures j < nGroups && forall i :: 0 <= i < nGroups ==> (bounds[i] <= v < bounds[i + 1] <==> i == j)
  {
    hide Portion, Share;
    SumFromZero(f, bounds[nGroups]);
    j := 0;
    while bounds[j + 1] <= v
      invariant j < nGroups && bounds[j] <= v < bounds[nGroups]
      decreases nGroups - j
    {
      j := j + 1;
    }
    forall i | 0 <= i < nGroups
      ensures bounds[i] <= v < bounds[i + 1] <==> i == j
    {
      if i < j {
        BoundsGrow(f, bounds, nGroups, i + 1, j);
      } else if j < i {
        BoundsGrow(f, bounds, nGroups, j + 1, i);
      }
    }
  }

  function Share(remF: nat, nPart: nat): nat
    requires nPart > 0
  {
    remF / nPart
  }

  lemma ShareFits(remF: nat, nPart: nat)
    requires nPart > 0
    ensures Share(remF, nPart) <= remF && (nPart == 1 ==> Share(remF, nPart) == remF)
  {
    Larger(remF / nPart, nPart);
    if nPart == 1 {
      assert remF / 1 == remF;
    }
  }

  lemma Larger(q: nat, m: nat)
    requires m > 0
    ensures q * m >= q
  {
  }

  /** The end of the range of symbols for one initial table. */
  method InitialRange(mtfFreq: array<nat>, alphaSize: nat, gs: nat, tFreq: nat, mayShrink: bool)
    returns (next: nat, aFreq: nat)
    requires gs <= alphaSize <= mtfFreq.Length
    requires tFreq <= SumFrom(mtfFreq[..alphaSize], gs)
    ensures gs <= next <= alphaSize && aFreq + SumFrom(mtfFreq[..alphaSize], next) == SumFrom(mtfFreq[..alphaSize], gs)
    ensures Portion(mtfFreq[..alphaSize], gs, next, tFreq, mayShrink)
  {
    ghost var f := mtfFreq[..alphaSize];
    var ge: int := gs - 1;
    aFreq := 0;
    while aFreq < tFreq && ge < alphaSize - 1
      invariant gs - 1 <= ge < alphaSize
      invariant aFreq + SumFrom(f, ge + 1) == SumFrom(f, gs)
      invariant ge >= gs ==> SumFrom(f, gs) < SumFrom(f, ge) + tFreq
    {
      ge := ge + 1;
      aFreq := aFreq + mtfFreq[ge];
    }
    assert Reaches(f, gs, ge + 1, tFreq);
    if ge > gs && mayShrink {
      assert SumFrom(f, ge) == mtfFreq[ge] + SumFrom(f, ge + 1);
      AtLeast(f, gs, ge);
      aFreq := aFreq - mtfFreq[ge];
      ge := ge - 1;
    }
    next := ge + 1;
  }

  lemma {:induction false} AtLeast(f: seq<nat>, gs: nat, ge: nat)
    requires gs <= ge <= |f|
    ensures SumFrom(f, ge) <= SumFrom(f, gs)
    decreases ge - gs
  {
    if gs < ge {
      AtLeast(f, gs + 1, ge);
    }
  }

  method FillRow(row: array<nat>, alphaSize: nat, gs: nat, next: nat)
    requires gs <= next <= alphaSize <= row.Length
    modifies row
    ensures CheapRange(row[..], gs, next, alphaSize)
  {
    for v := 0 to alphaSize
      invariant forall u :: 0 <= u < v ==> row[u] == if gs <= u < next then LESSER_ICOST else GREATER_ICOST
    {
      row[v] := if v >= gs && v <= next - 1 then LESSER_ICOST else GREATER_ICOST;
    }
  }

  /** The symbols are split into ranges of about equal frequency, and each table is cheap in one of them. */
  method InitialTables(len: seq<array<nat>>, mtfFreq: array<nat>, nMTF: nat, alphaSize: nat, nGroups: nat)
    returns (ghost bounds: seq<nat>)
    requires Rows(len) && mtfFreq !in len && 2 <= nGroups <= N_GROUPS && alphaSize <= MAX_ALPHA_SIZE
      && alphaSize <= mtfFreq.Length
    requires SumFrom(mtfFreq[..alphaSize], 0) == nMTF
    modifies len
    ensures StartSplit(mtfFreq[..alphaSize], bounds, nGroups)
    ensures forall j :: 0 <= j < nGroups ==>
      CheapRange(len[nGroups - 1 - j][..], bounds[j], bounds[j + 1], alphaSize)
  {
    hide Portion, CheapRange, SumFrom, Share;
    ghost var f := mtfFreq[..alphaSize];
    var nPart, remF, gs := nGroups, nMTF, 0;
    bounds := [0];
    while nPart > 0
      invariant 0 <= nPart <= nGroups && |bounds| == nGroups - nPart + 1 && mtfFreq[..alphaSize] == f
      invariant gs == bounds[|bounds| - 1] <= alphaSize && Portions(f, bounds, nGroups)
      invariant forall j :: 0 <= j < nGroups - nPart ==>
        CheapRange(len[nGroups - 1 - j][..], bounds[j], bounds[j + 1], alphaSize)
      invariant remF == SumFrom(f, gs) && (nPart == 0 ==> remF == 0)
    {
      ShareFits(remF, nPart);
      var tFreq := Share(remF, nPart);
      ghost var j := nGroups - nPart;
      var mayShrink := nPart != nGroups && nPart != 1 && (nGroups - nPart) % 2 == 1;
      var next, aFreq := InitialRange(mtfFreq, alphaSize, gs, tFreq, mayShrink);
      PortionAll(f, gs, next, tFreq, mayShrink);
      FillRow(len[nPart - 1], alphaSize, gs, next);
      bounds := bounds + [next];
      nPart := nPart - 1;
      gs := next;
      remF := remF - aFreq;
    }
  }

  /** A range that may not shrink and has everything as its share leaves nothing. */
  lemma PortionAll(f: seq<nat>, gs: nat, next: nat, share: nat, mayShrink: bool)
    requires Portion(f, gs, next, share, mayShrink)
    ensures gs <= next <= |f|
    ensures !mayShrink && share == SumFrom(f, gs) ==> SumFrom(f, next) == 0
  {
    hide SumFrom;
  }

  // ----- One pass: a table for each group -----

  lemma CostStep(len: seq<nat>, syms: seq<nat>, lo: nat, hi: nat)
    requires lo <= hi < |syms| && InAlphabet(syms, |len|)
    ensures Cost(len, syms, lo, hi + 1) == Cost(len, syms, lo, hi) + len[syms[hi]]
  {
  }

  /** The first t costs include symbol i, the others only those before it. */
  ghost predicate Costs(cost: seq<nat>, lens: seq<seq<nat>>, syms: seq<nat>, size: nat, gs: nat, i: nat, t: nat)
    requires Sized(lens, size) && InAlphabet(syms, size) && gs <= i <= |syms| && (t > 0 ==> i < |syms|)
  {
    && |lens| <= |cost|
    && (forall u :: 0 <= u < |lens| && u < t ==> cost[u] == Cost(lens[u], syms, gs, i + 1) <= MAX_LEN * (i + 1 - gs))
    && (forall u :: t <= u < |lens| ==> cost[u] == Cost(lens[u], syms, gs, i) <= MAX_LEN * (i - gs))
  }

  lemma CostsStep(cost: seq<nat>, lens: seq<seq<nat>>, syms: seq<nat>, size: nat, gs: nat, i: nat, t: nat)
    requires Sized(lens, size) && InAlphabet(syms, size) && gs <= i < |syms| && t < |lens| && Cheap(lens)
    requires Costs(cost, lens, syms, size, gs, i, t)
    ensures Costs(cost[t := cost[t] + lens[t][syms[i]]], lens, syms, size, gs, i, t + 1)
  {
    CostStep(lens[t], syms, gs, i);
  }

  lemma CostsNext(cost: seq<nat>, lens: seq<seq<nat>>, syms: seq<nat>, size: nat, gs: nat, i: nat)
    requires Sized(lens, size) && InAlphabet(syms, size) && gs <= i < |syms|
    requires Costs(cost, lens, syms, size, gs, i, |lens|)
    ensures Costs(cost, lens, syms, size, gs, i + 1, 0)
  {
  }

  lemma CostsStart(cost: seq<nat>, lens: seq<seq<nat>>, syms: seq<nat>, size: nat, gs: nat)
    requires Sized(lens, size) && InAlphabet(syms, size) && gs <= |syms|
    requires |lens| <= |cost| && forall u :: 0 <= u < |lens| ==> cost[u] == 0
    ensures Costs(cost, lens, syms, size, gs, gs, 0)
  {
  }

  /** The costs of symbols gs .. next - 1 under each table. */
  method GroupCosts(out: MtfOutput, len: seq<array<nat>>, cost: array<nat>, nGroups: nat, alphaSize: nat, gs: nat,
                    next: nat,
                    ghost lens: seq<seq<nat>>)
    requires out.Valid() && Rows(len) && nGroups <= N_GROUPS == cost.Length && alphaSize <= MAX_ALPHA_SIZE
    requires cost !in len && cost != out.arr1 && cost != out.mtfFreq
    requires gs <= next <= out.wr && next <= gs + G_SIZE && |out.syms| == out.wr
    requires lens == Tables(len, nGroups, alphaSize) && Sized(lens, alphaSize) && InAlphabet(out.syms, alphaSize)
      && Cheap(lens)
    modifies cost
    ensures Costs(cost[..], lens, out.syms, alphaSize, gs, next, 0)
  {
    hide MtfOutput.Valid, Costs, Cheap, Tables, Rows;
    ghost var syms := out.syms;
    for t := 0 to nGroups
      invariant forall u :: 0 <= u < t ==> cost[u] == 0
    {
      cost[t] := 0;
    }
    CostsStart(cost[..], lens, syms, alphaSize, gs);
    for i := gs to next
      invariant out.Valid() && Costs(cost[..], lens, syms, alphaSize, gs, i, 0)
    {
      var icv := out.Get(i);
      for t := 0 to nGroups
        invariant out.Valid() && Costs(cost[..], lens, syms, alphaSize, gs, i, t)
      {
        CostsStep(cost[..], lens, syms, alphaSize, gs, i, t);
        RowOf(len, nGroups, alphaSize, t);
        var c := cost[t] + len[t][icv];
        ghost var before := cost[..];
        cost[t] := c;
        assert cost[..] == before[t := c];
      }
      CostsNext(cost[..], lens, syms, alphaSize, gs, i);
    }
  }

  lemma RowOf(rows: seq<array<nat>>, n: nat, size: nat, t: nat)
    requires Rows(rows) && n <= N_GROUPS && size <= MAX_ALPHA_SIZE && t < n
    ensures |Tables(rows, n, size)| == n && |rows| == N_GROUPS
    ensures size <= rows[t].Length && Tables(rows, n, size)[t] == rows[t][..size]
  {
  }

  // ----- Two costs in one word -----

  /** s->len_pack: two lengths of each symbol in one word, for the case of six tables. */
  ghost predicate PackedRows(pack: array2<nat>, lens: seq<seq<nat>>, size: nat)
    requires |lens| == 6 && Sized(lens, size)
    reads pack
  {
    && pack.Length0 == MAX_ALPHA_SIZE >= size && pack.Length1 == 4
    && forall v, g :: 0 <= v < size && 0 <= g < 3 ==> pack[v, g] == Shl(lens[2 * g + 1][v], 16) + lens[2 * g][v]
  }

  lemma PackedLength(hi: nat, lo: nat)
    requires lo <= MAX_LEN
    ensures BitOr(Shl(hi, 16), lo) == Shl(hi, 16) + lo
  {
    assert Pow2(5) == 32;
    PowMonotone(5, 16);
    OrDisjoint(hi, lo, 16);
  }

  lemma LengthsAt(len: seq<array<nat>>, lens: seq<seq<nat>>, size: nat, v: nat)
    requires Rows(len) && size <= MAX_ALPHA_SIZE && lens == Tables(len, 6, size) && Cheap(lens) && v < size
    ensures |len| == 6 && |lens| == 6 && forall t :: 0 <= t < 6 ==>
      |lens[t]| == size && v < len[t].Length && len[t][v] == lens[t][v] <= MAX_LEN
  {
  }

  method PackLengths(pack: array2<nat>, len: seq<array<nat>>, alphaSize: nat, ghost lens: seq<seq<nat>>)
    requires Rows(len) && pack.Length0 == MAX_ALPHA_SIZE >= alphaSize && pack.Length1 == 4
    requires lens == Tables(len, 6, alphaSize) && Sized(lens, alphaSize) && Cheap(lens)
    modifies pack
    ensures PackedRows(pack, lens, alphaSize)
  {
    hide BitOr, Shl, Rows, Tables, Cheap;
    for v := 0 to alphaSize
      invariant forall u, g :: 0 <= u < v && 0 <= g < 3 ==> pack[u, g] == Shl(lens[2 * g + 1][u], 16) + lens[2 * g][u]
    {
      LengthsAt(len, lens, alphaSize, v);
      PackedLength(len[1][v], len[0][v]);
      PackedLength(len[3][v], len[2][v]);
      PackedLength(len[5][v], len[4][v]);
      pack[v, 0] := BitOr(Shl(len[1][v], 16), len[0][v]);
      pack[v, 1] := BitOr(Shl(len[3][v], 16), len[2][v]);
      pack[v, 2] := BitOr(Shl(len[5][v], 16), len[4][v]);
    }
  }

  /** The packed lengths are set up for six tables only. */
  method NewPack(len: seq<array<nat>>, nGroups: nat, alphaSize: nat, ghost lens: seq<seq<nat>>)
    returns (pack: array2<nat>)
    requires Rows(len) && nGroups <= 6 && alphaSize <= MAX_ALPHA_SIZE
    requires lens == Tables(len, nGroups, alphaSize) && Sized(lens, alphaSize) && Cheap(lens)
    ensures fresh(pack) && (nGroups == 6 ==> PackedRows(pack, lens, alphaSize))
  {
    pack := new nat[MAX_ALPHA_SIZE, 4];
    if nGroups == 6 {
      PackLengths(pack, len, alphaSize, lens);
    }
  }

  /** w holds the cost under table 2 g in its lower half and that under table 2 g + 1 in its upper half. */
  ghost predicate TwoCosts(w: nat, lens: seq<seq<nat>>, syms: seq<nat>, size: nat, g: nat, gs: nat, i: nat)
    requires |lens| == 6 && Sized(lens, size) && InAlphabet(syms, size) && gs <= i <= |syms| && g < 3
  {
    w == Shl(Cost(lens[2 * g + 1], syms, gs, i), 16) + Cost(lens[2 * g], syms, gs, i)
  }

  lemma TwoCostsStep(w: nat, lens: seq<seq<nat>>, syms: seq<nat>, size: nat, g: nat, gs: nat, i: nat)
    requires |lens| == 6 && Sized(lens, size) && InAlphabet(syms, size) && gs <= i < |syms| && g < 3
    requires TwoCosts(w, lens, syms, size, g, gs, i)
    ensures TwoCosts(w + (Shl(lens[2 * g + 1][syms[i]], 16) + lens[2 * g][syms[i]]), lens, syms, size, g, gs, i + 1)
  {
    hide Shl, Cost;
    CostStep(lens[2 * g], syms, gs, i);
    CostStep(lens[2 * g + 1], syms, gs, i);
    ShlAdd(Cost(lens[2 * g + 1], syms, gs, i), lens[2 * g + 1][syms[i]], 16);
  }

  lemma {:induction false} CostBound(len: seq<nat>, syms: seq<nat>, lo: nat, hi: nat)
    requires lo <= hi <= |syms| && InAlphabet(syms, |len|) && forall v :: 0 <= v < |len| ==> len[v] <= MAX_LEN
    ensures Cost(len, syms, lo, hi) <= MAX_LEN * (hi - lo)
    decreases hi - lo
  {
    if lo < hi {
      CostBound(len, syms, lo, hi - 1);
    }
  }

  /** The halves never run into each other, and the word never overflows. */
  lemma TwoCostsApart(w: nat, lens: seq<seq<nat>>, syms: seq<nat>, size: nat, g: nat, gs: nat)
    requires |lens| == 6 && Sized(lens, size) && InAlphabet(syms, size) && gs + G_SIZE <= |syms| && g < 3 && Cheap(lens)
    requires TwoCosts(w, lens, syms, size, g, gs, gs + G_SIZE)
    ensures Low(w, 16) == Cost(lens[2 * g], syms, gs, gs + G_SIZE) <= MAX_LEN * G_SIZE
    ensures Shr(w, 16) == Cost(lens[2 * g + 1], syms, gs, gs + G_SIZE) <= MAX_LEN * G_SIZE
    ensures w < Pow2(32)
  {
    hide Cost, Shl, Low, Shr, Pow2;
    var lo, hi := Cost(lens[2 * g], syms, gs, gs + G_SIZE), Cost(lens[2 * g + 1], syms, gs, gs + G_SIZE);
    CostBound(lens[2 * g], syms, gs, gs + G_SIZE);
    CostBound(lens[2 * g + 1], syms, gs, gs + G_SIZE);
    assert Pow2(16) == 65536 by { PowSixteen(); }
    PackedFields(hi, lo, 16);
    ShlFits(hi, 16, 16);
  }

  lemma PowSixteen()
    ensures Pow2(16) == 65536
  {
    assert Pow2(8) == 256;
    assert Pow2(12) == 4096;
  }

  lemma TwoCostsStart(lens: seq<seq<nat>>, syms: seq<nat>, size: nat, g: nat, gs: nat)
    requires |lens| == 6 && Sized(lens, size) && InAlphabet(syms, size) && gs <= |syms| && g < 3
    ensures TwoCosts(0, lens, syms, size, g, gs, gs)
  {
    ShlZero(16);
  }

  lemma PackedAt(pack: array2<nat>, lens: seq<seq<nat>>, size: nat, v: nat)
    requires |lens| == 6 && Sized(lens, size) && PackedRows(pack, lens, size) && v < size
    ensures v < pack.Length0 && pack.Length1 == 4
    ensures pack[v, 0] == Shl(lens[1][v], 16) + lens[0][v]
    ensures pack[v, 1] == Shl(lens[3][v], 16) + lens[2][v]
    ensures pack[v, 2] == Shl(lens[5][v], 16) + lens[4][v]
  {
    hide Shl;
  }

  /** "fast track the common case": six tables and a full group; three sums give six costs. */
  method PackedSums(out: MtfOutput, pack: array2<nat>, alphaSize: nat, gs: nat, ghost lens: seq<seq<nat>>)
    returns (cost01: nat, cost23: nat, cost45: nat)
    requires out.Valid() && gs + G_SIZE <= out.wr == |out.syms| && InAlphabet(out.syms, alphaSize)
    requires |lens| == 6 && Sized(lens, alphaSize) && PackedRows(pack, lens, alphaSize)
    ensures TwoCosts(cost01, lens, out.syms, alphaSize, 0, gs, gs + G_SIZE)
    ensures TwoCosts(cost23, lens, out.syms, alphaSize, 1, gs, gs + G_SIZE)
    ensures TwoCosts(cost45, lens, out.syms, alphaSize, 2, gs, gs + G_SIZE)
  {
    hide MtfOutput.Valid, Cost, Shl, TwoCosts, PackedRows;
    ghost var syms := out.syms;
    cost01, cost23, cost45 := 0, 0, 0;
    TwoCostsStart(lens, syms, alphaSize, 0, gs);
    TwoCostsStart(lens, syms, alphaSize, 1, gs);
    TwoCostsStart(lens, syms, alphaSize, 2, gs);
    for i := gs to gs + G_SIZE
      invariant TwoCosts(cost01, lens, syms, alphaSize, 0, gs, i)
      invariant TwoCosts(cost23, lens, syms, alphaSize, 1, gs, i)
      invariant TwoCosts(cost45, lens, syms, alphaSize, 2, gs, i)
    {
      var icv := out.Get(i);
      PackedAt(pack, lens, alphaSize, icv);
      TwoCostsStep(cost01, lens, syms, alphaSize, 0, gs, i);
      TwoCostsStep(cost23, lens, syms, alphaSize, 1, gs, i);
      TwoCostsStep(cost45, lens, syms, alphaSize, 2, gs, i);
      cost01, cost23, cost45 := cost01 + pack[icv, 0], cost23 + pack[icv, 1], cost45 + pack[icv, 2];
    }
  }

  /** The sums taken apart. */
  method PackedCosts(out: MtfOutput, pack: array2<nat>, cost: array<nat>, alphaSize: nat, gs: nat,
                     ghost lens: seq<seq<nat>>)
    requires out.Valid() && cost.Length == N_GROUPS && cost != out.arr1 && cost != out.mtfFreq
    requires gs + G_SIZE <= out.wr == |out.syms| && InAlphabet(out.syms, alphaSize)
    requires |lens| == 6 && Sized(lens, alphaSize) && Cheap(lens) && PackedRows(pack, lens, alphaSize)
    modifies cost
    ensures Costs(cost[..], lens, out.syms, alphaSize, gs, gs + G_SIZE, 0)
  {
    hide MtfOutput.Valid, Cost, Shl, Low, Shr, Cheap, TwoCosts, PackedRows, Costs, InAlphabet, Sized;
    ghost var syms := out.syms;
    var cost01, cost23, cost45 := PackedSums(out, pack, alphaSize, gs, lens);
    TwoCostsApart(cost01, lens, syms, alphaSize, 0, gs);
    TwoCostsApart(cost23, lens, syms, alphaSize, 1, gs);
    TwoCostsApart(cost45, lens, syms, alphaSize, 2, gs);
    cost[0], cost[1] := Low(cost01, 16), Shr(cost01, 16);
    cost[2], cost[3] := Low(cost23, 16), Shr(cost23, 16);
    cost[4], cost[5] := Low(cost45, 16), Shr(cost45, 16);
    SixCosts(cost[..], lens, syms, alphaSize, gs);
  }

  lemma SixCosts(cost: seq<nat>, lens: seq<seq<nat>>, syms: seq<nat>, size: nat, gs: nat)
    requires |cost| == |lens| == 6 && Sized(lens, size) && InAlphabet(syms, size) && gs + G_SIZE <= |syms|
    requires cost[0] == Cost(lens[0], syms, gs, gs + G_SIZE) <= MAX_LEN * G_SIZE
    requires cost[1] == Cost(lens[1], syms, gs, gs + G_SIZE) <= MAX_LEN * G_SIZE
    requires cost[2] == Cost(lens[2], syms, gs, gs + G_SIZE) <= MAX_LEN * G_SIZE
    requires cost[3] == Cost(lens[3], syms, gs, gs + G_SIZE) <= MAX_LEN * G_SIZE
    requires cost[4] == Cost(lens[4], syms, gs, gs + G_SIZE) <= MAX_LEN * G_SIZE
    requires cost[5] == Cost(lens[5], syms, gs, gs + G_SIZE) <= MAX_LEN * G_SIZE
    ensures Costs(cost, lens, syms, size, gs, gs + G_SIZE, 0)
  {
    hide Cost;
  }

  /** The first of the cheapest. */
  method BestTable(cost: array<nat>, nGroups: nat) returns (bt: int, bc: nat)
    requires 0 < nGroups <= cost.Length
    requires forall t :: 0 <= t < nGroups ==> cost[t] < 999999999
    ensures 0 <= bt < nGroups && bc == cost[bt]
    ensures forall t :: 0 <= t < nGroups ==> cost[t] >= bc
    ensures forall t :: 0 <= t < bt ==> cost[t] > bc
  {
    bc, bt := 999999999, -1;
    for t := 0 to nGroups
      invariant t == 0 ==> bc == 999999999
      invariant t > 0 ==> 0 <= bt < t && bc == cost[bt]
      invariant forall u :: 0 <= u < t ==> cost[u] >= bc
      invariant bt < t && forall u :: 0 <= u < bt ==> cost[u] > bc
    {
      if cost[t] < bc {
        bc, bt := cost[t], t;
      }
    }
  }

  ghost function Sum(row: seq<nat>): (r: nat) {
    if row == [] then 0 else Sum(row[..|row| - 1]) + row[|row| - 1]
  }

  lemma {:induction false} SumBump(row: seq<nat>, v: nat)
    requires v < |row|
    ensures Sum(row[v := row[v] + 1]) == Sum(row) + 1
  {
    var m := |row| - 1;
    var row' := row[v := row[v] + 1];
    if v < m {
      SumBump(row[..m], v);
      assert row'[..m] == row[..m][v := row[v] + 1];
    } else {
      assert row'[..m] == row[..m];
    }
  }

  lemma {:induction false} SumZero(row: seq<nat>)
    requires forall v :: 0 <= v < |row| ==> row[v] == 0
    ensures Sum(row) == 0
  {
    if row != [] {
      SumZero(row[..|row| - 1]);
    }
  }

  lemma {:induction false} CountedBelow(row: seq<nat>)
    ensures CountedSum(row) <= Sum(row) + |row|
  {
    if row != [] {
      CountedBelow(row[..|row| - 1]);
    }
  }

  /** rfreq[bt][ mtfv[i] ]++ for one group. */
  method CountGroup(out: MtfOutput, row: array<nat>, alphaSize: nat, gs: nat, next: nat)
    requires out.Valid() && row != out.arr1 && row != out.mtfFreq && row.Length >= alphaSize
    requires gs <= next <= out.wr && |out.syms| == out.wr && InAlphabet(out.syms, alphaSize)
    modifies row
    ensures Sum(row[..alphaSize]) == old(Sum(row[..alphaSize])) + next - gs
    ensures forall v :: 0 <= v < alphaSize ==> row[v] == old(row[v]) + Times(out.syms, v, gs, next)
  {
    hide MtfOutput.Valid, Sum;
    ghost var syms, was := out.syms, row[..];
    for i := gs to next
      invariant out.Valid()
      invariant Sum(row[..alphaSize]) == Sum(was[..alphaSize]) + i - gs
      invariant forall v :: 0 <= v < alphaSize ==> row[v] == was[v] + Times(syms, v, gs, i)
    {
      var v := out.Get(i);
      ghost var before := row[..alphaSize];
      SumBump(before, v);
      row[v] := row[v] + 1;
      assert row[..alphaSize] == before[v := before[v] + 1];
    }
  }

  /** rfreq holds the tallies of the groups selected so far. */
  ghost predicate Tallied(rf: seq<seq<nat>>, syms: seq<nat>, selector: seq<nat>, size: nat) {
    && Sized(rf, size)
    && (forall t :: 0 <= t < |rf| ==> RowTallied(rf[t], syms, selector, t))
    && (forall t :: 0 <= t < |rf| ==> Sum(rf[t]) <= GroupStart(|selector|, |syms|))
  }

  ghost predicate RowTallied(row: seq<nat>, syms: seq<nat>, selector: seq<nat>, t: nat) {
    forall v :: 0 <= v < |row| ==> row[v] == Tally(syms, selector, t, v)
  }

  /** The row of the table that codes the new group. */
  lemma RowTalliedNext(row: seq<nat>, row': seq<nat>, syms: seq<nat>, selector: seq<nat>, bt: nat)
    requires |row'| == |row| && RowTallied(row, syms, selector, bt)
    requires GroupStart(|selector|, |syms|) <= GroupStart(|selector| + 1, |syms|)
    requires forall v :: 0 <= v < |row| ==>
      row'[v] == row[v] + Times(syms, v, GroupStart(|selector|, |syms|), GroupStart(|selector| + 1, |syms|))
    ensures RowTallied(row', syms, selector + [bt], bt)
  {
    hide Times, GroupStart;
    forall v | 0 <= v < |row|
      ensures row'[v] == Tally(syms, selector + [bt], bt, v)
    {
      TallyNext(syms, selector, bt, bt, v);
    }
  }

  /** The row of another table. */
  lemma RowTalliedStill(row: seq<nat>, syms: seq<nat>, selector: seq<nat>, bt: nat, t: nat)
    requires RowTallied(row, syms, selector, t) && t != bt && GroupStart(|selector|, |syms|)
      <= GroupStart(|selector| + 1, |syms|)
    ensures RowTallied(row, syms, selector + [bt], t)
  {
    hide Times, GroupStart;
    forall v | 0 <= v < |row|
      ensures row[v] == Tally(syms, selector + [bt], t, v)
    {
      TallyNext(syms, selector, bt, t, v);
    }
  }

  lemma TallyNext(syms: seq<nat>, selector: seq<nat>, bt: nat, t: nat, v: nat)
    requires GroupStart(|selector|, |syms|) <= GroupStart(|selector| + 1, |syms|)
    ensures Tally(syms, selector + [bt], t, v) == Tally(syms, selector, t, v)
      + if bt == t then Times(syms, v, GroupStart(|selector|, |syms|), GroupStart(|selector| + 1, |syms|)) else 0
  {
    hide Times, GroupStart;
    assert (selector + [bt])[..|selector|] == selector;
  }

  lemma TalliedNext(rf: seq<seq<nat>>, rf': seq<seq<nat>>, syms: seq<nat>, selector: seq<nat>, bt: nat, size: nat)
    requires Tallied(rf, syms, selector, size) && bt < |rf| == |rf'| && |rf'[bt]| == size
    requires GroupStart(|selector|, |syms|) <= GroupStart(|selector| + 1, |syms|)
    requires forall t :: 0 <= t < |rf| && t != bt ==> rf'[t] == rf[t]
    requires Sum(rf'[bt]) == Sum(rf[bt]) + GroupStart(|selector| + 1, |syms|) - GroupStart(|selector|, |syms|)
    requires forall v :: 0 <= v < size ==>
      rf'[bt][v] == rf[bt][v] + Times(syms, v, GroupStart(|selector|, |syms|), GroupStart(|selector| + 1, |syms|))
    ensures Tallied(rf', syms, selector + [bt], size)
  {
    hide *;
    RowsTallied(rf, rf', syms, selector, bt, size);
    SumsTallied(rf, rf', syms, selector, bt, size);
    TalliedOf(rf', syms, selector + [bt], size);
  }

  lemma RowsTallied(rf: seq<seq<nat>>, rf': seq<seq<nat>>, syms: seq<nat>, selector: seq<nat>, bt: nat, size: nat)
    requires Tallied(rf, syms, selector, size) && bt < |rf| == |rf'| && |rf'[bt]| == size
    requires GroupStart(|selector|, |syms|) <= GroupStart(|selector| + 1, |syms|)
    requires forall t :: 0 <= t < |rf| && t != bt ==> rf'[t] == rf[t]
    requires forall v :: 0 <= v < size ==>
      rf'[bt][v] == rf[bt][v] + Times(syms, v, GroupStart(|selector|, |syms|), GroupStart(|selector| + 1, |syms|))
    ensures forall t :: 0 <= t < |rf'| ==> RowTallied(rf'[t], syms, selector + [bt], t)
  {
    hide Times, GroupStart, RowTallied, Sum;
    forall t | 0 <= t < |rf'|
      ensures RowTallied(rf'[t], syms, selector + [bt], t)
    {
      if t == bt {
        RowTalliedNext(rf[bt], rf'[bt], syms, selector, bt);
      } else {
        RowTalliedStill(rf[t], syms, selector, bt, t);
      }
    }
  }

  lemma SumsTallied(rf: seq<seq<nat>>, rf': seq<seq<nat>>, syms: seq<nat>, selector: seq<nat>, bt: nat, size: nat)
    requires Tallied(rf, syms, selector, size) && bt < |rf| == |rf'| && |rf'[bt]| == size
    requires GroupStart(|selector|, |syms|) <= GroupStart(|selector| + 1, |syms|)
    requires forall t :: 0 <= t < |rf| && t != bt ==> rf'[t] == rf[t]
    requires Sum(rf'[bt]) == Sum(rf[bt]) + GroupStart(|selector| + 1, |syms|) - GroupStart(|selector|, |syms|)
    ensures Sized(rf', size) && forall t :: 0 <= t < |rf'| ==> Sum(rf'[t]) <= GroupStart(|selector + [bt]|, |syms|)
  {
    hide Times, GroupStart, RowTallied, Sum;
  }

  lemma TalliedOf(rf: seq<seq<nat>>, syms: seq<nat>, selector: seq<nat>, size: nat)
    requires Sized(rf, size) && forall t :: 0 <= t < |rf| ==> RowTallied(rf[t], syms, selector, t)
    requires forall t :: 0 <= t < |rf| ==> Sum(rf[t]) <= GroupStart(|selector|, |syms|)
    ensures Tallied(rf, syms, selector, size)
  {
    hide GroupStart, RowTallied, Sum;
  }

  lemma TalliedStart(rf: seq<seq<nat>>, syms: seq<nat>, size: nat)
    requires Sized(rf, size) && forall t :: 0 <= t < |rf| ==> forall v :: 0 <= v < size ==> rf[t][v] == 0
    ensures Tallied(rf, syms, [], size)
  {
    forall t | 0 <= t < |rf|
      ensures Sum(rf[t]) == 0
    {
      SumZero(rf[t]);
    }
  }

  method ClearRow(row: array<nat>, alphaSize: nat)
    requires alphaSize <= row.Length
    modifies row
    ensures forall v :: 0 <= v < alphaSize ==> row[v] == 0
  {
    for v := 0 to alphaSize
      invariant forall u :: 0 <= u < v ==> row[u] == 0
    {
      row[v] := 0;
    }
  }

  method ClearRows(rfreq: seq<array<nat>>, nGroups: nat, alphaSize: nat)
    requires Rows(rfreq) && nGroups <= N_GROUPS && alphaSize <= MAX_ALPHA_SIZE
    modifies rfreq
    ensures forall t :: 0 <= t < nGroups ==> forall v :: 0 <= v < alphaSize ==> rfreq[t][v] == 0
  {
    for t := 0 to nGroups
      invariant forall u :: 0 <= u < t ==> forall v :: 0 <= v < alphaSize ==> rfreq[u][v] == 0
    {
      ClearRow(rfreq[t], alphaSize);
    }
  }

  /** Everything the passes work on is separate. */
  ghost predicate Separate(out: MtfOutput, len: seq<array<nat>>, rfreq: seq<array<nat>>, selector: array<nat>) {
    && Rows(len) && Rows(rfreq) && Apart(len, rfreq)
    && selector !in len && selector !in rfreq && selector != out.arr1 && selector != out.mtfFreq
    && out.arr1 !in len && out.arr1 !in rfreq && out.mtfFreq !in len && out.mtfFreq !in rfreq
    && selector.Length == MAX_SELECTORS
  }

  lemma GroupSteps(g: nat, n: nat)
    requires GroupStart(g, n) < n
    ensures GroupStart(g, n) == G_SIZE * g
    ensures GroupStart(g + 1, n) == (if G_SIZE * g + G_SIZE < n then G_SIZE * g + G_SIZE else n)
    ensures GroupStart(g, n) < GroupStart(g + 1, n) <= GroupStart(g, n) + G_SIZE
    ensures g < GroupCount(n)
  {
  }

  lemma GroupsEnd(g: nat, n: nat)
    requires GroupStart(g, n) == n && (g > 0 ==> GroupStart(g - 1, n) < n)
    ensures g == GroupCount(n)
  {
  }

  lemma FewGroups(n: nat)
    requires n <= 900001
    ensures GroupCount(n) <= MAX_SELECTORS && GroupStart(GroupCount(n), n) == n && GroupStart(0, n) == 0
  {
  }

  ghost predicate AllBest(lens: seq<seq<nat>>, syms: seq<nat>, selector: seq<nat>, size: nat)
    requires Sized(lens, size) && InAlphabet(syms, size)
  {
    forall g :: 0 <= g < |selector| ==> Best(lens, syms, g, selector[g], size)
  }

  lemma CostsBest(cost: seq<nat>, lens: seq<seq<nat>>, syms: seq<nat>, size: nat, g: nat, bt: nat)
    requires Sized(lens, size) && InAlphabet(syms, size) && GroupStart(g, |syms|) <= GroupStart(g + 1, |syms|)
    requires Costs(cost, lens, syms, size, GroupStart(g, |syms|), GroupStart(g + 1, |syms|), 0)
    requires bt < |lens| && (forall t :: 0 <= t < |lens| ==> cost[t] >= cost[bt]) && forall t :: 0 <= t < bt ==>
      cost[t] > cost[bt]
    ensures Best(lens, syms, g, bt, size)
  {
    hide Cost, GroupStart;
  }

  lemma CostsSmall(cost: seq<nat>, lens: seq<seq<nat>>, syms: seq<nat>, size: nat, gs: nat, next: nat)
    requires Sized(lens, size) && InAlphabet(syms, size) && gs <= next <= |syms| && next <= gs + G_SIZE
    requires Costs(cost, lens, syms, size, gs, next, 0)
    ensures |lens| <= |cost| && forall t :: 0 <= t < |lens| ==> cost[t] < 65536
  {
    hide Cost;
  }

  /** One group: its costs, the best table, and its symbols tallied for that table. */
  method SelectFor(out: MtfOutput, len: seq<array<nat>>, rfreq: seq<array<nat>>, pack: array2<nat>, cost: array<nat>,
                   nGroups: nat, alphaSize: nat, gs: nat, next: nat, ghost lens: seq<seq<nat>>, ghost sel: seq<nat>)
                     returns (bt: nat)
    requires out.Valid() && Rows(len) && Rows(rfreq) && Apart(len, rfreq)
    requires 0 < nGroups <= N_GROUPS == cost.Length && alphaSize <= MAX_ALPHA_SIZE && |out.syms| == out.wr
    requires cost !in len && cost !in rfreq && cost != out.arr1 && cost != out.mtfFreq && out.arr1 !in rfreq
      && out.mtfFreq !in rfreq
    requires lens == Tables(len, nGroups, alphaSize) && Sized(lens, alphaSize) && InAlphabet(out.syms, alphaSize)
      && Cheap(lens)
    requires gs == GroupStart(|sel|, out.wr) < out.wr && next == GroupStart(|sel| + 1, out.wr)
    requires Tallied(Tables(rfreq, nGroups, alphaSize), out.syms, sel, alphaSize)
    requires nGroups == 6 ==> PackedRows(pack, lens, alphaSize)
    modifies cost, rfreq
    ensures bt < nGroups && Best(lens, out.syms, |sel|, bt, alphaSize)
    ensures Tallied(Tables(rfreq, nGroups, alphaSize), out.syms, sel + [bt], alphaSize)
  {
    hide MtfOutput.Valid, Costs, Cheap, Tables, Best, Tallied, Sized, InAlphabet, GroupStart, Sum, PackedRows;
    GroupSteps(|sel|, out.wr);
    ghost var syms := out.syms;
    assert |lens| == nGroups;
    if nGroups == 6 && next - gs == G_SIZE {
      PackedCosts(out, pack, cost, alphaSize, gs, lens);
    } else {
      GroupCosts(out, len, cost, nGroups, alphaSize, gs, next, lens);
    }
    CostsSmall(cost[..], lens, syms, alphaSize, gs, next);
    var t, bc := BestTable(cost, nGroups);
    bt := t;
    CostsBest(cost[..], lens, syms, alphaSize, |sel|, bt);
    ghost var rf := Tables(rfreq, nGroups, alphaSize);
    CountGroup(out, rfreq[bt], alphaSize, gs, next);
    TalliedNext(rf, Tables(rfreq, nGroups, alphaSize), syms, sel, bt, alphaSize);
  }

  /** A pass over the symbols: each group gets the cheapest table, and each table its symbol counts. */
  method SelectTables(out: MtfOutput, len: seq<array<nat>>, rfreq: seq<array<nat>>, selector: array<nat>, nGroups: nat,
                      alphaSize: nat,
                      ghost lens: seq<seq<nat>>) returns (nSelectors: nat)
    requires out.Valid() && Separate(out, len, rfreq, selector)
    requires 0 < nGroups <= N_GROUPS && alphaSize <= MAX_ALPHA_SIZE && |out.syms| == out.wr <= 900001
    requires lens == Tables(len, nGroups, alphaSize) && Sized(lens, alphaSize) && InAlphabet(out.syms, alphaSize)
      && Cheap(lens)
    modifies rfreq, selector
    ensures nSelectors == GroupCount(out.wr) <= MAX_SELECTORS
    ensures AllBest(lens, out.syms, selector[..nSelectors], alphaSize)
    ensures Tallied(Tables(rfreq, nGroups, alphaSize), out.syms, selector[..nSelectors], alphaSize)
  {
    hide MtfOutput.Valid, Cheap, Tables, Best, Tallied, Sized, InAlphabet, GroupStart, GroupCount, PackedRows;
    ghost var syms := out.syms;
    ClearRows(rfreq, nGroups, alphaSize);
    var pack := NewPack(len, nGroups, alphaSize, lens);
    StartTally(rfreq, nGroups, alphaSize, syms);
    var cost := new nat[N_GROUPS];
    nSelectors := 0;
    var gs := 0;
    FewGroups(out.wr);
    assert selector[..0] == [];
    while gs < out.wr
      invariant out.Valid() && gs == GroupStart(nSelectors, out.wr) && nSelectors <= GroupCount(out.wr)
      invariant nSelectors > 0 ==> GroupStart(nSelectors - 1, out.wr) < out.wr
      invariant nGroups == 6 ==> PackedRows(pack, lens, alphaSize)
      invariant fresh(cost) && cost.Length == N_GROUPS && lens == Tables(len, nGroups, alphaSize)
      invariant AllBest(lens, syms, selector[..nSelectors], alphaSize)
      invariant Tallied(Tables(rfreq, nGroups, alphaSize), syms, selector[..nSelectors], alphaSize)
      decreases out.wr - gs
    {
      GroupSteps(nSelectors, out.wr);
      var ge := gs + G_SIZE - 1;
      if ge >= out.wr {
        ge := out.wr - 1;
      }
      ghost var sel := selector[..nSelectors];
      var bt := SelectFor(out, len, rfreq, pack, cost, nGroups, alphaSize, gs, ge + 1, lens, sel);
      selector[nSelectors] := bt;
      assert selector[..nSelectors + 1] == sel + [bt];
      nSelectors := nSelectors + 1;
      gs := ge + 1;
    }
    GroupsEnd(nSelectors, out.wr);
  }

  lemma StartTally(rfreq: seq<array<nat>>, nGroups: nat, alphaSize: nat, syms: seq<nat>)
    requires Rows(rfreq) && nGroups <= N_GROUPS && alphaSize <= MAX_ALPHA_SIZE
    requires forall t :: 0 <= t < nGroups ==> forall v :: 0 <= v < alphaSize ==> rfreq[t][v] == 0
    ensures Tallied(Tables(rfreq, nGroups, alphaSize), syms, [], alphaSize)
  {
    TalliedStart(Tables(rfreq, nGroups, alphaSize), syms, alphaSize);
  }

  // ----- All passes -----

  /** How many symbols lie in gs .. size - 1. */
  ghost function Within(syms: seq<nat>, gs: nat, size: nat): (r: nat) {
    if syms == [] then 0
    else Within(syms[..|syms| - 1], gs, size) + if gs <= syms[|syms| - 1] < size then 1 else 0
  }

  lemma {:induction false} WithinNext(syms: seq<nat>, gs: nat, size: nat)
    requires gs < size
    ensures Within(syms, gs, size) == multiset(syms)[gs] + Within(syms, gs + 1, size)
    ensures Within(syms, size, size) == 0
  {
    if syms != [] {
      var m := |syms| - 1;
      WithinNext(syms[..m], gs, size);
      assert syms == syms[..m] + [syms[m]];
    }
  }

  lemma {:induction false} WithinAll(syms: seq<nat>, size: nat)
    requires InAlphabet(syms, size)
    ensures Within(syms, 0, size) == |syms|
  {
    if syms != [] {
      WithinAll(syms[..|syms| - 1], size);
    }
  }

  lemma {:induction false} CountsAddUp(freq: seq<nat>, syms: seq<nat>, gs: nat)
    requires gs <= |freq| && |freq| > 0 && forall v :: 0 <= v < |freq| ==> freq[v] == multiset(syms)[v]
    ensures SumFrom(freq, gs) == Within(syms, gs, |freq|)
    decreases |freq| - gs
  {
    if gs < |freq| {
      CountsAddUp(freq, syms, gs + 1);
      WithinNext(syms, gs, |freq|);
    } else {
      WithinNext(syms, |freq| - 1, |freq|);
    }
  }

  /** The frequencies left by generateMTFValues add up to the number of symbols. */
  lemma FreqTotal(out: MtfOutput, alphaSize: nat)
    requires out.Valid() && 0 < alphaSize <= out.mtfFreq.Length && InAlphabet(out.syms, alphaSize)
    ensures SumFrom(out.mtfFreq[..alphaSize], 0) == out.wr
  {
    hide Halves, SumFrom;
    CountsAddUp(out.mtfFreq[..alphaSize], out.syms, 0);
    WithinAll(out.syms, alphaSize);
  }

  ghost predicate AllGood(lens: seq<seq<nat>>) {
    forall t :: 0 <= t < |lens| ==> GoodLengths(lens[t], MAX_LEN)
  }

  lemma GoodIsCheap(lens: seq<seq<nat>>)
    requires AllGood(lens)
    ensures Cheap(lens)
  {
    hide KraftSum;
  }

  lemma LightEnough(rf: seq<seq<nat>>, syms: seq<nat>, selector: seq<nat>, size: nat, t: nat)
    requires Tallied(rf, syms, selector, size) && t < |rf| && |syms| <= 900001 && size <= MAX_ALPHA_SIZE
    ensures CountedSum(rf[t]) < WEIGHT_LIMIT
  {
    hide CountedSum, Sum, RowTallied;
    CountedBelow(rf[t]);
  }

  lemma DeepEnough(alphaSize: nat)
    requires alphaSize <= MAX_ALPHA_SIZE
    ensures Fib(MAX_LEN + 1) > 2 * alphaSize
  {
    FibValues();
  }

  /** What the groups that table t codes hold of each symbol. */
  ghost function TallyRow(syms: seq<nat>, selector: seq<nat>, t: nat, size: nat): (r: seq<nat>)
    ensures |r| == size && RowTallied(r, syms, selector, t)
  {
    seq(size, v requires 0 <= v < size => Tally(syms, selector, t, v))
  }

  /** Every table is a Huffman code for the groups it coded so far. */
  ghost predicate Rebuilt(lens: seq<seq<nat>>, syms: seq<nat>, selector: seq<nat>, size: nat) {
    forall t :: 0 <= t < |lens| ==> HuffmanLengths(TallyRow(syms, selector, t, size), lens[t], MAX_LEN)
  }

  lemma TalliedRow(rf: seq<seq<nat>>, syms: seq<nat>, selector: seq<nat>, size: nat, t: nat)
    requires Tallied(rf, syms, selector, size) && t < |rf|
    ensures rf[t] == TallyRow(syms, selector, t, size)
  {
    hide Tally, Sum;
    var row := TallyRow(syms, selector, t, size);
    assert RowTallied(rf[t], syms, selector, t);
    assert |rf[t]| == |row| && forall v :: 0 <= v < |row| ==> rf[t][v] == row[v];
  }

  /** New lengths for every table from its tallies. */
  method RecomputeTables(len: seq<array<nat>>, rfreq: seq<array<nat>>, nGroups: nat, alphaSize: nat,
                         ghost syms: seq<nat>, ghost sel: seq<nat>)
    requires Rows(len) && Rows(rfreq) && Apart(len, rfreq) && nGroups <= N_GROUPS && 2 <= alphaSize <= MAX_ALPHA_SIZE
    requires Tallied(Tables(rfreq, nGroups, alphaSize), syms, sel, alphaSize) && |syms| <= 900001
    modifies len
    ensures AllGood(Tables(len, nGroups, alphaSize)) && Rebuilt(Tables(len, nGroups, alphaSize), syms, sel, alphaSize)
  {
    hide Tallied, Tables, CountedSum, GoodLengths, Fib, TallyRow, HuffmanLengths;
    ghost var rf := Tables(rfreq, nGroups, alphaSize);
    for t := 0 to nGroups
      invariant Tables(rfreq, nGroups, alphaSize) == rf
      invariant forall u :: 0 <= u < t ==> GoodLengths(len[u][..alphaSize], MAX_LEN)
      invariant forall u :: 0 <= u < t ==>
        HuffmanLengths(TallyRow(syms, sel, u, alphaSize), len[u][..alphaSize], MAX_LEN)
    {
      LightEnough(rf, syms, sel, alphaSize, t);
      DeepEnough(alphaSize);
      TalliedRow(rf, syms, sel, alphaSize, t);
      assert rf[t] == rfreq[t][..alphaSize];
      MakeCodeLengths(len[t], rfreq[t], alphaSize, MAX_LEN);
    }
  }

  lemma StartIsCheap(lens: seq<seq<nat>>, bounds: seq<nat>, size: nat)
    requires Sized(lens, size) && StartRows(lens, bounds, size)
    ensures Cheap(lens)
  {
    forall t | 0 <= t < |lens|
      ensures forall v :: 0 <= v < |lens[t]| ==> lens[t][v] <= MAX_LEN
    {
      var j := |lens| - 1 - t;
      assert CheapRange(lens[|lens| - 1 - j], bounds[j], bounds[j + 1], size);
    }
  }

  /** The starting tables, cut to the alphabet. */
  method StartTables(out: MtfOutput, len: seq<array<nat>>, alphaSize: nat, nGroups: nat)
    returns (ghost bounds: seq<nat>)
    requires out.Valid() && Rows(len) && out.mtfFreq !in len && out.arr1 !in len && 2 <= nGroups <= N_GROUPS
    requires 0 < alphaSize <= MAX_ALPHA_SIZE && alphaSize <= out.mtfFreq.Length && InAlphabet(out.syms, alphaSize)
    modifies len
    ensures StartSplit(out.mtfFreq[..alphaSize], bounds, nGroups)
    ensures StartRows(Tables(len, nGroups, alphaSize), bounds, alphaSize) && Cheap(Tables(len, nGroups, alphaSize))
  {
    hide CheapRange, Cheap, MtfOutput.Valid, SumFrom, InAlphabet, Portions;
    for t := 0 to N_GROUPS
      invariant out.Valid()
    {
      FillRow(len[t], alphaSize, 0, 0);
    }
    FreqTotal(out, alphaSize);
    bounds := InitialTables(len, out.mtfFreq, out.wr, alphaSize, nGroups);
    ghost var lens := Tables(len, nGroups, alphaSize);
    forall j | 0 <= j < nGroups
      ensures CheapRange(lens[nGroups - 1 - j], bounds[j], bounds[j + 1], alphaSize)
    {
      RangeCut(len[nGroups - 1 - j][..], bounds[j], bounds[j + 1], alphaSize);
    }
    StartIsCheap(lens, bounds, alphaSize);
  }

  lemma RangeCut(row: seq<nat>, lo: nat, hi: nat, size: nat)
    requires CheapRange(row, lo, hi, size)
    ensures size <= |row| && CheapRange(row[..size], lo, hi, size)
  {
  }

  /** One pass: every group took its best table, and then the tables were rebuilt. */
  ghost predicate Improved(lens: seq<seq<nat>>, lens': seq<seq<nat>>, syms: seq<nat>, selector: seq<nat>, size: nat) {
    && |lens'| == |lens| && Sized(lens, size) && InAlphabet(syms, size) && |selector| == GroupCount(|syms|)
    && AllBest(lens, syms, selector, size) && Rebuilt(lens', syms, selector, size)
  }

  /** Passes one after the other, each starting from the tables the one before it left. */
  ghost predicate Passes(stages: seq<seq<seq<nat>>>, picks: seq<seq<nat>>, syms: seq<nat>, size: nat) {
    |stages| == |picks| + 1
    && forall i :: 0 <= i < |picks| ==> Improved(stages[i], stages[i + 1], syms, picks[i], size)
  }

  lemma OnePassMore(stages: seq<seq<seq<nat>>>, picks: seq<seq<nat>>, lens: seq<seq<nat>>, selector: seq<nat>,
                    syms: seq<nat>, size: nat)
    requires Passes(stages, picks, syms, size) && Improved(stages[|picks|], lens, syms, selector, size)
    ensures Passes(stages + [lens], picks + [selector], syms, size)
  {
    hide Improved;
  }

  /** How tables were chosen: the first ranges, the tables before and after each pass, the selectors of each pass. */
  datatype Choice = Choice(bounds: seq<nat>, stages: seq<seq<seq<nat>>>, picks: seq<seq<nat>>)

  /** Four passes over tables that start from the split of the alphabet end in these tables and selectors. */
  ghost predicate Chosen(c: Choice, lens: seq<seq<nat>>, selector: seq<nat>, freq: seq<nat>, syms: seq<nat>) {
    && GroupsDue(|syms|, |lens|)
    && |c.picks| == 4 && Passes(c.stages, c.picks, syms, |freq|)
    && StartSplit(freq, c.bounds, |lens|) && StartRows(c.stages[0], c.bounds, |freq|)
    && c.stages[4] == lens && c.picks[3] == selector
  }

  /** How often each symbol occurs. */
  ghost function Frequencies(syms: seq<nat>, size: nat): (r: seq<nat>)
    ensures |r| == size
  {
    seq(size, v requires 0 <= v < size => multiset(syms)[v])
  }

  ghost predicate WellChosen(lens: seq<seq<nat>>, selector: seq<nat>, syms: seq<nat>, size: nat) {
    exists c: Choice :: Chosen(c, lens, selector, Frequencies(syms, size), syms)
  }

  lemma FreqIs(out: MtfOutput, size: nat)
    requires out.Valid() && size <= out.mtfFreq.Length
    ensures out.mtfFreq[..size] == Frequencies(out.syms, size)
  {
    hide Halves;
  }

  /**
    Choosing tables: from a split of the alphabet into ranges of about equal frequency,
    four passes, each picking the cheapest table of the pass before for every group and then
    rebuilding each table from the groups it won.  The lengths form complete codes of at
    most 17 bits, and there are selectors for all symbols.
   */
  method ChooseTables(out: MtfOutput, len: seq<array<nat>>, rfreq: seq<array<nat>>, selector: array<nat>,
                      alphaSize: nat)
    returns (nGroups: nat, nSelectors: nat)
    requires out.Valid() && Separate(out, len, rfreq, selector) && 0 < out.wr == |out.syms| <= 900001
    requires 2 <= alphaSize <= MAX_ALPHA_SIZE && alphaSize <= out.mtfFreq.Length && InAlphabet(out.syms, alphaSize)
    modifies len, rfreq, selector
    ensures 2 <= nGroups <= N_GROUPS && nSelectors == GroupCount(out.wr) <= MAX_SELECTORS
    ensures AllGood(Tables(len, nGroups, alphaSize))
    ensures WellChosen(Tables(len, nGroups, alphaSize), selector[..nSelectors], out.syms, alphaSize)
    ensures Tallied(Tables(rfreq, nGroups, alphaSize), out.syms, selector[..nSelectors], alphaSize)
  {
    hide Tallied, Tables, AllGood, Cheap, AllBest, InAlphabet, MtfOutput.Valid, GroupCount, Sized, Improved, Passes,
      Rebuilt, StartSplit, StartRows;
    ghost var syms := out.syms;
    nGroups := ChooseGroups(out.wr);
    ghost var bounds := StartTables(out, len, alphaSize, nGroups);
    nSelectors := 0;
    ghost var stages: seq<seq<seq<nat>>>, picks: seq<seq<nat>> := [Tables(len, nGroups, alphaSize)], [];
    NoPass(stages[0], syms, alphaSize);
    for iter := 0 to N_ITERS
      invariant out.Valid() && Cheap(Tables(len, nGroups, alphaSize))
      invariant |stages| == iter + 1 && |picks| == iter && Passes(stages, picks, syms, alphaSize)
      invariant StartRows(stages[0], bounds, alphaSize) && stages[iter] == Tables(len, nGroups, alphaSize)
      invariant iter > 0 ==>
        nSelectors == GroupCount(out.wr) <= MAX_SELECTORS && picks[iter - 1] == selector[..nSelectors]
      invariant iter > 0 ==> AllGood(Tables(len, nGroups, alphaSize))
      invariant iter > 0 ==> Tallied(Tables(rfreq, nGroups, alphaSize), syms, selector[..nSelectors], alphaSize)
    {
      ghost var before := Tables(len, nGroups, alphaSize);
      TablesSized(len, nGroups, alphaSize);
      nSelectors := SelectTables(out, len, rfreq, selector, nGroups, alphaSize, before);
      RecomputeTables(len, rfreq, nGroups, alphaSize, syms, selector[..nSelectors]);
      ghost var after := Tables(len, nGroups, alphaSize);
      GoodIsCheap(after);
      ImprovedOf(before, after, syms, selector[..nSelectors], alphaSize);
      OnePassMore(stages, picks, after, selector[..nSelectors], syms, alphaSize);
      stages, picks := stages + [after], picks + [selector[..nSelectors]];
    }
    FreqIs(out, alphaSize);
    ghost var choice := Choice(bounds, stages, picks);
    assert Chosen(choice, stages[4], picks[3], Frequencies(syms, alphaSize), syms);
  }

  /** The last pass picked tables in range. */
  lemma ChosenInRange(lens: seq<seq<nat>>, selector: seq<nat>, syms: seq<nat>, size: nat)
    requires WellChosen(lens, selector, syms, size)
    ensures forall g :: 0 <= g < |selector| ==> selector[g] < |lens|
  {
    hide Cost, GroupStart, Rebuilt, StartSplit, StartRows, Frequencies;
    var c: Choice :| Chosen(c, lens, selector, Frequencies(syms, size), syms);
    assert Improved(c.stages[3], c.stages[4], syms, c.picks[3], size);
  }

  lemma NoPass(lens: seq<seq<nat>>, syms: seq<nat>, size: nat)
    ensures Passes([lens], [], syms, size)
  {
  }

  lemma TablesSized(rows: seq<array<nat>>, n: nat, size: nat)
    requires Rows(rows) && n <= N_GROUPS && size <= MAX_ALPHA_SIZE
    ensures |Tables(rows, n, size)| == n && Sized(Tables(rows, n, size), size)
  {
  }

  lemma ImprovedOf(lens: seq<seq<nat>>, lens': seq<seq<nat>>, syms: seq<nat>, selector: seq<nat>, size: nat)
    requires |lens'| == |lens| && Sized(lens, size) && InAlphabet(syms, size) && |selector| == GroupCount(|syms|)
    requires AllBest(lens, syms, selector, size) && Rebuilt(lens', syms, selector, size)
    ensures Improved(lens, lens', syms, selector, size)
  {
  }
}
