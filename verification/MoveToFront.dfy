/**
  Move-to-front coding with zero runs in bijective base 2, as generateMTFValues
  writes it and the main loop of BZ2_decompress reads it.
 */
module MoveToFront {

  import opened Bits

  const RUNA: nat := 0
  const RUNB: nat := 1

  /** The decoder's guard on the weight of a run digit. */
  const RUN_LIMIT: nat := 2 * 1024 * 1024

  // ----- The list -----

  function FrontMoved<T>(list: seq<T>, j: nat): (r: seq<T>)
    requires j < |list|
    ensures |r| == |list|
  {
    [list[j]] + list[..j] + list[j + 1..]
  }

  /** Where v stands in the list; |list| if nowhere. */
  function IndexOf<T(==)>(list: seq<T>, v: T): (j: nat)
    ensures j <= |list|
    ensures j < |list| ==> list[j] == v
    ensures forall k :: 0 <= k < j ==> list[k] != v
    ensures v in list ==> j < |list|
  {
    if list == [] || list[0] == v then 0 else 1 + IndexOf(list[1..], v)
  }

  lemma FrontMovedMembers<T>(list: seq<T>, j: nat, v: T)
    requires j < |list|
    ensures v in FrontMoved(list, j) <==> v in list
  {
    assert list == list[..j] + [list[j]] + list[j + 1..];
  }

  // ----- Zero runs -----

  /** The digits of a run of n, least significant first: RUNA counts 1, RUNB counts 2. */
  function RunDigits(n: nat): (d: seq<nat>)
    ensures |d| <= n
    ensures forall k :: 0 <= k < |d| ==> d[k] == RUNA || d[k] == RUNB
  {
    if n == 0 then [] else [if n % 2 == 1 then RUNA else RUNB] + RunDigits((n - 1) / 2)
  }

  /** The run length a digit string stands for, when its first digit has weight w. */
  function RunValue(d: seq<nat>, w: nat): (n: nat) {
    if d == [] then 0 else (if d[0] == RUNA then w else 2 * w) + RunValue(d[1..], 2 * w)
  }

  lemma RunDigitsNext(n: nat)
    requires n > 0
    ensures RunDigits(n) == [if n % 2 == 1 then RUNA else RUNB] + RunDigits((n - 1) / 2)
  {
  }

  lemma OddEven(n: nat)
    requires n > 0
    ensures n == (if n % 2 == 1 then 1 else 2) + 2 * ((n - 1) / 2)
  {
  }

  lemma RunValueNext(x: nat, d: seq<nat>)
    ensures RunValue([x] + d, 1) == (if x == RUNA then 1 else 2) + 2 * RunValue(d, 1)
  {
    assert ([x] + d)[1..] == d;
    RunValueDoubles(d, 1);
  }

  lemma {:induction false} RunDigitsValue(n: nat)
    ensures RunValue(RunDigits(n), 1) == n
  {
    if n > 0 {
      hide RunDigits, RunValue;
      var m := (n - 1) / 2;
      RunDigitsValue(m);
      RunDigitsNext(n);
      OddEven(n);
      RunValueNext(if n % 2 == 1 then RUNA else RUNB, RunDigits(m));
    }
  }

  /** Every digit string is the run of its value: the numeration is bijective. */
  lemma {:induction false} RunValueDigits(d: seq<nat>)
    requires forall k :: 0 <= k < |d| ==> d[k] == RUNA || d[k] == RUNB
    ensures RunDigits(RunValue(d, 1)) == d
  {
    if d != [] {
      hide RunDigits, RunValue;
      var m := RunValue(d[1..], 1);
      RunValueDigits(d[1..]);
      assert d == [d[0]] + d[1..];
      RunValueNext(d[0], d[1..]);
      RunDigitsNext(RunValue(d, 1));
      OddEven(RunValue(d, 1));
    }
  }

  lemma {:induction false} RunValueDoubles(d: seq<nat>, w: nat)
    ensures RunValue(d, 2 * w) == 2 * RunValue(d, w)
  {
    if d != [] {
      RunValueDoubles(d[1..], 2 * w);
    }
  }

  /** k digits make at least 2^k - 1. */
  lemma {:induction false} RunDigitsShort(n: nat)
    ensures Pow2(|RunDigits(n)|) <= n + 1
  {
    if n > 0 {
      RunDigitsShort((n - 1) / 2);
      assert |RunDigits(n)| == 1 + |RunDigits((n - 1) / 2)|;
    }
  }

  // ----- The symbols -----

  /** Every value of s stands in the list. */
  ghost predicate Covers(list: seq<nat>, s: seq<nat>) {
    forall v :: v in s ==> v in list
  }

  lemma CoversNext(list: seq<nat>, s: seq<nat>)
    requires Covers(list, s) && s != []
    ensures s[0] in list && IndexOf(list, s[0]) < |list| && Covers(list, s[1..])
    ensures Covers(FrontMoved(list, IndexOf(list, s[0])), s[1..])
  {
    var j := IndexOf(list, s[0]);
    forall v | v in s[1..]
      ensures v in FrontMoved(list, j)
    {
      FrontMovedMembers(list, j, v);
    }
  }

  /** The symbols for values s when z copies of the front value are pending. */
  function Symbols(s: seq<nat>, list: seq<nat>, z: nat, eob: nat): (r: seq<nat>)
    requires Covers(list, s)
    decreases |s|
  {
    if s == [] then RunDigits(z) + [eob]
    else
      CoversNext(list, s);
      var j := IndexOf(list, s[0]);
      if j == 0 then Symbols(s[1..], list, z + 1, eob)
      else RunDigits(z) + [j + 1] + Symbols(s[1..], FrontMoved(list, j), 0, eob)
  }

  lemma {:induction false} SymbolsLength(s: seq<nat>, list: seq<nat>, z: nat, eob: nat)
    requires Covers(list, s)
    ensures 1 <= |Symbols(s, list, z, eob)| <= |s| + z + 1
    decreases |s|
  {
    if s != [] {
      CoversNext(list, s);
      var j := IndexOf(list, s[0]);
      if j == 0 {
        SymbolsLength(s[1..], list, z + 1, eob);
      } else {
        SymbolsLength(s[1..], FrontMoved(list, j), 0, eob);
      }
    }
  }

  /** Symbols are 0 .. |list|, and the end-of-block symbol closes them. */
  lemma {:induction false} SymbolsBounded(s: seq<nat>, list: seq<nat>, z: nat, eob: nat)
    requires Covers(list, s) && eob == |list| + 1 >= 2
    ensures var r := Symbols(s, list, z, eob);
            && r != [] && r[|r| - 1] == eob
            && (forall k :: 0 <= k < |r| - 1 ==> r[k] < eob)
    decreases |s|
  {
    if s != [] {
      CoversNext(list, s);
      var j := IndexOf(list, s[0]);
      if j == 0 {
        SymbolsBounded(s[1..], list, z + 1, eob);
      } else {
        SymbolsBounded(s[1..], FrontMoved(list, j), 0, eob);
      }
    }
  }

  // ----- The decoder, one symbol at a time -----

  /**
    The decoder between two symbols.  A run is kept as its value so far (es + 1 in the
    source) and the weight N of its next digit; it is written out when it ends.
   */
  datatype Decoder =
    | Reading(list: seq<nat>, out: seq<nat>, run: nat, weight: nat)
    | Finished(column: seq<nat>)
    | Corrupt

  function Repeat<T>(v: T, n: nat): (s: seq<T>)
    ensures |s| == n
    ensures forall k :: 0 <= k < n ==> s[k] == v
  {
    seq(n, _ => v)
  }

  function Start(list: seq<nat>): (st: Decoder) {
    Reading(list, [], 0, 1)
  }

  /** One symbol; max is nblockMAX, eob is nInUse + 1. */
  function Step(st: Decoder, sym: nat, eob: nat, max: nat): (r: Decoder)
    requires st.Reading? ==> |st.list| + 1 >= eob > 1
    requires sym <= eob
    ensures r.Reading? ==> st.Reading? && |r.list| == |st.list|
  {
    if !st.Reading? then st
    else if sym == RUNA || sym == RUNB then
      if st.weight >= RUN_LIMIT then Corrupt
      else st.(run := st.run + (if sym == RUNA then st.weight else 2 * st.weight), weight := 2 * st.weight)
    else if |st.out| + st.run > max then Corrupt
    else
      var out := st.out + Repeat(st.list[0], st.run);
      if sym == eob then Finished(out)
      else if |out| >= max then Corrupt
      else Reading(FrontMoved(st.list, sym - 1), out + [st.list[sym - 1]], 0, 1)
  }

  function Steps(st: Decoder, syms: seq<nat>, eob: nat, max: nat): (r: Decoder)
    requires st.Reading? ==> |st.list| + 1 >= eob > 1
    requires forall k :: 0 <= k < |syms| ==> syms[k] <= eob
    ensures r.Reading? ==> st.Reading? && |r.list| == |st.list|
    decreases |syms|
  {
    if syms == [] then st else Steps(Step(st, syms[0], eob, max), syms[1..], eob, max)
  }

  lemma {:induction false} StepsAppend(st: Decoder, s: seq<nat>, t: seq<nat>, eob: nat, max: nat)
    requires st.Reading? ==> |st.list| + 1 >= eob > 1
    requires forall k :: 0 <= k < |s| ==> s[k] <= eob
    requires forall k :: 0 <= k < |t| ==> t[k] <= eob
    ensures Steps(st, s + t, eob, max) == Steps(Steps(st, s, eob, max), t, eob, max)
    decreases |s|
  {
    if s == [] {
      assert s + t == t;
    } else {
      assert (s + t)[1..] == s[1..] + t;
      StepsAppend(Step(st, s[0], eob, max), s[1..], t, eob, max);
    }
  }

  /** Reading the digits of a run: the guard on N does not fire while the run fits the block. */
  lemma {:induction false} StepsRun(st: Decoder, d: seq<nat>, k: nat, eob: nat, max: nat)
    requires st.Reading? && |st.list| + 1 >= eob > 1 && st.weight == Pow2(k) && k + |d| <= 21
    requires forall i :: 0 <= i < |d| ==> d[i] == RUNA || d[i] == RUNB
    ensures Steps(st, d, eob, max)
         == st.(run := st.run + RunValue(d, st.weight), weight := Pow2(k + |d|))
    decreases |d|
  {
    if d != [] {
      PowMonotone(k + 1, 21);
      assert Pow2(21) == RUN_LIMIT by { RunLimitPow(); }
      StepsRun(Step(st, d[0], eob, max), d[1..], k + 1, eob, max);
    }
  }

  lemma RunLimitPow()
    ensures Pow2(21) == RUN_LIMIT
  {
    assert Pow2(10) == 1024;
    assert Pow2(15) == 32768;
    assert Pow2(20) == 1048576;
  }

  /** A run within a block of at most 900000 bytes has at most 19 digits. */
  lemma RunFits(n: nat)
    requires n <= 900000
    ensures |RunDigits(n)| <= 19
  {
    RunDigitsShort(n);
    RunLimitPow();
    if |RunDigits(n)| > 19 {
      PowMonotone(20, |RunDigits(n)|);
    }
  }

  /** A run and the symbol that ends it. */
  lemma StepsRunAndNext(list: seq<nat>, out: seq<nat>, z: nat, sym: nat, eob: nat, max: nat)
    requires |list| + 1 >= eob > 1 && 2 <= sym <= eob && |out| + z <= max <= 900000
    requires sym < eob ==> |out| + z < max
    ensures var full := out + Repeat(list[0], z);
            Steps(Reading(list, out, 0, 1), RunDigits(z) + [sym], eob, max)
            == (if sym == eob then Finished(full)
                else Reading(FrontMoved(list, sym - 1), full + [list[sym - 1]], 0, 1))
  {
    var st := Reading(list, out, 0, 1);
    RunFits(z);
    StepsRun(st, RunDigits(z), 0, eob, max);
    RunDigitsValue(z);
    StepsAppend(st, RunDigits(z), [sym], eob, max);
    var after := Steps(st, RunDigits(z), eob, max);
    assert Steps(after, [sym], eob, max) == Step(after, sym, eob, max);
  }

  lemma RepeatMore(v: nat, z: nat, s: seq<nat>)
    requires s != [] && s[0] == v
    ensures Repeat(v, z + 1) + s[1..] == Repeat(v, z) + s
  {
  }

  lemma FrontMovedPrefix(list: seq<nat>, m: nat, j: nat)
    requires j < m <= |list|
    ensures FrontMoved(list, j)[..m] == FrontMoved(list[..m], j)
  {
  }

  /**
    Reading back what was written, with z copies of the front value still pending on
    the writer's side.  The reader's list may go on behind the writer's.
   */
  lemma {:induction false} SymbolsDecode(s: seq<nat>, list: seq<nat>, z: nat, out: seq<nat>, eob: nat, max: nat)
    requires |list| + 1 >= eob > 1 && Covers(list[..eob - 1], s)
    requires |out| + z + |s| <= max <= 900000
    ensures var syms := Symbols(s, list[..eob - 1], z, eob);
            && (forall k :: 0 <= k < |syms| ==> syms[k] <= eob)
            && Steps(Reading(list, out, 0, 1), syms, eob, max) == Finished(out + Repeat(list[0], z) + s)
    decreases |s|
  {
    hide Steps, Step, RunDigits, IndexOf, Repeat, FrontMoved;
    var yy := list[..eob - 1];
    SymbolsBounded(s, yy, z, eob);
    if s == [] {
      StepsRunAndNext(list, out, z, eob, eob, max);
    } else {
      CoversNext(yy, s);
      var j := IndexOf(yy, s[0]);
      if j == 0 {
        SymbolsDecode(s[1..], list, z + 1, out, eob, max);
        RepeatMore(list[0], z, s);
        assert out + Repeat(list[0], z + 1) + s[1..] == out + Repeat(list[0], z) + s;
      } else {
        var list', out' := FrontMoved(list, j), out + Repeat(list[0], z) + [list[j]];
        FrontMovedPrefix(list, eob - 1, j);
        SymbolsDecode(s[1..], list', 0, out', eob, max);
        StepsRunAndNext(list, out, z, j + 1, eob, max);
        var tail := Symbols(s[1..], list'[..eob - 1], 0, eob);
        SymbolsBounded(s[1..], list'[..eob - 1], 0, eob);
        StepsAppend(Reading(list, out, 0, 1), RunDigits(z) + [j + 1], tail, eob, max);
        assert Repeat(list'[0], 0) == [];
        assert out' + s[1..] == out + Repeat(list[0], z) + s;
      }
    }
  }
}
