/**
  Canonical prefix codes: BZ2_hbAssignCodes, BZ2_hbCreateDecodeTables and the decoding
  loop of GET_MTF_VAL.
 */
module Canonical {

  import opened Bits
  import opened HuffmanTree

  /** The longest code the decoder accepts. */
  const LONGEST: nat := 20

  // ----- The code as a function of the lengths -----

  /** The symbols below m with codes of n bits, in order. */
  function OfLength(len: seq<nat>, n: nat, m: nat): (r: seq<nat>)
    requires m <= |len|
    ensures |r| <= m
    ensures forall k :: 0 <= k < |r| ==> r[k] < m && len[r[k]] == n
  {
    if m == 0 then [] else if len[m - 1] == n then OfLength(len, n, m - 1) + [m - 1] else OfLength(len, n, m - 1)
  }

  /** The number of codes of n bits. */
  function Count(len: seq<nat>, n: nat): nat {
    |OfLength(len, n, |len|)|
  }

  /** The first code of n bits. */
  function First(len: seq<nat>, n: nat): nat {
    if n == 0 then 0 else 2 * (First(len, n - 1) + Count(len, n - 1))
  }

  function Code(len: seq<nat>, i: nat): nat
    requires i < |len|
  {
    First(len, len[i]) + |OfLength(len, len[i], i)|
  }

  /** The symbols with codes of fewer than n bits, shortest first: the perm table. */
  function Shorter(len: seq<nat>, n: nat): (r: seq<nat>)
    ensures forall k :: 0 <= k < |r| ==> r[k] < |len|
  {
    if n == 0 then [] else Shorter(len, n - 1) + OfLength(len, n - 1, |len|)
  }

  lemma {:induction false} OfLengthAt(len: seq<nat>, i: nat, m: nat)
    requires i < m <= |len|
    ensures |OfLength(len, len[i], i)| < |OfLength(len, len[i], m)|
    ensures OfLength(len, len[i], m)[|OfLength(len, len[i], i)|] == i
  {
    if i < m - 1 {
      OfLengthAt(len, i, m - 1);
    }
  }

  lemma {:induction false} ShorterPrefix(len: seq<nat>, n: nat, m: nat)
    requires n <= m
    ensures Shorter(len, n) <= Shorter(len, m)
    decreases m
  {
    if n < m {
      ShorterPrefix(len, n, m - 1);
    }
  }

  /** Lengths of at most big bits that leave room for one another. */
  ghost predicate Feasible(len: seq<nat>, big: nat) {
    (forall i :: 0 <= i < |len| ==> 1 <= len[i] <= big) && KraftSum(len, big) <= Pow2(big)
  }

  // ----- Codes fit their lengths -----

  /** The part of the Kraft sum due to codes of at most n bits, among the first m symbols. */
  ghost function ShortShare(len: seq<nat>, big: nat, n: nat, m: nat): nat
    requires m <= |len| && forall i :: 0 <= i < |len| ==> len[i] <= big
  {
    if m == 0 then 0 else ShortShare(len, big, n, m - 1) + if len[m - 1] <= n then Pow2(big - len[m - 1]) else 0
  }

  lemma {:induction false} ShortShareBelow(len: seq<nat>, big: nat, n: nat, m: nat)
    requires m <= |len| && forall i :: 0 <= i < |len| ==> len[i] <= big
    ensures ShortShare(len, big, n, m) <= KraftSum(len[..m], big)
  {
    if m > 0 {
      ShortShareBelow(len, big, n, m - 1);
      assert len[..m][..m - 1] == len[..m - 1];
    }
  }

  lemma {:induction false} ShortShareNext(len: seq<nat>, big: nat, n: nat, m: nat)
    requires m <= |len| && n < big && forall i :: 0 <= i < |len| ==> len[i] <= big
    ensures ShortShare(len, big, n + 1, m)
         == ShortShare(len, big, n, m) + Shl(|OfLength(len, n + 1, m)|, big - n - 1)
  {
    if m == 0 {
      ShlZero(big - n - 1);
    } else {
      ShortShareNext(len, big, n, m - 1);
      if len[m - 1] == n + 1 {
        ShlAdd(|OfLength(len, n + 1, m - 1)|, 1, big - n - 1);
        PowShl(0, big - n - 1);
      }
    }
  }

  lemma {:induction false} ShortShareNone(len: seq<nat>, big: nat, m: nat)
    requires m <= |len| && forall i :: 0 <= i < |len| ==> 1 <= len[i] <= big
    ensures ShortShare(len, big, 0, m) == 0
    ensures OfLength(len, 0, m) == []
  {
    if m > 0 {
      ShortShareNone(len, big, m - 1);
    }
  }

  /** The codes of up to n bits take up exactly their share of all bit strings. */
  lemma {:induction false} NextIsShare(len: seq<nat>, big: nat, n: nat)
    requires n <= big && forall i :: 0 <= i < |len| ==> 1 <= len[i] <= big
    ensures Shl(First(len, n) + Count(len, n), big - n) == ShortShare(len, big, n, |len|)
    decreases n
  {
    if n == 0 {
      ShortShareNone(len, big, |len|);
      ShlZero(big);
    } else {
      NextIsShare(len, big, n - 1);
      ShortShareNext(len, big, n - 1, |len|);
      var next, k := First(len, n - 1) + Count(len, n - 1), big - n;
      ShlAdd(2 * next, Count(len, n), k);
      ShlShl(next, 1, k);
      assert Shl(next, 1) == 2 * next;
    }
  }

  /** Every code fits into its number of bits. */
  lemma CodeFits(len: seq<nat>, big: nat, i: nat)
    requires Feasible(len, big) && i < |len|
    ensures Code(len, i) < Pow2(len[i])
  {
    var n := len[i];
    NextIsShare(len, big, n);
    ShortShareBelow(len, big, n, |len|);
    assert len[..|len|] == len;
    PowShl(n, big - n);
    ShlOrder(First(len, n) + Count(len, n), Pow2(n), big - n);
    OfLengthAt(len, i, |len|);
  }

  lemma {:induction false} ShlOrder(v: nat, w: nat, k: nat)
    requires Shl(v, k) <= Shl(w, k)
    ensures v <= w
    decreases k
  {
    if k > 0 {
      ShlOrder(v, w, k - 1);
    }
  }

  // ----- Decoding -----

  /** minLen and maxLen as the table loops find them. */
  function MinLen(len: seq<nat>): (r: nat)
    ensures forall i :: 0 <= i < |len| ==> r <= len[i]
    ensures r == 32 || r in len
  {
    if len == [] then 32
    else
      var m, l := MinLen(len[..|len| - 1]), len[|len| - 1];
      if l < m then l else m
  }

  function MaxLen(len: seq<nat>): (r: nat)
    ensures forall i :: 0 <= i < |len| ==> r >= len[i]
    ensures r == 0 || r in len
  {
    if len == [] then 0
    else
      var m, l := MaxLen(len[..|len| - 1]), len[|len| - 1];
      if l > m then l else m
  }

  function Limit(len: seq<nat>, n: nat): int {
    if MinLen(len) <= n <= MaxLen(len) then First(len, n) + Count(len, n) - 1 else 0
  }

  function Base(len: seq<nat>, n: nat): int {
    if n <= MaxLen(len) then First(len, n) - |Shorter(len, n)| else |Shorter(len, n)|
  }

  datatype Decoded = Symbol(sym: nat, rest: seq<bool>) | NeedMore | BadCode

  /** The loop of GET_MTF_VAL with n bits read so far, spelling v. */
  function Search(len: seq<nat>, v: nat, n: nat, bits: seq<bool>): (r: Decoded)
    decreases |bits|
  {
    if n > LONGEST then BadCode
    else if v <= Limit(len, n) then
      var k := v - Base(len, n);
      var perm := Shorter(len, MaxLen(len) + 1);
      if k < 0 || k >= |perm| then BadCode else Symbol(perm[k], bits)
    else if bits == [] then NeedMore
    else Search(len, 2 * v + (if bits[0] then 1 else 0), n + 1, bits[1..])
  }

  /** GET_MTF_VAL for one length table. */
  function ReadSymbol(len: seq<nat>, bits: seq<bool>): (r: Decoded) {
    var n := MinLen(len);
    if |bits| < n then NeedMore else Search(len, FromBits(bits[..n]), n, bits[n..])
  }

  /** First codes are zero up to the shortest length. */
  lemma {:induction false} FirstIsZero(len: seq<nat>, n: nat)
    requires forall i :: 0 <= i < |len| ==> n <= len[i]
    ensures First(len, n) == 0 && Shorter(len, n) == []
  {
    if n > 0 {
      FirstIsZero(len, n - 1);
      NoneOfLength(len, n - 1, |len|);
    }
  }

  lemma {:induction false} NoneOfLength(len: seq<nat>, n: nat, m: nat)
    requires m <= |len| && forall i :: 0 <= i < m ==> len[i] != n
    ensures OfLength(len, n, m) == []
  {
    if m > 0 {
      NoneOfLength(len, n, m - 1);
    }
  }

  /** A code at least as large as the first of its length has no shorter code as prefix. */
  lemma {:induction false} PrefixTooLarge(len: seq<nat>, v: nat, n: nat, k: nat)
    requires v >= First(len, n + k) && k > 0
    ensures Shr(v, k) >= First(len, n) + Count(len, n)
    decreases k
  {
    if k > 1 {
      assert v / 2 >= First(len, n + k - 1);
      PrefixTooLarge(len, v / 2, n, k - 1);
    } else {
      assert Shr(v, 1) == v / 2;
    }
  }

  /** The search passes the shorter lengths by and stops at the right one. */
  lemma {:induction false} SearchFinds(len: seq<nat>, i: nat, n: nat, rest: seq<bool>)
    requires i < |len| && MinLen(len) <= n <= len[i] <= LONGEST
    ensures var k := len[i] - n;
            Search(len, Shr(Code(len, i), k), n, ToBits(Code(len, i), k) + rest) == Symbol(i, rest)
    decreases len[i] - n
  {
    hide Code, Base, Limit, Shorter, MinLen, MaxLen, ToBits, Shr;
    var k, v := len[i] - n, Code(len, i);
    if k == 0 {
      FoundHere(len, i);
      assert ToBits(v, 0) + rest == rest;
      ShrNone(v);
    } else {
      PassedBy(len, i, n);
      FirstBit(v, k, rest);
      SearchFinds(len, i, n + 1, rest);
    }
  }

  lemma PassedBy(len: seq<nat>, i: nat, n: nat)
    requires i < |len| && MinLen(len) <= n < len[i]
    ensures Shr(Code(len, i), len[i] - n) > Limit(len, n)
  {
    hide OfLength, First, Shr, MinLen, MaxLen;
    PrefixTooLarge(len, Code(len, i), n, len[i] - n);
  }

  lemma ShrNone(v: nat)
    ensures Shr(v, 0) == v
  {
  }

  /** Taking one more bit of a number read from the top. */
  lemma FirstBit(v: nat, k: nat, rest: seq<bool>)
    requires k > 0
    ensures var bits := ToBits(v, k) + rest;
            && bits != [] && bits[1..] == ToBits(v, k - 1) + rest
            && 2 * Shr(v, k) + (if bits[0] then 1 else 0) == Shr(v, k - 1)
  {
    ToBitsSplit(v, 1, k - 1);
    ShrLast(v, k - 1);
  }

  lemma FoundHere(len: seq<nat>, i: nat)
    requires i < |len|
    ensures var n := len[i];
            var k := Code(len, i) - Base(len, n);
            var perm := Shorter(len, MaxLen(len) + 1);
            Code(len, i) <= Limit(len, n) && 0 <= k < |perm| && perm[k] == i
  {
    hide OfLength, Shorter, First, MinLen, MaxLen;
    var n := len[i];
    OfLengthAt(len, i, |len|);
    ShorterNext(len, n);
    ShorterPrefix(len, n + 1, MaxLen(len) + 1);
  }

  lemma ShorterNext(len: seq<nat>, n: nat)
    ensures Shorter(len, n + 1) == Shorter(len, n) + OfLength(len, n, |len|)
  {
  }

  /** Reading a symbol's code gives the symbol back and consumes exactly the code. */
  lemma ReadWritten(len: seq<nat>, big: nat, i: nat, rest: seq<bool>)
    requires Feasible(len, big) && i < |len| && len[i] <= LONGEST
    ensures ReadSymbol(len, ToBits(Code(len, i), len[i]) + rest) == Symbol(i, rest)
  {
    hide Search, Shorter, KraftSum, FromBits, Code;
    var n, v := MinLen(len), Code(len, i);
    var k := len[i] - n;
    CodeFits(len, big, i);
    ToBitsSplit(v, n, k);
    var bits := ToBits(v, len[i]) + rest;
    assert bits[..n] == ToBits(Shr(v, k), n);
    assert bits[n..] == ToBits(v, k) + rest;
    ShrFits(v, n, k);
    FromToBits(Shr(v, k), n);
    LowFits(Shr(v, k), n);
    SearchFinds(len, i, n, rest);
  }

  /** No code is a prefix of another. */
  lemma PrefixFree(len: seq<nat>, big: nat, i: nat, j: nat)
    requires Feasible(len, big) && i < |len| && j < |len| && big <= LONGEST
    requires ToBits(Code(len, i), len[i]) <= ToBits(Code(len, j), len[j])
    ensures i == j
  {
    var a, b := ToBits(Code(len, i), len[i]), ToBits(Code(len, j), len[j]);
    var rest := b[|a|..];
    assert b == a + rest && b == b + [];
    ReadWritten(len, big, i, rest);
    ReadWritten(len, big, j, []);
  }

  /** Whatever the tables and the bits, a decoded symbol belongs to the alphabet. */
  lemma {:induction false} SymbolInAlphabet(len: seq<nat>, v: nat, n: nat, bits: seq<bool>)
    ensures var r := Search(len, v, n, bits); r.Symbol? ==> r.sym < |len|
    decreases |bits|
  {
    if n <= LONGEST && v > Limit(len, n) && bits != [] {
      SymbolInAlphabet(len, 2 * v + (if bits[0] then 1 else 0), n + 1, bits[1..]);
    }
  }

  // ----- The table builders -----

  const MAX_CODE_LEN: nat := 23

  /** The loops over len that find minLen and maxLen. */
  method LengthRange(length: array<nat>, alphaSize: nat) returns (minLen: nat, maxLen: nat)
    requires alphaSize <= length.Length
    ensures minLen == MinLen(length[..alphaSize]) && maxLen == MaxLen(length[..alphaSize])
  {
    minLen, maxLen := 32, 0;
    for i := 0 to alphaSize
      invariant minLen == MinLen(length[..i]) && maxLen == MaxLen(length[..i])
    {
      assert length[..i + 1][..i] == length[..i];
      if length[i] > maxLen {
        maxLen := length[i];
      }
      if length[i] < minLen {
        minLen := length[i];
      }
    }
  }

  /** Codes of the symbols below m in length class n, and of all in shorter classes, are in place. */
  ghost predicate Assigned(code: seq<nat>, len: seq<nat>, n: nat, m: nat) {
    |code| >= |len| && forall k :: 0 <= k < |len| && (len[k] < n || (len[k] == n && k < m)) ==> code[k] == Code(len, k)
  }

  lemma AssignedStep(code: seq<nat>, len: seq<nat>, n: nat, i: nat)
    requires Assigned(code, len, n, i) && i < |len|
    ensures len[i] == n ==> Assigned(code[i := First(len, n) + |OfLength(len, n, i)|], len, n, i + 1)
    ensures len[i] != n ==> Assigned(code, len, n, i + 1)
  {
    hide First, OfLength;
  }

  /** One turn of the outer loop: the codes of n bits. */
  method AssignCodesOfLength(code: array<nat>, length: array<nat>, n: nat, vec0: nat, alphaSize: nat) returns (vec: nat)
    requires code != length && alphaSize <= code.Length && alphaSize <= length.Length
    requires vec0 == First(length[..alphaSize], n) && Assigned(code[..], length[..alphaSize], n, 0)
    modifies code
    ensures vec == First(length[..alphaSize], n) + |OfLength(length[..alphaSize], n, alphaSize)|
    ensures Assigned(code[..], length[..alphaSize], n, alphaSize)
  {
    hide *;
    ghost var all := length[..];
    ghost var len := all[..alphaSize];
    vec := vec0;
    OfLengthStep(len, n, 0);
    for i := 0 to alphaSize
      invariant length[..] == all && vec == First(len, n) + |OfLength(len, n, i)|
      invariant Assigned(code[..], len, n, i)
    {
      OfLengthStep(len, n, i + 1);
      AssignedStep(code[..], len, n, i);
      assert length[i] == all[i] == len[i];
      if length[i] == n {
        ghost var c := code[..];
        code[i] := vec;
        assert code[..] == c[i := vec];
        vec := vec + 1;
      }
    }
  }

  /** BZ2_hbAssignCodes */
  method AssignCodes(code: array<nat>, length: array<nat>, minLen: nat, maxLen: nat, alphaSize: nat)
    requires code != length && alphaSize <= code.Length && alphaSize <= length.Length
    requires forall i :: 0 <= i < alphaSize ==> minLen <= length[i] <= maxLen
    modifies code
    ensures forall i :: 0 <= i < alphaSize ==> code[i] == Code(length[..alphaSize], i)
  {
    hide OfLength, First, Code;
    ghost var len := length[..alphaSize];
    var vec := 0;
    FirstIsZero(len, minLen);
    var n := minLen;
    while n <= maxLen
      invariant length[..alphaSize] == len && vec == First(len, n)
      invariant Assigned(code[..], len, n, 0)
    {
      vec := AssignCodesOfLength(code, length, n, vec, alphaSize);
      FirstNext(len, n);
      vec := 2 * vec;
      n := n + 1;
    }
  }

  lemma OfLengthStep(len: seq<nat>, n: nat, m: nat)
    requires m <= |len|
    ensures OfLength(len, n, m)
         == if m == 0 then [] else OfLength(len, n, m - 1) + if len[m - 1] == n then [m - 1] else []
  {
  }

  lemma FirstNext(len: seq<nat>, n: nat)
    ensures First(len, n + 1) == 2 * (First(len, n) + |OfLength(len, n, |len|)|)
  {
  }

  /** limit, base and perm agree with the code of len at every depth the decoder can reach. */
  ghost predicate DecodeTables(limit: seq<int>, base: seq<int>, perm: seq<nat>, len: seq<nat>) {
    && |limit| > LONGEST && |base| > LONGEST
    && (forall n :: 0 <= n <= LONGEST ==> limit[n] == Limit(len, n) && base[n] == Base(len, n))
    && Shorter(len, MaxLen(len) + 1) <= perm
  }

  /** One turn of the outer loop: the symbols with codes of n bits follow the shorter ones. */
  method FillPermOfLength(perm: array<nat>, length: array<nat>, n: nat, pp0: nat, alphaSize: nat) returns (pp: nat)
    requires perm != length && alphaSize <= length.Length && alphaSize <= perm.Length
    requires pp0 <= perm.Length && perm[..pp0] == Shorter(length[..alphaSize], n)
    modifies perm
    ensures pp <= perm.Length && perm[..pp] == Shorter(length[..alphaSize], n + 1)
  {
    hide *;
    ghost var len := length[..alphaSize];
    ghost var before := perm[..pp0];
    pp := pp0;
    OfLengthStep(len, n, 0);
    for j := 0 to alphaSize
      invariant length[..alphaSize] == len
      invariant pp <= perm.Length && perm[..pp] == before + OfLength(len, n, j)
    {
      OfLengthStep(len, n, j + 1);
      assert length[j] == len[j];
      if length[j] == n {
        RoomInPerm(len, n, j);
        ghost var p := perm[..pp];
        perm[pp] := j;
        assert perm[..pp + 1] == p + [j];
        pp := pp + 1;
      }
    }
    ShorterNext(len, n);
  }

  method FillPerm(perm: array<nat>, length: array<nat>, minLen: nat, maxLen: nat, alphaSize: nat)
    requires perm != length && alphaSize <= length.Length && alphaSize <= perm.Length
    requires forall i :: 0 <= i < alphaSize ==> minLen <= length[i]
    requires minLen <= maxLen
    modifies perm
    ensures Shorter(length[..alphaSize], maxLen + 1) <= perm[..]
  {
    hide OfLength, Shorter, First;
    ghost var len := length[..alphaSize];
    var pp := 0;
    FirstIsZero(len, minLen);
    for i := minLen to maxLen + 1
      invariant length[..alphaSize] == len
      invariant 0 <= pp <= perm.Length && perm[..pp] == Shorter(len, i)
    {
      pp := FillPermOfLength(perm, length, i, pp, alphaSize);
    }
    assert perm[..pp] == perm[..][..pp];
  }

  /** The number of symbols below m with codes shorter than n bits. */
  ghost function CountShorter(len: seq<nat>, n: nat, m: nat): (r: nat)
    requires m <= |len|
    ensures r <= m
  {
    if m == 0 then 0 else CountShorter(len, n, m - 1) + if len[m - 1] < n then 1 else 0
  }

  lemma {:induction false} CountShorterNext(len: seq<nat>, n: nat, m: nat)
    requires m <= |len|
    ensures CountShorter(len, n + 1, m) == CountShorter(len, n, m) + |OfLength(len, n, m)|
    ensures CountShorter(len, 0, m) == 0
  {
    if m > 0 {
      CountShorterNext(len, n, m - 1);
    }
  }

  lemma {:induction false} ShorterCount(len: seq<nat>, n: nat)
    ensures |Shorter(len, n)| == CountShorter(len, n, |len|) <= |len|
  {
    hide OfLength, Shorter, CountShorter;
    if n == 0 {
      ShorterNone(len);
      CountShorterNext(len, 0, |len|);
    } else {
      ShorterCount(len, n - 1);
      ShorterNext(len, n - 1);
      CountShorterNext(len, n - 1, |len|);
    }
  }

  lemma RoomInPerm(len: seq<nat>, n: nat, j: nat)
    requires j < |len| && len[j] == n
    ensures |Shorter(len, n)| + |OfLength(len, n, j)| < |len|
  {
    OfLengthAt(len, j, |len|);
    ShorterNext(len, n);
    ShorterCount(len, n + 1);
  }

  /** The counting loops: base[n] becomes the number of codes shorter than n bits. */
  method FillBase(base: array<int>, length: array<nat>, alphaSize: nat)
    requires alphaSize <= length.Length && base.Length >= MAX_CODE_LEN
    requires forall i :: 0 <= i < alphaSize ==> length[i] <= LONGEST
    modifies base
    ensures forall n :: 0 <= n < MAX_CODE_LEN ==> base[n] == |Shorter(length[..alphaSize], n)|
  {
    hide OfLength, Shorter;
    ghost var len := length[..alphaSize];
    for i := 0 to MAX_CODE_LEN
      invariant forall n :: 0 <= n < i ==> base[n] == 0
    {
      base[i] := 0;
    }
    assert forall n :: OfLength(len, n, 0) == [] by { OfLengthNone(len); }
    for i := 0 to alphaSize
      invariant base[0] == 0 && length[..alphaSize] == len
      invariant forall n :: 1 <= n < MAX_CODE_LEN ==> base[n] == |OfLength(len, n - 1, i)|
    {
      forall n: nat
        ensures |OfLength(len, n, i + 1)| == |OfLength(len, n, i)| + if len[i] == n then 1 else 0
      {
        OfLengthStep(len, n, i + 1);
      }
      assert length[i] == len[i];
      base[length[i] + 1] := base[length[i] + 1] + 1;
    }
    ShorterNone(len);
    for i := 1 to MAX_CODE_LEN
      invariant forall n :: 0 <= n < i ==> base[n] == |Shorter(len, n)|
      invariant forall n :: i <= n < MAX_CODE_LEN ==> base[n] == |OfLength(len, n - 1, alphaSize)|
    {
      ShorterNext(len, i - 1);
      base[i] := base[i] + base[i - 1];
    }
  }

  lemma ShorterNone(len: seq<nat>)
    ensures Shorter(len, 0) == []
  {
  }

  lemma OfLengthNone(len: seq<nat>)
    ensures forall n :: OfLength(len, n, 0) == []
  {
  }

  /** BZ2_hbCreateDecodeTables */
  method CreateDecodeTables(limit: array<int>, base: array<int>, perm: array<nat>, length: array<nat>,
                            minLen: nat, maxLen: nat, alphaSize: nat)
    requires limit != base && perm != length
    requires 0 < alphaSize <= length.Length && alphaSize <= perm.Length
    requires limit.Length >= MAX_CODE_LEN && base.Length >= MAX_CODE_LEN
    requires forall i :: 0 <= i < alphaSize ==> 1 <= length[i] <= LONGEST
    requires minLen == MinLen(length[..alphaSize]) && maxLen == MaxLen(length[..alphaSize])
    modifies limit, base, perm
    ensures DecodeTables(limit[..], base[..], perm[..], length[..alphaSize])
  {
    hide OfLength, Shorter, First, MinLen, MaxLen, Count, Limit, Base, DecodeTables;
    ghost var len := length[..alphaSize];
    RangeSane(len);
    FillPerm(perm, length, minLen, maxLen, alphaSize);
    ghost var P := perm[..];
    FillBase(base, length, alphaSize);
    ghost var B := base[..];
    FillLimit(limit, base, minLen, maxLen, len);
    ghost var L := limit[..];
    AdjustBase(limit, base, minLen, maxLen, len);
    assert perm[..] == P && limit[..] == L;
    TablesDone(L, base[..], P, len, B);
  }

  method FillLimit(limit: array<int>, base: array<int>, minLen: nat, maxLen: nat, ghost len: seq<nat>)
    requires limit != base && limit.Length >= MAX_CODE_LEN && base.Length >= MAX_CODE_LEN
    requires minLen <= maxLen <= LONGEST && (forall i :: 0 <= i < |len| ==> minLen <= len[i])
    requires forall n :: 0 <= n < MAX_CODE_LEN ==> base[n] == |Shorter(len, n)|
    modifies limit
    ensures forall n :: 0 <= n < MAX_CODE_LEN ==>
      limit[n] == if minLen <= n < maxLen + 1 then First(len, n) + Count(len, n) - 1 else 0
  {
    hide OfLength, Shorter, First;
    for i := 0 to MAX_CODE_LEN
      invariant forall n :: 0 <= n < i ==> limit[n] == 0
    {
      limit[i] := 0;
    }
    var vec := 0;
    FirstIsZero(len, minLen);
    for i := minLen to maxLen + 1
      invariant vec == First(len, i)
      invariant forall n :: 0 <= n < MAX_CODE_LEN ==>
        limit[n] == if minLen <= n < i then First(len, n) + Count(len, n) - 1 else 0
    {
      ShorterNext(len, i);
      FirstNext(len, i);
      vec := vec + (base[i + 1] - base[i]);
      limit[i] := vec - 1;
      vec := 2 * vec;
    }
  }

  method AdjustBase(limit: array<int>, base: array<int>, minLen: nat, maxLen: nat, ghost len: seq<nat>)
    requires limit != base && limit.Length >= MAX_CODE_LEN && base.Length >= MAX_CODE_LEN
    requires minLen <= maxLen <= LONGEST
    requires forall n :: 0 <= n < MAX_CODE_LEN ==> base[n] == |Shorter(len, n)|
    requires forall n :: 0 <= n < MAX_CODE_LEN ==>
      limit[n] == if minLen <= n < maxLen + 1 then First(len, n) + Count(len, n) - 1 else 0
    modifies base
    ensures forall n :: 0 <= n < MAX_CODE_LEN ==>
      base[n] == if minLen < n < maxLen + 1 then First(len, n) - |Shorter(len, n)| else |Shorter(len, n)|
  {
    hide OfLength, Shorter, First;
    for i := minLen + 1 to maxLen + 1
      invariant forall n :: 0 <= n < MAX_CODE_LEN ==>
        base[n] == if minLen < n < i then First(len, n) - |Shorter(len, n)| else |Shorter(len, n)|
    {
      FirstNext(len, i - 1);
      base[i] := 2 * (limit[i - 1] + 1) - base[i];
    }
  }

  lemma RangeSane(len: seq<nat>)
    requires len != [] && forall i :: 0 <= i < |len| ==> 1 <= len[i] <= LONGEST
    ensures 1 <= MinLen(len) <= MaxLen(len) <= LONGEST
  {
    assert MinLen(len) <= len[0] <= MaxLen(len);
  }

  lemma TablesDone(L: seq<int>, base: seq<int>, P: seq<nat>, len: seq<nat>, B: seq<int>)
    requires |L| >= MAX_CODE_LEN && |base| >= MAX_CODE_LEN && |B| >= MAX_CODE_LEN && MinLen(len) <= MaxLen(len)
    requires forall n :: 0 <= n < MAX_CODE_LEN ==> B[n] == |Shorter(len, n)|
    requires forall n :: 0 <= n < MAX_CODE_LEN ==>
      L[n] == if MinLen(len) <= n < MaxLen(len) + 1 then First(len, n) + Count(len, n) - 1 else 0
    requires forall n :: 0 <= n < MAX_CODE_LEN ==>
      base[n] == if MinLen(len) < n < MaxLen(len) + 1 then First(len, n) - |Shorter(len, n)| else B[n]
    requires Shorter(len, MaxLen(len) + 1) <= P
    ensures DecodeTables(L, base, P, len)
  {
    hide OfLength, Shorter, First, MinLen, MaxLen;
    forall n | 0 <= n <= LONGEST
      ensures base[n] == Base(len, n)
    {
      if n <= MinLen(len) {
        FirstIsZero(len, n);
      }
    }
  }
}
