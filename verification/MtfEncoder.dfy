/**
  makeMaps_e and generateMTFValues.

  The 16-bit MTF values are written over the 32-bit pointers they are made from:
  arr1 is one array of words, ptr[i] is its i-th word and mtfv[w] the low or high half
  of word w / 2.
 */
module MtfEncoder {

  import opened Rotations
  import opened BurrowsWheeler
  import opened Bits
  import opened MoveToFront

  // ----- Bytes in use -----

  /** The bytes below m that are in use, in order: seqToUnseq. */
  function Used(inUse: seq<bool>, m: nat): (r: seq<Byte>)
    requires m <= |inUse| <= 256
    ensures |r| <= m
    ensures forall k :: 0 <= k < |r| ==> r[k] < m && inUse[r[k]]
  {
    if m == 0 then [] else if inUse[m - 1] then Used(inUse, m - 1) + [m - 1] else Used(inUse, m - 1)
  }

  /** The number of v among the bytes in use, |Used(inUse, v)|, is where it stands in the list of them. */
  lemma {:induction false} UsedAt(inUse: seq<bool>, v: nat, m: nat)
    requires v < m <= |inUse| <= 256 && inUse[v]
    ensures |Used(inUse, v)| < |Used(inUse, m)| && Used(inUse, m)[|Used(inUse, v)|] == v
  {
    if v < m - 1 {
      UsedAt(inUse, v, m - 1);
    }
  }

  method MakeMapsE(inUse: array<bool>, unseqToSeq: array<nat>) returns (nInUse: nat)
    requires inUse.Length == unseqToSeq.Length == 256
    modifies unseqToSeq
    ensures nInUse == |Used(inUse[..], 256)|
    ensures forall v :: 0 <= v < 256 && inUse[v] ==> unseqToSeq[v] == |Used(inUse[..], v)|
  {
    nInUse := 0;
    ghost var used := inUse[..];
    for i := 0 to 256
      invariant inUse[..] == used && nInUse == |Used(used, i)|
      invariant forall v :: 0 <= v < i && used[v] ==> unseqToSeq[v] == |Used(used, v)|
    {
      assert inUse[i] == used[i];
      if inUse[i] {
        unseqToSeq[i] := nInUse;
        nInUse := nInUse + 1;
      }
    }
  }

  /** The column renumbered among the bytes in use. */
  function Renumbered(c: seq<Byte>, inUse: seq<bool>): (r: seq<nat>)
    requires |inUse| == 256
    ensures |r| == |c|
  {
    seq(|c|, i requires 0 <= i < |c| => |Used(inUse, c[i])|)
  }

  function Identity(n: nat): (r: seq<nat>)
    ensures |r| == n && forall i :: 0 <= i < n ==> r[i] == i
  {
    seq(n, i => i)
  }

  ghost predicate AllUsed(c: seq<Byte>, inUse: seq<bool>) {
    |inUse| == 256 && forall i :: 0 <= i < |c| ==> inUse[c[i]]
  }

  lemma RenumberedCovered(c: seq<Byte>, inUse: seq<bool>)
    requires AllUsed(c, inUse)
    ensures Covers(Identity(|Used(inUse, 256)|), Renumbered(c, inUse))
  {
    var n, r := |Used(inUse, 256)|, Renumbered(c, inUse);
    forall v | v in r
      ensures v in Identity(n)
    {
      var i :| 0 <= i < |r| && r[i] == v;
      UsedAt(inUse, c[i], 256);
      assert Identity(n)[v] == v;
    }
  }

  /** The symbols of a column: what generateMTFValues must leave in mtfv. */
  ghost function ColumnSymbols(c: seq<Byte>, inUse: seq<bool>): (r: seq<nat>)
    requires AllUsed(c, inUse)
  {
    RenumberedCovered(c, inUse);
    var n := |Used(inUse, 256)|;
    Symbols(Renumbered(c, inUse), Identity(n), 0, n + 1)
  }

  // ----- The overlay -----

  /** Half w of the words, in little-endian order. */
  function Half(words: seq<nat>, w: nat): (r: nat)
    requires w / 2 < |words|
  {
    if w % 2 == 0 then Low(words[w / 2], 16) else Shr(words[w / 2], 16)
  }

  /** The first m halves. */
  ghost function Halves(words: seq<nat>, m: nat): (r: seq<nat>)
    requires m <= 2 * |words|
    ensures |r| == m
  {
    seq(m, w requires 0 <= w < m => Half(words, w))
  }

  class MtfOutput {
    const arr1: array<nat>
    const mtfFreq: array<nat>
    var wr: nat
    ghost var syms: seq<nat>

    ghost predicate Valid()
      reads this, arr1, mtfFreq
    {
      && arr1 != mtfFreq
      && wr == |syms| <= 2 * arr1.Length
      && Halves(arr1[..], wr) == syms
      && (forall v :: 0 <= v < mtfFreq.Length ==> mtfFreq[v] == multiset(syms)[v])
    }

    constructor (arr1: array<nat>, mtfFreq: array<nat>)
      requires arr1 != mtfFreq && forall v :: 0 <= v < mtfFreq.Length ==> mtfFreq[v] == 0
      ensures Valid() && syms == [] && this.arr1 == arr1 && this.mtfFreq == mtfFreq
    {
      this.arr1, this.mtfFreq, this.wr, this.syms := arr1, mtfFreq, 0, [];
    }

    /** mtfv[wr] = v; wr++; mtfFreq[v]++ */
    method Put(v: nat)
      requires Valid() && v < mtfFreq.Length && v < Pow2(16) && wr / 2 < arr1.Length
      modifies this, arr1, mtfFreq
      ensures Valid() && syms == old(syms) + [v] && wr == old(wr) + 1
      ensures forall k :: 0 <= k < arr1.Length && k != old(wr) / 2 ==> arr1[k] == old(arr1[k])
    {
      hide Shl, Shr, Low, Pow2;
      ghost var before := arr1[..];
      var x := arr1[wr / 2];
      HalfWritten(x, v);
      if wr % 2 == 0 {
        arr1[wr / 2] := Shl(Shr(x, 16), 16) + v;
      } else {
        arr1[wr / 2] := Low(x, 16) + Shl(v, 16);
      }
      assert Halves(arr1[..], wr) == Halves(before, wr);
      assert Halves(arr1[..], wr + 1) == syms + [v];
      mtfFreq[v] := mtfFreq[v] + 1;
      syms := syms + [v];
      wr := wr + 1;
    }

    /** mtfv[i] */
    method Get(i: nat) returns (v: nat)
      requires Valid() && i < wr
      ensures v == syms[i]
    {
      hide Shr, Low, Pow2;
      assert Halves(arr1[..], wr)[i] == syms[i];
      var x := arr1[i / 2];
      v := if i % 2 == 0 then Low(x, 16) else Shr(x, 16);
    }

    /** The loop that writes a pending run; zPend is at least 1. */
    method PutRun(zPend0: nat)
      requires Valid() && zPend0 > 0 && mtfFreq.Length >= 2 && (wr + zPend0 - 1) / 2 < arr1.Length
      modifies this, arr1, mtfFreq
      ensures Valid() && syms == old(syms) + RunDigits(zPend0) && wr <= old(wr) + zPend0
      ensures forall k :: 0 <= k < arr1.Length && k > (old(wr) + zPend0 - 1) / 2 ==> arr1[k] == old(arr1[k])
    {
      hide Valid, RunDigits, Pow2, Half, Halves;
      var zPend := zPend0 - 1;
      SixteenBits();
      while true
        invariant Valid() && zPend >= 0
        invariant old(syms) + RunDigits(zPend0) == syms + RunDigits(zPend + 1)
        invariant wr + zPend <= old(wr) + zPend0 - 1
        invariant forall k :: 0 <= k < arr1.Length && k > (old(wr) + zPend0 - 1) / 2 ==> arr1[k] == old(arr1[k])
        decreases zPend
      {
        RunFirst(zPend + 1, syms);
        if zPend % 2 == 1 {
          Put(RUNB);
        } else {
          Put(RUNA);
        }
        if zPend < 2 {
          break;
        }
        zPend := (zPend - 2) / 2;
      }
    }
  }

  lemma SixteenBits()
    ensures Pow2(16) == 65536
  {
    assert Pow2(8) == 256;
    assert Pow2(12) == 4096;
  }

  lemma RunFirst(n: nat, s: seq<nat>)
    requires n > 0
    ensures s + RunDigits(n) == s + [if (n - 1) % 2 == 1 then RUNB else RUNA] + RunDigits((n - 1) / 2)
    ensures n <= 2 ==> RunDigits((n - 1) / 2) == []
    ensures n > 2 ==> (n - 1) / 2 == (n - 1 - 2) / 2 + 1
  {
  }

  lemma HalfWritten(x: nat, v: nat)
    requires v < Pow2(16)
    ensures Low(Shl(Shr(x, 16), 16) + v, 16) == v && Shr(Shl(Shr(x, 16), 16) + v, 16) == Shr(x, 16)
    ensures Low(Low(x, 16) + Shl(v, 16), 16) == Low(x, 16) && Shr(Low(x, 16) + Shl(v, 16), 16) == v
  {
    hide *;
    PackedFields(Shr(x, 16), v, 16);
    PackedFields(v, Low(x, 16), 16);
  }

  /** Find v, behind the front, while shifting everything before it back by one. */
  method MoveFound(yy: array<nat>, n: nat, v: nat) returns (j: nat)
    requires 0 < n <= yy.Length && v in yy[..n] && yy[0] != v
    modifies yy
    ensures 0 < j < n && j == IndexOf(old(yy[..n]), v)
    ensures yy[..n] == FrontMoved(old(yy[..n]), j)
  {
    ghost var was := yy[..n];
    var rtmp := yy[1];
    yy[1] := yy[0];
    j := 1;
    while v != rtmp
      invariant 1 <= j < n && rtmp == was[j] && yy[0] == was[0]
      invariant forall k :: 0 < k <= j ==> yy[k] == was[k - 1]
      invariant forall k :: j < k < n ==> yy[k] == was[k]
      invariant v !in was[..j]
      decreases n - j
    {
      assert was == was[..j] + [was[j]] + was[j + 1..];
      j := j + 1;
      var rtmp2 := rtmp;
      rtmp := yy[j];
      yy[j] := rtmp2;
    }
    yy[0] := rtmp;
    IndexUnique(was, v, j);
    assert yy[..n] == FrontMoved(was, j);
  }

  lemma {:induction false} IndexUnique(list: seq<nat>, v: nat, j: nat)
    requires j < |list| && list[j] == v && v !in list[..j]
    ensures IndexOf(list, v) == j
  {
    assert forall k :: 0 <= k < j ==> list[k] == list[..j][k];
  }

  /** Where the encoder stands: symbols written, then those of the rest, are the symbols of the column. */
  ghost predicate Encoding(all: seq<nat>, syms: seq<nat>, rest: seq<nat>, yy: seq<nat>, z: nat, eob: nat) {
    Covers(yy, rest) && all == syms + Symbols(rest, yy, z, eob)
  }

  lemma EncodingFront(all: seq<nat>, syms: seq<nat>, rest: seq<nat>, yy: seq<nat>, z: nat, eob: nat)
    requires Encoding(all, syms, rest, yy, z, eob) && rest != [] && yy != [] && rest[0] == yy[0]
    ensures Encoding(all, syms, rest[1..], yy, z + 1, eob)
  {
    CoversNext(yy, rest);
  }

  lemma EncodingBehind(all: seq<nat>, syms: seq<nat>, rest: seq<nat>, yy: seq<nat>, z: nat, eob: nat)
    requires Encoding(all, syms, rest, yy, z, eob) && rest != [] && yy != [] && rest[0] != yy[0]
    ensures rest[0] in yy && IndexOf(yy, rest[0]) < |yy|
    ensures var j := IndexOf(yy, rest[0]);
            Encoding(all, syms + RunDigits(z) + [j + 1], rest[1..], FrontMoved(yy, j), 0, eob)
  {
    CoversNext(yy, rest);
    var j := IndexOf(yy, rest[0]);
    var tail := Symbols(rest[1..], FrontMoved(yy, j), 0, eob);
    assert syms + (RunDigits(z) + [j + 1] + tail) == (syms + RunDigits(z) + [j + 1]) + tail;
  }

  lemma EncodingEnd(all: seq<nat>, syms: seq<nat>, yy: seq<nat>, z: nat, eob: nat)
    requires Encoding(all, syms, [], yy, z, eob)
    ensures all == syms + RunDigits(z) + [eob]
  {
  }

  lemma NoDigits()
    ensures RunDigits(0) == []
  {
  }

  /**
    generateMTFValues.  No pointer is overwritten before it is read, and there are at
    most nblock + 1 symbols.
   */
  method GenerateMtfValues(out: MtfOutput, block: array<Byte>, nblock: nat, unseqToSeq: array<nat>, nInUse: nat,
                           ghost p: seq<nat>, ghost inUse: seq<bool>)
    requires out.Valid() && out.wr == 0 && out.syms == []
    requires 0 < nblock == |p| <= out.arr1.Length && nblock <= block.Length
    requires unseqToSeq != out.arr1 && unseqToSeq != out.mtfFreq && unseqToSeq.Length == 256
    requires out.mtfFreq.Length >= nInUse + 2 && 0 < nInUse <= 256
    requires out.arr1[..nblock] == p && forall i :: 0 <= i < |p| ==> p[i] < nblock
    requires AllUsed(LastColumn(block[..nblock], p), inUse) && nInUse == |Used(inUse, 256)|
    requires forall v :: 0 <= v < 256 && inUse[v] ==> unseqToSeq[v] == |Used(inUse, v)|
    modifies out, out.arr1, out.mtfFreq
    ensures out.Valid() && out.syms == ColumnSymbols(LastColumn(block[..nblock], p), inUse)
    ensures out.wr <= nblock + 1
  {
    hide Symbols, RunDigits, IndexOf, FrontMoved, Encoding, Pow2, MtfOutput.Valid, Used;
    SixteenBits();
    NoDigits();
    ghost var c := LastColumn(block[..nblock], p);
    ghost var ll := Renumbered(c, inUse);
    ghost var all := ColumnSymbols(c, inUse);
    var eob := nInUse + 1;
    var yy := new nat[256](i => i);
    ghost var list := Identity(nInUse);
    assert yy[..nInUse] == list;
    EncodingStart(c, inUse);
    assert ll[0..] == ll;
    var zPend := 0;
    var i := 0;
    while i < nblock
      invariant 0 <= i <= nblock && fresh(yy) && yy.Length == 256
      invariant out.Valid() && out.wr + zPend <= i
      invariant forall k :: i <= k < nblock ==> out.arr1[k] == p[k]
      invariant yy[..nInUse] == list
      invariant Encoding(all, out.syms, ll[i..], list, zPend, eob)
    {
      var j: int := out.arr1[i] as int - 1;
      if j < 0 {
        j := j + nblock;
      }
      var lli := unseqToSeq[block[j]];
      assert lli == ll[i..][0] by { RenumberedAt(block[..nblock], p, inUse, i); }
      assert ll[i..][1..] == ll[i + 1..];
      assert yy[0] == list[0];
      if yy[0] == lli {
        EncodingFront(all, out.syms, ll[i..], list, zPend, eob);
        zPend := zPend + 1;
      } else {
        EncodingBehind(all, out.syms, ll[i..], list, zPend, eob);
        ghost var s0, z0 := out.syms, zPend;
        if zPend > 0 {
          out.PutRun(zPend);
          zPend := 0;
        }
        assert out.syms == s0 + RunDigits(z0);
        var jj := MoveFound(yy, nInUse, lli);
        list := yy[..nInUse];
        out.Put(jj + 1);
      }
      i := i + 1;
    }
    assert ll[nblock..] == [];
    EncodingEnd(all, out.syms, list, zPend, eob);
    ghost var s0 := out.syms;
    if zPend > 0 {
      out.PutRun(zPend);
    }
    assert out.syms == s0 + RunDigits(zPend);
    out.Put(eob);
  }

  lemma EncodingStart(c: seq<Byte>, inUse: seq<bool>)
    requires AllUsed(c, inUse)
    ensures var n := |Used(inUse, 256)|;
            Encoding(ColumnSymbols(c, inUse), [], Renumbered(c, inUse), Identity(n), 0, n + 1)
  {
    RenumberedCovered(c, inUse);
  }

  lemma RenumberedAt(b: Block, p: seq<nat>, inUse: seq<bool>, i: nat)
    requires forall i :: 0 <= i < |p| ==> p[i] < |b|
    requires AllUsed(LastColumn(b, p), inUse) && i < |p|
    ensures var j := Prev(p[i], |b|);
            inUse[b[j]] && Renumbered(LastColumn(b, p), inUse)[i] == |Used(inUse, b[j])|
  {
    assert LastColumn(b, p)[i] == b[Prev(p[i], |b|)];
  }
}
