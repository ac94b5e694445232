/** XdmcpWrap and XdmcpUnwrap: cipher-block chaining over the cipher of module Des. */
module Wrapping {

  import opened Des

  function ZeroBlock(): (b: seq<bv8>)
    ensures |b| == 8
  {
    seq(8, _ => 0)
  }

  function XorByte(a: bv8, b: bv8): bv8 {
    a ^ b
  }

  function XorBlock(a: seq<bv8>, b: seq<bv8>): (r: seq<bv8>)
    requires |a| == |b| == 8
    ensures |r| == 8
  {
    seq(8, i requires 0 <= i < 8 => XorByte(a[i], b[i]))
  }

  lemma XorByteLaws(a: bv8, b: bv8)
    ensures XorByte(XorByte(a, b), b) == a && XorByte(a, 0) == a
  {
  }

  lemma XorBlockTwice(a: seq<bv8>, b: seq<bv8>)
    requires |a| == |b| == 8
    ensures XorBlock(XorBlock(a, b), b) == a
  {
    hide XorByte;
    forall i | 0 <= i < 8
      ensures XorByte(XorByte(a[i], b[i]), b[i]) == a[i]
    {
      XorByteLaws(a[i], b[i]);
    }
  }

  // ----- Chaining -----

  /** Each block is enciphered after adding the last enciphered block. */
  function Wrapped(sp: SBoxes, ks: seq<bv32>, x: seq<bv8>, prev: seq<bv8>): (y: seq<bv8>)
    requires |ks| == SCHEDULE && |prev| == 8
    ensures |y| <= |x| < |y| + 8
    decreases |x|
  {
    if |x| < 8 then []
    else
      var c := DoIt(sp, ks, XorBlock(x[..8], prev), true);
      c + Wrapped(sp, ks, x[8..], c)
  }

  function Unwrapped(sp: SBoxes, ks: seq<bv32>, y: seq<bv8>, prev: seq<bv8>): (x: seq<bv8>)
    requires |ks| == SCHEDULE && |prev| == 8
    ensures |x| <= |y| < |x| + 8
    decreases |y|
  {
    if |y| < 8 then []
    else XorBlock(DoIt(sp, ks, y[..8], false), prev) + Unwrapped(sp, ks, y[8..], y[..8])
  }

  /** Unwrapping undoes wrapping. */
  lemma {:induction false} UnwrapsWrapped(sp: SBoxes, ks: seq<bv32>, x: seq<bv8>, prev: seq<bv8>)
    requires |ks| == SCHEDULE && |prev| == 8 && |x| % 8 == 0
    ensures Unwrapped(sp, ks, Wrapped(sp, ks, x, prev), prev) == x
    decreases |x|
  {
    hide DoIt, XorBlock;
    if |x| >= 8 {
      var c := DoIt(sp, ks, XorBlock(x[..8], prev), true);
      var y := Wrapped(sp, ks, x, prev);
      assert y[..8] == c && y[8..] == Wrapped(sp, ks, x[8..], c);
      UnwrapsWrapped(sp, ks, x[8..], c);
      Deciphered(sp, ks, XorBlock(x[..8], prev));
      XorBlockTwice(x[..8], prev);
      assert x == x[..8] + x[8..];
    }
  }

  /** Each byte of a deciphered block is a byte of x exclusive-or the byte one block before in y. */
  ghost predicate Chained(sp: SBoxes, ks: seq<bv32>, x: seq<bv8>, y: seq<bv8>, prev: seq<bv8>)
    requires |ks| == SCHEDULE && |prev| == 8
  {
    && |x| == |y|
    && forall j, k :: 0 <= j && j % 8 == 0 && j + 8 <= |y| && 0 <= k < 8 ==>
         DoIt(sp, ks, y[j..j + 8], false)[k] == x[j + k] ^ ChainByte(y, prev, j, k)
  }

  function ChainByte(y: seq<bv8>, prev: seq<bv8>, j: nat, k: nat): bv8
    requires j <= |y| && k < 8 == |prev| && (j == 0 || 8 <= j)
  {
    if j == 0 then prev[k] else y[j - 8 + k]
  }

  /** One more block in front. */
  lemma ChainedMore(sp: SBoxes, ks: seq<bv32>, x: seq<bv8>, y: seq<bv8>, prev: seq<bv8>, c: seq<bv8>)
    requires |ks| == SCHEDULE && |prev| == |c| == 8 && |x| >= 8 && c == DoIt(sp, ks, XorBlock(x[..8], prev), true)
    requires Chained(sp, ks, x[8..], y, c)
    ensures Chained(sp, ks, x, c + y, prev)
  {
    hide DoIt, XorBlock, XorByte;
    var z := c + y;
    forall j, k | 0 <= j && j % 8 == 0 && j + 8 <= |z| && 0 <= k < 8
      ensures DoIt(sp, ks, z[j..j + 8], false)[k] == x[j + k] ^ ChainByte(z, prev, j, k)
    {
      if j == 0 {
        Deciphered(sp, ks, XorBlock(x[..8], prev));
        assert z[0..8] == c;
        XorBlockByte(x[..8], prev, k);
      } else {
        assert z[j..j + 8] == y[j - 8..j];
        assert x[8..][j - 8 + k] == x[j + k];
        assert ChainByte(z, prev, j, k) == ChainByte(y, c, j - 8, k);
      }
    }
  }

  lemma XorBlockByte(a: seq<bv8>, b: seq<bv8>, k: nat)
    requires |a| == |b| == 8 && k < 8
    ensures XorBlock(a, b)[k] == a[k] ^ b[k]
  {
  }

  /** What chaining is: block by block, the input added to the output before it is what is enciphered. */
  lemma {:induction false} WrappedChained(sp: SBoxes, ks: seq<bv32>, x: seq<bv8>, prev: seq<bv8>)
    requires |ks| == SCHEDULE && |prev| == 8 && |x| % 8 == 0
    ensures Chained(sp, ks, x, Wrapped(sp, ks, x, prev), prev)
    decreases |x|
  {
    hide DoIt, XorBlock, Chained;
    if |x| >= 8 {
      var c := DoIt(sp, ks, XorBlock(x[..8], prev), true);
      WrappedChained(sp, ks, x[8..], c);
      ChainedMore(sp, ks, x, Wrapped(sp, ks, x[8..], c), prev, c);
    } else {
      ChainedNone(sp, ks, prev);
    }
  }

  lemma ChainedNone(sp: SBoxes, ks: seq<bv32>, prev: seq<bv8>)
    requires |ks| == SCHEDULE && |prev| == 8
    ensures Chained(sp, ks, [], [], prev)
  {
  }

  /** The next multiple of eight. */
  function RoundedUp(n: nat): (r: nat)
    ensures n <= r < n + 8 && r % 8 == 0
  {
    (n + 7) / 8 * 8
  }

  function Padded(x: seq<bv8>): (r: seq<bv8>)
    ensures |r| == RoundedUp(|x|)
    ensures |x| % 8 == 0 ==> r == x
  {
    x + seq(RoundedUp(|x|) - |x|, _ => 0)
  }

  // ----- The programs -----

  lemma PaddedAt(x: seq<bv8>, j: nat, i: nat)
    requires j % 8 == 0 && j < |x| && i < 8
    ensures j + 8 <= |Padded(x)| && Padded(x)[j..j + 8][i] == if j + i < |x| then x[j + i] else 0
  {
  }

  /** Byte i of the block at j, with the block before it added. */
  lemma TmpByte(x: seq<bv8>, prev: seq<bv8>, j: nat, i: nat)
    requires j % 8 == 0 && j < |x| && i < 8 && |prev| == 8
    ensures j + 8 <= |Padded(x)|
    ensures var b: bv8 := if j + i < |x| then x[j + i] else 0;
            && XorBlock(Padded(x)[j..j + 8], prev)[i] == XorByte(b, prev[i])
            && (prev == ZeroBlock() ==> XorByte(b, prev[i]) == b)
  {
    hide XorByte, Padded;
    PaddedAt(x, j, i);
    XorByteLaws(if j + i < |x| then x[j + i] else 0, 0);
  }

  /** The first len bytes of tmp: input with the last output added. */
  method AddInput(input: array<bv8>, output: array<bv8>, j: nat, len: nat) returns (tmp: seq<bv8>)
    requires j + len <= input.Length && len <= 8 && (j == 0 || 8 <= j <= output.Length)
    ensures |tmp| == len
    ensures forall i :: 0 <= i < len ==> tmp[i] == if j == 0 then input[i] else XorByte(input[j + i], output[j - 8 + i])
  {
    hide XorByte;
    tmp := [];
    for i := 0 to len
      invariant |tmp| == i
      invariant forall k :: 0 <= k < i ==>
        tmp[k] == if j == 0 then input[k] else XorByte(input[j + k], output[j - 8 + k])
    {
      if j == 0 {
        tmp := tmp + [input[i]];
      } else {
        tmp := tmp + [XorByte(input[j + i], output[j - 8 + i])];
      }
    }
  }

  /** The remaining bytes of tmp: the last output, with zeros added. */
  method AddZeros(tmp0: seq<bv8>, output: array<bv8>, j: nat) returns (tmp: seq<bv8>)
    requires |tmp0| <= 8 && (j == 0 || 8 <= j <= output.Length)
    ensures |tmp| == 8 && tmp[..|tmp0|] == tmp0
    ensures forall i :: |tmp0| <= i < 8 ==> tmp[i] == if j == 0 then 0 else XorByte(0, output[j - 8 + i])
  {
    hide XorByte;
    tmp := tmp0;
    for i := |tmp0| to 8
      invariant |tmp| == i && tmp[..|tmp0|] == tmp0
      invariant forall k :: |tmp0| <= k < i ==> tmp[k] == if j == 0 then 0 else XorByte(0, output[j - 8 + k])
    {
      var last := if j == 0 then 0 else XorByte(0, output[j - 8 + i]);
      assert (tmp + [last])[..|tmp0|] == tmp[..|tmp0|];
      tmp := tmp + [last];
    }
  }

  /** tmp for the block at j: the input, filled up with zeros, and the last output added. */
  method NextTmp(input: array<bv8>, output: array<bv8>, bytes: nat, j: nat, ghost x: seq<bv8>, ghost prev: seq<bv8>)
    returns (tmp: seq<bv8>)
    requires j % 8 == 0 && j < bytes <= input.Length && RoundedUp(bytes) <= output.Length
    requires |x| == bytes && forall k :: j <= k < bytes ==> input[k] == x[k]
    requires prev == if j == 0 then ZeroBlock() else output[j - 8..j]
    ensures |tmp| == 8 && j + 8 <= |Padded(x)| && tmp == XorBlock(Padded(x)[j..j + 8], prev)
  {
    hide XorByte, Padded, RoundedUp, XorBlock, ZeroBlock;
    TmpByte(x, prev, j, 0);
    ghost var want := XorBlock(Padded(x)[j..j + 8], prev);
    var len := 8;
    if bytes - j < len {
      len := bytes - j;
    }
    var start := AddInput(input, output, j, len);
    tmp := AddZeros(start, output, j);
    forall i | 0 <= i < 8
      ensures tmp[i] == want[i]
    {
      TmpByte(x, prev, j, i);
      if i < len {
        assert tmp[i] == tmp[..len][i];
        assert input[j + i] == x[j + i];
      }
    }
  }

  method CopyBlock(output: array<bv8>, j: nat, block: seq<bv8>)
    requires j + 8 <= output.Length && |block| == 8
    modifies output
    ensures output[..] == old(output[..j]) + block + old(output[j + 8..])
  {
    ghost var was := output[..];
    for i := 0 to 8
      invariant forall k :: 0 <= k < output.Length ==> output[k] == if j <= k < j + i then block[k - j] else was[k]
    {
      output[j + i] := block[i];
    }
    assert output[..] == was[..j] + block + was[j + 8..];
  }

  lemma WrappedNext(sp: SBoxes, ks: seq<bv32>, x: seq<bv8>, j: nat, prev: seq<bv8>)
    requires |ks| == SCHEDULE && |prev| == 8 && j + 8 <= |x|
    ensures var c := DoIt(sp, ks, XorBlock(x[j..j + 8], prev), true);
            Wrapped(sp, ks, x[j..], prev) == c + Wrapped(sp, ks, x[j + 8..], c)
  {
    hide DoIt, XorBlock;
    assert x[j..][..8] == x[j..j + 8] && x[j..][8..] == x[j + 8..];
  }

  /** One block of XdmcpWrap. */
  method WrapBlock(sp: SBoxes, ks: seq<bv32>, input: array<bv8>, output: array<bv8>, bytes: nat, j: nat,
                   ghost x: seq<bv8>, ghost prev: seq<bv8>)
    returns (ghost c: seq<bv8>)
    requires |ks| == SCHEDULE && j % 8 == 0 && j < bytes <= input.Length && RoundedUp(bytes) <= output.Length
    requires |x| == bytes && forall k :: j <= k < bytes ==> input[k] == x[k]
    requires |prev| == 8 && prev == if j == 0 then ZeroBlock() else output[j - 8..j]
    modifies output
    ensures j + 8 <= RoundedUp(bytes) && |c| == 8 && output[..] == old(output[..j]) + c + old(output[j + 8..])
    ensures Wrapped(sp, ks, Padded(x)[j..], prev) == c + Wrapped(sp, ks, Padded(x)[j + 8..], c)
  {
    hide DoIt, XorBlock, Wrapped, Padded, ZeroBlock;
    var tmp := NextTmp(input, output, bytes, j, x, prev);
    WrappedNext(sp, ks, Padded(x), j, prev);
    var block := AuthDoIt(sp, ks, tmp, true);
    CopyBlock(output, j, block);
    c := block;
  }

  /**
    Behind j blocks of bytes everything is as it should be: what is written, and what is
    left alone, also when both arrays are the same.
   */
  ghost predicate Progress(out: seq<bv8>, was: seq<bv8>, inp: seq<bv8>, x: seq<bv8>, all: seq<bv8>, rest: seq<bv8>,
                           prev: seq<bv8>, j: nat) {
    && j % 8 == 0 && |prev| == 8 && j <= |out| == |was| && |x| <= |inp|
    && (j == 0 ==> prev == ZeroBlock())
    && all == out[..j] + rest && out[j..] == was[j..]
    && (forall k :: j <= k < |x| ==> inp[k] == x[k])
  }

  lemma ProgressStep(out: seq<bv8>, out': seq<bv8>, was: seq<bv8>, inp: seq<bv8>, inp': seq<bv8>, x: seq<bv8>,
                     all: seq<bv8>,
                     rest: seq<bv8>, rest': seq<bv8>, prev: seq<bv8>, prev': seq<bv8>, c: seq<bv8>, j: nat)
    requires Progress(out, was, inp, x, all, rest, prev, j) && j + 8 <= |out| && |c| == |prev'| == 8
    requires out' == out[..j] + c + out[j + 8..] && rest == c + rest'
    requires inp' == inp || (inp' == out' && inp == out)
    ensures Progress(out', was, inp', x, all, rest', prev', j + 8) && out'[j..j + 8] == c
  {
    hide ZeroBlock;
    assert out'[..j + 8] == out[..j] + c;
    assert out'[j + 8..] == out[j..][8..] == was[j..][8..] == was[j + 8..];
    forall k | j + 8 <= k < |x|
      ensures inp'[k] == x[k]
    {
      assert inp'[k] == inp[k];
    }
  }

  lemma ProgressParts(out: seq<bv8>, was: seq<bv8>, inp: seq<bv8>, x: seq<bv8>, all: seq<bv8>, rest: seq<bv8>,
                      prev: seq<bv8>, j: nat)
    requires Progress(out, was, inp, x, all, rest, prev, j)
    ensures j % 8 == 0 && |prev| == 8 && j <= |out| == |was| && (forall k :: j <= k < |x| ==> inp[k] == x[k])
    ensures (j == 0 ==> prev == ZeroBlock()) && all == out[..j] + rest && out[j..] == was[j..]
  {
  }

  lemma ProgressStart(out: seq<bv8>, x: seq<bv8>, inp: seq<bv8>, all: seq<bv8>)
    requires x <= inp
    ensures Progress(out, out, inp, x, all, all, ZeroBlock(), 0)
  {
    hide ZeroBlock;
  }

  lemma BlockFits(j: nat, bytes: nat)
    requires j % 8 == 0 && j <= RoundedUp(bytes)
    ensures j < bytes ==> j + 8 <= RoundedUp(bytes)
    ensures j >= bytes ==> j == RoundedUp(bytes)
  {
  }

  /** XdmcpWrap.  The output takes whole blocks; input and output may be the same memory. */
  method XdmcpWrap(sp: SBoxes, ks: seq<bv32>, input: array<bv8>, output: array<bv8>, bytes: nat)
    requires |ks| == SCHEDULE && bytes <= input.Length && RoundedUp(bytes) <= output.Length
    modifies output
    ensures output[..RoundedUp(bytes)] == Wrapped(sp, ks, Padded(old(input[..bytes])), ZeroBlock())
    ensures Chained(sp, ks, Padded(old(input[..bytes])), output[..RoundedUp(bytes)], ZeroBlock())
    ensures output[RoundedUp(bytes)..] == old(output[RoundedUp(bytes)..])
  {
    hide DoIt, XorBlock, Wrapped, Padded, ZeroBlock, RoundedUp, Progress, Chained;
    ghost var n, x, was := RoundedUp(bytes), input[..bytes], output[..];
    ghost var full := Padded(x);
    ghost var all := Wrapped(sp, ks, full, ZeroBlock());
    ghost var prev := ZeroBlock();
    assert full[0..] == full;
    ProgressStart(was, x, input[..], all);
    var j := 0;
    while j < bytes
      invariant j <= n && |prev| == 8 && (j > 0 ==> j >= 8 && prev == output[j - 8..j])
      invariant Progress(output[..], was, input[..], x, all, Wrapped(sp, ks, full[j..], prev), prev, j)
    {
      ghost var out, inp, last := output[..], input[..], prev;
      ProgressParts(out, was, inp, x, all, Wrapped(sp, ks, full[j..], prev), prev, j);
      BlockFits(j, bytes);
      prev := WrapBlock(sp, ks, input, output, bytes, j, x, last);
      ProgressStep(out, output[..], was, inp, input[..], x, all, Wrapped(sp, ks, full[j..], last),
                   Wrapped(sp, ks, full[j + 8..], prev),
                   last, prev, prev, j);
      j := j + 8;
    }
    ProgressParts(output[..], was, input[..], x, all, Wrapped(sp, ks, full[j..], prev), prev, j);
    BlockFits(j, bytes);
    WrappedEnd(sp, ks, full[j..], prev);
    WrappedChained(sp, ks, full, ZeroBlock());
  }

  lemma WrappedEnd(sp: SBoxes, ks: seq<bv32>, x: seq<bv8>, prev: seq<bv8>)
    requires |ks| == SCHEDULE && |prev| == 8 && |x| < 8
    ensures Wrapped(sp, ks, x, prev) == [] && Unwrapped(sp, ks, x, prev) == []
  {
  }

  method SaveBlock(input: array<bv8>, j: nat) returns (block: seq<bv8>)
    requires j + 8 <= input.Length
    ensures block == input[j..j + 8]
  {
    block := [];
    for i := 0 to 8
      invariant block == input[j..j + i]
    {
      block := block + [input[j + i]];
    }
  }

  /** How much XdmcpUnwrap takes in: whole blocks only. */
  function WholeBlocks(n: nat): (r: nat)
    ensures r <= n < r + 8 && r % 8 == 0
  {
    n / 8 * 8
  }

  lemma UnwrappedNext(sp: SBoxes, ks: seq<bv32>, y: seq<bv8>, j: nat, prev: seq<bv8>)
    requires |ks| == SCHEDULE && |prev| == 8 && j + 8 <= |y|
    ensures Unwrapped(sp, ks, y[j..], prev)
         == XorBlock(DoIt(sp, ks, y[j..j + 8], false), prev) + Unwrapped(sp, ks, y[j + 8..], y[j..j + 8])
  {
    hide DoIt, XorBlock;
    assert y[j..][..8] == y[j..j + 8] && y[j..][8..] == y[j + 8..];
  }

  /**
    XdmcpUnwrap.  A trailing part of a block is left alone.  The two saved blocks take
    turns, so that output may overwrite input.
   */
  method XdmcpUnwrap(sp: SBoxes, ks: seq<bv32>, input: array<bv8>, output: array<bv8>, bytes: nat)
    requires |ks| == SCHEDULE && bytes <= input.Length && bytes <= output.Length
    modifies output
    ensures output[..WholeBlocks(bytes)] == Unwrapped(sp, ks, old(input[..bytes]), ZeroBlock())
    ensures output[WholeBlocks(bytes)..] == old(output[WholeBlocks(bytes)..])
  {
    hide DoIt, XorBlock, Unwrapped, ZeroBlock, WholeBlocks, Progress;
    ghost var y, was := input[..bytes], output[..];
    ghost var all := Unwrapped(sp, ks, y, ZeroBlock());
    ghost var prev := ZeroBlock();
    assert y[0..] == y;
    ProgressStart(was, y, input[..], all);
    var blocks := [ZeroBlock(), ZeroBlock()];
    var k := 0;
    var j := 0;
    while j < bytes
      invariant j <= bytes && |blocks| == 2 && |blocks[0]| == |blocks[1]| == 8 && 0 <= k <= 1
      invariant |prev| == 8 && (j > 0 ==> prev == blocks[1 - k])
      invariant Progress(output[..], was, input[..], y, all, Unwrapped(sp, ks, y[j..], prev), prev, j)
    {
      if bytes - j < 8 {
        break;
      }
      ghost var out, inp, last := output[..], input[..], prev;
      ProgressParts(out, was, inp, y, all, Unwrapped(sp, ks, y[j..], prev), prev, j);
      UnwrappedNext(sp, ks, y, j, prev);
      var block := SaveBlock(input, j);
      assert block == y[j..j + 8];
      blocks := blocks[k := block];
      var tmp := AuthDoIt(sp, ks, block, false);
      k := if k == 0 then 1 else 0;
      var plain := AddBlock(tmp, blocks[k], j);
      CopyBlock(output, j, plain);
      prev := block;
      ProgressStep(out, output[..], was, inp, input[..], y, all, Unwrapped(sp, ks, y[j..], last),
                   Unwrapped(sp, ks, y[j + 8..], prev),
                   last, prev, plain, j);
      j := j + 8;
    }
    ProgressParts(output[..], was, input[..], y, all, Unwrapped(sp, ks, y[j..], prev), prev, j);
    LastBlock(j, bytes);
    WrappedEnd(sp, ks, y[j..], prev);
  }

  lemma LastBlock(j: nat, bytes: nat)
    requires j % 8 == 0 && j <= bytes < j + 8
    ensures j == WholeBlocks(bytes)
  {
  }

  /** The output of one round: at the first block nothing is added. */
  method AddBlock(tmp: seq<bv8>, saved: seq<bv8>, j: nat) returns (plain: seq<bv8>)
    requires |tmp| == |saved| == 8
    ensures plain == XorBlock(tmp, if j == 0 then ZeroBlock() else saved)
  {
    hide XorByte;
    plain := [];
    ghost var want := XorBlock(tmp, if j == 0 then ZeroBlock() else saved);
    for i := 0 to 8
      invariant plain == want[..i]
    {
      XorByteLaws(tmp[i], 0);
      plain := plain + [if j == 0 then tmp[i] else XorByte(tmp[i], saved[i])];
    }
    assert want[..8] == want;
  }

  /** For every length: unwrapping what XdmcpWrap wrote gives the input, filled up with zeros. */
  lemma WrapRoundTrip(sp: SBoxes, ks: seq<bv32>, x: seq<bv8>)
    requires |ks| == SCHEDULE
    ensures Unwrapped(sp, ks, Wrapped(sp, ks, Padded(x), ZeroBlock()), ZeroBlock()) == Padded(x)
    ensures |x| % 8 == 0 ==> Padded(x) == x
  {
    UnwrapsWrapped(sp, ks, Padded(x), ZeroBlock());
  }
}
