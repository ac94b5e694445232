/**
  The cipher behind XDM-AUTHENTICATION-1 (FIPS PUB 46): sixteen Feistel rounds between
  an initial permutation and its inverse.  Nothing here depends on the contents of the
  S-box tables or on how the schedule was made from the key.
 */
module Des {

  /** SPtrans[n][x] */
  type SBoxes = (nat, bv32) -> bv32

  datatype Halves = Halves(l: bv32, r: bv32)

  // ----- Word operations -----

  function Xor(a: bv32, b: bv32): bv32 {
    a ^ b
  }

  function And(a: bv32, b: bv32): bv32 {
    a & b
  }

  function Up(a: bv32, n: nat): bv32
    requires n < 32
  {
    a << n
  }

  function Down(a: bv32, n: nat): bv32
    requires n < 32
  {
    a >> n
  }

  lemma XorTwice(a: bv32, b: bv32)
    ensures Xor(Xor(a, b), b) == a
  {
  }

  lemma XorBoth(x: bv32, y: bv32, t: bv32)
    ensures Xor(Xor(x, t), Xor(y, t)) == Xor(x, y)
  {
    assert (x ^ t) ^ (y ^ t) == x ^ y;
  }

  // ----- Exchanging bits -----

  /** The t of PERM_OP(a,b,t,n,m). */
  function Differing(a: bv32, b: bv32, n: nat, m: bv32): bv32
    requires n < 32
  {
    And(Xor(Down(a, n), b), m)
  }

  /** PERM_OP: the bits of a at m << n change places with those of b at m. */
  function PermOp(a: bv32, b: bv32, n: nat, m: bv32): (bv32, bv32)
    requires n < 32
  {
    var t := Differing(a, b, n, m);
    (Xor(a, Up(t, n)), Xor(b, t))
  }

  /** Moving the masked bits up and down again loses none of them. */
  ghost predicate Fits(n: nat, m: bv32)
    requires n < 32
  {
    forall a, x :: Down(Xor(a, Up(And(x, m), n)), n) == Xor(Down(a, n), And(x, m))
  }

  /** Exchanging the same bits again restores both words. */
  lemma PermOpTwice(a: bv32, b: bv32, n: nat, m: bv32)
    requires n < 32 && Fits(n, m)
    ensures var p := PermOp(a, b, n, m); PermOp(p.0, p.1, n, m) == (a, b)
  {
    hide Xor, And, Up, Down;
    var t := Differing(a, b, n, m);
    assert Down(Xor(a, Up(And(Xor(Down(a, n), b), m), n)), n) == Xor(Down(a, n), And(Xor(Down(a, n), b), m));
    XorBoth(Down(a, n), b, t);
    XorTwice(b, t);
    XorTwice(a, Up(t, n));
  }

  lemma MasksFit()
    ensures Fits(4, 0x0f0f0f0f) && Fits(16, 0x0000ffff) && Fits(2, 0x33333333) && Fits(8, 0x00ff00ff)
      && Fits(1, 0x55555555)
  {
    hide Xor, And, Up, Down;
    forall a, x
      ensures Down(Xor(a, Up(And(x, 0x0f0f0f0f), 4)), 4) == Xor(Down(a, 4), And(x, 0x0f0f0f0f))
    {
      Shift4(a, x);
    }
    forall a, x
      ensures Down(Xor(a, Up(And(x, 0x0000ffff), 16)), 16) == Xor(Down(a, 16), And(x, 0x0000ffff))
    {
      Shift16(a, x);
    }
    forall a, x
      ensures Down(Xor(a, Up(And(x, 0x33333333), 2)), 2) == Xor(Down(a, 2), And(x, 0x33333333))
    {
      Shift2(a, x);
    }
    forall a, x
      ensures Down(Xor(a, Up(And(x, 0x00ff00ff), 8)), 8) == Xor(Down(a, 8), And(x, 0x00ff00ff))
    {
      Shift8(a, x);
    }
    forall a, x
      ensures Down(Xor(a, Up(And(x, 0x55555555), 1)), 1) == Xor(Down(a, 1), And(x, 0x55555555))
    {
      Shift1(a, x);
    }
  }

  lemma Shift4(a: bv32, x: bv32)
    ensures Down(Xor(a, Up(And(x, 0x0f0f0f0f), 4)), 4) == Xor(Down(a, 4), And(x, 0x0f0f0f0f))
  {
    assert (a ^ ((x & 0x0f0f0f0f) << 4)) >> 4 == (a >> 4) ^ (x & 0x0f0f0f0f);
  }

  lemma Shift16(a: bv32, x: bv32)
    ensures Down(Xor(a, Up(And(x, 0x0000ffff), 16)), 16) == Xor(Down(a, 16), And(x, 0x0000ffff))
  {
    assert (a ^ ((x & 0x0000ffff) << 16)) >> 16 == (a >> 16) ^ (x & 0x0000ffff);
  }

  lemma Shift2(a: bv32, x: bv32)
    ensures Down(Xor(a, Up(And(x, 0x33333333), 2)), 2) == Xor(Down(a, 2), And(x, 0x33333333))
  {
    assert (a ^ ((x & 0x33333333) << 2)) >> 2 == (a >> 2) ^ (x & 0x33333333);
  }

  lemma Shift8(a: bv32, x: bv32)
    ensures Down(Xor(a, Up(And(x, 0x00ff00ff), 8)), 8) == Xor(Down(a, 8), And(x, 0x00ff00ff))
  {
    assert (a ^ ((x & 0x00ff00ff) << 8)) >> 8 == (a >> 8) ^ (x & 0x00ff00ff);
  }

  lemma Shift1(a: bv32, x: bv32)
    ensures Down(Xor(a, Up(And(x, 0x55555555), 1)), 1) == Xor(Down(a, 1), And(x, 0x55555555))
  {
    assert (a ^ ((x & 0x55555555) << 1)) >> 1 == (a >> 1) ^ (x & 0x55555555);
  }

  // ----- The permutations -----

  /** PERM_OP(r,l,...) */
  function Rl(h: Halves, n: nat, m: bv32): Halves
    requires n < 32
  {
    var p := PermOp(h.r, h.l, n, m);
    Halves(p.1, p.0)
  }

  /** PERM_OP(l,r,...) */
  function Lr(h: Halves, n: nat, m: bv32): Halves
    requires n < 32
  {
    var p := PermOp(h.l, h.r, n, m);
    Halves(p.0, p.1)
  }

  function InitialPermutation(h: Halves): Halves {
    Rl(Lr(Rl(Lr(Rl(h, 4, 0x0f0f0f0f), 16, 0x0000ffff), 2, 0x33333333), 8, 0x00ff00ff), 1, 0x55555555)
  }

  function FinalPermutation(h: Halves): Halves {
    Rl(Lr(Rl(Lr(Rl(h, 1, 0x55555555), 8, 0x00ff00ff), 2, 0x33333333), 16, 0x0000ffff), 4, 0x0f0f0f0f)
  }

  lemma ExchangesUndo(h: Halves)
    ensures Rl(Rl(h, 4, 0x0f0f0f0f), 4, 0x0f0f0f0f) == h
    ensures Lr(Lr(h, 16, 0x0000ffff), 16, 0x0000ffff) == h
    ensures Rl(Rl(h, 2, 0x33333333), 2, 0x33333333) == h
    ensures Lr(Lr(h, 8, 0x00ff00ff), 8, 0x00ff00ff) == h
    ensures Rl(Rl(h, 1, 0x55555555), 1, 0x55555555) == h
  {
    hide PermOp, Fits;
    MasksFit();
    PermOpTwice(h.r, h.l, 4, 0x0f0f0f0f);
    PermOpTwice(h.l, h.r, 16, 0x0000ffff);
    PermOpTwice(h.r, h.l, 2, 0x33333333);
    PermOpTwice(h.l, h.r, 8, 0x00ff00ff);
    PermOpTwice(h.r, h.l, 1, 0x55555555);
  }

  /** The two permutations undo each other. */
  lemma PermutationsInverse(h: Halves)
    ensures InitialPermutation(FinalPermutation(h)) == h
    ensures FinalPermutation(InitialPermutation(h)) == h
  {
    hide Rl, Lr;
    var a1 := Rl(h, 4, 0x0f0f0f0f);
    var a2 := Lr(a1, 16, 0x0000ffff);
    var a3 := Rl(a2, 2, 0x33333333);
    var a4 := Lr(a3, 8, 0x00ff00ff);
    ExchangesUndo(h);
    ExchangesUndo(a1);
    ExchangesUndo(a2);
    ExchangesUndo(a3);
    ExchangesUndo(a4);
    var b1 := Rl(h, 1, 0x55555555);
    var b2 := Lr(b1, 8, 0x00ff00ff);
    var b3 := Rl(b2, 2, 0x33333333);
    var b4 := Lr(b3, 16, 0x0000ffff);
    ExchangesUndo(b1);
    ExchangesUndo(b2);
    ExchangesUndo(b3);
    ExchangesUndo(b4);
  }

  // ----- The rounds -----

  /** (a<<1)|(a>>31) */
  function TurnUp(a: bv32): bv32 {
    (a << 1) | (a >> 31)
  }

  /** (a>>4)|(a<<28) */
  function TurnDown(a: bv32): bv32 {
    (a >> 4) | (a << 28)
  }

  /** The lower six bits of byte q. */
  function Six(w: bv32, q: nat): bv32
    requires q < 4
  {
    match q
    case 0 => w & 0x3f
    case 1 => (w >> 8) & 0x3f
    case 2 => (w >> 16) & 0x3f
    case 3 => (w >> 24) & 0x3f
  }

  function Or(a: bv32, b: bv32): bv32 {
    a | b
  }

  /** What D_ENCRYPT xors into L. */
  function Round(sp: SBoxes, r: bv32, k0: bv32, k1: bv32): bv32 {
    var e := TurnUp(r);
    var u := Xor(e, k0);
    var t := TurnDown(Xor(e, k1));
    Or(Or(Or(sp(1, Six(t, 0)), sp(3, Six(t, 1))), Or(sp(5, Six(t, 2)), sp(7, Six(t, 3)))),
       Or(Or(sp(0, Six(u, 0)), sp(2, Six(u, 1))), Or(sp(4, Six(u, 2)), sp(6, Six(u, 3)))))
  }

  const SCHEDULE: nat := 32

  /** D_ENCRYPT(l,r,s) */
  function OnLeft(sp: SBoxes, ks: seq<bv32>, h: Halves, s: nat): Halves
    requires s + 1 < |ks|
  {
    Halves(Xor(h.l, Round(sp, h.r, ks[s], ks[s + 1])), h.r)
  }

  /** D_ENCRYPT(r,l,s) */
  function OnRight(sp: SBoxes, ks: seq<bv32>, h: Halves, s: nat): Halves
    requires s + 1 < |ks|
  {
    Halves(h.l, Xor(h.r, Round(sp, h.l, ks[s], ks[s + 1])))
  }

  /** The loop that takes the schedule forward, from word i on. */
  function Forward(sp: SBoxes, ks: seq<bv32>, h: Halves, i: nat): Halves
    requires |ks| == SCHEDULE && i % 4 == 0 && i <= SCHEDULE
    decreases SCHEDULE - i
  {
    if i == SCHEDULE then h else Forward(sp, ks, OnRight(sp, ks, OnLeft(sp, ks, h, i), i + 2), i + 4)
  }

  /** The loop that takes it backward, down from word i + 2; i is -4 when nothing is left. */
  function Backward(sp: SBoxes, ks: seq<bv32>, h: Halves, i: int): Halves
    requires |ks| == SCHEDULE && i % 4 == 0 && -4 <= i < SCHEDULE
    decreases i + 4
  {
    if i == -4 then h else Backward(sp, ks, OnRight(sp, ks, OnLeft(sp, ks, h, i + 2), i), i - 4)
  }

  function Swapped(h: Halves): Halves {
    Halves(h.r, h.l)
  }

  /** Two rounds are undone by the same rounds with the halves and the order exchanged. */
  lemma RoundsUndo(sp: SBoxes, ks: seq<bv32>, h: Halves, i: nat)
    requires |ks| == SCHEDULE && i % 4 == 0 && i < SCHEDULE
    ensures var g := OnRight(sp, ks, OnLeft(sp, ks, h, i), i + 2);
            OnRight(sp, ks, OnLeft(sp, ks, Swapped(g), i + 2), i) == Swapped(h)
  {
    hide Round, Xor;
    var g := OnLeft(sp, ks, h, i);
    XorTwice(h.r, Round(sp, g.l, ks[i + 2], ks[i + 3]));
    XorTwice(h.l, Round(sp, h.r, ks[i], ks[i + 1]));
  }

  /** Running forward from word i, then backward to word i, exchanges the halves. */
  lemma {:induction false} BackwardUndoes(sp: SBoxes, ks: seq<bv32>, h: Halves, i: nat)
    requires |ks| == SCHEDULE && i % 4 == 0 && i <= SCHEDULE
    ensures Backward(sp, ks, Swapped(Forward(sp, ks, h, i)), SCHEDULE - 4) == Backward(sp, ks, Swapped(h), i - 4)
    decreases SCHEDULE - i
  {
    hide OnLeft, OnRight, Swapped;
    if i < SCHEDULE {
      var g := OnRight(sp, ks, OnLeft(sp, ks, h, i), i + 2);
      BackwardUndoes(sp, ks, g, i + 4);
      RoundsUndo(sp, ks, h, i);
    }
  }

  // ----- A block of eight bytes -----

  /** c2l: four bytes, the least significant first. */
  function Word(b: seq<bv8>, i: nat): bv32
    requires i + 4 <= |b|
  {
    FromBytes(b[i], b[i + 1], b[i + 2], b[i + 3])
  }

  function FromBytes(b0: bv8, b1: bv8, b2: bv8, b3: bv8): bv32 {
    (b0 as bv32) | ((b1 as bv32) << 8) | ((b2 as bv32) << 16) | ((b3 as bv32) << 24)
  }

  /** l2c */
  function ToBytes(w: bv32): (s: seq<bv8>)
    ensures |s| == 4
  {
    [(w & 0xff) as bv8, ((w >> 8) & 0xff) as bv8, ((w >> 16) & 0xff) as bv8, ((w >> 24) & 0xff) as bv8]
  }

  lemma BytesBack(b0: bv8, b1: bv8, b2: bv8, b3: bv8)
    ensures ToBytes(FromBytes(b0, b1, b2, b3)) == [b0, b1, b2, b3]
  {
    var w := (b0 as bv32) | ((b1 as bv32) << 8) | ((b2 as bv32) << 16) | ((b3 as bv32) << 24);
    assert (w & 0xff) as bv8 == b0 && ((w >> 8) & 0xff) as bv8 == b1 && ((w >> 16) & 0xff) as bv8 == b2
      && ((w >> 24) & 0xff) as bv8 == b3;
  }

  lemma WordBack(w: bv32)
    ensures Word(ToBytes(w), 0) == w
  {
    assert ((((w & 0xff) as bv8) as bv32) | (((((w >> 8) & 0xff) as bv8) as bv32) << 8)
      | (((((w >> 16) & 0xff) as bv8) as bv32) << 16)
      | (((((w >> 24) & 0xff) as bv8) as bv32) << 24)) == w;
  }

  function Load(b: seq<bv8>): Halves
    requires |b| == 8
  {
    Halves(Word(b, 0), Word(b, 4))
  }

  function Store(h: Halves): (b: seq<bv8>)
    ensures |b| == 8
  {
    ToBytes(h.l) + ToBytes(h.r)
  }

  lemma StoreLoad(b: seq<bv8>)
    requires |b| == 8
    ensures Store(Load(b)) == b
  {
    hide ToBytes, FromBytes;
    BytesBack(b[0], b[1], b[2], b[3]);
    BytesBack(b[4], b[5], b[6], b[7]);
  }

  lemma LoadStore(h: Halves)
    ensures Load(Store(h)) == h
  {
    hide ToBytes, FromBytes;
    WordBack(h.l);
    WordBack(h.r);
  }

  /** _XdmcpAuthDoIt */
  function DoIt(sp: SBoxes, ks: seq<bv32>, b: seq<bv8>, encrypt: bool): (r: seq<bv8>)
    requires |ks| == SCHEDULE && |b| == 8
    ensures |r| == 8
  {
    var h := Swapped(InitialPermutation(Load(b)));
    Store(FinalPermutation(if encrypt then Forward(sp, ks, h, 0) else Backward(sp, ks, h, SCHEDULE - 4)))
  }

  /** Deciphering undoes enciphering, for every schedule and all tables. */
  lemma Deciphered(sp: SBoxes, ks: seq<bv32>, b: seq<bv8>)
    requires |ks| == SCHEDULE && |b| == 8
    ensures DoIt(sp, ks, DoIt(sp, ks, b, true), false) == b
  {
    hide InitialPermutation, FinalPermutation, Forward, Load, Store;
    var h := InitialPermutation(Load(b));
    var g := Forward(sp, ks, Swapped(h), 0);
    LoadStore(FinalPermutation(g));
    PermutationsInverse(g);
    BackwardUndoes(sp, ks, Swapped(h), 0);
    assert Swapped(Swapped(h)) == h;
    assert Backward(sp, ks, h, -4) == h;
    PermutationsInverse(Load(b));
    StoreLoad(b);
  }

  /** _XdmcpAuthDoIt, step by step. */
  method AuthDoIt(sp: SBoxes, ks: seq<bv32>, input: seq<bv8>, encrypt: bool) returns (output: seq<bv8>)
    requires |ks| == SCHEDULE && |input| == 8
    ensures output == DoIt(sp, ks, input, encrypt)
  {
    hide Rl, Lr, OnLeft, OnRight, Word, ToBytes;
    var h := Load(input);
    h := Rl(h, 4, 0x0f0f0f0f);
    h := Lr(h, 16, 0x0000ffff);
    h := Rl(h, 2, 0x33333333);
    h := Lr(h, 8, 0x00ff00ff);
    h := Rl(h, 1, 0x55555555);
    h := Swapped(h);
    ghost var start := h;
    if encrypt {
      var i := 0;
      while i < SCHEDULE
        invariant 0 <= i <= SCHEDULE && i % 4 == 0 && Forward(sp, ks, h, i) == Forward(sp, ks, start, 0)
      {
        h := OnLeft(sp, ks, h, i);
        h := OnRight(sp, ks, h, i + 2);
        i := i + 4;
      }
    } else {
      var i := SCHEDULE - 2;
      while i >= 0
        invariant -2 <= i <= SCHEDULE - 2 && i % 4 == 2 && Backward(sp, ks, h, i - 2)
          == Backward(sp, ks, start, SCHEDULE - 4)
        decreases i + 4
      {
        h := OnLeft(sp, ks, h, i);
        h := OnRight(sp, ks, h, i - 2);
        i := i - 4;
      }
    }
    h := Rl(h, 1, 0x55555555);
    h := Lr(h, 8, 0x00ff00ff);
    h := Rl(h, 2, 0x33333333);
    h := Lr(h, 16, 0x0000ffff);
    h := Rl(h, 4, 0x0f0f0f0f);
    output := Store(h);
  }
}
