/**
  What the cipher does to single bits, in the terms of FIPS PUB 46: which bits the two
  permutations take where, and which bits enter which box of a round.
 */
module DesBits {

  import opened Des

  // ----- Bits -----

  function ByteMask(i: nat): bv32
    requires i < 8
  {
    match i
    case 0 => 0x01
    case 1 => 0x02
    case 2 => 0x04
    case 3 => 0x08
    case 4 => 0x10
    case 5 => 0x20
    case 6 => 0x40
    case 7 => 0x80
  }

  /** The word with bit k alone; bit 0 is the lowest. */
  function Mask(k: nat): bv32
    requires k < 32
  {
    if k < 8 then ByteMask(k)
    else if k < 16 then ByteMask(k - 8) << 8
    else if k < 24 then ByteMask(k - 16) << 16
    else ByteMask(k - 24) << 24
  }

  /** The bit of w at the mask m. */
  predicate At(w: bv32, m: bv32) {
    w & m != 0
  }

  predicate Bit(w: bv32, k: nat)
    requires k < 32
  {
    At(w, Mask(k))
  }

  /** Bit n of a block of eight bytes; bit 1 is the highest of the first byte. */
  predicate BlockBit(b: seq<bv8>, n: nat)
    requires |b| == 8 && 1 <= n <= 64
  {
    At(Wide(b[(n - 1) / 8]), ByteMask(7 - (n - 1) % 8))
  }

  function Wide(c: bv8): bv32 {
    c as bv32
  }

  /** Bit n of two halves, the left one holding bits 1 to 32. */
  predicate HalvesBit(h: Halves, n: nat)
    requires 1 <= n <= 64
  {
    if n <= 32 then Bit(h.l, n - 1) else Bit(h.r, n - 33)
  }

  /** One bit at most. */
  predicate Single(m: bv32) {
    m & (m - 1) == 0
  }

  // ----- Word operations, bit by bit -----

  lemma OneBit(a: bv32, b: bv32, m: bv32)
    requires m & (m - 1) == 0
    ensures ((a ^ b) & m != 0) == ((a & m != 0) != (b & m != 0))
    ensures ((a & b) & m != 0) == (a & m != 0 && b & m != 0)
    ensures ((a | b) & m != 0) == (a & m != 0 || b & m != 0)
  {
  }

  lemma BitXor(a: bv32, b: bv32, m: bv32)
    requires Single(m)
    ensures At(Xor(a, b), m) == (At(a, m) != At(b, m))
  {
    OneBit(a, b, m);
  }

  lemma BitAnd(a: bv32, b: bv32, m: bv32)
    requires Single(m)
    ensures At(And(a, b), m) == (At(a, m) && At(b, m))
  {
    OneBit(a, b, m);
  }

  /** A place in two halves. */
  datatype Spot = Spot(left: bool, m: bv32)

  predicate SpotBit(h: Halves, s: Spot) {
    At(if s.left then h.l else h.r, s.m)
  }

  /** Where the bit at s was before Rl(h, 4, 0x0f0f0f0f). */
  function Before4(s: Spot): Spot {
    if s.left then if At(0x0f0f0f0f, s.m) then Spot(false, Up(s.m, 4)) else s
    else if At(0x0f0f0f0f, Down(s.m, 4)) then Spot(true, Down(s.m, 4)) else s
  }

  lemma Shifts4(a: bv32)
    ensures Up(a, 4) == a << 4 && Down(a, 4) == a >> 4
  {
  }

  lemma Moved4(a: bv32, m: bv32)
    ensures (a >> 4) & m != 0 <==> a & (m << 4) != 0
    ensures (a << 4) & m != 0 <==> a & (m >> 4) != 0
  {
  }

  lemma Move4(a: bv32, m: bv32)
    ensures At(Down(a, 4), m) == At(a, Up(m, 4)) && At(Up(a, 4), m) == At(a, Down(m, 4))
  {
    hide Up, Down;
    Shifts4(a);
    Shifts4(m);
    Moved4(a, m);
  }

  lemma Single4(m: bv32)
    requires m & (m - 1) == 0
    ensures (m << 4) & ((m << 4) - 1) == 0 && (m >> 4) & ((m >> 4) - 1) == 0
    ensures 0x0f0f0f0f & (m >> 4) != 0 ==> (m >> 4) << 4 == m
  {
  }

  lemma Back4(m: bv32)
    requires Single(m)
    ensures Single(Up(m, 4)) && Single(Down(m, 4))
    ensures At(0x0f0f0f0f, Down(m, 4)) ==> Up(Down(m, 4), 4) == m
  {
    hide Up, Down;
    Shifts4(m);
    Shifts4(Down(m, 4));
    Single4(m);
  }

  lemma Exchange4(h: Halves, s: Spot)
    requires Single(s.m)
    ensures SpotBit(Rl(h, 4, 0x0f0f0f0f), s) == SpotBit(h, Before4(s)) && Single(Before4(s).m)
  {
    hide Up, Down, Xor, And, At, Single;
    var a, b := h.r, h.l;
    var t := Differing(a, b, 4, 0x0f0f0f0f);
    var x := Xor(Down(a, 4), b);
    Back4(s.m);
    BitXor(b, t, s.m);
    BitXor(a, Up(t, 4), s.m);
    BitAnd(x, 0x0f0f0f0f, s.m);
    BitXor(Down(a, 4), b, s.m);
    Move4(a, s.m);
    Move4(t, s.m);
    BitAnd(x, 0x0f0f0f0f, Down(s.m, 4));
    BitXor(Down(a, 4), b, Down(s.m, 4));
    Move4(a, Down(s.m, 4));
  }

  /** Where the bit at s was before Lr(h, 16, 0x0000ffff). */
  function Before16(s: Spot): Spot {
    if !s.left then if At(0x0000ffff, s.m) then Spot(true, Up(s.m, 16)) else s
    else if At(0x0000ffff, Down(s.m, 16)) then Spot(false, Down(s.m, 16)) else s
  }

  lemma Shifts16(a: bv32)
    ensures Up(a, 16) == a << 16 && Down(a, 16) == a >> 16
  {
  }

  lemma Moved16(a: bv32, m: bv32)
    ensures (a >> 16) & m != 0 <==> a & (m << 16) != 0
    ensures (a << 16) & m != 0 <==> a & (m >> 16) != 0
  {
  }

  lemma Move16(a: bv32, m: bv32)
    ensures At(Down(a, 16), m) == At(a, Up(m, 16)) && At(Up(a, 16), m) == At(a, Down(m, 16))
  {
    hide Up, Down;
    Shifts16(a);
    Shifts16(m);
    Moved16(a, m);
  }

  lemma Single16(m: bv32)
    requires m & (m - 1) == 0
    ensures (m << 16) & ((m << 16) - 1) == 0 && (m >> 16) & ((m >> 16) - 1) == 0
    ensures 0x0000ffff & (m >> 16) != 0 ==> (m >> 16) << 16 == m
  {
  }

  lemma Back16(m: bv32)
    requires Single(m)
    ensures Single(Up(m, 16)) && Single(Down(m, 16))
    ensures At(0x0000ffff, Down(m, 16)) ==> Up(Down(m, 16), 16) == m
  {
    hide Up, Down;
    Shifts16(m);
    Shifts16(Down(m, 16));
    Single16(m);
  }

  lemma Exchange16(h: Halves, s: Spot)
    requires Single(s.m)
    ensures SpotBit(Lr(h, 16, 0x0000ffff), s) == SpotBit(h, Before16(s)) && Single(Before16(s).m)
  {
    hide Up, Down, Xor, And, At, Single;
    var a, b := h.l, h.r;
    var t := Differing(a, b, 16, 0x0000ffff);
    var x := Xor(Down(a, 16), b);
    Back16(s.m);
    BitXor(b, t, s.m);
    BitXor(a, Up(t, 16), s.m);
    BitAnd(x, 0x0000ffff, s.m);
    BitXor(Down(a, 16), b, s.m);
    Move16(a, s.m);
    Move16(t, s.m);
    BitAnd(x, 0x0000ffff, Down(s.m, 16));
    BitXor(Down(a, 16), b, Down(s.m, 16));
    Move16(a, Down(s.m, 16));
  }

  /** Where the bit at s was before Rl(h, 2, 0x33333333). */
  function Before2(s: Spot): Spot {
    if s.left then if At(0x33333333, s.m) then Spot(false, Up(s.m, 2)) else s
    else if At(0x33333333, Down(s.m, 2)) then Spot(true, Down(s.m, 2)) else s
  }

  lemma Shifts2(a: bv32)
    ensures Up(a, 2) == a << 2 && Down(a, 2) == a >> 2
  {
  }

  lemma Moved2(a: bv32, m: bv32)
    ensures (a >> 2) & m != 0 <==> a & (m << 2) != 0
    ensures (a << 2) & m != 0 <==> a & (m >> 2) != 0
  {
  }

  lemma Move2(a: bv32, m: bv32)
    ensures At(Down(a, 2), m) == At(a, Up(m, 2)) && At(Up(a, 2), m) == At(a, Down(m, 2))
  {
    hide Up, Down;
    Shifts2(a);
    Shifts2(m);
    Moved2(a, m);
  }

  lemma Single2(m: bv32)
    requires m & (m - 1) == 0
    ensures (m << 2) & ((m << 2) - 1) == 0 && (m >> 2) & ((m >> 2) - 1) == 0
    ensures 0x33333333 & (m >> 2) != 0 ==> (m >> 2) << 2 == m
  {
  }

  lemma Back2(m: bv32)
    requires Single(m)
    ensures Single(Up(m, 2)) && Single(Down(m, 2))
    ensures At(0x33333333, Down(m, 2)) ==> Up(Down(m, 2), 2) == m
  {
    hide Up, Down;
    Shifts2(m);
    Shifts2(Down(m, 2));
    Single2(m);
  }

  lemma Exchange2(h: Halves, s: Spot)
    requires Single(s.m)
    ensures SpotBit(Rl(h, 2, 0x33333333), s) == SpotBit(h, Before2(s)) && Single(Before2(s).m)
  {
    hide Up, Down, Xor, And, At, Single;
    var a, b := h.r, h.l;
    var t := Differing(a, b, 2, 0x33333333);
    var x := Xor(Down(a, 2), b);
    Back2(s.m);
    BitXor(b, t, s.m);
    BitXor(a, Up(t, 2), s.m);
    BitAnd(x, 0x33333333, s.m);
    BitXor(Down(a, 2), b, s.m);
    Move2(a, s.m);
    Move2(t, s.m);
    BitAnd(x, 0x33333333, Down(s.m, 2));
    BitXor(Down(a, 2), b, Down(s.m, 2));
    Move2(a, Down(s.m, 2));
  }

  /** Where the bit at s was before Lr(h, 8, 0x00ff00ff). */
  function Before8(s: Spot): Spot {
    if !s.left then if At(0x00ff00ff, s.m) then Spot(true, Up(s.m, 8)) else s
    else if At(0x00ff00ff, Down(s.m, 8)) then Spot(false, Down(s.m, 8)) else s
  }

  lemma Shifts8(a: bv32)
    ensures Up(a, 8) == a << 8 && Down(a, 8) == a >> 8
  {
  }

  lemma Moved8(a: bv32, m: bv32)
    ensures (a >> 8) & m != 0 <==> a & (m << 8) != 0
    ensures (a << 8) & m != 0 <==> a & (m >> 8) != 0
  {
  }

  lemma Move8(a: bv32, m: bv32)
    ensures At(Down(a, 8), m) == At(a, Up(m, 8)) && At(Up(a, 8), m) == At(a, Down(m, 8))
  {
    hide Up, Down;
    Shifts8(a);
    Shifts8(m);
    Moved8(a, m);
  }

  lemma Single8(m: bv32)
    requires m & (m - 1) == 0
    ensures (m << 8) & ((m << 8) - 1) == 0 && (m >> 8) & ((m >> 8) - 1) == 0
    ensures 0x00ff00ff & (m >> 8) != 0 ==> (m >> 8) << 8 == m
  {
  }

  lemma Back8(m: bv32)
    requires Single(m)
    ensures Single(Up(m, 8)) && Single(Down(m, 8))
    ensures At(0x00ff00ff, Down(m, 8)) ==> Up(Down(m, 8), 8) == m
  {
    hide Up, Down;
    Shifts8(m);
    Shifts8(Down(m, 8));
    Single8(m);
  }

  lemma Exchange8(h: Halves, s: Spot)
    requires Single(s.m)
    ensures SpotBit(Lr(h, 8, 0x00ff00ff), s) == SpotBit(h, Before8(s)) && Single(Before8(s).m)
  {
    hide Up, Down, Xor, And, At, Single;
    var a, b := h.l, h.r;
    var t := Differing(a, b, 8, 0x00ff00ff);
    var x := Xor(Down(a, 8), b);
    Back8(s.m);
    BitXor(b, t, s.m);
    BitXor(a, Up(t, 8), s.m);
    BitAnd(x, 0x00ff00ff, s.m);
    BitXor(Down(a, 8), b, s.m);
    Move8(a, s.m);
    Move8(t, s.m);
    BitAnd(x, 0x00ff00ff, Down(s.m, 8));
    BitXor(Down(a, 8), b, Down(s.m, 8));
    Move8(a, Down(s.m, 8));
  }

  /** Where the bit at s was before Rl(h, 1, 0x55555555). */
  function Before1(s: Spot): Spot {
    if s.left then if At(0x55555555, s.m) then Spot(false, Up(s.m, 1)) else s
    else if At(0x55555555, Down(s.m, 1)) then Spot(true, Down(s.m, 1)) else s
  }

  lemma Shifts1(a: bv32)
    ensures Up(a, 1) == a << 1 && Down(a, 1) == a >> 1
  {
  }

  lemma Moved1(a: bv32, m: bv32)
    ensures (a >> 1) & m != 0 <==> a & (m << 1) != 0
    ensures (a << 1) & m != 0 <==> a & (m >> 1) != 0
  {
  }

  lemma Move1(a: bv32, m: bv32)
    ensures At(Down(a, 1), m) == At(a, Up(m, 1)) && At(Up(a, 1), m) == At(a, Down(m, 1))
  {
    hide Up, Down;
    Shifts1(a);
    Shifts1(m);
    Moved1(a, m);
  }

  lemma Single1(m: bv32)
    requires m & (m - 1) == 0
    ensures (m << 1) & ((m << 1) - 1) == 0 && (m >> 1) & ((m >> 1) - 1) == 0
    ensures 0x55555555 & (m >> 1) != 0 ==> (m >> 1) << 1 == m
  {
  }

  lemma Back1(m: bv32)
    requires Single(m)
    ensures Single(Up(m, 1)) && Single(Down(m, 1))
    ensures At(0x55555555, Down(m, 1)) ==> Up(Down(m, 1), 1) == m
  {
    hide Up, Down;
    Shifts1(m);
    Shifts1(Down(m, 1));
    Single1(m);
  }

  lemma Exchange1(h: Halves, s: Spot)
    requires Single(s.m)
    ensures SpotBit(Rl(h, 1, 0x55555555), s) == SpotBit(h, Before1(s)) && Single(Before1(s).m)
  {
    hide Up, Down, Xor, And, At, Single;
    var a, b := h.r, h.l;
    var t := Differing(a, b, 1, 0x55555555);
    var x := Xor(Down(a, 1), b);
    Back1(s.m);
    BitXor(b, t, s.m);
    BitXor(a, Up(t, 1), s.m);
    BitAnd(x, 0x55555555, s.m);
    BitXor(Down(a, 1), b, s.m);
    Move1(a, s.m);
    Move1(t, s.m);
    BitAnd(x, 0x55555555, Down(s.m, 1));
    BitXor(Down(a, 1), b, Down(s.m, 1));
    Move1(a, Down(s.m, 1));
  }

  /** Where the bit at s was before the initial permutation. */
  function BeforeAll(s: Spot): Spot {
    Before4(Before16(Before2(Before8(Before1(s)))))
  }

  lemma InitialSpot(h: Halves, s: Spot)
    requires Single(s.m)
    ensures SpotBit(InitialPermutation(h), s) == SpotBit(h, BeforeAll(s))
  {
    hide Rl, Lr, SpotBit, Single, Before4, Before16, Before2, Before8, Before1;
    var h1 := Rl(h, 4, 0x0f0f0f0f);
    var h2 := Lr(h1, 16, 0x0000ffff);
    var h3 := Rl(h2, 2, 0x33333333);
    var h4 := Lr(h3, 8, 0x00ff00ff);
    var s4 := Before1(s);
    var s3 := Before8(s4);
    var s2 := Before2(s3);
    var s1 := Before16(s2);
    Exchange1(h4, s);
    Exchange8(h3, s4);
    Exchange2(h2, s3);
    Exchange16(h1, s2);
    Exchange4(h, s1);
  }

  // ----- The places, numbered: the left half has 0 to 31 -----

  function SpotAt(i: nat): Spot
    requires i < 64
  {
    if i < 32 then Spot(true, Mask(i)) else Spot(false, Mask(i - 32))
  }

  lemma NotAtZero(w: bv32)
    ensures !At(w, 0)
  {
  }

  lemma MaskSingle(k: nat)
    requires k < 32
    ensures Single(Mask(k))
  {
  }

  /** The place before the exchange by 4. */
  function Origin4(i: nat): (r: nat)
    requires i < 64
    ensures r < 64
  {
    if i < 32 then if i % 8 < 4 then i + 32 + 4 else i
    else if i % 8 < 4 then i else i - 32 - 4
  }

  lemma MaskBit4(k: nat)
    requires k < 32
    ensures At(0x0f0f0f0f, Mask(k)) <==> k % 8 < 4
  {
  }

  lemma MaskUp4(k: nat)
    requires k + 4 < 32
    ensures Mask(k) << 4 == Mask(k + 4)
  {
  }

  lemma MaskDown4(k: nat)
    requires k + 4 < 32
    ensures Mask(k + 4) >> 4 == Mask(k)
  {
    if k < 8 {
    } else if k < 16 {
    } else if k < 24 {
    }
  }

  lemma MaskMove4(k: nat)
    requires k + 4 < 32
    ensures Up(Mask(k), 4) == Mask(k + 4) && Down(Mask(k + 4), 4) == Mask(k)
  {
    hide *;
    assert Up(Mask(k), 4) == Mask(k + 4) by {
      MaskUp4(k);
      UpIs4(Mask(k), Mask(k + 4));
    }
    assert Down(Mask(k + 4), 4) == Mask(k) by {
      MaskDown4(k);
      DownIs4(Mask(k + 4), Mask(k));
    }
  }

  lemma MaskGone4(k: nat)
    requires k < 4
    ensures Mask(k) >> 4 == 0
  {
  }

  lemma MaskOut4(k: nat)
    requires k < 4
    ensures Down(Mask(k), 4) == 0 && !At(0x0f0f0f0f, 0)
  {
    MaskGone4(k);
    DownIs4(Mask(k), 0);
    hide *;
    NotAtZero(0x0f0f0f0f);
  }

  lemma UpIs4(a: bv32, b: bv32)
    requires a << 4 == b
    ensures Up(a, 4) == b
  {
  }

  lemma DownIs4(a: bv32, b: bv32)
    requires a >> 4 == b
    ensures Down(a, 4) == b
  {
  }

  lemma OriginIs4(i: nat)
    requires i < 64
    ensures Before4(SpotAt(i)) == SpotAt(Origin4(i))
  {
    hide At, Mask, Up, Down;
    var k := if i < 32 then i else i - 32;
    MaskBit4(k);
    if k >= 4 {
      MaskBit4(k - 4);
      MaskMove4(k - 4);
    } else {
      MaskOut4(k);
    }
    if k < 28 {
      MaskMove4(k);
    }
  }

  /** The place before the exchange by 16. */
  function Origin16(i: nat): (r: nat)
    requires i < 64
    ensures r < 64
  {
    if i >= 32 then if i % 32 < 16 then i - 32 + 16 else i
    else if i % 32 < 16 then i else i + 32 - 16
  }

  lemma MaskBit16(k: nat)
    requires k < 32
    ensures At(0x0000ffff, Mask(k)) <==> k % 32 < 16
  {
  }

  lemma MaskUp16(k: nat)
    requires k + 16 < 32
    ensures Mask(k) << 16 == Mask(k + 16)
  {
  }

  lemma MaskDown16(k: nat)
    requires k + 16 < 32
    ensures Mask(k + 16) >> 16 == Mask(k)
  {
    if k < 8 {
    } else if k < 16 {
    } else if k < 24 {
    }
  }

  lemma MaskMove16(k: nat)
    requires k + 16 < 32
    ensures Up(Mask(k), 16) == Mask(k + 16) && Down(Mask(k + 16), 16) == Mask(k)
  {
    hide *;
    assert Up(Mask(k), 16) == Mask(k + 16) by {
      MaskUp16(k);
      UpIs16(Mask(k), Mask(k + 16));
    }
    assert Down(Mask(k + 16), 16) == Mask(k) by {
      MaskDown16(k);
      DownIs16(Mask(k + 16), Mask(k));
    }
  }

  lemma MaskGone16(k: nat)
    requires k < 16
    ensures Mask(k) >> 16 == 0
  {
  }

  lemma MaskOut16(k: nat)
    requires k < 16
    ensures Down(Mask(k), 16) == 0 && !At(0x0000ffff, 0)
  {
    MaskGone16(k);
    DownIs16(Mask(k), 0);
    hide *;
    NotAtZero(0x0000ffff);
  }

  lemma UpIs16(a: bv32, b: bv32)
    requires a << 16 == b
    ensures Up(a, 16) == b
  {
  }

  lemma DownIs16(a: bv32, b: bv32)
    requires a >> 16 == b
    ensures Down(a, 16) == b
  {
  }

  lemma OriginIs16(i: nat)
    requires i < 64
    ensures Before16(SpotAt(i)) == SpotAt(Origin16(i))
  {
    hide At, Mask, Up, Down;
    var k := if i < 32 then i else i - 32;
    MaskBit16(k);
    if k >= 16 {
      MaskBit16(k - 16);
      MaskMove16(k - 16);
    } else {
      MaskOut16(k);
    }
    if k < 16 {
      MaskMove16(k);
    }
  }

  /** The place before the exchange by 2. */
  function Origin2(i: nat): (r: nat)
    requires i < 64
    ensures r < 64
  {
    if i < 32 then if i % 4 < 2 then i + 32 + 2 else i
    else if i % 4 < 2 then i else i - 32 - 2
  }

  lemma MaskBit2(k: nat)
    requires k < 32
    ensures At(0x33333333, Mask(k)) <==> k % 4 < 2
  {
  }

  lemma MaskUp2(k: nat)
    requires k + 2 < 32
    ensures Mask(k) << 2 == Mask(k + 2)
  {
  }

  lemma MaskDown2(k: nat)
    requires k + 2 < 32
    ensures Mask(k + 2) >> 2 == Mask(k)
  {
    if k < 8 {
    } else if k < 16 {
    } else if k < 24 {
    }
  }

  lemma MaskMove2(k: nat)
    requires k + 2 < 32
    ensures Up(Mask(k), 2) == Mask(k + 2) && Down(Mask(k + 2), 2) == Mask(k)
  {
    hide *;
    assert Up(Mask(k), 2) == Mask(k + 2) by {
      MaskUp2(k);
      UpIs2(Mask(k), Mask(k + 2));
    }
    assert Down(Mask(k + 2), 2) == Mask(k) by {
      MaskDown2(k);
      DownIs2(Mask(k + 2), Mask(k));
    }
  }

  lemma MaskGone2(k: nat)
    requires k < 2
    ensures Mask(k) >> 2 == 0
  {
  }

  lemma MaskOut2(k: nat)
    requires k < 2
    ensures Down(Mask(k), 2) == 0 && !At(0x33333333, 0)
  {
    MaskGone2(k);
    DownIs2(Mask(k), 0);
    hide *;
    NotAtZero(0x33333333);
  }

  lemma UpIs2(a: bv32, b: bv32)
    requires a << 2 == b
    ensures Up(a, 2) == b
  {
  }

  lemma DownIs2(a: bv32, b: bv32)
    requires a >> 2 == b
    ensures Down(a, 2) == b
  {
  }

  lemma OriginIs2(i: nat)
    requires i < 64
    ensures Before2(SpotAt(i)) == SpotAt(Origin2(i))
  {
    hide At, Mask, Up, Down;
    var k := if i < 32 then i else i - 32;
    MaskBit2(k);
    if k >= 2 {
      MaskBit2(k - 2);
      MaskMove2(k - 2);
    } else {
      MaskOut2(k);
    }
    if k < 30 {
      MaskMove2(k);
    }
  }

  /** The place before the exchange by 8. */
  function Origin8(i: nat): (r: nat)
    requires i < 64
    ensures r < 64
  {
    if i >= 32 then if i % 16 < 8 then i - 32 + 8 else i
    else if i % 16 < 8 then i else i + 32 - 8
  }

  lemma MaskBit8(k: nat)
    requires k < 32
    ensures At(0x00ff00ff, Mask(k)) <==> k % 16 < 8
  {
  }

  lemma MaskUp8(k: nat)
    requires k + 8 < 32
    ensures Mask(k) << 8 == Mask(k + 8)
  {
  }

  lemma MaskDown8(k: nat)
    requires k + 8 < 32
    ensures Mask(k + 8) >> 8 == Mask(k)
  {
    if k < 8 {
    } else if k < 16 {
    } else if k < 24 {
    }
  }

  lemma MaskMove8(k: nat)
    requires k + 8 < 32
    ensures Up(Mask(k), 8) == Mask(k + 8) && Down(Mask(k + 8), 8) == Mask(k)
  {
    hide *;
    assert Up(Mask(k), 8) == Mask(k + 8) by {
      MaskUp8(k);
      UpIs8(Mask(k), Mask(k + 8));
    }
    assert Down(Mask(k + 8), 8) == Mask(k) by {
      MaskDown8(k);
      DownIs8(Mask(k + 8), Mask(k));
    }
  }

  lemma MaskGone8(k: nat)
    requires k < 8
    ensures Mask(k) >> 8 == 0
  {
  }

  lemma MaskOut8(k: nat)
    requires k < 8
    ensures Down(Mask(k), 8) == 0 && !At(0x00ff00ff, 0)
  {
    MaskGone8(k);
    DownIs8(Mask(k), 0);
    hide *;
    NotAtZero(0x00ff00ff);
  }

  lemma UpIs8(a: bv32, b: bv32)
    requires a << 8 == b
    ensures Up(a, 8) == b
  {
  }

  lemma DownIs8(a: bv32, b: bv32)
    requires a >> 8 == b
    ensures Down(a, 8) == b
  {
  }

  lemma OriginIs8(i: nat)
    requires i < 64
    ensures Before8(SpotAt(i)) == SpotAt(Origin8(i))
  {
    hide At, Mask, Up, Down;
    var k := if i < 32 then i else i - 32;
    MaskBit8(k);
    if k >= 8 {
      MaskBit8(k - 8);
      MaskMove8(k - 8);
    } else {
      MaskOut8(k);
    }
    if k < 24 {
      MaskMove8(k);
    }
  }

  /** The place before the exchange by 1. */
  function Origin1(i: nat): (r: nat)
    requires i < 64
    ensures r < 64
  {
    if i < 32 then if i % 2 < 1 then i + 32 + 1 else i
    else if i % 2 < 1 then i else i - 32 - 1
  }

  lemma MaskBit1(k: nat)
    requires k < 32
    ensures At(0x55555555, Mask(k)) <==> k % 2 < 1
  {
  }

  lemma MaskUp1(k: nat)
    requires k + 1 < 32
    ensures Mask(k) << 1 == Mask(k + 1)
  {
  }

  lemma MaskDown1(k: nat)
    requires k + 1 < 32
    ensures Mask(k + 1) >> 1 == Mask(k)
  {
    if k < 8 {
    } else if k < 16 {
    } else if k < 24 {
    }
  }

  lemma MaskMove1(k: nat)
    requires k + 1 < 32
    ensures Up(Mask(k), 1) == Mask(k + 1) && Down(Mask(k + 1), 1) == Mask(k)
  {
    hide *;
    assert Up(Mask(k), 1) == Mask(k + 1) by {
      MaskUp1(k);
      UpIs1(Mask(k), Mask(k + 1));
    }
    assert Down(Mask(k + 1), 1) == Mask(k) by {
      MaskDown1(k);
      DownIs1(Mask(k + 1), Mask(k));
    }
  }

  lemma MaskGone1(k: nat)
    requires k < 1
    ensures Mask(k) >> 1 == 0
  {
  }

  lemma MaskOut1(k: nat)
    requires k < 1
    ensures Down(Mask(k), 1) == 0 && !At(0x55555555, 0)
  {
    MaskGone1(k);
    DownIs1(Mask(k), 0);
    hide *;
    NotAtZero(0x55555555);
  }

  lemma UpIs1(a: bv32, b: bv32)
    requires a << 1 == b
    ensures Up(a, 1) == b
  {
  }

  lemma DownIs1(a: bv32, b: bv32)
    requires a >> 1 == b
    ensures Down(a, 1) == b
  {
  }

  lemma OriginIs1(i: nat)
    requires i < 64
    ensures Before1(SpotAt(i)) == SpotAt(Origin1(i))
  {
    hide At, Mask, Up, Down;
    var k := if i < 32 then i else i - 32;
    MaskBit1(k);
    if k >= 1 {
      MaskBit1(k - 1);
      MaskMove1(k - 1);
    } else {
      MaskOut1(k);
    }
    if k < 31 {
      MaskMove1(k);
    }
  }

  /** The place before the whole initial permutation. */
  function Origin(i: nat): (r: nat)
    requires i < 64
    ensures r < 64
  {
    Origin4(Origin16(Origin2(Origin8(Origin1(i)))))
  }

  lemma OriginIs(h: Halves, i: nat)
    requires i < 64
    ensures SpotBit(InitialPermutation(h), SpotAt(i)) == SpotBit(h, SpotAt(Origin(i)))
  {
    MaskSingle(if i < 32 then i else i - 32);
    hide Before4, Before16, Before2, Before8, Before1, Single, SpotBit, Mask, Origin4, Origin16, Origin2, Origin8,
      Origin1,
      InitialPermutation;
    InitialSpot(h, SpotAt(i));
    OriginIs1(i);
    OriginIs8(Origin1(i));
    OriginIs2(Origin8(Origin1(i)));
    OriginIs16(Origin2(Origin8(Origin1(i))));
    OriginIs4(Origin16(Origin2(Origin8(Origin1(i)))));
  }

  // ----- Loading a block -----

  lemma RawByte0(b0: bv8, b1: bv8, b2: bv8, b3: bv8, m: bv32)
    requires m < 0x100
    ensures ((b0 as bv32) | ((b1 as bv32) << 8) | ((b2 as bv32) << 16) | ((b3 as bv32) << 24)) & m != 0
            <==> (b0 as bv32) & m != 0
  {
  }

  lemma WordByte0(b0: bv8, b1: bv8, b2: bv8, b3: bv8, m: bv32)
    requires m < 0x100
    ensures At(FromBytes(b0, b1, b2, b3), m) == At(Wide(b0), m)
  {
    RawByte0(b0, b1, b2, b3, m);
  }

  lemma RawByte1(b0: bv8, b1: bv8, b2: bv8, b3: bv8, m: bv32)
    requires m < 0x100
    ensures ((b0 as bv32) | ((b1 as bv32) << 8) | ((b2 as bv32) << 16) | ((b3 as bv32) << 24)) & (m << 8) != 0
            <==> (b1 as bv32) & m != 0
  {
  }

  lemma WordByte1(b0: bv8, b1: bv8, b2: bv8, b3: bv8, m: bv32)
    requires m < 0x100
    ensures At(FromBytes(b0, b1, b2, b3), m << 8) == At(Wide(b1), m)
  {
    RawByte1(b0, b1, b2, b3, m);
  }

  lemma RawByte2(b0: bv8, b1: bv8, b2: bv8, b3: bv8, m: bv32)
    requires m < 0x100
    ensures ((b0 as bv32) | ((b1 as bv32) << 8) | ((b2 as bv32) << 16) | ((b3 as bv32) << 24)) & (m << 16) != 0
            <==> (b2 as bv32) & m != 0
  {
  }

  lemma WordByte2(b0: bv8, b1: bv8, b2: bv8, b3: bv8, m: bv32)
    requires m < 0x100
    ensures At(FromBytes(b0, b1, b2, b3), m << 16) == At(Wide(b2), m)
  {
    RawByte2(b0, b1, b2, b3, m);
  }

  lemma RawByte3(b0: bv8, b1: bv8, b2: bv8, b3: bv8, m: bv32)
    requires m < 0x100
    ensures ((b0 as bv32) | ((b1 as bv32) << 8) | ((b2 as bv32) << 16) | ((b3 as bv32) << 24)) & (m << 24) != 0
            <==> (b3 as bv32) & m != 0
  {
  }

  lemma WordByte3(b0: bv8, b1: bv8, b2: bv8, b3: bv8, m: bv32)
    requires m < 0x100
    ensures At(FromBytes(b0, b1, b2, b3), m << 24) == At(Wide(b3), m)
  {
    RawByte3(b0, b1, b2, b3, m);
  }

  lemma ByteOfMask(i: nat)
    requires i < 8
    ensures Mask(i) == ByteMask(i) && Mask(8 + i) == ByteMask(i) << 8 && Mask(16 + i) == ByteMask(i) << 16
            && Mask(24 + i) == ByteMask(i) << 24
  {
    hide ByteMask;
  }

  lemma LoadedByte(b0: bv8, b1: bv8, b2: bv8, b3: bv8, i: nat)
    requires i < 8
    ensures var w := FromBytes(b0, b1, b2, b3);
            && At(w, Mask(i)) == At(Wide(b0), ByteMask(i)) && At(w, Mask(8 + i)) == At(Wide(b1), ByteMask(i))
            && At(w, Mask(16 + i)) == At(Wide(b2), ByteMask(i)) && At(w, Mask(24 + i)) == At(Wide(b3), ByteMask(i))
  {
    hide *;
    SmallMask(i);
    WordByte0(b0, b1, b2, b3, ByteMask(i));
    WordByte1(b0, b1, b2, b3, ByteMask(i));
    WordByte2(b0, b1, b2, b3, ByteMask(i));
    WordByte3(b0, b1, b2, b3, ByteMask(i));
    ByteOfMask(i);
  }

  lemma SmallMask(i: nat)
    requires i < 8
    ensures ByteMask(i) < 0x100
  {
  }

  /** Where bit n of a block stands when it is loaded. */
  function InPlace(n: nat): (i: nat)
    requires 1 <= n <= 64
    ensures i < 64
  {
    (n - 1) / 8 * 8 + 7 - (n - 1) % 8
  }

  lemma LoadedAt(b: seq<bv8>, j: nat, i: nat)
    requires |b| == 8 && j < 8 && i < 8
    ensures SpotBit(Load(b), SpotAt(8 * j + i)) == At(Wide(b[j]), ByteMask(i))
  {
    hide At, Mask, ByteMask, FromBytes, Wide;
    LoadedByte(b[0], b[1], b[2], b[3], i);
    LoadedByte(b[4], b[5], b[6], b[7], i);
  }

  lemma LoadedBit(b: seq<bv8>, n: nat)
    requires |b| == 8 && 1 <= n <= 64
    ensures SpotBit(Load(b), SpotAt(InPlace(n))) == BlockBit(b, n)
  {
    hide At, ByteMask, Wide, SpotBit, SpotAt;
    LoadedAt(b, (n - 1) / 8, 7 - (n - 1) % 8);
  }

  // ----- The tables -----

  /** Where bit n stands in the halves that the initial permutation leaves, still the other way round. */
  function OutPlace(n: nat): (i: nat)
    requires 1 <= n <= 64
    ensures i < 64
  {
    if n <= 32 then n + 31 else n - 33
  }

  /** Bits n and following of h are the bits of b that t lists. */
  ghost predicate Row(h: Halves, b: seq<bv8>, n: nat, t: seq<nat>)
    requires |b| == 8
  {
    1 <= n && n + |t| <= 65 && forall i :: 0 <= i < |t| ==> 1 <= t[i] <= 64 && HalvesBit(h, n + i) == BlockBit(b, t[i])
  }

  lemma RowOf(h: Halves, b: seq<bv8>, n: nat, t0: nat, t1: nat, t2: nat, t3: nat, t4: nat, t5: nat, t6: nat, t7: nat)
    requires |b| == 8 && 1 <= n <= 57 && 1 <= t0 <= 64 && 1 <= t1 <= 64 && 1 <= t2 <= 64 && 1 <= t3 <= 64
    requires 1 <= t4 <= 64 && 1 <= t5 <= 64 && 1 <= t6 <= 64 && 1 <= t7 <= 64
    requires HalvesBit(h, n) == BlockBit(b, t0) && HalvesBit(h, n + 1) == BlockBit(b, t1)
    requires HalvesBit(h, n + 2) == BlockBit(b, t2) && HalvesBit(h, n + 3) == BlockBit(b, t3)
    requires HalvesBit(h, n + 4) == BlockBit(b, t4) && HalvesBit(h, n + 5) == BlockBit(b, t5)
    requires HalvesBit(h, n + 6) == BlockBit(b, t6) && HalvesBit(h, n + 7) == BlockBit(b, t7)
    ensures Row(h, b, n, [t0, t1, t2, t3, t4, t5, t6, t7])
  {
    hide HalvesBit, BlockBit;
  }

  lemma PlacedBit(h: Halves, n: nat)
    requires 1 <= n <= 64
    ensures HalvesBit(Swapped(h), n) == SpotBit(h, SpotAt(OutPlace(n)))
  {
    hide At, Mask;
  }

  /** Bit n of the permuted halves is bit t of the block. */
  ghost predicate Comes(n: nat, t: nat) {
    1 <= n <= 64 && 1 <= t <= 64 && Origin(OutPlace(n)) == InPlace(t)
  }

  /** The way from bit t to bit n goes through the places p4, p3, p2 and p1. */
  lemma Path(n: nat, t: nat, p1: nat, p2: nat, p3: nat, p4: nat)
    requires 1 <= n <= 64 && 1 <= t <= 64 && p1 < 64 && p2 < 64 && p3 < 64 && p4 < 64
    requires Origin1(OutPlace(n)) == p1 && Origin8(p1) == p2 && Origin2(p2) == p3 && Origin16(p3) == p4
    requires Origin4(p4) == InPlace(t)
    ensures Comes(n, t)
  {
    hide Origin1, Origin8, Origin2, Origin16, Origin4;
  }

  lemma Took(b: seq<bv8>, n: nat, t: nat)
    requires |b| == 8 && Comes(n, t)
    ensures 1 <= n <= 64 && 1 <= t <= 64 && HalvesBit(Swapped(InitialPermutation(Load(b))), n) == BlockBit(b, t)
  {
    hide SpotBit, SpotAt, InitialPermutation, Load, BlockBit, HalvesBit, Origin;
    PlacedBit(InitialPermutation(Load(b)), n);
    OriginIs(Load(b), OutPlace(n));
    LoadedBit(b, t);
  }

  lemma Places1()
    ensures Comes(1, 58) && Comes(2, 50)
    ensures Comes(3, 42) && Comes(4, 34)
    ensures Comes(5, 26) && Comes(6, 18)
    ensures Comes(7, 10) && Comes(8, 2)
  {
    hide Comes;
    assert Comes(1, 58) by { Path(1, 58, 32, 8, 42, 26); }
    assert Comes(2, 50) by { Path(2, 50, 0, 0, 34, 18); }
    assert Comes(3, 42) by { Path(3, 42, 34, 10, 10, 10); }
    assert Comes(4, 34) by { Path(4, 34, 2, 2, 2, 2); }
    assert Comes(5, 26) by { Path(5, 26, 36, 12, 46, 30); }
    assert Comes(6, 18) by { Path(6, 18, 4, 4, 38, 22); }
    assert Comes(7, 10) by { Path(7, 10, 38, 14, 14, 14); }
    assert Comes(8, 2) by { Path(8, 2, 6, 6, 6, 6); }
  }

  lemma InitialRow1(b: seq<bv8>)
    requires |b| == 8
    ensures Row(Swapped(InitialPermutation(Load(b))), b, 1, [58, 50, 42, 34, 26, 18, 10, 2])
  {
    hide *;
    Places1();
    Took(b, 1, 58);
    Took(b, 2, 50);
    Took(b, 3, 42);
    Took(b, 4, 34);
    Took(b, 5, 26);
    Took(b, 6, 18);
    Took(b, 7, 10);
    Took(b, 8, 2);
    RowOf(Swapped(InitialPermutation(Load(b))), b, 1, 58, 50, 42, 34, 26, 18, 10, 2);
  }

  lemma Places2()
    ensures Comes(9, 60) && Comes(10, 52)
    ensures Comes(11, 44) && Comes(12, 36)
    ensures Comes(13, 28) && Comes(14, 20)
    ensures Comes(15, 12) && Comes(16, 4)
  {
    hide Comes;
    assert Comes(9, 60) by { Path(9, 60, 40, 40, 40, 24); }
    assert Comes(10, 52) by { Path(10, 52, 8, 32, 32, 16); }
    assert Comes(11, 44) by { Path(11, 44, 42, 42, 8, 8); }
    assert Comes(12, 36) by { Path(12, 36, 10, 34, 0, 0); }
    assert Comes(13, 28) by { Path(13, 28, 44, 44, 44, 28); }
    assert Comes(14, 20) by { Path(14, 20, 12, 36, 36, 20); }
    assert Comes(15, 12) by { Path(15, 12, 46, 46, 12, 12); }
    assert Comes(16, 4) by { Path(16, 4, 14, 38, 4, 4); }
  }

  lemma InitialRow2(b: seq<bv8>)
    requires |b| == 8
    ensures Row(Swapped(InitialPermutation(Load(b))), b, 9, [60, 52, 44, 36, 28, 20, 12, 4])
  {
    hide *;
    Places2();
    Took(b, 9, 60);
    Took(b, 10, 52);
    Took(b, 11, 44);
    Took(b, 12, 36);
    Took(b, 13, 28);
    Took(b, 14, 20);
    Took(b, 15, 12);
    Took(b, 16, 4);
    RowOf(Swapped(InitialPermutation(Load(b))), b, 9, 60, 52, 44, 36, 28, 20, 12, 4);
  }

  lemma Places3()
    ensures Comes(17, 62) && Comes(18, 54)
    ensures Comes(19, 46) && Comes(20, 38)
    ensures Comes(21, 30) && Comes(22, 22)
    ensures Comes(23, 14) && Comes(24, 6)
  {
    hide Comes;
    assert Comes(17, 62) by { Path(17, 62, 48, 24, 58, 58); }
    assert Comes(18, 54) by { Path(18, 54, 16, 16, 50, 50); }
    assert Comes(19, 46) by { Path(19, 46, 50, 26, 26, 42); }
    assert Comes(20, 38) by { Path(20, 38, 18, 18, 18, 34); }
    assert Comes(21, 30) by { Path(21, 30, 52, 28, 62, 62); }
    assert Comes(22, 22) by { Path(22, 22, 20, 20, 54, 54); }
    assert Comes(23, 14) by { Path(23, 14, 54, 30, 30, 46); }
    assert Comes(24, 6) by { Path(24, 6, 22, 22, 22, 38); }
  }

  lemma InitialRow3(b: seq<bv8>)
    requires |b| == 8
    ensures Row(Swapped(InitialPermutation(Load(b))), b, 17, [62, 54, 46, 38, 30, 22, 14, 6])
  {
    hide *;
    Places3();
    Took(b, 17, 62);
    Took(b, 18, 54);
    Took(b, 19, 46);
    Took(b, 20, 38);
    Took(b, 21, 30);
    Took(b, 22, 22);
    Took(b, 23, 14);
    Took(b, 24, 6);
    RowOf(Swapped(InitialPermutation(Load(b))), b, 17, 62, 54, 46, 38, 30, 22, 14, 6);
  }

  lemma Places4()
    ensures Comes(25, 64) && Comes(26, 56)
    ensures Comes(27, 48) && Comes(28, 40)
    ensures Comes(29, 32) && Comes(30, 24)
    ensures Comes(31, 16) && Comes(32, 8)
  {
    hide Comes;
    assert Comes(25, 64) by { Path(25, 64, 56, 56, 56, 56); }
    assert Comes(26, 56) by { Path(26, 56, 24, 48, 48, 48); }
    assert Comes(27, 48) by { Path(27, 48, 58, 58, 24, 40); }
    assert Comes(28, 40) by { Path(28, 40, 26, 50, 16, 32); }
    assert Comes(29, 32) by { Path(29, 32, 60, 60, 60, 60); }
    assert Comes(30, 24) by { Path(30, 24, 28, 52, 52, 52); }
    assert Comes(31, 16) by { Path(31, 16, 62, 62, 28, 44); }
    assert Comes(32, 8) by { Path(32, 8, 30, 54, 20, 36); }
  }

  lemma InitialRow4(b: seq<bv8>)
    requires |b| == 8
    ensures Row(Swapped(InitialPermutation(Load(b))), b, 25, [64, 56, 48, 40, 32, 24, 16, 8])
  {
    hide *;
    Places4();
    Took(b, 25, 64);
    Took(b, 26, 56);
    Took(b, 27, 48);
    Took(b, 28, 40);
    Took(b, 29, 32);
    Took(b, 30, 24);
    Took(b, 31, 16);
    Took(b, 32, 8);
    RowOf(Swapped(InitialPermutation(Load(b))), b, 25, 64, 56, 48, 40, 32, 24, 16, 8);
  }

  lemma Places5()
    ensures Comes(33, 57) && Comes(34, 49)
    ensures Comes(35, 41) && Comes(36, 33)
    ensures Comes(37, 25) && Comes(38, 17)
    ensures Comes(39, 9) && Comes(40, 1)
  {
    hide Comes;
    assert Comes(33, 57) by { Path(33, 57, 33, 9, 43, 27); }
    assert Comes(34, 49) by { Path(34, 49, 1, 1, 35, 19); }
    assert Comes(35, 41) by { Path(35, 41, 35, 11, 11, 11); }
    assert Comes(36, 33) by { Path(36, 33, 3, 3, 3, 3); }
    assert Comes(37, 25) by { Path(37, 25, 37, 13, 47, 31); }
    assert Comes(38, 17) by { Path(38, 17, 5, 5, 39, 23); }
    assert Comes(39, 9) by { Path(39, 9, 39, 15, 15, 15); }
    assert Comes(40, 1) by { Path(40, 1, 7, 7, 7, 7); }
  }

  lemma InitialRow5(b: seq<bv8>)
    requires |b| == 8
    ensures Row(Swapped(InitialPermutation(Load(b))), b, 33, [57, 49, 41, 33, 25, 17, 9, 1])
  {
    hide *;
    Places5();
    Took(b, 33, 57);
    Took(b, 34, 49);
    Took(b, 35, 41);
    Took(b, 36, 33);
    Took(b, 37, 25);
    Took(b, 38, 17);
    Took(b, 39, 9);
    Took(b, 40, 1);
    RowOf(Swapped(InitialPermutation(Load(b))), b, 33, 57, 49, 41, 33, 25, 17, 9, 1);
  }

  lemma Places6()
    ensures Comes(41, 59) && Comes(42, 51)
    ensures Comes(43, 43) && Comes(44, 35)
    ensures Comes(45, 27) && Comes(46, 19)
    ensures Comes(47, 11) && Comes(48, 3)
  {
    hide Comes;
    assert Comes(41, 59) by { Path(41, 59, 41, 41, 41, 25); }
    assert Comes(42, 51) by { Path(42, 51, 9, 33, 33, 17); }
    assert Comes(43, 43) by { Path(43, 43, 43, 43, 9, 9); }
    assert Comes(44, 35) by { Path(44, 35, 11, 35, 1, 1); }
    assert Comes(45, 27) by { Path(45, 27, 45, 45, 45, 29); }
    assert Comes(46, 19) by { Path(46, 19, 13, 37, 37, 21); }
    assert Comes(47, 11) by { Path(47, 11, 47, 47, 13, 13); }
    assert Comes(48, 3) by { Path(48, 3, 15, 39, 5, 5); }
  }

  lemma InitialRow6(b: seq<bv8>)
    requires |b| == 8
    ensures Row(Swapped(InitialPermutation(Load(b))), b, 41, [59, 51, 43, 35, 27, 19, 11, 3])
  {
    hide *;
    Places6();
    Took(b, 41, 59);
    Took(b, 42, 51);
    Took(b, 43, 43);
    Took(b, 44, 35);
    Took(b, 45, 27);
    Took(b, 46, 19);
    Took(b, 47, 11);
    Took(b, 48, 3);
    RowOf(Swapped(InitialPermutation(Load(b))), b, 41, 59, 51, 43, 35, 27, 19, 11, 3);
  }

  lemma Places7()
    ensures Comes(49, 61) && Comes(50, 53)
    ensures Comes(51, 45) && Comes(52, 37)
    ensures Comes(53, 29) && Comes(54, 21)
    ensures Comes(55, 13) && Comes(56, 5)
  {
    hide Comes;
    assert Comes(49, 61) by { Path(49, 61, 49, 25, 59, 59); }
    assert Comes(50, 53) by { Path(50, 53, 17, 17, 51, 51); }
    assert Comes(51, 45) by { Path(51, 45, 51, 27, 27, 43); }
    assert Comes(52, 37) by { Path(52, 37, 19, 19, 19, 35); }
    assert Comes(53, 29) by { Path(53, 29, 53, 29, 63, 63); }
    assert Comes(54, 21) by { Path(54, 21, 21, 21, 55, 55); }
    assert Comes(55, 13) by { Path(55, 13, 55, 31, 31, 47); }
    assert Comes(56, 5) by { Path(56, 5, 23, 23, 23, 39); }
  }

  lemma InitialRow7(b: seq<bv8>)
    requires |b| == 8
    ensures Row(Swapped(InitialPermutation(Load(b))), b, 49, [61, 53, 45, 37, 29, 21, 13, 5])
  {
    hide *;
    Places7();
    Took(b, 49, 61);
    Took(b, 50, 53);
    Took(b, 51, 45);
    Took(b, 52, 37);
    Took(b, 53, 29);
    Took(b, 54, 21);
    Took(b, 55, 13);
    Took(b, 56, 5);
    RowOf(Swapped(InitialPermutation(Load(b))), b, 49, 61, 53, 45, 37, 29, 21, 13, 5);
  }

  lemma Places8()
    ensures Comes(57, 63) && Comes(58, 55)
    ensures Comes(59, 47) && Comes(60, 39)
    ensures Comes(61, 31) && Comes(62, 23)
    ensures Comes(63, 15) && Comes(64, 7)
  {
    hide Comes;
    assert Comes(57, 63) by { Path(57, 63, 57, 57, 57, 57); }
    assert Comes(58, 55) by { Path(58, 55, 25, 49, 49, 49); }
    assert Comes(59, 47) by { Path(59, 47, 59, 59, 25, 41); }
    assert Comes(60, 39) by { Path(60, 39, 27, 51, 17, 33); }
    assert Comes(61, 31) by { Path(61, 31, 61, 61, 61, 61); }
    assert Comes(62, 23) by { Path(62, 23, 29, 53, 53, 53); }
    assert Comes(63, 15) by { Path(63, 15, 63, 63, 29, 45); }
    assert Comes(64, 7) by { Path(64, 7, 31, 55, 21, 37); }
  }

  lemma InitialRow8(b: seq<bv8>)
    requires |b| == 8
    ensures Row(Swapped(InitialPermutation(Load(b))), b, 57, [63, 55, 47, 39, 31, 23, 15, 7])
  {
    hide *;
    Places8();
    Took(b, 57, 63);
    Took(b, 58, 55);
    Took(b, 59, 47);
    Took(b, 60, 39);
    Took(b, 61, 31);
    Took(b, 62, 23);
    Took(b, 63, 15);
    Took(b, 64, 7);
    RowOf(Swapped(InitialPermutation(Load(b))), b, 57, 63, 55, 47, 39, 31, 23, 15, 7);
  }

  /** The halves that enter the rounds hold the bits of the block that the table IP of FIPS PUB 46 names. */
  lemma InitialBits(b: seq<bv8>)
    requires |b| == 8
    ensures var h := Swapped(InitialPermutation(Load(b)));
            && Row(h, b, 1, [58, 50, 42, 34, 26, 18, 10, 2])
            && Row(h, b, 9, [60, 52, 44, 36, 28, 20, 12, 4])
            && Row(h, b, 17, [62, 54, 46, 38, 30, 22, 14, 6])
            && Row(h, b, 25, [64, 56, 48, 40, 32, 24, 16, 8])
            && Row(h, b, 33, [57, 49, 41, 33, 25, 17, 9, 1])
            && Row(h, b, 41, [59, 51, 43, 35, 27, 19, 11, 3])
            && Row(h, b, 49, [61, 53, 45, 37, 29, 21, 13, 5])
            && Row(h, b, 57, [63, 55, 47, 39, 31, 23, 15, 7])
  {
    hide *;
    InitialRow1(b);
    InitialRow2(b);
    InitialRow3(b);
    InitialRow4(b);
    InitialRow5(b);
    InitialRow6(b);
    InitialRow7(b);
    InitialRow8(b);
  }

  /** Bit n of the halves that leave the rounds becomes the output bit that the table names: the inverse of IP. */
  lemma FinalBits(h: Halves)
    ensures var b := Store(FinalPermutation(h));
            && Row(Swapped(h), b, 1, [58, 50, 42, 34, 26, 18, 10, 2])
            && Row(Swapped(h), b, 9, [60, 52, 44, 36, 28, 20, 12, 4])
            && Row(Swapped(h), b, 17, [62, 54, 46, 38, 30, 22, 14, 6])
            && Row(Swapped(h), b, 25, [64, 56, 48, 40, 32, 24, 16, 8])
            && Row(Swapped(h), b, 33, [57, 49, 41, 33, 25, 17, 9, 1])
            && Row(Swapped(h), b, 41, [59, 51, 43, 35, 27, 19, 11, 3])
            && Row(Swapped(h), b, 49, [61, 53, 45, 37, 29, 21, 13, 5])
            && Row(Swapped(h), b, 57, [63, 55, 47, 39, 31, 23, 15, 7])
  {
    hide *;
    LoadStore(FinalPermutation(h));
    PermutationsInverse(h);
    StoreSize(FinalPermutation(h));
    InitialBits(Store(FinalPermutation(h)));
  }

  lemma StoreSize(h: Halves)
    ensures |Store(h)| == 8
  {
  }

  // ----- A round -----

  /**
    x is what box j looks up: the bits 4 j - 1 to 4 j + 4 of the half, around the word,
    each of them exclusive-or its bit of the schedule.
   */
  ghost predicate Enters(x: bv32, r: bv32, k0: bv32, k1: bv32, j: nat) {
    && x < 64
    && forall i :: 0 <= i < 6 ==>
         Bit(x, i) == (Bit(r, (4 * j + 31 + i) % 32) != Bit(if j % 2 == 0 then k0 else k1, (4 * j + i) % 32))
  }

  lemma XorBit(a: bv32, b: bv32, p: nat)
    requires p < 32
    ensures Bit(Xor(a, b), p) == (Bit(a, p) != Bit(b, p))
  {
    hide At, Xor, Mask, Single;
    MaskSingle(p);
    BitXor(a, b, Mask(p));
  }

  lemma OrBit(a: bv32, b: bv32, p: nat)
    requires p < 32
    ensures Bit(Or(a, b), p) == (Bit(a, p) || Bit(b, p))
  {
    hide At, Or, Mask, Single;
    MaskSingle(p);
    BitOr(a, b, Mask(p));
  }

  lemma BitOr(a: bv32, b: bv32, m: bv32)
    requires Single(m)
    ensures At(Or(a, b), m) == (At(a, m) || At(b, m))
  {
    OneBit(a, b, m);
  }

  lemma RawTurnUp(a: bv32, m: bv32)
    ensures ((a << 1) | (a >> 31)) & m != 0 <==> a & ((m >> 1) | (m << 31)) != 0
  {
  }

  lemma RawTurnDown(a: bv32, m: bv32)
    ensures ((a >> 4) | (a << 28)) & m != 0 <==> a & ((m << 4) | (m >> 28)) != 0
  {
  }

  lemma MaskTurnsUp(p: nat)
    requires p < 32
    ensures (Mask(p) >> 1) | (Mask(p) << 31) == Mask((p + 31) % 32)
  {
    if p < 8 {
    } else if p < 16 {
    } else if p < 24 {
    }
  }

  lemma MaskTurnsDown(p: nat)
    requires p < 32
    ensures (Mask(p) << 4) | (Mask(p) >> 28) == Mask((p + 4) % 32)
  {
    if p < 8 {
    } else if p < 16 {
    } else if p < 24 {
    }
  }

  lemma AtTurnUp(a: bv32, m: bv32, m': bv32)
    requires (m >> 1) | (m << 31) == m'
    ensures At(TurnUp(a), m) == At(a, m')
  {
    RawTurnUp(a, m);
  }

  lemma AtTurnDown(a: bv32, m: bv32, m': bv32)
    requires (m << 4) | (m >> 28) == m'
    ensures At(TurnDown(a), m) == At(a, m')
  {
    RawTurnDown(a, m);
  }

  lemma TurnUpBit(a: bv32, p: nat)
    requires p < 32
    ensures Bit(TurnUp(a), p) == Bit(a, (p + 31) % 32)
  {
    hide At, Mask, TurnUp;
    MaskTurnsUp(p);
    AtTurnUp(a, Mask(p), Mask((p + 31) % 32));
  }

  lemma TurnDownBit(a: bv32, p: nat)
    requires p < 32
    ensures Bit(TurnDown(a), p) == Bit(a, (p + 4) % 32)
  {
    hide At, Mask, TurnDown;
    MaskTurnsDown(p);
    AtTurnDown(a, Mask(p), Mask((p + 4) % 32));
  }

  lemma SixBit(w: bv32, q: nat, i: nat)
    requires q < 4 && i < 6
    ensures Bit(Six(w, q), i) == Bit(w, 8 * q + i)
  {
    ByteOfMask(i);
    SixMask(i);
    hide Mask, ByteMask;
    SixAt(w, ByteMask(i));
  }

  lemma SixMask(i: nat)
    requires i < 6
    ensures ByteMask(i) < 0x40
  {
  }

  lemma SixAt(w: bv32, m: bv32)
    requires m < 0x40
    ensures At(w & 0x3f, m) == At(w, m) && At((w >> 8) & 0x3f, m) == At(w, m << 8)
    ensures At((w >> 16) & 0x3f, m) == At(w, m << 16) && At((w >> 24) & 0x3f, m) == At(w, m << 24)
  {
  }

  lemma SixSmall(w: bv32, q: nat)
    requires q < 4
    ensures Six(w, q) < 64
  {
  }

  /** What box j looks up in a round. */
  function Looked(r: bv32, k0: bv32, k1: bv32, j: nat): bv32
    requires j < 8
  {
    Six(if j % 2 == 0 then Xor(TurnUp(r), k0) else TurnDown(Xor(TurnUp(r), k1)), j / 2)
  }

  lemma LookedEnters(r: bv32, k0: bv32, k1: bv32, j: nat)
    requires j < 8
    ensures Enters(Looked(r, k0, k1, j), r, k0, k1, j)
  {
    hide Bit, Xor, TurnUp, TurnDown, Six;
    var e := TurnUp(r);
    SixSmall(if j % 2 == 0 then Xor(e, k0) else TurnDown(Xor(e, k1)), j / 2);
    forall i | 0 <= i < 6
      ensures Bit(Looked(r, k0, k1, j), i)
           == (Bit(r, (4 * j + 31 + i) % 32) != Bit(if j % 2 == 0 then k0 else k1, (4 * j + i) % 32))
    {
      NextPlace(j, i);
      if j % 2 == 0 {
        EvenBit(r, k0, j, j / 2, i, (4 * j + i) % 32, (4 * j + 31 + i) % 32);
      } else {
        OddBit(r, k1, j, j / 2, i, (4 * j + i) % 32, (4 * j + 31 + i) % 32);
      }
    }
  }

  lemma NextPlace(j: nat, i: nat)
    requires j < 8 && i < 6
    ensures (4 * j + 31 + i) % 32 == ((4 * j + i) % 32 + 31) % 32
    ensures j % 2 == 0 ==> j == 2 * (j / 2) && (4 * j + i) % 32 == 4 * j + i
    ensures j % 2 == 1 ==> j == 2 * (j / 2) + 1
  {
  }

  lemma EvenBit(r: bv32, k: bv32, j: nat, q: nat, i: nat, p: nat, s: nat)
    requires j < 8 && j == 2 * q && i < 6 && p == 4 * j + i && s == (p + 31) % 32
    ensures Bit(Six(Xor(TurnUp(r), k), q), i) == (Bit(r, s) != Bit(k, p))
  {
    hide Bit, Xor, TurnUp, Six;
    TurnUpBit(r, p);
    SixBit(Xor(TurnUp(r), k), q, i);
    XorBit(TurnUp(r), k, p);
  }

  lemma OddBit(r: bv32, k: bv32, j: nat, q: nat, i: nat, p: nat, s: nat)
    requires j < 8 && j == 2 * q + 1 && i < 6 && p == (4 * j + i) % 32 && s == (p + 31) % 32
    ensures Bit(Six(TurnDown(Xor(TurnUp(r), k)), q), i) == (Bit(r, s) != Bit(k, p))
  {
    hide Bit, Xor, TurnUp, TurnDown, Six;
    TurnUpBit(r, p);
    SixBit(TurnDown(Xor(TurnUp(r), k)), q, i);
    TurnDownBit(Xor(TurnUp(r), k), 8 * q + i);
    XorBit(TurnUp(r), k, p);
  }

  /** The changed half of a round. */
  ghost predicate RoundDone(sp: SBoxes, l: bv32, r: bv32, k0: bv32, k1: bv32, l': bv32) {
    exists x: seq<bv32> ::
      && |x| == 8 && (forall j :: 0 <= j < 8 ==> Enters(x[j], r, k0, k1, j))
      && forall p :: 0 <= p < 32 ==> Bit(l', p) == (Bit(l, p) != AnyBox(sp, x, p))
  }

  /** Bit p of the eight boxes' outputs, or-ed. */
  ghost predicate AnyBox(sp: SBoxes, x: seq<bv32>, p: nat)
    requires |x| == 8 && p < 32
  {
    exists j :: 0 <= j < 8 && Bit(sp(j, x[j]), p)
  }

  lemma RoundBit(sp: SBoxes, r: bv32, k0: bv32, k1: bv32, x: seq<bv32>, p: nat)
    requires |x| == 8 && p < 32 && forall j :: 0 <= j < 8 ==> x[j] == Looked(r, k0, k1, j)
    ensures Bit(Round(sp, r, k0, k1), p) == AnyBox(sp, x, p)
  {
    hide Bit, Or, Xor, TurnUp, TurnDown, Six;
    var a0, a1, a2, a3 := sp(0, x[0]), sp(1, x[1]), sp(2, x[2]), sp(3, x[3]);
    var a4, a5, a6, a7 := sp(4, x[4]), sp(5, x[5]), sp(6, x[6]), sp(7, x[7]);
    OrBit(a1, a3, p);
    OrBit(a5, a7, p);
    OrBit(Or(a1, a3), Or(a5, a7), p);
    OrBit(a0, a2, p);
    OrBit(a4, a6, p);
    OrBit(Or(a0, a2), Or(a4, a6), p);
    OrBit(Or(Or(a1, a3), Or(a5, a7)), Or(Or(a0, a2), Or(a4, a6)), p);
  }

  /**
    D_ENCRYPT, bit by bit: box j looks up six bits of the other half, each exclusive-or a
    bit of the schedule, and the changed half is exclusive-or-ed with what the boxes give.
   */
  lemma RoundBits(sp: SBoxes, l: bv32, r: bv32, k0: bv32, k1: bv32)
    ensures RoundDone(sp, l, r, k0, k1, Xor(l, Round(sp, r, k0, k1)))
  {
    hide Bit, Xor, Round, Enters, Looked, AnyBox;
    var x := seq(8, j requires 0 <= j < 8 => Looked(r, k0, k1, j));
    forall j | 0 <= j < 8
      ensures Enters(x[j], r, k0, k1, j)
    {
      LookedEnters(r, k0, k1, j);
    }
    forall p | 0 <= p < 32
      ensures Bit(Xor(l, Round(sp, r, k0, k1)), p) == (Bit(l, p) != AnyBox(sp, x, p))
    {
      XorBit(l, Round(sp, r, k0, k1), p);
      RoundBit(sp, r, k0, k1, x, p);
    }
  }

  // ----- All rounds -----

  /** Word n + 2 is made of the two before it and the words s and s + 1 of the schedule. */
  ghost predicate Link(sp: SBoxes, ks: seq<bv32>, w: seq<bv32>, n: nat, s: int)
    requires n + 2 < |w|
  {
    0 <= s && s + 1 < |ks| && RoundDone(sp, w[n], w[n + 1], ks[s], ks[s + 1], w[n + 2])
  }

  /** Each word from the third on is made of the two before it and two words of the schedule. */
  ghost predicate Linked(sp: SBoxes, ks: seq<bv32>, w: seq<bv32>, start: int, step: int) {
    forall n :: 0 <= n < |w| - 2 ==> Link(sp, ks, w, n, start + step * n)
  }

  /** The half blocks of the loop that takes the schedule forward. */
  ghost function ForwardWords(sp: SBoxes, ks: seq<bv32>, h: Halves, i: nat): (w: seq<bv32>)
    requires |ks| == SCHEDULE && i % 4 == 0 && i <= SCHEDULE
    ensures |w| == 2 + (SCHEDULE - i) / 2 && w[0] == h.l && w[1] == h.r
    decreases SCHEDULE - i
  {
    if i == SCHEDULE then [h.l, h.r]
    else [h.l, h.r] + ForwardWords(sp, ks, OnRight(sp, ks, OnLeft(sp, ks, h, i), i + 2), i + 4)
  }

  ghost function BackwardWords(sp: SBoxes, ks: seq<bv32>, h: Halves, i: int): (w: seq<bv32>)
    requires |ks| == SCHEDULE && i % 4 == 0 && -4 <= i < SCHEDULE
    ensures |w| == 2 + (i + 4) / 2 && w[0] == h.l && w[1] == h.r
    decreases i + 4
  {
    if i == -4 then [h.l, h.r]
    else [h.l, h.r] + BackwardWords(sp, ks, OnRight(sp, ks, OnLeft(sp, ks, h, i + 2), i), i - 4)
  }

  /** Two more rounds in front. */
  lemma LinkedMore(sp: SBoxes, ks: seq<bv32>, l: bv32, r: bv32, w: seq<bv32>, start: int, step: int)
    requires |w| >= 2 && Linked(sp, ks, w, start + 2 * step, step)
    requires 0 <= start && start + 1 < |ks| && 0 <= start + step && start + step + 1 < |ks|
    requires RoundDone(sp, l, r, ks[start], ks[start + 1], w[0])
    requires RoundDone(sp, r, w[0], ks[start + step], ks[start + step + 1], w[1])
    ensures Linked(sp, ks, [l, r] + w, start, step)
  {
    hide RoundDone;
    var v := [l, r] + w;
    forall n: nat | n < |v| - 2
      ensures Link(sp, ks, v, n, start + step * n)
    {
      if n >= 2 {
        assert start + 2 * step + step * (n - 2) == start + step * n;
        assert Link(sp, ks, w, n - 2, start + 2 * step + step * (n - 2));
      } else if n == 1 {
        assert start + step * n == start + step;
      }
    }
  }

  lemma ForwardNext(sp: SBoxes, ks: seq<bv32>, h: Halves, i: nat)
    requires |ks| == SCHEDULE && i % 4 == 0 && i < SCHEDULE && (i + 4) % 4 == 0 && i + 4 <= SCHEDULE
    ensures Forward(sp, ks, h, i) == Forward(sp, ks, OnRight(sp, ks, OnLeft(sp, ks, h, i), i + 2), i + 4)
  {
    hide OnLeft, OnRight;
  }

  lemma ForwardWordsNext(sp: SBoxes, ks: seq<bv32>, h: Halves, i: nat)
    requires |ks| == SCHEDULE && i % 4 == 0 && i < SCHEDULE && (i + 4) % 4 == 0 && i + 4 <= SCHEDULE
    ensures ForwardWords(sp, ks, h, i)
         == [h.l, h.r] + ForwardWords(sp, ks, OnRight(sp, ks, OnLeft(sp, ks, h, i), i + 2), i + 4)
  {
    hide OnLeft, OnRight;
  }

  lemma BackwardNext(sp: SBoxes, ks: seq<bv32>, h: Halves, i: int)
    requires |ks| == SCHEDULE && i % 4 == 0 && -4 < i < SCHEDULE
    ensures Backward(sp, ks, h, i) == Backward(sp, ks, OnRight(sp, ks, OnLeft(sp, ks, h, i + 2), i), i - 4)
  {
    hide OnLeft, OnRight;
  }

  lemma BackwardWordsNext(sp: SBoxes, ks: seq<bv32>, h: Halves, i: int)
    requires |ks| == SCHEDULE && i % 4 == 0 && -4 < i < SCHEDULE
    ensures BackwardWords(sp, ks, h, i)
         == [h.l, h.r] + BackwardWords(sp, ks, OnRight(sp, ks, OnLeft(sp, ks, h, i + 2), i), i - 4)
  {
    hide OnLeft, OnRight;
  }

  lemma RoundsEnd(sp: SBoxes, ks: seq<bv32>, h: Halves)
    requires |ks| == SCHEDULE
    ensures Forward(sp, ks, h, SCHEDULE) == h && ForwardWords(sp, ks, h, SCHEDULE) == [h.l, h.r]
    ensures Backward(sp, ks, h, -4) == h && BackwardWords(sp, ks, h, -4) == [h.l, h.r]
  {
  }

  lemma LastTwo(h: Halves, v: seq<bv32>)
    requires |v| >= 2
    ensures var w := [h.l, h.r] + v; w[|w| - 2] == v[|v| - 2] && w[|w| - 1] == v[|v| - 1]
  {
  }

  lemma TwoRounds(sp: SBoxes, ks: seq<bv32>, h: Halves, s: nat, t: nat)
    requires s + 1 < |ks| && t + 1 < |ks|
    ensures var f := OnRight(sp, ks, OnLeft(sp, ks, h, s), t);
            && RoundDone(sp, h.l, h.r, ks[s], ks[s + 1], f.l) && RoundDone(sp, h.r, f.l, ks[t], ks[t + 1], f.r)
  {
    hide RoundDone, Xor, Round;
    var g := OnLeft(sp, ks, h, s);
    RoundBits(sp, h.l, h.r, ks[s], ks[s + 1]);
    RoundBits(sp, g.r, g.l, ks[t], ks[t + 1]);
  }

  lemma {:induction false} ForwardLinked(sp: SBoxes, ks: seq<bv32>, h: Halves, i: nat)
    requires |ks| == SCHEDULE && i % 4 == 0 && i <= SCHEDULE
    ensures var w := ForwardWords(sp, ks, h, i);
            Linked(sp, ks, w, i, 2) && Forward(sp, ks, h, i) == Halves(w[|w| - 2], w[|w| - 1])
    decreases SCHEDULE - i
  {
    hide RoundDone, OnLeft, OnRight, Linked, Forward, ForwardWords;
    if i < SCHEDULE {
      ForwardNext(sp, ks, h, i);
      ForwardWordsNext(sp, ks, h, i);
      var f := OnRight(sp, ks, OnLeft(sp, ks, h, i), i + 2);
      ForwardLinked(sp, ks, f, i + 4);
      TwoRounds(sp, ks, h, i, i + 2);
      LinkedMore(sp, ks, h.l, h.r, ForwardWords(sp, ks, f, i + 4), i, 2);
      LastTwo(h, ForwardWords(sp, ks, f, i + 4));
    } else {
      RoundsEnd(sp, ks, h);
      LinkedNone(sp, ks, h, i, 2);
    }
  }

  lemma LinkedNone(sp: SBoxes, ks: seq<bv32>, h: Halves, start: int, step: int)
    ensures Linked(sp, ks, [h.l, h.r], start, step)
  {
  }

  lemma {:induction false} BackwardLinked(sp: SBoxes, ks: seq<bv32>, h: Halves, i: int)
    requires |ks| == SCHEDULE && i % 4 == 0 && -4 <= i < SCHEDULE
    ensures var w := BackwardWords(sp, ks, h, i);
            Linked(sp, ks, w, i + 2, -2) && Backward(sp, ks, h, i) == Halves(w[|w| - 2], w[|w| - 1])
    decreases i + 4
  {
    hide RoundDone, OnLeft, OnRight, Linked, Backward, BackwardWords;
    if i > -4 {
      BackwardNext(sp, ks, h, i);
      BackwardWordsNext(sp, ks, h, i);
      var f := OnRight(sp, ks, OnLeft(sp, ks, h, i + 2), i);
      BackwardLinked(sp, ks, f, i - 4);
      TwoRounds(sp, ks, h, i + 2, i);
      LinkedMore(sp, ks, h.l, h.r, BackwardWords(sp, ks, f, i - 4), i + 2, -2);
      LastTwo(h, BackwardWords(sp, ks, f, i - 4));
    } else {
      RoundsEnd(sp, ks, h);
      LinkedNone(sp, ks, h, i + 2, -2);
    }
  }

  // ----- The cipher -----

  /** Bit n of the halves is the bit of the block that the table IP of FIPS PUB 46 names. */
  ghost predicate ByTable(h: Halves, b: seq<bv8>)
    requires |b| == 8
  {
    && Row(h, b, 1, [58, 50, 42, 34, 26, 18, 10, 2])
    && Row(h, b, 9, [60, 52, 44, 36, 28, 20, 12, 4])
    && Row(h, b, 17, [62, 54, 46, 38, 30, 22, 14, 6])
    && Row(h, b, 25, [64, 56, 48, 40, 32, 24, 16, 8])
    && Row(h, b, 33, [57, 49, 41, 33, 25, 17, 9, 1])
    && Row(h, b, 41, [59, 51, 43, 35, 27, 19, 11, 3])
    && Row(h, b, 49, [61, 53, 45, 37, 29, 21, 13, 5])
    && Row(h, b, 57, [63, 55, 47, 39, 31, 23, 15, 7])
  }

  /**
    The cipher of FIPS PUB 46 between blocks b and c: w holds the left half, the right half
    and what each of the sixteen rounds makes; the last two are exchanged.  Deciphering
    takes the schedule backward.
   */
  ghost predicate Enciphers(sp: SBoxes, ks: seq<bv32>, b: seq<bv8>, c: seq<bv8>, encrypt: bool, w: seq<bv32>)
    requires |b| == |c| == 8
  {
    && |w| == 18 && ByTable(Halves(w[0], w[1]), b) && ByTable(Halves(w[17], w[16]), c)
    && (if encrypt then Linked(sp, ks, w, 0, 2) else Linked(sp, ks, w, 30, -2))
  }

  /** What _XdmcpAuthDoIt computes, bit by bit. */
  lemma DoItEnciphers(sp: SBoxes, ks: seq<bv32>, b: seq<bv8>, encrypt: bool) returns (w: seq<bv32>)
    requires |ks| == SCHEDULE && |b| == 8
    ensures Enciphers(sp, ks, b, DoIt(sp, ks, b, encrypt), encrypt, w)
  {
    hide Row, InitialPermutation, FinalPermutation, Load, Store, Linked, Forward, Backward, ForwardWords, BackwardWords;
    var h := Swapped(InitialPermutation(Load(b)));
    InitialBits(b);
    if encrypt {
      ForwardLinked(sp, ks, h, 0);
      w := ForwardWords(sp, ks, h, 0);
      FinalBits(Forward(sp, ks, h, 0));
    } else {
      BackwardLinked(sp, ks, h, SCHEDULE - 4);
      w := BackwardWords(sp, ks, h, SCHEDULE - 4);
      FinalBits(Backward(sp, ks, h, SCHEDULE - 4));
    }
  }
}
