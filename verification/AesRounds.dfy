/**
 The rounds of aes.c on the four columns of the state, each column a 32-bit word whose top byte is
 row 0: the transformations of FIPS 197, their inverses, and the table form the code uses.

 Exclusive or has a name of its own so that proofs can treat it as a symbol and use its laws one
 at a time.
 */
module AesRounds {

  // ---------------------------------------------------------------- exclusive or

  function Xor(a: bv8, b: bv8): bv8 { a ^ b }

  function Xor3(a: bv8, b: bv8, c: bv8): bv8 { Xor(Xor(a, b), c) }

  function Xor4(a: bv8, b: bv8, c: bv8, d: bv8): bv8 { Xor(Xor3(a, b, c), d) }

  lemma XorLaws(a: bv8, b: bv8, c: bv8)
    ensures Xor(a, b) == Xor(b, a)
    ensures Xor(Xor(a, b), c) == Xor(a, Xor(b, c))
  {
  }

  lemma Zip2(a: bv8, b: bv8, c: bv8, d: bv8)
    ensures Xor(Xor(a, b), Xor(c, d)) == Xor(Xor(a, c), Xor(b, d))
  {
    hide Xor;
    XorLaws(a, b, Xor(c, d));
    XorLaws(b, c, d);
    XorLaws(c, b, d);
    XorLaws(a, c, Xor(b, d));
  }

  lemma Zip3(a: bv8, b: bv8, c: bv8, d: bv8, e: bv8, f: bv8)
    ensures Xor(Xor3(a, b, c), Xor3(d, e, f)) == Xor3(Xor(a, d), Xor(b, e), Xor(c, f))
  {
    hide Xor;
    Zip2(Xor(a, b), c, Xor(d, e), f);
    Zip2(a, b, d, e);
  }

  lemma Zip4(a: bv8, b: bv8, c: bv8, d: bv8, e: bv8, f: bv8, g: bv8, h: bv8)
    ensures Xor(Xor4(a, b, c, d), Xor4(e, f, g, h)) == Xor4(Xor(a, e), Xor(b, f), Xor(c, g), Xor(d, h))
  {
    hide Xor, Xor3;
    Zip2(Xor3(a, b, c), d, Xor3(e, f, g), h);
    Zip3(a, b, c, e, f, g);
  }

  lemma Rotate(a: bv8, b: bv8, c: bv8, d: bv8)
    ensures Xor4(a, b, c, d) == Xor4(b, c, d, a)
  {
    hide Xor;
    XorLaws(a, b, c);
    XorLaws(a, Xor(b, c), d);
    XorLaws(a, Xor(Xor(b, c), d), d);
  }

  /** A four by four sum, by rows or by columns. */
  lemma SumColumns(a0: bv8, a1: bv8, a2: bv8, a3: bv8, b0: bv8, b1: bv8, b2: bv8, b3: bv8,
                   c0: bv8, c1: bv8, c2: bv8, c3: bv8, d0: bv8, d1: bv8, d2: bv8, d3: bv8)
    ensures Xor4(Xor4(a0, a1, a2, a3), Xor4(b0, b1, b2, b3), Xor4(c0, c1, c2, c3), Xor4(d0, d1, d2, d3)) ==
            Xor4(Xor4(a0, b0, c0, d0), Xor4(a1, b1, c1, d1), Xor4(a2, b2, c2, d2), Xor4(a3, b3, c3, d3))
  {
    hide *;
    Zip4(a0, a1, a2, a3, b0, b1, b2, b3);
    Zip4(Xor(a0, b0), Xor(a1, b1), Xor(a2, b2), Xor(a3, b3), c0, c1, c2, c3);
    Zip4(Xor(Xor(a0, b0), c0), Xor(Xor(a1, b1), c1), Xor(Xor(a2, b2), c2), Xor(Xor(a3, b3), c3), d0, d1, d2, d3);
    Unfold4(Xor4(a0, a1, a2, a3), Xor4(b0, b1, b2, b3), Xor4(c0, c1, c2, c3), Xor4(d0, d1, d2, d3));
    Unfold4(a0, b0, c0, d0);
    Unfold4(a1, b1, c1, d1);
    Unfold4(a2, b2, c2, d2);
    Unfold4(a3, b3, c3, d3);
  }

  lemma Unfold4(a: bv8, b: bv8, c: bv8, d: bv8)
    ensures Xor4(a, b, c, d) == Xor(Xor(Xor(a, b), c), d)
  {
  }

  // ---------------------------------------------------------------- the field GF(2^8)

  /** Multiplication by x, section 4.2.1 of FIPS 197. */
  function Double(x: bv8): bv8 { (x << 1) ^ (if x & 0x80 == 0 then 0 else 0x1b) }
  function Mul3(x: bv8): bv8 { Xor(Double(x), x) }
  function Mul9(x: bv8): bv8 { Xor(Double(Double(Double(x))), x) }
  function MulB(x: bv8): bv8 { Xor3(Double(Double(Double(x))), Double(x), x) }
  function MulD(x: bv8): bv8 { Xor3(Double(Double(Double(x))), Double(Double(x)), x) }
  function MulE(x: bv8): bv8 { Xor3(Double(Double(Double(x))), Double(Double(x)), Double(x)) }

  /** Doubling as shifts alone. */
  function DoubleByShifts(x: bv8): bv8 {
    (x << 1) ^ (x >> 7) ^ ((x >> 7) << 1) ^ ((x >> 7) << 3) ^ ((x >> 7) << 4)
  }

  lemma DoubleForms(x: bv8)
    ensures Double(x) == DoubleByShifts(x)
  {
  }

  lemma ShiftsAreLinear(x: bv8, y: bv8)
    ensures DoubleByShifts(Xor(x, y)) == Xor(DoubleByShifts(x), DoubleByShifts(y))
  {
  }

  lemma DoubleIsLinear(x: bv8, y: bv8)
    ensures Double(Xor(x, y)) == Xor(Double(x), Double(y))
  {
    hide *;
    DoubleForms(x);
    DoubleForms(y);
    DoubleForms(Xor(x, y));
    ShiftsAreLinear(x, y);
  }

  lemma MulsAreLinear(x: bv8, y: bv8)
    ensures Mul9(Xor(x, y)) == Xor(Mul9(x), Mul9(y)) && MulB(Xor(x, y)) == Xor(MulB(x), MulB(y))
    ensures MulD(Xor(x, y)) == Xor(MulD(x), MulD(y)) && MulE(Xor(x, y)) == Xor(MulE(x), MulE(y))
  {
    hide Double, Xor, Xor3;
    var x2, y2 := Double(x), Double(y);
    var x4, y4 := Double(x2), Double(y2);
    var x8, y8 := Double(x4), Double(y4);
    DoubleIsLinear(x, y);
    DoubleIsLinear(x2, y2);
    DoubleIsLinear(x4, y4);
    Zip2(x8, x, y8, y);
    Zip3(x8, x2, x, y8, y2, y);
    Zip3(x8, x4, x, y8, y4, y);
    Zip3(x8, x4, x2, y8, y4, y2);
  }

  lemma LinearOn4(a: bv8, b: bv8, c: bv8, d: bv8)
    ensures Mul9(Xor4(a, b, c, d)) == Xor4(Mul9(a), Mul9(b), Mul9(c), Mul9(d))
    ensures MulB(Xor4(a, b, c, d)) == Xor4(MulB(a), MulB(b), MulB(c), MulB(d))
    ensures MulD(Xor4(a, b, c, d)) == Xor4(MulD(a), MulD(b), MulD(c), MulD(d))
    ensures MulE(Xor4(a, b, c, d)) == Xor4(MulE(a), MulE(b), MulE(c), MulE(d))
  {
    hide Xor, Mul9, MulB, MulD, MulE;
    MulsAreLinear(a, b);
    MulsAreLinear(Xor(a, b), c);
    MulsAreLinear(Xor3(a, b, c), d);
  }

  // Small cancellations, two summands at a time.

  lemma Drop(p: bv8, q: bv8)
    ensures Xor(p, p) == 0 && Xor(Xor(p, q), p) == q && Xor(p, Xor(p, q)) == q && Xor(Xor(q, p), p) == q
  {
  }

  lemma DropInner(p: bv8, q: bv8, r: bv8)
    ensures Xor(Xor(p, r), Xor(q, r)) == Xor(p, q) && Xor(Xor(r, p), Xor(r, q)) == Xor(p, q)
  {
  }

  lemma Turn3(p: bv8, q: bv8, r: bv8)
    ensures Xor3(p, q, r) == Xor(Xor(p, r), q) && Xor3(p, q, r) == Xor(Xor(q, r), p) && Xor3(p, q, r) == Xor(Xor(p, q), r)
    ensures Xor(p, q) == Xor(q, p)
  {
  }

  lemma Pairs(a: bv8, b: bv8, c: bv8, d: bv8)
    ensures Xor4(a, b, c, d) == Xor(Xor(a, b), Xor(c, d)) && Xor4(a, b, c, d) == Xor(Xor(a, c), Xor(b, d))
  {
    hide Xor;
    XorLaws(Xor(a, b), c, d);
    Zip2(a, b, c, d);
  }

  /** Two sums that share two of their three summands. */
  lemma Share2(p: bv8, q: bv8, r: bv8, s: bv8)
    ensures Xor(Xor3(p, q, r), Xor3(q, r, s)) == Xor(p, s) && Xor(Xor3(q, p, r), Xor3(s, q, r)) == Xor(p, s)
    ensures Xor(Xor3(q, p, r), Xor3(q, r, s)) == Xor(p, s)
  {
    hide Xor, Xor3;
    Turn3(p, q, r);
    Turn3(q, r, s);
    Turn3(q, p, r);
    Turn3(s, q, r);
    DropInner(p, s, Xor(q, r));
    XorComm(p, Xor(q, r));
    XorComm(s, Xor(q, r));
  }

  lemma XorComm(p: bv8, q: bv8)
    ensures Xor(p, q) == Xor(q, p)
  {
  }

  /** The products of the two mixing polynomials cancel in x, x2, x4, x8 and x16, whatever these are. */
  lemma CancelUnit(x: bv8, x2: bv8, x4: bv8, x8: bv8, x16: bv8)
    ensures Xor4(Xor3(x16, x8, x4), Xor3(x8, x2, x), Xor3(x8, x4, x), Xor(Xor(x16, x2), Xor(x8, x))) == x
  {
    hide Xor, Xor3, Xor4;
    var m := Xor(x8, x);
    Pairs(Xor3(x16, x8, x4), Xor3(x8, x2, x), Xor3(x8, x4, x), Xor(Xor(x16, x2), m));
    Share2(x16, x8, x4, x);
    Turn3(x8, x2, x);
    XorComm(Xor(x16, x2), m);
    DropInner(x2, Xor(x16, x2), m);
    XorComm(x16, x2);
    Drop(x2, x16);
    Drop(x16, x);
  }

  lemma Cancel1(x: bv8, x2: bv8, x4: bv8, x8: bv8, x16: bv8)
    ensures Xor4(Xor(Xor3(x16, x8, x4), Xor3(x8, x4, x2)), Xor3(x16, x4, x2), Xor3(x8, x4, x), Xor(x8, x)) == 0
  {
    hide Xor, Xor3, Xor4;
    Pairs(Xor(x16, x2), Xor3(x16, x4, x2), Xor3(x8, x4, x), Xor(x8, x));
    Share2(x16, x8, x4, x2);
    Turn3(x16, x4, x2);
    Drop(Xor(x16, x2), x4);
    Turn3(x8, x4, x);
    Drop(Xor(x8, x), x4);
    Drop(x4, x4);
  }

  lemma Cancel2(x: bv8, x2: bv8, x4: bv8, x8: bv8, x16: bv8)
    ensures Xor4(Xor3(x8, x4, x2), Xor(Xor3(x16, x4, x2), Xor3(x8, x2, x)), Xor3(x16, x8, x2), Xor(x8, x)) == 0
  {
    hide Xor, Xor3, Xor4;
    var m, p := Xor(x8, x), Xor(x16, x4);
    Pairs(Xor3(x8, x4, x2), Xor(Xor3(x16, x4, x2), Xor3(x8, x2, x)), Xor3(x16, x8, x2), m);
    Share2(x4, x8, x2, x16);
    Turn3(x16, x4, x2);
    Turn3(x8, x2, x);
    DropInner(p, m, x2);
    Drop(m, p);
    XorComm(x4, x16);
    Drop(p, p);
  }

  lemma Cancel3(x: bv8, x2: bv8, x4: bv8, x8: bv8, x16: bv8)
    ensures Xor4(Xor3(x8, x4, x2), Xor3(x8, x2, x), Xor(Xor3(x16, x8, x2), Xor3(x8, x4, x)), Xor(x16, x2)) == 0
  {
    hide Xor, Xor3, Xor4;
    var m, p := Xor(x16, x2), Xor(x4, x);
    Pairs(Xor3(x8, x4, x2), Xor3(x8, x2, x), Xor(Xor3(x16, x8, x2), Xor3(x8, x4, x)), m);
    Share2(x4, x8, x2, x);
    Turn3(x16, x8, x2);
    Turn3(x8, x4, x);
    DropInner(m, p, x8);
    Drop(m, p);
    Drop(p, p);
  }

  /** The product of the two mixing polynomials, coefficient by coefficient, is 1. */
  lemma MixingUnit(x: bv8)
    ensures Xor4(MulE(Double(x)), MulB(x), MulD(x), Mul9(Mul3(x))) == x
  {
    hide Double, Xor, Xor3, Xor4;
    var x2, x4, x8 := Double(x), Double(Double(x)), Double(Double(Double(x)));
    MulsAreLinear(x2, x);
    CancelUnit(x, x2, x4, x8, Double(x8));
  }

  lemma MixingZero1(x: bv8)
    ensures Xor4(MulE(Mul3(x)), MulB(Double(x)), MulD(x), Mul9(x)) == 0
  {
    hide Double, Xor, Xor3, Xor4;
    var x2, x4, x8 := Double(x), Double(Double(x)), Double(Double(Double(x)));
    MulsAreLinear(x2, x);
    Cancel1(x, x2, x4, x8, Double(x8));
  }

  lemma MixingZero2(x: bv8)
    ensures Xor4(MulE(x), MulB(Mul3(x)), MulD(Double(x)), Mul9(x)) == 0
  {
    hide Double, Xor, Xor3, Xor4;
    var x2, x4, x8 := Double(x), Double(Double(x)), Double(Double(Double(x)));
    MulsAreLinear(x2, x);
    Cancel2(x, x2, x4, x8, Double(x8));
  }

  lemma MixingZero3(x: bv8)
    ensures Xor4(MulE(x), MulB(x), MulD(Mul3(x)), Mul9(Double(x))) == 0
  {
    hide Double, Xor, Xor3, Xor4;
    var x2, x4, x8 := Double(x), Double(Double(x)), Double(Double(Double(x)));
    MulsAreLinear(x2, x);
    Cancel3(x, x2, x4, x8, Double(x8));
  }

  lemma PlusZeros(x: bv8)
    ensures Xor4(x, 0, 0, 0) == x
  {
  }

  lemma Unmix(a: bv8, b: bv8, c: bv8, d: bv8)
    ensures Xor4(MulE(Xor4(Double(a), Mul3(b), c, d)), MulB(Xor4(a, Double(b), Mul3(c), d)),
                 MulD(Xor4(a, b, Double(c), Mul3(d))), Mul9(Xor4(Mul3(a), b, c, Double(d)))) == a
  {
    hide *;
    LinearOn4(Double(a), Mul3(b), c, d);
    LinearOn4(a, Double(b), Mul3(c), d);
    LinearOn4(a, b, Double(c), Mul3(d));
    LinearOn4(Mul3(a), b, c, Double(d));
    SumColumns(MulE(Double(a)), MulE(Mul3(b)), MulE(c), MulE(d), MulB(a), MulB(Double(b)), MulB(Mul3(c)), MulB(d),
               MulD(a), MulD(b), MulD(Double(c)), MulD(Mul3(d)), Mul9(Mul3(a)), Mul9(b), Mul9(c), Mul9(Double(d)));
    MixingUnit(a);
    MixingZero1(b);
    MixingZero2(c);
    MixingZero3(d);
    PlusZeros(a);
  }

  // ---------------------------------------------------------------- bytes and words

  function Byte0(w: bv32): bv8 { (w >> 24) as bv8 }
  function Byte1(w: bv32): bv8 { ((w >> 16) & 0xff) as bv8 }
  function Byte2(w: bv32): bv8 { ((w >> 8) & 0xff) as bv8 }
  function Byte3(w: bv32): bv8 { (w & 0xff) as bv8 }

  /** GETU32 */
  function Pack(a: bv8, b: bv8, c: bv8, d: bv8): bv32 {
    ((a as bv32) << 24) ^ ((b as bv32) << 16) ^ ((c as bv32) << 8) ^ (d as bv32)
  }

  function XorW(u: bv32, v: bv32): bv32 { u ^ v }

  lemma PackBytes(a: bv8, b: bv8, c: bv8, d: bv8)
    ensures var w := Pack(a, b, c, d); Byte0(w) == a && Byte1(w) == b && Byte2(w) == c && Byte3(w) == d
  {
  }

  lemma BytesPack(w: bv32)
    ensures Pack(Byte0(w), Byte1(w), Byte2(w), Byte3(w)) == w
  {
  }

  lemma PackXor(a: bv8, b: bv8, c: bv8, d: bv8, e: bv8, f: bv8, g: bv8, h: bv8)
    ensures XorW(Pack(a, b, c, d), Pack(e, f, g, h)) == Pack(Xor(a, e), Xor(b, f), Xor(c, g), Xor(d, h))
  {
  }

  lemma BytesXor(u: bv32, v: bv32)
    ensures Byte0(XorW(u, v)) == Xor(Byte0(u), Byte0(v)) && Byte1(XorW(u, v)) == Xor(Byte1(u), Byte1(v))
    ensures Byte2(XorW(u, v)) == Xor(Byte2(u), Byte2(v)) && Byte3(XorW(u, v)) == Xor(Byte3(u), Byte3(v))
  {
    hide *;
    BytesPack(u);
    BytesPack(v);
    PackXor(Byte0(u), Byte1(u), Byte2(u), Byte3(u), Byte0(v), Byte1(v), Byte2(v), Byte3(v));
    PackBytes(Xor(Byte0(u), Byte0(v)), Xor(Byte1(u), Byte1(v)), Xor(Byte2(u), Byte2(v)), Xor(Byte3(u), Byte3(v)));
  }

  lemma XorWCancels(u: bv32, v: bv32)
    ensures XorW(XorW(u, v), v) == u
  {
  }

  // ---------------------------------------------------------------- one column

  function MixColumn(w: bv32): bv32 {
    var a, b, c, d := Byte0(w), Byte1(w), Byte2(w), Byte3(w);
    Pack(Xor4(Double(a), Mul3(b), c, d), Xor4(a, Double(b), Mul3(c), d),
         Xor4(a, b, Double(c), Mul3(d)), Xor4(Mul3(a), b, c, Double(d)))
  }

  function InvMixColumn(w: bv32): bv32 {
    var a, b, c, d := Byte0(w), Byte1(w), Byte2(w), Byte3(w);
    Pack(Xor4(MulE(a), MulB(b), MulD(c), Mul9(d)), Xor4(Mul9(a), MulE(b), MulB(c), MulD(d)),
         Xor4(MulD(a), Mul9(b), MulE(c), MulB(d)), Xor4(MulB(a), MulD(b), Mul9(c), MulE(d)))
  }

  /** Turning the column turns its mixture. */
  lemma TurnMix(a: bv8, b: bv8, c: bv8, d: bv8)
    ensures Xor4(Double(a), Mul3(b), c, d) == Xor4(Mul3(b), c, d, Double(a))
    ensures Xor4(a, Double(b), Mul3(c), d) == Xor4(Double(b), Mul3(c), d, a)
    ensures Xor4(a, b, Double(c), Mul3(d)) == Xor4(b, Double(c), Mul3(d), a)
    ensures Xor4(Mul3(a), b, c, Double(d)) == Xor4(b, c, Double(d), Mul3(a))
  {
    hide *;
    Rotate(Double(a), Mul3(b), c, d);
    Rotate(a, Double(b), Mul3(c), d);
    Rotate(a, b, Double(c), Mul3(d));
    Rotate(Mul3(a), b, c, Double(d));
  }

  lemma UnmixBytes(a: bv8, b: bv8, c: bv8, d: bv8, p: bv8, q: bv8, r: bv8, s: bv8)
    requires p == Xor4(Double(a), Mul3(b), c, d) && q == Xor4(a, Double(b), Mul3(c), d)
    requires r == Xor4(a, b, Double(c), Mul3(d)) && s == Xor4(Mul3(a), b, c, Double(d))
    ensures Xor4(MulE(p), MulB(q), MulD(r), Mul9(s)) == a && Xor4(Mul9(p), MulE(q), MulB(r), MulD(s)) == b
    ensures Xor4(MulD(p), Mul9(q), MulE(r), MulB(s)) == c && Xor4(MulB(p), MulD(q), Mul9(r), MulE(s)) == d
  {
    hide *;
    TurnMix(a, b, c, d);
    TurnMix(b, c, d, a);
    TurnMix(c, d, a, b);
    Unmix(a, b, c, d);
    Unmix(b, c, d, a);
    Unmix(c, d, a, b);
    Unmix(d, a, b, c);
    Rotate(Mul9(p), MulE(q), MulB(r), MulD(s));
    Rotate(MulD(p), Mul9(q), MulE(r), MulB(s));
    Rotate(Mul9(q), MulE(r), MulB(s), MulD(p));
    Rotate(MulE(s), MulB(p), MulD(q), Mul9(r));
  }

  lemma UnmixColumn(w: bv32)
    ensures InvMixColumn(MixColumn(w)) == w
  {
    hide Double, Mul3, Mul9, MulB, MulD, MulE, Xor4, Byte0, Byte1, Byte2, Byte3, Pack;
    var a, b, c, d := Byte0(w), Byte1(w), Byte2(w), Byte3(w);
    var p, q, r, s := Xor4(Double(a), Mul3(b), c, d), Xor4(a, Double(b), Mul3(c), d),
                      Xor4(a, b, Double(c), Mul3(d)), Xor4(Mul3(a), b, c, Double(d));
    PackBytes(p, q, r, s);
    UnmixBytes(a, b, c, d, p, q, r, s);
    BytesPack(w);
  }

  lemma InvMixIsLinear(u: bv32, v: bv32)
    ensures InvMixColumn(XorW(u, v)) == XorW(InvMixColumn(u), InvMixColumn(v))
  {
    hide Double, Mul3, Mul9, MulB, MulD, MulE, Xor, Xor4, XorW, Byte0, Byte1, Byte2, Byte3, Pack;
    var a, b, c, d := Byte0(u), Byte1(u), Byte2(u), Byte3(u);
    var e, f, g, h := Byte0(v), Byte1(v), Byte2(v), Byte3(v);
    BytesXor(u, v);
    MulsAreLinear(a, e);
    MulsAreLinear(b, f);
    MulsAreLinear(c, g);
    MulsAreLinear(d, h);
    Zip4(MulE(a), MulB(b), MulD(c), Mul9(d), MulE(e), MulB(f), MulD(g), Mul9(h));
    Zip4(Mul9(a), MulE(b), MulB(c), MulD(d), Mul9(e), MulE(f), MulB(g), MulD(h));
    Zip4(MulD(a), Mul9(b), MulE(c), MulB(d), MulD(e), Mul9(f), MulE(g), MulB(h));
    Zip4(MulB(a), MulD(b), Mul9(c), MulE(d), MulB(e), MulD(f), Mul9(g), MulE(h));
    PackXor(Xor4(MulE(a), MulB(b), MulD(c), Mul9(d)), Xor4(Mul9(a), MulE(b), MulB(c), MulD(d)),
            Xor4(MulD(a), Mul9(b), MulE(c), MulB(d)), Xor4(MulB(a), MulD(b), Mul9(c), MulE(d)),
            Xor4(MulE(e), MulB(f), MulD(g), Mul9(h)), Xor4(Mul9(e), MulE(f), MulB(g), MulD(h)),
            Xor4(MulD(e), Mul9(f), MulE(g), MulB(h)), Xor4(MulB(e), MulD(f), Mul9(g), MulE(h)));
  }
}
