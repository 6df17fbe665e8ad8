/**
 The functions of aes.c: key schedules filled and permuted in place, and the block functions with
 their lookup tables and two rounds per loop iteration, proved against FIPS 197.
 */
module Aes {
  import opened AesTables
  import opened AesRounds
  import opened AesCipher

  // ---------------------------------------------------------------- the lookup tables

  /** The tables as the comment at the head of aes.c defines them. */
  function Te0(x: bv8): bv32 { var s := S(x); Pack(Double(s), s, s, Mul3(s)) }
  function Te1(x: bv8): bv32 { var s := S(x); Pack(Mul3(s), Double(s), s, s) }
  function Te2(x: bv8): bv32 { var s := S(x); Pack(s, Mul3(s), Double(s), s) }
  function Te3(x: bv8): bv32 { var s := S(x); Pack(s, s, Mul3(s), Double(s)) }
  function Te4(x: bv8): bv32 { var s := S(x); Pack(s, s, s, s) }
  function Td0(x: bv8): bv32 { var s := Si(x); Pack(MulE(s), Mul9(s), MulD(s), MulB(s)) }
  function Td1(x: bv8): bv32 { var s := Si(x); Pack(MulB(s), MulE(s), Mul9(s), MulD(s)) }
  function Td2(x: bv8): bv32 { var s := Si(x); Pack(MulD(s), MulB(s), MulE(s), Mul9(s)) }
  function Td3(x: bv8): bv32 { var s := Si(x); Pack(Mul9(s), MulD(s), MulB(s), MulE(s)) }
  function Td4(x: bv8): bv32 { var s := Si(x); Pack(s, s, s, s) }

  function Xor4W(a: bv32, b: bv32, c: bv32, d: bv32): bv32 { XorW(XorW(XorW(a, b), c), d) }

  /** One column of a round by four lookups. */
  function TeColumn(a: bv32, b: bv32, c: bv32, d: bv32): bv32 {
    Xor4W(Te0(Byte0(a)), Te1(Byte1(b)), Te2(Byte2(c)), Te3(Byte3(d)))
  }

  function TdColumn(a: bv32, b: bv32, c: bv32, d: bv32): bv32 {
    Xor4W(Td0(Byte0(a)), Td1(Byte1(b)), Td2(Byte2(c)), Td3(Byte3(d)))
  }

  /** One column of the last round by four masked lookups. */
  function Te4Column(a: bv8, b: bv8, c: bv8, d: bv8): bv32 {
    Xor4W(Te4(a) & 0xff000000, Te4(b) & 0x00ff0000, Te4(c) & 0x0000ff00, Te4(d) & 0x000000ff)
  }

  function Td4Column(a: bv8, b: bv8, c: bv8, d: bv8): bv32 {
    Xor4W(Td4(a) & 0xff000000, Td4(b) & 0x00ff0000, Td4(c) & 0x0000ff00, Td4(d) & 0x000000ff)
  }

  lemma PackXor4(a0: bv8, a1: bv8, a2: bv8, a3: bv8, b0: bv8, b1: bv8, b2: bv8, b3: bv8,
                 c0: bv8, c1: bv8, c2: bv8, c3: bv8, d0: bv8, d1: bv8, d2: bv8, d3: bv8)
    ensures Xor4W(Pack(a0, a1, a2, a3), Pack(b0, b1, b2, b3), Pack(c0, c1, c2, c3), Pack(d0, d1, d2, d3)) ==
            Pack(Xor4(a0, b0, c0, d0), Xor4(a1, b1, c1, d1), Xor4(a2, b2, c2, d2), Xor4(a3, b3, c3, d3))
  {
    hide XorW, Xor, Xor3, Xor4, Pack;
    PackXor(a0, a1, a2, a3, b0, b1, b2, b3);
    PackXor(Xor(a0, b0), Xor(a1, b1), Xor(a2, b2), Xor(a3, b3), c0, c1, c2, c3);
    PackXor(Xor(Xor(a0, b0), c0), Xor(Xor(a1, b1), c1), Xor(Xor(a2, b2), c2), Xor(Xor(a3, b3), c3), d0, d1, d2, d3);
    Unfold4(a0, b0, c0, d0);
    Unfold4(a1, b1, c1, d1);
    Unfold4(a2, b2, c2, d2);
    Unfold4(a3, b3, c3, d3);
  }

  /** The encryption tables hold substitution and mixing at once. */
  lemma TeColumnMixes(a: bv32, b: bv32, c: bv32, d: bv32)
    ensures TeColumn(a, b, c, d) == MixColumn(Gather(SubWord(a), SubWord(b), SubWord(c), SubWord(d)))
  {
    hide S, Pack, Byte0, Byte1, Byte2, Byte3, Double, Mul3, Xor4, Xor4W, SubWord;
    SubWordBytes(a);
    SubWordBytes(b);
    SubWordBytes(c);
    SubWordBytes(d);
    var p, q, r, s := S(Byte0(a)), S(Byte1(b)), S(Byte2(c)), S(Byte3(d));
    PackBytes(p, q, r, s);
    PackXor4(Double(p), p, p, Mul3(p), Mul3(q), Double(q), q, q, r, Mul3(r), Double(r), r, s, s, Mul3(s), Double(s));
  }

  /** The decryption tables hold inverse substitution and inverse mixing at once. */
  lemma TdColumnUnmixes(a: bv32, b: bv32, c: bv32, d: bv32)
    ensures TdColumn(a, b, c, d) == InvMixColumn(Gather(InvSubWord(a), InvSubWord(b), InvSubWord(c), InvSubWord(d)))
  {
    hide Si, Pack, Byte0, Byte1, Byte2, Byte3, Mul9, MulB, MulD, MulE, Xor4, Xor4W, InvSubWord;
    InvSubWordBytes(a);
    InvSubWordBytes(b);
    InvSubWordBytes(c);
    InvSubWordBytes(d);
    var p, q, r, s := Si(Byte0(a)), Si(Byte1(b)), Si(Byte2(c)), Si(Byte3(d));
    PackBytes(p, q, r, s);
    PackXor4(MulE(p), Mul9(p), MulD(p), MulB(p), MulB(q), MulE(q), Mul9(q), MulD(q),
             MulD(r), MulB(r), MulE(r), Mul9(r), Mul9(s), MulD(s), MulB(s), MulE(s));
  }

  lemma MasksSelect(a: bv8, b: bv8, c: bv8, d: bv8)
    ensures Xor4W(Pack(a, a, a, a) & 0xff000000, Pack(b, b, b, b) & 0x00ff0000,
                  Pack(c, c, c, c) & 0x0000ff00, Pack(d, d, d, d) & 0x000000ff) == Pack(a, b, c, d)
  {
  }

  lemma Te4ColumnSubstitutes(a: bv8, b: bv8, c: bv8, d: bv8)
    ensures Te4Column(a, b, c, d) == Pack(S(a), S(b), S(c), S(d))
  {
    hide S, Pack, Xor4W;
    MasksSelect(S(a), S(b), S(c), S(d));
  }

  lemma Td4ColumnSubstitutes(a: bv8, b: bv8, c: bv8, d: bv8)
    ensures Td4Column(a, b, c, d) == Pack(Si(a), Si(b), Si(c), Si(d))
  {
    hide Si, Pack, Xor4W;
    MasksSelect(Si(a), Si(b), Si(c), Si(d));
  }

  /** A full round in the code's form. */
  function TeRound(s: Block, k: Block): Block {
    Block(XorW(TeColumn(s.c0, s.c1, s.c2, s.c3), k.c0), XorW(TeColumn(s.c1, s.c2, s.c3, s.c0), k.c1),
          XorW(TeColumn(s.c2, s.c3, s.c0, s.c1), k.c2), XorW(TeColumn(s.c3, s.c0, s.c1, s.c2), k.c3))
  }

  function TdRound(s: Block, k: Block): Block {
    Block(XorW(TdColumn(s.c0, s.c3, s.c2, s.c1), k.c0), XorW(TdColumn(s.c1, s.c0, s.c3, s.c2), k.c1),
          XorW(TdColumn(s.c2, s.c1, s.c0, s.c3), k.c2), XorW(TdColumn(s.c3, s.c2, s.c1, s.c0), k.c3))
  }

  lemma TeRoundIsRound(s: Block, k: Block)
    ensures TeRound(s, k) == EncRound(s, k)
  {
    hide TeColumn, MixColumn, Gather, SubWord, XorW;
    TeColumnMixes(s.c0, s.c1, s.c2, s.c3);
    TeColumnMixes(s.c1, s.c2, s.c3, s.c0);
    TeColumnMixes(s.c2, s.c3, s.c0, s.c1);
    TeColumnMixes(s.c3, s.c0, s.c1, s.c2);
  }

  lemma TdRoundIsRound(s: Block, k: Block)
    ensures TdRound(s, k) == DecRound(s, k)
  {
    hide TdColumn, InvMixColumn, Gather, InvSubWord, XorW;
    TdColumnUnmixes(s.c0, s.c3, s.c2, s.c1);
    TdColumnUnmixes(s.c1, s.c0, s.c3, s.c2);
    TdColumnUnmixes(s.c2, s.c1, s.c0, s.c3);
    TdColumnUnmixes(s.c3, s.c2, s.c1, s.c0);
  }

  /** The last round in the code's form. */
  function Te4Word(a: bv32, b: bv32, c: bv32, d: bv32): bv32 {
    Te4Column(Byte0(a), Byte1(b), Byte2(c), Byte3(d))
  }

  function Td4Word(a: bv32, b: bv32, c: bv32, d: bv32): bv32 {
    Td4Column(Byte0(a), Byte1(b), Byte2(c), Byte3(d))
  }

  function TeLast(t: Block, k: Block): Block {
    Block(XorW(Te4Word(t.c0, t.c1, t.c2, t.c3), k.c0), XorW(Te4Word(t.c1, t.c2, t.c3, t.c0), k.c1),
          XorW(Te4Word(t.c2, t.c3, t.c0, t.c1), k.c2), XorW(Te4Word(t.c3, t.c0, t.c1, t.c2), k.c3))
  }

  function TdLast(t: Block, k: Block): Block {
    Block(XorW(Td4Word(t.c0, t.c3, t.c2, t.c1), k.c0), XorW(Td4Word(t.c1, t.c0, t.c3, t.c2), k.c1),
          XorW(Td4Word(t.c2, t.c1, t.c0, t.c3), k.c2), XorW(Td4Word(t.c3, t.c2, t.c1, t.c0), k.c3))
  }

  lemma Te4WordGathers(a: bv32, b: bv32, c: bv32, d: bv32)
    ensures Te4Word(a, b, c, d) == Gather(SubWord(a), SubWord(b), SubWord(c), SubWord(d))
  {
    hide S, Pack, Byte0, Byte1, Byte2, Byte3, Te4Column, SubWord;
    Te4ColumnSubstitutes(Byte0(a), Byte1(b), Byte2(c), Byte3(d));
    SubWordBytes(a);
    SubWordBytes(b);
    SubWordBytes(c);
    SubWordBytes(d);
  }

  lemma Td4WordGathers(a: bv32, b: bv32, c: bv32, d: bv32)
    ensures Td4Word(a, b, c, d) == Gather(InvSubWord(a), InvSubWord(b), InvSubWord(c), InvSubWord(d))
  {
    hide Si, Pack, Byte0, Byte1, Byte2, Byte3, Td4Column, InvSubWord;
    Td4ColumnSubstitutes(Byte0(a), Byte1(b), Byte2(c), Byte3(d));
    InvSubWordBytes(a);
    InvSubWordBytes(b);
    InvSubWordBytes(c);
    InvSubWordBytes(d);
  }

  // ---------------------------------------------------------------- blocks as bytes

  function LoadBlock(bytes: seq<bv8>): Block
    requires |bytes| == 16
  {
    Block(Pack(bytes[0], bytes[1], bytes[2], bytes[3]), Pack(bytes[4], bytes[5], bytes[6], bytes[7]),
          Pack(bytes[8], bytes[9], bytes[10], bytes[11]), Pack(bytes[12], bytes[13], bytes[14], bytes[15]))
  }

  function WordBytes(w: bv32): (bytes: seq<bv8>)
    ensures |bytes| == 4
  {
    [Byte0(w), Byte1(w), Byte2(w), Byte3(w)]
  }

  function StoreBlock(b: Block): (bytes: seq<bv8>)
    ensures |bytes| == 16
  {
    WordBytes(b.c0) + WordBytes(b.c1) + WordBytes(b.c2) + WordBytes(b.c3)
  }

  lemma LoadStore(b: Block)
    ensures LoadBlock(StoreBlock(b)) == b
  {
    hide Pack, Byte0, Byte1, Byte2, Byte3;
    BytesPack(b.c0);
    BytesPack(b.c1);
    BytesPack(b.c2);
    BytesPack(b.c3);
  }

  lemma StoreLoad(bytes: seq<bv8>)
    requires |bytes| == 16
    ensures StoreBlock(LoadBlock(bytes)) == bytes
  {
    hide Pack, Byte0, Byte1, Byte2, Byte3;
    PackBytes(bytes[0], bytes[1], bytes[2], bytes[3]);
    PackBytes(bytes[4], bytes[5], bytes[6], bytes[7]);
    PackBytes(bytes[8], bytes[9], bytes[10], bytes[11]);
    PackBytes(bytes[12], bytes[13], bytes[14], bytes[15]);
  }

  // ---------------------------------------------------------------- key schedules

  /** The rcon table of aes.c. */
  function RconEntry(i: nat): bv32
    requires i < 10
  {
    match i
    case 0 => 0x01000000
    case 1 => 0x02000000
    case 2 => 0x04000000
    case 3 => 0x08000000
    case 4 => 0x10000000
    case 5 => 0x20000000
    case 6 => 0x40000000
    case 7 => 0x80000000
    case 8 => 0x1B000000
    case 9 => 0x36000000
  }

  lemma PowerNext(j: nat, p: bv8)
    requires Power(j) == p
    ensures Power(j + 1) == Double(p)
  {
  }

  lemma RconIsTable(i: nat)
    requires i < 10
    ensures RconEntry(i) == Rcon(i + 1)
  {
    hide Power, Double;
    assert Power(0) == 1 by { PowerZero(); }
    Doubles();
    PowerNext(0, 0x01);
    PowerNext(1, 0x02);
    PowerNext(2, 0x04);
    PowerNext(3, 0x08);
    PowerNext(4, 0x10);
    PowerNext(5, 0x20);
    PowerNext(6, 0x40);
    PowerNext(7, 0x80);
    PowerNext(8, 0x1b);
  }

  lemma PowerZero()
    ensures Power(0) == 1
  {
  }

  lemma Doubles()
    ensures Double(0x01) == 0x02 && Double(0x02) == 0x04 && Double(0x04) == 0x08 && Double(0x08) == 0x10
    ensures Double(0x10) == 0x20 && Double(0x20) == 0x40 && Double(0x40) == 0x80 && Double(0x80) == 0x1b
    ensures Double(0x1b) == 0x36
  {
  }

  predicate ValidBits(bits: int) {
    bits == 128 || bits == 192 || bits == 256
  }

  function RoundsFor(bits: int): nat {
    if bits == 128 then 10 else if bits == 192 then 12 else 14
  }

  /** The key bytes as words. */
  function KeyWords(bytes: seq<bv8>, n: nat): (words: seq<bv32>)
    requires 4 * n <= |bytes|
    ensures |words| == n && forall i :: 0 <= i < n ==> words[i] == GetWord(bytes, 4 * i)
  {
    seq(n, i requires 0 <= i < n => GetWord(bytes, 4 * i))
  }

  function GetWord(bytes: seq<bv8>, at: nat): bv32
    requires at + 4 <= |bytes|
  {
    Pack(bytes[at], bytes[at + 1], bytes[at + 2], bytes[at + 3])
  }

  /** The first `n` words of the schedule are those of the key expansion. */
  ghost predicate Filled(rk: array<bv32>, key: seq<bv32>, n: nat)
    reads rk
  {
    |key| > 0 && n <= rk.Length && forall i :: 0 <= i < n ==> rk[i] == Expanded(key, i)
  }

  /** The substituted and rotated word as the code looks it up. */
  function RotSub(temp: bv32): bv32 {
    Te4Column(Byte1(temp), Byte2(temp), Byte3(temp), Byte0(temp))
  }

  lemma RotSubMeans(temp: bv32)
    ensures RotSub(temp) == SubWord(RotWord(temp))
  {
    hide S, Pack, Byte0, Byte1, Byte2, Byte3, Te4Column;
    Te4ColumnSubstitutes(Byte1(temp), Byte2(temp), Byte3(temp), Byte0(temp));
    PackBytes(Byte1(temp), Byte2(temp), Byte3(temp), Byte0(temp));
  }

  lemma PlainSubMeans(temp: bv32)
    ensures Te4Column(Byte0(temp), Byte1(temp), Byte2(temp), Byte3(temp)) == SubWord(temp)
  {
    hide S, Pack, Byte0, Byte1, Byte2, Byte3, Te4Column;
    Te4ColumnSubstitutes(Byte0(temp), Byte1(temp), Byte2(temp), Byte3(temp));
  }

  lemma XorWAssoc(a: bv32, b: bv32, c: bv32)
    ensures XorW(XorW(a, b), c) == XorW(a, XorW(b, c))
  {
  }

  lemma GroupStart(nk: nat, i: nat, j: nat)
    requires (nk == 4 || nk == 6 || nk == 8) && j > 0 && i == j * nk
    ensures i >= nk && i % nk == 0 && i / nk == j
  {
    if nk == 4 { assert i == 4 * j; } else if nk == 6 { assert i == 6 * j; } else { assert i == 8 * j; }
  }

  lemma ExpandedAtStart(key: seq<bv32>, i: nat)
    requires |key| > 0 && i >= |key| && i % |key| == 0 && i / |key| > 0
    ensures Expanded(key, i) ==
            XorW(Expanded(key, i - |key|), XorW(SubWord(RotWord(Expanded(key, i - 1))), Rcon(i / |key|)))
  {
    hide SubWord, RotWord, XorW, Rcon;
  }

  /** The three kinds of word after the key itself. */
  lemma ExpandedFirst(key: seq<bv32>, i: nat, j: nat)
    requires (|key| == 4 || |key| == 6 || |key| == 8) && 0 < j <= 10 && i == j * |key|
    ensures i >= |key|
    ensures Expanded(key, i) ==
            XorW(XorW(Expanded(key, i - |key|), RotSub(Expanded(key, i - 1))), RconEntry(j - 1))
  {
    hide *;
    GroupStart(|key|, i, j);
    ExpandedAtStart(key, i);
    RconIsTable(j - 1);
    RotSubMeans(Expanded(key, i - 1));
    XorWAssoc(Expanded(key, i - |key|), RotSub(Expanded(key, i - 1)), RconEntry(j - 1));
  }

  lemma ExpandedPlain(key: seq<bv32>, i: nat)
    requires |key| > 0 && i > |key| && i % |key| != 0 && !(|key| > 6 && i % |key| == 4)
    ensures Expanded(key, i) == XorW(Expanded(key, i - |key|), Expanded(key, i - 1))
  {
  }

  lemma ExpandedMiddle(key: seq<bv32>, i: nat)
    requires |key| > 6 && i > |key| && i % |key| == 4
    ensures var t := Expanded(key, i - 1);
            Expanded(key, i) == XorW(Expanded(key, i - |key|), Te4Column(Byte0(t), Byte1(t), Byte2(t), Byte3(t)))
  {
    hide Te4Column, SubWord, XorW;
    PlainSubMeans(Expanded(key, i - 1));
  }

  /** Storing the next word of the schedule. */
  method PutWord(rk: array<bv32>, ghost key: seq<bv32>, n: nat, v: bv32)
    requires Filled(rk, key, n) && n < rk.Length && v == Expanded(key, n)
    modifies rk
    ensures Filled(rk, key, n + 1)
  {
    hide Expanded;
    rk[n] := v;
  }

  /** The first word of a group: rotated, substituted and combined with the round constant. */
  method PutFirst(rk: array<bv32>, ghost key: seq<bv32>, nk: nat, i: nat)
    requires |key| == nk && (nk == 4 || nk == 6 || nk == 8) && i < 10
    requires nk * i + nk < rk.Length && Filled(rk, key, nk * i + nk)
    modifies rk
    ensures Filled(rk, key, nk * i + nk + 1)
  {
    hide Expanded, XorW, RotSub, RconEntry;
    var n := nk * i + nk;
    ExpandedFirst(key, n, i + 1);
    PutWord(rk, key, n, XorW(XorW(rk[n - nk], RotSub(rk[n - 1])), RconEntry(i)));
  }

  /** A word that combines the one before it with the one a key length before it. */
  method PutPlain(rk: array<bv32>, ghost key: seq<bv32>, nk: nat, n: nat)
    requires |key| == nk > 0 && nk < n < rk.Length && Filled(rk, key, n)
    requires n % nk != 0 && !(nk > 6 && n % nk == 4)
    modifies rk
    ensures Filled(rk, key, n + 1)
  {
    hide Expanded, XorW;
    ExpandedPlain(key, n);
    PutWord(rk, key, n, XorW(rk[n - nk], rk[n - 1]));
  }

  /** One pass of the 128-bit loop of AES_set_encrypt_key. */
  method Expand128(rk: array<bv32>, ghost key: seq<bv32>, i: nat)
    requires |key| == 4 && i < 10 && 4 * i + 8 <= rk.Length && Filled(rk, key, 4 * i + 4)
    modifies rk
    ensures Filled(rk, key, 4 * i + 8)
  {
    hide Filled;
    PutFirst(rk, key, 4, i);
    PutPlain(rk, key, 4, 4 * i + 5);
    PutPlain(rk, key, 4, 4 * i + 6);
    PutPlain(rk, key, 4, 4 * i + 7);
  }

  /** One pass of the 192-bit loop; the last pass stops after four words. */
  method Expand192(rk: array<bv32>, ghost key: seq<bv32>, i: nat)
    requires |key| == 6 && i < 8 && Filled(rk, key, 6 * i + 6)
    requires 6 * i + (if i == 7 then 10 else 12) <= rk.Length
    modifies rk
    ensures Filled(rk, key, 6 * i + (if i == 7 then 10 else 12))
  {
    hide Filled;
    PutFirst(rk, key, 6, i);
    PutPlain(rk, key, 6, 6 * i + 7);
    PutPlain(rk, key, 6, 6 * i + 8);
    PutPlain(rk, key, 6, 6 * i + 9);
    if i + 1 == 8 {
      return;
    }
    PutPlain(rk, key, 6, 6 * i + 10);
    PutPlain(rk, key, 6, 6 * i + 11);
  }

  /** One pass of the 256-bit loop; the last pass stops after four words. */
  method Expand256(rk: array<bv32>, ghost key: seq<bv32>, i: nat)
    requires |key| == 8 && i < 7 && Filled(rk, key, 8 * i + 8)
    requires 8 * i + (if i == 6 then 12 else 16) <= rk.Length
    modifies rk
    ensures Filled(rk, key, 8 * i + (if i == 6 then 12 else 16))
  {
    hide Filled;
    PutFirst(rk, key, 8, i);
    PutPlain(rk, key, 8, 8 * i + 9);
    PutPlain(rk, key, 8, 8 * i + 10);
    PutPlain(rk, key, 8, 8 * i + 11);
    if i + 1 == 7 {
      return;
    }
    PutMiddle(rk, key, 8 * i + 12);
    PutPlain(rk, key, 8, 8 * i + 13);
    PutPlain(rk, key, 8, 8 * i + 14);
    PutPlain(rk, key, 8, 8 * i + 15);
  }

  /** The middle word of a 256-bit group: substituted but not rotated. */
  method PutMiddle(rk: array<bv32>, ghost key: seq<bv32>, n: nat)
    requires |key| == 8 && 8 < n < rk.Length && n % 8 == 4 && Filled(rk, key, n)
    modifies rk
    ensures Filled(rk, key, n + 1)
  {
    hide Expanded, XorW, Te4Column, Byte0, Byte1, Byte2, Byte3;
    ExpandedMiddle(key, n);
    var temp := rk[n - 1];
    PutWord(rk, key, n, XorW(rk[n - 8], Te4Column(Byte0(temp), Byte1(temp), Byte2(temp), Byte3(temp))));
  }

  class AesKey {
    const rdKey: array<bv32>
    var rounds: nat

    constructor ()
      ensures rdKey.Length == 60 && fresh(rdKey)
    {
      rdKey := new bv32[60];
    }

    /** The schedule as a sequence. */
    ghost function Words(): seq<bv32>
      reads this, rdKey
    {
      rdKey[..]
    }
  }

  /** AES_set_encrypt_key */
  method SetEncryptKey(userKey: array?<bv8>, bits: int, key: AesKey?) returns (status: int)
    requires userKey != null && ValidBits(bits) ==> bits / 8 <= userKey.Length
    requires key != null ==> key.rdKey.Length == 60
    modifies if key == null then {} else {key, key.rdKey}
    ensures status == if userKey == null || key == null then -1 else if !ValidBits(bits) then -2 else 0
    ensures key != null && status != 0 ==> key.rounds == old(key.rounds) && key.rdKey[..] == old(key.rdKey[..])
    ensures status == 0 ==>
              key.rounds == RoundsFor(bits) &&
              Filled(key.rdKey, KeyWords(old(userKey[..]), bits / 32), 4 * key.rounds + 4)
  {
    if userKey == null || key == null {
      return -1;
    }
    if bits != 128 && bits != 192 && bits != 256 {
      return -2;
    }
    hide Pack, Expanded, RotSub;
    var rk := key.rdKey;
    ghost var words := KeyWords(userKey[..], bits / 32);
    if bits == 128 {
      key.rounds := 10;
    } else if bits == 192 {
      key.rounds := 12;
    } else {
      key.rounds := 14;
    }
    for j := 0 to bits / 32
      invariant key.rounds == RoundsFor(bits)
      invariant forall k :: 0 <= k < j ==> rk[k] == words[k]
    {
      rk[j] := Pack(userKey[4 * j], userKey[4 * j + 1], userKey[4 * j + 2], userKey[4 * j + 3]);
    }
    ExpandedStart(rk, words);
    var i := 0;
    if bits == 128 {
      while i != 10
        invariant key.rounds == 10 && 0 <= i <= 10 && Filled(rk, words, 4 * i + 4)
        decreases 10 - i
      {
        Expand128(rk, words, i);
        i := i + 1;
      }
    } else if bits == 192 {
      while i != 8
        invariant key.rounds == 12 && 0 <= i <= 8 && Filled(rk, words, if i == 8 then 52 else 6 * i + 6)
        decreases 8 - i
      {
        Expand192(rk, words, i);
        i := i + 1;
      }
    } else {
      while i != 7
        invariant key.rounds == 14 && 0 <= i <= 7 && Filled(rk, words, if i == 7 then 60 else 8 * i + 8)
        decreases 7 - i
      {
        Expand256(rk, words, i);
        i := i + 1;
      }
    }
    return 0;
  }

  lemma ExpandedStart(rk: array<bv32>, key: seq<bv32>)
    requires 0 < |key| <= rk.Length && forall k :: 0 <= k < |key| ==> rk[k] == key[k]
    ensures Filled(rk, key, |key|)
  {
  }

  // ---------------------------------------------------------------- the decryption schedule

  /** The key expansion as a sequence. */
  ghost function Schedule(words: seq<bv32>, nr: nat): (w: seq<bv32>)
    requires |words| > 0
    ensures |w| == 4 * nr + 4 && forall i :: 0 <= i < |w| ==> w[i] == Expanded(words, i)
  {
    seq(4 * nr + 4, i requires 0 <= i => Expanded(words, i))
  }

  /** The inverse mixing of one word as the code looks it up: the S-box undoes the inverse S-box
      inside the Td tables. */
  function UnmixByTables(w: bv32): bv32 {
    Xor4W(Td0(Byte3(Te4(Byte0(w)))), Td1(Byte3(Te4(Byte1(w)))), Td2(Byte3(Te4(Byte2(w)))), Td3(Byte3(Te4(Byte3(w)))))
  }

  lemma Te4LowByte(x: bv8)
    ensures Byte3(Te4(x)) == S(x)
  {
    hide S, Pack, Byte3;
    PackBytes(S(x), S(x), S(x), S(x));
  }

  lemma UnmixByTablesMeans(w: bv32)
    ensures UnmixByTables(w) == InvMixColumn(w)
  {
    hide S, Si, Te4, Pack, Byte0, Byte1, Byte2, Byte3, Mul9, MulB, MulD, MulE, Xor4, Xor4W;
    var p, q, r, s := Byte0(w), Byte1(w), Byte2(w), Byte3(w);
    Te4LowByte(p);
    Te4LowByte(q);
    Te4LowByte(r);
    Te4LowByte(s);
    TablesInverse(p);
    TablesInverse(q);
    TablesInverse(r);
    TablesInverse(s);
    PackXor4(MulE(p), Mul9(p), MulD(p), MulB(p), MulB(q), MulE(q), Mul9(q), MulD(q),
             MulD(r), MulB(r), MulE(r), Mul9(r), Mul9(s), MulD(s), MulB(s), MulE(s));
  }

  /** Where the word at `k` goes when the round keys are put in reverse order. */
  function Mirror(k: nat, nr: nat): int {
    4 * (nr - k / 4) + k % 4
  }

  /** The round keys outside [i, j + 4) have changed places. */
  ghost predicate Reversing(was: seq<bv32>, now: seq<bv32>, nr: nat, i: nat, j: int) {
    && |was| == |now| && 4 * nr + 4 <= |was|
    && forall k :: 0 <= k < 4 * nr + 4 ==>
         0 <= Mirror(k, nr) < |was| && now[k] == if k < i || k >= j + 4 then was[Mirror(k, nr)] else was[k]
  }

  /** Two groups of four words have changed places. */
  ghost predicate Swapped(was: seq<bv32>, now: seq<bv32>, i: nat, j: nat, q: nat) {
    && |was| == |now| && q <= 4 && i + 4 <= j && j + 4 <= |was|
    && forall k {:trigger now[k]} :: 0 <= k < |was| ==>
         now[k] == if i <= k < i + q then was[k + (j - i)] else if j <= k < j + q then was[k - (j - i)] else was[k]
  }

  lemma ReversingStep(was: seq<bv32>, mid: seq<bv32>, now: seq<bv32>, nr: nat, i: nat)
    requires i % 4 == 0 && i + 4 <= 4 * nr - i && Reversing(was, mid, nr, i, 4 * nr - i)
    requires Swapped(mid, now, i, 4 * nr - i, 4)
    ensures Reversing(was, now, nr, i + 4, 4 * nr - i - 4)
  {
    hide Mirror;
    MirrorGroup(nr, i);
    var j := 4 * nr - i;
    forall k | 0 <= k < 4 * nr + 4
      ensures now[k] == if k < i + 4 || k >= j then was[Mirror(k, nr)] else was[k]
    {
      assert mid[k] == if k < i || k >= j + 4 then was[Mirror(k, nr)] else was[k];
      if i <= k < i + 4 {
        assert now[k] == mid[k + (j - i)] == was[k + (j - i)];
      } else if j <= k < j + 4 {
        assert now[k] == mid[k - (j - i)] == was[k - (j - i)];
      } else {
        assert now[k] == mid[k];
      }
    }
  }

  /** The loop that inverts the order of the round keys. */
  method ReverseRoundKeys(rk: array<bv32>, nr: nat)
    requires 4 * nr + 4 <= rk.Length
    modifies rk
    ensures forall k :: 0 <= k < 4 * nr + 4 ==> 0 <= Mirror(k, nr) < rk.Length && rk[k] == old(rk[..])[Mirror(k, nr)]
  {
    hide Mirror, Reversing, Swapped;
    ghost var was := rk[..];
    ReversingStart(was, nr);
    var i, j := 0, 4 * nr;
    while i < j
      invariant 0 <= i && i % 4 == 0 && j == 4 * nr - i && i <= j + 4 && Reversing(was, rk[..], nr, i, j)
    {
      ghost var mid := rk[..];
      SwapRoundKeys(rk, i, j);
      ReversingStep(was, mid, rk[..], nr, i);
      i, j := i + 4, j - 4;
    }
    ReversingEnd(was, rk[..], nr, i, j);
  }

  lemma ReversingStart(was: seq<bv32>, nr: nat)
    requires 4 * nr + 4 <= |was|
    ensures Reversing(was, was, nr, 0, 4 * nr)
  {
    MirrorInside(nr);
  }

  lemma ReversingEnd(was: seq<bv32>, now: seq<bv32>, nr: nat, i: nat, j: int)
    requires Reversing(was, now, nr, i, j) && i % 4 == 0 && j == 4 * nr - i && j <= i <= j + 4
    ensures |now| == |was|
    ensures forall k :: 0 <= k < 4 * nr + 4 ==> 0 <= Mirror(k, nr) < |was| && now[k] == was[Mirror(k, nr)]
  {
    hide Mirror, Reversing;
    SameSizes(was, now, nr, i, j);
    forall k | 0 <= k < 4 * nr + 4 ensures 0 <= Mirror(k, nr) < |was| && now[k] == was[Mirror(k, nr)] {
      ReversingAt(was, now, nr, i, j, k);
      if i <= k < j + 4 { MirrorGroup(nr, i); }
    }
  }

  lemma SameSizes(was: seq<bv32>, now: seq<bv32>, nr: nat, i: nat, j: int)
    requires Reversing(was, now, nr, i, j)
    ensures |now| == |was| && 4 * nr + 4 <= |was|
  {
  }

  lemma ReversingAt(was: seq<bv32>, now: seq<bv32>, nr: nat, i: nat, j: int, k: nat)
    requires Reversing(was, now, nr, i, j) && k < 4 * nr + 4
    ensures |now| == |was| && k < |was|
    ensures 0 <= Mirror(k, nr) < |was| && now[k] == if k < i || k >= j + 4 then was[Mirror(k, nr)] else was[k]
  {
    hide Mirror;
  }

  lemma MirrorInside(nr: nat)
    ensures forall k :: 0 <= k < 4 * nr + 4 ==> 0 <= Mirror(k, nr) < 4 * nr + 4
  {
  }

  lemma MirrorGroup(nr: nat, i: nat)
    requires i % 4 == 0 && i <= 4 * nr
    ensures forall k :: i <= k < i + 4 ==> Mirror(k, nr) == k + (4 * nr - i - i)
    ensures forall k :: 4 * nr - i <= k < 4 * nr - i + 4 ==> Mirror(k, nr) == k - (4 * nr - i - i)
  {
  }

  method SwapRoundKeys(rk: array<bv32>, i: nat, j: nat)
    requires i + 4 <= j && j + 4 <= rk.Length
    modifies rk
    ensures Swapped(old(rk[..]), rk[..], i, j, 4)
  {
    for q := 0 to 4
      invariant forall k :: 0 <= k < rk.Length ==>
                  rk[k] == if i <= k < i + q then old(rk[k + (j - i)])
                           else if j <= k < j + q then old(rk[k - (j - i)]) else old(rk[k])
    {
      var temp := rk[i + q];
      rk[i + q] := rk[j + q];
      rk[j + q] := temp;
    }
  }

  /** The loop that applies the inverse mixing to all round keys but the first and the last. */
  method UnmixRoundKeys(rk: array<bv32>, nr: nat)
    requires 4 * nr + 4 <= rk.Length && nr > 0
    modifies rk
    ensures forall k :: 0 <= k < rk.Length ==>
              rk[k] == if 4 <= k < 4 * nr then InvMixColumn(old(rk[k])) else old(rk[k])
  {
    hide InvMixColumn, UnmixByTables;
    var i := 1;
    while i < nr
      invariant 1 <= i <= nr
      invariant forall k :: 0 <= k < rk.Length ==>
                  rk[k] == if 4 <= k < 4 * i then InvMixColumn(old(rk[k])) else old(rk[k])
    {
      for q := 0 to 4
        invariant forall k :: 0 <= k < rk.Length ==>
                    rk[k] == if 4 <= k < 4 * i + q then InvMixColumn(old(rk[k])) else old(rk[k])
      {
        UnmixByTablesMeans(rk[4 * i + q]);
        rk[4 * i + q] := UnmixByTables(rk[4 * i + q]);
      }
      i := i + 1;
    }
  }

  /** AES_set_decrypt_key */
  method SetDecryptKey(userKey: array?<bv8>, bits: int, key: AesKey?) returns (status: int)
    requires userKey != null && ValidBits(bits) ==> bits / 8 <= userKey.Length
    requires key != null ==> key.rdKey.Length == 60
    modifies if key == null then {} else {key, key.rdKey}
    ensures status == if userKey == null || key == null then -1 else if !ValidBits(bits) then -2 else 0
    ensures key != null && status != 0 ==> key.rounds == old(key.rounds) && key.rdKey[..] == old(key.rdKey[..])
    ensures status == 0 ==>
              key.rounds == RoundsFor(bits) &&
              Inverts(Schedule(KeyWords(old(userKey[..]), bits / 32), key.rounds), key.rdKey[..], key.rounds)
  {
    hide Expanded, InvMixColumn, Pack, Inverts, Mirror;
    status := SetEncryptKey(userKey, bits, key);
    if status < 0 {
      return;
    }
    var rk, nr := key.rdKey, key.rounds;
    ghost var w := Schedule(KeyWords(userKey[..], bits / 32), nr);
    assert forall k :: 0 <= k < 4 * nr + 4 ==> rk[k] == w[k];
    ReverseRoundKeys(rk, nr);
    UnmixRoundKeys(rk, nr);
    MirrorInside(nr);
    MirroredInverts(w, rk[..], nr);
  }

  lemma MirroredInverts(w: seq<bv32>, d: seq<bv32>, nr: nat)
    requires nr > 0 && |w| == 4 * nr + 4 <= |d|
    requires forall k :: 0 <= k < 4 * nr + 4 ==>
               0 <= Mirror(k, nr) < |w| &&
               d[k] == if 4 <= k < 4 * nr then InvMixColumn(w[Mirror(k, nr)]) else w[Mirror(k, nr)]
    ensures Inverts(w, d, nr)
  {
    hide InvMixColumn, Mirror;
    forall r | 0 <= r <= nr
      ensures RoundKey(d, r) == if r == 0 || r == nr then RoundKey(w, nr - r) else InvMixColumns(RoundKey(w, nr - r))
    {
      MirrorGroup(nr, 4 * r);
    }
  }

  // ---------------------------------------------------------------- one block

  ghost predicate UsableKey(key: AesKey)
    reads key
  {
    key.rdKey.Length == 60 && 2 <= key.rounds <= 14 && key.rounds % 2 == 0
  }

  /** Putting sixteen bytes in place. */
  ghost function Splice(a: seq<bv8>, at: nat, b: seq<bv8>): (r: seq<bv8>)
    requires at + |b| <= |a|
    ensures |r| == |a| && r[at..at + |b|] == b
  {
    a[..at] + b + a[at + |b|..]
  }

  /** PUTU32 */
  method PutU32(output: array<bv8>, at: nat, w: bv32)
    requires at + 4 <= output.Length
    modifies output
    ensures output[..] == Splice(old(output[..]), at, WordBytes(w))
  {
    hide Byte0, Byte1, Byte2, Byte3;
    output[at] := Byte0(w);
    output[at + 1] := Byte1(w);
    output[at + 2] := Byte2(w);
    output[at + 3] := Byte3(w);
  }

  lemma SpliceTwice(a: seq<bv8>, at: nat, b: seq<bv8>, c: seq<bv8>)
    requires at + |b| + |c| <= |a|
    ensures Splice(Splice(a, at, b), at + |b|, c) == Splice(a, at, b + c)
  {
  }

  method PutBlock(output: array<bv8>, at: nat, b: Block)
    requires at + 16 <= output.Length
    modifies output
    ensures output[..] == Splice(old(output[..]), at, StoreBlock(b))
  {
    hide WordBytes, Splice;
    PutU32(output, at, b.c0);
    PutU32(output, at + 4, b.c1);
    PutU32(output, at + 8, b.c2);
    PutU32(output, at + 12, b.c3);
    ghost var a := old(output[..]);
    SpliceTwice(a, at, WordBytes(b.c0), WordBytes(b.c1));
    SpliceTwice(a, at, WordBytes(b.c0) + WordBytes(b.c1), WordBytes(b.c2));
    SpliceTwice(a, at, WordBytes(b.c0) + WordBytes(b.c1) + WordBytes(b.c2), WordBytes(b.c3));
  }

  method GetBlock(input: array<bv8>, at: nat) returns (b: Block)
    requires at + 16 <= input.Length
    ensures b == LoadBlock(input[at..at + 16])
  {
    hide Pack;
    ghost var bytes := input[at..at + 16];
    b := Block(Pack(input[at], input[at + 1], input[at + 2], input[at + 3]),
               Pack(input[at + 4], input[at + 5], input[at + 6], input[at + 7]),
               Pack(input[at + 8], input[at + 9], input[at + 10], input[at + 11]),
               Pack(input[at + 12], input[at + 13], input[at + 14], input[at + 15]));
  }

  /** What one block of bytes becomes. */
  ghost function EncryptedBytes(w: seq<bv32>, nr: nat, bytes: seq<bv8>): (r: seq<bv8>)
    requires nr > 0 && 4 * nr + 4 <= |w| && |bytes| == 16
    ensures |r| == 16
  {
    StoreBlock(Cipher(w, nr, LoadBlock(bytes)))
  }

  ghost function DecryptedBytes(w: seq<bv32>, nr: nat, bytes: seq<bv8>): (r: seq<bv8>)
    requires nr > 0 && 4 * nr + 4 <= |w| && |bytes| == 16
    ensures |r| == 16
  {
    StoreBlock(EqInvCipher(w, nr, LoadBlock(bytes)))
  }

  /** Decrypting an encrypted block gives it back. */
  lemma BlockRoundTrip(w: seq<bv32>, d: seq<bv32>, nr: nat, bytes: seq<bv8>)
    requires nr > 0 && Inverts(w, d, nr) && |bytes| == 16
    ensures DecryptedBytes(d, nr, EncryptedBytes(w, nr, bytes)) == bytes
  {
    hide LoadBlock, StoreBlock, Cipher, EqInvCipher;
    var b := LoadBlock(bytes);
    LoadStore(Cipher(w, nr, b));
    DecryptUndoesEncrypt(w, d, nr, b);
    StoreLoad(bytes);
  }

  /** The rounds of AES_encrypt: two per iteration, the state alternating between s and t. */
  method EncryptRounds(block: Block, key: AesKey) returns (s: Block)
    requires UsableKey(key)
    ensures s == Cipher(key.rdKey[..], key.rounds, block)
  {
    hide XorW, AddKey, TeRound, TeLast, RoundKey, EncState, Cipher;
    ghost var w, nr := key.rdKey[..], key.rounds;
    var rk := key.rdKey;
    s := Block(XorW(block.c0, rk[0]), XorW(block.c1, rk[1]), XorW(block.c2, rk[2]), XorW(block.c3, rk[3]));
    EncryptStart(rk, block);
    var t := s;
    var o, r := 0, key.rounds / 2;
    ghost var n := 0;
    while true
      invariant 1 <= r && n + 2 * r == nr && o == 4 * n && s == EncState(w, block, n)
      decreases r
    {
      var k := KeyBlock(rk, o + 4, n + 1);
      t := TeRound(s, k);
      EncStateNext(w, block, n, s, t);
      o, r := o + 8, r - 1;
      if r == 0 {
        break;
      }
      k := KeyBlock(rk, o, n + 2);
      s := TeRound(t, k);
      EncStateNext(w, block, n + 1, t, s);
      n := n + 2;
    }
    var last := KeyBlock(rk, o, nr);
    s := TeLast(t, last);
    LastRound(w, nr, block, t, s);
  }

  /** AES_encrypt. Input and output may overlap. */
  method Encrypt(input: array<bv8>, at: nat, output: array<bv8>, to: nat, key: AesKey)
    requires at + 16 <= input.Length && to + 16 <= output.Length && UsableKey(key)
    modifies output
    ensures output[..] == Splice(old(output[..]), to, EncryptedBytes(old(key.Words()), key.rounds, old(input[at..at + 16])))
  {
    hide Splice, LoadBlock, StoreBlock, Cipher;
    var b := GetBlock(input, at);
    var s := EncryptRounds(b, key);
    PutBlock(output, to, s);
  }

  /** The rounds of AES_decrypt: two per iteration, the state alternating between s and t. */
  method DecryptRounds(block: Block, key: AesKey) returns (s: Block)
    requires UsableKey(key)
    ensures s == EqInvCipher(key.rdKey[..], key.rounds, block)
  {
    hide XorW, AddKey, TdRound, TdLast, RoundKey, DecState, EqInvCipher;
    ghost var w, nr := key.rdKey[..], key.rounds;
    var rk := key.rdKey;
    s := Block(XorW(block.c0, rk[0]), XorW(block.c1, rk[1]), XorW(block.c2, rk[2]), XorW(block.c3, rk[3]));
    DecryptStart(rk, block);
    var t := s;
    var o, r := 0, key.rounds / 2;
    ghost var n := 0;
    while true
      invariant 1 <= r && n + 2 * r == nr && o == 4 * n && s == DecState(w, block, n)
      decreases r
    {
      var k := KeyBlock(rk, o + 4, n + 1);
      t := TdRound(s, k);
      DecStateNext(w, block, n, s, t);
      o, r := o + 8, r - 1;
      if r == 0 {
        break;
      }
      k := KeyBlock(rk, o, n + 2);
      s := TdRound(t, k);
      DecStateNext(w, block, n + 1, t, s);
      n := n + 2;
    }
    var last := KeyBlock(rk, o, nr);
    s := TdLast(t, last);
    LastDecRound(w, nr, block, t, s);
  }

  /** AES_decrypt. Input and output may overlap. */
  method Decrypt(input: array<bv8>, at: nat, output: array<bv8>, to: nat, key: AesKey)
    requires at + 16 <= input.Length && to + 16 <= output.Length && UsableKey(key)
    modifies output
    ensures output[..] == Splice(old(output[..]), to, DecryptedBytes(old(key.Words()), key.rounds, old(input[at..at + 16])))
  {
    hide Splice, LoadBlock, StoreBlock, EqInvCipher;
    var b := GetBlock(input, at);
    var s := DecryptRounds(b, key);
    PutBlock(output, to, s);
  }

  /** The four words of a round key. */
  method KeyBlock(rk: array<bv32>, o: nat, ghost r: nat) returns (k: Block)
    requires o == 4 * r && o + 4 <= rk.Length
    ensures k == RoundKey(rk[..], r)
  {
    k := Block(rk[o], rk[o + 1], rk[o + 2], rk[o + 3]);
  }

  lemma EncryptStart(rk: array<bv32>, b: Block)
    requires 4 <= rk.Length
    ensures EncState(rk[..], b, 0) == Block(XorW(b.c0, rk[0]), XorW(b.c1, rk[1]), XorW(b.c2, rk[2]), XorW(b.c3, rk[3]))
  {
    hide XorW;
  }

  lemma DecryptStart(rk: array<bv32>, b: Block)
    requires 4 <= rk.Length
    ensures DecState(rk[..], b, 0) == Block(XorW(b.c0, rk[0]), XorW(b.c1, rk[1]), XorW(b.c2, rk[2]), XorW(b.c3, rk[3]))
  {
    hide XorW;
  }

  lemma EncStateNext(w: seq<bv32>, b: Block, r: nat, s: Block, t: Block)
    requires 4 * r + 8 <= |w| && s == EncState(w, b, r)
    requires t == TeRound(s, RoundKey(w, r + 1))
    ensures t == EncState(w, b, r + 1)
  {
    hide TeRound, EncRound;
    TeRoundIsRound(s, RoundKey(w, r + 1));
  }

  lemma LastRound(w: seq<bv32>, nr: nat, b: Block, t: Block, s: Block)
    requires nr > 0 && 4 * nr + 4 <= |w| && t == EncState(w, b, nr - 1)
    requires s == TeLast(t, RoundKey(w, nr))
    ensures s == Cipher(w, nr, b)
  {
    hide Te4Word, Gather, SubWord, XorW, EncState, RoundKey;
    Te4WordGathers(t.c0, t.c1, t.c2, t.c3);
    Te4WordGathers(t.c1, t.c2, t.c3, t.c0);
    Te4WordGathers(t.c2, t.c3, t.c0, t.c1);
    Te4WordGathers(t.c3, t.c0, t.c1, t.c2);
  }

  lemma DecStateNext(w: seq<bv32>, b: Block, r: nat, s: Block, t: Block)
    requires 4 * r + 8 <= |w| && s == DecState(w, b, r)
    requires t == TdRound(s, RoundKey(w, r + 1))
    ensures t == DecState(w, b, r + 1)
  {
    hide TdRound, DecRound;
    TdRoundIsRound(s, RoundKey(w, r + 1));
  }

  lemma LastDecRound(w: seq<bv32>, nr: nat, b: Block, t: Block, s: Block)
    requires nr > 0 && 4 * nr + 4 <= |w| && t == DecState(w, b, nr - 1)
    requires s == TdLast(t, RoundKey(w, nr))
    ensures s == EqInvCipher(w, nr, b)
  {
    hide Td4Word, Gather, InvSubWord, XorW, DecState, RoundKey;
    Td4WordGathers(t.c0, t.c3, t.c2, t.c1);
    Td4WordGathers(t.c1, t.c0, t.c3, t.c2);
    Td4WordGathers(t.c2, t.c1, t.c0, t.c3);
    Td4WordGathers(t.c3, t.c2, t.c1, t.c0);
  }

  /** Round keys depend only on the words of the schedule. */
  lemma SameScheduleInverts(w: seq<bv32>, e: seq<bv32>, d: seq<bv32>, nr: nat)
    requires Inverts(w, d, nr) && 4 * nr + 4 <= |e| && forall i :: 0 <= i < 4 * nr + 4 ==> e[i] == w[i]
    ensures Inverts(e, d, nr)
  {
    hide InvMixColumns;
    assert forall r :: 0 <= r <= nr ==> RoundKey(e, r) == RoundKey(w, r);
  }

  /** The AES inverse: for every 128, 192 or 256 bit key and every block, decrypting with the
      schedule of AES_set_decrypt_key undoes encrypting with the schedule of AES_set_encrypt_key. */
  method EncryptThenDecrypt(userKey: array<bv8>, bits: int, block: array<bv8>)
    requires ValidBits(bits) && bits / 8 <= userKey.Length && block.Length == 16 && block != userKey
    modifies block
    ensures block[..] == old(block[..])
  {
    hide Expanded, Inverts, EncryptedBytes, DecryptedBytes, Pack;
    var ek := new AesKey();
    var dk := new AesKey();
    var status := SetEncryptKey(userKey, bits, ek);
    ghost var e := ek.Words();
    status := SetDecryptKey(userKey, bits, dk);
    ghost var d, nr := dk.Words(), RoundsFor(bits);
    SameScheduleInverts(Schedule(KeyWords(userKey[..], bits / 32), nr), e, d, nr);
    BlockRoundTrip(e, d, nr, block[..]);
    assert block[0..16] == block[..];
    Encrypt(block, 0, block, 0, ek);
    WholeSplice(old(block[..]), EncryptedBytes(e, nr, old(block[..])));
    assert block[0..16] == block[..];
    Decrypt(block, 0, block, 0, dk);
    WholeSplice(EncryptedBytes(e, nr, old(block[..])), old(block[..]));
  }

  lemma WholeSplice(a: seq<bv8>, b: seq<bv8>)
    requires |a| == |b|
    ensures Splice(a, 0, b) == b
  {
  }
}
