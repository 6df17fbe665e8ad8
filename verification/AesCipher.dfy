/**
 AES as FIPS 197 states it (key expansion, cipher, and the equivalent inverse cipher of section
 5.3.5), the table form of its rounds used by aes.c, and the theorem that decryption undoes
 encryption for every key schedule.
 */
module AesCipher {
  import opened AesTables
  import opened AesRounds

  /** The state: four columns. */
  datatype Block = Block(c0: bv32, c1: bv32, c2: bv32, c3: bv32)

  // ---------------------------------------------------------------- FIPS 197 on a state

  function SubWord(w: bv32): bv32 {
    Pack(S(Byte0(w)), S(Byte1(w)), S(Byte2(w)), S(Byte3(w)))
  }

  function InvSubWord(w: bv32): bv32 {
    Pack(Si(Byte0(w)), Si(Byte1(w)), Si(Byte2(w)), Si(Byte3(w)))
  }

  function SubBytes(s: Block): Block {
    Block(SubWord(s.c0), SubWord(s.c1), SubWord(s.c2), SubWord(s.c3))
  }

  function InvSubBytes(s: Block): Block {
    Block(InvSubWord(s.c0), InvSubWord(s.c1), InvSubWord(s.c2), InvSubWord(s.c3))
  }

  /** A column whose rows come from four columns. */
  function Gather(a: bv32, b: bv32, c: bv32, d: bv32): bv32 {
    Pack(Byte0(a), Byte1(b), Byte2(c), Byte3(d))
  }

  function ShiftRows(s: Block): Block {
    Block(Gather(s.c0, s.c1, s.c2, s.c3), Gather(s.c1, s.c2, s.c3, s.c0),
          Gather(s.c2, s.c3, s.c0, s.c1), Gather(s.c3, s.c0, s.c1, s.c2))
  }

  function InvShiftRows(s: Block): Block {
    Block(Gather(s.c0, s.c3, s.c2, s.c1), Gather(s.c1, s.c0, s.c3, s.c2),
          Gather(s.c2, s.c1, s.c0, s.c3), Gather(s.c3, s.c2, s.c1, s.c0))
  }

  function MixColumns(s: Block): Block {
    Block(MixColumn(s.c0), MixColumn(s.c1), MixColumn(s.c2), MixColumn(s.c3))
  }

  function InvMixColumns(s: Block): Block {
    Block(InvMixColumn(s.c0), InvMixColumn(s.c1), InvMixColumn(s.c2), InvMixColumn(s.c3))
  }

  function AddKey(s: Block, k: Block): Block {
    Block(XorW(s.c0, k.c0), XorW(s.c1, k.c1), XorW(s.c2, k.c2), XorW(s.c3, k.c3))
  }

  function EncRound(s: Block, k: Block): Block {
    AddKey(MixColumns(ShiftRows(SubBytes(s))), k)
  }

  /** A round of the equivalent inverse cipher; `k` is already unmixed. */
  function DecRound(s: Block, k: Block): Block {
    AddKey(InvMixColumns(InvShiftRows(InvSubBytes(s))), k)
  }

  lemma SubWordBytes(w: bv32)
    ensures Byte0(SubWord(w)) == S(Byte0(w)) && Byte1(SubWord(w)) == S(Byte1(w))
    ensures Byte2(SubWord(w)) == S(Byte2(w)) && Byte3(SubWord(w)) == S(Byte3(w))
  {
    hide S, Byte0, Byte1, Byte2, Byte3, Pack;
    PackBytes(S(Byte0(w)), S(Byte1(w)), S(Byte2(w)), S(Byte3(w)));
  }

  lemma InvSubWordBytes(w: bv32)
    ensures Byte0(InvSubWord(w)) == Si(Byte0(w)) && Byte1(InvSubWord(w)) == Si(Byte1(w))
    ensures Byte2(InvSubWord(w)) == Si(Byte2(w)) && Byte3(InvSubWord(w)) == Si(Byte3(w))
  {
    hide Si, Byte0, Byte1, Byte2, Byte3, Pack;
    PackBytes(Si(Byte0(w)), Si(Byte1(w)), Si(Byte2(w)), Si(Byte3(w)));
  }

  lemma GatherBytes(a: bv32, b: bv32, c: bv32, d: bv32)
    ensures var w := Gather(a, b, c, d);
            Byte0(w) == Byte0(a) && Byte1(w) == Byte1(b) && Byte2(w) == Byte2(c) && Byte3(w) == Byte3(d)
  {
    hide Byte0, Byte1, Byte2, Byte3, Pack;
    PackBytes(Byte0(a), Byte1(b), Byte2(c), Byte3(d));
  }

  /** Four bytes that went through the S-box, were shifted and came back. */
  lemma ColumnBack(w: bv32, a: bv32, b: bv32, c: bv32, d: bv32)
    requires Byte0(a) == Byte0(SubWord(w)) && Byte1(b) == Byte1(SubWord(w))
    requires Byte2(c) == Byte2(SubWord(w)) && Byte3(d) == Byte3(SubWord(w))
    ensures Gather(InvSubWord(a), InvSubWord(b), InvSubWord(c), InvSubWord(d)) == w
  {
    hide S, Si, Byte0, Byte1, Byte2, Byte3, Pack, SubWord, InvSubWord;
    SubWordBytes(w);
    InvSubWordBytes(a);
    InvSubWordBytes(b);
    InvSubWordBytes(c);
    InvSubWordBytes(d);
    TablesInverse(Byte0(w));
    TablesInverse(Byte1(w));
    TablesInverse(Byte2(w));
    TablesInverse(Byte3(w));
    BytesPack(w);
  }

  lemma UnshiftUnsub(s: Block)
    ensures InvShiftRows(InvSubBytes(ShiftRows(SubBytes(s)))) == s
  {
    hide Gather, SubWord, InvSubWord, Byte0, Byte1, Byte2, Byte3;
    var t := SubBytes(s);
    var u := ShiftRows(t);
    GatherBytes(t.c0, t.c1, t.c2, t.c3);
    GatherBytes(t.c1, t.c2, t.c3, t.c0);
    GatherBytes(t.c2, t.c3, t.c0, t.c1);
    GatherBytes(t.c3, t.c0, t.c1, t.c2);
    ColumnBack(s.c0, u.c0, u.c3, u.c2, u.c1);
    ColumnBack(s.c1, u.c1, u.c0, u.c3, u.c2);
    ColumnBack(s.c2, u.c2, u.c1, u.c0, u.c3);
    ColumnBack(s.c3, u.c3, u.c2, u.c1, u.c0);
  }

  lemma UnmixColumns(s: Block)
    ensures InvMixColumns(MixColumns(s)) == s
  {
    hide MixColumn, InvMixColumn;
    UnmixColumn(s.c0);
    UnmixColumn(s.c1);
    UnmixColumn(s.c2);
    UnmixColumn(s.c3);
  }

  lemma InvMixAddKey(s: Block, k: Block)
    ensures InvMixColumns(AddKey(s, k)) == AddKey(InvMixColumns(s), InvMixColumns(k))
  {
    hide InvMixColumn, XorW;
    InvMixIsLinear(s.c0, k.c0);
    InvMixIsLinear(s.c1, k.c1);
    InvMixIsLinear(s.c2, k.c2);
    InvMixIsLinear(s.c3, k.c3);
  }

  lemma AddKeyTwice(s: Block, k: Block)
    ensures AddKey(AddKey(s, k), k) == s
  {
    hide XorW;
    XorWCancels(s.c0, k.c0);
    XorWCancels(s.c1, k.c1);
    XorWCancels(s.c2, k.c2);
    XorWCancels(s.c3, k.c3);
  }

  // ---------------------------------------------------------------- key expansion

  function RotWord(w: bv32): bv32 {
    Pack(Byte1(w), Byte2(w), Byte3(w), Byte0(w))
  }

  function Power(j: nat): bv8 {
    if j == 0 then 1 else Double(Power(j - 1))
  }

  /** Rcon[j] of section 5.2 of FIPS 197, for j from 1 on. */
  function Rcon(j: nat): bv32
    requires j > 0
  {
    Pack(Power(j - 1), 0, 0, 0)
  }

  /** Word `i` of KeyExpansion, section 5.2 of FIPS 197, for a key of |key| words. */
  function Expanded(key: seq<bv32>, i: nat): bv32
    requires |key| > 0
  {
    var nk := |key|;
    if i < nk then key[i]
    else
      var temp := Expanded(key, i - 1);
      XorW(Expanded(key, i - nk),
           if i % nk == 0 then XorW(SubWord(RotWord(temp)), Rcon(i / nk))
           else if nk > 6 && i % nk == 4 then SubWord(temp)
           else temp)
  }

  // ---------------------------------------------------------------- the ciphers

  function RoundKey(w: seq<bv32>, r: nat): Block
    requires 4 * r + 4 <= |w|
  {
    Block(w[4 * r], w[4 * r + 1], w[4 * r + 2], w[4 * r + 3])
  }

  /** The state after the first `r` rounds of encryption. */
  function EncState(w: seq<bv32>, b: Block, r: nat): Block
    requires 4 * r + 4 <= |w|
  {
    if r == 0 then AddKey(b, RoundKey(w, 0)) else EncRound(EncState(w, b, r - 1), RoundKey(w, r))
  }

  /** Cipher, section 5.1 of FIPS 197. */
  function Cipher(w: seq<bv32>, nr: nat, b: Block): Block
    requires nr > 0 && 4 * nr + 4 <= |w|
  {
    AddKey(ShiftRows(SubBytes(EncState(w, b, nr - 1))), RoundKey(w, nr))
  }

  function DecState(w: seq<bv32>, b: Block, r: nat): Block
    requires 4 * r + 4 <= |w|
  {
    if r == 0 then AddKey(b, RoundKey(w, 0)) else DecRound(DecState(w, b, r - 1), RoundKey(w, r))
  }

  /** EqInvCipher, section 5.3.5 of FIPS 197. */
  function EqInvCipher(w: seq<bv32>, nr: nat, b: Block): Block
    requires nr > 0 && 4 * nr + 4 <= |w|
  {
    AddKey(InvShiftRows(InvSubBytes(DecState(w, b, nr - 1))), RoundKey(w, nr))
  }

  /** `d` is the decryption schedule for the encryption schedule `w`: the round keys in reverse
      order, all but the outermost two unmixed. */
  ghost predicate Inverts(w: seq<bv32>, d: seq<bv32>, nr: nat) {
    && 4 * nr + 4 <= |w| && 4 * nr + 4 <= |d|
    && forall r :: 0 <= r <= nr ==>
         RoundKey(d, r) == if r == 0 || r == nr then RoundKey(w, nr - r) else InvMixColumns(RoundKey(w, nr - r))
  }

  /** Decryption runs through the states of encryption backwards. */
  lemma {:induction false} StatesRunBack(w: seq<bv32>, d: seq<bv32>, nr: nat, b: Block, r: nat)
    requires Inverts(w, d, nr) && r < nr
    ensures DecState(d, Cipher(w, nr, b), r) == ShiftRows(SubBytes(EncState(w, b, nr - 1 - r)))
  {
    hide AddKey, SubBytes, ShiftRows, MixColumns, InvSubBytes, InvShiftRows, InvMixColumns, RoundKey;
    if r == 0 {
      AddKeyTwice(ShiftRows(SubBytes(EncState(w, b, nr - 1))), RoundKey(w, nr));
    } else {
      StatesRunBack(w, d, nr, b, r - 1);
      var e := EncState(w, b, nr - r);
      var f := EncState(w, b, nr - r - 1);
      UnshiftUnsub(e);
      var k := RoundKey(w, nr - r);
      InvMixAddKey(e, k);
      AddKeyTwice(MixColumns(ShiftRows(SubBytes(f))), k);
      UnmixColumns(ShiftRows(SubBytes(f)));
    }
  }

  /** Decryption undoes encryption, for every schedule, number of rounds and block. */
  lemma DecryptUndoesEncrypt(w: seq<bv32>, d: seq<bv32>, nr: nat, b: Block)
    requires nr > 0 && Inverts(w, d, nr)
    ensures EqInvCipher(d, nr, Cipher(w, nr, b)) == b
  {
    hide AddKey, SubBytes, ShiftRows, InvSubBytes, InvShiftRows, RoundKey;
    StatesRunBack(w, d, nr, b, nr - 1);
    UnshiftUnsub(EncState(w, b, 0));
    AddKeyTwice(b, RoundKey(w, 0));
  }
}
