/**
 bitops.h: the bits of a 64-bit word, masks, and the binary searches for its first and last set bit.
 */
module Words {
  type Word = bv64

  const BITS := 64

  // The operators of C on unsigned long, by name.
  function And(a: Word, b: Word): Word { a & b }
  function Or(a: Word, b: Word): Word { a | b }
  function Not(a: Word): Word { !a }
  function Half(a: Word): Word { a >> 1 }
  function Twice(a: Word): Word { a << 1 }
  predicate Odd(a: Word) { a & 1 == 1 }
  function Ones(): Word { 0xffff_ffff_ffff_ffff }

  /** Bit k of a word. */
  function Bit(w: Word, k: nat): bool
    decreases k
  {
    if k == 0 then Odd(w) else Bit(Half(w), k - 1)
  }

  /** w >> n */
  function Shr(w: Word, n: nat): Word
    decreases n
  {
    if n == 0 then w else Shr(Half(w), n - 1)
  }

  /** w << n */
  function Shl(w: Word, n: nat): Word
    decreases n
  {
    if n == 0 then w else Twice(Shl(w, n - 1))
  }

  // ---------------------------------------------------------------- laws of the operators

  lemma AndHalves(a: Word, b: Word)
    ensures Half(And(a, b)) == And(Half(a), Half(b)) && (Odd(And(a, b)) <==> Odd(a) && Odd(b))
  {
  }

  lemma OrHalves(a: Word, b: Word)
    ensures Half(Or(a, b)) == Or(Half(a), Half(b))
  {
  }

  lemma OrOdd(a: Word, b: Word)
    ensures Odd(Or(a, b)) <==> Odd(a) || Odd(b)
  {
  }

  lemma {:induction false} AndBit(a: Word, b: Word, k: nat)
    ensures Bit(And(a, b), k) <==> Bit(a, k) && Bit(b, k)
    decreases k
  {
    hide And, Half, Odd;
    AndHalves(a, b);
    if k > 0 { AndBit(Half(a), Half(b), k - 1); }
  }

  lemma {:induction false} OrBit(a: Word, b: Word, k: nat)
    ensures Bit(Or(a, b), k) <==> Bit(a, k) || Bit(b, k)
    decreases k
  {
    hide Or, Half, Odd;
    OrHalves(a, b);
    OrOdd(a, b);
    if k > 0 { OrBit(Half(a), Half(b), k - 1); }
  }

  lemma {:induction false} ShrBit(w: Word, n: nat, k: nat)
    ensures Bit(Shr(w, n), k) == Bit(w, n + k)
    decreases n
  {
    hide Half, Odd;
    if n > 0 { ShrBit(Half(w), n - 1, k); }
  }

  lemma ZeroHalves()
    ensures Half(0) == 0 && !Odd(0)
  {
  }

  lemma {:induction false} ZeroBit(k: nat)
    ensures !Bit(0, k)
  {
    hide Half, Odd;
    ZeroHalves();
    if k > 0 { ZeroBit(k - 1); }
  }

  // ---------------------------------------------------------------- all set, none set

  // A mask of 2n low ones is two masks of n, one of them n places up. Each pair of lemmas below
  // doubles the one before it.

  function Low(n: nat): Word
    requires n in {1, 2, 4, 8, 16, 32, 64}
  {
    if n == 1 then 0x1 else if n == 2 then 0x3 else if n == 4 then 0xf else if n == 8 then 0xff
    else if n == 16 then 0xffff else if n == 32 then 0xffff_ffff else Ones()
  }

  /** w >> n for the distances of the binary searches. */
  function Down(w: Word, n: nat): Word
    requires n in {1, 2, 4, 8, 16, 32}
  {
    if n == 1 then w >> 1 else if n == 2 then w >> 2 else if n == 4 then w >> 4 else if n == 8 then w >> 8
    else if n == 16 then w >> 16 else w >> 32
  }

  lemma Down2(w: Word)
    ensures Down(w, 2) == Down(Down(w, 1), 1)
  {
  }

  lemma Down4(w: Word)
    ensures Down(w, 4) == Down(Down(w, 2), 2)
  {
  }

  lemma Down8(w: Word)
    ensures Down(w, 8) == Down(Down(w, 4), 4)
  {
  }

  lemma Down16(w: Word)
    ensures Down(w, 16) == Down(Down(w, 8), 8)
  {
  }

  lemma Down32(w: Word)
    ensures Down(w, 32) == Down(Down(w, 16), 16)
  {
  }

  lemma DownTwice(w: Word, n: nat)
    requires n in {1, 2, 4, 8, 16}
    ensures Down(w, 2 * n) == Down(Down(w, n), n)
  {
    hide Down;
    Down2(w);
    Down4(w);
    Down8(w);
    Down16(w);
    Down32(w);
  }

  lemma DownOne(w: Word)
    ensures Down(w, 1) == Half(w) && And(w, Low(1)) == (if Odd(w) then 1 else 0) && Low(1) == 1
  {
  }

  lemma {:induction false} DownBit(w: Word, n: nat, k: nat)
    requires n in {1, 2, 4, 8, 16, 32}
    ensures Bit(Down(w, n), k) == Bit(w, n + k)
    decreases n
  {
    hide Down, Half, Odd, And, Low;
    if n == 1 {
      DownOne(w);
    } else {
      DownTwice(w, n / 2);
      DownBit(w, n / 2, n / 2 + k);
      DownBit(Down(w, n / 2), n / 2, k);
    }
  }

  lemma LowTwice(w: Word, n: nat)
    requires n in {1, 2, 4, 8, 16, 32}
    ensures And(w, Low(2 * n)) == 0 <==> And(w, Low(n)) == 0 && And(Down(w, n), Low(n)) == 0
    ensures And(w, Low(2 * n)) == Low(2 * n) <==> And(w, Low(n)) == Low(n) && And(Down(w, n), Low(n)) == Low(n)
  {
  }

  ghost predicate NoneBelow(w: Word, n: nat) {
    forall k :: 0 <= k < n ==> !Bit(w, k)
  }

  ghost predicate AllBelow(w: Word, n: nat) {
    forall k :: 0 <= k < n ==> Bit(w, k)
  }

  /** Two halves of a run of bits. */
  lemma BelowTwice(w: Word, n: nat)
    requires n in {1, 2, 4, 8, 16, 32}
    ensures NoneBelow(w, 2 * n) <==> NoneBelow(w, n) && NoneBelow(Down(w, n), n)
    ensures AllBelow(w, 2 * n) <==> AllBelow(w, n) && AllBelow(Down(w, n), n)
  {
    hide Down, Bit;
    forall k | 0 <= k < n ensures Bit(Down(w, n), k) == Bit(w, n + k) { DownBit(w, n, k); }
    forall k | n <= k < 2 * n ensures Bit(w, k) == Bit(Down(w, n), k - n) { DownBit(w, n, k - n); }
  }

  /** A mask test is a statement about every bit under the mask. */
  lemma {:induction false} LowBits(w: Word, n: nat)
    requires n in {1, 2, 4, 8, 16, 32, 64}
    ensures And(w, Low(n)) == 0 <==> NoneBelow(w, n)
    ensures And(w, Low(n)) == Low(n) <==> AllBelow(w, n)
    decreases n
  {
    hide Down, Half, Odd, And, Low, NoneBelow, AllBelow;
    if n == 1 {
      DownOne(w);
      BelowOne(w);
    } else {
      LowTwice(w, n / 2);
      LowBits(w, n / 2);
      LowBits(Down(w, n / 2), n / 2);
      BelowTwice(w, n / 2);
    }
  }

  lemma BelowOne(w: Word)
    ensures NoneBelow(w, 1) <==> !Odd(w)
    ensures AllBelow(w, 1) <==> Odd(w)
  {
    hide Odd;
    assert Bit(w, 0) == Odd(w);
  }

  lemma WholeWord(w: Word)
    ensures And(w, Low(64)) == w && Low(64) == Ones()
  {
  }

  /** A word is zero exactly when no bit is set, and all ones exactly when every bit is. */
  lemma WordBits(w: Word)
    ensures w == 0 <==> NoneBelow(w, 64)
    ensures w == Ones() <==> AllBelow(w, 64)
  {
    hide And, Low, NoneBelow, AllBelow, Ones;
    WholeWord(w);
    LowBits(w, 64);
  }

  lemma NotHalves(a: Word)
    ensures And(a, Not(a)) == 0 && Or(a, Not(a)) == Ones()
  {
  }

  lemma NotBit(a: Word, k: nat)
    requires k < 64
    ensures Bit(Not(a), k) == !Bit(a, k)
  {
    hide And, Or, Not, Ones, Bit;
    NotHalves(a);
    AndBit(a, Not(a), k);
    OrBit(a, Not(a), k);
    ZeroBit(k);
    WordBits(Ones());
    assert AllBelow(Ones(), 64);
  }

  // ---------------------------------------------------------------- bitops_ffsl and bitops_flsl

  ghost predicate FirstSet(w: Word, k: nat) {
    k < 64 && Bit(w, k) && NoneBelow(w, k)
  }

  /** `w` is `word` shifted down by `num`. */
  ghost predicate ShiftedBy(w: Word, word: Word, num: nat) {
    forall k: nat :: Bit(w, k) == Bit(word, num + k)
  }

  /** The lower half holds no bit: the upper half is next. */
  lemma UpperHalf(w: Word, word: Word, num: nat, n: nat)
    requires n in {1, 2, 4, 8, 16, 32} && NoneBelow(word, num) && ShiftedBy(w, word, num)
    requires NoneBelow(w, n) && !NoneBelow(w, 2 * n)
    ensures NoneBelow(word, num + n) && !NoneBelow(Down(w, n), n) && ShiftedBy(Down(w, n), word, num + n)
  {
    hide Down, Bit;
    assert !NoneBelow(Down(w, n), n) by {
      hide NoneBelow;
      BelowTwice(w, n);
    }
    forall k: nat ensures Bit(Down(w, n), k) == Bit(word, num + n + k) {
      DownBit(w, n, k);
      assert Bit(w, n + k) == Bit(word, num + (n + k));
    }
    forall k | 0 <= k < num + n ensures !Bit(word, k) {
      if num <= k { assert Bit(w, k - num) == Bit(word, num + (k - num)); }
    }
  }

  /** One step of the binary search: half of the bits that can hold the first one are left. */
  method FfsStep(w: Word, num: nat, n: nat, ghost word: Word) returns (w': Word, num': nat)
    requires n in {1, 2, 4, 8, 16, 32} && num + 2 * n <= 64
    requires NoneBelow(word, num) && !NoneBelow(w, 2 * n) && ShiftedBy(w, word, num)
    ensures num' + n <= 64
    ensures NoneBelow(word, num') && !NoneBelow(w', n) && ShiftedBy(w', word, num')
  {
    hide Down, Bit, And, Low, NoneBelow, ShiftedBy;
    w', num' := w, num;
    LowBits(w, n);
    if And(w, Low(n)) == 0 {
      UpperHalf(w, word, num, n);
      num' := num + n;
      w' := Down(w, n);
    }
  }

  lemma SearchStarts(word: Word)
    ensures NoneBelow(word, 0) && ShiftedBy(word, word, 0)
  {
    hide Bit;
  }

  lemma SearchEnds(w: Word, word: Word, num: nat)
    requires num < 64 && NoneBelow(word, num) && !NoneBelow(w, 1) && ShiftedBy(w, word, num)
    ensures FirstSet(word, num)
  {
    hide Bit;
    assert Bit(w, 0) == Bit(word, num + 0);
  }

  /** bitops_ffsl */
  method Ffsl(word: Word) returns (num: nat)
    requires word != 0
    ensures FirstSet(word, num)
  {
    hide Down, Bit, And, Low, NoneBelow, ShiftedBy, FirstSet;
    WordBits(word);
    SearchStarts(word);
    var w := word;
    num := 0;
    w, num := FfsStep(w, num, 32, word);
    w, num := FfsStep(w, num, 16, word);
    w, num := FfsStep(w, num, 8, word);
    w, num := FfsStep(w, num, 4, word);
    w, num := FfsStep(w, num, 2, word);
    w, num := FfsStep(w, num, 1, word);
    SearchEnds(w, word, num);
  }

  /** ffz */
  method Ffz(word: Word) returns (num: nat)
    requires word != Ones()
    ensures num < 64 && !Bit(word, num) && AllBelow(word, num)
  {
    hide Not, Bit, Ones;
    NotNotOnes(word);
    num := Ffsl(Not(word));
    forall k | 0 <= k <= num ensures Bit(Not(word), k) == !Bit(word, k) { NotBit(word, k); }
  }

  lemma NotNotOnes(a: Word)
    ensures a != Ones() ==> Not(a) != 0
  {
  }

  lemma TwiceHalves(w: Word)
    ensures !Odd(Twice(w)) && Half(Twice(w)) == And(w, Half(Ones()))
  {
  }

  lemma OnesBit(k: nat)
    requires k < 64
    ensures Bit(Ones(), k)
  {
    hide Bit, Ones;
    WordBits(Ones());
    assert AllBelow(Ones(), 64);
  }

  lemma TwiceBit(w: Word, k: nat)
    requires k < 64
    ensures Bit(Twice(w), k) == (k > 0 && Bit(w, k - 1))
  {
    hide Twice, Half, Odd, And, Ones;
    TwiceHalves(w);
    if k > 0 {
      AndBit(w, Half(Ones()), k - 1);
      OnesBit(k);
    }
  }

  lemma {:induction false} ShlBit(w: Word, n: nat, k: nat)
    requires k < 64
    ensures Bit(Shl(w, n), k) == (k >= n && Bit(w, k - n))
    decreases n
  {
    hide Twice, Bit;
    if n > 0 {
      TwiceBit(Shl(w, n - 1), k);
      if k > 0 { ShlBit(w, n - 1, k - 1); }
    }
  }

  /** A word under a mask is zero exactly when it has no bit where the mask has one. */
  lemma MaskedZero(w: Word, m: Word)
    ensures And(w, m) == 0 <==> NoneUnder(w, m)
  {
    hide And, Bit;
    WordBits(And(w, m));
    forall k | 0 <= k < 64 ensures Bit(And(w, m), k) == (Bit(w, k) && Bit(m, k)) { AndBit(w, m, k); }
    if And(w, m) != 0 {
      var j :| 0 <= j < 64 && Bit(And(w, m), j);
      assert Bit(m, j) && Bit(w, j);
    } else {
      forall k | 0 <= k < 64 && Bit(m, k) ensures !Bit(w, k) { assert !Bit(And(w, m), k); }
    }
  }

  ghost predicate NoneUnder(w: Word, m: Word) {
    forall k :: 0 <= k < 64 && Bit(m, k) ==> !Bit(w, k)
  }

  ghost predicate NoneFrom(w: Word, n: nat) {
    forall k :: n <= k < 64 ==> !Bit(w, k)
  }

  ghost predicate LastSet(w: Word, k: nat) {
    k < 64 && Bit(w, k) && NoneFrom(w, k + 1)
  }

  /** `w` is `word` shifted up by `s`. */
  ghost predicate RaisedBy(w: Word, word: Word, s: nat) {
    forall k :: 0 <= k < 64 ==> Bit(w, k) == (k >= s && Bit(word, k - s))
  }

  /** The mask test of bitops_flsl looks at the upper n bits. */
  lemma HighBits(w: Word, n: nat)
    requires n <= 64
    ensures And(w, Shl(Ones(), 64 - n)) == 0 <==> NoneFrom(w, 64 - n)
  {
    hide And, Bit, Shl, Ones;
    var m := Shl(Ones(), 64 - n);
    MaskedZero(w, m);
    forall k | 0 <= k < 64 ensures Bit(m, k) == (k >= 64 - n) {
      ShlBit(Ones(), 64 - n, k);
      if k >= 64 - n { OnesBit(k - (64 - n)); }
    }
    if And(w, m) == 0 {
      forall k | 64 - n <= k < 64 ensures !Bit(w, k) { assert Bit(m, k); }
    }
  }

  lemma LowerHalf(w: Word, word: Word, num: nat, n: nat)
    requires n <= 32 && num < 64 && NoneFrom(word, num + 1) && RaisedBy(w, word, 63 - num)
    requires NoneFrom(w, 64 - n) && !NoneFrom(w, 64 - 2 * n)
    ensures n <= num && NoneFrom(word, num - n + 1) && !NoneFrom(Shl(w, n), 64 - n) && RaisedBy(Shl(w, n), word, 63 - (num - n))
  {
    hide Shl, Bit, RaisedBy;
    RaisedAgain(w, word, 63 - num, n);
    HighestFound(w, word, num, n);
    forall k | num - n + 1 <= k < 64 ensures !Bit(word, k) {
      if k <= num { RaisedAt(w, word, 63 - num, k); }
    }
  }

  lemma RaisedAt(w: Word, word: Word, s: nat, k: nat)
    requires RaisedBy(w, word, s) && k + s < 64
    ensures Bit(w, k + s) == Bit(word, k)
  {
    hide Bit;
    assert Bit(w, k + s) == Bit(word, k + s - s);
  }

  lemma RaisedAgain(w: Word, word: Word, s: nat, n: nat)
    requires RaisedBy(w, word, s)
    ensures RaisedBy(Shl(w, n), word, s + n)
  {
    hide Shl, Bit;
    forall k | 0 <= k < 64 ensures Bit(Shl(w, n), k) == (k >= s + n && Bit(word, k - (s + n))) {
      ShlBit(w, n, k);
      if k >= n { assert Bit(w, k - n) == (k - n >= s && Bit(word, k - n - s)); }
    }
  }

  lemma HighestFound(w: Word, word: Word, num: nat, n: nat)
    requires n <= 32 && num < 64 && RaisedBy(w, word, 63 - num) && NoneFrom(w, 64 - n) && !NoneFrom(w, 64 - 2 * n)
    ensures n <= num && !NoneFrom(Shl(w, n), 64 - n)
  {
    hide Shl, Bit, RaisedBy, NoneFrom;
    var j := Highest(w, 64 - 2 * n, 64 - n);
    RaisedHas(w, word, 63 - num, j);
    ShlBit(w, n, j + n);
    SomeFrom(Shl(w, n), 64 - n, j + n);
  }

  lemma Highest(w: Word, lo: nat, hi: nat) returns (j: nat)
    requires lo <= hi <= 64 && NoneFrom(w, hi) && !NoneFrom(w, lo)
    ensures lo <= j < hi && Bit(w, j)
  {
    hide Bit;
    j :| lo <= j < 64 && Bit(w, j);
  }

  lemma RaisedHas(w: Word, word: Word, s: nat, j: nat)
    requires RaisedBy(w, word, s) && j < 64 && Bit(w, j)
    ensures j >= s
  {
    hide Bit;
  }

  lemma SomeFrom(w: Word, n: nat, k: nat)
    requires n <= k < 64 && Bit(w, k)
    ensures !NoneFrom(w, n)
  {
    hide Bit;
  }

  /** One step of the binary search: half of the bits that can hold the last one are left. */
  method FlsStep(w: Word, num: nat, n: nat, ghost word: Word) returns (w': Word, num': nat)
    requires n <= 32 && num < 64 && NoneFrom(word, num + 1) && RaisedBy(w, word, 63 - num) && !NoneFrom(w, 64 - 2 * n)
    ensures num' < 64 && NoneFrom(word, num' + 1) && RaisedBy(w', word, 63 - num') && !NoneFrom(w', 64 - n)
  {
    hide And, Bit, Shl, Ones, NoneFrom, RaisedBy;
    w', num' := w, num;
    HighBits(w, n);
    if And(w, Shl(Ones(), 64 - n)) == 0 {
      LowerHalf(w, word, num, n);
      num' := num - n;
      w' := Shl(w, n);
    }
  }

  lemma TopSearchStarts(word: Word)
    requires word != 0
    ensures NoneFrom(word, 64) && RaisedBy(word, word, 0) && !NoneFrom(word, 0)
  {
    hide Bit;
    WordBits(word);
    var j :| 0 <= j < 64 && Bit(word, j);
  }

  lemma TopSearchEnds(w: Word, word: Word, num: nat)
    requires num < 64 && NoneFrom(word, num + 1) && !NoneFrom(w, 63) && RaisedBy(w, word, 63 - num)
    ensures LastSet(word, num)
  {
    hide Bit;
    assert Bit(w, 63);
  }

  /** bitops_flsl */
  method Flsl(word: Word) returns (num: nat)
    requires word != 0
    ensures LastSet(word, num)
  {
    hide Bit, NoneFrom, RaisedBy, LastSet;
    TopSearchStarts(word);
    var w := word;
    num := BITS - 1;
    w, num := FlsStep(w, num, 32, word);
    w, num := FlsStep(w, num, 16, word);
    w, num := FlsStep(w, num, 8, word);
    w, num := FlsStep(w, num, 4, word);
    w, num := FlsStep(w, num, 2, word);
    w, num := FlsStep(w, num, 1, word);
    TopSearchEnds(w, word, num);
  }

  // ---------------------------------------------------------------- masks

  /** ~0UL << n */
  lemma HighMask(n: nat, k: nat)
    requires k < 64
    ensures Bit(Shl(Ones(), n), k) <==> k >= n
  {
    hide Shl, Ones, Bit;
    ShlBit(Ones(), n, k);
    if k >= n { OnesBit(k - n); }
  }

  lemma {:induction false} PastTheEnd(w: Word, k: nat)
    requires k >= 64
    ensures !Bit(w, k)
  {
    hide Bit, Down;
    DownBit(w, 32, k - 32);
    DownBit(Down(w, 32), 32, k - 64);
    DownAway(w);
    ZeroBit(k - 64);
  }

  lemma DownAway(w: Word)
    ensures Down(Down(w, 32), 32) == 0
  {
  }

  /** ~0UL >> (64 - n) */
  lemma LowMask(n: nat, k: nat)
    requires n <= 64
    ensures Bit(Shr(Ones(), 64 - n), k) <==> k < n
  {
    hide Shr, Ones, Bit;
    ShrBit(Ones(), 64 - n, k);
    if k < n { OnesBit(64 - n + k); } else { PastTheEnd(Ones(), 64 - n + k); }
  }

  function MinusOne(a: Word): Word {
    a - 1
  }

  lemma OneLess(a: Word)
    ensures Odd(MinusOne(Twice(a))) && (a != 0 ==> Half(MinusOne(Twice(a))) == And(MinusOne(a), Half(Ones())))
  {
  }

  lemma ZeroLess()
    ensures MinusOne(1) == 0 && Odd(1)
  {
  }

  /** (1UL << m) - 1 */
  lemma {:induction false} BelowMask(m: nat, k: nat)
    requires m < 64 && k < 64
    ensures Bit(MinusOne(Shl(1, m)), k) <==> k < m
    decreases m
  {
    hide MinusOne, Twice, Half, Odd, And, Ones;
    ZeroLess();
    if m == 0 {
      ZeroBit(k);
    } else {
      var a := Shl(1, m - 1);
      assert a != 0 by {
        ShlBit(1, m - 1, m - 1);
        ZeroBit(m - 1);
      }
      OneLess(a);
      if k > 0 {
        AndBit(MinusOne(a), Half(Ones()), k - 1);
        OnesBit(k);
        BelowMask(m - 1, k - 1);
      }
    }
  }

  // ---------------------------------------------------------------- words and numbers

  /** Bit k of a number. */
  function NatBit(y: nat, k: nat): bool
    decreases k
  {
    if k == 0 then y % 2 == 1 else NatBit(y / 2, k - 1)
  }

  function Join(w: Word, b: bool): Word {
    Or(Twice(w), if b then 1 else 0)
  }

  /** The word with the low n bits of a number. */
  function OfNat(y: nat, n: nat): Word
    decreases n
  {
    if n == 0 then 0 else Join(OfNat(y / 2, n - 1), y % 2 == 1)
  }

  function Pow2(n: nat): (p: nat)
    ensures p > 0
  {
    if n == 0 then 1 else 2 * Pow2(n - 1)
  }

  /** The number whose bits are those of the word from k on. */
  function Val(w: Word, k: nat): nat
    decreases 64 - k
  {
    if k >= 64 then 0 else (if Bit(w, k) then 1 else 0) + 2 * Val(w, k + 1)
  }

  lemma OneHalves()
    ensures Half(1) == 0 && Odd(1)
  {
  }

  lemma OneBit(k: nat)
    ensures Bit(1, k) <==> k == 0
  {
    hide Half, Odd;
    OneHalves();
    if k > 0 { ZeroBit(k - 1); }
  }

  lemma JoinBit(w: Word, b: bool, k: nat)
    requires k < 64
    ensures Bit(Join(w, b), k) == if k == 0 then b else Bit(w, k - 1)
  {
    hide Or, Twice, Bit;
    OrBit(Twice(w), if b then 1 else 0, k);
    TwiceBit(w, k);
    OneBit(k);
    ZeroBit(k);
  }

  lemma {:induction false} OfNatBit(y: nat, n: nat, k: nat)
    requires k < 64
    ensures Bit(OfNat(y, n), k) <==> k < n && NatBit(y, k)
    decreases n
  {
    hide Join, Bit;
    if n == 0 {
      ZeroBit(k);
    } else {
      JoinBit(OfNat(y / 2, n - 1), y % 2 == 1, k);
      if k > 0 { OfNatBit(y / 2, n - 1, k - 1); }
    }
  }

  /** A word is the number that has its bits. */
  lemma {:induction false} ValIs(w: Word, k: nat, z: nat)
    requires k <= 64 && z < Pow2(64 - k) && forall j :: k <= j < 64 ==> Bit(w, j) == NatBit(z, j - k)
    ensures Val(w, k) == z
    decreases 64 - k
  {
    hide Bit;
    if k < 64 {
      assert Bit(w, k) == NatBit(z, 0);
      forall j | k + 1 <= j < 64 ensures Bit(w, j) == NatBit(z / 2, j - (k + 1)) {
        assert Bit(w, j) == NatBit(z, j - k);
      }
      ValIs(w, k + 1, z / 2);
    }
  }
}
