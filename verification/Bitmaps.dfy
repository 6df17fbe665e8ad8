/**
 bitops.c and bitmap.c: searching and changing bitmaps a word at a time, against what the bits say.
 */
module Bitmaps {
  import opened Words

  /** Bit i of a bitmap. */
  ghost predicate BitAt(ws: seq<Word>, i: nat) {
    i / 64 < |ws| && Bit(ws[i / 64], i % 64)
  }

  ghost predicate NoneIn(ws: seq<Word>, lo: nat, hi: nat) {
    forall i :: lo <= i < hi ==> !BitAt(ws, i)
  }

  ghost predicate AllIn(ws: seq<Word>, lo: nat, hi: nat) {
    forall i :: lo <= i < hi ==> BitAt(ws, i)
  }

  lemma BitOfWord(ws: seq<Word>, q: nat, k: nat)
    requires q < |ws| && k < 64
    ensures BitAt(ws, 64 * q + k) == Bit(ws[q], k)
  {
    hide Bit;
    assert (64 * q + k) / 64 == q && (64 * q + k) % 64 == k;
  }

  // ---------------------------------------------------------------- one word of a search

  /** `tmp` holds the bits [lo, hi) of `w`, and zeros elsewhere. */
  ghost predicate Masked(tmp: Word, w: Word, lo: nat, hi: nat) {
    forall k :: 0 <= k < 64 ==> Bit(tmp, k) == (Bit(w, k) && lo <= k < hi)
  }

  /** `tmp` holds the bits [lo, hi) of `w`, and ones elsewhere. */
  ghost predicate Filled(tmp: Word, w: Word, lo: nat, hi: nat) {
    forall k :: 0 <= k < 64 ==> Bit(tmp, k) == (Bit(w, k) || !(lo <= k < hi))
  }

  lemma MaskHigh(w: Word, lo: nat)
    ensures Masked(And(w, Shl(Ones(), lo)), w, lo, 64)
  {
    hide And, Shl, Ones, Bit;
    var t := And(w, Shl(Ones(), lo));
    forall k | 0 <= k < 64 ensures Bit(t, k) == (Bit(w, k) && lo <= k < 64) {
      AndBit(w, Shl(Ones(), lo), k);
      HighMask(lo, k);
    }
  }

  lemma MaskLow(tmp: Word, w: Word, lo: nat, hi: nat)
    requires Masked(tmp, w, lo, 64) && hi <= 64
    ensures Masked(And(tmp, Shr(Ones(), 64 - hi)), w, lo, hi)
  {
    hide And, Shr, Ones, Bit;
    var t := And(tmp, Shr(Ones(), 64 - hi));
    forall k | 0 <= k < 64 ensures Bit(t, k) == (Bit(w, k) && lo <= k < hi) {
      AndBit(tmp, Shr(Ones(), 64 - hi), k);
      LowMask(hi, k);
    }
  }

  lemma FillLow(w: Word, lo: nat)
    requires lo <= 64
    ensures Filled(Or(w, Shr(Ones(), 64 - lo)), w, lo, 64)
  {
    hide Or, Shr, Ones, Bit;
    var t := Or(w, Shr(Ones(), 64 - lo));
    forall k | 0 <= k < 64 ensures Bit(t, k) == (Bit(w, k) || !(lo <= k < 64)) {
      OrBit(w, Shr(Ones(), 64 - lo), k);
      LowMask(lo, k);
    }
  }

  lemma FillHigh(tmp: Word, w: Word, lo: nat, hi: nat)
    requires Filled(tmp, w, lo, 64)
    ensures Filled(Or(tmp, Shl(Ones(), hi)), w, lo, hi)
  {
    hide Or, Shl, Ones, Bit;
    var t := Or(tmp, Shl(Ones(), hi));
    forall k | 0 <= k < 64 ensures Bit(t, k) == (Bit(w, k) || !(lo <= k < hi)) {
      OrBit(tmp, Shl(Ones(), hi), k);
      HighMask(hi, k);
    }
  }

  lemma WholeMask(w: Word)
    ensures Masked(w, w, 0, 64) && Filled(w, w, 0, 64)
  {
    hide Bit;
  }

  /** The first bit of the masked word is the first of that part of the bitmap. */
  lemma Hit(ws: seq<Word>, q: nat, tmp: Word, lo: nat, hi: nat, num: nat)
    requires q < |ws| && Masked(tmp, ws[q], lo, hi) && FirstSet(tmp, num)
    ensures lo <= num < hi && BitAt(ws, 64 * q + num) && NoneIn(ws, 64 * q + lo, 64 * q + num)
  {
    hide Bit, BitAt;
    BitOfWord(ws, q, num);
    forall i | 64 * q + lo <= i < 64 * q + num ensures !BitAt(ws, i) {
      BitOfWord(ws, q, i - 64 * q);
      assert !Bit(tmp, i - 64 * q);
    }
  }

  lemma Miss(ws: seq<Word>, q: nat, tmp: Word, lo: nat, hi: nat)
    requires q < |ws| && hi <= 64 && Masked(tmp, ws[q], lo, hi) && tmp == 0
    ensures NoneIn(ws, 64 * q + lo, 64 * q + hi)
  {
    hide Bit, BitAt;
    forall i | 64 * q + lo <= i < 64 * q + hi ensures !BitAt(ws, i) {
      BitOfWord(ws, q, i - 64 * q);
      ZeroBit(i - 64 * q);
    }
  }

  lemma HitZero(ws: seq<Word>, q: nat, tmp: Word, lo: nat, hi: nat, num: nat)
    requires q < |ws| && Filled(tmp, ws[q], lo, hi) && num < 64 && !Bit(tmp, num) && AllBelow(tmp, num)
    ensures lo <= num < hi && !BitAt(ws, 64 * q + num) && AllIn(ws, 64 * q + lo, 64 * q + num)
  {
    hide Bit, BitAt;
    BitOfWord(ws, q, num);
    forall i | 64 * q + lo <= i < 64 * q + num ensures BitAt(ws, i) {
      BitOfWord(ws, q, i - 64 * q);
      assert Bit(tmp, i - 64 * q);
    }
  }

  lemma MissZero(ws: seq<Word>, q: nat, tmp: Word, lo: nat, hi: nat)
    requires q < |ws| && hi <= 64 && Filled(tmp, ws[q], lo, hi) && tmp == Ones()
    ensures AllIn(ws, 64 * q + lo, 64 * q + hi)
  {
    hide Bit, BitAt, Ones;
    forall i | 64 * q + lo <= i < 64 * q + hi ensures BitAt(ws, i) {
      BitOfWord(ws, q, i - 64 * q);
      OnesBit(i - 64 * q);
    }
  }

  // ---------------------------------------------------------------- searches

  /** The least set bit from `offset` on, or `size`. */
  ghost predicate NextBit(ws: seq<Word>, size: nat, offset: nat, r: nat) {
    if offset >= size then r == size
    else offset <= r <= size && NoneIn(ws, offset, r) && (r < size ==> BitAt(ws, r))
  }

  /** The least clear bit from `offset` on, or `size`. */
  ghost predicate NextZero(ws: seq<Word>, size: nat, offset: nat, r: nat) {
    if offset >= size then r == size
    else offset <= r <= size && AllIn(ws, offset, r) && (r < size ==> !BitAt(ws, r))
  }

  /** The labels found_first and found_middle of find_next_bit: the last word of the search. */
  method FoundFirst(addr: array<Word>, q: nat, tmp: Word, size: nat, ghost lo: nat) returns (r: nat)
    requires q < addr.Length && 0 < size <= 64 && lo <= size && Masked(tmp, addr[q], lo, 64)
    ensures 64 * q + lo <= r <= 64 * q + size && NoneIn(addr[..], 64 * q + lo, r)
    ensures r < 64 * q + size ==> BitAt(addr[..], r)
  {
    hide And, Shr, Ones, Bit, BitAt, Masked, FirstSet;
    MaskLow(tmp, addr[q], lo, size);
    var t := And(tmp, Shr(Ones(), 64 - size));
    if t == 0 {
      Miss(addr[..], q, t, lo, size);
      return 64 * q + size;
    }
    var num := Ffsl(t);
    Hit(addr[..], q, t, lo, size, num);
    return 64 * q + num;
  }

  method FoundMiddle(addr: array<Word>, q: nat, tmp: Word, ghost lo: nat) returns (r: nat)
    requires q < addr.Length && tmp != 0 && Masked(tmp, addr[q], lo, 64)
    ensures 64 * q + lo <= r < 64 * q + 64 && NoneIn(addr[..], 64 * q + lo, r) && BitAt(addr[..], r)
  {
    hide Bit, BitAt, Masked, FirstSet;
    var num := Ffsl(tmp);
    Hit(addr[..], q, tmp, lo, 64, num);
    return 64 * q + num;
  }

  lemma NoneJoin(ws: seq<Word>, a: nat, b: nat, c: nat)
    requires NoneIn(ws, a, b) && NoneIn(ws, b, c)
    ensures NoneIn(ws, a, c)
  {
    hide BitAt;
  }

  /** find_next_bit */
  method FindNextBit(addr: array<Word>, size: nat, offset: nat) returns (r: nat)
    requires size <= 64 * addr.Length
    ensures NextBit(addr[..], size, offset, r)
  {
    hide And, Shr, Shl, Ones, Bit, BitAt, Masked, NoneIn;
    var p := offset / 64;
    if offset >= size { return size; }
    ghost var ws := addr[..];
    var left := size - 64 * p;
    var off := offset % 64;
    if off != 0 {
      MaskHigh(addr[p], off);
      var tmp := And(addr[p], Shl(Ones(), off));
      if left < 64 {
        r := FoundFirst(addr, p, tmp, left, off);
        return;
      }
      if tmp != 0 {
        r := FoundMiddle(addr, p, tmp, off);
        return;
      }
      Miss(ws, p, tmp, off, 64);
      left := left - 64;
      p := p + 1;
    } else {
      NoneStart(ws, offset);
    }
    while left >= 64
      invariant 0 <= left && 64 * p + left == size && offset <= 64 * p && NoneIn(ws, offset, 64 * p)
      decreases left
    {
      WholeMask(addr[p]);
      if addr[p] != 0 {
        r := FoundMiddle(addr, p, addr[p], 0);
        NoneJoin(ws, offset, 64 * p, r);
        return;
      }
      Miss(ws, p, addr[p], 0, 64);
      NoneJoin(ws, offset, 64 * p, 64 * p + 64);
      p := p + 1;
      left := left - 64;
    }
    if left == 0 { return 64 * p; }
    WholeMask(addr[p]);
    r := FoundFirst(addr, p, addr[p], left, 0);
    NoneJoin(ws, offset, 64 * p, r);
  }

  lemma NoneStart(ws: seq<Word>, a: nat)
    ensures NoneIn(ws, a, a) && AllIn(ws, a, a)
  {
  }

  /** The labels found_first and found_middle of find_next_zero_bit. */
  method FoundFirstZero(addr: array<Word>, q: nat, tmp: Word, size: nat, ghost lo: nat) returns (r: nat)
    requires q < addr.Length && 0 < size <= 64 && lo <= size && Filled(tmp, addr[q], lo, 64)
    ensures 64 * q + lo <= r <= 64 * q + size && AllIn(addr[..], 64 * q + lo, r)
    ensures r < 64 * q + size ==> !BitAt(addr[..], r)
  {
    hide Or, Shl, Ones, Bit, BitAt, Filled;
    FillHigh(tmp, addr[q], lo, size);
    var t := Or(tmp, Shl(Ones(), size));
    if t == Ones() {
      MissZero(addr[..], q, t, lo, size);
      return 64 * q + size;
    }
    var num := Ffz(t);
    HitZero(addr[..], q, t, lo, size, num);
    return 64 * q + num;
  }

  method FoundMiddleZero(addr: array<Word>, q: nat, tmp: Word, ghost lo: nat) returns (r: nat)
    requires q < addr.Length && tmp != Ones() && Filled(tmp, addr[q], lo, 64)
    ensures 64 * q + lo <= r < 64 * q + 64 && AllIn(addr[..], 64 * q + lo, r) && !BitAt(addr[..], r)
  {
    hide Bit, BitAt, Filled, Ones;
    var num := Ffz(tmp);
    HitZero(addr[..], q, tmp, lo, 64, num);
    return 64 * q + num;
  }

  lemma AllJoin(ws: seq<Word>, a: nat, b: nat, c: nat)
    requires AllIn(ws, a, b) && AllIn(ws, b, c)
    ensures AllIn(ws, a, c)
  {
    hide BitAt;
  }

  /** find_next_zero_bit */
  method FindNextZeroBit(addr: array<Word>, size: nat, offset: nat) returns (r: nat)
    requires size <= 64 * addr.Length
    ensures NextZero(addr[..], size, offset, r)
  {
    hide Or, Shr, Shl, Ones, Bit, BitAt, Filled, AllIn;
    var p := offset / 64;
    if offset >= size { return size; }
    ghost var ws := addr[..];
    var left := size - 64 * p;
    var off := offset % 64;
    if off != 0 {
      FillLow(addr[p], off);
      var tmp := Or(addr[p], Shr(Ones(), 64 - off));
      if left < 64 {
        r := FoundFirstZero(addr, p, tmp, left, off);
        return;
      }
      if tmp != Ones() {
        r := FoundMiddleZero(addr, p, tmp, off);
        return;
      }
      MissZero(ws, p, tmp, off, 64);
      left := left - 64;
      p := p + 1;
    } else {
      NoneStart(ws, offset);
    }
    while left >= 64
      invariant 0 <= left && 64 * p + left == size && offset <= 64 * p && AllIn(ws, offset, 64 * p)
      decreases left
    {
      WholeMask(addr[p]);
      if addr[p] != Ones() {
        r := FoundMiddleZero(addr, p, addr[p], 0);
        AllJoin(ws, offset, 64 * p, r);
        return;
      }
      MissZero(ws, p, addr[p], 0, 64);
      AllJoin(ws, offset, 64 * p, 64 * p + 64);
      p := p + 1;
      left := left - 64;
    }
    if left == 0 { return 64 * p; }
    WholeMask(addr[p]);
    r := FoundFirstZero(addr, p, addr[p], left, 0);
    AllJoin(ws, offset, 64 * p, r);
  }

  /** The last bit of the masked word is the last of that part of the bitmap. */
  lemma HitLast(ws: seq<Word>, q: nat, tmp: Word, hi: nat, num: nat)
    requires q < |ws| && hi <= 64 && Masked(tmp, ws[q], 0, hi) && LastSet(tmp, num)
    ensures num < hi && BitAt(ws, 64 * q + num) && NoneIn(ws, 64 * q + num + 1, 64 * q + hi)
  {
    hide Bit, BitAt;
    BitOfWord(ws, q, num);
    forall i | 64 * q + num + 1 <= i < 64 * q + hi ensures !BitAt(ws, i) {
      BitOfWord(ws, q, i - 64 * q);
      assert !Bit(tmp, i - 64 * q);
    }
  }

  /** find_last_bit: the greatest set bit below `size`, or `size`, whatever the unused bits of the
      last word are. */
  method FindLastBit(addr: array<Word>, size: nat) returns (r: nat)
    requires size <= 64 * addr.Length
    ensures r <= size && (r < size ==> BitAt(addr[..], r) && NoneIn(addr[..], r + 1, size))
    ensures r == size ==> NoneIn(addr[..], 0, size)
  {
    hide And, Shr, Ones, Bit, BitAt, Masked, NoneIn, LastSet;
    var words: nat := size / 64;
    ghost var ws := addr[..];
    NoneStart(ws, size);
    var part := size % 64;
    if part != 0 {
      WholeMask(addr[words]);
      MaskLow(addr[words], addr[words], 0, part);
      var tmp := And(addr[words], Shr(Ones(), 64 - part));
      if tmp != 0 {
        var num := Flsl(tmp);
        HitLast(ws, words, tmp, part, num);
        return 64 * words + num;
      }
      Miss(ws, words, tmp, 0, part);
    }
    while words > 0
      invariant 64 * words <= size && NoneIn(ws, 64 * words, size)
    {
      words := words - 1;
      WholeMask(addr[words]);
      if addr[words] != 0 {
        var num := Flsl(addr[words]);
        HitLast(ws, words, addr[words], 64, num);
        NoneJoin(ws, 64 * words + num + 1, 64 * words + 64, size);
        return 64 * words + num;
      }
      Miss(ws, words, addr[words], 0, 64);
      NoneJoin(ws, 64 * words, 64 * words + 64, size);
    }
    return size;
  }

  // ---------------------------------------------------------------- setting and clearing ranges

  /** Exactly the bits [start, end) have become `b`. */
  ghost predicate Assigned(was: seq<Word>, now: seq<Word>, start: nat, end: nat, b: bool) {
    |now| == |was| &&
    forall i :: 0 <= i < 64 * |was| ==> BitAt(now, i) == if start <= i < end then b else BitAt(was, i)
  }

  /** The mask has the bits [lo, hi). */
  ghost predicate MaskIs(mask: Word, lo: nat, hi: nat) {
    forall k :: 0 <= k < 64 ==> (Bit(mask, k) <==> lo <= k < hi)
  }

  /** BITMAP_LAST_WORD_MASK */
  function LastWordMask(nbits: nat): Word {
    if nbits % 64 != 0 then MinusOne(Shl(1, nbits % 64)) else Ones()
  }

  lemma FirstMask(lo: nat)
    ensures MaskIs(Shl(Ones(), lo), lo, 64)
  {
    hide Shl, Ones, Bit;
    forall k | 0 <= k < 64 ensures Bit(Shl(Ones(), lo), k) <==> lo <= k < 64 { HighMask(lo, k); }
  }

  lemma FullMask()
    ensures MaskIs(Ones(), 0, 64)
  {
    hide Ones, Bit;
    forall k | 0 <= k < 64 ensures Bit(Ones(), k) { OnesBit(k); }
  }

  lemma LastMask(mask: Word, lo: nat, nbits: nat)
    requires MaskIs(mask, lo, 64) && nbits % 64 != 0
    ensures MaskIs(And(mask, LastWordMask(nbits)), lo, nbits % 64)
  {
    hide Shl, And, Bit, MinusOne;
    var m := nbits % 64;
    forall k | 0 <= k < 64 ensures Bit(And(mask, LastWordMask(nbits)), k) <==> lo <= k < m {
      AndBit(mask, LastWordMask(nbits), k);
      BelowMask(m, k);
    }
  }

  /** Changing one word by a mask of some of its bits. */
  lemma AssignWord(was: seq<Word>, mid: seq<Word>, now: seq<Word>, start: nat, q: nat, lo: nat, hi: nat, mask: Word, b: bool)
    requires Assigned(was, mid, start, 64 * q + lo, b) && q < |was| && start <= 64 * q + lo && lo <= hi <= 64 && MaskIs(mask, lo, hi)
    requires now == mid[q := if b then Or(mid[q], mask) else And(mid[q], Not(mask))]
    ensures Assigned(was, now, start, 64 * q + hi, b)
  {
    hide Or, And, Not, Bit;
    forall i | 0 <= i < 64 * |was| ensures BitAt(now, i) == if start <= i < 64 * q + hi then b else BitAt(was, i) {
      var k := i % 64;
      assert i / 64 < |was|;
      assert BitAt(mid, i) == if start <= i < 64 * q + lo then b else BitAt(was, i);
      if i / 64 == q {
        OrBit(mid[q], mask, k);
        AndBit(mid[q], Not(mask), k);
        NotBit(mask, k);
      }
    }
  }

  lemma AssignStart(was: seq<Word>, start: nat, b: bool)
    ensures Assigned(was, was, start, start, b)
  {
    hide BitAt;
  }

  /** bitmap_set */
  method BitmapSet(bitmap: array<Word>, start: nat, nr: nat)
    requires start + nr <= 64 * bitmap.Length
    modifies bitmap
    ensures Assigned(old(bitmap[..]), bitmap[..], start, start + nr, true)
  {
    hide Or, And, Not, Shl, Ones, Bit, Assigned, MaskIs, LastWordMask;
    ghost var was := bitmap[..];
    var p, left := start / 64, nr;
    var size := start + nr;
    var bits := 64 - start % 64;
    var mask := Shl(Ones(), start % 64);
    AssignStart(was, start, true);
    FirstMask(start % 64);
    FullMask();
    while left - bits >= 0
      invariant 0 < bits <= 64 && 64 * p + (64 - bits) + left == size && 0 <= left && start <= 64 * p + (64 - bits)
      invariant Assigned(was, bitmap[..], start, 64 * p + (64 - bits), true) && MaskIs(mask, 64 - bits, 64)
    {
      ghost var mid := bitmap[..];
      bitmap[p] := Or(bitmap[p], mask);
      AssignWord(was, mid, bitmap[..], start, p, 64 - bits, 64, mask, true);
      left := left - bits;
      bits := 64;
      mask := Ones();
      p := p + 1;
    }
    if left != 0 {
      LastMask(mask, 64 - bits, size);
      mask := And(mask, LastWordMask(size));
      ghost var mid := bitmap[..];
      bitmap[p] := Or(bitmap[p], mask);
      AssignWord(was, mid, bitmap[..], start, p, 64 - bits, size % 64, mask, true);
    }
  }

  /** bitmap_clear */
  method BitmapClear(bitmap: array<Word>, start: nat, nr: nat)
    requires start + nr <= 64 * bitmap.Length
    modifies bitmap
    ensures Assigned(old(bitmap[..]), bitmap[..], start, start + nr, false)
  {
    hide Or, And, Not, Shl, Ones, Bit, Assigned, MaskIs, LastWordMask;
    ghost var was := bitmap[..];
    var p, left := start / 64, nr;
    var size := start + nr;
    var bits := 64 - start % 64;
    var mask := Shl(Ones(), start % 64);
    AssignStart(was, start, false);
    FirstMask(start % 64);
    FullMask();
    while left - bits >= 0
      invariant 0 < bits <= 64 && 64 * p + (64 - bits) + left == size && 0 <= left && start <= 64 * p + (64 - bits)
      invariant Assigned(was, bitmap[..], start, 64 * p + (64 - bits), false) && MaskIs(mask, 64 - bits, 64)
    {
      ghost var mid := bitmap[..];
      bitmap[p] := And(bitmap[p], Not(mask));
      AssignWord(was, mid, bitmap[..], start, p, 64 - bits, 64, mask, false);
      left := left - bits;
      bits := 64;
      mask := Ones();
      p := p + 1;
    }
    if left != 0 {
      LastMask(mask, 64 - bits, size);
      mask := And(mask, LastWordMask(size));
      ghost var mid := bitmap[..];
      bitmap[p] := And(bitmap[p], Not(mask));
      AssignWord(was, mid, bitmap[..], start, p, 64 - bits, size % 64, mask, false);
    }
  }

  // ---------------------------------------------------------------- zero areas

  predicate Aligned(a: nat, mask: nat) {
    a % (mask + 1) == 0
  }

  predicate PowerOfTwo(n: nat) {
    n == 1 || (n > 1 && n % 2 == 0 && PowerOfTwo(n / 2))
  }

  /** The multiple of n at or below y. */
  function RoundDown(y: nat, n: nat): nat
    requires n > 0
  {
    var q: nat := y / n;
    q * n
  }

  /** ALIGN_MASK: (x + mask) & ~mask, on a word. */
  function AlignMask(x: nat, mask: nat): nat {
    Val(And(OfNat(x + mask, 64), Not(OfNat(mask, 64))), 0)
  }

  /** For a mask one less than a power of two, and without wrap-around, it rounds up to the next
      multiple of mask + 1. */
  lemma AlignMaskRounds(x: nat, mask: nat)
    requires PowerOfTwo(mask + 1) && x + mask < Pow2(64)
    ensures var r := AlignMask(x, mask);
            x <= r <= x + mask && Aligned(r, mask) && forall a: nat :: x <= a && Aligned(a, mask) ==> r <= a
  {
    hide And, Not, Bit, OfNat, Val, PowerOfTwo, Pow2, RoundDown;
    var y, n := x + mask, mask + 1;
    var w, z := And(OfNat(y, 64), Not(OfNat(mask, 64))), RoundDown(y, n);
    AlignUpIs(x, mask);
    forall j | 0 <= j < 64 ensures Bit(w, j) == NatBit(z, j - 0) {
      AndBit(OfNat(y, 64), Not(OfNat(mask, 64)), j);
      NotBit(OfNat(mask, 64), j);
      OfNatBit(y, 64, j);
      OfNatBit(mask, 64, j);
      RoundBits(y, mask, j);
    }
    ValIs(w, 0, z);
  }

  /** Rounding down to a multiple of a power of two clears the bits below it. */
  lemma {:induction false} RoundBits(y: nat, mask: nat, j: nat)
    requires PowerOfTwo(mask + 1)
    ensures NatBit(RoundDown(y, mask + 1), j) <==> NatBit(y, j) && !NatBit(mask, j)
    decreases j
  {
    var n := mask + 1;
    hide RoundDown;
    if n == 1 {
      NoBits(j);
      RoundOne(y);
    } else {
      var p := n / 2;
      assert mask / 2 + 1 == p && mask % 2 == 1;
      Halved(y, p);
      if j > 0 { RoundBits(y / 2, mask / 2, j - 1); }
    }
  }

  lemma {:induction false} NoBits(j: nat)
    ensures !NatBit(0, j)
  {
    if j > 0 { NoBits(j - 1); }
  }

  lemma RoundOne(y: nat)
    ensures RoundDown(y, 1) == y
  {
  }

  lemma Halved(y: nat, p: nat)
    requires p > 0
    ensures var z := RoundDown(y, 2 * p); z % 2 == 0 && z / 2 == RoundDown(y / 2, p)
  {
    var h := y / 2;
    var q, r := h / p, h % p;
    assert h == q * p + r;
    var m := 2 * r + y % 2;
    assert q * (2 * p) == 2 * (q * p);
    assert y == q * (2 * p) + m;
    Quotient(y, 2 * p, q, m);
  }

  lemma AlignUpIs(x: nat, mask: nat)
    ensures var r := RoundDown(x + mask, mask + 1);
            x <= r <= x + mask && Aligned(r, mask) && forall a: nat :: x <= a && Aligned(a, mask) ==> r <= a
  {
    var n := mask + 1;
    var q := (x + mask) / n;
    Quotient(q * n, n, q, 0);
    forall a: nat | x <= a && Aligned(a, mask) ensures q * n <= a { NoMultipleBetween(x, n, q, a / n); }
  }

  /** Quotient and remainder are unique. */
  lemma Quotient(a: nat, n: nat, q: nat, m: nat)
    requires n > 0 && m < n && a == q * n + m
    ensures a / n == q && a % n == m
  {
    var q', m' := a / n, a % n;
    assert a == q' * n + m';
    if q < q' { Larger(q, q', n); }
    if q' < q { Larger(q', q, n); }
  }

  lemma Larger(q: nat, q': nat, n: nat)
    requires q < q'
    ensures q * n + n <= q' * n
  {
    assert q' * n == q * n + (q' - q) * n;
    assert (q' - q) * n >= n by {
      var d := q' - q - 1;
      assert (q' - q) * n == d * n + n;
    }
  }

  lemma NoMultipleBetween(x: nat, n: nat, q: nat, m: nat)
    requires n > 0 && q * n <= x + n - 1 && x <= m * n
    ensures q * n <= m * n
  {
    if m < q { Larger(m, q, n); }
  }

  /** A place for `nr` clear bits. */
  ghost predicate ZeroArea(ws: seq<Word>, size: nat, start: nat, nr: nat, mask: nat, a: nat) {
    start <= a && Aligned(a, mask) && a + nr <= size && NoneIn(ws, a, a + nr)
  }

  /** bitmap_find_next_zero_area, for sizes that do not wrap around: the least aligned place from
      `start` on that holds `nr` clear bits; a value above `size` exactly when there is none. */
  method FindNextZeroArea(bitmap: array<Word>, size: nat, start: nat, nr: nat, mask: nat) returns (r: nat)
    requires size <= 64 * bitmap.Length && nr > 0 && PowerOfTwo(mask + 1) && size + mask + nr < Pow2(64)
    ensures r <= size ==> ZeroArea(bitmap[..], size, start, nr, mask, r)
    ensures forall a: nat :: ZeroArea(bitmap[..], size, start, nr, mask, a) ==> r <= a
    ensures r > size <==> forall a: nat :: !ZeroArea(bitmap[..], size, start, nr, mask, a)
  {
    hide Bit, BitAt, AlignMask, Aligned, PowerOfTwo, Pow2, NoneIn, AllIn;
    ghost var ws := bitmap[..];
    var from := start;
    while true
      invariant start <= from
      invariant forall a: nat :: ZeroArea(ws, size, start, nr, mask, a) ==> from <= a
      decreases size - from
    {
      var zero := FindNextZeroBit(bitmap, size, from);
      AlignMaskRounds(zero, mask);
      var index := AlignMask(zero, mask);
      var end := index + nr;
      LeastStart(ws, size, start, nr, mask, from, zero, index);
      if end > size { return end; }
      var i := FindNextBit(bitmap, end, index);
      if i >= end {
        return index;
      }
      BlockedUntil(ws, size, start, nr, mask, index, i);
      from := i + 1;
    }
  }

  /** No area starts before the aligned clear bit. */
  lemma LeastStart(ws: seq<Word>, size: nat, start: nat, nr: nat, mask: nat, from: nat, zero: nat, index: nat)
    requires nr > 0 && NextZero(ws, size, from, zero)
    requires zero <= index && Aligned(index, mask) && forall a: nat :: zero <= a && Aligned(a, mask) ==> index <= a
    requires forall a: nat :: ZeroArea(ws, size, start, nr, mask, a) ==> from <= a
    ensures forall a: nat :: ZeroArea(ws, size, start, nr, mask, a) ==> index <= a
  {
    hide BitAt, Aligned;
    forall a: nat | ZeroArea(ws, size, start, nr, mask, a) ensures index <= a {
      assert !BitAt(ws, a) && from <= a < size;
      assert zero <= a;
    }
  }

  /** A set bit stands in the way of every area that would start at or before it. */
  lemma BlockedUntil(ws: seq<Word>, size: nat, start: nat, nr: nat, mask: nat, index: nat, i: nat)
    requires index <= i < index + nr && BitAt(ws, i)
    requires forall a: nat :: ZeroArea(ws, size, start, nr, mask, a) ==> index <= a
    ensures forall a: nat :: ZeroArea(ws, size, start, nr, mask, a) ==> i + 1 <= a
  {
    hide BitAt;
  }

  /** The searches answer from the bits below `size` alone: bitmaps that agree there get the same
      answer, whatever the rest of their last words. */
  lemma OnlyUsedBitsMatter(ws: seq<Word>, ws': seq<Word>, size: nat, offset: nat, r: nat, r': nat)
    requires forall i :: 0 <= i < size ==> BitAt(ws, i) == BitAt(ws', i)
    ensures NextBit(ws, size, offset, r) && NextBit(ws', size, offset, r') ==> r == r'
    ensures NextZero(ws, size, offset, r) && NextZero(ws', size, offset, r') ==> r == r'
  {
    hide BitAt;
    if r < r' {
      assert offset <= r < size ==> BitAt(ws, r) == BitAt(ws', r);
    } else if r' < r {
      assert offset <= r' < size ==> BitAt(ws, r') == BitAt(ws', r');
    }
  }

  /** Setting a range and clearing it again leaves the bitmap as it was where the range was clear, so
      that an area found by the search can be taken and given back. */
  method TakeAndGiveBack(bitmap: array<Word>, size: nat, start: nat, nr: nat, mask: nat) returns (r: nat)
    requires size <= 64 * bitmap.Length && nr > 0 && PowerOfTwo(mask + 1) && size + mask + nr < Pow2(64)
    modifies bitmap
    ensures forall i :: 0 <= i < 64 * bitmap.Length ==> BitAt(bitmap[..], i) == BitAt(old(bitmap[..]), i)
  {
    hide Bit, BitAt, PowerOfTwo, Pow2, Aligned;
    r := FindNextZeroArea(bitmap, size, start, nr, mask);
    if r <= size {
      BitmapSet(bitmap, r, nr);
      BitmapClear(bitmap, r, nr);
    }
  }
}
