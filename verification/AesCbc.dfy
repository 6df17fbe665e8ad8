/**
 AES_cbc_encrypt: cipher block chaining (section 6.2 of NIST SP 800-38A) as aes.c does it, with a
 partial last block padded by the chaining value. Chaining is specified for any block function.
 */
module AesCbc {
  import opened AesCipher
  import opened Aes

  type Bytes16 = s: seq<bv8> | |s| == 16 witness seq(16, _ => 0)

  type BlockFunction = Bytes16 -> Bytes16

  ghost predicate Undoes(g: BlockFunction, f: BlockFunction) {
    forall b: Bytes16 :: g(f(b)) == b
  }

  function XorByte(a: bv8, b: bv8): bv8 {
    a ^ b
  }

  /** The chaining value combined with up to sixteen bytes; where the bytes end it shows through. */
  function Mask(p: seq<bv8>, iv: Bytes16): Bytes16
    requires |p| <= 16
  {
    seq(16, n requires 0 <= n < 16 => if n < |p| then XorByte(p[n], iv[n]) else iv[n])
  }

  lemma XorTwice(a: bv8, b: bv8)
    ensures XorByte(XorByte(a, b), b) == a
  {
  }

  lemma MaskTwice(p: seq<bv8>, iv: Bytes16)
    requires |p| <= 16
    ensures Mask(Mask(p, iv), iv)[..|p|] == p
  {
    hide XorByte;
    forall n | 0 <= n < |p| ensures Mask(Mask(p, iv), iv)[n] == p[n] {
      XorTwice(p[n], iv[n]);
    }
  }

  /** The length of whole blocks that hold `n` bytes. */
  function RoundUp(n: nat): (r: nat)
    ensures n <= r < n + 16 && r % 16 == 0
  {
    if n == 0 then 0 else if n <= 16 then 16 else 16 + RoundUp(n - 16)
  }

  /** The ciphertext of `p`, whole blocks only. */
  ghost function CbcEnc(f: BlockFunction, iv: Bytes16, p: seq<bv8>): (c: seq<bv8>)
    ensures |c| == RoundUp(|p|)
    decreases |p|
  {
    if p == [] then []
    else if |p| < 16 then f(Mask(p, iv))
    else f(Mask(p[..16], iv)) + CbcEnc(f, f(Mask(p[..16], iv)), p[16..])
  }

  /** The chaining value encryption leaves behind. */
  ghost function EncIv(f: BlockFunction, iv: Bytes16, p: seq<bv8>): Bytes16
    decreases |p|
  {
    if p == [] then iv
    else if |p| < 16 then f(Mask(p, iv))
    else EncIv(f, f(Mask(p[..16], iv)), p[16..])
  }

  /** The `len` bytes of plaintext in `c`. */
  ghost function CbcDec(g: BlockFunction, iv: Bytes16, c: seq<bv8>, len: nat): (p: seq<bv8>)
    requires RoundUp(len) <= |c|
    ensures |p| == len
    decreases len
  {
    if len == 0 then []
    else if len < 16 then Mask(g(c[..16]), iv)[..len]
    else Mask(g(c[..16]), iv) + CbcDec(g, c[..16], c[16..], len - 16)
  }

  /** The chaining value decryption leaves behind. After a partial block it is that block as it
      comes out of the block cipher, not the ciphertext. */
  ghost function DecIv(g: BlockFunction, iv: Bytes16, c: seq<bv8>, len: nat): Bytes16
    requires RoundUp(len) <= |c|
    decreases len
  {
    if len == 0 then iv
    else if len < 16 then g(c[..16])
    else DecIv(g, c[..16], c[16..], len - 16)
  }

  /** Decrypting an encryption restores the plaintext, whatever its length. */
  lemma {:induction false} CbcRoundTrip(f: BlockFunction, g: BlockFunction, iv: Bytes16, p: seq<bv8>)
    requires Undoes(g, f)
    ensures CbcDec(g, iv, CbcEnc(f, iv, p), |p|) == p
    decreases |p|
  {
    hide Mask;
    var whole := CbcEnc(f, iv, p);
    if p == [] {
    } else if |p| < 16 {
      assert whole[..16] == whole;
      MaskTwice(p, iv);
    } else {
      var c := f(Mask(p[..16], iv));
      assert whole[..16] == c && whole[16..] == CbcEnc(f, c, p[16..]);
      MaskTwice(p[..16], iv);
      assert Mask(Mask(p[..16], iv), iv)[..16] == Mask(Mask(p[..16], iv), iv);
      CbcRoundTrip(f, g, c, p[16..]);
    }
  }

  /** Encrypting in two calls that meet at a block boundary, the chaining value carried over, is
      encrypting in one. */
  lemma {:induction false} CbcInTwoCalls(f: BlockFunction, iv: Bytes16, p: seq<bv8>, q: seq<bv8>)
    requires |p| % 16 == 0
    ensures CbcEnc(f, iv, p + q) == CbcEnc(f, iv, p) + CbcEnc(f, EncIv(f, iv, p), q)
    ensures EncIv(f, iv, p + q) == EncIv(f, EncIv(f, iv, p), q)
    decreases |p|
  {
    hide Mask, CbcEnc, EncIv, RoundUp;
    if p == [] {
      assert p + q == q;
      EncNothing(f, iv);
    } else {
      assert (p + q)[..16] == p[..16] && (p + q)[16..] == p[16..] + q;
      var c := f(Mask(p[..16], iv));
      EncFirst(f, iv, p);
      EncFirst(f, iv, p + q);
      CbcInTwoCalls(f, c, p[16..], q);
      assert c + (CbcEnc(f, c, p[16..]) + CbcEnc(f, EncIv(f, c, p[16..]), q)) ==
             c + CbcEnc(f, c, p[16..]) + CbcEnc(f, EncIv(f, c, p[16..]), q);
    }
  }

  lemma EncNothing(f: BlockFunction, iv: Bytes16)
    ensures CbcEnc(f, iv, []) == [] && EncIv(f, iv, []) == iv
  {
  }

  lemma EncFirst(f: BlockFunction, iv: Bytes16, p: seq<bv8>)
    requires |p| >= 16
    ensures CbcEnc(f, iv, p) == f(Mask(p[..16], iv)) + CbcEnc(f, f(Mask(p[..16], iv)), p[16..])
    ensures EncIv(f, iv, p) == EncIv(f, f(Mask(p[..16], iv)), p[16..])
  {
  }

  /** The chaining values the two directions leave behind agree exactly when the length is a whole
      number of blocks or the last ciphertext block happens to decrypt to itself. */
  lemma {:induction false} ChainingValuesAgree(f: BlockFunction, g: BlockFunction, iv: Bytes16, p: seq<bv8>)
    ensures DecIv(g, iv, CbcEnc(f, iv, p), |p|) == EncIv(f, iv, p) <==>
              |p| % 16 == 0 || g(EncIv(f, iv, p)) == EncIv(f, iv, p)
    decreases |p|
  {
    hide Mask;
    var whole := CbcEnc(f, iv, p);
    if p == [] {
    } else if |p| < 16 {
      assert whole[..16] == whole;
    } else {
      var c := f(Mask(p[..16], iv));
      assert whole[..16] == c && whole[16..] == CbcEnc(f, c, p[16..]);
      ChainingValuesAgree(f, g, c, p[16..]);
    }
  }

  // ---------------------------------------------------------------- the code

  ghost function EncWith(w: seq<bv32>, nr: nat): BlockFunction
    requires nr > 0 && 4 * nr + 4 <= |w|
  {
    (b: Bytes16) => EncryptedBytes(w, nr, b)
  }

  ghost function DecWith(w: seq<bv32>, nr: nat): BlockFunction
    requires nr > 0 && 4 * nr + 4 <= |w|
  {
    (b: Bytes16) => DecryptedBytes(w, nr, b)
  }

  lemma DecUndoesEnc(w: seq<bv32>, d: seq<bv32>, nr: nat)
    requires nr > 0 && Inverts(w, d, nr)
    ensures Undoes(DecWith(d, nr), EncWith(w, nr))
  {
    hide EncryptedBytes, DecryptedBytes, Inverts;
    InvertsSizes(w, d, nr);
    forall b: Bytes16 ensures DecWith(d, nr)(EncWith(w, nr)(b)) == b { BlockRoundTrip(w, d, nr, b); }
  }

  lemma InvertsSizes(w: seq<bv32>, d: seq<bv32>, nr: nat)
    requires Inverts(w, d, nr)
    ensures 4 * nr + 4 <= |w| && 4 * nr + 4 <= |d|
  {
  }

  /** AES_encrypt under `key` is the block function `f`. */
  ghost predicate Enciphers(key: AesKey, f: BlockFunction)
    reads key, key.rdKey
  {
    && UsableKey(key)
    && forall b: Bytes16 {:trigger EncryptedBytes(key.Words(), key.rounds, b)} ::
         EncryptedBytes(key.Words(), key.rounds, b) == f(b)
  }

  /** AES_decrypt under `key` is the block function `g`. */
  ghost predicate Deciphers(key: AesKey, g: BlockFunction)
    reads key, key.rdKey
  {
    && UsableKey(key)
    && forall b: Bytes16 {:trigger DecryptedBytes(key.Words(), key.rounds, b)} ::
         DecryptedBytes(key.Words(), key.rounds, b) == g(b)
  }

  /** tmp[n] = in[n] ^ ivec[n], and ivec[n] alone past the end of the input. */
  method MaskInto(tmp: array<bv8>, input: array<bv8>, at: nat, len: nat, ivec: array<bv8>)
    requires tmp.Length == 16 == ivec.Length && len <= 16 && at + len <= input.Length
    requires tmp != input && tmp != ivec
    modifies tmp
    ensures tmp[..] == Mask(input[at..at + len], ivec[..])
  {
    hide XorByte;
    for n := 0 to 16
      invariant forall j :: 0 <= j < n ==> tmp[j] == if j < len then XorByte(input[at + j], ivec[j]) else ivec[j]
    {
      tmp[n] := if n < len then XorByte(input[at + n], ivec[n]) else ivec[n];
    }
  }

  /** memcpy of one block between buffers that do not overlap. */
  method CopyBlock(from: array<bv8>, at: nat, to: array<bv8>, there: nat)
    requires from != to && at + 16 <= from.Length && there + 16 <= to.Length
    modifies to
    ensures to[..] == Splice(old(to[..]), there, from[at..at + 16])
  {
    for n := 0 to 16
      invariant forall j :: 0 <= j < to.Length ==>
                  to[j] == if there <= j < there + n then from[at + (j - there)] else old(to[j])
    {
      to[there + n] := from[at + n];
    }
    assert to[..] == Splice(old(to[..]), there, from[at..at + 16]);
  }

  lemma SpliceAll(a: seq<bv8>, b: seq<bv8>)
    requires |a| == |b|
    ensures Splice(a, 0, b) == b
  {
  }

  /** What the output buffer holds while `done` bytes are processed. */
  ghost predicate Partly(was: seq<bv8>, now: seq<bv8>, done: nat, bytes: seq<bv8>) {
    |was| == |now| && done <= |was| && |bytes| == done && now == bytes + was[done..]
  }

  lemma PartlyNext(was: seq<bv8>, mid: seq<bv8>, now: seq<bv8>, done: nat, bytes: seq<bv8>, b: seq<bv8>)
    requires Partly(was, mid, done, bytes) && done + |b| <= |was| && now == Splice(mid, done, b)
    ensures Partly(was, now, done + |b|, bytes + b)
  {
  }

  /** What is not processed yet is still in the input, also when output overwrites it. */
  lemma StillThere(now: seq<bv8>, all: seq<bv8>, out0: seq<bv8>, o: nat, bytes: seq<bv8>, inPlace: bool, end: nat)
    requires if inPlace then Partly(out0, now, o, bytes) && all == out0 else now == all
    requires o <= end <= |all|
    ensures |now| == |all| && now[o..end] == all[o..end]
  {
  }

  /** One whole block of the encrypting loop. */
  method EncryptStep(input: array<bv8>, at: nat, output: array<bv8>, key: AesKey, ghost f: BlockFunction, ivec: array<bv8>, tmp: array<bv8>)
    requires Enciphers(key, f) && ivec.Length == 16 == tmp.Length && ivec != input && ivec != output
    requires tmp != input && tmp != output && tmp != ivec
    requires at + 16 <= input.Length && at + 16 <= output.Length
    modifies output, ivec, tmp
    ensures ivec[..] == f(Mask(old(input[at..at + 16]), old(ivec[..])))
    ensures output[..] == Splice(old(output[..]), at, ivec[..])
  {
    hide Splice, EncryptedBytes, Mask;
    MaskInto(tmp, input, at, 16, ivec);
    assert tmp[0..16] == tmp[..];
    Encrypt(tmp, 0, output, at, key);
    CopyBlock(output, at, ivec, 0);
    SpliceAll(old(ivec[..]), output[at..at + 16]);
    assert output[at..at + 16] == output[..][at..at + 16];
  }

  /** The partial block at the end: `len` bytes, padded by the chaining value. */
  method EncryptTail(input: array<bv8>, at: nat, len: nat, output: array<bv8>, key: AesKey, ghost f: BlockFunction, ivec: array<bv8>, tmp: array<bv8>)
    requires Enciphers(key, f) && ivec.Length == 16 == tmp.Length && ivec != input && ivec != output
    requires tmp != input && tmp != output && tmp != ivec
    requires len < 16 && at + len <= input.Length && at + 16 <= output.Length
    modifies output, ivec, tmp
    ensures ivec[..] == f(Mask(old(input[at..at + len]), old(ivec[..])))
    ensures output[..] == Splice(old(output[..]), at, ivec[..])
  {
    hide Splice, EncryptedBytes, Mask;
    MaskInto(tmp, input, at, len, ivec);
    assert tmp[0..16] == tmp[..];
    ghost var masked := tmp[..];
    Encrypt(tmp, 0, tmp, 0, key);
    SpliceAll(masked, f(masked));
    assert tmp[0..16] == tmp[..];
    CopyBlock(tmp, 0, output, at);
    CopyBlock(tmp, 0, ivec, 0);
    SpliceAll(old(ivec[..]), tmp[..]);
  }

  lemma EncShort(f: BlockFunction, iv: Bytes16, p: seq<bv8>)
    requires 0 < |p| < 16
    ensures CbcEnc(f, iv, p) == f(Mask(p, iv)) == EncIv(f, iv, p)
  {
  }

  /** Where the encrypting loop stands: `bytes` are out and what is left completes them. */
  ghost predicate EncSoFar(f: BlockFunction, iv0: Bytes16, inp: seq<bv8>, iv: Bytes16, o: nat, bytes: seq<bv8>) {
    && o <= |inp|
    && bytes + CbcEnc(f, iv, inp[o..]) == CbcEnc(f, iv0, inp)
    && EncIv(f, iv, inp[o..]) == EncIv(f, iv0, inp)
  }

  lemma EncSoFarNext(f: BlockFunction, iv0: Bytes16, inp: seq<bv8>, iv: Bytes16, o: nat, bytes: seq<bv8>)
    requires EncSoFar(f, iv0, inp, iv, o, bytes) && o + 16 <= |inp|
    ensures EncSoFar(f, iv0, inp, f(Mask(inp[o..o + 16], iv)), o + 16, bytes + f(Mask(inp[o..o + 16], iv)))
  {
    hide Mask, CbcEnc, EncIv, RoundUp;
    EncFirst(f, iv, inp[o..]);
    assert inp[o..][..16] == inp[o..o + 16] && inp[o..][16..] == inp[o + 16..];
    var c := f(Mask(inp[o..o + 16], iv));
    assert bytes + (c + CbcEnc(f, c, inp[o + 16..])) == bytes + c + CbcEnc(f, c, inp[o + 16..]);
  }

  lemma EncSoFarLast(f: BlockFunction, iv0: Bytes16, inp: seq<bv8>, iv: Bytes16, o: nat, bytes: seq<bv8>)
    requires EncSoFar(f, iv0, inp, iv, o, bytes) && |inp| - o < 16
    ensures o == |inp| ==> bytes == CbcEnc(f, iv0, inp) && iv == EncIv(f, iv0, inp)
    ensures o < |inp| ==> bytes + f(Mask(inp[o..], iv)) == CbcEnc(f, iv0, inp)
    ensures o < |inp| ==> f(Mask(inp[o..], iv)) == EncIv(f, iv0, inp)
  {
    hide Mask, CbcEnc, EncIv, RoundUp;
    if o == |inp| {
      assert inp[o..] == [];
      EncNothing(f, iv);
    } else {
      EncShort(f, iv, inp[o..]);
    }
  }

  lemma RoundUpStep(length: nat, o: nat)
    requires o % 16 == 0 && o <= length
    ensures RoundUp(length) == o + RoundUp(length - o)
  {
  }

  /** The encrypting half of AES_cbc_encrypt. Input and output may be the same buffer. */
  method CbcEncrypt(input: array<bv8>, output: array<bv8>, length: nat, key: AesKey, ghost f: BlockFunction, ivec: array<bv8>)
    requires Enciphers(key, f) && ivec.Length == 16 && ivec != input && ivec != output
    requires length <= input.Length && RoundUp(length) <= output.Length
    modifies output, ivec
    ensures output[..RoundUp(length)] ==
            CbcEnc(f, old(ivec[..]), old(input[..length]))
    ensures output[RoundUp(length)..] == old(output[RoundUp(length)..])
    ensures ivec[..] == EncIv(f, old(ivec[..]), old(input[..length]))
  {
    hide Splice, EncryptedBytes, Mask, CbcEnc, EncIv, RoundUp, Encrypting;
    ghost var all, out0, iv0, bytes := input[..], output[..], ivec[..], [];
    ghost var run := Run(all, out0, iv0, length, input == output);
    var tmp := new bv8[16];
    var o := 0;
    EncryptingStart(f, run);
    assert input[..length] == all[..length];
    while length - o >= 16
      invariant o % 16 == 0 && o <= length
      invariant Encrypting(f, run, input[..], output[..], ivec[..], o, bytes)
    {
      ghost var now, mid, iv := input[..], output[..], ivec[..];
      assert input[o..o + 16] == now[o..o + 16];
      EncryptStep(input, o, output, key, f, ivec, tmp);
      EncryptingNext(f, run, now, mid, iv, o, bytes, input[..], output[..], ivec[..]);
      bytes := bytes + ivec[..];
      o := o + 16;
    }
    ghost var now, mid, iv := input[..], output[..], ivec[..];
    RoundUpStep(length, o);
    RoundUpLast(length - o);
    if o < length {
      assert input[o..length] == now[o..length];
      EncryptTail(input, o, length - o, output, key, f, ivec, tmp);
    }
    EncryptingEnd(f, run, now, mid, iv, o, bytes, output[..], ivec[..]);
    assert output[RoundUp(length)..] == output[..][RoundUp(length)..];
    assert old(output[RoundUp(length)..]) == out0[RoundUp(length)..];
  }

  /** What a call starts from: the two buffers, the chaining value, the length, and whether the
      buffers are one. */
  datatype Run = Run(all: seq<bv8>, out0: seq<bv8>, iv0: Bytes16, length: nat, inPlace: bool)

  /** Where a call stands after `o` bytes: `bytes` are out, and the input not processed yet is
      still there, also when output overwrites input. */
  ghost predicate Underway(run: Run, now: seq<bv8>, out: seq<bv8>, o: nat, bytes: seq<bv8>) {
    && (run.inPlace ==> now == out && run.all == run.out0)
    && (!run.inPlace ==> now == run.all)
    && Partly(run.out0, out, o, bytes)
  }

  ghost predicate Encrypting(f: BlockFunction, run: Run, now: seq<bv8>, out: seq<bv8>, iv: Bytes16, o: nat, bytes: seq<bv8>) {
    && run.length <= |run.all| && RoundUp(run.length) <= |run.out0|
    && Underway(run, now, out, o, bytes)
    && EncSoFar(f, run.iv0, run.all[..run.length], iv, o, bytes)
  }

  lemma EncryptingStart(f: BlockFunction, run: Run)
    requires run.length <= |run.all| && RoundUp(run.length) <= |run.out0|
    requires run.inPlace ==> run.all == run.out0
    ensures Encrypting(f, run, run.all, run.out0, run.iv0, 0, [])
  {
    hide CbcEnc, EncIv, RoundUp;
    CbcStart(f, run.iv0, run.all[..run.length], run.out0);
  }

  lemma UnderwayNext(run: Run, now: seq<bv8>, mid: seq<bv8>, o: nat, bytes: seq<bv8>, now': seq<bv8>, out: seq<bv8>, b: seq<bv8>)
    requires Underway(run, now, mid, o, bytes) && o + |b| <= |mid| && out == Splice(mid, o, b)
    requires now' == if run.inPlace then out else now
    ensures Underway(run, now', out, o + |b|, bytes + b)
  {
    hide Splice, Partly;
    SameLength(run.out0, mid, o, bytes);
    PartlyNext(run.out0, mid, out, o, bytes, b);
  }

  lemma SameLength(was: seq<bv8>, now: seq<bv8>, done: nat, bytes: seq<bv8>)
    requires Partly(was, now, done, bytes)
    ensures |was| == |now| && |bytes| == done
  {
  }

  lemma UnderwayReads(run: Run, now: seq<bv8>, out: seq<bv8>, o: nat, bytes: seq<bv8>, end: nat)
    requires Underway(run, now, out, o, bytes) && o <= end <= |run.all|
    ensures |now| == |run.all| && now[o..end] == run.all[o..end] && |out| == |run.out0|
  {
    hide Partly;
    SameLength(run.out0, out, o, bytes);
    StillThere(now, run.all, run.out0, o, bytes, run.inPlace, end);
  }

  lemma EncryptingNext(f: BlockFunction, run: Run, now: seq<bv8>, mid: seq<bv8>, iv: Bytes16, o: nat, bytes: seq<bv8>,
                       now': seq<bv8>, out: seq<bv8>, c: Bytes16)
    requires Encrypting(f, run, now, mid, iv, o, bytes) && o + 16 <= run.length && o + 16 <= |now| && o + 16 <= |mid|
    requires c == f(Mask(now[o..o + 16], iv)) && out == Splice(mid, o, c)
    requires now' == if run.inPlace then out else now
    ensures Encrypting(f, run, now', out, c, o + 16, bytes + c)
  {
    hide Splice, Mask, EncSoFar, Underway, RoundUp;
    var inp := run.all[..run.length];
    UnderwayReads(run, now, mid, o, bytes, o + 16);
    assert inp[o..o + 16] == run.all[o..o + 16];
    EncSoFarNext(f, run.iv0, inp, iv, o, bytes);
    UnderwayNext(run, now, mid, o, bytes, now', out, c);
  }

  lemma EncryptingEnd(f: BlockFunction, run: Run, now: seq<bv8>, mid: seq<bv8>, iv: Bytes16, o: nat, bytes: seq<bv8>,
                      out: seq<bv8>, c: Bytes16)
    requires Encrypting(f, run, now, mid, iv, o, bytes) && run.length - 16 < o <= run.length <= |now|
    requires RoundUp(run.length) == |mid[..o]| + if o < run.length then 16 else 0
    requires RoundUp(run.length) <= |mid|
    requires o == run.length ==> out == mid && c == iv
    requires o < run.length ==> c == f(Mask(now[o..run.length], iv)) && out == Splice(mid, o, c)
    ensures |out| == |run.out0| && run.length <= |run.all|
    ensures out[..RoundUp(run.length)] == CbcEnc(f, run.iv0, run.all[..run.length])
    ensures out[RoundUp(run.length)..] == run.out0[RoundUp(run.length)..]
    ensures c == EncIv(f, run.iv0, run.all[..run.length])
  {
    hide Splice, Mask, CbcEnc, EncIv, EncSoFar, Underway, RoundUp, Partly;
    var inp := run.all[..run.length];
    EncSoFarLast(f, run.iv0, inp, iv, o, bytes);
    UnderwayReads(run, now, mid, o, bytes, run.length);
    assert inp[o..] == run.all[o..run.length];
    if o < run.length {
      UnderwayNext(run, now, mid, o, bytes, if run.inPlace then out else now, out, c);
      UnderwayOut(run, if run.inPlace then out else now, out, o + 16, bytes + c);
    } else {
      UnderwayOut(run, now, mid, o, bytes);
    }
  }

  lemma UnderwayOut(run: Run, now: seq<bv8>, out: seq<bv8>, o: nat, bytes: seq<bv8>)
    requires Underway(run, now, out, o, bytes)
    ensures o <= |out| == |run.out0| && out[..o] == bytes && out[o..] == run.out0[o..]
  {
  }

  lemma RoundUpLast(n: nat)
    requires n < 16
    ensures RoundUp(n) == if n == 0 then 0 else 16
  {
  }

  lemma CbcStart(f: BlockFunction, iv0: Bytes16, inp: seq<bv8>, out0: seq<bv8>)
    ensures Partly(out0, out0, 0, []) && EncSoFar(f, iv0, inp, iv0, 0, [])
  {
    hide CbcEnc, EncIv;
    assert inp[0..] == inp;
  }

  // ---------------------------------------------------------------- decrypting

  lemma DecNothing(g: BlockFunction, iv: Bytes16, c: seq<bv8>)
    ensures CbcDec(g, iv, c, 0) == [] && DecIv(g, iv, c, 0) == iv
  {
  }

  lemma DecShort(g: BlockFunction, iv: Bytes16, c: seq<bv8>, len: nat)
    requires 0 < len < 16 <= |c|
    ensures CbcDec(g, iv, c, len) == Mask(g(c[..16]), iv)[..len] && DecIv(g, iv, c, len) == g(c[..16])
  {
  }

  lemma DecFirst(g: BlockFunction, iv: Bytes16, c: seq<bv8>, len: nat)
    requires 16 <= len && RoundUp(len) <= |c|
    ensures RoundUp(len) == 16 + RoundUp(len - 16)
    ensures CbcDec(g, iv, c, len) == Mask(g(c[..16]), iv) + CbcDec(g, c[..16], c[16..], len - 16)
    ensures DecIv(g, iv, c, len) == DecIv(g, c[..16], c[16..], len - 16)
  {
    RoundUpStep(len, 16);
  }

  /** Where the decrypting loop stands. */
  ghost predicate DecSoFar(g: BlockFunction, iv0: Bytes16, inp: seq<bv8>, length: nat, iv: Bytes16, o: nat, bytes: seq<bv8>) {
    && o <= length && RoundUp(length) == |inp| && o <= |inp| && RoundUp(length - o) == |inp[o..]|
    && bytes + CbcDec(g, iv, inp[o..], length - o) == CbcDec(g, iv0, inp, length)
    && DecIv(g, iv, inp[o..], length - o) == DecIv(g, iv0, inp, length)
  }

  lemma DecSoFarNext(g: BlockFunction, iv0: Bytes16, inp: seq<bv8>, length: nat, iv: Bytes16, o: nat, bytes: seq<bv8>)
    requires DecSoFar(g, iv0, inp, length, iv, o, bytes) && o + 16 <= length && o + 16 <= |inp|
    ensures DecSoFar(g, iv0, inp, length, inp[o..o + 16], o + 16, bytes + Mask(g(inp[o..o + 16]), iv))
  {
    hide Mask, CbcDec, DecIv, RoundUp;
    DecFirst(g, iv, inp[o..], length - o);
    assert inp[o..][..16] == inp[o..o + 16] && inp[o..][16..] == inp[o + 16..];
    var p := Mask(g(inp[o..o + 16]), iv);
    var rest := CbcDec(g, inp[o..o + 16], inp[o + 16..], length - (o + 16));
    assert bytes + (p + rest) == bytes + p + rest;
  }

  lemma DecSoFarLast(g: BlockFunction, iv0: Bytes16, inp: seq<bv8>, length: nat, iv: Bytes16, o: nat, bytes: seq<bv8>)
    requires DecSoFar(g, iv0, inp, length, iv, o, bytes) && length - o < 16
    ensures o == length ==> bytes == CbcDec(g, iv0, inp, length) && iv == DecIv(g, iv0, inp, length)
    ensures o < length ==> o + 16 == |inp| && bytes + Mask(g(inp[o..]), iv)[..length - o] == CbcDec(g, iv0, inp, length)
    ensures o < length ==> g(inp[o..]) == DecIv(g, iv0, inp, length)
  {
    hide Mask, CbcDec, DecIv, RoundUp;
    RoundUpLast(length - o);
    if o == length {
      DecNothing(g, iv, inp[o..]);
    } else {
      DecShort(g, iv, inp[o..], length - o);
      assert inp[o..][..16] == inp[o..];
    }
  }

  lemma DecStart(g: BlockFunction, iv0: Bytes16, inp: seq<bv8>, length: nat, out0: seq<bv8>)
    requires |inp| == RoundUp(length)
    ensures Partly(out0, out0, 0, []) && DecSoFar(g, iv0, inp, length, iv0, 0, [])
  {
    hide CbcDec, DecIv;
    assert inp[0..] == inp;
  }

  /** out[n] = from[n] ^ ivec[n] for the first `len` bytes; `from` may be the place written to. */
  method XorOut(from: array<bv8>, there: nat, output: array<bv8>, at: nat, len: nat, ivec: array<bv8>)
    requires ivec.Length == 16 && len <= 16 && there + 16 <= from.Length && at + len <= output.Length
    requires ivec != output && (from == output ==> there == at)
    modifies output
    ensures output[..] == Splice(old(output[..]), at, Mask(old(from[there..there + 16]), ivec[..])[..len])
  {
    hide XorByte, Mask, Splice;
    ghost var was, b := output[..], Mask(from[there..there + 16], ivec[..]);
    MaskWhole(from[there..there + 16], ivec[..]);
    for n := 0 to len
      invariant output.Length == |was| && forall j :: 0 <= j < at ==> output[j] == was[j]
      invariant forall j :: 0 <= j < n ==> output[at + j] == b[j]
      invariant forall j :: at + n <= j < output.Length ==> output[j] == was[j]
    {
      assert from[there + n] == old(from[there..there + 16])[n];
      output[at + n] := XorByte(from[there + n], ivec[n]);
    }
    assert output[at..at + len] == b[..len];
    SpliceIs(was, output[..], at, b[..len]);
  }

  lemma MaskWhole(p: Bytes16, iv: Bytes16)
    ensures forall n :: 0 <= n < 16 ==> Mask(p, iv)[n] == XorByte(p[n], iv[n])
  {
    hide XorByte;
  }

  lemma SpliceIs(was: seq<bv8>, now: seq<bv8>, at: nat, b: seq<bv8>)
    requires |was| == |now| && at + |b| <= |was|
    requires now[..at] == was[..at] && now[at..at + |b|] == b && now[at + |b|..] == was[at + |b|..]
    ensures now == Splice(was, at, b)
  {
    assert now == now[..at] + now[at..at + |b|] + now[at + |b|..];
  }

  lemma SpliceAgain(a: seq<bv8>, at: nat, b: seq<bv8>, c: seq<bv8>)
    requires |b| == |c| && at + |b| <= |a|
    ensures Splice(Splice(a, at, b), at, c) == Splice(a, at, c)
  {
  }

  /** One whole block of the decrypting loop; the ciphertext is saved before it is overwritten. */
  method DecryptStep(input: array<bv8>, at: nat, output: array<bv8>, key: AesKey, ghost g: BlockFunction, ivec: array<bv8>, tmp: array<bv8>)
    requires Deciphers(key, g) && ivec.Length == 16 == tmp.Length && ivec != input && ivec != output
    requires tmp != input && tmp != output && tmp != ivec
    requires at + 16 <= input.Length && at + 16 <= output.Length
    modifies output, ivec, tmp
    ensures ivec[..] == old(input[at..at + 16])
    ensures output[..] == Splice(old(output[..]), at,
                                 Mask(g(old(input[at..at + 16])), old(ivec[..])))
  {
    hide Splice, DecryptedBytes, Mask;
    CopyBlock(input, at, tmp, 0);
    SpliceAll(old(tmp[..]), input[at..at + 16]);
    ghost var clear := g(old(input[at..at + 16]));
    Decrypt(input, at, output, at, key);
    assert output[at..at + 16] == output[..][at..at + 16] == clear;
    XorOut(output, at, output, at, 16, ivec);
    ghost var plain := Mask(clear, ivec[..]);
    assert plain[..16] == plain;
    SpliceAgain(old(output[..]), at, clear, plain);
    CopyBlock(tmp, 0, ivec, 0);
    SpliceAll(old(ivec[..]), tmp[..]);
    assert tmp[0..16] == tmp[..];
  }

  /** The partial block at the end: a whole block of ciphertext, `len` bytes of plaintext. */
  method DecryptTail(input: array<bv8>, at: nat, len: nat, output: array<bv8>, key: AesKey, ghost g: BlockFunction, ivec: array<bv8>, tmp: array<bv8>)
    requires Deciphers(key, g) && ivec.Length == 16 == tmp.Length && ivec != input && ivec != output
    requires tmp != input && tmp != output && tmp != ivec
    requires len < 16 && at + 16 <= input.Length && at + len <= output.Length
    modifies output, ivec, tmp
    ensures ivec[..] == g(old(input[at..at + 16]))
    ensures output[..] == Splice(old(output[..]), at, Mask(ivec[..], old(ivec[..]))[..len])
  {
    hide Splice, DecryptedBytes, Mask;
    CopyBlock(input, at, tmp, 0);
    SpliceAll(old(tmp[..]), input[at..at + 16]);
    assert tmp[0..16] == tmp[..];
    ghost var coded := tmp[..];
    Decrypt(tmp, 0, tmp, 0, key);
    SpliceAll(coded, g(coded));
    assert tmp[0..16] == tmp[..];
    XorOut(tmp, 0, output, at, len, ivec);
    CopyBlock(tmp, 0, ivec, 0);
    SpliceAll(old(ivec[..]), tmp[..]);
  }

  /** The decrypting half of AES_cbc_encrypt. Input and output may be the same buffer. */
  method CbcDecrypt(input: array<bv8>, output: array<bv8>, length: nat, key: AesKey, ghost g: BlockFunction, ivec: array<bv8>)
    requires Deciphers(key, g) && ivec.Length == 16 && ivec != input && ivec != output
    requires RoundUp(length) <= input.Length && length <= output.Length
    modifies output, ivec
    ensures output[..length] ==
            CbcDec(g, old(ivec[..]), old(input[..RoundUp(length)]), length)
    ensures output[length..] == old(output[length..])
    ensures ivec[..] == DecIv(g, old(ivec[..]), old(input[..RoundUp(length)]), length)
  {
    hide Splice, DecryptedBytes, Mask, CbcDec, DecIv, RoundUp, Decrypting;
    ghost var all, out0, iv0, bytes := input[..], output[..], ivec[..], [];
    ghost var run, end := Run(all, out0, iv0, length, input == output), RoundUp(length);
    var tmp := new bv8[16];
    var o := 0;
    DecryptingStart(g, run);
    assert input[..end] == all[..end];
    while length - o >= 16
      invariant o % 16 == 0 && o <= length
      invariant Decrypting(g, run, input[..], output[..], ivec[..], o, bytes)
    {
      ghost var now, mid, iv := input[..], output[..], ivec[..];
      assert input[o..o + 16] == now[o..o + 16];
      DecryptStep(input, o, output, key, g, ivec, tmp);
      DecryptingNext(g, run, now, mid, iv, o, bytes, input[..], output[..]);
      bytes := bytes + Mask(g(now[o..o + 16]), iv);
      o := o + 16;
    }
    ghost var now, mid, iv := input[..], output[..], ivec[..];
    RoundUpStep(length, o);
    RoundUpLast(length - o);
    if o < length {
      assert input[o..o + 16] == now[o..o + 16];
      DecryptTail(input, o, length - o, output, key, g, ivec, tmp);
    }
    DecryptingEnd(g, run, now, mid, iv, o, bytes, output[..], ivec[..]);
    assert output[length..] == output[..][length..];
    assert old(output[length..]) == out0[length..];
  }

  ghost predicate Decrypting(g: BlockFunction, run: Run, now: seq<bv8>, out: seq<bv8>, iv: Bytes16, o: nat, bytes: seq<bv8>) {
    && RoundUp(run.length) <= |run.all| && run.length <= |run.out0|
    && Underway(run, now, out, o, bytes)
    && DecSoFar(g, run.iv0, run.all[..RoundUp(run.length)], run.length, iv, o, bytes)
  }

  lemma DecryptingStart(g: BlockFunction, run: Run)
    requires RoundUp(run.length) <= |run.all| && run.length <= |run.out0|
    requires run.inPlace ==> run.all == run.out0
    ensures Decrypting(g, run, run.all, run.out0, run.iv0, 0, [])
  {
    hide CbcDec, DecIv, RoundUp;
    DecStart(g, run.iv0, run.all[..RoundUp(run.length)], run.length, run.out0);
  }

  lemma DecryptingNext(g: BlockFunction, run: Run, now: seq<bv8>, mid: seq<bv8>, iv: Bytes16, o: nat, bytes: seq<bv8>,
                       now': seq<bv8>, out: seq<bv8>)
    requires Decrypting(g, run, now, mid, iv, o, bytes) && o + 16 <= run.length && o + 16 <= |now| && o + 16 <= |mid|
    requires out == Splice(mid, o, Mask(g(now[o..o + 16]), iv))
    requires now' == if run.inPlace then out else now
    ensures Decrypting(g, run, now', out, now[o..o + 16], o + 16, bytes + Mask(g(now[o..o + 16]), iv))
  {
    hide Splice, Mask, DecSoFar, Underway, RoundUp;
    var inp := run.all[..RoundUp(run.length)];
    UnderwayReads(run, now, mid, o, bytes, o + 16);
    assert inp[o..o + 16] == run.all[o..o + 16];
    DecSoFarNext(g, run.iv0, inp, run.length, iv, o, bytes);
    UnderwayNext(run, now, mid, o, bytes, now', out, Mask(g(now[o..o + 16]), iv));
  }

  lemma DecryptingEnd(g: BlockFunction, run: Run, now: seq<bv8>, mid: seq<bv8>, iv: Bytes16, o: nat, bytes: seq<bv8>,
                      out: seq<bv8>, c: Bytes16)
    requires Decrypting(g, run, now, mid, iv, o, bytes) && run.length - 16 < o <= run.length <= |mid|
    requires RoundUp(run.length) == o + (if o < run.length then 16 else 0) <= |now|
    requires o == run.length ==> out == mid && c == iv
    requires o < run.length ==> c == g(now[o..o + 16]) && out == Splice(mid, o, Mask(c, iv)[..run.length - o])
    ensures |out| == |run.out0| && RoundUp(run.length) <= |run.all|
    ensures out[..run.length] == CbcDec(g, run.iv0, run.all[..RoundUp(run.length)], run.length)
    ensures out[run.length..] == run.out0[run.length..]
    ensures c == DecIv(g, run.iv0, run.all[..RoundUp(run.length)], run.length)
  {
    hide Splice, Mask, CbcDec, DecIv, DecSoFar, Underway, RoundUp, Partly;
    var end := RoundUp(run.length);
    var inp := run.all[..end];
    DecSoFarLast(g, run.iv0, inp, run.length, iv, o, bytes);
    UnderwayReads(run, now, mid, o, bytes, end);
    assert inp[o..] == run.all[o..end];
    if o < run.length {
      var b := Mask(c, iv)[..run.length - o];
      UnderwayNext(run, now, mid, o, bytes, if run.inPlace then out else now, out, b);
      UnderwayOut(run, if run.inPlace then out else now, out, run.length, bytes + b);
    } else {
      UnderwayOut(run, now, mid, o, bytes);
    }
  }

  /** AES_cbc_encrypt in place, there and back: for every key size, every length and every chaining
      value the plaintext is restored, and only padding after it has changed. */
  method CbcThereAndBack(userKey: array<bv8>, bits: int, buffer: array<bv8>, length: nat, ivec: array<bv8>, ivecAgain: array<bv8>)
    requires ValidBits(bits) && bits / 8 <= userKey.Length
    requires RoundUp(length) <= buffer.Length && ivec.Length == 16 == ivecAgain.Length
    requires ivec != buffer && ivecAgain != buffer && ivec != ivecAgain && ivec[..] == ivecAgain[..]
    requires userKey != buffer && userKey != ivec && userKey != ivecAgain
    modifies buffer, ivec, ivecAgain
    ensures buffer[..length] == old(buffer[..length])
    ensures buffer[RoundUp(length)..] == old(buffer[RoundUp(length)..])
  {
    hide Expanded, Inverts, EncryptedBytes, DecryptedBytes, CbcEnc, CbcDec, EncIv, DecIv, RoundUp, Mask, Undoes;
    var ek := new AesKey();
    var dk := new AesKey();
    ghost var e, d, nr := TwoSchedules(userKey, bits, ek, dk);
    ghost var f, g := EncWith(e, nr), DecWith(d, nr);
    DecUndoesEnc(e, d, nr);
    ghost var plain, iv, end := buffer[..length], ivec[..], RoundUp(length);
    CbcEncrypt(buffer, buffer, length, ek, f, ivec);
    CbcRoundTrip(f, g, iv, plain);
    ghost var coded := buffer[..];
    CbcDecrypt(buffer, buffer, length, dk, g, ivecAgain);
    assert buffer[end..] == buffer[length..][end - length..];
    assert coded[end..] == coded[length..][end - length..];
  }

  method TwoSchedules(userKey: array<bv8>, bits: int, ek: AesKey, dk: AesKey)
    returns (ghost e: seq<bv32>, ghost d: seq<bv32>, ghost nr: nat)
    requires ValidBits(bits) && bits / 8 <= userKey.Length
    requires ek != dk && ek.rdKey != dk.rdKey && ek.rdKey.Length == dk.rdKey.Length == 60
    modifies ek, ek.rdKey, dk, dk.rdKey
    ensures UsableKey(ek) && UsableKey(dk) && nr == ek.rounds == dk.rounds && ek.Words() == e && dk.Words() == d
    ensures Inverts(e, d, nr)
  {
    hide Expanded, Inverts, EncryptedBytes, DecryptedBytes;
    var status := SetEncryptKey(userKey, bits, ek);
    e := ek.Words();
    status := SetDecryptKey(userKey, bits, dk);
    d, nr := dk.Words(), RoundsFor(bits);
    SameScheduleInverts(Schedule(KeyWords(userKey[..], bits / 32), nr), e, d, nr);
  }
}
