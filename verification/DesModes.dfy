/** The CBC, 3DES and DOCSIS modes of des_basic.c:450-688 on byte buffers that
    may be one and the same. */
module DesModes {
  import opened DesBlock

  type Bytes = seq<bv8>
  type Keys = ks: seq<bv64> | |ks| == 16 witness seq(16, _ => 0)
  type BlockFn = bv64 -> bv64

  // ------------------------------------------- words and their bytes

  /** The bytes of a stored word, lowest first. */
  function Stored(x: bv64): (s: Bytes)
    ensures |s| == 8
  {
    [B0(x), B1(x), B2(x), B3(x), B4(x), B5(x), B6(x), B7(x)]
  }

  function B0(x: bv64): bv8 { (x & 0xff) as bv8 }
  function B1(x: bv64): bv8 { ((x >> 8) & 0xff) as bv8 }
  function B2(x: bv64): bv8 { ((x >> 16) & 0xff) as bv8 }
  function B3(x: bv64): bv8 { ((x >> 24) & 0xff) as bv8 }
  function B4(x: bv64): bv8 { ((x >> 32) & 0xff) as bv8 }
  function B5(x: bv64): bv8 { ((x >> 40) & 0xff) as bv8 }
  function B6(x: bv64): bv8 { ((x >> 48) & 0xff) as bv8 }
  function B7(x: bv64): bv8 { ((x >> 56) & 0xff) as bv8 }

  function Loaded(s: Bytes): bv64
    requires |s| == 8
  {
    Word(s[0], s[1], s[2], s[3], s[4], s[5], s[6], s[7])
  }

  function Word(a: bv8, b: bv8, c: bv8, d: bv8, e: bv8, f: bv8, g: bv8, h: bv8): bv64 {
    (a as bv64) | ((b as bv64) << 8) | ((c as bv64) << 16) | ((d as bv64) << 24)
    | ((e as bv64) << 32) | ((f as bv64) << 40) | ((g as bv64) << 48) | ((h as bv64) << 56)
  }

  lemma WordOfBytes(x: bv64)
    ensures Word(B0(x), B1(x), B2(x), B3(x), B4(x), B5(x), B6(x), B7(x)) == x
  {
  }

  lemma BytesOfWord(a: bv8, b: bv8, c: bv8, d: bv8, e: bv8, f: bv8, g: bv8, h: bv8)
    ensures var x := Word(a, b, c, d, e, f, g, h);
      && B0(x) == a && B1(x) == b && B2(x) == c && B3(x) == d
      && B4(x) == e && B5(x) == f && B6(x) == g && B7(x) == h
  {
  }

  lemma LoadStored(x: bv64)
    ensures Loaded(Stored(x)) == x
  {
    hide Word, B0, B1, B2, B3, B4, B5, B6, B7;
    WordOfBytes(x);
  }

  lemma StoreLoaded(s: Bytes)
    requires |s| == 8
    ensures Stored(Loaded(s)) == s
  {
    hide Word, B0, B1, B2, B3, B4, B5, B6, B7;
    BytesOfWord(s[0], s[1], s[2], s[3], s[4], s[5], s[6], s[7]);
  }

  function Xor(x: bv64, y: bv64): bv64 { x ^ y }

  lemma XorTwice(x: bv64, y: bv64)
    ensures Xor(Xor(x, y), y) == x
  {
  }

  // ---------------------------------------------------------- modes

  predicate Aligned(n: nat) { n % 8 == 0 }

  lemma AlignedLess(n: nat)
    requires Aligned(n) && n > 0
    ensures n >= 8 && Aligned(n - 8)
  {
  }

  /** What the next block is chained to: the last block of `c`, or the vector. */
  function Chain(iv: bv64, c: Bytes): bv64
    requires Aligned(|c|)
  {
    if c == [] then iv else Loaded(c[|c| - 8..])
  }

  function CbcEnc(e: BlockFn, iv: bv64, s: Bytes): (r: Bytes)
    requires Aligned(|s|)
    ensures |r| == |s|
  {
    if s == [] then [] else
      var c := CbcEnc(e, iv, s[..|s| - 8]);
      c + Stored(e(Xor(Loaded(s[|s| - 8..]), Chain(iv, c))))
  }

  function CbcDec(d: BlockFn, iv: bv64, c: Bytes): (r: Bytes)
    requires Aligned(|c|)
    ensures |r| == |c|
  {
    if c == [] then [] else
      var b := c[..|c| - 8];
      CbcDec(d, iv, b) + Stored(Xor(d(Loaded(c[|c| - 8..])), Chain(iv, b)))
  }

  /** Block `i` of a text. */
  function Block(s: Bytes, i: nat): bv64
    requires 8 * i + 8 <= |s|
  {
    Loaded(s[8 * i..8 * i + 8])
  }

  lemma {:induction false} EncBlockXor(e: BlockFn, iv: bv64, s: Bytes, i: nat)
    requires Aligned(|s|) && 8 * i + 8 <= |s|
    ensures var c := CbcEnc(e, iv, s);
            Block(c, i) == e(Xor(Block(s, i), if i == 0 then iv else Block(c, i - 1)))
    decreases |s|
  {
    hide Loaded, Stored, Aligned, Xor, Block;
    AlignedLess(|s|);
    var t := s[..|s| - 8];
    var c, b := CbcEnc(e, iv, s), CbcEnc(e, iv, t);
    assert c[..|t|] == b;
    if 8 * i + 8 <= |t| {
      EncBlockXor(e, iv, t, i);
      SameBlock(s, t, i);
      SameBlock(c, b, i);
      if i > 0 { SameBlock(c, b, i - 1); }
    } else {
      LastIsBlock(s, i);
      LastIsBlock(c, i);
      LoadStored(e(Xor(Loaded(s[|t|..]), Chain(iv, b))));
      if i > 0 {
        LastIsBlock(b, i - 1);
        SameBlock(c, b, i - 1);
      }
    }
  }

  /** C_i = E(P_i XOR C_i-1), the vector standing for the block before the first. */
  lemma CbcEncBlock(e: BlockFn, iv: bv64, s: Bytes, i: nat)
    requires Aligned(|s|) && 8 * i + 8 <= |s|
    ensures var c := CbcEnc(e, iv, s);
            Block(c, i) == e(Block(s, i) ^ if i == 0 then iv else Block(c, i - 1))
  {
    hide CbcEnc, Block;
    EncBlockXor(e, iv, s, i);
  }

  lemma {:induction false} DecBlockXor(d: BlockFn, iv: bv64, c: Bytes, i: nat)
    requires Aligned(|c|) && 8 * i + 8 <= |c|
    ensures Block(CbcDec(d, iv, c), i) == Xor(d(Block(c, i)), if i == 0 then iv else Block(c, i - 1))
    decreases |c|
  {
    hide Loaded, Stored, Aligned, Xor, Block;
    AlignedLess(|c|);
    var b := c[..|c| - 8];
    var s, t := CbcDec(d, iv, c), CbcDec(d, iv, b);
    assert s[..|t|] == t;
    if 8 * i + 8 <= |b| {
      DecBlockXor(d, iv, b, i);
      SameBlock(c, b, i);
      SameBlock(s, t, i);
      if i > 0 { SameBlock(c, b, i - 1); }
    } else {
      LastIsBlock(s, i);
      LastIsBlock(c, i);
      LoadStored(Xor(d(Loaded(c[|b|..])), Chain(iv, b)));
      if i > 0 { LastIsBlock(b, i - 1); SameBlock(c, b, i - 1); }
    }
  }

  /** P_i = D(C_i) XOR C_i-1. */
  lemma CbcDecBlock(d: BlockFn, iv: bv64, c: Bytes, i: nat)
    requires Aligned(|c|) && 8 * i + 8 <= |c|
    ensures Block(CbcDec(d, iv, c), i) == d(Block(c, i)) ^ if i == 0 then iv else Block(c, i - 1)
  {
    hide CbcDec, Block;
    DecBlockXor(d, iv, c, i);
  }

  lemma SameBlock(s: Bytes, t: Bytes, i: nat)
    requires |t| <= |s| && s[..|t|] == t && 8 * i + 8 <= |t|
    ensures Block(s, i) == Block(t, i)
  {
    hide Loaded;
    assert s[8 * i..8 * i + 8] == s[..|t|][8 * i..8 * i + 8];
  }

  /** The block that ends in the last eight bytes. */
  lemma LastIsBlock(s: Bytes, i: nat)
    requires Aligned(|s|) && 8 * i + 8 <= |s| < 8 * i + 16
    ensures 8 * i + 8 == |s| && Block(s, i) == Loaded(s[|s| - 8..])
  {
    hide Loaded;
    assert s[8 * i..8 * i + 8] == s[|s| - 8..];
  }

  /** Words are stored with their lowest byte first. */
  lemma StoredFromLow(x: bv64)
    ensures Stored(x)[0] == (x & 0xff) as bv8 && Stored(x)[1..] + [0] == Stored(x >> 8)
  {
    var s, t := Stored(x)[1..] + [0], Stored(x >> 8);
    ShiftedBytes(x);
    assert s == [B1(x), B2(x), B3(x), B4(x), B5(x), B6(x), B7(x), 0];
  }

  lemma ShiftedBytes(x: bv64)
    ensures var y := x >> 8;
            && B0(y) == B1(x) && B1(y) == B2(x) && B2(y) == B3(x) && B3(y) == B4(x)
            && B4(y) == B5(x) && B5(y) == B6(x) && B6(y) == B7(x) && B7(y) == 0
  {
  }

  ghost predicate Undoes(d: BlockFn, e: BlockFn) {
    forall x :: d(e(x)) == x
  }

  lemma DecOneMore(d: BlockFn, iv: bv64, c: Bytes, x: bv64)
    requires Aligned(|c|)
    ensures Aligned(|c + Stored(x)|)
    ensures CbcDec(d, iv, c + Stored(x)) == CbcDec(d, iv, c) + Stored(Xor(d(x), Chain(iv, c)))
  {
    hide Xor, Stored, Loaded, Chain;
    LoadStored(x);
    var all := c + Stored(x);
    assert all[..|all| - 8] == c && all[|all| - 8..] == Stored(x);
  }

  lemma EncOneMore(e: BlockFn, iv: bv64, s: Bytes, x: bv64)
    requires Aligned(|s|)
    ensures Aligned(|s + Stored(x)|)
    ensures var c := CbcEnc(e, iv, s); CbcEnc(e, iv, s + Stored(x)) == c + Stored(e(Xor(x, Chain(iv, c))))
  {
    hide Xor, Stored, Loaded, Chain;
    LoadStored(x);
    var all := s + Stored(x);
    assert all[..|all| - 8] == s && all[|all| - 8..] == Stored(x);
  }

  lemma LastWord(s: Bytes) returns (t: Bytes, w: bv64)
    requires Aligned(|s|) && s != []
    ensures Aligned(|t|) && |t| < |s| && s == t + Stored(w)
  {
    hide Stored, Loaded, Aligned;
    AlignedLess(|s|);
    t, w := s[..|s| - 8], Loaded(s[|s| - 8..]);
    StoreLoaded(s[|s| - 8..]);
  }

  lemma {:induction false} CbcRoundTrip(e: BlockFn, d: BlockFn, iv: bv64, s: Bytes)
    requires Aligned(|s|) && Undoes(d, e)
    ensures CbcDec(d, iv, CbcEnc(e, iv, s)) == s
    decreases |s|
  {
    if s != [] {
      var t, w := LastWord(s);
      CbcRoundTrip(e, d, iv, t);
      CbcRoundTripStep(e, d, iv, t, w);
    }
  }

  lemma CbcRoundTripStep(e: BlockFn, d: BlockFn, iv: bv64, t: Bytes, w: bv64)
    requires Aligned(|t|) && Undoes(d, e) && CbcDec(d, iv, CbcEnc(e, iv, t)) == t
    ensures Aligned(|t + Stored(w)|) && CbcDec(d, iv, CbcEnc(e, iv, t + Stored(w))) == t + Stored(w)
  {
    hide CbcEnc, CbcDec, Xor, Stored, Loaded, Chain;
    var c := CbcEnc(e, iv, t);
    var m := Xor(w, Chain(iv, c));
    EncOneMore(e, iv, t, w);
    DecOneMore(d, iv, c, e(m));
    XorTwice(w, Chain(iv, c));
  }

  lemma {:induction false} CbcRoundTripBack(e: BlockFn, d: BlockFn, iv: bv64, c: Bytes)
    requires Aligned(|c|) && Undoes(e, d)
    ensures CbcEnc(e, iv, CbcDec(d, iv, c)) == c
    decreases |c|
  {
    if c != [] {
      var t, w := LastWord(c);
      CbcRoundTripBack(e, d, iv, t);
      CbcRoundTripBackStep(e, d, iv, t, w);
    }
  }

  lemma CbcRoundTripBackStep(e: BlockFn, d: BlockFn, iv: bv64, t: Bytes, w: bv64)
    requires Aligned(|t|) && Undoes(e, d) && CbcEnc(e, iv, CbcDec(d, iv, t)) == t
    ensures Aligned(|t + Stored(w)|) && CbcEnc(e, iv, CbcDec(d, iv, t + Stored(w))) == t + Stored(w)
  {
    hide CbcEnc, CbcDec, Xor, Stored, Loaded, Chain;
    var s := CbcDec(d, iv, t);
    DecOneMore(d, iv, t, w);
    EncOneMore(e, iv, s, Xor(d(w), Chain(iv, t)));
    XorTwice(d(w), Chain(iv, t));
  }

  function XorBytes(s: Bytes, k: Bytes): (r: Bytes)
    requires |s| <= |k|
    ensures |r| == |s|
  {
    seq(|s|, i requires 0 <= i < |s| => s[i] ^ k[i])
  }

  lemma XorBytesTwice(s: Bytes, k: Bytes)
    requires |s| <= |k|
    ensures XorBytes(XorBytes(s, k), k) == s
  {
    forall i | 0 <= i < |s|
      ensures XorBytes(XorBytes(s, k), k)[i] == s[i]
    {
      var x, y := s[i], k[i];
      assert (x ^ y) ^ y == x;
    }
  }

  /** Bytes of the whole blocks in `n` bytes. */
  function Whole(n: nat): (w: nat)
    ensures Aligned(w) && w <= n < w + 8
  {
    n / 8 * 8
  }

  /** DOCSIS: CBC on the whole blocks, one step of CFB on what is left. */
  function DocsisEnc(e: BlockFn, iv: bv64, s: Bytes): (r: Bytes)
    ensures |r| == |s|
  {
    var n := Whole(|s|);
    var c := CbcEnc(e, iv, s[..n]);
    c + XorBytes(s[n..], Stored(e(Chain(iv, c))))
  }

  function DocsisDec(e: BlockFn, d: BlockFn, iv: bv64, c: Bytes): (r: Bytes)
    ensures |r| == |c|
  {
    var n := Whole(|c|);
    CbcDec(d, iv, c[..n]) + XorBytes(c[n..], Stored(e(Chain(iv, c[..n]))))
  }

  /** The bytes behind the last whole block are XORed one by one with the enciphered
      last block of cipher text, or the enciphered vector if there is none. */
  lemma DocsisTail(e: BlockFn, iv: bv64, s: Bytes, k: nat)
    requires Whole(|s|) <= k < |s|
    ensures var n, c := Whole(|s|), DocsisEnc(e, iv, s);
            c[k] == s[k] ^ Stored(e(if n == 0 then iv else Loaded(c[n - 8..n])))[k - n]
  {
    hide CbcEnc, Stored, Loaded, Whole, XorBytes;
    var n, c := Whole(|s|), DocsisEnc(e, iv, s);
    var b := CbcEnc(e, iv, s[..n]);
    var key := Stored(e(Chain(iv, b)));
    assert c == b + XorBytes(s[n..], key);
    XorBytesAt(s[n..], key, k - n);
    if n > 0 {
      AlignedLess(n);
      assert c[n - 8..n] == b[n - 8..];
    }
  }

  lemma XorBytesAt(s: Bytes, k: Bytes, i: nat)
    requires i < |s| <= |k|
    ensures XorBytes(s, k)[i] == s[i] ^ k[i]
  {
  }

  lemma DocsisRoundTrip(e: BlockFn, d: BlockFn, iv: bv64, s: Bytes)
    requires Undoes(d, e)
    ensures DocsisDec(e, d, iv, DocsisEnc(e, iv, s)) == s
  {
    hide CbcEnc, CbcDec, XorBytes, Whole, Stored, Chain;
    var n := Whole(|s|);
    var all := DocsisEnc(e, iv, s);
    var c := CbcEnc(e, iv, s[..n]);
    assert all[..n] == c && all[n..] == XorBytes(s[n..], Stored(e(Chain(iv, c))));
    CbcRoundTrip(e, d, iv, s[..n]);
    XorBytesTwice(s[n..], Stored(e(Chain(iv, c))));
  }

  // ------------------------------------------------ block functions

  function Enc(s: Tables, ks: Keys): BlockFn { x => EncDec1(s, x, ks, true) }
  function Dec(s: Tables, ks: Keys): BlockFn { x => EncDec1(s, x, ks, false) }

  /** Encrypt, decrypt, encrypt. */
  function Enc3(s: Tables, k1: Keys, k2: Keys, k3: Keys): BlockFn {
    x => EncDec1(s, EncDec1(s, EncDec1(s, x, k1, true), k2, false), k3, true)
  }

  function Dec3(s: Tables, k1: Keys, k2: Keys, k3: Keys): BlockFn {
    x => EncDec1(s, EncDec1(s, EncDec1(s, x, k3, false), k2, true), k1, false)
  }

  lemma DesInverts(s: Tables, ks: Keys)
    ensures Undoes(Dec(s, ks), Enc(s, ks)) && Undoes(Enc(s, ks), Dec(s, ks))
  {
    hide EncDec1;
    forall x: bv64
      ensures Dec(s, ks)(Enc(s, ks)(x)) == x && Enc(s, ks)(Dec(s, ks)(x)) == x
    {
      Undo(s, x, ks, true);
      Undo(s, x, ks, false);
    }
  }

  lemma Des3Inverts(s: Tables, k1: Keys, k2: Keys, k3: Keys)
    ensures Undoes(Dec3(s, k1, k2, k3), Enc3(s, k1, k2, k3)) && Undoes(Enc3(s, k1, k2, k3), Dec3(s, k1, k2, k3))
  {
    hide EncDec1;
    forall x: bv64
      ensures Dec3(s, k1, k2, k3)(Enc3(s, k1, k2, k3)(x)) == x && Enc3(s, k1, k2, k3)(Dec3(s, k1, k2, k3)(x)) == x
    {
      var a := EncDec1(s, x, k1, true);
      var b := EncDec1(s, a, k2, false);
      Undo(s, x, k1, true);
      Undo(s, a, k2, false);
      Undo(s, b, k3, true);
      var c := EncDec1(s, x, k3, false);
      var d := EncDec1(s, c, k2, true);
      Undo(s, x, k3, false);
      Undo(s, c, k2, true);
      Undo(s, d, k1, false);
    }
  }

  /** Encryption with the first key, decryption with the second, encryption with the
      third, told by what undoes them; with two equal neighbours it is single DES. */
  lemma Des3IsEde(s: Tables, k1: Keys, k2: Keys, k3: Keys, x: bv64, y: bv64, z: bv64)
    requires Dec(s, k1)(y) == x && Enc(s, k2)(z) == y
    ensures Enc3(s, k1, k2, k3)(x) == Enc(s, k3)(z)
    ensures Enc3(s, k1, k1, k3)(x) == Enc(s, k3)(x) && Enc3(s, k1, k3, k3)(x) == Enc(s, k1)(x)
  {
    hide EncDec1;
    Undo(s, y, k1, false);
    Undo(s, z, k2, true);
    Undo(s, x, k1, true);
    Undo(s, EncDec1(s, x, k1, true), k3, false);
  }

  // -------------------------------------------------------- buffers

  method Store(out: array<bv8>, at: nat, s: Bytes)
    requires at + |s| <= out.Length
    modifies out
    ensures out[..] == old(out[..at]) + s + old(out[at + |s|..])
  {
    for i := 0 to |s|
      invariant out[..at] == old(out[..at]) && out[at..at + i] == s[..i]
      invariant out[at + |s|..] == old(out[at + |s|..])
    {
      out[at + i] := s[i];
    }
    assert out[..] == out[..at] + out[at..at + |s|] + out[at + |s|..];
  }

  /** des_enc_cbc_basic, whatever the two buffers are. */
  method DesEncCbc(s: Tables, inp: array<bv8>, out: array<bv8>, size: nat, ks: Keys, ivec: bv64)
    requires size <= inp.Length && size <= out.Length
    modifies out
    ensures out[..] == CbcEnc(Enc(s, ks), ivec, old(inp[..Whole(size)])) + old(out[Whole(size)..])
  {
    hide EncDec1, CbcEnc, Stored, Loaded, Xor, Chain, Aligned, Whole, EncState;
    Sizes(size);
    var nblocks, iv := size / 8, ivec;
    ghost var f, src, rest := Enc(s, ks), inp[..], out[..];
    EncStart(f, ivec, src, rest);
    for n := 0 to nblocks
      invariant EncState(f, ivec, src, rest, inp[..], out[..], n, iv)
    {
      ghost var now, done, was := inp[..], out[..], iv;
      iv := EncDec1(s, Xor(Loaded(inp[8 * n..8 * n + 8]), iv), ks, true);
      Store(out, 8 * n, Stored(iv));
      EncNext(f, ivec, src, rest, now, done, n, was, inp[..], out[..]);
    }
    EncEnd(f, ivec, src, rest, inp[..], out[..], nblocks, iv);
  }

  /** des_dec_cbc_basic. */
  method DesDecCbc(s: Tables, inp: array<bv8>, out: array<bv8>, size: nat, ks: Keys, ivec: bv64)
    requires size <= inp.Length && size <= out.Length
    modifies out
    ensures out[..] == CbcDec(Dec(s, ks), ivec, old(inp[..Whole(size)])) + old(out[Whole(size)..])
  {
    hide EncDec1, CbcDec, Stored, Loaded, Xor, Chain, Aligned, Whole, DecState;
    Sizes(size);
    var nblocks, iv := size / 8, ivec;
    ghost var f, src, rest := Dec(s, ks), inp[..], out[..];
    DecStart(f, ivec, src, rest);
    for n := 0 to nblocks
      invariant DecState(f, ivec, src, rest, inp[..], out[..], n, iv)
    {
      ghost var now, done, was := inp[..], out[..], iv;
      var block := Loaded(inp[8 * n..8 * n + 8]);
      var t := EncDec1(s, block, ks, false);
      Store(out, 8 * n, Stored(Xor(t, iv)));
      iv := block;
      DecNext(f, ivec, src, rest, now, done, n, was, inp[..], out[..]);
    }
    DecEnd(f, ivec, src, rest, inp[..], out[..], nblocks, iv);
  }

  /** des3_enc_cbc_basic. */
  method Des3EncCbc(s: Tables, inp: array<bv8>, out: array<bv8>, size: nat, ks1: Keys, ks2: Keys, ks3: Keys, ivec: bv64)
    requires size <= inp.Length && size <= out.Length
    modifies out
    ensures out[..] == CbcEnc(Enc3(s, ks1, ks2, ks3), ivec, old(inp[..Whole(size)])) + old(out[Whole(size)..])
  {
    hide EncDec1, CbcEnc, Stored, Loaded, Xor, Chain, Aligned, Whole, EncState;
    Sizes(size);
    var nblocks, iv := size / 8, ivec;
    ghost var f, src, rest := Enc3(s, ks1, ks2, ks3), inp[..], out[..];
    EncStart(f, ivec, src, rest);
    for n := 0 to nblocks
      invariant EncState(f, ivec, src, rest, inp[..], out[..], n, iv)
    {
      ghost var now, done, was := inp[..], out[..], iv;
      var t := Xor(Loaded(inp[8 * n..8 * n + 8]), iv);
      t := EncDec1(s, t, ks1, true);
      t := EncDec1(s, t, ks2, false);
      t := EncDec1(s, t, ks3, true);
      iv := t;
      Store(out, 8 * n, Stored(iv));
      EncNext(f, ivec, src, rest, now, done, n, was, inp[..], out[..]);
    }
    EncEnd(f, ivec, src, rest, inp[..], out[..], nblocks, iv);
  }

  /** des3_dec_cbc_basic. */
  method Des3DecCbc(s: Tables, inp: array<bv8>, out: array<bv8>, size: nat, ks1: Keys, ks2: Keys, ks3: Keys, ivec: bv64)
    requires size <= inp.Length && size <= out.Length
    modifies out
    ensures out[..] == CbcDec(Dec3(s, ks1, ks2, ks3), ivec, old(inp[..Whole(size)])) + old(out[Whole(size)..])
  {
    hide EncDec1, CbcDec, Stored, Loaded, Xor, Chain, Aligned, Whole, DecState;
    Sizes(size);
    var nblocks, iv := size / 8, ivec;
    ghost var f, src, rest := Dec3(s, ks1, ks2, ks3), inp[..], out[..];
    DecStart(f, ivec, src, rest);
    for n := 0 to nblocks
      invariant DecState(f, ivec, src, rest, inp[..], out[..], n, iv)
    {
      ghost var now, done, was := inp[..], out[..], iv;
      var block := Loaded(inp[8 * n..8 * n + 8]);
      var t := EncDec1(s, block, ks3, false);
      t := EncDec1(s, t, ks2, true);
      t := EncDec1(s, t, ks1, false);
      Store(out, 8 * n, Stored(Xor(t, iv)));
      iv := block;
      DecNext(f, ivec, src, rest, now, done, n, was, inp[..], out[..]);
    }
    DecEnd(f, ivec, src, rest, inp[..], out[..], nblocks, iv);
  }

  /** cfb_one_basic on the bytes from `at` on: one, two and four bytes are
      handled together when the size has that bit. */
  method CfbOne(s: Tables, inp: array<bv8>, out: array<bv8>, at: nat, size: nat, ks: Keys, iv: bv64)
    requires size < 8 && at + size <= inp.Length && at + size <= out.Length
    modifies out
    ensures out[..] ==
            old(out[..at]) + XorBytes(old(inp[at..at + size]), Stored(Enc(s, ks)(iv))) + old(out[at + size..])
  {
    hide EncDec1, Stored, XorBytes, Left, Progress;
    var t, o := EncDec1(s, iv, ks, true), at;
    ghost var key, src, rest := Stored(t), inp[..], out[..];
    NoProgress(at, key, src, rest);
    AllLeft(t);
    if size % 2 == 1 {
      Piece(inp, out, o, 1, t, at, key, src, rest);
      Shift8(key, t, o - at);
      t := t >> 8;
      o := o + 1;
    }
    if size / 2 % 2 == 1 {
      Piece(inp, out, o, 2, t, at, key, src, rest);
      Shift16(key, t, o - at);
      t := t >> 16;
      o := o + 2;
    }
    if size / 4 == 1 {
      Piece(inp, out, o, 4, t, at, key, src, rest);
      o := o + 4;
    }
    assert o == at + size;
    AllProgress(inp[..], out[..], o, at, key, src, rest);
  }

  /** The bytes from `at` to `o` are done and the rest is as before. */
  ghost predicate Progress(now: Bytes, done: Bytes, o: nat, at: nat, key: Bytes, src: Bytes, rest: Bytes) {
    && at <= o <= |now| == |src| && o <= |done| == |rest| && o - at <= |key| == 8
    && now[o..] == src[o..] && done[o..] == rest[o..]
    && done[..o] == rest[..at] + XorBytes(src[at..o], key)
  }

  lemma NoProgress(at: nat, key: Bytes, src: Bytes, rest: Bytes)
    requires at <= |src| && at <= |rest| && |key| == 8
    ensures Progress(src, rest, at, at, key, src, rest)
  {
    assert XorBytes(src[at..at], key) == [];
  }

  lemma AllProgress(now: Bytes, done: Bytes, o: nat, at: nat, key: Bytes, src: Bytes, rest: Bytes)
    requires Progress(now, done, o, at, key, src, rest)
    ensures at <= o <= |src| && o <= |rest| && o - at <= |key|
    ensures done == rest[..at] + XorBytes(src[at..o], key) + rest[o..]
  {
    hide XorBytes;
    assert done == done[..o] + done[o..];
  }

  /** `*out = *in ^ t` for `k` bytes at `o`, after those from `at` on. */
  method Piece(inp: array<bv8>, out: array<bv8>, o: nat, k: nat, t: bv64,
               ghost at: nat, ghost key: Bytes, ghost src: Bytes, ghost rest: Bytes)
    requires 0 < k <= 4 && at <= o && o + k <= inp.Length && o + k <= out.Length
    requires o - at + k <= 8 && Left(key, t, o - at)
    requires Progress(inp[..], out[..], o, at, key, src, rest)
    modifies out
    ensures Progress(inp[..], out[..], o + k, at, key, src, rest)
  {
    hide Stored, XorBytes;
    ghost var before, later := out[..], inp[..];
    assert key[o - at..o - at + k] == key[o - at..][..k] == Stored(t)[..k];
    assert inp[o..o + k] == src[o..o + k] by { assert inp[o..][..k] == src[o..][..k]; }
    var x := XorBytes(inp[o..o + k], Stored(t));
    MorePieces(src, key, Stored(t), at, o, k);
    Store(out, o, x);
    Placed(before, out[..], o, x);
    assert before[o + k..] == before[o..][k..];
    assert inp[o + k..] == later[o + k..] == later[o..][k..];
  }

  lemma NoBytes(key: Bytes, s: Bytes)
    requires s == []
    ensures XorBytes(s, key) == []
  {
  }

  lemma MorePieces(src: Bytes, key: Bytes, low: Bytes, at: nat, o: nat, k: nat)
    requires at <= o && o + k <= |src| && |key| == 8 == |low| && o - at + k <= 8
    requires key[o - at..o - at + k] == low[..k]
    ensures XorBytes(src[at..o + k], key) == XorBytes(src[at..o], key) + XorBytes(src[o..o + k], low)
  {
    var a, b := XorBytes(src[at..o + k], key), XorBytes(src[at..o], key) + XorBytes(src[o..o + k], low);
    forall i | 0 <= i < o - at + k
      ensures a[i] == b[i]
    {
      if i >= o - at {
        assert key[i] == key[o - at..o - at + k][i - (o - at)];
        assert low[i - (o - at)] == low[..k][i - (o - at)];
      }
    }
  }

  /** `t` holds what is left of the key stream after `j` bytes. */
  ghost predicate Left(key: Bytes, t: bv64, j: nat) {
    |key| == 8 && j <= 8 && key[j..] == Stored(t)[..8 - j]
  }

  lemma AllLeft(t: bv64)
    ensures Left(Stored(t), t, 0)
  {
    hide Stored;
  }

  lemma Shift8(key: Bytes, t: bv64, j: nat)
    requires Left(key, t, j) && j < 8
    ensures Left(key, t >> 8, j + 1)
  {
    hide B0, B1, B2, B3, B4, B5, B6, B7;
    Down8(t);
    assert key[j + 1..] == key[j..][1..];
  }

  lemma Down8(t: bv64)
    ensures B0(t >> 8) == B1(t) && B1(t >> 8) == B2(t) && B2(t >> 8) == B3(t) && B3(t >> 8) == B4(t)
    ensures B4(t >> 8) == B5(t) && B5(t >> 8) == B6(t) && B6(t >> 8) == B7(t)
  {
  }

  lemma Shift16(key: Bytes, t: bv64, j: nat)
    requires Left(key, t, j) && j < 7
    ensures Left(key, t >> 16, j + 2)
  {
    hide B0, B1, B2, B3, B4, B5, B6, B7;
    Down16(t);
    assert key[j + 2..] == key[j..][2..];
  }

  lemma Down16(t: bv64)
    ensures B0(t >> 16) == B2(t) && B1(t >> 16) == B3(t) && B2(t >> 16) == B4(t) && B3(t >> 16) == B5(t)
    ensures B4(t >> 16) == B6(t) && B5(t >> 16) == B7(t)
  {
  }

  /** The bytes after the whole blocks, if any, against the cipher of `word`. */
  method CfbTail(s: Tables, inp: array<bv8>, out: array<bv8>, size: nat, ks: Keys, word: bv64)
    requires size <= inp.Length && size <= out.Length
    modifies out
    ensures var n := Whole(size);
            out[..] == old(out[..n]) + XorBytes(old(inp[n..size]), Stored(Enc(s, ks)(word))) + old(out[size..])
  {
    hide XorBytes, Stored, Enc, Whole;
    Sizes(size);
    var nblocks, partial := size / 8, size % 8;
    if partial != 0 {
      CfbOne(s, inp, out, 8 * nblocks, partial, ks, word);
    } else {
      NoBytes(Stored(Enc(s, ks)(word)), inp[size..size]);
    }
  }

  /** docsis_des_enc_basic. */
  method DocsisDesEnc(s: Tables, inp: array<bv8>, out: array<bv8>, size: nat, ks: Keys, ivec: bv64)
    requires size <= inp.Length && size <= out.Length
    modifies out
    ensures out[..] == DocsisEnc(Enc(s, ks), ivec, old(inp[..size])) + old(out[size..])
  {
    hide CbcEnc, XorBytes, Stored, Chain, Enc, Loaded, Whole, DocsisEnc, Aligned;
    Sizes(size);
    var n := 8 * (size / 8);
    ghost var src, rest, e := inp[..], out[..], Enc(s, ks);
    DesEncCbc(s, inp, out, size, ks, ivec);
    ghost var c, mid := CbcEnc(e, ivec, src[..n]), out[..];
    Front(mid, c, rest, n);
    assert inp[..][n..] == src[n..];
    Cut(inp[..], src, n, size);
    Cut(mid, rest, n, size);
    EncParts(e, ivec, src, size, n);
    Before(ivec, c, mid);
    var word := if n != 0 then Loaded(out[n - 8..n]) else ivec;
    CfbTail(s, inp, out, size, ks, word);
  }

  lemma Cut(a: Bytes, b: Bytes, n: nat, size: nat)
    requires |a| == |b| && n <= size <= |a| && a[n..] == b[n..]
    ensures a[n..size] == b[n..size] && a[size..] == b[size..]
  {
    assert a[n..size] == a[n..][..size - n] && b[n..size] == b[n..][..size - n];
    assert a[size..] == a[n..][size - n..] && b[size..] == b[n..][size - n..];
  }

  lemma Front(mid: Bytes, c: Bytes, rest: Bytes, n: nat)
    requires |c| == n <= |rest| && mid == c + rest[n..]
    ensures mid[..n] == c && mid[n..] == rest[n..]
  {
  }

  /** The word a tail is chained to, where the buffer has it. */
  lemma Before(iv: bv64, c: Bytes, buffer: Bytes)
    requires Aligned(|c|) && |c| <= |buffer| && buffer[..|c|] == c
    ensures c != [] ==> |c| >= 8
    ensures Chain(iv, c) == if c != [] then Loaded(buffer[|c| - 8..|c|]) else iv
  {
    if c != [] { assert buffer[|c| - 8..|c|] == buffer[..|c|][|c| - 8..]; }
  }

  lemma Sizes(size: nat)
    ensures Whole(size) == 8 * (size / 8) && size % 8 == size - Whole(size)
  {
  }

  lemma EncParts(e: BlockFn, iv: bv64, s: Bytes, size: nat, n: nat)
    requires n == Whole(size) <= size <= |s|
    ensures var c := CbcEnc(e, iv, s[..n]);
      DocsisEnc(e, iv, s[..size]) == c + XorBytes(s[n..size], Stored(e(Chain(iv, c))))
  {
    hide CbcEnc, XorBytes, Stored, Chain, Whole;
    assert s[..size][..n] == s[..n] && s[..size][n..] == s[n..size];
  }

  lemma DecParts(e: BlockFn, d: BlockFn, iv: bv64, c: Bytes, size: nat, n: nat)
    requires n == Whole(size) <= size <= |c|
    ensures DocsisDec(e, d, iv, c[..size]) == CbcDec(d, iv, c[..n]) + XorBytes(c[n..size], Stored(e(Chain(iv, c[..n]))))
  {
    hide CbcDec, XorBytes, Stored, Chain, Whole;
    assert c[..size][..n] == c[..n] && c[..size][n..] == c[n..size];
  }

  lemma Tail(mid: Bytes, rest: Bytes, n: nat, x: Bytes, size: nat)
    requires n + |x| == size <= |rest| && mid == rest[..n] + x + rest[size..]
    ensures mid[..n] == rest[..n] && mid[n..] == x + rest[size..]
  {
  }

  lemma Assembled(a: Bytes, x: Bytes, t: Bytes)
    ensures a + (x + t) == a + x + t
  {
  }

  /** docsis_des_dec_basic: the last piece first, while the block it is chained
      to is still there. */
  method DocsisDesDec(s: Tables, inp: array<bv8>, out: array<bv8>, size: nat, ks: Keys, ivec: bv64)
    requires size <= inp.Length && size <= out.Length
    modifies out
    ensures out[..] == DocsisDec(Enc(s, ks), Dec(s, ks), ivec, old(inp[..size])) + old(out[size..])
  {
    hide CbcDec, XorBytes, Stored, Chain, Enc, Dec, Loaded, Whole, DocsisDec, Aligned;
    Sizes(size);
    var n := 8 * (size / 8);
    ghost var src, rest, e, d := inp[..], out[..], Enc(s, ks), Dec(s, ks);
    Before(ivec, src[..n], src);
    DecParts(e, d, ivec, src, size, n);
    var word := if n != 0 then Loaded(inp[n - 8..n]) else ivec;
    CfbTail(s, inp, out, size, ks, word);
    ghost var mid := out[..];
    Tail(mid, rest, n, XorBytes(src[n..size], Stored(e(word))), size);
    assert inp[..n] == src[..n];
    DesDecCbc(s, inp, out, size, ks, ivec);
    Assembled(CbcDec(d, ivec, src[..n]), XorBytes(src[n..size], Stored(e(word))), rest[size..]);
  }

  /** Encryption after `n` blocks: `now` is the input buffer and `done` the output,
      once `src` and `rest`. */
  ghost predicate EncState(f: BlockFn, ivec: bv64, src: Bytes, rest: Bytes, now: Bytes, done: Bytes, n: nat, iv: bv64) {
    && 8 * n <= |src| == |now| && 8 * n <= |rest| == |done| && Aligned(8 * n)
    && now[8 * n..] == src[8 * n..] && done[8 * n..] == rest[8 * n..]
    && done[..8 * n] == CbcEnc(f, ivec, src[..8 * n])
    && iv == Chain(ivec, done[..8 * n])
  }

  lemma EncStart(f: BlockFn, ivec: bv64, src: Bytes, rest: Bytes)
    ensures EncState(f, ivec, src, rest, src, rest, 0, ivec)
  {
    EmptyCbc(f, ivec);
    assert src[..0] == [] && rest[..0] == [];
  }

  ghost function EncBlock(f: BlockFn, now: Bytes, n: nat, iv: bv64): (bv64, bv64)
    requires 8 * n + 8 <= |now|
  {
    var x := f(Xor(Loaded(now[8 * n..8 * n + 8]), iv));
    (x, x)
  }

  /** The buffers may be one, and then change alike. */
  lemma EncNext(f: BlockFn, ivec: bv64, src: Bytes, rest: Bytes, now: Bytes, done: Bytes, n: nat, iv: bv64,
                now': Bytes, done': Bytes)
    requires 8 * n + 8 <= |src| && 8 * n + 8 <= |rest|
    requires EncState(f, ivec, src, rest, now, done, n, iv)
    requires done' == done[..8 * n] + Stored(EncBlock(f, now, n, iv).0) + done[8 * n + 8..]
    requires now' == now || (now == done && now' == done')
    ensures EncState(f, ivec, src, rest, now', done', n + 1, EncBlock(f, now, n, iv).1)
  {
    hide Stored, Loaded, Xor, Chain, CbcEnc;
    var x := EncBlock(f, now, n, iv).0;
    Ahead(now, src, 8 * n);
    Ahead(done, rest, 8 * n);
    Placed(done, done', 8 * n, Stored(x));
    EncStep(f, ivec, src, n, Xor(Loaded(now[8 * n..8 * n + 8]), iv));
    Chained(ivec, done[..8 * n], x);
  }

  lemma EncEnd(f: BlockFn, ivec: bv64, src: Bytes, rest: Bytes, now: Bytes, done: Bytes, n: nat, iv: bv64)
    requires EncState(f, ivec, src, rest, now, done, n, iv)
    ensures 8 * n <= |src| && 8 * n <= |rest| && Aligned(8 * n)
    ensures done == CbcEnc(f, ivec, src[..8 * n]) + rest[8 * n..]
  {
    hide CbcEnc, Chain, Aligned;
    assert done == done[..8 * n] + done[8 * n..];
  }

  /** Decryption after `n` blocks: `now` is the input buffer and `done` the output,
      once `src` and `rest`. */
  ghost predicate DecState(f: BlockFn, ivec: bv64, src: Bytes, rest: Bytes, now: Bytes, done: Bytes, n: nat, iv: bv64) {
    && 8 * n <= |src| == |now| && 8 * n <= |rest| == |done| && Aligned(8 * n)
    && now[8 * n..] == src[8 * n..] && done[8 * n..] == rest[8 * n..]
    && done[..8 * n] == CbcDec(f, ivec, src[..8 * n])
    && iv == Chain(ivec, src[..8 * n])
  }

  lemma DecStart(f: BlockFn, ivec: bv64, src: Bytes, rest: Bytes)
    ensures DecState(f, ivec, src, rest, src, rest, 0, ivec)
  {
    EmptyCbc(f, ivec);
    assert src[..0] == [] && rest[..0] == [];
  }

  ghost function DecBlock(f: BlockFn, now: Bytes, n: nat, iv: bv64): (bv64, bv64)
    requires 8 * n + 8 <= |now|
  {
    var block := Loaded(now[8 * n..8 * n + 8]);
    var x := Xor(f(block), iv);
    (x, block)
  }

  /** The buffers may be one, and then change alike. */
  lemma DecNext(f: BlockFn, ivec: bv64, src: Bytes, rest: Bytes, now: Bytes, done: Bytes, n: nat, iv: bv64,
                now': Bytes, done': Bytes)
    requires 8 * n + 8 <= |src| && 8 * n + 8 <= |rest|
    requires DecState(f, ivec, src, rest, now, done, n, iv)
    requires done' == done[..8 * n] + Stored(DecBlock(f, now, n, iv).0) + done[8 * n + 8..]
    requires now' == now || (now == done && now' == done')
    ensures DecState(f, ivec, src, rest, now', done', n + 1, DecBlock(f, now, n, iv).1)
  {
    hide Stored, Loaded, Xor, Chain, CbcDec;
    var x := DecBlock(f, now, n, iv).0;
    Ahead(now, src, 8 * n);
    Ahead(done, rest, 8 * n);
    Placed(done, done', 8 * n, Stored(x));
    DecStep(f, ivec, src, n, Loaded(now[8 * n..8 * n + 8]));
  }

  lemma DecEnd(f: BlockFn, ivec: bv64, src: Bytes, rest: Bytes, now: Bytes, done: Bytes, n: nat, iv: bv64)
    requires DecState(f, ivec, src, rest, now, done, n, iv)
    ensures 8 * n <= |src| && 8 * n <= |rest| && Aligned(8 * n)
    ensures done == CbcDec(f, ivec, src[..8 * n]) + rest[8 * n..]
  {
    hide CbcDec, Chain, Aligned;
    assert done == done[..8 * n] + done[8 * n..];
  }

  lemma EmptyCbc(e: BlockFn, iv: bv64)
    ensures CbcEnc(e, iv, []) == [] && CbcDec(e, iv, []) == [] && Chain(iv, []) == iv
  {
  }

  lemma EncStep(e: BlockFn, iv: bv64, src: Bytes, n: nat, t: bv64)
    requires 8 * n + 8 <= |src|
    requires t == Xor(Loaded(src[8 * n..8 * n + 8]), Chain(iv, CbcEnc(e, iv, src[..8 * n])))
    ensures CbcEnc(e, iv, src[..8 * n + 8]) == CbcEnc(e, iv, src[..8 * n]) + Stored(e(t))
  {
    var s := src[..8 * n + 8];
    assert s[..|s| - 8] == src[..8 * n] && s[|s| - 8..] == src[8 * n..8 * n + 8];
  }

  lemma DecStep(d: BlockFn, iv: bv64, src: Bytes, n: nat, block: bv64)
    requires 8 * n + 8 <= |src| && block == Loaded(src[8 * n..8 * n + 8])
    ensures CbcDec(d, iv, src[..8 * n + 8]) ==
            CbcDec(d, iv, src[..8 * n]) + Stored(Xor(d(block), Chain(iv, src[..8 * n])))
    ensures Chain(iv, src[..8 * n + 8]) == block
  {
    var s := src[..8 * n + 8];
    assert s[..|s| - 8] == src[..8 * n] && s[|s| - 8..] == src[8 * n..8 * n + 8];
  }

  /** After a store of eight bytes: what precedes, the bytes, what follows. */
  lemma Placed(before: Bytes, after: Bytes, at: nat, s: Bytes)
    requires at + |s| <= |before| && after == before[..at] + s + before[at + |s|..]
    ensures |after| == |before| && after[..at] == before[..at] && after[at..at + |s|] == s
    ensures after[..at + |s|] == before[..at] + s && after[at + |s|..] == before[at + |s|..]
  {
  }

  lemma Ahead(a: Bytes, b: Bytes, k: nat)
    requires k + 8 <= |a| == |b| && a[k..] == b[k..]
    ensures a[k..k + 8] == b[k..k + 8] && a[k + 8..] == b[k + 8..]
  {
    assert a[k..][..8] == b[k..][..8] && a[k..][8..] == b[k..][8..];
  }

  lemma Chained(iv: bv64, c: Bytes, x: bv64)
    requires Aligned(|c|)
    ensures Chain(iv, c + Stored(x)) == x
  {
    LoadStored(x);
    assert (c + Stored(x))[|c|..] == Stored(x);
  }

  /** Decryption undoes encryption for every table, key schedule, vector and
      length, in each of the three modes. */
  lemma ModesInvert(s: Tables, k1: Keys, k2: Keys, k3: Keys, iv: bv64, text: Bytes)
    ensures Aligned(|text|) ==> CbcDec(Dec(s, k1), iv, CbcEnc(Enc(s, k1), iv, text)) == text
    ensures Aligned(|text|) ==> CbcDec(Dec3(s, k1, k2, k3), iv, CbcEnc(Enc3(s, k1, k2, k3), iv, text)) == text
    ensures DocsisDec(Enc(s, k1), Dec(s, k1), iv, DocsisEnc(Enc(s, k1), iv, text)) == text
  {
    hide CbcEnc, CbcDec, DocsisEnc, DocsisDec, Enc, Dec, Enc3, Dec3, Undoes;
    DesInverts(s, k1);
    Des3Inverts(s, k1, k2, k3);
    if Aligned(|text|) {
      CbcRoundTrip(Enc(s, k1), Dec(s, k1), iv, text);
      CbcRoundTrip(Enc3(s, k1, k2, k3), Dec3(s, k1, k2, k3), iv, text);
    }
    DocsisRoundTrip(Enc(s, k1), Dec(s, k1), iv, text);
  }

  /** Encryption undoes decryption as well. */
  lemma ModesInvertBack(s: Tables, k1: Keys, k2: Keys, k3: Keys, iv: bv64, text: Bytes)
    requires Aligned(|text|)
    ensures CbcEnc(Enc(s, k1), iv, CbcDec(Dec(s, k1), iv, text)) == text
    ensures CbcEnc(Enc3(s, k1, k2, k3), iv, CbcDec(Dec3(s, k1, k2, k3), iv, text)) == text
  {
    hide CbcEnc, CbcDec, Enc, Dec, Enc3, Dec3, Undoes;
    DesInverts(s, k1);
    Des3Inverts(s, k1, k2, k3);
    CbcRoundTripBack(Enc(s, k1), Dec(s, k1), iv, text);
    CbcRoundTripBack(Enc3(s, k1, k2, k3), Dec3(s, k1, k2, k3), iv, text);
  }
}
