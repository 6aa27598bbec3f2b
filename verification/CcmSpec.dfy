/** AES-CCM as sections 2.2 and 2.3 of RFC 3610 define it, over any block
    cipher, and the blocks that mb_mgr_code.h builds for it. */
module CcmSpec {

  type Bytes = seq<bv8>
  type Block = s: Bytes | |s| == 16 witness seq(16, _ => 0)
  type Cipher = (Bytes, Block) -> Block    // key, block

  /** The authenticated text of a job is `src` when it encrypts and the
      deciphered `src` when it decrypts. */
  datatype Job = Job(encrypt: bool, key: Bytes, nonce: Bytes, aad: Bytes, src: Bytes, tagLen: nat)

  /** What is_job_invalid lets through (mb_mgr_code.h:1225-1250, 1360-1397). */
  predicate Accepted(j: Job) {
    && 7 <= |j.nonce| <= 13
    && |j.aad| <= 46
    && 4 <= j.tagLen <= 16 && j.tagLen % 2 == 0
  }

  // ------------------------------------------------------------ bytes

  function Zeros(n: nat): (r: Bytes)
    ensures |r| == n
  {
    seq(n, _ => 0)
  }

  function Xor(a: Bytes, b: Bytes): (r: Bytes)
    requires |a| == |b|
    ensures |r| == |a| && forall i :: 0 <= i < |a| ==> r[i] == a[i] ^ b[i]
  {
    seq(|a|, i requires 0 <= i < |a| => a[i] ^ b[i])
  }

  /** The cast `(uint8_t) n`. */
  function ByteOf(n: nat): bv8 { (n % 256) as bv8 }

  function NatOf(b: bv8): (n: nat)
    ensures n < 256
  {
    b as nat
  }

  lemma ByteOfNat(b: bv8)
    ensures ByteOf(NatOf(b)) == b
  {
    var n := NatOf(b);
    assert n as bv8 == b by { assert n == b as nat; }
    SmallByte(n);
  }

  lemma SmallByte(n: nat)
    requires n < 256
    ensures ByteOf(n) == n as bv8
  {
  }

  lemma NatOfByte(n: nat)
    ensures NatOf(ByteOf(n)) == n % 256
  {
    SmallNat(n % 256);
  }

  lemma SmallNat(n: nat)
    requires n < 256
    ensures NatOf(n as bv8) == n
  {
  }

  /** The last `w` bytes of `n`, most significant first. */
  function BigEndian(n: nat, w: nat): (r: Bytes)
    ensures |r| == w
  {
    if w == 0 then [] else BigEndian(n / 256, w - 1) + [ByteOf(n)]
  }

  function Value(s: Bytes): nat {
    if s == [] then 0 else 256 * Value(s[..|s| - 1]) + NatOf(s[|s| - 1])
  }

  function Power256(w: nat): nat { if w == 0 then 1 else 256 * Power256(w - 1) }

  lemma SumOfSixteens(a: nat, b: nat)
    requires a % 16 == 0 && b % 16 == 0
    ensures (a + b) % 16 == 0
  {
  }

  /** The bytes of the whole blocks in `n` bytes, `n & ~15`. */
  function Whole(n: nat): nat { n / 16 * 16 }

  function RoundedUp(n: nat): nat { (n + 15) / 16 * 16 }

  lemma Rounding(n: nat)
    ensures Whole(n) <= n < Whole(n) + 16 && Whole(n) % 16 == 0 && n - Whole(n) == n % 16
    ensures RoundedUp(n) == if n % 16 == 0 then n else Whole(n) + 16
    ensures RoundedUp(n) % 16 == 0 && n <= RoundedUp(n)
    ensures n % 16 == 0 <==> n == Whole(n)
  {
  }

  /** `s` with zeros up to a multiple of sixteen. */
  function Pad(s: Bytes): (r: Bytes)
    ensures |r| == RoundedUp(|s|) && |r| % 16 == 0 && |s| <= |r| && r[..|s|] == s
  {
    hide RoundedUp;
    Rounding(|s|);
    s + Zeros(RoundedUp(|s|) - |s|)
  }

  // -------------------------------------------------- the standard

  function LengthWidth(j: Job): nat
    requires Accepted(j)
  {
    15 - |j.nonce|
  }

  /** The flags byte of B_0: 64 * Adata + 8 * M' + L'. */
  function Flags(j: Job): bv8
    requires Accepted(j)
  {
    (if j.aad == [] then 0 else 64)
      + 8 * (((j.tagLen - 2) / 2) as bv8)
      + ((LengthWidth(j) - 1) as bv8)
  }

  function B0(j: Job): (r: Block)
    requires Accepted(j)
  {
    [Flags(j)] + j.nonce + BigEndian(|j.src|, LengthWidth(j))
  }

  function AadBlocks(aad: Bytes): (r: Bytes)
    ensures |r| % 16 == 0
  {
    if aad == [] then [] else Pad(BigEndian(|aad|, 2) + aad)
  }

  /** The counter block A_i. */
  function A(j: Job, i: nat): (r: Block)
    requires Accepted(j)
  {
    [(LengthWidth(j) - 1) as bv8] + j.nonce + BigEndian(i, LengthWidth(j))
  }

  function CbcMac(aes: Cipher, key: Bytes, iv: Block, data: Bytes): (r: Block)
    requires |data| % 16 == 0
    decreases |data|
  {
    if data == [] then iv else CbcMac(aes, key, aes(key, Xor(iv, data[..16])), data[16..])
  }

  /** `data` against the key stream S_1, S_2, ... */
  function Crypt(aes: Cipher, j: Job, data: Bytes): (r: Bytes)
    requires Accepted(j)
    ensures |r| == |data|
  {
    seq(|data|, i requires 0 <= i < |data| => data[i] ^ aes(j.key, A(j, 1 + i / 16))[i % 16])
  }

  function Plain(aes: Cipher, j: Job): (r: Bytes)
    requires Accepted(j)
    ensures |r| == |j.src|
  {
    if j.encrypt then j.src else Crypt(aes, j, j.src)
  }

  function Header(j: Job): (r: Bytes)
    requires Accepted(j)
    ensures |r| % 16 == 0 && 16 <= |r| <= 64
  {
    hide B0, AadBlocks;
    AadFits(j.aad);
    SumOfSixteens(|B0(j)|, |AadBlocks(j.aad)|);
    B0(j) + AadBlocks(j.aad)
  }

  lemma AadFits(aad: Bytes)
    requires |aad| <= 46
    ensures |AadBlocks(aad)| <= 48
  {
    hide BigEndian;
  }

  /** Everything that is authenticated: B_0, the AAD blocks, the message. */
  function Full(aes: Cipher, j: Job): (r: Bytes)
    requires Accepted(j)
    ensures |r| % 16 == 0
  {
    hide Header, Plain, Pad;
    SumOfSixteens(|Header(j)|, |Pad(Plain(aes, j))|);
    Header(j) + Pad(Plain(aes, j))
  }

  function Tag(aes: Cipher, j: Job): (r: Bytes)
    requires Accepted(j)
    ensures |r| == j.tagLen
  {
    Xor(CbcMac(aes, j.key, Zeros(16), Full(aes, j)), aes(j.key, A(j, 0)))[..j.tagLen]
  }

  lemma SameBlocks(o: Job, j: Job, i: nat)
    requires Accepted(j) && o.nonce == j.nonce && o.aad == j.aad && o.tagLen == j.tagLen && |o.src| == |j.src|
    ensures B0(o) == B0(j) && A(o, i) == A(j, i)
  {
  }

  /** Opening a sealed message gives the text and the tag it was sealed with. */
  lemma OpenUndoesSeal(aes: Cipher, j: Job)
    requires Accepted(j) && j.encrypt
    ensures var o := j.(encrypt := false, src := Crypt(aes, j, j.src));
            Crypt(aes, o, o.src) == j.src && Tag(aes, o) == Tag(aes, j)
  {
    hide Pad, AadBlocks, CbcMac, B0, A;
    var o := j.(encrypt := false, src := Crypt(aes, j, j.src));
    forall i | 0 <= i < |j.src|
      ensures Crypt(aes, o, o.src)[i] == j.src[i]
    {
      SameBlocks(o, j, 1 + i / 16);
    }
    assert Crypt(aes, o, o.src) == j.src;
    SameBlocks(o, j, 0);
    assert Full(aes, o) == Full(aes, j);
  }

  /** A message authentication code can be computed piece by piece. */
  lemma {:induction false} CbcMacAppend(aes: Cipher, key: Bytes, iv: Block, a: Bytes, b: Bytes)
    requires |a| % 16 == 0 && |b| % 16 == 0
    ensures CbcMac(aes, key, iv, a + b) == CbcMac(aes, key, CbcMac(aes, key, iv, a), b)
    decreases |a|
  {
    if a == [] {
      assert a + b == b;
    } else {
      assert (a + b)[..16] == a[..16] && (a + b)[16..] == a[16..] + b;
      CbcMacAppend(aes, key, aes(key, Xor(iv, a[..16])), a[16..], b);
    }
  }

  // -------------------- the authentication field, block by block

  /** Block `at` of `data` added to `x`, byte by byte. */
  function Plus(x: Block, data: Bytes, at: nat): (r: Block)
    requires 16 * at + 16 <= |data|
  {
    seq(16, k requires 0 <= k < 16 => x[k] ^ data[16 * at + k])
  }

  /** The blocks X_1, X_2, ... of section 2.2 of RFC 3610 over B_0, B_1, ...:
      X_1 = E(K, B_0) and X_i+1 = E(K, X_i XOR B_i). */
  ghost predicate MacBlocks(aes: Cipher, key: Bytes, data: Bytes, x: seq<Block>) {
    && x != [] && |data| == 16 * |x|
    && x[0] == aes(key, data[..16])
    && forall i :: 0 < i < |x| ==> x[i] == aes(key, Plus(x[i - 1], data, i))
  }

  lemma {:induction false} MacBlocksExist(aes: Cipher, key: Bytes, data: Bytes) returns (x: seq<Block>)
    requires data != [] && |data| % 16 == 0
    ensures MacBlocks(aes, key, data, x)
    decreases |data|
  {
    var n := |data| / 16 - 1;
    if n == 0 {
      x := [aes(key, data[..16])];
    } else {
      var y := MacBlocksExist(aes, key, data[..16 * n]);
      x := y + [aes(key, Plus(y[n - 1], data, n))];
      forall i | 0 < i < |x|
        ensures x[i] == aes(key, Plus(x[i - 1], data, i))
      {
        if i < n { assert Plus(x[i - 1], data[..16 * n], i) == Plus(x[i - 1], data, i); }
      }
      assert data[..16 * n][..16] == data[..16];
    }
  }

  lemma AddZeros(b: Block)
    ensures Xor(Zeros(16), b) == b
  {
    forall i | 0 <= i < 16
      ensures Xor(Zeros(16), b)[i] == b[i]
    {
      ZeroBits(b[i]);
    }
  }

  lemma ZeroBits(b: bv8)
    ensures 0 ^ b == b
  {
  }

  lemma MacOfOne(aes: Cipher, key: Bytes, iv: Block, b: Block)
    ensures CbcMac(aes, key, iv, b) == aes(key, Xor(iv, b))
  {
    assert b[..16] == b && b[16..] == [];
  }

  lemma {:induction false} MacIsLastBlock(aes: Cipher, key: Bytes, data: Bytes, x: seq<Block>, n: nat)
    requires MacBlocks(aes, key, data, x) && 0 < n <= |x|
    ensures CbcMac(aes, key, Zeros(16), data[..16 * n]) == x[n - 1]
  {
    hide CbcMac, Zeros;
    if n == 1 {
      MacOfOne(aes, key, Zeros(16), data[..16]);
      AddZeros(data[..16]);
    } else {
      var m := 16 * (n - 1);
      var b := data[m..m + 16];
      MacIsLastBlock(aes, key, data, x, n - 1);
      CbcMacAppend(aes, key, Zeros(16), data[..m], b);
      assert data[..m] + b == data[..16 * n];
      MacOfOne(aes, key, x[n - 2], b);
      assert Xor(x[n - 2], b) == Plus(x[n - 2], data, n - 1);
    }
  }

  /** The tag is the field U of section 2.2 of RFC 3610: the first bytes of the last
      X_i over B_0, the blocks of the additional data and the padded message, each
      XORed with that of S_0 = E(K, A_0). */
  lemma TagIsU(aes: Cipher, j: Job, x: seq<Block>)
    requires Accepted(j) && MacBlocks(aes, j.key, B0(j) + AadBlocks(j.aad) + Pad(Plain(aes, j)), x)
    ensures |Tag(aes, j)| == j.tagLen <= 16
    ensures forall k :: 0 <= k < j.tagLen ==> Tag(aes, j)[k] == x[|x| - 1][k] ^ aes(j.key, A(j, 0))[k]
  {
    hide CbcMac, Zeros, B0, AadBlocks, Pad, Plain, A, MacBlocks;
    var data := B0(j) + AadBlocks(j.aad) + Pad(Plain(aes, j));
    assert Full(aes, j) == data;
    MacSize(aes, j.key, data, x);
    MacIsLastBlock(aes, j.key, data, x, |x|);
    assert data[..16 * |x|] == data;
  }

  lemma MacSize(aes: Cipher, key: Bytes, data: Bytes, x: seq<Block>)
    requires MacBlocks(aes, key, data, x)
    ensures x != [] && |data| == 16 * |x|
  {
  }

  // ------------------------------------- the blocks the code builds

  function SetBytes(pb: Bytes, at: nat, s: Bytes): (r: Bytes)
    requires at + |s| <= |pb|
    ensures |r| == |pb|
    ensures r[..at] == pb[..at] && r[at..at + |s|] == s && r[at + |s|..] == pb[at + |s|..]
  {
    pb[..at] + s + pb[at + |s|..]
  }

  /** The first block of a lane, with two bytes for a number and zeros
      between them and the nonce. */
  function FirstBlock(j: Job, flags: bv8, x: bv8, y: bv8): (r: Block)
    requires Accepted(j)
  {
    [flags] + j.nonce + Zeros(LengthWidth(j) - 2) + [x, y]
  }

  /** Block 0 as submit writes it. */
  function CodeB0(j: Job): (r: Block)
    requires Accepted(j)
  {
    FirstBlock(j, Flags(j), ByteOf(|j.src| / 256), ByteOf(|j.src|))
  }

  /** The counter block the CTR kernel uses for its block `i`: the last four
      bytes count, wrapping at 32 bits. */
  function CtrBlock(ctr: Block, i: nat): (r: Block) {
    ctr[..12] + BigEndian(Value(ctr[12..]) + i, 4)
  }

  /** AES_CNTR_128. */
  function Ctr(aes: Cipher, key: Bytes, ctr: Block, data: Bytes): (r: Bytes)
    ensures |r| == |data|
  {
    seq(|data|, i requires 0 <= i < |data| => data[i] ^ aes(key, CtrBlock(ctr, i / 16))[i % 16])
  }

  lemma BigEndianTwo(n: nat, w: nat)
    requires w >= 2
    ensures BigEndian(n, w) == BigEndian(n / 65536, w - 2) + [ByteOf(n / 256), ByteOf(n)]
  {
    assert n / 256 / 256 == n / 65536;
    assert BigEndian(n, w) == BigEndian(n / 256, w - 1) + [ByteOf(n)];
  }

  lemma {:induction false} BigEndianZero(w: nat)
    ensures BigEndian(0, w) == Zeros(w)
  {
    if w > 0 { BigEndianZero(w - 1); }
  }

  lemma {:induction false} OnlyZeroIsZeros(n: nat, w: nat)
    requires n < Power256(w) && BigEndian(n, w) == Zeros(w)
    ensures n == 0
  {
    if w > 0 {
      var r, z := BigEndian(n, w), Zeros(w);
      assert r[..w - 1] == z[..w - 1] && r[w - 1] == z[w - 1];
      assert z[..w - 1] == Zeros(w - 1);
      assert (n % 256) as bv8 as nat == n % 256;
      OnlyZeroIsZeros(n / 256, w - 1);
    }
  }

  lemma SameMiddle(head: Bytes, a: Bytes, b: Bytes, tail: Bytes)
    requires |a| == |b| && head + a + tail == head + b + tail
    ensures a == b
  {
    assert (head + a + tail)[|head|..|head| + |a|] == a;
    assert (head + b + tail)[|head|..|head| + |a|] == b;
  }

  /** The code's block 0 is the standard's for messages below 64 KiB, and for
      those alone: is_job_invalid does not limit the length. */
  lemma CodeB0IsB0Iff(j: Job)
    requires Accepted(j) && |j.src| < Power256(LengthWidth(j))
    ensures CodeB0(j) == B0(j) <==> |j.src| < 65536
  {
    hide Flags, BigEndian, Zeros, ByteOf;
    var n, w := |j.src|, LengthWidth(j);
    BigEndianTwo(n, w);
    var high := BigEndian(n / 65536, w - 2);
    if n < 65536 {
      BigEndianZero(w - 2);
    } else if CodeB0(j) == B0(j) {
      var head, tail := [Flags(j)] + j.nonce, [ByteOf(n / 256), ByteOf(n)];
      assert B0(j) == head + high + tail && CodeB0(j) == head + Zeros(w - 2) + tail;
      SameMiddle(head, high, Zeros(w - 2), tail);
      assert Power256(w) == 65536 * Power256(w - 2);
      OnlyZeroIsZeros(n / 65536, w - 2);
      assert false;
    }
  }

  lemma BigEndianOfTwo(x: bv8, y: bv8)
    ensures BigEndian(256 * NatOf(x) + NatOf(y), 2) == [x, y]
  {
    hide ByteOf, NatOf;
    var n := 256 * NatOf(x) + NatOf(y);
    ByteMod(n, NatOf(y));
    ByteOfNat(x);
    ByteOfNat(y);
    assert n / 256 == NatOf(x);
    BigEndianTwo(n, 2);
  }

  lemma ByteMod(n: nat, m: nat)
    requires n % 256 == m % 256
    ensures ByteOf(n) == ByteOf(m)
  {
  }

  lemma ValueOfFour(t: Bytes)
    requires |t| == 4
    ensures Value(t) == 65536 * (256 * NatOf(t[0]) + NatOf(t[1])) + 256 * NatOf(t[2]) + NatOf(t[3])
  {
    hide NatOf;
    var a, b := t[..3], t[..2];
    assert a[..2] == b && b[..1] == t[..1] && t[..1][..0] == [];
    assert Value(t[..1]) == NatOf(t[0]);
    assert Value(b) == 256 * NatOf(t[0]) + NatOf(t[1]);
    assert Value(a) == 256 * Value(b) + NatOf(t[2]);
  }

  /** Counting on the last four bytes from A_1 meets the standard's counter
      blocks, which count on all of the length field. */
  lemma CtrBlockIsA(j: Job, from: nat, i: nat)
    requires Accepted(j) && from + i < 65536
    ensures CtrBlock(A(j, from), i) == A(j, from + i)
  {
    hide ByteOf, BigEndian, Value;
    var w, a, b := LengthWidth(j), A(j, from), A(j, from + i);
    BigEndianTwo(from, w);
    BigEndianTwo(from + i, w);
    LastFour(a[12..], from, i);
  }

  lemma HighAndLow(high: nat, low: nat)
    requires low < 65536
    ensures var n := 65536 * high + low; n / 65536 == high && n / 256 % 256 == low / 256 && n % 256 == low % 256
  {
    var n := 65536 * high + low;
    assert n / 256 == 256 * high + low / 256;
  }

  lemma TwoDigits(n: nat)
    requires n < 65536
    ensures 256 * (n / 256 % 256) + n % 256 == n
  {
    assert n / 256 < 256;
  }

  lemma LastFour(t: Bytes, from: nat, i: nat)
    requires |t| == 4 && from + i < 65536 && t[2] == ByteOf(from / 256) && t[3] == ByteOf(from)
    ensures BigEndian(Value(t) + i, 4) == [t[0], t[1], ByteOf((from + i) / 256), ByteOf(from + i)]
  {
    hide NatOf, ByteOf, BigEndian, Value;
    var high := 256 * NatOf(t[0]) + NatOf(t[1]);
    ValueOfFour(t);
    NatOfByte(from / 256);
    NatOfByte(from);
    TwoDigits(from);
    var n := Value(t) + i;
    HighAndLow(high, from + i);
    BigEndianTwo(n, 4);
    BigEndianOfTwo(t[0], t[1]);
    ByteMod(n / 256, (from + i) / 256);
    ByteMod(n, from + i);
  }

  /** The kernel on the counter block A_1 enciphers as the standard does. */
  lemma CtrIsCrypt(aes: Cipher, j: Job, data: Bytes)
    requires Accepted(j) && |data| < 65536
    ensures Ctr(aes, j.key, A(j, 1), data) == Crypt(aes, j, data)
  {
    hide A, CtrBlock;
    forall i | 0 <= i < |data|
      ensures Ctr(aes, j.key, A(j, 1), data)[i] == Crypt(aes, j, data)[i]
    {
      CtrBlockIsA(j, 1, i / 16);
    }
  }

  /** The three fields of the flags byte do not overlap. */
  lemma FlagBits(l: bv8, m: bv8)
    requires l < 8 && m < 8
    ensures l | (m << 3) == 8 * m + l
    ensures (l | (m << 3)) | 0x40 == 64 + 8 * m + l
    ensures (8 * m + l) & 7 == l && (64 + 8 * m + l) & 7 == l
  {
  }

  lemma SmallBits(n: nat)
    requires n < 8
    ensures n as bv8 < 8
  {
    if n == 0 {} else if n == 1 {} else if n == 2 {} else if n == 3 {}
    else if n == 4 {} else if n == 5 {} else if n == 6 {} else {}
  }

  /** Masking the flags of B_0 leaves the flags of every counter block. */
  lemma FlagsMasked(j: Job)
    requires Accepted(j)
    ensures var l := (LengthWidth(j) - 1) as bv8; var m := ((j.tagLen - 2) / 2) as bv8;
            && l < 8 && m < 8
            && Flags(j) == (if j.aad == [] then l | (m << 3) else (l | (m << 3)) | 0x40)
            && Flags(j) & 7 == l
  {
    var l, m := (LengthWidth(j) - 1) as bv8, ((j.tagLen - 2) / 2) as bv8;
    SmallBits(LengthWidth(j) - 1);
    SmallBits((j.tagLen - 2) / 2);
    FlagBits(l, m);
  }

  /** The flags byte as the code builds it, bit field by bit field. */
  function LengthFlag(j: Job): bv8
    requires Accepted(j)
  {
    (LengthWidth(j) - 1) as bv8
  }

  function WithTag(f: bv8, j: Job): bv8
    requires Accepted(j)
  {
    f | ((((j.tagLen - 2) / 2) as bv8) << 3)
  }

  function WithAad(f: bv8): bv8 { f | 0x40 }

  lemma FlagsBuilt(j: Job)
    requires Accepted(j)
    ensures var f := WithTag(LengthFlag(j), j); Flags(j) == if j.aad == [] then f else WithAad(f)
  {
    FlagsMasked(j);
  }

  lemma FirstBlockIsA(j: Job, i: nat)
    requires Accepted(j) && i < 65536
    ensures A(j, i) == FirstBlock(j, (LengthWidth(j) - 1) as bv8, ByteOf(i / 256), ByteOf(i))
  {
    hide ByteOf, BigEndian, Zeros;
    BigEndianTwo(i, LengthWidth(j));
    assert i / 65536 == 0;
    BigEndianZero(LengthWidth(j) - 2);
  }

  lemma Below64KiB(j: Job)
    requires Accepted(j) && |j.src| < 65536
    ensures |j.src| < Power256(LengthWidth(j)) && CodeB0(j) == B0(j)
  {
    PowerGrows(LengthWidth(j));
    CodeB0IsB0Iff(j);
  }

  lemma {:induction false} PowerGrows(w: nat)
    requires w >= 2
    ensures Power256(w) >= 65536
  {
    if w == 2 {
      assert Power256(1) == 256;
    } else {
      PowerGrows(w - 1);
    }
  }
}
