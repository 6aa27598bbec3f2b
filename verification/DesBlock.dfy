/** The DES block operation (des_basic.c:37-98, 380-448) for any S-box tables
    and any key schedule. */
module DesBlock {

  /** Entry of the combined S-box and P-phase table number `i`. */
  type Tables = (nat, bv64) -> bv32

  datatype Halves = Halves(a: bv32, b: bv32)

  // ------------------------------------------------------ permutations

  /** permute_operation: the new value of `*pb`. */
  function PermuteB(pa: bv32, pb: bv32, n: bv6, m: bv32): bv32
    requires n < 32
  {
    pb ^ ((pb ^ (pa >> n)) & m)
  }

  /** The new value of `*pa`. */
  function PermuteA(pa: bv32, pb: bv32, n: bv6, m: bv32): bv32
    requires n < 32
  {
    pa ^ (((pb ^ (pa >> n)) & m) << n)
  }

  function Permute(pa: bv32, pb: bv32, n: bv6, m: bv32): Halves
    requires n < 32
  {
    Halves(PermuteA(pa, pb, n, m), PermuteB(pa, pb, n, m))
  }

  /** With the shifts and masks in use, permuting twice changes nothing. */
  lemma Twice4(pa: bv32, pb: bv32)
    ensures PermuteA(PermuteA(pa, pb, 4, 0x0f0f0f0f), PermuteB(pa, pb, 4, 0x0f0f0f0f), 4, 0x0f0f0f0f) == pa
    ensures PermuteB(PermuteA(pa, pb, 4, 0x0f0f0f0f), PermuteB(pa, pb, 4, 0x0f0f0f0f), 4, 0x0f0f0f0f) == pb
  {
  }

  lemma Twice16(pa: bv32, pb: bv32)
    ensures PermuteA(PermuteA(pa, pb, 16, 0x0000ffff), PermuteB(pa, pb, 16, 0x0000ffff), 16, 0x0000ffff) == pa
    ensures PermuteB(PermuteA(pa, pb, 16, 0x0000ffff), PermuteB(pa, pb, 16, 0x0000ffff), 16, 0x0000ffff) == pb
  {
  }

  lemma Twice2(pa: bv32, pb: bv32)
    ensures PermuteA(PermuteA(pa, pb, 2, 0x33333333), PermuteB(pa, pb, 2, 0x33333333), 2, 0x33333333) == pa
    ensures PermuteB(PermuteA(pa, pb, 2, 0x33333333), PermuteB(pa, pb, 2, 0x33333333), 2, 0x33333333) == pb
  {
  }

  lemma Twice8(pa: bv32, pb: bv32)
    ensures PermuteA(PermuteA(pa, pb, 8, 0x00ff00ff), PermuteB(pa, pb, 8, 0x00ff00ff), 8, 0x00ff00ff) == pa
    ensures PermuteB(PermuteA(pa, pb, 8, 0x00ff00ff), PermuteB(pa, pb, 8, 0x00ff00ff), 8, 0x00ff00ff) == pb
  {
  }

  lemma Twice1(pa: bv32, pb: bv32)
    ensures PermuteA(PermuteA(pa, pb, 1, 0x55555555), PermuteB(pa, pb, 1, 0x55555555), 1, 0x55555555) == pa
    ensures PermuteB(PermuteA(pa, pb, 1, 0x55555555), PermuteB(pa, pb, 1, 0x55555555), 1, 0x55555555) == pb
  {
  }

  /** ip_z: the new `*pl` and `*pr`. */
  function Ip(pl: bv32, pr: bv32): Halves {
    var Halves(r, l) := Permute(pr, pl, 4, 0x0f0f0f0f);
    var Halves(l, r) := Permute(l, r, 16, 0x0000ffff);
    var Halves(r, l) := Permute(r, l, 2, 0x33333333);
    var Halves(l, r) := Permute(l, r, 8, 0x00ff00ff);
    var Halves(r, l) := Permute(r, l, 1, 0x55555555);
    Halves(l, r)
  }

  /** fp_z. */
  function Fp(pl: bv32, pr: bv32): Halves {
    var Halves(l, r) := Permute(pl, pr, 1, 0x55555555);
    var Halves(r, l) := Permute(r, l, 8, 0x00ff00ff);
    var Halves(l, r) := Permute(l, r, 2, 0x33333333);
    var Halves(r, l) := Permute(r, l, 16, 0x0000ffff);
    var Halves(l, r) := Permute(l, r, 4, 0x0f0f0f0f);
    Halves(l, r)
  }

  /** The final permutation with its arguments the other way round undoes the
      initial one, and the reverse. */
  lemma FpUndoesIp(pl: bv32, pr: bv32)
    ensures var p := Ip(pl, pr); var q := Fp(p.b, p.a); q.a == pr && q.b == pl
  {
    hide PermuteA, PermuteB;
    var p1 := Permute(pr, pl, 4, 0x0f0f0f0f);
    var p2 := Permute(p1.b, p1.a, 16, 0x0000ffff);
    var p3 := Permute(p2.b, p2.a, 2, 0x33333333);
    var p4 := Permute(p3.b, p3.a, 8, 0x00ff00ff);
    Twice4(pr, pl);
    Twice16(p1.b, p1.a);
    Twice2(p2.b, p2.a);
    Twice8(p3.b, p3.a);
    Twice1(p4.b, p4.a);
  }

  lemma IpUndoesFp(pl: bv32, pr: bv32)
    ensures var p := Fp(pl, pr); var q := Ip(p.b, p.a); q.a == pr && q.b == pl
  {
    hide PermuteA, PermuteB;
    var p1 := Permute(pl, pr, 1, 0x55555555);
    var p2 := Permute(p1.b, p1.a, 8, 0x00ff00ff);
    var p3 := Permute(p2.b, p2.a, 2, 0x33333333);
    var p4 := Permute(p3.b, p3.a, 16, 0x0000ffff);
    Twice1(pl, pr);
    Twice8(p1.b, p1.a);
    Twice2(p2.b, p2.a);
    Twice16(p3.b, p3.a);
    Twice4(p4.b, p4.a);
  }

  /** The expansion E. */
  function EPhase(r: bv64): bv64 {
    ((r << 1) & 0x3e) | ((r >> 31) & 1)
    | ((r << 5) & 0x3f00) | ((r << 9) & 0x3f0000) | ((r << 13) & 0x3f000000)
    | ((r << 17) & 0x3f00000000) | ((r << 21) & 0x3f0000000000) | ((r << 25) & 0x3f000000000000)
    | ((r << 29) & 0x1f00000000000000) | ((r & 1) << 61)
  }

  /** Bit `p` of group `g` is bit 4g + p of the half block, counting from one
      and round the end, as the table of E in FIPS 46-3 has it; bits six and
      seven of every group are zero. */
  lemma EPhaseIsE(r: bv64, g: bv64, p: bv64)
    requires r < 0x1_0000_0000 && g < 8 && p < 8
    ensures (EPhase(r) >> (8 * g + p)) & 1 == if p < 6 then (r >> ((4 * g + p + 31) & 31)) & 1 else 0
  {
  }

  /** Bit 8a + b of the halves after the initial permutation is the bit of the
      data that table IP of FIPS 46-3 names, 58 + 2a - 8b for the left half and
      57 + 2a - 8b for the right one; the data is loaded with its first byte
      lowest. */
  lemma IpIsFips(data: bv64, a: bv64, b: bv64)
    requires a < 4 && b < 8
    ensures var Halves(r, l) := Ip((data & 0xffffffff) as bv32, (data >> 32) as bv32);
      && ((l as bv64) >> (8 * a + b)) & 1 == (data >> (8 * (7 - b) + 6 - 2 * a)) & 1
      && ((r as bv64) >> (8 * a + b)) & 1 == (data >> (8 * (7 - b) + 7 - 2 * a)) & 1
  {
    assert b == 0 || b == 1 || b == 2 || b == 3 || b == 4 || b == 5 || b == 6 || b == 7;
  }

  // ------------------------------------------------------------ rounds

  /** fRK: expansion, key, then the eight tables. */
  function FRk(s: Tables, r: bv32, k: bv64): bv32 {
    var x := EPhase(r as bv64) ^ k;
    s(0, x & 0x3f) | s(1, (x >> 8) & 0x3f) | s(2, (x >> 16) & 0x3f) | s(3, (x >> 24) & 0x3f)
    | s(4, (x >> 32) & 0x3f) | s(5, (x >> 40) & 0x3f) | s(6, (x >> 48) & 0x3f) | s(7, (x >> 56) & 0x3f)
  }

  /** Bit `n` of the half block, counting from one. */
  function HalfBit(r: bv32, n: bv32): bv64
    requires 1 <= n <= 32
  {
    ((r >> (n - 1)) & 1) as bv64
  }

  /** Six bits of the key for group `g`, each added to the bit of the half block in
      its row `a` to `f` of table E of FIPS 46-3. */
  function SixBits(r: bv32, k: bv64, g: bv64, a: bv32, b: bv32, c: bv32, d: bv32, e: bv32, f: bv32): bv64
    requires g < 8 && 1 <= a <= 32 && 1 <= b <= 32 && 1 <= c <= 32 && 1 <= d <= 32 && 1 <= e <= 32 && 1 <= f <= 32
  {
    var y := k >> (8 * g);
    (HalfBit(r, a) ^ (y & 1))
    | ((HalfBit(r, b) ^ ((y >> 1) & 1)) << 1)
    | ((HalfBit(r, c) ^ ((y >> 2) & 1)) << 2)
    | ((HalfBit(r, d) ^ ((y >> 3) & 1)) << 3)
    | ((HalfBit(r, e) ^ ((y >> 4) & 1)) << 4)
    | ((HalfBit(r, f) ^ ((y >> 5) & 1)) << 5)
  }

  /** The cipher function of FIPS 46-3: the sums of table E and the key, six bits
      for each of the eight tables in order. */
  lemma RoundReadsKeyAndE(s: Tables, r: bv32, k: bv64)
    ensures FRk(s, r, k) ==
            s(0, SixBits(r, k, 0, 32, 1, 2, 3, 4, 5)) | s(1, SixBits(r, k, 1, 4, 5, 6, 7, 8, 9))
            | s(2, SixBits(r, k, 2, 8, 9, 10, 11, 12, 13)) | s(3, SixBits(r, k, 3, 12, 13, 14, 15, 16, 17))
            | s(4, SixBits(r, k, 4, 16, 17, 18, 19, 20, 21)) | s(5, SixBits(r, k, 5, 20, 21, 22, 23, 24, 25))
            | s(6, SixBits(r, k, 6, 24, 25, 26, 27, 28, 29)) | s(7, SixBits(r, k, 7, 28, 29, 30, 31, 32, 1))
  {
    hide EPhase, SixBits;
    LowTables(r, k);
    HighTables(r, k);
  }

  lemma LowTables(r: bv32, k: bv64)
    ensures var x := EPhase(r as bv64) ^ k;
            && x & 0x3f == SixBits(r, k, 0, 32, 1, 2, 3, 4, 5)
            && (x >> 8) & 0x3f == SixBits(r, k, 1, 4, 5, 6, 7, 8, 9)
            && (x >> 16) & 0x3f == SixBits(r, k, 2, 8, 9, 10, 11, 12, 13)
            && (x >> 24) & 0x3f == SixBits(r, k, 3, 12, 13, 14, 15, 16, 17)
  {
  }

  lemma HighTables(r: bv32, k: bv64)
    ensures var x := EPhase(r as bv64) ^ k;
            && (x >> 32) & 0x3f == SixBits(r, k, 4, 16, 17, 18, 19, 20, 21)
            && (x >> 40) & 0x3f == SixBits(r, k, 5, 20, 21, 22, 23, 24, 25)
            && (x >> 48) & 0x3f == SixBits(r, k, 6, 24, 25, 26, 27, 28, 29)
            && (x >> 56) & 0x3f == SixBits(r, k, 7, 28, 29, 30, 31, 32, 1)
  {
  }

  /** One half after a round: `l ^= fRK(r, k)`. */
  function Mix(s: Tables, l: bv32, r: bv32, k: bv64): bv32 { l ^ FRk(s, r, k) }

  lemma MixTwice(s: Tables, l: bv32, r: bv32, k: bv64)
    ensures Mix(s, Mix(s, l, r, k), r, k) == l
  {
    hide FRk;
    var f := FRk(s, r, k);
    assert (l ^ f) ^ f == l;
  }

  /** The rounds as the code unrolls them: each half is changed in turn and
      never moved. */
  function Rounds(s: Tables, l: bv32, r: bv32, ks: seq<bv64>): Halves
    requires |ks| % 2 == 0
    decreases |ks|
  {
    if ks == [] then
      Halves(l, r)
    else
      var l1 := Mix(s, l, r, ks[0]);
      var r1 := Mix(s, r, l1, ks[1]);
      Rounds(s, l1, r1, ks[2..])
  }

  /** The rounds of FIPS 46-3: L' = R and R' = L xor f(R, K). */
  function Feistel(s: Tables, l: bv32, r: bv32, ks: seq<bv64>): Halves
    decreases |ks|
  {
    if ks == [] then Halves(l, r) else Feistel(s, r, Mix(s, l, r, ks[0]), ks[1..])
  }

  lemma {:induction false} RoundsAreFeistel(s: Tables, l: bv32, r: bv32, ks: seq<bv64>)
    requires |ks| % 2 == 0
    ensures Rounds(s, l, r, ks) == Feistel(s, l, r, ks)
    decreases |ks|
  {
    hide Mix;
    if ks != [] {
      var l1 := Mix(s, l, r, ks[0]);
      var r1 := Mix(s, r, l1, ks[1]);
      assert ks[1..][1..] == ks[2..];
      RoundsAreFeistel(s, l1, r1, ks[2..]);
      assert Feistel(s, l, r, ks) == Feistel(s, r, l1, ks[1..]) == Feistel(s, l1, r1, ks[2..]);
    }
  }

  function Reversed(ks: seq<bv64>): (r: seq<bv64>)
    ensures |r| == |ks|
  {
    if ks == [] then [] else Reversed(ks[1..]) + [ks[0]]
  }

  lemma {:induction false} ReversedTwice(ks: seq<bv64>)
    ensures Reversed(Reversed(ks)) == ks
  {
    if ks != [] {
      var t := Reversed(ks[1..]);
      ReversedTwice(ks[1..]);
      ReversedSnoc(t, ks[0]);
    }
  }

  lemma {:induction false} ReversedSnoc(t: seq<bv64>, k: bv64)
    ensures Reversed(t + [k]) == [k] + Reversed(t)
  {
    if t != [] {
      assert (t + [k])[1..] == t[1..] + [k];
      ReversedSnoc(t[1..], k);
    } else {
      assert [k][1..] == [];
      assert t + [k] == [k];
    }
  }

  lemma {:induction false} FeistelSnoc(s: Tables, l: bv32, r: bv32, ks: seq<bv64>, k: bv64)
    ensures var h := Feistel(s, l, r, ks); Feistel(s, l, r, ks + [k]) == Halves(h.b, Mix(s, h.a, h.b, k))
    decreases |ks|
  {
    hide Mix;
    var all := ks + [k];
    if ks == [] {
      assert all == [k] && all[1..] == [];
      assert Feistel(s, l, r, all) == Feistel(s, r, Mix(s, l, r, k), []);
    } else {
      assert all[1..] == ks[1..] + [k];
      FeistelSnoc(s, r, Mix(s, l, r, ks[0]), ks[1..], k);
    }
  }

  /** Any number of rounds, run again on the exchanged halves with the keys
      the other way round, gives the exchanged halves back. */
  lemma {:induction false} FeistelUndone(s: Tables, l: bv32, r: bv32, ks: seq<bv64>)
    ensures var h := Feistel(s, l, r, ks); Feistel(s, h.b, h.a, Reversed(ks)) == Halves(r, l)
    decreases |ks|
  {
    hide Mix;
    if ks != [] {
      var m := Mix(s, l, r, ks[0]);
      FeistelUndone(s, r, m, ks[1..]);
      var h := Feistel(s, r, m, ks[1..]);
      FeistelSnoc(s, h.b, h.a, Reversed(ks[1..]), ks[0]);
      MixTwice(s, l, r, ks[0]);
    }
  }

  // ------------------------------------------------------ the block

  function Low(x: bv64): bv32 { (x & 0xffffffff) as bv32 }
  function High(x: bv64): bv32 { (x >> 32) as bv32 }
  function Join(low: bv32, high: bv32): bv64 { (low as bv64) | ((high as bv64) << 32) }

  lemma JoinParts(low: bv32, high: bv32)
    ensures Low(Join(low, high)) == low && High(Join(low, high)) == high
  {
  }

  lemma JoinSplit(x: bv64)
    ensures Join(Low(x), High(x)) == x
  {
  }

  /** enc_dec_1. */
  function EncDec1(s: Tables, data: bv64, ks: seq<bv64>, enc: bool): bv64
    requires |ks| == 16
  {
    var Halves(r, l) := Ip(Low(data), High(data));
    var Halves(l, r) := Rounds(s, l, r, if enc then ks else Reversed(ks));
    var Halves(r, l) := Fp(r, l);
    Join(l, r)
  }

  /** With the keys in either order the block operation undoes itself with the
      keys in the other. */
  lemma Undo(s: Tables, x: bv64, ks: seq<bv64>, enc: bool)
    requires |ks| == 16
    ensures EncDec1(s, EncDec1(s, x, ks, enc), ks, !enc) == x
  {
    hide Rounds, Feistel, Reversed, Ip, Fp, Low, High, Join;
    var there, back := if enc then ks else Reversed(ks), if enc then Reversed(ks) else ks;
    ReversedTwice(ks);
    assert back == Reversed(there);
    var i := Ip(Low(x), High(x));
    var h := Rounds(s, i.b, i.a, there);
    RoundsAreFeistel(s, i.b, i.a, there);
    var o := Fp(h.b, h.a);
    JoinParts(o.b, o.a);
    IpUndoesFp(h.b, h.a);
    RoundsAreFeistel(s, h.b, h.a, back);
    FeistelUndone(s, i.b, i.a, there);
    FpUndoesIp(Low(x), High(x));
    JoinSplit(x);
  }
}
