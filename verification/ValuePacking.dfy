/** Where one pass of value compaction puts the values it moves, and how many
    blocks it writes (spdk/app/leed/kv_value_log.c:10-14, 73-78, 209-232,
    287-318). */
module ValuePacking {
  import opened SeqOps
  import opened WrapMath

  const UNIT: nat := 256
  const IDS_PER_BLOCK: nat := 85

  /** align: blocks that cover `size` bytes. */
  function Align(size: nat, block: nat): nat
    requires block > 0
  {
    if size % block != 0 then size / block + 1 else size / block
  }

  /** dword_align. */
  function DwordAlign(n: nat): nat {
    if n % 4 != 0 then n / 4 * 4 + 4 else n
  }

  function Unit(offset: nat): nat { offset / UNIT }

  /** The tail after a value of `len` bytes put at `tail`. */
  function Next(tail: nat, len: nat): nat {
    var next := tail + DwordAlign(len);
    if Unit(tail) == Unit(next) then Unit(tail) * UNIT + UNIT else next
  }

  /** The next value is in a later unit and behind the last byte. */
  lemma NextIsBeyond(tail: nat, len: nat)
    ensures Unit(Next(tail, len)) > Unit(tail) && Next(tail, len) >= tail + len
    ensures tail % 4 == 0 ==> Next(tail, len) % 4 == 0
  {
  }

  /** `k` blocks cover `n` bytes and no fewer do. */
  lemma AlignIs(n: nat, block: nat, k: nat)
    requires block > 0
    ensures Align(n, block) == k <==> (if n == 0 then k == 0 else k > 0 && (k - 1) * block < n <= k * block)
  {
    hide Align;
    AlignBounds(n, block);
    if n > 0 && k > 0 && (k - 1) * block < n <= k * block {
      Between(Align(n, block), k, n, block);
    }
  }

  lemma AlignBounds(n: nat, block: nat)
    requires block > 0
    ensures n == 0 ==> Align(n, block) == 0
    ensures n > 0 ==> var a := Align(n, block); a > 0 && (a - 1) * block < n <= a * block
  {
    var q, r := n / block, n % block;
    assert n == q * block + r;
    if r != 0 {
      assert (q + 1) * block == q * block + block;
    } else if n > 0 {
      assert (q - 1) * block == q * block - block;
    } else {
      SmallQuotient(0, block);
    }
  }

  lemma Between(a: nat, k: nat, n: nat, block: nat)
    requires a > 0 && k > 0 && (a - 1) * block < n <= a * block && (k - 1) * block < n <= k * block
    ensures a == k
  {
    if a < k { MulMono(a, k - 1, block); } else if k < a { MulMono(k, a - 1, block); }
  }

  /** The blocks append_val_iov adds for `len` bytes at `tail`. */
  function Added(tail: nat, len: nat, block: nat): nat
    requires block > 0
  {
    var t := tail % block;
    if t == 0 then Align(len, block)
    else if len <= block - t then 0 else Align(len - (block - t), block)
  }

  /** The first bytes of a value go into the last block, the rest into new
      ones: together they cover the packed bytes. */
  lemma AddedCovers(tail: nat, len: nat, block: nat)
    requires block > 0 && len > 0
    ensures Align(tail, block) + Added(tail, len, block) == Align(tail + len, block)
  {
    hide Align;
    var q, t := tail / block, tail % block;
    assert tail == q * block + t;
    if t == 0 {
      Multiple(q, block);
      Shifted(q, len, block);
    } else {
      AlignIs(tail, block, q + 1) by { assert (q + 1) * block == q * block + block; }
      if len <= block - t {
        AlignIs(tail + len, block, q + 1) by { assert (q + 1) * block == q * block + block; }
      } else {
        var rest := len - (block - t);
        assert tail + len == (q + 1) * block + rest by { assert (q + 1) * block == q * block + block; }
        Shifted(q + 1, rest, block);
      }
    }
  }

  lemma Multiple(q: nat, block: nat)
    requires block > 0
    ensures Align(q * block, block) == q
  {
    if q > 0 { assert (q - 1) * block == q * block - block; }
    AlignIs(q * block, block, q);
  }

  lemma Shifted(q: nat, len: nat, block: nat)
    requires block > 0 && len > 0
    ensures Align(q * block + len, block) == q + Align(len, block)
  {
    hide Align;
    var a := Align(len, block);
    AlignIs(len, block, a);
    assert (q + a) * block == q * block + a * block && (q + a - 1) * block == q * block + (a - 1) * block;
    AlignIs(q * block + len, block, q + a);
  }

  /** Rounding the tail up, to a word or to the next unit, never leaves the last
      block: units do not cross blocks. */
  lemma RoundingStaysInside(tail: nat, len: nat, units: nat)
    requires units > 0 && len > 0 && tail % 4 == 0
    ensures Align(Next(tail, len), UNIT * units) == Align(tail + len, UNIT * units)
  {
    hide Align;
    var block, end := UNIT * units, tail + len;
    var k := Align(end, block);
    AlignIs(end, block, k);
    assert k * block == UNIT * (k * units);
    var whole := k * units;
    assert Next(tail, len) <= UNIT * whole by { RoundedBelow(tail, len, whole); }
    NextIsBeyond(tail, len);
    AlignIs(Next(tail, len), block, k);
  }

  lemma RoundedBelow(tail: nat, len: nat, whole: nat)
    requires len > 0 && tail % 4 == 0 && tail + len <= UNIT * whole
    ensures Next(tail, len) <= UNIT * whole
  {
    hide DwordAlign;
    var u, next := Unit(tail), tail + DwordAlign(len);
    WordsOf(len);
    if u == Unit(next) {
      assert u * UNIT <= tail;
      assert u < whole;
    } else {
      WordBelow(tail, DwordAlign(len), len, 64 * whole);
    }
  }

  lemma WordsOf(n: nat)
    ensures DwordAlign(n) % 4 == 0 && n <= DwordAlign(n) < n + 4
  {
  }

  lemma WordBelow(tail: nat, d: nat, len: nat, w: nat)
    requires tail % 4 == 0 && d % 4 == 0 && d < len + 4 && tail + len <= 4 * w
    ensures tail + d <= 4 * w
  {
    var a, b := tail / 4, d / 4;
    assert 4 * (a + b) < 4 * w + 4;
  }

  /** append_val_iov: the lengths of the blocks to write, in blocks. */
  method AppendValIov(iov: seq<nat>, tail: nat, len: nat, block: nat) returns (r: seq<nat>)
    requires block > 0
    ensures Sum(r) == Sum(iov) + Added(tail, len, block) && |iov| <= |r| <= |iov| + 1
  {
    var t := tail % block;
    r := iov;
    if t != 0 {
      var n := block - t;
      if len > n {
        r := iov + [Align(len - n, block)];
        SumSnoc(iov, Align(len - n, block));
      }
    } else {
      r := iov + [Align(len, block)];
      SumSnoc(iov, Align(len, block));
    }
  }

  /** The packing loop of compact_lock_cb: values do not overlap, start in
      different units, later ones in later units, and the blocks written are
      exactly those that cover the packed bytes. */
  method PackValues(lens: seq<nat>, units: nat) returns (starts: seq<nat>, iov: seq<nat>)
    requires units > 0 && forall i :: 0 <= i < |lens| ==> lens[i] > 0
    ensures |starts| == |lens| && |iov| <= |lens|
    ensures forall i :: 0 <= i < |starts| ==> starts[i] % 4 == 0
    ensures forall i, j :: 0 <= i < j < |starts| ==>
        Unit(starts[i]) < Unit(starts[j]) && starts[i] + lens[i] <= starts[j]
    ensures lens != [] ==> starts[0] == 0 && Sum(iov) == Align(starts[|lens| - 1] + lens[|lens| - 1], UNIT * units)
  {
    hide Align, Added, Next, Packed;
    var tail, block := 0, UNIT * units;
    starts, iov := [], [];
    Multiple(0, block);
    PackedNone(lens);
    for k := 0 to |lens|
      invariant |starts| == k && |iov| <= k && Packed(lens, starts, tail)
      invariant Sum(iov) == Align(tail, block) && (k == 0 ==> tail == 0) && (k > 0 ==> starts[0] == 0)
      invariant k > 0 ==> Sum(iov) == Align(starts[k - 1] + lens[k - 1], block)
    {
      var len := lens[k];
      PackedStep(lens, starts, tail);
      iov := AppendValIov(iov, tail, len, block);
      AddedCovers(tail, len, block);
      RoundingStaysInside(tail, len, units);
      starts := starts + [tail];
      tail := Next(tail, len);
    }
    PackedIs(lens, starts, tail);
  }

  /** The values placed so far are apart, in order, and behind `tail`. */
  ghost predicate Packed(lens: seq<nat>, starts: seq<nat>, tail: nat) {
    && |starts| <= |lens| && tail % 4 == 0
    && (forall i :: 0 <= i < |starts| ==>
        starts[i] % 4 == 0 && Unit(starts[i]) < Unit(tail) && starts[i] + lens[i] <= tail)
    && (forall i, j :: 0 <= i < j < |starts| ==> Unit(starts[i]) < Unit(starts[j]) && starts[i] + lens[i] <= starts[j])
  }

  lemma PackedNone(lens: seq<nat>)
    ensures Packed(lens, [], 0)
  {
  }

  lemma PackedStep(lens: seq<nat>, starts: seq<nat>, tail: nat)
    requires Packed(lens, starts, tail) && |starts| < |lens|
    ensures tail % 4 == 0 && Packed(lens, starts + [tail], Next(tail, lens[|starts|]))
  {
    hide Next, Unit;
    NextIsBeyond(tail, lens[|starts|]);
  }

  lemma PackedIs(lens: seq<nat>, starts: seq<nat>, tail: nat)
    requires Packed(lens, starts, tail) && |starts| == |lens|
    ensures forall i :: 0 <= i < |starts| ==> starts[i] % 4 == 0
    ensures forall i, j :: 0 <= i < j < |starts| ==>
        Unit(starts[i]) < Unit(starts[j]) && starts[i] + lens[i] <= starts[j]
  {
  }

  // ------------------------------------------------- bucket-id slots

  /** offset_to_block and the place in the block. */
  function IdBlock(offset: nat): nat { Unit(offset) / IDS_PER_BLOCK }
  function IdPlace(offset: nat): nat { Unit(offset) % IDS_PER_BLOCK }

  /** A bucket-id slot belongs to one unit, so values that start in different
      units never share one. */
  lemma SlotHasOneOwner(a: nat, b: nat)
    ensures IdBlock(a) == IdBlock(b) && IdPlace(a) == IdPlace(b) <==> Unit(a) == Unit(b)
  {
  }

  /** Wrapping into a log of `total` units at a unit boundary keeps units of
      one pass apart. */
  lemma WrappedUnitsDiffer(base: nat, a: nat, b: nat, total: nat)
    requires total > 0 && Unit(a) < Unit(b) < Unit(a) + total
    ensures Unit(Wrap(UNIT * base + a, UNIT * total)) != Unit(Wrap(UNIT * base + b, UNIT * total))
  {
    hide Wrap;
    WrappedUnit(base, a, total);
    WrappedUnit(base, b, total);
    WrappedEqual(base + Unit(a), base + Unit(b), total);
  }

  lemma WrappedUnit(base: nat, a: nat, total: nat)
    requires total > 0
    ensures Unit(Wrap(UNIT * base + a, UNIT * total)) == Wrap(base + Unit(a), total)
  {
    var x, u := UNIT * base + a, base + Unit(a);
    var q := u / total;
    var r := u - q * total;
    assert q * total <= u < q * total + total;
    var y := UNIT * r + a % UNIT;
    assert x == UNIT * u + a % UNIT;
    assert UNIT * (q * total) == q * (UNIT * total);
    assert x == q * (UNIT * total) + y && y < UNIT * total by { assert r + 1 <= total; }
    BlockBounds(x, UNIT * total, q);
    BlockBounds(u, total, q);
    assert x % (UNIT * total) == y by { Remainder(x, UNIT * total, q, y); }
    assert u % total == r by { Remainder(u, total, q, r); }
  }

  lemma Remainder(x: nat, n: nat, q: nat, r: nat)
    requires n > 0 && r < n && x == q * n + r
    ensures x % n == r
  {
    ModShift(r, q, n);
    SmallQuotient(r, n);
  }
}
