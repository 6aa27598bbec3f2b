/** Which keys a server copies when a vnode joins or leaves, and how the arc of a
    vnode is cut into the unwrapped ranges the data store understands
    (start_copy, spdk/app/leed/kv_ring.c:517-549). */
module RingCopy {
  import opened SeqOps
  import opened WrapMath
  import opened RingOrder
  import opened RingChain

  function Pow2(n: nat): (p: nat)
    ensures p > 0
  {
    if n == 0 then 1 else 2 * Pow2(n - 1)
  }

  lemma {:induction false} Pow2Add(a: nat, b: nat)
    ensures Pow2(a + b) == Pow2(a) * Pow2(b)
  {
    if a > 0 { Pow2Add(a - 1, b); }
  }

  lemma Pow2Of64()
    ensures Pow2(64) == TWO64
  {
    assert Pow2(8) == 256;
    Pow2Add(8, 8);
    Pow2Add(16, 16);
    Pow2Add(32, 32);
  }

  /** Number of keys of one ring when there are 2^logRings of them. */
  function RingSize(logRings: nat): (z: nat)
    requires logRings <= 64
    ensures z * Pow2(logRings) == TWO64 && z > 0
  {
    Pow2Of64();
    Pow2Add(64 - logRings, logRings);
    Pow2(64 - logRings)
  }

  /** get_ring_id: the top bits of the key. */
  function RingId(key: U64, logRings: nat): nat
    requires logRings <= 64
  {
    key / RingSize(logRings)
  }

  /** The first key of ring `id` as an unsigned 64-bit word; the ring after the
      last one starts at 0. */
  function RingStart(id: nat, logRings: nat): U64
    requires logRings <= 64
  {
    (id * RingSize(logRings)) % TWO64
  }

  /** A range handed to the data store: from `start` up to, not including, `end`,
      where `end == 0` stands for 2^64. */
  datatype KeyRange = KeyRange(start: U64, end: U64)

  predicate InRange(k: U64, g: KeyRange) {
    g.start <= k && (k < g.end || g.end == 0)
  }

  /** The ranges start_copy hands out for the arc from `prev` to `base`. */
  function CopyRanges(prev: U64, base: U64, logRings: nat): seq<KeyRange>
    requires logRings <= 64
  {
    var start, end := Inc(prev), Inc(base);
    if start > end && end != 0 then
      var id := RingId(base, logRings);
      [KeyRange(RingStart(id, logRings), end), KeyRange(start, RingStart(id + 1, logRings))]
    else
      [KeyRange(start, end)]
  }

  /** The ranges of a list that contain `k`. */
  ghost function Holding(gs: seq<KeyRange>, k: U64): set<nat> {
    set i: nat | i < |gs| && InRange(k, gs[i])
  }

  lemma RingBounds(key: U64, logRings: nat)
    requires logRings <= 64
    ensures var id, z := RingId(key, logRings), RingSize(logRings);
            && id * z <= key < id * z + z <= TWO64
            && RingStart(id, logRings) == id * z
            && RingStart(id + 1, logRings) == (if id * z + z == TWO64 then 0 else id * z + z)
  {
    hide Pow2;
    var id, z, n := RingId(key, logRings), RingSize(logRings), Pow2(logRings);
    BlockBounds(key, z, id);
    assert n * z == TWO64;
    Beyond(n, id, z);
    Beyond(id, n, z);
    assert (id + 1) * z == id * z + z;
  }

  lemma SameRing(a: U64, b: U64, logRings: nat)
    requires logRings <= 64
    ensures var id, z := RingId(b, logRings), RingSize(logRings);
            RingId(a, logRings) == id <==> id * z <= a < id * z + z
  {
    BlockBounds(a, RingSize(logRings), RingId(b, logRings));
  }

  /** The ranges are a partition of the arc: every key of the arc that belongs to
      the ring is in exactly one range, and a key outside the arc or outside the
      ring is in none, unless the arc starts after the very last 64-bit id. */
  lemma CopyRangesPartitionTheArc(prev: U64, base: U64, logRings: nat, k: U64)
    requires logRings <= 64 && prev != base && RingId(prev, logRings) == RingId(base, logRings)
    requires prev != TWO64 - 1 || logRings == 0
    ensures |Holding(CopyRanges(prev, base, logRings), k)| ==
            if RingId(k, logRings) == RingId(base, logRings) && OnArc(prev, k, base) then 1 else 0
  {
    var gs := CopyRanges(prev, base, logRings);
    var z, low := RingSize(logRings), RingId(base, logRings) * RingSize(logRings);
    RingBounds(base, logRings);
    SameRing(k, base, logRings);
    SameRing(prev, base, logRings);
    if logRings == 0 { assert RingSize(0) * Pow2(0) == TWO64; }
    SplitArc(prev, base, low, low + z, k, gs);
    HoldingCount(gs, k);
  }

  /** The one or two ranges of an arc of the ring from `low` to `high`. */
  lemma SplitArc(prev: U64, base: U64, low: nat, high: nat, k: U64, gs: seq<KeyRange>)
    requires low <= prev < high <= TWO64 && low <= base < high && prev != base
    requires prev != TWO64 - 1 || (low == 0 && high == TWO64)
    requires gs == if Inc(prev) > Inc(base) && Inc(base) != 0
      then [KeyRange(low, Inc(base)), KeyRange(Inc(prev), if high == TWO64 then 0 else high)]
      else [KeyRange(Inc(prev), Inc(base))]
    ensures |gs| == 2 ==> !(InRange(k, gs[0]) && InRange(k, gs[1]))
    ensures (exists g :: g in gs && InRange(k, g)) <==> low <= k < high && OnArc(prev, k, base)
  {
    var held := InRange(k, gs[0]) || (|gs| == 2 && InRange(k, gs[1]));
    assert held <==> exists g :: g in gs && InRange(k, g);
  }

  lemma HoldingCount(gs: seq<KeyRange>, k: U64)
    requires 1 <= |gs| <= 2 && (|gs| == 2 ==> !(InRange(k, gs[0]) && InRange(k, gs[1])))
    ensures |Holding(gs, k)| == if exists g :: g in gs && InRange(k, g) then 1 else 0
  {
    var h := Holding(gs, k);
    if |gs| == 2 {
      assert h == (if InRange(k, gs[0]) then {0} else {}) + (if InRange(k, gs[1]) then {1} else {});
    } else {
      assert h == if InRange(k, gs[0]) then {0} else {};
    }
  }

  /** The excluded case is a real one: with more than one ring, an arc that starts
      after id 2^64-1 is turned into a range that reaches into ring 0. */
  lemma LastIdLeaksIntoRingZero(base: U64, logRings: nat)
    requires 0 < logRings <= 64 && base != TWO64 - 1
    requires RingId(TWO64 - 1, logRings) == RingId(base, logRings)
    ensures |Holding(CopyRanges(TWO64 - 1, base, logRings), 0)| == 1
    ensures RingId(0, logRings) != RingId(base, logRings)
  {
    var gs := CopyRanges(TWO64 - 1, base, logRings);
    assert gs == [KeyRange(0, Inc(base))];
    assert Holding(gs, 0) == {0};
    var z := RingSize(logRings);
    SameRing(0, base, logRings);
    SameRing(TWO64 - 1, base, logRings);
    assert Pow2(logRings) >= 2 by { assert Pow2(logRings) == 2 * Pow2(logRings - 1); }
    MulMono(2, Pow2(logRings), z);
  }

  /** start_copy's ranges cover the arc exactly, key by key, if and only if the arc
      does not start after id 2^64-1 in a system with several rings. */
  lemma CopyRangesExactIff(prev: U64, base: U64, logRings: nat)
    requires logRings <= 64 && prev != base && RingId(prev, logRings) == RingId(base, logRings)
    ensures (forall k: U64 :: |Holding(CopyRanges(prev, base, logRings), k)| ==
                              if RingId(k, logRings) == RingId(base, logRings) && OnArc(prev, k, base) then 1 else 0)
            <==> prev != TWO64 - 1 || logRings == 0
  {
    if prev != TWO64 - 1 || logRings == 0 {
      forall k: U64
        ensures |Holding(CopyRanges(prev, base, logRings), k)| ==
                if RingId(k, logRings) == RingId(base, logRings) && OnArc(prev, k, base) then 1 else 0
      {
        CopyRangesPartitionTheArc(prev, base, logRings, k);
      }
    } else {
      LastIdLeaksIntoRingZero(base, logRings);
    }
  }

  // ----- which arcs are copied -----

  /** start_copy hands out a range whose ends coincide, which the copier never
      reports, exactly when the arc starts after the last id of a ring that is not
      the last ring. */
  lemma EmptyRangeIff(prev: U64, base: U64, logRings: nat)
    requires logRings <= 64 && prev != base && RingId(prev, logRings) == RingId(base, logRings)
    ensures (exists g :: g in CopyRanges(prev, base, logRings) && g.start == g.end) <==>
      prev != TWO64 - 1 && prev + 1 == (RingId(prev, logRings) + 1) * RingSize(logRings)
  {
    hide Pow2, RingId, RingSize;
    var gs, id, z := CopyRanges(prev, base, logRings), RingId(base, logRings), RingSize(logRings);
    RingBounds(base, logRings);
    RingBounds(prev, logRings);
    assert (id + 1) * z == id * z + z;
    assert gs[0] in gs && (|gs| == 2 ==> gs[1] in gs);
    if |gs| == 2 {
      assert forall g :: g in gs ==> g == gs[0] || g == gs[1];
    } else {
      assert forall g :: g in gs ==> g == gs[0];
    }
  }

  /** The vnodes start_copy visits: `vnode` and the ones before it, at most `n`
      and at most once around. */
  method Visited(r: Ring, i: nat, n: nat) returns (visited: seq<nat>)
    requires i < |r|
    ensures Distinct(visited)
    ensures forall x :: 0 <= x < |r| ==> (x in visited <==> StepsTo(r, x, i) < n)
  {
    var x: nat := i;
    visited := [];
    if n == 0 { return; }
    var c: nat := 0;
    while true
      invariant c < n && c < |r| && x < |r| && StepsTo(r, x, i) == c
      invariant |visited| == c
      invariant forall q :: 0 <= q < c ==> visited[q] < |r| && StepsTo(r, visited[q], i) == q
      decreases n - c
    {
      visited := visited + [x];
      x := Prev(r, x);
      c := c + 1;
      if x == i || c == n { break; }
    }
    forall y | 0 <= y < |r|
      ensures y in visited <==> StepsTo(r, y, i) < n
    {
      var d := StepsTo(r, y, i);
      if d < c { assert StepsTo(r, visited[d], i) == d; }
    }
  }

  /** Clockwise steps from list index `x` to list index `i`. */
  function StepsTo(r: Ring, x: nat, i: nat): nat
    requires x < |r| && i < |r|
  {
    if i >= x then i - x else i - x + |r|
  }

  /** start_copy visits exactly the owners of the keys whose chain meets the
      joining or leaving vnode, so no key that needs a copy is missed and no key
      that needs none is copied. */
  lemma VisitedAreTheAffected(r: Ring, i: nat, n: nat, key: U64)
    requires i < |r| && OnlyInvalid(r, i)
    ensures StepsTo(r, Find(r, key), i) < n <==> KeyChain(r, key, n).invalid == Some(r[i])
  {
    ViewOnlyInvalid(r, key, i);
    ChainWithInvalid(View(r, key), ViewPos(r, key, i), n);
  }

  // ----- buckets -----

  /** kv_data_store_bucket_id: the top bits of the key, with `z` keys a bucket. */
  function BucketId(key: U64, z: nat): nat
    requires z > 0
  {
    key / z
  }

  /** mask_vnode_id: the id is raised to the last key of its bucket. */
  function Mask(vid: U64, z: nat): int
    requires z > 0
  {
    vid / z * z + z - 1
  }

  /** With masked vnode ids, all keys of one data-store bucket have one owner. */
  lemma BucketHasOneOwner(r: Ring, z: nat, m: nat, k1: U64, k2: U64)
    requires r != [] && Sorted(r) && z > 0 && z * m == TWO64
    requires forall i :: 0 <= i < |r| ==> r[i].vid == Mask(r[i].vid, z)
    requires BucketId(k1, z) == BucketId(k2, z)
    ensures Find(r, k1) == Find(r, k2)
  {
    hide Mask, BucketId, Sorted, Find;
    FindIsTheOwner(r, k1);
    FindIsTheOwner(r, k2);
    var i := Find(r, k1);
    FindInside(r, k1);
    MaskedArc(r[Prev(r, i)].vid, r[i].vid, z, m, k1, k2);
    assert Owns(r, i, k2);
  }

  lemma FindInside(r: Ring, key: U64)
    requires r != []
    ensures Find(r, key) < |r| && Prev(r, Find(r, key)) < |r|
  {
  }

  /** An arc between masked ids contains whole buckets only. */
  lemma MaskedArc(a: U64, b: U64, z: nat, m: nat, k1: U64, k2: U64)
    requires z > 0 && z * m == TWO64
    requires a == Mask(a, z) && b == Mask(b, z) && BucketId(k1, z) == BucketId(k2, z)
    ensures OnArc(a, k1, b) <==> OnArc(a, k2, b)
  {
    var q, p, c := k1 / z, a / z, b / z;
    assert q * z <= k1 < q * z + z && q * z <= k2 < q * z + z;
    Beyond(q, p, z);
    Beyond(q, c, z);
    assert k1 > a <==> q > p;
    assert k2 > a <==> q > p;
    assert k1 > b <==> q > c;
    assert k2 > b <==> q > c;
    ArcByOrder(a, k1, b);
    ArcByOrder(a, k2, b);
  }

  lemma ArcByOrder(a: U64, k: U64, b: U64)
    ensures OnArc(a, k, b) <==> if a < b then a < k <= b else k > a || k <= b
  {
  }
}
