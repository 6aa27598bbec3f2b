/** The two-level map from bucket ids to log positions
    (spdk/app/leed/kv_bucket.cpp:16-61). */
module BucketMeta {
  const BLOCK: nat := 128
  const U32: nat := 0x1_0000_0000

  datatype Meta = Meta(chainLength: nat, offset: nat) {
    predicate Empty() { chainLength == 0 }
  }

  const NONE: Meta := Meta(0, 0)

  datatype MetaBlock = MetaBlock(meta: seq<Meta>, nonEmpty: nat)

  type MetaMap = map<nat, MetaBlock>

  function NonEmpty(s: seq<Meta>): (n: nat)
    ensures n <= |s|
  {
    if s == [] then 0 else Used(s[0]) + NonEmpty(s[1..])
  }

  function Used(d: Meta): nat { if d.Empty() then 0 else 1 }

  ghost predicate BlockOk(b: MetaBlock) {
    |b.meta| == BLOCK && b.nonEmpty == NonEmpty(b.meta) && b.nonEmpty > 0
  }

  /** Blocks are there exactly for ids with entries, and their counters count. */
  ghost predicate Good(m: MetaMap) {
    forall k :: k in m ==> BlockOk(m[k])
  }

  /** kv_bucket_meta_get. */
  function Get(m: MetaMap, id: nat): Meta {
    if id / BLOCK in m && id % BLOCK < |m[id / BLOCK].meta| then m[id / BLOCK].meta[id % BLOCK] else NONE
  }

  /** The decrement of a 32-bit counter. */
  function Minus(n: nat): nat { if n == 0 then U32 - 1 else n - 1 }

  function NoEntries(): MetaBlock { MetaBlock(seq(BLOCK, _ => NONE), 0) }

  function BlockAt(m: MetaMap, k: nat): MetaBlock { if k in m then m[k] else NoEntries() }

  /** kv_bucket_meta_put. */
  function Put(m: MetaMap, id: nat, data: Meta): MetaMap {
    var k, i := id / BLOCK, id % BLOCK;
    var b := BlockAt(m, k);
    if (k !in m && data.Empty()) || i >= |b.meta| then m else
      var meta := b.meta[i := data];
      if data.Empty() then
        (if Minus(b.nonEmpty) == 0 then m - {k} else m[k := MetaBlock(meta, Minus(b.nonEmpty))])
      else
        m[k := MetaBlock(meta, if b.meta[i].Empty() then b.nonEmpty + 1 else b.nonEmpty)]
  }

  predicate SameEntry(a: Meta, b: Meta) {
    a == b || (a.Empty() && b.Empty())
  }

  /** `p` is `m` with `data` written at `id`, as a flat map. */
  ghost predicate Written(m: MetaMap, p: MetaMap, id: nat, data: Meta) {
    forall x: nat :: SameEntry(Get(p, x), if x == id then data else Get(m, x))
  }

  /** Writing empty over a slot of an existing block that is empty already. */
  predicate EmptyOverEmpty(m: MetaMap, id: nat, data: Meta) {
    id / BLOCK in m && data.Empty() && Get(m, id).Empty()
  }

  // -------------------------------------------------------- counting

  lemma {:induction false} NonEmptyReplaced(s: seq<Meta>, i: nat, d: Meta)
    requires i < |s|
    ensures NonEmpty(s[i := d]) + Used(s[i]) == NonEmpty(s) + Used(d)
  {
    var t := s[i := d];
    if i == 0 {
      assert t[1..] == s[1..];
    } else {
      assert t[1..] == s[1..][i - 1 := d];
      NonEmptyReplaced(s[1..], i - 1, d);
    }
  }

  lemma {:induction false} NonEmptyZero(s: seq<Meta>)
    ensures NonEmpty(s) == 0 <==> forall i :: 0 <= i < |s| ==> s[i].Empty()
  {
    if s != [] {
      var t := s[1..];
      NonEmptyZero(t);
      assert forall i :: 1 <= i < |s| ==> s[i] == t[i - 1];
      assert forall i :: 0 <= i < |t| ==> t[i] == s[i + 1];
    }
  }

  lemma BlockAtCounts(m: MetaMap, k: nat)
    requires Good(m)
    ensures var b := BlockAt(m, k);
            |b.meta| == BLOCK && b.nonEmpty == NonEmpty(b.meta) <= BLOCK && (k in m <==> b.nonEmpty > 0)
  {
    if k in m {
      assert BlockOk(m[k]);
    } else {
      NonEmptyZero(NoEntries().meta);
    }
  }

  // --------------------------------------------------------- writing

  /** How a write changes the one block it touches. */
  lemma PutBlock(m: MetaMap, id: nat, data: Meta)
    requires Good(m)
    ensures var k, i := id / BLOCK, id % BLOCK; var b, p := BlockAt(m, k), Put(m, id, data);
      && (forall q :: q != k ==> (q in p <==> q in m) && (q in m ==> p[q] == m[q]))
      && |b.meta| == BLOCK && NonEmpty(b.meta[i := data]) + Used(b.meta[i]) == b.nonEmpty + Used(data)
      && (k in p ==> p[k].meta == b.meta[i := data])
      && (k in p ==> p[k].nonEmpty == if EmptyOverEmpty(m, id, data) then b.nonEmpty - 1
        else NonEmpty(b.meta[i := data]))
      && (k !in p <==> if EmptyOverEmpty(m, id, data) then b.nonEmpty == 1 else NonEmpty(b.meta[i := data]) == 0)
  {
    var k, i := id / BLOCK, id % BLOCK;
    BlockAtCounts(m, k);
    NonEmptyReplaced(BlockAt(m, k).meta, i, data);
  }

  /** The flat view of another id: its block and place in it. */
  lemma Places(x: nat, id: nat)
    ensures x == id <==> x / BLOCK == id / BLOCK && x % BLOCK == id % BLOCK
  {
  }

  /** A write that is not empty over empty keeps the counters right and is a
      write to the flat map, so erasing a block loses nothing. */
  lemma PutRefines(m: MetaMap, id: nat, data: Meta)
    requires Good(m) && !EmptyOverEmpty(m, id, data)
    ensures Good(Put(m, id, data)) && Written(m, Put(m, id, data), id, data)
  {
    hide Put, NonEmpty;
    var k, i, p := id / BLOCK, id % BLOCK, Put(m, id, data);
    var b := BlockAt(m, k);
    PutBlock(m, id, data);
    forall q | q in p
      ensures BlockOk(p[q])
    {
      assert q != k ==> BlockOk(m[q]);
    }
    NonEmptyZero(b.meta[i := data]);
    forall x: nat
      ensures SameEntry(Get(p, x), if x == id then data else Get(m, x))
    {
      Places(x, id);
      var t := b.meta[i := data];
      if x / BLOCK == k {
        assert t[x % BLOCK] == if x == id then data else b.meta[x % BLOCK];
      }
    }
  }

  /** The write of an empty entry over an empty one breaks the map: the counter
      falls behind, or the block is erased with an entry in it. */
  lemma EmptyOverEmptyBreaks(m: MetaMap, id: nat, data: Meta)
    requires Good(m) && EmptyOverEmpty(m, id, data)
    ensures if m[id / BLOCK].nonEmpty == 1 then !Written(m, Put(m, id, data), id, data) else !Good(Put(m, id, data))
  {
    hide Put, NonEmpty;
    var k, i, p := id / BLOCK, id % BLOCK, Put(m, id, data);
    PutBlock(m, id, data);
    BlockAtCounts(m, k);
    var s := m[k].meta;
    if m[k].nonEmpty == 1 {
      NonEmptyZero(s);
      var j :| 0 <= j < |s| && !s[j].Empty();
      var x := k * BLOCK + j;
      assert x / BLOCK == k && x % BLOCK == j;
      assert !SameEntry(Get(p, x), Get(m, x));
    } else {
      assert !BlockOk(p[k]);
    }
  }

  /** So the two-level map refines the flat one for exactly these writes. */
  lemma PutRefinesIff(m: MetaMap, id: nat, data: Meta)
    requires Good(m)
    ensures Good(Put(m, id, data)) && Written(m, Put(m, id, data), id, data) <==> !EmptyOverEmpty(m, id, data)
  {
    hide Put, Good, Written, EmptyOverEmpty;
    if EmptyOverEmpty(m, id, data) {
      EmptyOverEmptyBreaks(m, id, data);
    } else {
      PutRefines(m, id, data);
    }
  }

  // ------------------------------------------------------------ runs

  datatype Write = Write(id: nat, data: Meta)

  function PutAll(m: MetaMap, ws: seq<Write>): MetaMap {
    if ws == [] then m else Put(PutAll(m, ws[..|ws| - 1]), ws[|ws| - 1].id, ws[|ws| - 1].data)
  }

  /** The last entry written at `id`, or what was there before. */
  function Flat(m: MetaMap, ws: seq<Write>, id: nat): Meta {
    if ws == [] then Get(m, id)
    else if ws[|ws| - 1].id == id then ws[|ws| - 1].data
    else Flat(m, ws[..|ws| - 1], id)
  }

  ghost predicate NeverEmptyOverEmpty(m: MetaMap, ws: seq<Write>) {
    forall n :: 0 <= n < |ws| ==> !EmptyOverEmpty(PutAll(m, ws[..n]), ws[n].id, ws[n].data)
  }

  /** Any number of writes: every id holds what was last written to it. */
  lemma {:induction false} RunRefinesFlat(m: MetaMap, ws: seq<Write>, id: nat)
    requires Good(m) && NeverEmptyOverEmpty(m, ws)
    ensures Good(PutAll(m, ws)) && SameEntry(Get(PutAll(m, ws), id), Flat(m, ws, id))
  {
    hide Put, EmptyOverEmpty;
    if ws != [] {
      var n := |ws| - 1;
      var before, w := ws[..n], ws[n];
      forall k | 0 <= k < n
        ensures !EmptyOverEmpty(PutAll(m, before[..k]), before[k].id, before[k].data)
      {
        assert before[..k] == ws[..k];
      }
      RunRefinesFlat(m, before, id);
      var p := PutAll(m, before);
      assert !EmptyOverEmpty(p, w.id, w.data);
      PutRefines(p, w.id, w.data);
      assert SameEntry(Get(Put(p, w.id, w.data), id), if id == w.id then w.data else Get(p, id));
    }
  }

  /** Deleting a range of ids that has nothing in it, next to an id of the same
      block that has (spdk/app/leed/kv_data_store.c:625-627). */
  lemma DeletingNothingLosesAnEntry(id: nat, offset: nat)
    requires 1 <= id < BLOCK
    ensures var m := Put(map[], id, Meta(1, offset)); Get(m, id) == Meta(1, offset) && Get(Put(m, 0, NONE), id) == NONE
  {
  }

  class MetaTable {
    var meta: MetaMap

    ghost predicate Valid()
      reads this
    {
      Good(meta)
    }

    constructor ()
      ensures Valid() && meta == map[]
    {
      meta := map[];
    }

    method MetaGet(id: nat) returns (data: Meta)
      requires Valid()
      ensures data == Get(meta, id)
    {
      var k, i := id / BLOCK, id % BLOCK;
      if k in meta {
        assert BlockOk(meta[k]);
        data := meta[k].meta[i];
      } else {
        data := NONE;
      }
    }

    /** kv_bucket_meta_put, in place. */
    method MetaPut(id: nat, data: Meta)
      requires Valid() && !EmptyOverEmpty(meta, id, data)
      modifies this
      ensures Valid() && meta == Put(old(meta), id, data) && Written(old(meta), meta, id, data)
    {
      PutRefines(meta, id, data);
      ghost var was := meta;
      var k, i := id / BLOCK, id % BLOCK;
      BlockAtCounts(meta, k);
      if k !in meta {
        if data.Empty() {
          return;
        }
        meta := meta[k := NoEntries()];
      }
      var empty := meta[k].meta[i].Empty();
      meta := meta[k := meta[k].(meta := meta[k].meta[i := data])];
      if data.Empty() {
        meta := meta[k := meta[k].(nonEmpty := Minus(meta[k].nonEmpty))];
        if meta[k].nonEmpty == 0 {
          meta := meta - {k};
        }
      } else if empty {
        meta := meta[k := meta[k].(nonEmpty := meta[k].nonEmpty + 1)];
      }
      assert meta == Put(was, id, data);
    }
  }
}
