/** A locked segment being edited by set and delete
    (spdk/app/leed/kv_data_store.c:109-162, 217-243, 418-430 and
    spdk/app/leed/kv_bucket_log.c:126-164). */
module BucketSegment {
  import opened SegmentItems

  datatype Header = Header(id: nat, chainLength: nat, chainIndex: nat)

  datatype Op = Set(key: Key, value: Value) | Delete(key: Key)

  const CAPACITY: nat := MAX_CHAIN * PER_BUCKET

  /** One operation on a map that can hold 127 buckets of entries. */
  function Step(m: map<Key, Value>, op: Op): map<Key, Value> {
    match op
    case Set(k, v) => if k in m || |m| < CAPACITY then m[k := v] else m
    case Delete(k) => m - {k}
  }

  function Run(m: map<Key, Value>, ops: seq<Op>): map<Key, Value> {
    if ops == [] then m else Step(Run(m, ops[..|ops| - 1]), ops[|ops| - 1])
  }

  class Segment {
    const id: nat
    var headers: seq<Header>
    var slots: seq<Item>          // sixteen a bucket, in chain order
    var dirty: bool

    /** The headers number the buckets of one chain, and the slots are compact. */
    ghost predicate Valid()
      reads this
    {
      && Numbered()
      && Compact(slots)
      && Single(slots)
    }

    ghost predicate Numbered()
      reads this
    {
      && |headers| <= MAX_CHAIN
      && |slots| == PER_BUCKET * |headers|
      && forall i :: 0 <= i < |headers| ==> headers[i] == Header(id, |headers|, i)
    }

    ghost function Contents(): map<Key, Value>
      reads this
    {
      MapOf(slots)
    }

    constructor (id: nat)
      ensures Valid() && Contents() == map[] && this.id == id && !dirty
    {
      this.id := id;
      headers, slots, dirty := [], [], false;
      new;
      MeansIsMapOf(slots, map[]);
    }

    /** find_item_plus. */
    method FindItemPlus(key: Key) returns (found: bool, at: nat)
      requires key != []
      ensures found ==> at < |slots| && slots[at].key == key
      ensures !found ==> forall i :: 0 <= i < |slots| ==> slots[i].key != key
    {
      at := 0;
      while at < |slots|
        invariant at <= |slots| && forall i :: 0 <= i < at ==> slots[i].key != key
      {
        if slots[at].key == key {
          return true, at;
        }
        at := at + 1;
      }
      found := false;
    }

    /** kv_bucket_alloc_extra. */
    method AllocExtra() returns (ok: bool)
      requires Numbered()
      modifies this
      ensures Numbered() && dirty == old(dirty)
      ensures ok <==> |old(headers)| < MAX_CHAIN
      ensures slots == if ok then old(slots) + BlankBucket() else old(slots)
    {
      var length := if headers == [] then 0 else headers[0].chainLength;
      if length == 0x7F {
        return false;
      }
      headers := headers + [Header(id, 0, length)];
      slots := slots + BlankBucket();
      Renumber(length + 1);
      ok := true;
    }

    /** kv_bucket_free_extra. */
    method FreeExtra()
      requires Numbered() && headers != []
      modifies this
      ensures Numbered() && dirty == old(dirty)
      ensures slots == old(slots)[..|old(slots)| - PER_BUCKET]
    {
      var length := headers[0].chainLength;
      headers := headers[..|headers| - 1];
      slots := slots[..|slots| - PER_BUCKET];
      Renumber(length - 1);
    }

    method Renumber(length: nat)
      modifies this`headers
      ensures |headers| == |old(headers)|
      ensures forall i :: 0 <= i < |headers| ==> headers[i] == old(headers)[i].(chainLength := length)
    {
      for i := 0 to |headers|
        invariant |headers| == |old(headers)|
        invariant forall k :: 0 <= k < i ==> headers[k] == old(headers)[k].(chainLength := length)
        invariant forall k :: i <= k < |headers| ==> headers[k] == old(headers)[k]
      {
        headers := headers[i := headers[i].(chainLength := length)];
      }
    }

    /** find_empty: the first hole, or the first slot of a new bucket; there is
        none exactly when 127 buckets are full. */
    method FindEmpty() returns (found: bool, at: nat)
      requires Valid()
      modifies this
      ensures Valid() && Contents() == old(Contents()) && dirty == old(dirty)
      ensures found <==> Live(old(slots)) < CAPACITY
      ensures !found ==> slots == old(slots)
      ensures found ==> at < |slots| && slots[at].Empty() && forall q :: 0 <= q < at ==> !slots[q].Empty()
    {
      hide Single, MapOf, Compact;
      at := 0;
      while at < |slots|
        invariant at <= |slots| && slots == old(slots) && headers == old(headers) && dirty == old(dirty)
        invariant forall q :: 0 <= q < at ==> !slots[q].Empty()
      {
        if slots[at].Empty() {
          LiveNone(slots);
          return true, at;
        }
        at := at + 1;
      }
      LiveNone(slots);
      found := AllocExtra();
      if found {
        GrowKeepsCompact(old(slots), BlankBucket());
        Extended(old(slots), slots);
        assert slots[at] == BlankBucket()[0];
      }
    }

    /** fill_the_hole: items of the last bucket move into the holes in front of
        it; a last bucket that has none left is freed instead. */
    method FillTheHole()
      requires Numbered() && Fillable(slots) && Single(slots)
      modifies this
      ensures Valid() && Contents() == old(Contents()) && dirty == old(dirty)
    {
      hide Single, MapOf, Means, Holes, Live;
      if headers[0].chainLength == 1 {
        OneBucket(slots);
        return;
      }
      var last := |slots| - PER_BUCKET;
      var toMove := last;
      ghost var m := MapOf(slots);
      MapOfMeans(slots);
      for i := 0 to last
        invariant Numbered() && |slots| == |old(slots)| == last + PER_BUCKET && dirty == old(dirty)
        invariant last <= toMove < |slots| && forall k :: last <= k < toMove ==> slots[k].Empty()
        invariant forall k :: 0 <= k < i ==> !slots[k].Empty()
        invariant Means(slots, m) && Fillable(slots)
      {
        if slots[i].Empty() {
          while slots[toMove].Empty()
            invariant last <= toMove < |slots| && forall k :: last <= k < toMove ==> slots[k].Empty()
            decreases |slots| - toMove
          {
            toMove := toMove + 1;
            if toMove == |slots| {
              Drained(slots, i, m);
              FreeExtra();
              return;
            }
          }
          MoveMeans(slots, m, i, toMove);
          MoveKeepsFillable(slots, i, toMove);
          slots := slots[i := slots[toMove]][toMove := slots[toMove].(key := [])];
        }
      }
      Filled(slots, m);
    }

    /** set_lock_cb: fails exactly when the key is new and the chain holds 127
        full buckets. */
    method SetItem(key: Key, value: Value) returns (ok: bool)
      requires Valid() && key != []
      modifies this
      ensures Valid() && Contents() == Step(old(Contents()), Set(key, value))
      ensures ok <==> key in old(Contents()) || |old(Contents())| < CAPACITY
      ensures dirty == (old(dirty) || ok)
    {
      hide Single, MapOf, Means, Compact, Live;
      ghost var m := Contents();
      MapOfMeans(slots);
      LiveIsSize(slots, m);
      var found, at := FindItemPlus(key);
      Located(slots, m, key, found, at);
      if found {
        dirty := true;
        UpdateKeepsCompact(slots, at, slots[at].(value := value));
        Written(slots, m, at, key, value);
        slots := slots[at := slots[at].(value := value)];
        ok := true;
      } else {
        ok, at := FindEmpty();
        if ok {
          dirty := true;
          MapOfMeans(slots);
          InsertKeepsCompact(slots, at, Item(key, value));
          Written(slots, m, at, key, value);
          slots := slots[at := Item(key, value)];
        }
      }
    }

    /** delete_lock_cb. */
    method DeleteItem(key: Key) returns (ok: bool)
      requires Valid() && key != []
      modifies this
      ensures Valid() && Contents() == Step(old(Contents()), Delete(key))
      ensures ok <==> key in old(Contents())
      ensures dirty == (old(dirty) || ok)
    {
      hide Single, MapOf, Means, Compact, Fillable, Live;
      ghost var m := Contents();
      MapOfMeans(slots);
      var found, at := FindItemPlus(key);
      Located(slots, m, key, found, at);
      if !found {
        assert m - {key} == m;
        return false;
      }
      dirty := true;
      ClearMeans(slots, m, at);
      DeleteIsFillable(slots, at);
      slots := slots[at := slots[at].(key := [])];
      Meaning(slots, m - {key});
      FillTheHole();
      ok := true;
    }

    /** Any sequence of sets and deletes has the effect of the map operations. */
    method Perform(ops: seq<Op>)
      requires Valid() && forall i :: 0 <= i < |ops| ==> ops[i].key != []
      modifies this
      ensures Valid() && Contents() == Run(old(Contents()), ops)
      ensures |slots| >= PER_BUCKET ==> |Contents()| >= |slots| - PER_BUCKET
    {
      assert ops[..0] == [];
      for i := 0 to |ops|
        invariant Valid() && Contents() == Run(old(Contents()), ops[..i])
      {
        assert ops[..i + 1][..i] == ops[..i];
        match ops[i] {
          case Set(k, v) => var _ := SetItem(k, v);
          case Delete(k) => var _ := DeleteItem(k);
        }
      }
      assert ops[..|ops|] == ops;
      MapOfMeans(slots);
      LiveIsSize(slots, Contents());
      if |slots| >= PER_BUCKET { CompactIsDense(slots); }
    }
  }

  lemma Extended(s: seq<Item>, t: seq<Item>)
    requires Single(s) && t == s + BlankBucket()
    ensures Single(t) && MapOf(t) == MapOf(s)
  {
    MapOfMeans(s);
    assert t[..|s|] == s;
    TailMeans(t, |s|, MapOf(s));
    MeansIsMapOf(t, MapOf(s));
  }

  lemma OneBucket(s: seq<Item>)
    requires |s| == PER_BUCKET
    ensures Compact(s)
  {
  }

  lemma Meaning(s: seq<Item>, m: map<Key, Value>)
    requires Means(s, m)
    ensures Single(s) && MapOf(s) == m
  {
  }

  /** The last bucket is empty while there is a hole at `i`: it is the only one. */
  lemma Drained(s: seq<Item>, i: nat, m: map<Key, Value>)
    requires |s| >= 2 * PER_BUCKET && Fillable(s) && Means(s, m)
    requires i < |s| - PER_BUCKET && s[i].Empty() && forall k :: 0 <= k < i ==> !s[k].Empty()
    requires forall k :: |s| - PER_BUCKET <= k < |s| ==> s[k].Empty()
    ensures var t := s[..|s| - PER_BUCKET]; Compact(t) && Single(t) && MapOf(t) == m
  {
    hide Single, Means, MapOf;
    var t := s[..|s| - PER_BUCKET];
    LiveNone(LastBucket(s));
    assert Holes(t) <= 1;
    SplitCounts(t);
    TailMeans(s, |t|, m);
    Meaning(t, m);
  }

  lemma MoveKeepsFillable(s: seq<Item>, to: nat, from: nat)
    requires Fillable(s) && to < |s| - PER_BUCKET <= from < |s| && s[to].Empty() && !s[from].Empty()
    ensures Fillable(s[to := s[from]][from := s[from].(key := [])])
  {
    hide Live;
    var t := s[to := s[from]];
    SplitReplaced(s, to, s[from]);
    SplitReplaced(t, from, s[from].(key := []));
    SplitCounts(s);
    SplitCounts(t);
  }

  lemma Filled(s: seq<Item>, m: map<Key, Value>)
    requires |s| >= PER_BUCKET && Means(s, m) && forall k :: 0 <= k < |s| - PER_BUCKET ==> !s[k].Empty()
    ensures Compact(s) && Single(s) && MapOf(s) == m
  {
    hide Single, Means, MapOf;
    LiveNone(Before(s));
    Meaning(s, m);
  }

  lemma Located(s: seq<Item>, m: map<Key, Value>, key: Key, found: bool, at: nat)
    requires Means(s, m) && key != []
    requires found ==> at < |s| && s[at].key == key
    requires !found ==> forall i :: 0 <= i < |s| ==> s[i].key != key
    ensures found <==> key in m
  {
  }

  lemma Written(s: seq<Item>, m: map<Key, Value>, at: nat, key: Key, value: Value)
    requires Means(s, m) && at < |s| && key != []
    requires s[at].key == key || (s[at].Empty() && key !in m)
    ensures var t := s[at := Item(key, value)]; Single(t) && MapOf(t) == m[key := value]
  {
    hide Single, Means, MapOf;
    WriteMeans(s, m, at, key, value);
    Meaning(s[at := Item(key, value)], m[key := value]);
  }
}
