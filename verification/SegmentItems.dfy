/** The item slots of a bucket chain: what they mean as a map, how many are in
    use, and the shape that set and delete keep. */
module SegmentItems {

  type Key = seq<bv8>
  const PER_BUCKET: nat := 16
  const MAX_CHAIN: nat := 0x7F

  datatype Value = Value(length: nat, offset: nat)

  /** A slot is empty when its key length is zero. */
  datatype Item = Item(key: Key, value: Value) {
    predicate Empty() { key == [] }
  }

  const BLANK: Item := Item([], Value(0, 0))

  function BlankBucket(): (r: seq<Item>)
    ensures |r| == PER_BUCKET && forall i :: 0 <= i < |r| ==> r[i].Empty()
  {
    seq(PER_BUCKET, _ => BLANK)
  }

  // ------------------------------------------------------ as a map

  /** No key is in two slots. */
  ghost predicate Single(s: seq<Item>) {
    forall i, j :: 0 <= i < j < |s| && !s[i].Empty() ==> s[i].key != s[j].key
  }

  /** The slots hold the entries of `m`, each in exactly one slot, and no more. */
  ghost predicate Means(s: seq<Item>, m: map<Key, Value>) {
    && Single(s)
    && (forall i :: 0 <= i < |s| && !s[i].Empty() ==> s[i].key in m && m[s[i].key] == s[i].value)
    && (forall k :: k in m ==> k != [] && exists i :: 0 <= i < |s| && s[i].key == k)
  }

  ghost function Keys(s: seq<Item>): set<Key> {
    set i | 0 <= i < |s| && !s[i].Empty() :: s[i].key
  }

  ghost function Where(s: seq<Item>, k: Key): (i: nat)
    requires k in Keys(s)
    ensures i < |s| && s[i].key == k && !s[i].Empty()
  {
    var i :| 0 <= i < |s| && s[i].key == k && !s[i].Empty();
    i
  }

  ghost function MapOf(s: seq<Item>): map<Key, Value> {
    map k | k in Keys(s) :: s[Where(s, k)].value
  }

  lemma MapOfMeans(s: seq<Item>)
    requires Single(s)
    ensures Means(s, MapOf(s))
  {
  }

  lemma MeansIsMapOf(s: seq<Item>, m: map<Key, Value>)
    requires Means(s, m)
    ensures m == MapOf(s)
  {
  }

  /** Writing an entry into its own slot, or a new one into an empty slot. */
  lemma WriteMeans(s: seq<Item>, m: map<Key, Value>, p: nat, k: Key, v: Value)
    requires Means(s, m) && p < |s| && k != []
    requires s[p].key == k || (s[p].Empty() && k !in m)
    ensures Means(s[p := Item(k, v)], m[k := v])
  {
    var t, w := s[p := Item(k, v)], m[k := v];
    assert forall i :: 0 <= i < |s| && i != p ==> t[i] == s[i] && s[i].key != k;
    forall q | q in w
      ensures q != [] && exists i :: 0 <= i < |t| && t[i].key == q
    {
      if q == k {
        assert t[p].key == k;
      } else {
        var i :| 0 <= i < |s| && s[i].key == q;
        assert t[i].key == q;
      }
    }
  }

  lemma ClearMeans(s: seq<Item>, m: map<Key, Value>, p: nat)
    requires Means(s, m) && p < |s| && !s[p].Empty()
    ensures Means(s[p := s[p].(key := [])], m - {s[p].key})
  {
    var t := s[p := s[p].(key := [])];
    forall q | q in m - {s[p].key}
      ensures q != [] && exists i :: 0 <= i < |t| && t[i].key == q
    {
      var i :| 0 <= i < |s| && s[i].key == q;
      assert t[i].key == q;
    }
  }

  /** Moving an item into a hole changes nothing. */
  lemma MoveMeans(s: seq<Item>, m: map<Key, Value>, to: nat, from: nat)
    requires Means(s, m) && to < |s| && from < |s| && s[to].Empty() && !s[from].Empty()
    ensures Means(s[to := s[from]][from := s[from].(key := [])], m)
  {
    var t := s[to := s[from]][from := s[from].(key := [])];
    forall i, j | 0 <= i < j < |t| && !t[i].Empty()
      ensures t[i].key != t[j].key
    {
      assert t[i] == if i == to then s[from] else s[i];
      assert j == from || t[j] == if j == to then s[from] else s[j];
    }
    forall q | q in m
      ensures q != [] && exists i :: 0 <= i < |t| && t[i].key == q
    {
      var i :| 0 <= i < |s| && s[i].key == q;
      assert t[if i == from then to else i].key == q;
    }
  }

  /** Empty slots at the end mean nothing. */
  lemma TailMeans(s: seq<Item>, n: nat, m: map<Key, Value>)
    requires n <= |s| && forall i :: n <= i < |s| ==> s[i].Empty()
    ensures Means(s, m) <==> Means(s[..n], m)
  {
  }

  // --------------------------------------------------------- counts

  function Live(s: seq<Item>): (n: nat)
    ensures n <= |s|
  {
    if s == [] then 0 else (if s[|s| - 1].Empty() then 0 else 1) + Live(s[..|s| - 1])
  }

  function Holes(s: seq<Item>): nat { |s| - Live(s) }

  function Used(i: Item): nat { if i.Empty() then 0 else 1 }

  lemma {:induction false} LiveReplaced(s: seq<Item>, p: nat, i: Item)
    requires p < |s|
    ensures Live(s[p := i]) + Used(s[p]) == Live(s) + Used(i)
  {
    var n, t := |s| - 1, s[p := i];
    if p == n {
      assert t[..n] == s[..n];
    } else {
      assert t[..n] == s[..n][p := i];
      LiveReplaced(s[..n], p, i);
    }
  }

  lemma {:induction false} LiveAppend(s: seq<Item>, t: seq<Item>)
    ensures Live(s + t) == Live(s) + Live(t)
  {
    if t == [] {
      assert s + t == s;
    } else {
      assert (s + t)[..|s + t| - 1] == s + t[..|t| - 1];
      LiveAppend(s, t[..|t| - 1]);
    }
  }

  lemma {:induction false} LiveNone(s: seq<Item>)
    ensures Live(s) == 0 <==> forall i :: 0 <= i < |s| ==> s[i].Empty()
    ensures Live(s) == |s| <==> forall i :: 0 <= i < |s| ==> !s[i].Empty()
  {
    if s != [] {
      var n := |s| - 1;
      LiveNone(s[..n]);
      assert forall i :: 0 <= i < n ==> s[..n][i] == s[i];
      assert forall i :: 0 <= i < |s| ==> i == n || s[i] == s[..n][i];
    }
  }

  /** Every entry occupies one slot. */
  lemma {:induction false} LiveIsSize(s: seq<Item>, m: map<Key, Value>)
    requires Means(s, m)
    ensures Live(s) == |m|
  {
    if s == [] {
      assert m == map[];
    } else {
      var n := |s| - 1;
      var t := s[n := s[n].(key := [])];
      assert t[..n] == s[..n];
      if s[n].Empty() {
        TailMeans(s, n, m);
        LiveIsSize(s[..n], m);
      } else {
        var k := s[n].key;
        ClearMeans(s, m, n);
        TailMeans(t, n, m - {k});
        LiveIsSize(s[..n], m - {k});
        assert m.Keys == (m - {k}).Keys + {k};
        assert |m.Keys| == |(m - {k}).Keys| + 1;
      }
    }
  }

  // ---------------------------------------------------------- shape

  /** The slots of all buckets but the last, and those of the last. */
  function Before(s: seq<Item>): seq<Item>
    requires |s| >= PER_BUCKET
  {
    s[..|s| - PER_BUCKET]
  }

  function LastBucket(s: seq<Item>): seq<Item>
    requires |s| >= PER_BUCKET
  {
    s[|s| - PER_BUCKET..]
  }

  /** No hole outside the last bucket, or exactly one and the last bucket full. */
  ghost predicate Compact(s: seq<Item>) {
    |s| >= PER_BUCKET ==>
      Holes(Before(s)) == 0 || (Holes(Before(s)) == 1 && Holes(LastBucket(s)) == 0)
  }

  /** What delete leaves for fill_the_hole: the last bucket can fill all holes
      in front of it, or there is at most one. */
  ghost predicate Fillable(s: seq<Item>) {
    |s| >= PER_BUCKET && (Holes(Before(s)) <= 1 || Holes(Before(s)) <= Live(LastBucket(s)))
  }

  lemma SplitCounts(s: seq<Item>)
    requires |s| >= PER_BUCKET
    ensures Live(s) == Live(Before(s)) + Live(LastBucket(s))
    ensures |Before(s)| == |s| - PER_BUCKET && |LastBucket(s)| == PER_BUCKET
  {
    assert s == Before(s) + LastBucket(s);
    LiveAppend(Before(s), LastBucket(s));
  }

  /** A chain is never longer than its items need: all its buckets but one
      could be full. */
  lemma CompactIsDense(s: seq<Item>)
    requires Compact(s) && |s| >= PER_BUCKET
    ensures Live(s) >= |s| - PER_BUCKET
  {
    SplitCounts(s);
  }

  /** A slot changed in one of the two parts. */
  lemma SplitReplaced(s: seq<Item>, p: nat, i: Item)
    requires |s| >= PER_BUCKET && p < |s|
    ensures var t := s[p := i]; var n := |s| - PER_BUCKET;
      if p < n then
        LastBucket(t) == LastBucket(s) && Live(Before(t)) + Used(s[p]) == Live(Before(s)) + Used(i)
      else
        Before(t) == Before(s) && Live(LastBucket(t)) + Used(s[p]) == Live(LastBucket(s)) + Used(i)
  {
    var t, n := s[p := i], |s| - PER_BUCKET;
    if p < n {
      assert Before(t) == Before(s)[p := i] && LastBucket(t) == LastBucket(s);
      LiveReplaced(Before(s), p, i);
    } else {
      assert LastBucket(t) == LastBucket(s)[p - n := i] && Before(t) == Before(s);
      LiveReplaced(LastBucket(s), p - n, i);
    }
  }

  lemma UpdateKeepsCompact(s: seq<Item>, p: nat, i: Item)
    requires Compact(s) && p < |s| && !s[p].Empty() && !i.Empty()
    ensures Compact(s[p := i])
  {
    if |s| >= PER_BUCKET { SplitReplaced(s, p, i); }
  }

  /** Using the first hole keeps the shape. */
  lemma InsertKeepsCompact(s: seq<Item>, p: nat, i: Item)
    requires Compact(s) && p < |s| && s[p].Empty() && (forall q :: 0 <= q < p ==> !s[q].Empty()) && !i.Empty()
    ensures Compact(s[p := i])
  {
    if |s| >= PER_BUCKET {
      SplitReplaced(s, p, i);
      if p >= |s| - PER_BUCKET {
        LiveNone(Before(s));
      }
    }
  }

  /** A new bucket is put behind full ones only. */
  lemma GrowKeepsCompact(s: seq<Item>, extra: seq<Item>)
    requires (forall q :: 0 <= q < |s| ==> !s[q].Empty()) && |extra| == PER_BUCKET
    ensures Compact(s + extra)
  {
    LiveNone(s);
    assert Before(s + extra) == s;
  }

  lemma DeleteIsFillable(s: seq<Item>, p: nat)
    requires Compact(s) && PER_BUCKET <= |s| && p < |s| && !s[p].Empty()
    ensures Fillable(s[p := s[p].(key := [])])
  {
    SplitReplaced(s, p, s[p].(key := []));
    SplitCounts(s);
  }
}
