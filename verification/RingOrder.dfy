/** The consistent-hashing ring of spdk/app/leed/kv_ring.c: 64-bit wrap-around
    order on virtual node ids, key lookup, insertion and removal.  A ring is the
    circular vnode list read from its head; nothing requires its head to be the
    numerically smallest vnode. */
module RingOrder {
  import opened SeqOps

  const TWO64: int := 0x1_0000_0000_0000_0000

  type U64 = x: int | 0 <= x < TWO64

  datatype VnodeState = Joining | Running | Leaving

  /** `node` names the server that owns the vnode; `cp` and `rm` are cp_cnt and rm_cnt. */
  datatype Vnode = Vnode(vid: U64, node: nat, ds: nat, state: VnodeState, cp: nat, rm: nat)

  type Ring = seq<Vnode>

  const TWO32: int := 0x1_0000_0000

  /** Increment and decrement of an unsigned 32-bit counter. */
  function Inc32(x: nat): nat {
    (x + 1) % TWO32
  }

  function Dec32(x: nat): nat {
    if x == 0 then TWO32 - 1 else x - 1
  }

  /** Unsigned 64-bit subtraction. */
  function Sub(a: U64, b: U64): U64 {
    if a >= b then a - b else a - b + TWO64
  }

  /** Unsigned 64-bit increment. */
  function Inc(a: U64): U64 {
    if a == TWO64 - 1 then 0 else a + 1
  }

  /** Distance of `v` from the position just after the last vnode of the list. */
  function Dist(r: Ring, v: U64): U64
    requires r != []
  {
    Sub(v, Inc(r[|r| - 1].vid))
  }

  /** The list runs once around the ring, clockwise, ending at its last vnode. */
  ghost predicate Sorted(r: Ring) {
    forall i, j :: 0 <= i < j < |r| ==> Dist(r, r[i].vid) < Dist(r, r[j].vid)
  }

  /** `k` lies on the arc from just after `a` up to and including `b`; the whole
      ring when `a == b`. */
  predicate OnArc(a: U64, k: U64, b: U64) {
    Sub(k, Inc(a)) <= Sub(b, Inc(a))
  }

  function Prev(r: Ring, i: nat): nat
    requires i < |r|
  {
    if i == 0 then |r| - 1 else i - 1
  }

  /** Vnode `i` owns `key`: the key is on the arc that ends at the vnode and
      starts after its predecessor. */
  predicate Owns(r: Ring, i: nat, key: U64)
    requires i < |r|
  {
    OnArc(r[Prev(r, i)].vid, key, r[i].vid)
  }

  /** Index of the first vnode at least as far as `key`, from position `i` on. */
  function FindFrom(r: Ring, key: U64, i: nat): (x: nat)
    requires i < |r|
    ensures i <= x < |r|
    ensures Dist(r, r[x].vid) >= Dist(r, key)
    ensures forall j :: i <= j < x ==> Dist(r, r[j].vid) < Dist(r, key)
    decreases |r| - i
  {
    if Dist(r, r[i].vid) >= Dist(r, key) || i + 1 == |r| then i else FindFrom(r, key, i + 1)
  }

  function Find(r: Ring, key: U64): nat
    requires r != []
  {
    FindFrom(r, key, 0)
  }

  /** find_vid_entry: the list walk of the source.  It never falls off the end of
      a non-empty list, whatever the order of its vnodes. */
  method FindVidEntry(r: Ring, key: U64) returns (x: nat)
    requires r != []
    ensures x < |r| && x == Find(r, key)
  {
    var base := Inc(r[|r| - 1].vid);
    var d := Sub(key, base);
    x := 0;
    while x < |r| && Sub(r[x].vid, base) < d
      invariant x < |r|
      invariant Find(r, key) == FindFrom(r, key, x)
    {
      x := x + 1;
    }
  }

  /** find_vid_by_node: the first vnode of a server, or |r|. */
  function ByNode(r: Ring, node: nat): (x: nat)
    ensures x <= |r|
    ensures x < |r| ==> r[x].node == node
    ensures forall j :: 0 <= j < x ==> r[j].node != node
  {
    if r == [] then 0
    else if r[0].node == node then 0
    else 1 + ByNode(r[1..], node)
  }

  // ----- ownership -----

  /** Lookup finds the owner of the key, and no other vnode owns it. */
  lemma FindIsTheOwner(r: Ring, key: U64)
    requires r != [] && Sorted(r)
    ensures Owns(r, Find(r, key), key)
    ensures forall i :: 0 <= i < |r| && Owns(r, i, key) ==> i == Find(r, key)
  {
    var f := Find(r, key);
    forall i | 0 <= i < |r|
      ensures Owns(r, i, key) <==> i == f
    {
      if i == 0 {
        assert Owns(r, 0, key) <==> Dist(r, key) <= Dist(r, r[0].vid);
        if f > 0 { assert Dist(r, r[0].vid) < Dist(r, key); }
      } else {
        assert Dist(r, r[i - 1].vid) < Dist(r, r[i].vid);
        assert Owns(r, i, key) <==> Dist(r, r[i - 1].vid) < Dist(r, key) <= Dist(r, r[i].vid);
        if i < f {
          assert Dist(r, r[i].vid) < Dist(r, key);
        } else if i > f {
          assert i - 1 == f || Dist(r, r[f].vid) < Dist(r, r[i - 1].vid);
        } else {
          assert Dist(r, r[f - 1].vid) < Dist(r, key);
        }
      }
    }
  }

  // ----- the ring seen from a key -----

  /** The circular list read from position `b`. */
  function Rotate(r: Ring, b: nat): Ring
    requires b < |r|
  {
    r[b..] + r[..b]
  }

  /** The vnodes in the order a clockwise walk from `key` meets them. */
  function View(r: Ring, key: U64): Ring
    requires r != []
  {
    Rotate(r, Find(r, key))
  }

  ghost predicate Clockwise(s: Ring, key: U64) {
    forall i, j :: 0 <= i < j < |s| ==> Sub(s[i].vid, key) < Sub(s[j].vid, key)
  }

  lemma DistFromKey(r: Ring, key: U64, v: U64)
    requires r != []
    ensures Dist(r, v) >= Dist(r, key) ==> Sub(v, key) == Dist(r, v) - Dist(r, key)
    ensures Dist(r, v) < Dist(r, key) ==> Sub(v, key) == Dist(r, v) - Dist(r, key) + TWO64
  {
  }

  /** A view is the clockwise order itself, independent of where the list starts. */
  lemma ViewIsClockwise(r: Ring, key: U64)
    requires r != [] && Sorted(r)
    ensures Clockwise(View(r, key), key)
  {
    var b := Find(r, key);
    var s := View(r, key);
    forall i, j | 0 <= i < j < |s|
      ensures Sub(s[i].vid, key) < Sub(s[j].vid, key)
    {
      var i', j' := if i < |r| - b then i + b else i + b - |r|, if j < |r| - b then j + b else j + b - |r|;
      assert s[i] == r[i'] && s[j] == r[j'];
      DistFromKey(r, key, r[i'].vid);
      DistFromKey(r, key, r[j'].vid);
      assert i' >= b ==> i' == b || Dist(r, r[b].vid) < Dist(r, r[i'].vid);
      assert j' >= b ==> j' == b || Dist(r, r[b].vid) < Dist(r, r[j'].vid);
      assert i' < j' ==> Dist(r, r[i'].vid) < Dist(r, r[j'].vid);
    }
  }

  lemma ViewElements(r: Ring, key: U64, x: Vnode)
    requires r != []
    ensures x in View(r, key) <==> x in r
  {
  }

  lemma ClockwiseDistinct(s: Ring, key: U64, i: nat, j: nat)
    requires Clockwise(s, key) && i < |s| && j < |s|
    ensures s[i] == s[j] <==> i == j
  {
  }

  /** The vnode that a clockwise sequence meets first is the nearest of them all. */
  lemma FirstIsNearest(s: Ring, key: U64, x: Vnode)
    requires Clockwise(s, key) && x in s
    ensures Sub(s[0].vid, key) <= Sub(x.vid, key)
    ensures x in s[1..] <==> x != s[0]
  {
  }

  /** Two clockwise sequences with the same vnodes are the same sequence. */
  lemma {:induction false} ClockwiseUnique(s: Ring, t: Ring, key: U64)
    requires Clockwise(s, key) && Clockwise(t, key)
    requires forall x :: x in s <==> x in t
    ensures s == t
  {
    assert s == [] <==> t == [] by {
      assert s != [] ==> s[0] in t;
      assert t != [] ==> t[0] in s;
    }
    if s != [] {
      FirstIsNearest(s, key, t[0]);
      FirstIsNearest(t, key, s[0]);
      var i :| 0 <= i < |t| && t[i] == s[0];
      assert s[0] == t[0] by {
        assert Sub(s[0].vid, key) == Sub(t[0].vid, key);
        if i > 0 { assert Sub(t[0].vid, key) < Sub(t[i].vid, key); }
      }
      forall x
        ensures x in s[1..] <==> x in t[1..]
      {
        if x in s { FirstIsNearest(s, key, x); FirstIsNearest(t, key, x); }
      }
      ClockwiseUnique(s[1..], t[1..], key);
      assert s == [s[0]] + s[1..] && t == [t[0]] + t[1..];
    }
  }

  lemma WithoutClockwise(s: Ring, p: nat, key: U64)
    requires p < |s| && Clockwise(s, key)
    ensures Clockwise(Without(s, p), key)
  {
  }

  lemma WithoutElement(s: Ring, p: nat, key: U64, y: Vnode)
    requires p < |s| && Clockwise(s, key)
    ensures y in Without(s, p) <==> y in s && y != s[p]
  {
  }

  /** A clockwise sequence with one vnode more differs from the other at one place. */
  lemma OneApart(small: Ring, big: Ring, key: U64, x: Vnode) returns (p: nat)
    requires Clockwise(small, key) && Clockwise(big, key)
    requires x !in small
    requires forall y :: y in big <==> y == x || y in small
    ensures p < |big| && big[p] == x && Without(big, p) == small
  {
    assert x in big;
    p :| 0 <= p < |big| && big[p] == x;
    WithoutClockwise(big, p, key);
    forall y
      ensures y in Without(big, p) <==> y in small
    {
      WithoutElement(big, p, key, y);
    }
    ClockwiseUnique(Without(big, p), small, key);
  }

  // ----- insertion and removal -----

  /** vnode_create: the new vnode goes in front of the current owner of its id. */
  function Insert(r: Ring, x: Vnode): Ring {
    if r == [] then [x]
    else var i := Find(r, x.vid); r[..i] + [x] + r[i..]
  }

  /** vnode_delete. */
  function Delete(r: Ring, i: nat): Ring
    requires i < |r|
  {
    r[..i] + r[i + 1..]
  }

  ghost predicate Fresh(r: Ring, v: U64) {
    forall i :: 0 <= i < |r| ==> r[i].vid != v
  }

  lemma InsertSorted(r: Ring, x: Vnode)
    requires Sorted(r) && Fresh(r, x.vid)
    ensures Sorted(Insert(r, x))
    ensures r != [] ==> Insert(r, x)[|r|] == r[|r| - 1]
  {
    if r != [] {
      var r' := Insert(r, x);
      assert r'[|r'| - 1] == r[|r| - 1];
      forall i, j | 0 <= i < j < |r'|
        ensures Dist(r', r'[i].vid) < Dist(r', r'[j].vid)
      {
        InsertedOrder(r, x, i, j);
      }
    }
  }

  lemma InsertedOrder(r: Ring, x: Vnode, i: nat, j: nat)
    requires r != [] && Sorted(r) && Fresh(r, x.vid) && i < j <= |r|
    ensures var r' := Insert(r, x); Dist(r, r'[i].vid) < Dist(r, r'[j].vid)
  {
    hide Dist;
    var f, r' := Find(r, x.vid), Insert(r, x);
    if j < f {
      assert r'[i] == r[i] && r'[j] == r[j];
    } else if j == f {
      assert r'[i] == r[i] && r'[j] == x;
    } else if i < f {
      assert r'[i] == r[i] && r'[j] == r[j - 1];
    } else if i == f {
      assert r'[i] == x && r'[j] == r[j - 1];
      DistInjective(r, x.vid, r[f].vid);
      assert j - 1 == f || Dist(r, r[f].vid) < Dist(r, r[j - 1].vid);
    } else {
      assert r'[i] == r[i - 1] && r'[j] == r[j - 1];
    }
  }

  lemma DistInjective(r: Ring, a: U64, b: U64)
    requires r != [] && a != b
    ensures Dist(r, a) != Dist(r, b)
  {
  }

  lemma DeleteSorted(r: Ring, i: nat)
    requires Sorted(r) && i < |r|
    ensures Sorted(Delete(r, i))
  {
    var r' := Delete(r, i);
    forall a, b | 0 <= a < b < |r'|
      ensures Dist(r', r'[a].vid) < Dist(r', r'[b].vid)
    {
      var a', b' := if a < i then a else a + 1, if b < i then b else b + 1;
      assert r'[a] == r[a'] && r'[b] == r[b'];
      assert Dist(r, r[a'].vid) < Dist(r, r[b'].vid);
      if i == |r| - 1 {
        var l := |r| - 2;
        assert r'[|r'| - 1] == r[l];
        assert b' == l || Dist(r, r[b'].vid) < Dist(r, r[l].vid);
        assert Dist(r, r[l].vid) < Dist(r, r[i].vid);
      }
    }
  }

  lemma SortedFresh(r: Ring, i: nat, j: nat)
    requires Sorted(r) && i < |r| && j < |r| && i != j
    ensures r[i].vid != r[j].vid
  {
  }

  lemma InsertElements(r: Ring, x: Vnode, y: Vnode)
    ensures y in Insert(r, x) <==> y == x || y in r
  {
  }

  lemma DeleteElements(r: Ring, i: nat, y: Vnode)
    requires Sorted(r) && i < |r|
    ensures y in Delete(r, i) <==> y in r && y != r[i]
  {
  }

  /** Seen from any key, insertion puts the new vnode at one place and moves
      nothing else. */
  lemma InsertView(r: Ring, x: Vnode, key: U64) returns (p: nat)
    requires r != [] && Sorted(r) && Fresh(r, x.vid)
    ensures var v' := View(Insert(r, x), key);
            p < |v'| && v'[p] == x && Without(v', p) == View(r, key)
    ensures p == 0 <==> View(Insert(r, x), key)[0] == x
  {
    var r' := Insert(r, x);
    var v, v' := View(r, key), View(r', key);
    InsertSorted(r, x);
    ViewIsClockwise(r, key);
    ViewIsClockwise(r', key);
    forall y
      ensures y in v' <==> y == x || y in v
    {
      ViewElements(r, key, y);
      ViewElements(r', key, y);
      InsertElements(r, x, y);
    }
    ViewElements(r, key, x);
    p := OneApart(v, v', key, x);
    ClockwiseDistinct(v', key, 0, p);
  }

  lemma InsertNeighbours(r: Ring, x: Vnode)
    requires r != []
    ensures var r', f := Insert(r, x), Find(r, x.vid);
            f < |r'| && r'[f] == x && r'[Prev(r', f)] == r[Prev(r, f)]
  {
  }

  /** The new vnode owns exactly the arc from its predecessor. */
  lemma InsertedOwns(r: Ring, x: Vnode, key: U64)
    requires r != [] && Sorted(r) && Fresh(r, x.vid)
    ensures var r' := Insert(r, x);
            r'[Find(r', key)] == x <==> OnArc(r[Prev(r, Find(r, x.vid))].vid, key, x.vid)
  {
    var r', f := Insert(r, x), Find(r, x.vid);
    InsertSorted(r, x);
    InsertNeighbours(r, x);
    FindIsTheOwner(r', key);
    var g := Find(r', key);
    assert Owns(r', f, key) <==> f == g;
    if g != f { SortedFresh(r', f, g); }
  }

  /** Seen from any key, removal takes one vnode out and moves nothing else. */
  lemma DeleteView(r: Ring, i: nat, key: U64) returns (p: nat)
    requires |r| > 1 && Sorted(r) && i < |r|
    ensures var v := View(r, key);
            p < |v| && v[p] == r[i] && Without(v, p) == View(Delete(r, i), key)
  {
    var r' := Delete(r, i);
    var v, v' := View(r, key), View(r', key);
    DeleteSorted(r, i);
    ViewIsClockwise(r, key);
    ViewIsClockwise(r', key);
    forall y
      ensures y in v' <==> y in v && y != r[i]
    {
      ViewElements(r, key, y);
      ViewElements(r', key, y);
      DeleteElements(r, i, y);
    }
    ViewElements(r, key, r[i]);
    p := OneApart(v', v, key, r[i]);
  }

  /** A join changes the owner only of the keys between the new vnode and its
      predecessor, and gives those to the new vnode. */
  lemma JoinMovesOnlyItsArc(r: Ring, x: Vnode, key: U64)
    requires r != [] && Sorted(r) && Fresh(r, x.vid)
    ensures var r' := Insert(r, x);
            var moved := OnArc(r[Prev(r, Find(r, x.vid))].vid, key, x.vid);
            r'[Find(r', key)] == if moved then x else r[Find(r, key)]
  {
    var p := InsertView(r, x, key);
    var r' := Insert(r, x);
    InsertedOwns(r, x, key);
    assert View(r', key)[0] == r'[Find(r', key)];
    assert View(r, key)[0] == r[Find(r, key)];
  }

  /** A removal changes the owner only of the keys the removed vnode owned, and
      gives those to its successor. */
  lemma LeaveMovesOnlyItsArc(r: Ring, i: nat, key: U64)
    requires |r| > 1 && Sorted(r) && i < |r|
    ensures var r' := Delete(r, i);
            r'[Find(r', key)] ==
            if Owns(r, i, key) then r[if i + 1 == |r| then 0 else i + 1] else r[Find(r, key)]
  {
    var p := DeleteView(r, i, key);
    var r' := Delete(r, i);
    var v := View(r, key);
    FindIsTheOwner(r, key);
    assert View(r', key)[0] == r'[Find(r', key)];
    assert v[0] == r[Find(r, key)];
    var f := Find(r, key);
    if Owns(r, i, key) {
      assert i == f && v[0] == r[i] && v[1] == r[if i + 1 == |r| then 0 else i + 1];
      ViewIsClockwise(r, key);
      ClockwiseDistinct(v, key, 0, p);
    } else {
      if p == 0 { SortedFresh(r, i, f); }
    }
  }
}
