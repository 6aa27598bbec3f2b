/** What the counters of a vnode count, over whole histories of membership events
    (spdk/app/leed/kv_ring.c:481-491, 560-617): a vnode joins until all servers that
    copy to it are done, and goes when all that copy from it are. */
module RingCounts {
  import opened SeqOps
  import opened RingOrder
  import opened RingUpdate
  import opened RingSteps
  import E = RingEpoch

  ghost predicate OnePerNode(r: Ring) {
    forall i, j :: 0 <= i < j < |r| ==> r[i].node != r[j].node
  }

  function VnodeOf(r: Ring, node: nat): Option<Vnode> {
    var i := ByNode(r, node);
    if i < |r| then Some(r[i]) else None
  }

  // ----- one event -----

  lemma VnodeOfReplaced(r: Ring, i: nat, y: Vnode, m: nat)
    requires i < |r| && y.node == r[i].node && OnePerNode(r)
    ensures OnePerNode(r[i := y])
    ensures VnodeOf(r[i := y], m) == if m == y.node then Some(y) else VnodeOf(r, m)
  {
    var s := r[i := y];
    assert forall k :: 0 <= k < |r| ==> s[k].node == r[k].node;
    assert m == y.node ==> s[i].node == m;
  }

  /** The vnode of a node is the one in the list with its name. */
  lemma VnodeIs(r: Ring, m: nat)
    requires OnePerNode(r)
    ensures forall x :: x in r && x.node == m ==> VnodeOf(r, m) == Some(x)
    ensures (forall x :: x in r ==> x.node != m) ==> VnodeOf(r, m) == None
    ensures VnodeOf(r, m).Some? ==> VnodeOf(r, m).value in r && VnodeOf(r, m).value.node == m
  {
  }

  lemma SplicedNodes(r: Ring, f: nat, x: Vnode)
    requires f <= |r| && OnePerNode(r) && forall k :: 0 <= k < |r| ==> r[k].node != x.node
    ensures OnePerNode(Splice(r, f, x))
  {
    hide Splice;
    var s := Splice(r, f, x);
    assert |s| == |r| + 1 by { SpliceSize(r, f, x); }
    forall i, j | 0 <= i < j < |s|
      ensures s[i].node != s[j].node
    {
      SpliceAt(r, f, x, i);
      SpliceAt(r, f, x, j);
    }
  }

  lemma SpliceSize(r: Ring, f: nat, x: Vnode)
    requires f <= |r|
    ensures |Splice(r, f, x)| == |r| + 1
  {
  }

  lemma InsertedNodes(r: Ring, x: Vnode)
    requires OnePerNode(r) && ByNode(r, x.node) == |r|
    ensures OnePerNode(Insert(r, x))
  {
    var f := if r == [] then 0 else Find(r, x.vid);
    assert Insert(r, x) == Splice(r, f, x);
    SplicedNodes(r, f, x);
  }

  lemma VnodeOfInserted(r: Ring, x: Vnode, m: nat)
    requires OnePerNode(r) && ByNode(r, x.node) == |r|
    ensures OnePerNode(Insert(r, x))
    ensures VnodeOf(Insert(r, x), m) == if m == x.node then Some(x) else VnodeOf(r, m)
  {
    hide Insert, OnePerNode, VnodeOf;
    InsertedNodes(r, x);
    VnodeIs(r, m);
    VnodeIs(Insert(r, x), m);
    forall y: Vnode
      ensures y in Insert(r, x) <==> y == x || y in r
    {
      InsertElements(r, x, y);
    }
  }

  lemma VnodeOfDeleted(r: Ring, i: nat, m: nat)
    requires i < |r| && OnePerNode(r)
    ensures OnePerNode(Delete(r, i))
    ensures VnodeOf(Delete(r, i), m) == if m == r[i].node then None else VnodeOf(r, m)
  {
    var s := Delete(r, i);
    assert forall k :: 0 <= k < |s| ==> s[k] == if k < i then r[k] else r[k + 1];
    var p := ByNode(r, m);
    if m != r[i].node && p < |r| { assert s[if p < i then p else p - 1] == r[p]; }
  }

  /** The vnode of the node the event is about, afterwards. */
  function Result(e: Effect): Option<Vnode> {
    match e
    case Replaced(_, y) => Some(y)
    case Inserted(x) => Some(x)
    case Deleted(_) => None
  }

  /** An event changes the vnode of its own node and no other; a node never has two. */
  lemma ApplyAtNode(t: RingCopy, u: Update, m: nat)
    requires Apply(t, u).Some? && OnePerNode(t.ring)
    ensures var r := Apply(t, u).value.ring;
            && OnePerNode(r)
            && VnodeOf(r, m) == if m == u.node then Result(EffectOf(t.ring, u)) else VnodeOf(t.ring, m)
  {
    hide Apply, Insert, Delete, OnePerNode, ByNode, VnodeOf;
    ApplyIsEffect(t, u);
    EffectAtNode(t, u);
    match EffectOf(t.ring, u)
    case Replaced(i, y) => VnodeOfReplaced(t.ring, i, y, m);
    case Inserted(x) => VnodeOfInserted(t.ring, x, m);
    case Deleted(i) => VnodeOfDeleted(t.ring, i, m);
  }

  lemma EffectAtNode(t: RingCopy, u: Update)
    requires Apply(t, u).Some?
    ensures match EffectOf(t.ring, u)
            case Replaced(i, y) => i < |t.ring| && t.ring[i].node == u.node == y.node
            case Inserted(x) => x.node == u.node && ByNode(t.ring, u.node) == |t.ring|
            case Deleted(i) => i < |t.ring| && t.ring[i].node == u.node
  {
    hide Insert, Delete, ByNode;
  }

  /** A new version is opened exactly by the deletion that ends a join, the vnode
      running from now on, or that ends a departure, the vnode being gone. */
  lemma EpochGrowsIff(t: RingCopy, u: Update)
    requires Apply(t, u).Some? && OnePerNode(t.ring)
    ensures var t' := Apply(t, u).value;
            var a, b := VnodeOf(t.ring, u.node), VnodeOf(t'.ring, u.node);
            var ends := u.msg == Del && a.Some? &&
                        if b.Some? then a.value.state == Joining && b.value.state == Running
                        else a.value.state == Leaving && u.state == Leaving;
            t'.epoch == if ends then t.epoch + 1 else t.epoch
  {
    hide Insert, Delete, OnePerNode, ByNode;
    ApplyAtNode(t, u, u.node);
  }

  // ----- histories -----

  /** The vnode of node `m` after the events. */
  function VnodeAfter(us: seq<Update>, m: nat): Option<Vnode>
    requires E.RingAfter(us).Some?
  {
    VnodeOf(E.RingAfter(us).value.ring, m)
  }

  ghost predicate Accepted(us: seq<Update>) { E.RingAfter(us).Some? }

  lemma AcceptedBefore(us: seq<Update>)
    requires Accepted(us) && us != []
    ensures var n := |us| - 1;
            Accepted(us[..n]) && Apply(E.RingAfter(us[..n]).value, us[n]) == E.RingAfter(us)
  {
    hide Apply;
  }

  /** Servers that announced a copy to the vnode of `m`, less those that finished
      it, since the vnode came into the ring. */
  ghost function Copiers(us: seq<Update>, m: nat): int
    requires Accepted(us)
  {
    if us == [] || VnodeAfter(us, m).None? then 0
    else
      AcceptedBefore(us);
      var u := us[|us| - 1];
      Copiers(us[..|us| - 1], m)
        + if u.node == m && u.state == Joining then (if u.msg == Put then 1 else -1) else 0
  }

  /** One for the node itself, and servers that announced a copy from the vnode of
      `m`, less those that are done and the node's own end, since the vnode came. */
  ghost function Holders(us: seq<Update>, m: nat): int
    requires Accepted(us)
  {
    if us == [] || VnodeAfter(us, m).None? then 1
    else
      AcceptedBefore(us);
      var u := us[|us| - 1];
      Holders(us[..|us| - 1], m)
        + if u.node != m || u.state == Joining then 0
          else if u.msg == Del then -1
          else if u.state == Leaving then 1
          else 0
  }

  lemma Mod32(x: int)
    ensures Inc32(x % TWO32) == (x + 1) % TWO32 && Dec32(x % TWO32) == (x - 1) % TWO32
  {
  }

  /** The counters of a vnode are these numbers, in 32 bits. */
  lemma {:induction false} CountersCount(us: seq<Update>, m: nat)
    requires Accepted(us)
    ensures OnePerNode(E.RingAfter(us).value.ring)
    ensures var v := VnodeAfter(us, m);
            v.Some? ==> v.value.cp == Copiers(us, m) % TWO32 && v.value.rm == Holders(us, m) % TWO32
  {
    hide Apply, OnePerNode, ByNode, Inc32, Dec32;
    if us != [] {
      var n := |us| - 1;
      AcceptedBefore(us);
      CountersCount(us[..n], m);
      var t, u := E.RingAfter(us[..n]).value, us[n];
      ApplyAtNode(t, u, m);
      Mod32(Copiers(us[..n], m));
      Mod32(Holders(us[..n], m));
      if VnodeAfter(us[..n], m).None? {
        NewCounters(us[..n], m);
        if m == u.node { ApplyInserts(t, u); }
      }
    } else {
      NoVnodes();
    }
  }

  lemma NoVnodes()
    ensures OnePerNode([]) && forall m :: VnodeOf([], m) == None
  {
  }

  lemma NewCounters(us: seq<Update>, m: nat)
    requires Accepted(us) && VnodeAfter(us, m).None?
    ensures Copiers(us, m) == 0 && Holders(us, m) == 1
    ensures Inc32(0) == 1 && Inc32(1) == 2
  {
  }

  lemma StaysInStep(us: seq<Update>, m: nat)
    requires Accepted(us) && us != [] && |us| < TWO32 - 1
    requires var before := us[..|us| - 1]; Accepted(before) && InStep(before, m)
    ensures InStep(us, m)
  {
    hide Apply, OnePerNode, ByNode;
    var n := |us| - 1;
    AcceptedBefore(us);
    CountersCount(us[..n], m);
    var t, u := E.RingAfter(us[..n]).value, us[n];
    ApplyAtNode(t, u, m);
    if m == u.node {
      if VnodeAfter(us[..n], m).None? { ApplyInserts(t, u); } else { JoinDelNeedsJoining(t, u); }
    }
  }

  lemma JoinDelNeedsJoining(t: RingCopy, u: Update)
    requires Apply(t, u).Some? && VnodeOf(t.ring, u.node).Some?
    ensures u.state == Joining && u.msg == Del ==> VnodeOf(t.ring, u.node).value.state == Joining
  {
    hide ByNode, Insert, Delete;
  }

  /** Number and state of the copiers agree, and a vnode in the ring is held. */
  ghost predicate InStep(us: seq<Update>, m: nat)
    requires Accepted(us)
  {
    var v, c, h := VnodeAfter(us, m), Copiers(us, m), Holders(us, m);
    && 0 <= c <= |us| && 1 <= h <= |us| + 1
    && (v.Some? && v.value.state != Leaving ==> (v.value.state == Joining <==> c > 0))
  }

  /** A vnode that is not leaving joins exactly while copies to it are outstanding,
      and runs from the end of the last one on, as long as the 32-bit counters do not
      overflow. */
  lemma {:induction false} JoinsWhileCopied(us: seq<Update>, m: nat)
    requires Accepted(us) && |us| < TWO32 - 1
    ensures InStep(us, m)
  {
    hide Apply;
    if us != [] {
      AcceptedBefore(us);
      JoinsWhileCopied(us[..|us| - 1], m);
      StaysInStep(us, m);
    }
  }

  /** A vnode leaves the ring exactly with the last of its holders. */
  lemma GoesWithLastHolder(us: seq<Update>, u: Update)
    requires Accepted(us + [u]) && |us| < TWO32 - 1
    ensures Accepted(us)
    ensures VnodeAfter(us, u.node).Some? ==>
              (VnodeAfter(us + [u], u.node).None? <==> u.msg == Del && u.state != Joining && Holders(us, u.node) == 1)
    ensures VnodeAfter(us, u.node).None? ==> u.msg == Put && VnodeAfter(us + [u], u.node).Some?
  {
    hide Apply, OnePerNode, ByNode, E.RingAfter, Copiers, Holders, VnodeOf;
    assert (us + [u])[..|us|] == us;
    AcceptedBefore(us + [u]);
    CountersCount(us, u.node);
    JoinsWhileCopied(us, u.node);
    var t := E.RingAfter(us).value;
    ApplyAtNode(t, u, u.node);
    EffectOfNode(t.ring, u);
    if VnodeAfter(us, u.node).None? { ApplyInserts(t, u); }
  }

  lemma EffectOfNode(r: Ring, u: Update)
    ensures match VnodeOf(r, u.node)
            case None => EffectOf(r, u).Inserted?
            case Some(v) => EffectOf(r, u) == EffectOn(v, ByNode(r, u.node), u)
  {
  }

  /** Node `m` has had a vnode with this identity since event `k`, which put it in. */
  ghost predicate Since(us: seq<Update>, m: nat, k: nat, v: Vnode) {
    && k < |us| && us[k].msg == Put && us[k].node == m && us[k].vid == v.vid && us[k].ds == v.ds
    && forall i :: k < i <= |us| ==>
         && Accepted(us[..i])
         && VnodeAfter(us[..i], m).Some? && VnodeAfter(us[..i], m).value.vid == v.vid
  }

  /** A vnode in the ring has the id and the data store of the event that put it in,
      and its node has had it ever since. */
  lemma {:induction false} BornWith(us: seq<Update>, m: nat) returns (k: nat)
    requires Accepted(us) && VnodeAfter(us, m).Some?
    ensures Since(us, m, k, VnodeAfter(us, m).value)
  {
    hide Apply, OnePerNode, ByNode, VnodeOf, E.RingAfter;
    if us == [] { NothingAfterNothing(m); }
    var n := |us| - 1;
    AcceptedBefore(us);
    CountersCount(us[..n], m);
    var t, u := E.RingAfter(us[..n]).value, us[n];
    ApplyAtNode(t, u, m);
    EffectOfNode(t.ring, u);
    assert us[..n + 1] == us;
    if VnodeAfter(us[..n], m).None? {
      ApplyInserts(t, u);
      k := n;
    } else {
      k := BornWith(us[..n], m);
      assert forall i :: k < i <= n ==> us[..n][..i] == us[..i];
    }
  }

  lemma NothingAfterNothing(m: nat)
    ensures Accepted([]) && VnodeAfter([], m).None?
  {
  }
}
