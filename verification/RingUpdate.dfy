/** Applying one membership event to one thread's copy of a ring (update_ring,
    spdk/app/leed/kv_ring.c:551-627). */
module RingUpdate {
  import opened SeqOps
  import opened RingOrder
  import opened WrapMath

  /** Number of ring-version slots (RING_VERSION_MAX). */
  const SLOTS: nat := 64

  datatype EtcdMsg = Put | Del

  datatype Update = Update(state: VnodeState, msg: EtcdMsg, vid: U64, ds: nat, node: nat)

  /** A thread's ring; `epoch` counts the version bumps, so the stored version
      number is `epoch % SLOTS`. */
  datatype RingCopy = RingCopy(ring: Ring, epoch: nat)

  function Slot(epoch: nat): (c: nat)
    ensures c < SLOTS
  {
    epoch % SLOTS
  }

  /** The entry vnode_create builds: no state is written, which leaves Joining. */
  function NewVnode(u: Update): Vnode {
    Vnode(u.vid, u.node, u.ds, Joining, 0, 1)
  }

  function Ensure(r: Ring, u: Update): Ring {
    if ByNode(r, u.node) < |r| then r else Insert(r, NewVnode(u))
  }

  lemma EnsureHasNode(r: Ring, u: Update)
    ensures ByNode(Ensure(r, u), u.node) < |Ensure(r, u)|
  {
    if ByNode(r, u.node) == |r| {
      var s := Ensure(r, u);
      var i := if r == [] then 0 else Find(r, u.vid);
      assert s[i] == NewVnode(u);
    }
  }

  /** The effect of one event; None when an assertion of the handler fails. */
  function Apply(t: RingCopy, u: Update): Option<RingCopy> {
    var r := if u.msg == Put then Ensure(t.ring, u) else t.ring;
    var i := ByNode(r, u.node);
    if i == |r| then None
    else
      var v := r[i];
      match (u.state, u.msg)
      case (Joining, Put) => Some(t.(ring := r[i := v.(state := Joining, cp := Inc32(v.cp))]))
      case (Joining, Del) =>
        if v.state != Joining then None
        else if Dec32(v.cp) == 0 then Some(RingCopy(r[i := v.(state := Running, cp := 0)], t.epoch + 1))
        else Some(t.(ring := r[i := v.(cp := Dec32(v.cp))]))
      case (Running, Put) =>
        if v.cp == 0 then Some(t.(ring := r[i := v.(state := Running)])) else Some(t.(ring := r))
      case (Running, Del) =>
        if Dec32(v.rm) == 0 then Some(t.(ring := Delete(r, i)))
        else if v.state != Leaving then None
        else Some(t.(ring := r[i := v.(rm := Dec32(v.rm))]))
      case (Leaving, Put) => Some(t.(ring := r[i := v.(state := Leaving, rm := Inc32(v.rm))]))
      case (Leaving, Del) =>
        if v.state != Leaving then None
        else if Dec32(v.rm) == 0 then Some(RingCopy(Delete(r, i), t.epoch + 1))
        else Some(t.(ring := r[i := v.(rm := Dec32(v.rm))]))
  }

  /** The event that ends the last copy of a join. */
  lemma ApplyJoinEnd(t: RingCopy, u: Update)
    requires u.state == Joining && u.msg == Del
    requires var i := ByNode(t.ring, u.node); i < |t.ring| && t.ring[i].state == Joining && t.ring[i].cp == 1
    ensures var i := ByNode(t.ring, u.node);
            Apply(t, u) == Some(RingCopy(t.ring[i := t.ring[i].(state := Running, cp := 0)], t.epoch + 1))
  {
  }

  /** Only the end of a join or of a departure opens a new epoch. */
  predicate Bumps(t: RingCopy, u: Update) {
    Apply(t, u).Some? && Apply(t, u).value.epoch != t.epoch
  }

  lemma BumpIsOne(t: RingCopy, u: Update)
    requires Apply(t, u).Some?
    ensures Apply(t, u).value.epoch == if Bumps(t, u) then t.epoch + 1 else t.epoch
    ensures Bumps(t, u) ==> u.msg == Del && u.state != Running
  {
  }

  /** A thread's copy of the ring, changed in place by the handler. */
  class ThreadRing {
    var vnodes: Ring
    var version: nat
    ghost var epoch: nat

    ghost predicate Valid()
      reads this
    {
      version == Slot(epoch)
    }

    ghost function Model(): RingCopy
      reads this
    {
      RingCopy(vnodes, epoch)
    }

    constructor ()
      ensures Valid() && Model() == RingCopy([], 0)
    {
      vnodes, version, epoch := [], 0, 0;
    }

    /** find_vid_by_node. */
    method FindVidByNode(node: nat) returns (x: nat)
      ensures x == ByNode(vnodes, node)
    {
      x := 0;
      while x < |vnodes| && vnodes[x].node != node
        invariant x <= |vnodes|
        invariant forall j :: 0 <= j < x ==> vnodes[j].node != node
      {
        x := x + 1;
      }
    }

    method VnodeCreate(u: Update)
      modifies this`vnodes
      ensures vnodes == Insert(old(vnodes), NewVnode(u))
    {
      if vnodes == [] {
        vnodes := [NewVnode(u)];
      } else {
        var i := FindVidEntry(vnodes, u.vid);
        vnodes := vnodes[..i] + [NewVnode(u)] + vnodes[i..];
      }
    }

    /** The version step; it refuses to run while the slot before the current
        one still counts requests. */
    method BumpVersion(counter: seq<nat>) returns (ok: bool)
      requires Valid() && |counter| == SLOTS
      modifies this`version, this`epoch
      ensures Valid() && ok == (counter[Slot(old(epoch) + SLOTS - 1)] == 0)
      ensures epoch == if ok then old(epoch) + 1 else old(epoch)
    {
      SlotArithmetic(epoch);
      ok := counter[(version + SLOTS - 1) % SLOTS] == 0;
      if ok {
        version, epoch := (version + 1) % SLOTS, epoch + 1;
      }
    }

    /** update_ring, without the acknowledgement.  `ok` is false when one of its
        assertions fails. */
    method UpdateRing(u: Update, counter: seq<nat>) returns (ok: bool)
      requires Valid() && |counter| == SLOTS
      modifies this
      ensures Valid()
      ensures ok <==> && Apply(old(Model()), u).Some?
                      && (Bumps(old(Model()), u) ==> counter[Slot(old(epoch) + SLOTS - 1)] == 0)
      ensures ok ==> Model() == Apply(old(Model()), u).value
    {
      hide Insert, Delete;
      var i := FindVidByNode(u.node);
      if u.msg == Put && i == |vnodes| {
        EnsureHasNode(vnodes, u);
        VnodeCreate(u);
        i := FindVidByNode(u.node);
      }
      if i == |vnodes| { return false; }
      var v := vnodes[i];
      ok := true;
      match (u.state, u.msg)
      case (Joining, Put) =>
        vnodes := vnodes[i := v.(state := Joining, cp := Inc32(v.cp))];
      case (Joining, Del) =>
        if v.state != Joining { return false; }
        v := v.(cp := Dec32(v.cp));
        vnodes := vnodes[i := v];
        if v.cp == 0 {
          vnodes := vnodes[i := v.(state := Running)];
          ok := BumpVersion(counter);
        }
      case (Running, Put) =>
        if v.cp == 0 { vnodes := vnodes[i := v.(state := Running)]; }
      case (Running, Del) =>
        if Dec32(v.rm) == 0 {
          vnodes := Delete(vnodes, i);
        } else if v.state == Leaving {
          vnodes := vnodes[i := v.(rm := Dec32(v.rm))];
        } else {
          ok := false;
        }
      case (Leaving, Put) =>
        vnodes := vnodes[i := v.(state := Leaving, rm := Inc32(v.rm))];
      case (Leaving, Del) =>
        if v.state != Leaving { return false; }
        if Dec32(v.rm) == 0 {
          vnodes := Delete(vnodes, i);
          ok := BumpVersion(counter);
        } else {
          vnodes := vnodes[i := v.(rm := Dec32(v.rm))];
        }
    }
  }

  lemma SlotArithmetic(e: nat)
    ensures (Slot(e) + SLOTS - 1) % SLOTS == Slot(e + SLOTS - 1)
    ensures (Slot(e) + 1) % SLOTS == Slot(e + 1)
  {
    ModAdd(e, SLOTS - 1, SLOTS);
    ModAdd(e, 1, SLOTS);
  }
}
