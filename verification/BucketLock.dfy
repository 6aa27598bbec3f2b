/** The bucket lock as an object whose fields the handlers change in place
    (spdk/app/leed/kv_bucket.cpp:83-193), proved against LockModel. */
module BucketLock {
  import opened SeqOps
  import opened LockModel

  class KvBucketLock {
    var locked: set<nat>
    var segments: map<nat, Slot>
    var queue: seq<nat>
    var requests: map<nat, seq<nat>>         // the segment list of every request
    var segs: map<(nat, nat), Seg>
    var ioCnt: map<nat, nat>
    var calls: seq<nat>
    var reading: map<nat, Chain>
    var disk: map<nat, Chain>
    ghost var holder: map<nat, nat>
    ghost var want: map<nat, set<nat>>
    ghost var edited: set<nat>

    ghost function Model(): Lock
      reads this
    {
      Lock(holder, segments, queue, requests, want, segs, ioCnt, calls, edited, reading, disk)
    }

    ghost predicate Valid()
      reads this
    {
      Good(Model()) && locked == holder.Keys
    }

    constructor (d: map<nat, Chain>)
      ensures Valid() && Model() == EMPTY.(disk := d)
    {
      locked, segments, queue, requests, segs := {}, map[], [], map[], map[];
      ioCnt, calls, reading, disk := map[], [], map[], d;
      holder, want, edited := map[], map[], {};
    }

    method Segment(r: nat, b: nat) returns (g: Seg)
      ensures g == SegOf(Model(), r, b)
    {
      g := if (r, b) in segs then segs[(r, b)] else BLANK;
    }

    /** segment_move, between two segment objects of bucket `b`. */
    method SegmentMove(from: nat, to: nat, b: nat)
      modifies this`segs
      ensures segs == MoveSeg(old(Model()), from, to, b)
    {
      if from != to {
        var g := Segment(from, b);
        segs := segs[(to, b) := g];
        segs := segs[(from, b) := BLANK];
      }
    }

    /** lock_get_seg_cb of a granted request. */
    method LockGetSegCb(b: nat, r: nat)
      requires b in segments && r in ioCnt && ioCnt[r] > 0
      modifies this`segs, this`segments, this`ioCnt, this`calls
      ensures Model() == Arrive(old(Model()), b, r)
    {
      var owner := segments[b].owner;
      if owner != r { SegmentMove(owner, r, b); }
      segments := segments[b := Slot(r, None)];
      ioCnt := ioCnt[r := ioCnt[r] - 1];
      if ioCnt[r] == 0 { calls := calls + [r]; }
    }

    /** kv_bucket_seg_get: `done` when the bucket has no chain to read. */
    method SegGet(r: nat, b: nat) returns (done: bool)
      modifies this`segs, this`reading
      ensures Model() == StartGet(old(Model()), r, b) && done == (b !in disk)
    {
      done := b !in disk;
      if done {
        segs := segs[(r, b) := Seg(false, false, NOTHING)];
      } else {
        reading := reading[b := disk[b]];
      }
    }

    /** The second loop body of try_lock. */
    method GrantSegment(b: nat, r: nat)
      requires b in holder && holder[b] == r && r in ioCnt && ioCnt[r] > 0
      modifies this`segs, this`segments, this`ioCnt, this`calls, this`reading
      ensures Model() == GrantOne(old(Model()), b)
    {
      if b in segments {
        var g := Segment(segments[b].owner, b);
        if g.empty {
          segments := segments[b := segments[b].(ctx := Some(r))];
        } else {
          LockGetSegCb(b, r);
        }
      } else {
        segments := segments[b := Slot(r, Some(r))];
        var done := SegGet(r, b);
        if done { LockGetSegCb(b, r); }
      }
    }

    /** lockable. */
    method Lockable(bs: seq<nat>) returns (ok: bool)
      ensures ok <==> forall b :: b in bs ==> b !in locked
    {
      var i := 0;
      while i < |bs|
        invariant 0 <= i <= |bs|
        invariant forall j :: 0 <= j < i ==> bs[j] !in locked
      {
        if bs[i] in locked { return false; }
        i := i + 1;
      }
      return true;
    }

    /** The second loop of try_lock; `q` is the queue without the request. */
    method GrantSegments(r: nat, bs: seq<nat>, ghost q: seq<nat>, ghost k: nat)
      requires Inv(Model().(queue := q), Elements(bs), k) && Distinct(bs)
      requires forall b :: b in bs ==> b in holder && holder[b] == r
      modifies this`segs, this`segments, this`ioCnt, this`calls, this`reading
      ensures Model().(queue := q) == GrantAll(old(Model()).(queue := q), bs, k)
    {
      hide Inv, SlotOk, RequestOk, Missing, SegOf, GrantOne;
      ghost var s1 := Model().(queue := q);
      var i := 0;
      assert bs[0..] == bs;
      while i < |bs|
        invariant 0 <= i <= |bs|
        invariant Inv(Model().(queue := q), Elements(bs[i..]), k) && Distinct(bs[i..])
        invariant GrantAll(Model().(queue := q), bs[i..], k) == GrantAll(s1, bs, k)
      {
        ElementsStep(bs[i..]);
        GrantOneKeepsInv(Model().(queue := q), Elements(bs[i..]), k, bs[i]);
        GrantOneQueue(Model(), bs[i], q);
        GrantSegment(bs[i], r);
        assert bs[i..][1..] == bs[i + 1..];
        i := i + 1;
      }
      assert bs[i..] == [];
    }

    /** The first loop of try_lock. */
    method LockAll(r: nat, bs: seq<nat>, ghost h: map<nat, nat>)
      requires r in requests && requests[r] == bs && locked == holder.Keys
      requires h == holder + map b | b in bs :: r
      modifies this`locked, this`ioCnt, this`holder
      ensures Model() == Begin(old(Model()), r) && locked == holder.Keys
    {
      var i, n := 0, 0;
      while i < |bs|
        invariant 0 <= i <= |bs| && n == i && ioCnt == old(ioCnt) && holder == old(holder)
        invariant locked == old(locked) + (set b | b in bs[..i])
      {
        locked := locked + {bs[i]};
        n := n + 1;
        i := i + 1;
      }
      assert bs[..i] == bs;
      assert h.Keys == locked;
      ioCnt := ioCnt[r := n];
      holder := h;
    }

    /** try_lock of request `r`, which stands at place `k` of the queue `q`. */
    method TryLock(r: nat, ghost q: seq<nat>, ghost k: nat) returns (ok: bool)
      requires k < |q| && q[k] == r && r in want && r in requests && locked == holder.Keys
      requires Inv(Model().(queue := q), {}, k)
      modifies this
      ensures locked == holder.Keys && queue == old(queue)
      ensures ok <==> !Blocked(old(Model()).(queue := q), r)
      ensures !ok ==> Model() == old(Model())
      ensures ok ==> Model().(queue := Without(q, k)) == Grant(old(Model()).(queue := q), k)
    {
      hide Inv, SlotOk, RequestOk, Missing, SegOf, GrantOne, GrantAll;
      ghost var s0 := Model().(queue := q);
      WaiterOrder(s0, {}, k, r);
      var bs := requests[r];
      ok := Lockable(bs);
      assert forall b :: b in bs <==> b in want[r];
      if !ok { return; }
      GrantAtKeepsInv(s0, k);
      ghost var h := holder + map b | b in bs :: r;
      LockAll(r, bs, h);
      GrantSegments(r, bs, Without(q, k), k);
    }

    /** The prefetch loop of kv_bucket_lock. */
    method PrefetchSegments(r: nat, bs: seq<nat>)
      requires Good(Model()) && r in queue && r in want && forall b :: b in bs ==> b in want[r]
      modifies this`segs, this`segments, this`reading
      ensures Model() == PrefetchAll(old(Model()), r, bs)
    {
      hide Inv, SlotOk, RequestOk, Missing, SegOf;
      ghost var s1 := Model();
      var i := 0;
      assert bs[0..] == bs;
      while i < |bs|
        invariant 0 <= i <= |bs| && Good(Model())
        invariant PrefetchAll(Model(), r, bs[i..]) == PrefetchAll(s1, r, bs)
      {
        var b := bs[i];
        PrefetchKeepsInv(Model(), |queue|, r, b);
        assert bs[i..][1..] == bs[i + 1..];
        if b !in segments {
          segments := segments[b := Slot(r, None)];
          var done := SegGet(r, b);
        }
        i := i + 1;
      }
      assert bs[i..] == [];
    }

    /** kv_bucket_lock. */
    method Acquire(r: nat, bs: seq<nat>)
      requires Valid() && Enabled(Model(), Request(r, bs))
      modifies this
      ensures Valid() && Model() == old(Next(Model(), Request(r, bs)))
    {
      hide Inv, Grant, PrefetchAll, Blocked, Next;
      ghost var s := Model();
      RequestIs(s, r, bs);
      requests := requests[r := bs];
      want := want[r := Elements(bs)];
      ghost var q := queue + [r];
      assert Model().(queue := q) == Enqueue(s, r, bs);
      var ok := TryLock(r, q, |queue|);
      if ok {
        assert Without(q, |queue|) == queue;
      } else {
        queue := queue + [r];
        PrefetchSegments(r, bs);
      }
    }

    /** The first waiter that asks for bucket `b`. */
    method FindWaiter(b: nat) returns (w: nat)
      requires forall j :: 0 <= j < |queue| ==> queue[j] in requests
      ensures w == FirstWaiter(Model(), b, 0)
    {
      w := 0;
      while w < |queue| && b !in requests[queue[w]]
        invariant w <= |queue| && FirstWaiter(Model(), b, w) == FirstWaiter(Model(), b, 0)
      {
        w := w + 1;
      }
    }

    /** A clean segment goes to waiter `to`. */
    method HandOver(r: nat, to: nat, b: nat)
      modifies this`segments, this`segs
      ensures segs == MoveSeg(old(Model()), r, to, b) && segments == old(segments)[b := Slot(to, None)]
    {
      hide MoveSeg;
      SegmentMove(r, to, b);
      segments := segments[b := Slot(to, None)];
    }

    /** What becomes of the segment of bucket `b`. */
    method PassOn(r: nat, b: nat)
      requires r in want && forall j :: 0 <= j < |queue| ==> queue[j] in requests
      modifies this`segments, this`segs
      ensures segs == ReleaseOne(old(Model()), r, b).segs && segments == ReleaseOne(old(Model()), r, b).slots
    {
      hide SegOf, MoveSeg, Forget, FirstWaiter;
      var w := FindWaiter(b);
      var g := Segment(r, b);
      if w < |queue| && !g.dirty {
        HandOver(r, queue[w], b);
      } else {
        segments := segments - {b};
        segs := segs[(r, b) := BLANK];
      }
    }

    /** One bucket of kv_bucket_unlock. */
    method ReleaseSegment(r: nat, b: nat)
      requires r in want && locked == holder.Keys && forall j :: 0 <= j < |queue| ==> queue[j] in requests
      modifies this`locked, this`segments, this`segs, this`holder, this`want
      ensures Model() == ReleaseOne(old(Model()), r, b) && locked == holder.Keys
    {
      hide Forget, ReleaseOne;
      ghost var s := Model();
      ReleaseOneIs(s, r, b);
      PassOn(r, b);
      locked := locked - {b};
      holder, want := Forget(s, r, b).holder, Forget(s, r, b).want;
    }

    method ReleaseSegments(r: nat, bs: seq<nat>)
      requires Valid() && HoldsAll(Model(), r, bs)
      modifies this
      ensures Model() == ReleaseAll(old(Model()), r, bs, |old(queue)|) && locked == holder.Keys
    {
      hide Inv, SlotOk, RequestOk, Missing, SegOf, ReleaseOne;
      ghost var s1 := Model();
      ghost var k: nat := |queue|;
      var i := 0;
      assert bs[0..] == bs;
      while i < |bs|
        invariant 0 <= i <= |bs| && locked == holder.Keys
        invariant Inv(Model(), {}, k) && HoldsAll(Model(), r, bs[i..])
        invariant ReleaseAll(Model(), r, bs[i..], k) == ReleaseAll(s1, r, bs, |s1.queue|)
      {
        var b := bs[i];
        OrdersKnown(Model(), k);
        assert b in bs[i..] && Holds(Model(), r, b);
        ReleaseOneKeepsInv(Model(), k, r, b);
        StillHolds(Model(), r, bs[i..]);
        assert bs[i..][1..] == bs[i + 1..];
        ReleaseSegment(r, b);
        k := 0;
        i := i + 1;
      }
      assert bs[i..] == [];
    }

    /** The loop over the queue at the end of kv_bucket_unlock. */
    method RetryWaiters()
      requires Inv(Model(), {}, 0) && locked == holder.Keys
      modifies this
      ensures Model() == Retry(old(Model()), 0) && locked == holder.Keys
    {
      hide Inv, SlotOk, RequestOk, Missing, SegOf, Grant;
      ghost var s1 := Model();
      var p := 0;
      CheckedOne(s1, 0);
      while p < |queue|
        invariant 0 <= p <= |queue| && locked == holder.Keys
        invariant Inv(Model(), {}, p) && Retry(Model(), p) == Retry(s1, 0)
        decreases |queue| - p
      {
        CheckedOne(Model(), p);
        WaiterOrder(Model(), {}, p, queue[p]);
        assert Model().(queue := queue) == Model();
        var ok := TryLock(queue[p], queue, p);
        if ok { queue := Without(queue, p); } else { p := p + 1; }
      }
    }

    /** kv_bucket_unlock. */
    method Unlock(r: nat, bs: seq<nat>)
      requires Valid() && HoldsAll(Model(), r, bs)
      modifies this
      ensures Valid() && Model() == old(Next(Model(), Release(r, bs)))
    {
      hide Inv, SlotOk, RequestOk, Missing, SegOf, ReleaseAll, Retry;
      ReleaseSegments(r, bs);
      RetryWaiters();
    }

    /** The completion of a segment read. */
    method ReadCompletion(b: nat)
      requires Valid() && Enabled(Model(), ReadCompletes(b))
      modifies this
      ensures Valid() && Model() == old(Next(Model(), ReadCompletes(b)))
    {
      hide Inv, SlotOk, RequestOk, Missing, Arrive, SegOf;
      ReadDoneKeepsInv(Model(), |queue|, b);
      var t := segments[b];
      segs := segs[(t.owner, b) := Seg(false, false, reading[b])];
      reading := reading - {b};
      if t.ctx.Some? { LockGetSegCb(b, t.ctx.value); }
    }
  }

  lemma ReleaseOneIs(s: Lock, r: nat, b: nat)
    requires r in s.want && forall j :: 0 <= j < |s.queue| ==> s.queue[j] in s.order
    ensures var f, s' := Forget(s, r, b), ReleaseOne(s, r, b);
            s' == s.(holder := f.holder, want := f.want, segs := s'.segs, slots := s'.slots)
    ensures Forget(s, r, b).holder.Keys == s.holder.Keys - {b}
  {
    hide SegOf, MoveSeg, Put, FirstWaiter;
  }

  lemma RequestIs(s: Lock, r: nat, bs: seq<nat>)
    requires Good(s) && Enabled(s, Request(r, bs))
    ensures var s1, s' := Enqueue(s, r, bs), Next(s, Request(r, bs));
            && Inv(s1, {}, |s.queue|) && s1.queue[|s.queue|] == r && r in s1.want
            && (Blocked(s1, r) ==> Good(s1) && s' == PrefetchAll(s1, r, bs))
            && (!Blocked(s1, r) ==> s' == Grant(s1, |s.queue|))
  {
    hide Inv, Blocked, Grant, PrefetchAll;
    EnqueueKeepsInv(s, r, bs);
    CheckedOne(Enqueue(s, r, bs), |s.queue|);
  }
}
