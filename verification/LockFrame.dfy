/** What a request keeps while others come and go: from its callback until it
    releases a bucket, nobody else touches its segment of that bucket
    (spdk/app/leed/kv_bucket.cpp:63-193). */
module LockFrame {
  import opened SeqOps
  import opened LockModel

  /** Requests that had their callback hold what they held, outside `but`, and
      their segments are as they were. */
  ghost predicate SameHeld(s: Lock, s': Lock, but: set<nat>) {
    && (forall r :: r in s.calls ==> r in s'.calls)
    && (forall r, b :: Holds(s, r, b) && b !in but ==> Holds(s', r, b) && SegOf(s', r, b) == SegOf(s, r, b))
    && (forall r, b :: Holds(s', r, b) && r in s.calls ==> Holds(s, r, b))
  }

  lemma SameHeldTwice(s: Lock, s1: Lock, s2: Lock, but: set<nat>)
    requires SameHeld(s, s1, but) && SameHeld(s1, s2, but)
    ensures SameHeld(s, s2, but)
  {
    hide Holds, SegOf;
  }

  /** A step that leaves the buckets of requests alone and changes segments of a
      bucket that nobody holds. */
  lemma SameHeldElsewhere(s: Lock, s': Lock, b: nat)
    requires s'.queue == s.queue && s'.want == s.want && forall r :: r in s.calls ==> r in s'.calls
    requires forall r, x :: x != b ==> SegOf(s', r, x) == SegOf(s, r, x)
    requires forall r :: !Holds(s, r, b)
    ensures SameHeld(s, s', {})
  {
    hide SegOf;
  }

  // ----- the pieces -----

  lemma ArriveParts(s: Lock, b: nat, r: nat)
    requires b in s.slots && r in s.io && s.io[r] > 0
    ensures var s' := Arrive(s, b, r);
            && (forall x :: x in s.calls ==> x in s'.calls)
            && s'.queue == s.queue && s'.want == s.want
            && (forall x, y :: y != b ==> SegOf(s', x, y) == SegOf(s, x, y))
  {
    hide SegOf, MoveSeg;
    SegOfMove(s, Arrive(s, b, r), s.slots[b].owner, r, b);
  }

  lemma StartGetParts(s: Lock, r: nat, b: nat)
    ensures var s' := StartGet(s, r, b);
            && s'.calls == s.calls && s'.queue == s.queue && s'.want == s.want && s'.io == s.io && s'.slots == s.slots
            && (forall x, y :: y != b ==> SegOf(s', x, y) == SegOf(s, x, y))
  {
    hide SegOf, Put;
    var s' := StartGet(s, r, b);
    if b in s.disk { SegOfSame(s, s'); } else { SegOfPut(s, s', r, b, Seg(false, false, NOTHING)); }
  }

  lemma GrantOneParts(s: Lock, b: nat)
    requires b in s.holder && s.holder[b] in s.io && s.io[s.holder[b]] > 0
    ensures var s' := GrantOne(s, b);
            && (forall x :: x in s.calls ==> x in s'.calls)
            && s'.queue == s.queue && s'.want == s.want
            && (forall x, y :: y != b ==> SegOf(s', x, y) == SegOf(s, x, y))
  {
    hide SegOf, MoveSeg, Put, Arrive, StartGet;
    var r, s' := s.holder[b], GrantOne(s, b);
    if b in s.slots {
      if SegOf(s, s.slots[b].owner, b).empty { SegOfSame(s, s'); } else { ArriveParts(s, b, r); }
    } else {
      var s1 := s.(slots := s.slots[b := Slot(r, Some(r))]);
      SegOfSame(s, s1);
      StartGetParts(s1, r, b);
      if b !in s.disk { ArriveParts(StartGet(s1, r, b), b, r); }
    }
  }

  /** A bucket just locked is nobody's yet. */
  lemma NotHeldYet(s: Lock, todo: set<nat>, k: nat, b: nat, r: nat)
    requires Inv(s, todo, k) && b in todo
    ensures !Holds(s, r, b)
  {
    hide SlotOk, SegOf;
    MissingHere(s, todo, k, b);
    assert RequestOk(s, todo, s.holder[b]);
    assert r in s.want ==> RequestOk(s, todo, r);
  }

  lemma GrantOneFrame(s: Lock, todo: set<nat>, k: nat, b: nat)
    requires Inv(s, todo, k) && b in todo
    requires b in s.holder && s.holder[b] in s.io && s.io[s.holder[b]] > 0
    ensures SameHeld(s, GrantOne(s, b), {})
  {
    hide SegOf, GrantOne, Inv, Holds;
    GrantOneParts(s, b);
    forall r
      ensures !Holds(s, r, b)
    {
      NotHeldYet(s, todo, k, b, r);
    }
    SameHeldElsewhere(s, GrantOne(s, b), b);
  }

  lemma ReadDoneFrame(s: Lock, k: nat, b: nat)
    requires Inv(s, {}, k) && b in s.reading && b in s.slots
    requires s.slots[b].ctx.Some? ==> var r := s.slots[b].ctx.value; r in s.io && s.io[r] > 0
    ensures SameHeld(s, ReadDone(s, b), {})
  {
    hide SegOf, Put, Arrive, Inv, Holds;
    var t := s.slots[b];
    var s1 := s.(segs := Put(s, t.owner, b, Seg(false, false, s.reading[b])), reading := s.reading - {b});
    SegOfPut(s, s1, t.owner, b, Seg(false, false, s.reading[b]));
    if t.ctx.Some? { ArriveParts(s1, b, t.ctx.value); }
    forall r
      ensures !Holds(s, r, b)
    {
      if Holds(s, r, b) { HolderOwns(s, k, r, b); }
    }
    SameHeldElsewhere(s, ReadDone(s, b), b);
  }

  lemma PrefetchFrame(s: Lock, k: nat, r: nat, b: nat)
    requires Inv(s, {}, k)
    ensures SameHeld(s, Prefetch(s, r, b), {}) && Prefetch(s, r, b).queue == s.queue && Prefetch(s, r, b).want == s.want
  {
    hide SegOf, StartGet, Inv, Holds;
    if b !in s.slots {
      var s1 := s.(slots := s.slots[b := Slot(r, None)]);
      SegOfSame(s, s1);
      StartGetParts(s1, r, b);
      forall x
        ensures !Holds(s, x, b)
      {
        if Holds(s, x, b) { HolderOwns(s, k, x, b); }
      }
      SameHeldElsewhere(s, Prefetch(s, r, b), b);
    }
  }

  lemma EnqueueFrame(s: Lock, r: nat, bs: seq<nat>)
    requires r !in s.calls
    ensures SameHeld(s, Enqueue(s, r, bs), {})
  {
    hide SegOf;
    SegOfSame(s, Enqueue(s, r, bs));
  }

  lemma GrantAtFrame(s: Lock, k: nat)
    requires k < |s.queue| && s.queue[k] in s.order && s.queue[k] !in s.calls && Distinct(s.queue)
    ensures SameHeld(s, GrantAt(s, k), {})
  {
    hide SegOf, Without;
    var s' := GrantAt(s, k);
    SegOfSame(s, s');
    forall r | r in s.calls
      ensures r in s'.queue <==> r in s.queue
    {
      QueueWithout(s, k, r);
    }
  }

  lemma ReleaseOneParts(s: Lock, r: nat, b: nat)
    requires r in s.want && forall j :: 0 <= j < |s.queue| ==> s.queue[j] in s.order
    ensures forall x, y :: y != b ==> SegOf(ReleaseOne(s, r, b), x, y) == SegOf(s, x, y)
  {
    hide SegOf, Put, MoveSeg, FirstWaiter, Forget;
    var s' := ReleaseOne(s, r, b);
    var w := FirstWaiter(s, b, 0);
    if w < |s.queue| && !SegOf(s, r, b).dirty {
      SegOfMove(s, s', r, s.queue[w], b);
    } else {
      SegOfPut(s, s', r, b, BLANK);
    }
  }

  lemma ReleaseOneFrame(s: Lock, r: nat, b: nat)
    requires r in s.want && forall j :: 0 <= j < |s.queue| ==> s.queue[j] in s.order
    ensures SameHeld(s, ReleaseOne(s, r, b), {b}) && !Holds(ReleaseOne(s, r, b), r, b)
  {
    hide SegOf, ReleaseOne, Holds, Forget;
    var s' := ReleaseOne(s, r, b);
    ReleaseOneRest(s, r, b);
    ReleaseOneParts(s, r, b);
    forall x, y
      ensures Holds(s', x, y) <==> Holds(s, x, y) && !(x == r && y == b)
    {
      ForgetHolds(s, s', r, b, x, y);
    }
  }

  // ----- the handlers -----

  lemma {:induction false} GrantAllFrame(s: Lock, bs: seq<nat>, k: nat)
    requires Inv(s, Elements(bs), k) && Distinct(bs)
    ensures SameHeld(s, GrantAll(s, bs, k), {})
    decreases |bs|
  {
    hide GrantOne, Inv, SameHeld;
    if bs == [] {
      SameHeldSelf(s);
    } else {
      ElementsStep(bs);
      GrantOneKeepsInv(s, Elements(bs), k, bs[0]);
      GrantOneFrame(s, Elements(bs), k, bs[0]);
      var s1 := GrantOne(s, bs[0]);
      GrantAllFrame(s1, bs[1..], k);
      SameHeldTwice(s, s1, GrantAll(s1, bs[1..], k), {});
    }
  }

  lemma SameHeldSelf(s: Lock)
    ensures SameHeld(s, s, {})
  {
  }

  lemma GrantFrame(s: Lock, k: nat)
    requires Inv(s, {}, k) && k < |s.queue| && s.queue[k] in s.want && !Blocked(s, s.queue[k])
    ensures SameHeld(s, Grant(s, k), {})
  {
    hide Inv, SameHeld, GrantAll, GrantAt;
    WaiterOrder(s, {}, k, s.queue[k]);
    GrantAtKeepsInv(s, k);
    NotCalled(s, k);
    GrantAtFrame(s, k);
    var s1 := GrantAt(s, k);
    GrantAllFrame(s1, s.order[s.queue[k]], k);
    SameHeldTwice(s, s1, GrantAll(s1, s.order[s.queue[k]], k), {});
  }

  lemma NotCalled(s: Lock, k: nat)
    requires Inv(s, {}, k) && k < |s.queue|
    ensures Distinct(s.queue) && s.queue[k] !in s.calls
  {
    hide SlotOk, SegOf, Missing;
    assert RequestOk(s, {}, s.queue[k]);
  }

  lemma {:induction false} RetryFrame(s: Lock, k: nat)
    requires Inv(s, {}, k)
    ensures SameHeld(s, Retry(s, k), {})
    decreases |s.queue| - k
  {
    hide Inv, SameHeld, Grant;
    CheckedOne(s, k);
    if k == |s.queue| {
      SameHeldSelf(s);
    } else if Blocked(s, s.queue[k]) {
      RetryFrame(s, k + 1);
    } else {
      GrantFrame(s, k);
      RetryFrame(Grant(s, k), k);
      SameHeldTwice(s, Grant(s, k), Retry(Grant(s, k), k), {});
    }
  }

  lemma {:induction false} PrefetchAllFrame(s: Lock, r: nat, bs: seq<nat>)
    requires Good(s) && r in s.queue && r in s.want && forall b :: b in bs ==> b in s.want[r]
    ensures SameHeld(s, PrefetchAll(s, r, bs), {})
    decreases |bs|
  {
    hide Prefetch, Inv, SameHeld;
    if bs == [] {
      SameHeldSelf(s);
    } else {
      PrefetchKeepsInv(s, |s.queue|, r, bs[0]);
      PrefetchFrame(s, |s.queue|, r, bs[0]);
      var s1 := Prefetch(s, r, bs[0]);
      PrefetchAllFrame(s1, r, bs[1..]);
      SameHeldTwice(s, s1, PrefetchAll(s1, r, bs[1..]), {});
    }
  }

  lemma LockReqFrame(s: Lock, r: nat, bs: seq<nat>)
    requires Good(s) && r !in s.want && r !in s.calls && bs != [] && Distinct(bs)
    ensures SameHeld(s, LockReq(s, r, bs), {})
  {
    hide Inv, SameHeld, PrefetchAll, Grant;
    EnqueueKeepsInv(s, r, bs);
    EnqueueFrame(s, r, bs);
    var s1 := Enqueue(s, r, bs);
    assert s1.queue[|s.queue|] == r;
    CheckedOne(s1, |s.queue|);
    if Blocked(s1, r) { PrefetchAllFrame(s1, r, bs); } else { GrantFrame(s1, |s.queue|); }
    SameHeldTwice(s, s1, LockReq(s, r, bs), {});
  }

  lemma {:induction false} ReleaseAllFrame(s: Lock, r: nat, bs: seq<nat>, k: nat, but: set<nat>)
    requires Inv(s, {}, k) && HoldsAll(s, r, bs) && forall b :: b in bs ==> b in but
    ensures SameHeld(s, ReleaseAll(s, r, bs, k), but)
    ensures forall b :: b in bs ==> !Holds(ReleaseAll(s, r, bs, k), r, b)
    decreases |bs|
  {
    hide Inv, SameHeld, ReleaseOne;
    OrdersKnown(s, k);
    if bs == [] {
      SameHeldSelf(s);
      SameHeldLess(s, s, {}, but);
    } else {
      assert bs[0] in bs && Holds(s, r, bs[0]);
      ReleaseOneKeepsInv(s, k, r, bs[0]);
      StillHolds(s, r, bs);
      ReleaseOneFrame(s, r, bs[0]);
      var s1 := ReleaseOne(s, r, bs[0]);
      SameHeldLess(s, s1, {bs[0]}, but);
      ReleaseAllFrame(s1, r, bs[1..], 0, but);
      SameHeldTwice(s, s1, ReleaseAll(s1, r, bs[1..], 0), but);
      LetGo(s, s1, ReleaseAll(s1, r, bs[1..], 0), r, bs[0], but);
    }
  }

  /** What a request has let go does not come back. */
  lemma LetGo(s: Lock, s1: Lock, s2: Lock, r: nat, b: nat, but: set<nat>)
    requires Holds(s, r, b) && SameHeld(s, s1, but) && !Holds(s1, r, b) && SameHeld(s1, s2, but)
    ensures !Holds(s2, r, b)
  {
    hide SegOf;
  }

  lemma SameHeldLess(s: Lock, s': Lock, a: set<nat>, b: set<nat>)
    requires SameHeld(s, s', a) && a <= b
    ensures SameHeld(s, s', b)
  {
    hide Holds, SegOf;
  }

  lemma UnlockFrame(s: Lock, r: nat, bs: seq<nat>)
    requires Good(s) && HoldsAll(s, r, bs)
    ensures SameHeld(s, Unlock(s, r, bs), Elements(bs))
    ensures forall b :: b in bs ==> !Holds(Unlock(s, r, bs), r, b)
  {
    hide Inv, SameHeld, ReleaseAll, Retry;
    var s1 := ReleaseAll(s, r, bs, |s.queue|);
    ReleaseAllFrame(s, r, bs, |s.queue|, Elements(bs));
    RetryFrame(s1, 0);
    SameHeldLess(s1, Retry(s1, 0), {}, Elements(bs));
    forall b | b in bs
      ensures !Holds(Retry(s1, 0), r, b)
    {
      assert Holds(s, r, b);
      LetGo(s, s1, Retry(s1, 0), r, b, Elements(bs));
    }
    SameHeldTwice(s, s1, Retry(s1, 0), Elements(bs));
  }

  /** The buckets an event is about. */
  function Touched(e: Event): set<nat> {
    match e
    case Release(_, bs) => Elements(bs)
    case Change(_, b, _) => {b}
    case CommitSeg(_, b) => {b}
    case _ => {}
  }

  /** Whatever happens to other buckets, a delivered request keeps what it holds. */
  lemma NextFrame(s: Lock, e: Event)
    requires Good(s) && Enabled(s, e)
    ensures SameHeld(s, Next(s, e), Touched(e))
    ensures e.Release? ==> forall b :: b in e.bs ==> !Holds(Next(s, e), e.r, b)
  {
    hide Inv, LockReq, Unlock, ReadDone, SegOf;
    match e {
      case Request(r, bs) => LockReqFrame(s, r, bs);
      case Release(r, bs) => UnlockFrame(s, r, bs);
      case ReadCompletes(b) =>
        ReadDoneKeepsInv(s, |s.queue|, b);
        ReadDoneFrame(s, |s.queue|, b);
      case Change(r, b, c) => SegOfPut(s, Edit(s, r, b, c), r, b, Seg(false, true, c));
      case CommitSeg(r, b) => SegOfPut(s, Commit(s, r, b), r, b, SegOf(s, r, b).(dirty := false));
    }
  }
}
