/** The all-or-nothing multi-bucket lock of spdk/app/leed/kv_bucket.cpp:63-193 and
    the bucket segments it hands from request to request.  A request names one
    segment object per bucket; at most one of the objects for a bucket holds or is
    fetching the bucket's chain. */
module LockModel {
  import opened SeqOps
  import SegmentItems

  /** What a bucket's chain holds; nothing when the bucket has no chain. */
  type Chain = map<SegmentItems.Key, SegmentItems.Value>

  const NOTHING: Chain := map[]

  /** The segment object that request `r` owns for bucket `b` is entry (r, b). */
  datatype Seg = Seg(empty: bool, dirty: bool, chain: Chain)

  const BLANK: Seg := Seg(true, false, NOTHING)

  /** lock_segment: whose segment object has the chain, and which granted request
      still waits for it. */
  datatype Slot = Slot(owner: nat, ctx: Option<nat>)

  datatype Lock = Lock(
    holder: map<nat, nat>,            // the locked set, with the request that locked each bucket
    slots: map<nat, Slot>,            // lock->segments
    queue: seq<nat>,                  // requests not granted, oldest first
    order: map<nat, seq<nat>>,        // the bucket list of every request
    want: map<nat, set<nat>>,         // buckets of a request that it has not released
    segs: map<(nat, nat), Seg>,
    io: map<nat, nat>,                // io_cnt of granted requests
    calls: seq<nat>,                  // lock callbacks, in the order they fired
    edited: set<nat>,                 // history: requests that changed a segment
    reading: map<nat, Chain>,         // segment reads in flight and what they will return
    disk: map<nat, Chain>)            // committed chains

  function SegOf(s: Lock, r: nat, b: nat): Seg {
    if (r, b) in s.segs then s.segs[(r, b)] else BLANK
  }

  function Stored(s: Lock, b: nat): Chain {
    if b in s.disk then s.disk[b] else NOTHING
  }

  predicate Granted(s: Lock, r: nat) {
    r in s.want && r !in s.queue
  }

  /** Some bucket of the request is locked. */
  predicate Blocked(s: Lock, r: nat)
    requires r in s.want
  {
    exists b :: b in s.want[r] && b in s.holder
  }

  /** Buckets that still have to arrive before the callback of `r` may fire. */
  ghost function Missing(s: Lock, todo: set<nat>, r: nat): set<nat>
    requires r in s.want
  {
    set b | b in s.want[r] && (b in todo || (b in s.slots && s.slots[b].ctx == Some(r)))
  }

  /** Slot `b`; `todo` are buckets just locked whose slot is not arranged yet. */
  ghost predicate SlotOk(s: Lock, todo: set<nat>, b: nat)
    requires b in s.slots
  {
    var t := s.slots[b];
    var g := SegOf(s, t.owner, b);
    && t.owner in s.want && b in s.want[t.owner]
    && (b in s.holder && b !in todo ==> if t.ctx.Some? then t.ctx == Some(s.holder[b]) && g.empty
                                        else t.owner == s.holder[b] && !g.empty)
    && (b !in s.holder || b in todo ==>
          t.ctx.None? && (t.owner in s.queue || (b in s.holder && t.owner == s.holder[b])))
    && (g.empty <==> b in s.reading)
    && (g.empty ==> g == BLANK)
    && (g.dirty ==> b in s.holder && b !in todo && t.owner == s.holder[b] && t.owner in s.edited)
    && (!g.empty && !g.dirty ==> g.chain == Stored(s, b))
  }

  ghost predicate RequestOk(s: Lock, todo: set<nat>, r: nat)
    requires r in s.want
  {
    && r in s.order && Distinct(s.order[r])
    && s.want[r] != {}
    && (r in s.queue ==> r !in s.calls && forall b :: b in s.order[r] <==> b in s.want[r])
    && (Granted(s, r) ==>
          && (forall b :: b in s.want[r] ==> b in s.holder && s.holder[b] == r)
          && r in s.io && s.io[r] == |Missing(s, todo, r)|
          && (r in s.calls <==> Missing(s, todo, r) == {}))
  }

  /** The state between any two steps of the handlers: `todo` is not empty only
      while a grant is under way, and the first `k` waiters have been found blocked. */
  ghost predicate Inv(s: Lock, todo: set<nat>, k: nat) {
    && k <= |s.queue| && Distinct(s.queue) && Distinct(s.calls)
    && (forall i :: 0 <= i < |s.queue| ==> s.queue[i] in s.want)
    && (forall r :: r in s.edited ==> r in s.calls)
    && (forall r :: r in s.want ==> RequestOk(s, todo, r))
    && (forall b :: b in s.holder ==> Granted(s, s.holder[b]) && b in s.want[s.holder[b]])
    && (forall b :: b in todo ==> b in s.holder)
    && (forall b :: b in s.holder && b !in todo ==> b in s.slots)
    && (forall b :: b in s.slots ==> SlotOk(s, todo, b))
    && (forall b :: b in s.reading ==> b in s.slots && s.reading[b] == Stored(s, b))
    && (forall r, b :: SegOf(s, r, b) != BLANK ==> b in s.slots && s.slots[b].owner == r)
    && (forall i :: 0 <= i < k ==> Blocked(s, s.queue[i]))
  }

  // ----- the handlers, piece by piece -----

  function Put(s: Lock, r: nat, b: nat, g: Seg): map<(nat, nat), Seg> {
    s.segs[(r, b) := g]
  }

  /** segment_move. */
  function MoveSeg(s: Lock, from: nat, to: nat, b: nat): map<(nat, nat), Seg> {
    if from == to then s.segs else s.segs[(to, b) := SegOf(s, from, b)][(from, b) := BLANK]
  }

  /** lock_get_seg_cb when a granted request `r` waits: the chain goes to its segment
      object, and the last arrival fires the callback. */
  function Arrive(s: Lock, b: nat, r: nat): Lock
    requires b in s.slots && r in s.io && s.io[r] > 0
  {
    s.(segs := MoveSeg(s, s.slots[b].owner, r, b), slots := s.slots[b := Slot(r, None)],
       io := s.io[r := s.io[r] - 1], calls := if s.io[r] == 1 then s.calls + [r] else s.calls)
  }

  /** kv_bucket_seg_get: a bucket without chain is there at once, others take a read. */
  function StartGet(s: Lock, r: nat, b: nat): Lock {
    if b in s.disk then s.(reading := s.reading[b := s.disk[b]])
    else s.(segs := Put(s, r, b, Seg(false, false, NOTHING)))
  }

  /** One bucket of the second loop of try_lock, for the request that locked it. */
  function GrantOne(s: Lock, b: nat): Lock
    requires b in s.holder && s.holder[b] in s.io && s.io[s.holder[b]] > 0
  {
    var r := s.holder[b];
    if b in s.slots then
      if SegOf(s, s.slots[b].owner, b).empty then s.(slots := s.slots[b := s.slots[b].(ctx := Some(r))])
      else Arrive(s, b, r)
    else
      var s1 := StartGet(s.(slots := s.slots[b := Slot(r, Some(r))]), r, b);
      if b in s.disk then s1 else Arrive(s1, b, r)
  }

  /** The first loop of try_lock. */
  function Begin(s: Lock, r: nat): Lock
    requires r in s.order
  {
    s.(holder := s.holder + map b | b in s.order[r] :: r, io := s.io[r := |s.order[r]|])
  }

  /** The completion of a segment read. */
  function ReadDone(s: Lock, b: nat): Lock
    requires b in s.reading && b in s.slots
    requires s.slots[b].ctx.Some? ==> var r := s.slots[b].ctx.value; r in s.io && s.io[r] > 0
  {
    var s1 := s.(segs := Put(s, s.slots[b].owner, b, Seg(false, false, s.reading[b])), reading := s.reading - {b});
    if s.slots[b].ctx.Some? then Arrive(s1, b, s.slots[b].ctx.value) else s1
  }

  /** A request that has to wait fetches the segments nobody has. */
  function Prefetch(s: Lock, r: nat, b: nat): Lock {
    if b in s.slots then s else StartGet(s.(slots := s.slots[b := Slot(r, None)]), r, b)
  }

  /** The first waiter that wants bucket `b`, or |queue|. */
  function FirstWaiter(s: Lock, b: nat, i: nat): (w: nat)
    requires i <= |s.queue| && forall j :: 0 <= j < |s.queue| ==> s.queue[j] in s.order
    ensures i <= w <= |s.queue|
    ensures w < |s.queue| ==> b in s.order[s.queue[w]]
    ensures forall j :: i <= j < w ==> b !in s.order[s.queue[j]]
    decreases |s.queue| - i
  {
    if i == |s.queue| || b in s.order[s.queue[i]] then i else FirstWaiter(s, b, i + 1)
  }

  /** Forget bucket `b` of request `r`, and the request with its last bucket. */
  function Forget(s: Lock, r: nat, b: nat): Lock
    requires r in s.want
  {
    var left := s.want[r] - {b};
    s.(holder := s.holder - {b}, want := if left == {} then s.want - {r} else s.want[r := left])
  }

  /** One bucket of kv_bucket_unlock: a clean segment goes to the first waiter, a
      dirty or unwanted one is dropped. */
  function ReleaseOne(s: Lock, r: nat, b: nat): Lock
    requires r in s.want && forall j :: 0 <= j < |s.queue| ==> s.queue[j] in s.order
  {
    var w := FirstWaiter(s, b, 0);
    var s1 := Forget(s, r, b);
    if w < |s.queue| && !SegOf(s, r, b).dirty then
      s1.(segs := MoveSeg(s, r, s.queue[w], b), slots := s.slots[b := Slot(s.queue[w], None)])
    else
      s1.(segs := Put(s, r, b, BLANK), slots := s.slots - {b})
  }

  /** The lock holder changes and commits its segment. */
  function Edit(s: Lock, r: nat, b: nat, c: Chain): Lock {
    s.(segs := Put(s, r, b, Seg(false, true, c)), edited := s.edited + {r})
  }

  function Commit(s: Lock, r: nat, b: nat): Lock {
    var c := SegOf(s, r, b).chain;
    s.(disk := if c == NOTHING then s.disk - {b} else s.disk[b := c],
       segs := Put(s, r, b, SegOf(s, r, b).(dirty := false)))
  }

  // ----- each piece keeps the invariant -----

  lemma MissingShrinks(s: Lock, s': Lock, todo: set<nat>, todo': set<nat>, r: nat, b: nat)
    requires r in s.want && s'.want == s.want && b in Missing(s, todo, r)
    requires forall x :: x != b ==> (x in todo' <==> x in todo)
    requires forall x :: x != b ==> (x in s'.slots <==> x in s.slots) && (x in s.slots ==> s'.slots[x] == s.slots[x])
    requires b !in todo' && b in s'.slots && s'.slots[b].ctx != Some(r)
    ensures Missing(s', todo', r) == Missing(s, todo, r) - {b}
    ensures |Missing(s', todo', r)| == |Missing(s, todo, r)| - 1
  {
  }

  lemma MissingSame(s: Lock, s': Lock, todo: set<nat>, todo': set<nat>, r: nat, b: nat)
    requires r in s.want && r in s'.want && s'.want[r] == s.want[r]
    requires forall x :: x != b ==> (x in todo' <==> x in todo)
    requires forall x :: x != b ==> (x in s'.slots <==> x in s.slots) && (x in s.slots ==> s'.slots[x] == s.slots[x])
    requires b in s.want[r] ==>
               ((b in todo' || (b in s'.slots && s'.slots[b].ctx == Some(r))) <==>
                (b in todo || (b in s.slots && s.slots[b].ctx == Some(r))))
    ensures Missing(s', todo', r) == Missing(s, todo, r)
  {
  }

  /** Nothing that slot `x` depends on has changed. */
  ghost predicate SameAt(s: Lock, s': Lock, todo: set<nat>, todo': set<nat>, x: nat) {
    && (x in s'.slots <==> x in s.slots) && (x in s.slots ==> s'.slots[x] == s.slots[x])
    && (x in s'.holder <==> x in s.holder) && (x in s.holder ==> s'.holder[x] == s.holder[x])
    && (x in todo' <==> x in todo)
    && (x in s'.reading <==> x in s.reading) && (x in s.reading ==> s'.reading[x] == s.reading[x])
    && Stored(s', x) == Stored(s, x)
    && (forall r :: SegOf(s', r, x) == SegOf(s, r, x))
  }

  /** Requests other than by their slots look the same. */
  ghost predicate SameRequests(s: Lock, s': Lock) {
    && s'.want == s.want && s'.order == s.order && s'.queue == s.queue && s'.holder == s.holder
    && s'.edited == s.edited && (forall r :: r in s.calls ==> r in s'.calls)
  }

  lemma SlotFrame(s: Lock, s': Lock, todo: set<nat>, todo': set<nat>, x: nat)
    requires SameAt(s, s', todo, todo', x) && SameRequests(s, s')
    requires x in s.slots && SlotOk(s, todo, x)
    ensures SlotOk(s', todo', x)
  {
  }

  /** A step that touches one slot and the request that locked it. */
  ghost predicate TouchesOnly(s: Lock, s': Lock, todo: set<nat>, todo': set<nat>, b: nat) {
    && SameRequests(s, s')
    && (forall x :: x != b ==> SameAt(s, s', todo, todo', x))
    && Stored(s', b) == Stored(s, b)
  }

  /** The chain of bucket `b` reaches the request that locked it. */
  ghost predicate Arrived(s: Lock, s': Lock, b: nat, r: nat) {
    && s'.slots == s.slots[b := Slot(r, None)]
    && s'.reading == s.reading - {b}
    && SegOf(s', r, b) == Seg(false, false, Stored(s, b))
    && (forall x :: x != r ==> SegOf(s', x, b) == BLANK)
    && r in s.io && s.io[r] > 0 && s'.io == s.io[r := s.io[r] - 1]
    && s'.calls == if s.io[r] == 1 then s.calls + [r] else s.calls
  }

  lemma StillBlocked(s: Lock, s': Lock, k: nat)
    requires s'.queue == s.queue && s'.want == s.want && s'.holder == s.holder && k <= |s.queue|
    requires forall i :: 0 <= i < k ==> s.queue[i] in s.want && Blocked(s, s.queue[i])
    ensures forall i :: 0 <= i < k ==> Blocked(s', s'.queue[i])
    ensures forall r :: Granted(s', r) <==> Granted(s, r)
  {
  }

  lemma InvRequest(s: Lock, todo: set<nat>, k: nat, r: nat)
    requires Inv(s, todo, k) && r in s.want
    ensures RequestOk(s, todo, r)
  {
    hide RequestOk, SlotOk, SegOf, Blocked, Granted;
  }

  lemma InvHolder(s: Lock, todo: set<nat>, k: nat, b: nat)
    requires Inv(s, todo, k) && b in s.holder
    ensures Granted(s, s.holder[b]) && b in s.want[s.holder[b]]
  {
    hide RequestOk, SlotOk, SegOf, Blocked;
  }

  lemma ArrivedRequests(s: Lock, s': Lock, todo: set<nat>, k: nat, b: nat, x: nat)
    requires Inv(s, todo, k) && b in s.holder && b in Missing(s, todo, s.holder[b])
    requires TouchesOnly(s, s', todo, todo - {b}, b) && Arrived(s, s', b, s.holder[b])
    requires x in s.want
    ensures RequestOk(s', todo - {b}, x)
  {
    hide SlotOk, SegOf, Inv, Missing;
    var r, todo' := s.holder[b], todo - {b};
    InvHolder(s, todo, k, b);
    InvRequest(s, todo, k, x);
    InvRequest(s, todo, k, r);
    if x == r {
      MissingShrinks(s, s', todo, todo', r, b);
    } else if Granted(s, x) {
      MissingSame(s, s', todo, todo', x, b);
    }
  }

  lemma ArrivedKeepsInv(s: Lock, s': Lock, todo: set<nat>, k: nat, b: nat)
    requires Inv(s, todo, k) && b in s.holder && b in Missing(s, todo, s.holder[b])
    requires TouchesOnly(s, s', todo, todo - {b}, b) && Arrived(s, s', b, s.holder[b])
    ensures Inv(s', todo - {b}, k)
  {
    hide RequestOk, Missing, SlotOk;
    var r, todo' := s.holder[b], todo - {b};
    forall x | x in s.want
      ensures RequestOk(s', todo', x)
    {
      ArrivedRequests(s, s', todo, k, b, x);
    }
    assert Distinct(s'.calls) by { CallOnce(s, todo, k, b, r); }
    forall x | x in s'.slots
      ensures SlotOk(s', todo', x)
    {
      if x == b { ArrivedSlot(s, s', todo, k, b); } else { SlotFrame(s, s', todo, todo', x); }
    }
    forall x | x in s'.reading
      ensures x in s'.slots && s'.reading[x] == Stored(s', x)
    {
      assert SameAt(s, s', todo, todo', x);
    }
    forall x, y | SegOf(s', x, y) != BLANK
      ensures y in s'.slots && s'.slots[y].owner == x
    {
      if y != b { assert SameAt(s, s', todo, todo', y); }
    }
    StillBlocked(s, s', k);
  }

  lemma CallOnce(s: Lock, todo: set<nat>, k: nat, b: nat, r: nat)
    requires Inv(s, todo, k) && r in s.want && Granted(s, r) && b in Missing(s, todo, r)
    ensures r !in s.calls && Distinct(s.calls + [r])
  {
  }

  lemma ArrivedSlot(s: Lock, s': Lock, todo: set<nat>, k: nat, b: nat)
    requires Inv(s, todo, k) && b in s.holder && b in Missing(s, todo, s.holder[b])
    requires TouchesOnly(s, s', todo, todo - {b}, b) && Arrived(s, s', b, s.holder[b])
    ensures SlotOk(s', todo - {b}, b)
  {
  }

  /** The request that locked `b` waits for a read of its chain. */
  ghost predicate Waits(s: Lock, s': Lock, b: nat, r: nat) {
    && b in s'.slots && s'.slots == s.slots[b := Slot(s'.slots[b].owner, Some(r))]
    && (b in s.slots ==> s'.slots[b].owner == s.slots[b].owner && b in s.reading)
    && (b !in s.slots ==> s'.slots[b].owner == r)
    && s'.reading == s.reading[b := Stored(s, b)]
    && (forall x :: SegOf(s', x, b) == SegOf(s, x, b))
    && s'.io == s.io && s'.calls == s.calls
  }

  lemma WaitsKeepsInv(s: Lock, s': Lock, todo: set<nat>, k: nat, b: nat)
    requires Inv(s, todo, k) && b in todo
    requires TouchesOnly(s, s', todo, todo - {b}, b) && Waits(s, s', b, s.holder[b])
    ensures Inv(s', todo - {b}, k)
  {
    hide RequestOk, SlotOk;
    var r, todo' := s.holder[b], todo - {b};
    forall x | x in s.want
      ensures RequestOk(s', todo', x)
    {
      WaitsRequests(s, s', todo, k, b, x);
    }
    forall x | x in s'.slots
      ensures SlotOk(s', todo', x)
    {
      if x == b { WaitsSlot(s, s', todo, k, b); } else { SlotFrame(s, s', todo, todo', x); }
    }
    forall x | x in s'.reading
      ensures x in s'.slots && s'.reading[x] == Stored(s', x)
    {
      if x != b { assert SameAt(s, s', todo, todo', x); }
    }
    forall x, y | SegOf(s', x, y) != BLANK
      ensures y in s'.slots && s'.slots[y].owner == x
    {
      if y != b { assert SameAt(s, s', todo, todo', y); }
    }
    StillBlocked(s, s', k);
  }

  lemma WaitsRequests(s: Lock, s': Lock, todo: set<nat>, k: nat, b: nat, x: nat)
    requires Inv(s, todo, k) && b in todo
    requires TouchesOnly(s, s', todo, todo - {b}, b) && Waits(s, s', b, s.holder[b])
    requires x in s.want
    ensures RequestOk(s', todo - {b}, x)
  {
    hide SlotOk, SegOf, Inv, Missing;
    InvAt(s, todo, k, b);
    InvHolder(s, todo, k, b);
    InvRequest(s, todo, k, x);
    if Granted(s, x) { MissingSame(s, s', todo, todo - {b}, x, b); }
  }

  lemma WaitsSlot(s: Lock, s': Lock, todo: set<nat>, k: nat, b: nat)
    requires Inv(s, todo, k) && b in todo
    requires TouchesOnly(s, s', todo, todo - {b}, b) && Waits(s, s', b, s.holder[b])
    ensures SlotOk(s', todo - {b}, b)
  {
  }

  lemma SegOfPut(s: Lock, s': Lock, r: nat, b: nat, g: Seg)
    requires s'.segs == Put(s, r, b, g)
    ensures forall x, y :: SegOf(s', x, y) == if x == r && y == b then g else SegOf(s, x, y)
  {
  }

  lemma SegOfMove(s: Lock, s': Lock, from: nat, to: nat, b: nat)
    requires s'.segs == MoveSeg(s, from, to, b)
    ensures forall x, y :: SegOf(s', x, y) == if y == b && x == to then SegOf(s, from, b)
                                               else if y == b && x == from then BLANK else SegOf(s, x, y)
  {
  }

  /** What the invariant says about one bucket. */
  lemma InvAt(s: Lock, todo: set<nat>, k: nat, b: nat)
    requires Inv(s, todo, k)
    ensures b in s.slots ==> SlotOk(s, todo, b)
    ensures forall x :: b !in s.slots || x != s.slots[b].owner ==> SegOf(s, x, b) == BLANK
    ensures b in s.reading ==> b in s.slots && s.reading[b] == Stored(s, b)
    ensures b in todo ==> b in s.holder
  {
  }

  lemma MissingHere(s: Lock, todo: set<nat>, k: nat, b: nat)
    requires Inv(s, todo, k) && b in s.holder
    requires b in todo || (b in s.slots && s.slots[b].ctx == Some(s.holder[b]))
    ensures s.holder[b] in s.want && b in Missing(s, todo, s.holder[b])
    ensures s.holder[b] in s.io && s.io[s.holder[b]] > 0
  {
  }

  /** The slot has the chain already: it changes hands at once. */
  lemma GrantHeld(s: Lock, todo: set<nat>, k: nat, b: nat)
    requires Inv(s, todo, k) && b in todo && b in s.slots && !SegOf(s, s.slots[b].owner, b).empty
    requires s.holder[b] in s.io && s.io[s.holder[b]] > 0
    ensures Inv(Arrive(s, b, s.holder[b]), todo - {b}, k)
  {
    hide RequestOk, Missing, MoveSeg, SegOf, Inv;
    InvAt(s, todo, k, b);
    var r := s.holder[b];
    var s' := Arrive(s, b, r);
    SegOfMove(s, s', s.slots[b].owner, r, b);
    MissingHere(s, todo, k, b);
    ArrivedKeepsInv(s, s', todo, k, b);
  }

  /** The slot waits for a read that is already under way. */
  lemma GrantReading(s: Lock, todo: set<nat>, k: nat, b: nat)
    requires Inv(s, todo, k) && b in todo && b in s.slots && SegOf(s, s.slots[b].owner, b).empty
    ensures Inv(s.(slots := s.slots[b := s.slots[b].(ctx := Some(s.holder[b]))]), todo - {b}, k)
  {
    hide RequestOk, Missing, Inv, SegOf;
    InvAt(s, todo, k, b);
    var s' := s.(slots := s.slots[b := s.slots[b].(ctx := Some(s.holder[b]))]);
    SegOfSame(s, s');
    assert s'.reading == s.reading[b := Stored(s, b)];
    WaitsKeepsInv(s, s', todo, k, b);
  }

  /** Nobody has the chain, and there is one: read it. */
  lemma GrantFetch(s: Lock, todo: set<nat>, k: nat, b: nat)
    requires Inv(s, todo, k) && b in todo && b !in s.slots && b in s.disk && b in s.holder
    requires s.holder[b] in s.io && s.io[s.holder[b]] > 0
    ensures Inv(GrantOne(s, b), todo - {b}, k)
  {
    hide RequestOk, Missing, MoveSeg, SegOf, Put, Inv, SlotOk;
    InvAt(s, todo, k, b);
    var s' := GrantOne(s, b);
    SegOfSame(s, s');
    WaitsKeepsInv(s, s', todo, k, b);
  }

  /** There is no chain: an empty segment is there at once. */
  lemma GrantNothing(s: Lock, todo: set<nat>, k: nat, b: nat)
    requires Inv(s, todo, k) && b in todo && b !in s.slots && b !in s.disk && b in s.holder
    requires s.holder[b] in s.io && s.io[s.holder[b]] > 0
    ensures Inv(GrantOne(s, b), todo - {b}, k)
  {
    hide RequestOk, Missing, MoveSeg, SegOf, Put, Inv, SlotOk;
    InvAt(s, todo, k, b);
    MissingHere(s, todo, k, b);
    var r, s' := s.holder[b], GrantOne(s, b);
    var s1 := s.(slots := s.slots[b := Slot(r, Some(r))]);
    var s2 := s1.(segs := Put(s1, r, b, Seg(false, false, NOTHING)));
    SegOfSame(s, s1);
    SegOfPut(s1, s2, r, b, Seg(false, false, NOTHING));
    SegOfMove(s2, s', r, r, b);
    assert s'.slots == s.slots[b := Slot(r, None)];
    ArrivedKeepsInv(s, s', todo, k, b);
  }

  lemma GrantFresh(s: Lock, todo: set<nat>, k: nat, b: nat)
    requires Inv(s, todo, k) && b in todo && b !in s.slots && b in s.holder
    requires s.holder[b] in s.io && s.io[s.holder[b]] > 0
    ensures Inv(GrantOne(s, b), todo - {b}, k)
    ensures var s' := GrantOne(s, b);
            && s'.queue == s.queue && s'.order == s.order && s'.want == s.want
            && s'.edited == s.edited && s'.disk == s.disk
  {
    hide RequestOk, Missing, MoveSeg, SegOf, Put, Inv, SlotOk;
    if b in s.disk { GrantFetch(s, todo, k, b); } else { GrantNothing(s, todo, k, b); }
  }

  lemma SegOfSame(s: Lock, s': Lock)
    requires s'.segs == s.segs
    ensures forall x, y :: SegOf(s', x, y) == SegOf(s, x, y)
  {
  }

  /** try_lock, one bucket: the slot is arranged, nothing else moves. */
  lemma GrantOneKeepsInv(s: Lock, todo: set<nat>, k: nat, b: nat)
    requires Inv(s, todo, k) && b in todo
    ensures b in s.holder && s.holder[b] in s.io && s.io[s.holder[b]] > 0
    ensures Inv(GrantOne(s, b), todo - {b}, k)
    ensures var s' := GrantOne(s, b);
            && s'.queue == s.queue && s'.order == s.order && s'.want == s.want
            && s'.edited == s.edited && s'.disk == s.disk
  {
    hide RequestOk, Missing, SlotOk, MoveSeg, SegOf, Put, Inv;
    InvAt(s, todo, k, b);
    MissingHere(s, todo, k, b);
    if b in s.slots {
      if SegOf(s, s.slots[b].owner, b).empty { GrantReading(s, todo, k, b); } else { GrantHeld(s, todo, k, b); }
    } else {
      GrantFresh(s, todo, k, b);
    }
  }

  /** A finished read goes to the request that waits for it, or stays where it is. */
  lemma ReadDoneKeepsInv(s: Lock, k: nat, b: nat)
    requires Inv(s, {}, k) && b in s.reading
    ensures b in s.slots
    ensures s.slots[b].ctx.Some? ==> var r := s.slots[b].ctx.value; r in s.io && s.io[r] > 0
    ensures Inv(ReadDone(s, b), {}, k)
  {
    hide RequestOk, Missing, MoveSeg, SegOf, Put, Inv;
    InvAt(s, {}, k, b);
    var t := s.slots[b];
    var s1 := s.(segs := Put(s, t.owner, b, Seg(false, false, s.reading[b])), reading := s.reading - {b});
    SegOfPut(s, s1, t.owner, b, Seg(false, false, s.reading[b]));
    if t.ctx.Some? {
      MissingHere(s, {}, k, b);
      var s' := ReadDone(s, b);
      SegOfMove(s1, s', t.owner, t.ctx.value, b);
      assert {} - {b} == {};
      ArrivedKeepsInv(s, s', {}, k, b);
    } else {
      FetchedKeepsInv(s, s1, k, b);
    }
  }

  lemma FetchedKeepsInv(s: Lock, s': Lock, k: nat, b: nat)
    requires Inv(s, {}, k) && b in s.reading && b in s.slots && s.slots[b].ctx.None?
    requires s' == s.(segs := s'.segs, reading := s.reading - {b})
    requires forall x, y :: SegOf(s', x, y) == if x == s.slots[b].owner && y == b then Seg(false, false, s.reading[b])
                                                else SegOf(s, x, y)
    ensures Inv(s', {}, k)
  {
    hide Missing, SegOf, RequestOk, SlotOk;
    forall x | x in s.want
      ensures RequestOk(s', {}, x)
    {
      RequestFrame(s, s', {}, x);
    }
    forall x | x in s'.slots
      ensures SlotOk(s', {}, x)
    {
      FetchedSlots(s, s', k, b, x);
    }
    StillBlocked(s, s', k);
  }

  lemma FetchedSlots(s: Lock, s': Lock, k: nat, b: nat, x: nat)
    requires Inv(s, {}, k) && b in s.reading && b in s.slots && s.slots[b].ctx.None?
    requires s' == s.(segs := s'.segs, reading := s.reading - {b})
    requires forall x, y :: SegOf(s', x, y) == if x == s.slots[b].owner && y == b then Seg(false, false, s.reading[b])
                                                else SegOf(s, x, y)
    requires x in s.slots
    ensures SlotOk(s', {}, x)
  {
    hide RequestOk, Missing, Inv, SegOf;
    InvAt(s, {}, k, x);
  }

  lemma RequestFrame(s: Lock, s': Lock, todo: set<nat>, x: nat)
    requires s'.want == s.want && s'.order == s.order && s'.queue == s.queue && s'.holder == s.holder
    requires s'.io == s.io && s'.calls == s.calls && s'.slots == s.slots
    requires s'.edited == s.edited
    requires x in s.want && RequestOk(s, todo, x)
    ensures RequestOk(s', todo, x)
  {
  }

  // ----- requests come and go -----

  lemma {:induction false} DistinctSize(xs: seq<nat>, ys: set<nat>)
    requires Distinct(xs) && forall x :: x in xs <==> x in ys
    ensures |ys| == |xs|
  {
    if xs == [] {
      assert ys == {};
    } else {
      var n := |xs| - 1;
      assert xs == xs[..n] + [xs[n]];
      DistinctSize(xs[..n], ys - {xs[n]});
    }
  }

  function Elements(bs: seq<nat>): set<nat> { set b | b in bs }

  /** A new request takes its place at the end of the queue. */
  function Enqueue(s: Lock, r: nat, bs: seq<nat>): Lock {
    s.(order := s.order[r := bs], want := s.want[r := Elements(bs)], queue := s.queue + [r])
  }

  /** A waiter leaves the queue and locks its buckets. */
  function GrantAt(s: Lock, k: nat): Lock
    requires k < |s.queue| && s.queue[k] in s.order
  {
    Begin(s.(queue := Without(s.queue, k)), s.queue[k])
  }

  lemma EnqueueRequests(s: Lock, r: nat, bs: seq<nat>, x: nat)
    requires r !in s.want && r !in s.calls && bs != [] && Distinct(bs)
    requires x == r || (x in s.want && RequestOk(s, {}, x))
    ensures RequestOk(Enqueue(s, r, bs), {}, x)
  {
    hide Missing;
    var s' := Enqueue(s, r, bs);
    if x == r {
      assert r == s'.queue[|s.queue|];
      assert bs[0] in s'.want[r];
    } else {
      assert x in s'.queue <==> x in s.queue;
      MissingSame(s, s', {}, {}, x, 0);
    }
  }

  lemma EnqueueSlots(s: Lock, r: nat, bs: seq<nat>, x: nat)
    requires Inv(s, {}, |s.queue|) && r !in s.want && x in s.slots
    ensures SlotOk(Enqueue(s, r, bs), {}, x)
  {
    hide SegOf, RequestOk, Missing, Inv;
    InvAt(s, {}, |s.queue|, x);
    SegOfSame(s, Enqueue(s, r, bs));
  }

  lemma EnqueueKeepsInv(s: Lock, r: nat, bs: seq<nat>)
    requires Inv(s, {}, |s.queue|) && r !in s.want && r !in s.calls && bs != [] && Distinct(bs)
    ensures Inv(Enqueue(s, r, bs), {}, |s.queue|)
  {
    hide SegOf, RequestOk, Missing, SlotOk;
    var s' := Enqueue(s, r, bs);
    SegOfSame(s, s');
    forall x | x in s'.want
      ensures RequestOk(s', {}, x)
    {
      EnqueueRequests(s, r, bs, x);
    }
    forall x | x in s'.slots
      ensures SlotOk(s', {}, x)
    {
      EnqueueSlots(s, r, bs, x);
    }
    forall i | 0 <= i < |s.queue|
      ensures s.queue[i] != r && Blocked(s', s'.queue[i])
    {
      assert Blocked(s, s.queue[i]);
    }
    forall x | x in s'.holder
      ensures Granted(s', s'.holder[x]) && x in s'.want[s'.holder[x]]
    {
      assert Granted(s, s.holder[x]);
    }
  }

  lemma QueueWithout(s: Lock, k: nat, x: nat)
    requires k < |s.queue| && Distinct(s.queue)
    ensures x in Without(s.queue, k) <==> x in s.queue && x != s.queue[k]
    ensures Distinct(Without(s.queue, k))
  {
  }

  lemma GrantAtRequests(s: Lock, k: nat, x: nat)
    requires k < |s.queue| && Distinct(s.queue) && s.queue[k] in s.want && !Blocked(s, s.queue[k])
    requires x in s.want && RequestOk(s, {}, x) && RequestOk(s, {}, s.queue[k])
    ensures RequestOk(GrantAt(s, k), s.want[s.queue[k]], x)
  {
    var r := s.queue[k];
    var s', todo := GrantAt(s, k), s.want[r];
    QueueWithout(s, k, x);
    if x == r {
      assert Missing(s', todo, r) == s.want[r];
      DistinctSize(s.order[r], s.want[r]);
    } else if Granted(s, x) {
      assert forall b :: b in s.want[x] ==> b in s.holder && b !in todo;
      assert Missing(s', todo, x) == Missing(s, {}, x);
    }
  }

  lemma GrantAtSlots(s: Lock, k: nat, x: nat)
    requires k < |s.queue| && Distinct(s.queue) && s.queue[k] in s.want && !Blocked(s, s.queue[k])
    requires s.queue[k] in s.order && Elements(s.order[s.queue[k]]) == s.want[s.queue[k]]
    requires x in s.slots && SlotOk(s, {}, x)
    ensures SlotOk(GrantAt(s, k), s.want[s.queue[k]], x)
  {
    hide SegOf, Without;
    var r := s.queue[k];
    var s', todo := GrantAt(s, k), s.want[r];
    SegOfSame(s, s');
    QueueWithout(s, k, s.slots[x].owner);
    assert x in s'.holder <==> x in s.holder || x in todo;
  }

  lemma GrantAtKeepsInv(s: Lock, k: nat)
    requires Inv(s, {}, k) && k < |s.queue| && s.queue[k] in s.want && !Blocked(s, s.queue[k])
    requires s.queue[k] in s.order && Elements(s.order[s.queue[k]]) == s.want[s.queue[k]]
    ensures Inv(GrantAt(s, k), s.want[s.queue[k]], k)
  {
    hide SegOf, Missing, SlotOk, RequestOk;
    var r := s.queue[k];
    var s', todo := GrantAt(s, k), s.want[r];
    SegOfSame(s, s');
    forall x | x in s.want
      ensures RequestOk(s', todo, x)
    {
      GrantAtRequests(s, k, x);
    }
    forall x | x in s.slots
      ensures SlotOk(s', todo, x)
    {
      GrantAtSlots(s, k, x);
    }
    GrantAtHolders(s, k, todo);
    forall i | 0 <= i < k
      ensures Blocked(s', s'.queue[i])
    {
      assert Blocked(s, s.queue[i]);
    }
  }

  lemma WaiterOrder(s: Lock, todo: set<nat>, k: nat, r: nat)
    requires Inv(s, todo, k) && r in s.queue
    ensures r in s.want && r in s.order && Elements(s.order[r]) == s.want[r] && Distinct(s.order[r])
  {
  }

  lemma GrantAtHolders(s: Lock, k: nat, todo: set<nat>)
    requires k < |s.queue| && Distinct(s.queue) && s.queue[k] in s.want && s.queue[k] in s.order
    requires todo == s.want[s.queue[k]] == Elements(s.order[s.queue[k]])
    requires forall b :: b in s.holder ==> Granted(s, s.holder[b]) && b in s.want[s.holder[b]]
    requires !Blocked(s, s.queue[k])
    ensures var s' := GrantAt(s, k);
            && Distinct(s'.queue) && k <= |s'.queue|
            && (forall i :: 0 <= i < |s'.queue| ==> s'.queue[i] in s.queue)
            && (forall b :: b in s'.holder <==> b in s.holder || b in todo)
            && (forall b :: b in s.holder ==> s'.holder[b] == s.holder[b])
            && (forall b :: b in s'.holder ==> Granted(s', s'.holder[b]) && b in s'.want[s'.holder[b]])
  {
  }

  /** A waiter that prefetches: the slot is new, and nobody has locked the bucket. */
  lemma PrefetchKeepsInv(s: Lock, k: nat, r: nat, b: nat)
    requires Inv(s, {}, k) && r in s.queue && r in s.want && b in s.want[r]
    ensures Inv(Prefetch(s, r, b), {}, k)
    ensures var s' := Prefetch(s, r, b);
        s'.queue == s.queue && s'.want == s.want && s'.edited == s.edited && s'.disk == s.disk
  {
    if b !in s.slots {
      hide SegOf, Put;
      var s' := Prefetch(s, r, b);
      InvAt(s, {}, k, b);
      assert b !in s.holder;
      if b in s.disk { SegOfSame(s, s'); } else {
        var s1 := s.(slots := s.slots[b := Slot(r, None)]);
        SegOfSame(s, s1);
        SegOfPut(s1, s', r, b, Seg(false, false, NOTHING));
      }
      PrefetchedKeepsInv(s, s', k, r, b);
    }
  }

  lemma PrefetchedKeepsInv(s: Lock, s': Lock, k: nat, r: nat, b: nat)
    requires Inv(s, {}, k) && r in s.queue && r in s.want && b in s.want[r] && b !in s.slots && b !in s.holder
    requires s' == s.(slots := s.slots[b := Slot(r, None)], segs := s'.segs, reading := s'.reading)
    requires s'.reading == if b in s.disk then s.reading[b := s.disk[b]] else s.reading
    requires forall x, y :: SegOf(s', x, y) ==
               if x == r && y == b && b !in s.disk then Seg(false, false, NOTHING) else SegOf(s, x, y)
    ensures Inv(s', {}, k)
  {
    hide SegOf, SlotOk, RequestOk, Missing, Blocked, Granted;
    InvAt(s, {}, k, b);
    forall x | x in s.want
      ensures RequestOk(s', {}, x)
    {
      PrefetchedRequest(s, s', b, x);
    }
    forall x | x in s'.slots
      ensures SlotOk(s', {}, x)
    {
      if x == b { PrefetchedSlot(s, s', k, r, b); } else { PrefetchedOther(s, s', k, b, x); }
    }
    StillBlocked(s, s', k);
  }

  lemma PrefetchedOther(s: Lock, s': Lock, k: nat, b: nat, x: nat)
    requires Inv(s, {}, k) && x != b && x in s.slots
    requires exists r :: s'.slots == s.slots[b := Slot(r, None)]
    requires s' == s.(slots := s'.slots, segs := s'.segs, reading := s'.reading)
    requires x in s'.reading <==> x in s.reading
    requires x in s.reading ==> s'.reading[x] == s.reading[x]
    requires forall r :: SegOf(s', r, x) == SegOf(s, r, x)
    ensures SlotOk(s', {}, x)
  {
    hide SegOf, SlotOk, RequestOk, Missing, Inv;
    InvAt(s, {}, k, x);
    SlotFrame(s, s', {}, {}, x);
  }

  lemma PrefetchedRequest(s: Lock, s': Lock, b: nat, x: nat)
    requires b !in s.slots && s' == s.(slots := s'.slots, segs := s'.segs, reading := s'.reading)
    requires exists r :: s'.slots == s.slots[b := Slot(r, None)]
    requires x in s.want && RequestOk(s, {}, x)
    ensures RequestOk(s', {}, x)
  {
    assert Missing(s', {}, x) == Missing(s, {}, x);
  }

  lemma PrefetchedSlot(s: Lock, s': Lock, k: nat, r: nat, b: nat)
    requires Inv(s, {}, k) && r in s.queue && r in s.want && b in s.want[r] && b !in s.slots && b !in s.holder
    requires s' == s.(slots := s.slots[b := Slot(r, None)], segs := s'.segs, reading := s'.reading)
    requires s'.reading == if b in s.disk then s.reading[b := s.disk[b]] else s.reading
    requires SegOf(s', r, b) == if b in s.disk then SegOf(s, r, b) else Seg(false, false, NOTHING)
    ensures SlotOk(s', {}, b)
  {
  }

  // ----- release -----

  /** Request `r` has its callback and holds bucket `b`. */
  ghost predicate Holds(s: Lock, r: nat, b: nat) {
    Granted(s, r) && r in s.calls && b in s.want[r]
  }

  lemma ForgetHolds(s: Lock, s': Lock, r: nat, b: nat, x: nat, y: nat)
    requires r in s.want && s'.calls == s.calls && s'.queue == s.queue && s'.want == Forget(s, r, b).want
    ensures Holds(s', x, y) <==> Holds(s, x, y) && !(x == r && y == b)
  {
    var left := s.want[r] - {b};
    assert y in s.want[r] && y != b <==> y in left;
  }

  lemma ReleaseOneRest(s: Lock, r: nat, b: nat)
    requires r in s.want && forall j :: 0 <= j < |s.queue| ==> s.queue[j] in s.order
    ensures var s' := ReleaseOne(s, r, b);
            s'.calls == s.calls && s'.queue == s.queue && s'.want == Forget(s, r, b).want
  {
    hide SegOf, FirstWaiter, MoveSeg, Put, Forget;
    ForgetRest(s, r, b);
  }

  lemma ForgetRest(s: Lock, r: nat, b: nat)
    requires r in s.want
    ensures Forget(s, r, b).calls == s.calls && Forget(s, r, b).queue == s.queue
  {
  }

  /** A delivered request owns the segment of every bucket it holds. */
  lemma HolderOwns(s: Lock, k: nat, r: nat, b: nat)
    requires Inv(s, {}, k) && Holds(s, r, b)
    ensures b in s.holder && s.holder[b] == r && b in s.slots && s.slots[b] == Slot(r, None)
    ensures !SegOf(s, r, b).empty && b !in s.reading
    ensures !SegOf(s, r, b).dirty ==> SegOf(s, r, b).chain == Stored(s, b)
  {
  }

  lemma ReleaseRequests(s: Lock, s': Lock, r: nat, b: nat, x: nat)
    requires x in s.want && RequestOk(s, {}, x) && r in s.want && RequestOk(s, {}, r) && Granted(s, r) && b in s.want[r]
    requires r in s.calls && x in s'.want
    requires var f := Forget(s, r, b); s' == f.(segs := s'.segs, slots := s'.slots)
    requires forall y :: y != b ==> (y in s'.slots <==> y in s.slots) && (y in s.slots ==> s'.slots[y] == s.slots[y])
    requires b in s'.slots ==> s'.slots[b].ctx.None?
    requires b in s.slots && s.slots[b] == Slot(r, None)
    ensures RequestOk(s', {}, x)
  {
    if Granted(s, x) {
      assert Missing(s', {}, x) == Missing(s, {}, x);
    }
  }

  lemma ReleaseSlots(s: Lock, s': Lock, k: nat, r: nat, b: nat, x: nat)
    requires Inv(s, {}, k) && Holds(s, r, b) && x in s.slots && x != b
    requires var f := Forget(s, r, b); s' == f.(segs := s'.segs, slots := s'.slots)
    requires x in s'.slots && s'.slots[x] == s.slots[x] && forall y :: SegOf(s', y, x) == SegOf(s, y, x)
    ensures SlotOk(s', {}, x)
  {
    hide Inv, SegOf, RequestOk, Missing;
    InvAt(s, {}, k, x);
  }

  /** What is left after bucket `b` of request `r` has been given up. */
  ghost predicate Released(s: Lock, s': Lock, r: nat, b: nat) {
    && r in s.want
    && s' == Forget(s, r, b).(segs := s'.segs, slots := s'.slots)
    && (forall y :: y != b ==> (y in s'.slots <==> y in s.slots) && (y in s.slots ==> s'.slots[y] == s.slots[y]))
    && (forall x, y :: y != b ==> SegOf(s', x, y) == SegOf(s, x, y))
    && (if b in s'.slots then
          && s'.slots[b].ctx.None? && s'.slots[b].owner in s.queue && s'.slots[b].owner in s.want
          && b in s.want[s'.slots[b].owner]
          && (forall x :: SegOf(s', x, b) == if x == s'.slots[b].owner then Seg(false, false, Stored(s, b)) else BLANK)
        else
          forall x :: SegOf(s', x, b) == BLANK)
  }

  lemma ReleasedKeepsInv(s: Lock, s': Lock, k: nat, r: nat, b: nat)
    requires Inv(s, {}, k) && Holds(s, r, b) && Released(s, s', r, b)
    ensures Inv(s', {}, 0)
  {
    hide SegOf, RequestOk, Missing, SlotOk, Blocked, Stored;
    HolderOwns(s, k, r, b);
    forall x | x in s'.want
      ensures RequestOk(s', {}, x)
    {
      ReleaseRequests(s, s', r, b, x);
    }
    forall x | x in s'.slots
      ensures SlotOk(s', {}, x)
    {
      if x == b { ReleasedSlot(s, s', k, r, b); } else { ReleaseSlots(s, s', k, r, b, x); }
    }
    forall x | x in s'.holder
      ensures Granted(s', s'.holder[x]) && x in s'.want[s'.holder[x]]
    {
      ForgetHolder(s, s', r, b, x);
    }
    forall x | x in s'.reading
      ensures x in s'.slots && s'.reading[x] == Stored(s', x)
    {
      SameStored(s, s', x);
    }
  }

  lemma SameStored(s: Lock, s': Lock, b: nat)
    requires s'.disk == s.disk
    ensures Stored(s', b) == Stored(s, b)
  {
  }

  lemma ForgetHolder(s: Lock, s': Lock, r: nat, b: nat, x: nat)
    requires r in s.want && s'.queue == s.queue && x in s'.holder
    requires s'.want == Forget(s, r, b).want && s'.holder == Forget(s, r, b).holder
    requires x in s.holder ==> Granted(s, s.holder[x]) && x in s.want[s.holder[x]]
    ensures Granted(s', s'.holder[x]) && x in s'.want[s'.holder[x]]
  {
    var left := s.want[r] - {b};
    assert s.holder[x] == r ==> x in left;
  }

  lemma ReleasedSlot(s: Lock, s': Lock, k: nat, r: nat, b: nat)
    requires Inv(s, {}, k) && Holds(s, r, b) && Released(s, s', r, b) && b in s'.slots
    ensures SlotOk(s', {}, b)
  {
  }

  lemma ReleaseOneKeepsInv(s: Lock, k: nat, r: nat, b: nat)
    requires Inv(s, {}, k) && Holds(s, r, b)
    requires forall j :: 0 <= j < |s.queue| ==> s.queue[j] in s.order
    ensures Inv(ReleaseOne(s, r, b), {}, 0)
  {
    hide SegOf, RequestOk, Missing, SlotOk, Inv, MoveSeg, Put;
    var s' := ReleaseOne(s, r, b);
    var w := FirstWaiter(s, b, 0);
    HolderOwns(s, k, r, b);
    InvAt(s, {}, k, b);
    if w < |s.queue| && !SegOf(s, r, b).dirty {
      WaiterOrder(s, {}, k, s.queue[w]);
      SegOfMove(s, s', r, s.queue[w], b);
      CleanSeg(s, k, r, b);
    } else {
      SegOfPut(s, s', r, b, BLANK);
    }
    ReleasedKeepsInv(s, s', k, r, b);
  }

  lemma CleanSeg(s: Lock, k: nat, r: nat, b: nat)
    requires Inv(s, {}, k) && Holds(s, r, b) && !SegOf(s, r, b).dirty
    ensures SegOf(s, r, b) == Seg(false, false, Stored(s, b))
  {
    hide SegOf, RequestOk, Missing, SlotOk, Inv;
    HolderOwns(s, k, r, b);
  }

  /** Why a change has to mark its segment: after a change to `c` that is given up,
      whoever has the segment next sees the stored chain if and only if the segment
      was marked, no waiter wants it, or nothing had changed. */
  lemma UnmarkedChangeLeaksIff(s: Lock, k: nat, r: nat, b: nat, c: Chain, mark: bool)
    requires Inv(s, {}, k) && Holds(s, r, b)
    requires forall j :: 0 <= j < |s.queue| ==> s.queue[j] in s.order
    ensures var s' := ReleaseOne(s.(segs := Put(s, r, b, Seg(false, mark, c))), r, b);
            (forall x :: !SegOf(s', x, b).empty ==> SegOf(s', x, b).chain == Stored(s', b)) <==>
            mark || c == Stored(s, b) || forall j :: 0 <= j < |s.queue| ==> b !in s.order[s.queue[j]]
  {
    hide SegOf, RequestOk, Missing, SlotOk, Inv, MoveSeg, Put, FirstWaiter;
    var s1 := s.(segs := Put(s, r, b, Seg(false, mark, c)));
    var s' := ReleaseOne(s1, r, b);
    var w := FirstWaiter(s1, b, 0);
    InvAt(s, {}, k, b);
    HolderOwns(s, k, r, b);
    SegOfPut(s, s1, r, b, Seg(false, mark, c));
    if w < |s.queue| && !mark {
      SegOfMove(s1, s', r, s.queue[w], b);
      assert SegOf(s', s.queue[w], b) == Seg(false, mark, c);
      assert b in s.order[s.queue[w]];
    } else {
      SegOfPut(s1, s', r, b, BLANK);
    }
  }

  // ----- the holder at work -----

  lemma HolderWrites(s: Lock, s': Lock, k: nat, r: nat, b: nat)
    requires Inv(s, {}, k) && Holds(s, r, b)
    requires s' == s.(segs := s'.segs, disk := s'.disk, edited := s'.edited)
    requires forall x, y :: x != r || y != b ==> SegOf(s', x, y) == SegOf(s, x, y)
    requires forall y :: y != b ==> Stored(s', y) == Stored(s, y)
    requires s.edited <= s'.edited <= s.edited + {r}
    requires var g := SegOf(s', r, b); !g.empty && if g.dirty then r in s'.edited else g.chain == Stored(s', b)
    ensures Inv(s', {}, k)
  {
    hide SegOf, RequestOk, Missing, SlotOk;
    HolderOwns(s, k, r, b);
    forall x | x in s.want
      ensures RequestOk(s', {}, x)
    {
      WriterRequests(s, s', x);
    }
    forall x | x in s.slots
      ensures SlotOk(s', {}, x)
    {
      WriterSlots(s, s', k, r, b, x);
    }
    StillBlocked(s, s', k);
  }

  lemma WriterRequests(s: Lock, s': Lock, x: nat)
    requires s' == s.(segs := s'.segs, disk := s'.disk, edited := s'.edited)
    requires x in s.want && RequestOk(s, {}, x)
    ensures RequestOk(s', {}, x)
  {
  }

  lemma WriterSlots(s: Lock, s': Lock, k: nat, r: nat, b: nat, x: nat)
    requires Inv(s, {}, k) && Holds(s, r, b) && x in s.slots
    requires s' == s.(segs := s'.segs, disk := s'.disk, edited := s'.edited)
    requires forall x, y :: x != r || y != b ==> SegOf(s', x, y) == SegOf(s, x, y)
    requires forall y :: y != b ==> Stored(s', y) == Stored(s, y)
    requires s.edited <= s'.edited
    requires var g := SegOf(s', r, b); !g.empty && if g.dirty then r in s'.edited else g.chain == Stored(s', b)
    ensures SlotOk(s', {}, x)
  {
    hide SegOf, RequestOk, Missing, Inv;
    HolderOwns(s, k, r, b);
    InvAt(s, {}, k, x);
  }

  lemma EditKeepsInv(s: Lock, k: nat, r: nat, b: nat, c: Chain)
    requires Inv(s, {}, k) && Holds(s, r, b)
    ensures Inv(Edit(s, r, b, c), {}, k)
  {
    hide SegOf, RequestOk, Missing, SlotOk, Inv, Put;
    var s' := Edit(s, r, b, c);
    SegOfPut(s, s', r, b, Seg(false, true, c));
    HolderWrites(s, s', k, r, b);
  }

  lemma CommitKeepsInv(s: Lock, k: nat, r: nat, b: nat)
    requires Inv(s, {}, k) && Holds(s, r, b)
    ensures Inv(Commit(s, r, b), {}, k)
  {
    hide SegOf, RequestOk, Missing, SlotOk, Inv, Put;
    var s' := Commit(s, r, b);
    HolderOwns(s, k, r, b);
    SegOfPut(s, s', r, b, SegOf(s, r, b).(dirty := false));
    HolderWrites(s, s', k, r, b);
  }

  // ----- whole handlers -----

  /** Between handlers: no grant under way, every waiter blocked. */
  ghost predicate Good(s: Lock) {
    Inv(s, {}, |s.queue|)
  }

  lemma ElementsStep(bs: seq<nat>)
    requires bs != [] && Distinct(bs)
    ensures Elements(bs) - {bs[0]} == Elements(bs[1..]) && bs[0] in Elements(bs)
  {
  }

  lemma SegsOnly(s: Lock, s': Lock, x: nat, y: nat, b: nat, g: Seg)
    requires s'.segs == s.segs
    ensures SegOf(s', x, b) == SegOf(s, x, b) && MoveSeg(s', x, y, b) == MoveSeg(s, x, y, b)
    ensures Put(s', x, b, g) == Put(s, x, b, g)
  {
  }

  lemma ArriveQueue(s: Lock, b: nat, r: nat, q: seq<nat>)
    requires b in s.slots && r in s.io && s.io[r] > 0
    ensures Arrive(s.(queue := q), b, r) == Arrive(s, b, r).(queue := q)
    ensures Arrive(s, b, r).holder == s.holder && Arrive(s, b, r).queue == s.queue
  {
  }

  /** Arranging a slot does not look at the queue. */
  lemma GrantOneQueue(s: Lock, b: nat, q: seq<nat>)
    requires b in s.holder && s.holder[b] in s.io && s.io[s.holder[b]] > 0
    ensures GrantOne(s.(queue := q), b) == GrantOne(s, b).(queue := q)
    ensures GrantOne(s, b).holder == s.holder && GrantOne(s, b).queue == s.queue
  {
    hide SegOf, MoveSeg, Arrive, Put;
    var r := s.holder[b];
    if b in s.slots {
      SegsOnly(s, s.(queue := q), s.slots[b].owner, r, b, BLANK);
      ArriveQueue(s, b, r, q);
    } else {
      GrantFetchQueue(s, b, q);
    }
  }

  /** The same when the chain has to be fetched. */
  lemma GrantFetchQueue(s: Lock, b: nat, q: seq<nat>)
    requires b in s.holder && s.holder[b] in s.io && s.io[s.holder[b]] > 0 && b !in s.slots
    ensures GrantOne(s.(queue := q), b) == GrantOne(s, b).(queue := q)
    ensures GrantOne(s, b).holder == s.holder && GrantOne(s, b).queue == s.queue
  {
    hide SegOf, MoveSeg, Arrive, Put;
    var r := s.holder[b];
    var s1 := s.(slots := s.slots[b := Slot(r, Some(r))]);
    SegsOnly(s1, s1.(queue := q), r, r, b, Seg(false, false, NOTHING));
    var s2 := StartGet(s1, r, b);
    assert StartGet(s1.(queue := q), r, b) == s2.(queue := q);
    ArriveQueue(s2, b, r, q);
  }

  /** The second loop of try_lock. */
  ghost function GrantAll(s: Lock, bs: seq<nat>, k: nat): (s': Lock)
    requires Inv(s, Elements(bs), k) && Distinct(bs)
    ensures Inv(s', {}, k)
    ensures s'.queue == s.queue && s'.order == s.order && s'.want == s.want && s'.edited == s.edited
    ensures s'.disk == s.disk
    decreases |bs|
  {
    hide GrantOne, Inv;
    if bs == [] then
      assert Elements(bs) == {}; s
    else
      ElementsStep(bs);
      GrantOneKeepsInv(s, Elements(bs), k, bs[0]);
      GrantAll(GrantOne(s, bs[0]), bs[1..], k)
  }

  /** try_lock of waiter `k`, which is not blocked. */
  ghost function Grant(s: Lock, k: nat): (s': Lock)
    requires Inv(s, {}, k) && k < |s.queue| && s.queue[k] in s.want && !Blocked(s, s.queue[k])
    ensures Inv(s', {}, k)
    ensures s'.queue == Without(s.queue, k) && s'.order == s.order && s'.want == s.want && s'.edited == s.edited
    ensures s'.disk == s.disk
  {
    WaiterOrder(s, {}, k, s.queue[k]);
    GrantAtKeepsInv(s, k);
    GrantAll(GrantAt(s, k), s.order[s.queue[k]], k)
  }

  /** The loop over the queue at the end of kv_bucket_unlock. */
  ghost function Retry(s: Lock, k: nat): (s': Lock)
    requires Inv(s, {}, k)
    ensures Good(s') && s'.edited == s.edited && s'.disk == s.disk
    decreases |s.queue| - k
  {
    hide SegOf, RequestOk, Missing, SlotOk, Inv;
    CheckedOne(s, k);
    if k == |s.queue| then s
    else if Blocked(s, s.queue[k]) then Retry(s, k + 1)
    else Retry(Grant(s, k), k)
  }

  lemma CheckedOne(s: Lock, k: nat)
    requires Inv(s, {}, k)
    ensures k <= |s.queue|
    ensures k < |s.queue| ==> s.queue[k] in s.want && (Blocked(s, s.queue[k]) ==> Inv(s, {}, k + 1))
  {
    hide RequestOk, SlotOk, SegOf, Granted, Blocked, Stored;
  }

  ghost function PrefetchAll(s: Lock, r: nat, bs: seq<nat>): (s': Lock)
    requires Good(s) && r in s.queue && r in s.want && forall b :: b in bs ==> b in s.want[r]
    ensures Good(s') && s'.edited == s.edited && s'.disk == s.disk
    decreases |bs|
  {
    hide Prefetch, Inv;
    if bs == [] then s
    else PrefetchKeepsInv(s, |s.queue|, r, bs[0]); PrefetchAll(Prefetch(s, r, bs[0]), r, bs[1..])
  }

  /** kv_bucket_lock. */
  ghost function LockReq(s: Lock, r: nat, bs: seq<nat>): (s': Lock)
    requires Good(s) && r !in s.want && r !in s.calls && bs != [] && Distinct(bs)
    ensures Good(s') && s'.edited == s.edited && s'.disk == s.disk
  {
    hide Inv, Blocked;
    EnqueueKeepsInv(s, r, bs);
    var s1 := Enqueue(s, r, bs);
    assert s1.queue[|s.queue|] == r;
    CheckedOne(s1, |s.queue|);
    if Blocked(s1, r) then PrefetchAll(s1, r, bs) else Grant(s1, |s.queue|)
  }

  lemma {:induction false} PrefetchedAll(s: Lock, r: nat, bs: seq<nat>)
    requires Good(s) && r in s.queue && r in s.want && forall b :: b in bs ==> b in s.want[r]
    ensures var s' := PrefetchAll(s, r, bs);
            && s'.queue == s.queue
            && (forall b :: b in s.slots ==> b in s'.slots) && forall b :: b in bs ==> b in s'.slots
    decreases |bs|
  {
    hide Prefetch, Inv;
    if bs != [] {
      PrefetchKeepsInv(s, |s.queue|, r, bs[0]);
      PrefetchSlots(s, r, bs[0]);
      PrefetchedAll(Prefetch(s, r, bs[0]), r, bs[1..]);
    }
  }

  lemma PrefetchSlots(s: Lock, r: nat, b: nat)
    ensures b in Prefetch(s, r, b).slots && forall x :: x in s.slots ==> x in Prefetch(s, r, b).slots
  {
    hide Put;
  }

  /** A request that has to wait has every one of its segments cached or on its way,
      if not with itself then with another. */
  lemma WaiterIsPrefetched(s: Lock, r: nat, bs: seq<nat>)
    requires Good(s) && r !in s.want && r !in s.calls && bs != [] && Distinct(bs)
    ensures var s' := LockReq(s, r, bs); r in s'.queue ==> forall b :: b in bs ==> b in s'.slots
  {
    hide Inv, PrefetchAll, Grant;
    EnqueueKeepsInv(s, r, bs);
    var s1 := Enqueue(s, r, bs);
    assert s1.queue[|s.queue|] == r;
    CheckedOne(s1, |s.queue|);
    if Blocked(s1, r) {
      PrefetchedAll(s1, r, bs);
    } else {
      NewInQueue(s, r, bs);
    }
  }

  lemma NewInQueue(s: Lock, r: nat, bs: seq<nat>)
    requires Good(s) && r !in s.want && r !in s.calls && bs != [] && Distinct(bs)
    ensures r !in Without(Enqueue(s, r, bs).queue, |s.queue|)
  {
    hide RequestOk, SlotOk, SegOf, Blocked;
  }

  ghost predicate HoldsAll(s: Lock, r: nat, bs: seq<nat>) {
    Distinct(bs) && forall b :: b in bs ==> Holds(s, r, b)
  }

  lemma OrdersKnown(s: Lock, k: nat)
    requires Inv(s, {}, k)
    ensures forall j :: 0 <= j < |s.queue| ==> s.queue[j] in s.order
  {
  }

  /** The first loop of kv_bucket_unlock. */
  ghost function ReleaseAll(s: Lock, r: nat, bs: seq<nat>, k: nat): (s': Lock)
    requires Inv(s, {}, k) && HoldsAll(s, r, bs)
    ensures Inv(s', {}, 0) && s'.edited == s.edited && s'.disk == s.disk
    decreases |bs|
  {
    OrdersKnown(s, k);
    if bs == [] then FewerChecked(s, k); s
    else
      assert bs[0] in bs && Holds(s, r, bs[0]);
      ReleaseOneKeepsInv(s, k, r, bs[0]);
      StillHolds(s, r, bs);
      ReleaseAll(ReleaseOne(s, r, bs[0]), r, bs[1..], 0)
  }

  lemma FewerChecked(s: Lock, k: nat)
    requires Inv(s, {}, k)
    ensures Inv(s, {}, 0)
  {
  }

  lemma StillHolds(s: Lock, r: nat, bs: seq<nat>)
    requires HoldsAll(s, r, bs) && bs != [] && forall j :: 0 <= j < |s.queue| ==> s.queue[j] in s.order
    requires r in s.want
    ensures HoldsAll(ReleaseOne(s, r, bs[0]), r, bs[1..])
  {
    hide ReleaseOne, Holds, Forget;
    var s' := ReleaseOne(s, r, bs[0]);
    ReleaseOneRest(s, r, bs[0]);
    forall b | b in bs[1..]
      ensures Holds(s', r, b)
    {
      var i :| 1 <= i < |bs| && bs[i] == b;
      ForgetHolds(s, s', r, bs[0], r, b);
    }
  }

  /** kv_bucket_unlock of some or all buckets of a request. */
  ghost function Unlock(s: Lock, r: nat, bs: seq<nat>): (s': Lock)
    requires Good(s) && HoldsAll(s, r, bs)
    ensures Good(s') && s'.edited == s.edited && s'.disk == s.disk
  {
    Retry(ReleaseAll(s, r, bs, |s.queue|), 0)
  }

  // ----- runs -----

  datatype Event =
    | Request(r: nat, bs: seq<nat>)
    | Release(r: nat, bs: seq<nat>)
    | ReadCompletes(b: nat)
    | Change(r: nat, b: nat, chain: Chain)
    | CommitSeg(r: nat, b: nat)

  ghost predicate Enabled(s: Lock, e: Event) {
    match e
    case Request(r, bs) => r !in s.want && r !in s.calls && bs != [] && Distinct(bs)
    case Release(r, bs) => HoldsAll(s, r, bs)
    case ReadCompletes(b) => b in s.reading
    case Change(r, b, _) => Holds(s, r, b)
    case CommitSeg(r, b) => Holds(s, r, b)
  }

  ghost function Next(s: Lock, e: Event): (s': Lock)
    requires Good(s) && Enabled(s, e)
    ensures Good(s')
    ensures !e.Change? ==> s'.edited == s.edited
    ensures !e.CommitSeg? ==> s'.disk == s.disk
  {
    match e
    case Request(r, bs) => LockReq(s, r, bs)
    case Release(r, bs) => Unlock(s, r, bs)
    case ReadCompletes(b) => ReadDoneKeepsInv(s, |s.queue|, b); ReadDone(s, b)
    case Change(r, b, c) => EditKeepsInv(s, |s.queue|, r, b, c); Edit(s, r, b, c)
    case CommitSeg(r, b) => CommitKeepsInv(s, |s.queue|, r, b); Commit(s, r, b)
  }

  const EMPTY: Lock := Lock(map[], map[], [], map[], map[], map[], map[], [], {}, map[], map[])

  ghost predicate Reachable(s: Lock, es: seq<Event>)
    decreases |es|
  {
    if es == [] then exists d :: s == EMPTY.(disk := d)
    else
      var n := |es| - 1;
      exists s0 :: Reachable(s0, es[..n]) && Good(s0) && Enabled(s0, es[n]) && s == Next(s0, es[n])
  }

  lemma ReachableGood(s: Lock, es: seq<Event>)
    requires Reachable(s, es)
    ensures Good(s)
  {
    if es != [] {
      var n := |es| - 1;
      var s0 :| Reachable(s0, es[..n]) && Good(s0) && Enabled(s0, es[n]) && s == Next(s0, es[n]);
    }
  }

  /** Exclusion: no bucket is held by two requests, and the locked buckets are
      exactly those of the granted requests. */
  lemma Exclusion(s: Lock, es: seq<Event>, r1: nat, r2: nat, b: nat)
    requires Reachable(s, es)
    requires Granted(s, r1) && Granted(s, r2) && b in s.want[r1] && b in s.want[r2]
    ensures r1 == r2 && b in s.holder
    ensures forall x :: x in s.holder ==> Granted(s, s.holder[x]) && x in s.want[s.holder[x]]
  {
    ReachableGood(s, es);
    assert RequestOk(s, {}, r1) && RequestOk(s, {}, r2);
  }

  /** No stranded waiter: every queued request waits for a locked bucket, so when
      nothing is locked nobody waits. */
  lemma NoStrandedWaiter(s: Lock, es: seq<Event>)
    requires Reachable(s, es)
    ensures forall i :: 0 <= i < |s.queue| ==> s.queue[i] in s.want && Blocked(s, s.queue[i])
    ensures s.holder == map[] ==> s.queue == []
  {
    ReachableGood(s, es);
    if s.queue != [] { assert Blocked(s, s.queue[0]); }
  }

  /** Callbacks fire once each, only for granted requests, and once no read is in
      flight every granted request has had its callback. */
  lemma CallbacksFireOnce(s: Lock, es: seq<Event>, r: nat)
    requires Reachable(s, es) && r in s.want
    ensures Distinct(s.calls)
    ensures r in s.calls ==> Granted(s, r)
    ensures Granted(s, r) && s.reading == map[] ==> r in s.calls
  {
    ReachableGood(s, es);
    assert RequestOk(s, {}, r);
    if Missing(s, {}, r) != {} {
      var b :| b in Missing(s, {}, r);
      InvAt(s, {}, |s.queue|, b);
      assert b in s.reading;
    }
  }

  /** Coherence: at most one segment object per bucket has or fetches the chain. */
  lemma OneCopy(s: Lock, es: seq<Event>, r1: nat, r2: nat, b: nat)
    requires Reachable(s, es)
    requires SegOf(s, r1, b) != BLANK && SegOf(s, r2, b) != BLANK
    ensures r1 == r2 && b !in s.reading
  {
    ReachableGood(s, es);
    assert SlotOk(s, {}, b);
  }

  lemma CalledIsGranted(s: Lock, r: nat)
    requires Good(s) && r in s.calls && r in s.want
    ensures Granted(s, r)
  {
    hide SegOf, Missing, SlotOk;
    assert RequestOk(s, {}, r);
  }

  lemma EditorsWereCalled(s: Lock, e: Event, r: nat)
    requires Good(s) && Enabled(s, e)
    ensures r in Next(s, e).edited ==> r in s.calls
  {
    hide SegOf, RequestOk, SlotOk, LockReq, Unlock, ReadDone;
  }

  lemma DeliveredClean(s0: Lock, e: Event, r: nat, b: nat)
    requires Good(s0) && Enabled(s0, e)
    requires var s := Next(s0, e); r !in s0.calls && r in s.calls && r in s.want && b in s.want[r]
    ensures var s := Next(s0, e); SegOf(s, r, b) == Seg(false, false, Stored(s, b))
  {
    hide SegOf, Inv, Next, RequestOk;
    var s := Next(s0, e);
    CalledIsGranted(s, r);
    EditorsWereCalled(s0, e, r);
    HolderOwns(s, |s.queue|, r, b);
    UneditedIsClean(s, r, b);
  }

  /** Coherence: when the callback of a request fires, each of its segments holds
      exactly the last committed chain, however the segments got there. */
  lemma DeliveryIsCurrent(s0: Lock, es: seq<Event>, e: Event, r: nat, b: nat)
    requires Reachable(s0, es) && Good(s0) && Enabled(s0, e)
    requires var s := Next(s0, e); r !in s0.calls && r in s.calls && r in s.want && b in s.want[r]
    ensures var s := Next(s0, e); SegOf(s, r, b) == Seg(false, false, Stored(s, b))
  {
    DeliveredClean(s0, e, r, b);
  }

  lemma UneditedIsClean(s: Lock, r: nat, b: nat)
    requires Good(s) && Holds(s, r, b) && r !in s.edited
    ensures !SegOf(s, r, b).dirty
  {
    hide SegOf, RequestOk, Missing;
    HolderOwns(s, |s.queue|, r, b);
    assert SlotOk(s, {}, b);
  }
}
