/** The data store as a whole (spdk/app/leed/kv_data_store.c:192-440): requests lock
    buckets, change their segments, write them to the bucket log, commit and unlock,
    while compaction moves chains about.  The lock of LockModel, the log of
    CompactionModel and the items of SegmentItems work on the same chains here. */
module DataStore {
  import opened SeqOps
  import opened SegmentItems
  import opened BucketSegment
  import L = LockModel
  import F = LockFrame
  import C = CompactionModel

  datatype System = System(lock: L.Lock, store: C.Store)

  type Table = map<Key, Value>

  datatype Event =
    | Ask(r: nat, bs: seq<nat>)               // kv_bucket_lock
    | ReadCompletes(b: nat)
    | Apply(r: nat, b: nat, op: Op)           // the change of set_lock_cb or delete_lock_cb
    | Write(r: nat, chain: C.Chain)           // kv_bucket_seg_put
    | Commit(r: nat, b: nat)                  // kv_data_store_set_commit, _del_commit with success
    | GiveUp(b: nat)                          // ... without
    | Release(r: nat, bs: seq<nat>)           // kv_bucket_unlock
    | Background(e: C.Event)                  // compaction

  /** Buckets of sixteen slots, laid out as set and delete leave them, that hold
      the entries of `m`. */
  ghost predicate Layout(buckets: seq<C.Bucket>, m: Table) {
    && (forall i :: 0 <= i < |buckets| ==> |buckets[i]| == PER_BUCKET)
    && Compact(Flatten(buckets)) && Means(Flatten(buckets), m)
  }

  /** The operation finds its slot: a set has room, a delete has its key. */
  predicate Succeeds(m: Table, op: Op) {
    match op
    case Set(k, _) => k in m || |m| < CAPACITY
    case Delete(k) => k in m
  }

  function LockEvent(s: System, e: Event): Option<L.Event> {
    match e
    case Ask(r, bs) => Some(L.Request(r, bs))
    case ReadCompletes(b) => Some(L.ReadCompletes(b))
    case Apply(r, b, op) => Some(L.Change(r, b, Step(L.SegOf(s.lock, r, b).chain, op)))
    case Commit(r, b) => Some(L.CommitSeg(r, b))
    case Release(r, bs) => Some(L.Release(r, bs))
    case _ => None
  }

  function StoreEvent(e: Event): Option<C.Event> {
    match e
    case Write(_, c) => Some(C.AppendPut(c))
    case Commit(_, b) => Some(C.CommitPut(b))
    case GiveUp(b) => Some(C.AbortPut(b))
    case Background(x) => Some(x)
    case _ => None
  }

  /** What the data store does: it changes and writes segments it has locked, leaves
      them alone while their write is outstanding, and unlocks them afterwards. */
  ghost predicate Allowed(s: System, e: Event) {
    match e
    case Apply(r, b, op) => b !in s.store.puts && op.key != [] && Succeeds(L.SegOf(s.lock, r, b).chain, op)
    case Write(r, c) => L.Holds(s.lock, r, c.id) && Layout(c.buckets, L.SegOf(s.lock, r, c.id).chain)
    case Release(_, bs) => forall b :: b in bs ==> b !in s.store.puts
    case Background(x) => x.CompactStart? || x.CommitMove? || x.FinishJob? || x.MoveHead?
    case _ => true
  }

  ghost predicate Enabled(s: System, e: Event) {
    && L.Good(s.lock) && C.Inv(s.store) && Allowed(s, e)
    && (LockEvent(s, e).Some? ==> L.Enabled(s.lock, LockEvent(s, e).value))
    && (StoreEvent(e).Some? ==> C.Enabled(s.store, StoreEvent(e).value))
  }

  ghost function Next(s: System, e: Event): System
    requires Enabled(s, e)
  {
    System(if LockEvent(s, e).Some? then L.Next(s.lock, LockEvent(s, e).value) else s.lock,
           if StoreEvent(e).Some? then C.Next(s.store, StoreEvent(e).value) else s.store)
  }

  ghost predicate Reachable(s: System, es: seq<Event>)
    decreases |es|
  {
    if es == [] then exists size: nat :: size > 0 && s == System(L.EMPTY, C.Store(size, [], 0, 0, map[], map[], []))
    else
      var n := |es| - 1;
      exists s0 :: Reachable(s0, es[..n]) && Enabled(s0, es[n]) && s == Next(s0, es[n])
  }

  // ----- the reference: a list of committed operations per bucket -----

  /** Changes made to bucket `b` since it was last committed or unlocked. */
  function Draft(es: seq<Event>, b: nat): seq<Op> {
    if es == [] then []
    else
      var n := |es| - 1;
      var d := Draft(es[..n], b);
      match es[n]
      case Apply(_, x, op) => if x == b then d + [op] else d
      case Commit(_, x) => if x == b then [] else d
      case Release(_, bs) => if b in bs then [] else d
      case _ => d
  }

  /** Changes made to bucket `b` and committed, in order. */
  function Committed(es: seq<Event>, b: nat): seq<Op> {
    if es == [] then []
    else
      var n := |es| - 1;
      Committed(es[..n], b) + if es[n].Commit? && es[n].b == b then Draft(es[..n], b) else []
  }

  /** The value that the operations leave at key `k`. */
  function LastWrite(ops: seq<Op>, k: Key): Option<Value> {
    if ops == [] then None
    else
      var op := ops[|ops| - 1];
      if op.key != k then LastWrite(ops[..|ops| - 1], k)
      else if op.Set? then Some(op.value) else None
  }

  function Lookup(m: Table, k: Key): Option<Value> {
    if k in m then Some(m[k]) else None
  }

  ghost predicate Holding(m: Table, ops: seq<Op>) {
    forall k :: Lookup(m, k) == LastWrite(ops, k)
  }

  lemma HoldingMore(m: Table, ops: seq<Op>, op: Op)
    requires Holding(m, ops) && Succeeds(m, op)
    ensures Holding(Step(m, op), ops + [op])
  {
    assert (ops + [op])[..|ops|] == ops;
  }

  // ----- the chains of the log are the chains of the lock -----

  /** A chain without items is what the log calls void. */
  lemma VoidIsEmpty(c: C.Chain, m: Table)
    requires Layout(c.buckets, m) && |c.buckets| >= 1
    ensures C.Void(c) <==> m == map[]
  {
    hide Means, Compact, Live;
    var t := Flatten(c.buckets);
    FlatSize(c.buckets);
    LiveIsSize(t, m);
    LiveNone(t);
    CompactIsDense(t);
    if |c.buckets| == 1 {
      assert c.buckets[..0] == [];
      assert t == c.buckets[0] && t in c.buckets;
      assert forall b :: b in c.buckets ==> b == t;
    }
    assert |m| == 0 ==> m == map[];
  }

  lemma {:induction false} FlatSize(bs: seq<C.Bucket>)
    requires forall i :: 0 <= i < |bs| ==> |bs[i]| == PER_BUCKET
    ensures |Flatten(bs)| == PER_BUCKET * |bs|
  {
    if bs != [] { FlatSize(bs[..|bs| - 1]); }
  }

  /** The slots of a segment, bucket by bucket. */
  function Buckets(slots: seq<Item>): seq<C.Bucket>
    requires |slots| % PER_BUCKET == 0
  {
    if slots == [] then []
    else Buckets(slots[..|slots| - PER_BUCKET]) + [slots[|slots| - PER_BUCKET..]]
  }

  /** What set and delete leave in a segment can be written: its buckets are laid
      out, and hold what the segment holds. */
  lemma SegmentCanBeWritten(slots: seq<Item>)
    requires |slots| % PER_BUCKET == 0 && Compact(slots) && Single(slots)
    ensures Flatten(Buckets(slots)) == slots && Layout(Buckets(slots), MapOf(slots))
    ensures |Buckets(slots)| * PER_BUCKET == |slots|
  {
    hide Compact, Single, MapOf, Means;
    BucketsFlat(slots);
    MapOfMeans(slots);
  }

  lemma {:induction false} BucketsFlat(slots: seq<Item>)
    requires |slots| % PER_BUCKET == 0
    ensures Flatten(Buckets(slots)) == slots && |Buckets(slots)| * PER_BUCKET == |slots|
    ensures forall i :: 0 <= i < |Buckets(slots)| ==> |Buckets(slots)[i]| == PER_BUCKET
  {
    if slots != [] {
      var front := slots[..|slots| - PER_BUCKET];
      BucketsFlat(front);
      assert Buckets(slots)[..|Buckets(front)|] == Buckets(front);
    }
  }

  /** The committed chains of the lock and of the log are the same tables. */
  ghost predicate SameChains(l: L.Lock, v: C.View) {
    && (forall b :: b in l.disk <==> b in v.contents)
    && (forall b :: b in v.contents ==> Means(Flatten(v.contents[b]), l.disk[b]))
  }

  /** A chain that is written and not committed is the segment of the request that
      holds the bucket. */
  ghost predicate WrittenIsHeld(l: L.Lock, v: C.View) {
    forall b :: b in v.pending ==>
      && b in l.holder && L.Holds(l, l.holder[b], b) && |v.pending[b].buckets| >= 1
      && Layout(v.pending[b].buckets, L.SegOf(l, l.holder[b], b).chain)
  }

  /** The lock's tables are those of the operations in the history. */
  ghost predicate History(l: L.Lock, es: seq<Event>) {
    && (forall b :: Holding(L.Stored(l, b), Committed(es, b)))
    && (forall r, b :: L.Holds(l, r, b) ==> Holding(L.SegOf(l, r, b).chain, Committed(es, b) + Draft(es, b)))
    && (forall b :: Draft(es, b) != [] ==> b in l.holder && L.Holds(l, l.holder[b], b))
  }

  ghost predicate Inv(s: System, es: seq<Event>) {
    && L.Good(s.lock) && C.Inv(s.store)
    && SameChains(s.lock, C.ViewOf(s.store))
    && WrittenIsHeld(s.lock, C.ViewOf(s.store))
    && History(s.lock, es)
  }

  // ----- the lock and the history -----

  lemma HistoryMore(es: seq<Event>, e: Event, b: nat)
    ensures Committed(es + [e], b) == Committed(es, b) + if e.Commit? && e.b == b then Draft(es, b) else []
    ensures Draft(es + [e], b) ==
            if e.Apply? && e.b == b then Draft(es, b) + [e.op]
            else if (e.Commit? && e.b == b) || (e.Release? && b in e.bs) then []
            else Draft(es, b)
  {
    assert (es + [e])[..|es|] == es;
  }

  /** A request that holds a bucket after an event held it before, or just got it. */
  lemma HeldBefore(l: L.Lock, e: L.Event, r: nat, b: nat)
    requires L.Good(l) && L.Enabled(l, e) && L.Holds(L.Next(l, e), r, b)
    ensures r in l.calls ==> L.Holds(l, r, b) && (e.Release? ==> b !in e.bs)
    ensures b !in F.Touched(e) && r in l.calls ==> L.SegOf(L.Next(l, e), r, b) == L.SegOf(l, r, b)
    ensures r !in l.calls ==> L.SegOf(L.Next(l, e), r, b) == L.Seg(false, false, L.Stored(L.Next(l, e), b))
  {
    hide L.SegOf, L.Next, L.Inv, L.RequestOk, L.SlotOk;
    F.NextFrame(l, e);
    if r !in l.calls {
      L.DeliveredClean(l, e, r, b);
    } else if e.Release? && b in e.bs {
      assert L.Holds(l, e.r, b);
      L.HolderOwns(l, |l.queue|, r, b);
      L.HolderOwns(l, |l.queue|, e.r, b);
    }
  }

  /** A delivered request keeps its bucket and its segment through the event. */
  lemma HeldAfter(l: L.Lock, e: L.Event, b: nat)
    requires L.Good(l) && L.Enabled(l, e) && b !in F.Touched(e)
    requires b in l.holder && L.Holds(l, l.holder[b], b)
    ensures var l' := L.Next(l, e);
            && b in l'.holder && l'.holder[b] == l.holder[b] && L.Holds(l', l'.holder[b], b)
            && L.SegOf(l', l.holder[b], b) == L.SegOf(l, l.holder[b], b)
  {
    hide L.SegOf, L.Next, L.Inv;
    F.NextFrame(l, e);
    L.HolderOwns(L.Next(l, e), |L.Next(l, e).queue|, l.holder[b], b);
  }

  /** Requests, reads and releases: tables and history stay as they are. */
  lemma TakesAndReleases(s: System, es: seq<Event>, e: Event)
    requires Inv(s, es) && Enabled(s, e) && (e.Ask? || e.ReadCompletes? || e.Release?)
    ensures History(Next(s, e).lock, es + [e])
  {
    hide L.SegOf, L.Next, L.Inv, L.Holds, Holding, Draft, Committed;
    var x := LockEvent(s, e).value;
    var l, l', es' := s.lock, L.Next(s.lock, x), es + [e];
    assert l'.disk == l.disk;
    forall b: nat
      ensures Committed(es', b) == Committed(es, b)
      ensures Draft(es', b) == if b in F.Touched(x) then [] else Draft(es, b)
    {
      HistoryMore(es, e, b);
    }
    forall b: nat | Draft(es', b) != []
      ensures b in l'.holder && L.Holds(l', l'.holder[b], b)
    {
      HeldAfter(l, x, b);
    }
    forall r: nat, b: nat | L.Holds(l', r, b)
      ensures Holding(L.SegOf(l', r, b).chain, Committed(es', b) + Draft(es', b))
    {
      DraftIsHolders(s, es, e, r, b);
    }
  }

  lemma DraftIsHolders(s: System, es: seq<Event>, e: Event, r: nat, b: nat)
    requires Inv(s, es) && Enabled(s, e) && (e.Ask? || e.ReadCompletes? || e.Release?)
    requires L.Holds(Next(s, e).lock, r, b)
    ensures Holding(L.SegOf(Next(s, e).lock, r, b).chain, Committed(es + [e], b) + Draft(es + [e], b))
  {
    hide L.SegOf, L.Next, L.Inv, L.Holds, Holding, Draft, Committed;
    var x := LockEvent(s, e).value;
    var l, l' := s.lock, L.Next(s.lock, x);
    assert l'.disk == l.disk;
    HistoryMore(es, e, b);
    HeldBefore(l, x, r, b);
    assert Committed(es, b) + [] == Committed(es, b);
    if r !in l.calls {
      assert L.Stored(l', b) == L.Stored(l, b);
      if Draft(es + [e], b) != [] {
        HeldAfter(l, x, b);
        L.HolderOwns(l', |l'.queue|, r, b);
        CallsOf(l, l.holder[b], b);
      }
    } else {
      assert b !in F.Touched(x);
      assert Holding(L.SegOf(l, r, b).chain, Committed(es, b) + Draft(es, b));
    }
  }

  lemma CallsOf(l: L.Lock, r: nat, b: nat)
    requires L.Holds(l, r, b)
    ensures r in l.calls
  {
  }

  /** A change replaces one segment and nothing else. */
  lemma ChangeParts(l: L.Lock, r: nat, b: nat, c: Table)
    requires L.Good(l) && L.Enabled(l, L.Change(r, b, c))
    ensures var l' := L.Next(l, L.Change(r, b, c));
            && l'.holder == l.holder && (forall q, x :: L.Holds(l', q, x) <==> L.Holds(l, q, x))
            && (forall x :: L.Stored(l', x) == L.Stored(l, x))
            && (forall q, x :: L.SegOf(l', q, x).chain == if q == r && x == b then c else L.SegOf(l, q, x).chain)
  {
    hide L.SegOf, L.Inv, L.Put;
    L.SegOfPut(l, L.Next(l, L.Change(r, b, c)), r, b, L.Seg(false, true, c));
  }

  lemma Applies(s: System, es: seq<Event>, e: Event)
    requires Inv(s, es) && Enabled(s, e) && e.Apply?
    ensures History(Next(s, e).lock, es + [e])
  {
    hide L.SegOf, L.Inv, L.Next, L.Holds, L.Stored, Holding, Draft, Committed, C.Inv, C.ViewOf, SameChains;
    hide WrittenIsHeld;
    var r, b, es' := e.r, e.b, es + [e];
    var l, l' := s.lock, Next(s, e).lock;
    var c := L.SegOf(l, r, b).chain;
    ChangeParts(l, r, b, Step(c, e.op));
    forall x: nat
      ensures Committed(es', x) == Committed(es, x)
      ensures Draft(es', x) == if x == b then Draft(es, x) + [e.op] else Draft(es, x)
    {
      HistoryMore(es, e, x);
    }
    assert Committed(es, b) + Draft(es, b) + [e.op] == Committed(es, b) + (Draft(es, b) + [e.op]);
    HoldingMore(c, Committed(es, b) + Draft(es, b), e.op);
    forall q: nat, x: nat | L.Holds(l', q, x)
      ensures Holding(L.SegOf(l', q, x).chain, Committed(es', x) + Draft(es', x))
    {
      if x == b {
        L.HolderOwns(l, |l.queue|, q, b);
        L.HolderOwns(l, |l.queue|, r, b);
      }
    }
    L.HolderOwns(l, |l.queue|, r, b);
  }

  /** A commit stores the segment and leaves all segments as they are. */
  lemma CommitParts(l: L.Lock, r: nat, b: nat)
    requires L.Good(l) && L.Enabled(l, L.CommitSeg(r, b))
    ensures var l' := L.Next(l, L.CommitSeg(r, b));
            && l'.holder == l.holder && (forall q, x :: L.Holds(l', q, x) <==> L.Holds(l, q, x))
            && (forall x :: L.Stored(l', x) == if x == b then L.SegOf(l, r, b).chain else L.Stored(l, x))
            && (forall q, x :: L.SegOf(l', q, x).chain == L.SegOf(l, q, x).chain)
  {
    hide L.SegOf, L.Inv, L.Put;
    L.SegOfPut(l, L.Next(l, L.CommitSeg(r, b)), r, b, L.SegOf(l, r, b).(dirty := false));
  }

  lemma Commits(s: System, es: seq<Event>, e: Event)
    requires Inv(s, es) && Enabled(s, e) && e.Commit?
    ensures History(Next(s, e).lock, es + [e])
  {
    hide L.SegOf, L.Inv, L.Next, L.Holds, L.Stored, Holding, Draft, Committed, C.Next, C.Inv, C.ViewOf, C.Enabled;
    var r, b, es' := e.r, e.b, es + [e];
    var l, l' := s.lock, Next(s, e).lock;
    CommitParts(l, r, b);
    forall x: nat
      ensures Committed(es', x) + Draft(es', x) == Committed(es, x) + Draft(es, x)
      ensures Committed(es', x) == if x == b then Committed(es, x) + Draft(es, x) else Committed(es, x)
      ensures Draft(es', x) == if x == b then [] else Draft(es, x)
    {
      HistoryMore(es, e, x);
    }
  }

  lemma HistoryKept(s: System, es: seq<Event>, e: Event)
    requires Inv(s, es) && Enabled(s, e)
    ensures History(Next(s, e).lock, es + [e])
  {
    hide L.SegOf, L.Inv, L.Holds, L.Next, Holding, Draft, Committed;
    match e {
      case Apply(_, _, _) => Applies(s, es, e);
      case Commit(_, _) => Commits(s, es, e);
      case Ask(_, _) => TakesAndReleases(s, es, e);
      case ReadCompletes(_) => TakesAndReleases(s, es, e);
      case Release(_, _) => TakesAndReleases(s, es, e);
      case _ =>
        forall b: nat
          ensures Committed(es + [e], b) == Committed(es, b) && Draft(es + [e], b) == Draft(es, b)
        {
          HistoryMore(es, e, b);
        }
    }
  }

  // ----- the lock and the log -----

  /** The users' view of the log after an event. */
  lemma StoreSide(s: System, es: seq<Event>, e: Event)
    requires Inv(s, es) && Enabled(s, e)
    ensures C.Inv(Next(s, e).store)
    ensures C.ViewOf(Next(s, e).store) == ViewAfter(C.ViewOf(s.store), e)
    ensures forall b :: b in s.store.puts <==> b in C.ViewOf(s.store).pending
    ensures e.Write? ==> |e.chain.buckets| >= 1
    ensures e.Commit? ==> e.b in C.ViewOf(s.store).pending
  {
    hide L.Inv, L.Next, L.Enabled, SameChains, WrittenIsHeld, History, C.Inv, C.Next, Allowed, C.Contents, C.Seen;
    if StoreEvent(e).Some? { C.StepIsSeen(s.store, StoreEvent(e).value); }
  }

  function ViewAfter(v: C.View, e: Event): C.View {
    if StoreEvent(e).Some? then C.Seen(v, StoreEvent(e).value) else v
  }

  /** A written chain stays that of the holder, whatever the lock does. */
  lemma StaysWritten(s: System, e: Event, b: nat, c: C.Chain)
    requires Enabled(s, e) && b in s.store.puts && (e.Commit? ==> e.b != b)
    requires b in s.lock.holder && L.Holds(s.lock, s.lock.holder[b], b)
    requires Layout(c.buckets, L.SegOf(s.lock, s.lock.holder[b], b).chain)
    ensures var l := Next(s, e).lock;
            && b in l.holder && L.Holds(l, l.holder[b], b)
            && Layout(c.buckets, L.SegOf(l, l.holder[b], b).chain)
  {
    hide L.SegOf, L.Inv, L.Holds, L.Next, Layout, C.Inv, C.Next, C.Enabled, L.Enabled;
    if LockEvent(s, e).Some? { HeldAfter(s.lock, LockEvent(s, e).value, b); }
  }

  lemma WrittenKept(s: System, es: seq<Event>, e: Event, v: C.View)
    requires Inv(s, es) && Enabled(s, e) && v == C.ViewOf(s.store)
    requires forall b :: b in s.store.puts <==> b in v.pending
    requires e.Write? ==> |e.chain.buckets| >= 1
    ensures WrittenIsHeld(Next(s, e).lock, ViewAfter(v, e))
  {
    hide L.SegOf, L.Inv, L.Holds, L.Next, Layout, History, C.Inv, C.Next, C.Enabled, L.Enabled;
    hide C.ViewOf, C.Void, SameChains;
    var l, l', v' := s.lock, Next(s, e).lock, ViewAfter(v, e);
    forall b | b in v'.pending
      ensures b in l'.holder && L.Holds(l', l'.holder[b], b) && |v'.pending[b].buckets| >= 1
      ensures Layout(v'.pending[b].buckets, L.SegOf(l', l'.holder[b], b).chain)
    {
      if e.Write? && b == e.chain.id {
        L.HolderOwns(l, |l.queue|, e.r, b);
      } else {
        assert b in v.pending && v'.pending[b] == v.pending[b];
        StaysWritten(s, e, b, v.pending[b]);
      }
    }
  }

  lemma ChainsKept(s: System, es: seq<Event>, e: Event, v: C.View)
    requires Inv(s, es) && Enabled(s, e) && v == C.ViewOf(s.store)
    requires e.Commit? ==> e.b in v.pending
    ensures SameChains(Next(s, e).lock, ViewAfter(v, e))
  {
    hide L.SegOf, L.Inv, L.Holds, L.Next, Means, Compact, C.Void, History, C.Inv, C.Next, C.ViewOf, C.Enabled;
    if e.Commit? {
      L.HolderOwns(s.lock, |s.lock.queue|, e.r, e.b);
      VoidIsEmpty(v.pending[e.b], L.SegOf(s.lock, e.r, e.b).chain);
      CommitsDisk(s.lock, e.r, e.b);
    }
  }

  lemma CommitsDisk(l: L.Lock, r: nat, b: nat)
    requires L.Good(l) && L.Enabled(l, L.CommitSeg(r, b))
    ensures var c := L.SegOf(l, r, b).chain;
            L.Next(l, L.CommitSeg(r, b)).disk == if c == map[] then l.disk - {b} else l.disk[b := c]
  {
    hide L.SegOf, L.Inv, L.Put;
  }

  lemma StepKeepsInv(s: System, es: seq<Event>, e: Event)
    requires Inv(s, es) && Enabled(s, e)
    ensures Inv(Next(s, e), es + [e])
  {
    hide L.Inv, L.Next, SameChains, WrittenIsHeld, History, C.Inv, C.Next, C.ViewOf, Allowed;
    StoreSide(s, es, e);
    HistoryKept(s, es, e);
    WrittenKept(s, es, e, C.ViewOf(s.store));
    ChainsKept(s, es, e, C.ViewOf(s.store));
  }

  lemma {:induction false} ReachableKeepsInv(s: System, es: seq<Event>)
    requires Reachable(s, es)
    ensures Inv(s, es)
    decreases |es|
  {
    hide Inv, Next, Enabled;
    if es == [] {
      FreshSystem(s);
    } else {
      var n := |es| - 1;
      var s0 :| Reachable(s0, es[..n]) && Enabled(s0, es[n]) && s == Next(s0, es[n]);
      ReachableKeepsInv(s0, es[..n]);
      StepKeepsInv(s0, es[..n], es[n]);
      assert es[..n] + [es[n]] == es;
    }
  }

  lemma FreshSystem(s: System)
    requires Reachable(s, [])
    ensures Inv(s, [])
  {
    C.FreshStore(s.store.size);
  }

  // ----- end to end -----

  /** What the log holds for key `k` of bucket `b`: the answer of a get. */
  ghost function Answer(s: System, b: nat, k: Key): Option<Value>
    requires C.Inv(s.store)
  {
    var v := C.ViewOf(s.store).contents;
    if b in v then Lookup(MapOf(Flatten(v[b])), k) else None
  }

  /** In every interleaving of locks, reads, sets, deletes, writes, commits, unlocks
      and compactions a get answers with the last committed value of its key. */
  lemma GetIsLastCommitted(s: System, es: seq<Event>, b: nat, k: Key)
    requires Reachable(s, es)
    ensures C.Inv(s.store) && Answer(s, b, k) == LastWrite(Committed(es, b), k)
  {
    hide L.Inv, Means, MapOf;
    ReachableKeepsInv(s, es);
    assert Lookup(L.Stored(s.lock, b), k) == LastWrite(Committed(es, b), k);
    var v := C.ViewOf(s.store).contents;
    if b in v { MeansIsMapOf(Flatten(v[b]), s.lock.disk[b]); }
  }

  /** A request that has its callback sees in its segment the last committed value
      of every key, with its own changes since on top and nobody else's. */
  lemma HolderSeesLastCommitted(s: System, es: seq<Event>, r: nat, b: nat, k: Key)
    requires Reachable(s, es) && L.Holds(s.lock, r, b)
    ensures Lookup(L.SegOf(s.lock, r, b).chain, k) == LastWrite(Committed(es, b) + Draft(es, b), k)
  {
    hide L.Inv, L.SegOf, L.Holds;
    ReachableKeepsInv(s, es);
  }
}
