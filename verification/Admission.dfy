/** Admission of operations to a data store by their cost
    (spdk/app/leed/kv_data_store.c:23-52, spdk/app/leed/kv_ds_queue.c:16-43). */
module Admission {
  import opened SeqOps

  datatype Kind = SetOp | GetOp | DelOp

  /** kv_ds_op_cost. */
  function Cost(k: Kind): nat {
    match k
    case SetOp => 8
    case GetOp => 3
    case DelOp => 4
  }

  datatype Op = Op(id: nat, kind: Kind)

  datatype Info = Info(size: nat, cap: nat)

  function Total(s: seq<Op>): nat {
    if s == [] then 0 else Cost(s[0].kind) + Total(s[1..])
  }

  lemma {:induction false} TotalAppend(s: seq<Op>, t: seq<Op>)
    ensures Total(s + t) == Total(s) + Total(t)
  {
    if s == [] {
      assert s + t == t;
    } else {
      assert (s + t)[1..] == s[1..] + t;
      TotalAppend(s[1..], t);
    }
  }

  lemma TotalWithout(s: seq<Op>, p: nat)
    requires p < |s|
    ensures Total(s) == Total(Without(s, p)) + Cost(s[p].kind)
  {
    hide Total;
    var a, b := s[..p], s[p + 1..];
    assert s == a + ([s[p]] + b);
    TotalAppend(a, [s[p]] + b);
    TotalAppend([s[p]], b);
    TotalAppend(a, b);
    TotalOne(s[p]);
  }

  lemma TotalOne(op: Op)
    ensures Total([op]) == Cost(op.kind)
  {
    assert [op][1..] == [];
  }

  // ------------------------------------------------------ as values

  /** Load, operations admitted and not finished, operations waiting. */
  datatype Store = Store(info: Info, running: seq<Op>, waiting: seq<Op>)

  /** The load is the cost of what runs, within the capacity, and an operation
      waits only behind one that does not fit. */
  ghost predicate Inv(s: Store) {
    && s.info.size == Total(s.running) <= s.info.cap
    && (s.waiting != [] ==> s.info.size + Cost(s.waiting[0].kind) > s.info.cap)
  }

  predicate Fits(s: Store, k: Kind) { s.info.cap >= s.info.size + Cost(k) }

  function Admit(s: Store, op: Op): Store {
    s.(info := s.info.(size := s.info.size + Cost(op.kind)), running := s.running + [op])
  }

  /** enqueue. */
  function Enqueue(s: Store, op: Op): Store {
    if Fits(s, op.kind) then Admit(s, op) else s.(waiting := s.waiting + [op])
  }

  /** The loop of dequeue. */
  function Drain(s: Store): Store
    decreases |s.waiting|
  {
    if s.waiting != [] && Fits(s, s.waiting[0].kind) then
      Drain(Admit(s, s.waiting[0]).(waiting := s.waiting[1..]))
    else
      s
  }

  /** dequeue of the operation at place `p` of those running. */
  function Dequeue(s: Store, p: nat): Store
    requires p < |s.running| && s.info.size >= Cost(s.running[p].kind)
  {
    Drain(s.(info := s.info.(size := s.info.size - Cost(s.running[p].kind)), running := Without(s.running, p)))
  }

  /** The operations that are in the store. */
  ghost function Inside(s: Store): multiset<Op> { multiset(s.running) + multiset(s.waiting) }

  /** A submitted operation runs or waits, and nothing else is touched. */
  lemma EnqueueKeepsInv(s: Store, op: Op)
    requires Inv(s)
    ensures Inv(Enqueue(s, op)) && Inside(Enqueue(s, op)) == Inside(s) + multiset{op}
    ensures s.running <= Enqueue(s, op).running && s.waiting <= Enqueue(s, op).waiting
  {
    hide Total;
    TotalAppend(s.running, [op]);
    TotalOne(op);
  }

  lemma {:induction false} DrainKeepsInv(s: Store)
    requires s.info.size == Total(s.running) <= s.info.cap
    ensures Inv(Drain(s)) && Drain(s).info.cap == s.info.cap
    ensures Drain(s).running + Drain(s).waiting == s.running + s.waiting
    ensures |s.running| <= |Drain(s).running|
    decreases |s.waiting|
  {
    if s.waiting != [] && Fits(s, s.waiting[0].kind) {
      var op := s.waiting[0];
      TotalAppend(s.running, [op]);
      TotalOne(op);
      DrainKeepsInv(Admit(s, op).(waiting := s.waiting[1..]));
      assert s.waiting == [op] + s.waiting[1..];
    }
  }

  lemma DrainStep(s: Store)
    ensures if s.waiting != [] && Fits(s, s.waiting[0].kind) then
        var t := Admit(s, s.waiting[0]).(waiting := s.waiting[1..]);
        Drain(s) == Drain(t) && Total(t.running) == Total(s.running) + Cost(s.waiting[0].kind)
      else Drain(s) == s
  {
    if s.waiting != [] {
      var op := s.waiting[0];
      TotalAppend(s.running, [op]);
      TotalOne(op);
    }
  }

  /** A finished operation makes room; nothing waiting is lost or reordered. */
  lemma DequeueKeepsInv(s: Store, p: nat)
    requires Inv(s) && p < |s.running|
    ensures s.info.size >= Cost(s.running[p].kind) && Inv(Dequeue(s, p)) && Dequeue(s, p).info.cap == s.info.cap
    ensures Dequeue(s, p).running + Dequeue(s, p).waiting == Without(s.running, p) + s.waiting
  {
    TotalWithout(s.running, p);
    DrainKeepsInv(s.(info := s.info.(size := s.info.size - Cost(s.running[p].kind)), running := Without(s.running, p)));
  }

  /** If something waits, something runs that will wake it, as long as the
      capacity is at least the largest cost. */
  lemma WaitingHasAWaker(s: Store)
    requires Inv(s) && s.waiting != [] && s.info.cap >= 8
    ensures s.running != []
  {
  }

  // ------------------------------------------------------------ runs

  datatype Event = Submit(op: Op) | Finish(p: nat, op: Op)

  function Submitted(es: seq<Event>): multiset<Op> {
    if es == [] then multiset{} else (if es[0].Submit? then multiset{es[0].op} else multiset{}) + Submitted(es[1..])
  }

  function Finished(es: seq<Event>): multiset<Op> {
    if es == [] then multiset{} else (if es[0].Finish? then multiset{es[0].op} else multiset{}) + Finished(es[1..])
  }

  ghost predicate Reaches(s: Store, es: seq<Event>, t: Store)
    decreases |es|
  {
    if es == [] then t == s
    else match es[0]
      case Submit(op) => Reaches(Enqueue(s, op), es[1..], t)
      case Finish(p, op) =>
        && p < |s.running| && s.running[p] == op && s.info.size >= Cost(op.kind)
        && Reaches(Dequeue(s, p), es[1..], t)
  }

  lemma FinishedLeaves(s: Store, p: nat)
    requires Inv(s) && p < |s.running|
    ensures s.info.size >= Cost(s.running[p].kind) && Inside(Dequeue(s, p)) + multiset{s.running[p]} == Inside(s)
  {
    hide Dequeue, Inv;
    DequeueKeepsInv(s, p);
    var d, rest := Dequeue(s, p), Without(s.running, p);
    assert multiset(d.running + d.waiting) == multiset(rest + s.waiting);
    assert s.running == s.running[..p] + [s.running[p]] + s.running[p + 1..];
  }

  /** Conservation: in every run the operations submitted are those that have
      finished and those that run or wait. */
  lemma {:induction false} NothingIsLost(s: Store, es: seq<Event>, t: Store)
    requires Inv(s) && Reaches(s, es, t)
    ensures Inside(t) + Finished(es) == Inside(s) + Submitted(es)
    decreases |es|
  {
    hide Inv, Inside, Enqueue, Dequeue;
    if es != [] {
      var rest := es[1..];
      match es[0]
      case Submit(op) =>
        EnqueueKeepsInv(s, op);
        NothingIsLost(Enqueue(s, op), rest, t);
        Regroup(Inside(t), Finished(rest), Inside(s), multiset{op}, Submitted(rest));
      case Finish(p, op) =>
        DequeueKeepsInv(s, p);
        FinishedLeaves(s, p);
        NothingIsLost(Dequeue(s, p), rest, t);
        Regroup2(Inside(t), Finished(rest), Inside(Dequeue(s, p)), multiset{op}, Submitted(rest));
    }
  }

  lemma Regroup(t: multiset<Op>, f: multiset<Op>, s: multiset<Op>, x: multiset<Op>, m: multiset<Op>)
    requires t + f == s + x + m
    ensures t + (multiset{} + f) == s + (x + m)
  {
    assert multiset{} + f == f;
    assert s + x + m == s + (x + m);
  }

  lemma Regroup2(t: multiset<Op>, f: multiset<Op>, d: multiset<Op>, x: multiset<Op>, m: multiset<Op>)
    requires t + f == d + m
    ensures t + (x + f) == d + x + (multiset{} + m)
  {
    assert multiset{} + m == m;
    assert t + (x + f) == t + f + x;
    assert d + x + m == d + m + x;
  }

  /** In every run the load stays within the capacity and equals the cost of
      what runs. */
  lemma {:induction false} RunKeepsInv(s: Store, es: seq<Event>, t: Store)
    requires Inv(s) && Reaches(s, es, t)
    ensures Inv(t) && t.info.cap == s.info.cap
    decreases |es|
  {
    hide Inv;
    if es != [] {
      match es[0]
      case Submit(op) =>
        EnqueueKeepsInv(s, op);
        RunKeepsInv(Enqueue(s, op), es[1..], t);
      case Finish(p, _) =>
        DequeueKeepsInv(s, p);
        RunKeepsInv(Dequeue(s, p), es[1..], t);
    }
  }

  // ---------------------------------------------------- the queue

  /** kv_ds_queue_find: the first idle queue if idle counts are given, else the
      one with most room, if it has enough. */
  method QueueFind(qs: seq<Info>, ioCnt: Option<seq<nat>>, cost: nat) returns (at: Option<nat>, after: seq<Info>)
    requires (forall i :: 0 <= i < |qs| ==> qs[i].size <= qs[i].cap) && (ioCnt.Some? ==> |ioCnt.value| == |qs|)
    ensures at.Some? ==> at.value < |qs|
    ensures ioCnt.Some? && 0 in ioCnt.value ==>
      at.Some? && ioCnt.value[at.value] == 0 && (forall k :: 0 <= k < at.value ==> ioCnt.value[k] != 0) && after == qs
    ensures !(ioCnt.Some? && 0 in ioCnt.value) ==>
      && (at.None? <==> forall k :: 0 <= k < |qs| ==> qs[k].cap - qs[k].size < cost)
      && (at.None? ==> after == qs)
      && (at.Some? ==> after == qs[at.value := qs[at.value].(size := qs[at.value].size + cost)]
                       && after[at.value].size <= after[at.value].cap
                       && forall k :: 0 <= k < |qs| ==> qs[k].cap - qs[k].size <= qs[at.value].cap - qs[at.value].size)
  {
    after := qs;
    if |qs| == 0 {
      return None, qs;
    }
    var j := 0;
    for i := 0 to |qs|
      invariant j < |qs|
      invariant ioCnt.Some? ==> forall k :: 0 <= k < i ==> ioCnt.value[k] != 0
      invariant forall k :: 0 <= k < i ==> qs[k].cap - qs[k].size <= qs[j].cap - qs[j].size
    {
      if ioCnt.Some? && ioCnt.value[i] == 0 {
        return Some(i), qs;
      }
      if qs[i].cap - qs[i].size > qs[j].cap - qs[j].size {
        j := i;
      }
    }
    if qs[j].cap >= qs[j].size + cost {
      return Some(j), qs[j := qs[j].(size := qs[j].size + cost)];
    }
    return None, qs;
  }

  /** kv_ds_queue_find on the one queue of a data store. */
  method TryAdmit(q: Info, cost: nat) returns (ok: bool, after: Info)
    requires q.size <= q.cap
    ensures ok <==> q.cap >= q.size + cost
    ensures after == if ok then q.(size := q.size + cost) else q
  {
    var qs := [q];
    var at, rs := QueueFind(qs, None, cost);
    assert qs[0] == q;
    ok := at.Some?;
    after := rs[0];
  }

  class DataStoreQueue {
    var info: Info
    var waiting: seq<Op>
    ghost var running: seq<Op>

    ghost function Model(): Store
      reads this
    {
      Store(info, running, waiting)
    }

    constructor ()
      ensures Inv(Model()) && Model() == Store(Info(0, 1024), [], [])
    {
      info, waiting, running := Info(0, 1024), [], [];
    }

    /** enqueue; true when the operation is sent at once. */
    method Submit(op: Op) returns (sent: bool)
      requires Inv(Model())
      modifies this
      ensures Model() == Enqueue(old(Model()), op) && Inv(Model())
      ensures sent == Fits(old(Model()), op.kind)
    {
      EnqueueKeepsInv(Model(), op);
      var ok, q := TryAdmit(info, Cost(op.kind));
      if ok {
        info := q;
        running := running + [op];
        sent := true;
      } else {
        waiting := waiting + [op];
        sent := false;
      }
    }

    /** dequeue; the operations it sends. */
    method Complete(op: Op, ghost p: nat) returns (sent: seq<Op>)
      requires Inv(Model()) && p < |running| && running[p] == op
      modifies this
      ensures info.cap == old(info.cap) && Inv(Model())
      ensures old(info.size) >= Cost(op.kind) && Model() == Dequeue(old(Model()), p)
      ensures running == Without(old(running), p) + sent && sent + waiting == old(waiting)
    {
      hide Drain, Total, Without;
      DequeueKeepsInv(Model(), p);
      TotalWithout(running, p);
      var q := info.(size := info.size - Cost(op.kind));
      running := Without(running, p);
      q, sent := AdmitWaiting(q);
      info := q;
    }

    /** The loop of dequeue: waiting operations are sent as long as they fit. */
    method AdmitWaiting(before: Info) returns (q: Info, sent: seq<Op>)
      requires before.size == Total(running) <= before.cap
      modifies this`running, this`waiting
      ensures Store(q, running, waiting) == Drain(Store(before, old(running), old(waiting)))
      ensures q.cap == before.cap && running == old(running) + sent && sent + waiting == old(waiting)
    {
      hide Drain, Total;
      ghost var s := Store(before, running, waiting);
      q, sent := before, [];
      while waiting != []
        invariant q.size == Total(running) <= q.cap == before.cap
        invariant Drain(Store(q, running, waiting)) == Drain(s)
        invariant running == s.running + sent && sent + waiting == s.waiting
        decreases |waiting|
      {
        var first := waiting[0];
        DrainStep(Store(q, running, waiting));
        var ok, more := TryAdmit(q, Cost(first.kind));
        if ok {
          q := more;
          waiting := waiting[1..];
          running, sent := running + [first], sent + [first];
        } else {
          break;
        }
      }
      DrainStep(Store(q, running, waiting));
    }
  }
}
