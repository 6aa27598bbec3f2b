/** The copy scheduler as an object (spdk/app/leed/kv_data_store.c:488-611):
    every event it handles is a run of the step system of CopyModel. */
module CopyScheduler {
  import opened SeqOps
  import opened CopyModel

  class CopyCtx {
    const size: nat
    const bufNum: nat
    var ranges: map<nat, Range>
    var order: seq<nat>                 // key_ranges
    var pos: nat                        // next_range
    var queue: seq<Token>
    var iocnt: nat
    var queueSize: nat
    ghost var out: set<Token>
    ghost var committed: set<Token>
    ghost var handed: seq<Token>
    ghost var waiting: set<nat>
    ghost var locks: map<nat, seq<nat>>
    ghost var contents: map<(nat, nat), seq<bool>>
    ghost var fired: seq<nat>

    ghost function Model(): Copy
      reads this
    {
      Copy(size, ranges, queue, out, committed, handed, waiting, locks, contents, fired)
    }

    ghost predicate Valid()
      reads this
    {
      && Inv(Model())
      && iocnt == |out| <= bufNum && queueSize == |queue|
      && Distinct(order) && (forall r :: r in order <==> r in ranges)
      && (order != [] ==> pos < |order|)
    }

    constructor (size: nat, bufNum: nat)
      requires size > 0
      ensures Valid() && Settled(Model(), bufNum) && this.size == size && this.bufNum == bufNum
      ensures ranges == map[] && queue == []
    {
      this.size, this.bufNum := size, bufNum;
      ranges, order, pos, queue, iocnt, queueSize := map[], [], 0, [], 0, 0;
      out, committed, handed, waiting, locks, contents, fired := {}, {}, [], {}, map[], map[], [];
      new;
      InitInv(size);
    }

    /** on_seg_copy_done. */
    method OnSegCopyDone(r: nat)
      requires r in ranges
      modifies this`ranges, this`fired
      ensures Model() == SegDone(old(Model()), r)
    {
      var g := ranges[r];
      g := g.(copying := false);
      if g.toCopy == g.end && g.cb {
        fired := fired + [r];
        g := g.(cb := false);
      }
      ranges := ranges[r := g];
    }

    /** copy_consumer. */
    method CopyConsumer() returns (ghost es: seq<Event>)
      requires Valid()
      modifies this`queue, this`queueSize, this`iocnt, this`out, this`handed
      ensures Valid() && Reaches(old(Model()), es, bufNum, Model())
      ensures queue != [] ==> iocnt == bufNum
    {
      hide Inv, Reaches, Distinct;
      es := [];
      ReachesNone(Model(), bufNum);
      while iocnt < bufNum
        invariant Valid() && Reaches(old(Model()), es, bufNum, Model())
        decreases |queue|
      {
        if queue == [] {
          return;
        }
        ghost var m := Model();
        HandOutKeepsInv(m);
        ReachesOne(m, Hand, bufNum);
        ReachesMore(old(Model()), es, bufNum, m, [Hand], HandOut(m));
        es := es + [Hand];
        var t := queue[0];
        queue := queue[1..];
        queueSize := queueSize - 1;
        iocnt := iocnt + 1;
        out, handed := out + {t}, handed + [t];
      }
    }

    /** The producer's turn of one range. */
    method LockRange(r: nat) returns (ghost es: seq<Event>)
      requires Valid() && r in ranges
      modifies this`ranges, this`waiting, this`locks
      ensures Valid() && Reaches(old(Model()), es, bufNum, Model()) && ranges.Keys == old(ranges.Keys)
      ensures Busy(ranges, r) && forall q :: q in ranges && q != r ==> ranges[q] == old(ranges)[q]
    {
      hide Inv, Reaches, Distinct;
      es := [];
      ghost var m := Model();
      if ranges[r].toCopy != ranges[r].end && !ranges[r].copying {
        LockNextKeepsInv(m, r);
        CanLock(m, r);
        ReachesOne(m, Lock(r), bufNum);
        es := [Lock(r)];
        var g := ranges[r];
        waiting, locks := waiting + {r}, locks[r := locks[r] + [g.toCopy]];
        ranges := ranges[r := g.(copying := true, seg := g.toCopy, toCopy := (g.toCopy + 1) % size)];
      } else {
        ReachesNone(m, bufNum);
      }
    }

    /** copy_producer: once round the ranges, locking the next bucket of every
        range that has one and is not copying. */
    method CopyProducer() returns (ghost es: seq<Event>)
      requires Valid()
      modifies this`ranges, this`pos, this`waiting, this`locks
      ensures Valid() && Reaches(old(Model()), es, bufNum, Model())
      ensures forall r :: r in ranges ==> Busy(ranges, r)
    {
      hide Inv, Reaches, Busy, PassedBusy, Distinct;
      ghost var m0 := Model();
      es := [];
      ReachesNone(m0, bufNum);
      if order == [] {
        return;
      }
      var base := pos;
      ghost var seen: nat := 0;
      NonePassed(order, ranges, base);
      while true
        invariant Valid() && Reaches(m0, es, bufNum, Model())
        invariant base < |order| && 0 <= seen < |order|
        invariant pos == if base + seen < |order| then base + seen else base + seen - |order|
        invariant PassedBusy(order, ranges, base, seen)
        decreases |order| - seen
      {
        ghost var m := Model();
        var more := LockRange(order[pos]);
        ReachesMore(m0, es, bufNum, m, more, Model());
        es := es + more;
        Onward(order, m.ranges, ranges, base, seen, pos);
        pos := if pos + 1 < |order| then pos + 1 else 0;
        seen := seen + 1;
        if pos == base {
          AllPassed(order, ranges, base, seen);
          return;
        }
      }
    }

    /** copy_scheduler. */
    method Schedule() returns (ghost es: seq<Event>)
      requires Valid()
      modifies this
      ensures Valid() && Settled(Model(), bufNum) && Reaches(old(Model()), es, bufNum, Model())
    {
      hide Inv, Reaches, Distinct;
      es := CopyConsumer();
      if queueSize < bufNum {
        ghost var m := Model();
        var more := CopyProducer();
        ReachesMore(old(Model()), es, bufNum, m, more, Model());
        es := es + more;
      }
    }

    /** The items of a delivered chain join the queue. */
    method QueueItems(r: nat, chain: seq<bool>)
      requires r in ranges && queueSize == |queue|
      modifies this`queue, this`queueSize, this`ranges
      ensures var ts := Tokens(r, old(ranges)[r].seg, chain);
        && queue == old(queue) + ts
        && ranges == old(ranges)[r := old(ranges)[r].(itemNum := old(ranges)[r].itemNum + |ts|)]
      ensures queueSize == |queue|
    {
      hide Tokens;
      var g := ranges[r];
      assert chain[..0] == [];
      NoTokens(r, g.seg);
      for i := 0 to |chain|
        invariant ranges == old(ranges) && queueSize == |queue|
        invariant queue == old(queue) + Tokens(r, g.seg, chain[..i])
        invariant g == ranges[r].(itemNum := ranges[r].itemNum + |Tokens(r, g.seg, chain[..i])|)
      {
        TokensStep(r, g.seg, chain, i);
        if chain[i] {
          g := g.(itemNum := g.itemNum + 1);
          queueSize := queueSize + 1;
          queue := queue + [Token(r, g.seg, i)];
        }
      }
      assert chain[..|chain|] == chain;
      ranges := ranges[r := g];
    }

    /** A delivered chain: nothing to do, or its items are queued. */
    method TakeDelivery(r: nat, chain: seq<bool>)
      requires Valid() && r in waiting
      modifies this
      ensures Enabled(old(Model()), Delivery(r, chain), bufNum)
      ensures Valid() && Model() == Step(old(Model()), Delivery(r, chain), bufNum)
    {
      hide Inv, Tokens;
      DeliverKeepsInv(Model(), r, chain);
      CanDeliver(Model(), r);
      ghost var b := Last(locks[r]);
      waiting, contents := waiting - {r}, contents[(r, b) := chain];
      if chain == [] {
        OnSegCopyDone(r);
      } else {
        QueueItems(r, chain);
      }
    }

    /** copy_lock_cb: the lock of `r` is delivered with the slots of its chain. */
    method CopyLockCb(r: nat, chain: seq<bool>) returns (ghost es: seq<Event>)
      requires Valid() && r in waiting
      modifies this
      ensures Valid() && Settled(Model(), bufNum)
      ensures es != [] && es[0] == Delivery(r, chain) && Reaches(old(Model()), es, bufNum, Model())
    {
      hide Inv, Tokens, Reaches, Step;
      ghost var m := Model();
      TakeDelivery(r, chain);
      ReachesOne(m, Delivery(r, chain), bufNum);
      var more := Schedule();
      ReachesMore(m, [Delivery(r, chain)], bufNum, Step(m, Delivery(r, chain), bufNum), more, Model());
      es := [Delivery(r, chain)] + more;
    }

    /** The commit of an item, and of its segment with the last one. */
    method CountDown(t: Token)
      requires Valid() && t in out
      modifies this
      ensures Enabled(old(Model()), Done(t), bufNum)
      ensures Valid() && Model() == Step(old(Model()), Done(t), bufNum)
    {
      hide Inv, Distinct;
      CommitKeepsInv(Model(), t);
      var r := t.range;
      iocnt := iocnt - 1;
      out, committed := out - {t}, committed + {t};
      ranges := ranges[r := ranges[r].(itemNum := ranges[r].itemNum - 1)];
      if ranges[r].itemNum == 0 {
        OnSegCopyDone(r);
      }
    }

    /** kv_data_store_copy_commit of an item that was handed out. */
    method CopyCommit(t: Token) returns (ghost es: seq<Event>)
      requires Valid() && t in out
      modifies this
      ensures Valid() && Settled(Model(), bufNum)
      ensures es != [] && es[0] == Done(t) && Reaches(old(Model()), es, bufNum, Model())
    {
      hide Inv, Reaches, Distinct, Step;
      ghost var m := Model();
      CountDown(t);
      ReachesOne(m, Done(t), bufNum);
      var more := Schedule();
      ReachesMore(m, [Done(t)], bufNum, Step(m, Done(t), bufNum), more, Model());
      es := [Done(t)] + more;
    }

    /** kv_data_store_copy_add_key_range, for a range with a new identity. */
    method AddKeyRange(r: nat, start: nat, end: nat) returns (ghost es: seq<Event>)
      requires Valid() && r !in ranges && start < size && end < size
      modifies this
      ensures Valid() && Settled(Model(), bufNum)
      ensures es != [] && es[0] == Add(r, start, end) && Reaches(old(Model()), es, bufNum, Model())
    {
      hide Inv, Reaches;
      ghost var m := Model();
      AddRangeKeepsInv(m, r, start, end);
      ranges := ranges[r := Range(start, end, start, false, 0, 0, true)];
      locks := locks[r := []];
      pos := if order == [] then 0 else pos + 1;
      order := [r] + order;
      assert Model() == AddRange(m, r, start, end);
      ReachesOne(m, Add(r, start, end), bufNum);
      var more := Schedule();
      ReachesMore(m, [Add(r, start, end)], bufNum, AddRange(m, r, start, end), more, Model());
      es := [Add(r, start, end)] + more;
    }

    /** kv_data_store_copy_forward: whether some range has already handed the
        bucket to the copier. */
    method CopyForward(b: nat) returns (yes: bool)
      requires Valid() && b < size
      ensures yes <==> exists r :: r in locks && b in locks[r]
    {
      hide Inv, Behind;
      KeysMatch(Model());
      for i := 0 to |order|
        invariant forall k :: 0 <= k < i ==> order[k] in locks && b !in locks[order[k]]
      {
        var g := ranges[order[i]];
        BehindIsLocked(Model(), order[i], b);
        TestIsBehind(g, b, size);
        if (b + size - g.start) % size < (g.toCopy + size - g.start) % size {
          return true;
        }
      }
      yes := false;
    }
  }

  lemma KeysMatch(m: Copy)
    requires Inv(m)
    ensures m.locks.Keys == m.ranges.Keys
  {
  }

  lemma TestIsBehind(g: Range, b: nat, size: nat)
    requires g.start < size
    ensures Behind(g, b, size) <==> (b + size - g.start) % size < (g.toCopy + size - g.start) % size
  {
  }

  lemma CanDeliver(m: Copy, r: nat)
    requires Inv(m) && r in m.waiting
    ensures r in m.ranges && r in m.locks && m.locks[r] != [] && m.ranges[r].seg == Last(m.locks[r])
  {
    WaitingRange(m, r);
    assert RangeOk(m, r);
  }

  lemma TokensStep(r: nat, b: nat, chain: seq<bool>, i: nat)
    requires i < |chain|
    ensures Tokens(r, b, chain[..i + 1]) == Tokens(r, b, chain[..i]) + if chain[i] then [Token(r, b, i)] else []
  {
    assert chain[..i + 1][..i] == chain[..i];
  }

  predicate Passed(k: nat, base: nat, seen: nat, n: nat) {
    base <= k < base + seen || k + n < base + seen
  }

  /** The ranges already had their turn: they are copying or at their end. */
  ghost predicate PassedBusy(order: seq<nat>, ranges: map<nat, Range>, base: nat, seen: nat) {
    forall k :: 0 <= k < |order| && Passed(k, base, seen, |order|) ==> Busy(ranges, order[k])
  }

  lemma NonePassed(order: seq<nat>, ranges: map<nat, Range>, base: nat)
    requires base < |order|
    ensures PassedBusy(order, ranges, base, 0)
  {
  }

  lemma Onward(order: seq<nat>, was: map<nat, Range>, ranges: map<nat, Range>, base: nat, seen: nat, pos: nat)
    requires base < |order| && seen < |order|
    requires pos == if base + seen < |order| then base + seen else base + seen - |order|
    requires PassedBusy(order, was, base, seen) && Busy(ranges, order[pos])
    requires ranges.Keys == was.Keys && forall q :: q in ranges && q != order[pos] ==> ranges[q] == was[q]
    ensures PassedBusy(order, ranges, base, seen + 1)
  {
  }

  lemma AllPassed(order: seq<nat>, ranges: map<nat, Range>, base: nat, seen: nat)
    requires base < |order| == seen && PassedBusy(order, ranges, base, seen)
    ensures forall r :: r in order ==> Busy(ranges, r)
  {
  }

  predicate Busy(ranges: map<nat, Range>, r: nat) {
    r in ranges && (ranges[r].copying || ranges[r].toCopy == ranges[r].end)
  }

  lemma ReachesNone(m: Copy, bufNum: nat)
    ensures Reaches(m, [], bufNum, m)
  {
  }

  lemma CanLock(m: Copy, r: nat)
    requires Inv(m) && r in m.ranges && !m.ranges[r].copying && m.ranges[r].toCopy != m.ranges[r].end
    ensures Enabled(m, Lock(r), 0) && r in m.locks && m.size > 0
  {
  }
}
