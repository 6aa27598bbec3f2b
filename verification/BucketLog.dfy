/** The bucket log as the code keeps it: a circular device, wrapped offsets, an
    index of offsets, and compaction contexts (spdk/app/leed/kv_bucket_log.c).
    Every method is proved against an event of CompactionModel. */
module BucketLog {
  import opened SeqOps
  import opened WrapMath
  import opened CompactionModel

  /** A bucket on the device. */
  datatype Block = Block(id: nat, chainLength: nat, chainIndex: nat, items: Bucket)

  /** An index entry; a bucket without entry is empty. */
  datatype Meta = Meta(chainLength: nat, offset: nat)

  /** A written chain waiting to be committed. */
  datatype Seg = Seg(id: nat, chainLength: nat, offset: nat, void: bool)

  datatype CompactCtx = CompactCtx(compactHead: nat, len: nat, segs: seq<Seg>)

  // ----- the device -----

  function BlockOf(c: Chain, k: nat): Block
    requires k < Len(c)
  {
    Block(c.id, Len(c), k, c.buckets[k])
  }

  lemma TailAfter(log: History, c: Chain, n: nat)
    requires n > 0
    ensures Start(log + [c], |log| + 1) == Start(log, |log|) + Len(c)
    ensures Wrap(Wrap(Start(log, |log|), n) + Len(c), n) == Wrap(Start(log + [c], |log| + 1), n)
  {
    hide Wrap, Start;
    StartPrefix(log, [c], |log|);
    StartNext(log + [c], |log|);
    WrapAdd(Start(log, |log|), Len(c), n);
  }

  /** Chain `i` of the history is on the device, one bucket a block. */
  ghost predicate Laid(d: seq<Block>, log: History, i: nat)
    requires i < |log| && |d| > 0
  {
    forall k :: 0 <= k < Len(log[i]) ==> At(d, Start(log, i) + k) == BlockOf(log[i], k)
  }

  /** Everything from chain `h` on is on the device. */
  ghost predicate LaidFrom(d: seq<Block>, log: History, h: nat)
    requires |d| > 0
  {
    forall i :: h <= i < |log| ==> Laid(d, log, i)
  }

  /** Writing a chain after the tail keeps the others and adds the chain. */
  lemma LaidAppend(d: seq<Block>, d': seq<Block>, log: History, h: nat, c: Chain)
    requires |d| == |d'| > 0 && h <= |log| && LaidFrom(d, log, h)
    requires forall x :: Start(log, h) <= x < Start(log, |log|) ==> At(d', x) == At(d, x)
    requires forall k :: 0 <= k < Len(c) ==> At(d', Start(log, |log|) + k) == BlockOf(c, k)
    ensures LaidFrom(d', log + [c], h)
  {
    var log' := log + [c];
    forall i | h <= i < |log'|
      ensures Laid(d', log', i)
    {
      StartPrefix(log, [c], i);
      if i < |log| {
        StartMonotone(log, h, i);
        StartMonotone(log, i + 1, |log|);
        assert Laid(d, log, i);
        forall k | 0 <= k < Len(log[i])
          ensures At(d', Start(log, i) + k) == BlockOf(log[i], k)
        {
          assert At(d, Start(log, i) + k) == BlockOf(log[i], k);
        }
      }
    }
  }

  function MetaOf(s: Store, i: nat): Meta
    requires i < |s.log| && s.size > 0
  {
    Meta(Len(s.log[i]), Wrap(Start(s.log, i), s.size))
  }

  function SegOf(s: Store, i: nat): Seg
    requires i < |s.log| && s.size > 0
  {
    Seg(s.log[i].id, Len(s.log[i]), Wrap(Start(s.log, i), s.size), Void(s.log[i]))
  }

  ghost predicate CtxOf(s: Store, j: Job, x: CompactCtx)
    requires s.size > 0 && j.first <= j.last <= |s.log|
  {
    && x.compactHead == Wrap(Start(s.log, j.first), s.size)
    && x.len == Start(s.log, j.last) - Start(s.log, j.first)
    && |x.segs| == |j.moves|
    && forall k :: 0 <= k < |x.segs| ==> j.moves[k].dst < |s.log| && x.segs[k] == SegOf(s, j.moves[k].dst)
  }

  /** The wrapped fields represent the store. */
  ghost predicate Represents(s: Store, head: nat, compactHead: nat, meta: map<nat, Meta>, written: map<nat, Seg>,
                             compactions: seq<CompactCtx>)
  {
    && Inv(s) && s.size > 0
    && head == Wrap(Start(s.log, s.head), s.size)
    && compactHead == Wrap(Start(s.log, s.compact), s.size)
    && meta.Keys == s.at.Keys
    && (forall id :: id in meta ==> meta[id] == MetaOf(s, s.at[id]))
    && written.Keys == s.puts.Keys
    && (forall id :: id in written ==> written[id] == SegOf(s, s.puts[id]))
    && |compactions| == |s.jobs|
    && (forall k :: 0 <= k < |compactions| ==> JobOk(s, s.jobs[k]) && CtxOf(s, s.jobs[k], compactions[k]))
  }

  lemma PrefixOffsets(s: Store, s': Store, more: History, i: nat)
    requires s.size == s'.size > 0 && s'.log == s.log + more && i <= |s.log|
    ensures Start(s'.log, i) == Start(s.log, i)
    ensures i < |s.log| ==> MetaOf(s', i) == MetaOf(s, i) && SegOf(s', i) == SegOf(s, i)
  {
  }

  lemma PrefixCtx(s: Store, s': Store, more: History, j: Job, x: CompactCtx)
    requires s.size == s'.size > 0 && s'.log == s.log + more
    requires j.first <= j.last <= |s.log| && CtxOf(s, j, x)
    ensures CtxOf(s', j, x)
  {
    hide Start, Wrap, Void;
    PrefixOffsets(s, s', more, j.first);
    PrefixOffsets(s, s', more, j.last);
    forall k | 0 <= k < |x.segs|
      ensures j.moves[k].dst < |s'.log| && x.segs[k] == SegOf(s', j.moves[k].dst)
    {
      PrefixOffsets(s, s', more, j.moves[k].dst);
    }
  }

  /** The range test of compact_write_cb is exact for every chain behind the start
      of the range if and only if the log has not yet wrapped back onto it. */
  lemma RangeTestExactIff(start: nat, len: nat, tail: nat, size: nat)
    requires 0 < len <= size && start + len <= tail
    ensures (forall p :: start <= p < tail ==>
                           (Wrap(size - Wrap(start, size) + Wrap(p, size), size) < len <==> p < start + len))
            <==> tail <= start + size
  {
    hide Wrap;
    if tail <= start + size {
      forall p | start <= p < tail
        ensures Wrap(size - Wrap(start, size) + Wrap(p, size), size) < len <==> p < start + len
      {
        WrappedDistance(start, p, size);
      }
    } else {
      var p := start + size;
      WrapTurn(start, size);
      WrapSmall(0, size);
      assert Wrap(size - Wrap(start, size) + Wrap(p, size), size) < len && !(p < start + len);
    }
  }

  class KvBucketLog {
    const size: nat
    const disk: array<Block>
    var head: nat
    var tail: nat
    var compactHead: nat
    var meta: map<nat, Meta>
    var written: map<nat, Seg>       // segments of lock holders, written and not committed
    var compactions: seq<CompactCtx>
    ghost var store: Store

    ghost predicate Valid()
      reads this, disk
    {
      && store.size == size == disk.Length
      && Represents(store, head, compactHead, meta, written, compactions)
      && tail == Wrap(Tail(store), size)
      && LaidFrom(disk[..], store.log, store.head)
    }

    constructor (size: nat)
      requires size > 0
      ensures Valid() && this.size == size && fresh(disk)
      ensures store == Store(size, [], 0, 0, map[], map[], [])
    {
      this.size := size;
      disk := new Block[size](_ => Block(0, 0, 0, []));
      head, tail, compactHead := 0, 0, 0;
      meta, written, compactions := map[], map[], [];
      store := Store(size, [], 0, 0, map[], map[], []);
    }

    /** Where a chain of the history starts on the device. */
    lemma ChainAt(i: nat)
      requires Valid() && store.head <= i < |store.log|
      ensures disk[Wrap(Start(store.log, i), size)] == BlockOf(store.log[i], 0)
    {
      assert Laid(disk[..], store.log, i);
      assert At(disk[..], Start(store.log, i) + 0) == BlockOf(store.log[i], 0);
    }

    /** The test by which the code recognises a live chain. */
    lemma LiveTest(i: nat)
      requires Valid() && store.head <= i < |store.log|
      ensures var id := store.log[i].id;
              Live(store, i) <==> id in meta && meta[id].offset == Wrap(Start(store.log, i), size)
    {
      var id := store.log[i].id;
      if id in store.at {
        var a := store.at[id];
        StartMonotone(store.log, store.head, a);
        StartMonotone(store.log, store.head, i);
        StartMonotone(store.log, a, |store.log|);
        StartMonotone(store.log, i, |store.log|);
        if a < i {
          StartMonotone(store.log, a, i);
          WrappedEqual(Start(store.log, a), Start(store.log, i), size);
        } else {
          StartMonotone(store.log, i, a);
          WrappedEqual(Start(store.log, i), Start(store.log, a), size);
        }
      }
    }

    /** The chain whose first bucket is at `offset`. */
    method ReadChain(offset: nat, ghost i: nat) returns (c: Chain)
      requires Valid() && store.head <= i < |store.log| && offset == Wrap(Start(store.log, i), size)
      ensures c == store.log[i]
    {
      hide Wrap, Start, JobOk, CtxOf, MetaOf, SegOf;
      ghost var x := store.log[i];
      assert Laid(disk[..], store.log, i);
      ChainAt(i);
      var buckets, n, k := [], disk[offset].chainLength, 0;
      while k < n
        invariant 0 <= k <= n == Len(x)
        invariant buckets == x.buckets[..k]
      {
        WrapAdd(Start(store.log, i), k, size);
        assert At(disk[..], Start(store.log, i) + k) == BlockOf(x, k);
        buckets := buckets + [disk[Wrap(offset + k, size)].items];
        k := k + 1;
      }
      c := Chain(disk[offset].id, buckets);
    }

    /** A read through the index returns the committed buckets, in order. */
    method Get(id: nat) returns (buckets: seq<Bucket>)
      requires Valid()
      ensures buckets == if id in store.at then Contents(store)[id] else []
    {
      hide Wrap, Start, JobOk, CtxOf, LaidFrom;
      buckets := [];
      if id in meta {
        var c := ReadChain(meta[id].offset, store.at[id]);
        buckets := c.buckets;
      }
    }

    /** kv_circular_log_append of one chain that is known to fit. */
    method WriteChain(c: Chain, ghost log: History, ghost h: nat)
      requires disk.Length == size > 0
      requires h <= |log| && tail == Wrap(Start(log, |log|), size)
      requires Start(log, |log|) + Len(c) - Start(log, h) <= size
      requires LaidFrom(disk[..], log, h)
      modifies this`tail, disk
      ensures tail == Wrap(Start(log + [c], |log| + 1), size)
      ensures LaidFrom(disk[..], log + [c], h)
    {
      hide At, LaidFrom, Start, Wrap;
      ghost var t, d := Start(log, |log|), disk[..];
      StartMonotone(log, h, |log|);
      var k := 0;
      while k < Len(c)
        invariant 0 <= k <= Len(c) && tail == Wrap(t, size)
        invariant forall x :: Start(log, h) <= x < t ==> At(disk[..], x) == At(d, x)
        invariant forall j :: 0 <= j < k ==> At(disk[..], t + j) == BlockOf(c, j)
      {
        WrapAdd(t, k, size);
        ghost var before := disk[..];
        var x := Wrap(tail + k, size);
        disk[x] := Block(c.id, Len(c), k, c.buckets[k]);
        assert disk[..] == before[x := BlockOf(c, k)];
        forall y | Start(log, h) <= y <= t + k
          ensures At(disk[..], y) == if y == t + k then BlockOf(c, k) else At(before, y)
        {
          WriteAt(before, x, t + k, BlockOf(c, k), y);
        }
        k := k + 1;
      }
      LaidAppend(d, disk[..], log, h, c);
      TailAfter(log, c, size);
      tail := Wrap(tail + Len(c), size);
    }

    /** kv_circular_log_empty_space of the wrapped head and tail. */
    method EmptySpace() returns (n: nat)
      requires Valid()
      ensures n == size - 1 - (Tail(store) - Start(store.log, store.head))
    {
      hide Wrap;
      StartMonotone(store.log, store.head, |store.log|);
      WrappedDistance(Start(store.log, store.head), Tail(store), size);
      n := size - 1 - Wrap(size - head + tail, size);
    }

    /** kv_bucket_seg_put of a lock holder. */
    method Put(c: Chain) returns (ok: bool)
      requires Valid() && ValidChain(c) && c.id !in store.puts
      requires SparesSources(store, Len(c))
      modifies this, disk
      ensures Valid()
      ensures ok <==> old(HasRoom(store, Len(c)))
      ensures store == if ok then old(Next(store, AppendPut(c))) else old(store)
    {
      hide Wrap, Start, LaidFrom, JobOk;
      var space := EmptySpace();
      ok := space >= Len(c);
      if ok {
        ghost var s := store;
        var seg := Seg(c.id, Len(c), tail, Void(c));
        WriteChain(c, s.log, s.head);
        written := written[c.id := seg];
        store := Next(s, AppendPut(c));
        StepAppendPut(s, c);
        PutRepresents(s, c, head, compactHead, meta, old(written), compactions);
        PrefixOffsets(s, store, [c], s.head);
      }
    }

    /** seg_commit of a lock holder's segment. */
    method Commit(id: nat)
      requires Valid() && id in written
      modifies this
      ensures Valid() && store == old(Next(store, CommitPut(id)))
    {
      hide Wrap, Start, LaidFrom, JobOk, CtxOf, Void;
      var seg := written[id];
      StepCommitPut(store, id);
      CommitRepresents(store, id, head, compactHead, meta, written, compactions);
      meta := if seg.void then meta - {id} else meta[id := Meta(seg.chainLength, seg.offset)];
      written := written - {id};
      store := Next(store, CommitPut(id));
    }

    /** The lock holder gives up without a commit. */
    method Abort(id: nat)
      requires Valid() && id in written
      modifies this
      ensures Valid() && store == old(Next(store, AbortPut(id)))
    {
      hide Wrap, Start, LaidFrom;
      ghost var s := store;
      AbortRepresents(s, id, head, compactHead, meta, written, compactions);
      written := written - {id};
      store := Next(s, AbortPut(id));
    }

    lemma Bounds()
      requires Valid()
      ensures Inv(store) && store.head <= store.compact <= |store.log| && size > 0
      ensures Tail(store) - Start(store.log, store.head) < size
      ensures head == Wrap(Start(store.log, store.head), size)
      ensures compactHead == Wrap(Start(store.log, store.compact), size)
    {
      hide Wrap, Start, LaidFrom;
    }

    /** The loop of compact_move_head: blocks of dead chains from the head on. */
    method DeadBlocks() returns (i: nat)
      requires Valid()
      ensures Start(store.log, store.head) + i == Start(store.log, NextHead(store, store.head))
    {
      hide Wrap, Start, LaidFrom, At, Represents;
      Bounds();
      ghost var s := store;
      ghost var a, b := Start(s.log, s.head), Start(s.log, s.compact);
      ghost var h: nat := s.head;
      StartMonotone(s.log, s.head, s.compact);
      StartMonotone(s.log, s.compact, |s.log|);
      i := 0;
      WrappedArrival(a, 0, b, size);
      while Wrap(size - compactHead + head + i, size) != 0
        invariant s.head <= h <= s.compact && a + i == Start(s.log, h) <= b
        invariant Wrap(size - compactHead + head + i, size) == 0 <==> a + i == b
        invariant NextHead(s, s.head) == NextHead(s, h)
        decreases b - (a + i)
      {
        assert h < s.compact;
        WrapAdd(a, i, size);
        var offset := Wrap(head + i, size);
        ChainAt(h);
        LiveTest(h);
        var bucket := disk[offset];
        if bucket.id in meta && meta[bucket.id].offset == offset { return; }
        StartNext(s.log, h);
        StartMonotone(s.log, h + 1, s.compact);
        i := i + bucket.chainLength;
        h := h + 1;
        WrappedArrival(a, i, b, size);
      }
      StartMonotone(s.log, h, s.compact);
    }

    /** compact_move_head: step over dead chains up to the compaction head. */
    method CompactMoveHead()
      requires Valid()
      modifies this`head, this`store
      ensures Valid() && store == old(Next(store, MoveHead))
    {
      hide Wrap, Start, LaidFrom, At, Represents;
      Bounds();
      var i := DeadBlocks();
      ghost var s := store;
      HeadRepresents(s, i, head, compactHead, meta, written, compactions);
      head := Wrap(head + i, size);
      store := Next(s, MoveHead);
      LaidLater(disk[..], s.log, s.head, store.head);
    }

    /** The test of compact_write_cb: the index still points into the range that
        compaction `k` read. */
    lemma RangeTest(k: nat, id: nat)
      requires Valid() && k < |compactions| && id in meta
      ensures var x := compactions[k];
              Wrap(size - x.compactHead + meta[id].offset, size) < x.len <==>
              store.jobs[k].first <= store.at[id] < store.jobs[k].last
    {
      hide Wrap, LaidFrom, At, Start;
      var s, j, a := store, store.jobs[k], store.at[id];
      assert JobOk(s, j) && CtxOf(s, j, compactions[k]);
      StartMonotone(s.log, s.head, a);
      StartMonotone(s.log, a + 1, |s.log|);
      StartNext(s.log, a);
      StartMonotone(s.log, j.first, j.last);
      StartMonotone(s.log, j.last, |s.log|);
      if a >= j.first {
        StartMonotone(s.log, j.first, a);
        WrappedDistance(Start(s.log, j.first), Start(s.log, a), size);
        if a < j.last { StartMonotone(s.log, a + 1, j.last); } else { StartMonotone(s.log, j.last, a); }
      } else {
        StartMonotone(s.log, a + 1, j.first);
        WrappedBack(Start(s.log, a), Start(s.log, j.first), size);
      }
    }

    lemma CtxFacts(k: nat)
      requires Valid() && k < |compactions|
      ensures Inv(store) && Loose(store) && |compactions| == |store.jobs|
      ensures |compactions[k].segs| == |store.jobs[k].moves|
      ensures JobOk(store, store.jobs[k]) && compactions[k].compactHead < size
      ensures compactions[k].segs != [] ==> Enabled(store, CommitMove(k))
    {
    }

    /** One turn of the loop of compact_write_cb. */
    method CommitCopy(k: nat)
      requires Valid() && k < |compactions| && compactions[k].segs != []
      modifies this
      ensures Valid() && store == old(Next(store, CommitMove(k)))
      ensures |compactions| == |old(compactions)| && compactions[k].segs == old(compactions)[k].segs[1..]
    {
      hide Wrap, LaidFrom, At, Start, CtxOf, Represents, Inv, Loose, Next;
      CtxFacts(k);
      MoveKeepsLog(store, k);
      var x := compactions[k];
      var seg := x.segs[0];
      if seg.id in meta { RangeTest(k, seg.id); }
      StepCommitMove(store, k);
      CopyRepresents(store, k, head, compactHead, meta, written, compactions);
      if seg.id in meta && Wrap(size - x.compactHead + meta[seg.id].offset, size) < x.len {
        meta := if seg.void then meta - {seg.id} else meta[seg.id := Meta(seg.chainLength, seg.offset)];
      }
      compactions := compactions[k := x.(segs := x.segs[1..])];
      store := Next(store, CommitMove(k));
    }

    method FinishCompaction(k: nat)
      requires Valid() && k < |compactions| && compactions[k].segs == []
      modifies this
      ensures Inv(old(store)) && Enabled(old(store), FinishJob(k))
      ensures Valid() && store == old(Next(store, FinishJob(k))) && Contents(store) == old(Contents(store))
    {
      hide Wrap, LaidFrom, At, Start, MoveOk;
      CtxFacts(k);
      StepFinishJob(store, k);
      ghost var s, xs := store, compactions;
      compactions := Without(compactions, k);
      store := Next(store, FinishJob(k));
      forall i | 0 <= i < |compactions|
        ensures JobOk(store, store.jobs[i]) && CtxOf(store, store.jobs[i], compactions[i])
      {
        WithoutAt(xs, k, i);
        WithoutAt(s.jobs, k, i);
        var i' := if i < k then i else i + 1;
        assert JobOk(s, s.jobs[i']) && CtxOf(s, s.jobs[i'], xs[i']);
        assert s.log == s.log + [];
        PrefixCtx(s, store, [], s.jobs[i'], xs[i']);
      }
    }

    /** compact_write_cb: commit the copies that are still wanted, then move the head. */
    method CompactWriteCb(k: nat)
      requires Valid() && k < |compactions|
      modifies this
      ensures Valid()
      ensures store == old(Complete(store, k)) && Contents(store) == old(Contents(store))
    {
      hide Wrap, LaidFrom, At, Start, JobOk, CtxOf, MoveOk, MetaOf, SegOf, Contents;
      ghost var s0 := store;
      CtxFacts(k);
      while compactions[k].segs != []
        invariant Valid() && k < |compactions| == |store.jobs|
        invariant Drain(store, k) == Drain(s0, k) && Contents(store) == Contents(s0)
        decreases |compactions[k].segs|
      {
        CtxFacts(k);
        StepCommitMove(store, k);
        CommitCopy(k);
      }
      CtxFacts(k);
      FinishCompaction(k);
      StepMoveHead(store);
      CompactMoveHead();
    }

    /** The loop of compact: read on from the compaction head, keep the live chains. */
    method Collect() returns (len: nat, chains: seq<Chain>)
      requires Valid() && Enabled(store, CompactStart)
      ensures var e := CompactEnd(store.log, store.compact, store.compact);
              && len == Start(store.log, e) - Start(store.log, store.compact)
              && chains == Copies(store.log, LiveFrom(store, store.compact, e))
    {
      hide Wrap, Start, JobOk, CtxOf, LaidFrom, MetaOf, SegOf, At, HasRoom, SparesSources, NoneUncommittedBefore;
      hide Copies, LiveFrom, CompactEnd;
      ghost var s, c, e: nat := store, store.compact, store.compact;
      len, chains := 0, [];
      assert chains == Copies(s.log, LiveFrom(s, c, c)) by { NothingCollected(s); }
      while len < LENGTH
        invariant c <= e <= |s.log| && Start(s.log, c) + len == Start(s.log, e)
        invariant CompactEnd(s.log, c, c) == CompactEnd(s.log, c, e)
        invariant chains == Copies(s.log, LiveFrom(s, c, e))
        decreases |s.log| - e
      {
        CollectGoesOn(s, e);
        CollectStep(s, c, e);
        WrapAdd(Start(s.log, c), len, size);
        var offset := Wrap(compactHead + len, size);
        ChainAt(e);
        LiveTest(e);
        var bucket := disk[offset];
        assert bucket.chainIndex == 0 && bucket.chainLength != 0;
        if bucket.id in meta && meta[bucket.id].offset == offset {
          var chain := ReadChain(offset, e);
          chains := chains + [chain];
        }
        len := len + bucket.chainLength;
        e := e + 1;
      }
      CollectGoesOn(s, e);
    }

    /** kv_bucket_seg_put_bulk: the chains go out one after the other. */
    method WriteAll(chains: seq<Chain>, ghost log: History, ghost h: nat) returns (segs: seq<Seg>)
      requires disk.Length == size > 0
      requires h <= |log| && tail == Wrap(Start(log, |log|), size)
      requires Start(log, |log|) + Total(chains) - Start(log, h) <= size
      requires LaidFrom(disk[..], log, h)
      modifies this`tail, disk
      ensures tail == Wrap(Start(log + chains, |log| + |chains|), size)
      ensures LaidFrom(disk[..], log + chains, h)
      ensures |segs| == |chains|
      ensures forall k :: 0 <= k < |segs| ==> segs[k] == NewSeg(log + chains, |log| + k, size)
    {
      hide Wrap, Start, LaidFrom, Void;
      segs := [];
      assert log + chains[..0] == log;
      ghost var all := log + chains;
      var k := 0;
      while k < |chains|
        invariant 0 <= k <= |chains| == |all| - |log| && |segs| == k
        invariant tail == Wrap(Start(log + chains[..k], |log| + k), size)
        invariant LaidFrom(disk[..], log + chains[..k], h)
        invariant forall j :: 0 <= j < k ==> segs[j] == NewSeg(all, |log| + j, size)
      {
        var c := chains[k];
        ghost var part := log + chains[..k];
        WriteStep(log, chains, k, h, size);
        segs := segs + [Seg(c.id, Len(c), tail, Void(c))];
        WriteChain(c, part, h);
        assert part + [c] == log + chains[..k + 1];
        k := k + 1;
      }
      assert log + chains[..k] == all;
    }

    /** Blocks between the head and the compaction head. */
    method CompactedAhead() returns (n: nat)
      requires Valid()
      ensures n == Start(store.log, store.compact) - Start(store.log, store.head)
    {
      hide Wrap, Start;
      StartMonotone(store.log, store.head, store.compact);
      StartMonotone(store.log, store.compact, |store.log|);
      WrappedDistance(Start(store.log, store.head), Start(store.log, store.compact), size);
      n := Wrap(size - head + compactHead, size);
    }

    /** One compaction up to its write: read, advance the compaction head, append. */
    method StartCompaction()
      requires Valid() && Enabled(store, CompactStart)
      modifies this, disk
      ensures Valid() && store == old(Next(store, CompactStart))
      ensures |compactions| == |old(compactions)| + 1 == |store.jobs|
      ensures |compactions[|old(compactions)|].segs| == |LiveFrom(old(store), old(store).compact, store.compact)|
    {
      hide Wrap, Start, JobOk, CtxOf, LaidFrom, MetaOf, SegOf, At, NewSeg, SparesSources, NoneUncommittedBefore;
      hide Copies, LiveFrom;
      ghost var s := store;
      var len, chains := Collect();
      var from := compactHead;
      compactHead := Wrap(compactHead + len, size);
      var segs := WriteAll(chains, s.log, s.head);
      compactions := compactions + [CompactCtx(from, len, segs)];
      StepCompactStart(s);
      CompactRepresents(s, head, from, meta, written, old(compactions), len, segs);
      store := Next(s, CompactStart);
    }

    /** compact, with the compactions that its own appends trigger. */
    method Compact()
      requires Valid() && Cascade(store)
      modifies this, disk
      ensures Valid() && store == old(Compacted(store)) && Contents(store) == old(Contents(store))
      decreases if Wants(store)
        then LENGTH * CONCURRENCY + 1 - (Start(store.log, store.compact) - Start(store.log, store.head))
        else 0
    {
      hide Wrap, Start, JobOk, CtxOf, LaidFrom, MetaOf, SegOf, At, HasRoom, SparesSources, NoneUncommittedBefore;
      hide Contents, LiveFrom, Copies, Drain, Complete;
      var space := EmptySpace();
      var ahead := CompactedAhead();
      if space >= LENGTH * CONCURRENCY * 6 { return; }
      if ahead > LENGTH * CONCURRENCY { return; }
      CascadeAdvances(store);
      StepCompactStart(store);
      StartCompaction();
      if compactions[|compactions| - 1].segs == [] {
        CompactWriteCb(|compactions| - 1);
      } else {
        Compact();
      }
    }
  }

  /** The fields after a compaction has issued its write. */
  lemma CompactRepresents(s: Store, head: nat, compactHead: nat, meta: map<nat, Meta>, written: map<nat, Seg>,
                          compactions: seq<CompactCtx>, len: nat, segs: seq<Seg>)
    requires Represents(s, head, compactHead, meta, written, compactions)
    requires Enabled(s, CompactStart) && Inv(Next(s, CompactStart))
    requires var s' := Next(s, CompactStart);
             && len == Start(s.log, s'.compact) - Start(s.log, s.compact)
             && |segs| == |s'.log| - |s.log|
             && forall k :: 0 <= k < |segs| ==> segs[k] == NewSeg(s'.log, |s.log| + k, s.size)
    ensures Represents(Next(s, CompactStart), head, Wrap(compactHead + len, s.size), meta, written,
                       compactions + [CompactCtx(compactHead, len, segs)])
    ensures |segs| == |LiveFrom(s, s.compact, Next(s, CompactStart).compact)|
    ensures Start(Next(s, CompactStart).log, s.head) == Start(s.log, s.head)
  {
    hide Wrap, Start, MoveOk, HasRoom, SparesSources, NoneUncommittedBefore, Void, LiveFrom, MetaOf, SegOf, CtxOf;
    var s' := Next(s, CompactStart);
    var e := s'.compact;
    var xs := LiveFrom(s, s.compact, e);
    var more := Copies(s.log, xs);
    assert s'.log == s.log + more && |more| == |xs|;
    PrefixOffsets(s, s', more, s.head);
    PrefixOffsets(s, s', more, s.compact);
    PrefixOffsets(s, s', more, e);
    WrapAdd(Start(s.log, s.compact), len, s.size);
    var ctx := CompactCtx(compactHead, len, segs);
    NewCtxOf(s, compactHead, len, segs);
    forall id | id in meta
      ensures meta[id] == MetaOf(s', s'.at[id])
    {
      PrefixOffsets(s, s', more, s.at[id]);
    }
    forall id | id in written
      ensures written[id] == SegOf(s', s'.puts[id])
    {
      PrefixOffsets(s, s', more, s.puts[id]);
    }
    forall k | 0 <= k < |compactions| + 1
      ensures JobOk(s', s'.jobs[k]) && CtxOf(s', s'.jobs[k], (compactions + [ctx])[k])
    {
      if k < |compactions| {
        assert JobOk(s, s.jobs[k]);
        PrefixCtx(s, s', more, s.jobs[k], compactions[k]);
      }
    }
  }

  /** The context of the new compaction is its job's. */
  lemma NewCtxOf(s: Store, compactHead: nat, len: nat, segs: seq<Seg>)
    requires Inv(s) && s.size > 0 && compactHead == Wrap(Start(s.log, s.compact), s.size)
    requires Enabled(s, CompactStart) && Inv(Next(s, CompactStart))
    requires var s' := Next(s, CompactStart);
             && len == Start(s.log, s'.compact) - Start(s.log, s.compact)
             && |segs| == |s'.log| - |s.log|
             && forall k :: 0 <= k < |segs| ==> segs[k] == NewSeg(s'.log, |s.log| + k, s.size)
    ensures var s' := Next(s, CompactStart); var j := s'.jobs[|s.jobs|];
            j.first <= j.last <= |s'.log| && CtxOf(s', j, CompactCtx(compactHead, len, segs))
  {
    hide Wrap, Start, MoveOk, HasRoom, SparesSources, NoneUncommittedBefore, Void, LiveFrom;
    var s' := Next(s, CompactStart);
    var e := s'.compact;
    var more := Copies(s.log, LiveFrom(s, s.compact, e));
    PrefixOffsets(s, s', more, s.compact);
    PrefixOffsets(s, s', more, e);
    StartMonotone(s.log, s.compact, e);
  }

  lemma NothingCollected(s: Store)
    requires s.compact <= |s.log|
    ensures Copies(s.log, LiveFrom(s, s.compact, s.compact)) == []
  {
  }

  /** The segment of chain `i` as seg_put_bulk fills it in. */
  function NewSeg(log: History, i: nat, size: nat): Seg
    requires i < |log| && size > 0
  {
    Seg(log[i].id, Len(log[i]), Wrap(Start(log, i), size), Void(log[i]))
  }

  lemma WriteStep(log: History, chains: seq<Chain>, k: nat, h: nat, size: nat)
    requires k < |chains| && h <= |log| && size > 0
    requires Start(log, |log|) + Total(chains) - Start(log, h) <= size
    ensures var part := log + chains[..k];
            && Start(part, |part|) + Len(chains[k]) - Start(part, h) <= size
            && Start(part, |part|) == Start(log + chains, |log| + k)
  {
    hide Wrap, Start;
    var part := log + chains[..k];
    TailAppend(log, chains[..k]);
    StartPrefix(log, chains[..k], h);
    StartPrefix(chains[..k], chains[k..], k);
    assert chains[..k] + chains[k..] == chains;
    assert part + chains[k..] == log + chains;
    StartPrefix(part, chains[k..], |part|);
    StartNext(chains, k);
    StartMonotone(chains, k + 1, |chains|);
  }

  lemma MoveKeepsLog(s: Store, k: nat)
    requires Loose(s) && Enabled(s, CommitMove(k))
    ensures var s' := Next(s, CommitMove(k)); s'.log == s.log && s'.head == s.head && s'.size == s.size
  {
    hide Start, Void;
  }

  /** The loop body of compact_write_cb on the wrapped fields. */
  lemma CopyRepresents(s: Store, k: nat, head: nat, compactHead: nat, meta: map<nat, Meta>,
                       written: map<nat, Seg>, compactions: seq<CompactCtx>)
    requires Represents(s, head, compactHead, meta, written, compactions)
    requires k < |compactions| && compactions[k].segs != []
    requires Enabled(s, CommitMove(k)) && Inv(Next(s, CommitMove(k)))
    ensures var x := compactions[k];
            var seg := x.segs[0];
            var moved := seg.id in meta && s.jobs[k].first <= s.at[seg.id] < s.jobs[k].last;
            Represents(Next(s, CommitMove(k)), head, compactHead,
                       if moved then meta[seg.id := Meta(seg.chainLength, seg.offset)] else meta, written,
                       compactions[k := x.(segs := x.segs[1..])])
            && (moved ==> !seg.void)
  {
    hide Wrap, Start, Void, NoneUncommittedBefore, JobsApart;
    var s' := Next(s, CommitMove(k));
    var x, j := compactions[k], s.jobs[k];
    assert JobOk(s, j) && CtxOf(s, j, x) && MoveOk(s, j, j.moves[0]);
    forall i | 0 <= i < |compactions|
      ensures var y := compactions[k := x.(segs := x.segs[1..])][i];
              JobOk(s', s'.jobs[i]) && CtxOf(s', s'.jobs[i], y)
    {
      assert JobOk(s, s.jobs[i]) && CtxOf(s, s.jobs[i], compactions[i]);
    }
  }

  lemma SameOffsets(s: Store, s': Store, i: nat)
    requires s.size == s'.size > 0 && s'.log == s.log && i < |s.log|
    ensures MetaOf(s', i) == MetaOf(s, i) && SegOf(s', i) == SegOf(s, i)
  {
  }

  lemma SegParts(s: Store, i: nat)
    requires s.size > 0 && i < |s.log|
    ensures var seg := SegOf(s, i);
            seg.void == Void(s.log[i]) && MetaOf(s, i) == Meta(seg.chainLength, seg.offset) && seg.id == s.log[i].id
  {
  }

  lemma CommitRepresents(s: Store, id: nat, head: nat, compactHead: nat, meta: map<nat, Meta>,
                         written: map<nat, Seg>, compactions: seq<CompactCtx>)
    requires Represents(s, head, compactHead, meta, written, compactions) && id in written
    requires Enabled(s, CommitPut(id)) && Inv(Next(s, CommitPut(id)))
    ensures var seg := written[id];
            var meta' := if seg.void then meta - {id} else meta[id := Meta(seg.chainLength, seg.offset)];
            Represents(Next(s, CommitPut(id)), head, compactHead, meta', written - {id}, compactions)
  {
    hide Wrap, Start, JobOk, CtxOf, Void, NoneUncommittedBefore, JobsApart, MetaOf, SegOf;
    var s' := Next(s, CommitPut(id));
    SameLogCtxs(s, s', compactions);
    SegParts(s, s.puts[id]);
    forall x | x in s'.at
      ensures MetaOf(s', s'.at[x]) == MetaOf(s, s'.at[x])
    {
      SameOffsets(s, s', s'.at[x]);
    }
    forall x | x in s'.puts
      ensures SegOf(s', s'.puts[x]) == SegOf(s, s'.puts[x])
    {
      SameOffsets(s, s', s'.puts[x]);
    }
  }

  lemma AbortRepresents(s: Store, id: nat, head: nat, compactHead: nat, meta: map<nat, Meta>,
                        written: map<nat, Seg>, compactions: seq<CompactCtx>)
    requires Represents(s, head, compactHead, meta, written, compactions) && id in written
    ensures Represents(Next(s, AbortPut(id)), head, compactHead, meta, written - {id}, compactions)
  {
    hide Wrap, Start, JobOk, CtxOf, Void, NoneUncommittedBefore;
    StepAbortPut(s, id);
    SameLogCtxs(s, Next(s, AbortPut(id)), compactions);
  }

  lemma HeadRepresents(s: Store, i: nat, head: nat, compactHead: nat, meta: map<nat, Meta>,
                       written: map<nat, Seg>, compactions: seq<CompactCtx>)
    requires Represents(s, head, compactHead, meta, written, compactions)
    requires Start(s.log, s.head) + i == Start(s.log, NextHead(s, s.head))
    ensures Represents(Next(s, MoveHead), Wrap(head + i, s.size), compactHead, meta, written, compactions)
  {
    hide Wrap, Start, JobOk, CtxOf, Void, NoneUncommittedBefore;
    WrapAdd(Start(s.log, s.head), i, s.size);
    StepMoveHead(s);
    SameLogCtxs(s, Next(s, MoveHead), compactions);
  }

  lemma LaidLater(d: seq<Block>, log: History, h: nat, h': nat)
    requires |d| > 0 && LaidFrom(d, log, h) && h <= h'
    ensures LaidFrom(d, log, h')
  {
  }

  /** Contexts stay right when only the index or the head changes. */
  lemma SameLogCtxs(s: Store, s': Store, compactions: seq<CompactCtx>)
    requires s.size == s'.size > 0 && s.log == s'.log && s.jobs == s'.jobs && |compactions| == |s.jobs|
    requires Inv(s) && Inv(s')
    requires forall k :: 0 <= k < |compactions| ==> JobOk(s, s.jobs[k]) && CtxOf(s, s.jobs[k], compactions[k])
    ensures forall k :: 0 <= k < |compactions| ==> JobOk(s', s'.jobs[k]) && CtxOf(s', s'.jobs[k], compactions[k])
  {
  }

  lemma PutRepresents(s: Store, c: Chain, head: nat, compactHead: nat, meta: map<nat, Meta>, written: map<nat, Seg>,
                      compactions: seq<CompactCtx>)
    requires Represents(s, head, compactHead, meta, written, compactions) && Enabled(s, AppendPut(c))
    requires Inv(Next(s, AppendPut(c)))
    ensures Represents(Next(s, AppendPut(c)), head, compactHead, meta,
                       written[c.id := Seg(c.id, Len(c), Wrap(Tail(s), s.size), Void(c))], compactions)
  {
    hide Wrap, Start, CtxOf;
    var s' := Next(s, AppendPut(c));
    var written' := written[c.id := Seg(c.id, Len(c), Wrap(Tail(s), s.size), Void(c))];
    PrefixOffsets(s, s', [c], s.head);
    PrefixOffsets(s, s', [c], s.compact);
    PrefixOffsets(s, s', [c], |s.log|);
    forall id | id in meta
      ensures meta[id] == MetaOf(s', s'.at[id])
    {
      PrefixOffsets(s, s', [c], s.at[id]);
    }
    forall id | id in written'
      ensures written'[id] == SegOf(s', s'.puts[id])
    {
      if id != c.id { PrefixOffsets(s, s', [c], s.puts[id]); }
    }
    forall k | 0 <= k < |compactions|
      ensures JobOk(s', s'.jobs[k]) && CtxOf(s', s'.jobs[k], compactions[k])
    {
      PrefixCtx(s, s', [c], s.jobs[k], compactions[k]);
    }
  }
}
