/** Copying key ranges bucket by bucket (spdk/app/leed/kv_data_store.c:450-611)
    as a step system: locks are delivered and reads committed in any order. */
module CopyModel {
  import opened SeqOps
  import opened WrapMath

  /** Item `item` of the chain that `range` locked for `bucket`. */
  datatype Token = Token(range: nat, bucket: nat, item: nat)

  datatype Range = Range(start: nat, end: nat, toCopy: nat, copying: bool, seg: nat, itemNum: nat, cb: bool)

  datatype Copy = Copy(
    size: nat,                                // bucket ids
    ranges: map<nat, Range>,
    queue: seq<Token>,                        // items waiting for a buffer
    out: set<Token>,                          // items handed out, not committed
    committed: set<Token>,
    handed: seq<Token>,                       // items handed out so far, in order
    waiting: set<nat>,                        // ranges whose lock is not delivered yet
    locks: map<nat, seq<nat>>,                // buckets each range has locked, in order
    contents: map<(nat, nat), seq<bool>>,     // by range and bucket: which slots held an item
    fired: seq<nat>)                          // completion callbacks, in order

  /** Buckets in a range, from `start` up to `end` round the id space. */
  function Total(start: nat, end: nat, size: nat): nat
    requires size > 0
  {
    Wrap(size - Wrap(start, size) + end, size)
  }

  /** The buckets from `start` on, `n` of them. */
  function Span(start: nat, n: nat, size: nat): seq<nat>
    requires size > 0
  {
    seq<nat>(n, i requires 0 <= i < n => Wrap(start + i, size))
  }

  function Last(s: seq<nat>): nat
    requires s != []
  {
    s[|s| - 1]
  }

  ghost predicate Live(m: Copy, t: Token) {
    && (t.range, t.bucket) in m.contents
    && t.item < |m.contents[(t.range, t.bucket)]|
    && m.contents[(t.range, t.bucket)][t.item]
  }

  ghost function Queued(m: Copy): set<Token> {
    set i | 0 <= i < |m.queue| :: m.queue[i]
  }

  /** The items of range `r` that are queued or handed out. */
  ghost function Open(m: Copy, r: nat): set<Token> {
    set t | t in Queued(m) + m.out && t.range == r
  }

  ghost predicate RangeOk(m: Copy, r: nat)
    requires r in m.ranges && m.size > 0
  {
    var g := m.ranges[r];
    && g.start < m.size && g.end < m.size
    && r in m.locks
    && m.locks[r] == Span(g.start, |m.locks[r]|, m.size)
    && g.toCopy == Wrap(g.start + |m.locks[r]|, m.size)
    && |m.locks[r]| <= Total(g.start, g.end, m.size)
    && (g.cb <==> g.toCopy != g.end || g.copying || g.start == g.end)
    && (g.copying ==> m.locks[r] != [] && g.seg == Last(m.locks[r]))
    && (!g.copying ==> g.itemNum == 0 && r !in m.waiting)
    && (r in m.waiting ==> g.itemNum == 0)
    && g.itemNum == |Open(m, r)|
  }

  /** Open items belong to the bucket their range has locked and received. */
  ghost predicate Current(m: Copy, t: Token) {
    && t.range in m.ranges && m.ranges[t.range].copying && t.range !in m.waiting
    && t.range in m.locks && m.locks[t.range] != [] && t.bucket == Last(m.locks[t.range])
  }

  /** Bucket `b` of range `r` has been delivered. */
  ghost predicate Delivered(m: Copy, r: nat, b: nat) {
    && r in m.locks && b in m.locks[r]
    && !(r in m.waiting && b == Last(m.locks[r]))
  }

  ghost predicate RangesOk(m: Copy) {
    && m.size > 0
    && m.waiting <= m.ranges.Keys == m.locks.Keys
    && forall r :: r in m.ranges ==> RangeOk(m, r)
  }

  /** Every item found is queued, handed out or committed, and only one of them. */
  ghost predicate TokensOk(m: Copy) {
    && Distinct(m.queue) && Queued(m) !! m.out && Queued(m) !! m.committed && m.out !! m.committed
    && (forall t :: t in Queued(m) + m.out ==> Current(m, t))
    && (forall t :: t in Queued(m) + m.out + m.committed <==> Live(m, t))
  }

  ghost predicate DeliveriesOk(m: Copy) {
    forall r: nat, b: nat :: (r, b) in m.contents <==> Delivered(m, r, b)
  }

  /** A completion callback fires at most once. */
  ghost predicate FiredOk(m: Copy) {
    && Distinct(m.fired)
    && forall r :: r in m.fired <==> r in m.ranges && !m.ranges[r].cb
  }

  /** No item is handed out twice. */
  ghost predicate HandedOk(m: Copy) {
    && Distinct(m.handed)
    && forall t :: t in m.handed <==> t in m.out + m.committed
  }

  ghost predicate Inv(m: Copy) {
    RangesOk(m) && TokensOk(m) && DeliveriesOk(m) && FiredOk(m) && HandedOk(m)
  }

  // ---------------------------------------------------------- steps

  /** on_seg_copy_done. */
  function SegDone(m: Copy, r: nat): Copy
    requires r in m.ranges
  {
    var g := m.ranges[r];
    var last := g.toCopy == g.end && g.cb;
    m.(ranges := m.ranges[r := g.(copying := false, cb := g.cb && !last)],
       fired := if last then m.fired + [r] else m.fired)
  }

  /** The producer locks the next bucket of `r`. */
  function LockNext(m: Copy, r: nat): Copy
    requires r in m.ranges && r in m.locks && m.size > 0
  {
    var g := m.ranges[r];
    m.(ranges := m.ranges[r := g.(copying := true, seg := g.toCopy, toCopy := Wrap(g.toCopy + 1, m.size))],
       waiting := m.waiting + {r},
       locks := m.locks[r := m.locks[r] + [g.toCopy]])
  }

  /** Tokens of the occupied slots of a chain. */
  function Tokens(r: nat, b: nat, chain: seq<bool>): seq<Token> {
    if chain == [] then [] else
      var n := |chain| - 1;
      Tokens(r, b, chain[..n]) + if chain[n] then [Token(r, b, n)] else []
  }

  /** The lock of `r` is delivered with the slots of its chain; an empty chain
      has no slots. */
  function Deliver(m: Copy, r: nat, chain: seq<bool>): Copy
    requires r in m.ranges && r in m.locks && m.locks[r] != []
  {
    var b := Last(m.locks[r]);
    var d := m.(waiting := m.waiting - {r}, contents := m.contents[(r, b) := chain]);
    if chain == [] then SegDone(d, r) else
      d.(queue := m.queue + Tokens(r, b, chain),
         ranges := m.ranges[r := m.ranges[r].(itemNum := m.ranges[r].itemNum + |Tokens(r, b, chain)|)])
  }

  /** The consumer hands out the first item. */
  function HandOut(m: Copy): Copy
    requires m.queue != []
  {
    m.(queue := m.queue[1..], out := m.out + {m.queue[0]}, handed := m.handed + [m.queue[0]])
  }

  /** kv_data_store_copy_commit. */
  function Commit(m: Copy, t: Token): Copy
    requires t.range in m.ranges && m.ranges[t.range].itemNum > 0
  {
    var g := m.ranges[t.range];
    var c := m.(out := m.out - {t}, committed := m.committed + {t},
                ranges := m.ranges[t.range := g.(itemNum := g.itemNum - 1)]);
    if g.itemNum == 1 then SegDone(c, t.range) else c
  }

  function AddRange(m: Copy, r: nat, start: nat, end: nat): Copy {
    m.(ranges := m.ranges[r := Range(start, end, start, false, 0, 0, true)], locks := m.locks[r := []])
  }

  // ------------------------------------------------ each step keeps Inv

  lemma {:induction false} TokensAre(r: nat, b: nat, chain: seq<bool>)
    ensures forall t :: t in Tokens(r, b, chain) <==>
      t.range == r && t.bucket == b && t.item < |chain| && chain[t.item]
    ensures Distinct(Tokens(r, b, chain))
  {
    if chain != [] {
      var n := |chain| - 1;
      TokensAre(r, b, chain[..n]);
    }
  }

  /** Fields a step does not touch keep what is said about other ranges. */
  lemma SameRangeOk(m: Copy, d: Copy, r: nat)
    requires m.size == d.size > 0 && r in m.ranges && r in d.ranges && RangeOk(m, r)
    requires d.ranges[r] == m.ranges[r] && r in d.locks && d.locks[r] == m.locks[r]
    requires (r in d.waiting <==> r in m.waiting) && Open(d, r) == Open(m, r)
    ensures RangeOk(d, r)
  {
  }

  lemma HandOutKeepsInv(m: Copy)
    requires Inv(m) && m.queue != []
    ensures Inv(HandOut(m)) && |HandOut(m).out| == |m.out| + 1
  {
    hide RangeOk, Queued, Current;
    var d, t := HandOut(m), m.queue[0];
    QueuedRest(m, d);
    forall r | r in d.ranges
      ensures RangeOk(d, r)
    {
      assert Open(d, r) == Open(m, r);
      SameRangeOk(m, d, r);
    }
    SameDeliveries(m, d);
    forall t | t in Queued(d) + d.out
      ensures Current(d, t)
    {
      SameCurrent(m, d, t);
    }
    assert Queued(d) + d.out == Queued(m) + m.out;
    assert TokensOk(d);
    assert FiredOk(d);
    assert RangesOk(d);
    assert t !in m.handed;
  }

  lemma SameCurrent(m: Copy, d: Copy, t: Token)
    requires d.ranges == m.ranges && d.waiting == m.waiting && d.locks == m.locks
    ensures Current(m, t) == Current(d, t)
  {
  }

  lemma SameDeliveries(m: Copy, d: Copy)
    requires DeliveriesOk(m) && d.contents == m.contents && d.locks == m.locks && d.waiting == m.waiting
    ensures DeliveriesOk(d)
  {
  }

  lemma QueuedRest(m: Copy, d: Copy)
    requires m.queue != [] && d.queue == m.queue[1..] && Distinct(m.queue)
    ensures Queued(m) == Queued(d) + {m.queue[0]} && m.queue[0] !in Queued(d) && Distinct(d.queue)
  {
  }

  lemma SegDoneKeepsInv(m: Copy, r: nat)
    requires Inv(m) && r in m.ranges && m.ranges[r].copying && m.ranges[r].itemNum == 0 && r !in m.waiting
    ensures Inv(SegDone(m, r))
  {
    hide RangeOk, Queued, Current, Span;
    var d := SegDone(m, r);
    NothingOpen(m, r);
    assert Queued(d) == Queued(m) by { SameQueue(m, d); }
    forall q | q in d.ranges
      ensures RangeOk(d, q)
    {
      assert Open(d, q) == Open(m, q);
      if q == r { SegDoneRange(m, r); } else { SameRangeOk(m, d, q); }
    }
    SameDeliveries(m, d);
    forall t | t in Queued(d) + d.out
      ensures Current(d, t)
    {
      OtherCurrent(m, d, t, r);
    }
    assert TokensOk(d);
    FiredAfter(m, r);
  }

  lemma SameQueue(m: Copy, d: Copy)
    requires m.queue == d.queue
    ensures Queued(m) == Queued(d)
  {
  }

  lemma NothingOpen(m: Copy, r: nat)
    requires RangesOk(m) && r in m.ranges && m.ranges[r].itemNum == 0
    ensures Open(m, r) == {} && forall t :: t in Queued(m) + m.out ==> t.range != r
  {
    assert RangeOk(m, r);
    assert |Open(m, r)| == 0;
    forall t | t in Queued(m) + m.out
      ensures t.range != r
    {
      assert t.range == r ==> t in Open(m, r);
    }
  }

  lemma OtherCurrent(m: Copy, d: Copy, t: Token, r: nat)
    requires Current(m, t) && t.range != r
    requires forall q :: q in m.ranges && q != r ==> q in d.ranges && d.ranges[q].copying == m.ranges[q].copying
    requires forall q :: q != r ==> (q in d.waiting <==> q in m.waiting)
    requires forall q :: q in m.locks && q != r ==> q in d.locks && d.locks[q] == m.locks[q]
    ensures Current(d, t)
  {
  }

  /** A range that has locked a bucket is not empty. */
  lemma LockedIsProper(m: Copy, r: nat)
    requires m.size > 0 && r in m.ranges && RangeOk(m, r) && m.locks[r] != []
    ensures m.ranges[r].start != m.ranges[r].end
  {
    hide Wrap, Open, Span;
    var g := m.ranges[r];
    WrapSmall(g.start, m.size);
    WrapSmall(0, m.size);
  }

  lemma SegDoneRange(m: Copy, r: nat)
    requires m.size > 0 && r in m.ranges && RangeOk(m, r) && m.ranges[r].copying && m.ranges[r].itemNum == 0
    requires r !in m.waiting
    ensures RangeOk(SegDone(m, r), r)
  {
    hide Span, Wrap, Total;
    LockedIsProper(m, r);
    assert Open(SegDone(m, r), r) == Open(m, r) by { SameQueue(m, SegDone(m, r)); }
  }

  lemma FiredAfter(m: Copy, r: nat)
    requires FiredOk(m) && r in m.ranges && RangesOk(m)
    ensures FiredOk(SegDone(m, r))
  {
    var d := SegDone(m, r);
    forall q
      ensures q in d.fired <==> q in d.ranges && !d.ranges[q].cb
    {
    }
  }

  /** The buckets of a range come to an end at `end`, and until then none
      comes twice. */
  lemma NextBucket(g: Range, n: nat, size: nat)
    requires g.start < size && g.end < size && n <= Total(g.start, g.end, size)
    ensures Wrap(g.start + n, size) == g.end <==> n == Total(g.start, g.end, size)
    ensures Total(g.start, g.end, size) < size && Wrap(g.start + n, size) !in Span(g.start, n, size)
  {
    hide Wrap;
    var total := Total(g.start, g.end, size);
    WrapSmall(g.start, size);
    WrapSmall(g.end, size);
    if g.end >= g.start {
      WrapSmall(g.end - g.start, size);
    } else {
      WrapSmall(size - g.start + g.end, size);
    }
    assert g.end == Wrap(g.start + total, size);
    WrappedEqual(g.start + n, g.start + total, size);
    var s := Span(g.start, n, size);
    forall i | 0 <= i < n
      ensures s[i] != Wrap(g.start + n, size)
    {
      WrappedEqual(g.start + i, g.start + n, size);
    }
  }

  lemma SpanGrows(start: nat, n: nat, size: nat)
    requires size > 0
    ensures Span(start, n + 1, size) == Span(start, n, size) + [Wrap(start + n, size)]
  {
  }

  /** Producing keeps the order: the next bucket of a range is one it has not
      locked yet. */
  lemma LockNextKeepsInv(m: Copy, r: nat)
    requires Inv(m) && r in m.ranges && !m.ranges[r].copying && m.ranges[r].toCopy != m.ranges[r].end
    ensures Inv(LockNext(m, r))
  {
    hide RangeOk, Queued, Current, Span, Wrap;
    var d := LockNext(m, r);
    LockNextRange(m, r);
    NothingOpen(m, r) by { IdleRange(m, r); }
    assert Queued(d) == Queued(m) by { SameQueue(m, d); }
    forall q | q in d.ranges
      ensures RangeOk(d, q)
    {
      assert Open(d, q) == Open(m, q);
      if q != r { SameRangeOk(m, d, q); }
    }
    forall t | t in Queued(d) + d.out
      ensures Current(d, t)
    {
      OtherCurrent(m, d, t, r);
    }
    assert TokensOk(d);
    forall q: nat, b: nat
      ensures (q, b) in d.contents <==> Delivered(d, q, b)
    {
      assert Delivered(d, q, b) == Delivered(m, q, b);
    }
    FiredSame(m, d);
  }

  lemma FiredSame(m: Copy, d: Copy)
    requires FiredOk(m) && d.fired == m.fired && d.ranges.Keys == m.ranges.Keys
    requires forall q :: q in m.ranges ==> d.ranges[q].cb == m.ranges[q].cb
    ensures FiredOk(d)
  {
  }

  lemma IdleRange(m: Copy, r: nat)
    requires m.size > 0 && r in m.ranges && RangeOk(m, r) && !m.ranges[r].copying
    ensures m.ranges[r].itemNum == 0 && r !in m.waiting
  {
  }

  lemma LockNextRange(m: Copy, r: nat)
    requires m.size > 0 && r in m.ranges && RangeOk(m, r) && !m.ranges[r].copying
    requires m.ranges[r].toCopy != m.ranges[r].end
    ensures RangeOk(LockNext(m, r), r) && r !in m.waiting && m.ranges[r].cb && r in m.locks
    ensures m.ranges[r].toCopy !in m.locks[r]
  {
    hide Wrap;
    var d, g, n := LockNext(m, r), m.ranges[r], |m.locks[r]|;
    NextBucket(g, n, m.size);
    WrapAdd(g.start + n, 1, m.size);
    SpanGrows(g.start, n, m.size);
    assert Open(d, r) == Open(m, r) by { SameQueue(m, d); }
  }

  /** A lock is delivered: what was found is queued, nothing is lost. */
  lemma DeliverKeepsInv(m: Copy, r: nat, chain: seq<bool>)
    requires Inv(m) && r in m.waiting
    ensures m.ranges[r].copying && r in m.locks && m.locks[r] != [] && Inv(Deliver(m, r, chain))
    ensures forall i: nat :: Token(r, Last(m.locks[r]), i) in Queued(Deliver(m, r, chain)) <==> i < |chain| && chain[i]
  {
    hide RangeOk, Queued, Current, Live, Tokens;
    WaitingRange(m, r);
    var b := Last(m.locks[r]);
    var ts := Tokens(r, b, chain);
    var g := m.ranges[r];
    var d := m.(waiting := m.waiting - {r}, contents := m.contents[(r, b) := chain],
                queue := m.queue + ts, ranges := m.ranges[r := g.(itemNum := g.itemNum + |ts|)]);
    TokensAre(r, b, chain);
    NothingOpen(m, r);
    FreshTokens(m, d, r, b, chain);
    DeliverRanges(m, d, r, b, ts);
    DeliverDeliveries(m, d, r, b);
    FiredSame(m, d);
    if chain == [] {
      NoTokens(r, b);
      assert d == m.(waiting := m.waiting - {r}, contents := m.contents[(r, b) := chain]);
      SegDoneKeepsInv(d, r);
      QueueOnly(d, SegDone(d, r));
    }
    NoneQueued(m, r);
  }

  lemma QueueOnly(m: Copy, d: Copy)
    requires d.queue == m.queue
    ensures Queued(d) == Queued(m)
  {
  }

  lemma NoneQueued(m: Copy, r: nat)
    requires Inv(m) && r in m.waiting
    ensures forall t :: t in Queued(m) ==> t.range != r
  {
    hide RangesOk, DeliveriesOk, FiredOk, HandedOk, Queued;
    assert forall t :: t in Queued(m) ==> Current(m, t);
  }

  lemma NoTokens(r: nat, b: nat)
    ensures Tokens(r, b, []) == []
  {
  }

  lemma WaitingRange(m: Copy, r: nat)
    requires RangesOk(m) && r in m.waiting
    ensures r in m.ranges && m.ranges[r].copying && m.ranges[r].itemNum == 0 && r in m.locks && m.locks[r] != []
  {
    assert RangeOk(m, r);
  }

  lemma QueuedMore(m: Copy, d: Copy, ts: seq<Token>)
    requires d.queue == m.queue + ts && Distinct(m.queue) && Distinct(ts) && forall t :: t in ts ==> t !in Queued(m)
    ensures Distinct(d.queue) && forall t :: t in Queued(d) <==> t in Queued(m) || t in ts
  {
    forall t
      ensures t in Queued(d) <==> t in Queued(m) || t in ts
    {
      assert t in Queued(d) <==> t in d.queue;
      assert t in Queued(m) <==> t in m.queue;
    }
    forall i, j | 0 <= i < j < |d.queue|
      ensures d.queue[i] != d.queue[j]
    {
      if i < |m.queue| <= j {
        assert d.queue[i] in Queued(m) && d.queue[j] in ts;
      }
    }
  }

  lemma FreshTokens(m: Copy, d: Copy, r: nat, b: nat, chain: seq<bool>)
    requires Inv(m) && r in m.waiting && r in m.ranges && r in m.locks && m.locks[r] != [] && b == Last(m.locks[r])
    requires m.ranges[r].copying && m.ranges[r].itemNum == 0
    requires d == m.(waiting := m.waiting - {r}, contents := m.contents[(r, b) := chain],
                     queue := m.queue + Tokens(r, b, chain),
                     ranges := m.ranges[r := m.ranges[r].(itemNum := |Tokens(r, b, chain)|)])
    ensures TokensOk(d)
    ensures forall t :: t in Queued(d) <==> t in Queued(m) || t in Tokens(r, b, chain)
  {
    hide RangeOk, Queued, Tokens;
    var ts := Tokens(r, b, chain);
    TokensAre(r, b, chain);
    NothingOpen(m, r);
    assert (r, b) !in m.contents by { assert !Delivered(m, r, b); }
    forall t | t in ts
      ensures t !in Queued(m) + m.out + m.committed
    {
      assert !Live(m, t);
    }
    QueuedMore(m, d, ts);
    forall t
      ensures t in Queued(d) + d.out + d.committed <==> Live(d, t)
    {
      assert t in Queued(m) + m.out + m.committed <==> Live(m, t);
    }
  }

  lemma DeliverRanges(m: Copy, d: Copy, r: nat, b: nat, ts: seq<Token>)
    requires RangesOk(m) && r in m.waiting && r in m.ranges && m.ranges[r].itemNum == 0 && Open(m, r) == {}
    requires Distinct(ts) && (forall t :: t in ts ==> t.range == r)
    requires forall t :: t in Queued(d) <==> t in Queued(m) || t in ts
    requires d.size == m.size && d.out == m.out && d.locks == m.locks && d.waiting == m.waiting - {r}
    requires d.ranges == m.ranges[r := m.ranges[r].(itemNum := |ts|)]
    ensures RangesOk(d)
  {
    hide Queued, Span, Wrap, Total;
    forall q | q in d.ranges
      ensures RangeOk(d, q)
    {
      assert RangeOk(m, q);
      if q == r {
        assert forall t :: t in Open(m, r) <==> t in Queued(m) + m.out && t.range == r;
        assert Open(d, r) == (set t | t in ts);
        Counted(ts);
      } else {
        assert Open(d, q) == Open(m, q);
      }
    }
  }

  lemma {:induction false} Counted(ts: seq<Token>)
    requires Distinct(ts)
    ensures |(set t | t in ts)| == |ts|
  {
    if ts != [] {
      var n := |ts| - 1;
      var a := ts[..n];
      assert Distinct(a);
      Counted(a);
      assert ts == a + [ts[n]];
      assert (set t | t in ts) == (set t | t in a) + {ts[n]};
    }
  }

  lemma DeliverDeliveries(m: Copy, d: Copy, r: nat, b: nat)
    requires DeliveriesOk(m) && r in m.waiting && r in m.locks && m.locks[r] != [] && b == Last(m.locks[r])
    requires d.locks == m.locks && d.waiting == m.waiting - {r} && d.contents.Keys == m.contents.Keys + {(r, b)}
    ensures DeliveriesOk(d)
  {
  }

  /** A commit takes one item of its range off the count. */
  lemma CommitKeepsInv(m: Copy, t: Token)
    requires Inv(m) && t in m.out
    ensures t.range in m.ranges && m.ranges[t.range].itemNum > 0
    ensures Inv(Commit(m, t)) && |Commit(m, t).out| == |m.out| - 1
  {
    hide RangeOk, Queued, Current, Live;
    var r := t.range;
    assert Current(m, t);
    OpenToken(m, t);
    var g := m.ranges[r];
    var c := m.(out := m.out - {t}, committed := m.committed + {t},
        ranges := m.ranges[r := g.(itemNum := g.itemNum - 1)]);
    assert Queued(c) == Queued(m) by { SameQueue(m, c); }
    forall q | q in c.ranges
      ensures RangeOk(c, q)
    {
      if q == r { CommitRange(m, c, t); } else {
        assert Open(c, q) == Open(m, q);
        SameRangeOk(m, c, q);
      }
    }
    SameDeliveries(m, c);
    FiredSame(m, c);
    forall x | x in Queued(c) + c.out
      ensures Current(c, x)
    {
      CommitCurrent(m, c, x, r);
    }
    forall x
      ensures x in Queued(c) + c.out + c.committed <==> Live(c, x)
    {
      assert x in Queued(m) + m.out + m.committed <==> Live(m, x);
      SameLive(m, c, x);
    }
    assert TokensOk(c);
    if g.itemNum == 1 {
      SegDoneKeepsInv(c, r);
    }
  }

  lemma SameLive(m: Copy, d: Copy, t: Token)
    requires m.contents == d.contents
    ensures Live(m, t) == Live(d, t)
  {
  }

  lemma CommitCurrent(m: Copy, c: Copy, x: Token, r: nat)
    requires Current(m, x) && r in m.ranges && c.waiting == m.waiting && c.locks == m.locks
    requires exists n: nat :: c.ranges == m.ranges[r := m.ranges[r].(itemNum := n)]
    ensures Current(c, x)
  {
  }

  lemma OpenToken(m: Copy, t: Token)
    requires RangesOk(m) && t in m.out && Current(m, t)
    ensures t.range in m.ranges && m.ranges[t.range].itemNum > 0 && m.ranges[t.range].copying && t.range !in m.waiting
    ensures RangeOk(m, t.range)
  {
    assert t in Open(m, t.range);
  }

  lemma CommitRange(m: Copy, c: Copy, t: Token)
    requires m.size > 0 && t.range in m.ranges && RangeOk(m, t.range) && t in m.out && t !in Queued(m)
    requires t.range !in m.waiting
    requires m.ranges[t.range].itemNum > 0 && m.ranges[t.range].copying
    requires c.ranges == m.ranges[t.range := m.ranges[t.range].(itemNum := m.ranges[t.range].itemNum - 1)]
    requires c.size == m.size && c.out == m.out - {t} && Queued(c) == Queued(m) && c.locks == m.locks
    requires c.waiting == m.waiting
    ensures RangeOk(c, t.range)
  {
    hide Queued, Span, Wrap, Total;
    assert Open(m, t.range) == Open(c, t.range) + {t} && t !in Open(c, t.range);
  }

  lemma AddRangeKeepsInv(m: Copy, r: nat, start: nat, end: nat)
    requires Inv(m) && r !in m.ranges && start < m.size && end < m.size
    ensures Inv(AddRange(m, r, start, end))
  {
    hide RangeOk, Queued, Current, Live, Span, Wrap, Total;
    var d := AddRange(m, r, start, end);
    assert Queued(d) == Queued(m) by { SameQueue(m, d); }
    forall t | t in Queued(d) + d.out
      ensures Current(d, t) && t.range != r
    {
      CurrentRange(m, t);
      OtherCurrent(m, d, t, r);
    }
    forall q | q in d.ranges
      ensures RangeOk(d, q)
    {
      if q == r { NewRange(m, d, r, start, end); } else {
        assert Open(d, q) == Open(m, q);
        SameRangeOk(m, d, q);
      }
    }
    forall q: nat, b: nat
      ensures (q, b) in d.contents <==> Delivered(d, q, b)
    {
      assert (q, b) in m.contents <==> Delivered(m, q, b);
    }
    forall x
      ensures x in Queued(d) + d.out + d.committed <==> Live(d, x)
    {
      assert x in Queued(m) + m.out + m.committed <==> Live(m, x);
      SameLive(m, d, x);
    }
  }

  lemma CurrentRange(m: Copy, t: Token)
    requires Current(m, t)
    ensures t.range in m.ranges
  {
  }

  lemma NewRange(m: Copy, d: Copy, r: nat, start: nat, end: nat)
    requires m.size > 0 && d == AddRange(m, r, start, end) && start < m.size && end < m.size && r !in m.waiting
    requires forall t :: t in Queued(d) + d.out ==> t.range != r
    ensures RangeOk(d, r)
  {
  }

  // ------------------------------------------------------ whole runs

  datatype Event =
    | Add(range: nat, start: nat, end: nat)
    | Lock(range: nat)
    | Delivery(range: nat, chain: seq<bool>)
    | Hand
    | Done(token: Token)

  /** What the code and its environment do: a range id is new, a bucket is
      locked for a range that has none locked, buffers are `bufNum`, and each
      lock and each buffer comes back once. */
  ghost predicate Enabled(m: Copy, e: Event, bufNum: nat) {
    match e
    case Add(r, start, end) => r !in m.ranges && start < m.size && end < m.size
    case Lock(r) => r in m.ranges && r in m.locks && m.size > 0 && !m.ranges[r].copying &&
        m.ranges[r].toCopy != m.ranges[r].end
    case Delivery(r, chain) => r in m.waiting && r in m.ranges && r in m.locks && m.locks[r] != []
    case Hand => m.queue != [] && |m.out| < bufNum
    case Done(t) => t in m.out && t.range in m.ranges && m.ranges[t.range].itemNum > 0
  }

  ghost function Step(m: Copy, e: Event, bufNum: nat): Copy
    requires Enabled(m, e, bufNum)
  {
    match e
    case Add(r, start, end) => AddRange(m, r, start, end)
    case Lock(r) => LockNext(m, r)
    case Delivery(r, chain) => Deliver(m, r, chain)
    case Hand => HandOut(m)
    case Done(t) => Commit(m, t)
  }

  ghost predicate Reaches(m: Copy, es: seq<Event>, bufNum: nat, d: Copy)
    decreases |es|
  {
    if es == [] then d == m
    else Enabled(m, es[0], bufNum) && Reaches(Step(m, es[0], bufNum), es[1..], bufNum, d)
  }

  lemma StepKeepsInv(m: Copy, e: Event, bufNum: nat)
    requires Inv(m) && |m.out| <= bufNum && Enabled(m, e, bufNum)
    ensures var d := Step(m, e, bufNum); Inv(d) && |d.out| <= bufNum && d.size == m.size
  {
    hide Inv;
    match e
    case Add(r, start, end) => AddRangeKeepsInv(m, r, start, end);
    case Lock(r) => LockNextKeepsInv(m, r);
    case Delivery(r, chain) => DeliverKeepsInv(m, r, chain);
    case Hand => HandOutKeepsInv(m);
    case Done(t) => CommitKeepsInv(m, t);
  }

  /** In every run the invariant holds and no more than `bufNum` items are out. */
  lemma {:induction false} RunKeepsInv(m: Copy, es: seq<Event>, bufNum: nat, d: Copy)
    requires Inv(m) && |m.out| <= bufNum && Reaches(m, es, bufNum, d)
    ensures Inv(d) && |d.out| <= bufNum
    decreases |es|
  {
    hide Inv, Step, Enabled;
    if es != [] {
      StepKeepsInv(m, es[0], bufNum);
      RunKeepsInv(Step(m, es[0], bufNum), es[1..], bufNum, d);
    }
  }

  lemma {:induction false} ReachesMore(m: Copy, es: seq<Event>, bufNum: nat, d: Copy, fs: seq<Event>, c: Copy)
    requires Reaches(m, es, bufNum, d) && Reaches(d, fs, bufNum, c)
    ensures Reaches(m, es + fs, bufNum, c)
    decreases |es|
  {
    hide Step, Enabled;
    var gs := es + fs;
    if es == [] {
      assert gs == fs;
    } else {
      assert gs[0] == es[0] && gs[1..] == es[1..] + fs;
      ReachesMore(Step(m, es[0], bufNum), es[1..], bufNum, d, fs, c);
    }
  }

  lemma ReachesOne(m: Copy, e: Event, bufNum: nat)
    requires Enabled(m, e, bufNum)
    ensures Reaches(m, [e], bufNum, Step(m, e, bufNum))
  {
  }

  const NOTHING: Copy := Copy(1, map[], [], {}, {}, [], {}, map[], map[], [])

  lemma InitInv(size: nat)
    requires size > 0
    ensures Inv(NOTHING.(size := size))
  {
  }

  /** When a range reports completion, each of its buckets has been locked
      once, in order, and every item found in them has been handed out and
      committed; it reports at most once. */
  lemma CompletionMeansCopied(m: Copy, r: nat)
    requires Inv(m) && r in m.fired
    ensures r in m.ranges && m.size > 0 && r in m.locks && Distinct(m.fired)
    ensures var g := m.ranges[r]; m.locks[r] == Span(g.start, Total(g.start, g.end, m.size), m.size)
    ensures forall b :: b in m.locks[r] ==> (r, b) in m.contents
    ensures forall t :: Live(m, t) && t.range == r ==> t in m.committed && t in m.handed
    ensures Distinct(m.handed) && forall t :: t in m.committed ==> Live(m, t)
  {
    hide Queued, Span, Wrap, Total;
    assert RangeOk(m, r);
    var g := m.ranges[r];
    NextBucket(g, |m.locks[r]|, m.size);
    NothingOpen(m, r);
    forall b | b in m.locks[r]
      ensures (r, b) in m.contents
    {
      assert Delivered(m, r, b);
    }
  }

  /** How far `b` is from `start`, round the id space. */
  function From(start: nat, b: nat, size: nat): nat
    requires start < size
  {
    Wrap(b + size - start, size)
  }

  /** kv_data_store_copy_forward's test for one range. */
  predicate Behind(g: Range, b: nat, size: nat)
    requires g.start < size
  {
    From(g.start, b, size) < From(g.start, g.toCopy, size)
  }

  lemma FromIs(start: nat, b: nat, size: nat)
    requires start < size && b < size
    ensures From(start, b, size) == if b >= start then b - start else b + size - start
  {
  }

  /** Counting from `start` and measuring from it undo each other. */
  lemma FromSpan(start: nat, b: nat, n: nat, size: nat)
    requires start < size && b < size && n < size
    ensures From(start, b, size) == n <==> b == Wrap(start + n, size)
  {
    hide Wrap, From;
    FromIs(start, b, size);
    if start + n < size { WrapSmall(start + n, size); } else { WrapSmall(start + n - size, size); }
  }

  /** It is true exactly of the buckets the range has handed to the copier. */
  lemma BehindIsLocked(m: Copy, r: nat, b: nat)
    requires Inv(m) && r in m.ranges && b < m.size
    ensures m.ranges[r].start < m.size && r in m.locks
    ensures Behind(m.ranges[r], b, m.size) <==> b in m.locks[r]
  {
    hide Wrap, From, Open, TokensOk, DeliveriesOk, FiredOk, HandedOk;
    assert RangeOk(m, r);
    var g, n := m.ranges[r], |m.locks[r]|;
    NextBucket(g, n, m.size);
    FromSpan(g.start, g.toCopy, n, m.size);
    FromIs(g.start, b, m.size);
    var k := From(g.start, b, m.size);
    FromSpan(g.start, b, k, m.size);
    if k < n {
      assert m.locks[r][k] == b;
    }
    if b in m.locks[r] {
      var i :| 0 <= i < n && m.locks[r][i] == b;
      FromSpan(g.start, b, i, m.size);
    }
  }

  // ------------------------------------------------------- progress

  /** The state in which the scheduler leaves off. */
  ghost predicate Settled(m: Copy, bufNum: nat) {
    && (m.queue != [] ==> |m.out| == bufNum)
    && (|m.queue| < bufNum ==> forall r :: r in m.ranges ==>
        m.ranges[r].copying || m.ranges[r].toCopy == m.ranges[r].end)
  }

  /** A range whose last chain had buckets but no item in them. */
  ghost predicate Stuck(m: Copy, r: nat) {
    r in m.ranges && m.ranges[r].copying && r !in m.waiting && m.ranges[r].itemNum == 0
  }

  /** As long as some range is neither complete nor stuck, something is still
      to come back: a lock or a buffer. */
  lemma SomethingIsOutstanding(m: Copy, bufNum: nat, r: nat)
    requires Inv(m) && Settled(m, bufNum) && bufNum > 0
    requires r in m.ranges && m.ranges[r].cb && m.ranges[r].start != m.ranges[r].end && !Stuck(m, r)
    ensures m.waiting != {} || m.out != {}
  {
    hide Span, Wrap, Total;
    assert RangeOk(m, r);
    if r !in m.waiting {
      if m.ranges[r].copying {
        var t :| t in Open(m, r);
        assert t in m.out || m.queue != [];
      } else {
        assert |m.queue| >= bufNum;
      }
    }
  }

  lemma {:induction false} NoneLive(r: nat, b: nat, chain: seq<bool>)
    requires forall i :: 0 <= i < |chain| ==> !chain[i]
    ensures Tokens(r, b, chain) == []
  {
    if chain != [] { NoneLive(r, b, chain[..|chain| - 1]); }
  }

  /** Delivering a chain leaves its range stuck exactly when the chain has
      slots and all of them are empty. */
  lemma StuckIff(m: Copy, r: nat, chain: seq<bool>)
    requires Inv(m) && r in m.waiting
    ensures r in m.ranges && r in m.locks && m.locks[r] != []
    ensures Stuck(Deliver(m, r, chain), r) <==> chain != [] && forall i :: 0 <= i < |chain| ==> !chain[i]
  {
    hide RangeOk, Tokens;
    WaitingRange(m, r);
    var b := Last(m.locks[r]);
    var ts := Tokens(r, b, chain);
    TokensAre(r, b, chain);
    if exists i :: 0 <= i < |chain| && chain[i] {
      var i: nat :| i < |chain| && chain[i];
      assert Token(r, b, i) in ts;
    } else {
      NoneLive(r, b, chain);
    }
  }

  // ----- completion -----

  /** No delivered chain has buckets without an item. */
  predicate HasItems(chain: seq<bool>) { chain == [] || true in chain }

  ghost predicate Wholesome(es: seq<Event>) {
    forall i :: 0 <= i < |es| && es[i].Delivery? ==> HasItems(es[i].chain)
  }

  ghost predicate NoneStuck(m: Copy) {
    forall r :: r in m.ranges ==> !Stuck(m, r)
  }

  lemma CommitUnsticks(m: Copy, t: Token)
    requires Inv(m) && NoneStuck(m) && t in m.out && t.range in m.ranges && m.ranges[t.range].itemNum > 0
    ensures NoneStuck(Commit(m, t))
  {
  }

  lemma DeliverUnsticks(m: Copy, r: nat, chain: seq<bool>)
    requires Inv(m) && NoneStuck(m) && r in m.waiting && r in m.ranges && r in m.locks && m.locks[r] != []
    requires HasItems(chain)
    ensures NoneStuck(Deliver(m, r, chain))
  {
    hide Inv, Tokens;
    StuckIff(m, r, chain);
    if chain != [] {
      var i :| 0 <= i < |chain| && chain[i];
    }
    var d := Deliver(m, r, chain);
    forall q | q in d.ranges
      ensures !Stuck(d, q)
    {
      if q != r { assert !Stuck(m, q); }
    }
  }

  lemma StepUnsticks(m: Copy, e: Event, bufNum: nat)
    requires Inv(m) && NoneStuck(m) && Enabled(m, e, bufNum) && (e.Delivery? ==> HasItems(e.chain))
    ensures NoneStuck(Step(m, e, bufNum))
  {
    hide Inv, HasItems, Deliver, Commit;
    match e
    case Add(r, start, end) =>
    case Lock(r) =>
    case Delivery(r, chain) => DeliverUnsticks(m, r, chain);
    case Hand =>
    case Done(t) => CommitUnsticks(m, t);
  }

  lemma {:induction false} RunUnsticks(m: Copy, es: seq<Event>, bufNum: nat, d: Copy)
    requires Inv(m) && NoneStuck(m) && |m.out| <= bufNum && Reaches(m, es, bufNum, d) && Wholesome(es)
    ensures NoneStuck(d)
    decreases |es|
  {
    hide Inv, Step, Enabled, NoneStuck, HasItems;
    if es != [] {
      StepKeepsInv(m, es[0], bufNum);
      StepUnsticks(m, es[0], bufNum);
      assert forall i :: 0 <= i < |es[1..]| ==> es[1..][i] == es[i + 1];
      RunUnsticks(Step(m, es[0], bufNum), es[1..], bufNum, d);
    }
  }

  /** Completion of every run: when no lock and no buffer is outstanding, exactly
      the ranges that are not empty have reported, if no delivered chain had buckets
      without an item. */
  lemma QuietMeansReported(size: nat, es: seq<Event>, bufNum: nat, m: Copy, r: nat)
    requires size > 0 && bufNum > 0 && Reaches(NOTHING.(size := size), es, bufNum, m) && Wholesome(es)
    requires Settled(m, bufNum) && m.waiting == {} && m.out == {} && r in m.ranges
    ensures r in m.fired <==> m.ranges[r].start != m.ranges[r].end
  {
    hide Settled, Stuck, Reaches, Wholesome;
    InitInv(size);
    var none := NOTHING.(size := size);
    RunKeepsInv(none, es, bufNum, m);
    RunUnsticks(none, es, bufNum, m);
    assert RangeOk(m, r);
    if m.ranges[r].cb && m.ranges[r].start != m.ranges[r].end {
      SomethingIsOutstanding(m, bufNum, r);
      assert false;
    }
  }

  /** A range whose ends coincide never reports. */
  lemma EmptyRangeNeverReports(m: Copy, r: nat)
    requires Inv(m) && r in m.ranges && m.ranges[r].start == m.ranges[r].end
    ensures r !in m.fired
  {
    assert RangeOk(m, r);
  }
}
