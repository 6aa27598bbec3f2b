/** Whole runs of the range copier, told by their events alone: which chains the
    locks delivered, and which items the buffers brought back
    (spdk/app/leed/kv_data_store.c:488-611). */
module CopyRuns {
  import opened SeqOps
  import opened WrapMath
  import opened CopyModel

  /** The chains delivered to range `r`, in order. */
  function Chains(es: seq<Event>, r: nat): seq<seq<bool>> {
    if es == [] then []
    else
      var e := es[|es| - 1];
      Chains(es[..|es| - 1], r) + if e.Delivery? && e.range == r then [e.chain] else []
  }

  lemma ChainsMore(es: seq<Event>, e: Event, r: nat)
    ensures Chains(es + [e], r) == Chains(es, r) + if e.Delivery? && e.range == r then [e.chain] else []
  {
    assert (es + [e])[..|es|] == es;
  }

  predicate Happened(es: seq<Event>, e: Event) { e in es }

  /** One more event. */
  lemma More(es: seq<Event>, e: Event)
    ensures forall x :: Happened(es + [e], x) <==> Happened(es, x) || x == e
    ensures forall r :: Chains(es + [e], r) == Chains(es, r) + if e.Delivery? && e.range == r then [e.chain] else []
  {
    hide Chains;
    forall r: nat
      ensures Chains(es + [e], r) == Chains(es, r) + if e.Delivery? && e.range == r then [e.chain] else []
    {
      ChainsMore(es, e, r);
    }
  }

  /** Range `r`: its ends are those it was added with, and what it found in its
      `k`-th bucket is the `k`-th chain delivered to it. */
  ghost predicate RangeTold(es: seq<Event>, m: Copy, r: nat)
    requires r in m.ranges && r in m.locks
  {
    var cs := Chains(es, r);
    && Happened(es, Add(r, m.ranges[r].start, m.ranges[r].end))
    && |m.locks[r]| == |cs| + (if r in m.waiting then 1 else 0)
    && forall k :: 0 <= k < |cs| ==> (r, m.locks[r][k]) in m.contents && m.contents[(r, m.locks[r][k])] == cs[k]
  }

  /** The state is what the events say. */
  ghost predicate Told(es: seq<Event>, m: Copy) {
    && m.ranges.Keys == m.locks.Keys && m.waiting <= m.ranges.Keys
    && (forall r :: r in m.ranges ==> RangeTold(es, m, r))
    && (forall r :: r !in m.ranges ==> Chains(es, r) == [])
    && (forall r, a, b :: Happened(es, Add(r, a, b)) ==>
          r in m.ranges && m.ranges[r].start == a && m.ranges[r].end == b)
    && (forall t :: t in m.committed <==> Happened(es, Done(t)))
  }

  // ----- every step -----

  /** A step that leaves locks, deliveries and ends alone. */
  lemma SameTold(es: seq<Event>, e: Event, m: Copy, d: Copy)
    requires Told(es, m) && !e.Add? && !e.Delivery?
    requires d.ranges.Keys == m.ranges.Keys && d.locks == m.locks && d.contents == m.contents && d.waiting == m.waiting
    requires forall r :: r in m.ranges ==> d.ranges[r].start == m.ranges[r].start && d.ranges[r].end == m.ranges[r].end
    requires forall t :: t in d.committed <==> t in m.committed || e == Done(t)
    ensures Told(es + [e], d)
  {
    hide Chains, Happened;
    More(es, e);
    forall r | r in d.ranges
      ensures RangeTold(es + [e], d, r)
    {
      assert RangeTold(es, m, r);
    }
  }

  /** A range that an event does not concern. */
  lemma OtherTold(es: seq<Event>, e: Event, m: Copy, d: Copy, q: nat)
    requires q in m.ranges && q in m.locks && RangeTold(es, m, q) && !(e.Delivery? && e.range == q)
    requires q in d.ranges && d.ranges[q] == m.ranges[q] && q in d.locks && d.locks[q] == m.locks[q]
    requires (q in d.waiting <==> q in m.waiting) && d.contents == m.contents
    ensures RangeTold(es + [e], d, q)
  {
    hide Chains, Happened;
    More(es, e);
  }

  lemma AddTold(es: seq<Event>, m: Copy, r: nat, a: nat, b: nat)
    requires Told(es, m) && r !in m.ranges
    ensures Told(es + [Add(r, a, b)], AddRange(m, r, a, b))
  {
    hide Chains, Happened;
    var e, d := Add(r, a, b), AddRange(m, r, a, b);
    More(es, e);
    forall q | q in d.ranges
      ensures RangeTold(es + [e], d, q)
    {
      if q != r { OtherTold(es, e, m, d, q); }
    }
  }

  lemma LockTold(es: seq<Event>, m: Copy, r: nat)
    requires Told(es, m) && Inv(m) && Enabled(m, Lock(r), 0)
    ensures Told(es + [Lock(r)], LockNext(m, r))
  {
    hide Chains, Happened, Inv, Wrap;
    var e, d := Lock(r), LockNext(m, r);
    More(es, e);
    NotCopying(m, r);
    assert RangeTold(es, m, r);
    forall q | q in d.ranges
      ensures RangeTold(es + [e], d, q)
    {
      if q != r { OtherTold(es, e, m, d, q); }
    }
  }

  lemma NotCopying(m: Copy, r: nat)
    requires Inv(m) && r in m.ranges && !m.ranges[r].copying
    ensures r !in m.waiting
  {
    hide TokensOk, DeliveriesOk, FiredOk, HandedOk;
    assert RangeOk(m, r);
  }

  /** What a delivery leaves as it is, and what it writes down. */
  lemma DeliverParts(m: Copy, r: nat, chain: seq<bool>)
    requires r in m.ranges && r in m.locks && m.locks[r] != []
    ensures var d := Deliver(m, r, chain);
            && d.ranges.Keys == m.ranges.Keys && d.locks == m.locks && d.committed == m.committed
            && d.waiting == m.waiting - {r} && d.contents == m.contents[(r, Last(m.locks[r])) := chain]
            && (forall q :: q in m.ranges ==>
                  d.ranges[q].start == m.ranges[q].start && d.ranges[q].end == m.ranges[q].end)
  {
    hide Tokens;
  }

  /** The bucket that is being delivered was not delivered before. */
  lemma NotDeliveredYet(m: Copy, r: nat)
    requires Inv(m) && r in m.waiting && r in m.locks && m.locks[r] != []
    ensures (r, Last(m.locks[r])) !in m.contents
  {
    hide RangesOk, TokensOk, FiredOk, HandedOk;
    assert !Delivered(m, r, Last(m.locks[r]));
  }

  lemma DeliverTold(es: seq<Event>, m: Copy, r: nat, chain: seq<bool>)
    requires Told(es, m) && Inv(m) && Enabled(m, Delivery(r, chain), 0)
    ensures Told(es + [Delivery(r, chain)], Deliver(m, r, chain))
  {
    hide Chains, Happened, Inv, Deliver;
    var e, d := Delivery(r, chain), Deliver(m, r, chain);
    More(es, e);
    DeliverParts(m, r, chain);
    NotDeliveredYet(m, r);
    forall q | q in d.ranges
      ensures RangeTold(es + [e], d, q)
    {
      assert RangeTold(es, m, q);
    }
  }

  lemma CommitParts(m: Copy, t: Token)
    requires t.range in m.ranges && m.ranges[t.range].itemNum > 0
    ensures var d := Commit(m, t);
            && d.ranges.Keys == m.ranges.Keys && d.locks == m.locks && d.contents == m.contents
            && d.waiting == m.waiting && d.committed == m.committed + {t}
            && (forall q :: q in m.ranges ==>
                  d.ranges[q].start == m.ranges[q].start && d.ranges[q].end == m.ranges[q].end)
  {
  }

  lemma StepTold(es: seq<Event>, m: Copy, e: Event, bufNum: nat)
    requires Told(es, m) && Inv(m) && Enabled(m, e, bufNum)
    ensures Told(es + [e], Step(m, e, bufNum))
  {
    hide Told, Inv, Deliver, Commit, LockNext, AddRange;
    match e
    case Add(r, a, b) => AddTold(es, m, r, a, b);
    case Lock(r) => LockTold(es, m, r);
    case Delivery(r, chain) => DeliverTold(es, m, r, chain);
    case Hand => SameTold(es, e, m, HandOut(m));
    case Done(t) =>
      CommitParts(m, t);
      SameTold(es, e, m, Commit(m, t));
  }

  lemma {:induction false} RunTold(past: seq<Event>, m: Copy, es: seq<Event>, bufNum: nat, d: Copy)
    requires Told(past, m) && Inv(m) && |m.out| <= bufNum && Reaches(m, es, bufNum, d)
    ensures Told(past + es, d)
    decreases |es|
  {
    hide Told, Inv, Step, Enabled;
    if es == [] {
      assert past + es == past;
    } else {
      StepKeepsInv(m, es[0], bufNum);
      StepTold(past, m, es[0], bufNum);
      assert past + [es[0]] + es[1..] == past + es;
      RunTold(past + [es[0]], Step(m, es[0], bufNum), es[1..], bufNum, d);
    }
  }

  // ----- order -----

  /** Items are handed out in the order in which they were found: a step leaves the
      line as it is, or puts the items of a delivery at its end. */
  lemma StepKeepsLine(m: Copy, e: Event, bufNum: nat)
    requires Enabled(m, e, bufNum)
    ensures var d := Step(m, e, bufNum);
            && m.handed <= d.handed
            && d.handed + d.queue == m.handed + m.queue +
                 if e.Delivery? then Tokens(e.range, Last(m.locks[e.range]), e.chain) else []
  {
    if e.Delivery? && e.chain == [] { NoTokens(e.range, Last(m.locks[e.range])); }
    if e.Hand? { assert m.queue == [m.queue[0]] + m.queue[1..]; }
  }

  lemma {:induction false} LineGrows(m: Copy, es: seq<Event>, bufNum: nat, d: Copy)
    requires Reaches(m, es, bufNum, d)
    ensures m.handed <= d.handed && m.handed + m.queue <= d.handed + d.queue
    decreases |es|
  {
    hide Step, Enabled;
    if es != [] {
      StepKeepsLine(m, es[0], bufNum);
      LineGrows(Step(m, es[0], bufNum), es[1..], bufNum, d);
    }
  }

  // ----- completion -----

  /** Every range that reports completion has been copied, judged by the events of
      the run: as many chains were delivered to it as it has buckets, and every
      occupied slot of every one of them was handed out and came back committed; no
      other item was. */
  lemma ReportedRangesAreCopied(size: nat, es: seq<Event>, bufNum: nat, m: Copy, r: nat, start: nat, end: nat)
    requires size > 0 && Reaches(NOTHING.(size := size), es, bufNum, m)
    requires r in m.fired && Add(r, start, end) in es
    ensures |Chains(es, r)| == Total(start, end, size)
    ensures forall k: nat, i: nat :: k < |Chains(es, r)| && i < |Chains(es, r)[k]| && Chains(es, r)[k][i] ==>
              var t := Token(r, Wrap(start + k, size), i); t in m.handed && Done(t) in es
    ensures forall t :: Done(t) in es && t.range == r ==>
              exists k :: 0 <= k < |Chains(es, r)| && t.bucket == Wrap(start + k, size)
                          && t.item < |Chains(es, r)[k]| && Chains(es, r)[k][t.item]
  {
    hide Chains, Reaches, Inv, Wrap, Total, Told, Live;
    var none := NOTHING.(size := size);
    InitInv(size);
    NothingTold(size);
    RunTold([], none, es, bufNum, m);
    assert [] + es == es;
    RunKeepsInv(none, es, bufNum, m);
    RunKeepsSize(none, es, bufNum, m);
    ToldAndFired(es, m, r, start, end);
  }

  lemma ToldAndFired(es: seq<Event>, m: Copy, r: nat, start: nat, end: nat)
    requires Told(es, m) && Inv(m) && r in m.fired && Happened(es, Add(r, start, end)) && m.size > 0
    ensures |Chains(es, r)| == Total(start, end, m.size)
    ensures forall k: nat, i: nat :: k < |Chains(es, r)| && i < |Chains(es, r)[k]| && Chains(es, r)[k][i] ==>
              var t := Token(r, Wrap(start + k, m.size), i); t in m.handed && Happened(es, Done(t))
    ensures forall t :: Happened(es, Done(t)) && t.range == r ==>
              exists k :: 0 <= k < |Chains(es, r)| && t.bucket == Wrap(start + k, m.size)
                          && t.item < |Chains(es, r)[k]| && Chains(es, r)[k][t.item]
  {
    hide Chains, Inv, Wrap, Total, Happened;
    var cs := Chains(es, r);
    CompletionMeansCopied(m, r);
    NotWaiting(m, r);
    assert RangeTold(es, m, r);
    forall k: nat, i: nat | k < |cs| && i < |cs[k]| && cs[k][i]
      ensures var t := Token(r, Wrap(start + k, m.size), i); t in m.handed && Happened(es, Done(t))
    {
      assert Live(m, Token(r, m.locks[r][k], i));
    }
    forall t | Happened(es, Done(t)) && t.range == r
      ensures exists k :: 0 <= k < |cs| && t.bucket == Wrap(start + k, m.size) && t.item < |cs[k]| && cs[k][t.item]
    {
      CommittedBucket(m, t);
      var k :| 0 <= k < |m.locks[r]| && m.locks[r][k] == t.bucket;
    }
  }

  lemma NothingTold(size: nat)
    ensures Told([], NOTHING.(size := size))
  {
  }

  lemma {:induction false} RunKeepsSize(m: Copy, es: seq<Event>, bufNum: nat, d: Copy)
    requires Inv(m) && |m.out| <= bufNum && Reaches(m, es, bufNum, d)
    ensures d.size == m.size
    decreases |es|
  {
    hide Inv, Step, Enabled;
    if es != [] {
      StepKeepsInv(m, es[0], bufNum);
      RunKeepsSize(Step(m, es[0], bufNum), es[1..], bufNum, d);
    }
  }

  lemma NotWaiting(m: Copy, r: nat)
    requires Inv(m) && r in m.fired
    ensures r in m.ranges && r !in m.waiting
  {
    hide TokensOk, DeliveriesOk, HandedOk;
    assert RangeOk(m, r);
  }

  lemma CommittedBucket(m: Copy, t: Token)
    requires Inv(m) && t in m.committed
    ensures Live(m, t) && t.range in m.locks && t.bucket in m.locks[t.range]
  {
    hide RangesOk, FiredOk, HandedOk;
    assert Delivered(m, t.range, t.bucket);
  }
}
