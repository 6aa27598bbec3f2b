/** Every thread of a server keeps its own copy of the ring.  Membership events
    go to all worker threads, which acknowledge them; the master thread applies an
    event only after the last acknowledgement.  Requests are counted per ring
    version, and the data of a handed-over range is dropped when its version has
    drained (spdk/app/leed/kv_ring.c:399-449, 551-638, 786-799, 969-1053).

    One ring; any number of workers; messages from one sender stay in order. */
module RingEpoch {
  import opened SeqOps
  import opened RingOrder
  import opened RingChain
  import opened RingUpdate
  import opened RingSteps

  datatype Phase = Handling | Forwarded

  /** An accepted request: the forward_ctx that holds a reference on a version.
      `at` is the number of events its thread had applied. */
  datatype Request = Request(epoch: nat, at: nat, phase: Phase)

  /** A copy_range_ctx; `name` tells ranges apart and is not in the code. */
  datatype Range = Range(name: nat, epoch: nat, start: U64, end: U64, del: bool)

  datatype Sys = Sys(
    issued: seq<Update>,         // ring_change_ctx objects, in order of issue
    cnt: seq<int>,               // their outstanding acknowledgements
    inbox: seq<seq<nat>>,        // per worker: events sent and not handled
    acks: seq<seq<nat>>,         // per worker: acknowledgements on their way
    master: RingCopy,
    workers: seq<RingCopy>,
    counter: seq<nat>,           // rings_version[ring].counter
    live: map<nat, Request>,
    copying: seq<Range>,         // start_copy done, kv_ring_stop_copy not
    ranges: seq<Range>,          // the copy_ranges list
    // history, never read by a step
    applied: nat,                // events the master has applied
    pos: seq<nat>,               // events each worker has applied
    acked: seq<nat>,             // acknowledgements received from each worker
    named: set<nat>)             // names of all ranges so far

  datatype Event =
    | Issue(u: Update)
    | WorkerStep(w: nat)
    | MasterAck(w: nat)
    | AdmitAtMaster(id: nat)
    | AdmitAtWorker(w: nat, id: nat)
    | Forward(id: nat)
    | Release(id: nat)
    | StartCopy(name: nat, start: U64, end: U64, del: bool)
    | StopCopy(j: nat)
    | EndRange(j: nat)

  function Init(workers: nat): Sys {
    Sys([], [], seq(workers, _ => []), seq(workers, _ => []), RingCopy([], 0), seq(workers, _ => RingCopy([], 0)),
        seq(SLOTS, _ => 0), map[], [], [], 0, seq(workers, _ => 0), seq(workers, _ => 0), {})
  }

  predicate Shape(s: Sys) {
    && |s.inbox| == |s.acks| == |s.workers| == |s.pos| == |s.acked|
    && |s.cnt| == |s.issued| && |s.counter| == SLOTS
  }

  /** update_ring runs to its end: no assertion fails, and the version before the
      current one has drained if a new version opens. */
  predicate CanApply(s: Sys, t: RingCopy, k: nat)
    requires Shape(s)
  {
    && k < |s.issued| && Apply(t, s.issued[k]).Some?
    && (Bumps(t, s.issued[k]) ==> s.counter[Slot(t.epoch + SLOTS - 1)] == 0)
  }

  /** The event can happen and the process survives it. */
  predicate Enabled(s: Sys, e: Event)
    requires Shape(s)
  {
    match e
    case Issue(u) => |s.workers| > 0 || CanApply(s.(issued := s.issued + [u], cnt := s.cnt + [0]), s.master, |s.issued|)
    case WorkerStep(w) => w < |s.workers| && s.inbox[w] != [] && CanApply(s, s.workers[w], s.inbox[w][0])
    case MasterAck(w) =>
      && w < |s.workers| && s.acks[w] != [] && s.acks[w][0] < |s.cnt|
      && (s.cnt[s.acks[w][0]] == 1 ==> CanApply(s, s.master, s.acks[w][0]))
    case AdmitAtMaster(id) => id !in s.live
    case AdmitAtWorker(w, id) => w < |s.workers| && id !in s.live
    case Forward(id) => id in s.live && s.live[id].phase == Handling
    case Release(id) => id in s.live && s.counter[Slot(s.live[id].epoch)] > 0
    case StartCopy(name, _, _, _) => name !in s.named
    case StopCopy(j) => j < |s.copying|
    case EndRange(j) =>
      && j < |s.ranges|
      && Slot(s.ranges[j].epoch) != Slot(s.master.epoch)
      && s.counter[Slot(s.ranges[j].epoch)] == 0
  }

  /** rdma_req_handler_wrapper takes a reference on the version of its thread. */
  function Admit(s: Sys, t: RingCopy, at: nat, id: nat): Sys
    requires Shape(s)
  {
    var c := Slot(t.epoch);
    s.(counter := s.counter[c := s.counter[c] + 1], live := s.live[id := Request(t.epoch, at, Handling)])
  }

  function Next(s: Sys, e: Event): Sys
    requires Shape(s) && Enabled(s, e)
  {
    match e
    case Issue(u) =>
      var k := |s.issued|;
      var s1 := s.(issued := s.issued + [u], cnt := s.cnt + [|s.workers|],
                   inbox := seq(|s.inbox|, w requires 0 <= w < |s.inbox| => s.inbox[w] + [k]));
      if |s.workers| == 0 then s1.(master := Apply(s.master, u).value, applied := s.applied + 1) else s1
    case WorkerStep(w) =>
      var k := s.inbox[w][0];
      s.(inbox := s.inbox[w := s.inbox[w][1..]], acks := s.acks[w := s.acks[w] + [k]],
         workers := s.workers[w := Apply(s.workers[w], s.issued[k]).value], pos := s.pos[w := s.pos[w] + 1])
    case MasterAck(w) =>
      var k := s.acks[w][0];
      var s1 := s.(acks := s.acks[w := s.acks[w][1..]], cnt := s.cnt[k := s.cnt[k] - 1],
                   acked := s.acked[w := s.acked[w] + 1]);
      if s1.cnt[k] == 0 then s1.(master := Apply(s.master, s.issued[k]).value, applied := s.applied + 1) else s1
    case AdmitAtMaster(id) => Admit(s, s.master, s.applied, id)
    case AdmitAtWorker(w, id) => Admit(s, s.workers[w], s.pos[w], id)
    case Forward(id) => s.(live := s.live[id := s.live[id].(phase := Forwarded)])
    case Release(id) =>
      var c := Slot(s.live[id].epoch);
      s.(counter := s.counter[c := s.counter[c] - 1], live := s.live - {id})
    case StartCopy(name, a, b, del) =>
      s.(copying := s.copying + [Range(name, s.master.epoch, a, b, del)], named := s.named + {name})
    case StopCopy(j) => s.(copying := Without(s.copying, j), ranges := s.ranges + [s.copying[j]])
    case EndRange(j) => s.(ranges := Without(s.ranges, j))
  }

  // ----- the invariant -----

  /** The ring after a sequence of events, starting empty. */
  function RingAfter(us: seq<Update>): Option<RingCopy> {
    if us == [] then Some(RingCopy([], 0))
    else match RingAfter(us[..|us| - 1])
         case None => None
         case Some(t) => Apply(t, us[|us| - 1])
  }

  /** Workers that have acknowledged at most `k` events. */
  function Behind(acked: seq<nat>, k: nat): nat {
    if acked == [] then 0 else (if acked[0] <= k then 1 else 0) + Behind(acked[1..], k)
  }

  function UpTo(a: nat, b: nat): (s: seq<nat>)
    requires a <= b
    ensures |s| == b - a && forall i :: 0 <= i < b - a ==> s[i] == a + i
  {
    seq(b - a, i requires 0 <= i < b - a => a + i)
  }

  /** Accepted, unreleased requests counted on slot `c`. */
  ghost function OnSlot(live: map<nat, Request>, c: nat): set<nat> {
    set id | id in live && Slot(live[id].epoch) == c
  }

  /** Worker `w` handles and acknowledges the events in order of issue. */
  ghost predicate WorkerOk(s: Sys, w: nat)
    requires Shape(s) && w < |s.workers|
  {
    && s.acked[w] <= s.pos[w] <= |s.issued|
    && s.inbox[w] == UpTo(s.pos[w], |s.issued|)
    && s.acks[w] == UpTo(s.acked[w], s.pos[w])
    && RingAfter(s.issued[..s.pos[w]]) == Some(s.workers[w])
  }

  ghost predicate MasterOk(s: Sys)
    requires Shape(s)
  {
    && s.applied <= |s.issued|
    && (forall w :: 0 <= w < |s.acked| ==> s.applied <= s.acked[w])
    && (s.applied < |s.issued| ==> Behind(s.acked, s.applied) > 0)
    && (forall k :: 0 <= k < |s.issued| ==> s.cnt[k] == Behind(s.acked, k))
    && RingAfter(s.issued[..s.applied]) == Some(s.master)
  }

  ghost predicate RequestOk(s: Sys, q: Request) {
    && s.master.epoch <= q.epoch + 1
    && q.at <= |s.issued|
    && RingAfter(s.issued[..q.at]).Some? && RingAfter(s.issued[..q.at]).value.epoch == q.epoch
  }

  ghost predicate Inv(s: Sys) {
    && Shape(s)
    && (forall w :: 0 <= w < |s.workers| ==> WorkerOk(s, w))
    && MasterOk(s)
    && (forall id :: id in s.live ==> RequestOk(s, s.live[id]))
    && (forall c :: 0 <= c < SLOTS ==> s.counter[c] == |OnSlot(s.live, c)|)
    && (forall j :: 0 <= j < |s.copying| ==> s.copying[j].epoch <= s.master.epoch)
    && (forall j :: 0 <= j < |s.ranges| ==> s.ranges[j].epoch <= s.master.epoch)
    && (forall j :: 0 <= j < |s.copying| ==> s.copying[j].name in s.named)
    && (forall j :: 0 <= j < |s.ranges| ==> s.ranges[j].name in s.named)
  }

  // ----- counting -----

  lemma {:induction false} BehindStep(acked: seq<nat>, w: nat, k: nat)
    requires w < |acked|
    ensures Behind(acked[w := acked[w] + 1], k) == Behind(acked, k) - if acked[w] == k then 1 else 0
  {
    var acked' := acked[w := acked[w] + 1];
    if w == 0 {
      assert acked'[1..] == acked[1..];
    } else {
      assert acked'[1..] == acked[1..][w - 1 := acked[1..][w - 1] + 1];
      BehindStep(acked[1..], w - 1, k);
    }
  }

  lemma {:induction false} BehindZero(acked: seq<nat>, k: nat)
    ensures Behind(acked, k) == 0 <==> forall w :: 0 <= w < |acked| ==> acked[w] > k
  {
    if acked != [] {
      BehindZero(acked[1..], k);
      assert forall w :: 1 <= w < |acked| ==> acked[w] == acked[1..][w - 1];
    }
  }

  lemma {:induction false} BehindAll(acked: seq<nat>, k: nat)
    requires forall w :: 0 <= w < |acked| ==> acked[w] <= k
    ensures Behind(acked, k) == |acked|
  {
    if acked != [] { BehindAll(acked[1..], k); }
  }

  lemma OnSlotAdd(live: map<nat, Request>, id: nat, q: Request, c: nat)
    requires id !in live
    ensures |OnSlot(live[id := q], c)| == |OnSlot(live, c)| + if Slot(q.epoch) == c then 1 else 0
  {
    var a := OnSlot(live, c);
    assert OnSlot(live[id := q], c) == if Slot(q.epoch) == c then a + {id} else a;
  }

  lemma OnSlotRemove(live: map<nat, Request>, id: nat, c: nat)
    requires id in live
    ensures |OnSlot(live - {id}, c)| == |OnSlot(live, c)| - if Slot(live[id].epoch) == c then 1 else 0
  {
    var b := OnSlot(live - {id}, c);
    assert OnSlot(live, c) == if Slot(live[id].epoch) == c then b + {id} else b;
  }

  lemma NoneOnSlot(live: map<nat, Request>, c: nat, id: nat)
    requires |OnSlot(live, c)| == 0 && id in live
    ensures Slot(live[id].epoch) != c
  {
    assert id !in OnSlot(live, c);
  }

  // ----- events and epochs -----

  lemma RingAfterStep(us: seq<Update>, p: nat)
    requires p < |us| && RingAfter(us[..p]).Some?
    ensures RingAfter(us[..p + 1]) == Apply(RingAfter(us[..p]).value, us[p])
  {
    assert us[..p + 1][..p] == us[..p];
  }

  lemma {:induction false} EpochMonotone(us: seq<Update>, p: nat, q: nat)
    requires p <= q <= |us| && RingAfter(us[..q]).Some?
    ensures RingAfter(us[..p]).Some?
    ensures RingAfter(us[..p]).value.epoch <= RingAfter(us[..q]).value.epoch
    decreases q
  {
    hide Apply;
    if p < q {
      assert us[..q][..q - 1] == us[..q - 1];
      BumpIsOne(RingAfter(us[..q - 1]).value, us[q - 1]);
      EpochMonotone(us, p, q - 1);
    }
  }

  /** The master is never ahead of a worker. */
  lemma MasterIsLast(s: Sys, w: nat)
    requires Inv(s) && w < |s.workers|
    ensures s.applied <= s.acked[w] <= s.pos[w]
    ensures s.master.epoch <= s.workers[w].epoch
  {
    assert WorkerOk(s, w);
    EpochMonotone(s.issued, s.applied, s.pos[w]);
  }

  // ----- every step keeps the invariant -----

  lemma IssueWorkers(s: Sys, u: Update, w: nat)
    requires Inv(s) && Enabled(s, Issue(u)) && w < |s.workers|
    ensures WorkerOk(Next(s, Issue(u)), w)
  {
    hide Apply;
    var s' := Next(s, Issue(u));
    assert WorkerOk(s, w);
    assert s'.issued[..s.pos[w]] == s.issued[..s.pos[w]];
    assert s'.inbox[w] == s.inbox[w] + [|s.issued|];
  }

  lemma IssueMaster(s: Sys, u: Update)
    requires Inv(s) && Enabled(s, Issue(u))
    ensures MasterOk(Next(s, Issue(u)))
  {
    hide Apply;
    var s' := Next(s, Issue(u));
    var n := |s.issued|;
    assert s'.issued[..s.applied] == s.issued[..s.applied];
    forall w | 0 <= w < |s.acked|
      ensures s.acked[w] <= n
    {
      assert WorkerOk(s, w);
    }
    BehindAll(s.acked, n);
    if s.acked == [] {
      assert s.applied == n;
      assert s'.issued[..n] == s.issued && s.issued[..n] == s.issued;
      RingAfterStep(s'.issued, n);
    }
  }

  lemma IssueRequests(s: Sys, u: Update, id: nat)
    requires Inv(s) && Enabled(s, Issue(u)) && id in s.live
    ensures RequestOk(Next(s, Issue(u)), s.live[id])
  {
    hide Apply;
    var s' := Next(s, Issue(u));
    var q := s.live[id];
    assert RequestOk(s, q);
    assert s'.issued[..q.at] == s.issued[..q.at];
    if |s.workers| == 0 {
      MasterBump(s, s.master, u, id);
    }
  }

  /** When the master opens a version, the version before the current one is empty. */
  lemma MasterBump(s: Sys, t: RingCopy, u: Update, id: nat)
    requires Shape(s) && id in s.live && Apply(t, u).Some?
    requires Bumps(t, u) ==> s.counter[Slot(t.epoch + SLOTS - 1)] == 0
    requires forall c :: 0 <= c < SLOTS ==> s.counter[c] == |OnSlot(s.live, c)|
    requires t.epoch <= s.live[id].epoch + 1
    ensures Apply(t, u).value.epoch <= s.live[id].epoch + 1
  {
    hide Apply;
    BumpIsOne(t, u);
    if Bumps(t, u) {
      NoneOnSlot(s.live, Slot(t.epoch + SLOTS - 1), id);
    }
  }

  lemma StepIssue(s: Sys, u: Update)
    requires Inv(s) && Enabled(s, Issue(u))
    ensures Inv(Next(s, Issue(u)))
  {
    hide Apply;
    var s' := Next(s, Issue(u));
    forall w | 0 <= w < |s.workers|
      ensures WorkerOk(s', w)
    {
      IssueWorkers(s, u, w);
    }
    IssueMaster(s, u);
    forall id | id in s.live
      ensures RequestOk(s', s.live[id])
    {
      IssueRequests(s, u, id);
    }
    if |s.workers| == 0 { BumpIsOne(s.master, u); }
  }

  lemma WorkerStepWorkers(s: Sys, v: nat, w: nat)
    requires Inv(s) && Enabled(s, WorkerStep(v)) && w < |s.workers|
    ensures WorkerOk(Next(s, WorkerStep(v)), w)
  {
    hide Apply, RingAfter, RequestOk, MasterOk, OnSlot;
    assert WorkerOk(s, w) && WorkerOk(s, v);
    if w == v { RingAfterStep(s.issued, s.pos[w]); }
  }

  lemma StepWorker(s: Sys, v: nat)
    requires Inv(s) && Enabled(s, WorkerStep(v))
    ensures Inv(Next(s, WorkerStep(v)))
  {
    hide Apply;
    var s' := Next(s, WorkerStep(v));
    forall w | 0 <= w < |s.workers|
      ensures WorkerOk(s', w)
    {
      WorkerStepWorkers(s, v, w);
    }
    assert MasterOk(s');
    assert forall id :: id in s.live ==> RequestOk(s, s.live[id]) ==> RequestOk(s', s.live[id]);
  }

  /** The last acknowledgement of an event reaches the master when that event is
      the next one in order of issue. */
  lemma LastAckIsNext(s: Sys, w: nat)
    requires Inv(s) && Enabled(s, MasterAck(w))
    ensures s.acks[w][0] == s.acked[w] >= s.applied
    ensures s.cnt[s.acked[w]] == 1 ==> s.acked[w] == s.applied
  {
    hide Apply;
    assert WorkerOk(s, w);
    var k := s.acked[w];
    if s.cnt[k] == 1 && s.applied < k {
      BehindZero(s.acked, s.applied);
      var v :| 0 <= v < |s.acked| && s.acked[v] <= s.applied;
      assert s.acked[w := k + 1][v] <= k;
      BehindStep(s.acked, w, k);
      BehindZero(s.acked[w := k + 1], k);
      assert false;
    }
  }

  lemma MasterAckMaster(s: Sys, w: nat)
    requires Inv(s) && Enabled(s, MasterAck(w))
    ensures MasterOk(Next(s, MasterAck(w)))
  {
    hide Apply;
    var s' := Next(s, MasterAck(w));
    assert WorkerOk(s, w);
    LastAckIsNext(s, w);
    var k := s.acked[w];
    forall j | 0 <= j < |s.issued|
      ensures s'.cnt[j] == Behind(s'.acked, j)
    {
      BehindStep(s.acked, w, j);
    }
    BehindStep(s.acked, w, s.applied);
    if s.cnt[k] == 1 {
      RingAfterStep(s.issued, k);
      BehindZero(s'.acked, k);
      BehindZero(s'.acked, k + 1);
      assert s'.acked[w] == k + 1;
    }
  }

  lemma StepMasterAck(s: Sys, v: nat)
    requires Inv(s) && Enabled(s, MasterAck(v))
    ensures Inv(Next(s, MasterAck(v)))
  {
    hide Apply, WorkerOk, RequestOk, MasterOk;
    var s' := Next(s, MasterAck(v));
    MasterAckMaster(s, v);
    forall w | 0 <= w < |s.workers|
      ensures WorkerOk(s', w)
    {
      MasterAckWorkers(s, v, w);
    }
    forall id | id in s.live
      ensures RequestOk(s', s.live[id])
    {
      MasterAckRequests(s, v, id);
    }
    LastAckIsNext(s, v);
    if s.cnt[s.acked[v]] == 1 { BumpIsOne(s.master, s.issued[s.acked[v]]); }
  }

  lemma MasterAckWorkers(s: Sys, v: nat, w: nat)
    requires Inv(s) && Enabled(s, MasterAck(v)) && w < |s.workers|
    ensures WorkerOk(Next(s, MasterAck(v)), w)
  {
    hide Apply, RequestOk, MasterOk;
    LastAckIsNext(s, v);
    assert WorkerOk(s, v) && WorkerOk(s, w);
  }

  lemma MasterAckRequests(s: Sys, v: nat, id: nat)
    requires Inv(s) && Enabled(s, MasterAck(v)) && id in s.live
    ensures RequestOk(Next(s, MasterAck(v)), s.live[id])
  {
    hide Apply, WorkerOk;
    LastAckIsNext(s, v);
    assert RequestOk(s, s.live[id]);
    var k := s.acked[v];
    if s.cnt[k] == 1 { MasterBump(s, s.master, s.issued[k], id); }
  }

  lemma StepAdmit(s: Sys, t: RingCopy, at: nat, id: nat)
    requires Inv(s) && id !in s.live && at <= |s.issued|
    requires RingAfter(s.issued[..at]) == Some(t) && s.master.epoch <= t.epoch
    ensures Inv(Admit(s, t, at, id))
  {
    var s' := Admit(s, t, at, id);
    var q := Request(t.epoch, at, Handling);
    forall c | 0 <= c < SLOTS
      ensures s'.counter[c] == |OnSlot(s'.live, c)|
    {
      OnSlotAdd(s.live, id, q, c);
    }
    assert RequestOk(s', q);
    assert forall i :: i in s.live ==> RequestOk(s, s.live[i]) ==> RequestOk(s', s.live[i]);
    assert forall w :: 0 <= w < |s.workers| ==> WorkerOk(s, w) ==> WorkerOk(s', w);
  }

  lemma StepForward(s: Sys, id: nat)
    requires Inv(s) && Enabled(s, Forward(id))
    ensures Inv(Next(s, Forward(id)))
  {
    var s' := Next(s, Forward(id));
    forall c | 0 <= c < SLOTS
      ensures s'.counter[c] == |OnSlot(s'.live, c)|
    {
      assert OnSlot(s'.live, c) == OnSlot(s.live, c);
    }
    assert forall i :: i in s.live ==> RequestOk(s, s.live[i]) ==> RequestOk(s', s'.live[i]);
    assert forall w :: 0 <= w < |s.workers| ==> WorkerOk(s, w) ==> WorkerOk(s', w);
  }

  lemma StepRelease(s: Sys, id: nat)
    requires Inv(s) && Enabled(s, Release(id))
    ensures Inv(Next(s, Release(id)))
  {
    var s' := Next(s, Release(id));
    forall c | 0 <= c < SLOTS
      ensures s'.counter[c] == |OnSlot(s'.live, c)|
    {
      OnSlotRemove(s.live, id, c);
    }
    assert forall i :: i in s'.live ==> RequestOk(s, s.live[i]) ==> RequestOk(s', s'.live[i]);
    assert forall w :: 0 <= w < |s.workers| ==> WorkerOk(s, w) ==> WorkerOk(s', w);
  }

  lemma StepRanges(s: Sys, s': Sys)
    requires Inv(s) && s' == s.(copying := s'.copying, ranges := s'.ranges, named := s'.named)
    requires forall j :: 0 <= j < |s'.copying| ==> s'.copying[j].name in s'.named
    requires forall j :: 0 <= j < |s'.ranges| ==> s'.ranges[j].name in s'.named
    requires forall j :: 0 <= j < |s'.copying| ==> s'.copying[j].epoch <= s.master.epoch
    requires forall j :: 0 <= j < |s'.ranges| ==> s'.ranges[j].epoch <= s.master.epoch
    ensures Inv(s')
  {
    assert forall i :: i in s.live ==> RequestOk(s, s.live[i]) ==> RequestOk(s', s.live[i]);
    assert forall w :: 0 <= w < |s.workers| ==> WorkerOk(s, w) ==> WorkerOk(s', w);
  }

  lemma StepKeepsInv(s: Sys, e: Event)
    requires Inv(s) && Enabled(s, e)
    ensures Inv(Next(s, e))
  {
    hide Apply;
    match e
    case Issue(u) => StepIssue(s, u);
    case WorkerStep(w) => StepWorker(s, w);
    case MasterAck(w) => StepMasterAck(s, w);
    case AdmitAtMaster(id) => StepAdmit(s, s.master, s.applied, id);
    case AdmitAtWorker(w, id) =>
      MasterIsLast(s, w);
      assert WorkerOk(s, w);
      StepAdmit(s, s.workers[w], s.pos[w], id);
    case Forward(id) => StepForward(s, id);
    case Release(id) => StepRelease(s, id);
    case StartCopy(_, _, _, _) => StepRanges(s, Next(s, e));
    case StopCopy(j) => StepRanges(s, Next(s, e));
    case EndRange(j) => StepRanges(s, Next(s, e));
  }

  // ----- whole runs -----

  ghost predicate Run(s: Sys, es: seq<Event>, s': Sys)
    decreases |es|
  {
    if es == [] then s == s'
    else Shape(s) && Enabled(s, es[0]) && Run(Next(s, es[0]), es[1..], s')
  }

  lemma InitInv(workers: nat)
    ensures Inv(Init(workers))
  {
  }

  lemma {:induction false} RunKeepsInv(s: Sys, es: seq<Event>, s': Sys)
    requires Inv(s) && Run(s, es, s')
    ensures Inv(s')
    decreases |es|
  {
    if es != [] {
      StepKeepsInv(s, es[0]);
      RunKeepsInv(Next(s, es[0]), es[1..], s');
    }
  }

  /** In every reachable state each version counter is the number of accepted,
      unreleased requests of that version; the master has applied no event that a
      worker has not; and all threads hold the ring of a prefix of the events. */
  lemma ReachableStates(workers: nat, es: seq<Event>, s: Sys)
    requires Run(Init(workers), es, s)
    ensures Inv(s)
    ensures forall c :: 0 <= c < SLOTS ==> s.counter[c] == |OnSlot(s.live, c)|
    ensures forall w :: 0 <= w < |s.workers| ==> s.master.epoch <= s.workers[w].epoch
  {
    InitInv(workers);
    RunKeepsInv(Init(workers), es, s);
    forall w | 0 <= w < |s.workers|
      ensures s.master.epoch <= s.workers[w].epoch
    {
      MasterIsLast(s, w);
    }
  }

  /** No thread and no request is in epoch `e` or an older one. */
  ghost predicate Past(s: Sys, e: nat) {
    && s.master.epoch > e
    && forall id :: id in s.live ==> s.live[id].epoch > e
  }

  /** When the poller may end a range, its epoch is over for every request. */
  lemma EndedRangeIsPast(s: Sys, j: nat)
    requires Inv(s) && Enabled(s, EndRange(j))
    ensures Past(s, s.ranges[j].epoch)
  {
    hide Apply, RingAfter;
    var e := s.ranges[j].epoch;
    assert e != s.master.epoch;
    forall id | id in s.live
      ensures s.live[id].epoch > e
    {
      assert RequestOk(s, s.live[id]);
      NoneOnSlot(s.live, Slot(e), id);
    }
  }

  /** And it may end it as soon as that is so, unless a version number that has
      wrapped around stands in the way. */
  lemma EndRangeIff(s: Sys, j: nat)
    requires Inv(s) && j < |s.ranges|
    requires s.master.epoch < s.ranges[j].epoch + SLOTS
    requires forall id :: id in s.live ==> s.live[id].epoch < s.ranges[j].epoch + SLOTS
    ensures Enabled(s, EndRange(j)) <==> Past(s, s.ranges[j].epoch)
  {
    hide Apply, RingAfter, Slot;
    var e := s.ranges[j].epoch;
    SlotsApart(e, s.master.epoch);
    if Enabled(s, EndRange(j)) { EndedRangeIsPast(s, j); }
    if Past(s, e) {
      forall id | id in s.live
        ensures Slot(s.live[id].epoch) != Slot(e)
      {
        SlotsApart(e, s.live[id].epoch);
      }
      assert OnSlot(s.live, Slot(e)) == {};
    }
  }

  lemma SlotsApart(a: nat, b: nat)
    requires a < b + SLOTS && b < a + SLOTS
    ensures Slot(a) == Slot(b) <==> a == b
  {
  }

  lemma StepKeepsPast(s: Sys, ev: Event, e: nat)
    requires Inv(s) && Enabled(s, ev) && Past(s, e)
    ensures Past(Next(s, ev), e)
  {
    hide Apply;
    match ev
    case Issue(u) => if |s.workers| == 0 { BumpIsOne(s.master, u); }
    case MasterAck(w) =>
      LastAckIsNext(s, w);
      if s.cnt[s.acked[w]] == 1 { BumpIsOne(s.master, s.issued[s.acked[w]]); }
    case AdmitAtWorker(w, id) => MasterIsLast(s, w);
    case _ =>
  }

  lemma {:induction false} RunKeepsPast(s: Sys, es: seq<Event>, s': Sys, e: nat)
    requires Inv(s) && Run(s, es, s') && Past(s, e)
    ensures Past(s', e)
    decreases |es|
  {
    if es != [] {
      StepKeepsInv(s, es[0]);
      StepKeepsPast(s, es[0], e);
      RunKeepsPast(Next(s, es[0]), es[1..], s', e);
    }
  }

  /** Whatever is called `name` is the range `g`. */
  ghost predicate Only(s: Sys, name: nat, g: Range) {
    && name in s.named
    && (forall j :: 0 <= j < |s.copying| && s.copying[j].name == name ==> s.copying[j] == g)
    && (forall j :: 0 <= j < |s.ranges| && s.ranges[j].name == name ==> s.ranges[j] == g)
  }

  lemma {:induction false} RunKeepsOnly(s: Sys, es: seq<Event>, s': Sys, name: nat, g: Range)
    requires Run(s, es, s') && Only(s, name, g)
    ensures Only(s', name, g)
    decreases |es|
  {
    hide Only;
    if es != [] {
      StepKeepsOnly(s, es[0], name, g);
      RunKeepsOnly(Next(s, es[0]), es[1..], s', name, g);
    }
  }

  lemma StepKeepsOnly(s: Sys, e: Event, name: nat, g: Range)
    requires Shape(s) && Enabled(s, e) && Only(s, name, g)
    ensures Only(Next(s, e), name, g)
  {
    hide Apply, Slot, Admit, CanApply;
    match e
    case AdmitAtMaster(id) => AdmitRest(s, s.master, s.applied, id);
    case AdmitAtWorker(w, id) => AdmitRest(s, s.workers[w], s.pos[w], id);
    case _ =>
  }

  lemma AdmitRest(s: Sys, t: RingCopy, at: nat, id: nat)
    requires Shape(s)
    ensures var s' := Admit(s, t, at, id); s'.copying == s.copying && s'.ranges == s.ranges && s'.named == s.named
  {
  }

  /** `s0` is reached by `before` and starts to copy range `name`; `s` is reached
      later and may end that range, as the `j`-th of its list; `s'` comes after. */
  ghost predicate CopiedAndEnded(workers: nat, before: seq<Event>, s0: Sys, start: Event, between: seq<Event>, s: Sys,
                                 j: nat, after: seq<Event>, s': Sys)
  {
    && Run(Init(workers), before, s0)
    && start.StartCopy? && Shape(s0) && Enabled(s0, start)
    && Run(Next(s0, start), between, s)
    && Shape(s) && Enabled(s, EndRange(j)) && s.ranges[j].name == start.name
    && Run(s, after, s')
  }

  /** Epoch safety: once the poller ends a copied range, no request of the epoch in
      which its copy was started or of an older one is in flight, and none is ever
      admitted again, however the run goes on and however often the version numbers
      wrap around.  What is ended is the range that was copied. */
  lemma EpochSafety(workers: nat, before: seq<Event>, s0: Sys, start: Event, between: seq<Event>, s: Sys,
                    j: nat, after: seq<Event>, s': Sys)
    requires CopiedAndEnded(workers, before, s0, start, between, s, j, after, s')
    ensures Past(s', s0.master.epoch)
    ensures var g := s.ranges[j]; g.start == start.start && g.end == start.end && g.del == start.del
    ensures Inv(s')
  {
    hide Apply, Run, Inv;
    ReachableStates(workers, before, s0);
    StepKeepsInv(s0, start);
    var s1 := Next(s0, start);
    NewIsOnly(s0, start);
    RunKeepsInv(s1, between, s);
    RunKeepsOnly(s1, between, s, start.name, Range(start.name, s0.master.epoch, start.start, start.end, start.del));
    EndedRangeIsPast(s, j);
    RunKeepsPast(s, after, s', s0.master.epoch);
    RunKeepsInv(s, after, s');
  }

  lemma NewIsOnly(s: Sys, e: Event)
    requires Inv(s) && e.StartCopy? && Enabled(s, e)
    ensures Only(Next(s, e), e.name, Range(e.name, s.master.epoch, e.start, e.end, e.del))
  {
    hide Apply;
  }

  /** A request is counted on the version of the ring its thread had when it was
      admitted, until it is released. */
  lemma {:induction false} RequestKeepsItsRing(s: Sys, es: seq<Event>, s': Sys, id: nat, epoch: nat, at: nat)
    requires Run(s, es, s') && id in s.live && Release(id) !in es
    requires s.live[id].epoch == epoch && s.live[id].at == at
    ensures id in s'.live && s'.live[id].epoch == epoch && s'.live[id].at == at
    decreases |es|
  {
    hide Apply;
    if es != [] { RequestKeepsItsRing(Next(s, es[0]), es[1..], s', id, epoch, at); }
  }

  /** The ring of the thread that admits a request in this event. */
  function AdmittingRing(s: Sys, e: Event): Option<(RingCopy, nat)>
    requires Shape(s)
  {
    match e
    case AdmitAtMaster(_) => Some((s.master, s.applied))
    case AdmitAtWorker(w, _) => if w < |s.workers| then Some((s.workers[w], s.pos[w])) else None
    case _ => None
  }

  /** The same for requests by the event that admitted them: as long as it is not
      released, a request admitted by any thread, before or after the range was
      ended, is one that the thread handles with a ring of a later epoch. */
  lemma AdmittedRequestsAreLater(workers: nat, es: seq<Event>, a: Sys, e: Event, fs: seq<Event>, s': Sys, past: nat)
    requires Run(Init(workers), es, a) && Shape(a) && Enabled(a, e) && (e.AdmitAtMaster? || e.AdmitAtWorker?)
    requires Run(Next(a, e), fs, s') && Release(e.id) !in fs && Past(s', past)
    ensures var (t, at) := AdmittingRing(a, e).value;
            && t.epoch > past && e.id in s'.live && s'.live[e.id].at == at
            && at <= |a.issued| && RingAfter(a.issued[..at]) == Some(t)
  {
    hide Apply, Run;
    ReachableStates(workers, es, a);
    var (t, at) := AdmittingRing(a, e).value;
    RequestKeepsItsRing(Next(a, e), fs, s', e.id, t.epoch, at);
    if e.AdmitAtWorker? { assert WorkerOk(a, e.w); }
  }

  // ----- what a history of events keeps -----

  /** New vnodes have ids of their own, and at no time are two vnodes not running. */
  ghost predicate Regular(us: seq<Update>) {
    && (forall k :: 0 <= k < |us| && RingAfter(us[..k]).Some? ==> FreshEvent(RingAfter(us[..k]).value.ring, us[k]))
    && (forall k :: 0 <= k <= |us| && RingAfter(us[..k]).Some? ==> OneInvalid(RingAfter(us[..k]).value.ring))
  }

  /** After every orderly history the ring is in order. */
  lemma {:induction false} HistorySorted(us: seq<Update>, k: nat)
    requires Regular(us) && k <= |us| && RingAfter(us[..k]).Some?
    ensures Sorted(RingAfter(us[..k]).value.ring) && OneInvalid(RingAfter(us[..k]).value.ring)
    decreases k
  {
    hide Apply, Sorted;
    if k == 0 {
      assert us[..0] == [];
      EmptySorted();
    } else {
      assert us[..k][..k - 1] == us[..k - 1];
      HistorySorted(us, k - 1);
      ApplyKeepsSorted(RingAfter(us[..k - 1]).value, us[k - 1]);
    }
  }

  lemma EmptySorted()
    ensures Sorted([])
  {
  }

  /** The ring after `k` events. */
  function RingAt(us: seq<Update>, k: nat): Ring
    requires k <= |us| && RingAfter(us[..k]).Some?
  {
    RingAfter(us[..k]).value.ring
  }

  /** Vnode id `v` receives the data of the key after `k` events. */
  ghost predicate Receives(us: seq<Update>, k: nat, key: U64, n: nat, v: U64) {
    && k <= |us| && RingAfter(us[..k]).Some? && RingAt(us, k) != []
    && var c := KeyChain(RingAt(us, k), key, n); c.copy.Some? && c.copy.value.vid == v
  }

  ghost predicate Served(us: seq<Update>, k: nat, key: U64, n: nat, v: U64)
    requires k <= |us| && RingAfter(us[..k]).Some? && RingAt(us, k) != []
  {
    exists x :: x in KeyChain(RingAt(us, k), key, n).vids && x.vid == v
  }

  /** No event from `a` on skips the copy, and the ring is never empty. */
  ghost predicate Copied(us: seq<Update>, a: nat, n: nat) {
    && (forall k :: a <= k <= |us| ==> RingAfter(us[..k]).Some? && RingAt(us, k) != [])
    && (forall k :: a <= k < |us| ==> !SkipsCopy(RingAt(us, k), us[k], n))
  }

  lemma ServedStep(us: seq<Update>, k: nat, key: U64, n: nat, v: U64)
    requires Regular(us) && k < |us| && RingAfter(us[..k]).Some? && RingAt(us, k) != []
    requires RingAfter(us[..k + 1]).Some? && RingAt(us, k + 1) != [] && !SkipsCopy(RingAt(us, k), us[k], n)
    requires Served(us, k + 1, key, n, v)
    ensures Served(us, k, key, n, v) || Receives(us, k, key, n, v)
  {
    hide Apply, Sorted, OneInvalid, KeyChain, SkipsCopy, RingAfter, FreshEvent;
    HistorySorted(us, k);
    HistorySorted(us, k + 1);
    RingAfterStep(us, k);
    var t := RingAfter(us[..k]).value;
    ApplyContinuousIff(t, us[k], n);
    var c, d := KeyChain(t.ring, key, n), KeyChain(RingAt(us, k + 1), key, n).vids;
    assert Covered(c, d);
    var x :| x in d && x.vid == v;
    var q :| 0 <= q < |d| && d[q] == x;
    assert Covers(c, d[q].vid);
    if !(c.copy.Some? && c.copy.value.vid == v) {
      var i :| 0 <= i < |c.vids| && c.vids[i].vid == v;
      assert c.vids[i] in c.vids;
    }
  }

  /** A vnode that does not serve a key serves it later only after it has
      received the data, however the history goes on. */
  lemma {:induction false} ServesOnlyAfterCopy(us: seq<Update>, a: nat, b: nat, key: U64, n: nat, v: U64)
    requires Regular(us) && a <= b <= |us| && Copied(us, a, n)
    requires !Served(us, a, key, n, v)
    ensures Served(us, b, key, n, v) ==> exists k :: a <= k < b && Receives(us, k, key, n, v)
    decreases b - a
  {
    hide Apply, RingAfter, SkipsCopy, KeyChain, Regular;
    if a < b && Served(us, b, key, n, v) && !Receives(us, b - 1, key, n, v) {
      ServedStep(us, b - 1, key, n, v);
      ServesOnlyAfterCopy(us, a, b - 1, key, n, v);
    }
  }

  /** Event `q` completes the join of vnode `i` of ring `r` in epoch `e`. */
  ghost predicate CompletesJoin(us: seq<Update>, q: nat, r: Ring, i: nat, e: nat) {
    && q < |us| && RingAfter(us[..q]) == Some(RingCopy(r, e))
    && us[q].state == Joining && us[q].msg == Del
    && ByNode(r, us[q].node) == i && i < |r| && r[i].state == Joining && r[i].cp == 1
  }

  lemma JoinCompleted(us: seq<Update>, q: nat, r: Ring, i: nat, e: nat)
    requires CompletesJoin(us, q, r, i, e)
    ensures RingAfter(us[..q + 1]) == Some(RingCopy(r[i := Joined(r[i])], e + 1))
  {
    hide Apply;
    RingAfterStep(us, q);
    ApplyJoinEnd(RingCopy(r, e), us[q]);
  }

  lemma FullChainHasTail(r: Ring, i: nat, key: U64, n: nat)
    requires i < |r| && OneInvalid(r) && r[i].state == Joining
    requires KeyChain(r, key, n).copy.Some? && |KeyChain(r, key, n).vids| == n
    ensures n > 0 && |r| > 1 && KeyChain(r, key, n).vids[n - 1] in Without(View(r, key), ViewPos(r, key, i))
  {
    hide ChainOf;
    InvalidAt(r, i);
    ViewInvalid(r, key);
    ChainWithInvalid(View(r, key), ViewPos(r, key, i), n);
  }

  /** Two vnodes of a chain without invalid vnodes have different ids. */
  lemma SameIdSameVnode(t: Ring, n: nat, h: Vnode)
    requires DistinctIds(t) && AllRunning(t) && h in t && h !in ChainOf(t, n).vids
    ensures forall x :: x in ChainOf(t, n).vids ==> x.vid != h.vid
  {
    hide ChainOf;
    ChainAllRunning(t, n);
    forall x | x in ChainOf(t, n).vids
      ensures x.vid != h.vid
    {
      assert x in t;
    }
  }

  lemma StaysInView(s: Ring, p: nat, y: Vnode, h: Vnode)
    requires p < |s| && h in Without(s, p)
    ensures h in s[p := y]
  {
    var m :| 0 <= m < |Without(s, p)| && Without(s, p)[m] == h;
    assert s[p := y][Up(m, p)] == h;
  }

  /** The tail of a full chain that a join enters stops serving, by id. */
  lemma FullTailDropped(r: Ring, i: nat, key: U64, n: nat)
    requires i < |r| && Sorted(r) && OneInvalid(r) && r[i].state == Joining
    requires KeyChain(r, key, n).copy.Some? && |KeyChain(r, key, n).vids| == n
    ensures n > 0
    ensures forall x :: x in KeyChain(r[i := Joined(r[i])], key, n).vids ==>
        x.vid != KeyChain(r, key, n).vids[n - 1].vid
  {
    hide ChainOf, Sorted, Without, View, OneInvalid, FirstInvalid, Find;
    FullChainHasTail(r, i, key, n);
    InvalidAt(r, i);
    JoinEndDropsFullTail(r, i, key, n);
    var r', h := r[i := Joined(r[i])], KeyChain(r, key, n).vids[n - 1];
    ReplaceSorted(r, i, Joined(r[i]));
    ReplaceView(r, i, Joined(r[i]), key);
    ViewIds(r', key);
    ViewAllRunning(r', key);
    ViewLength(r, key);
    StaysInView(View(r, key), ViewPos(r, key, i), Joined(r[i]), h);
    SameIdSameVnode(View(r', key), n, h);
  }

  lemma ViewLength(r: Ring, key: U64)
    requires r != []
    ensures |View(r, key)| == |r|
  {
  }

  /** What epoch safety is for.  A join completes with event `q`, in the epoch in
      which the master started to copy a range, and that range is ended.  No request in flight, then or
      later and whatever events follow, is served by the replica whose data for
      the key is dropped, unless that replica has received the data again. */
  lemma DroppedReplicaServesNobody(workers: nat, before: seq<Event>, s0: Sys, start: Event, between: seq<Event>,
                                   s: Sys, j: nat, after: seq<Event>, s': Sys,
                                   q: nat, r: Ring, i: nat, key: U64, n: nat, id: nat)
    requires CopiedAndEnded(workers, before, s0, start, between, s, j, after, s')
    requires Regular(s'.issued) && CompletesJoin(s'.issued, q, r, i, s0.master.epoch) && Copied(s'.issued, q + 1, n)
    requires KeyChain(r, key, n).copy.Some? && |KeyChain(r, key, n).vids| == n
    requires id in s'.live
    ensures var us, at := s'.issued, s'.live[id].at;
      && n > 0 && q < at <= |us|
      && var v := KeyChain(r, key, n).vids[n - 1].vid;
        Served(us, at, key, n, v) ==> exists k :: q < k < at && Receives(us, k, key, n, v)
  {
    hide Apply, RingAfter, KeyChain, Run, Inv, Regular, SkipsCopy, Receives;
    var e, k, us := s0.master.epoch, s'.live[id], s'.issued;
    EpochSafety(workers, before, s0, start, between, s, j, after, s');
    LiveRequest(s', id);
    JoinCompleted(us, q, r, i, e);
    if k.at <= q {
      EpochMonotone(us, k.at, q);
      assert false;
    }
    HistorySorted(us, q);
    FullTailDropped(r, i, key, n);
    ServesOnlyAfterCopy(us, q + 1, k.at, key, n, KeyChain(r, key, n).vids[n - 1].vid);
  }

  lemma LiveRequest(s: Sys, id: nat)
    requires Inv(s) && id in s.live
    ensures RequestOk(s, s.live[id])
  {
  }
}
