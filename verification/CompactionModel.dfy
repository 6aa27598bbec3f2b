/** The bucket log as a history of appended chains (spdk/app/leed/kv_bucket_log.c).
    Chains are named by their place in the history; nothing wraps around here.
    Puts, commits, lock-free compaction and head moves are separate events, in any
    interleaving. */
module CompactionModel {
  import opened SeqOps
  import SegmentItems

  /** Blocks one compaction covers at least (COMPACTION_LENGTH). */
  const LENGTH: nat := 512

  const MAX_CHAIN: nat := SegmentItems.MAX_CHAIN

  /** The item slots of one bucket. */
  type Bucket = seq<SegmentItems.Item>

  /** One appended chain: the buckets of `id` in chain order. */
  datatype Chain = Chain(id: nat, buckets: seq<Bucket>)

  type History = seq<Chain>

  /** One chain being moved: from history index `src` to `dst`. */
  datatype Move = Move(src: nat, dst: nat)

  /** A compaction whose write is outstanding: it read the chains `first` up to `last`. */
  datatype Job = Job(first: nat, last: nat, moves: seq<Move>)

  datatype Store = Store(
    size: nat,               // blocks of the circular log
    log: History,
    head: nat,               // first chain still in the log
    compact: nat,            // first chain not yet read by a compaction
    at: map<nat, nat>,       // bucket id -> its committed chain
    puts: map<nat, nat>,     // bucket id -> chain appended by the lock holder, not committed
    jobs: seq<Job>)

  function Len(c: Chain): nat { |c.buckets| }

  ghost predicate ValidChain(c: Chain) {
    1 <= |c.buckets| <= MAX_CHAIN
  }

  predicate NoItem(b: Bucket) {
    forall i :: 0 <= i < |b| ==> b[i].Empty()
  }

  /** is_empty_seg: a single bucket without an item. */
  predicate Void(c: Chain) {
    |c.buckets| <= 1 && forall b :: b in c.buckets ==> NoItem(b)
  }

  /** First block of chain `i`, counted from the start of the history. */
  function Start(log: History, i: nat): nat
    requires i <= |log|
  {
    if i == 0 then 0 else Start(log, i - 1) + Len(log[i - 1])
  }

  function Tail(s: Store): nat { Start(s.log, |s.log|) }

  /** The store, as its users see it. */
  ghost function Contents(s: Store): map<nat, seq<Bucket>>
    requires Loose(s)
  {
    map id | id in s.at :: s.log[s.at[id]].buckets
  }

  predicate Live(s: Store, i: nat)
    requires i < |s.log|
  {
    s.log[i].id in s.at && s.at[s.log[i].id] == i
  }

  ghost predicate MoveOk(s: Store, j: Job, m: Move) {
    && j.first <= m.src < j.last <= m.dst < |s.log|
    && s.log[m.src] == s.log[m.dst]
    && (s.log[m.src].id in s.at ==> var a := s.at[s.log[m.src].id]; a == m.src || a >= j.last)
  }

  ghost predicate JobOk(s: Store, j: Job) {
    && j.first <= j.last <= s.compact <= |s.log|
    && Tail(s) <= Start(s.log, j.first) + s.size
    && forall k :: 0 <= k < |j.moves| ==> MoveOk(s, j, j.moves[k])
  }

  /** Compactions read one stretch of the log after the other. */
  ghost predicate JobsApart(s: Store) {
    forall i, k :: 0 <= i < k < |s.jobs| ==> s.jobs[i].last <= s.jobs[k].first
  }

  /** Every index entry is inside the log and names a chain of its bucket. */
  ghost predicate IndexInside(s: Store) {
    forall id :: id in s.at ==> s.head <= s.at[id] < |s.log| && s.log[s.at[id]].id == id && !Void(s.log[s.at[id]])
  }

  /** All is well, apart from chains that are written and not committed. */
  ghost predicate Loose(s: Store) {
    && (forall i :: 0 <= i < |s.log| ==> ValidChain(s.log[i]))
    && s.head <= s.compact <= |s.log|
    && Tail(s) - Start(s.log, s.head) < s.size
    && IndexInside(s)
    && (forall id :: id in s.puts ==> s.puts[id] < |s.log| && s.log[s.puts[id]].id == id)
    && (forall k :: 0 <= k < |s.jobs| ==> JobOk(s, s.jobs[k]))
    && JobsApart(s)
  }

  /** No chain with items before `e` is written and not committed. */
  predicate NoneUncommittedBefore(s: Store, e: nat) {
    forall id :: id in s.puts && s.puts[id] < |s.log| ==> e <= s.puts[id] || Void(s.log[s.puts[id]])
  }

  ghost predicate Inv(s: Store) {
    Loose(s) && NoneUncommittedBefore(s, s.compact)
  }

  // ----- block positions -----

  lemma StartNext(log: History, i: nat)
    requires i < |log|
    ensures Start(log, i + 1) == Start(log, i) + Len(log[i])
  {
  }

  lemma {:induction false} StartPrefix(log: History, more: History, i: nat)
    requires i <= |log|
    ensures Start(log + more, i) == Start(log, i)
  {
    if i > 0 { StartPrefix(log, more, i - 1); }
  }

  lemma {:induction false} StartMonotone(log: History, i: nat, j: nat)
    requires i <= j <= |log|
    ensures Start(log, i) <= Start(log, j)
    ensures (forall k :: 0 <= k < |log| ==> ValidChain(log[k])) ==> Start(log, j) - Start(log, i) >= j - i
    decreases j
  {
    if i < j { StartMonotone(log, i, j - 1); }
  }

  // ----- events -----

  datatype Event =
    | AppendPut(chain: Chain)
    | CommitPut(id: nat)
    | AbortPut(id: nat)
    | CompactStart
    | CommitMove(j: nat)
    | FinishJob(j: nat)
    | MoveHead

  /** The free space of the log takes `n` more blocks: the check of the append. */
  predicate HasRoom(s: Store, n: nat)
    requires s.head <= |s.log|
  {
    Tail(s) + n - Start(s.log, s.head) < s.size
  }

  /** Appending `n` blocks overwrites no block that an outstanding compaction read. */
  predicate SparesSources(s: Store, n: nat) {
    forall k :: 0 <= k < |s.jobs| && s.jobs[k].first <= |s.log| ==>
                  Tail(s) + n <= Start(s.log, s.jobs[k].first) + s.size
  }

  /** First chain from `i` on that starts at least LENGTH blocks after chain `c`. */
  function CompactEnd(log: History, c: nat, i: nat): (e: nat)
    requires c <= i <= |log|
    ensures i <= e <= |log|
    ensures e < |log| ==> Start(log, e) - Start(log, c) >= LENGTH
    ensures forall k :: i <= k < e ==> Start(log, k) - Start(log, c) < LENGTH
    decreases |log| - i
  {
    if i == |log| || Start(log, i) - Start(log, c) >= LENGTH then i else CompactEnd(log, c, i + 1)
  }

  /** The live chains among `i` up to `e`, in order. */
  function LiveFrom(s: Store, i: nat, e: nat): (xs: seq<nat>)
    requires i <= e <= |s.log|
    ensures forall k :: 0 <= k < |xs| ==> i <= xs[k] < e && Live(s, xs[k])
    decreases e - i
  {
    if i == e then [] else (if Live(s, i) then [i] else []) + LiveFrom(s, i + 1, e)
  }

  function Copies(log: History, xs: seq<nat>): History
    requires forall k :: 0 <= k < |xs| ==> xs[k] < |log|
  {
    seq(|xs|, k requires 0 <= k < |xs| => log[xs[k]])
  }

  function Moves(xs: seq<nat>, n: nat): seq<Move> {
    seq(|xs|, k requires 0 <= k < |xs| => Move(xs[k], n + k))
  }

  function Total(cs: History): nat {
    Start(cs, |cs|)
  }

  /** First live chain at or after `i`, or the compaction head. */
  function NextHead(s: Store, i: nat): (h: nat)
    requires i <= s.compact <= |s.log|
    ensures i <= h <= s.compact
    ensures forall k :: i <= k < h ==> !Live(s, k)
    ensures h < s.compact ==> Live(s, h)
    decreases s.compact - i
  {
    if i == s.compact || Live(s, i) then i else NextHead(s, i + 1)
  }

  /** There is enough to read and room for the copies. */
  predicate CanCompact(s: Store)
    requires s.head <= s.compact <= |s.log|
  {
    var e := CompactEnd(s.log, s.compact, s.compact);
    var n := Total(Copies(s.log, LiveFrom(s, s.compact, e)));
    Start(s.log, e) - Start(s.log, s.compact) >= LENGTH && HasRoom(s, n) && SparesSources(s, n)
  }

  /** Beyond what the code checks itself: an append leaves the source of an
      outstanding compaction alone, and a compaction does not run into a chain with
      items that is appended but not committed. */
  ghost predicate Enabled(s: Store, e: Event)
    requires Loose(s)
  {
    match e
    case AppendPut(c) => ValidChain(c) && c.id !in s.puts && HasRoom(s, Len(c)) && SparesSources(s, Len(c))
    case CommitPut(id) => id in s.puts
    case AbortPut(id) => id in s.puts
    case CompactStart => CanCompact(s) && NoneUncommittedBefore(s, CompactEnd(s.log, s.compact, s.compact))
    case CommitMove(j) => j < |s.jobs| && s.jobs[j].moves != []
    case FinishJob(j) => j < |s.jobs| && s.jobs[j].moves == []
    case MoveHead => true
  }

  /** seg_commit of the lock holder's chain. */
  function DoCommitPut(s: Store, id: nat): Store
    requires id in s.puts && s.puts[id] < |s.log|
  {
    s.(at := if Void(s.log[s.puts[id]]) then s.at - {id} else s.at[id := s.puts[id]], puts := s.puts - {id})
  }

  /** compact: read from the compaction head, append copies of the live chains. */
  function DoCompactStart(s: Store): Store
    requires s.compact <= |s.log|
  {
    var e := CompactEnd(s.log, s.compact, s.compact);
    var xs := LiveFrom(s, s.compact, e);
    s.(log := s.log + Copies(s.log, xs), compact := e, jobs := s.jobs + [Job(s.compact, e, Moves(xs, |s.log|))])
  }

  /** One turn of the loop of compact_write_cb: the copy becomes current only if
      the index still points into the range the job read. */
  function DoCommitMove(s: Store, j: nat): Store
    requires j < |s.jobs| && s.jobs[j].moves != [] && s.jobs[j].moves[0].dst < |s.log|
  {
    var job := s.jobs[j];
    var m := job.moves[0];
    var id := s.log[m.dst].id;
    s.(jobs := s.jobs[j := job.(moves := job.moves[1..])],
       at := if id in s.at && job.first <= s.at[id] < job.last then s.at[id := m.dst] else s.at)
  }

  function Next(s: Store, e: Event): Store
    requires Loose(s) && Enabled(s, e)
  {
    match e
    case AppendPut(c) => s.(log := s.log + [c], puts := s.puts[c.id := |s.log|])
    case CommitPut(id) => DoCommitPut(s, id)
    case AbortPut(id) => s.(puts := s.puts - {id})
    case CompactStart => DoCompactStart(s)
    case CommitMove(j) =>
      assert JobOk(s, s.jobs[j]);
      assert MoveOk(s, s.jobs[j], s.jobs[j].moves[0]);
      DoCommitMove(s, j)
    case FinishJob(j) => s.(jobs := Without(s.jobs, j))
    case MoveHead => s.(head := NextHead(s, s.head))
  }

  // ----- when the code compacts -----

  const CONCURRENCY: nat := 4

  /** Smallest log kv_bucket_log_init sets up. */
  const MIN_SIZE: nat := 4 * (LENGTH * 16)

  /** The two tests at the top of compact. */
  predicate Wants(s: Store)
    requires s.head <= s.compact <= |s.log|
  {
    && s.size - 1 - (Tail(s) - Start(s.log, s.head)) < LENGTH * CONCURRENCY * 6
    && Start(s.log, s.compact) - Start(s.log, s.head) <= LENGTH * CONCURRENCY
  }

  /** The tests leave a compaction enough log to read: it never runs into the tail. */
  lemma EnoughToCompact(s: Store)
    requires Inv(s) && Wants(s) && s.size >= MIN_SIZE
    ensures Start(s.log, CompactEnd(s.log, s.compact, s.compact)) - Start(s.log, s.compact) >= LENGTH
    ensures CompactEnd(s.log, s.compact, s.compact) < |s.log|
  {
  }

  /** Appending the copies triggers the next compaction, and so on.  Every level
      moves the compaction head at least LENGTH blocks while the head stays, so the
      nesting ends; the environment allows all of its levels. */
  ghost predicate Cascade(s: Store)
    requires Inv(s)
    decreases if Wants(s) then LENGTH * CONCURRENCY + 1 - (Start(s.log, s.compact) - Start(s.log, s.head)) else 0
  {
    Wants(s) ==>
      && Enabled(s, CompactStart)
      && (LiveFrom(s, s.compact, CompactEnd(s.log, s.compact, s.compact)) != [] ==>
            (StepCompactStart(s); CascadeAdvances(s); Cascade(Next(s, CompactStart))))
  }

  lemma CascadeAdvances(s: Store)
    requires Inv(s) && Enabled(s, CompactStart)
    ensures var s' := Next(s, CompactStart);
            && s'.head == s.head && Start(s'.log, s.head) == Start(s.log, s.head)
            && Start(s'.log, s'.compact) >= Start(s.log, s.compact) + LENGTH
  {
    var e := CompactEnd(s.log, s.compact, s.compact);
    var more := Copies(s.log, LiveFrom(s, s.compact, e));
    StartPrefix(s.log, more, s.head);
    StartPrefix(s.log, more, e);
  }

  lemma {:induction false} LiveFromSnoc(s: Store, i: nat, e: nat)
    requires i <= e < |s.log|
    ensures LiveFrom(s, i, e + 1) == LiveFrom(s, i, e) + if Live(s, e) then [e] else []
    decreases e - i
  {
    if i < e {
      LiveFromSnoc(s, i + 1, e);
    } else {
      assert LiveFrom(s, e + 1, e + 1) == [];
    }
  }

  /** One more chain read by a compaction that has not read enough. */
  lemma CollectStep(s: Store, c: nat, e: nat)
    requires c <= e < |s.log| && Start(s.log, e) - Start(s.log, c) < LENGTH
    ensures CompactEnd(s.log, c, e) == CompactEnd(s.log, c, e + 1)
    ensures Copies(s.log, LiveFrom(s, c, e + 1)) ==
            Copies(s.log, LiveFrom(s, c, e)) + if Live(s, e) then [s.log[e]] else []
    ensures Start(s.log, e + 1) == Start(s.log, e) + Len(s.log[e])
  {
    LiveFromSnoc(s, c, e);
  }

  lemma CollectGoesOn(s: Store, e: nat)
    requires Inv(s) && Enabled(s, CompactStart) && s.compact <= e <= |s.log|
    requires CompactEnd(s.log, s.compact, s.compact) == CompactEnd(s.log, s.compact, e)
    ensures Start(s.log, e) - Start(s.log, s.compact) < LENGTH ==> e < |s.log|
    ensures Start(s.log, e) - Start(s.log, s.compact) >= LENGTH ==> e == CompactEnd(s.log, s.compact, s.compact)
  {
  }

  /** All moves of a job committed, one after the other. */
  ghost function Drain(s: Store, j: nat): (s': Store)
    requires Inv(s) && j < |s.jobs|
    ensures Inv(s') && Contents(s') == Contents(s)
    ensures j < |s'.jobs| && s'.jobs[j].moves == []
    decreases |s.jobs[j].moves|
  {
    if s.jobs[j].moves == [] then s else StepCommitMove(s, j); Drain(Next(s, CommitMove(j)), j)
  }

  /** A whole compact_write_cb: all moves, the end of the job, the head. */
  ghost function Complete(s: Store, j: nat): (s': Store)
    requires Inv(s) && j < |s.jobs|
    ensures Inv(s') && Contents(s') == Contents(s)
  {
    var s1 := Drain(s, j);
    StepFinishJob(s1, j);
    var s2 := Next(s1, FinishJob(j));
    StepMoveHead(s2);
    Next(s2, MoveHead)
  }

  /** compact with all the compactions it triggers. */
  ghost function Compacted(s: Store): (s': Store)
    requires Inv(s) && Cascade(s)
    ensures Inv(s') && Contents(s') == Contents(s)
    decreases if Wants(s) then LENGTH * CONCURRENCY + 1 - (Start(s.log, s.compact) - Start(s.log, s.head)) else 0
  {
    if !Wants(s) then s
    else
      StepCompactStart(s);
      var s1 := Next(s, CompactStart);
      if LiveFrom(s, s.compact, s1.compact) == [] then Complete(s1, |s.jobs|)
      else CascadeAdvances(s); Compacted(s1)
  }

  // ----- every event keeps the invariant and the meaning -----

  /** Appending chains disturbs nothing that was there. */
  lemma AppendKeepsJobs(s: Store, more: History, k: nat)
    requires Loose(s) && k < |s.jobs|
    requires Tail(s) + Total(more) <= Start(s.log, s.jobs[k].first) + s.size
    ensures JobOk(s.(log := s.log + more), s.jobs[k])
  {
    var s' := s.(log := s.log + more);
    var j := s.jobs[k];
    assert JobOk(s, j);
    StartPrefix(s.log, more, j.first);
    TailAppend(s.log, more);
    forall i | 0 <= i < |j.moves|
      ensures MoveOk(s', j, j.moves[i])
    {
      assert MoveOk(s, j, j.moves[i]);
    }
  }

  lemma {:induction false} TailAppend(log: History, more: History)
    ensures Start(log + more, |log + more|) == Start(log, |log|) + Total(more)
    decreases |more|
  {
    if more == [] {
      assert log + more == log;
    } else {
      var init := more[..|more| - 1];
      var last := more[|more| - 1];
      assert more == init + [last];
      assert log + more == (log + init) + [last];
      StartPrefix(log + init, [last], |log + init|);
      StartPrefix(init, [last], |init|);
      TailAppend(log, init);
    }
  }

  lemma StepAppendPut(s: Store, c: Chain)
    requires Loose(s) && Enabled(s, AppendPut(c))
    ensures var s' := Next(s, AppendPut(c)); Loose(s') && (Inv(s) ==> Inv(s')) && Contents(s') == Contents(s)
  {
    hide JobOk, Start;
    var s' := Next(s, AppendPut(c));
    TailAppend(s.log, [c]);
    OneChain(c);
    StartPrefix(s.log, [c], s.head);
    forall k | 0 <= k < |s.jobs|
      ensures JobOk(s', s.jobs[k])
    {
      JobBounds(s, k);
      AppendKeepsJobs(s, [c], k);
      SameJob(s.(log := s.log + [c]), s', s.jobs[k]);
    }
  }

  lemma OneChain(c: Chain)
    ensures Total([c]) == Len(c)
  {
    assert Start([c], 1) == Start([c], 0) + Len(c);
  }

  lemma SameJob(s: Store, s': Store, j: Job)
    requires JobOk(s, j) && s'.size == s.size && s'.log == s.log && s'.compact >= s.compact
    requires s'.compact <= |s.log| && s'.at == s.at
    ensures JobOk(s', j)
  {
    hide Start;
    forall i | 0 <= i < |j.moves|
      ensures MoveOk(s', j, j.moves[i])
    {
      assert MoveOk(s, j, j.moves[i]);
    }
  }

  /** Jobs survive a new entry in the index that is not in the range they read. */
  lemma IndexKeepsJobs(s: Store, s': Store, k: nat)
    requires Loose(s) && k < |s.jobs|
    requires s'.size == s.size && s'.log == s.log && s'.compact == s.compact
    requires forall id :: id in s'.at ==> (id in s.at && s'.at[id] == s.at[id]) || s'.at[id] >= s.jobs[k].last
    ensures JobOk(s', s.jobs[k])
  {
    hide Start, Void;
    var j := s.jobs[k];
    assert JobOk(s, j);
    forall i | 0 <= i < |j.moves|
      ensures MoveOk(s', j, j.moves[i])
    {
      assert MoveOk(s, j, j.moves[i]);
    }
  }

  lemma StepCommitPut(s: Store, id: nat)
    requires Inv(s) && Enabled(s, CommitPut(id))
    ensures Inv(Next(s, CommitPut(id)))
    ensures var c := s.log[s.puts[id]];
            Contents(Next(s, CommitPut(id))) == if Void(c) then Contents(s) - {id} else Contents(s)[id := c.buckets]
  {
    hide JobOk, Start, Void;
    var s' := Next(s, CommitPut(id));
    forall k | 0 <= k < |s'.jobs|
      ensures JobOk(s', s'.jobs[k])
    {
      JobBounds(s, k);
      IndexKeepsJobs(s, s', k);
    }
    CommittedContents(s, id);
  }

  lemma CommittedContents(s: Store, id: nat)
    requires Loose(s) && id in s.puts && Loose(DoCommitPut(s, id))
    ensures var c := s.log[s.puts[id]];
            Contents(DoCommitPut(s, id)) == if Void(c) then Contents(s) - {id} else Contents(s)[id := c.buckets]
  {
    hide JobOk, Start, Void;
  }

  lemma JobBounds(s: Store, k: nat)
    requires Loose(s) && k < |s.jobs|
    ensures s.jobs[k].first <= s.jobs[k].last <= s.compact
  {
    assert JobOk(s, s.jobs[k]);
  }

  lemma StepAbortPut(s: Store, id: nat)
    requires Loose(s) && Enabled(s, AbortPut(id))
    ensures var s' := Next(s, AbortPut(id)); Loose(s') && (Inv(s) ==> Inv(s')) && Contents(s') == Contents(s)
  {
    hide Start;
    var s' := Next(s, AbortPut(id));
    forall k | 0 <= k < |s.jobs|
      ensures JobOk(s', s.jobs[k])
    {
      JobBounds(s, k);
      SameJob(s, s', s.jobs[k]);
    }
  }

  lemma NewJobOk(s: Store)
    requires Loose(s) && CanCompact(s)
    ensures var s' := DoCompactStart(s); JobOk(s', s'.jobs[|s.jobs|])
  {
    hide JobOk, Void, Start, LiveFrom, CompactEnd, JobsApart;
    var s' := DoCompactStart(s);
    var e := s'.compact;
    var xs := LiveFrom(s, s.compact, e);
    var j := Job(s.compact, e, Moves(xs, |s.log|));
    assert s'.jobs[|s.jobs|] == j;
    StartPrefix(s.log, Copies(s.log, xs), s.compact);
    StartMonotone(s.log, s.head, s.compact);
    TailAppend(s.log, Copies(s.log, xs));
    forall k | 0 <= k < |j.moves|
      ensures MoveOk(s', j, j.moves[k])
    {
      assert j.moves[k] == Move(xs[k], |s.log| + k);
      assert s'.log[|s.log| + k] == Copies(s.log, xs)[k] == s.log[xs[k]] == s'.log[xs[k]];
    }
    JobOkIs(s', j);
  }

  lemma JobOkIs(s: Store, j: Job)
    requires j.first <= j.last <= s.compact <= |s.log| && Tail(s) <= Start(s.log, j.first) + s.size
    requires forall k :: 0 <= k < |j.moves| ==> MoveOk(s, j, j.moves[k])
    ensures JobOk(s, j)
  {
  }

  lemma OldJobOk(s: Store, k: nat)
    requires Loose(s) && CanCompact(s) && k < |s.jobs|
    ensures JobOk(DoCompactStart(s), s.jobs[k])
  {
    hide JobOk, Start;
    var s' := DoCompactStart(s);
    var xs := LiveFrom(s, s.compact, s'.compact);
    JobBounds(s, k);
    AppendKeepsJobs(s, Copies(s.log, xs), k);
    SameJob(s.(log := s.log + Copies(s.log, xs)), s', s.jobs[k]);
  }

  /** Compaction keeps everything but the place of uncommitted chains. */
  lemma CompactKeepsLoose(s: Store)
    requires Loose(s) && CanCompact(s)
    ensures var s' := DoCompactStart(s); Loose(s') && Contents(s') == Contents(s)
  {
    hide JobOk, Start, Void, LiveFrom, CompactEnd;
    var s' := DoCompactStart(s);
    var xs := LiveFrom(s, s.compact, s'.compact);
    StartPrefix(s.log, Copies(s.log, xs), s.head);
    TailAppend(s.log, Copies(s.log, xs));
    forall k | 0 <= k < |s'.jobs|
      ensures JobOk(s', s'.jobs[k])
    {
      if k < |s.jobs| { OldJobOk(s, k); } else { NewJobOk(s); }
    }
    forall i | 0 <= i < |s.jobs|
      ensures s.jobs[i].last <= s.compact
    {
      JobBounds(s, i);
    }
    forall i | 0 <= i < |s'.log|
      ensures ValidChain(s'.log[i])
    {
      if i >= |s.log| { assert s'.log[i] == s.log[xs[i - |s.log|]]; }
    }
  }

  lemma StepCompactStart(s: Store)
    requires Inv(s) && Enabled(s, CompactStart)
    ensures Inv(Next(s, CompactStart)) && Contents(Next(s, CompactStart)) == Contents(s)
  {
    hide Loose, Contents, Start, CanCompact;
    assert Loose(s);
    CompactKeepsLoose(s);
  }

  /** The chain a move is about and what the index says about it. */
  lemma MoveFacts(s: Store, j: nat)
    requires Loose(s) && j < |s.jobs| && s.jobs[j].moves != []
    ensures var job, m := s.jobs[j], s.jobs[j].moves[0];
      && MoveOk(s, job, m) && s.log[m.src].id == s.log[m.dst].id && s.head <= s.compact
      && (s.log[m.dst].id in s.at && job.first <= s.at[s.log[m.dst].id] < job.last ==>
            s.at[s.log[m.dst].id] == m.src && s.head <= m.src < m.dst && !Void(s.log[m.dst]))
  {
    assert JobOk(s, s.jobs[j]);
    assert MoveOk(s, s.jobs[j], s.jobs[j].moves[0]);
  }

  /** Other compactions do not mind a committed move: they read the chain's bucket
      before, or do not move it. */
  lemma MoveKeepsJob(s: Store, j: nat, k: nat)
    requires Loose(s) && j < |s.jobs| && s.jobs[j].moves != [] && s.jobs[j].moves[0].dst < |s.log| && k < |s.jobs|
    ensures JobOk(DoCommitMove(s, j), s.jobs[k])
  {
    hide Start, Void;
    MoveFacts(s, j);
    var s', job, other := DoCommitMove(s, j), s.jobs[j], s.jobs[k];
    assert JobOk(s, other);
    JobBounds(s, j);
    forall i | 0 <= i < |other.moves|
      ensures MoveOk(s', other, other.moves[i])
    {
      assert MoveOk(s, other, other.moves[i]);
      assert k < j ==> other.last <= job.first;
      assert j < k ==> job.last <= other.first;
    }
  }

  lemma FewerMoves(s: Store, j: Job)
    requires JobOk(s, j) && j.moves != []
    ensures JobOk(s, j.(moves := j.moves[1..]))
  {
    hide Start;
  }

  /** The heart of lock-free compaction: switching the index to the copy keeps what
      the bucket holds, whether or not the bucket was written in the meantime. */
  lemma StepCommitMove(s: Store, j: nat)
    requires Loose(s) && Enabled(s, CommitMove(j))
    ensures var s' := Next(s, CommitMove(j)); Loose(s') && (Inv(s) ==> Inv(s')) && Contents(s') == Contents(s)
  {
    hide JobOk, Start, Void, MoveOk;
    MoveFacts(s, j);
    MoveDst(s, s.jobs[j], s.jobs[j].moves[0]);
    var s' := Next(s, CommitMove(j));
    forall k | 0 <= k < |s'.jobs|
      ensures JobOk(s', s'.jobs[k])
    {
      MoveKeepsJob(s, j, k);
      if k == j { FewerMoves(s', s.jobs[j]); }
    }
    MovedContents(s, j);
  }

  lemma MovedContents(s: Store, j: nat)
    requires Loose(s) && j < |s.jobs| && s.jobs[j].moves != [] && s.jobs[j].moves[0].dst < |s.log|
    requires Loose(DoCommitMove(s, j))
    ensures Contents(DoCommitMove(s, j)) == Contents(s)
  {
    hide JobOk, Start, Void, JobsApart;
    MoveFacts(s, j);
  }

  lemma MoveDst(s: Store, j: Job, m: Move)
    requires MoveOk(s, j, m)
    ensures m.src < m.dst < |s.log| && s.log[m.src] == s.log[m.dst]
  {
  }

  lemma StepFinishJob(s: Store, j: nat)
    requires Loose(s) && Enabled(s, FinishJob(j))
    ensures var s' := Next(s, FinishJob(j)); Loose(s') && (Inv(s) ==> Inv(s')) && Contents(s') == Contents(s)
  {
    hide JobOk, Start, Void, Without;
    var s' := Next(s, FinishJob(j));
    WithoutSize(s.jobs, j);
    forall k | 0 <= k < |s'.jobs|
      ensures s'.jobs[k] == s.jobs[if k < j then k else k + 1] && JobOk(s', s'.jobs[k])
    {
      WithoutAt(s.jobs, j, k);
      JobBounds(s, if k < j then k else k + 1);
      SameJob(s, s', s'.jobs[k]);
    }
  }

  lemma WithoutSize(js: seq<Job>, j: nat)
    requires j < |js|
    ensures |Without(js, j)| == |js| - 1
  {
  }

  /** Moving the head drops dead chains only. */
  lemma StepMoveHead(s: Store)
    requires Loose(s)
    ensures var s' := Next(s, MoveHead); Loose(s') && (Inv(s) ==> Inv(s')) && Contents(s') == Contents(s)
  {
    hide JobOk, Start, Void;
    var s' := Next(s, MoveHead);
    StartMonotone(s.log, s.head, s'.head);
    forall id | id in s.at
      ensures s'.head <= s.at[id]
    {
      assert Live(s, s.at[id]);
    }
    forall k | 0 <= k < |s'.jobs|
      ensures JobOk(s', s'.jobs[k])
    {
      JobBounds(s, k);
      SameJob(s, s', s.jobs[k]);
    }
  }

  lemma StepKeepsInv(s: Store, e: Event)
    requires Inv(s) && Enabled(s, e)
    ensures Inv(Next(s, e))
    ensures !e.CommitPut? ==> Contents(Next(s, e)) == Contents(s)
  {
    match e
    case AppendPut(c) => StepAppendPut(s, c);
    case CommitPut(id) => StepCommitPut(s, id);
    case AbortPut(id) => StepAbortPut(s, id);
    case CompactStart => StepCompactStart(s);
    case CommitMove(j) => StepCommitMove(s, j);
    case FinishJob(j) => StepFinishJob(s, j);
    case MoveHead => StepMoveHead(s);
  }

  // ----- whole runs -----

  /** What the users of the store see: committed contents, and what the holder of
      a bucket lock has written but not committed. */
  datatype View = View(contents: map<nat, seq<Bucket>>, pending: map<nat, Chain>)

  ghost function Pending(s: Store): map<nat, Chain>
    requires Inv(s)
  {
    map id | id in s.puts :: s.log[s.puts[id]]
  }

  ghost function ViewOf(s: Store): View
    requires Inv(s)
  {
    View(Contents(s), Pending(s))
  }

  /** The store without a log: compaction does not appear in it at all. */
  function Seen(v: View, e: Event): View {
    match e
    case AppendPut(c) => v.(pending := v.pending[c.id := c])
    case CommitPut(id) =>
      if id !in v.pending then v
      else View(if Void(v.pending[id]) then v.contents - {id} else v.contents[id := v.pending[id].buckets],
                v.pending - {id})
    case AbortPut(id) => v.(pending := v.pending - {id})
    case _ => v
  }

  lemma PendingKept(s: Store, s': Store)
    requires Inv(s) && Inv(s') && s.log <= s'.log && s'.puts == s.puts
    ensures Pending(s') == Pending(s)
  {
    hide JobOk, Start, Void, NoneUncommittedBefore, JobsApart;
  }

  lemma StepPending(s: Store, e: Event)
    requires Inv(s) && Enabled(s, e) && Inv(Next(s, e))
    ensures Pending(Next(s, e)) == Seen(ViewOf(s), e).pending
  {
    hide Contents, JobOk, MoveOk, Void, CanCompact, HasRoom, SparesSources, NoneUncommittedBefore, Start;
    if !e.AppendPut? && !e.CommitPut? && !e.AbortPut? {
      PendingKept(s, Next(s, e));
    } else {
      PendingOne(s, e);
    }
  }

  lemma PendingOne(s: Store, e: Event)
    requires Inv(s) && Enabled(s, e) && Inv(Next(s, e)) && (e.AppendPut? || e.CommitPut? || e.AbortPut?)
    ensures Pending(Next(s, e)) == Seen(ViewOf(s), e).pending
  {
    hide Contents, JobOk, MoveOk, Void, CanCompact, HasRoom, SparesSources, NoneUncommittedBefore, Start, JobsApart;
  }

  lemma StepIsSeen(s: Store, e: Event)
    requires Inv(s) && Enabled(s, e)
    ensures Inv(Next(s, e)) && ViewOf(Next(s, e)) == Seen(ViewOf(s), e)
  {
    hide Contents, JobOk, MoveOk, Void, HasRoom, SparesSources, Start;
    StepKeepsInv(s, e);
    StepPending(s, e);
    if e.CommitPut? {
      StepCommitPut(s, e.id);
      assert Pending(s)[e.id] == s.log[s.puts[e.id]];
    }
  }

  ghost predicate Run(s: Store, es: seq<Event>, s': Store)
    decreases |es|
  {
    if es == [] then s == s'
    else Loose(s) && Enabled(s, es[0]) && Run(Next(s, es[0]), es[1..], s')
  }

  function SeenAll(v: View, es: seq<Event>): View
    decreases |es|
  {
    if es == [] then v else SeenAll(Seen(v, es[0]), es[1..])
  }

  /** Lock-free compaction preserves meaning: in every interleaving of puts,
      commits, compactions, write completions and head moves the store holds exactly
      what the commits alone have put there. */
  lemma {:induction false} RunRefinesMap(s: Store, es: seq<Event>, s': Store)
    requires Inv(s) && Run(s, es, s')
    ensures Inv(s') && ViewOf(s') == SeenAll(ViewOf(s), es)
    decreases |es|
  {
    if es != [] {
      StepIsSeen(s, es[0]);
      RunRefinesMap(Next(s, es[0]), es[1..], s');
    }
  }

  lemma FreshStore(size: nat)
    requires size > 0
    ensures var s := Store(size, [], 0, 0, map[], map[], []);
            Inv(s) && ViewOf(s) == View(map[], map[])
  {
  }
}
