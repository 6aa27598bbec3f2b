/** Runs of the bucket log in which compaction starts as the code starts it
    (spdk/app/leed/kv_bucket_log.c:57-90): how far the compaction head stays from
    the tail, and exactly when a compaction may pass an uncommitted chain. */
module CompactionRuns {
  import opened SeqOps
  import opened CompactionModel

  /** The blocks the prefetch ring of the bucket log holds
      (spdk/app/leed/kv_bucket_log.c:98). */
  const WINDOW: nat := LENGTH * CONCURRENCY * 4

  predicate IsMove(s: Store, k: nat, m: nat) { k < |s.jobs| && m < |s.jobs[k].moves| }

  function MoveAt(s: Store, k: nat, m: nat): Move
    requires IsMove(s, k, m)
  {
    s.jobs[k].moves[m]
  }

  /** A compaction is going to copy chain `i`. */
  ghost predicate Moving(s: Store, i: nat) {
    exists k: nat, m: nat :: IsMove(s, k, m) && MoveAt(s, k, m).src == i
  }

  /** The copy lies a window behind what was read, and behind the compaction head
      as long as it is needed. */
  ghost predicate CopyAhead(s: Store, last: nat, m: Move) {
    && last <= |s.log| && m.dst <= |s.log|
    && Start(s.log, last) + WINDOW <= Start(s.log, m.dst)
    && (m.src < |s.log| && Live(s, m.src) ==> s.compact <= m.dst)
  }

  ghost predicate CopiesAhead(s: Store) {
    forall k: nat, m: nat :: IsMove(s, k, m) ==> CopyAhead(s, s.jobs[k].last, MoveAt(s, k, m))
  }

  /** Chains in front of the compaction head are dead or about to be copied. */
  ghost predicate Swept(s: Store)
    requires Loose(s)
  {
    forall i :: s.head <= i < s.compact && Live(s, i) ==> Moving(s, i)
  }

  ghost predicate Steady(s: Store)
    requires Loose(s)
  {
    && s.size >= MIN_SIZE
    && (s.compact > 0 ==> Tail(s) - Start(s.log, s.compact) >= WINDOW)
    && CopiesAhead(s) && Swept(s)
  }

  // ----- each event keeps it -----

  /** A compaction reads at most one chain beyond its length. */
  lemma CompactEndBound(s: Store)
    requires Loose(s)
    ensures var e := CompactEnd(s.log, s.compact, s.compact);
      Start(s.log, e) < Start(s.log, s.compact) + LENGTH + MAX_CHAIN
  {
    var e := CompactEnd(s.log, s.compact, s.compact);
    if e > s.compact {
      assert Start(s.log, e - 1) - Start(s.log, s.compact) < LENGTH;
      StartNext(s.log, e - 1);
      assert ValidChain(s.log[e - 1]);
    }
  }

  /** When compaction is wanted, the tail is far from where it will stop. */
  lemma FarFromTail(s: Store)
    requires Loose(s) && Wants(s) && s.size >= MIN_SIZE
    ensures var e := CompactEnd(s.log, s.compact, s.compact); Start(s.log, e) + WINDOW <= Tail(s)
  {
    CompactEndBound(s);
  }

  lemma StillLive(s: Store, s': Store, i: nat)
    requires s.at == s'.at && s.log <= s'.log && i < |s.log|
    ensures Live(s, i) == Live(s', i)
  {
  }

  lemma JobPlaces(s: Store, k: nat, m: nat)
    requires Loose(s) && IsMove(s, k, m)
    ensures var j, v := s.jobs[k], MoveAt(s, k, m);
      j.first <= v.src < j.last <= v.dst < |s.log| && j.last <= s.compact <= |s.log| && s.log[v.src] == s.log[v.dst]
  {
    assert JobOk(s, s.jobs[k]);
    assert MoveOk(s, s.jobs[k], s.jobs[k].moves[m]);
  }

  /** Appending keeps it. */
  lemma AppendSteady(s: Store, c: Chain)
    requires Loose(s) && Steady(s) && Enabled(s, AppendPut(c))
    ensures Loose(Next(s, AppendPut(c))) && Steady(Next(s, AppendPut(c)))
  {
    hide Start, JobOk, Enabled;
    StepAppendPut(s, c);
    var s' := Next(s, AppendPut(c));
    LongerSteady(s, s', [c]);
  }

  /** More chains behind the others. */
  lemma LongerSteady(s: Store, s': Store, more: History)
    requires Loose(s) && Steady(s) && Loose(s')
    requires s'.size == s.size && s'.log == s.log + more && s'.head == s.head && s'.compact == s.compact
    requires s'.at == s.at && s'.jobs == s.jobs
    ensures Steady(s')
  {
    hide Start, Loose, Live;
    LooseBounds(s);
    TailAppend(s.log, more);
    StartPrefix(s.log, more, s.compact);
    forall k: nat, m: nat | IsMove(s', k, m)
      ensures CopyAhead(s', s'.jobs[k].last, MoveAt(s', k, m))
    {
      JobPlaces(s, k, m);
      assert CopyAhead(s, s.jobs[k].last, MoveAt(s, k, m));
      StartPrefix(s.log, more, s.jobs[k].last);
      StartPrefix(s.log, more, MoveAt(s, k, m).dst);
      StillLive(s, s', MoveAt(s, k, m).src);
    }
    forall i | s'.head <= i < s'.compact && Live(s', i)
      ensures Moving(s', i)
    {
      StillLive(s, s', i);
      var k: nat, m: nat :| IsMove(s, k, m) && MoveAt(s, k, m).src == i;
      assert IsMove(s', k, m) && MoveAt(s', k, m).src == i;
    }
  }

  lemma LooseBounds(s: Store)
    requires Loose(s)
    ensures s.head <= s.compact <= |s.log|
  {
  }

  /** A compaction, whether or not it passes an uncommitted chain. */
  lemma CompactSteady(s: Store)
    requires Loose(s) && Steady(s) && Wants(s) && CanCompact(s)
    ensures Loose(DoCompactStart(s)) && Steady(DoCompactStart(s))
  {
    hide Start, JobOk, CanCompact, Wants, Loose, LiveFrom;
    CompactKeepsLoose(s);
    LooseBounds(s);
    var s', e := DoCompactStart(s), CompactEnd(s.log, s.compact, s.compact);
    var more := Copies(s.log, LiveFrom(s, s.compact, e));
    FarFromTail(s);
    TailAppend(s.log, more);
    StartPrefix(s.log, more, e);
    forall k: nat, m: nat | IsMove(s', k, m)
      ensures CopyAhead(s', s'.jobs[k].last, MoveAt(s', k, m))
    {
      JobPlaces(s', k, m);
      if k < |s.jobs| { OldCopyAhead(s, k, m); } else { NewCopyAhead(s, m); }
    }
    CompactSwept(s);
  }

  lemma OldCopyAhead(s: Store, k: nat, m: nat)
    requires Loose(s) && Steady(s) && Wants(s) && IsMove(s, k, m)
    ensures CopyAhead(DoCompactStart(s), s.jobs[k].last, MoveAt(s, k, m))
  {
    hide Start, JobOk;
    var s', e := DoCompactStart(s), CompactEnd(s.log, s.compact, s.compact);
    var j, v := s.jobs[k], MoveAt(s, k, m);
    var more := Copies(s.log, LiveFrom(s, s.compact, e));
    JobPlaces(s, k, m);
    StartPrefix(s.log, more, j.last);
    StartPrefix(s.log, more, v.dst);
    StillLive(s, s', v.src);
    assert CopyAhead(s, j.last, v);
    if Live(s, v.src) {
      CompactEndBound(s);
      assert s.head <= v.src;
      StartMonotone(s.log, s.head, v.src);
      StartMonotone(s.log, v.src, j.last);
      if v.dst < e { StartMonotone(s.log, v.dst, e); }
    }
  }

  lemma NewCopyAhead(s: Store, m: nat)
    requires Loose(s) && Steady(s) && Wants(s)
    requires m < |DoCompactStart(s).jobs[|s.jobs|].moves|
    ensures var s' := DoCompactStart(s); var j := s'.jobs[|s.jobs|]; CopyAhead(s', j.last, j.moves[m])
  {
    hide Start, Loose, Wants;
    LooseBounds(s);
    var s', e := DoCompactStart(s), CompactEnd(s.log, s.compact, s.compact);
    var xs := LiveFrom(s, s.compact, e);
    var more := Copies(s.log, xs);
    FarFromTail(s);
    StartPrefix(s.log, more, e);
    StartPrefix(s.log, more, |s.log|);
    StartMonotone(s'.log, |s.log|, |s.log| + m);
  }

  lemma {:induction false} LiveFromHas(s: Store, i: nat, e: nat, x: nat)
    requires i <= x < e <= |s.log| && Live(s, x)
    ensures x in LiveFrom(s, i, e)
    decreases e - i
  {
    if i < x { LiveFromHas(s, i + 1, e, x); }
  }

  lemma CompactSwept(s: Store)
    requires Loose(s) && Swept(s) && Loose(DoCompactStart(s))
    ensures Swept(DoCompactStart(s))
  {
    hide Start, JobOk;
    var s', e := DoCompactStart(s), CompactEnd(s.log, s.compact, s.compact);
    var xs := LiveFrom(s, s.compact, e);
    forall i | s'.head <= i < s'.compact && Live(s', i)
      ensures Moving(s', i)
    {
      StillLive(s, s', i);
      if i < s.compact {
        var k: nat, m: nat :| IsMove(s, k, m) && MoveAt(s, k, m).src == i;
        assert IsMove(s', k, m) && MoveAt(s', k, m).src == i;
      } else {
        LiveFromHas(s, s.compact, e, i);
        var m :| 0 <= m < |xs| && xs[m] == i;
        assert IsMove(s', |s.jobs|, m) && MoveAt(s', |s.jobs|, m).src == i;
      }
    }
  }

  /** Move `m` of a job that read up to `last` was there before. */
  ghost predicate Known(s: Store, last: nat, m: Move) {
    exists k: nat, i: nat :: IsMove(s, k, i) && s.jobs[k].last == last && MoveAt(s, k, i) == m
  }

  /** The index changes, or the head moves: no chain in front of the compaction
      head comes to life. */
  lemma FewerLive(s: Store, s': Store)
    requires Loose(s) && Steady(s) && Loose(s')
    requires s'.size == s.size && s'.log == s.log && s'.compact == s.compact && s'.head >= s.head
    requires forall k: nat, m: nat :: IsMove(s', k, m) ==> Known(s, s'.jobs[k].last, MoveAt(s', k, m))
    requires forall i :: 0 <= i < s.compact && Live(s', i) ==> Live(s, i)
    requires forall i :: s'.head <= i < s.compact && Live(s', i) && Moving(s, i) ==> Moving(s', i)
    ensures Steady(s')
  {
    hide Start, Loose, Live, Moving;
    LooseBounds(s);
    forall k: nat, m: nat | IsMove(s', k, m)
      ensures CopyAhead(s', s'.jobs[k].last, MoveAt(s', k, m))
    {
      JobPlaces(s', k, m);
      var i: nat, n: nat :| IsMove(s, i, n) && s.jobs[i].last == s'.jobs[k].last && MoveAt(s, i, n) == MoveAt(s', k, m);
      assert CopyAhead(s, s.jobs[i].last, MoveAt(s, i, n));
    }
    assert Swept(s');
  }

  /** The same with the same jobs. */
  lemma SameMoves(s: Store, s': Store)
    requires s'.jobs == s.jobs
    ensures forall k: nat, m: nat :: IsMove(s', k, m) ==> Known(s, s'.jobs[k].last, MoveAt(s', k, m))
    ensures forall i :: Moving(s, i) ==> Moving(s', i)
  {
    forall k: nat, m: nat | IsMove(s', k, m)
      ensures Known(s, s'.jobs[k].last, MoveAt(s', k, m))
    {
      assert IsMove(s, k, m) && MoveAt(s, k, m) == MoveAt(s', k, m);
    }
    forall i | Moving(s, i)
      ensures Moving(s', i)
    {
      var k: nat, m: nat :| IsMove(s, k, m) && MoveAt(s, k, m).src == i;
      assert IsMove(s', k, m) && MoveAt(s', k, m).src == i;
    }
  }

  lemma CommitPutSteady(s: Store, id: nat)
    requires Inv(s) && Steady(s) && Enabled(s, CommitPut(id))
    ensures Loose(Next(s, CommitPut(id))) && Steady(Next(s, CommitPut(id)))
  {
    hide Start, JobOk, Moving, Known;
    StepCommitPut(s, id);
    var s' := Next(s, CommitPut(id));
    SameMoves(s, s');
    FewerLive(s, s');
  }

  lemma CommitMoveSteady(s: Store, j: nat)
    requires Loose(s) && Steady(s) && Enabled(s, CommitMove(j))
    ensures Loose(Next(s, CommitMove(j))) && Steady(Next(s, CommitMove(j)))
  {
    hide Start, JobOk, MoveOk, Void, Loose, Known, Moving;
    StepCommitMove(s, j);
    var s' := Next(s, CommitMove(j));
    LooseBounds(s);
    CommitMoveLive(s, j);
    forall k: nat, m: nat | IsMove(s', k, m)
      ensures Known(s, s'.jobs[k].last, MoveAt(s', k, m))
    {
      MoveWasKnown(s, s', j, k, m);
    }
    forall i | s'.head <= i < s.compact && Live(s', i) && Moving(s, i)
      ensures Moving(s', i)
    {
      StillMoving(s, j, i);
    }
    FewerLive(s, s');
  }

  lemma MoveWasKnown(s: Store, s': Store, j: nat, k: nat, m: nat)
    requires j < |s.jobs| && s.jobs[j].moves != [] && s'.jobs == s.jobs[j := s.jobs[j].(moves := s.jobs[j].moves[1..])]
    requires IsMove(s', k, m)
    ensures Known(s, s'.jobs[k].last, MoveAt(s', k, m))
  {
    var n := if k == j then m + 1 else m;
    assert IsMove(s, k, n) && MoveAt(s, k, n) == MoveAt(s', k, m);
  }

  lemma CommitMoveLive(s: Store, j: nat)
    requires Loose(s) && CopiesAhead(s) && Enabled(s, CommitMove(j))
    ensures var s' := Next(s, CommitMove(j));
      s.compact <= |s'.log| && forall i :: 0 <= i < s.compact && Live(s', i) ==> Live(s, i)
  {
    hide Start, JobOk, Void;
    MoveFacts(s, j);
    var v := s.jobs[j].moves[0];
    assert IsMove(s, j, 0) && MoveAt(s, j, 0) == v;
    assert CopyAhead(s, s.jobs[j].last, v);
  }

  lemma StillMoving(s: Store, j: nat, i: nat)
    requires Loose(s) && Enabled(s, CommitMove(j)) && i < s.compact && Live(Next(s, CommitMove(j)), i) && Moving(s, i)
    ensures Moving(Next(s, CommitMove(j)), i)
  {
    hide Start, JobOk, MoveOk, Void, Loose;
    var s' := Next(s, CommitMove(j));
    var k: nat, m: nat :| IsMove(s, k, m) && MoveAt(s, k, m).src == i;
    MovedIsDead(s, j);
    var n := if k == j then m - 1 else m;
    assert IsMove(s', k, n) && MoveAt(s', k, n).src == i;
  }

  /** The source of a committed move is dead. */
  lemma MovedIsDead(s: Store, j: nat)
    requires Loose(s) && Enabled(s, CommitMove(j))
    ensures var s', v := Next(s, CommitMove(j)), s.jobs[j].moves[0]; v.src < |s.log| && !Live(s', v.src)
  {
    hide Start, JobOk;
    MoveFacts(s, j);
  }

  lemma FinishSteady(s: Store, j: nat)
    requires Loose(s) && Steady(s) && Enabled(s, FinishJob(j))
    ensures Loose(Next(s, FinishJob(j))) && Steady(Next(s, FinishJob(j)))
  {
    hide Start, JobOk, MoveOk, Void, Without;
    StepFinishJob(s, j);
    var s' := Next(s, FinishJob(j));
    WithoutSize(s.jobs, j);
    forall k: nat, m: nat | IsMove(s', k, m)
      ensures Known(s, s'.jobs[k].last, MoveAt(s', k, m))
    {
      WithoutAt(s.jobs, j, k);
      var i := if k < j then k else k + 1;
      assert IsMove(s, i, m) && MoveAt(s, i, m) == MoveAt(s', k, m);
    }
    forall i | s'.head <= i < s.compact && Live(s', i) && Moving(s, i)
      ensures Moving(s', i)
    {
      var k: nat, m: nat :| IsMove(s, k, m) && MoveAt(s, k, m).src == i;
      var n := if k < j then k else k - 1;
      WithoutAt(s.jobs, j, n);
      assert IsMove(s', n, m) && MoveAt(s', n, m).src == i;
    }
    FewerLive(s, s');
  }

  lemma MoveHeadSteady(s: Store)
    requires Loose(s) && Steady(s)
    ensures Loose(Next(s, MoveHead)) && Steady(Next(s, MoveHead))
  {
    hide Start, JobOk, MoveOk, Void, Moving, Known;
    StepMoveHead(s);
    SameMoves(s, Next(s, MoveHead));
    FewerLive(s, Next(s, MoveHead));
  }

  lemma AbortSteady(s: Store, id: nat)
    requires Loose(s) && Steady(s) && Enabled(s, AbortPut(id))
    ensures Loose(Next(s, AbortPut(id))) && Steady(Next(s, AbortPut(id)))
  {
    hide Start, JobOk, MoveOk, Void, Moving, Known;
    StepAbortPut(s, id);
    SameMoves(s, Next(s, AbortPut(id)));
    FewerLive(s, Next(s, AbortPut(id)));
  }

  // ----- runs of the code -----

  /** Compaction starts when the code starts it. */
  ghost predicate CodeEnabled(s: Store, e: Event)
    requires Loose(s)
  {
    Enabled(s, e) && (e.CompactStart? ==> Wants(s))
  }

  ghost predicate CodeRun(s: Store, es: seq<Event>, s': Store)
    decreases |es|
  {
    if es == [] then s == s'
    else Loose(s) && CodeEnabled(s, es[0]) && CodeRun(Next(s, es[0]), es[1..], s')
  }

  lemma StepKeepsSteady(s: Store, e: Event)
    requires Inv(s) && Steady(s) && CodeEnabled(s, e)
    ensures Inv(Next(s, e)) && Steady(Next(s, e))
  {
    hide Start, Loose, Steady, NoneUncommittedBefore;
    StepKeepsInv(s, e);
    match e
    case AppendPut(c) => AppendSteady(s, c);
    case CommitPut(id) => CommitPutSteady(s, id);
    case AbortPut(id) => AbortSteady(s, id);
    case CompactStart => CompactSteady(s);
    case CommitMove(j) => CommitMoveSteady(s, j);
    case FinishJob(j) => FinishSteady(s, j);
    case MoveHead => MoveHeadSteady(s);
  }

  lemma {:induction false} CodeRunKeepsSteady(s: Store, es: seq<Event>, s': Store)
    requires Inv(s) && Steady(s) && CodeRun(s, es, s')
    ensures Inv(s') && Steady(s')
    decreases |es|
  {
    hide Steady, Loose, Enabled, NoneUncommittedBefore;
    if es != [] {
      StepKeepsSteady(s, es[0]);
      CodeRunKeepsSteady(Next(s, es[0]), es[1..], s');
    }
  }

  function Fresh(size: nat): Store { Store(size, [], 0, 0, map[], map[], []) }

  lemma FreshSteady(size: nat)
    requires size >= MIN_SIZE
    ensures Inv(Fresh(size)) && Steady(Fresh(size))
  {
    FreshStore(size);
  }

  /** In every run, once a compaction has started, every head move leaves at least
      the blocks the prefetch ring holds: what the ring relies on. */
  lemma HeadMoveLeavesWindow(size: nat, es: seq<Event>, s: Store)
    requires size >= MIN_SIZE && CodeRun(Fresh(size), es, s) && s.compact > 0
    ensures Inv(s) && Tail(s) - Start(s.log, NextHead(s, s.head)) >= WINDOW
  {
    hide CodeRun;
    FreshSteady(size);
    CodeRunKeepsSteady(Fresh(size), es, s);
    StartMonotone(s.log, NextHead(s, s.head), s.compact);
  }

  // ----- passing an uncommitted chain -----

  lemma {:induction false} RunMore(s: Store, es: seq<Event>, m: Store, fs: seq<Event>, s': Store)
    requires Run(s, es, m) && Run(m, fs, s')
    ensures Run(s, es + fs, s')
    decreases |es|
  {
    hide Loose, Enabled;
    var gs := es + fs;
    if es == [] {
      assert gs == fs;
    } else {
      assert gs[0] == es[0] && gs[1..] == es[1..] + fs;
      RunMore(Next(s, es[0]), es[1..], m, fs, s');
    }
  }

  lemma RunOne(s: Store, e: Event)
    requires Loose(s) && Enabled(s, e)
    ensures Run(s, [e], Next(s, e))
  {
    hide Loose, Enabled;
    assert [e][1..] == [];
    assert Run(Next(s, e), [], Next(s, e));
  }

  function MovesLeft(js: seq<Job>): nat {
    if js == [] then 0 else |js[0].moves| + MovesLeft(js[1..])
  }

  lemma {:induction false} OneMoveLess(js: seq<Job>, j: nat, x: Job)
    requires j < |js| && |x.moves| + 1 == |js[j].moves|
    ensures MovesLeft(js[j := x]) + 1 == MovesLeft(js)
  {
    var t := js[j := x];
    if j == 0 {
      assert t[1..] == js[1..];
    } else {
      assert t[1..] == js[1..][j - 1 := x];
      OneMoveLess(js[1..], j - 1, x);
    }
  }

  lemma {:induction false} SomeMoveLeft(js: seq<Job>) returns (j: nat)
    requires MovesLeft(js) > 0
    ensures j < |js| && js[j].moves != []
  {
    if js[0].moves != [] { j := 0; } else {
      j := SomeMoveLeft(js[1..]);
      j := j + 1;
    }
  }

  lemma {:induction false} NoMoveLeft(js: seq<Job>, k: nat)
    requires MovesLeft(js) == 0 && k < |js|
    ensures js[k].moves == []
  {
    if k > 0 { NoMoveLeft(js[1..], k - 1); }
  }

  /** All outstanding moves can be committed, one after the other. */
  lemma {:induction false} DrainAll(s: Store) returns (es: seq<Event>, s': Store)
    requires Loose(s) && Steady(s)
    ensures Run(s, es, s') && Loose(s') && Steady(s') && MovesLeft(s'.jobs) == 0
    ensures s'.log == s.log && s'.puts == s.puts && s'.compact == s.compact
    decreases MovesLeft(s.jobs)
  {
    hide Loose, Steady;
    if MovesLeft(s.jobs) == 0 {
      es, s' := [], s;
    } else {
      var j := SomeMoveLeft(s.jobs);
      CommitMoveSteady(s, j);
      var t := Next(s, CommitMove(j));
      OneMoveLess(s.jobs, j, t.jobs[j]);
      RunOne(s, CommitMove(j));
      var fs;
      fs, s' := DrainAll(t);
      RunMore(s, [CommitMove(j)], t, fs, s');
      es := [CommitMove(j)] + fs;
    }
  }

  /** With no move left nothing lives in front of the compaction head, and the
      head goes there. */
  lemma HeadReaches(s: Store)
    requires Loose(s) && Steady(s) && MovesLeft(s.jobs) == 0
    ensures NextHead(s, s.head) == s.compact
  {
    hide Start, JobOk;
    forall i | s.head <= i < s.compact
      ensures !Live(s, i)
    {
      if Live(s, i) {
        var k: nat, m: nat :| IsMove(s, k, m) && MoveAt(s, k, m).src == i;
        NoMoveLeft(s.jobs, k);
        assert false;
      }
    }
  }

  /** A compaction that passes an uncommitted chain with items can lose it: the
      head moves on, and the commit leaves an index entry outside the log. */
  lemma PassedChainIsLost(s: Store, id: nat) returns (es: seq<Event>, s': Store)
    requires Loose(s) && Steady(s) && Wants(s) && CanCompact(s)
    requires id in s.puts && s.puts[id] < CompactEnd(s.log, s.compact, s.compact) && !Void(s.log[s.puts[id]])
    ensures Run(DoCompactStart(s), es, s') && id in s'.at && s'.at[id] < s'.head
  {
    hide Steady, CanCompact, Wants, Run, Loose, Next, Void;
    CompactSteady(s);
    var s1 := DoCompactStart(s);
    var fs, s2 := DrainAll(s1);
    ReadyPut(s, s2, id);
    s' := LateCommit(s2, id);
    RunMore(s1, fs, s2, [MoveHead] + [CommitPut(id)], s');
    es := fs + ([MoveHead] + [CommitPut(id)]);
  }

  lemma ReadyPut(s: Store, s': Store, id: nat)
    requires Loose(s) && id in s.puts && s.puts[id] < CompactEnd(s.log, s.compact, s.compact)
    requires s'.log == DoCompactStart(s).log && s'.puts == s.puts
    ensures s.puts[id] < |s'.log| && s'.log[s.puts[id]] == s.log[s.puts[id]]
  {
    hide Start, JobOk, Void;
  }

  /** The head moves to the compaction head, and then the commit comes. */
  lemma LateCommit(s: Store, id: nat) returns (s': Store)
    requires Loose(s) && Steady(s) && MovesLeft(s.jobs) == 0
    requires id in s.puts && s.puts[id] < s.compact && s.puts[id] < |s.log| && !Void(s.log[s.puts[id]])
    ensures Run(s, [MoveHead] + [CommitPut(id)], s') && id in s'.at && s'.at[id] < s'.head
  {
    hide Steady, Run, Loose, Void, Start;
    HeadReaches(s);
    StepMoveHead(s);
    var t := Next(s, MoveHead);
    RunOne(s, MoveHead);
    s' := Next(t, CommitPut(id));
    RunOne(t, CommitPut(id));
    RunMore(s, [MoveHead], t, [CommitPut(id)], s');
  }

  /** A compaction is safe if and only if no chain with items in the stretch it
      reads is written and not committed: then, and only then, every continuation
      keeps every index entry inside the log. */
  lemma CompactionSafeIff(s: Store)
    requires Inv(s) && Steady(s) && Wants(s) && CanCompact(s)
    ensures (forall es, s' :: Run(DoCompactStart(s), es, s') ==> IndexInside(s')) <==>
      NoneUncommittedBefore(s, CompactEnd(s.log, s.compact, s.compact))
  {
    hide Start, JobOk, Steady, CanCompact, Wants, Contents, Run;
    var e := CompactEnd(s.log, s.compact, s.compact);
    if NoneUncommittedBefore(s, e) {
      StepCompactStart(s);
      forall es, s' | Run(DoCompactStart(s), es, s')
        ensures IndexInside(s')
      {
        RunRefinesMap(DoCompactStart(s), es, s');
      }
    } else {
      var id :| id in s.puts && s.puts[id] < |s.log| && s.puts[id] < e && !Void(s.log[s.puts[id]]);
      var es, s' := PassedChainIsLost(s, id);
      assert !IndexInside(s');
    }
  }

  // ----- such a state is reached -----

  const FILLER: Chain := Chain(0, seq(MAX_CHAIN, _ => []))

  /** `c` written and not committed, then `n` chains written and given up. */
  function Filled(c: Chain, n: nat): Store {
    Store(MIN_SIZE, [c] + seq(n, _ => FILLER), 0, 0, map[], map[c.id := 0], [])
  }

  lemma {:induction false} FilledTail(c: Chain, n: nat)
    ensures Tail(Filled(c, n)) == Len(c) + MAX_CHAIN * n
    ensures forall i :: 0 <= i < |Filled(c, n).log| ==> Filled(c, n).log[i] == if i == 0 then c else FILLER
  {
    var log := Filled(c, n).log;
    if n == 0 {
      assert log == [c];
      OneChain(c);
    } else {
      FilledTail(c, n - 1);
      var init := Filled(c, n - 1).log;
      assert log == init + [FILLER];
      TailAppend(init, [FILLER]);
      OneChain(FILLER);
    }
  }

  lemma FilledOk(c: Chain, n: nat)
    requires ValidChain(c) && c.id != 0 && n <= 200
    ensures Inv(Filled(c, n)) && HasRoom(Filled(c, n), MAX_CHAIN) && SparesSources(Filled(c, n), MAX_CHAIN)
  {
    FilledTail(c, n);
  }

  lemma {:induction false} CodeRunMore(s: Store, es: seq<Event>, m: Store, fs: seq<Event>, s': Store)
    requires CodeRun(s, es, m) && CodeRun(m, fs, s')
    ensures CodeRun(s, es + fs, s')
    decreases |es|
  {
    hide Loose, Enabled;
    var gs := es + fs;
    if es == [] {
      assert gs == fs;
    } else {
      assert gs[0] == es[0] && gs[1..] == es[1..] + fs;
      CodeRunMore(Next(s, es[0]), es[1..], m, fs, s');
    }
  }

  lemma CodeRunOne(s: Store, e: Event)
    requires Loose(s) && CodeEnabled(s, e)
    ensures CodeRun(s, [e], Next(s, e))
  {
    hide Loose, Enabled;
    assert [e][1..] == [];
    assert CodeRun(Next(s, e), [], Next(s, e));
  }

  /** One more chain written and given up. */
  lemma FillOne(c: Chain, n: nat)
    requires ValidChain(c) && c.id != 0 && n < 200
    ensures CodeRun(Filled(c, n), [AppendPut(FILLER)] + [AbortPut(0)], Filled(c, n + 1))
  {
    hide CodeRun, Start;
    FilledOk(c, n);
    var s := Filled(c, n);
    StepAppendPut(s, FILLER);
    var t := Next(s, AppendPut(FILLER));
    CodeRunOne(s, AppendPut(FILLER));
    CodeRunOne(t, AbortPut(0));
    assert t.puts - {0} == s.puts;
    assert s.log + [FILLER] == Filled(c, n + 1).log;
    assert Next(t, AbortPut(0)) == Filled(c, n + 1);
    CodeRunMore(s, [AppendPut(FILLER)], t, [AbortPut(0)], Filled(c, n + 1));
  }

  lemma {:induction false} FillMany(c: Chain, n: nat) returns (es: seq<Event>)
    requires ValidChain(c) && c.id != 0 && n <= 200
    ensures CodeRun(Fresh(MIN_SIZE), es, Filled(c, n))
  {
    hide CodeRun, Filled, Enabled, Loose;
    if n == 0 {
      FirstPut(c);
      es := [AppendPut(c)];
    } else {
      var fs := FillMany(c, n - 1);
      FillOne(c, n - 1);
      CodeRunMore(Fresh(MIN_SIZE), fs, Filled(c, n - 1), [AppendPut(FILLER)] + [AbortPut(0)], Filled(c, n));
      es := fs + ([AppendPut(FILLER)] + [AbortPut(0)]);
    }
  }

  lemma FirstPut(c: Chain)
    requires ValidChain(c) && c.id != 0
    ensures CodeRun(Fresh(MIN_SIZE), [AppendPut(c)], Filled(c, 0))
  {
    var s := Fresh(MIN_SIZE);
    FreshSteady(MIN_SIZE);
    CodeRunOne(s, AppendPut(c));
    assert Next(s, AppendPut(c)).log == Filled(c, 0).log;
  }

  /** The failure is real: from an empty log, a put that stays uncommitted while
      162 others are given up is passed by the first compaction and lost, whatever
      its chain. */
  lemma UncommittedPutIsLost(c: Chain) returns (es: seq<Event>, s: Store, fs: seq<Event>, s': Store)
    requires ValidChain(c) && !Void(c) && c.id != 0
    ensures CodeRun(Fresh(MIN_SIZE), es, s) && Inv(s) && Wants(s) && CanCompact(s)
    ensures Run(DoCompactStart(s), fs, s') && c.id in s'.at && s'.at[c.id] < s'.head
  {
    hide CodeRun, Run, Start, Steady;
    es := FillMany(c, 162);
    s := Filled(c, 162);
    FreshSteady(MIN_SIZE);
    CodeRunKeepsSteady(Fresh(MIN_SIZE), es, s);
    FilledTail(c, 162);
    FilledWants(c);
    fs, s' := PassedChainIsLost(s, c.id);
  }

  lemma {:induction false} NothingLives(s: Store, i: nat, e: nat)
    requires s.at == map[] && i <= e <= |s.log|
    ensures LiveFrom(s, i, e) == []
    decreases e - i
  {
    if i < e { NothingLives(s, i + 1, e); }
  }

  lemma FilledWants(c: Chain)
    requires ValidChain(c) && Inv(Filled(c, 162))
    ensures var s := Filled(c, 162); Wants(s) && CanCompact(s) && CompactEnd(s.log, s.compact, s.compact) > 0
  {
    var s := Filled(c, 162);
    FilledTail(c, 162);
    EnoughToCompact(s);
    var e := CompactEnd(s.log, 0, 0);
    NothingLives(s, 0, e);
    assert Total(Copies(s.log, [])) == 0;
  }
}
