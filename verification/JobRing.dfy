/** The in-order ring of 128 jobs on top of the out-of-order units
    (mb_mgr_code.h:46-60, 1469-1659). */
module JobRing {
  import opened SeqOps
  import opened WrapMath
  import opened JobPhases

  const MAX_JOBS: nat := 128

  /** ADV_JOBS. */
  function Advance(offset: nat): (r: nat)
    ensures r < MAX_JOBS
  {
    if offset + 1 >= MAX_JOBS then 0 else offset + 1
  }

  /** The queue takes the slots from `earliest` up to `next`, in order. */
  ghost predicate Circle(queue: seq<nat>, earliest: nat, next: nat) {
    && 0 < |queue| <= MAX_JOBS && earliest < MAX_JOBS
    && next == Wrap(earliest + |queue|, MAX_JOBS)
    && forall i :: 0 <= i < |queue| ==> queue[i] == Wrap(earliest + i, MAX_JOBS)
  }

  ghost predicate Ring(queue: seq<nat>, earliest: int, next: nat) {
    && next < MAX_JOBS
    && if earliest < 0 then queue == [] && earliest == -1 else |queue| < MAX_JOBS && Circle(queue, earliest, next)
  }

  ghost function Slots(queue: seq<nat>): set<nat> {
    set i | 0 <= i < |queue| :: queue[i]
  }

  class MbMgr {
    var jobs: seq<Job>
    var next: nat
    var earliest: int
    var managers: Places
    ghost var queue: seq<nat>            // slots of the jobs inside, oldest first
    ghost var submitted: seq<Desc>
    ghost var returned: nat
    ghost var checks: seq<bool>          // which submissions were checked
    ghost var served: seq<seq<bool>>     // by slot: the sides that have served its job

    /** The oldest job inside is the first one not returned yet. */
    ghost predicate InOrder()
      reads this
    {
      && |jobs| == MAX_JOBS
      && |submitted| == returned + |queue|
      && (forall i :: 0 <= i < |queue| ==> queue[i] < MAX_JOBS && jobs[queue[i]].desc == submitted[returned + i])
      && (forall k :: 0 <= k < |submitted| ==> Orderly(submitted[k]))
      && |checks| == |submitted| && |served| == MAX_JOBS
      && (forall i :: 0 <= i < |queue| ==> Told(jobs[queue[i]], served[queue[i]], checks[returned + i]))
    }

    ghost predicate Valid()
      reads this
    {
      && InOrder()
      && Ring(queue, earliest, next)
      && Coherent(jobs, managers, Slots(queue), None)
    }

    /** Slot `s` has the `k`-th job submitted, and it is finished: refused if and only if
        it was checked and is invalid, failed, or completed by both of its units. */
    ghost predicate Finished(s: nat, k: nat)
      reads this
    {
      && s < |jobs| == |served| && k < |submitted| == |checks|
      && jobs[s].desc == submitted[k] && jobs[s].status >= COMPLETED && Told(jobs[s], served[s], checks[k])
    }

    /** Descriptors stay where they are while units work. */
    twostate predicate Kept()
      reads this
    {
      && |jobs| == |old(jobs)|
      && forall s :: 0 <= s < |jobs| ==> jobs[s].desc == old(jobs)[s].desc
    }

    /** Statuses stay true while units work. */
    twostate predicate Truthful()
      reads this
    {
      && |served| == |old(served)| == |jobs| == |old(jobs)|
      && forall s, c :: 0 <= s < |jobs| && Told(old(jobs)[s], old(served)[s], c) ==> Told(jobs[s], served[s], c)
    }

    constructor ()
      ensures Valid() && submitted == [] && returned == 0
    {
      jobs := seq(MAX_JOBS, _ => Job(Desc(AtOnce(Nothing), AtOnce(Nothing), true, false, false), COMPLETED));
      next, earliest, managers := 0, -1, map[];
      queue, submitted, returned := [], [], 0;
      checks, served := [], seq(MAX_JOBS, _ => []);
    }

    /** An out-of-order manager gives back one of its jobs. */
    method TakeOne(p: Place) returns (s: nat)
      requires Coherent(jobs, managers, Slots(queue), None) && Held(managers, p) != multiset{} && |served| == |jobs|
      modifies this`jobs, this`managers, this`served
      ensures s < |jobs| && Coherent(jobs, managers, Slots(queue), Some(s)) && s in Held(old(managers), p)
      ensures jobs == old(jobs)[s := After(old(jobs)[s], p.0)] && managers == Drop(old(managers), p, s)
      ensures Work(jobs) < Work(old(jobs)) && Kept() && Truthful()
    {
      hide Coherent, Work, After, Told, NeedsHash, InPhase;
      s :| s in Held(managers, p);
      LiveInPhase(jobs, managers, Slots(queue), s, p);
      DropKeeps(jobs, managers, Slots(queue), s, p);
      AllServedTold(jobs[s], served[s]);
      AfterKeepsDesc(jobs[s], p.0);
      managers := Drop(managers, p, s);
      jobs := jobs[s := After(jobs[s], p.0)];
      served := served[s := served[s] + [p.0]];
    }

    /** SUBMIT_JOB_AES and SUBMIT_JOB_HASH for a job that needs that side. */
    method SubmitUnit(s: nat) returns (r: Option<nat>)
      requires Coherent(jobs, managers, Slots(queue), Some(s)) && s < |jobs| == |served| && jobs[s].status < COMPLETED
      modifies this`jobs, this`managers, this`served
      ensures Coherent(jobs, managers, Slots(queue), r) && Kept() && Truthful()
      ensures r.Some? ==> r.value < |jobs| && Work(jobs) < Work(old(jobs))
      ensures r.None? ==> jobs == old(jobs)
    {
      hide Coherent, Work, Needs, NeedsHash, Told, InPhase, After;
      InHandInPhase(jobs, managers, Slots(queue), s);
      var hash := NeedsHash(jobs[s]);
      match Needs(jobs[s])
      case OutOfOrder(id) =>
        PutKeeps(jobs, managers, Slots(queue), s, (hash, id));
        managers := Put(managers, (hash, id), s);
        if * {
          r := None;
        } else {
          assert s in Held(managers, (hash, id));
          var back := TakeOne((hash, id));
          r := Some(back);
        }
      case AtOnce(flushing) =>
        var j := After(jobs[s], hash);
        AfterKeepsDesc(jobs[s], hash);
        AllServedTold(jobs[s], served[s]);
        ghost var sides := served[s] + [hash];
        if * {
          if flushing == Itself {
            AllFailedTold(jobs[s], served[s]);
            j, sides := jobs[s].(status := INTERNAL_ERROR), served[s];
          }
        }
        ServeKeeps(jobs, managers, Slots(queue), s, j);
        jobs := jobs[s := j];
        served := served[s := sides];
        r := Some(s);
    }

    /** RESUBMIT_JOB, until a unit keeps the job or one is finished. */
    method Resubmit(j: Option<nat>) returns (r: Option<nat>)
      requires Coherent(jobs, managers, Slots(queue), j) && (j.Some? ==> j.value < |jobs|) && |served| == |jobs|
      modifies this`jobs, this`managers, this`served
      ensures Coherent(jobs, managers, Slots(queue), None) && Kept() && Truthful()
      ensures Work(jobs) <= Work(old(jobs))
    {
      hide Coherent, Work, Told;
      r := j;
      while r.Some? && jobs[r.value].status < COMPLETED
        invariant Coherent(jobs, managers, Slots(queue), r) && (r.Some? ==> r.value < |jobs|)
        invariant Kept() && Truthful() && Work(jobs) <= Work(old(jobs))
        decreases Work(jobs), if r.Some? then 1 else 0
      {
        r := SubmitUnit(r.value);
      }
      if r.Some? { ReleaseKeeps(jobs, managers, Slots(queue), r.value); }
    }

    /** FLUSH_JOB_AES and FLUSH_JOB_HASH.  A unit that redoes its work gives back the
        job itself, wherever it is; all others keep the managers in order. */
    method FlushUnit(s: nat, hash: bool) returns (r: Option<nat>)
      requires Coherent(jobs, managers, Slots(queue), None) && s < |jobs| == |served|
      modifies this`jobs, this`managers, this`served
      ensures FlushGives(old(jobs), old(managers), s, hash, r, jobs, managers) && Kept() && |served| == |jobs|
      ensures Side(jobs[s].desc, hash) != AtOnce(Itself) ==> Coherent(jobs, managers, Slots(queue), r) && Truthful()
      ensures Side(jobs[s].desc, hash) != AtOnce(Itself) && r.Some? ==> r.value < |jobs| && Work(jobs) < Work(old(jobs))
    {
      hide Coherent, Work, After, Told;
      var unit := Side(jobs[s].desc, hash);
      if unit == AtOnce(Itself) {
        jobs := jobs[s := After(jobs[s], hash)];
        served := served[s := served[s] + [hash]];
        AfterKeepsDesc(old(jobs)[s], hash);
        return Some(s);
      }
      if unit == AtOnce(Nothing) {
        return None;
      }
      var id := if unit.OutOfOrder? then unit.id else unit.flushing.id;
      if Held(managers, (hash, id)) == multiset{} {
        return None;
      }
      var back := TakeOne((hash, id));
      r := Some(back);
    }

    /** complete_job: flushes the units of job `s` until it is finished. */
    method CompleteJob(s: nat)
      requires Coherent(jobs, managers, Slots(queue), None) && s in Slots(queue) && s < |jobs| == |served|
      requires Orderly(jobs[s].desc)
      modifies this`jobs, this`managers, this`served
      ensures Coherent(jobs, managers, Slots(queue), None) && Kept() && Truthful() && s < |jobs|
      ensures jobs[s].status >= COMPLETED
    {
      hide Coherent, Work, After, Orderly, Told;
      var hashFirst := !jobs[s].desc.cipherFirst;
      while jobs[s].status < COMPLETED
        invariant Coherent(jobs, managers, Slots(queue), None) && Kept() && Truthful() && s < |jobs|
        decreases Work(jobs)
      {
        CanFlush(jobs, managers, Slots(queue), s);
        var tmp := FlushUnit(s, hashFirst);
        if tmp.None? {
          tmp := FlushUnit(s, !hashFirst);
        }
        var _ := Resubmit(tmp);
      }
    }

    /** complete_job of the oldest job. */
    method CompleteOldest(s: nat)
      requires InOrder() && Coherent(jobs, managers, Slots(queue), None) && queue != [] && s == queue[0]
      modifies this`jobs, this`managers, this`served
      ensures InOrder() && Coherent(jobs, managers, Slots(queue), None) && jobs[queue[0]].status >= COMPLETED
    {
      hide Coherent, Told, Orderly;
      CompleteJob(s);
    }

    /** The next slot takes a job, refused if it is checked and invalid. */
    method Accept(d: Desc, runCheck: bool) returns (refused: bool)
      requires Valid() && Orderly(d)
      modifies this`jobs, this`queue, this`submitted, this`checks, this`served
      ensures InOrder() && next < |jobs| && Coherent(jobs, managers, Slots(queue), Some(next))
      ensures queue == old(queue) + [next] && submitted == old(submitted) + [d] && checks == old(checks) + [runCheck]
      ensures refused <==> jobs[next].status >= COMPLETED
    {
      hide Coherent, Circle, Slots, InPhase, Orderly, Told;
      FreeSlot(queue, earliest, next);
      refused := runCheck && d.invalid;
      FreshJob(d, refused);
      AddKeeps(jobs, managers, Slots(queue), next, NewJob(d, refused));
      SlotsAppend(queue, next);
      NotQueued(queue, next);
      NewTold(d, runCheck);
      jobs := jobs[next := NewJob(d, refused)];
      queue, submitted := queue + [next], submitted + [d];
      checks, served := checks + [runCheck], served[next := []];
    }

    /** A new job, and its first unit starts on it (mb_mgr_code.h:1532-1543). */
    method Start(d: Desc, runCheck: bool)
      requires Valid() && Orderly(d)
      modifies this`jobs, this`managers, this`queue, this`submitted, this`checks, this`served
      ensures InOrder() && Coherent(jobs, managers, Slots(queue), None)
      ensures queue == old(queue) + [next] && submitted == old(submitted) + [d] && checks == old(checks) + [runCheck]
    {
      hide Coherent, Slots, Orderly, Told, Ring;
      var refused := Accept(d, runCheck);
      if refused {
        ReleaseKeeps(jobs, managers, Slots(queue), next);
      } else {
        var _ := Resubmit(Some(next));
      }
    }

    /** submit_job_and_check, the job in the next slot being described by `d`.
        A job that comes back is the oldest one inside, finished. */
    method SubmitJobAndCheck(d: Desc, runCheck: bool) returns (r: Option<nat>)
      requires Valid() && Orderly(d)
      modifies this
      ensures Valid() && submitted == old(submitted) + [d] && checks == old(checks) + [runCheck]
      ensures r.None? ==> returned == old(returned)
      ensures r.None? <==> old(queue) == [] || (|queue| > |old(queue)| && jobs[queue[0]].status < COMPLETED)
      ensures r.Some? ==> returned == old(returned) + 1 && Finished(r.value, old(returned))
    {
      hide Coherent, Circle, Slots, Orderly, Distinct, Advance, Told;
      ghost var was := queue;
      if earliest >= 0 { CircleFacts(queue, earliest, next); }
      Start(d, runCheck);
      RingGrows(was, earliest, next);
      CircleFacts(queue, if earliest < 0 then next else earliest, Advance(next));
      if earliest < 0 {
        earliest := next;
        next := Advance(next);
        return None;
      }
      next := Advance(next);
      if earliest == next {
        CompleteOldest(earliest);
        var job := ReturnOldest();
        return Some(job);
      }
      if jobs[earliest].status < COMPLETED {
        return None;
      }
      var job := ReturnOldest();
      return Some(job);
    }

    /** The oldest job, finished, leaves a ring with others in it. */
    method ReturnOldest() returns (job: nat)
      requires InOrder() && Coherent(jobs, managers, Slots(queue), None) && |queue| > 1
      requires earliest >= 0 && Circle(queue, earliest, next) && earliest < |jobs| && jobs[earliest].status >= COMPLETED
      modifies this`earliest, this`queue, this`returned
      ensures Valid() && queue == old(queue)[1..] && returned == old(returned) + 1
      ensures job == old(earliest) && Finished(job, old(returned))
    {
      hide Coherent, Circle, Slots, Told, Orderly;
      CircleFacts(queue, earliest, next);
      CircleShrinks(queue, earliest, next);
      NextBelow(queue, earliest, next);
      job := earliest;
      Retire(job);
      earliest := Advance(earliest);
    }

    /** FLUSH_JOB: NULL exactly when the ring is empty. */
    method FlushJob() returns (r: Option<nat>)
      requires Valid()
      modifies this
      ensures Valid() && submitted == old(submitted) && checks == old(checks)
      ensures r.None? <==> |old(submitted)| == old(returned)
      ensures r.None? ==> returned == old(returned)
      ensures r.Some? ==> returned == old(returned) + 1 && Finished(r.value, old(returned))
    {
      hide Coherent, Slots, Circle, Told, Orderly;
      if earliest < 0 {
        return None;
      }
      var job := earliest;
      CircleFacts(queue, earliest, next);
      CircleShrinks(queue, earliest, next);
      CompleteOldest(job);
      Retire(job);
      earliest := Advance(earliest);
      if earliest == next {
        earliest := -1;
      }
      r := Some(job);
    }

    /** GET_COMPLETED_JOB: the oldest job, if it is finished. */
    method GetCompletedJob() returns (r: Option<nat>)
      requires Valid()
      modifies this
      ensures Valid() && submitted == old(submitted) && checks == old(checks) && jobs == old(jobs)
      ensures r.None? <==> old(queue) == [] || jobs[old(queue)[0]].status < COMPLETED
      ensures r.None? ==> returned == old(returned)
      ensures r.Some? ==> returned == old(returned) + 1 && Finished(r.value, old(returned))
    {
      hide Coherent, Slots, Circle, Told, Orderly;
      if earliest < 0 {
        return None;
      }
      var job := earliest;
      CircleFacts(queue, earliest, next);
      CircleShrinks(queue, earliest, next);
      if jobs[job].status < COMPLETED {
        return None;
      }
      Retire(job);
      earliest := Advance(earliest);
      if earliest == next {
        earliest := -1;
      }
      r := Some(job);
    }

    /** QUEUE_SIZE: the jobs submitted and not returned, always fewer than 128. */
    method QueueSize() returns (n: nat)
      requires Valid()
      ensures n == |submitted| - returned < MAX_JOBS
    {
      if earliest < 0 {
        return 0;
      }
      SizeByOffsets(queue, earliest, next);
      n := (next - earliest) % MAX_JOBS;
    }

    /** The oldest job leaves. */
    ghost method Retire(s: nat)
      requires InOrder() && Coherent(jobs, managers, Slots(queue), None) && queue != [] && queue[0] == s
      requires jobs[s].status >= COMPLETED && Distinct(queue)
      modifies this`queue, this`returned
      ensures InOrder() && Coherent(jobs, managers, Slots(queue), None)
      ensures queue == old(queue)[1..] && returned == old(returned) + 1
    {
      SlotsRest(queue);
      RetireKeeps(jobs, managers, Slots(queue), s);
      queue, returned := queue[1..], returned + 1;
    }
  }

  lemma AllServedTold(j: Job, served: seq<bool>)
    requires InPhase(j) && j.status < COMPLETED
    ensures forall c :: Told(j, served, c) ==> Told(After(j, NeedsHash(j)), served + [NeedsHash(j)], c)
  {
    hide Told;
    forall c | Told(j, served, c)
      ensures Told(After(j, NeedsHash(j)), served + [NeedsHash(j)], c)
    {
      ServedTold(j, served, c);
    }
  }

  lemma AllFailedTold(j: Job, served: seq<bool>)
    requires j.status < COMPLETED && Needs(j) == AtOnce(Itself)
    ensures forall c :: Told(j, served, c) ==> Told(j.(status := INTERNAL_ERROR), served, c)
  {
    hide Told;
    forall c | Told(j, served, c)
      ensures Told(j.(status := INTERNAL_ERROR), served, c)
    {
      FailedTold(j, served, c);
    }
  }

  lemma LiveInPhase(jobs: seq<Job>, at: Places, live: set<nat>, s: nat, p: Place)
    requires Coherent(jobs, at, live, None) && s in Held(at, p)
    ensures s < |jobs| && InPhase(jobs[s])
  {
    assert IsIn(jobs, live, None, s, p);
  }

  lemma InHandInPhase(jobs: seq<Job>, at: Places, live: set<nat>, s: nat)
    requires Coherent(jobs, at, live, Some(s))
    ensures s < |jobs| && InPhase(jobs[s])
  {
  }

  lemma AfterKeepsDesc(j: Job, hash: bool)
    ensures After(j, hash).desc == j.desc
  {
  }

  lemma NotQueued(queue: seq<nat>, s: nat)
    requires s !in Slots(queue)
    ensures forall i :: 0 <= i < |queue| ==> queue[i] != s
  {
  }

  function NewJob(d: Desc, bad: bool): Job { Job(d, if bad then INVALID_ARGS else BEING_PROCESSED) }

  lemma FreshJob(d: Desc, bad: bool)
    requires Orderly(d)
    ensures InPhase(NewJob(d, bad))
  {
  }

  /** Both units of an unfinished job can be flushed, and one of them is not
      empty. */
  lemma CanFlush(jobs: seq<Job>, at: Places, live: set<nat>, s: nat)
    requires Coherent(jobs, at, live, None) && s in live && s < |jobs| && jobs[s].status < COMPLETED
    requires Orderly(jobs[s].desc)
    ensures var d := jobs[s].desc; var h := NeedsHash(jobs[s]);
      && First(d) != AtOnce(Itself)
      && Side(d, h).OutOfOrder? && Held(at, (h, Side(d, h).id)) != multiset{}
      && (h != d.cipherFirst ==> First(d) == Needs(jobs[s])) && (h == d.cipherFirst ==> Second(d) == Needs(jobs[s]))
  {
    FoundInside(jobs, at, live, s);
  }

  lemma AdvanceWraps(x: nat)
    requires x < MAX_JOBS
    ensures Advance(x) == Wrap(x + 1, MAX_JOBS)
  {
    WrapSmall(0, MAX_JOBS);
    if x + 1 < MAX_JOBS { WrapSmall(x + 1, MAX_JOBS); }
  }

  lemma NextBelow(queue: seq<nat>, earliest: nat, next: nat)
    requires Circle(queue, earliest, next)
    ensures next < MAX_JOBS && |queue| <= MAX_JOBS
  {
  }

  lemma SlotsAppend(queue: seq<nat>, s: nat)
    ensures Slots(queue + [s]) == Slots(queue) + {s}
  {
    var q := queue + [s];
    assert q[|queue|] == s;
    forall x | x in Slots(queue)
      ensures x in Slots(q)
    {
      var i :| 0 <= i < |queue| && queue[i] == x;
      assert q[i] == x;
    }
  }

  lemma SlotsRest(queue: seq<nat>)
    requires queue != [] && Distinct(queue)
    ensures Slots(queue[1..]) == Slots(queue) - {queue[0]}
  {
  }

  /** No slot is taken twice, the oldest job is at `earliest`, and the ends
      meet exactly when all slots are taken. */
  lemma CircleFacts(queue: seq<nat>, earliest: nat, next: nat)
    requires Circle(queue, earliest, next)
    ensures 0 < |queue| && earliest < MAX_JOBS && Distinct(queue) && queue[0] == earliest && earliest in Slots(queue)
    ensures earliest == next <==> |queue| == MAX_JOBS
    ensures forall i :: 0 <= i < |queue| ==> queue[i] < MAX_JOBS
  {
    hide Wrap;
    WrapSmall(earliest, MAX_JOBS);
    forall i, j | 0 <= i < j < |queue|
      ensures queue[i] != queue[j]
    {
      WrappedEqual(earliest + i, earliest + j, MAX_JOBS);
    }
    if |queue| < MAX_JOBS { WrappedEqual(earliest, earliest + |queue|, MAX_JOBS); }
  }

  lemma FreeSlot(queue: seq<nat>, earliest: int, next: nat)
    requires Ring(queue, earliest, next)
    ensures next !in Slots(queue) && next < MAX_JOBS
  {
    hide Wrap;
    if earliest >= 0 {
      forall i | 0 <= i < |queue|
        ensures queue[i] != next
      {
        WrappedEqual(earliest + i, earliest + |queue|, MAX_JOBS);
      }
    }
  }

  /** The next slot joins at the end. */
  lemma RingGrows(queue: seq<nat>, earliest: int, next: nat)
    requires Ring(queue, earliest, next)
    ensures Circle(queue + [next], if earliest < 0 then next else earliest, Advance(next))
  {
    hide Wrap;
    AdvanceWraps(next);
    WrapSmall(next, MAX_JOBS);
    if earliest >= 0 { WrapAdd(earliest + |queue|, 1, MAX_JOBS); }
  }

  /** The oldest slot leaves. */
  lemma CircleShrinks(queue: seq<nat>, earliest: nat, next: nat)
    requires Circle(queue, earliest, next)
    ensures Advance(earliest) == next <==> |queue| == 1
    ensures |queue| > 1 ==> Circle(queue[1..], Advance(earliest), next)
  {
    hide Wrap;
    AdvanceWraps(earliest);
    WrappedEqual(earliest + 1, earliest + |queue|, MAX_JOBS);
    if |queue| > 1 {
      var q := queue[1..];
      forall i | 0 <= i < |q|
        ensures q[i] == Wrap(Advance(earliest) + i, MAX_JOBS)
      {
        WrapAdd(earliest + 1, i, MAX_JOBS);
      }
      WrapAdd(earliest + 1, |q|, MAX_JOBS);
    }
  }

  lemma SizeByOffsets(queue: seq<nat>, earliest: nat, next: nat)
    requires Circle(queue, earliest, next) && |queue| < MAX_JOBS
    ensures (next - earliest) % MAX_JOBS == |queue|
  {
  }
}
