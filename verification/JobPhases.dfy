/** Jobs between the cipher and hash units of the multi-buffer manager
    (mb_mgr_code.h:682-997, 1446-1516): a job is in at most one unit at a time,
    and every job a unit gives back has one phase fewer to go. */
module JobPhases {
  import opened SeqOps

  const BEING_PROCESSED: nat := 0
  const COMPLETED_AES: nat := 1
  const COMPLETED_HMAC: nat := 2
  const COMPLETED: nat := 3
  const INVALID_ARGS: nat := 4
  const INTERNAL_ERROR: nat := 5

  /** What flushing does for a job of a unit that completes jobs at once. */
  datatype Flushing =
    | Nothing                  // NULL
    | Itself                   // the job again: decryption and custom units
    | Manager(id: nat)         // an out-of-order manager the job never entered

  datatype Unit =
    | OutOfOrder(id: nat)
    | AtOnce(flushing: Flushing)

  datatype Desc = Desc(cipher: Unit, hash: Unit, cipherFirst: bool, ccm: bool, invalid: bool)

  datatype Job = Job(desc: Desc, status: nat)

  type Place = (bool, nat)                       // hash side?, manager
  type Places = map<Place, multiset<nat>>        // the slots each manager holds

  function Side(d: Desc, hash: bool): Unit { if hash then d.hash else d.cipher }

  function First(d: Desc): Unit { Side(d, !d.cipherFirst) }
  function Second(d: Desc): Unit { Side(d, d.cipherFirst) }

  /** Flushing the first unit of a job must not hand out the job while the
      second unit has it. */
  predicate Orderly(d: Desc) {
    First(d) == AtOnce(Itself) ==> Second(d).AtOnce?
  }

  function Or(a: nat, b: nat): nat {
    (if a % 2 == 1 || b % 2 == 1 then 1 else 0) + (if a / 2 % 2 == 1 || b / 2 % 2 == 1 then 2 else 0)
  }

  /** The status bits a side sets; CCM authentication also ciphers. */
  function Bits(d: Desc, hash: bool): nat {
    if !hash then COMPLETED_AES else if d.ccm then COMPLETED else COMPLETED_HMAC
  }

  function After(j: Job, hash: bool): Job {
    j.(status := Or(j.status, Bits(j.desc, hash)))
  }

  /** The side an unfinished job needs next. */
  function NeedsHash(j: Job): bool {
    j.status == COMPLETED_AES || (j.status == BEING_PROCESSED && !j.desc.cipherFirst)
  }

  function Needs(j: Job): Unit { Side(j.desc, NeedsHash(j)) }

  predicate InPhase(j: Job) {
    && (j.status == COMPLETED_AES ==> j.desc.cipherFirst)
    && (j.status == COMPLETED_HMAC ==> !j.desc.cipherFirst && !j.desc.ccm)
  }

  function Held(at: Places, p: Place): multiset<nat> {
    if p in at then at[p] else multiset{}
  }

  /** Slot `s` is in the hands of manager `p`. */
  predicate IsIn(jobs: seq<Job>, live: set<nat>, limbo: Option<nat>, s: nat, p: Place) {
    && s < |jobs|
    && s in live && limbo != Some(s) && jobs[s].status < COMPLETED
    && NeedsHash(jobs[s]) == p.0 && Needs(jobs[s]) == OutOfOrder(p.1)
  }

  function Times(b: bool): nat { if b then 1 else 0 }

  /** Every unfinished job but the one in hand is in exactly one manager, once,
      and the managers hold nothing else. */
  ghost predicate Coherent(jobs: seq<Job>, at: Places, live: set<nat>, limbo: Option<nat>) {
    && (forall s :: s in live ==> s < |jobs| && InPhase(jobs[s]))
    && (limbo.Some? ==> limbo.value in live)
    && (forall s: nat, p: Place :: Held(at, p)[s] == Times(IsIn(jobs, live, limbo, s, p)))
    && (forall s :: s in live && limbo != Some(s) && jobs[s].status < COMPLETED ==> Needs(jobs[s]).OutOfOrder?)
  }

  /** A phase done lowers the phases left. */
  function Phases(j: Job): nat {
    if j.status == BEING_PROCESSED then 2 else if j.status < COMPLETED then 1 else 0
  }

  function Work(jobs: seq<Job>): nat {
    if jobs == [] then 0 else Phases(jobs[0]) + Work(jobs[1..])
  }

  lemma {:induction false} WorkReplaced(jobs: seq<Job>, s: nat, j: Job)
    requires s < |jobs|
    ensures Work(jobs[s := j]) + Phases(jobs[s]) == Work(jobs) + Phases(j)
  {
    var t := jobs[s := j];
    if s == 0 {
      assert t[1..] == jobs[1..];
    } else {
      assert t[1..] == jobs[1..][s - 1 := j];
      WorkReplaced(jobs[1..], s - 1, j);
    }
  }

  lemma AfterIsLess(j: Job)
    requires InPhase(j) && j.status < COMPLETED
    ensures Phases(After(j, NeedsHash(j))) < Phases(j) && InPhase(After(j, NeedsHash(j)))
  {
  }

  // ------------------------------------------------ what a status means

  /** The sides that have served a job with this status, in order: both, in the order
      of its chain, when it is completed, or the hash side alone if that ciphers too. */
  function Sides(d: Desc, status: nat): seq<bool> {
    if status == COMPLETED_AES then [false]
    else if status == COMPLETED_HMAC then [true]
    else if status == COMPLETED then
      if d.cipherFirst then [false, true] else if d.ccm then [true] else [true, false]
    else []
  }

  /** The status of a job tells the truth about it: it is refused if and only if it
      was checked and is invalid, it fails only in a unit that can fail, and otherwise
      it has been `served` by the sides its status says. */
  predicate Told(j: Job, served: seq<bool>, checked: bool) {
    && j.status <= INTERNAL_ERROR
    && (j.status == INVALID_ARGS <==> checked && j.desc.invalid)
    && (j.status == INTERNAL_ERROR ==> AtOnce(Itself) in [j.desc.cipher, j.desc.hash])
    && (j.status != INTERNAL_ERROR ==> served == Sides(j.desc, j.status))
  }

  lemma ServedTold(j: Job, served: seq<bool>, checked: bool)
    requires InPhase(j) && j.status < COMPLETED && Told(j, served, checked)
    ensures Told(After(j, NeedsHash(j)), served + [NeedsHash(j)], checked)
  {
  }

  lemma FailedTold(j: Job, served: seq<bool>, checked: bool)
    requires j.status < COMPLETED && Told(j, served, checked) && Needs(j) == AtOnce(Itself)
    ensures Told(j.(status := INTERNAL_ERROR), served, checked)
  {
  }

  lemma NewTold(d: Desc, checked: bool)
    ensures Told(Job(d, if checked && d.invalid then INVALID_ARGS else BEING_PROCESSED), [], checked)
  {
  }

  // -------------------------------------------------- steps of a manager

  function Put(at: Places, p: Place, s: nat): Places {
    at[p := Held(at, p) + multiset{s}]
  }

  function Drop(at: Places, p: Place, s: nat): Places {
    at[p := Held(at, p) - multiset{s}]
  }

  /** The job in hand goes into the manager it needs. */
  lemma PutKeeps(jobs: seq<Job>, at: Places, live: set<nat>, s: nat, p: Place)
    requires Coherent(jobs, at, live, Some(s)) && jobs[s].status < COMPLETED
    requires NeedsHash(jobs[s]) == p.0 && Needs(jobs[s]) == OutOfOrder(p.1)
    ensures Coherent(jobs, Put(at, p, s), live, None)
  {
    hide InPhase;
    var to := Put(at, p, s);
    forall r: nat, q: Place
      ensures Held(to, q)[r] == Times(IsIn(jobs, live, None, r, q))
    {
      assert Held(at, q)[r] == Times(IsIn(jobs, live, Some(s), r, q));
    }
  }

  /** A manager gives a job back with its phase done. */
  lemma DropKeeps(jobs: seq<Job>, at: Places, live: set<nat>, s: nat, p: Place)
    requires Coherent(jobs, at, live, None) && s in Held(at, p)
    ensures s < |jobs| && jobs[s].status < COMPLETED && NeedsHash(jobs[s]) == p.0
    ensures var done := jobs[s := After(jobs[s], p.0)];
      Coherent(done, Drop(at, p, s), live, Some(s)) && Work(done) < Work(jobs)
  {
    hide InPhase, Work, After;
    assert s < |jobs| && IsIn(jobs, live, None, s, p);
    var j := After(jobs[s], p.0);
    AfterIsLess(jobs[s]);
    WorkReplaced(jobs, s, j);
    var done, to := jobs[s := j], Drop(at, p, s);
    forall r: nat, q: Place
      ensures Held(to, q)[r] == Times(IsIn(done, live, Some(s), r, q))
    {
      assert Held(at, q)[r] == Times(IsIn(jobs, live, None, r, q));
    }
  }

  /** The job in hand is served at once, or fails. */
  lemma ServeKeeps(jobs: seq<Job>, at: Places, live: set<nat>, s: nat, j: Job)
    requires Coherent(jobs, at, live, Some(s)) && jobs[s].status < COMPLETED
    requires j == After(jobs[s], NeedsHash(jobs[s])) || j == jobs[s].(status := INTERNAL_ERROR)
    ensures Coherent(jobs[s := j], at, live, Some(s)) && Work(jobs[s := j]) < Work(jobs)
  {
    hide Work, After;
    AfterIsLess(jobs[s]);
    WorkReplaced(jobs, s, j);
    var done := jobs[s := j];
    forall r: nat, q: Place
      ensures Held(at, q)[r] == Times(IsIn(done, live, Some(s), r, q))
    {
      assert Held(at, q)[r] == Times(IsIn(jobs, live, Some(s), r, q));
    }
  }

  /** A finished job in hand can be let go. */
  lemma ReleaseKeeps(jobs: seq<Job>, at: Places, live: set<nat>, s: nat)
    requires Coherent(jobs, at, live, Some(s)) && jobs[s].status >= COMPLETED
    ensures Coherent(jobs, at, live, None)
  {
  }

  /** A slot that is not live takes a new job. */
  lemma AddKeeps(jobs: seq<Job>, at: Places, live: set<nat>, s: nat, j: Job)
    requires Coherent(jobs, at, live, None) && s < |jobs| && s !in live && InPhase(j)
    ensures Coherent(jobs[s := j], at, live + {s}, Some(s))
  {
  }

  lemma RetireKeeps(jobs: seq<Job>, at: Places, live: set<nat>, s: nat)
    requires Coherent(jobs, at, live, None) && s in live && jobs[s].status >= COMPLETED
    ensures Coherent(jobs, at, live - {s}, None)
  {
  }

  /** An unfinished job not in hand is in the manager it needs. */
  lemma FoundInside(jobs: seq<Job>, at: Places, live: set<nat>, s: nat)
    requires Coherent(jobs, at, live, None) && s in live && jobs[s].status < COMPLETED
    ensures Needs(jobs[s]).OutOfOrder? && s in Held(at, (NeedsHash(jobs[s]), Needs(jobs[s]).id))
  {
  }

  // ------------------------------------------------ outcomes of a flush

  /** What flushing one side of job `s` may do (mb_mgr_code.h:742-779, 842-863,
      948-990): a manager gives back one of its jobs, a unit that redoes its work
      gives back the job itself, others give back nothing. */
  ghost predicate FlushGives(jobs: seq<Job>, at: Places, s: nat, hash: bool, back: Option<nat>, jobs': seq<Job>,
                             at': Places)
    requires s < |jobs|
  {
    var u := Side(jobs[s].desc, hash);
    if u == AtOnce(Itself) then
      back == Some(s) && jobs' == jobs[s := After(jobs[s], hash)] && at' == at
    else
      var p := (hash, if u.OutOfOrder? then u.id else if u.flushing.Manager? then u.flushing.id else 0);
      if u == AtOnce(Nothing) || Held(at, p) == multiset{} then
        back == None && jobs' == jobs && at' == at
      else
        && back.Some? && back.value in Held(at, p) && back.value < |jobs|
        && jobs' == jobs[back.value := After(jobs[back.value], hash)] && at' == Drop(at, p, back.value)
  }

  /** The managers when the job a flush gave back is handed to the unit it needs. */
  function HandedIn(jobs: seq<Job>, at: Places, back: Option<nat>): Places {
    if back.Some? && back.value < |jobs| && jobs[back.value].status < COMPLETED &&
        Needs(jobs[back.value]).OutOfOrder? then
      Put(at, (NeedsHash(jobs[back.value]), Needs(jobs[back.value]).id), back.value)
    else
      at
  }

  /** The turn of complete_job can hand job `s` to its second unit again. */
  ghost predicate CanBeHandedInTwice(jobs: seq<Job>, at: Places, s: nat)
    requires s < |jobs|
  {
    var d := jobs[s].desc;
    exists back, jobs', at' ::
      && FlushGives(jobs, at, s, !d.cipherFirst, back, jobs', at')
      && Second(d).OutOfOrder? && Held(HandedIn(jobs', at', back), (d.cipherFirst, Second(d).id))[s] > 1
  }

  /** A job in its second phase is handed in twice by complete_job's first flush if
      and only if it is not orderly: this is what the order of chaining is for. */
  lemma HandedInTwiceIff(jobs: seq<Job>, at: Places, live: set<nat>, s: nat)
    requires Coherent(jobs, at, live, None) && s in live && s < |jobs| && jobs[s].status < COMPLETED
    requires NeedsHash(jobs[s]) == jobs[s].desc.cipherFirst
    ensures CanBeHandedInTwice(jobs, at, s) <==> !Orderly(jobs[s].desc)
  {
    hide Coherent;
    var d := jobs[s].desc;
    FoundInside(jobs, at, live, s);
    var p := (d.cipherFirst, Second(d).id);
    if First(d) == AtOnce(Itself) {
      AgainIsSame(jobs, live, at, s);
      var jobs' := jobs[s := After(jobs[s], !d.cipherFirst)];
      assert jobs' == jobs;
      HeldOnce(jobs, at, live, s, p);
      assert FlushGives(jobs, at, s, !d.cipherFirst, Some(s), jobs', at);
      assert Held(HandedIn(jobs', at, Some(s)), p)[s] > 1;
    } else {
      forall back, jobs', at' | FlushGives(jobs, at, s, !d.cipherFirst, back, jobs', at')
        ensures Held(HandedIn(jobs', at', back), p)[s] <= 1
      {
        OtherHandedIn(jobs, at, live, s, back, jobs', at', p);
      }
    }
  }

  lemma HeldOnce(jobs: seq<Job>, at: Places, live: set<nat>, s: nat, p: Place)
    requires Coherent(jobs, at, live, None) && s < |jobs|
    ensures Held(at, p)[s] == Times(IsIn(jobs, live, None, s, p))
  {
  }

  /** Redoing a phase that is done changes nothing. */
  lemma AgainIsSame(jobs: seq<Job>, live: set<nat>, at: Places, s: nat)
    requires Coherent(jobs, at, live, None) && s in live && s < |jobs| && jobs[s].status < COMPLETED
    requires NeedsHash(jobs[s]) == jobs[s].desc.cipherFirst && First(jobs[s].desc) == AtOnce(Itself)
    ensures After(jobs[s], !jobs[s].desc.cipherFirst) == jobs[s]
  {
    assert InPhase(jobs[s]);
    assert jobs[s].status == COMPLETED_AES || jobs[s].status == COMPLETED_HMAC;
  }

  lemma OtherHandedIn(jobs: seq<Job>, at: Places, live: set<nat>, s: nat, back: Option<nat>, jobs': seq<Job>,
                      at': Places, p: Place)
    requires Coherent(jobs, at, live, None) && s < |jobs| && s in live && jobs[s].status < COMPLETED
    requires NeedsHash(jobs[s]) == jobs[s].desc.cipherFirst && First(jobs[s].desc) != AtOnce(Itself)
    requires FlushGives(jobs, at, s, !jobs[s].desc.cipherFirst, back, jobs', at')
    ensures Held(HandedIn(jobs', at', back), p)[s] <= 1
  {
    hide Coherent, Put, Drop, Needs, NeedsHash, After, IsIn;
    HeldOnce(jobs, at, live, s, p);
    if back.Some? {
      var q: Place :| back.value in Held(at, q) && q.0 == !jobs[s].desc.cipherFirst && at' == Drop(at, q, back.value);
      HeldOnce(jobs, at, live, s, q);
      NotHere(jobs, live, s, q);
      OthersKept(at, q, p, back.value, s);
      if HandedIn(jobs', at', back) != at' {
        OthersKept(at', (NeedsHash(jobs'[back.value]), Needs(jobs'[back.value]).id), p, back.value, s);
      }
    }
  }

  lemma NotHere(jobs: seq<Job>, live: set<nat>, s: nat, q: Place)
    requires s < |jobs| && NeedsHash(jobs[s]) != q.0
    ensures !IsIn(jobs, live, None, s, q)
  {
  }

  lemma OthersKept(at: Places, q: Place, p: Place, r: nat, s: nat)
    requires r != s
    ensures Held(Put(at, q, r), p)[s] == Held(at, p)[s] == Held(Drop(at, q, r), p)[s]
  {
  }
}
