/** The out-of-order AES-CCM manager (mb_mgr_code.h:151-395): jobs share four
    or eight lanes that advance together by the least remaining length, and
    every job still gets the tag and text of RFC 3610. */
module AesCcm {
  import opened SeqOps
  import opened CcmSpec
  import opened CcmLanes

  datatype Done = Done(job: Job, dst: Bytes, tag: Bytes)

  // ----------------------------------------- the stack of free lanes

  /** unused_lanes: one nibble a lane, the next one lowest, above them 0xF. */
  function Pack(free: seq<nat>): nat {
    if free == [] then 0xF else 16 * Pack(free[1..]) + free[0]
  }

  /** The lowest nibble is the next lane, shifting pops it, and the value is
      0xF exactly when no lane is free. */
  lemma {:induction false} PackTop(free: seq<nat>)
    requires forall k :: 0 <= k < |free| ==> free[k] < 15
    ensures Pack(free) >= 15 && (Pack(free) == 0xF <==> free == [])
    ensures free != [] ==> Pack(free) % 16 == free[0] && Pack(free) / 16 == Pack(free[1..])
  {
    if free != [] {
      PackTop(free[1..]);
      Nibble(Pack(free[1..]), free[0]);
    }
  }

  lemma Nibble(high: nat, low: nat)
    requires low < 16
    ensures (16 * high + low) % 16 == low && (16 * high + low) / 16 == high
  {
  }

  function Power16(n: nat): nat { if n == 0 then 1 else 16 * Power16(n - 1) }

  /** Eight lanes and the terminator fit a 64-bit word. */
  lemma {:induction false} PackFits(free: seq<nat>)
    requires forall k :: 0 <= k < |free| ==> free[k] < 16
    ensures Pack(free) < Power16(|free| + 1)
  {
    if free != [] { PackFits(free[1..]); }
  }

  // ------------------------------------------------ jobs and work left

  function Jobs(ls: seq<Lane>): (r: seq<Option<Job>>)
    ensures |r| == |ls| && forall i :: 0 <= i < |ls| ==> r[i] == ls[i].job
  {
    seq(|ls|, i requires 0 <= i < |ls| => ls[i].job)
  }

  function One(o: Option<Job>): multiset<Job> {
    if o.Some? then multiset{o.value} else multiset{}
  }

  function Held(s: seq<Option<Job>>): multiset<Job> {
    if s == [] then multiset{} else One(s[0]) + Held(s[1..])
  }

  lemma Reordered(a: multiset<Job>, b: multiset<Job>, c: multiset<Job>, d: multiset<Job>, e: multiset<Job>)
    requires b + c == d + e
    ensures a + b + c == a + d + e
  {
    assert a + b + c == a + (b + c);
  }

  lemma {:induction false} HeldReplaced(s: seq<Option<Job>>, i: nat, o: Option<Job>)
    requires i < |s|
    ensures Held(s[i := o]) + One(s[i]) == Held(s) + One(o)
  {
    var t := s[i := o];
    if i == 0 {
      assert t[1..] == s[1..];
    } else {
      assert t[1..] == s[1..][i - 1 := o];
      HeldReplaced(s[1..], i - 1, o);
      Reordered(One(s[0]), Held(t[1..]), One(s[i]), Held(s[1..]), One(o));
    }
  }

  lemma {:induction false} NoneHeld(s: seq<Option<Job>>)
    ensures Held(s) == multiset{} <==> forall i :: 0 <= i < |s| ==> s[i].None?
  {
    if s != [] {
      var t := s[1..];
      NoneHeld(t);
      assert Held(s) == One(s[0]) + Held(t);
      if s[0].Some? {
        assert s[0].value in One(s[0]);
        assert s[0].value in Held(s);
      } else {
        assert Held(s) == Held(t);
        assert forall i :: 0 <= i < |t| ==> t[i] == s[i + 1];
        assert forall i :: 1 <= i < |s| ==> s[i] == t[i - 1];
      }
    }
  }

  /** Phases a lane still has to go through. */
  function Left(l: Lane): nat {
    if l.job.Some? && l.initDone <= 2 then 3 - l.initDone else 0
  }

  function Work(ls: seq<Lane>): nat {
    if ls == [] then 0 else Left(ls[0]) + Work(ls[1..])
  }

  lemma {:induction false} WorkReplaced(ls: seq<Lane>, i: nat, l: Lane)
    requires i < |ls|
    ensures Work(ls[i := l]) + Left(ls[i]) == Work(ls) + Left(l)
  {
    var t := ls[i := l];
    if i == 0 {
      assert t[1..] == ls[1..];
    } else {
      assert t[1..] == ls[1..][i - 1 := l];
      WorkReplaced(ls[1..], i - 1, l);
    }
  }

  /** Same jobs in the same phases. */
  ghost predicate Alike(a: seq<Lane>, b: seq<Lane>) {
    && |a| == |b|
    && forall i :: 0 <= i < |a| ==> a[i].job == b[i].job && (a[i].job.Some? ==> a[i].initDone == b[i].initDone)
  }

  lemma {:induction false} AlikeWork(a: seq<Lane>, b: seq<Lane>)
    requires Alike(a, b)
    ensures Work(a) == Work(b) && Jobs(a) == Jobs(b)
  {
    if a != [] {
      assert Alike(a[1..], b[1..]);
      AlikeWork(a[1..], b[1..]);
    }
  }

  /** `free` lists exactly the lanes with no job, each once. */
  ghost predicate Stacked(free: seq<nat>, js: seq<Option<Job>>) {
    && |js| <= 8
    && Distinct(free)
    && (forall k :: 0 <= k < |free| ==> free[k] < |js| && js[free[k]].None?)
    && (forall i :: 0 <= i < |js| && js[i].None? ==> i in free)
  }

  lemma StackedPop(free: seq<nat>, js: seq<Option<Job>>, j: Job)
    requires Stacked(free, js) && free != []
    ensures Stacked(free[1..], js[free[0] := Some(j)])
  {
  }

  lemma StackedPush(free: seq<nat>, js: seq<Option<Job>>, i: nat)
    requires Stacked(free, js) && i < |js| && js[i].Some?
    ensures Stacked([i] + free, js[i := None])
  {
  }

  lemma JobsReplaced(ls: seq<Lane>, i: nat, l: Lane)
    requires i < |ls|
    ensures Jobs(ls[i := l]) == Jobs(ls)[i := l.job]
  {
  }

  lemma Entered(js: seq<Option<Job>>, i: nat, j: Job, accepted: multiset<Job>, returned: multiset<Job>)
    requires i < |js| && js[i].None? && accepted == returned + Held(js)
    ensures accepted + multiset{j} == returned + Held(js[i := Some(j)])
  {
    HeldReplaced(js, i, Some(j));
    assert Held(js[i := Some(j)]) + One(None) == Held(js[i := Some(j)]);
  }

  lemma Departed(js: seq<Option<Job>>, i: nat, accepted: multiset<Job>, returned: multiset<Job>)
    requires i < |js| && js[i].Some? && accepted == returned + Held(js)
    ensures accepted == returned + multiset{js[i].value} + Held(js[i := None])
  {
    HeldReplaced(js, i, None);
    assert Held(js) + One(None) == Held(js);
  }

  lemma StackTop(free: seq<nat>, js: seq<Option<Job>>)
    requires Stacked(free, js)
    ensures Pack(free) >= 15 && (Pack(free) == 0xF <==> free == [])
    ensures free != [] ==> Pack(free) % 16 == free[0] && Pack(free) / 16 == Pack(free[1..])
    ensures free != [] ==> free[0] < |js| && js[free[0]].None?
  {
    hide Pack;
    PackTop(free);
  }

  lemma AllTaken(js: seq<Option<Job>>)
    requires Stacked([], js)
    ensures forall i :: 0 <= i < |js| ==> js[i].Some?
  {
  }

  lemma Idle(js: seq<Option<Job>>, lane: nat, accepted: multiset<Job>, returned: multiset<Job>)
    requires accepted == returned + Held(js) && lane <= |js|
    requires (forall k :: 0 <= k < lane ==> js[k].None?) && (lane < |js| ==> js[lane].Some?)
    ensures lane == |js| <==> accepted == returned
  {
    NoneHeld(js);
    if accepted == returned {
      assert |accepted| == |returned| + |Held(js)|;
    }
  }

  /** A lane with no job runs along with lane `lead` in a flush. */
  function Follow(idle: Lane, lead: Lane): Lane {
    idle.(inp := lead.inp, key := lead.key, iv := lead.iv, lens := 65535, initDone := lead.initDone)
  }

  /** A lane at the start of its job. */
  lemma Started(aes: Cipher, i: nat, j: Job, pb: Bytes, dst: Bytes)
    requires JobOk(j) && |pb| == 64 && pb[..|Header(j)|] == Header(j) && (j.encrypt || dst == Plain(aes, j))
    ensures Holds(aes, i, Lane(Some(j), |Header(j)|, 0, InBlocks(i, 0), j.key, Zeros(16), pb, dst), j)
  {
    hide Header, Zeros, Plain, CbcMac, B0, Full;
    HeaderFirst(aes, j);
    MacOfNothing(aes, j.key, Zeros(16));
    assert pb[..16] == pb[..|Header(j)|][..16];
    assert Full(aes, j)[..0] == [];
  }

  lemma HeaderFirst(aes: Cipher, j: Job)
    requires Accepted(j)
    ensures Header(j)[..16] == B0(j) && |Header(j)| <= |Full(aes, j)|
  {
    hide B0, AadBlocks, Pad, Plain;
  }

  lemma MacOfNothing(aes: Cipher, key: Bytes, iv: Block)
    ensures CbcMac(aes, key, iv, []) == iv
  {
  }

  /** A lane whose text is all authenticated. */
  ghost predicate Complete(l: Lane) {
    l.job.Some? && l.lens == 0 && (l.initDone == 2 || (l.initDone == 1 && |l.job.value.src| % 16 == 0))
  }

  class CcmManager {
    const aes: Cipher
    var lanes: seq<Lane>
    var unused: nat
    ghost var free: seq<nat>
    ghost var accepted: multiset<Job>
    ghost var returned: multiset<Job>

    /** unused_lanes lists exactly the lanes with no job, each once; every
        accepted job is either returned or in one lane; every lane is right
        about its own job. */
    ghost predicate Coherent()
      reads this
    {
      && Stacked(free, Jobs(lanes)) && unused == Pack(free)
      && LanesOk(aes, lanes)
      && accepted == returned + Held(Jobs(lanes))
    }

    /** Between calls a lane is free. */
    ghost predicate Valid()
      reads this
    {
      Coherent() && free != []
    }

    constructor (aes: Cipher, eight: bool)
      ensures Valid() && accepted == multiset{} && this.aes == aes
      ensures |lanes| == (if eight then 8 else 4) == |free|
    {
      hide Stacked, LanesOk, Pack, Held;
      this.aes := aes;
      var idle := Lane(None, 0, 0, InText([], 0), [], Zeros(16), Zeros(64), []);
      var n := if eight then 8 else 4;
      lanes := seq(n, _ => idle);
      unused := if eight then 0xF76543210 else 0xF3210;
      free := if eight then [0, 1, 2, 3, 4, 5, 6, 7] else [0, 1, 2, 3];
      accepted, returned := multiset{}, multiset{};
      new;
      Initial(free, eight);
      AllIdle(aes, lanes, free);
    }

    /** The counter block of a new job and, when decrypting, its text
        (mb_mgr_code.h:184-197). */
    method StartBlocks(j: Job, before: Bytes) returns (pb: Bytes, dst: Bytes)
      requires JobOk(j) && |before| == 64
      ensures |pb| == 64 && pb[..15] == FirstBlock(j, LengthFlag(j), 0, 0)[..15]
      ensures j.encrypt || dst == Plain(aes, j)
    {
      hide A, Zeros, Ctr, Crypt, FirstBlock;
      pb, dst := SetBytes(before, 8, Zeros(8)), [];
      pb := pb[0 := LengthFlag(j)];
      pb := SetBytes(pb, 1, j.nonce);
      NonceLaid(j, before, pb);
      if !j.encrypt {
        pb := pb[15 := 1];
        StartBlock(j, pb);
        dst := Ctr(aes, j.key, pb[..16], j.src);
        CtrIsCrypt(aes, j, j.src);
      }
    }

    /** The AAD blocks behind block 0 (mb_mgr_code.h:216-242). */
    method LayAad(j: Job, before: Bytes) returns (pb: Bytes, len: nat)
      requires JobOk(j) && j.aad != [] && |before| == 64
      ensures |pb| == 64 && pb[0] == WithAad(before[0]) && pb[1..16] == before[1..16]
      ensures len == 16 + |AadBlocks(j.aad)| <= 64 && pb[16..len] == AadBlocks(j.aad)
    {
      hide Zeros, ByteOf, RoundedUp, AadBlocks, WithAad;
      var aadl := |j.aad| + 2;
      Rounding(aadl);
      len := 16 + RoundedUp(aadl);
      pb := before[0 := WithAad(before[0])];
      pb := pb[16 := ByteOf(|j.aad| / 256)];
      pb := pb[17 := ByteOf(|j.aad|)];
      ghost var head := pb[..18];
      pb := SetBytes(pb, 18, j.aad);
      pb := SetBytes(pb, 16 + aadl, Zeros(len - 16 - aadl));
      assert pb[..18] == head;
      assert pb[1..16] == head[1..16] == before[1..16];
      AadLaid(j, pb);
    }

    /** The blocks and length of a new job, and when decrypting its text
        (mb_mgr_code.h:168-242). */
    method InitBlocks(j: Job, before: Bytes) returns (pb: Bytes, len: nat, dst: Bytes)
      requires JobOk(j) && |before| == 64
      ensures |pb| == 64 && len == |Header(j)| && pb[..len] == Header(j)
      ensures j.encrypt || dst == Plain(aes, j)
    {
      hide Flags, Header, Zeros, ByteOf, B0, Plain, Pad, RoundedUp, FirstBlock, AadBlocks, BigEndian;
      hide LengthFlag, WithTag, WithAad;
      pb, dst := StartBlocks(j, before);
      ghost var first := pb[..15];
      pb := LayNumbers(j, pb);
      len := 16;
      ghost var b0 := pb[1..16];
      if j.aad != [] {
        pb, len := LayAad(j, pb);
      }
      NoAad();
      SameTail(pb, b0);
      B0Laid(j, first, pb);
      HeaderLaid(j, pb);
    }

    /** The tag and message lengths in block 0 (mb_mgr_code.h:207-214). */
    method LayNumbers(j: Job, before: Bytes) returns (pb: Bytes)
      requires JobOk(j) && |before| == 64
      ensures |pb| == 64 && pb[0] == WithTag(before[0], j) && pb[1..14] == before[..15][1..14]
      ensures pb[1..16] == before[..15][1..14] + [ByteOf(|j.src| / 256), ByteOf(|j.src|)]
    {
      hide ByteOf, WithTag;
      pb := before[0 := WithTag(before[0], j)];
      pb := pb[14 := ByteOf(|j.src| / 256)];
      pb := pb[15 := ByteOf(|j.src|)];
    }

    /** A job takes the lane on top of the stack (mb_mgr_code.h:163-242). */
    method Enter(j: Job)
      requires Valid() && JobOk(j)
      modifies this
      ensures Coherent() && accepted == old(accepted) + multiset{j} && returned == old(returned)
      ensures free == old(free)[1..] && |lanes| == |old(lanes)|
    {
      hide LaneOk, Holds, Held, Pack, Jobs, Stacked, Header, Plain, Zeros;
      StackTop(free, Jobs(lanes));
      var lane := unused % 16;
      unused := unused / 16;
      SixtyFour(aes, lanes, lane);
      var pb, len, dst := InitBlocks(j, lanes[lane].blocks);
      var l := Lane(Some(j), len, 0, InBlocks(lane, 0), j.key, Zeros(16), pb, dst);
      Started(aes, lane, j, pb, dst);
      HoldsIsOk(aes, lane, l);
      StackedPop(free, Jobs(lanes), j);
      JobsReplaced(lanes, lane, l);
      Entered(Jobs(lanes), lane, j, accepted, returned);
      Kept(aes, lanes, lane, l);
      lanes := lanes[lane := l];
      free, accepted := free[1..], accepted + multiset{j};
    }

    /** The shortest of the lanes, all of which have jobs. */
    method MinSubmit() returns (idx: nat)
      requires lanes != []
      ensures idx < |lanes| && forall k :: 0 <= k < |lanes| ==> lanes[idx].lens <= lanes[k].lens
    {
      idx := 0;
      var min := lanes[0].lens;
      for i := 1 to |lanes|
        invariant idx < |lanes| && min == lanes[idx].lens
        invariant forall k :: 0 <= k < i ==> min <= lanes[k].lens
      {
        if min > lanes[i].lens {
          idx, min := i, lanes[i].lens;
        }
      }
    }

    /** The shortest of the lanes that have jobs; the others follow `lane`. */
    method MinFlush(lane: nat) returns (idx: nat)
      requires lane < |lanes| && lanes[lane].job.Some?
      requires forall k :: 0 <= k < |lanes| ==> lanes[k].lens < 65536
      modifies this`lanes
      ensures |lanes| == |old(lanes)| && idx < |lanes| && lanes[idx].job.Some?
      ensures forall k :: 0 <= k < |lanes| ==>
        lanes[k] == if old(lanes)[k].job.Some? then old(lanes)[k] else Follow(old(lanes)[k], old(lanes)[lane])
      ensures forall k :: 0 <= k < |lanes| ==> lanes[idx].lens <= lanes[k].lens
    {
      idx := lane;
      var min := lanes[lane].lens;
      for i := 0 to |lanes|
        invariant |lanes| == |old(lanes)| && idx < |lanes| && lanes[idx].job.Some? && min == lanes[idx].lens
        invariant forall k :: 0 <= k < |lanes| && (k >= i || old(lanes)[k].job.Some?) ==> lanes[k] == old(lanes)[k]
        invariant forall k :: 0 <= k < i && old(lanes)[k].job.None? ==>
            lanes[k] == Follow(old(lanes)[k], old(lanes)[lane])
        invariant min <= lanes[lane].lens && forall k :: 0 <= k < i ==> min <= lanes[k].lens
      {
        if i != lane {
          if lanes[i].job.Some? {
            if min > lanes[i].lens {
              idx, min := i, lanes[i].lens;
            }
          } else {
            lanes := lanes[i := Follow(lanes[i], lanes[lane])];
          }
        }
      }
    }

    /** One pass of ccm_round up to the kernel (mb_mgr_code.h:259-308). */
    method Round(submit: bool, lane: nat) returns (idx: nat)
      requires LanesOk(aes, lanes) && lane < |lanes| && lanes[lane].job.Some?
      requires submit ==> forall k :: 0 <= k < |lanes| ==> lanes[k].job.Some?
      modifies this`lanes
      ensures LanesOk(aes, lanes) && Alike(old(lanes), lanes)
      ensures idx < |lanes| && lanes[idx].job.Some? && lanes[idx].lens == 0
    {
      hide Holds, MacAll, CanRead, Alike;
      if submit {
        idx := MinSubmit();
      } else {
        idx := MinFlush(lane);
      }
      ghost var ls := lanes;
      ReadyToRun(aes, old(lanes), ls, lane, idx);
      var min := lanes[idx].lens;
      for i := 0 to |lanes|
        invariant |lanes| == |ls|
        invariant forall k :: 0 <= k < i ==> lanes[k] == ls[k].(lens := ls[k].lens - min)
        invariant forall k :: i <= k < |ls| ==> lanes[k] == ls[k]
      {
        lanes := lanes[i := lanes[i].(lens := lanes[i].lens - min)];
      }
      assert lanes == Shorter(ls, min);
      RoundKeepsLanes(aes, ls, min);
      if min != 0 {
        lanes := MacAll(aes, lanes, min);
      } else {
        EmptyRound(aes, ls);
      }
      AfterRound(aes, ls, min, idx);
      AlikeChain(old(lanes), ls, lanes);
    }

    /** What the lane whose length ran out does next (mb_mgr_code.h:310-347). */
    method NextPhase(idx: nat) returns (more: bool)
      requires LanesOk(aes, lanes) && idx < |lanes| && lanes[idx].job.Some? && lanes[idx].lens == 0
      modifies this`lanes
      ensures LanesOk(aes, lanes) && |lanes| == |old(lanes)| && Jobs(lanes) == Jobs(old(lanes))
      ensures Work(lanes) <= Work(old(lanes)) && (more ==> Work(lanes) < Work(old(lanes)))
      ensures !more ==> Complete(lanes[idx])
    {
      hide Holds, Work, Jobs, Plain, Whole;
      var l := lanes[idx];
      var j := l.job.value;
      Rounding(|j.src|);
      assert LaneOk(aes, idx, l);
      Phases(aes, idx, l, j);
      if l.initDone == 0 {
        ToBlocks(aes, idx, l, j);
        l := l.(inp := InText(if j.encrypt then j.src else l.dst, 0), initDone := 1);
        if Whole(|j.src|) != 0 {
          l := l.(lens := Whole(|j.src|));
          Replaced(aes, lanes, idx, l);
          lanes := lanes[idx := l];
          return true;
        }
      }
      if l.initDone == 1 && |j.src| % 16 != 0 {
        Rest(aes, lanes, idx, l, j);
        ToLast(aes, idx, l, j, Plain(aes, j)[Whole(|j.src|)..]);
        var rest := Read(lanes, l.inp, |j.src| % 16);
        l := l.(initDone := 2, lens := 16, blocks := LastBlock(l.blocks, rest), inp := InBlocks(idx, 16));
        Replaced(aes, lanes, idx, l);
        lanes := lanes[idx := l];
        return true;
      }
      Replaced(aes, lanes, idx, l);
      lanes := lanes[idx := l];
      return false;
    }

    /** Tag, text and release of a lane (mb_mgr_code.h:349-394). */
    method Finish(idx: nat) returns (d: Done)
      requires Coherent() && idx < |lanes| && Complete(lanes[idx])
      modifies this
      ensures Valid() && accepted == old(accepted) && returned == old(returned) + multiset{d.job}
      ensures |lanes| == |old(lanes)| && free == [idx] + old(free)
      ensures JobOk(d.job) && d == Done(d.job, Crypt(aes, d.job, d.job.src), Tag(aes, d.job))
    {
      hide Holds, Pack, Jobs, Held, Stacked, Header, Ctr, Crypt, Tag, A;
      var l := lanes[idx];
      var j := l.job.value;
      assert LaneOk(aes, idx, l);
      var pb := l.blocks;
      ghost var b0 := pb[..16];
      pb := pb[0 := pb[0] & 7];
      pb := pb[14 := 0];
      pb := pb[15 := 0];
      ZeroBlock(aes, idx, l, j, pb);
      Phases(aes, idx, l, j);
      var tag := Ctr(aes, l.key, pb[..16], l.iv[..j.tagLen]);
      var dst := l.dst;
      if j.encrypt {
        pb := pb[15 := 1];
        assert pb[..16] == A(j, 0)[15 := 1];
        OneBlock(j, pb);
        dst := Ctr(aes, j.key, pb[..16], j.src);
        CtrIsCrypt(aes, j, j.src);
      }
      d := Done(j, dst, tag);
      var out := l.(job := None, blocks := pb);
      unused := 16 * unused + idx;
      StackedPush(free, Jobs(lanes), idx);
      JobsReplaced(lanes, idx, out);
      Departed(Jobs(lanes), idx, accepted, returned);
      Kept(aes, lanes, idx, out);
      Pushed(idx, free);
      lanes := lanes[idx := out];
      free, returned := [idx] + free, returned + multiset{j};
    }

    /** submit_flush_job_aes_ccm: a job is submitted, or none is and the
        manager flushed.  A submit returns a job exactly when it takes the last
        free lane, a flush exactly when there is a job; what is returned is
        some accepted job with the text and tag of RFC 3610. */
    method SubmitFlush(job: Option<Job>) returns (r: Option<Done>)
      requires Valid() && (job.Some? ==> JobOk(job.value))
      modifies this
      ensures Valid() && |lanes| == |old(lanes)|
      ensures accepted == old(accepted) + One(job)
      ensures returned == old(returned) + (if r.Some? then multiset{r.value.job} else multiset{})
      ensures r.Some? ==> var j := r.value.job; JobOk(j) && r.value == Done(j, Crypt(aes, j, j.src), Tag(aes, j))
      ensures r.None? <==> if job.Some? then |old(free)| > 1 else old(accepted) == old(returned)
    {
      hide LaneOk, Pack, Jobs, Held, Stacked, Tag, Crypt;
      var lane: nat := 0;
      if job.Some? {
        Enter(job.value);
        StackTop(free, Jobs(lanes));
        if unused != 0xF {
          return None;
        }
        AllTaken(Jobs(lanes));
      } else {
        while lane < |lanes| && lanes[lane].job.None?
          invariant lane <= |lanes| && forall k :: 0 <= k < lane ==> lanes[k].job.None?
        {
          lane := lane + 1;
        }
        Idle(Jobs(lanes), lane, accepted, returned);
        if lane >= |lanes| {
          return None;
        }
      }
      var more, idx: nat := true, 0;
      while more
        invariant Coherent() && accepted == old(accepted) + One(job) && returned == old(returned)
        invariant |lanes| == |old(lanes)| && lane < |lanes| && Jobs(lanes)[lane].Some?
        invariant job.Some? ==> forall k :: 0 <= k < |lanes| ==> Jobs(lanes)[k].Some?
        invariant !more ==> idx < |lanes| && Complete(lanes[idx])
        decreases Work(lanes), more
      {
        ghost var was := lanes;
        idx := Round(job.Some?, lane);
        AlikeWork(was, lanes);
        ghost var mid := lanes;
        more := NextPhase(idx);
        assert Jobs(lanes) == Jobs(mid) == Jobs(was);
      }
      var d := Finish(idx);
      r := Some(d);
    }
  }

  /** The first block after the nonce is written, before any number. */
  lemma NonceLaid(j: Job, before: Bytes, pb: Bytes)
    requires Accepted(j) && |before| == 64
    requires pb == SetBytes(SetBytes(before, 8, Zeros(8))[0 := LengthFlag(j)], 1, j.nonce)
    ensures |pb| == 64 && pb[..16] == FirstBlock(j, LengthFlag(j), 0, 0)
  {
  }

  lemma StartBlock(j: Job, pb: Bytes)
    requires Accepted(j) && |pb| == 64 && pb[..16] == FirstBlock(j, LengthFlag(j), 0, 0)[15 := 1]
    ensures pb[..16] == A(j, 1)
  {
    FirstBlockIsA(j, 1);
  }

  lemma FirstBlockMiddle(j: Job, f: bv8, x: bv8, y: bv8, f': bv8, x': bv8, y': bv8)
    requires Accepted(j)
    ensures FirstBlock(j, f', x', y') == [f'] + FirstBlock(j, f, x, y)[1..14] + [x', y']
  {
  }

  lemma FirstBlockFlags(j: Job, f: bv8, x: bv8, y: bv8)
    requires Accepted(j)
    ensures FirstBlock(j, f, x, y)[0] == f
  {
  }

  lemma SameTail(pb: Bytes, b: Bytes)
    requires |pb| == 64 && pb[1..16] == b
    ensures pb[1..14] == b[..13] && pb[14] == b[13] && pb[15] == b[14]
  {
  }

  lemma B0Laid(j: Job, first: Bytes, pb: Bytes)
    requires JobOk(j) && |pb| == 64 && first == FirstBlock(j, LengthFlag(j), 0, 0)[..15]
    requires var f := WithTag(first[0], j); pb[0] == if j.aad == [] then f else WithAad(f)
    requires pb[1..14] == first[1..14] && pb[14] == ByteOf(|j.src| / 256) && pb[15] == ByteOf(|j.src|)
    ensures pb[..16] == B0(j)
  {
    hide Flags, ByteOf, B0, FirstBlock, LengthFlag, WithTag, WithAad;
    FlagsBuilt(j);
    Below64KiB(j);
    var l := LengthFlag(j);
    FirstBlockFlags(j, l, 0, 0);
    assert first[1..14] == FirstBlock(j, l, 0, 0)[1..14];
    FirstBlockMiddle(j, l, 0, 0, pb[0], pb[14], pb[15]);
    assert pb[..16] == [pb[0]] + pb[1..14] + [pb[14], pb[15]];
  }

  lemma AadLaid(j: Job, pb: Bytes)
    requires JobOk(j) && j.aad != [] && |pb| == 64
    requires pb[16] == ByteOf(|j.aad| / 256) && pb[17] == ByteOf(|j.aad|)
    requires pb[18..18 + |j.aad|] == j.aad
    requires 18 + |j.aad| <= 16 + RoundedUp(|j.aad| + 2) <= 64
    requires pb[18 + |j.aad|..16 + RoundedUp(|j.aad| + 2)] == Zeros(RoundedUp(|j.aad| + 2) - |j.aad| - 2)
    ensures |AadBlocks(j.aad)| == RoundedUp(|j.aad| + 2)
    ensures pb[16..16 + RoundedUp(|j.aad| + 2)] == AadBlocks(j.aad)
  {
    hide ByteOf, Zeros, RoundedUp, BigEndian, Pad;
    var s, n := BigEndian(|j.aad|, 2) + j.aad, 18 + |j.aad|;
    var m := 16 + RoundedUp(|j.aad| + 2);
    TwoBytes(|j.aad|);
    PadIs(s);
    assert pb[16..n] == [pb[16], pb[17]] + pb[18..n];
    assert pb[16..m] == pb[16..n] + pb[n..m];
  }

  lemma TwoBytes(n: nat)
    ensures BigEndian(n, 2) == [ByteOf(n / 256), ByteOf(n)]
  {
    hide ByteOf;
    BigEndianTwo(n, 2);
    NoBytes(n / 65536);
  }

  lemma PadIs(s: Bytes)
    ensures |s| <= RoundedUp(|s|) && Pad(s) == s + Zeros(RoundedUp(|s|) - |s|)
  {
    hide RoundedUp;
    Rounding(|s|);
  }

  /** Idle lanes, all of them on the stack. */
  lemma AllIdle(aes: Cipher, ls: seq<Lane>, free: seq<nat>)
    requires forall i :: 0 <= i < |ls| ==> ls[i].job.None? && |ls[i].blocks| == 64 && ls[i].lens < 65536
    requires |free| == |ls| <= 8 && forall k :: 0 <= k < |free| ==> free[k] == k
    ensures Stacked(free, Jobs(ls)) && LanesOk(aes, ls) && Held(Jobs(ls)) == multiset{}
  {
    hide Holds;
    NoneHeld(Jobs(ls));
    forall i | 0 <= i < |ls|
      ensures i in free
    {
      assert free[i] == i;
    }
  }

  lemma NoBytes(n: nat)
    ensures BigEndian(n, 0) == []
  {
  }

  lemma HeaderLaid(j: Job, pb: Bytes)
    requires Accepted(j) && |pb| == 64 && pb[..16] == B0(j)
    requires j.aad != [] ==> 16 + |AadBlocks(j.aad)| <= 64 && pb[16..16 + |AadBlocks(j.aad)|] == AadBlocks(j.aad)
    ensures |Header(j)| == 16 + |AadBlocks(j.aad)| && pb[..|Header(j)|] == Header(j)
  {
  }

  lemma NoAad()
    ensures AadBlocks([]) == []
  {
  }

  lemma Initial(free: seq<nat>, eight: bool)
    requires free == if eight then [0, 1, 2, 3, 4, 5, 6, 7] else [0, 1, 2, 3]
    ensures Pack(free) == if eight then 0xF76543210 else 0xF3210
  {
    if eight {
      assert Pack([7]) == 0xF7;
      assert Pack([6, 7]) == 0xF76;
      assert Pack([5, 6, 7]) == 0xF765;
      assert Pack([4, 5, 6, 7]) == 0xF7654;
      assert Pack([3, 4, 5, 6, 7]) == 0xF76543;
      assert Pack([2, 3, 4, 5, 6, 7]) == 0xF765432;
      assert Pack([1, 2, 3, 4, 5, 6, 7]) == 0xF7654321;
    } else {
      assert Pack([3]) == 0xF3;
      assert Pack([2, 3]) == 0xF32;
      assert Pack([1, 2, 3]) == 0xF321;
    }
  }

  lemma SixtyFour(aes: Cipher, ls: seq<Lane>, i: nat)
    requires LanesOk(aes, ls) && i < |ls|
    ensures |ls[i].blocks| == 64 && ls[i].lens < 65536
  {
  }

  lemma HoldsIsOk(aes: Cipher, i: nat, l: Lane)
    requires l.job.Some? && Holds(aes, i, l, l.job.value)
    ensures LaneOk(aes, i, l)
  {
    hide Header, Zeros, Plain, Pad, B0, CbcMac, Full, Feeds, Whole;
    Rounding(|l.job.value.src|);
  }

  /** Before a round: the lanes are those of `was`, the idle ones following
      `lane`; every lane can be read for the least length. */
  lemma ReadyToRun(aes: Cipher, was: seq<Lane>, ls: seq<Lane>, lane: nat, idx: nat)
    requires LanesOk(aes, was) && lane < |was| == |ls| && was[lane].job.Some? && idx < |ls| && ls[idx].job.Some?
    requires forall k :: 0 <= k < |ls| ==> ls[k] == if was[k].job.Some? then was[k] else Follow(was[k], was[lane])
    requires forall k :: 0 <= k < |ls| ==> ls[idx].lens <= ls[k].lens
    ensures LanesOk(aes, ls) && Alike(was, ls) && ls[idx].lens % 16 == 0
    ensures forall k :: 0 <= k < |ls| ==> CanRead(ls, ls[k].inp, ls[idx].lens)
  {
    hide Holds, CanRead;
    forall k | 0 <= k < |ls|
      ensures LaneOk(aes, k, ls[k]) && CanRead(ls, ls[k].inp, ls[idx].lens)
    {
      assert LaneOk(aes, k, was[k]) && LaneOk(aes, lane, was[lane]);
      var from := if was[k].job.Some? then k else lane;
      FeedsItsOwn(aes, ls, from, ls[from].job.value, ls[idx].lens);
    }
    Sixteens(aes, idx, ls[idx], ls[idx].job.value);
  }

  lemma Sixteens(aes: Cipher, i: nat, l: Lane, j: Job)
    requires Holds(aes, i, l, j)
    ensures l.lens % 16 == 0
  {
  }

  lemma AfterRound(aes: Cipher, ls: seq<Lane>, min: nat, idx: nat)
    requires min % 16 == 0 && idx < |ls| && ls[idx].lens == min
    requires forall k :: 0 <= k < |ls| ==> min <= ls[k].lens
    requires forall k :: 0 <= k < |ls| ==> CanRead(Shorter(ls, min), Shorter(ls, min)[k].inp, min)
    ensures var rs := MacAll(aes, Shorter(ls, min), min); Alike(ls, rs) && rs[idx].lens == 0
  {
  }

  lemma AlikeChain(a: seq<Lane>, b: seq<Lane>, c: seq<Lane>)
    requires Alike(a, b) && Alike(b, c)
    ensures Alike(a, c)
  {
  }

  lemma Pushed(idx: nat, free: seq<nat>)
    ensures Pack([idx] + free) == 16 * Pack(free) + idx
  {
  }
  lemma Kept(aes: Cipher, ls: seq<Lane>, i: nat, l: Lane)
    requires LanesOk(aes, ls) && i < |ls| && LaneOk(aes, i, l)
    ensures LanesOk(aes, ls[i := l])
  {
  }

  lemma Replaced(aes: Cipher, ls: seq<Lane>, i: nat, l: Lane)
    requires LanesOk(aes, ls) && i < |ls| && l.job == ls[i].job && l.job.Some? && Holds(aes, i, l, l.job.value)
    ensures LanesOk(aes, ls[i := l]) && Jobs(ls[i := l]) == Jobs(ls)
    ensures Work(ls[i := l]) + Left(ls[i]) == Work(ls) + Left(l)
  {
    hide Holds;
    HoldsIsOk(aes, i, l);
    WorkReplaced(ls, i, l);
  }

  lemma Phases(aes: Cipher, i: nat, l: Lane, j: Job)
    requires Holds(aes, i, l, j)
    ensures l.initDone <= 2 && JobOk(j) && (if j.encrypt then j.src else l.dst) == Plain(aes, j)
  {
  }

  /** The left-over bytes are where the lane now reads. */
  lemma Rest(aes: Cipher, ls: seq<Lane>, i: nat, l: Lane, j: Job)
    requires Holds(aes, i, l, j) && l.initDone == 1 && l.lens == 0
    ensures |l.blocks| == 64 && CanRead(ls, l.inp, |j.src| % 16)
    ensures Read(ls, l.inp, |j.src| % 16) == Plain(aes, j)[Whole(|j.src|)..]
  {
  }

  /** Block 0 with its flags masked and its length cleared is A_0, and the tag
      is what the counter kernel makes of it. */
  lemma ZeroBlock(aes: Cipher, i: nat, l: Lane, j: Job, pb: Bytes)
    requires Holds(aes, i, l, j) && Complete(l) && l.job == Some(j)
    requires pb == l.blocks[0 := l.blocks[0] & 7][14 := 0][15 := 0]
    ensures |pb| == 64 && pb[..16] == A(j, 0) && l.key == j.key
    ensures Ctr(aes, l.key, pb[..16], l.iv[..j.tagLen]) == Tag(aes, j)
  {
    hide Header, Plain, Pad, CbcMac, Full, Feeds, Flags, Zeros, A, B0;
    AllDone(aes, i, l, j);
    Masked(j, l.blocks, pb);
    TagByCtr(aes, j, l.iv);
  }

  lemma Masked(j: Job, was: Bytes, pb: Bytes)
    requires JobOk(j) && |was| == 64 && was[..16] == B0(j) && pb == was[0 := was[0] & 7][14 := 0][15 := 0]
    ensures pb[..16] == A(j, 0)
  {
    hide B0, Flags, A;
    Below64KiB(j);
    FlagsMasked(j);
    FirstBlockIsA(j, 0);
    var l := (LengthWidth(j) - 1) as bv8;
    assert was[0] == was[..16][0] == Flags(j);
    FirstBlockMiddle(j, Flags(j), ByteOf(|j.src| / 256), ByteOf(|j.src|), l, 0, 0);
    assert pb[..16] == [l] + was[..16][1..14] + [0, 0];
  }

  lemma OneBlock(j: Job, pb: Bytes)
    requires JobOk(j) && |pb| == 64 && pb[..16] == A(j, 0)[15 := 1]
    ensures pb[..16] == A(j, 1)
  {
  }

  lemma TagByCtr(aes: Cipher, j: Job, mac: Block)
    requires JobOk(j) && mac == CbcMac(aes, j.key, Zeros(16), Full(aes, j))
    ensures Ctr(aes, j.key, A(j, 0), mac[..j.tagLen]) == Tag(aes, j)
  {
    hide A, CbcMac, Full, CtrBlock;
    CtrBlockIsA(j, 0, 0);
  }
}
