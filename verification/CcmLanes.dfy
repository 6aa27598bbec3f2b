/** The lanes of the AES-CCM manager as values: what each lane holds while its
    job is half done, and what one lockstep round does to all of them
    (mb_mgr_code.h:261-360). */
module CcmLanes {
  import opened SeqOps
  import opened CcmSpec

  /** Where a lane reads next: in some lane's initial blocks or in a text. */
  datatype Ptr = InBlocks(lane: nat, off: nat) | InText(text: Bytes, off: nat)

  datatype Lane = Lane(
    job: Option<Job>,
    lens: nat,                 // bytes left in this phase
    initDone: nat,             // 0 header, 1 full blocks, 2 padded last block
    inp: Ptr,
    key: Bytes,
    iv: Block,
    blocks: Bytes,             // this lane's 64 bytes of init_blocks
    dst: Bytes)                // the output buffer of its job

  /** A job whose length fits the two bytes block 0 has for it. */
  predicate JobOk(j: Job) { Accepted(j) && |j.src| < 65536 }

  /** How much of the authenticated text is done when a phase is over. */
  function End(j: Job, phase: nat): nat
    requires Accepted(j)
  {
    |Header(j)| + (if phase == 0 then 0 else if phase == 1 then Whole(|j.src|) else RoundedUp(|j.src|))
  }

  function PhaseLen(j: Job, phase: nat): nat
    requires Accepted(j)
  {
    if phase == 0 then |Header(j)| else if phase == 1 then Whole(|j.src|) else 16
  }

  /** Lane `i` reads its own job's text from the right place. */
  ghost predicate Feeds(aes: Cipher, i: nat, l: Lane, j: Job)
    requires JobOk(j) && |l.blocks| == 64 && l.lens <= PhaseLen(j, l.initDone)
  {
    if l.initDone == 0 then
      l.inp == InBlocks(i, |Header(j)| - l.lens) && l.blocks[..|Header(j)|] == Header(j)
    else if l.initDone == 1 then
      l.inp == InText(Plain(aes, j), Whole(|j.src|) - l.lens)
    else
      && |j.src| % 16 != 0
      && l.inp == InBlocks(i, 32 - l.lens)
      && l.blocks[16..32] == Pad(Plain(aes, j)[Whole(|j.src|)..])
  }

  /** The chaining value of a lane covers all of its text but the part that is
      still to be read. */
  ghost predicate Holds(aes: Cipher, i: nat, l: Lane, j: Job) {
    && JobOk(j) && |l.blocks| == 64 && l.initDone <= 2
    && l.lens <= PhaseLen(j, l.initDone) && l.lens % 16 == 0
    && l.lens <= End(j, l.initDone) <= |Full(aes, j)|
    && (End(j, l.initDone) - l.lens) % 16 == 0
    && l.key == j.key
    && l.blocks[..16] == B0(j)
    && (j.encrypt || l.dst == Plain(aes, j))
    && l.iv == CbcMac(aes, j.key, Zeros(16), Full(aes, j)[..End(j, l.initDone) - l.lens])
    && Feeds(aes, i, l, j)
  }

  ghost predicate LaneOk(aes: Cipher, i: nat, l: Lane) {
    && |l.blocks| == 64
    && l.lens < 65536
    && (l.job.Some? ==> Holds(aes, i, l, l.job.value))
  }

  ghost predicate LanesOk(aes: Cipher, ls: seq<Lane>) {
    forall i :: 0 <= i < |ls| ==> LaneOk(aes, i, ls[i])
  }

  // --------------------------------------------------- the kernel

  predicate CanRead(ls: seq<Lane>, p: Ptr, n: nat) {
    match p
    case InBlocks(lane, off) => lane < |ls| && off + n <= |ls[lane].blocks|
    case InText(text, off) => off + n <= |text|
  }

  function Read(ls: seq<Lane>, p: Ptr, n: nat): (r: Bytes)
    requires CanRead(ls, p, n)
    ensures |r| == n
  {
    match p
    case InBlocks(lane, off) => ls[lane].blocks[off..off + n]
    case InText(text, off) => text[off..off + n]
  }

  function Advance(p: Ptr, n: nat): Ptr {
    p.(off := p.off + n)
  }

  /** AES128_CBC_MAC: every lane authenticates `n` bytes. */
  function MacAll(aes: Cipher, ls: seq<Lane>, n: nat): (r: seq<Lane>)
    requires n % 16 == 0 && forall i :: 0 <= i < |ls| ==> CanRead(ls, ls[i].inp, n)
    ensures |r| == |ls|
  {
    seq(|ls|, i requires 0 <= i < |ls| =>
      ls[i].(iv := CbcMac(aes, ls[i].key, ls[i].iv, Read(ls, ls[i].inp, n)), inp := Advance(ls[i].inp, n)))
  }

  function Shorter(ls: seq<Lane>, n: nat): (r: seq<Lane>)
    requires forall i :: 0 <= i < |ls| ==> n <= ls[i].lens
    ensures |r| == |ls|
  {
    seq(|ls|, i requires 0 <= i < |ls| => ls[i].(lens := ls[i].lens - n))
  }

  /** The next `n` bytes of the text a lane still has to authenticate. */
  ghost function Next(aes: Cipher, l: Lane, j: Job, n: nat): Bytes
    requires Accepted(j) && n <= l.lens <= End(j, l.initDone) <= |Full(aes, j)|
  {
    var at := End(j, l.initDone) - l.lens;
    Full(aes, j)[at..at + n]
  }

  lemma ReadsHeader(aes: Cipher, ls: seq<Lane>, i: nat, j: Job, n: nat)
    requires i < |ls| && Holds(aes, i, ls[i], j) && ls[i].initDone == 0 && n <= ls[i].lens
    ensures CanRead(ls, ls[i].inp, n) && Read(ls, ls[i].inp, n) == Next(aes, ls[i], j, n)
  {
    hide Header, Plain, Zeros, CbcMac, B0, Pad, Whole, RoundedUp;
    var l, h := ls[i], Header(j);
    var at := |h| - l.lens;
    assert Full(aes, j)[at..at + n] == h[at..at + n];
    Cut(l.blocks, h, |h|, at, n);
  }

  lemma ReadsBlocks(aes: Cipher, ls: seq<Lane>, i: nat, j: Job, n: nat)
    requires i < |ls| && Holds(aes, i, ls[i], j) && ls[i].initDone == 1 && n <= ls[i].lens
    ensures CanRead(ls, ls[i].inp, n) && Read(ls, ls[i].inp, n) == Next(aes, ls[i], j, n)
  {
    hide Header, Plain, Zeros, CbcMac, B0, Pad, Whole, RoundedUp;
    var l, p, q := ls[i], Plain(aes, j), Whole(|j.src|);
    TextSplits(p, q);
    Rounding(|j.src|);
    Within(Header(j), Pad(p), q - l.lens, n);
    Cut(Pad(p), p, q, q - l.lens, n);
  }

  lemma ReadsLast(aes: Cipher, ls: seq<Lane>, i: nat, j: Job, n: nat)
    requires i < |ls| && Holds(aes, i, ls[i], j) && ls[i].initDone == 2 && n <= ls[i].lens
    ensures CanRead(ls, ls[i].inp, n) && Read(ls, ls[i].inp, n) == Next(aes, ls[i], j, n)
  {
    hide Header, Plain, Zeros, CbcMac, B0, Pad, Whole, RoundedUp;
    var l, p, q := ls[i], Plain(aes, j), Whole(|j.src|);
    TextSplits(p, q);
    Within(Header(j), Pad(p), q + (16 - l.lens), n);
    Behind(Pad(p), q, 16 - l.lens, n);
    Behind(l.blocks[..32], 16, 16 - l.lens, n);
    assert l.blocks[..32][16..] == l.blocks[16..32];
    Cut(l.blocks, l.blocks[..32], 32, 32 - l.lens, n);
  }

  /** What a lane is about to read is the next piece of its own job's text. */
  lemma FeedsItsOwn(aes: Cipher, ls: seq<Lane>, i: nat, j: Job, n: nat)
    requires i < |ls| && Holds(aes, i, ls[i], j) && n <= ls[i].lens
    ensures CanRead(ls, ls[i].inp, n) && Read(ls, ls[i].inp, n) == Next(aes, ls[i], j, n)
  {
    hide Header, Plain, Zeros, CbcMac, B0, Pad, Whole, RoundedUp, Full, Read, CanRead, Feeds, End, PhaseLen;
    if ls[i].initDone == 0 {
      ReadsHeader(aes, ls, i, j, n);
    } else if ls[i].initDone == 1 {
      ReadsBlocks(aes, ls, i, j, n);
    } else {
      ReadsLast(aes, ls, i, j, n);
    }
  }

  lemma Within(h: Bytes, t: Bytes, at: nat, n: nat)
    requires at + n <= |t|
    ensures (h + t)[|h| + at..|h| + at + n] == t[at..at + n]
  {
  }

  lemma Behind(a: Bytes, q: nat, at: nat, n: nat)
    requires q + at + n <= |a|
    ensures a[q + at..q + at + n] == a[q..][at..at + n]
  {
  }

  lemma Cut(a: Bytes, b: Bytes, q: nat, at: nat, n: nat)
    requires at + n <= q <= |a| && q <= |b| && a[..q] == b[..q]
    ensures a[at..at + n] == b[at..at + n]
  {
  }

  /** The text is its whole blocks and, if something is left, one padded block. */
  lemma TextSplits(p: Bytes, q: nat)
    requires q == Whole(|p|)
    ensures Pad(p)[..q] == p[..q]
    ensures |p| % 16 == 0 ==> |Pad(p)| == q
    ensures |p| % 16 != 0 ==> RoundedUp(|p|) == q + 16 == |Pad(p)| && |Pad(p[q..])| == 16 && Pad(p)[q..] == Pad(p[q..])
  {
  }

  // ------------------------------------------------ one round, one phase

  function Macked(aes: Cipher, l: Lane, data: Bytes): Lane
    requires |data| % 16 == 0 && |data| <= l.lens
  {
    l.(lens := l.lens - |data|, iv := CbcMac(aes, l.key, l.iv, data), inp := Advance(l.inp, |data|))
  }

  lemma MackedHolds(aes: Cipher, i: nat, l: Lane, j: Job, n: nat)
    requires Holds(aes, i, l, j) && n <= l.lens && n % 16 == 0
    ensures Holds(aes, i, Macked(aes, l, Next(aes, l, j, n)), j)
  {
    hide Header, Plain, Zeros, B0, Pad, Whole, RoundedUp, Full, CbcMac;
    var m := Macked(aes, l, Next(aes, l, j, n));
    var f, at := Full(aes, j), End(j, l.initDone) - l.lens;
    assert f[..at] + f[at..at + n] == f[..at + n];
    SumOfSixteens(at, n);
    CbcMacAppend(aes, j.key, Zeros(16), f[..at], f[at..at + n]);
    assert at + n == End(j, m.initDone) - m.lens;
    DifferenceOfSixteens(l.lens, n);
  }

  lemma DifferenceOfSixteens(a: nat, b: nat)
    requires a % 16 == 0 && b % 16 == 0 && b <= a
    ensures (a - b) % 16 == 0
  {
  }

  /** A lockstep round: whatever the lanes hold, each stays right about its
      own job when all of them advance by a common length. */
  lemma RoundKeepsLanes(aes: Cipher, ls: seq<Lane>, n: nat)
    requires LanesOk(aes, ls) && n % 16 == 0
    requires forall i :: 0 <= i < |ls| ==> CanRead(ls, ls[i].inp, n) && n <= ls[i].lens
    ensures forall i :: 0 <= i < |ls| ==> CanRead(Shorter(ls, n), Shorter(ls, n)[i].inp, n)
    ensures LanesOk(aes, MacAll(aes, Shorter(ls, n), n))
  {
    hide Holds, Read;
    var rs := MacAll(aes, Shorter(ls, n), n);
    forall i | 0 <= i < |ls|
      ensures LaneOk(aes, i, rs[i])
    {
      ReadsAlike(ls, Shorter(ls, n), ls[i].inp, n);
      if ls[i].job.Some? {
        var j := ls[i].job.value;
        HoldsBounds(aes, i, ls[i], j, n);
        FeedsItsOwn(aes, ls, i, j, n);
        MackedHolds(aes, i, ls[i], j, n);
        assert rs[i] == Macked(aes, ls[i], Next(aes, ls[i], j, n));
      }
    }
  }

  lemma HoldsBounds(aes: Cipher, i: nat, l: Lane, j: Job, n: nat)
    requires Holds(aes, i, l, j) && n <= l.lens
    ensures Accepted(j) && l.lens <= End(j, l.initDone) <= |Full(aes, j)| && |Next(aes, l, j, n)| == n
  {
  }

  lemma ReadsAlike(a: seq<Lane>, b: seq<Lane>, p: Ptr, n: nat)
    requires |a| == |b| && (forall i :: 0 <= i < |a| ==> a[i].blocks == b[i].blocks) && CanRead(a, p, n)
    ensures CanRead(b, p, n) && Read(b, p, n) == Read(a, p, n)
  {
  }

  /** A round of no bytes changes nothing. */
  lemma EmptyRound(aes: Cipher, ls: seq<Lane>)
    requires forall i :: 0 <= i < |ls| ==> CanRead(ls, ls[i].inp, 0)
    ensures forall i :: 0 <= i < |ls| ==> CanRead(Shorter(ls, 0), Shorter(ls, 0)[i].inp, 0)
    ensures MacAll(aes, Shorter(ls, 0), 0) == ls
  {
  }

  /** Header done: the whole blocks of the message are next. */
  lemma ToBlocks(aes: Cipher, i: nat, l: Lane, j: Job)
    requires Holds(aes, i, l, j) && l.initDone == 0 && l.lens == 0
    ensures Holds(aes, i, l.(initDone := 1, inp := InText(Plain(aes, j), 0), lens := Whole(|j.src|)), j)
  {
    hide Header, Plain, Zeros, B0, Pad, Whole, RoundedUp, CbcMac;
    Rounding(|j.src|);
    SumOfSixteens(|Header(j)|, Whole(|j.src|));
  }

  function LastBlock(pb: Bytes, rest: Bytes): Bytes
    requires |pb| == 64 && |rest| <= 16
  {
    SetBytes(SetBytes(pb, 16, Zeros(16)), 16, rest)
  }

  lemma LastBlockIsPadded(pb: Bytes, rest: Bytes)
    requires |pb| == 64 && 0 < |rest| < 16
    ensures var r := LastBlock(pb, rest); |r| == 64 && r[..16] == pb[..16] && r[16..32] == Pad(rest)
  {
  }

  /** Whole blocks done: what is left over goes through the lane's own blocks. */
  lemma ToLast(aes: Cipher, i: nat, l: Lane, j: Job, rest: Bytes)
    requires Holds(aes, i, l, j) && l.initDone == 1 && l.lens == 0 && |j.src| % 16 != 0
    requires rest == Plain(aes, j)[Whole(|j.src|)..]
    ensures |rest| == |j.src| % 16
    ensures Holds(aes, i, l.(initDone := 2, lens := 16, blocks := LastBlock(l.blocks, rest), inp := InBlocks(i, 16)), j)
  {
    hide Header, Plain, Zeros, B0, Pad, Whole, RoundedUp, CbcMac, LastBlock;
    Rounding(|j.src|);
    LastBlockIsPadded(l.blocks, rest);
    SumOfSixteens(|Header(j)|, RoundedUp(|j.src|));
    SumOfSixteens(|Header(j)|, Whole(|j.src|));
  }

  /** Nothing left: the chaining value is the code of the whole text. */
  lemma AllDone(aes: Cipher, i: nat, l: Lane, j: Job)
    requires Holds(aes, i, l, j) && l.lens == 0
    requires l.initDone == 2 || (l.initDone == 1 && |j.src| % 16 == 0)
    ensures l.iv == CbcMac(aes, j.key, Zeros(16), Full(aes, j))
  {
    hide Header, Plain, Zeros, B0, Pad, Whole, RoundedUp, CbcMac, Feeds;
    Rounding(|j.src|);
    assert Full(aes, j)[..|Full(aes, j)|] == Full(aes, j);
  }
}
