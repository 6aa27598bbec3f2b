/** Replica chains (get_chain, spdk/app/leed/kv_ring.c:217-249) while at most one
    vnode of the ring is joining or leaving, and what each reconfiguration step
    does to the chain of every key. */
module RingChain {
  import opened SeqOps
  import opened RingOrder

  /** `vids` serve the key in order, head first; `copy` receives pre-copied data. */
  datatype Chain = Chain(vids: Ring, copy: Option<Vnode>, invalid: Option<Vnode>)

  datatype ChainResult = EmptyRing | TwoInvalid | Found(chain: Chain)

  ghost predicate AllRunning(s: Ring) {
    forall i :: 0 <= i < |s| ==> s[i].state == Running
  }

  /** At most one vnode is not running. */
  ghost predicate OneInvalid(s: Ring) {
    forall i, j :: 0 <= i < j < |s| ==> s[i].state == Running || s[j].state == Running
  }

  /** Only vnode `p` is not running. */
  ghost predicate OnlyInvalid(s: Ring, p: nat)
    requires p < |s|
  {
    s[p].state != Running && forall i :: 0 <= i < |s| && i != p ==> s[i].state == Running
  }

  function Serving(s: Ring): Ring {
    if s == [] then []
    else (if s[0].state == Running then [s[0]] else []) + Serving(s[1..])
  }

  function FirstInvalid(s: Ring): (p: nat)
    ensures p <= |s|
    ensures p < |s| ==> s[p].state != Running
    ensures forall i :: 0 <= i < p ==> s[i].state == Running
  {
    if s == [] || s[0].state != Running then 0 else 1 + FirstInvalid(s[1..])
  }

  /** The chain of a key whose clockwise view is `s`, for replication factor `n`:
      the first `n` running vnodes.  A leaving vnode met on the way takes one of
      the `n` places, and its stand-in is the vnode the walk stopped at. */
  function ChainOf(s: Ring, n: nat): Chain {
    var p := FirstInvalid(s);
    if p < |s| && p < n then
      if s[p].state == Leaving then
        Chain(Take(Serving(s), n - 1), if n < |s| then Some(s[n]) else None, Some(s[p]))
      else
        Chain(Take(Serving(s), n), Some(s[p]), Some(s[p]))
    else
      Chain(Take(Serving(s), n), None, None)
  }

  function KeyChain(r: Ring, key: U64, n: nat): Chain
    requires r != []
  {
    ChainOf(View(r, key), n)
  }

  lemma {:induction false} ServingConcat(s: Ring, t: Ring)
    ensures Serving(s + t) == Serving(s) + Serving(t)
  {
    if s == [] {
      assert s + t == t;
    } else {
      var h: Ring := if s[0].state == Running then [s[0]] else [];
      assert (s + t)[1..] == s[1..] + t;
      ServingConcat(s[1..], t);
      assert Serving(s + t) == h + (Serving(s[1..]) + Serving(t));
      assert Serving(s) == h + Serving(s[1..]);
    }
  }

  lemma {:induction false} ServingAllRunning(s: Ring)
    requires AllRunning(s)
    ensures Serving(s) == s && FirstInvalid(s) == |s|
  {
    if s != [] { ServingAllRunning(s[1..]); }
  }

  lemma {:induction false} ServingOnlyInvalid(s: Ring, p: nat)
    requires p < |s| && OnlyInvalid(s, p)
    ensures Serving(s) == Without(s, p) && FirstInvalid(s) == p
  {
    if p == 0 {
      ServingAllRunning(s[1..]);
    } else {
      ServingOnlyInvalid(s[1..], p - 1);
      assert Without(s, p) == [s[0]] + Without(s[1..], p - 1);
    }
  }

  lemma OneInvalidPrefix(s: Ring, k: nat)
    requires k <= |s| && OneInvalid(s)
    ensures var p := FirstInvalid(s);
            Serving(s[..k]) == if p < k then Without(s[..k], p) else s[..k]
  {
    var p := FirstInvalid(s);
    if p < k {
      ServingOnlyInvalid(s[..k], p);
    } else {
      ServingAllRunning(s[..k]);
    }
  }

  lemma {:induction false} ServingMember(s: Ring, y: Vnode)
    ensures y in Serving(s) <==> y in s && y.state == Running
  {
    if s != [] {
      assert s == [s[0]] + s[1..];
      ServingMember(s[1..], y);
    }
  }

  /** Position in the view of the vnode at list index `i`. */
  function ViewPos(r: Ring, key: U64, i: nat): (p: nat)
    requires i < |r|
    ensures p < |r| && View(r, key)[p] == r[i]
  {
    var b := Find(r, key);
    if i >= b then i - b else i - b + |r|
  }

  function ListPos(r: Ring, key: U64, p: nat): (i: nat)
    requires p < |r|
    ensures i < |r| && View(r, key)[p] == r[i] && ViewPos(r, key, i) == p
  {
    var b := Find(r, key);
    if b + p < |r| then b + p else b + p - |r|
  }

  lemma ViewOneInvalid(r: Ring, key: U64)
    requires r != []
    ensures OneInvalid(r) <==> OneInvalid(View(r, key))
  {
    var s := View(r, key);
    if OneInvalid(r) {
      forall i, j | 0 <= i < j < |s|
        ensures s[i].state == Running || s[j].state == Running
      {
        var i', j' := ListPos(r, key, i), ListPos(r, key, j);
        assert i' < j' || j' < i';
      }
    }
    if OneInvalid(s) {
      forall i, j | 0 <= i < j < |r|
        ensures r[i].state == Running || r[j].state == Running
      {
        var i', j' := ViewPos(r, key, i), ViewPos(r, key, j);
        assert i' < j' || j' < i';
      }
    }
  }

  lemma ViewOnlyInvalid(r: Ring, key: U64, i: nat)
    requires i < |r| && OnlyInvalid(r, i)
    ensures OnlyInvalid(View(r, key), ViewPos(r, key, i))
  {
  }

  lemma ViewAllRunning(r: Ring, key: U64)
    requires r != [] && AllRunning(r)
    ensures AllRunning(View(r, key))
  {
  }

  /** Replicas wanted after the first `k` vnodes of the view. */
  function Want(s: Ring, k: nat, n: nat): int {
    var p := FirstInvalid(s);
    if p < k && p < |s| && s[p].state == Leaving then n - 1 else n
  }

  /** A walk of `k` vnodes that stopped for lack of need or of vnodes found the chain. */
  lemma WalkFindsChain(s: Ring, k: nat, n: nat)
    requires OneInvalid(s) && k <= |s|
    requires var p, got := FirstInvalid(s), |Serving(s[..k])|;
             && (p < k ==> p < n)
             && got <= Want(s, k, n)
             && (got == Want(s, k, n) || k == |s|)
    ensures var p, c := FirstInvalid(s), ChainOf(s, n);
            && c.vids == Serving(s[..k])
            && c.invalid == (if p < k then Some(s[p]) else None)
            && c.copy == (if p >= k || s[p].state == Running then None else if s[p].state == Joining then Some(s[p])
                          else if k < |s| then Some(s[k]) else None)
  {
    hide Serving, OneInvalid, FirstInvalid, Take, Without;
    var p := FirstInvalid(s);
    OneInvalidPrefix(s, k);
    OneInvalidPrefix(s, |s|);
    assert s[..|s|] == s;
    WholeTaken(s, p, k, n);
    if p < |s| {
      TakeWithout(s, p, n);
      if p < k { PrefixWithout(s, p, k); }
    }
  }

  lemma PrefixWithout(s: Ring, p: nat, k: nat)
    requires p < k <= |s|
    ensures |Without(s[..k], p)| == k - 1
    ensures Without(s[..k], p) == Take(Without(s, p), k - 1)
    ensures k == |s| ==> forall m :: m >= k - 1 ==> Take(Without(s, p), m) == Without(s, p)
  {
  }

  lemma WholeTaken(s: Ring, p: nat, k: nat, n: nat)
    requires k <= |s|
    ensures Take(s, k) == s[..k]
    ensures p < |s| && k <= p ==> Take(Without(s, p), k) == s[..k]
    ensures |s| <= n ==> Take(s, n) == s
  {
  }

  /** The walk of get_chain: clockwise from `base`, collecting running vnodes;
      `want` shrinks when the leaving vnode is passed. */
  method Walk(r: Ring, base: nat, n: nat) returns (result: ChainResult)
    requires base < |r|
    ensures result.Found? || result.TwoInvalid?
    ensures OneInvalid(Rotate(r, base)) ==> result == Found(ChainOf(Rotate(r, base), n))
    ensures result.TwoInvalid? ==> !OneInvalid(Rotate(r, base))
  {
    hide ChainOf, Serving, FirstInvalid;
    ghost var s := Rotate(r, base);
    ghost var p := FirstInvalid(s);
    assert s[..0] == [] && Serving([]) == [] by { NoneServing(); }
    var vids: Ring, invalid, want := [], None, n;
    var x: nat := base;
    ghost var k: nat := 0;
    while |vids| < want
      invariant x < |r| && k < |r| && x == if base + k < |r| then base + k else base + k - |r|
      invariant vids == Serving(s[..k]) && |vids| <= want
      invariant invalid == if p < k then Some(s[p]) else None
      invariant p < k ==> p < n
      invariant want == Want(s, k, n)
      decreases |r| - k
    {
      assert r[x] == s[k];
      StepServing(s, k);
      if r[x].state == Running {
        vids := vids + [r[x]];
      } else {
        if invalid.Some? {
          return TwoInvalid;
        }
        AllRunningBefore(s, k);
        invalid := Some(r[x]);
        if r[x].state == Leaving { want := want - 1; }
      }
      x := if x + 1 == |r| then 0 else x + 1;
      k := k + 1;
      if x == base { break; }
    }
    var copy := None;
    if invalid.Some? {
      if invalid.value.state == Leaving && x != base { copy := Some(r[x]); }
      if invalid.value.state == Joining { copy := invalid; }
    }
    result := Found(Chain(vids, copy, invalid));
    if OneInvalid(s) { WalkFindsChain(s, k, n); }
  }

  lemma NoneServing()
    ensures Serving([]) == []
  {
  }

  /** get_chain: the walk starts at the owner of the key. */
  method GetChain(r: Ring, key: U64, n: nat) returns (result: ChainResult)
    ensures result.EmptyRing? <==> r == []
    ensures r != [] && OneInvalid(r) ==> result == Found(KeyChain(r, key, n))
    ensures result.TwoInvalid? ==> !OneInvalid(r)
  {
    if r == [] { return EmptyRing; }
    var base := FindVidEntry(r, key);
    ViewOneInvalid(r, key);
    result := Walk(r, base, n);
  }

  lemma StepServing(s: Ring, k: nat)
    requires k < |s|
    ensures Serving(s[..k + 1]) == Serving(s[..k]) + if s[k].state == Running then [s[k]] else []
  {
    assert s[..k + 1] == s[..k] + [s[k]];
    ServingConcat(s[..k], [s[k]]);
  }

  lemma AllRunningBefore(s: Ring, k: nat)
    requires k < |s| && s[k].state != Running && k <= FirstInvalid(s)
    ensures FirstInvalid(s) == k && Serving(s[..k]) == s[..k]
  {
    ServingAllRunning(s[..k]);
  }

  // ----- reconfiguration steps -----

  /** The vnode when its last copy is done, and when it is told to leave. */
  function Joined(v: Vnode): Vnode { v.(state := Running, cp := 0) }

  function Departing(v: Vnode): Vnode { v.(state := Leaving, rm := Inc32(v.rm)) }

  /** Replacing a vnode by one with the same id leaves every lookup as it was. */
  lemma ReplaceFind(r: Ring, i: nat, y: Vnode, key: U64)
    requires i < |r| && y.vid == r[i].vid
    ensures Find(r[i := y], key) == Find(r, key)
  {
    var r' := r[i := y];
    var f, f' := Find(r, key), Find(r', key);
    assert r'[f].vid == r[f].vid && r'[f'].vid == r[f'].vid && r'[|r| - 1].vid == r[|r| - 1].vid;
    assert Dist(r', r'[f].vid) == Dist(r, r[f].vid) && Dist(r', r'[f'].vid) == Dist(r, r[f'].vid);
  }

  lemma ReplaceSorted(r: Ring, i: nat, y: Vnode)
    requires i < |r| && y.vid == r[i].vid && Sorted(r)
    ensures Sorted(r[i := y])
  {
  }

  lemma ReplaceView(r: Ring, i: nat, y: Vnode, key: U64)
    requires i < |r| && y.vid == r[i].vid
    ensures View(r[i := y], key) == View(r, key)[ViewPos(r, key, i) := y]
  {
    ReplaceFind(r, i, y, key);
  }

  /** Chain of a view in which only vnode `p` is not running. */
  lemma ChainWithInvalid(s: Ring, p: nat, n: nat)
    requires p < |s| && OnlyInvalid(s, p)
    ensures var c := ChainOf(s, n);
            && c.vids == Take(Without(s, p), if p < n && s[p].state == Leaving then n - 1 else n)
            && c.invalid == (if p < n then Some(s[p]) else None)
            && c.copy == if p >= n then None
                         else if s[p].state == Joining then Some(s[p])
                         else if n < |s| then Some(s[n]) else None
  {
    ServingOnlyInvalid(s, p);
  }

  lemma ChainAllRunning(s: Ring, n: nat)
    requires AllRunning(s)
    ensures ChainOf(s, n) == Chain(Take(s, n), None, None)
  {
    ServingAllRunning(s);
  }

  lemma WithoutInvalid(s: Ring, p: nat)
    requires p < |s| && OnlyInvalid(s, p)
    ensures AllRunning(Without(s, p))
  {
  }

  lemma WithRunning(s: Ring, p: nat)
    requires p < |s| && AllRunning(Without(s, p)) && s[p].state != Running
    ensures OnlyInvalid(s, p)
  {
    forall i | 0 <= i < |s| && i != p
      ensures s[i].state == Running
    {
      assert s[i] == Without(s, p)[if i < p then i else i - 1];
    }
  }

  /** Inserting a joining vnode changes no serving chain. */
  lemma JoinStartKeepsChains(r: Ring, x: Vnode, key: U64, n: nat)
    requires r != [] && Sorted(r) && AllRunning(r)
    requires Fresh(r, x.vid) && x.state == Joining
    ensures KeyChain(Insert(r, x), key, n).vids == KeyChain(r, key, n).vids
  {
    var p := InsertView(r, x, key);
    var v := View(Insert(r, x), key);
    ViewAllRunning(r, key);
    ChainAllRunning(View(r, key), n);
    WithRunning(v, p);
    ChainWithInvalid(v, p, n);
  }

  lemma JoinEndShapes(r: Ring, i: nat, key: U64, n: nat)
    requires i < |r| && OnlyInvalid(r, i) && r[i].state == Joining
    ensures var s, p, y := View(r, key), ViewPos(r, key, i), Joined(r[i]);
            && KeyChain(r, key, n).vids == Take(Without(s, p), n)
            && KeyChain(r, key, n).copy == (if p < n then Some(r[i]) else None)
            && View(r[i := Joined(r[i])], key) == s[p := y]
            && KeyChain(r[i := Joined(r[i])], key, n).vids == Take(s[p := y], n)
  {
    var r', p := r[i := Joined(r[i])], ViewPos(r, key, i);
    ReplaceView(r, i, Joined(r[i]), key);
    ViewOnlyInvalid(r, key, i);
    ChainWithInvalid(View(r, key), p, n);
    ViewAllRunning(r', key);
    ChainAllRunning(View(r', key), n);
  }

  /** When the joining vnode starts to run, every chain becomes the old one with
      the vnode put in at its ring position and cut to the replication factor. */
  lemma JoinEndInsertsVnode(r: Ring, i: nat, key: U64, n: nat)
    requires i < |r| && OnlyInvalid(r, i) && r[i].state == Joining
    ensures var r' := r[i := Joined(r[i])];
            KeyChain(r', key, n).vids == Take(Splice(KeyChain(r, key, n).vids, ViewPos(r, key, i), r'[i]), n)
    ensures KeyChain(r, key, n).copy == if ViewPos(r, key, i) < n then Some(r[i]) else None
  {
    JoinEndShapes(r, i, key, n);
    TakeReplaced(View(r, key), ViewPos(r, key, i), Joined(r[i]), n);
  }

  lemma ViewDistinct(r: Ring, key: U64)
    requires r != [] && Sorted(r)
    ensures Distinct(View(r, key))
  {
  }

  /** At the end of a join the tail of a chain that receives the vnode stops
      serving exactly when the chain was full: the `del` flag of start_copy. */
  lemma JoinEndDropsFullTail(r: Ring, i: nat, key: U64, n: nat)
    requires |r| > 1 && i < |r| && Sorted(r) && OnlyInvalid(r, i) && r[i].state == Joining
    requires KeyChain(r, key, n).copy.Some?
    ensures DropsLastIfFull(KeyChain(r, key, n).vids, KeyChain(r[i := Joined(r[i])], key, n).vids, n)
  {
    var s, p, y := View(r, key), ViewPos(r, key, i), Joined(r[i]);
    JoinEndShapes(r, i, key, n);
    assert Distinct(s[p := y]) by {
      ReplaceSorted(r, i, Joined(r[i]));
      ViewDistinct(r[i := Joined(r[i])], key);
    }
    ReplacedDropsLast(s, p, y, n);
  }

  /** Marking a vnode as leaving only takes it out of the chains. */
  lemma LeaveStartRemovesVnode(r: Ring, i: nat, key: U64, n: nat)
    requires i < |r| && AllRunning(r)
    ensures var c, p := KeyChain(r, key, n).vids, ViewPos(r, key, i);
            KeyChain(r[i := Departing(r[i])], key, n).vids == if p < |c| then Without(c, p) else c
  {
    var r', p := r[i := Departing(r[i])], ViewPos(r, key, i);
    ReplaceView(r, i, Departing(r[i]), key);
    ViewAllRunning(r, key);
    ChainAllRunning(View(r, key), n);
    ViewOnlyInvalid(r', key, i);
    ChainWithInvalid(View(r', key), p, n);
    var s := View(r, key);
    assert Without(View(r', key), p) == Without(s, p);
    TakeWithout(s, p, n);
  }

  /** Removing the leaving vnode appends exactly the pre-copied vnode. */
  lemma LeaveEndAppendsCopy(r: Ring, i: nat, key: U64, n: nat)
    requires |r| > 1 && Sorted(r) && i < |r| && OnlyInvalid(r, i) && r[i].state == Leaving
    ensures var c := KeyChain(r, key, n);
            KeyChain(Delete(r, i), key, n).vids == c.vids + if c.copy.Some? then [c.copy.value] else []
  {
    var p := DeleteView(r, i, key);
    var s := View(r, key);
    ViewIsClockwise(r, key);
    ClockwiseDistinct(s, key, p, ViewPos(r, key, i));
    ViewOnlyInvalid(r, key, i);
    ChainWithInvalid(s, p, n);
    WithoutInvalid(s, p);
    ChainAllRunning(Without(s, p), n);
    TakeWithout(s, p, n);
  }

  /** Every vnode of `d` is, by id, a member of the chain or its copy target. */
  ghost predicate Covered(c: Chain, d: Ring) {
    forall q :: 0 <= q < |d| ==> Covers(c, d[q].vid)
  }

  ghost predicate Covers(c: Chain, v: U64) {
    || (exists i :: 0 <= i < |c.vids| && c.vids[i].vid == v)
    || (c.copy.Some? && c.copy.value.vid == v)
  }
}
