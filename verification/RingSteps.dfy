/** What one membership event does to the chains of all keys: every case of
    update_ring (spdk/app/leed/kv_ring.c:560-620), not only the intended order
    of events, and exactly which events let a vnode serve a key whose data it
    has not received. */
module RingSteps {
  import opened SeqOps
  import opened RingOrder
  import opened RingChain
  import opened RingUpdate

  // ----- chains by position in the view of a key -----

  ghost predicate DistinctIds(s: Ring) {
    forall i, j :: 0 <= i < j < |s| ==> s[i].vid != s[j].vid
  }

  /** Place `k` is within reach of the walk, in a view of `len` vnodes whose
      invalid vnode, if any, is at `w` and joining or not. */
  predicate Reached(len: nat, w: nat, joining: bool, n: nat, k: nat) {
    if w < n && w < len && joining then k <= n else k < n
  }

  /** Place `k` is within reach or is the copy target. */
  predicate Supplied(len: nat, w: nat, joining: bool, n: nat, k: nat) {
    if w < n && w < len then k <= n && (k != w || joining) else k < n
  }

  predicate Joins(s: Ring) {
    var w := FirstInvalid(s);
    w < |s| && s[w].state == Joining
  }

  /** The vnode at place `k` serves. */
  predicate Serves(s: Ring, n: nat, k: nat)
    requires k < |s|
  {
    s[k].state == Running && Reached(|s|, FirstInvalid(s), Joins(s), n, k)
  }

  /** The vnode at place `k` serves or is the copy target. */
  predicate HasData(s: Ring, n: nat, k: nat)
    requires k < |s|
  {
    Supplied(|s|, FirstInvalid(s), Joins(s), n, k)
  }

  lemma FirstInvalidIs(s: Ring, w: nat)
    requires w <= |s| && (forall i :: 0 <= i < w ==> s[i].state == Running) && (w < |s| ==> s[w].state != Running)
    ensures FirstInvalid(s) == w
  {
  }

  lemma InvalidAt(s: Ring, p: nat)
    requires OneInvalid(s) && p < |s| && s[p].state != Running
    ensures OnlyInvalid(s, p) && FirstInvalid(s) == p
  {
    FirstInvalidIs(s, p);
  }

  lemma OneInvalidShape(s: Ring)
    requires OneInvalid(s)
    ensures var w := FirstInvalid(s); if w < |s| then OnlyInvalid(s, w) else AllRunning(s)
  {
  }

  lemma TakeMember<T>(s: seq<T>, m: nat, k: nat)
    requires k < |s| && Distinct(s)
    ensures s[k] in Take(s, m) <==> k < m
  {
    if k < m { assert Take(s, m)[k] == s[k]; }
  }

  lemma WithoutMember<T>(s: seq<T>, p: nat, k: nat, m: nat)
    requires p < |s| && k < |s| && Distinct(s)
    ensures s[k] in Take(Without(s, p), m) <==> k != p && (if k < p then k < m else k <= m)
  {
    var t := Take(Without(s, p), m);
    var j := if k < p then k else k - 1;
    forall q | 0 <= q < |t|
      ensures t[q] == s[if q < p then q else q + 1]
    {
    }
    if k != p && j < m && 0 <= j { assert t[j] == s[k]; }
  }

  lemma IdsDistinct(s: Ring)
    requires DistinctIds(s)
    ensures Distinct(s)
  {
  }

  /** Membership of a chain is a matter of position. */
  lemma ServesIsMember(s: Ring, n: nat, k: nat)
    requires OneInvalid(s) && DistinctIds(s) && k < |s|
    ensures s[k] in ChainOf(s, n).vids <==> Serves(s, n, k)
  {
    hide ChainOf, Serving;
    OneInvalidShape(s);
    IdsDistinct(s);
    var w := FirstInvalid(s);
    if w < |s| {
      ChainWithInvalid(s, w, n);
      WithoutMember(s, w, k, if w < n && s[w].state == Leaving then n - 1 else n);
    } else {
      ChainAllRunning(s, n);
      TakeMember(s, n, k);
    }
  }

  lemma ChainFromView(s: Ring, n: nat, x: Vnode)
    requires OneInvalid(s) && x in ChainOf(s, n).vids
    ensures x in s && x.state == Running
  {
    ServingMember(s, x);
  }

  lemma CopyFromView(s: Ring, n: nat)
    requires OneInvalid(s) && ChainOf(s, n).copy.Some?
    ensures ChainOf(s, n).copy.value in s
  {
  }

  /** So is having the data. */
  lemma HasDataIsCovered(s: Ring, n: nat, k: nat)
    requires OneInvalid(s) && DistinctIds(s) && k < |s|
    ensures Covers(ChainOf(s, n), s[k].vid) <==> HasData(s, n, k)
  {
    hide ChainOf, Serving, FirstInvalid;
    var c := ChainOf(s, n);
    ServesIsMember(s, n, k);
    if s[k] in c.vids { assert Covers(c, s[k].vid); }
    if exists i :: 0 <= i < |c.vids| && c.vids[i].vid == s[k].vid {
      var i :| 0 <= i < |c.vids| && c.vids[i].vid == s[k].vid;
      ChainFromView(s, n, c.vids[i]);
      var j :| 0 <= j < |s| && s[j] == c.vids[i];
      assert j == k;
    }
    assert Covers(c, s[k].vid) <==> Serves(s, n, k) || (c.copy.Some? && c.copy.value.vid == s[k].vid);
    CopyPlace(s, n, k);
  }

  lemma CopyPlace(s: Ring, n: nat, k: nat)
    requires OneInvalid(s) && DistinctIds(s) && k < |s|
    ensures var c, w := ChainOf(s, n), FirstInvalid(s);
      (c.copy.Some? && c.copy.value.vid == s[k].vid) <==>
          w < n && w < |s| && k == if s[w].state == Joining then w else n
    ensures Serves(s, n, k) || (var w := FirstInvalid(s);
        w < n && w < |s| && k == if s[w].state == Joining then w else n)
      <==> HasData(s, n, k)
  {
    hide Serving;
    OneInvalidShape(s);
    var w := FirstInvalid(s);
    if w < |s| { ChainWithInvalid(s, w, n); } else { ChainAllRunning(s, n); }
  }

  /** A vnode the view does not have is not covered. */
  lemma StrangerIsNotCovered(s: Ring, n: nat, v: U64)
    requires OneInvalid(s) && forall i :: 0 <= i < |s| ==> s[i].vid != v
    ensures !Covers(ChainOf(s, n), v)
  {
    hide ChainOf;
    var c := ChainOf(s, n);
    forall i | 0 <= i < |c.vids|
      ensures c.vids[i].vid != v
    {
      ChainFromView(s, n, c.vids[i]);
    }
    if c.copy.Some? { CopyFromView(s, n); }
  }

  /** A chain is covered when each of its places is. */
  lemma CoveredByPlace(s: Ring, t: Ring, n: nat)
    requires OneInvalid(t) && DistinctIds(t)
    ensures Covered(ChainOf(s, n), ChainOf(t, n).vids) <==>
      forall k :: 0 <= k < |t| && Serves(t, n, k) ==> Covers(ChainOf(s, n), t[k].vid)
  {
    hide ChainOf, Serving, Serves, Covers;
    var c, d := ChainOf(s, n), ChainOf(t, n).vids;
    if forall k :: 0 <= k < |t| && Serves(t, n, k) ==> Covers(c, t[k].vid) {
      forall q | 0 <= q < |d|
        ensures Covers(c, d[q].vid)
      {
        ChainFromView(t, n, d[q]);
        var k :| 0 <= k < |t| && t[k] == d[q];
        ServesIsMember(t, n, k);
      }
    }
    if Covered(c, d) {
      forall k | 0 <= k < |t| && Serves(t, n, k)
        ensures Covers(c, t[k].vid)
      {
        ServesIsMember(t, n, k);
        var q :| 0 <= q < |d| && d[q] == t[k];
      }
    }
  }

  // ----- one view against the next -----

  /** A vnode changes its state: only a running vnode set back to joining, with
      more vnodes than replicas, and a leaving vnode set back to running let a
      vnode without the data serve. */
  lemma ReplaceContinuity(s: Ring, p: nat, y: Vnode, n: nat)
    requires p < |s| && y.vid == s[p].vid && DistinctIds(s) && OneInvalid(s) && OneInvalid(s[p := y])
    ensures Covered(ChainOf(s, n), ChainOf(s[p := y], n).vids) <==>
      && !(s[p].state == Running && y.state == Joining && p < n < |s|)
      && !(s[p].state == Leaving && y.state == Running && p < n)
  {
    hide ChainOf, Covers, Serves, HasData;
    var t := s[p := y];
    assert DistinctIds(t);
    CoveredByPlace(s, t, n);
    forall k | 0 <= k < |t|
      ensures t[k].vid == s[k].vid && (Covers(ChainOf(s, n), s[k].vid) <==> HasData(s, n, k))
    {
      HasDataIsCovered(s, n, k);
    }
    ReplacedPlaces(s, p, y, n);
  }

  lemma ReplacedPlaces(s: Ring, p: nat, y: Vnode, n: nat)
    requires p < |s| && OneInvalid(s) && OneInvalid(s[p := y])
    ensures var t := s[p := y];
      (forall k :: 0 <= k < |t| && Serves(t, n, k) ==> HasData(s, n, k)) <==>
      && !(s[p].state == Running && y.state == Joining && p < n < |s|)
      && !(s[p].state == Leaving && y.state == Running && p < n)
  {
    var t := s[p := y];
    OneInvalidShape(s);
    OneInvalidShape(t);
    assert forall i :: 0 <= i < |s| && i != p ==> t[i] == s[i];
    if s[p].state != Running { InvalidAt(s, p); }
    if y.state != Running { InvalidAt(t, p); }
    if s[p].state == Running && y.state == Running { FirstInvalidIs(t, FirstInvalid(s)); }
    if s[p].state != Running && y.state == Running { FirstInvalidIs(t, |t|); }
    if s[p].state == Running && y.state != Running { FirstInvalidIs(s, |s|); }
    if s[p].state == Running && y.state == Joining && p < n < |s| { assert Serves(t, n, n) && !HasData(s, n, n); }
    if s[p].state == Leaving && y.state == Running && p < n { assert Serves(t, n, p) && !HasData(s, n, p); }
  }

  /** A vnode is put in: it must not serve at once. */
  lemma InsertContinuity(s: Ring, t: Ring, p: nat, n: nat)
    requires p < |t| && s == Without(t, p) && DistinctIds(t) && OneInvalid(s) && OneInvalid(t)
    ensures Covered(ChainOf(s, n), ChainOf(t, n).vids) <==> !Serves(t, n, p)
  {
    hide ChainOf, Covers, Serves, HasData;
    CoveredByPlace(s, t, n);
    assert forall i :: 0 <= i < |s| ==> s[i] == t[Up(i, p)];
    StrangerIsNotCovered(s, n, t[p].vid);
    forall k | 0 <= k < |t| && k != p && Serves(t, n, k)
      ensures Covers(ChainOf(s, n), t[k].vid)
    {
      var j := if k < p then k else k - 1;
      assert s[j] == t[k];
      HasDataIsCovered(s, n, j);
      InsertedPlace(s, t, p, n, k);
    }
  }

  lemma InsertedPlace(s: Ring, t: Ring, p: nat, n: nat, k: nat)
    requires p < |t| && s == Without(t, p) && OneInvalid(s) && OneInvalid(t) && k < |t| && k != p && Serves(t, n, k)
    ensures HasData(s, n, if k < p then k else k - 1)
  {
    assert forall i :: 0 <= i < |s| ==> s[i] == t[Up(i, p)];
    var u := FirstInvalid(t);
    OneInvalidShape(t);
    FirstInvalidIs(s, if u == |t| || u == p then |s| else if u < p then u else u - 1);
  }

  /** The place in a view of place `j` of the view without place `p`. */
  function Up(j: nat, p: nat): nat { if j < p then j else j + 1 }

  /** A vnode is taken out: those that move up must have the data. */
  lemma DeleteContinuity(s: Ring, p: nat, n: nat)
    requires p < |s| && DistinctIds(s) && OneInvalid(s) && OneInvalid(Without(s, p))
    ensures Covered(ChainOf(s, n), ChainOf(Without(s, p), n).vids) <==>
      forall j :: 0 <= j < |s| - 1 && Serves(Without(s, p), n, j) ==> HasData(s, n, Up(j, p))
  {
    hide ChainOf, Covers, Serves, HasData;
    var t := Without(s, p);
    assert forall i :: 0 <= i < |t| ==> t[i] == s[Up(i, p)];
    assert DistinctIds(t);
    CoveredByPlace(s, t, n);
    forall j | 0 <= j < |t|
      ensures Covers(ChainOf(s, n), t[j].vid) <==> HasData(s, n, Up(j, p))
    {
      HasDataIsCovered(s, n, Up(j, p));
    }
  }

  lemma DeletedInvalid(s: Ring, p: nat, n: nat)
    requires p < |s| && OneInvalid(s) && s[p].state != Running
    ensures OneInvalid(Without(s, p))
    ensures forall j :: 0 <= j < |s| - 1 && Serves(Without(s, p), n, j) ==> HasData(s, n, Up(j, p))
  {
    InvalidAt(s, p);
    var t := Without(s, p);
    assert forall i :: 0 <= i < |t| ==> t[i] == s[Up(i, p)];
    FirstInvalidIs(t, |t|);
  }

  lemma WithoutUp(s: Ring, p: nat, j: nat)
    requires p < |s| && j < |s| - 1
    ensures Without(s, p)[j] == s[Up(j, p)]
  {
  }

  lemma DeletedFirst(s: Ring, p: nat)
    requires p < |s| && OneInvalid(s) && s[p].state == Running
    ensures var t, w := Without(s, p), FirstInvalid(s);
      && |t| == |s| - 1 && OneInvalid(t) && w != p
      && FirstInvalid(t) == (if w < p then w else w - 1) && Joins(t) == Joins(s)
      && forall i :: 0 <= i < |s| && s[i].state == Running ==> i != w
  {
    var t, w := Without(s, p), FirstInvalid(s);
    OneInvalidShape(s);
    assert forall i :: 0 <= i < |t| ==> t[i] == s[Up(i, p)];
    FirstInvalidIs(t, if w < p then w else w - 1);
  }

  /** A running vnode is taken out.  No key suffers when the running vnodes are no
      more than the replicas, or when the next vnode is leaving. */
  lemma DeletedRunning(s: Ring, p: nat, n: nat)
    requires p < |s| && OneInvalid(s) && s[p].state == Running
    requires (if FirstInvalid(s) < |s| then |s| - 1 else |s|) <= n ||
        s[if p + 1 == |s| then 0 else p + 1].state == Leaving
    ensures OneInvalid(Without(s, p))
    ensures forall j :: 0 <= j < |s| - 1 && Serves(Without(s, p), n, j) ==> HasData(s, n, Up(j, p))
  {
    hide FirstInvalid, OneInvalid, Without, Reached, Supplied;
    DeletedFirst(s, p);
    var x := if p + 1 == |s| then 0 else p + 1;
    if s[x].state == Leaving { InvalidAt(s, x); }
    forall j | 0 <= j < |s| - 1 && Serves(Without(s, p), n, j)
      ensures HasData(s, n, Up(j, p))
    {
      WithoutUp(s, p, j);
      MovesUp(|s|, p, FirstInvalid(s), Joins(s), n, j);
    }
  }

  lemma MovesUp(len: nat, p: nat, w: nat, joining: bool, n: nat, j: nat)
    requires p < len && w <= len && w != p && j < len - 1 && Up(j, p) != w
    requires (if w < len then len - 1 else len) <= n || (!joining && w == if p + 1 == len then 0 else p + 1)
    requires Reached(len - 1, if w < p then w else w - 1, joining, n, j)
    ensures Supplied(len, w, joining, n, Up(j, p))
  {
  }

  /** Otherwise a key with the vnode and the invalid one at these places does. */
  lemma DeletedRunningGap(s: Ring, p: nat, n: nat)
    requires p < n && p < |s| && OneInvalid(s) && s[p].state == Running
    requires var w := FirstInvalid(s);
      if w == |s| then n < |s| else if Joins(s) then p == 0 && n + 1 < |s| else n < w
    ensures OneInvalid(Without(s, p))
    ensures exists j :: 0 <= j < |s| - 1 && Serves(Without(s, p), n, j) && !HasData(s, n, Up(j, p))
  {
    hide FirstInvalid, OneInvalid, Without;
    DeletedFirst(s, p);
    OneInvalidShape(s);
    var w := FirstInvalid(s);
    var j := if w == |s| || n < w then n - 1 else n;
    WithoutUp(s, p, j);
    assert Serves(Without(s, p), n, j) && !HasData(s, n, Up(j, p));
  }

  // ----- the ring before and after -----

  /** The three ways an event can change a ring. */
  datatype Effect = Replaced(i: nat, y: Vnode) | Inserted(x: Vnode) | Deleted(i: nat)

  /** A new vnode's id is not taken. */
  ghost predicate FreshEvent(r: Ring, u: Update) {
    u.msg == Put && ByNode(r, u.node) == |r| ==> Fresh(r, u.vid)
  }

  /** What an event does to a vnode that its node has in the ring. */
  function EffectOn(v: Vnode, i: nat, u: Update): Effect {
    match (u.state, u.msg)
    case (Joining, Put) => Replaced(i, v.(state := Joining, cp := Inc32(v.cp)))
    case (Joining, Del) =>
      Replaced(i, if Dec32(v.cp) == 0 then v.(state := Running, cp := 0) else v.(cp := Dec32(v.cp)))
    case (Running, Put) => Replaced(i, if v.cp == 0 then v.(state := Running) else v)
    case (Leaving, Put) => Replaced(i, v.(state := Leaving, rm := Inc32(v.rm)))
    case (_, Del) => if Dec32(v.rm) == 0 then Deleted(i) else Replaced(i, v.(rm := Dec32(v.rm)))
  }

  function EffectOf(r: Ring, u: Update): Effect {
    var i := ByNode(r, u.node);
    if i < |r| then EffectOn(r[i], i, u) else
      match u.state
      case Joining => Inserted(NewVnode(u).(cp := 1))
      case Running => Inserted(NewVnode(u).(state := Running))
      case Leaving => Inserted(NewVnode(u).(state := Leaving, rm := 2))
  }

  function After(r: Ring, e: Effect): Ring {
    match e
    case Replaced(i, y) => if i < |r| then r[i := y] else r
    case Inserted(x) => Insert(r, x)
    case Deleted(i) => if i < |r| then Delete(r, i) else r
  }

  lemma InsertChanged(r: Ring, x: Vnode, y: Vnode)
    requires y.vid == x.vid && y.node == x.node && ByNode(r, x.node) == |r|
    ensures var s := Insert(r, x); var i := ByNode(s, x.node); i < |s| && s[i] == x && s[i := y] == Insert(r, y)
  {
    var s := Insert(r, x);
    var f := if r == [] then 0 else Find(r, x.vid);
    assert s[f] == x && forall j :: 0 <= j < f ==> s[j] == r[j];
  }

  lemma ApplyIsEffect(t: RingCopy, u: Update)
    requires Apply(t, u).Some?
    ensures Apply(t, u).value.ring == After(t.ring, EffectOf(t.ring, u))
  {
    hide Insert, Delete, ByNode;
    var r := t.ring;
    if ByNode(r, u.node) == |r| && u.msg == Put {
      ApplyToNew(t, u);
    }
  }

  lemma ApplyToNew(t: RingCopy, u: Update)
    requires ByNode(t.ring, u.node) == |t.ring| && u.msg == Put && Apply(t, u).Some?
    ensures Apply(t, u).value.ring == After(t.ring, EffectOf(t.ring, u))
  {
    hide Insert, Delete, ByNode;
    InsertChanged(t.ring, NewVnode(u), EffectOf(t.ring, u).x);
  }

  /** Every event leaves the list in ring order. */
  lemma ApplyKeepsSorted(t: RingCopy, u: Update)
    requires Sorted(t.ring) && FreshEvent(t.ring, u) && Apply(t, u).Some?
    ensures Sorted(Apply(t, u).value.ring)
  {
    hide Apply, Sorted;
    ApplyIsEffect(t, u);
    var r := t.ring;
    match EffectOf(r, u)
    case Replaced(i, y) => ReplaceSorted(r, i, y);
    case Inserted(x) => ApplyInserts(t, u); InsertSorted(r, x);
    case Deleted(i) => DeleteSorted(r, i);
  }

  lemma ApplyInserts(t: RingCopy, u: Update)
    requires Apply(t, u).Some? && EffectOf(t.ring, u).Inserted?
    ensures u.msg == Put && ByNode(t.ring, u.node) == |t.ring| && EffectOf(t.ring, u).x.vid == u.vid
  {
  }

  // ----- views -----

  lemma ViewIds(r: Ring, key: U64)
    requires r != [] && Sorted(r)
    ensures DistinctIds(View(r, key))
  {
    ViewIsClockwise(r, key);
    var s := View(r, key);
    forall i, j | 0 <= i < j < |s|
      ensures s[i].vid != s[j].vid
    {
      assert Sub(s[i].vid, key) < Sub(s[j].vid, key);
    }
  }

  /** From its own id a vnode comes first. */
  lemma FindSelf(r: Ring, b: nat)
    requires Sorted(r) && b < |r|
    ensures Find(r, r[b].vid) == b
  {
  }

  lemma ViewInvalid(r: Ring, key: U64)
    requires r != [] && OneInvalid(r)
    ensures var s := View(r, key);
      && OneInvalid(s) && |s| == |r|
      && (FirstInvalid(s) == |s| <==> FirstInvalid(r) == |r|)
      && (FirstInvalid(r) < |r| ==>
            s[FirstInvalid(s)] == r[FirstInvalid(r)] && FirstInvalid(s) == ViewPos(r, key, FirstInvalid(r)))
  {
    ViewOneInvalid(r, key);
    var s, l := View(r, key), FirstInvalid(r);
    if l < |r| {
      InvalidAt(s, ViewPos(r, key, l));
    } else {
      FirstInvalidIs(s, |s|);
    }
  }

  // ----- all keys -----

  /** No key is served by a vnode without its data. */
  ghost predicate Continuous(r: Ring, r': Ring, n: nat)
    requires r != [] && r' != []
  {
    forall key: U64 :: Covered(KeyChain(r, key, n), KeyChain(r', key, n).vids)
  }

  lemma ReplacedContinuous(r: Ring, i: nat, y: Vnode, n: nat)
    requires i < |r| && Sorted(r) && y.vid == r[i].vid && OneInvalid(r) && OneInvalid(r[i := y])
    ensures Continuous(r, r[i := y], n) <==>
      && !(r[i].state == Running && y.state == Joining && 0 < n < |r|)
      && !(r[i].state == Leaving && y.state == Running && 0 < n)
  {
    hide ChainOf, Covered;
    forall key: U64
      ensures Covered(KeyChain(r, key, n), KeyChain(r[i := y], key, n).vids) <==>
        var p := ViewPos(r, key, i);
        && !(r[i].state == Running && y.state == Joining && p < n < |r|)
        && !(r[i].state == Leaving && y.state == Running && p < n)
    {
      var p := ViewPos(r, key, i);
      ReplaceView(r, i, y, key);
      ViewIds(r, key);
      ViewInvalid(r, key);
      ViewInvalid(r[i := y], key);
      ReplaceContinuity(View(r, key), p, y, n);
    }
    FindSelf(r, i);
    assert ViewPos(r, r[i].vid, i) == 0;
  }

  lemma InsertedContinuous(r: Ring, x: Vnode, n: nat)
    requires r != [] && Sorted(r) && Fresh(r, x.vid) && OneInvalid(r) && OneInvalid(Insert(r, x))
    ensures Insert(r, x) != [] && (Continuous(r, Insert(r, x), n) <==> !(x.state == Running && n > 0))
  {
    hide ChainOf, Covered, Insert;
    InsertSorted(r, x);
    InsertElements(r, x, x);
    var r' := Insert(r, x);
    forall key: U64
      ensures x.state != Running || n == 0 ==> Covered(KeyChain(r, key, n), KeyChain(r', key, n).vids)
    {
      var p := InsertedAt(r, x, key, n);
    }
    if x.state == Running && n > 0 {
      var p := InsertedAt(r, x, x.vid, n);
      InsertedOwns(r, x, x.vid);
      assert OnArc(r[Prev(r, Find(r, x.vid))].vid, x.vid, x.vid);
      assert View(r', x.vid)[0] == x;
      ViewIds(r', x.vid);
      assert p == 0;
      assert !Covered(KeyChain(r, x.vid, n), KeyChain(r', x.vid, n).vids);
    }
  }

  lemma InsertedAt(r: Ring, x: Vnode, key: U64, n: nat) returns (p: nat)
    requires r != [] && Sorted(r) && Fresh(r, x.vid) && OneInvalid(r) && OneInvalid(Insert(r, x)) && Insert(r, x) != []
    ensures var t := View(Insert(r, x), key);
      p < |t| && t[p] == x && (Covered(KeyChain(r, key, n), KeyChain(Insert(r, x), key, n).vids) <==> !Serves(t, n, p))
  {
    hide ChainOf, Covered, Insert;
    InsertSorted(r, x);
    p := InsertView(r, x, key);
    ViewIds(Insert(r, x), key);
    ViewInvalid(r, key);
    ViewInvalid(Insert(r, x), key);
    InsertContinuity(View(r, key), View(Insert(r, x), key), p, n);
  }

  /** The vnodes that run. */
  function Runners(r: Ring): nat { if FirstInvalid(r) < |r| then |r| - 1 else |r| }

  function Succ(r: Ring, i: nat): nat
    requires i < |r|
  {
    if i + 1 == |r| then 0 else i + 1
  }

  lemma DeletedAt(r: Ring, i: nat, key: U64, n: nat)
    requires |r| > 1 && i < |r| && Sorted(r) && OneInvalid(r)
    ensures Delete(r, i) != [] && OneInvalid(Delete(r, i))
    ensures var s, p := View(r, key), ViewPos(r, key, i);
      && |s| == |r| && s[p] == r[i] && OneInvalid(s) && OneInvalid(Without(s, p))
      && (Covered(KeyChain(r, key, n), KeyChain(Delete(r, i), key, n).vids) <==>
          forall j :: 0 <= j < |s| - 1 && Serves(Without(s, p), n, j) ==> HasData(s, n, Up(j, p)))
  {
    hide ChainOf, Covered, Serves, HasData;
    var s := View(r, key);
    var p := DeleteView(r, i, key);
    ViewIsClockwise(r, key);
    ClockwiseDistinct(s, key, p, ViewPos(r, key, i));
    ViewIds(r, key);
    ViewInvalid(r, key);
    WithoutOneInvalid(r, i);
    WithoutOneInvalid(s, p);
    DeleteContinuity(s, p, n);
  }

  lemma WithoutOneInvalid(s: Ring, p: nat)
    requires p < |s| && OneInvalid(s)
    ensures OneInvalid(Without(s, p)) && (|s| > 1 ==> Delete(s, p) == Without(s, p))
  {
    var t := Without(s, p);
    assert forall i :: 0 <= i < |t| ==> t[i] == s[Up(i, p)];
  }

  /** The deletion of a running vnode is harmless when no more vnodes run than
      there are replicas, or when the next vnode is leaving: its stand-in moves up. */
  lemma DeletedHarmless(r: Ring, i: nat, key: U64, n: nat)
    requires |r| > 1 && i < |r| && Sorted(r) && OneInvalid(r) && Delete(r, i) != []
    requires r[i].state == Running ==> Runners(r) <= n || r[Succ(r, i)].state == Leaving
    ensures Covered(KeyChain(r, key, n), KeyChain(Delete(r, i), key, n).vids)
  {
    hide ChainOf, Covered, Serves, HasData, Sorted, OneInvalid, KeyChain, View, Delete, Without, FirstInvalid;
    DeletedAt(r, i, key, n);
    ViewInvalid(r, key);
    var s, p := View(r, key), ViewPos(r, key, i);
    if r[i].state == Running {
      SuccInView(r, key, i);
      DeletedRunning(s, p, n);
    } else {
      DeletedInvalid(s, p, n);
    }
  }

  lemma SuccInView(r: Ring, key: U64, i: nat)
    requires i < |r|
    ensures var s, p := View(r, key), ViewPos(r, key, i);
        |s| == |r| && s[if p + 1 == |s| then 0 else p + 1] == r[Succ(r, i)]
  {
  }

  /** Otherwise some key suffers. */
  lemma DeletedHarmful(r: Ring, i: nat, n: nat) returns (key: U64)
    requires |r| > 1 && i < |r| && Sorted(r) && OneInvalid(r) && Delete(r, i) != []
    requires r[i].state == Running && Runners(r) > n > 0 && r[Succ(r, i)].state != Leaving
    ensures !Covered(KeyChain(r, key, n), KeyChain(Delete(r, i), key, n).vids)
  {
    hide ChainOf, Covered, Serves, HasData, Sorted, OneInvalid, KeyChain, View, Delete, Without, Find;
    var l, q := FirstInvalid(r), 0;
    if l < |r| && r[l].state == Leaving {
      var d := if l > i then l - i else l - i + |r|;
      assert d >= 2;
      q := if |r| - 1 - d < n then |r| - 1 - d else n - 1;
    }
    var b := if i >= q then i - q else i - q + |r|;
    key := r[b].vid;
    FindSelf(r, b);
    assert ViewPos(r, key, i) == q;
    DeletedAt(r, i, key, n);
    ViewInvalid(r, key);
    DeletedRunningGap(View(r, key), q, n);
  }

  lemma DeletedContinuous(r: Ring, i: nat, n: nat)
    requires |r| > 1 && i < |r| && Sorted(r) && OneInvalid(r)
    ensures Delete(r, i) != []
    ensures Continuous(r, Delete(r, i), n) <==>
      !(r[i].state == Running && Runners(r) > n > 0 && r[Succ(r, i)].state != Leaving)
  {
    hide ChainOf, Covered, Serves, HasData, Sorted, OneInvalid, KeyChain, View, Delete, Without;
    DeletedAt(r, i, 0, n);
    if r[i].state == Running && Runners(r) > n > 0 && r[Succ(r, i)].state != Leaving {
      var key := DeletedHarmful(r, i, n);
    } else {
      forall key: U64
        ensures Covered(KeyChain(r, key, n), KeyChain(Delete(r, i), key, n).vids)
      {
        if n == 0 { NoReplicas(Delete(r, i), key); } else { DeletedHarmless(r, i, key, n); }
      }
    }
  }

  lemma NoReplicas(r: Ring, key: U64)
    requires r != []
    ensures forall c :: Covered(c, KeyChain(r, key, 0).vids)
  {
  }

  // ----- all events -----

  /** The events that let a vnode serve a key whose data it has not received: a
      running vnode out of nothing; a leaving vnode that runs again; and, with
      more running vnodes than replicas, a running vnode that starts to join or
      that goes without having left, unless the next vnode is leaving. */
  predicate SkipsCopy(r: Ring, u: Update, n: nat) {
    var i := ByNode(r, u.node);
    n > 0 &&
    match (u.state, u.msg)
    case (Running, Put) => i == |r| || (r[i].state == Leaving && r[i].cp == 0)
    case (Joining, Put) => i < |r| && r[i].state == Running && |r| > n
    case (Running, Del) =>
      i < |r| && r[i].state == Running && r[i].rm == 1 && Runners(r) > n && r[Succ(r, i)].state != Leaving
    case _ => false
  }

  /** Continuity of update_ring, all events and all keys: every serving vnode
      served the key before or was its copy target, exactly for the other events. */
  lemma ApplyContinuousIff(t: RingCopy, u: Update, n: nat)
    requires t.ring != [] && Sorted(t.ring) && OneInvalid(t.ring) && FreshEvent(t.ring, u)
    requires Apply(t, u).Some? && Apply(t, u).value.ring != [] && OneInvalid(Apply(t, u).value.ring)
    ensures Continuous(t.ring, Apply(t, u).value.ring, n) <==> !SkipsCopy(t.ring, u, n)
  {
    hide ChainOf, Covered, Continuous, Apply, Insert, Delete, Sorted, OneInvalid, ByNode;
    var r := t.ring;
    ApplyIsEffect(t, u);
    match EffectOf(r, u)
    case Replaced(i, y) =>
      ReplacedContinuous(r, i, y, n);
      ReplacedSkips(t, u, n);
    case Inserted(x) =>
      ApplyInserts(t, u);
      InsertedContinuous(r, x, n);
    case Deleted(i) =>
      DeletedOne(r, i);
      DeletedContinuous(r, i, n);
      DeletedSkips(t, u, n);
  }

  lemma DeletedOne(r: Ring, i: nat)
    requires i < |r| && Delete(r, i) != []
    ensures |r| > 1
  {
  }

  lemma ReplacedSkips(t: RingCopy, u: Update, n: nat)
    requires Apply(t, u).Some? && EffectOf(t.ring, u).Replaced?
    ensures var i, y := EffectOf(t.ring, u).i, EffectOf(t.ring, u).y; var r := t.ring;
      i < |r| && (SkipsCopy(r, u, n) <==>
        (r[i].state == Running && y.state == Joining && 0 < n < |r|) ||
            (r[i].state == Leaving && y.state == Running && 0 < n))
  {
    hide Insert, Delete, ByNode;
  }

  lemma DeletedSkips(t: RingCopy, u: Update, n: nat)
    requires Apply(t, u).Some? && EffectOf(t.ring, u).Deleted?
    ensures var i := EffectOf(t.ring, u).i; var r := t.ring;
      i < |r| && (SkipsCopy(r, u, n) <==> r[i].state == Running && Runners(r) > n > 0 && r[Succ(r, i)].state != Leaving)
  {
    hide Insert, Delete, ByNode;
  }

  /** The event makes its vnode join or leave. */
  predicate Marks(u: Update) { u.msg == Put && u.state != Running }

  /** With at most one vnode not running, an event makes a second one exactly
      when it marks a vnode while another is joining or leaving. */
  lemma ApplyOneInvalidIff(t: RingCopy, u: Update)
    requires OneInvalid(t.ring) && Apply(t, u).Some?
    ensures var r, w := t.ring, FirstInvalid(t.ring);
      OneInvalid(Apply(t, u).value.ring) <==> !(Marks(u) && w < |r| && w != ByNode(r, u.node))
  {
    hide Apply, ByNode, FirstInvalid, OneInvalid, Insert, Delete;
    ApplyIsEffect(t, u);
    var r := t.ring;
    match EffectOf(r, u)
    case Replaced(i, y) => ReplacedMarks(t, u); MarkedByReplace(r, i, y); if r[i].state != Running { InvalidAt(r, i); }
    case Inserted(x) => ApplyInserts(t, u); MarkedByInsert(r, x);
    case Deleted(i) => DeletedMarks(t, u); WithoutOneInvalid(r, i); NoneLeft(r, i);
  }

  lemma NoneLeft(r: Ring, i: nat)
    requires i < |r|
    ensures |r| == 1 ==> OneInvalid(Delete(r, i))
  {
  }

  lemma MarkedByReplace(r: Ring, i: nat, y: Vnode)
    requires OneInvalid(r) && i < |r|
    ensures OneInvalid(r[i := y]) <==> y.state == Running || FirstInvalid(r) == |r| || FirstInvalid(r) == i
  {
    var s, w := r[i := y], FirstInvalid(r);
    OneInvalidShape(r);
    if w < |r| && w != i && y.state != Running {
      assert s[w].state != Running && s[i].state != Running;
      assert if w < i then !OneInvalid(s) else !OneInvalid(s);
    }
  }

  lemma MarkedByInsert(r: Ring, x: Vnode)
    requires OneInvalid(r)
    ensures OneInvalid(Insert(r, x)) <==> x.state == Running || FirstInvalid(r) == |r|
  {
    hide OneInvalid, FirstInvalid;
    var f := if r == [] then 0 else Find(r, x.vid);
    assert Insert(r, x)[f] == x && Without(Insert(r, x), f) == r;
    SplicedInvalid(Insert(r, x), f);
  }

  lemma SplicedInvalid(s: Ring, f: nat)
    requires f < |s| && OneInvalid(Without(s, f))
    ensures var r := Without(s, f); OneInvalid(s) <==> s[f].state == Running || FirstInvalid(r) == |r|
  {
    hide FirstInvalid;
    var r := Without(s, f);
    OneInvalidShape(r);
    if s[f].state == Running {
      forall i, j | 0 <= i < j < |s|
        ensures s[i].state == Running || s[j].state == Running
      {
        if i != f && j != f {
          var a, b := Down(i, f), Down(j, f);
          assert r[a] == s[i] && r[b] == s[j];
        }
      }
    } else if FirstInvalid(r) == |r| {
      WithRunning(s, f);
    } else {
      var w := FirstInvalid(r);
      WithoutUp(s, f, w);
      if Up(w, f) < f { assert !OneInvalid(s); } else { assert !OneInvalid(s); }
    }
  }

  /** The place of place `i` in the view without place `p`. */
  function Down(i: nat, p: nat): nat
    requires i != p
  {
    if i < p then i else i - 1
  }

  lemma ReplacedMarks(t: RingCopy, u: Update)
    requires Apply(t, u).Some? && EffectOf(t.ring, u).Replaced?
    ensures var i, y := EffectOf(t.ring, u).i, EffectOf(t.ring, u).y; var r := t.ring;
      && i < |r| && i == ByNode(r, u.node)
      && (y.state != Running ==> Marks(u) || r[i].state != Running) && (Marks(u) ==> y.state != Running)
  {
    hide Insert, Delete, ByNode;
  }

  lemma DeletedMarks(t: RingCopy, u: Update)
    requires Apply(t, u).Some? && EffectOf(t.ring, u).Deleted?
    ensures EffectOf(t.ring, u).i < |t.ring| && !Marks(u)
  {
    hide Insert, Delete, ByNode;
  }

  const THREE: Ring := [Vnode(10, 1, 0, Running, 0, 1), Vnode(20, 2, 0, Running, 0, 1), Vnode(30, 3, 0, Running, 0, 1)]

  lemma ThreeVnodes()
    ensures Apply(RingCopy(THREE, 0), Update(Running, Del, 10, 0, 1)) == Some(RingCopy(THREE[1..], 0))
    ensures THREE[1..] != [] && View(THREE, 5) == THREE && View(THREE[1..], 5) == THREE[1..]
    ensures AllRunning(THREE) && AllRunning(THREE[1..])
  {
    assert ByNode(THREE, 1) == 0 && Delete(THREE, 0) == THREE[1..];
    assert Find(THREE, 5) == 0 && Find(THREE[1..], 5) == 0;
  }

  /** Three running vnodes, two replicas: when the first one's node vanishes, the
      third serves keys it never received. */
  lemma VanishedVnodeLeavesAGap()
    ensures Apply(RingCopy(THREE, 0), Update(Running, Del, 10, 0, 1)) == Some(RingCopy(THREE[1..], 0))
    ensures !Covered(KeyChain(THREE, 5, 2), KeyChain(THREE[1..], 5, 2).vids)
  {
    hide View, Apply, ChainOf, Serving;
    ThreeVnodes();
    ChainAllRunning(THREE, 2);
    ChainAllRunning(THREE[1..], 2);
    assert KeyChain(THREE[1..], 5, 2).vids[1].vid == 30;
  }
}
