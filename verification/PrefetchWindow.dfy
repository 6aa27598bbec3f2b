/** The prefetch ring that mirrors the head of a circular log
    (spdk/app/leed/kv_circular_log.c:30-145), as facts about its arrays.  Positions
    are counted from the creation of the log; offset and slot numbers are positions
    taken modulo the size of the log and of the ring. */
module PrefetchWindow {
  import opened WrapMath

  /** The window: positions `head` up to `tail` are in the ring, those up to `tail1`
      are in it or being read; `pending` are the ones still being read. */
  datatype Window = Window(head: nat, tail: nat, tail1: nat, pending: set<nat>)

  /** Slot contents and flags agree with the log, and a flag is set exactly for the
      window and the finished reads beyond it. */
  ghost predicate Mirrors<T>(buf: seq<T>, valid: seq<bool>, log: seq<T>, v: Window) {
    && |buf| == |valid| > 1
    && v.head <= v.tail <= v.tail1 <= |log| && v.tail1 - v.head < |buf|
    && (forall x :: x in v.pending ==> v.tail <= x < v.tail1)
    && (forall x :: v.head <= x < v.tail1 ==> (At(valid, x) <==> x !in v.pending))
    && (forall x :: v.head <= x < v.tail1 && x !in v.pending ==> At(buf, x) == log[x])
    && (forall x :: v.tail1 <= x < v.head + |buf| ==> !At(valid, x))
  }

  /** The window cannot be longer without another read finishing. */
  ghost predicate Tight(v: Window) {
    v.tail < v.tail1 ==> v.tail in v.pending
  }

  /** As long as the log is shorter than the ring, all of it is in the window. */
  ghost predicate CoversShortLog<T>(buf: seq<T>, log: seq<T>, v: Window)
    requires v.head <= |log|
  {
    |log| - v.head < |buf| - 1 ==> v.tail == v.tail1 == |log|
  }

  function Interval(a: nat, n: nat): (s: set<nat>)
    ensures forall x :: x in s <==> a <= x < a + n
  {
    if n == 0 then {} else Interval(a, n - 1) + {a + n - 1}
  }

  /** Dropping the first block of the window frees its slot. */
  lemma DropOne<T>(buf: seq<T>, valid: seq<bool>, log: seq<T>, v: Window, x: nat)
    requires Mirrors(buf, valid, log, v) && v.head < v.tail && x == Wrap(v.head, |buf|)
    ensures Mirrors(buf, valid[x := false], log, v.(head := v.head + 1))
  {
    hide At, Wrap;
    var valid' := valid[x := false];
    forall y | v.head <= y < v.head + |buf| + 1
      ensures y < v.head + |buf| ==> At(valid', y) == if y == v.head then false else At(valid, y)
      ensures y == v.head + |buf| ==> !At(valid', y)
    {
      if y < v.head + |buf| {
        WriteBehind(valid, x, v.head, false, y);
      } else {
        SameSlot(valid', v.head);
        WriteBehind(valid, x, v.head, false, v.head);
      }
    }
  }

  lemma SameSlot<T>(d: seq<T>, x: nat)
    requires |d| > 0
    ensures At(d, x + |d|) == At(d, x)
  {
    WrapTurn(x, |d|);
  }

  /** One block of a finished read is stored in its slot. */
  lemma StoreOne<T>(buf: seq<T>, valid: seq<bool>, log: seq<T>, v: Window, p: nat, x: nat)
    requires Mirrors(buf, valid, log, v) && p in v.pending && p < |log| && x == Wrap(p, |buf|)
    ensures Mirrors(buf[x := log[p]], valid[x := true], log, v.(pending := v.pending - {p}))
  {
    hide At, Wrap;
    var buf', valid' := buf[x := log[p]], valid[x := true];
    forall y | v.head <= y < v.head + |buf|
      ensures At(valid', y) == if y == p then true else At(valid, y)
      ensures At(buf', y) == if y == p then log[p] else At(buf, y)
    {
      if y <= p {
        WriteAt(valid, x, p, true, y);
        WriteAt(buf, x, p, log[p], y);
      } else {
        WriteBehind(valid, x, p, true, y);
        WriteBehind(buf, x, p, log[p], y);
      }
    }
  }

  /** The window grows over a finished read. */
  lemma GrowOne<T>(buf: seq<T>, valid: seq<bool>, log: seq<T>, v: Window)
    requires Mirrors(buf, valid, log, v) && v.tail < v.tail1 && v.tail !in v.pending
    ensures Mirrors(buf, valid, log, v.(tail := v.tail + 1))
  {
  }

  /** The flag at the end of the window says whether it can grow. */
  lemma GrowTest<T>(buf: seq<T>, valid: seq<bool>, log: seq<T>, v: Window)
    requires Mirrors(buf, valid, log, v)
    ensures At(valid, v.tail) <==> v.tail < v.tail1 && v.tail !in v.pending
  {
  }

  /** A new read covers the next `n` positions. */
  lemma Issue<T>(buf: seq<T>, valid: seq<bool>, log: seq<T>, v: Window, n: nat)
    requires Mirrors(buf, valid, log, v) && v.tail1 + n <= |log| && v.tail1 + n - v.head < |buf|
    ensures Mirrors(buf, valid, log, v.(tail1 := v.tail1 + n, pending := v.pending + Interval(v.tail1, n)))
    ensures Interval(v.tail1, n) !! v.pending
    ensures Tight(v) ==> Tight(v.(tail1 := v.tail1 + n, pending := v.pending + Interval(v.tail1, n)))
  {
  }

  /** An appended block goes straight into a window that covers the whole log. */
  lemma AppendOne<T>(buf: seq<T>, valid: seq<bool>, log: seq<T>, v: Window, b: T, x: nat)
    requires Mirrors(buf, valid, log, v) && v.tail == v.tail1 == |log| && |log| + 1 - v.head < |buf|
    requires x == Wrap(v.tail, |buf|)
    ensures Mirrors(buf[x := b], valid[x := true], log + [b], v.(tail := v.tail + 1, tail1 := v.tail1 + 1))
  {
    hide At, Wrap;
    var p := v.tail;
    var buf', valid' := buf[x := b], valid[x := true];
    forall y | v.head <= y < v.head + |buf|
      ensures At(valid', y) == if y == p then true else At(valid, y)
      ensures At(buf', y) == if y == p then b else At(buf, y)
    {
      if y <= p {
        WriteAt(valid, x, p, true, y);
        WriteAt(buf, x, p, b, y);
      } else {
        WriteBehind(valid, x, p, true, y);
        WriteBehind(buf, x, p, b, y);
      }
    }
  }

  /** Blocks appended beyond the window leave it alone. */
  lemma AppendBeyond<T>(buf: seq<T>, valid: seq<bool>, log: seq<T>, v: Window, more: seq<T>)
    requires Mirrors(buf, valid, log, v)
    ensures Mirrors(buf, valid, log + more, v)
  {
  }

  /** The arrays and the window after copy_to_fetch_buf has put one block behind
      the window. */
  ghost predicate CopyMirrors<T>(buf: seq<T>, valid: seq<bool>, log: seq<T>, v: Window, b: T)
    requires |buf| == |valid| > 0
  {
    var x := Wrap(v.tail, |buf|);
    Mirrors(buf[x := b], valid[x := true], log + [b], v.(tail := v.tail + 1, tail1 := v.tail + 1))
  }

  /** With room in the ring, the copy is right for every block if and only if the
      window covers the whole log and no read is outstanding. */
  lemma CopyRightIff<T>(buf: seq<T>, valid: seq<bool>, log: seq<T>, v: Window, one: T, other: T)
    requires Mirrors(buf, valid, log, v) && |log| - v.head < |buf| - 1 && one != other
    ensures (forall b :: CopyMirrors(buf, valid, log, v, b)) <==> v.tail == v.tail1 == |log|
  {
    hide At, Wrap;
    var x := Wrap(v.tail, |buf|);
    if v.tail == v.tail1 == |log| {
      forall b
        ensures CopyMirrors(buf, valid, log, v, b)
      {
        AppendOne(buf, valid, log, v, b, x);
      }
    } else {
      var b := if log[v.tail] == one then other else one;
      CopiedBlock(buf, v.tail, b);
      assert (log + [b])[v.tail] == log[v.tail] != b;
      assert !CopyMirrors(buf, valid, log, v, b);
    }
  }

  lemma CopiedBlock<T>(buf: seq<T>, p: nat, b: T)
    requires |buf| > 0
    ensures At(buf[Wrap(p, |buf|) := b], p) == b
  {
  }
}
