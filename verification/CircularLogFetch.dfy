/** kv_circular_log with its prefetch ring as an object
    (spdk/app/leed/kv_circular_log.c:30-145).  `log` is what the device holds: a read
    of a live block returns it.  Reads finish in any order. */
module CircularLogFetch {
  import opened SeqOps
  import opened WrapMath
  import opened PrefetchWindow

  /** Limit on outstanding reads (FETCH_CON_IO). */
  const CONCURRENT: nat := 32

  /** An outstanding read of `n` blocks: where it reads and which slot comes first. */
  datatype Read = Read(offset: nat, slot: nat, n: nat)

  /** The positions it reads. */
  datatype Span = Span(first: nat, n: nat)

  /** The outstanding reads split the pending positions among them. */
  ghost predicate Splits(spans: seq<Span>, pending: set<nat>) {
    && (forall i :: 0 <= i < |spans| ==> Interval(spans[i].first, spans[i].n) <= pending)
    && (forall i, j :: 0 <= i < j < |spans| ==>
          Interval(spans[i].first, spans[i].n) !! Interval(spans[j].first, spans[j].n))
    && (forall x :: x in pending ==> exists i :: 0 <= i < |spans| && x in Interval(spans[i].first, spans[i].n))
  }

  class FetchedLog<T(0)> {
    const size: nat
    const fetchLen: nat
    var head: nat
    var tail: nat
    var fetchHead: nat
    var fetchTail: nat
    var fetchTail1: nat
    const buffer: array<T>
    const valid: array<bool>
    var inflight: seq<Read>
    ghost var spans: seq<Span>
    ghost var log: seq<T>
    ghost var window: Window

    ghost predicate Aligned()
      reads this
    {
      && size > 0 && valid.Length == buffer.Length > 1 && fetchLen > 0 && (buffer as object) != valid
      && window.head <= |log| < window.head + size
      && head == Wrap(window.head, size) && tail == Wrap(|log|, size)
      && fetchHead == Wrap(window.head, buffer.Length)
      && fetchTail == Wrap(window.tail, buffer.Length)
      && fetchTail1 == Wrap(window.tail1, buffer.Length)
      && |inflight| == |spans|
      && forall i :: 0 <= i < |inflight| ==>
           inflight[i] == Read(Wrap(spans[i].first, size), Wrap(spans[i].first, buffer.Length), spans[i].n)
    }

    ghost predicate Consistent()
      reads this, buffer, valid
    {
      Aligned() && Mirrors(buffer[..], valid[..], log, window) && Splits(spans, window.pending)
    }

    ghost predicate Valid()
      reads this, buffer, valid
    {
      Consistent() && Tight(window) && CoversShortLog(buffer[..], log, window)
    }

    constructor (size: nat, fetchBufSize: nat, fetchLen: nat, zero: T)
      requires size > 0 && fetchBufSize > 0 && fetchLen > 0
      ensures Valid() && log == [] && window == Window(0, 0, 0, {})
      ensures this.size == size && buffer.Length == fetchBufSize + 1 && this.fetchLen == fetchLen
      ensures fresh(buffer) && fresh(valid)
    {
      this.size, this.fetchLen := size, fetchLen;
      head, tail, fetchHead, fetchTail, fetchTail1 := 0, 0, 0, 0, 0;
      buffer := new T[fetchBufSize + 1](_ => zero);
      valid := new bool[fetchBufSize + 1](_ => false);
      inflight, spans, log, window := [], [], [], Window(0, 0, 0, {});
    }

    /** kv_circular_log_length of the ring. */
    method FetchLength() returns (n: nat)
      requires Consistent()
      ensures n == window.tail - window.head
    {
      hide Wrap, At;
      WrappedDistance(window.head, window.tail, buffer.Length);
      n := Wrap(buffer.Length + fetchTail - fetchHead, buffer.Length);
    }

    /** kv_circular_log_length of the log. */
    method Length() returns (n: nat)
      requires Aligned()
      ensures n == |log| - window.head
    {
      hide Wrap, At;
      WrappedDistance(window.head, |log|, size);
      n := Wrap(size + tail - head, size);
    }

    /** kv_circular_log_fetch_one: the block of a position inside the window. */
    method FetchOne(offset: nat, ghost x: nat) returns (b: T)
      requires Valid() && window.head <= x < window.tail && offset == Wrap(x, size)
      ensures b == log[x]
    {
      hide Wrap;
      WrappedDistance(window.head, x, size);
      var o := Wrap(size - head + offset, size);
      WrapAdd(window.head, o, buffer.Length);
      b := buffer[Wrap(fetchHead + o, buffer.Length)];
      assert b == At(buffer[..], x);
    }

    /** The loop of _fetch that lets the window grow over finished reads. */
    method Grow()
      requires Consistent()
      modifies this`fetchTail, this`window
      ensures Consistent() && Tight(window)
      ensures window == old(window).(tail := window.tail) && window.tail >= old(window).tail
    {
      hide Wrap, At, Mirrors, Splits;
      while true
        invariant Consistent()
        invariant window == old(window).(tail := window.tail) && window.tail >= old(window).tail
        decreases window.tail1 - window.tail
      {
        WindowBounds();
        var n := FetchLength();
        GrowTest(buffer[..], valid[..], log, window);
        FlagAt(window.tail);
        if buffer.Length - 1 - n == 0 { break; }
        if !valid[fetchTail] { break; }
        GrowOne(buffer[..], valid[..], log, window);
        WrapAdd(window.tail, 1, buffer.Length);
        fetchTail := Wrap(fetchTail + 1, buffer.Length);
        window := window.(tail := window.tail + 1);
      }
    }

    lemma WindowBounds()
      requires Consistent()
      ensures window.head <= window.tail <= window.tail1 <= |log| && window.tail1 - window.head < buffer.Length
    {
    }

    lemma FlagAt(x: nat)
      requires Aligned()
      ensures valid[Wrap(x, buffer.Length)] == At(valid[..], x)
    {
    }

    /** Nothing more to prefetch at the moment, by the three tests of _fetch. */
    ghost predicate Saturated()
      reads this
    {
      || |log| - window.tail1 < fetchLen
      || buffer.Length - 1 - (window.tail1 - window.head) < fetchLen
      || window.tail == |log|
      || window.tail1 - window.tail >= fetchLen * CONCURRENT
    }

    /** The tests at the end of _fetch, and where the next read would start. */
    method NextRead() returns (wanted: bool, offset: nat)
      requires Consistent()
      ensures wanted <==> !Saturated()
      ensures offset == Wrap(window.tail1, size)
    {
      hide Wrap, At, Mirrors, Splits, Interval;
      WindowBounds();
      WrappedDistance(window.head, window.tail1, buffer.Length);
      WrappedDistance(window.tail, window.tail1, buffer.Length);
      var len := Wrap(buffer.Length - fetchHead + fetchTail1, buffer.Length);
      var fetching := Wrap(buffer.Length - fetchTail + fetchTail1, buffer.Length);
      var remaining := buffer.Length - 1 - len;
      WrapAdd(window.head, len, size);
      WrappedDistance(window.tail1, |log|, size);
      offset := Wrap(head + len, size);
      var n := Wrap(size - offset + tail, size);
      n := if n < fetchLen then n else fetchLen;
      n := if n < remaining then n else remaining;
      var have := FetchLength();
      var all := Length();
      wanted := !(n < fetchLen || have == all || fetching >= fetchLen * CONCURRENT);
    }

    /** The end of _fetch: issue one more read, or find that there is no need. */
    method IssueRead() returns (issued: bool)
      requires Consistent() && Tight(window) && CoversShortLog(buffer[..], log, window)
      modifies this`fetchTail1, this`inflight, this`spans, this`window
      ensures Valid() && log == old(log)
      ensures issued <==> !old(Saturated())
      ensures window.tail1 == old(window).tail1 + if issued then fetchLen else 0
      ensures window == old(window).(tail1 := window.tail1, pending := window.pending)
    {
      hide Wrap, At, Mirrors, Splits, Interval, Tight;
      var offset;
      issued, offset := NextRead();
      if issued {
        WindowBounds();
        Issue(buffer[..], valid[..], log, window, fetchLen);
        SplitsIssue(spans, window.pending, Span(window.tail1, fetchLen));
        WrapAdd(window.tail1, fetchLen, buffer.Length);
        inflight := inflight + [Read(offset, fetchTail1, fetchLen)];
        spans := spans + [Span(window.tail1, fetchLen)];
        fetchTail1 := Wrap(fetchTail1 + fetchLen, buffer.Length);
        window := window.(tail1 := window.tail1 + fetchLen,
            pending := window.pending + Interval(window.tail1, fetchLen));
      }
    }

    /** kv_circular_log_move_head.  The log stays at least as long as the ring, or
        is all in the window. */
    method MoveHead(n: nat)
      requires Valid() && n <= window.tail - window.head
      requires |log| - window.head - n >= buffer.Length - 1 || window.tail == window.tail1 == |log|
      modifies this, valid
      ensures Valid() && log == old(log) && Saturated()
      ensures window.head == old(window).head + n && window.tail >= old(window).tail
      ensures window.tail1 >= old(window).tail1
    {
      hide Wrap, At, Mirrors, Splits;
      DropSlots(n);
      WrapAdd(window.head, n, size);
      WrapAdd(window.head, n, buffer.Length);
      head := Wrap(head + n, size);
      fetchHead := Wrap(fetchHead + n, buffer.Length);
      window := window.(head := window.head + n);
      while true
        invariant Valid() && log == old(log)
        invariant window.head == old(window).head + n && window.tail >= old(window).tail
        invariant window.tail1 >= old(window).tail1
        decreases window.head + buffer.Length - window.tail1
      {
        WindowBounds();
        Grow();
        WindowBounds();
        var issued := IssueRead();
        if !issued { break; }
        WindowBounds();
      }
    }

    /** The first loop: the slots in front of the new head become free. */
    method DropSlots(n: nat)
      requires Valid() && n <= window.tail - window.head
      modifies valid
      ensures Mirrors(buffer[..], valid[..], log, window.(head := window.head + n)) && buffer[..] == old(buffer[..])
    {
      hide Wrap, At, Mirrors, Splits;
      ghost var w := window;
      var i := 0;
      while i < n
        invariant 0 <= i <= n && w == window.(head := window.head + i)
        invariant Mirrors(buffer[..], valid[..], log, w) && buffer[..] == old(buffer[..])
      {
        WindowBounds2(w);
        WrapAdd(window.head, i, buffer.Length);
        ghost var before := valid[..];
        var x := Wrap(fetchHead + i, buffer.Length);
        valid[x] := false;
        assert valid[..] == before[x := false];
        DropOne(buffer[..], before, log, w, x);
        w := w.(head := w.head + 1);
        i := i + 1;
      }
    }

    lemma WindowBounds2(w: Window)
      requires Mirrors(buffer[..], valid[..], log, w)
      ensures w.head <= w.tail <= w.tail1 <= |log| && w.tail1 - w.head < buffer.Length
    {
    }

    /** A read finishes with `data`: _fetch marks its slots, lets the window grow and
        may reuse the context for one more read. */
    method ReadDone(k: nat, data: seq<T>)
      requires Valid() && k < |inflight| && |data| == inflight[k].n
      requires forall j :: 0 <= j < |data| ==> spans[k].first + j < |log| && data[j] == log[spans[k].first + j]
      modifies this, buffer, valid
      ensures Valid() && log == old(log)
      ensures window.head == old(window).head && window.tail >= old(window).tail && window.tail1 >= old(window).tail1
    {
      hide Wrap, At, Mirrors, Splits;
      var r := inflight[k];
      ghost var w, first := window, spans[k].first;
      PendingRead(spans, window.pending, k);
      PendingBounds(buffer[..], valid[..], log, window, spans[k]);
      var j := 0;
      while j < r.n
        invariant 0 <= j <= r.n && w == old(window).(pending := old(window).pending - Interval(first, j))
        invariant Mirrors(buffer[..], valid[..], log, w)
        invariant unchanged(this)
      {
        ghost var p := first + j;
        SplitIsWrap(first, j, buffer.Length);
        var x := Split(r.slot, j, buffer.Length);
        ghost var b0, v0 := buffer[..], valid[..];
        buffer[x] := data[j];
        valid[x] := true;
        assert buffer[..] == b0[x := log[p]] && valid[..] == v0[x := true];
        StoreOne(b0, v0, log, w, p, x);
        w := w.(pending := w.pending - {p});
        j := j + 1;
      }
      SplitsDone(spans, window.pending, k);
      inflight := Without(inflight, k);
      spans := Without(spans, k);
      window := w;
      Grow();
      WindowBounds();
      var issued := IssueRead();
    }

    /** One piece of copy_to_fetch_buf: `len` blocks go behind the window, with at
        most one wrap. */
    method CopyPiece(piece: seq<T>, len: nat, ghost sofar: seq<T>)
      requires valid.Length == buffer.Length > 1 && (buffer as object) != valid
      requires fetchTail == Wrap(window.tail, buffer.Length)
      requires len <= |piece| && len < buffer.Length
      requires Mirrors(buffer[..], valid[..], sofar, window) && window.tail == window.tail1 == |sofar|
      requires |sofar| + len - window.head < buffer.Length
      modifies this`fetchTail, this`window, buffer, valid
      ensures fetchTail == Wrap(window.tail, buffer.Length)
      ensures window == old(window).(tail := old(window).tail + len, tail1 := old(window).tail1 + len)
      ensures Mirrors(buffer[..], valid[..], sofar + piece[..len], window)
    {
      hide Wrap, At, Mirrors, Interval;
      ghost var w := window;
      assert sofar + piece[..0] == sofar;
      var j := 0;
      while j < len
        invariant 0 <= j <= len && fetchTail == old(fetchTail) && window == old(window)
        invariant w == old(window).(tail := old(window).tail + j, tail1 := old(window).tail1 + j)
        invariant Mirrors(buffer[..], valid[..], sofar + piece[..j], w)
      {
        SplitIsWrap(window.tail, j, buffer.Length);
        var x := Split(fetchTail, j, buffer.Length);
        ghost var b0, v0 := buffer[..], valid[..];
        buffer[x] := piece[j];
        valid[x] := true;
        assert buffer[..] == b0[x := piece[j]] && valid[..] == v0[x := true];
        AppendOne(b0, v0, sofar + piece[..j], w, piece[j], x);
        assert sofar + piece[..j] + [piece[j]] == sofar + piece[..j + 1];
        w := w.(tail := w.tail + 1, tail1 := w.tail1 + 1);
        j := j + 1;
      }
      WrapAdd(window.tail, len, buffer.Length);
      fetchTail := Wrap(fetchTail + len, buffer.Length);
      window := w;
    }

    /** The loop of copy_to_fetch_buf: the appended buffers go behind the window, in
        order, as long as the ring has room. */
    method CopyPieces(pieces: seq<seq<T>>)
      requires Valid() && |log| - window.head < buffer.Length - 1
      modifies this`fetchTail, this`window, buffer, valid
      ensures fetchTail == Wrap(window.tail, buffer.Length) && window.tail == window.tail1 >= old(window).tail
      ensures window == old(window).(tail := window.tail, tail1 := window.tail1)
      ensures Mirrors(buffer[..], valid[..], log + Flatten(pieces), window)
      ensures window.tail <= |log + Flatten(pieces)|
      ensures window.tail == |log + Flatten(pieces)| || window.tail - window.head == buffer.Length - 1
    {
      hide Wrap, At, Mirrors, Interval;
      WindowBounds();
      var i := 0;
      assert pieces[..0] == [] && log + Flatten(pieces[..0]) == log;
      while i < |pieces|
        invariant 0 <= i <= |pieces| && fetchTail == Wrap(window.tail, buffer.Length)
        invariant window == old(window).(tail := window.tail, tail1 := window.tail1)
        invariant window.tail == window.tail1 >= old(window).tail && window.tail - window.head < buffer.Length
        invariant Mirrors(buffer[..], valid[..], log + Flatten(pieces[..i]), window)
        invariant window.tail == |log + Flatten(pieces[..i])| || window.tail - window.head == buffer.Length - 1
      {
        WrappedDistance(window.head, window.tail, buffer.Length);
        var space := buffer.Length - 1 - Wrap(buffer.Length + fetchTail - fetchHead, buffer.Length);
        FlattenStep(pieces, i);
        var piece := pieces[i];
        ghost var sofar := log + Flatten(pieces[..i]);
        assert log + Flatten(pieces[..i + 1]) == sofar + piece;
        if space == 0 {
          break;
        }
        var len := if |piece| < space then |piece| else space;
        CopyPiece(piece, len, sofar);
        assert sofar + piece == (sofar + piece[..len]) + piece[len..];
        AppendBeyond(buffer[..], valid[..], sofar + piece[..len], window, piece[len..]);
        i := i + 1;
      }
      FlattenPrefix(pieces, i);
      ghost var more := Flatten(pieces)[|Flatten(pieces[..i])|..];
      assert log + Flatten(pieces) == log + Flatten(pieces[..i]) + more;
      AppendBeyond(buffer[..], valid[..], log + Flatten(pieces[..i]), window, more);
      assert pieces[..|pieces|] == pieces;
      MirrorBounds(buffer[..], valid[..], log + Flatten(pieces), window);
    }

    /** An append of a list of buffers, with copy_to_fetch_buf in front of it. */
    method Append(pieces: seq<seq<T>>)
      requires Valid() && |log| + |Flatten(pieces)| - window.head < size
      modifies this, buffer, valid
      ensures Valid() && log == old(log) + Flatten(pieces)
      ensures window.head == old(window).head && window.tail >= old(window).tail
      ensures inflight == old(inflight) && spans == old(spans)
    {
      hide Wrap, At, Mirrors, Splits, Interval;
      WindowBounds();
      var all := Length();
      if all < buffer.Length - 1 {
        CopyPieces(pieces);
        fetchTail1 := fetchTail;
      } else {
        AppendBeyond(buffer[..], valid[..], log, window, Flatten(pieces));
      }
      var n := FlatLength(pieces);
      WrapAdd(|log|, n, size);
      tail := Wrap(tail + n, size);
      log := log + Flatten(pieces);
    }
  }

  /** The blocks of a list of buffers. */
  method FlatLength<T>(pieces: seq<seq<T>>) returns (n: nat)
    ensures n == |Flatten(pieces)|
  {
    n := 0;
    for i := 0 to |pieces|
      invariant n == |Flatten(pieces[..i])|
    {
      FlattenStep(pieces, i);
      n := n + |pieces[i]|;
    }
    assert pieces[..|pieces|] == pieces;
  }

  lemma MirrorBounds<T>(buf: seq<T>, valid: seq<bool>, log: seq<T>, v: Window)
    requires Mirrors(buf, valid, log, v)
    ensures v.tail1 <= |log|
  {
  }

  lemma SplitsIssue(spans: seq<Span>, pending: set<nat>, r: Span)
    requires Splits(spans, pending) && Interval(r.first, r.n) !! pending
    ensures Splits(spans + [r], pending + Interval(r.first, r.n))
  {
    hide Interval;
    var s := spans + [r];
    assert forall i :: 0 <= i < |spans| ==> s[i] == spans[i];
    forall i | 0 <= i < |spans|
      ensures Interval(s[i].first, s[i].n) !! Interval(r.first, r.n)
    {
      assert Interval(spans[i].first, spans[i].n) <= pending;
    }
    forall x | x in pending + Interval(r.first, r.n)
      ensures exists i :: 0 <= i < |s| && x in Interval(s[i].first, s[i].n)
    {
      if x in pending {
        var i :| 0 <= i < |spans| && x in Interval(spans[i].first, spans[i].n);
        assert s[i] == spans[i];
      } else {
        assert s[|spans|] == r;
      }
    }
  }

  lemma PendingRead(spans: seq<Span>, pending: set<nat>, k: nat)
    requires Splits(spans, pending) && k < |spans|
    ensures Interval(spans[k].first, spans[k].n) <= pending
  {
  }

  lemma PendingBounds<T>(buf: seq<T>, valid: seq<bool>, log: seq<T>, v: Window, r: Span)
    requires Mirrors(buf, valid, log, v) && Interval(r.first, r.n) <= v.pending
    ensures r.n > 0 ==> v.tail <= r.first && r.first + r.n <= v.tail1 <= |log|
    ensures r.n < |buf|
  {
    hide At;
    if r.n > 0 {
      assert r.first in v.pending && r.first + r.n - 1 in v.pending;
    }
  }

  lemma SplitsDone(spans: seq<Span>, pending: set<nat>, k: nat)
    requires Splits(spans, pending) && k < |spans|
    ensures Splits(Without(spans, k), pending - Interval(spans[k].first, spans[k].n))
  {
    hide Interval, Without;
    var s, gone := Without(spans, k), Interval(spans[k].first, spans[k].n);
    assert |s| == |spans| - 1 by { SizeWithout(spans, k); }
    forall i | 0 <= i < |s|
      ensures s[i] == spans[if i < k then i else i + 1]
    {
      WithoutAt(spans, k, i);
    }
    forall i | 0 <= i < |s|
      ensures Interval(s[i].first, s[i].n) <= pending - gone
    {
      var i' := if i < k then i else i + 1;
      assert Interval(spans[i'].first, spans[i'].n) !! gone;
    }
    forall x | x in pending - gone
      ensures exists i :: 0 <= i < |s| && x in Interval(s[i].first, s[i].n)
    {
      var i :| 0 <= i < |spans| && x in Interval(spans[i].first, spans[i].n);
      assert s[if i < k then i else i - 1] == spans[i];
    }
  }

  lemma SizeWithout(spans: seq<Span>, k: nat)
    requires k < |spans|
    ensures |Without(spans, k)| == |spans| - 1
  {
  }
}
