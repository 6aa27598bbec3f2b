/** Scatter/gather I/O on the circular log (spdk/app/leed/kv_circular_log.c:147-225):
    a list of buffers is split where the log wraps. */
module CircularLogIo {
  import opened SeqOps
  import opened WrapMath

  /** Part of the caller's buffers, counted in blocks from their beginning. */
  datatype Piece = Piece(at: nat, len: nat)

  /** The pieces follow one another from `a` to `b`. */
  predicate Covers(ps: seq<Piece>, a: nat, b: nat) {
    if ps == [] then a == b
    else Covers(ps[..|ps| - 1], a, ps[|ps| - 1].at) && ps[|ps| - 1].at + ps[|ps| - 1].len == b
  }

  lemma CoversMore(ps: seq<Piece>, a: nat, b: nat, len: nat)
    requires Covers(ps, a, b)
    ensures Covers(ps + [Piece(b, len)], a, b + len)
  {
  }

  lemma {:induction false} CoversOrder(ps: seq<Piece>, a: nat, b: nat)
    requires Covers(ps, a, b)
    ensures a <= b
  {
    if ps != [] { CoversOrder(ps[..|ps| - 1], a, ps[|ps| - 1].at); }
  }

  /** The loop of kv_circular_log_iov: the entries of the one or two transfers.
      The first takes the blocks up to the end of the log, the second, if
      there is one, all the others. */
  method SplitIov(lens: seq<nat>, remaining: nat) returns (first: seq<Piece>, second: Option<seq<Piece>>, n: nat)
    requires lens != [] && remaining > 0 && forall i :: 0 <= i < |lens| ==> lens[i] > 0
    ensures n == Sum(lens)
    ensures second.None? <==> n <= remaining
    ensures Covers(first, 0, if n <= remaining then n else remaining)
    ensures second.Some? ==> Covers(second.value, remaining, n) && second.value != []
  {
    hide Covers;
    var iovcnt := |lens|;
    var entries := seq(iovcnt + 1, _ => Piece(0, 0));
    var split, i2: nat, blocks2: Option<nat> := false, 0, None;
    n := 0;
    assert lens[..0] == [];
    Start(entries, remaining);
    for i := 0 to iovcnt
      invariant |entries| == iovcnt + 1 && n == Sum(lens[..i])
      invariant Progress(entries, split, i2, blocks2, i, n, iovcnt, remaining)
    {
      SumStep(lens, i);
      var base := n;
      n := n + lens[i];
      ghost var was := entries;
      if !split && n >= remaining {
        split := true;
        i2 := i + 1;
        var over := n - remaining;
        entries := entries[i2 := Piece(remaining, over)];
        entries := entries[i := Piece(base, lens[i] - over)];
        blocks2 := if over > 0 then Some(i2) else if i2 == iovcnt then None else Some(i2 + 1);
        SplitHere(was, entries, i, base, n, iovcnt, remaining);
      } else {
        var j := i + if split then 1 else 0;
        entries := entries[j := Piece(base, lens[i])];
        Continue(was, entries, split, i2, blocks2, i, base, lens[i], iovcnt, remaining);
      }
    }
    assert lens[..iovcnt] == lens;
    Finish(entries, split, i2, blocks2, n, iovcnt, remaining);
    if blocks2.Some? {
      first, second := entries[..i2], Some(entries[blocks2.value..]);
    } else {
      first, second := entries[..iovcnt], None;
    }
  }

  /** The entries filled after `i` buffers of `n` blocks. */
  ghost predicate Progress(entries: seq<Piece>, split: bool, i2: nat, blocks2: Option<nat>, i: nat, n: nat,
                           iovcnt: nat, remaining: nat) {
    && |entries| == iovcnt + 1 && i <= iovcnt
    && (!split ==> n < remaining && blocks2 == None && Covers(entries[..i], 0, n))
    && (split ==>
      && 0 < i2 <= i && n >= remaining && Covers(entries[..i2], 0, remaining)
      && (blocks2.Some? ==>
            && i2 <= blocks2.value <= i2 + 1 && blocks2.value <= i + 1
            && Covers(entries[blocks2.value..i + 1], remaining, n)
            && (n > remaining || i + 1 == blocks2.value))
      && (blocks2.Some? && n == remaining ==> i < iovcnt)
      && (blocks2 == None ==> i == i2 == iovcnt && n == remaining))
  }

  lemma Start(entries: seq<Piece>, remaining: nat)
    requires |entries| > 0 && remaining > 0
    ensures Progress(entries, false, 0, None, 0, 0, |entries| - 1, remaining)
  {
  }

  lemma SplitHere(was: seq<Piece>, entries: seq<Piece>, i: nat, base: nat, n: nat, iovcnt: nat, remaining: nat)
    requires i < iovcnt && |was| == iovcnt + 1 && Covers(was[..i], 0, base) && base < remaining <= n
    requires entries == was[i + 1 := Piece(remaining, n - remaining)][i := Piece(base, remaining - base)]
    ensures var blocks2 := if n > remaining then Some(i + 1) else if i + 1 == iovcnt then None else Some(i + 2);
      Progress(entries, true, i + 1, blocks2, i + 1, n, iovcnt, remaining)
  {
    hide Covers;
    assert entries[..i + 1] == was[..i] + [Piece(base, remaining - base)];
    CoversMore(was[..i], 0, base, remaining - base);
    CoversNone(remaining);
    if n > remaining {
      assert entries[i + 1..i + 2] == [] + [Piece(remaining, n - remaining)];
      CoversMore([], remaining, remaining, n - remaining);
    } else if i + 1 < iovcnt {
      assert entries[i + 2..i + 2] == [];
    }
  }

  lemma CoversNone(a: nat)
    ensures Covers([], a, a)
  {
  }

  lemma Continue(was: seq<Piece>, entries: seq<Piece>, split: bool, i2: nat, blocks2: Option<nat>, i: nat, base: nat,
                 len: nat, iovcnt: nat, remaining: nat)
    requires Progress(was, split, i2, blocks2, i, base, iovcnt, remaining) && i < iovcnt && len > 0
    requires split || base + len < remaining
    requires entries == was[(if split then i + 1 else i) := Piece(base, len)]
    ensures Progress(entries, split, i2, blocks2, i + 1, base + len, iovcnt, remaining)
  {
    hide Covers;
    if !split {
      assert entries[..i + 1] == was[..i] + [Piece(base, len)];
      CoversMore(was[..i], 0, base, len);
    } else {
      var b := blocks2.value;
      assert entries[..i2] == was[..i2];
      assert entries[b..i + 2] == was[b..i + 1] + [Piece(base, len)];
      CoversMore(was[b..i + 1], remaining, base, len);
    }
  }

  lemma Finish(entries: seq<Piece>, split: bool, i2: nat, blocks2: Option<nat>, n: nat, iovcnt: nat, remaining: nat)
    requires Progress(entries, split, i2, blocks2, iovcnt, n, iovcnt, remaining)
    ensures blocks2.None? <==> n <= remaining
    ensures blocks2.None? ==> Covers(entries[..iovcnt], 0, n)
    ensures blocks2.Some? ==> i2 <= |entries| && blocks2.value < |entries|
    ensures blocks2.Some? ==> Covers(entries[..i2], 0, remaining) && Covers(entries[blocks2.value..], remaining, n)
  {
    if blocks2.Some? { assert entries[blocks2.value..iovcnt + 1] == entries[blocks2.value..]; }
  }

  // ------------------------------------------------------- transfers

  /** `dst` with `src` put at `at`. */
  function Blit<T>(dst: seq<T>, at: nat, src: seq<T>): (r: seq<T>)
    requires at + |src| <= |dst|
    ensures |r| == |dst|
  {
    dst[..at] + src + dst[at + |src|..]
  }

  lemma BlitTwice<T>(d: seq<T>, at: nat, a: seq<T>, b: seq<T>)
    requires at + |a| + |b| <= |d|
    ensures Blit(Blit(d, at, a), at + |a|, b) == Blit(d, at, a + b)
  {
  }

  lemma BlitNothing<T>(d: seq<T>, at: nat)
    requires at <= |d|
    ensures Blit(d, at, []) == d
  {
  }

  lemma {:induction false} PieceBounds(ps: seq<Piece>, a: nat, b: nat)
    requires Covers(ps, a, b) && ps != []
    ensures a <= ps[|ps| - 1].at <= b
  {
    CoversOrder(ps[..|ps| - 1], a, ps[|ps| - 1].at);
  }

  /** A write of the pieces to consecutive blocks from `at` on. */
  function WritePieces<T>(disk: seq<T>, at: nat, ps: seq<Piece>, a: nat, b: nat, data: seq<T>): (r: seq<T>)
    requires Covers(ps, a, b) && a <= b <= |data| && at + (b - a) <= |disk|
    ensures r == Blit(disk, at, data[a..b])
  {
    hide Blit;
    if ps == [] then
      assert data[a..b] == [];
      BlitNothing(disk, at);
      disk
    else
      PieceBounds(ps, a, b);
      var p := ps[|ps| - 1];
      var d := WritePieces(disk, at, ps[..|ps| - 1], a, p.at, data);
      BlitTwice(disk, at, data[a..p.at], data[p.at..b]);
      assert data[a..b] == data[a..p.at] + data[p.at..b];
      Blit(d, at + (p.at - a), data[p.at..p.at + p.len])
  }

  /** A read of consecutive blocks from `at` on into the pieces of the buffers. */
  function ReadPieces<T>(disk: seq<T>, at: nat, ps: seq<Piece>, a: nat, b: nat, buffer: seq<T>): (r: seq<T>)
    requires Covers(ps, a, b) && a <= b <= |buffer| && at + (b - a) <= |disk|
    ensures r == Blit(buffer, a, disk[at..at + (b - a)])
  {
    hide Blit;
    if ps == [] then
      assert disk[at..at] == [];
      BlitNothing(buffer, a);
      buffer
    else
      PieceBounds(ps, a, b);
      var p := ps[|ps| - 1];
      var x := ReadPieces(disk, at, ps[..|ps| - 1], a, p.at, buffer);
      var mid := at + (p.at - a);
      BlitTwice(buffer, a, disk[at..mid], disk[mid..at + (b - a)]);
      assert disk[at..at + (b - a)] == disk[at..mid] + disk[mid..at + (b - a)];
      Blit(x, p.at, disk[mid..mid + p.len])
  }

  // ---------------------------------------------------- the circular log

  /** `n` blocks from `offset` on, round the end. */
  function Blocks<T>(disk: seq<T>, offset: nat, n: nat): (r: seq<T>)
    requires |disk| > 0
    ensures |r| == n
  {
    seq(n, i requires 0 <= i < n => disk[Wrap(offset + i, |disk|)])
  }

  /** The log with `data` from `offset` on, round the end. */
  function Written<T>(disk: seq<T>, offset: nat, data: seq<T>): (r: seq<T>)
    requires offset < |disk| && |data| <= |disk|
    ensures |r| == |disk|
  {
    seq(|disk|, x requires 0 <= x < |disk| =>
      var i := if x >= offset then x - offset else x + |disk| - offset;
      if i < |data| then data[i] else disk[x])
  }

  /** What is written is what is read, and nothing else changes. */
  lemma ReadWritten<T>(disk: seq<T>, offset: nat, data: seq<T>)
    requires offset < |disk| && |data| <= |disk|
    ensures Blocks(Written(disk, offset, data), offset, |data|) == data
    ensures forall i :: |data| <= i < |disk| ==>
      Written(disk, offset, data)[Split(offset, i, |disk|)] == disk[Split(offset, i, |disk|)]
  {
    hide Wrap;
    var w := Written(disk, offset, data);
    forall i | 0 <= i < |data|
      ensures Blocks(w, offset, |data|)[i] == data[i]
    {
      WrapSmall(offset, |disk|);
      SplitIsWrap(offset, i, |disk|);
    }
  }

  lemma TwoTransfers<T>(disk: seq<T>, offset: nat, data: seq<T>, r: nat)
    requires offset < |disk| && |data| <= |disk| && r == |disk| - offset
    ensures |data| <= r ==> Blit(disk, offset, data) == Written(disk, offset, data)
    ensures |data| > r ==> Blit(Blit(disk, offset, data[..r]), 0, data[r..]) == Written(disk, offset, data)
  {
  }

  class CircularLog<T> {
    const size: nat
    var disk: seq<T>
    var head: nat
    var tail: nat

    ghost predicate Valid()
      reads this
    {
      size > 0 && |disk| == size && head < size && tail < size
    }

    ghost function Length(): nat
      requires Valid()
      reads this
    {
      (size + tail - head) % size
    }

    /** The blocks between head and tail. */
    ghost function Contents(): seq<T>
      requires Valid()
      reads this
    {
      Blocks(disk, head, Length())
    }

    constructor (disk: seq<T>, head: nat, tail: nat)
      requires head < |disk| && tail < |disk|
      ensures Valid() && this.disk == disk && this.head == head && this.tail == tail
    {
      this.size, this.disk, this.head, this.tail := |disk|, disk, head, tail;
    }

    /** CIRCULAR_LOG_WRITE. */
    method Write(offset: nat, lens: seq<nat>, data: seq<T>)
      requires Valid() && offset < size && lens != [] && (forall i :: 0 <= i < |lens| ==> lens[i] > 0)
      requires |data| == Sum(lens) <= size
      modifies this`disk
      ensures Valid() && disk == Written(old(disk), offset, data)
    {
      hide Covers, Sum, WritePieces, Written;
      var remaining := size - offset;
      var first, second, n := SplitIov(lens, remaining);
      TwoTransfers(disk, offset, data, remaining);
      if second.Some? {
        disk := WritePieces(disk, offset, first, 0, remaining, data);
        disk := WritePieces(disk, 0, second.value, remaining, n, data);
        assert data[remaining..n] == data[remaining..] && data[0..remaining] == data[..remaining];
      } else {
        disk := WritePieces(disk, offset, first, 0, n, data);
        assert data[0..n] == data;
      }
    }

    /** CIRCULAR_LOG_READ into `buffer`, for a range inside the log. */
    method Read(offset: nat, lens: seq<nat>, buffer: seq<T>) returns (r: seq<T>)
      requires Valid() && offset < size && lens != [] && (forall i :: 0 <= i < |lens| ==> lens[i] > 0)
      requires |buffer| == Sum(lens) <= size
      ensures r == Blocks(disk, offset, |buffer|)
    {
      hide Covers, Sum, ReadPieces, Blit, Blocks;
      var remaining := size - offset;
      var first, second, n := SplitIov(lens, remaining);
      if second.Some? {
        r := ReadPieces(disk, offset, first, 0, remaining, buffer);
        r := ReadPieces(disk, 0, second.value, remaining, n, r);
      } else {
        r := ReadPieces(disk, offset, first, 0, n, buffer);
      }
      Gathered(disk, offset, n, r, buffer);
    }

    /** CIRCULAR_LOG_APPEND: refused exactly when there is no room, and then
        nothing changes. */
    method Append(lens: seq<nat>, data: seq<T>) returns (ok: bool)
      requires Valid() && lens != [] && (forall i :: 0 <= i < |lens| ==> lens[i] > 0) && |data| == Sum(lens)
      modifies this`disk, this`tail
      ensures Valid() && (ok <==> |data| <= size - 1 - old(Length()))
      ensures !ok ==> disk == old(disk) && tail == old(tail)
      ensures ok ==> Contents() == old(Contents()) + data && Blocks(disk, old(tail), |data|) == data
    {
      hide Sum, Written, Blocks, Wrap;
      var n := |data|;
      if size - 1 - (size + tail - head) % size < n {
        return false;
      }
      ghost var was, from, len := disk, tail, Length();
      Write(tail, lens, data);
      ReadWritten(was, from, data);
      Appended(was, head, from, len, data);
      tail := (tail + n) % size;
      ok := true;
    }
  }

  /** What two reads gather is the blocks in order. */
  lemma Gathered<T>(disk: seq<T>, offset: nat, n: nat, r: seq<T>, buffer: seq<T>)
    requires offset < |disk| && n <= |disk| && |buffer| == n
    requires var rest := |disk| - offset;
      r == if n <= rest then Blit(buffer, 0, disk[offset..offset + n])
           else Blit(Blit(buffer, 0, disk[offset..offset + rest]), rest, disk[0..n - rest])
    ensures r == Blocks(disk, offset, n)
  {
    hide Wrap;
    WrapSmall(offset, |disk|);
    forall i | 0 <= i < n
      ensures r[i] == disk[Wrap(offset + i, |disk|)]
    {
      SplitIsWrap(offset, i, |disk|);
    }
  }

  /** A remainder of something less than two turns. */
  lemma Turn(x: nat, n: nat)
    requires n > 0 && x < 2 * n
    ensures x % n == if x < n then x else x - n
  {
  }

  lemma Appended<T>(disk: seq<T>, head: nat, tail: nat, len: nat, data: seq<T>)
    requires head < |disk| && tail < |disk| && len == (|disk| + tail - head) % |disk| && |data| <= |disk| - 1 - len
    ensures (|disk| + (tail + |data|) % |disk| - head) % |disk| == len + |data|
    ensures Blocks(Written(disk, tail, data), head, len + |data|) == Blocks(disk, head, len) + data
  {
    var n, m := |disk|, len + |data|;
    Turn(n + tail - head, n);
    Turn(tail + |data|, n);
    Turn(n + (tail + |data|) % n - head, n);
    var w := Written(disk, tail, data);
    var a, b := Blocks(w, head, m), Blocks(disk, head, len) + data;
    forall i | 0 <= i < m
      ensures a[i] == b[i]
    {
      AppendedAt(disk, head, tail, len, data, i);
    }
  }

  lemma AppendedAt<T>(disk: seq<T>, head: nat, tail: nat, len: nat, data: seq<T>, i: nat)
    requires head < |disk| && tail < |disk| && |data| <= |disk| - 1 - len && i < len + |data|
    requires len == if tail >= head then tail - head else |disk| + tail - head
    ensures Written(disk, tail, data)[Wrap(head + i, |disk|)] ==
            if i < len then disk[Wrap(head + i, |disk|)] else data[i - len]
  {
    hide Wrap;
    WrapSmall(head, |disk|);
    SplitIsWrap(head, i, |disk|);
  }
}
