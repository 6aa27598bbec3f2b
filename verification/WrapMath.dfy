/** Division, remainder and distances on a circular buffer of `n` places. */
module WrapMath {

  lemma MulMono(a: nat, b: nat, z: nat)
    requires a <= b
    ensures a * z <= b * z
  {
  }

  lemma Beyond(q: nat, p: nat, z: nat)
    requires z > 0
    ensures q > p ==> q * z >= p * z + z
    ensures q <= p ==> q * z + z <= p * z + z
  {
    if q > p { MulMono(p + 1, q, z); assert (p + 1) * z == p * z + z; } else { MulMono(q, p, z); }
  }

  /** `a` is in block `q` of size `z` exactly when it lies between its ends. */
  lemma BlockBounds(a: nat, z: nat, q: nat)
    requires z > 0
    ensures a / z == q <==> q * z <= a < q * z + z
  {
    var i := a / z;
    assert i * z <= a < i * z + z;
    Beyond(i, q, z);
    Beyond(q, i, z);
  }

  lemma SmallQuotient(r: nat, n: nat)
    requires r < n
    ensures r / n == 0 && r % n == r
  {
    BlockBounds(r, n, 0);
  }

  lemma ModPlus(y: nat, n: nat)
    requires n > 0
    ensures (y + n) % n == y % n
  {
    var q := y / n;
    assert q * n <= y < q * n + n;
    assert (q + 1) * n == q * n + n;
    BlockBounds(y + n, n, q + 1);
  }

  lemma {:induction false} ModShift(x: nat, q: nat, n: nat)
    requires n > 0
    ensures (x + q * n) % n == x % n
  {
    if q > 0 {
      ModShift(x, q - 1, n);
      assert x + q * n == (x + (q - 1) * n) + n;
      ModPlus(x + (q - 1) * n, n);
    }
  }

  lemma ModAdd(a: nat, b: nat, n: nat)
    requires n > 0
    ensures (a % n + b) % n == (a + b) % n
  {
    var q := a / n;
    assert a == q * n + a % n;
    ModShift(a % n + b, q, n);
  }

  /** A position of an unbounded log as an offset into a buffer of `n` places. */
  function Wrap(x: nat, n: nat): (r: nat)
    requires n > 0
    ensures r < n
  {
    x % n
  }

  lemma WrapAdd(a: nat, b: nat, n: nat)
    requires n > 0
    ensures Wrap(Wrap(a, n) + b, n) == Wrap(a + b, n)
  {
    ModAdd(a, b, n);
  }

  lemma WrapSmall(x: nat, n: nat)
    requires x < n
    ensures Wrap(x, n) == x && Wrap(x + n, n) == x
  {
  }

  /** The distance between two wrapped offsets, as the code computes it. */
  lemma WrappedDistance(a: nat, b: nat, n: nat)
    requires n > 0 && a <= b < a + n
    ensures Wrap(n - Wrap(a, n) + Wrap(b, n), n) == b - a
  {
    hide Wrap;
    var d, r := b - a, Wrap(a, n);
    WrapAdd(a, d, n);
    assert Wrap(b, n) == Wrap(r + d, n);
    if r + d < n {
      WrapSmall(r + d, n);
      WrapSmall(d, n);
    } else {
      WrapSmall(r + d - n, n);
      WrapSmall(d, n);
    }
  }

  /** Two positions less than one turn apart have the same offset only if equal. */
  lemma WrappedEqual(a: nat, b: nat, n: nat)
    requires n > 0 && a <= b < a + n
    ensures Wrap(a, n) == Wrap(b, n) <==> a == b
  {
    hide Wrap;
    WrappedDistance(a, b, n);
    WrapSmall(0, n);
  }

  /** The same computation with the positions the other way round. */
  lemma WrappedBack(a: nat, b: nat, n: nat)
    requires n > 0 && a <= b < a + n
    ensures Wrap(n - Wrap(b, n) + Wrap(a, n), n) == if a == b then 0 else n - (b - a)
  {
    hide Wrap;
    if a == b {
      WrapSmall(0, n);
    } else {
      WrappedDistance(b, a + n, n);
      WrapAdd(0, a, n);
      assert Wrap(a + n, n) == Wrap(a, n) by { WrapTurn(a, n); }
    }
  }

  lemma WrapTurn(a: nat, n: nat)
    requires n > 0
    ensures Wrap(a + n, n) == Wrap(a, n)
  {
    ModPlus(a, n);
  }

  /** A walk of `i` places from `a` towards `b` has arrived when this is zero. */
  lemma WrappedArrival(a: nat, i: nat, b: nat, n: nat)
    requires n > 0 && a + i <= b < a + n
    ensures Wrap(n - Wrap(b, n) + Wrap(a, n) + i, n) == 0 <==> a + i == b
  {
    hide Wrap;
    WrappedBack(a, b, n);
    WrapAdd(n - Wrap(b, n) + Wrap(a, n), i, n);
    WrapSmall(0, n);
    if a == b {
    } else if a + i == b {
    } else {
      WrapSmall(n - (b - a) + i, n);
    }
  }

  /** Place `j` of a piece of memory that starts at `start` and wraps at most once. */
  function Split(start: nat, j: nat, n: nat): nat {
    if start + j < n then start + j else start + j - n
  }

  lemma SplitIsWrap(p: nat, j: nat, n: nat)
    requires n > 0 && j < n
    ensures Split(Wrap(p, n), j, n) == Wrap(p + j, n)
  {
    hide Wrap;
    var start := Wrap(p, n);
    WrapAdd(p, j, n);
    if start + j < n { WrapSmall(start + j, n); } else { WrapSmall(start + j - n, n); }
  }

  // ----- circular buffers -----

  /** The element of buffer `d` for position `x` of the unbounded log. */
  ghost function At<T>(d: seq<T>, x: nat): T
    requires |d| > 0
  {
    d[Wrap(x, |d|)]
  }

  lemma WriteAt<T>(d: seq<T>, x: nat, p: nat, b: T, y: nat)
    requires |d| > 0 && x == Wrap(p, |d|) && y <= p < y + |d|
    ensures At(d[x := b], y) == if y == p then b else At(d, y)
  {
    hide Wrap;
    WrappedEqual(y, p, |d|);
  }

  /** The same with the position read lying ahead of the one written. */
  lemma WriteBehind<T>(d: seq<T>, x: nat, p: nat, b: T, y: nat)
    requires |d| > 0 && x == Wrap(p, |d|) && p <= y < p + |d|
    ensures At(d[x := b], y) == if y == p then b else At(d, y)
  {
    hide Wrap;
    WrappedEqual(p, y, |d|);
  }
}
