/** Small facts about cutting, deleting from and inserting into sequences. */
module SeqOps {

  datatype Option<+T> = None | Some(value: T)

  function Take<T>(s: seq<T>, n: nat): seq<T> {
    if n < |s| then s[..n] else s
  }

  /** `s` with position `p` removed. */
  function Without<T>(s: seq<T>, p: nat): seq<T>
    requires p < |s|
  {
    s[..p] + s[p + 1..]
  }

  /** `s` with `x` put in at position `p`, if there is such a position. */
  function Splice<T>(s: seq<T>, p: nat, x: T): seq<T> {
    if p <= |s| then s[..p] + [x] + s[p..] else s
  }

  lemma WithoutAt<T>(s: seq<T>, p: nat, q: nat)
    requires p < |s| && q < |s| - 1
    ensures Without(s, p)[q] == s[if q < p then q else q + 1]
  {
  }

  lemma SpliceAt<T>(s: seq<T>, p: nat, x: T, q: nat)
    requires p <= |s| && q <= |s|
    ensures Splice(s, p, x)[q] == if q < p then s[q] else if q == p then x else s[q - 1]
  {
  }

  /** Dropping a position, cutting, putting a value back and cutting again is
      the same as replacing the value and cutting. */
  lemma TakeReplaced<T>(s: seq<T>, p: nat, y: T, n: nat)
    requires p < |s|
    ensures Take(s[p := y], n) == Take(Splice(Take(Without(s, p), n), p, y), n)
  {
    var w := Take(Without(s, p), n);
    var a, b := Take(s[p := y], n), Take(Splice(w, p, y), n);
    assert |a| == |b|;
    forall q | 0 <= q < |a|
      ensures a[q] == b[q]
    {
      if p <= |w| { SpliceAt(w, p, y, q); }
      if q < p { WithoutAt(s, p, q); } else if q > p { WithoutAt(s, p, q - 1); }
    }
  }

  /** Cutting after a deletion, against cutting one place earlier. */
  lemma TakeWithout<T>(s: seq<T>, p: nat, n: nat)
    requires p < |s|
    ensures p >= n ==> Take(Without(s, p), n) == Take(s, n)
    ensures p < n ==> Take(Without(s, p), n - 1) == Without(Take(s, n), p)
    ensures p < n < |s| ==> Take(Without(s, p), n) == Take(Without(s, p), n - 1) + [s[n]]
    ensures p < n && |s| <= n ==> Take(Without(s, p), n) == Take(Without(s, p), n - 1)
  {
  }

  ghost predicate Distinct<T>(s: seq<T>) {
    forall i, j :: 0 <= i < j < |s| ==> s[i] != s[j]
  }

  /** `b` keeps every element of `a` but the last, which it keeps exactly when
      `a` had room to spare. */
  ghost predicate DropsLastIfFull<T>(a: seq<T>, b: seq<T>, n: nat) {
    && a != []
    && (a[|a| - 1] !in b <==> |a| == n)
    && forall k :: 0 <= k < |a| - 1 ==> a[k] in b
  }

  /** Putting a new value at `p` pushes the last element out exactly when the
      cut sequence was full, and no other. */
  lemma ReplacedDropsLast<T>(s: seq<T>, p: nat, y: T, n: nat)
    requires p < |s| && p < n && Distinct(s[p := y]) && |s| > 1
    ensures DropsLastIfFull(Take(Without(s, p), n), Take(s[p := y], n), n)
  {
    var t := s[p := y];
    var a, b := Take(Without(s, p), n), Take(t, n);
    forall k | 0 <= k < |a|
      ensures a[k] == t[if k < p then k else k + 1]
    {
      WithoutAt(s, p, k);
    }
    forall k | 0 <= k < |a| - 1
      ensures a[k] in b
    {
      assert b[if k < p then k else k + 1] == a[k];
    }
    var m := |a| - 1;
    if |a| < n {
      assert b[if m < p then m else m + 1] == a[m];
    } else {
      assert a[m] == t[n];
      assert forall k :: 0 <= k < n ==> b[k] != t[n];
    }
  }

  // ----- lists of lists and of lengths -----

  function Flatten<T>(ps: seq<seq<T>>): seq<T> {
    if ps == [] then [] else Flatten(ps[..|ps| - 1]) + ps[|ps| - 1]
  }

  lemma FlattenStep<T>(ps: seq<seq<T>>, i: nat)
    requires i < |ps|
    ensures Flatten(ps[..i + 1]) == Flatten(ps[..i]) + ps[i]
  {
    assert ps[..i + 1][..i] == ps[..i];
  }

  lemma {:induction false} FlattenPrefix<T>(ps: seq<seq<T>>, i: nat)
    requires i <= |ps|
    ensures Flatten(ps[..i]) <= Flatten(ps)
  {
    if i < |ps| {
      var n := |ps| - 1;
      FlattenPrefix(ps[..n], i);
      assert ps[..n][..i] == ps[..i];
    } else {
      assert ps[..i] == ps;
    }
  }

  function Sum(lens: seq<nat>): nat {
    if lens == [] then 0 else lens[|lens| - 1] + Sum(lens[..|lens| - 1])
  }

  lemma SumSnoc(lens: seq<nat>, n: nat)
    ensures Sum(lens + [n]) == Sum(lens) + n
  {
    assert (lens + [n])[..|lens|] == lens;
  }

  lemma SumStep(lens: seq<nat>, i: nat)
    requires i < |lens|
    ensures Sum(lens[..i + 1]) == Sum(lens[..i]) + lens[i]
  {
    assert lens[..i + 1] == lens[..i] + [lens[i]];
    SumSnoc(lens[..i], lens[i]);
  }
}
