/** Generic sequence searches used by the poster text pipeline: the
    JavaScript `findIndex`, `filter` and `slice(0, k)` idioms, each with the
    contract that says what it selects. */
module Seqs {

  datatype Option<T> = None | Some(value: T)

  /** The first index in [lo, hi) whose element satisfies p; None when no
      element of that window does. */
  function FirstIndex<T>(s: seq<T>, p: T -> bool, lo: nat, hi: nat): (r: Option<nat>)
    requires hi <= |s|
    ensures r.Some? ==> lo <= r.value < hi && p(s[r.value])
    ensures r.Some? ==> forall j :: lo <= j < r.value ==> !p(s[j])
    ensures r.None? ==> forall j :: lo <= j < hi ==> !p(s[j])
    decreases hi - lo
  {
    if lo >= hi then None
    else if p(s[lo]) then Some(lo)
    else FirstIndex(s, p, lo + 1, hi)
  }

  /** The elements of s that satisfy p, in their original order. */
  function Filter<T>(s: seq<T>, p: T -> bool): (r: seq<T>)
    ensures |r| <= |s|
    ensures forall i :: 0 <= i < |r| ==> p(r[i])
  {
    if s == [] then []
    else Filter(s[..|s| - 1], p) + (if p(s[|s| - 1]) then [s[|s| - 1]] else [])
  }

  /** At most the first k elements of s (JavaScript `slice(0, k)`). */
  function Take<T>(s: seq<T>, k: nat): (r: seq<T>)
    ensures |r| == if |s| < k then |s| else k
    ensures r == s[..|r|]
  {
    if |s| < k then s else s[..k]
  }

  lemma {:induction false} FilterAppend<T>(a: seq<T>, b: seq<T>, p: T -> bool)
    ensures Filter(a + b, p) == Filter(a, p) + Filter(b, p)
    decreases |b|
  {
    if b == [] {
      assert a + b == a;
    } else {
      var b' := b[..|b| - 1];
      assert (a + b)[..|a + b| - 1] == a + b';
      FilterAppend(a, b', p);
    }
  }

  /** Every element of s satisfies p exactly when filtering keeps all of s. */
  lemma {:induction false} FilterAll<T>(s: seq<T>, p: T -> bool)
    requires forall i :: 0 <= i < |s| ==> p(s[i])
    ensures Filter(s, p) == s
  {
    if s != [] {
      FilterAll(s[..|s| - 1], p);
    }
  }

  function Min(a: int, b: int): int {
    if a < b then a else b
  }

  /** Filtering keeps only elements of s. */
  lemma {:induction false} FilterSubset<T>(s: seq<T>, p: T -> bool)
    ensures forall i :: 0 <= i < |Filter(s, p)| ==> Filter(s, p)[i] in s
  {
    if s != [] {
      var init := s[..|s| - 1];
      FilterSubset(init, p);
      assert forall x :: x in init ==> x in s;
    }
  }

  /** Filtering leaves nothing exactly when no element satisfies p. */
  lemma {:induction false} FilterEmpty<T>(s: seq<T>, p: T -> bool)
    ensures Filter(s, p) == [] <==> forall i :: 0 <= i < |s| ==> !p(s[i])
  {
    if s != [] {
      var init := s[..|s| - 1];
      FilterEmpty(init, p);
      assert forall i :: 0 <= i < |init| ==> init[i] == s[i];
    }
  }

  /** The first match is the index at which p first holds in the window. */
  lemma FirstIndexAt<T>(s: seq<T>, p: T -> bool, lo: nat, hi: nat, i: nat)
    requires lo <= i < hi <= |s| && p(s[i])
    requires forall j :: lo <= j < i ==> !p(s[j])
    ensures FirstIndex(s, p, lo, hi) == Some(i)
  {
  }

  /** Filtering a window one element longer. */
  lemma FilterExtend<T>(s: seq<T>, p: T -> bool, lo: nat, hi: nat)
    requires lo <= hi < |s|
    ensures Filter(s[lo..hi + 1], p) == Filter(s[lo..hi], p) + (if p(s[hi]) then [s[hi]] else [])
  {
    assert s[lo..hi + 1][..hi - lo] == s[lo..hi];
  }

  /** A window with no match stays without one when the next element fails p. */
  lemma FirstIndexExtend<T>(s: seq<T>, p: T -> bool, lo: nat, hi: nat)
    requires lo <= hi < |s| && FirstIndex(s, p, lo, hi) == None && !p(s[hi])
    ensures FirstIndex(s, p, lo, hi + 1) == None
  {
  }

  /** The first element of a window to satisfy p, after a prefix with no match. */
  lemma FirstIndexHit<T>(s: seq<T>, p: T -> bool, lo: nat, i: nat, hi: nat)
    requires lo <= i < hi <= |s| && FirstIndex(s, p, lo, i) == None && p(s[i])
    ensures FirstIndex(s, p, lo, hi) == Some(i)
  {
  }

  /** The first match lies below m exactly when some element below m matches. */
  lemma FirstIndexBelow<T>(s: seq<T>, p: T -> bool, m: nat)
    requires m <= |s|
    ensures (FirstIndex(s, p, 0, |s|).Some? && FirstIndex(s, p, 0, |s|).value < m) <==>
            !(forall i :: 0 <= i < m ==> !p(s[i]))
  {
  }

  /** [f(0), ..., f(n - 1)]. */
  function Tabulate<T>(f: nat -> T, n: nat): (r: seq<T>)
    ensures |r| == n
  {
    if n == 0 then [] else Tabulate(f, n - 1) + [f(n - 1)]
  }

  lemma {:induction false} TabulateAt<T>(f: nat -> T, n: nat, i: nat)
    requires i < n
    ensures Tabulate(f, n)[i] == f(i)
  {
    if i < n - 1 {
      TabulateAt(f, n - 1, i);
    }
  }

  /** f applied to every element, in order. */
  function Map<T, U>(s: seq<T>, f: T -> U): (r: seq<U>)
    ensures |r| == |s|
  {
    if s == [] then [] else Map(s[..|s| - 1], f) + [f(s[|s| - 1])]
  }

  lemma {:induction false} MapAt<T, U>(s: seq<T>, f: T -> U, k: nat)
    requires k < |s|
    ensures Map(s, f)[k] == f(s[k])
  {
    if k < |s| - 1 {
      MapAt(s[..|s| - 1], f, k);
      assert s[..|s| - 1][k] == s[k];
    }
  }

  lemma MapSnoc<T, U>(s: seq<T>, x: T, f: T -> U)
    ensures Map(s + [x], f) == Map(s, f) + [f(x)]
  {
    assert (s + [x])[..|s|] == s;
  }
}
