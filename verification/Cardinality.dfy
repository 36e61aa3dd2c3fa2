/** Counting facts about finite sets and duplicate-free sequences. */
module Cardinality {

  lemma {:induction false} SubsetSize<T>(a: set<T>, b: set<T>)
    requires a <= b
    ensures |a| <= |b|
    ensures |a| == |b| ==> a == b
  {
    if a == {} {
    } else {
      var x :| x in a;
      SubsetSize(a - {x}, b - {x});
    }
  }

  lemma {:induction false} RangeSize(lo: nat, hi: nat, ids: set<nat>)
    requires lo <= hi
    requires forall t :: t in ids <==> lo <= t < hi
    ensures |ids| == hi - lo
  {
    if lo == hi {
      assert ids == {};
    } else {
      RangeSize(lo, hi - 1, ids - {hi - 1});
    }
  }

  ghost predicate Distinct<T>(xs: seq<T>) {
    forall i, k :: 0 <= i < k < |xs| ==> xs[i] != xs[k]
  }

  function Elements<T>(xs: seq<T>): set<T> {
    set x | x in xs
  }

  lemma {:induction false} DistinctSize<T>(xs: seq<T>)
    requires Distinct(xs)
    ensures |Elements(xs)| == |xs|
  {
    if xs == [] {
      assert Elements(xs) == {};
    } else {
      var front, last := xs[..|xs| - 1], xs[|xs| - 1];
      assert xs == front + [last];
      assert last !in front;
      assert Elements(xs) == Elements(front) + {last};
      DistinctSize(front);
    }
  }

  function Below(n: nat): (r: set<nat>)
    ensures forall m: nat :: m in r <==> m < n
  {
    if n == 0 then {} else Below(n - 1) + {n - 1}
  }

  /** Pigeonhole: distinct numbers below `n` are at most `n` many, and if there are `n` they are all of them. */
  lemma DistinctBelow(xs: seq<nat>, n: nat)
    requires Distinct(xs) && forall i :: 0 <= i < |xs| ==> xs[i] < n
    ensures |xs| <= n
    ensures |xs| == n ==> forall m: nat :: m < n ==> m in xs
    ensures (forall m: nat :: m < n ==> m in xs) ==> |xs| == n
  {
    DistinctSize(xs);
    RangeSize(0, n, Below(n));
    assert Elements(xs) <= Below(n);
    SubsetSize(Elements(xs), Below(n));
    if |xs| == n {
      forall m: nat | m < n ensures m in xs { assert m in Below(n) && m in Elements(xs); }
    }
    if forall m: nat :: m < n ==> m in xs {
      assert Below(n) <= Elements(xs);
      SubsetSize(Below(n), Elements(xs));
    }
  }

  /** A map that never sends two keys to the same value has as many values as keys. */
  lemma {:induction false} InjectiveSize<A, B>(m: map<A, B>)
    requires forall a, b :: a in m && b in m && a != b ==> m[a] != m[b]
    ensures |m.Values| == |m|
    decreases |m|
  {
    if m.Keys == {} {
      assert m == map[] && m.Values == {};
    } else {
      var k :| k in m;
      var rest := m - {k};
      InjectiveSize(rest);
      assert m == rest[k := m[k]];
      assert m.Values == rest.Values + {m[k]};
    }
  }
}
