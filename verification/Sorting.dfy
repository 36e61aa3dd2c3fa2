/** Sorting a slice with a caller's comparison, without promising an order among equals. */
module Sorting {

  /** A comparison a sort of these elements can rely on: asymmetric, and "not before" is transitive. */
  ghost predicate IsOrderOn<T>(xs: seq<T>, less: (T, T) -> bool) {
    && (forall a, b | a in xs && b in xs :: less(a, b) ==> !less(b, a))
    && (forall a, b, c | a in xs && b in xs && c in xs :: !less(a, b) && !less(b, c) ==> !less(a, c))
  }

  ghost predicate Sorted<T>(xs: seq<T>, less: (T, T) -> bool) {
    forall i, k :: 0 <= i < k < |xs| ==> !less(xs[k], xs[i])
  }

  /** Inserting before the first larger element keeps a sorted sequence sorted. */
  lemma InsertKeepsSorted<T>(all: seq<T>, xs: seq<T>, x: T, at: nat, less: (T, T) -> bool)
    requires IsOrderOn(all, less) && x in all && (forall i :: 0 <= i < |xs| ==> xs[i] in all)
    requires Sorted(xs, less) && at <= |xs|
    requires forall i :: 0 <= i < at ==> !less(x, xs[i])
    requires at < |xs| ==> less(x, xs[at])
    ensures Sorted(xs[..at] + [x] + xs[at..], less)
  {
    var r := xs[..at] + [x] + xs[at..];
    forall k | at <= k < |xs| ensures !less(xs[k], x) {
      assert !less(xs[at], x);
      assert k == at || !less(xs[k], xs[at]);
    }
    forall i, k | 0 <= i < k < |r| ensures !less(r[k], r[i]) {
      var oi, ok := if i < at then i else i - 1, if k < at then k else k - 1;
      if i == at {
        assert r[i] == x && r[k] == xs[k - 1];
      } else if k == at {
        assert r[k] == x && r[i] == xs[i];
      } else {
        assert r[i] == xs[oi] && r[k] == xs[ok];
      }
    }
  }

  lemma InsertKeepsElements<T>(xs: seq<T>, x: T, at: nat)
    requires at <= |xs|
    ensures multiset(xs[..at] + [x] + xs[at..]) == multiset(xs) + multiset{x}
  {
    assert xs == xs[..at] + xs[at..];
  }

  /** `r` lists the elements of `xs` in the order `perm`, each position once. */
  ghost predicate Rearranges<T>(r: seq<T>, xs: seq<T>, perm: seq<nat>) {
    && |r| == |xs| == |perm|
    && (forall i :: 0 <= i < |perm| ==> perm[i] < |xs| && r[i] == xs[perm[i]])
    && (forall i, k :: 0 <= i < k < |perm| ==> perm[i] != perm[k])
  }

  /** The first position whose element should come after `x`. */
  method FindPlace<T>(r: seq<T>, x: T, less: (T, T) -> bool) returns (at: nat)
    ensures at <= |r| && (forall i :: 0 <= i < at ==> !less(x, r[i])) && (at < |r| ==> less(x, r[at]))
  {
    at := 0;
    while at < |r| && !less(x, r[at])
      invariant at <= |r| && forall i :: 0 <= i < at ==> !less(x, r[i])
    {
      at := at + 1;
    }
  }

  /** The result is a rearrangement of the input; when the comparison orders the elements of the input,
      nothing comes before something that should precede it. The place of equal elements is left open. */
  method SortSlice<T>(xs: seq<T>, less: (T, T) -> bool) returns (r: seq<T>, ghost perm: seq<nat>)
    ensures multiset(r) == multiset(xs)
    ensures Rearranges(r, xs, perm)
    ensures IsOrderOn(xs, less) ==> Sorted(r, less)
  {
    r, perm := [], [];
    for n := 0 to |xs|
      invariant SortedUpTo(xs, n, r, perm, less)
    {
      var at := FindPlace(r, xs[n], less);
      InsertKeeps(xs, n, r, perm, at, less);
      perm := perm[..at] + [n] + perm[at..];
      r := r[..at] + [xs[n]] + r[at..];
    }
    assert xs[..|xs|] == xs;
  }

  ghost predicate SortedUpTo<T>(xs: seq<T>, n: nat, r: seq<T>, perm: seq<nat>, less: (T, T) -> bool)
    requires n <= |xs|
  {
    && multiset(r) == multiset(xs[..n])
    && Rearranges(r, xs[..n], perm)
    && (IsOrderOn(xs, less) ==> Sorted(r, less))
  }

  lemma InsertKeeps<T>(xs: seq<T>, n: nat, r: seq<T>, perm: seq<nat>, at: nat, less: (T, T) -> bool)
    requires n < |xs| && SortedUpTo(xs, n, r, perm, less) && at <= |r| == |perm|
    requires (forall i :: 0 <= i < at ==> !less(xs[n], r[i])) && (at < |r| ==> less(xs[n], r[at]))
    ensures SortedUpTo(xs, n + 1, r[..at] + [xs[n]] + r[at..], perm[..at] + [n] + perm[at..], less)
  {
    assert xs[..n + 1] == xs[..n] + [xs[n]];
    InsertKeepsElements(r, xs[n], at);
    InsertRearranges(r, xs[..n], perm, xs[n], at);
    if IsOrderOn(xs, less) { InsertKeepsSorted(xs, r, xs[n], at, less); }
  }

  lemma InsertRearranges<T>(r: seq<T>, xs: seq<T>, perm: seq<nat>, x: T, at: nat)
    requires Rearranges(r, xs, perm) && at <= |r|
    ensures Rearranges(r[..at] + [x] + r[at..], xs + [x], perm[..at] + [|xs|] + perm[at..])
  {
  }

  /** A rearrangement has the same length, the same elements, and stays free of duplicates. */
  lemma SameElements<T>(r: seq<T>, xs: seq<T>)
    requires multiset(r) == multiset(xs)
    ensures |r| == |xs|
    ensures forall x :: x in r <==> x in xs
    ensures (forall i, k :: 0 <= i < k < |xs| ==> xs[i] != xs[k]) ==> (forall i, k :: 0 <= i < k < |r| ==> r[i] != r[k])
  {
    assert |r| == |multiset(r)| && |xs| == |multiset(xs)|;
    forall x ensures x in r <==> x in xs {
      assert x in r <==> x in multiset(r);
      assert x in xs <==> x in multiset(xs);
    }
    if forall i, k :: 0 <= i < k < |xs| ==> xs[i] != xs[k] {
      forall x ensures multiset(r)[x] <= 1 { CountAtMostOne(xs, x); }
      forall i, k | 0 <= i < k < |r| ensures r[i] != r[k] {
        assert r == r[..i] + [r[i]] + r[i + 1..k] + [r[k]] + r[k + 1..];
        assert multiset(r)[r[i]] <= 1;
      }
    }
  }

  lemma {:induction false} CountAtMostOne<T>(xs: seq<T>, x: T)
    requires forall i, k :: 0 <= i < k < |xs| ==> xs[i] != xs[k]
    ensures multiset(xs)[x] <= 1
  {
    if xs == [] {
    } else {
      var front := xs[..|xs| - 1];
      assert xs == front + [xs[|xs| - 1]];
      CountAtMostOne(front, x);
      assert xs[|xs| - 1] !in front;
    }
  }
}
