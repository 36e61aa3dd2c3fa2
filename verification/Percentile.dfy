/** Percentiles of a latency trend by linear interpolation between neighbours. */
module Percentile {
  import opened Wrappers
  import opened Sorting

  predicate Ascending(xs: seq<real>) {
    forall i, k :: 0 <= i < k < |xs| ==> xs[i] <= xs[k]
  }

  /** The value at a fractional position. */
  function At(xs: seq<real>, position: real): real
    requires 0.0 <= position <= (|xs| - 1) as real
  {
    var lower, upper := position.Floor, Ceil(position);
    if lower == upper then xs[lower]
    else
      var weight := position - lower as real;
      xs[lower] * (1.0 - weight) + xs[upper] * weight
  }

  function Percentile(xs: seq<real>, quantile: real): real
    requires 0.0 <= quantile <= 1.0
  {
    if |xs| == 0 then 0.0
    else if |xs| == 1 then xs[0]
    else At(xs, Position(|xs|, quantile))
  }

  function Times(d: real, q: real): real { d * q }

  lemma TimesGrows(d: real, p: real, q: real)
    requires d >= 0.0 && 0.0 <= p <= q <= 1.0
    ensures 0.0 <= Times(d, p) <= Times(d, q) <= d
  {
    TimesIsPositive(d, p);
    Scale(d, p, q);
    TimesAtMost(d, q);
  }

  lemma TimesIsPositive(d: real, p: real)
    requires d >= 0.0 && p >= 0.0
    ensures 0.0 <= Times(d, p)
  {
    Product(d, p);
  }

  lemma TimesAtMost(d: real, q: real)
    requires d >= 0.0 && q <= 1.0
    ensures Times(d, q) <= d
  {
    Product(d, 1.0 - q);
    assert d * (1.0 - q) == d - d * q;
  }

  function Position(n: nat, quantile: real): (r: real)
    requires n >= 1 && 0.0 <= quantile <= 1.0
    ensures 0.0 <= r <= (n - 1) as real
  {
    TimesGrows((n - 1) as real, quantile, quantile);
    Times((n - 1) as real, quantile)
  }

  lemma Product(d: real, v: real)
    requires d >= 0.0 && v >= 0.0
    ensures d * v >= 0.0
  {
  }

  lemma Scale(d: real, v: real, w: real)
    requires d >= 0.0 && v <= w
    ensures d * v <= d * w
  {
    Product(d, w - v);
    assert d * (w - v) == d * w - d * v;
  }

  lemma Blend(a: real, b: real, v: real, w: real)
    requires a <= b && 0.0 <= v <= w <= 1.0
    ensures a <= a * (1.0 - v) + b * v <= a * (1.0 - w) + b * w <= b
  {
    assert a * (1.0 - v) + b * v == a + (b - a) * v;
    assert a * (1.0 - w) + b * w == a + (b - a) * w;
    TimesGrows(b - a, v, w);
  }

  /** A fractional position lies between its neighbours' values. */
  lemma BetweenNeighbours(xs: seq<real>, position: real)
    requires Ascending(xs) && 0.0 <= position <= (|xs| - 1) as real
    ensures xs[position.Floor] <= At(xs, position) <= xs[Ceil(position)]
  {
    var lower, upper := position.Floor, Ceil(position);
    if lower != upper {
      Blend(xs[lower], xs[upper], position - lower as real, position - lower as real);
    }
  }

  lemma AtGrows(xs: seq<real>, p: real, q: real)
    requires Ascending(xs) && 0.0 <= p <= q <= (|xs| - 1) as real
    ensures At(xs, p) <= At(xs, q)
  {
    BetweenNeighbours(xs, p);
    BetweenNeighbours(xs, q);
    if p.Floor == q.Floor {
      if Ceil(p) != p.Floor {
        Blend(xs[p.Floor], xs[Ceil(p)], p - p.Floor as real, q - p.Floor as real);
      }
    } else {
      assert Ceil(p) <= q.Floor;
    }
  }

  /** A percentile of sorted values lies between the first and the last. */
  lemma WithinRange(xs: seq<real>, quantile: real)
    requires Ascending(xs) && |xs| > 0 && 0.0 <= quantile <= 1.0
    ensures xs[0] <= Percentile(xs, quantile) <= xs[|xs| - 1]
  {
    if |xs| > 1 {
      BetweenNeighbours(xs, Position(|xs|, quantile));
    }
  }

  /** Percentiles grow with the quantile, also across segment boundaries. */
  lemma GrowsWithQuantile(xs: seq<real>, p: real, q: real)
    requires Ascending(xs) && 0.0 <= p <= q <= 1.0
    ensures Percentile(xs, p) <= Percentile(xs, q)
  {
    if |xs| > 1 {
      TimesGrows((|xs| - 1) as real, p, q);
      AtGrows(xs, Position(|xs|, p), Position(|xs|, q));
    }
  }

  /** The percentile of no value is zero and that of one value is the value. Of more values it is interpolated
      linearly between the two around position (n - 1) * quantile. */
  lemma Interpolates(xs: seq<real>, quantile: real, i: nat, w: real)
    requires 0.0 <= quantile <= 1.0
    ensures |xs| == 0 ==> Percentile(xs, quantile) == 0.0
    ensures |xs| == 1 ==> Percentile(xs, quantile) == xs[0]
    ensures |xs| >= 2 && i < |xs| - 1 && 0.0 <= w <= 1.0 && (|xs| - 1) as real * quantile == i as real + w ==>
              Percentile(xs, quantile) == xs[i] + w * (xs[i + 1] - xs[i])
  {
    if |xs| >= 2 && i < |xs| - 1 && 0.0 <= w <= 1.0 && (|xs| - 1) as real * quantile == i as real + w {
      AtIsLinear(xs, Position(|xs|, quantile), i, w);
    }
  }

  lemma AtIsLinear(xs: seq<real>, position: real, i: nat, w: real)
    requires i < |xs| - 1 && 0.0 <= w <= 1.0 && position == i as real + w
    ensures At(xs, position) == xs[i] + w * (xs[i + 1] - xs[i])
  {
    if w == 0.0 {
      assert position.Floor == i && Ceil(position) == i;
    } else if w == 1.0 {
      assert position.Floor == i + 1 && Ceil(position) == i + 1;
    } else {
      assert position.Floor == i && Ceil(position) == i + 1;
      assert xs[i] * (1.0 - w) + xs[i + 1] * w == xs[i] + w * (xs[i + 1] - xs[i]);
    }
  }

  datatype Point = Point(available: bool, latency: real, loss: real)

  /** Latencies of the available points, in order. */
  function Latencies(points: seq<Point>, n: nat): seq<real>
    requires n <= |points|
  {
    if n == 0 then []
    else
      var before := Latencies(points, n - 1);
      if points[n - 1].available then before + [points[n - 1].latency] else before
  }

  /** The points that count with latency `x`. */
  function WithLatency(points: seq<Point>, n: nat, x: real): set<nat>
    requires n <= |points|
  {
    set i: nat | i < n && points[i].available && points[i].latency == x
  }

  lemma {:induction false} LatenciesCount(points: seq<Point>, n: nat, x: real)
    requires n <= |points|
    ensures multiset(Latencies(points, n))[x] == |WithLatency(points, n, x)|
  {
    if n == 0 {
      assert WithLatency(points, 0, x) == {};
    } else {
      LatenciesCount(points, n - 1, x);
      NextPoint(points, n, x, WithLatency(points, n - 1, x));
    }
  }

  lemma NextPoint(points: seq<Point>, n: nat, x: real, before: set<nat>)
    requires 0 < n <= |points| && before == WithLatency(points, n - 1, x)
    ensures |WithLatency(points, n, x)|
         == |before| + if points[n - 1].available && points[n - 1].latency == x then 1 else 0
  {
    assert WithLatency(points, n, x)
        == if points[n - 1].available && points[n - 1].latency == x then before + {n - 1} else before;
  }

  /** The two latency figures of a trend come from its available points, and the median never exceeds the
      95th percentile; without available points both are zero. */
  method TrendLatencies(points: seq<Point>) returns (p50: real, p95: real, ghost sorted: seq<real>)
    ensures Ascending(sorted) && multiset(sorted) == multiset(Latencies(points, |points|))
    ensures forall x: real :: multiset(sorted)[x] == |WithLatency(points, |points|, x)|
    ensures (forall i :: 0 <= i < |points| ==> !points[i].available) ==> p50 == p95 == 0.0
    ensures p50 == Percentile(sorted, 0.5) && p95 == Percentile(sorted, 0.95)
    ensures p50 <= p95
    ensures |sorted| > 0 ==> sorted[0] <= p50 && p95 <= sorted[|sorted| - 1]
  {
    var latencies := [];
    for i := 0 to |points|
      invariant latencies == Latencies(points, i)
    {
      if points[i].available {
        latencies := latencies + [points[i].latency];
      }
    }
    p50, p95 := 0.0, 0.0;
    if |latencies| > 0 {
      assert IsOrderOn(latencies, (a: real, b: real) => a < b);
      var r, _ := SortSlice(latencies, (a: real, b: real) => a < b);
      sorted := r;
      p50 := Percentile(r, 0.5);
      p95 := Percentile(r, 0.95);
      WithinRange(sorted, 0.5);
      WithinRange(sorted, 0.95);
      GrowsWithQuantile(sorted, 0.5, 0.95);
    } else {
      sorted := [];
    }
    forall x: real ensures multiset(sorted)[x] == |WithLatency(points, |points|, x)| {
      LatenciesCount(points, |points|, x);
    }
    if forall i :: 0 <= i < |points| ==> !points[i].available { NoLatencies(points, |points|); }
  }

  lemma {:induction false} NoLatencies(points: seq<Point>, n: nat)
    requires n <= |points| && forall i :: 0 <= i < |points| ==> !points[i].available
    ensures Latencies(points, n) == []
  {
    if n == 0 {
    } else {
      NoLatencies(points, n - 1);
    }
  }
}
