/** Which limits keep the failure bounds: traces that break them when the block is too short. */
module LoginTraces {
  import opened Wrappers
  import opened LoginLimiter
  import RateLimiter

  type Time = RateLimiter.Time

  /** An allowed Allow and a Failure of key 0 at each of the given times. */
  function Attempts(ts: seq<Time>): (r: seq<Event>)
    ensures |r| == 2 * |ts|
  {
    if ts == [] then []
    else
      var t := ts[|ts| - 1];
      Attempts(ts[..|ts| - 1]) + [Event(AllowCall, 0, t), Event(FailureCall, 0, t)]
  }

  lemma {:induction false} AttemptAt(ts: seq<Time>, i: nat)
    requires i < |ts|
    ensures Attempts(ts)[2 * i] == Event(AllowCall, 0, ts[i]) && Attempts(ts)[2 * i + 1] == Event(FailureCall, 0, ts[i])
  {
    if i == |ts| - 1 {
    } else {
      AttemptAt(ts[..|ts| - 1], i);
    }
  }

  lemma Half(n: nat) returns (i: nat)
    ensures n == 2 * i || n == 2 * i + 1
  {
    i := n / 2;
  }

  function Attempted(ts: seq<Time>, i: nat, lim: Limits): Option<Attempt>
    requires i <= |ts|
  {
    if i == 0 then None
    else AfterFailure(AfterAllow(Attempted(ts, i - 1, lim), lim, ts[i - 1]), lim, ts[i - 1])
  }

  predicate Rising(ts: seq<Time>) {
    forall i, k :: 0 <= i < k < |ts| ==> ts[i] <= ts[k]
  }

  predicate Permitted(ts: seq<Time>, lim: Limits) {
    forall i :: 0 <= i < |ts| ==> !Blocked(Attempted(ts, i, lim), ts[i])
  }

  function CountIn(ts: seq<Time>, n: nat, lo: Time, hi: Time): nat
    requires n <= |ts|
  {
    if n == 0 then 0
    else
      var before := CountIn(ts, n - 1, lo, hi);
      if lo <= ts[n - 1] < hi then before + 1 else before
  }

  lemma LookupPut(m: map<RateLimiter.Key, Attempt>, key: RateLimiter.Key, s: Option<Attempt>)
    ensures RateLimiter.Lookup(Put(m, key, s), key) == s
  {
  }

  /** Two events of key 0 at one time, seen from the stored attempt. */
  lemma PairState(es: seq<Event>, n: nat, lim: Limits, t: Time)
    requires n + 2 <= |es| && es[n] == Event(AllowCall, 0, t) && es[n + 1] == Event(FailureCall, 0, t)
    ensures RateLimiter.Lookup(After(es, n + 1, lim), 0) == AfterAllow(RateLimiter.Lookup(After(es, n, lim), 0), lim, t)
    ensures RateLimiter.Lookup(After(es, n + 2, lim), 0)
         == AfterFailure(AfterAllow(RateLimiter.Lookup(After(es, n, lim), 0), lim, t), lim, t)
  {
    var s0, s1 := After(es, n, lim), After(es, n + 1, lim);
    LookupPut(s0, 0, AfterAllow(RateLimiter.Lookup(s0, 0), lim, t));
    LookupPut(s1, 0, AfterFailure(RateLimiter.Lookup(s1, 0), lim, t));
  }

  lemma {:induction false} AttemptsState(ts: seq<Time>, i: nat, lim: Limits)
    requires i <= |ts|
    ensures RateLimiter.Lookup(After(Attempts(ts), 2 * i, lim), 0) == Attempted(ts, i, lim)
  {
    if i == 0 {
    } else {
      AttemptsState(ts, i - 1, lim);
      AttemptAt(ts, i - 1);
      PairState(Attempts(ts), 2 * (i - 1), lim, ts[i - 1]);
    }
  }

  lemma AttemptsRight(ts: seq<Time>, lim: Limits, i: nat)
    requires Permitted(ts, lim) && i < |ts|
    ensures Rightly(Attempts(ts), 2 * i, lim, 0) && Rightly(Attempts(ts), 2 * i + 1, lim, 0)
  {
    AttemptAt(ts, i);
    AttemptsState(ts, i, lim);
    assert !Blocked(Attempted(ts, i, lim), ts[i]);
  }

  lemma AttemptsOrdered(ts: seq<Time>, n: nat, m: nat)
    requires Rising(ts) && n < m < 2 * |ts|
    ensures Attempts(ts)[n].time <= Attempts(ts)[m].time
  {
    var i := Half(n);
    var k := Half(m);
    AttemptAt(ts, i);
    AttemptAt(ts, k);
    assert i == k || ts[i] <= ts[k];
  }

  /** Permitted attempts are a trace of failures only. */
  lemma AttemptsFailOnly(ts: seq<Time>, lim: Limits)
    requires Rising(ts) && Permitted(ts, lim)
    ensures Monotone(Attempts(ts)) && OnlyFailures(Attempts(ts), lim, 0)
  {
    var es := Attempts(ts);
    forall n: nat | n < |es| ensures Rightly(es, n, lim, 0) {
      var i := Half(n);
      AttemptsRight(ts, lim, i);
    }
    forall n, m | 0 <= n < m < |es| ensures es[n].time <= es[m].time {
      AttemptsOrdered(ts, n, m);
    }
  }

  lemma {:induction false} AttemptsCount(ts: seq<Time>, i: nat, lo: Time, hi: Time)
    requires i <= |ts|
    ensures Failures(Attempts(ts), 2 * i, 0, lo, hi) == CountIn(ts, i, lo, hi)
  {
    if i == 0 {
    } else {
      AttemptsCount(ts, i - 1, lo, hi);
      AttemptAt(ts, i - 1);
      PairCount(Attempts(ts), 2 * (i - 1), ts[i - 1], lo, hi);
    }
  }

  lemma PairCount(es: seq<Event>, n: nat, t: Time, lo: Time, hi: Time)
    requires n + 2 <= |es| && es[n] == Event(AllowCall, 0, t) && es[n + 1] == Event(FailureCall, 0, t)
    ensures Failures(es, n + 2, 0, lo, hi) == Failures(es, n, 0, lo, hi) + if lo <= t < hi then 1 else 0
  {
    assert Failures(es, n + 1, 0, lo, hi) == Failures(es, n, 0, lo, hi);
  }

  // ---- Bounds over all traces -----------------------------------------------------------

  function InWindow(es: seq<Event>, key: RateLimiter.Key, from: Time, lim: Limits): nat {
    Failures(es, |es|, key, from, from + lim.window)
  }

  /** No trace of failures records more than `bound` of them in any half-open interval of one window. */
  ghost predicate Always(lim: Limits, bound: int) {
    forall es, key, from :: Monotone(es) && OnlyFailures(es, lim, key) ==> InWindow(es, key, from, lim) <= bound
  }

  lemma GuardedAlways(lim: Limits)
    requires lim.window <= 0 || Guarded(lim)
    ensures Always(lim, Bound(lim))
  {
    forall es, key, from | Monotone(es) && OnlyFailures(es, lim, key)
      ensures InWindow(es, key, from, lim) <= Bound(lim)
    {
      FailureBound(es, |es|, lim, key, from);
    }
  }

  lemma NoWindowAlways(lim: Limits)
    requires lim.window <= 0
    ensures Always(lim, 0)
  {
    forall es, key, from | Monotone(es) && OnlyFailures(es, lim, key) ensures InWindow(es, key, from, lim) <= 0 {
      AtMostSince(es, |es|, key, from, from + lim.window);
    }
  }

  ghost predicate Reaches(lim: Limits, n: nat) {
    exists es, key, from :: Monotone(es) && OnlyFailures(es, lim, key) && InWindow(es, key, from, lim) == n
  }

  lemma Witness(es: seq<Event>, key: RateLimiter.Key, from: Time, lim: Limits)
    requires Monotone(es) && OnlyFailures(es, lim, key)
    ensures Reaches(lim, InWindow(es, key, from, lim))
    ensures forall bound :: bound < InWindow(es, key, from, lim) ==> !Always(lim, bound)
  {
  }

  lemma AttemptsInWindow(ts: seq<Time>, lim: Limits, from: Time)
    ensures InWindow(Attempts(ts), 0, from, lim) == CountIn(ts, |ts|, from, from + lim.window)
  {
    AttemptsCount(ts, |ts|, from, from + lim.window);
  }

  /** A trace of permitted attempts that records `n` failures in one window. */
  ghost predicate Records(ts: seq<Time>, lim: Limits, from: Time, n: nat) {
    Rising(ts) && Permitted(ts, lim) && CountIn(ts, |ts|, from, from + lim.window) == n
  }

  lemma Recorded(ts: seq<Time>, lim: Limits, from: Time, n: nat)
    requires Records(ts, lim, from, n)
    ensures Reaches(lim, n)
    ensures forall bound :: bound < n ==> !Always(lim, bound)
  {
    AttemptsFailOnly(ts, lim);
    AttemptsInWindow(ts, lim, from);
    Witness(Attempts(ts), 0, from, lim);
  }

  // ---- Traces ---------------------------------------------------------------------------

  function Burst(k: nat): seq<Time> { seq(k, _ => 0) }

  /** A block that is over at once never stops a burst. */
  lemma {:induction false} BurstState(k: nat, i: nat, lim: Limits)
    requires i <= k && lim.window > 0 && lim.block <= 0
    ensures Attempted(Burst(k), i, lim)
         == if i == 0 then None else Some(Attempt(i, 0, if i >= lim.maxFailures then Some(lim.block) else None))
    ensures CountIn(Burst(k), i, 0, lim.window) == i
  {
    if i == 0 {
    } else {
      BurstState(k, i - 1, lim);
    }
  }

  lemma BurstRecords(k: nat, lim: Limits)
    requires lim.window > 0 && lim.block <= 0
    ensures Records(Burst(k), lim, 0, k)
  {
    forall i | 0 <= i < k ensures !Blocked(Attempted(Burst(k), i, lim), 0) {
      BurstState(k, i, lim);
    }
    BurstState(k, k, lim);
  }

  /** With one permitted failure, an attempt right after a block shorter than the window is a second one. */
  lemma PairRecords(lim: Limits)
    requires Most(lim) == 1 && 0 < lim.block < lim.window
    ensures Records([0, lim.block], lim, 0, 2)
  {
    var ts := [0, lim.block];
    assert Attempted(ts, 0, lim) == None;
    assert Attempted(ts, 1, lim) == Some(Attempt(1, 0, Some(lim.block)));
    assert CountIn(ts, 1, 0, lim.window) == 1;
    assert CountIn(ts, 2, 0, lim.window) == 2;
  }

  lemma SingleRecords(lim: Limits)
    requires lim.window > 0
    ensures Records([0], lim, 0, 1)
  {
    assert CountIn([0], 1, 0, lim.window) == 1;
  }

  /** One failure at 0, `p` at `x`, a full window at `y`, and `q` more at `z`. */
  datatype Shape = Shape(p: nat, x: Time, y: Time, q: nat, z: Time)

  function Times(f: Shape, lim: Limits): (r: seq<Time>)
    ensures |r| == 1 + f.p + Most(lim) + f.q
  {
    seq(1 + f.p + Most(lim) + f.q,
        i => if i == 0 then 0 else if i <= f.p then f.x else if i <= f.p + Most(lim) then f.y else f.z)
  }

  predicate Fits(f: Shape, lim: Limits) {
    && Most(lim) >= 2 && f.p < Most(lim) && f.q <= 1
    && 0 < f.x < lim.window <= f.y < f.x + lim.window && f.x <= f.y <= f.z
    && (f.p + 1 == Most(lim) ==> f.y >= f.x + lim.block)
    && (f.q == 1 ==> f.y + lim.block <= f.z < f.x + lim.window)
  }

  function StateAt(f: Shape, lim: Limits, i: nat): Option<Attempt> {
    if i == 0 then None
    else if i <= 1 + f.p then Some(Attempt(i, 0, if i >= Most(lim) then Some(f.x + lim.block) else None))
    else if i <= 1 + f.p + Most(lim) then
      Some(Attempt(i - 1 - f.p, f.y, if i - 1 - f.p >= Most(lim) then Some(f.y + lim.block) else None))
    else Some(Attempt(Most(lim) + 1, f.y, Some(f.z + lim.block)))
  }

  lemma {:induction false} ShapeState(f: Shape, lim: Limits, i: nat)
    requires Fits(f, lim) && i <= |Times(f, lim)|
    ensures Attempted(Times(f, lim), i, lim) == StateAt(f, lim, i)
  {
    if i == 0 {
    } else {
      ShapeState(f, lim, i - 1);
    }
  }

  lemma {:induction false} ShapeCount(f: Shape, lim: Limits, i: nat)
    requires Fits(f, lim) && i <= |Times(f, lim)|
    ensures CountIn(Times(f, lim), i, f.x, f.x + lim.window) == Max(i - 1, 0)
  {
    if i == 0 {
    } else {
      ShapeCount(f, lim, i - 1);
    }
  }

  lemma ShapePermitted(f: Shape, lim: Limits, i: nat)
    requires Fits(f, lim) && i < |Times(f, lim)|
    ensures !Blocked(Attempted(Times(f, lim), i, lim), Times(f, lim)[i])
  {
    ShapeState(f, lim, i);
  }

  /** A fitting shape records all its failures but the first in the window that starts at `x`. */
  lemma ShapeRecords(f: Shape, lim: Limits)
    requires Fits(f, lim)
    ensures Records(Times(f, lim), lim, f.x, f.p + Most(lim) + f.q)
  {
    var ts := Times(f, lim);
    ShapeCount(f, lim, |ts|);
    forall i | 0 <= i < |ts| ensures !Blocked(Attempted(ts, i, lim), ts[i]) {
      ShapePermitted(f, lim, i);
    }
  }

  // ---- The exact conditions -------------------------------------------------------------

  /** The sharp bound holds for all traces exactly when the block is at least as long as the window. */
  lemma SharpIff(lim: Limits)
    ensures Always(lim, Sharp(lim)) <==> lim.window <= 0 || lim.block >= lim.window
  {
    if lim.window <= 0 {
      NoWindowAlways(lim);
    } else if lim.block >= lim.window {
      GuardedAlways(lim);
    } else {
      ShortBlockBreaksSharp(lim);
    }
  }

  lemma ShortBlockBreaksSharp(lim: Limits)
    requires lim.window > 0 && lim.block < lim.window
    ensures !Always(lim, Sharp(lim))
  {
    if lim.block <= 0 {
      BurstRecords(Sharp(lim) + 1, lim);
      Recorded(Burst(Sharp(lim) + 1), lim, 0, Sharp(lim) + 1);
    } else if Most(lim) == 1 {
      PairRecords(lim);
      Recorded([0, lim.block], lim, 0, 2);
    } else {
      var f := Shape(Most(lim) - 1, lim.window - 1, lim.window - 1 + lim.block, 0, lim.window - 1 + lim.block);
      ShapeRecords(f, lim);
      Recorded(Times(f, lim), lim, f.x, 2 * Most(lim) - 1);
    }
  }

  /** Twice the permitted failures less one is a bound for all traces exactly when the block is at least as
      long as the window, or, with two or more permitted failures, at least half as long. */
  lemma TwiceIff(lim: Limits)
    ensures Always(lim, 2 * Most(lim) - 1)
       <==> lim.window <= 0 || (if Most(lim) == 1 then lim.block >= lim.window else 2 * lim.block >= lim.window)
  {
    if lim.window <= 0 {
      NoWindowAlways(lim);
    } else if Guarded(lim) {
      GuardedAlways(lim);
    } else {
      ShorterBlockBreaksTwice(lim);
    }
  }

  lemma ShorterBlockBreaksTwice(lim: Limits)
    requires lim.window > 0 && !Guarded(lim)
    ensures !Always(lim, 2 * Most(lim) - 1)
  {
    if lim.block <= 0 {
      BurstRecords(2 * Most(lim), lim);
      Recorded(Burst(2 * Most(lim)), lim, 0, 2 * Most(lim));
    } else if Most(lim) == 1 {
      PairRecords(lim);
      Recorded([0, lim.block], lim, 0, 2);
    } else {
      var f := Shape(Most(lim) - 1, lim.window - lim.block, lim.window, 1, lim.window + lim.block);
      ShapeRecords(f, lim);
      Recorded(Times(f, lim), lim, f.x, 2 * Most(lim));
    }
  }

  /** The sharp bound is reached whenever the window has room for two instants. */
  lemma SharpIsReached(lim: Limits)
    requires lim.window >= 2 && lim.block >= lim.window
    ensures Reaches(lim, Sharp(lim))
  {
    if Most(lim) == 1 {
      SingleRecords(lim);
      Recorded([0], lim, 0, 1);
    } else {
      var f := Shape(Most(lim) - 2, lim.window - 1, lim.window, 0, lim.window);
      ShapeRecords(f, lim);
      Recorded(Times(f, lim), lim, f.x, Sharp(lim));
    }
  }
}
