/** Which logins the limiter turns away, told from the events alone. */
module LoginReference {
  import opened Wrappers
  import R = RateLimiter
  import opened LoginLimiter

  /** The failure that opened the key's current window: the first since the last success, and then the first
      one at least a window after the opening before. */
  function WindowOf(es: seq<Event>, n: nat, window: R.Time, key: R.Key): (r: Option<nat>)
    requires n <= |es|
    ensures r.Some? ==> r.value < n && es[r.value].kind.FailureCall? && es[r.value].key == key
  {
    if n == 0 then None
    else
      var w, e := WindowOf(es, n - 1, window, key), es[n - 1];
      if e.key != key || e.kind.AllowCall? then w
      else if e.kind.SuccessCall? then None
      else if w.None? || e.time - es[w.value].time >= window then Some(n - 1)
      else w
  }

  /** Failures of the key from event `from` to event `n`. */
  function FailuresIn(es: seq<Event>, from: nat, n: nat, key: R.Key): nat
    requires from <= n <= |es|
  {
    if n == from then 0
    else FailuresIn(es, from, n - 1, key) + if es[n - 1].key == key && es[n - 1].kind.FailureCall? then 1 else 0
  }

  /** The latest failure of the key, not looking before event `from`, which is one. */
  function LastFailure(es: seq<Event>, from: nat, n: nat, key: R.Key): (r: nat)
    requires from < n <= |es|
    ensures from <= r < n
  {
    if n == from + 1 || (es[n - 1].key == key && es[n - 1].kind.FailureCall?) then n - 1
    else LastFailure(es, from, n - 1, key)
  }

  /** What the events say about blocking: enough failures in the window block for a while after the latest. */
  function BlockEnd(es: seq<Event>, n: nat, lim: Limits, key: R.Key): Option<R.Time>
    requires n <= |es|
  {
    var w := WindowOf(es, n, lim.window, key);
    if w.Some? && FailuresIn(es, w.value, n, key) >= lim.maxFailures
    then Some(es[LastFailure(es, w.value, n, key)].time + lim.block) else None
  }

  /** The stored attempt is the current window; without one, any window is over and blocks no longer. */
  ghost predicate Agrees(es: seq<Event>, n: nat, lim: Limits, key: R.Key)
    requires n <= |es|
  {
    var s, w := R.Lookup(After(es, n, lim), key), WindowOf(es, n, lim.window, key);
    && (s.Some? ==>
          && w.Some? && s.value.windowStart == es[w.value].time
          && s.value.failures == FailuresIn(es, w.value, n, key) && s.value.blockedUntil == BlockEnd(es, n, lim, key))
    && (s.None? && w.Some? ==>
          && es[n - 1].time - es[w.value].time >= lim.window
          && (BlockEnd(es, n, lim, key).Some? ==> es[n - 1].time >= BlockEnd(es, n, lim, key).value))
  }

  lemma FailureAgrees(es: seq<Event>, n: nat, lim: Limits, key: R.Key)
    requires Monotone(es) && 0 < n <= |es| && Agrees(es, n - 1, lim, key)
    requires es[n - 1].key == key && es[n - 1].kind.FailureCall?
    ensures Agrees(es, n, lim, key)
  {
    var s, w := R.Lookup(After(es, n - 1, lim), key), WindowOf(es, n - 1, lim.window, key);
    var now := es[n - 1].time;
    if s.None? && w.Some? {
      assert es[n - 2].time <= now;
    }
  }

  lemma OtherAgrees(es: seq<Event>, n: nat, lim: Limits, key: R.Key)
    requires Monotone(es) && 0 < n <= |es| && Agrees(es, n - 1, lim, key)
    requires es[n - 1].key != key || !es[n - 1].kind.FailureCall?
    ensures Agrees(es, n, lim, key)
  {
    var w := WindowOf(es, n - 1, lim.window, key);
    if n >= 2 { assert es[n - 2].time <= es[n - 1].time; }
  }

  lemma {:induction false} AgreesAlways(es: seq<Event>, n: nat, lim: Limits, key: R.Key)
    requires Monotone(es) && n <= |es|
    ensures Agrees(es, n, lim, key)
  {
    if n == 0 {
    } else {
      AgreesAlways(es, n - 1, lim, key);
      if es[n - 1].key == key && es[n - 1].kind.FailureCall? {
        FailureAgrees(es, n, lim, key);
      } else {
        OtherAgrees(es, n, lim, key);
      }
    }
  }

  /** A login attempt is turned away exactly while the key's window holds as many failures as permitted and the
      latest of them is less than the block ago; a success, or a failure after the window, starts afresh. */
  lemma RefusedIff(es: seq<Event>, n: nat, lim: Limits, key: R.Key)
    requires Monotone(es) && n < |es| && es[n].key == key && es[n].kind.AllowCall?
    ensures var s, w := R.Lookup(After(es, n, lim), key), WindowOf(es, n, lim.window, key);
            && (Blocked(s, es[n].time) <==>
                  w.Some? && FailuresIn(es, w.value, n, key) >= lim.maxFailures
                  && es[n].time < es[LastFailure(es, w.value, n, key)].time + lim.block)
            && (Blocked(s, es[n].time) ==>
                  s.value.blockedUntil == Some(es[LastFailure(es, w.value, n, key)].time + lim.block))
  {
    AgreesAlways(es, n, lim, key);
    if n > 0 { assert es[n - 1].time <= es[n].time; }
  }

  /** The limiter in use: eight failures in five minutes block for ten minutes. */
  lemma LoginRefusedIff(es: seq<Event>, n: nat, key: R.Key)
    requires Monotone(es) && n < |es| && es[n].key == key && es[n].kind.AllowCall?
    ensures var w := WindowOf(es, n, 300_000_000_000, key);
            Blocked(R.Lookup(After(es, n, LOGIN_LIMITS), key), es[n].time) <==>
              w.Some? && FailuresIn(es, w.value, n, key) >= 8
              && es[n].time < es[LastFailure(es, w.value, n, key)].time + 600_000_000_000
  {
    RefusedIff(es, n, LOGIN_LIMITS, key);
  }
}
