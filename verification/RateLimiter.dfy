/** The per-key request limiter of the pairing endpoints. */
module RateLimiter {
  import opened Wrappers

  type Key = nat
  type Time = int
  const SECOND: Time := 1_000_000_000

  datatype RateState = RateState(count: int, windowStart: Time)

  function Lookup<V>(m: map<Key, V>, key: Key): Option<V> {
    if key in m then Some(m[key]) else None
  }

  predicate NewWindow(s: Option<RateState>, window: Time, now: Time) {
    s.None? || now - s.value.windowStart >= window
  }

  predicate Admits(s: Option<RateState>, limit: int, window: Time, now: Time) {
    NewWindow(s, window, now) || s.value.count < limit
  }

  function Next(s: Option<RateState>, limit: int, window: Time, now: Time): Option<RateState> {
    if NewWindow(s, window, now) then Some(RateState(1, now))
    else if s.value.count >= limit then s
    else Some(s.value.(count := s.value.count + 1))
  }

  function Retry(s: Option<RateState>, limit: int, window: Time, now: Time): Time {
    if Admits(s, limit, window, now) then 0 else Max(window - (now - s.value.windowStart), SECOND)
  }

  class RateLimiter {
    var states: map<Key, RateState>
    const limit: int
    const window: Time

    constructor (limit: int, window: Time)
      ensures states == map[] && this.limit == limit && this.window == window
    {
      this.states, this.limit, this.window := map[], limit, window;
    }

    method Allow(key: Key, now: Time) returns (ok: bool, retry: Time)
      modifies this
      ensures ok == Admits(Lookup(old(states), key), limit, window, now)
      ensures retry == Retry(Lookup(old(states), key), limit, window, now)
      ensures states == old(states)[key := Next(Lookup(old(states), key), limit, window, now).value]
    {
      if key !in states || now - states[key].windowStart >= window {
        states := states[key := RateState(1, now)];
        return true, 0;
      }
      var state := states[key];
      if state.count >= limit {
        assert states == states[key := state];
        return false, Max(window - (now - state.windowStart), SECOND);
      }
      states := states[key := state.(count := state.count + 1)];
      return true, 0;
    }
  }

  // ---- Traces ---------------------------------------------------------------------------

  datatype Call = Call(key: Key, time: Time)

  function After(calls: seq<Call>, n: nat, limit: int, window: Time): map<Key, RateState>
    requires n <= |calls|
  {
    if n == 0 then map[]
    else
      var before, c := After(calls, n - 1, limit, window), calls[n - 1];
      before[c.key := Next(Lookup(before, c.key), limit, window, c.time).value]
  }

  predicate AdmittedAt(calls: seq<Call>, i: nat, limit: int, window: Time)
    requires i < |calls|
  {
    Admits(Lookup(After(calls, i, limit, window), calls[i].key), limit, window, calls[i].time)
  }

  predicate Monotone(calls: seq<Call>) {
    forall i, k :: 0 <= i < k < |calls| ==> calls[i].time <= calls[k].time
  }

  /** Admitted calls of `key` among the first `n` with a time in lo..hi, `hi` excluded. */
  function Admitted(calls: seq<Call>, n: nat, limit: int, window: Time, key: Key, lo: Time, hi: Time): nat
    requires n <= |calls|
  {
    if n == 0 then 0
    else
      var before := Admitted(calls, n - 1, limit, window, key, lo, hi);
      if calls[n - 1].key == key && AdmittedAt(calls, n - 1, limit, window) && lo <= calls[n - 1].time < hi
        then before + 1 else before
  }

  /** The same without an upper end. */
  function AdmittedSince(calls: seq<Call>, n: nat, limit: int, window: Time, key: Key, lo: Time): nat
    requires n <= |calls|
  {
    if n == 0 then 0
    else
      var before := AdmittedSince(calls, n - 1, limit, window, key, lo);
      if calls[n - 1].key == key && AdmittedAt(calls, n - 1, limit, window) && lo <= calls[n - 1].time
        then before + 1 else before
  }

  /** The first request of a window is admitted whatever the limit. */
  function Most(limit: int): nat { Max(limit, 1) }

  /** What the stored window says about the calls admitted so far: none lie beyond it, at most `count` inside
      it, the first of them at its start, and at most one less than the limit of the window before are near. */
  ghost predicate Tracks(calls: seq<Call>, n: nat, limit: int, window: Time, key: Key)
    requires n <= |calls|
  {
    match Lookup(After(calls, n, limit, window), key)
    case None => forall lo :: AdmittedSince(calls, n, limit, window, key, lo) == 0
    case Some(s) =>
      && 1 <= s.count <= Most(limit) && n > 0 && s.windowStart <= calls[n - 1].time
      && (forall lo :: lo >= s.windowStart + window ==> AdmittedSince(calls, n, limit, window, key, lo) == 0)
      && (forall lo :: lo > s.windowStart ==> AdmittedSince(calls, n, limit, window, key, lo) <= s.count - 1)
      && (forall lo :: lo > s.windowStart - window ==>
            AdmittedSince(calls, n, limit, window, key, lo) <= s.count + Most(limit) - 1)
  }

  lemma {:induction false} TracksAlways(calls: seq<Call>, n: nat, limit: int, window: Time, key: Key)
    requires Monotone(calls) && window > 0 && n <= |calls|
    ensures Tracks(calls, n, limit, window, key)
  {
    if n == 0 {
    } else {
      TracksAlways(calls, n - 1, limit, window, key);
      assert n > 1 ==> calls[n - 2].time <= calls[n - 1].time;
      var more := calls[n - 1].key == key && AdmittedAt(calls, n - 1, limit, window);
      forall lo
        ensures AdmittedSince(calls, n, limit, window, key, lo)
             == AdmittedSince(calls, n - 1, limit, window, key, lo) + if more && lo <= calls[n - 1].time then 1 else 0
      {
      }
    }
  }

  lemma {:induction false} AtMostSince(calls: seq<Call>, n: nat, limit: int, window: Time, key: Key, lo: Time, hi: Time)
    requires n <= |calls|
    ensures Admitted(calls, n, limit, window, key, lo, hi) <= AdmittedSince(calls, n, limit, window, key, lo)
  {
    if n == 0 {
    } else {
      AtMostSince(calls, n - 1, limit, window, key, lo, hi);
    }
  }

  /** In any half-open interval of one window a key is admitted less than twice the limit. */
  lemma {:induction false} LessThanTwiceTheLimit(calls: seq<Call>, n: nat, limit: int, window: Time, key: Key,
                                                 from: Time)
    requires Monotone(calls) && n <= |calls|
    ensures Admitted(calls, n, limit, window, key, from, from + window) <= 2 * Most(limit) - 1
  {
    if n == 0 {
    } else {
      LessThanTwiceTheLimit(calls, n - 1, limit, window, key, from);
      var c := calls[n - 1];
      if window > 0 && c.key == key && from <= c.time < from + window {
        TracksAlways(calls, n, limit, window, key);
        AtMostSince(calls, n, limit, window, key, from, from + window);
      }
    }
  }

  /** Waiting as long as a refusal says is enough, and a refusal never says to wait less than a second. */
  lemma RetrySuffices(s: Option<RateState>, limit: int, window: Time, now: Time, later: Time)
    requires !Admits(s, limit, window, now) && later >= now + Retry(s, limit, window, now)
    ensures Admits(Next(s, limit, window, now), limit, window, later)
    ensures Retry(s, limit, window, now) >= SECOND
  {
  }

  // ---- Exactly which calls are admitted --------------------------------------------------

  /** The call that opened the key's latest window among the first `n`: the first call, and then the first one
      at least a window after the opening before. */
  function Opening(calls: seq<Call>, n: nat, window: Time, key: Key): (r: Option<nat>)
    requires n <= |calls|
    ensures r.Some? ==> r.value < n
  {
    if n == 0 then None
    else
      var o := Opening(calls, n - 1, window, key);
      if calls[n - 1].key == key && (o.None? || calls[n - 1].time - calls[o.value].time >= window) then Some(n - 1)
      else o
  }

  /** Calls of the key from position `from` to `n`. */
  function Requests(calls: seq<Call>, from: nat, n: nat, key: Key): nat
    requires from <= n <= |calls|
  {
    if n == from then 0 else Requests(calls, from, n - 1, key) + if calls[n - 1].key == key then 1 else 0
  }

  lemma {:induction false} StateIsWindow(calls: seq<Call>, n: nat, limit: int, window: Time, key: Key)
    requires n <= |calls|
    ensures var s, o := Lookup(After(calls, n, limit, window), key), Opening(calls, n, window, key);
            && (s.Some? <==> o.Some?)
            && (s.Some? ==>
                  && s.value.count == Min(Requests(calls, o.value, n, key), Most(limit))
                  && s.value.windowStart == calls[o.value].time && Requests(calls, o.value, n, key) >= 1)
  {
    if n == 0 {
    } else {
      StateIsWindow(calls, n - 1, limit, window, key);
    }
  }

  /** A call is admitted exactly if it opens a window or fewer calls than the limit came in its window before,
      admitted or not. One that is refused may try again when the window ends, but not within a second. */
  lemma AdmittedIff(calls: seq<Call>, i: nat, limit: int, window: Time)
    requires i < |calls|
    ensures var key, o := calls[i].key, Opening(calls, i, window, calls[i].key);
            var opens := o.None? || calls[i].time - calls[o.value].time >= window;
            var retry := Retry(Lookup(After(calls, i, limit, window), key), limit, window, calls[i].time);
            && (AdmittedAt(calls, i, limit, window) <==> opens || Requests(calls, o.value, i, key) < limit)
            && (AdmittedAt(calls, i, limit, window) ==> retry == 0)
            && (!AdmittedAt(calls, i, limit, window) ==>
                  retry == Max(calls[o.value].time + window - calls[i].time, 1_000_000_000))
  {
    StateIsWindow(calls, i, limit, window, calls[i].key);
  }
}
