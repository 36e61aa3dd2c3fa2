/** The login limiter: failures per key, and a block once there are too many. */
module LoginLimiter {
  import opened Wrappers
  import opened RateLimiter

  const MINUTE: Time := 60 * SECOND

  datatype Attempt = Attempt(failures: int, windowStart: Time, blockedUntil: Option<Time>)

  datatype Limits = Limits(maxFailures: int, window: Time, block: Time)

  const LOGIN_LIMITS := Limits(8, 5 * MINUTE, 10 * MINUTE)

  predicate Blocked(s: Option<Attempt>, now: Time) {
    s.Some? && s.value.blockedUntil.Some? && now < s.value.blockedUntil.value
  }

  predicate Outdated(s: Option<Attempt>, lim: Limits, now: Time) {
    s.Some? && now - s.value.windowStart >= lim.window
  }

  function AfterAllow(s: Option<Attempt>, lim: Limits, now: Time): Option<Attempt> {
    if !Blocked(s, now) && Outdated(s, lim, now) then None else s
  }

  function AfterFailure(s: Option<Attempt>, lim: Limits, now: Time): Option<Attempt> {
    var state := if s.None? || Outdated(s, lim, now) then Attempt(0, now, None) else s.value;
    var failures := state.failures + 1;
    Some(Attempt(failures, state.windowStart,
                 if failures >= lim.maxFailures then Some(now + lim.block) else state.blockedUntil))
  }

  function Put(m: map<Key, Attempt>, key: Key, s: Option<Attempt>): map<Key, Attempt> {
    match s case Some(a) => m[key := a] case None => m - {key}
  }

  class LoginLimiter {
    var attempts: map<Key, Attempt>
    const limits: Limits

    constructor ()
      ensures attempts == map[] && limits == LOGIN_LIMITS
    {
      attempts, limits := map[], LOGIN_LIMITS;
    }

    constructor With(limits: Limits)
      ensures attempts == map[] && this.limits == limits
    {
      this.attempts, this.limits := map[], limits;
    }

    method Allow(key: Key, now: Time) returns (ok: bool, retry: Time)
      modifies this
      ensures ok == !Blocked(Lookup(old(attempts), key), now)
      ensures ok ==> retry == 0
      ensures !ok ==> retry == old(attempts)[key].blockedUntil.value - now && retry > 0
      ensures attempts == Put(old(attempts), key, AfterAllow(Lookup(old(attempts), key), limits, now))
    {
      if key !in attempts {
        assert attempts == attempts - {key};
        return true, 0;
      }
      var state := attempts[key];
      if state.blockedUntil.Some? && now < state.blockedUntil.value {
        assert attempts == attempts[key := state];
        return false, state.blockedUntil.value - now;
      }
      if now - state.windowStart >= limits.window {
        attempts := attempts - {key};
      } else {
        assert attempts == attempts[key := state];
      }
      return true, 0;
    }

    method Failure(key: Key, now: Time)
      modifies this
      ensures attempts == Put(old(attempts), key, AfterFailure(Lookup(old(attempts), key), limits, now))
    {
      var state := Attempt(0, now, None);
      if key in attempts && now - attempts[key].windowStart < limits.window {
        state := attempts[key];
      }
      state := state.(failures := state.failures + 1);
      if state.failures >= limits.maxFailures {
        state := state.(blockedUntil := Some(now + limits.block));
      }
      attempts := attempts[key := state];
    }

    method Success(key: Key)
      modifies this
      ensures attempts == Put(old(attempts), key, None)
    {
      attempts := attempts - {key};
    }
  }

  // ---- Traces ---------------------------------------------------------------------------

  datatype Kind = AllowCall | FailureCall | SuccessCall

  datatype Event = Event(kind: Kind, key: Key, time: Time)

  function Step(s: Option<Attempt>, kind: Kind, lim: Limits, now: Time): Option<Attempt> {
    match kind
    case AllowCall => AfterAllow(s, lim, now)
    case FailureCall => AfterFailure(s, lim, now)
    case SuccessCall => None
  }

  function After(es: seq<Event>, n: nat, lim: Limits): map<Key, Attempt>
    requires n <= |es|
  {
    if n == 0 then map[]
    else
      var before, e := After(es, n - 1, lim), es[n - 1];
      Put(before, e.key, Step(Lookup(before, e.key), e.kind, lim, e.time))
  }

  predicate Monotone(es: seq<Event>) {
    forall i, k :: 0 <= i < k < |es| ==> es[i].time <= es[k].time
  }

  /** The time of the key's latest event if that was an Allow which allowed. */
  function LastAllowed(es: seq<Event>, n: nat, lim: Limits, key: Key): Option<Time>
    requires n <= |es|
  {
    if n == 0 then None
    else if es[n - 1].key != key then LastAllowed(es, n - 1, lim, key)
    else if es[n - 1].kind.AllowCall? && !Blocked(Lookup(After(es, n - 1, lim), key), es[n - 1].time)
      then Some(es[n - 1].time)
    else None
  }

  /** Event `i`, if a failure of the key, directly follows an Allow that allowed it. */
  predicate Rightly(es: seq<Event>, i: nat, lim: Limits, key: Key)
    requires i < |es|
  {
    es[i].key == key ==> !es[i].kind.SuccessCall? && (es[i].kind.FailureCall? ==> LastAllowed(es, i, lim, key).Some?)
  }

  /** Every failure of the key directly follows an Allow that allowed it, and no login succeeds. */
  ghost predicate OnlyFailures(es: seq<Event>, lim: Limits, key: Key) {
    forall i: nat | i < |es| :: Rightly(es, i, lim, key)
  }

  function Failures(es: seq<Event>, n: nat, key: Key, lo: Time, hi: Time): nat
    requires n <= |es|
  {
    if n == 0 then 0
    else
      var before := Failures(es, n - 1, key, lo, hi);
      if es[n - 1].key == key && es[n - 1].kind.FailureCall? && lo <= es[n - 1].time < hi then before + 1 else before
  }

  function FailuresSince(es: seq<Event>, n: nat, key: Key, lo: Time): nat
    requires n <= |es|
  {
    if n == 0 then 0
    else
      var before := FailuresSince(es, n - 1, key, lo);
      if es[n - 1].key == key && es[n - 1].kind.FailureCall? && lo <= es[n - 1].time then before + 1 else before
  }

  // ---- How many failures fit into one window ---------------------------------------------

  /** At least one failure is always recorded before a block. */
  function Most(lim: Limits): nat {
    Max(lim.maxFailures, 1)
  }

  /** The failures one window can record: with a block shorter than the window a second block may start in it. */
  function Cap(lim: Limits): nat {
    if lim.block >= lim.window then Most(lim) else Most(lim) + 1
  }

  /** What an earlier window can still contribute to an interval that also reaches the present one, and what it
      contributes when the interval starts less than a block before the present window. */
  function Spare(lim: Limits): nat {
    if lim.block >= lim.window then Max(Most(lim) - 2, 0) else Most(lim) - 1
  }

  function NearSpare(lim: Limits): nat {
    Max(Most(lim) - 2, 0)
  }

  /** The block outlasts the window, or two blocks do and more than one failure is permitted. */
  predicate Guarded(lim: Limits) {
    lim.window > 0 && (lim.block >= lim.window || (Most(lim) >= 2 && 2 * lim.block >= lim.window))
  }

  function Bound(lim: Limits): nat {
    if lim.block >= lim.window then Sharp(lim) else 2 * Most(lim) - 1
  }

  function Sharp(lim: Limits): nat {
    Most(lim) + Max(Most(lim) - 2, 0)
  }

  /** Without a stored attempt, only spare failures stand against the key. */
  ghost predicate Clean(es: seq<Event>, n: nat, lim: Limits, key: Key)
    requires n <= |es|
  {
    if n == 0 then forall lo :: FailuresSince(es, n, key, lo) == 0
    else
      var last := es[n - 1].time;
      && (forall lo :: lo >= last ==> FailuresSince(es, n, key, lo) == 0)
      && (forall lo :: lo > last - lim.window ==> FailuresSince(es, n, key, lo) <= Spare(lim))
      && (forall lo ::
            lo > last - lim.window && lo > last - lim.block ==> FailuresSince(es, n, key, lo) <= NearSpare(lim))
  }

  /** The time of the last failure of a full window. */
  function LastFull(s: Attempt, lim: Limits): Time
    requires s.blockedUntil.Some?
  {
    s.blockedUntil.value - lim.block
  }

  /** A full window blocks from its last failure on; one beyond that came a block later. */
  ghost predicate FullOk(es: seq<Event>, n: nat, lim: Limits, key: Key, s: Attempt)
    requires n <= |es| && s.blockedUntil.Some?
  {
    && LastFull(s, lim) >= s.windowStart
    && (forall lo :: lo > LastFull(s, lim) ==> FailuresSince(es, n, key, lo) == 0)
    && (s.failures > Most(lim) ==>
          && LastFull(s, lim) >= s.windowStart + lim.block
          && forall lo :: lo > LastFull(s, lim) - lim.block ==> FailuresSince(es, n, key, lo) <= 1)
  }

  /** A stored attempt counts the failures of its window, and limits what earlier windows add. */
  ghost predicate Counts(es: seq<Event>, n: nat, lim: Limits, key: Key, s: Attempt)
    requires n <= |es|
  {
    && 1 <= s.failures <= Cap(lim) && n > 0 && s.windowStart <= es[n - 1].time
    && (s.failures >= Most(lim) <==> s.blockedUntil.Some?)
    && (s.blockedUntil.Some? ==> FullOk(es, n, lim, key, s))
    && (forall lo :: lo > es[n - 1].time ==> FailuresSince(es, n, key, lo) == 0)
    && (forall lo :: lo >= s.windowStart + lim.window ==> FailuresSince(es, n, key, lo) == 0)
    && (forall lo :: lo > s.windowStart ==> FailuresSince(es, n, key, lo) <= s.failures - 1)
    && (forall lo :: lo > s.windowStart - lim.window ==> FailuresSince(es, n, key, lo) <= s.failures + Spare(lim))
    && (forall lo :: lo > s.windowStart - lim.window && lo > s.windowStart - lim.block ==>
          FailuresSince(es, n, key, lo) <= s.failures + NearSpare(lim))
  }

  /** After an Allow that allowed, the key is neither blocked nor outdated. */
  ghost predicate ReadyToFail(s: Option<Attempt>, lim: Limits, allowed: Time, last: Time) {
    allowed <= last && !Blocked(s, allowed) && !Outdated(s, lim, allowed)
  }

  ghost predicate Tracks(es: seq<Event>, n: nat, lim: Limits, key: Key)
    requires n <= |es|
  {
    var s, allowed := Lookup(After(es, n, lim), key), LastAllowed(es, n, lim, key);
    && (s.None? ==> Clean(es, n, lim, key))
    && (s.Some? ==> Counts(es, n, lim, key, s.value))
    && (allowed.Some? ==> n > 0 && ReadyToFail(s, lim, allowed.value, es[n - 1].time))
  }

  lemma Lookups(es: seq<Event>, n: nat, lim: Limits, key: Key)
    requires 0 < n <= |es|
    ensures var before, after, e := Lookup(After(es, n - 1, lim), key), Lookup(After(es, n, lim), key), es[n - 1];
            after == if e.key == key then Step(before, e.kind, lim, e.time) else before
    ensures forall lo ::
      FailuresSince(es, n, key, lo) == FailuresSince(es, n - 1, key, lo)
        + if es[n - 1].key == key && es[n - 1].kind.FailureCall? && lo <= es[n - 1].time then 1 else 0
  {
  }

  /** The last event so far is never later than the next one. */
  predicate NotBefore(es: seq<Event>, n: nat)
    requires n <= |es|
  {
    n >= 2 ==> es[n - 2].time <= es[n - 1].time
  }

  /** An event that leaves the stored attempt alone only lets time pass. */
  lemma IdleTracks(es: seq<Event>, n: nat, lim: Limits, key: Key)
    requires 0 < n <= |es| && NotBefore(es, n) && Guarded(lim) && Tracks(es, n - 1, lim, key)
    requires es[n - 1].key != key || es[n - 1].kind.AllowCall?
    requires Lookup(After(es, n, lim), key) == Lookup(After(es, n - 1, lim), key)
    ensures Tracks(es, n, lim, key)
  {
    Lookups(es, n, lim, key);
    var s := Lookup(After(es, n, lim), key);
    assert forall lo :: FailuresSince(es, n, key, lo) == FailuresSince(es, n - 1, key, lo);
    if s.Some? { assert Counts(es, n, lim, key, s.value); }
  }

  /** Dropping an outdated attempt leaves no more than spare failures behind. */
  lemma DropTracks(es: seq<Event>, n: nat, lim: Limits, key: Key)
    requires 0 < n <= |es| && NotBefore(es, n) && Guarded(lim) && Tracks(es, n - 1, lim, key)
    requires es[n - 1].key == key && es[n - 1].kind.AllowCall?
    requires var s := Lookup(After(es, n - 1, lim), key);
             s.Some? && !Blocked(s, es[n - 1].time) && Outdated(s, lim, es[n - 1].time)
    ensures Tracks(es, n, lim, key)
  {
    Lookups(es, n, lim, key);
    assert forall lo :: FailuresSince(es, n, key, lo) == FailuresSince(es, n - 1, key, lo);
    assert Clean(es, n, lim, key);
  }

  lemma AllowTracks(es: seq<Event>, n: nat, lim: Limits, key: Key)
    requires 0 < n <= |es| && NotBefore(es, n) && Guarded(lim) && Tracks(es, n - 1, lim, key)
    requires es[n - 1].key != key || es[n - 1].kind.AllowCall?
    ensures Tracks(es, n, lim, key)
  {
    Lookups(es, n, lim, key);
    if Lookup(After(es, n, lim), key) == Lookup(After(es, n - 1, lim), key) {
      IdleTracks(es, n, lim, key);
    } else {
      DropTracks(es, n, lim, key);
    }
  }

  lemma FailureTracks(es: seq<Event>, n: nat, lim: Limits, key: Key)
    requires 0 < n <= |es| && NotBefore(es, n) && Guarded(lim) && Tracks(es, n - 1, lim, key)
    requires es[n - 1].key == key && es[n - 1].kind.FailureCall? && LastAllowed(es, n - 1, lim, key).Some?
    ensures Tracks(es, n, lim, key)
  {
    Lookups(es, n, lim, key);
    var after := Lookup(After(es, n, lim), key).value;
    assert after.blockedUntil.Some? ==> FullOk(es, n, lim, key, after);
    assert Counts(es, n, lim, key, after);
  }

  lemma {:induction false} TracksAlways(es: seq<Event>, n: nat, lim: Limits, key: Key)
    requires Monotone(es) && Guarded(lim) && OnlyFailures(es, lim, key) && n <= |es|
    ensures Tracks(es, n, lim, key)
  {
    if n == 0 {
    } else {
      TracksAlways(es, n - 1, lim, key);
      assert Rightly(es, n - 1, lim, key);
      if es[n - 1].key == key && es[n - 1].kind.FailureCall? {
        FailureTracks(es, n, lim, key);
      } else {
        AllowTracks(es, n, lim, key);
      }
    }
  }

  lemma {:induction false} AtMostSince(es: seq<Event>, n: nat, key: Key, lo: Time, hi: Time)
    requires n <= |es|
    ensures Failures(es, n, key, lo, hi) <= FailuresSince(es, n, key, lo)
    ensures hi <= lo ==> Failures(es, n, key, lo, hi) == 0
  {
    if n == 0 {
    } else {
      AtMostSince(es, n - 1, key, lo, hi);
    }
  }

  /** What a window just extended by a failure at `now` allows in any interval that contains `now`. */
  lemma WindowBound(es: seq<Event>, n: nat, lim: Limits, key: Key, s: Attempt, lo: Time)
    requires 0 < n <= |es| && Guarded(lim) && Counts(es, n, lim, key, s)
    requires s.windowStart <= es[n - 1].time < lo + lim.window
    requires s.failures > Most(lim) ==> LastFull(s, lim) == es[n - 1].time
    ensures FailuresSince(es, n, key, lo) <= Bound(lim)
  {
  }

  /** One key records at most Bound failures in any half-open interval of one window. */
  lemma {:induction false} FailureBound(es: seq<Event>, n: nat, lim: Limits, key: Key, from: Time)
    requires Monotone(es) && OnlyFailures(es, lim, key) && n <= |es| && (lim.window <= 0 || Guarded(lim))
    ensures Failures(es, n, key, from, from + lim.window) <= Bound(lim)
  {
    AtMostSince(es, n, key, from, from + lim.window);
    if n > 0 && lim.window > 0 {
      FailureBound(es, n - 1, lim, key, from);
      var e := es[n - 1];
      if e.key == key && e.kind.FailureCall? && from <= e.time < from + lim.window {
        TracksAlways(es, n, lim, key);
        WindowBound(es, n, lim, key, Lookup(After(es, n, lim), key).value, from);
      }
    }
  }

  /** The limiter in use: at most 14 failed logins per key in any five minutes. */
  lemma LoginBound(es: seq<Event>, key: Key, from: Time)
    requires Monotone(es) && OnlyFailures(es, LOGIN_LIMITS, key)
    ensures Failures(es, |es|, key, from, from + 300_000_000_000) <= 14
  {
    FailureBound(es, |es|, LOGIN_LIMITS, key, from);
  }
}
