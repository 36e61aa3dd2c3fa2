/** Whole histories of one league entry: each planning run loads fresh statistics and evaluates. */
module LeagueRuns {
  import opened Wrappers
  import opened Cardinality
  import opened League

  /** What one planning run reads from the results, and the thresholds of its request. */
  datatype Reading = Reading(week: Window, distinctIps: int, day: Window, lastResultAt: Option<Time>, th: Thresholds)

  /** Tier, streak and evaluation time are stored; the statistics are read anew. */
  function Loaded(e: Standing, r: Reading): Standing {
    e.(week := r.week, distinctIps := r.distinctIps, day := r.day, lastResultAt := r.lastResultAt)
  }

  ghost predicate IsHistory(entries: seq<Standing>, readings: seq<Reading>) {
    && |entries| == |readings| + 1
    && entries[0].badStreak == 0
    && forall i :: 0 <= i < |readings| ==> entries[i + 1] == Evaluate(Loaded(entries[i], readings[i]), readings[i].th)
  }

  predicate FreshAt(entries: seq<Standing>, readings: seq<Reading>, i: nat)
    requires i < |readings| <= |entries|
  {
    Fresh(Loaded(entries[i], readings[i]))
  }

  predicate BadAt(readings: seq<Reading>, i: nat)
    requires i < |readings|
  {
    BadWindow(readings[i].day, readings[i].th)
  }

  /** Evaluation `k` is the last fresh one before `n`; it was bad and left the entry in `tier`, where it
      had been before. */
  ghost predicate SlippedAt(entries: seq<Standing>, readings: seq<Reading>, k: nat, n: nat, tier: Tier)
    requires |readings| < |entries|
  {
    && k < n <= |readings|
    && FreshAt(entries, readings, k) && BadAt(readings, k)
    && (forall m :: k < m < n ==> !FreshAt(entries, readings, m))
    && (forall m :: k <= m <= n ==> entries[m].tier == tier)
  }

  /** A champion or challenger carries a streak of 0 or 1; 1 means its last fresh evaluation was bad. */
  lemma {:induction false} StreakRemembers(entries: seq<Standing>, readings: seq<Reading>, n: nat)
    requires IsHistory(entries, readings) && n <= |readings|
    ensures entries[n].badStreak >= 0
    ensures entries[n].tier.Champion? || entries[n].tier.Challenger? ==> entries[n].badStreak <= 1
    ensures (entries[n].tier.Champion? || entries[n].tier.Challenger?) && entries[n].badStreak == 1 ==>
              exists k :: SlippedAt(entries, readings, k, n, entries[n].tier)
  {
    if n == 0 {
    } else {
      StreakRemembers(entries, readings, n - 1);
      var e, r := entries[n], readings[n - 1];
      if (e.tier.Champion? || e.tier.Challenger?) && e.badStreak == 1 {
        if FreshAt(entries, readings, n - 1) {
          assert SlippedAt(entries, readings, n - 1, n, e.tier);
        } else {
          var k :| SlippedAt(entries, readings, k, n - 1, entries[n - 1].tier);
          assert SlippedAt(entries, readings, k, n, e.tier);
        }
      }
    }
  }

  /** The converse: an entry that slipped once in an upper tier carries a streak of 1 until it is judged again. */
  lemma {:induction false} SlippedCarriesOne(entries: seq<Standing>, readings: seq<Reading>, k: nat, n: nat, tier: Tier)
    requires IsHistory(entries, readings) && SlippedAt(entries, readings, k, n, tier)
    requires tier.Champion? || tier.Challenger?
    ensures entries[n].badStreak == 1
  {
    if n == k + 1 {
      StreakRemembers(entries, readings, k);
    } else {
      assert SlippedAt(entries, readings, k, n - 1, tier);
      SlippedCarriesOne(entries, readings, k, n - 1, tier);
      assert !FreshAt(entries, readings, n - 1);
    }
  }

  /** An entry leaves an upper tier by one step without a severe outage exactly when this evaluation and the
      fresh one before it were both bad in that tier, and a challenger is not promoted instead. */
  lemma DemotionNeedsTwoBadWindows(entries: seq<Standing>, readings: seq<Reading>, i: nat)
    requires IsHistory(entries, readings) && i < |readings|
    requires entries[i].tier.Champion? || entries[i].tier.Challenger?
    ensures var r, next := readings[i], entries[i + 1].tier;
            (if entries[i].tier.Champion? then next.Challenger?
               else next.Observation? && !(FreshAt(entries, readings, i) && Severe(r.day)))
            <==>
            && FreshAt(entries, readings, i) && BadAt(readings, i) && !Severe(r.day)
            && (entries[i].tier.Challenger? ==> !ChampionReady(Loaded(entries[i], r), r.th))
            && exists k :: SlippedAt(entries, readings, k, i, entries[i].tier)
  {
    StreakRemembers(entries, readings, i);
    LegalMoves(Loaded(entries[i], readings[i]), readings[i].th);
    if k :| SlippedAt(entries, readings, k, i, entries[i].tier) {
      SlippedCarriesOne(entries, readings, k, i, entries[i].tier);
    }
  }

  // ---- The streak of an observation entry -------------------------------------------------

  /** A reading at time `t` with too few weekly samples for a promotion and a bad recent window. */
  function BadReading(t: Time): Reading {
    Reading(Window(0, 0.0, 0.0, 0.0), 0, Window(3, 50.0, 0.0, 0.0), Some(t), Thresholds(1.0, 0.0))
  }

  function StreakOf(n: nat): Standing {
    var r := BadReading(n);
    if n == 0 then Standing(Observation, 0, r.week, 0, r.day, None, None)
    else Standing(Observation, n, r.week, 0, r.day, Some(n - 1), Some(n - 1))
  }

  /** There is no bound on the streak of an observation entry: bad readings drive it to any length. */
  lemma ObservationStreakUnbounded(n: nat)
    ensures exists entries: seq<Standing>, readings: seq<Reading> ::
              IsHistory(entries, readings) && |readings| == n && entries[n].tier.Observation?
                && entries[n].badStreak == n
  {
    var readings := seq(n, i requires 0 <= i < n => BadReading(i));
    var entries := seq(n + 1, i requires 0 <= i < n + 1 => StreakOf(i));
    assert IsHistory(entries, readings);
  }

  // ---- Progress is driven by new results only --------------------------------------------

  lemma {:induction false} EvaluatedAtGrows(entries: seq<Standing>, readings: seq<Reading>, i: nat, k: nat)
    requires IsHistory(entries, readings) && i <= k <= |readings|
    ensures entries[i].lastEvaluatedAt.Some? ==>
              entries[k].lastEvaluatedAt.Some? && entries[i].lastEvaluatedAt.value <= entries[k].lastEvaluatedAt.value
  {
    if i == k {
    } else {
      EvaluatedAtGrows(entries, readings, i, k - 1);
      EvaluateIdempotent(Loaded(entries[k - 1], readings[k - 1]), readings[k - 1].th, readings[k - 1].th);
    }
  }

  function Moves(entries: seq<Standing>, n: nat): nat
    requires n < |entries|
  {
    if n == 0 then 0 else Moves(entries, n - 1) + if entries[n].tier != entries[n - 1].tier then 1 else 0
  }

  /** All result times that were ever read. */
  function ResultTimes(readings: seq<Reading>, n: nat): set<Time>
    requires n <= |readings|
  {
    if n == 0 then {}
    else ResultTimes(readings, n - 1) + if readings[n - 1].lastResultAt.Some? then {readings[n - 1].lastResultAt.value}
      else {}
  }

  ghost function FreshTimes(entries: seq<Standing>, readings: seq<Reading>, n: nat): set<Time>
    requires n <= |readings| < |entries|
  {
    if n == 0 then {}
    else FreshTimes(entries, readings, n - 1)
         + if FreshAt(entries, readings, n - 1) then {readings[n - 1].lastResultAt.value} else {}
  }

  lemma StepEffect(e: Standing, r: Reading)
    requires e.tier != NO_TIER
    ensures var u := Evaluate(Loaded(e, r), r.th);
            && u.tier != NO_TIER
            && (Fresh(Loaded(e, r)) ==> u.lastEvaluatedAt == r.lastResultAt)
            && (!Fresh(Loaded(e, r)) ==> u.tier == e.tier && u.lastEvaluatedAt == e.lastEvaluatedAt)
  {
  }

  ghost predicate UpTo(times: set<Time>, last: Option<Time>) {
    forall t :: t in times ==> last.Some? && t <= last.value
  }

  lemma GrowSet(before: set<Time>, t: Time, last: Option<Time>)
    requires UpTo(before, last) && (last.None? || t > last.value)
    ensures |before + {t}| == |before| + 1 && UpTo(before + {t}, Some(t))
  {
    assert t !in before;
  }

  lemma {:induction false} MovesAtMostFresh(entries: seq<Standing>, readings: seq<Reading>, n: nat)
    requires IsHistory(entries, readings) && n <= |readings| && entries[0].tier != NO_TIER
    ensures entries[n].tier != NO_TIER
    ensures UpTo(FreshTimes(entries, readings, n), entries[n].lastEvaluatedAt)
    ensures Moves(entries, n) <= |FreshTimes(entries, readings, n)|
  {
    if n == 0 {
    } else {
      MovesAtMostFresh(entries, readings, n - 1);
      StepEffect(entries[n - 1], readings[n - 1]);
      NextTimes(entries, readings, n - 1, FreshTimes(entries, readings, n - 1));
    }
  }

  /** A fresh evaluation adds one result time, later than all before. */
  lemma NextTimes(entries: seq<Standing>, readings: seq<Reading>, n: nat, before: set<Time>)
    requires IsHistory(entries, readings) && n < |readings| && UpTo(before, entries[n].lastEvaluatedAt)
    requires before == FreshTimes(entries, readings, n)
    ensures if FreshAt(entries, readings, n)
            then |FreshTimes(entries, readings, n + 1)| == |before| + 1
                 && UpTo(FreshTimes(entries, readings, n + 1), readings[n].lastResultAt)
            else FreshTimes(entries, readings, n + 1) == before
  {
    if FreshAt(entries, readings, n) {
      GrowSet(before, readings[n].lastResultAt.value, entries[n].lastEvaluatedAt);
    }
  }

  lemma {:induction false} FreshTimesRead(entries: seq<Standing>, readings: seq<Reading>, n: nat)
    requires n <= |readings| < |entries|
    ensures FreshTimes(entries, readings, n) <= ResultTimes(readings, n)
  {
    if n == 0 {
    } else {
      FreshTimesRead(entries, readings, n - 1);
    }
  }

  /** Rescheduling without new results never moves a prefix: there are at most as many tier moves as
      distinct result times. */
  lemma MovesAtMostResultTimes(entries: seq<Standing>, readings: seq<Reading>)
    requires IsHistory(entries, readings) && entries[0].tier != NO_TIER
    ensures Moves(entries, |readings|) <= |ResultTimes(readings, |readings|)|
  {
    MovesAtMostFresh(entries, readings, |readings|);
    FreshTimesRead(entries, readings, |readings|);
    SubsetSize(FreshTimes(entries, readings, |readings|), ResultTimes(readings, |readings|));
  }
}
