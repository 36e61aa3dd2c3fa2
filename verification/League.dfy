/** The prefix league: evaluating one prefix entry, and when an entry is due. */
module League {
  import opened Wrappers

  type Time = int
  const HOUR: Time := 3_600_000_000

  /** The stored tier is text; anything unexpected is treated as observation. */
  datatype Tier = Observation | Challenger | Champion | Other(text: string)

  const NO_TIER := Other("")

  /** Aggregates over one time window; rates and losses in percent. */
  datatype Window = Window(samples: int, availability: real, p95: real, loss: real)

  datatype Standing = Standing(
    tier: Tier, badStreak: int, week: Window, distinctIps: int, day: Window,
    lastResultAt: Option<Time>, lastEvaluatedAt: Option<Time>)

  datatype Thresholds = Thresholds(maxLatency: real, maxLoss: real)

  predicate PositiveWithin(value: real, maximum: real) {
    value > 0.0 && maximum > 0.0 && value <= maximum
  }

  predicate Fresh(e: Standing) {
    e.lastResultAt.Some? && (e.lastEvaluatedAt.None? || e.lastResultAt.value > e.lastEvaluatedAt.value)
  }

  predicate Good(e: Standing, th: Thresholds) {
    e.week.samples >= 3 && e.distinctIps >= 3 && e.week.availability >= 90.0
    && PositiveWithin(e.week.p95, th.maxLatency) && e.week.loss <= th.maxLoss
  }

  predicate ChampionReady(e: Standing, th: Thresholds) {
    e.week.samples >= 8 && e.distinctIps >= 6 && e.week.availability >= 95.0
    && PositiveWithin(e.week.p95, th.maxLatency) && e.week.loss <= th.maxLoss
  }

  function LossBoundary(maxLoss: real): real {
    var boundary := maxLoss * 1.5 + 5.0;
    if boundary > 100.0 then 100.0 else boundary
  }

  predicate BadWindow(day: Window, th: Thresholds) {
    day.samples >= 3
    && (day.availability < 80.0
        || (day.p95 > 0.0 && day.p95 > th.maxLatency * 1.5)
        || day.loss > LossBoundary(th.maxLoss))
  }

  predicate Severe(day: Window) {
    day.samples >= 3 && day.availability == 0.0
  }

  function Evaluate(entry: Standing, th: Thresholds): Standing {
    var e := if entry.tier == NO_TIER then entry.(tier := Observation) else entry;
    if !Fresh(e) then e
    else
      var streak := if BadWindow(e.day, th) then e.badStreak + 1 else 0;
      var judged :=
        match e.tier
        case Champion =>
          if Severe(e.day) then e.(tier := Observation, badStreak := 0)
          else if streak >= 2 then e.(tier := Challenger, badStreak := 0)
          else e.(badStreak := streak)
        case Challenger =>
          if Severe(e.day) then e.(tier := Observation, badStreak := 0)
          else if ChampionReady(e, th) then e.(tier := Champion, badStreak := 0)
          else if streak >= 2 then e.(tier := Observation, badStreak := 0)
          else e.(badStreak := streak)
        case _ =>
          if Good(e, th) then e.(tier := Challenger, badStreak := 0)
          else e.(tier := Observation, badStreak := streak);
      judged.(lastEvaluatedAt := e.lastResultAt)
  }

  function Normalized(tier: Tier): Tier {
    if tier.Champion? || tier.Challenger? then tier else Observation
  }

  function Interval(tier: Tier): Time {
    match Normalized(tier) case Champion => HOUR case Challenger => 6 * HOUR case _ => 24 * HOUR
  }

  function Samples(tier: Tier): nat {
    match Normalized(tier) case Champion => 6 case Challenger => 3 case _ => 1
  }

  function Anchors(tier: Tier): nat {
    match Normalized(tier) case Champion => 2 case Challenger => 1 case _ => 0
  }

  predicate Due(active: bool, tier: Tier, lastScheduledAt: Option<Time>, now: Time, force: bool) {
    active && (force || lastScheduledAt.None? || lastScheduledAt.value + Interval(tier) <= now)
  }

  // ---- Single evaluations --------------------------------------------------------------

  /** Without a strictly newer result nothing but a missing tier changes; evaluating again, under any
      thresholds, changes nothing more. */
  lemma EvaluateIdempotent(e: Standing, th: Thresholds, again: Thresholds)
    ensures Evaluate(Evaluate(e, th), again) == Evaluate(e, th)
    ensures !Fresh(e) ==> Evaluate(e, th) == e.(tier := if e.tier == NO_TIER then Observation else e.tier)
    ensures Fresh(e) ==> Evaluate(e, th).lastEvaluatedAt == e.lastResultAt
  {
  }

  /** From any non-negative streak, a champion or challenger that was just evaluated is at most one bad
      window into a demotion. */
  lemma StreakAfterEvaluation(e: Standing, th: Thresholds)
    requires Fresh(e) && e.badStreak >= 0
    ensures var r := Evaluate(e, th);
            (r.tier.Champion? || r.tier.Challenger? ==> 0 <= r.badStreak <= 1) && r.badStreak >= 0
  {
  }

  /** Exactly when an entry moves between two tiers: one tier at a time, except that a severe window drops a
      champion straight to observation; a bad window only matters to the upper tiers, and never to a promotion.
      A move clears the streak; otherwise a fresh result adds to it or clears it. */
  lemma LegalMoves(e: Standing, th: Thresholds)
    ensures var r := Evaluate(e, th);
            var newer := e.lastResultAt.Some?
                         && (e.lastEvaluatedAt.None? || e.lastResultAt.value > e.lastEvaluatedAt.value);
            var severe := e.day.samples >= 3 && e.day.availability == 0.0;
            var bad := e.day.samples >= 3
                       && (e.day.availability < 80.0 || (e.day.p95 > 0.0 && e.day.p95 > 1.5 * th.maxLatency)
                           || e.day.loss > 100.0 || e.day.loss > 1.5 * th.maxLoss + 5.0);
            var within := 0.0 < e.week.p95 <= th.maxLatency && e.week.loss <= th.maxLoss;
            var good := within && e.week.samples >= 3 && e.distinctIps >= 3 && e.week.availability >= 90.0;
            var ready := within && e.week.samples >= 8 && e.distinctIps >= 6 && e.week.availability >= 95.0;
            var slips := bad && e.badStreak >= 1;
            && (newer <==> Fresh(e)) && (bad <==> BadWindow(e.day, th)) && (severe <==> Severe(e.day))
            && (ready <==> ChampionReady(e, th))
            && (e.tier.Champion? ==>
                  && (r.tier.Observation? <==> newer && severe)
                  && (r.tier.Challenger? <==> newer && !severe && slips)
                  && (r.tier.Champion? <==> !newer || (!severe && !slips)))
            && (e.tier.Challenger? ==>
                  && (r.tier.Champion? <==> newer && !severe && ready)
                  && (r.tier.Observation? <==> newer && (severe || (!ready && slips)))
                  && (r.tier.Challenger? <==> !newer || (!severe && !ready && !slips)))
            && (!e.tier.Champion? && !e.tier.Challenger? ==>
                  && (r.tier.Challenger? <==> newer && good)
                  && (newer && !good ==> r.tier.Observation?) && !r.tier.Champion?)
            && (!newer ==> r.badStreak == e.badStreak && r.lastEvaluatedAt == e.lastEvaluatedAt)
            && (newer ==> r.lastEvaluatedAt == e.lastResultAt)
            && (newer && Normalized(r.tier) != Normalized(e.tier) ==> r.badStreak == 0)
            && (newer && Normalized(r.tier) == Normalized(e.tier) ==>
                  r.badStreak == if bad then e.badStreak + 1 else 0)
  {
  }

  /** Under any usable thresholds there are entries that are promoted, from either lower tier, by the very
      evaluation that finds their recent window bad. */
  lemma BadWindowsDoNotStopPromotion(th: Thresholds)
    requires th.maxLatency > 0.0
    ensures exists e: Standing :: BadWindow(e.day, th) && e.tier.Observation? && Evaluate(e, th).tier.Challenger?
    ensures exists e: Standing :: BadWindow(e.day, th) && e.tier.Challenger? && Evaluate(e, th).tier.Champion?
  {
    var week, day := Window(8, 95.0, th.maxLatency, th.maxLoss), Window(3, 50.0, 0.0, th.maxLoss);
    var low := Standing(Observation, 0, week, 6, day, Some(0), None);
    assert BadWindow(low.day, th) && Evaluate(low, th).tier.Challenger?;
    var middle := low.(tier := Challenger);
    assert BadWindow(middle.day, th) && Evaluate(middle, th).tier.Champion?;
  }

  /** What a recent window must reach to satisfy the promotion thresholds. */
  predicate Promotable(day: Window, th: Thresholds) {
    day.samples >= 3 && day.availability >= 90.0 && PositiveWithin(day.p95, th.maxLatency) && day.loss <= th.maxLoss
  }

  /** Windows good enough for promotion are never bad, exactly when the loss threshold lies in -10..100;
      so for every threshold a scan may carry (0..100). */
  lemma PromotableNeverBad(th: Thresholds)
    requires th.maxLatency > 0.0
    ensures (forall day: Window :: Promotable(day, th) ==> !BadWindow(day, th)) <==> -10.0 <= th.maxLoss <= 100.0
  {
    var edge := Window(3, 100.0, th.maxLatency, th.maxLoss);
    assert Promotable(edge, th);
  }
}
