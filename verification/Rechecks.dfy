/** A whole recheck run: settings, the candidate query and one transaction per agent. */
module Rechecks {
  import opened Wrappers
  import opened ScanState
  import opened ScanInvariants
  import opened RecheckSelection
  import opened RecheckGrouping

  datatype Settings = Settings(
    dueOnly: bool, skipIfRunning: bool, fraction: real, maxTargets: int,
    maxLatency: real, maxLoss: real, retryMinutes: int)

  /** Out-of-range settings fall back to defaults. */
  function Sane(settings: Settings): (r: Settings)
    ensures 0.0 < r.fraction <= 1.0 && 1 <= r.maxTargets <= 5000
  {
    settings.(
      fraction := if settings.fraction <= 0.0 || settings.fraction > 1.0 then 0.5 else settings.fraction,
      maxTargets := if settings.maxTargets <= 0 || settings.maxTargets > 5000 then 500 else settings.maxTargets,
      maxLatency := if settings.maxLatency <= 0.0 then 1000.0 else settings.maxLatency,
      maxLoss := if settings.maxLoss < 0.0 || settings.maxLoss > 100.0 then 50.0 else settings.maxLoss,
      retryMinutes := if settings.retryMinutes < 1 || settings.retryMinutes > 10080 then 120 else settings.retryMinutes)
  }

  /** The candidate query with its LIMIT. */
  function RowsRead(sane: Settings, answer: seq<Key>): (r: seq<Key>)
    requires sane.fraction > 0.0
    ensures r <= answer
  {
    Take(answer, Max(0, CandidateLimit(sane.maxTargets, sane.fraction)))
  }

  function LimitsOf(sane: Settings): Limits {
    Limits(true, sane.maxLatency, sane.maxLoss, sane.retryMinutes)
  }

  /** The picks of a run, and the limits of its jobs. */
  function RunPicks(settings: Settings, answer: seq<Key>): seq<Pick> {
    var sane := Sane(settings);
    Select(RowsRead(sane, answer), Quota(sane.fraction), sane.maxTargets)
  }

  function RunLimits(settings: Settings): Limits { LimitsOf(Sane(settings)) }

  predicate Before(s: State, a: Key, b: Key)
    requires a in s.blacklist && b in s.blacklist
  {
    a.agent < b.agent
    || (a.agent == b.agent
        && (s.blacklist[a].retryAfter < s.blacklist[b].retryAfter
            || (s.blacklist[a].retryAfter == s.blacklist[b].retryAfter
                && s.blacklist[a].failures >= s.blacklist[b].failures)))
  }

  /** The candidate query: every (due) entry once, ordered by agent, retry time and falling failure count. */
  ghost predicate IsAnswer(s: State, dueOnly: bool, rows: seq<Key>) {
    && (forall key: Key :: key in rows <==> key in s.blacklist && (dueOnly ==> s.blacklist[key].retryAfter <= s.now))
    && (forall i, k :: 0 <= i < k < |rows| ==> rows[i] != rows[k])
    && (forall i, k | 0 <= i < k < |rows| ::
          rows[i] in s.blacklist && rows[k] in s.blacklist && Before(s, rows[i], rows[k]))
  }

  /** The ids from position `n` on are distinct and not in use. */
  ghost predicate FreshFrom(s: State, ids: seq<JobId>, n: nat) {
    && (forall i :: n <= i < |ids| ==> ids[i] !in s.jobs)
    && (forall i, k :: n <= i < k < |ids| ==> ids[i] != ids[k])
  }

  lemma FreshNext(s: State, u: State, ids: seq<JobId>, n: nat)
    requires n < |ids| && FreshFrom(s, ids, n) && u.jobs.Keys == s.jobs.Keys + {ids[n]}
    ensures FreshFrom(u, ids, n + 1)
  {
  }

  lemma DistinctPrefix(own: seq<Key>, n: nat)
    requires n <= |own| && DistinctIps(own)
    ensures DistinctIps(own[..n])
  {
    assert Addresses(own[..n]) == Addresses(own)[..n];
  }

  /** One transaction per pick, the i-th under the i-th fresh id. */
  function RecheckAll(s: State, picks: seq<Pick>, ids: seq<JobId>, limits: Limits): State
    requires |picks| <= |ids|
  {
    if picks == [] then s
    else
      var n := |picks| - 1;
      RecheckPost(RecheckAll(s, picks[..n], ids, limits), ids[n], picks[n].agent, Addresses(picks[n].chosen), limits)
  }

  lemma RecheckJobs(s: State, j: JobId, agent: AgentId, ips: seq<Ip>, limits: Limits)
    requires Inv(s) && j !in s.jobs
    requires forall a, b :: 0 <= a < b < |ips| ==> ips[a] != ips[b]
    ensures RecheckPost(s, j, agent, ips, limits).jobs.Keys == s.jobs.Keys + {j}
  {
    InsertRechecksFills(s, j, agent, ips, s.now + limits.blacklistMinutes * MINUTE);
  }

  ghost predicate PicksOk(picks: seq<Pick>) {
    forall i :: 0 <= i < |picks| ==> picks[i].chosen != [] && DistinctIps(picks[i].chosen)
  }

  /** After any number of picks the invariant holds and the remaining ids are still fresh. */
  lemma {:induction false} RecheckAllKeeps(s: State, picks: seq<Pick>, ids: seq<JobId>, limits: Limits)
    requires Inv(s) && |picks| <= |ids| && FreshFrom(s, ids, 0) && PicksOk(picks)
    ensures Inv(RecheckAll(s, picks, ids, limits)) && FreshFrom(RecheckAll(s, picks, ids, limits), ids, |picks|)
  {
    if picks == [] {
    } else {
      var n := |picks| - 1;
      RecheckAllKeeps(s, picks[..n], ids, limits);
      var before, pick := RecheckAll(s, picks[..n], ids, limits), picks[n];
      RecheckKeeps(before, ids[n], pick.agent, Addresses(pick.chosen), limits);
      RecheckJobs(before, ids[n], pick.agent, Addresses(pick.chosen), limits);
      FreshNext(before, RecheckAll(s, picks, ids, limits), ids, n);
    }
  }

  function PickOf(agent: AgentId, own: seq<Key>, share: int): seq<Pick>
    requires share <= |own|
  {
    if share > 0 then [Pick(agent, own[..share])] else []
  }

  /** One agent further: its pick joins those made, the rest is still to come. */
  lemma NextShare(order: seq<AgentId>, i: nat, groups: map<AgentId, seq<Key>>, quota: nat -> int, remaining: int,
                  picks: seq<Pick>, rest: seq<Pick>, all: seq<Pick>, share: int, left: int)
    returns (more: seq<Pick>, rest': seq<Pick>)
    requires i < |order| && remaining > 0 && (forall a :: a in order ==> a in groups)
    requires rest == PickFrom(order, i, groups, quota, remaining) && picks + rest == all
    requires share == Share(|groups[order[i]]|, quota, remaining) && left == remaining - Max(share, 0)
    ensures share <= |groups[order[i]]| && more == PickOf(order[i], groups[order[i]], share)
    ensures rest' == PickFrom(order, i + 1, groups, quota, left) && picks + more + rest' == all
  {
    more, rest' := PickOf(order[i], groups[order[i]], share), PickFrom(order, i + 1, groups, quota, left);
    assert rest == more + rest';
    assert picks + (more + rest') == picks + more + rest';
  }

  lemma NextPick(s: State, picks: seq<Pick>, pick: Pick, ids: seq<JobId>, limits: Limits)
    requires |picks| < |ids|
    ensures RecheckAll(s, picks + [pick], ids, limits)
            == RecheckPost(RecheckAll(s, picks, ids, limits), ids[|picks|], pick.agent, Addresses(pick.chosen), limits)
    ensures Selected(picks + [pick]) == Selected(picks) + |pick.chosen|
  {
    assert (picks + [pick])[..|picks|] == picks;
    SelectedLast(picks, pick);
  }

  lemma {:induction false} SelectedLast(picks: seq<Pick>, pick: Pick)
    ensures Selected(picks + [pick]) == Selected(picks) + |pick.chosen|
  {
    if picks == [] {
      assert picks + [pick] == [pick];
    } else {
      assert (picks + [pick])[1..] == picks[1..] + [pick];
      SelectedLast(picks[1..], pick);
    }
  }

  lemma AnswerPrefix(s: State, dueOnly: bool, answer: seq<Key>, rows: seq<Key>)
    requires IsAnswer(s, dueOnly, answer) && rows <= answer
    ensures ByAgent(rows) && forall i, k :: 0 <= i < k < |rows| ==> rows[i] != rows[k]
  {
    forall i, k | 0 <= i < k < |rows| ensures rows[i].agent <= rows[k].agent {
      assert Before(s, answer[i], answer[k]);
    }
  }

  lemma {:induction rows} AgentsAtMostRows(rows: seq<Key>)
    ensures |AgentsOf(rows)| <= |rows|
  {
  }

  /** The whole run selects as if there were no LIMIT, and fills the budget whenever the demand allows it,
      exactly for the settings that satisfy 20000 * fraction > max_targets - 1. */
  lemma RunIgnoresLimit(settings: Settings, answer: seq<Key>)
    requires 20000.0 * Sane(settings).fraction > (Sane(settings).maxTargets - 1) as real
    ensures var sane := Sane(settings);
            var picks := Select(RowsRead(sane, answer), Quota(sane.fraction), sane.maxTargets);
            && picks == Selection(answer, sane.fraction, sane.maxTargets)
            && Selected(picks) == Min(sane.maxTargets, Demand(answer, Quota(sane.fraction)))
  {
    var sane := Sane(settings);
    LimitKeepsSelection(answer, sane.maxTargets, sane.fraction);
    QuotaRounds(sane.fraction);
    SelectedTotal(answer, Quota(sane.fraction), sane.maxTargets);
  }
}
