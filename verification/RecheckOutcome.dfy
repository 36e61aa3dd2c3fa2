/** What a recheck run does, in terms of its settings, the candidate rows and the jobs it leaves. */
module RecheckOutcome {
  import opened Wrappers
  import opened Cardinality
  import opened ScanState
  import opened ScanInvariants
  import opened RecheckSelection
  import opened RecheckGrouping
  import opened Rechecks
  import E = ScanEffects

  /** The settings in effect: each value as configured when it lies in its range, else a default. */
  function Fraction(c: Settings): real { if 0.0 < c.fraction <= 1.0 then c.fraction else 0.5 }

  function Budget(c: Settings): nat { if 1 <= c.maxTargets <= 5000 then c.maxTargets else 500 }

  predicate InForce(c: Settings, limits: Limits) {
    && limits.recheck
    && limits.maxLatency == (if c.maxLatency > 0.0 then c.maxLatency else 1000.0)
    && limits.maxLoss == (if 0.0 <= c.maxLoss <= 100.0 then c.maxLoss else 50.0)
    && limits.blacklistMinutes == (if 1 <= c.retryMinutes <= 10080 then c.retryMinutes else 120)
  }

  /** Over these agents, the sum of their shares of rows. */
  function SumOver(order: seq<AgentId>, share: AgentId -> int): int {
    if order == [] then 0 else SumOver(order[..|order| - 1], share) + share(order[|order| - 1])
  }

  function PerAgent(rows: seq<Key>, quota: nat -> int): AgentId -> int {
    (a: AgentId) => quota(|RowsOf(rows, a)|)
  }

  function Shares(rows: seq<Key>, quota: nat -> int): int {
    SumOver(AgentsOf(rows), PerAgent(rows, quota))
  }

  /** The rows the candidate query returns under its LIMIT. */
  function RowsSeen(c: Settings, answer: seq<Key>): seq<Key> {
    Take(answer, Min(Max(Ceil(Budget(c) as real / Fraction(c)), Budget(c)), 20000))
  }

  lemma {:induction false} SumFirst(a: AgentId, order: seq<AgentId>, f: AgentId -> int, g: AgentId -> int)
    requires forall b :: b in order ==> f(b) == g(b)
    ensures SumOver([a] + order, f) == f(a) + SumOver(order, g)
  {
    if order == [] {
      assert [a] + order == [a];
      assert [a][..0] == [];
    } else {
      var front, b := order[..|order| - 1], order[|order| - 1];
      assert ([a] + order)[..|order|] == [a] + front;
      SumFirst(a, front, f, g);
      assert b in order;
    }
  }

  /** For rows ordered by agent the demand is the sum of the agents' shares. */
  lemma {:induction false} DemandIsShares(rows: seq<Key>, quota: nat -> int)
    requires ByAgent(rows)
    ensures Demand(rows, quota) == Shares(rows, quota)
    decreases |rows|
  {
    if rows == [] {
    } else {
      FirstBlock(rows);
      DemandIsShares(rows[Lead(rows)..], quota);
      SharesRest(rows, rows[Lead(rows)..], quota);
    }
  }

  lemma {:induction false} SharesRest(rows: seq<Key>, rest: seq<Key>, quota: nat -> int)
    requires rows != [] && ByAgent(rows) && rest == rows[Lead(rows)..]
    ensures Shares(rows, quota) == quota(Lead(rows)) + Shares(rest, quota)
  {
    FirstGroup(rows);
    forall b | b in AgentsOf(rest) ensures PerAgent(rows, quota)(b) == PerAgent(rest, quota)(b) {
      OtherGroups(rows, b);
    }
    SumFirst(rows[0].agent, AgentsOf(rest), PerAgent(rows, quota), PerAgent(rest, quota));
  }

  // ---- Who is picked --------------------------------------------------------------------

  /** One pick per agent, in order of appearance: the agent's first rows, its whole share unless the budget
      ends there. */
  ghost predicate ArePicks(picks: seq<Pick>, rows: seq<Key>, quota: nat -> int) {
    && |picks| <= |AgentsOf(rows)|
    && forall i :: 0 <= i < |picks| ==> IsPick(picks, i, rows, quota)
  }

  ghost predicate IsPick(picks: seq<Pick>, i: nat, rows: seq<Key>, quota: nat -> int)
    requires i < |picks| <= |AgentsOf(rows)|
  {
    var own := RowsOf(rows, AgentsOf(rows)[i]);
    && picks[i].agent == AgentsOf(rows)[i]
    && picks[i].chosen <= own && 1 <= |picks[i].chosen| <= quota(|own|)
    && (i < |picks| - 1 ==> |picks[i].chosen| == quota(|own|))
  }

  lemma {:induction false} SelectPicks(rows: seq<Key>, quota: nat -> int, remaining: int)
    requires ByAgent(rows) && Rounding(quota)
    ensures ArePicks(Select(rows, quota, remaining), rows, quota)
    decreases |rows|
  {
    if rows == [] || remaining <= 0 {
    } else {
      var n := Lead(rows);
      assert 1 <= quota(n) <= n;
      var c := Share(n, quota, remaining);
      FirstBlock(rows);
      SelectPicks(rows[n..], quota, remaining - c);
      FirstPickThenRest(rows, n, c, quota, remaining, Select(rows[n..], quota, remaining - c));
    }
  }

  lemma {:induction false} FirstPickThenRest(rows: seq<Key>, n: nat, c: int, quota: nat -> int, remaining: int,
                                             more: seq<Pick>)
    requires rows != [] && ByAgent(rows) && n == Lead(rows) && remaining > 0
    requires 1 <= quota(n) <= n && c == Share(n, quota, remaining)
    requires more == Select(rows[n..], quota, remaining - c) && ArePicks(more, rows[n..], quota)
    ensures ArePicks(Select(rows, quota, remaining), rows, quota)
  {
    var rest := rows[n..];
    FirstGroup(rows);
    SelectFirst(rows, n, c, rest, quota, remaining);
    var picks := [Pick(rows[0].agent, rows[..c])] + more;
    forall i | 0 <= i < |picks| ensures IsPick(picks, i, rows, quota) {
      if i == 0 {
        assert more == [] || c == quota(n) by { if remaining - c <= 0 { assert more == []; } }
      } else {
        LaterPick(rows, rest, more, picks, i, quota);
      }
    }
  }

  lemma {:induction false} LaterPick(rows: seq<Key>, rest: seq<Key>, more: seq<Pick>, picks: seq<Pick>, i: nat,
                                     quota: nat -> int)
    requires rows != [] && ByAgent(rows) && rest == rows[Lead(rows)..] && picks != [] && picks[1..] == more
    requires 0 < i < |picks| && ArePicks(more, rest, quota) && AgentsOf(rows) == [rows[0].agent] + AgentsOf(rest)
    ensures IsPick(picks, i, rows, quota)
  {
    assert IsPick(more, i - 1, rest, quota);
    assert picks[i] == more[i - 1];
    OtherGroups(rows, AgentsOf(rest)[i - 1]);
  }

  lemma InEffect(c: Settings)
    ensures Sane(c).fraction == Fraction(c) && Sane(c).maxTargets == Budget(c)
  {
  }

  /** An agent's share is the configured fraction of its rows, rounded up. */
  lemma QuotaIsCeil(c: Settings, n: nat)
    ensures Quota(Fraction(c))(n) == Ceil(n as real * Fraction(c))
  {
  }

  /** The run picks each agent's first rows, its share of them, until the budget is spent; so it selects the
      budget or all shares of the rows seen, whichever is less. */
  lemma {:induction false} RunSelects(c: Settings, answer: seq<Key>)
    requires ByAgent(answer)
    ensures ArePicks(RunPicks(c, answer), RowsSeen(c, answer), Quota(Fraction(c)))
    ensures Selected(RunPicks(c, answer)) == Min(Budget(c), Shares(RowsSeen(c, answer), Quota(Fraction(c))))
  {
    var rows, quota := RowsSeen(c, answer), Quota(Fraction(c));
    PicksFromSeen(c, answer);
    QuotaRounds(Fraction(c));
    SelectPicks(rows, quota, Budget(c));
    SelectedTotal(rows, quota, Budget(c));
    DemandIsShares(rows, quota);
  }

  /** When 20000 * fraction exceeds max_targets - 1 the shares of all candidates count. */
  lemma {:induction false} RunSelectsFromAll(c: Settings, answer: seq<Key>)
    requires ByAgent(answer) && 20000.0 * Fraction(c) > (Budget(c) - 1) as real
    ensures Selected(RunPicks(c, answer)) == Min(Budget(c), Shares(answer, Quota(Fraction(c))))
  {
    InEffect(c);
    RunIgnoresLimit(c, answer);
    DemandIsShares(answer, Quota(Fraction(c)));
  }

  lemma {:induction false} PicksFromSeen(c: Settings, answer: seq<Key>)
    ensures RunPicks(c, answer) == Select(RowsSeen(c, answer), Quota(Fraction(c)), Budget(c))
  {
    InEffect(c);
    Covered(Budget(c), Fraction(c));
  }

  /** May be retried no later, and if at the same time has failed as often. */
  predicate Earlier(s: State, x: Key, y: Key) {
    && x in s.blacklist && y in s.blacklist
    && s.blacklist[x].retryAfter <= s.blacklist[y].retryAfter
    && (s.blacklist[x].retryAfter == s.blacklist[y].retryAfter ==> s.blacklist[x].failures >= s.blacklist[y].failures)
  }

  ghost predicate EarlierFirst(s: State, rows: seq<Key>) {
    forall i, k | 0 <= i < k < |rows| && rows[i].agent == rows[k].agent :: Earlier(s, rows[i], rows[k])
  }

  lemma {:induction false} RowsOfMember(rows: seq<Key>, a: AgentId, i: nat) returns (j: nat)
    requires i < |RowsOf(rows, a)|
    ensures j < |rows| && rows[j] == RowsOf(rows, a)[i] && rows[j].agent == a
  {
    var front := rows[..|rows| - 1];
    if i < |RowsOf(front, a)| { j := RowsOfMember(front, a, i); } else { j := |rows| - 1; }
  }

  /** Rows of one agent keep the order of the query. */
  lemma {:induction false} RowsOfOrdered(s: State, rows: seq<Key>, a: AgentId)
    requires EarlierFirst(s, rows)
    ensures EarlierFirst(s, RowsOf(rows, a))
  {
    if rows == [] {
    } else {
      var front, last := rows[..|rows| - 1], rows[|rows| - 1];
      RowsOfOrdered(s, front, a);
      var before := RowsOf(front, a);
      forall i | 0 <= i < |before| && last.agent == a ensures Earlier(s, before[i], last) {
        var j := RowsOfMember(front, a, i);
        assert rows[j] == before[i];
      }
    }
  }

  lemma AnswerOrdered(s: State, dueOnly: bool, answer: seq<Key>, rows: seq<Key>)
    requires IsAnswer(s, dueOnly, answer) && rows <= answer
    ensures EarlierFirst(s, rows)
  {
    forall i, k | 0 <= i < k < |rows| && rows[i].agent == rows[k].agent ensures Earlier(s, rows[i], rows[k]) {
      assert Before(s, answer[i], answer[k]);
    }
  }

  /** Of an agent's candidates the run takes those that may be retried earliest, the more often failed first at
      one time; with the due filter on, only ones whose time has come. */
  lemma {:induction false} EarliestAreTaken(s: State, c: Settings, answer: seq<Key>, i: nat, x: Key, y: Key)
    requires IsAnswer(s, c.dueOnly, answer) && i < |RunPicks(c, answer)|
    requires x in RunPicks(c, answer)[i].chosen && y !in RunPicks(c, answer)[i].chosen
    requires y in RowsSeen(c, answer) && y.agent == RunPicks(c, answer)[i].agent
    ensures x.agent == y.agent && Earlier(s, x, y) && (c.dueOnly ==> s.blacklist[x].retryAfter <= s.now)
  {
    var picks, rows := RunPicks(c, answer), RowsSeen(c, answer);
    AnswerPrefix(s, c.dueOnly, answer, answer);
    RunSelects(c, answer);
    assert IsPick(picks, i, rows, Quota(Fraction(c)));
    var a := AgentsOf(rows)[i];
    AnswerOrdered(s, c.dueOnly, answer, rows);
    FirstAreEarlier(s, rows, a, picks[i].chosen, x, y);
    assert x in answer;
  }

  lemma {:induction false} FirstAreEarlier(s: State, rows: seq<Key>, a: AgentId, chosen: seq<Key>, x: Key, y: Key)
    requires EarlierFirst(s, rows) && chosen <= RowsOf(rows, a)
    requires x in chosen && y !in chosen && y in rows && y.agent == a
    ensures x in rows && x.agent == a && Earlier(s, x, y)
  {
    RowsOfOrdered(s, rows, a);
    RowsOfComplete(rows, a, y);
    var own := RowsOf(rows, a);
    var j :| 0 <= j < |chosen| && chosen[j] == x;
    var k :| 0 <= k < |own| && own[k] == y;
    assert forall q :: 0 <= q < |chosen| ==> own[q] == chosen[q] && chosen[q] in chosen;
    var m := RowsOfMember(rows, a, j);
    assert own[j] == x;
  }

  lemma {:induction false} RowsOfComplete(rows: seq<Key>, a: AgentId, y: Key)
    requires y in rows && y.agent == a
    ensures y in RowsOf(rows, a)
  {
    var front, last := rows[..|rows| - 1], rows[|rows| - 1];
    assert rows == front + [last];
    if y != last { RowsOfComplete(front, a, y); }
  }

  // ---- What is left behind --------------------------------------------------------------

  /** The job of one pick, new, under the settings in force, with one task for each chosen address. */
  ghost predicate IsRecheckJob(u: State, j: JobId, pick: Pick, c: Settings, now: Time) {
    && j in u.jobs
    && (exists limits :: InForce(c, limits) && E.IsNew(u.jobs[j], limits, |pick.chosen|, now))
    && (forall t :: t in u.tasks && u.tasks[t].job == j ==>
          u.tasks[t].agent == pick.agent && u.tasks[t].status.Waiting? && u.tasks[t].ip in Addresses(pick.chosen))
    && (forall x :: x in Addresses(pick.chosen) ==> Taken(u, j, pick.agent, x))
  }

  lemma LimitsInForce(c: Settings)
    ensures InForce(c, RunLimits(c))
  {
  }

  /** One more job leaves the earlier ones as they are. */
  lemma LaterJob(s: State, j: JobId, pick: Pick, c: Settings, k: JobId, agent: AgentId, ips: seq<Ip>, now: Time)
    requires Inv(s) && k !in s.jobs && IsRecheckJob(s, j, pick, c, now)
    requires ips != [] && forall a, b :: 0 <= a < b < |ips| ==> ips[a] != ips[b]
    ensures IsRecheckJob(RecheckPost(s, k, agent, ips, RunLimits(c)), j, pick, c, now)
  {
    var u := RecheckPost(s, k, agent, ips, RunLimits(c));
    E.RecheckAdds(s, k, agent, ips, RunLimits(c));
    forall x | x in Addresses(pick.chosen) ensures Taken(u, j, pick.agent, x) {
      var t :| t in s.tasks && s.tasks[t].job == j && s.tasks[t].agent == pick.agent && s.tasks[t].ip == x;
      assert u.tasks[t] == s.tasks[t];
    }
  }

  lemma NewestJob(s: State, j: JobId, pick: Pick, c: Settings)
    requires Inv(s) && j !in s.jobs && pick.chosen != [] && DistinctIps(pick.chosen)
    ensures IsRecheckJob(RecheckPost(s, j, pick.agent, Addresses(pick.chosen), RunLimits(c)), j, pick, c, s.now)
  {
    var ips := Addresses(pick.chosen);
    var u := RecheckPost(s, j, pick.agent, ips, RunLimits(c));
    E.RecheckAdds(s, j, pick.agent, ips, RunLimits(c));
    LimitsInForce(c);
    forall t | t in u.tasks && u.tasks[t].job == j
      ensures u.tasks[t].agent == pick.agent && u.tasks[t].status.Waiting? && u.tasks[t].ip in ips
    {
      assert t !in s.tasks;
      assert E.RecheckRow(s, u, j, pick.agent, ips, t - s.nextTask);
    }
    forall x | x in ips ensures Taken(u, j, pick.agent, x) {
      var i :| 0 <= i < |ips| && ips[i] == x;
      assert E.RecheckRow(s, u, j, pick.agent, ips, i);
    }
  }

  /** Every pick becomes a job of its own under the next id. */
  ghost predicate HasJobs(u: State, picks: seq<Pick>, ids: seq<JobId>, c: Settings, now: Time)
    requires |picks| <= |ids|
  {
    forall i :: 0 <= i < |picks| ==> IsRecheckJob(u, ids[i], picks[i], c, now)
  }

  lemma {:induction false} RunCreates(s: State, picks: seq<Pick>, ids: seq<JobId>, c: Settings)
    requires Inv(s) && |picks| <= |ids| && FreshFrom(s, ids, 0) && PicksOk(picks)
    ensures RecheckAll(s, picks, ids, RunLimits(c)).now == s.now
    ensures HasJobs(RecheckAll(s, picks, ids, RunLimits(c)), picks, ids, c, s.now)
  {
    if picks == [] {
    } else {
      var n := |picks| - 1;
      var before := RecheckAll(s, picks[..n], ids, RunLimits(c));
      RunCreates(s, picks[..n], ids, c);
      RecheckAllKeeps(s, picks[..n], ids, RunLimits(c));
      OneMoreJob(before, picks, n, ids, c);
    }
  }

  lemma OneMoreJob(s: State, picks: seq<Pick>, n: nat, ids: seq<JobId>, c: Settings)
    requires Inv(s) && |picks| == n + 1 <= |ids| && ids[n] !in s.jobs && PicksOk(picks)
    requires HasJobs(s, picks[..n], ids, c, s.now)
    ensures var u := RecheckPost(s, ids[n], picks[n].agent, Addresses(picks[n].chosen), RunLimits(c));
            u.now == s.now && HasJobs(u, picks, ids, c, s.now)
  {
    var ips := Addresses(picks[n].chosen);
    NewestJob(s, ids[n], picks[n], c);
    E.RecheckAdds(s, ids[n], picks[n].agent, ips, RunLimits(c));
    forall i | 0 <= i < n
      ensures IsRecheckJob(RecheckPost(s, ids[n], picks[n].agent, ips, RunLimits(c)), ids[i], picks[i], c, s.now)
    {
      assert IsRecheckJob(s, ids[i], picks[..n][i], c, s.now);
      LaterJob(s, ids[i], picks[i], c, ids[n], picks[n].agent, ips, s.now);
    }
  }

  // ---- The whole run --------------------------------------------------------------------

  /** The picks are as the settings in force demand, and each has become a job. */
  ghost predicate Ran(s: State, u: State, c: Settings, answer: seq<Key>, ids: seq<JobId>, picks: seq<Pick>)
    requires |picks| <= |ids|
  {
    var rows, quota := RowsSeen(c, answer), Quota(Fraction(c));
    && (forall n: nat :: quota(n) == Ceil(n as real * Fraction(c)))
    && ArePicks(picks, rows, quota) && Selected(picks) == Min(Budget(c), Shares(rows, quota))
    && (20000.0 * Fraction(c) > (Budget(c) - 1) as real ==> Selected(picks) == Min(Budget(c), Shares(answer, quota)))
    && HasJobs(u, picks, ids, c, s.now)
  }

  lemma {:induction false} RunIsDone(s: State, c: Settings, dueOnly: bool, answer: seq<Key>, ids: seq<JobId>)
    requires Inv(s) && IsAnswer(s, dueOnly, answer) && |ids| >= |answer| && FreshFrom(s, ids, 0)
    ensures var picks := RunPicks(c, answer);
            |picks| <= |ids| && Ran(s, RecheckAll(s, picks, ids, RunLimits(c)), c, answer, ids, picks)
  {
    var picks := RunPicks(c, answer);
    AnswerPrefix(s, dueOnly, answer, answer);
    RunSelects(c, answer);
    if 20000.0 * Fraction(c) > (Budget(c) - 1) as real { RunSelectsFromAll(c, answer); }
    PicksAreOk(c, answer);
    RunCreates(s, picks, ids, c);
    forall n: nat ensures Quota(Fraction(c))(n) == Ceil(n as real * Fraction(c)) {
      QuotaIsCeil(c, n);
    }
  }

  lemma {:induction false} PicksAreOk(c: Settings, answer: seq<Key>)
    requires ByAgent(answer) && forall i, k :: 0 <= i < k < |answer| ==> answer[i] != answer[k]
    ensures PicksOk(RunPicks(c, answer)) && |RunPicks(c, answer)| <= |answer|
  {
    var picks, rows := RunPicks(c, answer), RowsSeen(c, answer);
    RunSelects(c, answer);
    AgentsAtMostRows(rows);
    OwnRowsAreOk(picks, rows, Quota(Fraction(c)));
  }

  lemma {:induction false} OwnRowsAreOk(picks: seq<Pick>, rows: seq<Key>, quota: nat -> int)
    requires ArePicks(picks, rows, quota)
    requires forall i, k :: 0 <= i < k < |rows| ==> rows[i] != rows[k]
    ensures PicksOk(picks)
  {
    forall i | 0 <= i < |picks| ensures picks[i].chosen != [] && DistinctIps(picks[i].chosen) {
      assert IsPick(picks, i, rows, quota);
      RowsOfDistinct(rows, AgentsOf(rows)[i]);
      DistinctPrefix(RowsOf(rows, AgentsOf(rows)[i]), |picks[i].chosen|);
    }
  }
}
