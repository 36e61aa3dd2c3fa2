/** The store as an object: each method is one transaction that works on local copies of the tables and
    assigns the fields only when it commits. */
module ScanStore {
  import opened Wrappers
  import opened ScanState
  import opened ScanInvariants
  import opened RecheckSelection
  import opened RecheckGrouping
  import opened Rechecks
  import O = RecheckOutcome

  datatype Failure =
    | NoAgents | MissingAgent | NothingCreated | NotStoppable | UnknownJob
    | NotLeased(task: TaskId) | WrongTarget(task: TaskId)

  datatype ClaimedTask = ClaimedTask(id: TaskId, ip: Ip)

  datatype Batch = Batch(job: JobId, tasks: seq<ClaimedTask>)

  datatype RecheckResult = RecheckResult(jobs: nat, targets: nat, skipped: bool, jobIds: seq<JobId>)

  /** A recheck that waits or runs. */
  predicate IsActiveRecheck(job: Job) {
    job.recheck && (job.status.Pending? || job.status.Running?)
  }

  class Store {
    var now: Time
    var nextTask: TaskId
    var jobs: map<JobId, Job>
    var tasks: map<TaskId, Task>
    var results: map<TaskId, Row>
    var blacklist: map<Key, Entry>

    function Db(): State
      reads this
    {
      State(now, nextTask, jobs, tasks, results, blacklist)
    }

    ghost predicate Valid()
      reads this
    {
      Inv(Db())
    }

    constructor (start: Time)
      ensures Valid() && Db() == State(start, 0, map[], map[], map[], map[])
    {
      now, nextTask := start, 0;
      jobs, tasks, results, blacklist := map[], map[], map[], map[];
    }

    method CreateScanJob(j: JobId, limits: Limits, sets: seq<AgentTargets>, includeBlocked: bool)
      returns (r: Result<nat, Failure>)
      requires Valid() && j !in jobs
      modifies this
      ensures Valid()
      ensures Db() == CreatePost(old(Db()), j, limits, sets, includeBlocked)
      ensures r.Ok? <==> Creates(old(Db()), j, sets, includeBlocked)
      ensures r.Ok? ==> j in jobs && r.value == jobs[j].total == |TasksIn(Db(), j)|
    {
      ghost var s := Db();
      CreateKeeps(s, j, limits, sets, includeBlocked);
      if |sets| == 0 {
        return Err(NoAgents);
      }
      var addressed, rows, next := InsertSetRows(j, sets, includeBlocked);
      if !addressed {
        return Err(MissingAgent);
      }
      var inserted := next - nextTask;
      if inserted == 0 {
        return Err(NothingCreated);
      }
      tasks, nextTask := rows, next;
      jobs := jobs[j := NewJob(limits, inserted, now)];
      assert Db() == CreatePost(s, j, limits, sets, includeBlocked);
      assert JobOk(Db(), j);
      return Ok(inserted);
    }

    /** The loop over the agents' target sets; a set without an agent fails the whole creation. */
    method InsertSetRows(j: JobId, sets: seq<AgentTargets>, includeBlocked: bool)
      returns (addressed: bool, rows: map<TaskId, Task>, next: TaskId)
      ensures addressed <==> Addressed(sets)
      ensures addressed ==>
                State(now, next, jobs, rows, results, blacklist) == InsertSets(Db(), j, sets, includeBlocked)
    {
      rows, next := tasks, nextTask;
      for i := 0 to |sets|
        invariant Addressed(sets[..i])
        invariant State(now, next, jobs, rows, results, blacklist) == InsertSets(Db(), j, sets[..i], includeBlocked)
      {
        assert sets[..i + 1][..i] == sets[..i];
        if sets[i].agent.None? {
          return false, rows, next;
        }
        rows, next := InsertAgentTargets(j, sets[i].agent.value, sets[i].targets, includeBlocked, rows, next);
      }
      assert sets[..|sets|] == sets;
      addressed := true;
    }

    /** The inner loop: one agent's targets, against rows not yet committed. */
    method InsertAgentTargets(j: JobId, agent: AgentId, targets: seq<Target>, includeBlocked: bool,
                              rows0: map<TaskId, Task>, next0: TaskId)
      returns (rows: map<TaskId, Task>, next: TaskId)
      ensures State(now, next, jobs, rows, results, blacklist)
              == InsertTargets(State(now, next0, jobs, rows0, results, blacklist), j, agent, targets, includeBlocked)
    {
      rows, next := rows0, next0;
      ghost var before := State(now, next0, jobs, rows0, results, blacklist);
      for k := 0 to |targets|
        invariant State(now, next, jobs, rows, results, blacklist)
                  == InsertTargets(before, j, agent, targets[..k], includeBlocked)
      {
        assert targets[..k + 1][..k] == targets[..k];
        if targets[k].ip.Some? {
          var ip := targets[k].ip.value;
          var blocked := Key(agent, ip) in blacklist && blacklist[Key(agent, ip)].retryAfter > now;
          var conflict := exists t :: t in rows && rows[t].job == j && rows[t].agent == agent && rows[t].ip == ip;
          if (includeBlocked || !blocked) && !conflict {
            rows := rows[next := Task(j, agent, ip, targets[k].prefix, Waiting)];
            next := next + 1;
          }
        }
      }
      assert targets[..|targets|] == targets;
    }

    /** `row` is what the locking SELECT returned while other transactions held `busyJobs` and `busyTasks`. */
    method ClaimTasks(agent: AgentId, limit: int, ghost busyJobs: set<JobId>, busyTasks: set<TaskId>,
                      row: Option<JobId>)
      returns (batch: Option<Batch>)
      requires Valid()
      requires row.Some? ==> Selects(Expire(Db(), agent), agent, busyJobs, row.value)
      requires row.None? ==> forall j :: j in jobs && j !in busyJobs ==> !Claimable(Expire(Db(), agent), j, agent)
      modifies this
      ensures Valid()
      ensures batch.None? ==> Db() == old(Db())
      ensures row.Some? ==> Db() == ClaimPost(old(Db()), agent, limit, busyTasks, row.value)
      ensures batch.Some? <==> row.Some? && Granted(old(Db()), agent, limit, busyTasks, row.value) != []
      ensures batch.Some? ==>
                && batch.value.job == row.value
                && var ids := Granted(old(Db()), agent, limit, busyTasks, row.value);
                && |batch.value.tasks| == |ids|
                && forall i :: 0 <= i < |ids| ==>
                     batch.value.tasks[i].id == ids[i] && ids[i] in tasks && batch.value.tasks[i].ip == tasks[ids[i]].ip
    {
      var expired := Expire(Db(), agent);
      if row.None? {
        return None;
      }
      var j := row.value;
      ClaimKeeps(Db(), agent, limit, busyTasks, j);
      GrantedOpen(Db(), agent, limit, busyTasks, j);
      var ids := Picked(expired, agent, limit, busyTasks, j);
      var leased := LeaseAll(expired, ids);
      var items := ReadRows(ids, leased.tasks);
      if |items| == 0 {
        return None;
      }
      var running := MarkRunning(leased, j);
      tasks, jobs := running.tasks, running.jobs;
      assert Db() == ClaimPost(old(Db()), agent, limit, busyTasks, j);
      return Some(Batch(j, items));
    }

    /** Reading the rows of UPDATE … RETURNING into the batch. */
    static method ReadRows(ids: seq<TaskId>, rows: map<TaskId, Task>) returns (items: seq<ClaimedTask>)
      requires forall t: TaskId | t in ids :: t in rows
      ensures |items| == |ids|
      ensures forall i :: 0 <= i < |ids| ==> ids[i] in rows && items[i] == ClaimedTask(ids[i], rows[ids[i]].ip)
    {
      items := [];
      for i := 0 to |ids|
        invariant |items| == i
        invariant forall k :: 0 <= k < i ==> ids[k] in rows && items[k] == ClaimedTask(ids[k], rows[ids[k]].ip)
      {
        assert ids[i] in ids;
        items := items + [ClaimedTask(ids[i], rows[ids[i]].ip)];
      }
    }

    method SubmitResults(agent: AgentId, j: JobId, probes: seq<Probe>) returns (r: Result<(), Failure>)
      requires Valid()
      modifies this
      ensures Valid()
      ensures Db() == SubmitPost(old(Db()), agent, j, probes)
      ensures r.Err? <==> Outcome(old(Db()), agent, j, probes).Refused?
    {
      ghost var s := Db();
      SubmitKeeps(s, agent, j, probes);
      if j !in jobs {
        return Err(UnknownJob);
      }
      if jobs[j].status.Stopped? {
        return Ok(());
      }
      var done, rows, found, list := AbsorbResults(agent, j, jobs[j], probes);
      if done.Err? {
        return done;
      }
      var recounted := Recount(State(now, nextTask, jobs, rows, found, list), j);
      tasks, results, blacklist, jobs := rows, found, list, recounted.jobs;
      assert Db() == SubmitPost(s, agent, j, probes);
      return Ok(());
    }

    /** The result loop, on rows that are committed only if every result is accepted. */
    method AbsorbResults(agent: AgentId, j: JobId, job: Job, probes: seq<Probe>)
      returns (r: Result<(), Failure>, rows: map<TaskId, Task>, found: map<TaskId, Row>, list: map<Key, Entry>)
      requires ResultRows(Db()) && j in jobs && job == jobs[j]
      ensures r.Ok? <==> Acceptable(Db(), agent, j, probes)
      ensures r.Ok? ==> State(now, nextTask, jobs, rows, found, list) == AbsorbAll(Db(), agent, j, probes)
    {
      rows, found, list := tasks, results, blacklist;
      for i := 0 to |probes|
        invariant Acceptable(Db(), agent, j, probes[..i])
        invariant State(now, nextTask, jobs, rows, found, list) == AbsorbAll(Db(), agent, j, probes[..i])
      {
        var p := probes[i];
        NextProbe(Db(), agent, j, probes, i);
        if p.task !in rows || rows[p.task].job != j || rows[p.task].agent != agent || !rows[p.task].status.Leased? {
          r := Err(NotLeased(p.task));
          return;
        }
        var task := rows[p.task];
        if p.ip != task.ip {
          r := Err(WrongTarget(p.task));
          return;
        }
        rows := rows[p.task := task.(status := Done(now))];
        var row := Row(j, agent, task.ip, task.prefix, p.available, p.latency, p.loss, p.errorCode, now);
        found := WriteResult(found, p.task, row);
        list := WriteBlacklist(list, Key(agent, task.ip), Reason(p, job), now, job.blacklistMinutes);
      }
      assert probes[..|probes|] == probes;
      r := Ok(());
    }

    static method WriteResult(found: map<TaskId, Row>, t: TaskId, row: Row) returns (r: map<TaskId, Row>)
      ensures r == Upsert(found, t, row)
    {
      var stored := row;
      if t in found {
        stored := row.(job := found[t].job, agent := found[t].agent, ip := found[t].ip);
      }
      r := found[t := stored];
    }

    static method WriteBlacklist(list: map<Key, Entry>, key: Key, reason: string, now: Time, minutes: int)
      returns (r: map<Key, Entry>)
      ensures r == UpdateBlacklist(list, key, reason, now, minutes)
    {
      if reason != "" {
        var failures := 1;
        if key in list {
          failures := list[key].failures + 1;
        }
        r := list[key := Entry(reason, failures, now, now + minutes * MINUTE)];
      } else {
        r := list - {key};
      }
    }

    method StopScanJob(j: JobId) returns (r: Result<Job, Failure>)
      requires Valid()
      modifies this
      ensures Valid()
      ensures Db() == StopPost(old(Db()), j)
      ensures r.Ok? <==> Stoppable(old(Db()), j)
      ensures r.Ok? ==> j in jobs && r.value == jobs[j] && OpenIn(Db(), j) == {}
    {
      ghost var s := Db();
      StopKeeps(s, j);
      if j !in jobs {
        return Err(UnknownJob);
      }
      if !jobs[j].status.Pending? && !jobs[j].status.Running? {
        return Err(NotStoppable);
      }
      tasks := map t | t in tasks ::
        if tasks[t].job == j && (tasks[t].status.Waiting? || tasks[t].status.Leased?)
        then tasks[t].(status := Cancelled) else tasks[t];
      jobs := jobs[j := jobs[j].(status := Stopped, finishedAt := Some(now))];
      assert Db() == StopPost(s, j);
      StopLeavesNothingOpen(s, j);
      return Ok(jobs[j]);
    }

    /** One agent's recheck transaction. */
    method CreateRecheckJob(j: JobId, agent: AgentId, chosen: seq<Key>, limits: Limits)
      requires Valid() && j !in jobs && chosen != []
      requires DistinctIps(chosen)
      modifies this
      ensures Valid()
      ensures Db() == RecheckPost(old(Db()), j, agent, Addresses(chosen), limits)
      ensures jobs.Keys == old(jobs.Keys) + {j}
    {
      ghost var s := Db();
      RecheckKeeps(s, j, agent, Addresses(chosen), limits);
      RecheckJobs(s, j, agent, Addresses(chosen), limits);
      var rows, next, list := InsertRecheckTargets(j, agent, chosen, now + limits.blacklistMinutes * MINUTE);
      tasks, nextTask, blacklist := rows, next, list;
      jobs := jobs[j := NewJob(limits, |chosen|, now)];
      assert Db() == RecheckPost(s, j, agent, Addresses(chosen), limits);
    }

    method InsertRecheckTargets(j: JobId, agent: AgentId, chosen: seq<Key>, retry: Time)
      returns (rows: map<TaskId, Task>, next: TaskId, list: map<Key, Entry>)
      ensures State(now, next, jobs, rows, results, list) == InsertRechecks(Db(), j, agent, Addresses(chosen), retry)
    {
      ghost var ips := Addresses(chosen);
      rows, next, list := tasks, nextTask, blacklist;
      for i := 0 to |chosen|
        invariant State(now, next, jobs, rows, results, list) == InsertRechecks(Db(), j, agent, ips[..i], retry)
      {
        assert ips[..i + 1][..i] == ips[..i];
        var ip := chosen[i].ip;
        var conflict := exists t :: t in rows && rows[t].job == j && rows[t].agent == agent && rows[t].ip == ip;
        if !conflict {
          rows := rows[next := Task(j, agent, ip, "", Waiting)];
          next := next + 1;
        }
        if Key(agent, ip) in list {
          list := list[Key(agent, ip) := list[Key(agent, ip)].(retryAfter := retry)];
        }
      }
      assert ips[..|chosen|] == ips;
    }

    /** `answer` is the ordered candidate query without its LIMIT, `ids` the fresh job ids. */
    method CreateBlacklistRechecks(settings: Settings, answer: seq<Key>, ids: seq<JobId>) returns (r: RecheckResult)
      requires Valid() && IsAnswer(Db(), settings.dueOnly, answer)
      requires |ids| >= |answer| && FreshFrom(Db(), ids, 0)
      modifies this
      ensures Valid()
      ensures settings.skipIfRunning && (exists j :: j in old(jobs) && IsActiveRecheck(old(jobs)[j])) ==>
                r == RecheckResult(0, 0, true, []) && Db() == old(Db())
      ensures !(settings.skipIfRunning && exists j :: j in old(jobs) && IsActiveRecheck(old(jobs)[j])) ==>
                var picks := RunPicks(settings, answer);
                && |picks| <= |ids|
                && Db() == RecheckAll(old(Db()), picks, ids, RunLimits(settings))
                && r == RecheckResult(|picks|, Selected(picks), Selected(picks) == 0, ids[..|picks|])
                && O.Ran(old(Db()), Db(), settings, answer, ids, picks)
    {
      var sane := Sane(settings);
      if settings.skipIfRunning
        && exists j :: j in jobs && jobs[j].recheck && (jobs[j].status.Pending? || jobs[j].status.Running?) {
        return RecheckResult(0, 0, true, []);
      }
      var rows := RowsRead(sane, answer);
      AnswerPrefix(Db(), settings.dueOnly, answer, rows);
      O.RunIsDone(Db(), settings, settings.dueOnly, answer, ids);
      r := RecheckRows(rows, sane, ids);
    }

    /** Group the rows read and recheck the groups. */
    method RecheckRows(rows: seq<Key>, sane: Settings, ids: seq<JobId>) returns (r: RecheckResult)
      requires Valid() && |ids| >= |rows| && FreshFrom(Db(), ids, 0) && 0.0 < sane.fraction <= 1.0
      requires ByAgent(rows) && forall i, k :: 0 <= i < k < |rows| ==> rows[i] != rows[k]
      modifies this
      ensures Valid()
      ensures var picks := Select(rows, Quota(sane.fraction), sane.maxTargets);
              && |picks| <= |ids|
              && Db() == RecheckAll(old(Db()), picks, ids, LimitsOf(sane))
              && r == RecheckResult(|picks|, Selected(picks), Selected(picks) == 0, ids[..|picks|])
    {
      AgentsAtMostRows(rows);
      var groups, order := GroupRows(rows);
      QuotaRounds(sane.fraction);
      GroupingIsSelection(order, 0, groups, rows, Quota(sane.fraction), sane.maxTargets);
      forall a | a in groups ensures DistinctIps(groups[a]) { RowsOfDistinct(rows, a); }
      r := CreateRecheckJobs(order, groups, Quota(sane.fraction), sane.maxTargets, LimitsOf(sane), ids);
    }

    /** One iteration: the agent's share, if any, becomes a job of its own under the next fresh id. */
    method RecheckShare(agent: AgentId, candidates: seq<Key>, share: int, limits: Limits, ids: seq<JobId>, created: nat,
                        ghost start: State, ghost picks: seq<Pick>, ghost more: seq<Pick>)
      returns (next: nat)
      requires created == |picks| < |ids| && share <= |candidates| && DistinctIps(candidates) && PicksOk(picks)
      requires Inv(start) && FreshFrom(start, ids, 0) && Db() == RecheckAll(start, picks, ids, limits)
      requires more == PickOf(agent, candidates, share)
      modifies this
      ensures Db() == RecheckAll(start, picks + more, ids, limits) && PicksOk(picks + more)
      ensures next == |picks + more| <= created + 1 && Selected(picks + more) == Selected(picks) + Max(share, 0)
    {
      assert share <= 0 ==> picks + more == picks;
      next := created;
      if share > 0 {
        var chosen := candidates[..share];
        DistinctPrefix(candidates, share);
        RecheckAllKeeps(start, picks, ids, limits);
        CreateRecheckJob(ids[created], agent, chosen, limits);
        NextPick(start, picks, Pick(agent, chosen), ids, limits);
        next := created + 1;
      }
    }

    /** Where the loop over agents stands: jobs made for `picks`, `rest` still to come. */
    ghost predicate Course(start: State, order: seq<AgentId>, i: nat, groups: map<AgentId, seq<Key>>, quota: nat -> int,
                           remaining: int,
                           limits: Limits, ids: seq<JobId>, created: nat, targets: int, picks: seq<Pick>,
                           rest: seq<Pick>)
      requires forall a :: a in order ==> a in groups
      reads this
    {
      && created == |picks| <= i <= |order| <= |ids| && PicksOk(picks)
      && Db() == RecheckAll(start, picks, ids, limits)
      && rest == PickFrom(order, i, groups, quota, remaining) && targets == Selected(picks)
    }

    method NextAgent(order: seq<AgentId>, i: nat, groups: map<AgentId, seq<Key>>, quota: nat -> int, remaining: int,
                     limits: Limits,
                     ids: seq<JobId>, created: nat, targets: int, ghost start: State, ghost picks: seq<Pick>,
                     ghost rest: seq<Pick>)
      returns (created': nat, targets': int, remaining': int, ghost picks': seq<Pick>, ghost rest': seq<Pick>)
      requires Inv(start) && FreshFrom(start, ids, 0) && i < |order| && remaining > 0
      requires forall a :: a in order ==> a in groups && DistinctIps(groups[a])
      requires Course(start, order, i, groups, quota, remaining, limits, ids, created, targets, picks, rest)
      modifies this
      ensures Course(start, order, i + 1, groups, quota, remaining', limits, ids, created', targets', picks', rest')
      ensures picks' + rest' == picks + rest
    {
      var candidates := groups[order[i]];
      var share := Share(|candidates|, quota, remaining);
      remaining', targets' := remaining - Max(share, 0), targets + Max(share, 0);
      ghost var more;
      more, rest' := NextShare(order, i, groups, quota, remaining, picks, rest, picks + rest, share, remaining');
      created' := RecheckShare(order[i], candidates, share, limits, ids, created, start, picks, more);
      picks' := picks + more;
    }

    /** The loop over agents: take a share of each agent's candidates until the budget is spent. */
    method RecheckAgents(order: seq<AgentId>, groups: map<AgentId, seq<Key>>, quota: nat -> int,
                         maxTargets: int, limits: Limits, ids: seq<JobId>)
      returns (r: RecheckResult)
      requires Inv(Db()) && |ids| >= |order| && FreshFrom(Db(), ids, 0)
      requires forall a :: a in order ==> a in groups && DistinctIps(groups[a])
      modifies this
      ensures var picks := PickFrom(order, 0, groups, quota, maxTargets);
              && |picks| <= |ids| && PicksOk(picks)
              && Db() == RecheckAll(old(Db()), picks, ids, limits)
              && r == RecheckResult(|picks|, Selected(picks), Selected(picks) == 0, ids[..|picks|])
    {
      ghost var all := PickFrom(order, 0, groups, quota, maxTargets);
      ghost var start := Db();
      ghost var picks, rest: seq<Pick> := [], all;
      var created: nat, targets, remaining, i: nat := 0, 0, maxTargets, 0;
      while i < |order| && remaining > 0
        invariant i <= |order|
                  && Course(start, order, i, groups, quota, remaining, limits, ids, created, targets, picks, rest)
        invariant picks + rest == all
        decreases |order| - i
      {
        created, targets, remaining, picks, rest :=
          NextAgent(order, i, groups, quota, remaining, limits, ids, created, targets, start, picks, rest);
        i := i + 1;
      }
      NothingLeft(order, i, groups, quota, remaining);
      assert picks == all;
      r := RecheckResult(created, targets, targets == 0, ids[..created]);
    }

    method CreateRecheckJobs(order: seq<AgentId>, groups: map<AgentId, seq<Key>>, quota: nat -> int,
                             maxTargets: int, limits: Limits, ids: seq<JobId>)
      returns (r: RecheckResult)
      requires Valid() && |ids| >= |order| && FreshFrom(Db(), ids, 0)
      requires forall a :: a in order ==> a in groups && DistinctIps(groups[a])
      modifies this
      ensures Valid()
      ensures var picks := PickFrom(order, 0, groups, quota, maxTargets);
              && |picks| <= |ids|
              && Db() == RecheckAll(old(Db()), picks, ids, limits)
              && r == RecheckResult(|picks|, Selected(picks), Selected(picks) == 0, ids[..|picks|])
    {
      ghost var start := Db();
      r := RecheckAgents(order, groups, quota, maxTargets, limits, ids);
      RecheckAllKeeps(start, PickFrom(order, 0, groups, quota, maxTargets), ids, limits);
    }

    method Wait(to: Time)
      requires Valid() && now <= to
      modifies this
      ensures Valid() && Db() == old(Db()).(now := to)
    {
      TickKeeps(Db(), to);
      now := to;
    }
  }

  lemma AcceptableLast(s: State, agent: AgentId, j: JobId, ps: seq<Probe>)
    requires ps != []
    ensures var front, p := ps[..|ps| - 1], ps[|ps| - 1];
            Acceptable(s, agent, j, ps)
            <==> Acceptable(s, agent, j, front) && Takes(s, agent, j, p) && !Named(front, p.task)
  {
    var n := |ps| - 1;
    var front, p := ps[..n], ps[n];
    if Acceptable(s, agent, j, ps) {
      forall k | 0 <= k < n ensures front[k].task != p.task {
        assert ps[k].task != ps[n].task;
      }
    }
    if Acceptable(s, agent, j, front) && Takes(s, agent, j, p) && !Named(front, p.task) {
      forall i, k | 0 <= i < k < |ps| ensures ps[i].task != ps[k].task {
        if k < n { assert front[i].task != front[k].task; } else { assert front[i].task != p.task; }
      }
    }
  }

  /** The check of one iteration, against the tables as earlier iterations left them. */
  lemma NextProbe(s: State, agent: AgentId, j: JobId, probes: seq<Probe>, i: nat)
    requires ResultRows(s) && j in s.jobs && i < |probes| && Acceptable(s, agent, j, probes[..i])
    ensures probes[..i + 1][..i] == probes[..i]
    ensures Acceptable(s, agent, j, probes[..i + 1]) <==>
              Takes(AbsorbAll(s, agent, j, probes[..i]), agent, j, probes[i])
    ensures Acceptable(s, agent, j, probes[..i + 1]) ==>
              AbsorbAll(s, agent, j, probes[..i + 1])
                == Absorb(AbsorbAll(s, agent, j, probes[..i]), agent, j, probes[i])
    ensures Acceptable(s, agent, j, probes) ==> Acceptable(s, agent, j, probes[..i + 1])
  {
    assert probes[..i + 1][..i] == probes[..i];
    AcceptableLast(s, agent, j, probes[..i + 1]);
    AbsorbAllMeaning(s, agent, j, probes[..i]);
    if Acceptable(s, agent, j, probes) { AcceptablePrefix(s, agent, j, probes, i + 1); }
  }

  lemma AcceptablePrefix(s: State, agent: AgentId, j: JobId, ps: seq<Probe>, n: nat)
    requires n <= |ps| && Acceptable(s, agent, j, ps)
    ensures Acceptable(s, agent, j, ps[..n])
  {
  }
}
