/** What each transaction does to the tables, row by row and in the figures of the source. */
module ScanEffects {
  import opened Wrappers
  import opened ScanState
  import opened ScanInvariants
  import opened ScanRuns
  import opened ScanCreation

  // ---- Creating -------------------------------------------------------------------------

  /** A job as it starts, with the limits it was created with. */
  predicate IsNew(job: Job, limits: Limits, total: nat, now: Time) {
    && job.recheck == limits.recheck && job.status.Pending?
    && job.maxLatency == limits.maxLatency && job.maxLoss == limits.maxLoss
    && job.blacklistMinutes == limits.blacklistMinutes
    && job.total == total && job.completed == 0 && job.success == 0 && job.failed == 0
    && job.createdAt == now && job.startedAt.None? && job.finishedAt.None?
  }

  /** The tables differ by new waiting tasks of `j` and the job itself. */
  ghost predicate Adds(s: State, u: State, j: JobId) {
    && u.now == s.now && u.results == s.results
    && (forall k :: k != j ==> (k in u.jobs <==> k in s.jobs) && (k in s.jobs ==> u.jobs[k] == s.jobs[k]))
    && (forall t :: t in s.tasks ==> t in u.tasks && u.tasks[t] == s.tasks[t])
    && (forall t :: t in u.tasks && t !in s.tasks ==>
          t >= s.nextTask && u.tasks[t].job == j && u.tasks[t].status == Waiting)
  }

  /** Creation asks for at least one set, and an agent in each, and at least one target that is admitted. The
      new tasks are the requested and admitted pairs, each with the prefix of the first target that names it. */
  lemma CreateStores(s: State, j: JobId, limits: Limits, sets: seq<AgentTargets>, inc: bool)
    requires Inv(s) && j !in s.jobs
    ensures var u := CreatePost(s, j, limits, sets, inc);
            var some := exists a, x :: Requested(s, sets, inc, a, x);
            && (j in u.jobs <==> (forall i :: 0 <= i < |sets| ==> sets[i].agent.Some?) && some)
            && (j !in u.jobs ==> u == s)
            && (j in u.jobs ==>
                  && Adds(s, u, j) && u.blacklist == s.blacklist && IsNew(u.jobs[j], limits, |TasksIn(u, j)|, s.now)
                  && (forall a, x :: Requested(s, sets, inc, a, x) <==>
                        exists t :: t in u.tasks && t !in s.tasks && u.tasks[t].agent == a && u.tasks[t].ip == x)
                  && (forall t :: t in u.tasks && t !in s.tasks ==> HasFirstPrefix(sets, u.tasks[t])))
  {
    var u := CreatePost(s, j, limits, sets, inc);
    assert Addressed(sets) <==> forall i :: 0 <= i < |sets| ==> sets[i].agent.Some?;
    if Addressed(sets) && exists a, x :: Requested(s, sets, inc, a, x) {
      var a, x :| Requested(s, sets, inc, a, x);
      RequestedCreates(s, j, sets, inc, a, x);
    }
    if Creates(s, j, sets, inc) {
      CreatedRows(s, j, limits, sets, inc);
    }
  }

  ghost predicate HasFirstPrefix(sets: seq<AgentTargets>, task: Task) {
    exists i: nat, k: nat :: ListsFirst(sets, i, k, task.agent, task.ip) && task.prefix == sets[i].targets[k].prefix
  }

  lemma CreatedRows(s: State, j: JobId, limits: Limits, sets: seq<AgentTargets>, inc: bool)
    requires Inv(s) && j !in s.jobs && Creates(s, j, sets, inc)
    ensures var u := CreatePost(s, j, limits, sets, inc);
            && j in u.jobs && Adds(s, u, j) && u.blacklist == s.blacklist
            && IsNew(u.jobs[j], limits, |TasksIn(u, j)|, s.now)
            && (forall a, x :: Requested(s, sets, inc, a, x) <==>
                  exists t :: t in u.tasks && t !in s.tasks && u.tasks[t].agent == a && u.tasks[t].ip == x)
            && (exists a, x :: Requested(s, sets, inc, a, x))
            && (forall t :: t in u.tasks && t !in s.tasks ==> HasFirstPrefix(sets, u.tasks[t]))
  {
    var u, filled := CreatePost(s, j, limits, sets, inc), InsertSets(s, j, sets, inc);
    InsertSetsFills(s, j, sets, inc);
    CreateKeeps(s, j, limits, sets, inc);
    assert JobOk(u, j);
    forall a, x ensures Requested(s, sets, inc, a, x) <==>
                          exists t :: t in u.tasks && t !in s.tasks && u.tasks[t].agent == a && u.tasks[t].ip == x
    {
      CreatedTasks(s, j, limits, sets, inc, a, x);
      if Taken(u, j, a, x) {
        var t :| t in u.tasks && u.tasks[t].job == j && u.tasks[t].agent == a && u.tasks[t].ip == x;
        assert t !in s.tasks;
      }
    }
    forall t | t in u.tasks && t !in s.tasks ensures HasFirstPrefix(sets, u.tasks[t]) {
      var i, k := SetsPrefix(s, j, sets, inc, t);
    }
    assert s.nextTask in u.tasks && s.nextTask !in s.tasks;
    assert Requested(s, sets, inc, u.tasks[s.nextTask].agent, u.tasks[s.nextTask].ip);
  }

  /** A recheck job has one waiting task for each address, of this agent and without a prefix, in order. */
  lemma RecheckAdds(s: State, j: JobId, agent: AgentId, ips: seq<Ip>, limits: Limits)
    requires Inv(s) && Enabled(s, Recheck(j, agent, ips, limits))
    ensures var u := RecheckPost(s, j, agent, ips, limits);
            && j in u.jobs && Adds(s, u, j) && IsNew(u.jobs[j], limits, |ips|, s.now)
            && u.nextTask == s.nextTask + |ips|
            && (forall t: TaskId :: t in u.tasks && t !in s.tasks <==> s.nextTask <= t < u.nextTask)
            && forall i :: 0 <= i < |ips| ==> RecheckRow(s, u, j, agent, ips, i)
  {
    var retry := s.now + limits.blacklistMinutes * MINUTE;
    InsertRechecksFills(s, j, agent, ips, retry);
    RecheckRows(s, j, agent, ips, retry);
    forall i | 0 <= i < |ips| ensures RecheckRow(s, RecheckPost(s, j, agent, ips, limits), j, agent, ips, i) {
      assert RecheckRow(s, InsertRechecks(s, j, agent, ips, retry), j, agent, ips, i);
    }
  }

  lemma RecheckRows(s: State, j: JobId, agent: AgentId, ips: seq<Ip>, retry: Time)
    requires TaskRows(s)
    requires Filling(s, InsertRechecks(s, j, agent, ips, retry), j)
    requires FilledWith(s, InsertRechecks(s, j, agent, ips, retry), agent, ips)
    ensures forall i :: 0 <= i < |ips| ==> RecheckRow(s, InsertRechecks(s, j, agent, ips, retry), j, agent, ips, i)
  {
    RechecksPrefix(s, j, agent, ips, retry);
    var filled := InsertRechecks(s, j, agent, ips, retry);
    forall i | 0 <= i < |ips| ensures RecheckRow(s, filled, j, agent, ips, i) {
      var t: TaskId := s.nextTask + i;
      assert t in filled.tasks && filled.tasks[t].ip == ips[t - s.nextTask];
    }
  }

  predicate RecheckRow(s: State, u: State, j: JobId, agent: AgentId, ips: seq<Ip>, i: nat)
    requires i < |ips|
  {
    s.nextTask + i in u.tasks && u.tasks[s.nextTask + i] == Task(j, agent, ips[i], "", Waiting)
  }

  /** Of the blacklist only the retry times of the rechecked addresses move, by the job's minutes from now. */
  lemma RecheckPostpones(s: State, j: JobId, agent: AgentId, ips: seq<Ip>, limits: Limits)
    ensures var list := RecheckPost(s, j, agent, ips, limits).blacklist;
            && list.Keys == s.blacklist.Keys
            && forall key :: key in s.blacklist ==>
                 list[key] == if key.agent == agent && key.ip in ips
                              then s.blacklist[key].(retryAfter := s.now + 60_000_000 * limits.blacklistMinutes)
                              else s.blacklist[key]
  {
    PostponesOnly(s, j, agent, ips, s.now + limits.blacklistMinutes * MINUTE);
  }

  lemma {:induction false} RechecksPrefix(s: State, j: JobId, agent: AgentId, ips: seq<Ip>, retry: Time)
    requires TaskRows(s)
    ensures var u := InsertRechecks(s, j, agent, ips, retry);
            forall t :: t in u.tasks && t !in s.tasks ==> u.tasks[t].prefix == ""
  {
    if ips == [] {
    } else {
      RechecksPrefix(s, j, agent, ips[..|ips| - 1], retry);
    }
  }

  lemma {:induction false} PostponesOnly(s: State, j: JobId, agent: AgentId, ips: seq<Ip>, retry: Time)
    ensures var u := InsertRechecks(s, j, agent, ips, retry);
            && u.blacklist.Keys == s.blacklist.Keys
            && forall key :: key in s.blacklist ==>
                 u.blacklist[key] == if key.agent == agent && key.ip in ips then s.blacklist[key].(retryAfter := retry)
                                     else s.blacklist[key]
  {
    if ips == [] {
    } else {
      var front, ip := ips[..|ips| - 1], ips[|ips| - 1];
      PostponesOnly(s, j, agent, front, retry);
      assert forall x :: x in ips <==> x in front || x == ip;
    }
  }

  // ---- Claiming -------------------------------------------------------------------------

  /** The agent's own task of this job, not locked, that waits or whose lease is over. */
  predicate IsFree(s: State, t: TaskId, agent: AgentId, j: JobId) {
    && t in s.tasks && s.tasks[t].job == j && s.tasks[t].agent == agent
    && (s.tasks[t].status.Waiting? || (s.tasks[t].status.Leased? && s.tasks[t].status.until < s.now))
  }

  ghost predicate HasFree(s: State, agent: AgentId, j: JobId) {
    && j in s.jobs && (s.jobs[j].status.Pending? || s.jobs[j].status.Running?)
    && exists t :: IsFree(s, t, agent, j)
  }

  /** A grant is the free, unlocked tasks of the job with the lowest ids, as many as asked for, 32 if no number
      is given and never more than 512. */
  lemma GrantsExactly(s: State, agent: AgentId, limit: int, busy: set<TaskId>, j: JobId)
    requires Inv(s)
    ensures var ids := Granted(s, agent, limit, busy, j);
            var n := if limit <= 0 then 32 else if limit > 512 then 512 else limit;
            && (forall a, b :: 0 <= a < b < |ids| ==> ids[a] < ids[b])
            && (forall t | t in ids :: IsFree(s, t, agent, j) && t !in busy)
            && (forall t | IsFree(s, t, agent, j) && t !in busy && t !in ids ::
                  |ids| == n && forall x :: x in ids ==> x < t)
            && |ids| <= n
  {
    GrantedMeaning(s, agent, limit, busy, j);
    forall t | IsFree(s, t, agent, j) && t !in busy && t !in Granted(s, agent, limit, busy, j)
      ensures WaitsFor(Expire(s, agent), t, j, agent)
    {
    }
  }

  /** The job served is one with free tasks for the agent that nobody holds, and none of those is older; every
      such job may be served. */
  lemma ClaimIsFair(s: State, agent: AgentId, limit: int, busyJobs: set<JobId>, busy: set<TaskId>, j: JobId)
    ensures Enabled(s, Claim(agent, limit, busyJobs, busy, j)) <==>
              && HasFree(s, agent, j) && j !in busyJobs
              && forall k :: HasFree(s, agent, k) && k !in busyJobs ==> s.jobs[j].createdAt <= s.jobs[k].createdAt
  {
    forall k ensures HasFree(s, agent, k) <==> Claimable(Expire(s, agent), k, agent) {
      FreeIsClaimable(s, agent, k);
    }
  }

  lemma FreeIsClaimable(s: State, agent: AgentId, k: JobId)
    ensures HasFree(s, agent, k) <==> Claimable(Expire(s, agent), k, agent)
  {
    var e := Expire(s, agent);
    if HasFree(s, agent, k) {
      var t :| IsFree(s, t, agent, k);
      assert WaitsFor(e, t, k, agent);
    }
    if Claimable(e, k, agent) {
      var t :| t in e.tasks && WaitsFor(e, t, k, agent);
      assert IsFree(s, t, agent, k);
    }
  }

  ghost function OlderJobs(s: State, k: JobId): set<JobId>
    requires k in s.jobs
  {
    set i | i in s.jobs && s.jobs[i].createdAt < s.jobs[k].createdAt
  }

  /** If any job has free tasks for the agent and is held by nobody, a claim finds a job to serve. */
  lemma {:induction false} ClaimFindsWork(s: State, agent: AgentId, limit: int, busyJobs: set<JobId>,
                                          busy: set<TaskId>, k: JobId)
    returns (j: JobId)
    requires HasFree(s, agent, k) && k !in busyJobs
    ensures Enabled(s, Claim(agent, limit, busyJobs, busy, j))
    decreases OlderJobs(s, k)
  {
    ClaimIsFair(s, agent, limit, busyJobs, busy, k);
    if i :| HasFree(s, agent, i) && i !in busyJobs && s.jobs[i].createdAt < s.jobs[k].createdAt {
      assert i in OlderJobs(s, k) - OlderJobs(s, i);
      j := ClaimFindsWork(s, agent, limit, busyJobs, busy, i);
    } else {
      j := k;
    }
  }

  /** A claim that grants something leases it for three minutes and takes back every lease of the agent that is
      over; the job runs from its first grant. When nothing is granted, nothing changes. */
  lemma ClaimStores(s: State, agent: AgentId, limit: int, busy: set<TaskId>, j: JobId)
    requires Inv(s) && j in s.jobs
    ensures var u, ids := ClaimPost(s, agent, limit, busy, j), Granted(s, agent, limit, busy, j);
            && (ids == [] ==> u == s)
            && (ids != [] ==>
                  && u == s.(tasks := u.tasks, jobs := u.jobs) && u.tasks.Keys == s.tasks.Keys
                  && (forall t :: t in s.tasks ==>
                        u.tasks[t] == s.tasks[t].(status := StatusAfterClaim(s, t, agent, ids)))
                  && u.jobs == s.jobs[j := StartedJob(s.jobs[j], s.now)])
  {
  }

  function StartedJob(job: Job, now: Time): Job {
    job.(status := Running, startedAt := if job.startedAt.None? then Some(now) else job.startedAt)
  }

  function StatusAfterClaim(s: State, t: TaskId, agent: AgentId, ids: seq<TaskId>): TaskStatus
    requires t in s.tasks
  {
    if t in ids then Leased(s.now + 180_000_000)
    else if s.tasks[t].agent == agent && s.tasks[t].status.Leased? && s.tasks[t].status.until < s.now then Waiting
    else s.tasks[t].status
  }

  // ---- Submitting and stopping ----------------------------------------------------------

  /** The probe reports on a task of this agent and job that is leased, with the task's own address. */
  predicate IsExpected(s: State, agent: AgentId, j: JobId, p: Probe) {
    && p.task in s.tasks && s.tasks[p.task].job == j && s.tasks[p.task].agent == agent
    && s.tasks[p.task].status.Leased? && s.tasks[p.task].ip == p.ip
  }

  /** A batch is confirmed without effect if its job was stopped, accepted if the job exists and every probe is
      expected and no task is named twice, and refused otherwise. */
  lemma SubmitDecides(s: State, agent: AgentId, j: JobId, ps: seq<Probe>)
    ensures var o := Outcome(s, agent, j, ps);
            var stopped := j in s.jobs && s.jobs[j].status.Stopped?;
            var expected := (forall i :: 0 <= i < |ps| ==> IsExpected(s, agent, j, ps[i]))
                            && forall i, k :: 0 <= i < k < |ps| ==> ps[i].task != ps[k].task;
            && (o.Ignored? <==> stopped) && (o.Accepted? <==> j in s.jobs && !stopped && expected)
            && (!o.Accepted? ==> SubmitPost(s, agent, j, ps) == s)
  {
    assert forall i :: 0 <= i < |ps| ==> (Takes(s, agent, j, ps[i]) <==> IsExpected(s, agent, j, ps[i]));
  }

  predicate IsGood(row: Row, job: Job) {
    row.available && row.loss <= job.maxLoss && row.latency <= job.maxLatency
  }

  /** An accepted batch completes its tasks now and stores each result as reported, under the task's address and
      prefix; all other rows and jobs stay. */
  lemma SubmitStores(s: State, agent: AgentId, j: JobId, ps: seq<Probe>)
    requires Inv(s) && Outcome(s, agent, j, ps).Accepted?
    ensures var u := SubmitPost(s, agent, j, ps);
            && u == s.(tasks := u.tasks, results := u.results, blacklist := u.blacklist, jobs := u.jobs)
            && Absorbed(s, u, ps) && j in u.jobs && u.jobs == s.jobs[j := u.jobs[j]]
            && forall i :: 0 <= i < |ps| ==> ResultRow(s, u, agent, j, ps[i])
  {
    AbsorbAllMeaning(s, agent, j, ps);
    var u := SubmitPost(s, agent, j, ps);
    forall i | 0 <= i < |ps| ensures ResultRow(s, u, agent, j, ps[i]) {
      StoredAsReported(s, agent, j, ps, i);
      assert Takes(s, agent, j, ps[i]);
    }
  }

  predicate ResultRow(s: State, u: State, agent: AgentId, j: JobId, p: Probe) {
    && p.task in s.tasks && p.task in u.results
    && u.results[p.task]
       == Row(j, agent, p.ip, s.tasks[p.task].prefix, p.available, p.latency, p.loss, p.errorCode, s.now)
  }

  predicate IsBad(row: Row, job: Job) {
    !row.available || row.loss > job.maxLoss || row.latency > job.maxLatency
  }

  /** The completed tasks of a job with a good or with a bad result. */
  ghost function Results(s: State, j: JobId, bad: bool): set<TaskId>
    requires j in s.jobs
  {
    set t | t in s.tasks && t in s.results && s.tasks[t].job == j && s.tasks[t].status.Done?
            && IsBad(s.results[t], s.jobs[j]) == bad
  }

  /** In every state the counters of a job count its rows. */
  lemma CountsRows(s: State, j: JobId)
    requires Inv(s) && j in s.jobs
    ensures s.jobs[j].total == |set t | t in s.tasks && s.tasks[t].job == j|
    ensures s.jobs[j].completed == |set t | t in s.tasks && s.tasks[t].job == j && s.tasks[t].status.Done?|
    ensures s.jobs[j].success == |Results(s, j, false)| && s.jobs[j].failed == |Results(s, j, true)|
  {
    assert JobOk(s, j);
    assert GoodIn(s, j) == Results(s, j, false);
    assert BadIn(s, j) == Results(s, j, true);
    assert TasksIn(s, j) == set t | t in s.tasks && s.tasks[t].job == j;
    assert DoneIn(s, j) == set t | t in s.tasks && s.tasks[t].job == j && s.tasks[t].status.Done?;
  }

  /** After an accepted batch the job is completed, with the present as its finish time, if all its tasks are, and
      otherwise running and not finished; its limits and its other times stay. */
  lemma SubmitFinishes(s: State, agent: AgentId, j: JobId, ps: seq<Probe>)
    requires Inv(s) && Outcome(s, agent, j, ps).Accepted?
    ensures var u := SubmitPost(s, agent, j, ps);
            && j in u.jobs
            && u.jobs[j] == s.jobs[j].(completed := u.jobs[j].completed, success := u.jobs[j].success,
                                       failed := u.jobs[j].failed, status := u.jobs[j].status,
                                       finishedAt := u.jobs[j].finishedAt)
            && (u.jobs[j].completed == u.jobs[j].total ==>
                  u.jobs[j].status == Completed && u.jobs[j].finishedAt == Some(s.now))
            && (u.jobs[j].completed < u.jobs[j].total ==>
                  u.jobs[j].status == Running && u.jobs[j].finishedAt == None)
  {
    AbsorbAllMeaning(s, agent, j, ps);
    assert JobOk(s, j);
    RecountFinishes(s, AbsorbAll(s, agent, j, ps), j, ps);
  }

  lemma RecountFinishes(s: State, a: State, j: JobId, ps: seq<Probe>)
    requires JobOk(s, j) && Absorbed(s, a, ps) && j in a.jobs && a.jobs == s.jobs && a.now == s.now
    ensures var job := Recount(a, j).jobs[j];
            && job == s.jobs[j].(completed := job.completed, success := job.success, failed := job.failed,
                                 status := job.status, finishedAt := job.finishedAt)
            && (job.completed == job.total ==> job.status == Completed && job.finishedAt == Some(s.now))
            && (job.completed < job.total ==> job.status == Running && job.finishedAt == None)
  {
    assert TasksIn(a, j) == TasksIn(s, j);
    assert |TasksIn(s, j)| >= 1;
  }

  /** Stopping cancels the open tasks of a job that waits or runs, and finishes it now; any other job cannot be
      stopped, and nothing changes. */
  lemma StopStores(s: State, j: JobId)
    ensures var u := StopPost(s, j);
            var live := j in s.jobs && (s.jobs[j].status.Pending? || s.jobs[j].status.Running?);
            && (live <==> Stoppable(s, j)) && (!live ==> u == s)
            && (live ==>
                  && u == s.(tasks := u.tasks, jobs := u.jobs) && u.tasks.Keys == s.tasks.Keys
                  && (forall t :: t in s.tasks ==>
                        u.tasks[t]
                        == if s.tasks[t].job == j && (s.tasks[t].status.Waiting? || s.tasks[t].status.Leased?)
                           then s.tasks[t].(status := Cancelled) else s.tasks[t])
                  && u.jobs == s.jobs[j := s.jobs[j].(status := Stopped, finishedAt := Some(s.now))])
  {
  }

  // ---- A job over a run -----------------------------------------------------------------

  /** The event hands out tasks of the job. */
  predicate Serves(s: State, e: Event, j: JobId) {
    e.Claim? && e.job == j && Granted(s, e.agent, e.limit, e.busyTasks, j) != []
  }

  /** What never changes about a job. */
  predicate SameJob(a: Job, b: Job) {
    && a.recheck == b.recheck && a.maxLatency == b.maxLatency && a.maxLoss == b.maxLoss
    && a.blacklistMinutes == b.blacklistMinutes && a.total == b.total && a.createdAt == b.createdAt
  }

  lemma JobStep(s: State, e: Event, j: JobId)
    requires Inv(s) && Enabled(s, e) && j in s.jobs
    ensures j in Post(s, e).jobs && SameJob(s.jobs[j], Post(s, e).jobs[j])
    ensures Post(s, e).jobs[j].startedAt
         == if s.jobs[j].startedAt.None? && Serves(s, e, j) then Some(s.now) else s.jobs[j].startedAt
  {
    match e
    case Create(k, limits, sets, inc) => CreateStores(s, k, limits, sets, inc);
    case Recheck(k, agent, ips, limits) => RecheckAdds(s, k, agent, ips, limits);
    case Claim(agent, limit, _, busy, k) => ClaimStores(s, agent, limit, busy, k);
    case Submit(agent, k, ps) =>
      if Outcome(s, agent, k, ps).Accepted? {
        SubmitStores(s, agent, k, ps);
        SubmitFinishes(s, agent, k, ps);
      }
    case Stop(k) => StopStores(s, k);
    case Tick(_) =>
  }

  lemma JobAppears(s: State, e: Event, j: JobId)
    requires Inv(s) && Enabled(s, e) && j !in s.jobs && j in Post(s, e).jobs
    ensures (e.Create? || e.Recheck?) && e.job == j
    ensures IsNew(Post(s, e).jobs[j], e.limits, |TasksIn(Post(s, e), j)|, s.now)
  {
    match e
    case Create(k, limits, sets, inc) => CreateStores(s, k, limits, sets, inc);
    case Recheck(k, agent, ips, limits) =>
      RecheckAdds(s, k, agent, ips, limits);
      RecheckKeeps(s, k, agent, ips, limits);
      assert JobOk(Post(s, e), k);
    case Submit(agent, k, ps) => if Outcome(s, agent, k, ps).Accepted? { SubmitStores(s, agent, k, ps); }
    case _ =>
  }

  /** Every job was made by one event, under the limits given there, which it keeps; it counts as started from the
      first claim that handed out one of its tasks, and not before. */
  lemma {:induction false} JobStory(states: seq<State>, events: seq<Event>, k: nat, j: JobId) returns (i: nat)
    requires IsRun(states, events) && k < |states| && j in states[k].jobs
    ensures i < k && j !in states[i].jobs && (events[i].Create? || events[i].Recheck?) && events[i].job == j
    ensures var job, limits := states[k].jobs[j], events[i].limits;
            && job.recheck == limits.recheck && job.maxLatency == limits.maxLatency && job.maxLoss == limits.maxLoss
            && job.blacklistMinutes == limits.blacklistMinutes && job.createdAt == states[i].now
    ensures states[k].jobs[j].startedAt.None? <==> forall m :: i < m < k ==> !Serves(states[m], events[m], j)
    ensures forall m :: i < m < k && Serves(states[m], events[m], j)
                        && (forall l :: i < l < m ==> !Serves(states[l], events[l], j)) ==>
              states[k].jobs[j].startedAt == Some(states[m].now)
  {
    InvAlways(states, events, k - 1);
    if j in states[k - 1].jobs {
      i := JobStory(states, events, k - 1, j);
      JobStep(states[k - 1], events[k - 1], j);
    } else {
      i := k - 1;
      JobAppears(states[i], events[i], j);
    }
  }
}
