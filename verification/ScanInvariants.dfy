/** The invariant of the scan tables and its preservation by every transaction. */
module ScanInvariants {
  import opened Wrappers
  import opened Cardinality
  import opened ScanState

  ghost predicate TaskRows(s: State) {
    forall t :: t in s.tasks ==> t < s.nextTask && s.tasks[t].job in s.jobs
  }

  ghost predicate Clash(s: State, t: TaskId, u: TaskId) {
    && t in s.tasks && u in s.tasks
    && s.tasks[t].job == s.tasks[u].job && s.tasks[t].agent == s.tasks[u].agent && s.tasks[t].ip == s.tasks[u].ip
  }

  /** One task per (job, agent, ip). */
  ghost predicate UniqueTasks(s: State) {
    forall t, u :: Clash(s, t, u) ==> t == u
  }

  /** Rows whose identifying columns stay put stay unique. */
  lemma StillUnique(s: State, u: State)
    requires UniqueTasks(s)
    requires forall t: TaskId | t in u.tasks ::
               t in s.tasks && u.tasks[t] == s.tasks[t].(status := u.tasks[t].status)
    ensures UniqueTasks(u)
  {
    forall t, v | Clash(u, t, v) ensures t == v {
      assert Clash(s, t, v);
    }
  }

  /** Exactly the completed tasks have a result, and it carries their job, agent and address. */
  ghost predicate ResultRows(s: State) {
    && (forall t :: t in s.results <==> t in s.tasks && s.tasks[t].status.Done?)
    && (forall t :: t in s.results && t in s.tasks ==>
          s.results[t].job == s.tasks[t].job && s.results[t].agent == s.tasks[t].agent
          && s.results[t].ip == s.tasks[t].ip && s.results[t].prefix == s.tasks[t].prefix)
  }

  ghost predicate Counters(s: State, j: JobId)
    requires j in s.jobs
  {
    var job := s.jobs[j];
    && 1 <= job.total == |TasksIn(s, j)|
    && job.completed == |DoneIn(s, j)|
    && job.success == |GoodIn(s, j)|
    && job.failed == |BadIn(s, j)|
  }

  ghost predicate StatusAgrees(s: State, j: JobId)
    requires j in s.jobs
  {
    var job := s.jobs[j];
    && (!job.status.Stopped? ==> (job.status.Completed? <==> job.completed == job.total))
    && (job.status.Completed? || job.status.Stopped? ==> OpenIn(s, j) == {})
    && (!job.status.Stopped? ==> forall t :: t in s.tasks && s.tasks[t].job == j ==> !s.tasks[t].status.Cancelled?)
    && (job.finishedAt.Some? <==> job.status.Completed? || job.status.Stopped?)
  }

  ghost predicate Inv(s: State) {
    && TaskRows(s) && UniqueTasks(s) && ResultRows(s)
    && forall j {:trigger JobOk(s, j)} :: j in s.jobs ==> JobOk(s, j)
  }

  // ---- Counts -------------------------------------------------------------------------

  /** Good and bad results split the completed tasks of a job, so the counters add up. */
  lemma GoodPlusBad(s: State, j: JobId)
    requires j in s.jobs && ResultRows(s)
    ensures |GoodIn(s, j)| + |BadIn(s, j)| == |DoneIn(s, j)|
  {
    assert GoodIn(s, j) !! BadIn(s, j);
    assert GoodIn(s, j) + BadIn(s, j) == DoneIn(s, j);
  }

  /** The reported counters of every job agree with the rows, in both spellings of "failed". */
  lemma CountersAgree(s: State, j: JobId)
    requires Inv(s) && j in s.jobs
    ensures s.jobs[j].total == |TasksIn(s, j)|
    ensures s.jobs[j].completed == |set t | t in s.results && s.results[t].job == j|
    ensures s.jobs[j].success + s.jobs[j].failed == s.jobs[j].completed <= s.jobs[j].total
  {
    assert JobOk(s, j);
    GoodPlusBad(s, j);
    assert (set t | t in s.results && s.results[t].job == j) == DoneIn(s, j);
    SubsetSize(DoneIn(s, j), TasksIn(s, j));
  }

  // ---- Frames -----------------------------------------------------------------------

  ghost predicate JobOk(s: State, j: JobId) {
    j in s.jobs && Counters(s, j) && StatusAgrees(s, j)
  }

  /** Two states agree on everything the counters of job `k` look at. */
  ghost predicate Alike(s: State, u: State, k: JobId) {
    && (forall t: TaskId :: (t in s.tasks && s.tasks[t].job == k) <==> (t in u.tasks && u.tasks[t].job == k))
    && (forall t: TaskId | t in s.tasks && t in u.tasks && s.tasks[t].job == k ::
          && (u.tasks[t].status.Done? <==> s.tasks[t].status.Done?)
          && (u.tasks[t].status.Cancelled? <==> s.tasks[t].status.Cancelled?))
    && (forall t: TaskId | t in s.tasks && s.tasks[t].job == k ::
          (t in u.results <==> t in s.results) && (t in s.results && t in u.results ==> u.results[t] == s.results[t]))
  }

  lemma AlikeSets(s: State, u: State, k: JobId)
    requires Alike(s, u, k)
    ensures TasksIn(s, k) == TasksIn(u, k) && DoneIn(s, k) == DoneIn(u, k) && OpenIn(s, k) == OpenIn(u, k)
    ensures k in s.jobs && k in u.jobs && s.jobs[k].maxLatency == u.jobs[k].maxLatency
            && s.jobs[k].maxLoss == u.jobs[k].maxLoss
            ==> GoodIn(s, k) == GoodIn(u, k) && BadIn(s, k) == BadIn(u, k)
  {
  }

  /** A job whose rows a transaction leaves alone, or merely starts, keeps its part of the invariant. */
  lemma AlikeKeeps(s: State, u: State, k: JobId)
    requires JobOk(s, k) && k in u.jobs && Alike(s, u, k)
    requires u.jobs[k] == s.jobs[k]
             || ((s.jobs[k].status.Pending? || s.jobs[k].status.Running?)
                 && u.jobs[k] == s.jobs[k].(status := Running, startedAt := u.jobs[k].startedAt))
    ensures JobOk(u, k)
  {
    AlikeSets(s, u, k);
  }

  /** The whole invariant, when every job but `j` is left alone and `j` is dealt with separately. */
  lemma OthersKeep(s: State, u: State, j: JobId)
    requires forall k {:trigger JobOk(s, k)} :: k in s.jobs ==> JobOk(s, k)
    requires forall k {:trigger Alike(s, u, k)} ::
               k in u.jobs && k != j ==> k in s.jobs && u.jobs[k] == s.jobs[k] && Alike(s, u, k)
    ensures forall k {:trigger JobOk(u, k)} :: k in u.jobs && k != j ==> JobOk(u, k)
  {
    forall k | k in u.jobs && k != j ensures JobOk(u, k) {
      assert Alike(s, u, k);
      assert JobOk(s, k);
      AlikeKeeps(s, u, k);
    }
  }

  // ---- Creation ---------------------------------------------------------------------

  /** While a new job is being filled: old rows untouched, new rows waiting, ids consecutive. */
  ghost predicate Filling(s: State, u: State, j: JobId) {
    && u.now == s.now && u.jobs == s.jobs && u.results == s.results && u.nextTask >= s.nextTask
    && (forall t: TaskId :: t in u.tasks <==> t in s.tasks || s.nextTask <= t < u.nextTask)
    && (forall t: TaskId :: t in s.tasks ==> u.tasks[t] == s.tasks[t])
    && (forall t: TaskId :: s.nextTask <= t < u.nextTask ==> u.tasks[t].job == j && u.tasks[t].status.Waiting?)
    && UniqueTasks(u)
  }

  lemma InsertTaskFills(s: State, u: State, j: JobId, agent: AgentId, ip: Ip, prefix: string)
    requires TaskRows(s) && Filling(s, u, j)
    ensures Filling(s, InsertTask(u, j, agent, ip, prefix), j)
  {
    var n := InsertTask(u, j, agent, ip, prefix);
    forall t, v | Clash(n, t, v) ensures t == v {
      if t in u.tasks && v in u.tasks { assert Clash(u, t, v); }
    }
  }

  lemma {:induction false} InsertTargetsFills(s: State, u: State, j: JobId, agent: AgentId, targets: seq<Target>,
                                              inc: bool)
    requires TaskRows(s) && Filling(s, u, j)
    ensures Filling(s, InsertTargets(u, j, agent, targets, inc), j)
    ensures InsertTargets(u, j, agent, targets, inc).blacklist == u.blacklist
  {
    if targets == [] {
    } else {
      var front, last := targets[..|targets| - 1], targets[|targets| - 1];
      InsertTargetsFills(s, u, j, agent, front, inc);
      if last.ip.Some? {
        InsertTaskFills(s, InsertTargets(u, j, agent, front, inc), j, agent, last.ip.value, last.prefix);
      }
    }
  }

  lemma {:induction false} InsertSetsFills(s: State, j: JobId, sets: seq<AgentTargets>, inc: bool)
    requires TaskRows(s) && UniqueTasks(s) && Addressed(sets)
    ensures Filling(s, InsertSets(s, j, sets, inc), j)
    ensures InsertSets(s, j, sets, inc).blacklist == s.blacklist
  {
    if sets == [] {
    } else {
      var front, last := sets[..|sets| - 1], sets[|sets| - 1];
      InsertSetsFills(s, j, front, inc);
      InsertTargetsFills(s, InsertSets(s, j, front, inc), j, last.agent.value, last.targets, inc);
    }
  }

  /** The new tasks of a recheck job, one for each address in turn. */
  ghost predicate FilledWith(s: State, u: State, agent: AgentId, ips: seq<Ip>) {
    && u.nextTask == s.nextTask + |ips|
    && forall t: TaskId :: s.nextTask <= t < u.nextTask ==>
         t in u.tasks && u.tasks[t].agent == agent && u.tasks[t].ip == ips[t - s.nextTask]
  }

  lemma FilledWithNext(s: State, u: State, v: State, agent: AgentId, ips: seq<Ip>)
    requires ips != [] && FilledWith(s, u, agent, ips[..|ips| - 1]) && v.nextTask == u.nextTask + 1
    requires forall t :: t in u.tasks && t < u.nextTask ==> t in v.tasks && v.tasks[t] == u.tasks[t]
    requires u.nextTask in v.tasks && v.tasks[u.nextTask].agent == agent && v.tasks[u.nextTask].ip == ips[|ips| - 1]
    ensures FilledWith(s, v, agent, ips)
  {
  }

  lemma {:induction false} InsertRechecksFills(s: State, j: JobId, agent: AgentId, ips: seq<Ip>, retry: Time)
    requires TaskRows(s) && UniqueTasks(s) && j !in s.jobs
    requires forall a, b :: 0 <= a < b < |ips| ==> ips[a] != ips[b]
    ensures Filling(s, InsertRechecks(s, j, agent, ips, retry), j)
    ensures FilledWith(s, InsertRechecks(s, j, agent, ips, retry), agent, ips)
  {
    if ips == [] {
    } else {
      var front, ip := ips[..|ips| - 1], ips[|ips| - 1];
      InsertRechecksFills(s, j, agent, front, retry);
      var before := InsertRechecks(s, j, agent, front, retry);
      assert !Taken(before, j, agent, ip);
      InsertTaskFills(s, before, j, agent, ip, "");
      StillUnique(InsertTask(before, j, agent, ip, ""), InsertRechecks(s, j, agent, ips, retry));
      FilledWithNext(s, before, InsertRechecks(s, j, agent, ips, retry), agent, ips);
    }
  }

  /** A freshly filled job satisfies the invariant and leaves every other job as it was. */
  lemma NewJobKeeps(s: State, filled: State, j: JobId, limits: Limits)
    requires Inv(s) && j !in s.jobs && Filling(s, filled, j) && filled.nextTask > s.nextTask
    ensures Inv(filled.(jobs := filled.jobs[j := NewJob(limits, filled.nextTask - s.nextTask, s.now)]))
  {
    var u := filled.(jobs := filled.jobs[j := NewJob(limits, filled.nextTask - s.nextTask, s.now)]);
    StillUnique(filled, u);
    OthersKeep(s, u, j);
    FilledJob(s, u, j, limits);
  }

  lemma FilledJob(s: State, u: State, j: JobId, limits: Limits)
    requires TaskRows(s) && j !in s.jobs && ResultRows(s) && u.results == s.results && u.nextTask > s.nextTask
    requires forall t: TaskId :: t in u.tasks <==> t in s.tasks || s.nextTask <= t < u.nextTask
    requires forall t: TaskId :: t in s.tasks ==> u.tasks[t] == s.tasks[t]
    requires forall t: TaskId :: s.nextTask <= t < u.nextTask ==> u.tasks[t].job == j && u.tasks[t].status.Waiting?
    requires j in u.jobs && u.jobs[j] == NewJob(limits, u.nextTask - s.nextTask, s.now)
    ensures JobOk(u, j)
  {
    RangeSize(s.nextTask, u.nextTask, TasksIn(u, j));
    assert DoneIn(u, j) == {};
    assert GoodIn(u, j) == {};
    assert BadIn(u, j) == {};
  }

  lemma CreateKeeps(s: State, j: JobId, limits: Limits, sets: seq<AgentTargets>, inc: bool)
    requires Inv(s) && j !in s.jobs
    ensures Inv(CreatePost(s, j, limits, sets, inc))
  {
    if Creates(s, j, sets, inc) {
      InsertSetsFills(s, j, sets, inc);
      NewJobKeeps(s, InsertSets(s, j, sets, inc), j, limits);
    }
  }

  lemma RecheckKeeps(s: State, j: JobId, agent: AgentId, ips: seq<Ip>, limits: Limits)
    requires Inv(s) && j !in s.jobs && ips != []
    requires forall a, b :: 0 <= a < b < |ips| ==> ips[a] != ips[b]
    ensures Inv(RecheckPost(s, j, agent, ips, limits))
  {
    var retry := s.now + limits.blacklistMinutes * MINUTE;
    InsertRechecksFills(s, j, agent, ips, retry);
    NewJobKeeps(s, InsertRechecks(s, j, agent, ips, retry), j, limits);
  }

  // ---- Claiming ---------------------------------------------------------------------

  /** Candidates are the eligible ids, each once, in increasing order. */
  lemma {:induction false} CandidatesMeaning(s: State, j: JobId, agent: AgentId, busy: set<TaskId>, n: nat)
    ensures var c := Candidates(s, j, agent, busy, n);
            && (forall t: TaskId :: t in c <==> t < n && WaitsFor(s, t, j, agent) && t !in busy)
            && (forall a, b :: 0 <= a < b < |c| ==> c[a] < c[b])
  {
    if n == 0 {
    } else {
      CandidatesMeaning(s, j, agent, busy, n - 1);
      var c := Candidates(s, j, agent, busy, n - 1);
      assert forall a :: 0 <= a < |c| ==> c[a] in c;
      if WaitsFor(s, n - 1, j, agent) && n - 1 !in busy {
        assert Candidates(s, j, agent, busy, n) == c + [n - 1];
      } else {
        assert Candidates(s, j, agent, busy, n) == c;
      }
    }
  }

  /** What a claim hands out: distinct tasks of one job, prepared for the claiming agent, that were
      waiting or whose lease had run out; and nothing eligible with a smaller id is passed over. */
  lemma GrantedMeaning(s: State, agent: AgentId, limit: int, busy: set<TaskId>, j: JobId)
    requires TaskRows(s)
    ensures var ids := Granted(s, agent, limit, busy, j);
            && |ids| <= Clamp(limit)
            && (forall a, b :: 0 <= a < b < |ids| ==> ids[a] < ids[b])
            && (forall t | t in ids ::
                  t in s.tasks && s.tasks[t].job == j && s.tasks[t].agent == agent && t !in busy
                  && (s.tasks[t].status.Waiting? || Expired(s.tasks[t], agent, s.now)))
            && (forall t: TaskId ::
                  t in s.tasks && t !in ids && t !in busy && WaitsFor(Expire(s, agent), t, j, agent) ==>
                  |ids| == Clamp(limit) && forall u :: u in ids ==> u < t)
  {
    var e := Expire(s, agent);
    CandidatesMeaning(e, j, agent, busy, e.nextTask);
    var c := Candidates(e, j, agent, busy, e.nextTask);
    var ids := Granted(s, agent, limit, busy, j);
    assert forall t | t in ids :: t in c;
    forall t | t in s.tasks && t !in ids && t !in busy && WaitsFor(e, t, j, agent)
      ensures |ids| == Clamp(limit) && forall u :: u in ids ==> u < t
    {
      assert t in c;
      var i :| 0 <= i < |c| && c[i] == t;
      assert i >= |ids| by {
        assert forall x :: 0 <= x < |ids| ==> c[x] in ids;
      }
    }
  }

  lemma GrantedOpen(s: State, agent: AgentId, limit: int, busy: set<TaskId>, j: JobId)
    requires TaskRows(s)
    ensures forall t: TaskId | t in Granted(s, agent, limit, busy, j) :: t in s.tasks && Open(s.tasks[t])
  {
    GrantedMeaning(s, agent, limit, busy, j);
  }

  lemma ClaimKeeps(s: State, agent: AgentId, limit: int, busy: set<TaskId>, j: JobId)
    requires Inv(s) && j in s.jobs && (s.jobs[j].status.Pending? || s.jobs[j].status.Running?)
    ensures Inv(ClaimPost(s, agent, limit, busy, j))
  {
    var ids := Granted(s, agent, limit, busy, j);
    if ids != [] {
      GrantedOpen(s, agent, limit, busy, j);
      var u := ClaimPost(s, agent, limit, busy, j);
      LeasingKeepsRows(s, agent, ids);
      StillUnique(s, u);
      LeasingAlike(s, u);
      assert JobOk(s, j);
      OthersKeep(s, u, j);
      AlikeKeeps(s, u, j);
    }
  }

  lemma LeasingAlike(s: State, u: State)
    requires u.results == s.results && u.tasks.Keys == s.tasks.Keys
    requires forall t: TaskId | t in s.tasks ::
               u.tasks[t] == s.tasks[t].(status := u.tasks[t].status)
               && (u.tasks[t] == s.tasks[t] || (Open(s.tasks[t]) && Open(u.tasks[t])))
    ensures forall k {:trigger Alike(s, u, k)} :: Alike(s, u, k)
    ensures ResultRows(s) ==> ResultRows(u)
  {
  }

  /** Expiring and granting leases moves open tasks between waiting and leased and touches nothing else. */
  lemma LeasingKeepsRows(s: State, agent: AgentId, ids: seq<TaskId>)
    requires forall t: TaskId | t in ids :: t in s.tasks && Open(s.tasks[t])
    ensures var u := LeaseAll(Expire(s, agent), ids);
            && u.tasks.Keys == s.tasks.Keys
            && (forall t: TaskId | t in s.tasks ::
                  u.tasks[t] == s.tasks[t].(status := u.tasks[t].status)
                  && (u.tasks[t] == s.tasks[t] || (Open(s.tasks[t]) && Open(u.tasks[t]))))
  {
  }

  // ---- Submitting -------------------------------------------------------------------

  ghost predicate Named(ps: seq<Probe>, t: TaskId) {
    exists i :: 0 <= i < |ps| && ps[i].task == t
  }

  lemma NamedLast(ps: seq<Probe>, t: TaskId)
    requires ps != []
    ensures Named(ps, t) <==> Named(ps[..|ps| - 1], t) || t == ps[|ps| - 1].task
  {
    var front := ps[..|ps| - 1];
    if Named(ps, t) {
      var i :| 0 <= i < |ps| && ps[i].task == t;
      assert i < |front| ==> front[i].task == t;
    }
    if Named(front, t) {
      var i :| 0 <= i < |front| && front[i].task == t;
      assert ps[i].task == t;
    }
  }

  /** The tables after an accepted batch, row by row: exactly the named tasks are completed and the named
      tasks, none of which had a result (so no conflict branch), are the only ones to gain one. */
  ghost predicate Absorbed(s: State, u: State, ps: seq<Probe>) {
    && u.tasks.Keys == s.tasks.Keys
    && (forall t: TaskId | t in s.tasks && t in u.tasks ::
          u.tasks[t] == if Named(ps, t) then s.tasks[t].(status := Done(s.now)) else s.tasks[t])
    && (forall t: TaskId :: t in u.results <==> t in s.results || Named(ps, t))
    && (forall t: TaskId | t in s.results :: !Named(ps, t) && t in u.results && u.results[t] == s.results[t])
  }

  lemma {:induction false} AbsorbAllMeaning(s: State, agent: AgentId, j: JobId, ps: seq<Probe>)
    requires j in s.jobs && ResultRows(s) && Acceptable(s, agent, j, ps)
    ensures Absorbed(s, AbsorbAll(s, agent, j, ps), ps)
  {
    if ps == [] {
    } else {
      var front, p := ps[..|ps| - 1], ps[|ps| - 1];
      AbsorbAllMeaning(s, agent, j, front);
      assert Takes(s, agent, j, p);
      forall t: TaskId ensures Named(ps, t) <==> Named(front, t) || t == p.task {
        NamedLast(ps, t);
      }
    }
  }

  lemma LastIsStored(s: State, agent: AgentId, j: JobId, ps: seq<Probe>)
    requires j in s.jobs && ResultRows(s) && Acceptable(s, agent, j, ps) && ps != []
    ensures var front, p := ps[..|ps| - 1], ps[|ps| - 1];
            var before, after := AbsorbAll(s, agent, j, front), AbsorbAll(s, agent, j, ps);
            && p.task in s.tasks && p.task in after.results && after.results[p.task] == RowOf(s, agent, j, p)
            && forall t :: t in before.results && t != p.task ==>
                 t in after.results && after.results[t] == before.results[t]
  {
    var front, p := ps[..|ps| - 1], ps[|ps| - 1];
    AbsorbAllMeaning(s, agent, j, front);
    assert Takes(s, agent, j, p);
    assert !Named(front, p.task);
  }

  /** Every result of an accepted batch is stored as reported, with the prefix of its task. */
  lemma {:induction false} StoredAsReported(s: State, agent: AgentId, j: JobId, ps: seq<Probe>, i: nat)
    requires j in s.jobs && ResultRows(s) && Acceptable(s, agent, j, ps) && i < |ps|
    ensures ps[i].task in s.tasks && ps[i].task in AbsorbAll(s, agent, j, ps).results
    ensures AbsorbAll(s, agent, j, ps).results[ps[i].task] == RowOf(s, agent, j, ps[i])
  {
    LastIsStored(s, agent, j, ps);
    if i == |ps| - 1 {
    } else {
      StoredAsReported(s, agent, j, ps[..|ps| - 1], i);
    }
  }

  lemma AbsorbedKeepsRows(s: State, agent: AgentId, j: JobId, ps: seq<Probe>)
    requires j in s.jobs && ResultRows(s) && Acceptable(s, agent, j, ps)
    ensures ResultRows(AbsorbAll(s, agent, j, ps))
  {
    AbsorbAllMeaning(s, agent, j, ps);
    var u := AbsorbAll(s, agent, j, ps);
    forall t | t in u.results
      ensures t in u.tasks && u.results[t].job == u.tasks[t].job && u.results[t].agent == u.tasks[t].agent
              && u.results[t].ip == u.tasks[t].ip && u.results[t].prefix == u.tasks[t].prefix
    {
      if Named(ps, t) {
        var i :| 0 <= i < |ps| && ps[i].task == t;
        StoredAsReported(s, agent, j, ps, i);
      }
    }
  }

  /** Every accepted result: the blacklist test of the loop and the SQL filters say the same. */
  lemma ReasonIsFailed(s: State, agent: AgentId, j: JobId, p: Probe)
    requires j in s.jobs && p.task in s.tasks
    ensures Reason(p, s.jobs[j]) != "" <==> Failed(RowOf(s, agent, j, p), s.jobs[j])
    ensures Failed(RowOf(s, agent, j, p), s.jobs[j]) <==> !Succeeded(RowOf(s, agent, j, p), s.jobs[j])
  {
  }

  lemma SubmitKeeps(s: State, agent: AgentId, j: JobId, ps: seq<Probe>)
    requires Inv(s)
    ensures Inv(SubmitPost(s, agent, j, ps))
  {
    if Outcome(s, agent, j, ps).Accepted? {
      assert JobOk(s, j);
      AbsorbAllMeaning(s, agent, j, ps);
      AbsorbedKeepsRows(s, agent, j, ps);
      var a := AbsorbAll(s, agent, j, ps);
      AbsorbedJobs(s, a, j, ps);
      StillUnique(s, a);
      StillUnique(a, Recount(a, j));
      OthersKeep(s, Recount(a, j), j);
      RecountOk(a, j);
    }
  }

  lemma AbsorbedJobs(s: State, a: State, j: JobId, ps: seq<Probe>)
    requires JobOk(s, j) && j in a.jobs && !s.jobs[j].status.Stopped? && a.jobs[j] == s.jobs[j]
    requires Absorbed(s, a, ps) && forall i :: 0 <= i < |ps| ==> ps[i].task in s.tasks && s.tasks[ps[i].task].job == j
    ensures 1 <= a.jobs[j].total == |TasksIn(a, j)|
    ensures forall t: TaskId :: t in a.tasks && a.tasks[t].job == j ==> !a.tasks[t].status.Cancelled?
    ensures forall k {:trigger Alike(s, Recount(a, j), k)} :: k != j ==> Alike(s, Recount(a, j), k)
  {
    assert TasksIn(a, j) == TasksIn(s, j);
    assert forall t: TaskId :: Named(ps, t) ==> s.tasks[t].job == j;
  }

  /** Recounting establishes a job's part of the invariant from the rows alone. */
  lemma RecountOk(a: State, j: JobId)
    requires j in a.jobs && ResultRows(a) && 1 <= a.jobs[j].total == |TasksIn(a, j)|
    requires forall t: TaskId :: t in a.tasks && a.tasks[t].job == j ==> !a.tasks[t].status.Cancelled?
    ensures JobOk(Recount(a, j), j)
  {
    var u := Recount(a, j);
    AlikeSets(a, u, j);
    SubsetSize(DoneIn(a, j), TasksIn(a, j));
    assert forall t :: t in OpenIn(a, j) ==> t in TasksIn(a, j) && t !in DoneIn(a, j);
  }

  // ---- Stopping ---------------------------------------------------------------------

  lemma StopKeeps(s: State, j: JobId)
    requires Inv(s)
    ensures Inv(StopPost(s, j))
  {
    if Stoppable(s, j) {
      var u := StopPost(s, j);
      OthersKeep(s, u, j);
      StillUnique(s, u);
      StoppedOk(s, u, j);
    }
  }

  lemma StopLeavesNothingOpen(s: State, j: JobId)
    requires Stoppable(s, j)
    ensures OpenIn(StopPost(s, j), j) == {}
  {
  }

  lemma StoppedOk(s: State, u: State, j: JobId)
    requires JobOk(s, j) && u == StopPost(s, j) && Stoppable(s, j) && ResultRows(s)
    ensures JobOk(u, j)
  {
    assert TasksIn(u, j) == TasksIn(s, j);
    assert DoneIn(u, j) == DoneIn(s, j);
    assert GoodIn(u, j) == GoodIn(s, j);
    assert BadIn(u, j) == BadIn(s, j);
  }

  lemma TickKeeps(s: State, to: Time)
    requires Inv(s)
    ensures Inv(s.(now := to))
  {
    var u := s.(now := to);
    StillUnique(s, u);
    forall k | k in s.jobs ensures JobOk(u, k) {
      assert JobOk(s, k);
      AlikeKeeps(s, u, k);
    }
  }
}
