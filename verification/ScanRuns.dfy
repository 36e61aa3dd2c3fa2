/** Whole histories of the scan tables: any interleaving of transactions from any number of agents,
    schedulers and administrators, with time passing in between. */
module ScanRuns {
  import opened Wrappers
  import opened ScanState
  import opened ScanInvariants

  datatype Event =
    | Create(job: JobId, limits: Limits, sets: seq<AgentTargets>, includeBlocked: bool)
    | Recheck(job: JobId, agent: AgentId, ips: seq<Ip>, limits: Limits)
    | Claim(agent: AgentId, limit: int, busyJobs: set<JobId>, busyTasks: set<TaskId>, job: JobId)
    | Submit(agent: AgentId, job: JobId, probes: seq<Probe>)
    | Stop(job: JobId)
    | Tick(to: Time)

  /** What the database guarantees about a transaction: job ids are fresh, a recheck names each
      blacklisted address once, a claim selected the oldest claimable job nobody else holds. */
  ghost predicate Enabled(s: State, e: Event) {
    match e
    case Create(j, _, _, _) => j !in s.jobs
    case Recheck(j, _, ips, _) => j !in s.jobs && ips != [] && forall a, b :: 0 <= a < b < |ips| ==> ips[a] != ips[b]
    case Claim(agent, _, busyJobs, _, j) => Selects(Expire(s, agent), agent, busyJobs, j)
    case Submit(_, _, _) => true
    case Stop(_) => true
    case Tick(to) => s.now <= to
  }

  ghost function Post(s: State, e: Event): State
    requires Enabled(s, e)
  {
    match e
    case Create(j, limits, sets, inc) => CreatePost(s, j, limits, sets, inc)
    case Recheck(j, agent, ips, limits) => RecheckPost(s, j, agent, ips, limits)
    case Claim(agent, limit, _, busyTasks, j) => ClaimPost(s, agent, limit, busyTasks, j)
    case Submit(agent, j, ps) => SubmitPost(s, agent, j, ps)
    case Stop(j) => StopPost(s, j)
    case Tick(to) => s.(now := to)
  }

  ghost predicate Empty(s: State) {
    s.jobs == map[] && s.tasks == map[] && s.results == map[] && s.blacklist == map[]
  }

  ghost predicate IsRun(states: seq<State>, events: seq<Event>) {
    && |states| == |events| + 1
    && Empty(states[0])
    && forall i :: 0 <= i < |events| ==> Enabled(states[i], events[i]) && states[i + 1] == Post(states[i], events[i])
  }

  // ---- The invariant over runs -------------------------------------------------------

  lemma StepKeeps(s: State, e: Event)
    requires Inv(s) && Enabled(s, e)
    ensures Inv(Post(s, e))
  {
    match e
    case Create(j, limits, sets, inc) => CreateKeeps(s, j, limits, sets, inc);
    case Recheck(j, agent, ips, limits) => RecheckKeeps(s, j, agent, ips, limits);
    case Claim(agent, limit, _, busyTasks, j) => ClaimKeeps(s, agent, limit, busyTasks, j);
    case Submit(agent, j, ps) => SubmitKeeps(s, agent, j, ps);
    case Stop(j) => StopKeeps(s, j);
    case Tick(to) => TickKeeps(s, to);
  }

  lemma {:induction false} InvAlways(states: seq<State>, events: seq<Event>, i: nat)
    requires IsRun(states, events) && i < |states|
    ensures Inv(states[i])
  {
    if i == 0 {
    } else {
      InvAlways(states, events, i - 1);
      StepKeeps(states[i - 1], events[i - 1]);
    }
  }

  /** In every reachable state the stored counters and status of each job agree with its rows. */
  lemma CountersAlways(states: seq<State>, events: seq<Event>, i: nat, j: JobId)
    requires IsRun(states, events) && i < |states| && j in states[i].jobs
    ensures var s, job := states[i], states[i].jobs[j];
            && job.total == |TasksIn(s, j)| && job.completed == |DoneIn(s, j)|
            && job.completed == |set t | t in s.results && s.results[t].job == j|
            && job.success + job.failed == job.completed <= job.total
            && (!job.status.Stopped? ==> (job.status.Completed? <==> job.completed == job.total))
            && (job.status.Completed? || job.status.Stopped? ==> OpenIn(s, j) == {})
  {
    InvAlways(states, events, i);
    assert JobOk(states[i], j);
    CountersAgree(states[i], j);
  }

  // ---- One step, one task ------------------------------------------------------------

  predicate Granting(s: State, e: Event, t: TaskId) {
    e.Claim? && t in Granted(s, e.agent, e.limit, e.busyTasks, e.job)
  }

  ghost predicate Completing(s: State, e: Event, t: TaskId) {
    e.Submit? && Outcome(s, e.agent, e.job, e.probes).Accepted? && Named(e.probes, t)
  }

  /** A claim of the task's agent that commits and finds the task's lease run out. */
  predicate Expiring(s: State, e: Event, t: TaskId)
    requires t in s.tasks
  {
    && e.Claim? && Expired(s.tasks[t], e.agent, s.now)
    && Granted(s, e.agent, e.limit, e.busyTasks, e.job) != []
  }

  /** Exactly what one transaction does to the status of an existing task. */
  ghost predicate StatusStep(s: State, e: Event, u: State, t: TaskId)
    requires t in s.tasks && t in u.tasks
  {
    var before, after := s.tasks[t].status, u.tasks[t].status;
    if Completing(s, e, t) then
      before.Leased? && after == Done(s.now) && e.agent == s.tasks[t].agent && e.job == s.tasks[t].job
    else if Granting(s, e, t) then
      && (before.Waiting? || (before.Leased? && before.until < s.now))
      && after == Leased(s.now + LEASE) && e.agent == s.tasks[t].agent && e.job == s.tasks[t].job
    else if Expiring(s, e, t) then after == Waiting
    else if e.Stop? && e.job == s.tasks[t].job && Open(s.tasks[t]) then after == Cancelled
    else after == before
  }

  lemma TaskStep(s: State, e: Event, t: TaskId)
    requires Inv(s) && Enabled(s, e) && t in s.tasks
    ensures t in Post(s, e).tasks
    ensures Post(s, e).tasks[t] == s.tasks[t].(status := Post(s, e).tasks[t].status)
    ensures StatusStep(s, e, Post(s, e), t)
  {
    match e
    case Create(j, limits, sets, inc) => if Creates(s, j, sets, inc) { InsertSetsFills(s, j, sets, inc); }
    case Recheck(j, agent, ips, limits) =>
      InsertRechecksFills(s, j, agent, ips, s.now + limits.blacklistMinutes * MINUTE);
    case Claim(agent, limit, busyJobs, busyTasks, j) => ClaimTaskStep(s, agent, limit, busyJobs, busyTasks, j, t);
    case Submit(agent, j, ps) => SubmitTaskStep(s, agent, j, ps, t);
    case Stop(j) => if s.tasks[t].job == j && Open(s.tasks[t]) { OpenIsStoppable(s, t); }
    case Tick(to) =>
  }

  lemma OpenIsStoppable(s: State, t: TaskId)
    requires Inv(s) && t in s.tasks && Open(s.tasks[t])
    ensures Stoppable(s, s.tasks[t].job)
  {
    assert JobOk(s, s.tasks[t].job);
    assert t in OpenIn(s, s.tasks[t].job);
  }

  lemma ClaimTaskStep(s: State, agent: AgentId, limit: int, busyJobs: set<JobId>, busyTasks: set<TaskId>, j: JobId,
                      t: TaskId)
    requires Inv(s) && t in s.tasks && Enabled(s, Claim(agent, limit, busyJobs, busyTasks, j))
    ensures var e := Claim(agent, limit, busyJobs, busyTasks, j);
            t in Post(s, e).tasks && Post(s, e).tasks[t] == s.tasks[t].(status := Post(s, e).tasks[t].status)
              && StatusStep(s, e, Post(s, e), t)
  {
    GrantedMeaning(s, agent, limit, busyTasks, j);
  }

  /** A submission either completes the task, which was leased to the submitter, or leaves it alone. */
  lemma SubmitTaskStep(s: State, agent: AgentId, j: JobId, ps: seq<Probe>, t: TaskId)
    requires Inv(s) && t in s.tasks
    ensures var u := SubmitPost(s, agent, j, ps);
            t in u.tasks
            && if Outcome(s, agent, j, ps).Accepted? && Named(ps, t)
               then u.tasks[t] == s.tasks[t].(status := Done(s.now)) && s.tasks[t].status.Leased?
                 && s.tasks[t].agent == agent && s.tasks[t].job == j
               else u.tasks[t] == s.tasks[t]
  {
    if Outcome(s, agent, j, ps).Accepted? {
      AbsorbAllMeaning(s, agent, j, ps);
      if Named(ps, t) {
        var i :| 0 <= i < |ps| && ps[i].task == t;
        assert Takes(s, agent, j, ps[i]);
      }
    }
  }

  lemma NowStep(s: State, e: Event)
    requires Inv(s) && Enabled(s, e)
    ensures s.now <= Post(s, e).now
  {
    match e
    case Create(j, limits, sets, inc) => if Creates(s, j, sets, inc) { InsertSetsFills(s, j, sets, inc); }
    case Recheck(j, agent, ips, limits) =>
      InsertRechecksFills(s, j, agent, ips, s.now + limits.blacklistMinutes * MINUTE);
    case _ =>
  }

  // ---- Leases ------------------------------------------------------------------------

  /** What a grant made at time `since` leaves behind until the lease has run out. */
  ghost predicate Held(s: State, t: TaskId, since: Time) {
    && t in s.tasks
    && match s.tasks[t].status
       case Leased(until) => until >= since + LEASE
       case Waiting => s.now > since + LEASE
       case Done(_) => true
       case Cancelled => true
  }

  lemma {:induction false} StaysHeld(states: seq<State>, events: seq<Event>, i: nat, k: nat, t: TaskId)
    requires IsRun(states, events) && i < k < |states| && Granting(states[i], events[i], t)
    ensures Held(states[k], t, states[i].now)
    ensures states[i].now <= states[k].now
  {
    if k == i + 1 {
      InvAlways(states, events, i);
      GrantedMeaning(states[i], events[i].agent, events[i].limit, events[i].busyTasks, events[i].job);
      TaskStep(states[i], events[i], t);
      NowStep(states[i], events[i]);
      GrantIsNotSubmit(states[i], events[i], t);
    } else {
      StaysHeld(states, events, i, k - 1, t);
      InvAlways(states, events, k - 1);
      TaskStep(states[k - 1], events[k - 1], t);
      NowStep(states[k - 1], events[k - 1]);
    }
  }

  lemma GrantIsNotSubmit(s: State, e: Event, t: TaskId)
    requires Granting(s, e, t)
    ensures !Completing(s, e, t)
  {
  }

  /** A claim grants only tasks prepared for the claiming agent, from one pending or running job, each once
      and at most 512 of them (32 when no limit is given); all become leased for three minutes. */
  lemma GrantIsSafe(s: State, e: Event, t: TaskId)
    requires Inv(s) && Enabled(s, e) && Granting(s, e, t)
    ensures t in s.tasks && s.tasks[t].agent == e.agent && s.tasks[t].job == e.job && e.job in s.jobs
    ensures s.jobs[e.job].status.Pending? || s.jobs[e.job].status.Running?
    ensures Post(s, e).tasks[t].status == Leased(s.now + LEASE) && Post(s, e).jobs[e.job].status.Running?
    ensures var ids := Granted(s, e.agent, e.limit, e.busyTasks, e.job);
            |ids| <= Clamp(e.limit) && forall a, b :: 0 <= a < b < |ids| ==> ids[a] != ids[b]
  {
    GrantedMeaning(s, e.agent, e.limit, e.busyTasks, e.job);
    TaskStep(s, e, t);
    GrantIsNotSubmit(s, e, t);
  }

  /** Two grants of one task are more than three minutes apart, and it was not completed in between. */
  lemma LeaseExclusive(states: seq<State>, events: seq<Event>, i: nat, k: nat, t: TaskId)
    requires IsRun(states, events) && i < k < |events|
    requires Granting(states[i], events[i], t) && Granting(states[k], events[k], t)
    ensures states[k].now > states[i].now + LEASE
    ensures forall m :: i < m <= k ==> t in states[m].tasks && Open(states[m].tasks[t])
  {
    StaysHeld(states, events, i, k, t);
    InvAlways(states, events, k);
    GrantedMeaning(states[k], events[k].agent, events[k].limit, events[k].busyTasks, events[k].job);
    forall m | i < m <= k ensures t in states[m].tasks && Open(states[m].tasks[t]) {
      StaysHeld(states, events, i, m, t);
      if !Open(states[m].tasks[t]) {
        Absorbing(states, events, m, k, t);
      }
    }
  }

  /** The lease granted at time `since` ends: the job is stopped, the task completed, or a claim of its agent
      commits after the lease has run out. */
  ghost predicate Ends(s: State, e: Event, t: TaskId, since: Time)
    requires t in s.tasks
  {
    || (e.Stop? && e.job == s.tasks[t].job)
    || Completing(s, e, t)
    || (e.Claim? && e.agent == s.tasks[t].agent && s.now > since + LEASE
        && Granted(s, e.agent, e.limit, e.busyTasks, e.job) != [])
  }

  /** The task was granted by event `g`, and none of the events after it up to state `k` ends the lease. */
  ghost predicate HeldSince(states: seq<State>, events: seq<Event>, g: nat, k: nat, t: TaskId)
    requires |states| == |events| + 1
  {
    && g < k < |states| && Granting(states[g], events[g], t)
    && forall m :: g < m < k ==> t in states[m].tasks && !Ends(states[m], events[m], t, states[g].now)
  }

  lemma {:induction false} HeldIsLeased(states: seq<State>, events: seq<Event>, g: nat, k: nat, t: TaskId)
    requires IsRun(states, events) && HeldSince(states, events, g, k, t)
    ensures t in states[k].tasks && states[k].tasks[t].status == Leased(states[g].now + LEASE)
  {
    InvAlways(states, events, k - 1);
    if g == k - 1 {
      GrantIsSafe(states[g], events[g], t);
    } else {
      assert HeldSince(states, events, g, k - 1, t);
      HeldIsLeased(states, events, g, k - 1, t);
      LeaseStep(states[k - 1], events[k - 1], t, states[g].now);
    }
  }

  /** One event that is no new grant of a leased task ends the lease or leaves it as it is. */
  lemma LeaseStep(s: State, e: Event, t: TaskId, since: Time)
    requires Inv(s) && Enabled(s, e) && t in s.tasks && s.tasks[t].status == Leased(since + LEASE)
    ensures t in Post(s, e).tasks
    ensures !Ends(s, e, t, since) ==> Post(s, e).tasks[t].status == Leased(since + LEASE)
    ensures Ends(s, e, t, since) && !Granting(s, e, t) ==> !Post(s, e).tasks[t].status.Leased?
  {
    TaskStep(s, e, t);
  }

  lemma LeasedBefore(s: State, e: Event, t: TaskId)
    requires Inv(s) && Enabled(s, e) && t in Post(s, e).tasks && Post(s, e).tasks[t].status.Leased?
             && !Granting(s, e, t)
    ensures t in s.tasks && s.tasks[t].status.Leased?
  {
    NewTasksWait(s, e, t);
    TaskStep(s, e, t);
  }

  ghost predicate LeasedAt(states: seq<State>, k: nat, t: TaskId) {
    k < |states| && t in states[k].tasks && states[k].tasks[t].status.Leased?
  }

  /** A lease that is no new grant was there one event earlier. */
  lemma LeasedEarlier(states: seq<State>, events: seq<Event>, k: nat, t: TaskId)
    requires IsRun(states, events) && k < |events| && LeasedAt(states, k + 1, t) && !Granting(states[k], events[k], t)
    ensures LeasedAt(states, k, t)
  {
    InvAlways(states, events, k);
    LeasedBefore(states[k], events[k], t);
  }

  lemma HeldLonger(states: seq<State>, events: seq<Event>, g: nat, k: nat, t: TaskId)
    requires IsRun(states, events) && k < |events| && LeasedAt(states, k + 1, t) && !Granting(states[k], events[k], t)
    requires HeldSince(states, events, g, k, t)
    ensures HeldSince(states, events, g, k + 1, t)
  {
    InvAlways(states, events, k);
    HeldIsLeased(states, events, g, k, t);
    LeaseStep(states[k], events[k], t, states[g].now);
  }

  /** A task that is leased now was granted once, and nothing has ended that lease since. */
  lemma {:induction false} LeasedIsHeld(states: seq<State>, events: seq<Event>, k: nat, t: TaskId) returns (g: nat)
    requires IsRun(states, events) && LeasedAt(states, k, t)
    ensures HeldSince(states, events, g, k, t)
  {
    if Granting(states[k - 1], events[k - 1], t) {
      g := k - 1;
    } else {
      LeasedEarlier(states, events, k - 1, t);
      g := LeasedIsHeld(states, events, k - 1, t);
      HeldLonger(states, events, g, k - 1, t);
    }
  }

  lemma NewTasksWait(s: State, e: Event, t: TaskId)
    requires Inv(s) && Enabled(s, e) && t in Post(s, e).tasks
    ensures t !in s.tasks ==> Post(s, e).tasks[t].status.Waiting?
  {
    match e
    case Create(j, limits, sets, inc) => if Creates(s, j, sets, inc) { InsertSetsFills(s, j, sets, inc); }
    case Recheck(j, agent, ips, limits) =>
      InsertRechecksFills(s, j, agent, ips, s.now + limits.blacklistMinutes * MINUTE);
    case Claim(agent, limit, _, busyTasks, j) =>
    case Submit(agent, j, ps) => if Outcome(s, agent, j, ps).Accepted? { AbsorbAllMeaning(s, agent, j, ps); }
    case Stop(j) =>
    case Tick(to) =>
  }

  /** In every reachable state a task is leased exactly if some grant of it is still held. */
  lemma LeasedIff(states: seq<State>, events: seq<Event>, k: nat, t: TaskId)
    requires IsRun(states, events) && k < |states|
    ensures LeasedAt(states, k, t) <==> exists g :: HeldSince(states, events, g, k, t)
  {
    if LeasedAt(states, k, t) {
      var g := LeasedIsHeld(states, events, k, t);
    }
    if g :| HeldSince(states, events, g, k, t) {
      HeldIsLeased(states, events, g, k, t);
    }
  }

  /** Job, agent, address and prefix of a task never change. */
  lemma {:induction false} TasksStay(states: seq<State>, events: seq<Event>, i: nat, k: nat, t: TaskId)
    requires IsRun(states, events) && i <= k < |states| && t in states[i].tasks
    ensures t in states[k].tasks && states[k].tasks[t] == states[i].tasks[t].(status := states[k].tasks[t].status)
  {
    if i == k {
    } else {
      TasksStay(states, events, i, k - 1, t);
      InvAlways(states, events, k - 1);
      TaskStep(states[k - 1], events[k - 1], t);
    }
  }

  // ---- At most once ------------------------------------------------------------------

  /** Completed and cancelled are final. */
  lemma {:induction false} Absorbing(states: seq<State>, events: seq<Event>, i: nat, k: nat, t: TaskId)
    requires IsRun(states, events) && i <= k < |states|
    requires t in states[i].tasks && (states[i].tasks[t].status.Done? || states[i].tasks[t].status.Cancelled?)
    ensures t in states[k].tasks && states[k].tasks[t] == states[i].tasks[t]
  {
    if i == k {
    } else {
      Absorbing(states, events, i, k - 1, t);
      InvAlways(states, events, k - 1);
      TaskStep(states[k - 1], events[k - 1], t);
    }
  }

  /** No task is accepted twice, whoever resubmits it and whenever. */
  lemma AcceptedAtMostOnce(states: seq<State>, events: seq<Event>, i: nat, k: nat, t: TaskId)
    requires IsRun(states, events) && i < |events| && k < |events|
    requires Completing(states[i], events[i], t) && Completing(states[k], events[k], t)
    ensures i == k
  {
    if i < k { NotAcceptedAgain(states, events, i, k, t); }
    if k < i { NotAcceptedAgain(states, events, k, i, t); }
  }

  lemma NotAcceptedAgain(states: seq<State>, events: seq<Event>, i: nat, k: nat, t: TaskId)
    requires IsRun(states, events) && i < k < |events| && Completing(states[i], events[i], t)
    ensures !Completing(states[k], events[k], t)
  {
    InvAlways(states, events, i);
    InvAlways(states, events, k);
    assert t in states[i].tasks by {
      var p :| 0 <= p < |events[i].probes| && events[i].probes[p].task == t;
      assert Takes(states[i], events[i].agent, events[i].job, events[i].probes[p]);
    }
    TaskStep(states[i], events[i], t);
    Absorbing(states, events, i + 1, k, t);
    if Completing(states[k], events[k], t) {
      TaskStep(states[k], events[k], t);
    }
  }

  /** Resending any part of an accepted batch, at any later time and by anybody, changes no table. */
  lemma ReplayChangesNothing(states: seq<State>, events: seq<Event>, i: nat, k: nat, t: TaskId)
    requires IsRun(states, events) && i < k < |events| && Completing(states[i], events[i], t)
    requires events[k].Submit? && Named(events[k].probes, t)
    ensures states[k + 1] == states[k]
  {
    NotAcceptedAgain(states, events, i, k, t);
  }

  /** The answer to such a batch: an error, unless the job it names has been stopped by then, in which case
      it is confirmed without effect. */
  lemma ReplayAnswer(states: seq<State>, events: seq<Event>, i: nat, k: nat, t: TaskId)
    requires IsRun(states, events) && i < k < |events| && Completing(states[i], events[i], t)
    requires events[k].Submit? && Named(events[k].probes, t)
    ensures var s, e := states[k], events[k];
            var stopped := e.job in s.jobs && s.jobs[e.job].status.Stopped?;
            (Outcome(s, e.agent, e.job, e.probes).Refused? <==> !stopped)
              && (Outcome(s, e.agent, e.job, e.probes).Ignored? <==> stopped)
  {
    NotAcceptedAgain(states, events, i, k, t);
  }

  /** A batch that repeats a task, names one task that is not leased to the sender in that job, reports
      a wrong address, or goes to a stopped or unknown job leaves every table as it was. */
  lemma AllOrNothing(s: State, agent: AgentId, j: JobId, ps: seq<Probe>, a: nat, b: nat)
    requires a < |ps| && b < |ps|
    requires (a != b && ps[a].task == ps[b].task) || !Takes(s, agent, j, ps[a]) || j !in s.jobs
             || s.jobs[j].status.Stopped?
    ensures SubmitPost(s, agent, j, ps) == s
  {
    if a < b { assert ps[a].task != ps[b].task || !Acceptable(s, agent, j, ps); }
    if b < a { assert ps[b].task != ps[a].task || !Acceptable(s, agent, j, ps); }
  }

  /** An empty batch for a completed job: it is accepted and counted afresh. */
  predicate Renews(s: State, e: Event, j: JobId) {
    e.Submit? && e.job == j && e.probes == [] && j in s.jobs && s.jobs[j].status.Completed?
  }

  /** A completed or stopped job never changes again, except that empty batches for a completed job renew its
      finish time. */
  lemma {:induction false} FinishedJobsStay(states: seq<State>, events: seq<Event>, i: nat, k: nat, j: JobId)
    requires IsRun(states, events) && i <= k < |states|
    requires j in states[i].jobs && (states[i].jobs[j].status.Completed? || states[i].jobs[j].status.Stopped?)
    ensures j in states[k].jobs && states[k].jobs[j] == states[i].jobs[j].(finishedAt := states[k].jobs[j].finishedAt)
    ensures (forall m :: i <= m < k ==> !Renews(states[m], events[m], j)) ==> states[k].jobs[j] == states[i].jobs[j]
  {
    if i == k {
    } else {
      FinishedJobsStay(states, events, i, k - 1, j);
      InvAlways(states, events, k - 1);
      FinishedStep(states[k - 1], events[k - 1], j);
    }
  }

  lemma OtherCreated(s: State, k: JobId, limits: Limits, sets: seq<AgentTargets>, inc: bool, j: JobId)
    requires Inv(s) && k !in s.jobs && j in s.jobs
    ensures j in CreatePost(s, k, limits, sets, inc).jobs && CreatePost(s, k, limits, sets, inc).jobs[j] == s.jobs[j]
  {
    if Creates(s, k, sets, inc) { InsertSetsFills(s, k, sets, inc); }
  }

  /** What one transaction does to a finished job, exactly: an empty batch for a completed job sets its finish
      time to now, everything else leaves it alone. */
  lemma FinishedStep(s: State, e: Event, j: JobId)
    requires Inv(s) && Enabled(s, e) && j in s.jobs && (s.jobs[j].status.Completed? || s.jobs[j].status.Stopped?)
    ensures j in Post(s, e).jobs
    ensures Post(s, e).jobs[j] == if Renews(s, e, j) then s.jobs[j].(finishedAt := Some(s.now)) else s.jobs[j]
  {
    match e
    case Create(k, limits, sets, inc) => OtherCreated(s, k, limits, sets, inc, j);
    case Recheck(k, agent, ips, limits) =>
      InsertRechecksFills(s, k, agent, ips, s.now + limits.blacklistMinutes * MINUTE);
    case Claim(agent, limit, _, busyTasks, k) =>
    case Submit(agent, k, ps) => FinishedSubmit(s, agent, k, ps, j);
    case Stop(k) =>
    case Tick(to) =>
  }

  /** A finished job has no leased task, so no probe fits it. */
  lemma FinishedTakesNothing(s: State, agent: AgentId, ps: seq<Probe>, j: JobId)
    requires Inv(s) && j in s.jobs && (s.jobs[j].status.Completed? || s.jobs[j].status.Stopped?) && ps != []
    ensures !Acceptable(s, agent, j, ps)
  {
    assert JobOk(s, j);
    assert ps[0].task !in OpenIn(s, j);
    assert !Takes(s, agent, j, ps[0]);
  }

  lemma FinishedSubmit(s: State, agent: AgentId, k: JobId, ps: seq<Probe>, j: JobId)
    requires Inv(s) && j in s.jobs && (s.jobs[j].status.Completed? || s.jobs[j].status.Stopped?)
    ensures j in SubmitPost(s, agent, k, ps).jobs
    ensures SubmitPost(s, agent, k, ps).jobs[j]
         == if Renews(s, Submit(agent, k, ps), j) then s.jobs[j].(finishedAt := Some(s.now)) else s.jobs[j]
  {
    assert JobOk(s, j);
    if k == j {
      if ps == [] && s.jobs[j].status.Completed? {
        EmptyBatch(s, agent, j);
      } else if ps != [] {
        FinishedTakesNothing(s, agent, ps, j);
      }
    }
  }

  lemma EmptyBatch(s: State, agent: AgentId, j: JobId)
    requires Inv(s) && j in s.jobs && s.jobs[j].status.Completed?
    ensures SubmitPost(s, agent, j, []).jobs[j] == s.jobs[j].(finishedAt := Some(s.now))
  {
    assert JobOk(s, j);
    assert TasksIn(s, j) != {};
  }
}
