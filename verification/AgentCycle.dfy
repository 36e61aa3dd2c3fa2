/** Claim, probe, submit: the agent's pool composed with the store. */
module AgentCycle {
  import opened Wrappers
  import opened ScanState
  import opened ScanInvariants
  import opened ScanRuns
  import opened Cardinality
  import Pool = AgentPool

  /** The batch a claim hands to the agent. */
  ghost function BatchOf(s: State, e: Event): (r: seq<Pool.Work>)
    requires Inv(s) && Enabled(s, e) && e.Claim?
    ensures |r| == |Granted(s, e.agent, e.limit, e.busyTasks, e.job)|
  {
    GrantedMeaning(s, e.agent, e.limit, e.busyTasks, e.job);
    var ids := Granted(s, e.agent, e.limit, e.busyTasks, e.job);
    assert forall i :: 0 <= i < |ids| ==> ids[i] in ids;
    seq(|ids|, i requires 0 <= i < |ids| => Pool.Work(ids[i], s.tasks[ids[i]].ip))
  }

  /** The submitted probes are the pool's reports, whatever was measured. */
  ghost predicate Sends(ps: seq<Probe>, reports: seq<Pool.Report>) {
    && |ps| == |reports|
    && forall i :: 0 <= i < |ps| ==> ps[i].task == reports[i].task && ps[i].ip == reports[i].ip
  }

  /** Every task of the batch is still held, by the claim that handed it out or by a later one. */
  ghost predicate AllHeld(states: seq<State>, events: seq<Event>, reports: seq<Pool.Report>, k: nat)
    requires |states| == |events| + 1
  {
    forall r :: 0 <= r < |reports| ==> Holding(states, events, reports[r].task, k)
  }

  ghost predicate Holding(states: seq<State>, events: seq<Event>, t: TaskId, k: nat)
    requires |states| == |events| + 1
  {
    exists g :: HeldSince(states, events, g, k, t)
  }

  /** A report names a task of the batch, as it was handed out. */
  lemma ReportedTask(s: State, e: Event, report: Pool.Report)
    requires Inv(s) && Enabled(s, e) && e.Claim?
    requires Pool.Within(report, BatchOf(s, e))
    ensures report.task in s.tasks && s.tasks[report.task].ip == report.ip
    ensures s.tasks[report.task].job == e.job && s.tasks[report.task].agent == e.agent
  {
    var ids := Granted(s, e.agent, e.limit, e.busyTasks, e.job);
    GrantedMeaning(s, e.agent, e.limit, e.busyTasks, e.job);
    assert ids[report.index] in ids;
  }

  lemma ReportsDiffer(s: State, e: Event, reports: seq<Pool.Report>)
    requires Inv(s) && Enabled(s, e) && e.Claim? && Pool.AtMostOneEach(reports, BatchOf(s, e))
    ensures forall a, b :: 0 <= a < b < |reports| ==> reports[a].task != reports[b].task
  {
    var ids := Granted(s, e.agent, e.limit, e.busyTasks, e.job);
    GrantedMeaning(s, e.agent, e.limit, e.busyTasks, e.job);
    forall a, b | 0 <= a < b < |reports| ensures reports[a].task != reports[b].task {
      assert reports[a].index != reports[b].index;
      assert reports[a].task == ids[reports[a].index] && reports[b].task == ids[reports[b].index];
    }
  }

  /** The store takes a probe of the batch exactly while its task is held. */
  lemma TakesIffHeld(states: seq<State>, events: seq<Event>, i: nat, k: nat, p: Probe, report: Pool.Report)
    requires IsRun(states, events) && i < k < |events| && events[i].Claim? && Inv(states[i])
    requires Pool.Within(report, BatchOf(states[i], events[i]))
    requires p.task == report.task && p.ip == report.ip
    ensures Takes(states[k], events[i].agent, events[i].job, p) <==> Holding(states, events, p.task, k)
  {
    ReportedTask(states[i], events[i], report);
    TasksStay(states, events, i, k, p.task);
    LeasedIff(states, events, k, p.task);
  }

  lemma TakenIsOpen(s: State, agent: AgentId, j: JobId, p: Probe)
    requires Inv(s) && Takes(s, agent, j, p)
    ensures Stoppable(s, j)
  {
    OpenIsStoppable(s, p.task);
  }

  /** The results of a batch are accepted exactly if every reported task is still held: its job was not stopped,
      it was not completed, and no claim of the agent committed after its lease had run out, unless a later
      claim handed it out again and that lease is unbroken. */
  lemma BatchAcceptedIff(states: seq<State>, events: seq<Event>, i: nat, k: nat, reports: seq<Pool.Report>)
    requires IsRun(states, events) && i < k < |events| && events[i].Claim? && events[k].Submit?
    requires events[k].agent == events[i].agent && events[k].job == events[i].job && reports != []
    requires Inv(states[i]) && Pool.AtMostOneEach(reports, BatchOf(states[i], events[i]))
    requires Sends(events[k].probes, reports)
    ensures Outcome(states[k], events[k].agent, events[k].job, events[k].probes).Accepted? <==>
              AllHeld(states, events, reports, k)
  {
    var e, u, ps := events[i], states[k], events[k].probes;
    InvAlways(states, events, k);
    forall r | 0 <= r < |ps| ensures Takes(u, e.agent, e.job, ps[r]) <==> Holding(states, events, reports[r].task, k) {
      assert Pool.Within(reports[r], BatchOf(states[i], events[i]));
      TakesIffHeld(states, events, i, k, ps[r], reports[r]);
    }
    ReportsDiffer(states[i], events[i], reports);
    if Takes(u, e.agent, e.job, ps[0]) { TakenIsOpen(u, e.agent, e.job, ps[0]); }
  }

  /** In particular the lease of the claim itself suffices: however long probing takes and whatever the agent
      does, nothing is lost while it does not commit a claim after the three minutes. */
  lemma BatchIsAccepted(states: seq<State>, events: seq<Event>, i: nat, k: nat, reports: seq<Pool.Report>)
    requires IsRun(states, events) && i < k < |events| && events[i].Claim? && events[k].Submit?
    requires events[k].agent == events[i].agent && events[k].job == events[i].job && reports != []
    requires Inv(states[i]) && Pool.AtMostOneEach(reports, BatchOf(states[i], events[i]))
    requires Sends(events[k].probes, reports)
    requires forall r :: 0 <= r < |reports| ==> HeldSince(states, events, i, k, reports[r].task)
    ensures Outcome(states[k], events[k].agent, events[k].job, events[k].probes).Accepted?
  {
    forall r | 0 <= r < |reports| ensures Holding(states, events, reports[r].task, k) {
      assert HeldSince(states, events, i, k, reports[r].task);
    }
    BatchAcceptedIff(states, events, i, k, reports);
  }

  function Names(ps: seq<Probe>): (r: seq<TaskId>)
    ensures |r| == |ps| && forall i :: 0 <= i < |r| ==> r[i] == ps[i].task
  {
    seq(|ps|, i requires 0 <= i < |ps| => ps[i].task)
  }

  lemma NamesAreOpen(s: State, agent: AgentId, j: JobId, ps: seq<Probe>)
    requires Acceptable(s, agent, j, ps)
    ensures Elements(Names(ps)) <= OpenIn(s, j) && |Elements(Names(ps))| == |ps|
  {
    DistinctSize(Names(ps));
    forall t | t in Elements(Names(ps)) ensures t in OpenIn(s, j) {
      var i :| 0 <= i < |ps| && Names(ps)[i] == t;
      assert Takes(s, agent, j, ps[i]);
    }
  }

  lemma AcceptedLowers(s: State, agent: AgentId, j: JobId, ps: seq<Probe>)
    requires Inv(s) && Outcome(s, agent, j, ps).Accepted?
    ensures |OpenIn(SubmitPost(s, agent, j, ps), j)| == |OpenIn(s, j)| - |ps|
  {
    AbsorbAllMeaning(s, agent, j, ps);
    NamesAreOpen(s, agent, j, ps);
    OpenAfter(s, AbsorbAll(s, agent, j, ps), j, ps);
    assert OpenIn(SubmitPost(s, agent, j, ps), j) == OpenIn(AbsorbAll(s, agent, j, ps), j);
  }

  lemma OpenAfter(s: State, u: State, j: JobId, ps: seq<Probe>)
    requires Absorbed(s, u, ps)
    ensures OpenIn(u, j) == OpenIn(s, j) - Elements(Names(ps))
  {
    forall t: TaskId ensures t in Elements(Names(ps)) <==> Named(ps, t) {
      if Named(ps, t) {
        var i :| 0 <= i < |ps| && ps[i].task == t;
        assert Names(ps)[i] == t;
      }
    }
  }

  /** One whole cycle: a claim that granted tasks, any complete uncancelled schedule of the pool on that batch,
      then the submission. It is accepted exactly if every task is still held, and then the job has exactly as
      many open tasks fewer as the batch had, so repeated cycles terminate. */
  lemma CycleLowersOpenTasks(states: seq<State>, events: seq<Event>, i: nat, k: nat,
                             pools: seq<Pool.Pool>, steps: seq<Pool.Step>, concurrency: int)
    requires IsRun(states, events) && i < k < |events| && Inv(states[i])
    requires events[i].Claim? && events[k].Submit?
    requires events[k].agent == events[i].agent && events[k].job == events[i].job
    requires BatchOf(states[i], events[i]) != []
    requires Pool.IsSchedule(pools, steps, BatchOf(states[i], events[i]), concurrency)
    requires Pool.Finished(pools[|steps|]) && !pools[|steps|].cancelled
    requires Sends(events[k].probes, pools[|steps|].results)
    ensures var accepted := Outcome(states[k], events[k].agent, events[k].job, events[k].probes).Accepted?;
            && (accepted <==> AllHeld(states, events, pools[|steps|].results, k))
            && |OpenIn(states[k + 1], events[k].job)|
               == |OpenIn(states[k], events[k].job)| - (if accepted then |BatchOf(states[i], events[i])| else 0)
  {
    Pool.BatchResults(pools, steps, BatchOf(states[i], events[i]), concurrency);
    BatchAcceptedIff(states, events, i, k, pools[|steps|].results);
    InvAlways(states, events, k);
    if Outcome(states[k], events[k].agent, events[k].job, events[k].probes).Accepted? {
      AcceptedLowers(states[k], events[k].agent, events[k].job, events[k].probes);
    }
  }
}
