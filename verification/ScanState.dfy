/** The rows behind the scan-task protocol and what each database transaction does to them.
    A transaction is one step: it either commits the state given here or changes nothing. */
module ScanState {
  import opened Wrappers

  /** UUIDs and addresses are numbers; the empty string of the source is a missing one. */
  type AgentId = nat
  type JobId = nat
  type Ip = nat
  type TaskId = nat
  /** Microseconds, the resolution of NOW(). */
  type Time = int

  const LEASE: Time := 180_000_000
  const MINUTE: Time := 60_000_000

  datatype JobStatus = Pending | Running | Completed | Stopped

  datatype Job = Job(
    recheck: bool, status: JobStatus,
    maxLatency: real, maxLoss: real, blacklistMinutes: int,
    total: nat, completed: nat, success: nat, failed: nat,
    createdAt: Time, startedAt: Option<Time>, finishedAt: Option<Time>)

  /** `lease_until` and `completed_at` live with the status that owns them. */
  datatype TaskStatus = Waiting | Leased(until: Time) | Done(at: Time) | Cancelled

  datatype Task = Task(job: JobId, agent: AgentId, ip: Ip, prefix: string, status: TaskStatus)

  /** What an agent reports for one task. */
  datatype Probe = Probe(task: TaskId, ip: Ip, available: bool, latency: real, loss: real, errorCode: string)

  /** A row of scan_results, keyed by its task. */
  datatype Row = Row(job: JobId, agent: AgentId, ip: Ip, prefix: string,
                     available: bool, latency: real, loss: real, errorCode: string, scannedAt: Time)

  datatype Key = Key(agent: AgentId, ip: Ip)

  datatype Entry = Entry(reason: string, failures: nat, blockedAt: Time, retryAfter: Time)

  datatype State = State(
    now: Time, nextTask: TaskId,
    jobs: map<JobId, Job>, tasks: map<TaskId, Task>,
    results: map<TaskId, Row>, blacklist: map<Key, Entry>)

  function TasksIn(s: State, j: JobId): set<TaskId> {
    set t | t in s.tasks && s.tasks[t].job == j
  }

  function DoneIn(s: State, j: JobId): set<TaskId> {
    set t | t in s.tasks && s.tasks[t].job == j && s.tasks[t].status.Done?
  }

  predicate Open(task: Task) { task.status.Waiting? || task.status.Leased? }

  function OpenIn(s: State, j: JobId): set<TaskId> {
    set t | t in s.tasks && s.tasks[t].job == j && Open(s.tasks[t])
  }

  // ---- Creating tasks ---------------------------------------------------------------

  datatype Limits = Limits(recheck: bool, maxLatency: real, maxLoss: real, blacklistMinutes: int)

  datatype Target = Target(ip: Option<Ip>, prefix: string)

  datatype AgentTargets = AgentTargets(agent: Option<AgentId>, targets: seq<Target>)

  function NewJob(limits: Limits, total: nat, now: Time): Job {
    Job(limits.recheck, Pending, limits.maxLatency, limits.maxLoss, limits.blacklistMinutes,
        total, 0, 0, 0, now, None, None)
  }

  /** The uniqueness constraint on (job_id, preferred_agent_id, target_ip). */
  predicate Taken(s: State, j: JobId, agent: AgentId, ip: Ip) {
    exists t :: t in s.tasks && s.tasks[t].job == j && s.tasks[t].agent == agent && s.tasks[t].ip == ip
  }

  /** INSERT INTO scan_tasks … ON CONFLICT DO NOTHING. */
  function InsertTask(s: State, j: JobId, agent: AgentId, ip: Ip, prefix: string): State {
    if Taken(s, j, agent, ip) then s
    else s.(tasks := s.tasks[s.nextTask := Task(j, agent, ip, prefix, Waiting)], nextTask := s.nextTask + 1)
  }

  predicate Blocked(s: State, agent: AgentId, ip: Ip) {
    Key(agent, ip) in s.blacklist && s.blacklist[Key(agent, ip)].retryAfter > s.now
  }

  predicate Admitted(s: State, agent: AgentId, target: Target, includeBlocked: bool) {
    target.ip.Some? && (includeBlocked || !Blocked(s, agent, target.ip.value))
  }

  function InsertTargets(s: State, j: JobId, agent: AgentId, targets: seq<Target>, includeBlocked: bool): (r: State)
    ensures r.nextTask >= s.nextTask
  {
    if targets == [] then s
    else
      var before := InsertTargets(s, j, agent, targets[..|targets| - 1], includeBlocked);
      var target := targets[|targets| - 1];
      if Admitted(before, agent, target, includeBlocked)
      then InsertTask(before, j, agent, target.ip.value, target.prefix) else before
  }

  predicate Addressed(sets: seq<AgentTargets>) {
    forall i :: 0 <= i < |sets| ==> sets[i].agent.Some?
  }

  function InsertSets(s: State, j: JobId, sets: seq<AgentTargets>, includeBlocked: bool): (r: State)
    requires Addressed(sets)
    ensures r.nextTask >= s.nextTask
  {
    if sets == [] then s
    else
      var last := sets[|sets| - 1];
      InsertTargets(InsertSets(s, j, sets[..|sets| - 1], includeBlocked), j, last.agent.value, last.targets,
                    includeBlocked)
  }

  predicate Creates(s: State, j: JobId, sets: seq<AgentTargets>, includeBlocked: bool) {
    && sets != []
    && Addressed(sets)
    && InsertSets(s, j, sets, includeBlocked).nextTask > s.nextTask
  }

  function CreatePost(s: State, j: JobId, limits: Limits, sets: seq<AgentTargets>, includeBlocked: bool): State {
    if !Creates(s, j, sets, includeBlocked) then s
    else
      var filled := InsertSets(s, j, sets, includeBlocked);
      filled.(jobs := filled.jobs[j := NewJob(limits, filled.nextTask - s.nextTask, s.now)])
  }

  // ---- Blacklist rechecks -----------------------------------------------------------

  function InsertRechecks(s: State, j: JobId, agent: AgentId, ips: seq<Ip>, retryAfter: Time): State {
    if ips == [] then s
    else
      var before := InsertRechecks(s, j, agent, ips[..|ips| - 1], retryAfter);
      var ip := ips[|ips| - 1];
      Postpone(InsertTask(before, j, agent, ip, ""), Key(agent, ip), retryAfter)
  }

  function Postpone(s: State, key: Key, retryAfter: Time): State {
    if key in s.blacklist
    then s.(blacklist := s.blacklist[key := s.blacklist[key].(retryAfter := retryAfter)])
    else s
  }

  /** One agent's recheck job: its own transaction. */
  function RecheckPost(s: State, j: JobId, agent: AgentId, ips: seq<Ip>, limits: Limits): State {
    var filled := InsertRechecks(s, j, agent, ips, s.now + limits.blacklistMinutes * MINUTE);
    filled.(jobs := filled.jobs[j := NewJob(limits, |ips|, s.now)])
  }

  // ---- Claiming ---------------------------------------------------------------------

  function Clamp(limit: int): (r: nat)
    ensures 1 <= r <= 512
    ensures 1 <= limit <= 512 ==> r == limit
  {
    if limit <= 0 then 32 else if limit > 512 then 512 else limit
  }

  predicate Expired(task: Task, agent: AgentId, now: Time) {
    task.agent == agent && task.status.Leased? && task.status.until < now
  }

  function Expire(s: State, agent: AgentId): State {
    s.(tasks := map t | t in s.tasks ::
        if Expired(s.tasks[t], agent, s.now) then s.tasks[t].(status := Waiting) else s.tasks[t])
  }

  predicate WaitsFor(s: State, t: TaskId, j: JobId, agent: AgentId) {
    t in s.tasks && s.tasks[t].job == j && s.tasks[t].agent == agent && s.tasks[t].status.Waiting?
  }

  predicate Claimable(s: State, j: JobId, agent: AgentId) {
    && j in s.jobs
    && (s.jobs[j].status.Pending? || s.jobs[j].status.Running?)
    && exists t :: t in s.tasks && WaitsFor(s, t, j, agent)
  }

  /** The locking SELECT: the oldest claimable job that no other transaction holds. */
  predicate Selects(s: State, agent: AgentId, busy: set<JobId>, j: JobId) {
    && Claimable(s, j, agent) && j !in busy
    && forall k :: k in s.jobs && Claimable(s, k, agent) && k !in busy ==> s.jobs[j].createdAt <= s.jobs[k].createdAt
  }

  /** Waiting, unlocked tasks with an id below `n`, in id order. */
  function Candidates(s: State, j: JobId, agent: AgentId, busy: set<TaskId>, n: nat): seq<TaskId> {
    if n == 0 then []
    else Candidates(s, j, agent, busy, n - 1) + if WaitsFor(s, n - 1, j, agent) && n - 1 !in busy then [n - 1] else []
  }

  function Picked(s: State, agent: AgentId, limit: int, busy: set<TaskId>, j: JobId): seq<TaskId> {
    var all := Candidates(s, j, agent, busy, s.nextTask);
    all[..Min(|all|, Clamp(limit))]
  }

  /** Tasks handed out by a claim that selected job `j`. */
  function Granted(s: State, agent: AgentId, limit: int, busy: set<TaskId>, j: JobId): seq<TaskId> {
    Picked(Expire(s, agent), agent, limit, busy, j)
  }

  function LeaseAll(s: State, ids: seq<TaskId>): State {
    s.(tasks := map t | t in s.tasks ::
        if t in ids then s.tasks[t].(status := Leased(s.now + LEASE)) else s.tasks[t])
  }

  function MarkRunning(s: State, j: JobId): State
    requires j in s.jobs
  {
    var job := s.jobs[j];
    s.(jobs := s.jobs[j := job.(status := Running,
                                startedAt := if job.startedAt.Some? then job.startedAt else Some(s.now))])
  }

  /** A claim that found nothing rolls back, lease expiry included. */
  function ClaimPost(s: State, agent: AgentId, limit: int, busy: set<TaskId>, j: JobId): State
    requires j in s.jobs
  {
    var ids := Granted(s, agent, limit, busy, j);
    if ids == [] then s else MarkRunning(LeaseAll(Expire(s, agent), ids), j)
  }

  // ---- Submitting -------------------------------------------------------------------

  /** The switch that decides whether a result blacklists its target. */
  function Reason(p: Probe, job: Job): string {
    if !p.available then (if p.errorCode == "" then "UNAVAILABLE" else p.errorCode)
    else if p.loss > job.maxLoss then "HIGH_PACKET_LOSS"
    else if p.latency > job.maxLatency then "HIGH_LATENCY"
    else ""
  }

  /** The `success` filter of the progress query. */
  predicate Succeeded(row: Row, job: Job) {
    row.available && row.loss <= job.maxLoss && row.latency <= job.maxLatency
  }

  /** The `failed` filter of the progress query. */
  predicate Failed(row: Row, job: Job) {
    !row.available || row.loss > job.maxLoss || row.latency > job.maxLatency
  }

  predicate Takes(s: State, agent: AgentId, j: JobId, p: Probe) {
    && p.task in s.tasks
    && s.tasks[p.task].job == j && s.tasks[p.task].agent == agent
    && s.tasks[p.task].status.Leased?
    && s.tasks[p.task].ip == p.ip
  }

  function RowOf(s: State, agent: AgentId, j: JobId, p: Probe): Row
    requires p.task in s.tasks
  {
    Row(j, agent, s.tasks[p.task].ip, s.tasks[p.task].prefix,
        p.available, p.latency, p.loss, p.errorCode, s.now)
  }

  /** INSERT INTO scan_results … ON CONFLICT (task_id) DO UPDATE: a conflict keeps job, agent and target. */
  function Upsert(results: map<TaskId, Row>, t: TaskId, row: Row): map<TaskId, Row> {
    if t in results
    then results[t := row.(job := results[t].job, agent := results[t].agent, ip := results[t].ip)]
    else results[t := row]
  }

  function UpdateBlacklist(list: map<Key, Entry>, key: Key, reason: string, now: Time, minutes: int): map<Key, Entry> {
    if reason == "" then list - {key}
    else
      var failures := if key in list then list[key].failures + 1 else 1;
      list[key := Entry(reason, failures, now, now + minutes * MINUTE)]
  }

  /** One iteration of the submit loop. */
  function Absorb(s: State, agent: AgentId, j: JobId, p: Probe): State
    requires p.task in s.tasks && j in s.jobs
  {
    s.(tasks := s.tasks[p.task := s.tasks[p.task].(status := Done(s.now))],
       results := Upsert(s.results, p.task, RowOf(s, agent, j, p)),
       blacklist := UpdateBlacklist(s.blacklist, Key(agent, s.tasks[p.task].ip),
                                    Reason(p, s.jobs[j]), s.now, s.jobs[j].blacklistMinutes))
  }

  function AbsorbAll(s: State, agent: AgentId, j: JobId, ps: seq<Probe>): (r: State)
    requires j in s.jobs
    requires forall i :: 0 <= i < |ps| ==> ps[i].task in s.tasks
    ensures r.tasks.Keys == s.tasks.Keys && r.jobs == s.jobs && r.now == s.now && r.nextTask == s.nextTask
  {
    if ps == [] then s
    else Absorb(AbsorbAll(s, agent, j, ps[..|ps| - 1]), agent, j, ps[|ps| - 1])
  }

  function GoodIn(s: State, j: JobId): set<TaskId>
    requires j in s.jobs
  {
    set t | t in s.tasks && s.tasks[t].job == j && s.tasks[t].status.Done?
            && t in s.results && Succeeded(s.results[t], s.jobs[j])
  }

  function BadIn(s: State, j: JobId): set<TaskId>
    requires j in s.jobs
  {
    set t | t in s.tasks && s.tasks[t].job == j && s.tasks[t].status.Done?
            && t in s.results && Failed(s.results[t], s.jobs[j])
  }

  /** UPDATE scan_jobs … FROM (SELECT COUNT(*) FILTER …): no task rows, no update. */
  function Recount(s: State, j: JobId): State
    requires j in s.jobs
  {
    if TasksIn(s, j) == {} then s
    else
      var job := s.jobs[j];
      var done := |DoneIn(s, j)|;
      s.(jobs := s.jobs[j := job.(
          completed := done, success := |GoodIn(s, j)|, failed := |BadIn(s, j)|,
          status := if done >= job.total then Completed else Running,
          finishedAt := if done >= job.total then Some(s.now) else None)])
  }

  datatype SubmitOutcome = Accepted | Ignored | Refused

  /** The whole batch stands or falls together: every task must be leased to the sender in this job,
      with the reported address, and no task may be named twice. */
  predicate Acceptable(s: State, agent: AgentId, j: JobId, ps: seq<Probe>) {
    && (forall i :: 0 <= i < |ps| ==> Takes(s, agent, j, ps[i]))
    && (forall i, k :: 0 <= i < k < |ps| ==> ps[i].task != ps[k].task)
  }

  function Outcome(s: State, agent: AgentId, j: JobId, ps: seq<Probe>): SubmitOutcome {
    if j !in s.jobs then Refused
    else if s.jobs[j].status.Stopped? then Ignored
    else if Acceptable(s, agent, j, ps) then Accepted
    else Refused
  }

  function SubmitPost(s: State, agent: AgentId, j: JobId, ps: seq<Probe>): State {
    if Outcome(s, agent, j, ps).Accepted? then Recount(AbsorbAll(s, agent, j, ps), j) else s
  }

  // ---- Stopping ---------------------------------------------------------------------

  predicate Stoppable(s: State, j: JobId) {
    j in s.jobs && (s.jobs[j].status.Pending? || s.jobs[j].status.Running?)
  }

  function CancelOpen(s: State, j: JobId): State {
    s.(tasks := map t | t in s.tasks ::
        if s.tasks[t].job == j && Open(s.tasks[t]) then s.tasks[t].(status := Cancelled) else s.tasks[t])
  }

  function StopPost(s: State, j: JobId): State {
    if !Stoppable(s, j) then s
    else
      var c := CancelOpen(s, j);
      c.(jobs := c.jobs[j := c.jobs[j].(status := Stopped, finishedAt := Some(s.now))])
  }
}
