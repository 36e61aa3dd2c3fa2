/** Which task rows a new job gets, independent of the order of insertion. */
module ScanCreation {
  import opened Wrappers
  import opened ScanState
  import opened ScanInvariants

  ghost predicate Wanted(s: State, targets: seq<Target>, inc: bool, agent: AgentId, ip: Ip) {
    && (exists k :: 0 <= k < |targets| && targets[k].ip == Some(ip))
    && (inc || Key(agent, ip) !in s.blacklist || s.blacklist[Key(agent, ip)].retryAfter <= s.now)
  }

  /** Some target set of this agent names the address, and it is not blacklisted right now
      (unless blocked targets are included). */
  ghost predicate Requested(s: State, sets: seq<AgentTargets>, inc: bool, agent: AgentId, ip: Ip) {
    exists i :: 0 <= i < |sets| && sets[i].agent == Some(agent) && Wanted(s, sets[i].targets, inc, agent, ip)
  }

  lemma TakenAfterInsert(u: State, j: JobId, agent: AgentId, ip: Ip, prefix: string, a: AgentId, x: Ip)
    requires u.nextTask !in u.tasks
    ensures Taken(InsertTask(u, j, agent, ip, prefix), j, a, x) <==> Taken(u, j, a, x) || (a == agent && x == ip)
  {
    var n := InsertTask(u, j, agent, ip, prefix);
    if n != u {
      assert n.tasks[u.nextTask] == Task(j, agent, ip, prefix, Waiting);
      if Taken(u, j, a, x) {
        var t :| t in u.tasks && u.tasks[t].job == j && u.tasks[t].agent == a && u.tasks[t].ip == x;
        assert n.tasks[t] == u.tasks[t];
      }
    }
  }

  lemma {:induction false} TargetsMeaning(s: State, u: State, j: JobId, agent: AgentId, targets: seq<Target>, inc: bool,
                                          a: AgentId, x: Ip)
    requires TaskRows(s) && Filling(s, u, j) && u.blacklist == s.blacklist
    ensures Taken(InsertTargets(u, j, agent, targets, inc), j, a, x)
            <==> Taken(u, j, a, x) || (a == agent && Wanted(s, targets, inc, agent, x))
  {
    if targets == [] {
    } else {
      var front, last := targets[..|targets| - 1], targets[|targets| - 1];
      TargetsMeaning(s, u, j, agent, front, inc, a, x);
      InsertTargetsFills(s, u, j, agent, front, inc);
      var before := InsertTargets(u, j, agent, front, inc);
      assert Admitted(before, agent, last, inc) == Admitted(s, agent, last, inc);
      if Admitted(s, agent, last, inc) {
        TakenAfterInsert(before, j, agent, last.ip.value, last.prefix, a, x);
      }
      WantedLast(s, targets, inc, agent, x);
    }
  }

  lemma WantedLast(s: State, targets: seq<Target>, inc: bool, agent: AgentId, x: Ip)
    requires targets != []
    ensures var front, last := targets[..|targets| - 1], targets[|targets| - 1];
            Wanted(s, targets, inc, agent, x)
            <==> Wanted(s, front, inc, agent, x) || (last.ip == Some(x) && Admitted(s, agent, last, inc))
  {
    var front := targets[..|targets| - 1];
    if Wanted(s, targets, inc, agent, x) {
      var k :| 0 <= k < |targets| && targets[k].ip == Some(x);
      assert k < |front| ==> front[k] == targets[k];
    }
    if Wanted(s, front, inc, agent, x) {
      var k :| 0 <= k < |front| && front[k].ip == Some(x);
      assert targets[k] == front[k];
    }
  }

  lemma {:induction false} SetsMeaning(s: State, j: JobId, sets: seq<AgentTargets>, inc: bool, a: AgentId, x: Ip)
    requires TaskRows(s) && UniqueTasks(s) && Addressed(sets)
    ensures Taken(InsertSets(s, j, sets, inc), j, a, x) <==> Taken(s, j, a, x) || Requested(s, sets, inc, a, x)
  {
    if sets == [] {
    } else {
      var front, last := sets[..|sets| - 1], sets[|sets| - 1];
      SetsMeaning(s, j, front, inc, a, x);
      InsertSetsFills(s, j, front, inc);
      TargetsMeaning(s, InsertSets(s, j, front, inc), j, last.agent.value, last.targets, inc, a, x);
      if Requested(s, sets, inc, a, x) {
        var i :| 0 <= i < |sets| && sets[i].agent == Some(a) && Wanted(s, sets[i].targets, inc, a, x);
        assert i < |front| ==> front[i] == sets[i];
      }
      if Requested(s, front, inc, a, x) {
        var i :| 0 <= i < |front| && front[i].agent == Some(a) && Wanted(s, front[i].targets, inc, a, x);
        assert sets[i] == front[i];
      }
    }
  }

  lemma RequestedCreates(s: State, j: JobId, sets: seq<AgentTargets>, inc: bool, a: AgentId, x: Ip)
    requires Inv(s) && j !in s.jobs && Addressed(sets) && Requested(s, sets, inc, a, x)
    ensures Creates(s, j, sets, inc)
  {
    SetsMeaning(s, j, sets, inc, a, x);
    InsertSetsFills(s, j, sets, inc);
    var filled := InsertSets(s, j, sets, inc);
    var t :| t in filled.tasks && filled.tasks[t].job == j;
    assert t !in s.tasks;
  }

  /** A created job has one waiting task for every requested, admitted (agent, address) pair and no other
      task; `total` counts them. The job is refused exactly when there is no such pair, or a set is malformed. */
  lemma CreatedTasks(s: State, j: JobId, limits: Limits, sets: seq<AgentTargets>, inc: bool, a: AgentId, x: Ip)
    requires Inv(s) && j !in s.jobs
    ensures var u := CreatePost(s, j, limits, sets, inc);
            && (Creates(s, j, sets, inc) ==>
                  && (Taken(u, j, a, x) <==> Requested(s, sets, inc, a, x))
                  && j in u.jobs && u.jobs[j].total == |TasksIn(u, j)|
                  && forall t :: t in TasksIn(u, j) ==> u.tasks[t].status.Waiting? && t !in s.tasks)
            && (!Creates(s, j, sets, inc) ==> u == s && !(Addressed(sets) && Requested(s, sets, inc, a, x)))
  {
    if Addressed(sets) {
      SetsMeaning(s, j, sets, inc, a, x);
      InsertSetsFills(s, j, sets, inc);
      if Requested(s, sets, inc, a, x) { RequestedCreates(s, j, sets, inc, a, x); }
      if Creates(s, j, sets, inc) {
        CreateKeeps(s, j, limits, sets, inc);
        var u := CreatePost(s, j, limits, sets, inc);
        assert JobOk(u, j);
        assert u.tasks == InsertSets(s, j, sets, inc).tasks;
        assert Taken(u, j, a, x) <==> Taken(InsertSets(s, j, sets, inc), j, a, x);
      }
    }
  }

  // ---- The prefix recorded with a task --------------------------------------------------

  /** Target `k` of set `i` names this address for this agent. */
  predicate Lists(sets: seq<AgentTargets>, i: nat, k: nat, agent: AgentId, ip: Ip) {
    i < |sets| && sets[i].agent == Some(agent) && k < |sets[i].targets| && sets[i].targets[k].ip == Some(ip)
  }

  /** Target `k` of set `i` is the first that does. */
  ghost predicate ListsFirst(sets: seq<AgentTargets>, i: nat, k: nat, agent: AgentId, ip: Ip) {
    && Lists(sets, i, k, agent, ip)
    && forall i': nat, k': nat | Lists(sets, i', k', agent, ip) :: i < i' || (i == i' && k <= k')
  }

  /** A task added for one target set carries the prefix of the first target with its address. */
  lemma {:induction false} TargetsPrefix(s: State, u: State, j: JobId, agent: AgentId, targets: seq<Target>, inc: bool,
                                         t: TaskId)
    returns (k: nat)
    requires TaskRows(s) && Filling(s, u, j) && u.blacklist == s.blacklist && u.now == s.now
    requires u.nextTask <= t < InsertTargets(u, j, agent, targets, inc).nextTask
    ensures var n := InsertTargets(u, j, agent, targets, inc);
            && t in n.tasks && n.tasks[t].agent == agent && !Taken(u, j, agent, n.tasks[t].ip)
            && k < |targets| && targets[k].ip == Some(n.tasks[t].ip) && targets[k].prefix == n.tasks[t].prefix
            && Wanted(s, targets, inc, agent, n.tasks[t].ip)
            && forall k' :: 0 <= k' < k ==> targets[k'].ip != Some(n.tasks[t].ip)
  {
    var front, last := targets[..|targets| - 1], targets[|targets| - 1];
    var before, after := InsertTargets(u, j, agent, front, inc), InsertTargets(u, j, agent, targets, inc);
    InsertTargetsFills(s, u, j, agent, front, inc);
    if t < before.nextTask {
      k := TargetsPrefix(s, u, j, agent, front, inc, t);
      assert after.tasks[t] == before.tasks[t];
      WantedLast(s, targets, inc, agent, after.tasks[t].ip);
    } else {
      k := |targets| - 1;
      var ip := last.ip.value;
      TargetsMeaning(s, u, j, agent, front, inc, agent, ip);
      WantedLast(s, targets, inc, agent, ip);
      assert !Wanted(s, front, inc, agent, ip);
      forall k' | 0 <= k' < k ensures targets[k'].ip != Some(ip) {
        assert front[k'] == targets[k'];
      }
    }
  }

  /** Every task of a new job carries the prefix of the first target listed with its agent and address. */
  lemma {:induction false} SetsPrefix(s: State, j: JobId, sets: seq<AgentTargets>, inc: bool, t: TaskId)
    returns (i: nat, k: nat)
    requires TaskRows(s) && UniqueTasks(s) && Addressed(sets)
    requires s.nextTask <= t < InsertSets(s, j, sets, inc).nextTask && j !in s.jobs
    ensures var n := InsertSets(s, j, sets, inc);
            && t in n.tasks && ListsFirst(sets, i, k, n.tasks[t].agent, n.tasks[t].ip)
            && n.tasks[t].prefix == sets[i].targets[k].prefix
            && (inc || Key(n.tasks[t].agent, n.tasks[t].ip) !in s.blacklist
                || s.blacklist[Key(n.tasks[t].agent, n.tasks[t].ip)].retryAfter <= s.now)
  {
    var front, last := sets[..|sets| - 1], sets[|sets| - 1];
    var before, after := InsertSets(s, j, front, inc), InsertSets(s, j, sets, inc);
    InsertSetsFills(s, j, front, inc);
    InsertTargetsFills(s, before, j, last.agent.value, last.targets, inc);
    if t < before.nextTask {
      i, k := SetsPrefix(s, j, front, inc, t);
      assert after.tasks[t] == before.tasks[t] by { OldTasksStay(before, j, last.agent.value, last.targets, inc, t); }
      StillFirst(sets, i, k, after.tasks[t].agent, after.tasks[t].ip);
    } else {
      k := TargetsPrefix(s, before, j, last.agent.value, last.targets, inc, t);
      i := |sets| - 1;
      SetsMeaning(s, j, front, inc, after.tasks[t].agent, after.tasks[t].ip);
      NotListedBefore(s, sets, last.targets, inc, k, after.tasks[t].agent, after.tasks[t].ip);
    }
  }

  lemma {:induction false} OldTasksStay(u: State, j: JobId, agent: AgentId, targets: seq<Target>, inc: bool, t: TaskId)
    requires t in u.tasks && t < u.nextTask
    ensures t in InsertTargets(u, j, agent, targets, inc).tasks
    ensures InsertTargets(u, j, agent, targets, inc).tasks[t] == u.tasks[t]
  {
    if targets == [] {
    } else {
      OldTasksStay(u, j, agent, targets[..|targets| - 1], inc, t);
    }
  }

  lemma StillFirst(sets: seq<AgentTargets>, i: nat, k: nat, agent: AgentId, ip: Ip)
    requires sets != [] && ListsFirst(sets[..|sets| - 1], i, k, agent, ip)
    ensures ListsFirst(sets, i, k, agent, ip)
  {
    var front := sets[..|sets| - 1];
    forall i': nat, k': nat | Lists(sets, i', k', agent, ip) ensures i < i' || (i == i' && k <= k') {
      if i' < |front| { assert Lists(front, i', k', agent, ip); }
    }
  }

  lemma NotListedBefore(s: State, sets: seq<AgentTargets>, targets: seq<Target>, inc: bool, k: nat, agent: AgentId,
                        ip: Ip)
    requires sets != [] && !Requested(s, sets[..|sets| - 1], inc, agent, ip)
    requires inc || Key(agent, ip) !in s.blacklist || s.blacklist[Key(agent, ip)].retryAfter <= s.now
    requires Lists(sets, |sets| - 1, k, agent, ip)
    requires targets == sets[|sets| - 1].targets && forall k' :: 0 <= k' < k ==> targets[k'].ip != Some(ip)
    ensures ListsFirst(sets, |sets| - 1, k, agent, ip)
  {
    var front := sets[..|sets| - 1];
    forall i': nat, k': nat | Lists(sets, i', k', agent, ip) ensures |sets| - 1 < i' || (|sets| - 1 == i' && k <= k') {
      if i' < |front| {
        assert front[i'].agent == Some(agent) && Wanted(s, front[i'].targets, inc, agent, ip);
      }
    }
  }
}
