/** Tables that make the LIMIT of the recheck query lose targets do arise: a history that blacklists any
    number of addresses of one agent. */
module RecheckReach {
  import opened Wrappers
  import opened ScanState
  import opened ScanInvariants
  import opened ScanRuns
  import opened RecheckSelection
  import opened Rechecks

  const LIMITS := Limits(false, 1000.0, 50.0, 60)

  /** One job for one address of agent 0. */
  function Creating(i: nat): Event {
    Create(i, LIMITS, [AgentTargets(Some(0), [Target(Some(i), "")])], true)
  }

  function Claiming(i: nat): Event {
    Claim(0, 1, {}, {}, i)
  }

  function Dead(i: nat): Probe {
    Probe(i, i, false, 0.0, 0.0, "")
  }

  function Failing(i: nat): Event {
    Submit(0, i, [Dead(i)])
  }

  /** After `n` addresses have been found bad, all at one moment. */
  ghost predicate Listed(s: State, n: nat) {
    && s.nextTask == n
    && (forall j: JobId :: j in s.jobs ==> j < n && s.jobs[j].createdAt == s.now)
    && (forall t: TaskId :: t in s.tasks <==> t < n)
    && (forall t: TaskId :: t in s.tasks ==> s.tasks[t].job == t && s.tasks[t].status.Done?)
    && (forall t: TaskId :: t in s.results ==> t < n)
    && (forall key: Key :: key in s.blacklist <==> key.agent == 0 && key.ip < n)
    && (forall key: Key :: key in s.blacklist ==>
          s.blacklist[key].retryAfter == s.now + 60 * MINUTE && s.blacklist[key].failures == 1)
  }

  /** The new job and its one task, waiting. */
  function Waits(s: State, i: nat): State {
    s.(tasks := s.tasks[i := Task(i, 0, i, "", Waiting)], nextTask := i + 1,
       jobs := s.jobs[i := NewJob(LIMITS, 1, s.now)])
  }

  /** The same with the task leased. */
  function Leases(s: State, i: nat): State {
    s.(tasks := s.tasks[i := Task(i, 0, i, "", Leased(s.now + LEASE))], nextTask := i + 1,
       jobs := s.jobs[i := NewJob(LIMITS, 1, s.now).(status := Running, startedAt := Some(s.now))])
  }

  lemma Created(s: State, i: nat)
    requires Listed(s, i)
    ensures Enabled(s, Creating(i)) && Post(s, Creating(i)) == Waits(s, i)
  {
    var targets := [Target(Some(i), "")];
    var sets := [AgentTargets(Some(0), targets)];
    assert targets[..0] == [] && sets[..0] == [];
    assert InsertTargets(s, i, 0, [], true) == s && InsertSets(s, i, [], true) == s;
    assert !Taken(s, i, 0, i);
    assert InsertTargets(s, i, 0, targets, true) == InsertTask(s, i, 0, i, "");
  }

  /** The only waiting task of the job. */
  lemma OnlyCandidate(s: State, i: nat)
    requires s.nextTask == i + 1 && forall t: TaskId :: WaitsFor(s, t, i, 0) <==> t == i
    ensures Picked(s, 0, 1, {}, i) == [i]
  {
    var c := Candidates(s, i, 0, {}, i + 1);
    CandidatesMeaning(s, i, 0, {}, i + 1);
    OneElement(c, i);
  }

  lemma OneElement(c: seq<TaskId>, i: TaskId)
    requires (forall t: TaskId :: t in c <==> t == i) && forall a, b :: 0 <= a < b < |c| ==> c[a] < c[b]
    ensures c == [i]
  {
    assert i in c;
    forall k | 0 <= k < |c| ensures c[k] == i && k == 0 {
      assert c[k] in c && c[0] in c;
    }
    assert c[|c| - 1] == i;
  }

  lemma Claimed(s: State, i: nat)
    requires Listed(s, i)
    ensures Enabled(Waits(s, i), Claiming(i)) && Post(Waits(s, i), Claiming(i)) == Leases(s, i)
  {
    var u := Waits(s, i);
    NothingExpires(s, i);
    assert WaitsFor(u, i, i, 0);
    OnlyCandidate(u, i);
    assert Granted(u, 0, 1, {}, i) == [i];
    LeasesOne(s, i);
  }

  lemma NothingExpires(s: State, i: nat)
    requires Listed(s, i)
    ensures Expire(Waits(s, i), 0) == Waits(s, i)
  {
  }

  lemma LeasesOne(s: State, i: nat)
    requires Listed(s, i)
    ensures MarkRunning(LeaseAll(Waits(s, i), [i]), i) == Leases(s, i)
  {
    assert LeaseAll(Waits(s, i), [i]).tasks == Leases(s, i).tasks;
  }

  lemma Recorded(s: State, i: nat)
    requires Listed(s, i)
    ensures Listed(Absorb(Leases(s, i), 0, i, Dead(i)), i + 1)
  {
  }

  lemma RecountKeepsListed(s: State, j: JobId, n: nat)
    requires Listed(s, n) && j in s.jobs
    ensures Listed(Recount(s, j), n)
  {
  }

  lemma Failed(s: State, i: nat)
    requires Listed(s, i)
    ensures Enabled(Leases(s, i), Failing(i)) && Listed(Post(Leases(s, i), Failing(i)), i + 1)
  {
    var u, ps := Leases(s, i), [Dead(i)];
    assert Acceptable(u, 0, i, ps);
    assert ps[..0] == [];
    assert AbsorbAll(u, 0, i, ps) == Absorb(u, 0, i, Dead(i));
    Recorded(s, i);
    RecountKeepsListed(Absorb(u, 0, i, Dead(i)), i, i + 1);
  }

  /** A run that leaves exactly the first `n` addresses of agent 0 on the blacklist. */
  lemma {:induction false} ListingRun(n: nat) returns (states: seq<State>, events: seq<Event>)
    ensures IsRun(states, events) && Listed(states[|events|], n)
  {
    if n == 0 {
      states, events := [State(0, 0, map[], map[], map[], map[])], [];
    } else {
      states, events := ListingRun(n - 1);
      var s, i := states[|events|], n - 1;
      Created(s, i);
      Claimed(s, i);
      Failed(s, i);
      states, events := Extended(states, events, Creating(i));
      states, events := Extended(states, events, Claiming(i));
      states, events := Extended(states, events, Failing(i));
    }
  }

  lemma Extended(states: seq<State>, events: seq<Event>, e: Event) returns (states': seq<State>, events': seq<Event>)
    requires IsRun(states, events) && Enabled(states[|events|], e)
    ensures IsRun(states', events') && |events'| == |events| + 1
    ensures states'[|events'|] == Post(states[|events|], e)
  {
    states', events' := states + [Post(states[|events|], e)], events + [e];
  }

  /** Once the retry time has come the entries answer the candidate query, with and without its due filter. */
  lemma ListingAnswers(n: nat) returns (states: seq<State>, events: seq<Event>)
    ensures IsRun(states, events)
    ensures IsAnswer(states[|events|], false, OneAgent(n)) && IsAnswer(states[|events|], true, OneAgent(n))
  {
    states, events := ListingRun(n);
    var s, rows := states[|events|], OneAgent(n);
    states, events := Extended(states, events, Tick(s.now + 60 * MINUTE));
    forall key: Key ensures key in rows <==> key in s.blacklist {
      if key in s.blacklist { assert rows[key.ip] == key; }
    }
  }

  /** Whatever the query can return in a reachable state, its LIMIT leaves the selection alone. */
  ghost predicate LimitInvisible(maxTargets: int, fraction: real)
    requires fraction > 0.0
  {
    forall states: seq<State>, events: seq<Event>, dueOnly: bool, rows: seq<Key> |
      IsRun(states, events) && IsAnswer(states[|events|], dueOnly, rows) :: SameSelection(rows, maxTargets, fraction)
  }

  ghost predicate SameSelection(rows: seq<Key>, maxTargets: int, fraction: real)
    requires fraction > 0.0
  {
    Selection(Take(rows, Max(0, CandidateLimit(maxTargets, fraction))), fraction, maxTargets)
    == Selection(rows, fraction, maxTargets)
  }

  /** In reachable states too the LIMIT is invisible exactly when 20000 * fraction exceeds max_targets - 1. */
  lemma {:induction false} ReachableLimitIff(maxTargets: int, fraction: real)
    requires 0.0 < fraction <= 1.0 && 1 <= maxTargets <= 5000
    ensures LimitInvisible(maxTargets, fraction) <==> 20000.0 * fraction > (maxTargets - 1) as real
  {
    if 20000.0 * fraction > (maxTargets - 1) as real {
      forall rows: seq<Key> ensures SameSelection(rows, maxTargets, fraction) {
        LimitKeepsSelection(rows, maxTargets, fraction);
      }
    } else {
      CapLosesTargets(maxTargets, fraction);
      var rows := OneAgent(Ceil(maxTargets as real / fraction));
      var states, events := ListingAnswers(|rows|);
      assert !SameSelection(rows, maxTargets, fraction);
    }
  }
}
