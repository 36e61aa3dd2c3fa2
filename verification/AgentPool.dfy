/** The agent's worker pool: a producer hands tasks over an unbuffered channel to workers, which write to
    a results channel with room for one result per task. Every scheduling order is a sequence of steps. */
module AgentPool {
  import opened Cardinality

  datatype Work = Work(id: nat, ip: nat)

  /** A worker waits on the jobs channel, holds the task with the given index, or has returned. */
  datatype Worker = Idle | Busy(index: nat) | Exited

  datatype Report = Report(index: nat, task: nat, ip: nat)

  datatype Pool = Pool(
    tasks: seq<Work>, next: nat, closed: bool, cancelled: bool,
    workers: seq<Worker>, results: seq<Report>)

  datatype Step =
    | HandOver(w: nat)   // rendezvous on the jobs channel
    | GiveUp             // the producer sees the cancelled context and returns
    | CloseJobs          // the producer has sent every task
    | Finish(w: nat)     // a probe ends; its result goes to the buffered channel
    | Leave(w: nat)      // a worker finds the jobs channel closed
    | Cancel

  function Start(tasks: seq<Work>, concurrency: int): Pool {
    var atLeastOne := if concurrency < 1 then 1 else concurrency;
    var n := if atLeastOne > |tasks| then |tasks| else atLeastOne;
    Pool(tasks, 0, false, false, seq(n, _ => Idle), [])
  }

  predicate CanStep(p: Pool, e: Step) {
    match e
    case HandOver(w) => !p.closed && p.next < |p.tasks| && w < |p.workers| && p.workers[w].Idle?
    case GiveUp => !p.closed && p.cancelled && p.next < |p.tasks|
    case CloseJobs => !p.closed && p.next == |p.tasks|
    case Finish(w) => w < |p.workers| && p.workers[w].Busy? && p.workers[w].index < |p.tasks| && |p.results| < |p.tasks|
    case Leave(w) => p.closed && w < |p.workers| && p.workers[w].Idle?
    case Cancel => !p.cancelled
  }

  function After(p: Pool, e: Step): Pool
    requires CanStep(p, e)
  {
    match e
    case HandOver(w) => p.(workers := p.workers[w := Busy(p.next)], next := p.next + 1)
    case GiveUp => p.(closed := true)
    case CloseJobs => p.(closed := true)
    case Finish(w) =>
      var i := p.workers[w].index;
      p.(workers := p.workers[w := Idle], results := p.results + [Report(i, p.tasks[i].id, p.tasks[i].ip)])
    case Leave(w) => p.(workers := p.workers[w := Exited])
    case Cancel => p.(cancelled := true)
  }

  ghost predicate IsSchedule(pools: seq<Pool>, steps: seq<Step>, tasks: seq<Work>, concurrency: int) {
    && |pools| == |steps| + 1
    && pools[0] == Start(tasks, concurrency)
    && forall i :: 0 <= i < |steps| ==> CanStep(pools[i], steps[i]) && pools[i + 1] == After(pools[i], steps[i])
  }

  /** wg.Wait returns. */
  predicate Finished(p: Pool) {
    forall w :: 0 <= w < |p.workers| ==> p.workers[w].Exited?
  }

  // ---- Invariant ---------------------------------------------------------------------

  ghost predicate Reported(p: Pool, i: nat) {
    exists r :: 0 <= r < |p.results| && p.results[r].index == i
  }

  ghost predicate HeldBy(p: Pool, i: nat, w: nat) {
    w < |p.workers| && p.workers[w] == Busy(i)
  }

  ghost predicate Held(p: Pool, i: nat) {
    exists w :: HeldBy(p, i, w)
  }

  /** A result carries the id and the address of its task. */
  ghost predicate Faithful(p: Pool, r: Report) {
    r.index < p.next <= |p.tasks| && r == Report(r.index, p.tasks[r.index].id, p.tasks[r.index].ip)
  }

  /** Every task handed over is with exactly one worker or has exactly one result, never both. */
  ghost predicate Inv(p: Pool) {
    && p.next <= |p.tasks|
    && (forall i: nat :: Reported(p, i) || Held(p, i) <==> i < p.next)
    && (forall i: nat :: !(Reported(p, i) && Held(p, i)))
    && (forall i: nat, v, w :: HeldBy(p, i, v) && HeldBy(p, i, w) ==> v == w)
    && (forall r, q :: 0 <= r < q < |p.results| ==> p.results[r].index != p.results[q].index)
    && (forall r :: 0 <= r < |p.results| ==> Faithful(p, p.results[r]))
    && (p.closed && !p.cancelled ==> p.next == |p.tasks|)
    && (forall w :: 0 <= w < |p.workers| && p.workers[w].Exited? ==> p.closed)
    && (p.workers == [] ==> p.tasks == [])
  }

  lemma StartInv(tasks: seq<Work>, concurrency: int)
    ensures Inv(Start(tasks, concurrency))
  {
  }

  lemma WorkerChanges(p: Pool, q: Pool, w: nat, worker: Worker)
    requires w < |p.workers| && q.workers == p.workers[w := worker]
    ensures forall i: nat, v :: HeldBy(q, i, v) <==> if v == w then worker == Busy(i) else HeldBy(p, i, v)
  {
  }

  lemma ResultAdded(p: Pool, q: Pool, r: Report)
    requires q.results == p.results + [r]
    ensures forall i: nat :: Reported(q, i) <==> Reported(p, i) || i == r.index
  {
    forall i: nat | Reported(p, i) ensures Reported(q, i) {
      var k :| 0 <= k < |p.results| && p.results[k].index == i;
      assert q.results[k].index == i;
    }
    assert q.results[|p.results|] == r;
  }

  lemma HandOverInv(p: Pool, w: nat)
    requires Inv(p) && CanStep(p, HandOver(w))
    ensures Inv(After(p, HandOver(w)))
  {
    var q := After(p, HandOver(w));
    WorkerChanges(p, q, w, Busy(p.next));
    assert !Reported(p, p.next) && !Held(p, p.next);
    assert HeldBy(q, p.next, w);
    forall i: nat ensures Reported(q, i) <==> Reported(p, i) {}
    forall i: nat ensures Held(q, i) <==> Held(p, i) || i == p.next {
      if Held(p, i) {
        var v :| HeldBy(p, i, v);
        assert HeldBy(q, i, v);
      }
    }
    forall i: nat, v, x | HeldBy(q, i, v) && HeldBy(q, i, x) ensures v == x {
      if v != w && x != w { assert HeldBy(p, i, v) && HeldBy(p, i, x); }
    }
  }

  lemma FinishInv(p: Pool, w: nat)
    requires Inv(p) && CanStep(p, Finish(w))
    ensures Inv(After(p, Finish(w)))
  {
    var q, k := After(p, Finish(w)), p.workers[w].index;
    WorkerChanges(p, q, w, Idle);
    ResultAdded(p, q, Report(k, p.tasks[k].id, p.tasks[k].ip));
    assert HeldBy(p, k, w);
    assert Held(p, k) && !Reported(p, k);
    forall i: nat ensures Held(q, i) <==> Held(p, i) && i != k {
      if Held(p, i) && i != k {
        var v :| HeldBy(p, i, v);
        assert HeldBy(q, i, v);
      }
      if Held(q, i) {
        var v :| HeldBy(q, i, v);
        assert HeldBy(p, i, v);
      }
    }
    forall i: nat, v, x | HeldBy(q, i, v) && HeldBy(q, i, x) ensures v == x {
      assert HeldBy(p, i, v) && HeldBy(p, i, x);
    }
    forall r | 0 <= r < |p.results| ensures p.results[r].index != k {
      assert p.results[r].index == k ==> Reported(p, k);
    }
  }

  lemma SameHoldersInv(p: Pool, q: Pool)
    requires Inv(p) && q.tasks == p.tasks && q.next == p.next && q.results == p.results
    requires forall i: nat, v :: HeldBy(q, i, v) <==> HeldBy(p, i, v)
    requires |q.workers| == |p.workers|
    requires q.closed && !q.cancelled ==> q.next == |q.tasks|
    requires forall w :: 0 <= w < |q.workers| && q.workers[w].Exited? ==> q.closed
    ensures Inv(q)
  {
    forall i: nat ensures Reported(q, i) <==> Reported(p, i) {}
    forall i: nat ensures Held(q, i) <==> Held(p, i) {
      if Held(q, i) {
        var v :| HeldBy(q, i, v);
        assert HeldBy(p, i, v);
      }
      if Held(p, i) {
        var v :| HeldBy(p, i, v);
        assert HeldBy(q, i, v);
      }
    }
    assert forall r :: 0 <= r < |q.results| ==> Faithful(p, p.results[r]);
    forall i: nat, v, x | HeldBy(q, i, v) && HeldBy(q, i, x) ensures v == x {
      assert HeldBy(p, i, v) && HeldBy(p, i, x);
    }
  }

  lemma StepInv(p: Pool, e: Step)
    requires Inv(p) && CanStep(p, e)
    ensures Inv(After(p, e))
  {
    match e
    case HandOver(w) => HandOverInv(p, w);
    case Finish(w) => FinishInv(p, w);
    case Leave(w) =>
      WorkerChanges(p, After(p, e), w, Exited);
      SameHoldersInv(p, After(p, e));
    case _ => SameHoldersInv(p, After(p, e));
  }

  lemma {:induction false} InvAlways(pools: seq<Pool>, steps: seq<Step>, tasks: seq<Work>, concurrency: int, i: nat)
    requires IsSchedule(pools, steps, tasks, concurrency) && i < |pools|
    ensures Inv(pools[i]) && pools[i].tasks == tasks
  {
    if i == 0 {
      StartInv(tasks, concurrency);
    } else {
      InvAlways(pools, steps, tasks, concurrency, i - 1);
      StepInv(pools[i - 1], steps[i - 1]);
    }
  }

  // ---- No deadlock, termination ------------------------------------------------------

  function Indices(results: seq<Report>): (r: seq<nat>)
    ensures |r| == |results| && forall i :: 0 <= i < |r| ==> r[i] == results[i].index
  {
    seq(|results|, i requires 0 <= i < |results| => results[i].index)
  }

  /** A worker that has a result can always send it: the buffer is never full. */
  lemma SendNeverBlocks(p: Pool, w: nat)
    requires Inv(p) && w < |p.workers| && p.workers[w].Busy?
    ensures CanStep(p, Finish(w))
  {
    var k := p.workers[w].index;
    assert HeldBy(p, k, w);
    assert Held(p, k) && !Reported(p, k);
    assert forall r :: 0 <= r < |p.results| ==> Faithful(p, p.results[r]);
    DistinctBelow(Indices(p.results), |p.tasks|);
    forall r | 0 <= r < |p.results| ensures Indices(p.results)[r] != k {
      assert p.results[r].index != k;
    }
    assert k !in Indices(p.results);
  }

  /** Until wg.Wait returns, something other than a cancellation can happen. */
  lemma NeverStuck(p: Pool)
    requires Inv(p) && !Finished(p)
    ensures exists e: Step :: !e.Cancel? && CanStep(p, e)
  {
    var w :| 0 <= w < |p.workers| && !p.workers[w].Exited?;
    if p.workers[w].Busy? {
      SendNeverBlocks(p, w);
    } else if p.closed {
      assert CanStep(p, Leave(w));
    } else if p.next < |p.tasks| {
      assert CanStep(p, HandOver(w));
    } else {
      assert CanStep(p, CloseJobs);
    }
  }

  function WorkerWeight(workers: seq<Worker>): nat {
    if workers == [] then 0
    else (match workers[0] case Idle => 1 case Busy(_) => 2 case Exited => 0) + WorkerWeight(workers[1..])
  }

  function Remaining(p: Pool): nat
    requires p.next <= |p.tasks|
  {
    2 * (|p.tasks| - p.next) + WorkerWeight(p.workers) + (if p.closed then 0 else 1) + (if p.cancelled then 0 else 1)
  }

  lemma {:induction false} WeightAfter(workers: seq<Worker>, w: nat, worker: Worker)
    requires w < |workers|
    ensures WorkerWeight(workers[w := worker]) - WorkerWeight([worker])
            == WorkerWeight(workers) - WorkerWeight([workers[w]])
  {
    if w > 0 {
      assert workers[w := worker][1..] == workers[1..][w - 1 := worker];
      WeightAfter(workers[1..], w - 1, worker);
    } else {
      assert workers[0 := worker][1..] == workers[1..];
    }
  }

  lemma StepShrinks(p: Pool, e: Step)
    requires Inv(p) && CanStep(p, e)
    ensures After(p, e).next <= |After(p, e).tasks| && Remaining(After(p, e)) < Remaining(p)
  {
    match e
    case HandOver(w) => WeightAfter(p.workers, w, Busy(p.next));
    case Finish(w) => WeightAfter(p.workers, w, Idle);
    case Leave(w) => WeightAfter(p.workers, w, Exited);
    case _ =>
  }

  lemma {:induction false} WeightOfIdle(n: nat)
    ensures WorkerWeight(seq(n, _ => Idle)) == n
  {
    if n == 0 {
    } else {
      assert seq(n, _ => Idle)[1..] == seq(n - 1, _ => Idle);
      WeightOfIdle(n - 1);
    }
  }

  /** Every schedule is finite: at most three steps per task and two more. */
  lemma {:induction false} ScheduleBound(pools: seq<Pool>, steps: seq<Step>, tasks: seq<Work>, concurrency: int, i: nat)
    requires IsSchedule(pools, steps, tasks, concurrency) && i < |pools|
    ensures pools[i].next <= |pools[i].tasks| && i + Remaining(pools[i]) <= 3 * |tasks| + 2
  {
    if i == 0 {
      WeightOfIdle(|pools[0].workers|);
      assert pools[0].workers == seq(|pools[0].workers|, _ => Idle);
    } else {
      ScheduleBound(pools, steps, tasks, concurrency, i - 1);
      InvAlways(pools, steps, tasks, concurrency, i - 1);
      StepShrinks(pools[i - 1], steps[i - 1]);
    }
  }

  // ---- Result ------------------------------------------------------------------------

  /** A result copies id and address of the task it belongs to. */
  predicate Within(report: Report, tasks: seq<Work>) {
    report.index < |tasks| && report.task == tasks[report.index].id && report.ip == tasks[report.index].ip
  }

  /** Each result belongs to one task, and no task has two. */
  ghost predicate AtMostOneEach(results: seq<Report>, tasks: seq<Work>) {
    && (forall r :: 0 <= r < |results| ==> Within(results[r], tasks))
    && (forall r, q :: 0 <= r < q < |results| ==> results[r].index != results[q].index)
  }

  /** Whatever the scheduling, the batch is answered with at most one result per task, and with exactly
      one per task when the context was not cancelled. */
  lemma BatchResults(pools: seq<Pool>, steps: seq<Step>, tasks: seq<Work>, concurrency: int)
    requires IsSchedule(pools, steps, tasks, concurrency) && Finished(pools[|steps|])
    ensures var p := pools[|steps|];
            && AtMostOneEach(p.results, tasks)
            && (!p.cancelled ==> |p.results| == |tasks| && forall i: nat :: i < |tasks| ==> Reported(p, i))
  {
    InvAlways(pools, steps, tasks, concurrency, |steps|);
    var p := pools[|steps|];
    assert forall r :: 0 <= r < |p.results| ==> Faithful(p, p.results[r]);
    if !p.cancelled {
      assert p.next == |tasks| by {
        if |p.workers| > 0 { assert p.workers[0].Exited?; }
      }
      forall i: nat | i < |tasks| ensures Reported(p, i) {
        forall w: nat ensures !HeldBy(p, i, w) {
          assert w < |p.workers| ==> p.workers[w].Exited?;
        }
      }
      EveryIndex(p);
    }
  }

  lemma EveryIndex(p: Pool)
    requires Inv(p) && forall i: nat :: i < |p.tasks| ==> Reported(p, i)
    ensures |p.results| == |p.tasks|
  {
    var xs := Indices(p.results);
    assert forall r :: 0 <= r < |p.results| ==> Faithful(p, p.results[r]);
    forall m: nat | m < |p.tasks| ensures m in xs {
      assert Reported(p, m);
      var r :| 0 <= r < |p.results| && p.results[r].index == m;
      assert xs[r] == m;
    }
    DistinctBelow(xs, |p.tasks|);
  }

  // ---- How many probes run at once -------------------------------------------------------

  function BusyWorkers(p: Pool): set<nat> {
    set w: nat | w < |p.workers| && p.workers[w].Busy?
  }

  /** At any moment at most as many probes run as the concurrency allows, but at least one may, and never more
      than there are tasks. */
  lemma {:induction false} BusyAtMost(pools: seq<Pool>, steps: seq<Step>, tasks: seq<Work>, concurrency: int, i: nat)
    requires IsSchedule(pools, steps, tasks, concurrency) && i < |pools|
    ensures |pools[i].workers| == (if |tasks| == 0 then 0 else if concurrency < 1 then 1
                                   else if concurrency <= |tasks| then concurrency else |tasks|)
    ensures |BusyWorkers(pools[i])| <= |pools[i].workers|
  {
    BelowSize(|pools[i].workers|, BusyWorkers(pools[i]));
    if i == 0 {
    } else {
      BusyAtMost(pools, steps, tasks, concurrency, i - 1);
    }
  }

  lemma BelowSize(n: nat, ws: set<nat>)
    requires forall w :: w in ws ==> w < n
    ensures |ws| <= n
  {
    SubsetSize(ws, Below(n));
    RangeSize(0, n, Below(n));
  }

  /** That many probes can indeed run at once, before anything is cancelled. */
  lemma AllMayBeBusy(tasks: seq<Work>, concurrency: int) returns (pools: seq<Pool>, steps: seq<Step>)
    ensures IsSchedule(pools, steps, tasks, concurrency)
    ensures !pools[|steps|].cancelled
    ensures forall w :: 0 <= w < |pools[|steps|].workers| ==> pools[|steps|].workers[w].Busy?
  {
    pools, steps := HandedOver(tasks, concurrency, |Start(tasks, concurrency).workers|);
  }

  lemma {:induction false} HandedOver(tasks: seq<Work>, concurrency: int, n: nat)
    returns (pools: seq<Pool>, steps: seq<Step>)
    requires n <= |Start(tasks, concurrency).workers|
    ensures IsSchedule(pools, steps, tasks, concurrency) && |steps| == n
    ensures var p := pools[n];
            && |p.workers| == |Start(tasks, concurrency).workers| && p.next == n && p.tasks == tasks
            && !p.closed && !p.cancelled
            && (forall w :: 0 <= w < n ==> p.workers[w].Busy?)
            && (forall w :: n <= w < |p.workers| ==> p.workers[w].Idle?)
  {
    if n == 0 {
      pools, steps := [Start(tasks, concurrency)], [];
    } else {
      pools, steps := HandedOver(tasks, concurrency, n - 1);
      var e := HandOver(n - 1);
      pools, steps := pools + [After(pools[n - 1], e)], steps + [e];
    }
  }
}
