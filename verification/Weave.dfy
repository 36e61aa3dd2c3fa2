/** The 3:2:1 interleave of the champion, challenger and observation queues. */
module Weave {
  import opened Wrappers

  const CHAMPION := 0
  const CHALLENGER := 1
  const OBSERVATION := 2

  /** The tier served in slot `k` of the endlessly repeated pattern. */
  function Lane(k: nat): nat {
    if k % 6 < 3 then CHAMPION else if k % 6 < 5 then CHALLENGER else OBSERVATION
  }

  /** Which item of its tier slot `k` stands for. */
  function Index(k: nat): nat {
    if k % 6 < 3 then 3 * (k / 6) + k % 6
    else if k % 6 < 5 then 2 * (k / 6) + (k % 6 - 3)
    else k / 6
  }

  /** The slot reserved for item `j` of a tier. */
  function Slot(lane: nat, j: nat): nat
    requires lane < 3
  {
    if lane == CHAMPION then 6 * (j / 3) + j % 3
    else if lane == CHALLENGER then 6 * (j / 2) + 3 + j % 2
    else 6 * j + 5
  }

  /** Quotient and remainder of a number given in that form. */
  lemma Divided(n: nat, q: nat, r: nat)
    requires (n == 2 || n == 3 || n == 6) && r < n
    ensures (n * q + r) / n == q && (n * q + r) % n == r
  {
  }

  lemma SlotOfIndex(k: nat)
    ensures Slot(Lane(k), Index(k)) == k
  {
    var round, s := k / 6, k % 6;
    if s < 3 {
      Divided(3, round, s);
    } else if s < 5 {
      Divided(2, round, s - 3);
    }
  }

  lemma IndexOfSlot(lane: nat, j: nat)
    requires lane < 3
    ensures Lane(Slot(lane, j)) == lane && Index(Slot(lane, j)) == j
    ensures Slot(lane, j) < 6 * (j + 1)
  {
    if lane == CHAMPION {
      Divided(6, j / 3, j % 3);
    } else if lane == CHALLENGER {
      Divided(6, j / 2, 3 + j % 2);
    } else {
      Divided(6, j, 5);
    }
  }

  /** Every slot stands for exactly one item of one tier, and every item has exactly one slot. */
  lemma SlotsAreUnique(lane: nat, j: nat, k: nat)
    requires lane < 3
    ensures Lane(k) == lane && Index(k) == j <==> k == Slot(lane, j)
    ensures Slot(lane, j) < 6 * (j + 1)
  {
    SlotOfIndex(k);
    IndexOfSlot(lane, j);
  }

  type Queues<T> = q: seq<seq<T>> | |q| == 3 witness [[], [], []]

  predicate Filled<T>(q: Queues<T>, k: nat) {
    Index(k) < |q[Lane(k)]|
  }

  function At<T>(q: Queues<T>, k: nat): T
    requires Filled(q, k)
  {
    q[Lane(k)][Index(k)]
  }

  /** The filled slots below `n` in order. */
  function Slots<T>(q: Queues<T>, n: nat): seq<nat> {
    if n == 0 then [] else Slots(q, n - 1) + if Filled(q, n - 1) then [n - 1] else []
  }

  function Woven<T>(q: Queues<T>, n: nat): (r: seq<T>)
    ensures |r| == |Slots(q, n)|
  {
    if n == 0 then [] else Woven(q, n - 1) + if Filled(q, n - 1) then [At(q, n - 1)] else []
  }

  function Longest<T>(q: Queues<T>): nat {
    Max(|q[0]|, Max(|q[1]|, |q[2]|))
  }

  function Total<T>(q: Queues<T>): nat { |q[0]| + |q[1]| + |q[2]| }

  /** The reference plan: all items in the order of their slots, cut to the budget. */
  function Plan<T>(q: Queues<T>, budget: nat): seq<T> {
    var all := Woven(q, 6 * Longest(q));
    if |all| <= budget then all else all[..budget]
  }

  // ---- Shape of the reference plan -----------------------------------------------------

  lemma {:induction false} WovenBySlot<T>(q: Queues<T>, n: nat)
    ensures forall i :: 0 <= i < |Slots(q, n)| ==>
              Slots(q, n)[i] < n && Filled(q, Slots(q, n)[i]) && Woven(q, n)[i] == At(q, Slots(q, n)[i])
    ensures forall i, k :: 0 <= i < k < |Slots(q, n)| ==> Slots(q, n)[i] < Slots(q, n)[k]
  {
    if n == 0 {
    } else {
      WovenBySlot(q, n - 1);
    }
  }

  ghost predicate Extends<T>(q: Queues<T>, m: nat, n: nat) {
    Woven(q, m) <= Woven(q, n) && Slots(q, m) <= Slots(q, n)
  }

  lemma ExtendsNext<T>(q: Queues<T>, m: nat, n: nat)
    requires Extends(q, m, n)
    ensures Extends(q, m, n + 1)
  {
    assert Woven(q, n) <= Woven(q, n + 1) && Slots(q, n) <= Slots(q, n + 1);
  }

  lemma {:induction false} WovenPrefix<T>(q: Queues<T>, m: nat, n: nat)
    requires m <= n
    ensures Extends(q, m, n)
  {
    if m == n {
    } else {
      WovenPrefix(q, m, n - 1);
      ExtendsNext(q, m, n - 1);
    }
  }

  /** Slots beyond six times the longest queue are empty. */
  lemma {:induction false} WovenStable<T>(q: Queues<T>, n: nat)
    requires n >= 6 * Longest(q)
    ensures Woven(q, n) == Woven(q, 6 * Longest(q)) && Slots(q, n) == Slots(q, 6 * Longest(q))
  {
    if n == 6 * Longest(q) {
    } else {
      WovenStable(q, n - 1);
      SlotsAreUnique(Lane(n - 1), Index(n - 1), n - 1);
      assert !Filled(q, n - 1);
    }
  }

  /** How many slots of a lane lie below `n`. */
  function Served(lane: nat, n: nat): nat {
    if n == 0 then 0 else Served(lane, n - 1) + if Lane(n - 1) == lane then 1 else 0
  }

  lemma {:induction false} ServedClosed(n: nat)
    ensures Served(CHAMPION, n) == 3 * (n / 6) + Min(n % 6, 3)
    ensures Served(CHALLENGER, n) == 2 * (n / 6) + Max(Min(n % 6, 5) - 3, 0)
    ensures Served(OBSERVATION, n) == n / 6
  {
    if n == 0 {
    } else {
      ServedClosed(n - 1);
      var m := n - 1;
      assert m % 6 == 5 || (n / 6 == m / 6 && n % 6 == m % 6 + 1);
      assert m % 6 == 5 ==> n / 6 == m / 6 + 1 && n % 6 == 0;
    }
  }

  lemma IndexIsServed(k: nat)
    ensures Index(k) == Served(Lane(k), k)
  {
    ServedClosed(k);
  }

  /** Items taken from a queue of length `len` by the slots below `n`. */
  function Taken(lane: nat, len: nat, n: nat): nat { Min(Served(lane, n), len) }

  lemma TakenNext<T>(q: Queues<T>, lane: nat, n: nat)
    requires lane < 3
    ensures Taken(lane, |q[lane]|, n + 1)
            == Taken(lane, |q[lane]|, n) + if lane == Lane(n) && Filled(q, n) then 1 else 0
    ensures lane == Lane(n) && Filled(q, n) ==> Index(n) == Taken(lane, |q[lane]|, n)
    ensures lane == Lane(n) ==> (Filled(q, n) <==> Taken(lane, |q[lane]|, n) < |q[lane]|)
  {
    IndexIsServed(n);
  }

  function TakenAll<T>(q: Queues<T>, n: nat): nat {
    Taken(0, |q[0]|, n) + Taken(1, |q[1]|, n) + Taken(2, |q[2]|, n)
  }

  lemma TakenAllNext<T>(q: Queues<T>, n: nat)
    ensures TakenAll(q, n + 1) == TakenAll(q, n) + if Filled(q, n) then 1 else 0
  {
    TakenNext(q, 0, n);
    TakenNext(q, 1, n);
    TakenNext(q, 2, n);
  }

  lemma WovenNext<T>(q: Queues<T>, n: nat)
    ensures |Woven(q, n + 1)| == |Woven(q, n)| + if Filled(q, n) then 1 else 0
  {
  }

  ghost predicate CountsTaken<T>(q: Queues<T>, n: nat) {
    |Woven(q, n)| == TakenAll(q, n)
  }

  lemma CountsNone<T>(q: Queues<T>)
    ensures CountsTaken(q, 0)
  {
  }

  lemma CountsNext<T>(q: Queues<T>, m: nat, n: nat)
    requires CountsTaken(q, m) && n == m + 1
    ensures CountsTaken(q, n)
  {
    WovenNext(q, m);
    TakenAllNext(q, m);
  }

  /** By the filled slots below `n` each queue has given what its slots allow. */
  lemma {:induction false} WovenLength<T>(q: Queues<T>, n: nat)
    ensures CountsTaken(q, n)
  {
    if n == 0 {
      CountsNone(q);
    } else {
      WovenLength(q, n - 1);
      CountsNext(q, n - 1, n);
    }
  }

  lemma AllWoven<T>(q: Queues<T>)
    ensures |Woven(q, 6 * Longest(q))| == Total(q)
  {
    WovenLength(q, 6 * Longest(q));
    ServedClosed(6 * Longest(q));
  }

  /** The plan is as long as the budget and the queues allow. */
  lemma PlanLength<T>(q: Queues<T>, budget: nat)
    ensures |Plan(q, budget)| == Min(budget, Total(q))
  {
    AllWoven(q);
  }

  /** No tier starves: item `j` of a tier sits at or before its slot, whatever the other queues hold. */
  lemma NoStarvation<T>(q: Queues<T>, budget: nat, lane: nat, j: nat)
    requires lane < 3 && j < |q[lane]| && Slot(lane, j) < budget
    ensures exists i :: 0 <= i <= Slot(lane, j) && i < |Plan(q, budget)| && Plan(q, budget)[i] == q[lane][j]
  {
    var k := Slot(lane, j);
    SlotsAreUnique(lane, j, k);
    var i := PlaceOfSlot(q, k, 6 * Longest(q));
    assert Plan(q, budget)[i] == q[lane][j];
  }

  /** A filled slot appears among the slots below any later bound, at or before its own number. */
  lemma PlaceOfSlot<T>(q: Queues<T>, k: nat, n: nat) returns (i: nat)
    requires Filled(q, k) && k < n
    ensures i == |Woven(q, k)| <= k && i < |Woven(q, n)| && Woven(q, n)[i] == At(q, k)
  {
    i := |Woven(q, k)|;
    WovenAtMost(q, k);
    WovenPrefix(q, k + 1, n);
    assert Woven(q, k + 1)[i] == At(q, k);
  }

  /** What is planned before item `j` of a queue: what three champion, two challenger and one observation places
      per round have served by then, as far as the queues reach. */
  ghost function Before(champions: nat, challengers: nat, observed: nat, lane: nat, j: nat): nat {
    if lane == 0 then j + Min(2 * (j / 3), challengers) + Min(j / 3, observed)
    else if lane == 1 then Min(3 * (j / 2) + 3, champions) + j + Min(j / 2, observed)
    else Min(3 * j + 3, champions) + Min(2 * j + 2, challengers) + j
  }

  /** The exact place of every item in the plan, or that the budget cuts it off. */
  lemma PlaceInPlan<T>(q: Queues<T>, budget: nat, lane: nat, j: nat)
    requires lane < 3 && j < |q[lane]|
    ensures var i := Before(|q[0]|, |q[1]|, |q[2]|, lane, j);
            && (i < budget <==> i < |Plan(q, budget)|)
            && (i < budget ==> Plan(q, budget)[i] == q[lane][j])
  {
    var k := Slot(lane, j);
    SlotsAreUnique(lane, j, k);
    var i := PlaceOfSlot(q, k, 6 * Longest(q));
    BeforeIsWoven(q, lane, j);
  }

  lemma BeforeIsWoven<T>(q: Queues<T>, lane: nat, j: nat)
    requires lane < 3 && j < |q[lane]|
    ensures |Woven(q, Slot(lane, j))| == Before(|q[0]|, |q[1]|, |q[2]|, lane, j)
  {
    WovenLength(q, Slot(lane, j));
    if lane == 0 {
      ServedBeforeChampion(j);
    } else if lane == 1 {
      ServedBeforeChallenger(j);
    } else {
      ServedBeforeObservation(j);
    }
  }

  lemma ServedBeforeChampion(j: nat)
    ensures var k := Slot(CHAMPION, j);
            Served(0, k) == j && Served(1, k) == 2 * (j / 3) && Served(2, k) == j / 3
  {
    ServedClosed(Slot(CHAMPION, j));
    Divided(6, j / 3, j % 3);
  }

  lemma ServedBeforeChallenger(j: nat)
    ensures var k := Slot(CHALLENGER, j);
            Served(0, k) == 3 * (j / 2) + 3 && Served(1, k) == j && Served(2, k) == j / 2
  {
    ServedClosed(Slot(CHALLENGER, j));
    Divided(6, j / 2, 3 + j % 2);
  }

  lemma ServedBeforeObservation(j: nat)
    ensures var k := Slot(OBSERVATION, j);
            Served(0, k) == 3 * j + 3 && Served(1, k) == 2 * j + 2 && Served(2, k) == j
  {
    ServedClosed(Slot(OBSERVATION, j));
    Divided(6, j, 5);
  }

  /** While the budget is not exhausted every queued item is planned. */
  lemma {:induction false} AllServed<T>(q: Queues<T>, budget: nat, lane: nat, j: nat)
    requires lane < 3 && j < |q[lane]| && |Plan(q, budget)| < budget
    ensures q[lane][j] in Plan(q, budget)
  {
    var k := Slot(lane, j);
    SlotsAreUnique(lane, j, k);
    var i := PlaceOfSlot(q, k, 6 * Longest(q));
    assert Plan(q, budget)[i] == q[lane][j];
  }

  lemma {:induction false} WovenAtMost<T>(q: Queues<T>, n: nat)
    ensures |Woven(q, n)| <= n
  {
    if n == 0 {
    } else {
      WovenAtMost(q, n - 1);
    }
  }

  /** A plan is the items of the filled slots below some bound, in slot order. */
  lemma {:induction false} PlanIsWoven<T>(q: Queues<T>, budget: nat, n: nat) returns (m: nat)
    requires budget <= |Woven(q, n)|
    ensures m <= n && Woven(q, n)[..budget] == Woven(q, m)
  {
    if budget == |Woven(q, n)| {
      m := n;
    } else {
      m := PlanIsWoven(q, budget, n - 1);
      WovenPrefix(q, n - 1, n);
    }
  }

  /** Each tier's picks are a prefix of its queue, and they appear in queue order. */
  lemma PicksAreInOrder<T>(q: Queues<T>, budget: nat)
    ensures exists m :: Plan(q, budget) == Woven(q, m) && PicksBelow(q, m)
  {
    var n := 6 * Longest(q);
    var m := n;
    if budget < |Woven(q, n)| {
      m := PlanIsWoven(q, budget, n);
    }
    PicksBelowHolds(q, m);
    assert Plan(q, budget) == Woven(q, m) && PicksBelow(q, m);
  }

  /** Exactly the first Served(lane, m) items of each queue are taken, each once; `Slots` says where. */
  ghost predicate PicksBelow<T>(q: Queues<T>, m: nat) {
    var s := Slots(q, m);
    && (forall i :: 0 <= i < |s| ==> Filled(q, s[i]) && Woven(q, m)[i] == At(q, s[i]))
    && (forall i, k :: 0 <= i < k < |s| ==> s[i] < s[k])
    && (forall lane, j | 0 <= lane < 3 && 0 <= j < |q[lane]| :: Slot(lane, j) in s <==> j < Served(lane, m))
  }

  lemma {:induction false} SlotsComplete<T>(q: Queues<T>, n: nat, k: nat)
    ensures k in Slots(q, n) <==> k < n && Filled(q, k)
  {
    if n == 0 {
    } else {
      SlotsComplete(q, n - 1, k);
    }
  }

  lemma RoundOf(m: nat) returns (round: nat, slot: nat)
    ensures m == 6 * round + slot && slot < 6
    ensures Served(CHAMPION, m) == 3 * round + Min(slot, 3)
    ensures Served(CHALLENGER, m) == 2 * round + Max(Min(slot, 5) - 3, 0)
    ensures Served(OBSERVATION, m) == round
  {
    ServedClosed(m);
    round, slot := m / 6, m % 6;
  }

  lemma ServedIsSlotBound(lane: nat, j: nat, m: nat)
    requires lane < 3
    ensures Slot(lane, j) < m <==> j < Served(lane, m)
  {
    var round, slot := RoundOf(m);
    if lane == CHAMPION {
      Below(j / 3, j % 3, 3, round, Min(slot, 3));
    } else if lane == CHALLENGER {
      Below(j / 2, j % 2, 2, round, Max(Min(slot, 5) - 3, 0));
    }
  }

  /** Comparing quotients and remainders compares numbers. */
  lemma Below(q: nat, r: nat, n: nat, p: nat, e: nat)
    requires 2 <= n <= 3 && r < n && e <= n
    ensures n * q + r < n * p + e <==> q < p || (q == p && r < e)
  {
  }

  lemma PicksBelowHolds<T>(q: Queues<T>, m: nat)
    ensures PicksBelow(q, m)
  {
    WovenBySlot(q, m);
    forall lane, j | 0 <= lane < 3 && 0 <= j < |q[lane]|
      ensures Slot(lane, j) in Slots(q, m) <==> j < Served(lane, m)
    {
      SlotsAreUnique(lane, j, Slot(lane, j));
      SlotsComplete(q, m, Slot(lane, j));
      ServedIsSlotBound(lane, j, m);
    }
  }

  /** A smaller budget yields a prefix of the plan for a larger one. */
  lemma SmallerBudgetIsPrefix<T>(q: Queues<T>, small: nat, large: nat)
    requires small <= large
    ensures Plan(q, small) <= Plan(q, large)
  {
  }

  // ---- The loop ------------------------------------------------------------------------

  /** What the loop knows after serving the slots below `slot`. */
  ghost predicate OnTrack<T>(q: Queues<T>, slot: nat, positions: seq<nat>, result: seq<T>) {
    && result == Woven(q, slot)
    && |positions| == 3
    && positions[0] == Taken(0, |q[0]|, slot)
    && positions[1] == Taken(1, |q[1]|, slot)
    && positions[2] == Taken(2, |q[2]|, slot)
  }

  lemma NextSlot<T>(q: Queues<T>, slot: nat, positions: seq<nat>, result: seq<T>, tier: nat)
    requires OnTrack(q, slot, positions, result) && tier == Lane(slot)
    ensures tier < 3 && positions[tier] <= |q[tier]|
    ensures if positions[tier] < |q[tier]|
            then OnTrack(q, slot + 1, positions[tier := positions[tier] + 1], result + [q[tier][positions[tier]]])
            else OnTrack(q, slot + 1, positions, result)
  {
    TakenNext(q, 0, slot);
    TakenNext(q, 1, slot);
    TakenNext(q, 2, slot);
  }

  /** Serving stops when the budget is spent, or after a whole round in which nothing was added. */
  lemma StopsAtPlan<T>(q: Queues<T>, slot: nat, positions: seq<nat>, result: seq<T>, budget: nat)
    requires OnTrack(q, slot, positions, result) && |result| <= budget
    requires |result| == budget || |result| == Total(q)
    ensures result == Plan(q, budget)
  {
    var n := 6 * Longest(q);
    AllWoven(q);
    if slot <= n { WovenPrefix(q, slot, n); } else { WovenStable(q, slot); }
  }

  /** The tier of the k-th entry of the pattern. */
  lemma PatternLane(round: nat, k: nat)
    requires k < 6
    ensures Lane(6 * round + k) == [CHAMPION, CHAMPION, CHAMPION, CHALLENGER, CHALLENGER, OBSERVATION][k]
  {
  }

  lemma AllFull<T>(q: Queues<T>, slot: nat, positions: seq<nat>, result: seq<T>)
    requires OnTrack(q, slot, positions, result)
    ensures |result| == positions[0] + positions[1] + positions[2]
  {
    WovenLength(q, slot);
  }

  method Interleave<T>(q: Queues<T>, budget: nat) returns (result: seq<T>)
    ensures result == Plan(q, budget)
  {
    var pattern := [CHAMPION, CHAMPION, CHAMPION, CHALLENGER, CHALLENGER, OBSERVATION];
    var positions: seq<nat> := [0, 0, 0];
    result := [];
    ghost var round, slot := 0, 0;
    while |result| < budget
      invariant |result| <= budget && OnTrack(q, slot, positions, result)
      invariant |result| < budget ==> slot == 6 * round
      decreases budget - |result|
    {
      var added := false;
      ghost var before := |result|;
      for k := 0 to 6
        invariant slot == 6 * round + k && |result| < budget && OnTrack(q, slot, positions, result)
        invariant if added then |result| > before else |result| == before
        invariant !added && k > 0 ==> positions[0] == |q[0]|
        invariant !added && k > 3 ==> positions[1] == |q[1]|
        invariant !added && k > 5 ==> positions[2] == |q[2]|
      {
        var tier := pattern[k];
        PatternLane(round, k);
        NextSlot(q, slot, positions, result, tier);
        slot := slot + 1;
        var position := positions[tier];
        if position < |q[tier]| {
          result := result + [q[tier][position]];
          positions := positions[tier := position + 1];
          added := true;
          if |result| >= budget {
            break;
          }
        }
      }
      AllFull(q, slot, positions, result);
      if !added {
        break;
      }
      round := round + 1;
    }
    StopsAtPlan(q, slot, positions, result, budget);
  }
}
