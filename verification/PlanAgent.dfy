/** The plan of one agent and what it guarantees. */
module PlanAgent {
  import opened Wrappers
  import opened Cardinality
  import opened Cidr
  import opened Sampler
  import opened Sorting
  import opened League
  import opened LeagueItems
  import opened LeaguePlan
  import opened RoundRobin
  import Weave

  // ---- Flattening one tier --------------------------------------------------------------

  ghost predicate IsPerm(perm: seq<nat>, n: nat) {
    |perm| == n && Distinct(perm) && forall i :: 0 <= i < n ==> perm[i] < n
  }

  function ItemLists(groups: seq<Group>): (r: seq<seq<Target>>)
    ensures |r| == |groups| && forall i :: 0 <= i < |r| ==> r[i] == groups[i].items
  {
    seq(|groups|, i requires 0 <= i < |groups| => groups[i].items)
  }

  function Permuted(groups: seq<Group>, perm: seq<nat>): (r: seq<Group>)
    requires IsPerm(perm, |groups|)
    ensures |r| == |groups| && forall i :: 0 <= i < |r| ==> r[i] == groups[perm[i]]
  {
    seq(|groups|, i requires 0 <= i < |groups| => groups[perm[i]])
  }

  /** `out` lists the groups, arranged by score as `perm` says, round by round as `cells` says. */
  ghost predicate FlattenedBy(groups: seq<Group>, seed: string, h: Hashes, perm: seq<nat>, cells: seq<Cell>,
                              out: seq<Target>)
  {
    && IsPerm(perm, |groups|)
    && var sorted := Permuted(groups, perm);
       && (forall i, k :: 0 <= i < k < |sorted| ==>
             h.groupScore(seed, sorted[i].cidr) <= h.groupScore(seed, sorted[k].cidr))
       && Lists(ItemLists(sorted), cells, out) && Complete(Lengths(ItemLists(sorted)), cells)
  }

  method FlattenGroups(groups: seq<Group>, seed: string, h: Hashes)
    returns (out: seq<Target>, ghost perm: seq<nat>, ghost cells: seq<Cell>)
    ensures FlattenedBy(groups, seed, h, perm, cells, out)
  {
    var less := (a: Group, b: Group) => h.groupScore(seed, a.cidr) < h.groupScore(seed, b.cidr);
    var sorted;
    sorted, perm := SortSlice(groups, less);
    assert IsOrderOn(groups, less);
    assert sorted == Permuted(groups, perm);
    forall i, k | 0 <= i < k < |sorted|
      ensures h.groupScore(seed, sorted[i].cidr) <= h.groupScore(seed, sorted[k].cidr)
    {
      assert !less(sorted[k], sorted[i]);
    }
    out, cells := Flatten(ItemLists(sorted));
  }

  function Placed(lane: nat, perm: seq<nat>, c: Cell): Place
    requires c.group < |perm|
  {
    Place(lane, perm[c.group], c.item)
  }

  ghost predicate LanePlaces(lanes: Lanes, lane: nat, places: seq<Place>, out: seq<Target>)
    requires lane < 3
  {
    && |places| == |out| && Distinct(places)
    && (forall i :: 0 <= i < |places| ==>
          places[i].lane == lane && Holds(lanes, places[i]) && out[i] == ItemAt(lanes, places[i]))
    && (forall x: Place :: x.lane == lane && Holds(lanes, x) ==> x in places)
  }

  /** Flattening outputs every queued target of the tier exactly once. */
  lemma FlattenedPlaces(lanes: Lanes, lane: nat, seed: string, h: Hashes, perm: seq<nat>, cells: seq<Cell>,
                        out: seq<Target>)
    returns (places: seq<Place>)
    requires lane < 3 && FlattenedBy(lanes[lane], seed, h, perm, cells, out)
    ensures LanePlaces(lanes, lane, places, out)
  {
    var lists := ItemLists(Permuted(lanes[lane], perm));
    forall i | 0 <= i < |cells| ensures cells[i].group < |perm| {
      assert cells[i] in cells;
    }
    places := seq(|cells|, i requires 0 <= i < |cells| => Placed(lane, perm, cells[i]));
    forall i | 0 <= i < |places| ensures Holds(lanes, places[i]) && out[i] == ItemAt(lanes, places[i]) {
      assert Inside(lists, cells[i]);
    }
    forall i, k | 0 <= i < k < |places| ensures places[i] != places[k] {
      assert Earlier(cells[i], cells[k]);
    }
    forall x: Place | x.lane == lane && Holds(lanes, x) ensures x in places {
      var c := CellOf(lanes, x, perm);
      assert c in cells;
      var i :| 0 <= i < |cells| && cells[i] == c;
      assert places[i] == x;
    }
  }

  lemma CellOf(lanes: Lanes, x: Place, perm: seq<nat>) returns (c: Cell)
    requires Holds(lanes, x) && IsPerm(perm, |lanes[x.lane]|)
    ensures c.group < |perm| && Placed(x.lane, perm, c) == x
    ensures Inside(ItemLists(Permuted(lanes[x.lane], perm)), c)
  {
    DistinctBelow(perm, |perm|);
    assert x.group in perm;
    var g :| 0 <= g < |perm| && perm[g] == x.group;
    c := Cell(g, x.item);
  }

  // ---- Counting queued targets ----------------------------------------------------------

  function ItemCount(groups: seq<Group>, n: nat): nat
    requires n <= |groups|
  {
    if n == 0 then 0 else ItemCount(groups, n - 1) + |groups[n - 1].items|
  }

  function QueuedTotal(lanes: Lanes): nat {
    ItemCount(lanes[0], |lanes[0]|) + ItemCount(lanes[1], |lanes[1]|) + ItemCount(lanes[2], |lanes[2]|)
  }

  function Column(lane: nat, g: nat, n: nat): (r: set<Place>)
    ensures |r| == n && forall x :: x in r <==> x.lane == lane && x.group == g && x.item < n
  {
    if n == 0 then {} else Column(lane, g, n - 1) + {Place(lane, g, n - 1)}
  }

  function PlacesUpTo(groups: seq<Group>, lane: nat, n: nat): set<Place>
    requires n <= |groups|
  {
    set g: nat, j: nat | g < n && j < |groups[g].items| :: Place(lane, g, j)
  }

  lemma PlacesNext(groups: seq<Group>, lane: nat, n: nat)
    requires 0 < n <= |groups|
    ensures var before, column := PlacesUpTo(groups, lane, n - 1), Column(lane, n - 1, |groups[n - 1].items|);
            before !! column && PlacesUpTo(groups, lane, n) == before + column
  {
    var before, column := PlacesUpTo(groups, lane, n - 1), Column(lane, n - 1, |groups[n - 1].items|);
    forall x ensures x in PlacesUpTo(groups, lane, n) <==> x in before || x in column {
    }
  }

  lemma NoPlaces(groups: seq<Group>, lane: nat)
    ensures PlacesUpTo(groups, lane, 0) == {}
  {
  }

  lemma {:induction false} PlacesCount(groups: seq<Group>, lane: nat, n: nat)
    requires n <= |groups|
    ensures |PlacesUpTo(groups, lane, n)| == ItemCount(groups, n)
  {
    if n == 0 {
      NoPlaces(groups, lane);
    } else {
      var before, column := PlacesUpTo(groups, lane, n - 1), Column(lane, n - 1, |groups[n - 1].items|);
      PlacesCount(groups, lane, n - 1);
      assert PlacesUpTo(groups, lane, n) == before + column && before !! column by { PlacesNext(groups, lane, n); }
    }
  }

  lemma LaneCount(lanes: Lanes, lane: nat, places: seq<Place>, out: seq<Target>)
    requires lane < 3 && LanePlaces(lanes, lane, places, out)
    ensures |out| == ItemCount(lanes[lane], |lanes[lane]|)
  {
    DistinctSize(places);
    PlacesCount(lanes[lane], lane, |lanes[lane]|);
    assert Elements(places) == PlacesUpTo(lanes[lane], lane, |lanes[lane]|);
  }

  // ---- The planner ----------------------------------------------------------------------

  /** The intermediate values of one planning run. */
  datatype Trace = Trace(now: Time, order: seq<Entry>, perm: seq<nat>, perms: seq<seq<nat>>, cells: seq<seq<Cell>>,
                         flat: Weave.Queues<Target>)

  function DueEntries(entries: seq<Entry>, n: nat, now: Time, force: bool): seq<Entry>
    requires n <= |entries|
  {
    if n == 0 then []
    else DueEntries(entries, n - 1, now, force) + if EntryDue(entries[n - 1], now, force) then [entries[n - 1]] else []
  }

  ghost predicate AllFlattened(lanes: Lanes, seed: string, h: Hashes, perms: seq<seq<nat>>, cells: seq<seq<Cell>>,
                               flat: Weave.Queues<Target>)
  {
    && |perms| == 3 && |cells| == 3
    && FlattenedBy(lanes[0], seed, h, perms[0], cells[0], flat[0])
    && FlattenedBy(lanes[1], seed, h, perms[1], cells[1], flat[1])
    && FlattenedBy(lanes[2], seed, h, perms[2], cells[2], flat[2])
  }

  function NowOf(o: Options, clock: Time): Time {
    if o.now.Some? then o.now.value else clock
  }

  /** The target lies inside its recorded prefix, which belongs to an active due entry. */
  ghost predicate ForDueEntry(target: Target, entries: seq<Entry>, now: Time, force: bool) {
    exists e :: e in entries && e.active && EntryDue(e, now, force) && e.cidr.parsed.Some?
      && InBlock(target, Masked(e.cidr.parsed.value))
  }

  /** Each due entry once, sorted when the planner's comparison orders them. */
  ghost predicate InOrder(due: seq<Entry>, order: seq<Entry>, perm: seq<nat>, seed: string, h: Hashes) {
    && Rearranges(order, due, perm) && multiset(order) == multiset(due)
    && (IsOrderOn(due, ByEntry(seed, h)) ==> Sorted(order, ByEntry(seed, h)))
  }

  ghost predicate IsPlan(entries: seq<Entry>, candidates: Known, o: Options, clock: Time, h: Hashes,
                         t: Trace, result: seq<Target>)
  {
    && t.now == NowOf(o, clock)
    && InOrder(DueEntries(entries, |entries|, t.now, o.force), t.order, t.perm, o.seed, h)
    && AllFlattened(QueuesOf(t.order, |t.order|, candidates, o.seed, h).lanes, o.seed, h, t.perms, t.cells, t.flat)
    && result == Weave.Plan(t.flat, Budget(o.budget))
  }

  method FilterDue(entries: seq<Entry>, now: Time, force: bool) returns (due: seq<Entry>)
    ensures due == DueEntries(entries, |entries|, now, force)
  {
    due := [];
    for i := 0 to |entries|
      invariant due == DueEntries(entries, i, now, force)
    {
      if EntryDue(entries[i], now, force) {
        due := due + [entries[i]];
      }
    }
  }

  method QueueAll(due: seq<Entry>, candidates: Known, seed: string, h: Hashes) returns (queues: Lanes)
    ensures queues == QueuesOf(due, |due|, candidates, seed, h).lanes
  {
    queues := [[], [], []];
    var seen := new Seen();
    for k := 0 to |due|
      invariant fresh(seen)
      invariant Queued(queues, seen.texts) == QueuesOf(due, k, candidates, seed, h)
    {
      var entry := due[k];
      if entry.cidr.parsed.None? {
        continue;
      }
      var items := CollectItems(entry, CandidatesOf(candidates, entry.cidr), seed, h, seen);
      if |items| > 0 {
        var lane := LaneOf(entry.tier);
        queues := queues[lane := queues[lane] + [Group(CidrString(Masked(entry.cidr.parsed.value)), items)]];
      }
    }
  }

  method FlattenTiers(queues: Lanes, seed: string, h: Hashes)
    returns (flat: Weave.Queues<Target>, ghost perms: seq<seq<nat>>, ghost cells: seq<seq<Cell>>)
    ensures AllFlattened(queues, seed, h, perms, cells, flat)
  {
    var champion, challenger, observation;
    ghost var p0, c0, p1, c1, p2, c2;
    champion, p0, c0 := FlattenGroups(queues[Weave.CHAMPION], seed, h);
    challenger, p1, c1 := FlattenGroups(queues[Weave.CHALLENGER], seed, h);
    observation, p2, c2 := FlattenGroups(queues[Weave.OBSERVATION], seed, h);
    flat, perms, cells := [champion, challenger, observation], [p0, p1, p2], [c0, c1, c2];
  }

  method PlanAgent(entries: seq<Entry>, candidates: Known, o: Options, clock: Time, h: Hashes)
    returns (result: seq<Target>, ghost t: Trace)
    ensures IsPlan(entries, candidates, o, clock, h, t, result)
    ensures |result| <= Budget(o.budget) && DistinctIps(result)
    ensures forall i :: 0 <= i < |result| ==> ForDueEntry(result[i], entries, NowOf(o, clock), o.force)
  {
    var budget := if o.budget <= 0 || o.budget > MAX_SAMPLE_TARGETS then MAX_SAMPLE_TARGETS else o.budget;
    var now := if o.now.None? then clock else o.now.value;
    var due := FilterDue(entries, now, o.force);
    var order;
    ghost var perm;
    order, perm := SortSlice(due, ByEntry(o.seed, h));
    var queues := QueueAll(order, candidates, o.seed, h);
    var flat;
    ghost var perms, cells;
    flat, perms, cells := FlattenTiers(queues, o.seed, h);
    result := Weave.Interleave(flat, budget);
    t := Trace(now, order, perm, perms, cells, flat);
    PlanIsSafe(entries, candidates, o, clock, h, t, result);
  }

  // ---- Guarantees -----------------------------------------------------------------------

  /** Every planned target is a queued one, and no queued target is planned twice. */
  ghost predicate PlanPlaces(lanes: Lanes, places: seq<Place>, result: seq<Target>) {
    && |places| == |result| && Distinct(places)
    && forall i :: 0 <= i < |places| ==> Holds(lanes, places[i]) && result[i] == ItemAt(lanes, places[i])
  }

  ghost predicate AllLanePlaces(lanes: Lanes, all: seq<seq<Place>>, flat: Weave.Queues<Target>) {
    |all| == 3 && LanePlaces(lanes, 0, all[0], flat[0]) && LanePlaces(lanes, 1, all[1], flat[1])
      && LanePlaces(lanes, 2, all[2], flat[2])
  }

  lemma FindLanePlaces(entries: seq<Entry>, candidates: Known, o: Options, clock: Time, h: Hashes, t: Trace,
                       result: seq<Target>)
    returns (all: seq<seq<Place>>)
    requires IsPlan(entries, candidates, o, clock, h, t, result)
    ensures AllLanePlaces(QueuesOf(t.order, |t.order|, candidates, o.seed, h).lanes, all, t.flat)
  {
    var lanes := QueuesOf(t.order, |t.order|, candidates, o.seed, h).lanes;
    var a := FlattenedPlaces(lanes, 0, o.seed, h, t.perms[0], t.cells[0], t.flat[0]);
    var b := FlattenedPlaces(lanes, 1, o.seed, h, t.perms[1], t.cells[1], t.flat[1]);
    var c := FlattenedPlaces(lanes, 2, o.seed, h, t.perms[2], t.cells[2], t.flat[2]);
    all := [a, b, c];
  }

  lemma LaneAt(lanes: Lanes, all: seq<seq<Place>>, flat: Weave.Queues<Target>, lane: nat)
    requires AllLanePlaces(lanes, all, flat) && lane < 3
    ensures LanePlaces(lanes, lane, all[lane], flat[lane])
  {
  }

  lemma WovenPlaces(lanes: Lanes, all: seq<seq<Place>>, flat: Weave.Queues<Target>, budget: nat)
    returns (places: seq<Place>)
    requires AllLanePlaces(lanes, all, flat)
    ensures PlanPlaces(lanes, places, Weave.Plan(flat, budget))
  {
    var result := Weave.Plan(flat, budget);
    Weave.PicksAreInOrder(flat, budget);
    var m :| result == Weave.Woven(flat, m) && Weave.PicksBelow(flat, m);
    var s := Weave.Slots(flat, m);
    forall k: nat | Weave.Filled(flat, k)
      ensures Weave.Index(k) < |all[Weave.Lane(k)]|
      ensures var x := all[Weave.Lane(k)][Weave.Index(k)];
              Holds(lanes, x) && x.lane == Weave.Lane(k) && ItemAt(lanes, x) == Weave.At(flat, k)
    {
      LaneAt(lanes, all, flat, Weave.Lane(k));
    }
    places := seq(|s|, i requires 0 <= i < |s| => all[Weave.Lane(s[i])][Weave.Index(s[i])]);
    forall i, k | 0 <= i < k < |places| ensures places[i] != places[k] {
      SlotsDiffer(lanes, all, flat, s[i], s[k]);
    }
  }

  lemma SlotsDiffer(lanes: Lanes, all: seq<seq<Place>>, flat: Weave.Queues<Target>, i: nat, k: nat)
    requires AllLanePlaces(lanes, all, flat) && i != k && Weave.Filled(flat, i) && Weave.Filled(flat, k)
    requires Weave.Index(i) < |all[Weave.Lane(i)]| && Weave.Index(k) < |all[Weave.Lane(k)]|
    ensures all[Weave.Lane(i)][Weave.Index(i)] != all[Weave.Lane(k)][Weave.Index(k)]
  {
    LaneAt(lanes, all, flat, Weave.Lane(i));
    LaneAt(lanes, all, flat, Weave.Lane(k));
    if Weave.Lane(i) == Weave.Lane(k) {
      Weave.SlotsAreUnique(Weave.Lane(i), Weave.Index(i), i);
      Weave.SlotsAreUnique(Weave.Lane(i), Weave.Index(i), k);
      var places, x, y := all[Weave.Lane(i)], Weave.Index(i), Weave.Index(k);
      if x < y { assert places[x] != places[y]; } else { assert places[y] != places[x]; }
    }
  }

  lemma FindPlaces(entries: seq<Entry>, candidates: Known, o: Options, clock: Time, h: Hashes, t: Trace,
                   result: seq<Target>)
    returns (places: seq<Place>)
    requires IsPlan(entries, candidates, o, clock, h, t, result)
    ensures PlanPlaces(QueuesOf(t.order, |t.order|, candidates, o.seed, h).lanes, places, result)
  {
    var all := FindLanePlaces(entries, candidates, o, clock, h, t, result);
    places := WovenPlaces(QueuesOf(t.order, |t.order|, candidates, o.seed, h).lanes, all, t.flat, Budget(o.budget));
  }

  /** The plan is as long as the budget and the queued targets allow. */
  lemma PlanLength(entries: seq<Entry>, candidates: Known, o: Options, clock: Time, h: Hashes, t: Trace,
                   result: seq<Target>)
    requires IsPlan(entries, candidates, o, clock, h, t, result)
    ensures |result| == Min(Budget(o.budget), QueuedTotal(QueuesOf(t.order, |t.order|, candidates, o.seed, h).lanes))
  {
    var lanes := QueuesOf(t.order, |t.order|, candidates, o.seed, h).lanes;
    var all := FindLanePlaces(entries, candidates, o, clock, h, t, result);
    LaneCount(lanes, 0, all[0], t.flat[0]);
    LaneCount(lanes, 1, all[1], t.flat[1]);
    LaneCount(lanes, 2, all[2], t.flat[2]);
    Weave.PlanLength(t.flat, Budget(o.budget));
  }

  /** No two planned targets have the same address text. */
  lemma TextsDistinct(entries: seq<Entry>, candidates: Known, o: Options, clock: Time, h: Hashes, t: Trace,
                      result: seq<Target>)
    requires IsPlan(entries, candidates, o, clock, h, t, result)
    ensures DistinctIps(result)
  {
    var q := QueuesOf(t.order, |t.order|, candidates, o.seed, h);
    var places := FindPlaces(entries, candidates, o, clock, h, t, result);
    QueuesNoClash(t.order, |t.order|, candidates, o.seed, h);
    forall i, k | 0 <= i < k < |result| ensures result[i].ip != result[k].ip {
      assert !Clash(q.lanes, places[i], places[k]);
    }
  }

  /** Candidate addresses are written in canonical form. */
  ghost predicate CanonicalCandidates(candidates: Known) {
    forall c, i | c in candidates && 0 <= i < |candidates[c]| :: candidates[c][i].spelling == 0
  }

  /** Where a planned target comes from: a parsable entry that is active and due, in whose block it lies. */
  lemma SourceOf(entries: seq<Entry>, candidates: Known, o: Options, clock: Time, h: Hashes, t: Trace,
                 result: seq<Target>,
                 i: nat)
    returns (e: Entry, x: Place, items: seq<Target>, anchors: nat)
    requires IsPlan(entries, candidates, o, clock, h, t, result) && i < |result|
    ensures e in entries && EntryDue(e, t.now, o.force) && e in t.order
    ensures Contribution(e, CandidatesOf(candidates, e.cidr), o.seed, h, items, anchors)
    ensures x.item < |items| && items[x.item] == result[i]
  {
    var lanes := QueuesOf(t.order, |t.order|, candidates, o.seed, h).lanes;
    var places := FindPlaces(entries, candidates, o, clock, h, t, result);
    QueuesSourced(t.order, |t.order|, candidates, o.seed, h);
    x := places[i];
    assert HasGroup(lanes, x.lane, x.group)
      && Sourced(lanes, x.lane, x.group, t.order, |t.order|, candidates, o.seed, h);
    var k :| 0 <= k < |t.order| && ComesFrom(x.lane, lanes[x.lane][x.group], t.order[k], candidates, o.seed, h);
    e, items := t.order[k], lanes[x.lane][x.group].items;
    anchors :| Contribution(e, CandidatesOf(candidates, e.cidr), o.seed, h, items, anchors);
    DueEntriesAreDue(entries, |entries|, t.now, o.force, t.perm[k]);
  }

  lemma {:induction false} DueEntriesAreDue(entries: seq<Entry>, n: nat, now: Time, force: bool, k: nat)
    requires n <= |entries| && k < |DueEntries(entries, n, now, force)|
    ensures DueEntries(entries, n, now, force)[k] in entries
            && EntryDue(DueEntries(entries, n, now, force)[k], now, force)
  {
    if k < |DueEntries(entries, n - 1, now, force)| { DueEntriesAreDue(entries, n - 1, now, force, k); }
  }

  /** Every planned target lies inside the prefix recorded with it, and that prefix belongs to an entry that
      is active and due. */
  lemma TargetsBelongToDueEntries(entries: seq<Entry>, candidates: Known, o: Options, clock: Time, h: Hashes, t: Trace,
                                  result: seq<Target>, i: nat)
    requires IsPlan(entries, candidates, o, clock, h, t, result) && i < |result|
    ensures ForDueEntry(result[i], entries, NowOf(o, clock), o.force)
  {
    var e, x, items, anchors := SourceOf(entries, candidates, o, clock, h, t, result, i);
    assert InBlock(items[x.item], Masked(e.cidr.parsed.value));
  }

  lemma PlanIsSafe(entries: seq<Entry>, candidates: Known, o: Options, clock: Time, h: Hashes, t: Trace,
                   result: seq<Target>)
    requires IsPlan(entries, candidates, o, clock, h, t, result)
    ensures |result| <= Budget(o.budget) && DistinctIps(result)
    ensures forall i :: 0 <= i < |result| ==> ForDueEntry(result[i], entries, NowOf(o, clock), o.force)
  {
    PlanLength(entries, candidates, o, clock, h, t, result);
    TextsDistinct(entries, candidates, o, clock, h, t, result);
    forall i | 0 <= i < |result| ensures ForDueEntry(result[i], entries, NowOf(o, clock), o.force) {
      TargetsBelongToDueEntries(entries, candidates, o, clock, h, t, result, i);
    }
  }

  /** With canonical candidates the planned addresses themselves are distinct, across anchors and samples. */
  lemma AddressesDistinct(entries: seq<Entry>, candidates: Known, o: Options, clock: Time, h: Hashes, t: Trace,
                          result: seq<Target>, i: nat, k: nat)
    requires IsPlan(entries, candidates, o, clock, h, t, result) && CanonicalCandidates(candidates)
    requires i < k < |result|
    ensures result[i].ip.parsed.Some? && result[k].ip.parsed.Some?
            && result[i].ip.parsed.value != result[k].ip.parsed.value
  {
    TextsDistinct(entries, candidates, o, clock, h, t, result);
    PlannedCanonical(entries, candidates, o, clock, h, t, result, i);
    PlannedCanonical(entries, candidates, o, clock, h, t, result, k);
  }

  lemma PlannedCanonical(entries: seq<Entry>, candidates: Known, o: Options, clock: Time, h: Hashes, t: Trace,
                         result: seq<Target>, i: nat)
    requires IsPlan(entries, candidates, o, clock, h, t, result) && CanonicalCandidates(candidates)
    requires i < |result|
    ensures result[i].ip.parsed.Some? && result[i].ip.spelling == 0
  {
    var e, x, items, anchors := SourceOf(entries, candidates, o, clock, h, t, result, i);
    assert InBlock(items[x.item], Masked(e.cidr.parsed.value));
    if x.item < anchors {
      assert items[x.item].ip in CandidatesOf(candidates, e.cidr);
    } else {
      assert Generated(items[x.item], e, o.seed, h);
    }
  }

  /** The planner serves each active entry that is forced, was never scheduled, or was scheduled at least an
      hour, six hours or a day ago according to its tier, as often as it is listed, and no other entry. */
  lemma ServesExactlyTheDue(entries: seq<Entry>, candidates: Known, o: Options, clock: Time, h: Hashes, t: Trace,
                            result: seq<Target>, e: Entry)
    requires IsPlan(entries, candidates, o, clock, h, t, result)
    ensures var now := if o.now.Some? then o.now.value else clock;
            var wait := if e.tier.Champion? then 3_600_000_000 else if e.tier.Challenger? then 21_600_000_000
                        else 86_400_000_000;
            multiset(t.order)[e]
            == if e.active && (o.force || e.lastScheduledAt.None? || e.lastScheduledAt.value + wait <= now)
               then multiset(entries)[e] else 0
  {
    DueCount(entries, |entries|, t.now, o.force, e);
    assert entries[..|entries|] == entries;
  }

  lemma {:induction false} DueCount(entries: seq<Entry>, n: nat, now: Time, force: bool, e: Entry)
    requires n <= |entries|
    ensures multiset(DueEntries(entries, n, now, force))[e]
            == if EntryDue(e, now, force) then multiset(entries[..n])[e] else 0
  {
    if n == 0 {
    } else {
      DueCount(entries, n - 1, now, force, e);
      CountKept(DueEntries(entries, n - 1, now, force), entries, n, e, (x: Entry) => EntryDue(x, now, force));
    }
  }

  lemma CountKept<T>(kept: seq<T>, xs: seq<T>, n: nat, e: T, keep: T -> bool)
    requires 0 < n <= |xs| && multiset(kept)[e] == if keep(e) then multiset(xs[..n - 1])[e] else 0
    ensures multiset(kept + if keep(xs[n - 1]) then [xs[n - 1]] else [])[e]
            == if keep(e) then multiset(xs[..n])[e] else 0
  {
    var x := xs[n - 1];
    assert xs[..n] == xs[..n - 1] + [x];
    CountLast(xs[..n - 1], x, e);
    CountLast(kept, x, e);
    assert !keep(x) ==> kept + [] == kept;
  }

  lemma CountLast<T>(xs: seq<T>, x: T, e: T)
    ensures multiset(xs + [x])[e] == multiset(xs)[e] + if x == e then 1 else 0
  {
  }

  /** While the budget is not exhausted, everything queued is planned. */
  lemma QueuedIsPlanned(entries: seq<Entry>, candidates: Known, o: Options, clock: Time, h: Hashes, t: Trace,
                        result: seq<Target>, x: Place)
    requires IsPlan(entries, candidates, o, clock, h, t, result) && |result| < Budget(o.budget)
    requires Holds(QueuesOf(t.order, |t.order|, candidates, o.seed, h).lanes, x)
    ensures ItemAt(QueuesOf(t.order, |t.order|, candidates, o.seed, h).lanes, x) in result
  {
    var lanes := QueuesOf(t.order, |t.order|, candidates, o.seed, h).lanes;
    var all := FindLanePlaces(entries, candidates, o, clock, h, t, result);
    LaneAt(lanes, all, t.flat, x.lane);
    assert x in all[x.lane];
    var j :| 0 <= j < |all[x.lane]| && all[x.lane][j] == x;
    Weave.AllServed(t.flat, Budget(o.budget), x.lane, j);
  }

  /** A plan shorter than its budget serves every due prefix in full: all its anchors and six, three or one
      targets in all, unless every address its 4096 digests name is already in the plan. */
  lemma ServesInFull(entries: seq<Entry>, candidates: Known, o: Options, clock: Time, h: Hashes, t: Trace,
                     result: seq<Target>, k: nat)
    returns (items: seq<Target>)
    requires IsPlan(entries, candidates, o, clock, h, t, result)
    requires |result| < (if 1 <= o.budget <= 10_000 then o.budget else 10_000)
    requires k < |t.order| && t.order[k].cidr.parsed.Some?
    ensures items == ItemsAt(t.order, k, candidates, o.seed, h) && forall i :: 0 <= i < |items| ==> items[i] in result
    ensures var e, p := t.order[k], Masked(t.order[k].cidr.parsed.value);
            |items| == (if e.tier.Champion? then 6 else if e.tier.Challenger? then 3 else 1)
            || forall a :: Named(p, o.seed + "|" + e.agent + "|" + h.text(p), h.digest, 4096, a) ==>
                 exists i :: 0 <= i < |result| && result[i].ip == IpString(a)
  {
    var e, p := t.order[k], Masked(t.order[k].cidr.parsed.value);
    var own := o.seed + "|" + e.agent + "|" + h.text(p);
    items := ItemsAt(t.order, k, candidates, o.seed, h);
    var lanes := QueuesOf(t.order, |t.order|, candidates, o.seed, h).lanes;
    if items != [] {
      ItemsArePlanned(entries, candidates, o, clock, h, t, result, k);
    }
    var seen := QueuesOf(t.order, k, candidates, o.seed, h).seen;
    ItemsByTier(e, CandidatesOf(candidates, e.cidr), o.seed, h, seen);
    if |items| < Samples(e.tier) {
      forall a | Named(p, own, h.digest, 4096, a) ensures exists i :: 0 <= i < |result| && result[i].ip == IpString(a) {
        if IpString(a) in seen {
          SeenGrows(t.order, k, |t.order|, candidates, o.seed, h);
          SeenIsQueued(t.order, |t.order|, candidates, o.seed, h, IpString(a));
          var x :| Holds(lanes, x) && ItemAt(lanes, x).ip == IpString(a);
          QueuedIsPlanned(entries, candidates, o, clock, h, t, result, x);
        } else {
          var y :| y in items && y.ip == IpString(a);
          assert y in result;
        }
      }
    }
  }

  /** In such a plan a prefix's known good addresses come first: if one inside its block is not planned at all, two
      others are for a champion and one other for a challenger, all of them before it in the list. */
  lemma CandidatesComeFirst(entries: seq<Entry>, candidates: Known, o: Options, clock: Time, h: Hashes, t: Trace,
                            result: seq<Target>, k: nat, i: nat)
    requires IsPlan(entries, candidates, o, clock, h, t, result) && |result| < Budget(o.budget)
    requires k < |t.order| && t.order[k].cidr.parsed.Some? && t.order[k].cidr in candidates
    requires var known := candidates[t.order[k].cidr];
             && i < |known| && known[i].parsed.Some? && Contains(t.order[k].cidr.parsed.value, known[i].parsed.value)
             && forall j :: 0 <= j < |result| ==> result[j].ip != known[i]
    ensures var e, items := t.order[k], ItemsAt(t.order, k, candidates, o.seed, h);
            var first := if e.tier.Champion? then 2 else if e.tier.Challenger? then 1 else 0;
            && |items| >= first
            && forall j :: 0 <= j < first ==> items[j] in result && items[j].ip in candidates[e.cidr][..i]
  {
    var e, p := t.order[k], Masked(t.order[k].cidr.parsed.value);
    var known, items := candidates[e.cidr], ItemsAt(t.order, k, candidates, o.seed, h);
    var seen := QueuesOf(t.order, k, candidates, o.seed, h).seen;
    MaskedIsMasked(e.cidr.parsed.value);
    UnplannedIsUnseen(entries, candidates, o, clock, h, t, result, k, known[i]);
    ItemsByTier(e, known, o.seed, h, seen);
    AnchoredMeaning(known, |known|, p, Anchors(e.tier), seen);
    var anchors := Anchored(known, |known|, p, Anchors(e.tier), seen);
    if items != [] { ItemsArePlanned(entries, candidates, o, clock, h, t, result, k); }
    forall j | 0 <= j < |anchors| ensures items[j] in result && items[j].ip == anchors[j] && anchors[j] != known[i] {
      assert items[j] in items;
    }
    assert known[i] !in anchors;
    forall j | 0 <= j < |anchors| ensures anchors[j] in known[..i] {
      assert anchors[j] in anchors;
    }
  }

  lemma UnplannedIsUnseen(entries: seq<Entry>, candidates: Known, o: Options, clock: Time, h: Hashes, t: Trace,
                          result: seq<Target>, k: nat, ip: IpText)
    requires IsPlan(entries, candidates, o, clock, h, t, result) && |result| < Budget(o.budget) && k <= |t.order|
    requires forall j :: 0 <= j < |result| ==> result[j].ip != ip
    ensures ip !in QueuesOf(t.order, k, candidates, o.seed, h).seen
  {
    SeenGrows(t.order, k, |t.order|, candidates, o.seed, h);
    var q := QueuesOf(t.order, |t.order|, candidates, o.seed, h);
    if ip in q.seen {
      SeenIsQueued(t.order, |t.order|, candidates, o.seed, h, ip);
      var x :| Holds(q.lanes, x) && ItemAt(q.lanes, x).ip == ip;
      QueuedIsPlanned(entries, candidates, o, clock, h, t, result, x);
    }
  }

  lemma ItemsArePlanned(entries: seq<Entry>, candidates: Known, o: Options, clock: Time, h: Hashes, t: Trace,
                        result: seq<Target>, k: nat)
    requires IsPlan(entries, candidates, o, clock, h, t, result) && |result| < Budget(o.budget)
    requires k < |t.order| && t.order[k].cidr.parsed.Some? && ItemsAt(t.order, k, candidates, o.seed, h) != []
    ensures forall y :: y in ItemsAt(t.order, k, candidates, o.seed, h) ==> y in result
  {
    var e, items := t.order[k], ItemsAt(t.order, k, candidates, o.seed, h);
    var lanes := QueuesOf(t.order, |t.order|, candidates, o.seed, h).lanes;
    QueuesComplete(t.order, |t.order|, candidates, o.seed, h, k);
    var lane := if e.tier.Champion? then 0 else if e.tier.Challenger? then 1 else 2;
    var g: nat :| g < |lanes[lane]| && lanes[lane][g] == Group(CidrString(Masked(e.cidr.parsed.value)), items);
    forall y | y in items ensures y in result {
      var i :| 0 <= i < |items| && items[i] == y;
      QueuedIsPlanned(entries, candidates, o, clock, h, t, result, Place(lane, g, i));
    }
  }

  /** When the prefixes of the due entries parse, the narrowest are served first: addresses already taken
      when an entry is served lie in blocks of due entries that are at least as specific. */
  lemma ServedNarrowestFirst(entries: seq<Entry>, candidates: Known, o: Options, clock: Time, h: Hashes, t: Trace,
                             result: seq<Target>)
    requires IsPlan(entries, candidates, o, clock, h, t, result)
             && AllParse(DueEntries(entries, |entries|, t.now, o.force))
    ensures AllParse(t.order) && NarrowestFirst(t.order, o.seed, h)
    ensures forall k: nat, ip | k < |t.order| && ip in QueuesOf(t.order, k, candidates, o.seed, h).seen ::
              TakenByNarrower(ip, t.order, k, t.order[k].cidr.parsed.value.bits)
  {
    SortedNarrowestFirst(DueEntries(entries, |entries|, t.now, o.force), t.order, t.perm, o.seed, h);
    forall k: nat, ip | k < |t.order| && ip in QueuesOf(t.order, k, candidates, o.seed, h).seen
      ensures TakenByNarrower(ip, t.order, k, t.order[k].cidr.parsed.value.bits)
    {
      OnlyNarrowerTaken(t.order, k, candidates, o.seed, h, k, ip);
    }
  }

  // ---- Quotas ---------------------------------------------------------------------------

  lemma {:induction false} ElementsAtMost<T>(xs: seq<T>)
    ensures |Elements(xs)| <= |xs|
  {
    if xs == [] {
      assert Elements(xs) == {};
    } else {
      var front := xs[..|xs| - 1];
      ElementsAtMost(front);
      assert xs == front + [xs[|xs| - 1]];
      assert Elements(xs) == Elements(front) + {xs[|xs| - 1]};
    }
  }

  ghost predicate DistinctDue(entries: seq<Entry>, now: Time, force: bool) {
    DistinctBlocks(DueEntries(entries, |entries|, now, force))
  }

  lemma OrderKeepsDistinct(order: seq<Entry>, due: seq<Entry>, perm: seq<nat>)
    requires Rearranges(order, due, perm) && DistinctBlocks(due)
    ensures DistinctBlocks(order)
  {
    forall i: nat, k: nat | i < k < |order| ensures !SameBlock(order, i, k) {
      assert if perm[i] < perm[k] then !SameBlock(due, perm[i], perm[k]) else !SameBlock(due, perm[k], perm[i]);
    }
  }

  /** Targets of one prefix among the planned ones; the planned texts are distinct, so this counts them. */
  function TargetsFor(result: seq<Target>, cidr: CidrText): set<Target> {
    set t | t in result && t.cidr == cidr
  }

  /** With distinct prefixes no prefix exceeds its tier's 6, 3 or 1 targets, and at most 2, 1 or 0 of them
      were not generated but taken from its candidates. */
  lemma QuotaPerPrefix(entries: seq<Entry>, candidates: Known, o: Options, clock: Time, h: Hashes, t: Trace,
                       result: seq<Target>, e: Entry)
    requires IsPlan(entries, candidates, o, clock, h, t, result) && DistinctDue(entries, t.now, o.force)
    requires e in t.order && e.cidr.parsed.Some?
    ensures var mine := TargetsFor(result, CidrString(Masked(e.cidr.parsed.value)));
            && |mine| <= Samples(e.tier)
            && |set x | x in mine && !Generated(x, e, o.seed, h)| <= Anchors(e.tier)
            && forall x :: x in mine && !Generated(x, e, o.seed, h) ==> x.ip in CandidatesOf(candidates, e.cidr)
  {
    var cidr := CidrString(Masked(e.cidr.parsed.value));
    var mine := TargetsFor(result, cidr);
    var items, anchors := ItemsOfEntry(entries, candidates, o, clock, h, t, result, e);
    SubsetSize(mine, Elements(items));
    ElementsAtMost(items);
    var first := set x | x in mine && !Generated(x, e, o.seed, h);
    forall x | x in first ensures x in Elements(items[..anchors]) && x.ip in CandidatesOf(candidates, e.cidr) {
      assert x in Elements(items);
      var i :| 0 <= i < |items| && items[i] == x;
      assert i < anchors && items[..anchors][i] == x;
    }
    SubsetSize(first, Elements(items[..anchors]));
    ElementsAtMost(items[..anchors]);
  }

  /** All planned targets of an entry's prefix stem from that entry's one contribution. */
  lemma ItemsOfEntry(entries: seq<Entry>, candidates: Known, o: Options, clock: Time, h: Hashes, t: Trace,
                     result: seq<Target>, e: Entry)
    returns (items: seq<Target>, anchors: nat)
    requires IsPlan(entries, candidates, o, clock, h, t, result) && DistinctDue(entries, t.now, o.force)
    requires e in t.order && e.cidr.parsed.Some?
    ensures Contribution(e, CandidatesOf(candidates, e.cidr), o.seed, h, items, anchors)
    ensures TargetsFor(result, CidrString(Masked(e.cidr.parsed.value))) <= Elements(items)
  {
    OrderKeepsDistinct(t.order, DueEntries(entries, |entries|, t.now, o.force), t.perm);
    var cidr := CidrString(Masked(e.cidr.parsed.value));
    var mine := TargetsFor(result, cidr);
    items, anchors := [], 0;
    if mine != {} {
      var y :| y in mine;
      items, anchors := OnlyContribution(entries, candidates, o, clock, h, t, result, e);
    }
  }

  lemma OnlyContribution(entries: seq<Entry>, candidates: Known, o: Options, clock: Time, h: Hashes, t: Trace,
                         result: seq<Target>, e: Entry)
    returns (items: seq<Target>, anchors: nat)
    requires IsPlan(entries, candidates, o, clock, h, t, result) && DistinctBlocks(t.order)
    requires e in t.order && e.cidr.parsed.Some? && TargetsFor(result, CidrString(Masked(e.cidr.parsed.value))) != {}
    ensures Contribution(e, CandidatesOf(candidates, e.cidr), o.seed, h, items, anchors)
    ensures TargetsFor(result, CidrString(Masked(e.cidr.parsed.value))) <= Elements(items)
  {
    var cidr := CidrString(Masked(e.cidr.parsed.value));
    var lanes := QueuesOf(t.order, |t.order|, candidates, o.seed, h).lanes;
    var places := FindPlaces(entries, candidates, o, clock, h, t, result);
    var y :| y in TargetsFor(result, cidr);
    var i :| 0 <= i < |result| && result[i] == y;
    QueuesSourced(t.order, |t.order|, candidates, o.seed, h);
    CidrOfPlace(lanes, t.order, candidates, o.seed, h, places[i]);
    items, anchors := GroupOfEntry(lanes, t.order, candidates, o.seed, h, places[i].lane, places[i].group, e);
    QueuesOneGroup(t.order, |t.order|, candidates, o.seed, h);
    OneGroupHoldsAll(lanes, places, result, t.order, candidates, o.seed, h, i);
  }

  /** All planned targets of one prefix sit in one group. */
  lemma OneGroupHoldsAll(lanes: Lanes, places: seq<Place>, result: seq<Target>, order: seq<Entry>,
                         candidates: Known, seed: string, h: Hashes, i: nat)
    requires PlanPlaces(lanes, places, result) && i < |result|
    requires AllSourced(lanes, order, |order|, candidates, seed, h) && OneGroupPerBlock(lanes)
    ensures TargetsFor(result, result[i].cidr) <= Elements(lanes[places[i].lane][places[i].group].items)
  {
    var x := places[i];
    CidrOfPlace(lanes, order, candidates, seed, h, x);
    forall z | z in TargetsFor(result, result[i].cidr) ensures z in Elements(lanes[x.lane][x.group].items) {
      var k :| 0 <= k < |result| && result[k] == z;
      CidrOfPlace(lanes, order, candidates, seed, h, places[k]);
      assert SameCidr(lanes, places[k].lane, places[k].group, x.lane, x.group);
    }
  }

  /** A queued target carries its group's prefix. */
  lemma CidrOfPlace(lanes: Lanes, order: seq<Entry>, candidates: Known, seed: string, h: Hashes, x: Place)
    requires Holds(lanes, x) && AllSourced(lanes, order, |order|, candidates, seed, h)
    ensures ItemAt(lanes, x).cidr == lanes[x.lane][x.group].cidr
  {
    assert HasGroup(lanes, x.lane, x.group) && Sourced(lanes, x.lane, x.group, order, |order|, candidates, seed, h);
    var k :| 0 <= k < |order| && ComesFrom(x.lane, lanes[x.lane][x.group], order[k], candidates, seed, h);
    assert InBlock(lanes[x.lane][x.group].items[x.item], Masked(order[k].cidr.parsed.value));
  }

  /** With distinct blocks, a group recorded under an entry's prefix is that entry's contribution. */
  lemma GroupOfEntry(lanes: Lanes, order: seq<Entry>, candidates: Known, seed: string, h: Hashes, lane: nat, g: nat,
                     e: Entry)
    returns (items: seq<Target>, anchors: nat)
    requires AllSourced(lanes, order, |order|, candidates, seed, h) && DistinctBlocks(order) && e in order
             && e.cidr.parsed.Some?
    requires HasGroup(lanes, lane, g) && lanes[lane][g].cidr == CidrString(Masked(e.cidr.parsed.value))
    ensures items == lanes[lane][g].items && Contribution(e, CandidatesOf(candidates, e.cidr), seed, h, items, anchors)
  {
    assert Sourced(lanes, lane, g, order, |order|, candidates, seed, h);
    var k :| 0 <= k < |order| && ComesFrom(lane, lanes[lane][g], order[k], candidates, seed, h);
    var j :| 0 <= j < |order| && order[j] == e;
    assert if j < k then !SameBlock(order, j, k) else k < j ==> !SameBlock(order, k, j);
    items := lanes[lane][g].items;
    anchors :| Contribution(e, CandidatesOf(candidates, e.cidr), seed, h, items, anchors);
  }
}
