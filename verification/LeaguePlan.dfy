/** Planning one agent's league targets: due entries, queues per tier, round-robin flattening, interleave. */
module LeaguePlan {
  import opened Wrappers
  import opened Cardinality
  import opened Cidr
  import opened Sampler
  import opened Sorting
  import opened League
  import opened LeagueItems
  import RoundRobin
  import Weave

  datatype Options = Options(now: Option<Time>, seed: string, budget: int, force: bool)

  /** The known good addresses of each prefix, best first. */
  type Known = map<CidrText, seq<IpText>>

  datatype Group = Group(cidr: CidrText, items: seq<Target>)

  type Lanes = s: seq<seq<Group>> | |s| == 3 witness [[], [], []]

  datatype Queued = Queued(lanes: Lanes, seen: set<IpText>)

  function Budget(requested: int): (r: nat)
    ensures r == requested <==> 1 <= requested <= 10_000
    ensures r != requested ==> r == 10_000
  {
    if requested <= 0 || requested > MAX_SAMPLE_TARGETS then MAX_SAMPLE_TARGETS else requested
  }

  function LaneOf(tier: Tier): (r: nat)
    ensures r < 3
  {
    match Normalized(tier)
    case Champion => Weave.CHAMPION
    case Challenger => Weave.CHALLENGER
    case _ => Weave.OBSERVATION
  }

  predicate EntryDue(e: Entry, now: Time, force: bool) {
    Due(e.active, e.tier, e.lastScheduledAt, now, force)
  }

  /** More specific prefixes first when both parse, otherwise by score. */
  predicate EntryLess(a: Entry, b: Entry, seed: string, h: Hashes) {
    if a.cidr.parsed.Some? && b.cidr.parsed.Some? && a.cidr.parsed.value.bits != b.cidr.parsed.value.bits
    then a.cidr.parsed.value.bits > b.cidr.parsed.value.bits
    else h.entryScore(seed, a.agent, a.cidr) < h.entryScore(seed, b.agent, b.cidr)
  }

  /** The comparison the entries are sorted with. */
  function ByEntry(seed: string, h: Hashes): (Entry, Entry) -> bool {
    (a, b) => EntryLess(a, b, seed, h)
  }

  ghost predicate AllParse(entries: seq<Entry>) {
    forall e :: e in entries ==> e.cidr.parsed.Some?
  }

  /** More specific prefixes first, prefixes of one length by score. */
  ghost predicate NarrowestFirst(order: seq<Entry>, seed: string, h: Hashes)
    requires AllParse(order)
  {
    forall i, k :: 0 <= i < k < |order| ==>
      var x, y := order[i].cidr.parsed.value.bits, order[k].cidr.parsed.value.bits;
      x >= y && (x == y ==>
                   h.entryScore(seed, order[i].agent, order[i].cidr)
                     <= h.entryScore(seed, order[k].agent, order[k].cidr))
  }

  /** Prefixes that parse are compared consistently, so sorting puts the narrowest first; an unparsable one
      is compared by score only and can upset the order of the others. */
  lemma SortedNarrowestFirst(due: seq<Entry>, order: seq<Entry>, perm: seq<nat>, seed: string, h: Hashes)
    requires AllParse(due) && Rearranges(order, due, perm)
    requires IsOrderOn(due, ByEntry(seed, h)) ==> Sorted(order, ByEntry(seed, h))
    ensures AllParse(order) && NarrowestFirst(order, seed, h)
  {
    var less := ByEntry(seed, h);
    assert IsOrderOn(due, less);
    forall i, k | 0 <= i < k < |order| ensures !EntryLess(order[k], order[i], seed, h) {
      assert !less(order[k], order[i]);
    }
  }

  function CandidatesOf(candidates: Known, cidr: CidrText): seq<IpText> {
    if cidr in candidates then candidates[cidr] else []
  }

  // ---- Queues ---------------------------------------------------------------------------

  /** The queues after one more entry. */
  function Enqueue(q: Queued, e: Entry, candidates: Known, seed: string, h: Hashes): Queued {
    if e.cidr.parsed.None? then q
    else
      var items := ItemsFor(e, CandidatesOf(candidates, e.cidr), seed, h, q.seen);
      var lane := LaneOf(e.tier);
      if items == [] then q
      else Queued(q.lanes[lane := q.lanes[lane] + [Group(CidrString(Masked(e.cidr.parsed.value)), items)]],
                  q.seen + IpsOf(items))
  }

  function QueuesOf(order: seq<Entry>, n: nat, candidates: Known, seed: string, h: Hashes): Queued
    requires n <= |order|
  {
    if n == 0 then Queued([[], [], []], {})
    else Enqueue(QueuesOf(order, n - 1, candidates, seed, h), order[n - 1], candidates, seed, h)
  }

  /** Where a queued target sits. */
  datatype Place = Place(lane: nat, group: nat, item: nat)

  predicate Holds(lanes: Lanes, x: Place) {
    x.lane < 3 && x.group < |lanes[x.lane]| && x.item < |lanes[x.lane][x.group].items|
  }

  function ItemAt(lanes: Lanes, x: Place): Target
    requires Holds(lanes, x)
  {
    lanes[x.lane][x.group].items[x.item]
  }

  ghost predicate Clash(lanes: Lanes, x: Place, y: Place) {
    Holds(lanes, x) && Holds(lanes, y) && x != y && ItemAt(lanes, x).ip == ItemAt(lanes, y).ip
  }

  ghost predicate NoClash(q: Queued) {
    && (forall x :: Holds(q.lanes, x) ==> ItemAt(q.lanes, x).ip in q.seen)
    && (forall x, y :: !Clash(q.lanes, x, y))
  }

  /** A group is what one of the first `n` entries contributed. */
  ghost predicate ComesFrom(lane: nat, g: Group, e: Entry, candidates: Known, seed: string, h: Hashes) {
    && e.cidr.parsed.Some? && lane == LaneOf(e.tier) && g.cidr == CidrString(Masked(e.cidr.parsed.value))
    && exists anchors :: Contribution(e, CandidatesOf(candidates, e.cidr), seed, h, g.items, anchors)
  }

  predicate HasGroup(lanes: Lanes, lane: nat, g: nat) {
    lane < 3 && g < |lanes[lane]|
  }

  ghost predicate Sourced(lanes: Lanes, lane: nat, g: nat, order: seq<Entry>, n: nat, candidates: Known, seed: string,
                          h: Hashes)
    requires n <= |order| && HasGroup(lanes, lane, g)
  {
    exists k :: 0 <= k < n && ComesFrom(lane, lanes[lane][g], order[k], candidates, seed, h)
  }

  ghost predicate AllSourced(lanes: Lanes, order: seq<Entry>, n: nat, candidates: Known, seed: string, h: Hashes)
    requires n <= |order|
  {
    forall lane: nat, g: nat | HasGroup(lanes, lane, g) :: Sourced(lanes, lane, g, order, n, candidates, seed, h)
  }

  lemma EnqueueNoClash(q: Queued, e: Entry, candidates: Known, seed: string, h: Hashes)
    requires NoClash(q)
    ensures NoClash(Enqueue(q, e, candidates, seed, h))
  {
    if e.cidr.parsed.Some? {
      var items := ItemsFor(e, CandidatesOf(candidates, e.cidr), seed, h, q.seen);
      ItemsMeaning(e, CandidatesOf(candidates, e.cidr), seed, h, q.seen);
      if items != [] {
        var r := Enqueue(q, e, candidates, seed, h);
        var lane, last := LaneOf(e.tier), |q.lanes[LaneOf(e.tier)]|;
        forall x | Holds(r.lanes, x) ensures ItemAt(r.lanes, x).ip in r.seen
          ensures if x.lane == lane && x.group == last then x.item < |items| && ItemAt(r.lanes, x) == items[x.item]
                  else Holds(q.lanes, x) && ItemAt(r.lanes, x) == ItemAt(q.lanes, x)
        {
          if x.lane == lane && x.group == last {
            assert items[x.item] in items;
          } else {
            assert Holds(q.lanes, x);
          }
        }
        forall x, y ensures !Clash(r.lanes, x, y) {
          assert !Clash(q.lanes, x, y);
        }
      }
    }
  }

  lemma EnqueueSourced(q: Queued, order: seq<Entry>, n: nat, candidates: Known, seed: string, h: Hashes)
    requires n < |order| && AllSourced(q.lanes, order, n, candidates, seed, h)
    ensures AllSourced(Enqueue(q, order[n], candidates, seed, h).lanes, order, n + 1, candidates, seed, h)
  {
    var e := order[n];
    var r := Enqueue(q, e, candidates, seed, h);
    forall lane: nat, g: nat | HasGroup(r.lanes, lane, g)
      ensures Sourced(r.lanes, lane, g, order, n + 1, candidates, seed, h)
    {
      if g < |q.lanes[lane]| {
        assert Sourced(q.lanes, lane, g, order, n, candidates, seed, h);
        var k :| 0 <= k < n && ComesFrom(lane, q.lanes[lane][g], order[k], candidates, seed, h);
        assert r.lanes[lane][g] == q.lanes[lane][g];
      } else {
        ItemsMeaning(e, CandidatesOf(candidates, e.cidr), seed, h, q.seen);
        assert ComesFrom(lane, r.lanes[lane][g], order[n], candidates, seed, h);
      }
    }
  }

  /** All queued addresses are pairwise distinct. */
  lemma {:induction false} QueuesNoClash(order: seq<Entry>, n: nat, candidates: Known, seed: string, h: Hashes)
    requires n <= |order|
    ensures NoClash(QueuesOf(order, n, candidates, seed, h))
  {
    if n == 0 {
    } else {
      QueuesNoClash(order, n - 1, candidates, seed, h);
      EnqueueNoClash(QueuesOf(order, n - 1, candidates, seed, h), order[n - 1], candidates, seed, h);
    }
  }

  /** Every group is the contribution of a sorted entry. */
  lemma {:induction false} QueuesSourced(order: seq<Entry>, n: nat, candidates: Known, seed: string, h: Hashes)
    requires n <= |order|
    ensures AllSourced(QueuesOf(order, n, candidates, seed, h).lanes, order, n, candidates, seed, h)
  {
    if n == 0 {
    } else {
      QueuesSourced(order, n - 1, candidates, seed, h);
      EnqueueSourced(QueuesOf(order, n - 1, candidates, seed, h), order, n - 1, candidates, seed, h);
    }
  }

  // ---- Nothing is left out ---------------------------------------------------------------

  /** What entry `k` of the order contributed. */
  function ItemsAt(order: seq<Entry>, k: nat, candidates: Known, seed: string, h: Hashes): seq<Target>
    requires k < |order| && order[k].cidr.parsed.Some?
  {
    ItemsFor(order[k], CandidatesOf(candidates, order[k].cidr), seed, h, QueuesOf(order, k, candidates, seed, h).seen)
  }

  /** A group in the entry's own lane holds what it contributed: champions in lane 0, challengers in lane 1,
      everybody else in lane 2. */
  ghost predicate QueuedAs(lanes: Lanes, e: Entry, items: seq<Target>)
    requires e.cidr.parsed.Some?
  {
    var lane := if e.tier.Champion? then 0 else if e.tier.Challenger? then 1 else 2;
    exists g: nat :: g < |lanes[lane]| && lanes[lane][g] == Group(CidrString(Masked(e.cidr.parsed.value)), items)
  }

  lemma EnqueueKeepsGroups(q: Queued, next: Entry, candidates: Known, seed: string, h: Hashes, e: Entry,
                           items: seq<Target>)
    requires e.cidr.parsed.Some? && QueuedAs(q.lanes, e, items)
    ensures QueuedAs(Enqueue(q, next, candidates, seed, h).lanes, e, items)
  {
    var r := Enqueue(q, next, candidates, seed, h);
    var lane := if e.tier.Champion? then 0 else if e.tier.Challenger? then 1 else 2;
    var g: nat :| g < |q.lanes[lane]| && q.lanes[lane][g] == Group(CidrString(Masked(e.cidr.parsed.value)), items);
    assert r.lanes[lane][g] == q.lanes[lane][g];
  }

  /** Every processed entry that parses has its contribution queued, unless that is empty. */
  lemma {:induction false} QueuesComplete(order: seq<Entry>, n: nat, candidates: Known, seed: string, h: Hashes, k: nat)
    requires k < n <= |order| && order[k].cidr.parsed.Some?
    ensures var items := ItemsAt(order, k, candidates, seed, h);
            items != [] ==> QueuedAs(QueuesOf(order, n, candidates, seed, h).lanes, order[k], items)
  {
    var before, items := QueuesOf(order, n - 1, candidates, seed, h), ItemsAt(order, k, candidates, seed, h);
    if items != [] {
      if k == n - 1 {
        var lane := LaneOf(order[k].tier);
        assert Enqueue(before, order[k], candidates, seed, h).lanes[lane][|before.lanes[lane]|].items == items;
      } else {
        QueuesComplete(order, n - 1, candidates, seed, h, k);
        EnqueueKeepsGroups(before, order[n - 1], candidates, seed, h, order[k], items);
      }
    }
  }

  ghost predicate QueuedText(lanes: Lanes, ip: IpText) {
    exists x :: Holds(lanes, x) && ItemAt(lanes, x).ip == ip
  }

  /** The map of used addresses records nothing but queued ones. */
  lemma {:induction false} SeenIsQueued(order: seq<Entry>, n: nat, candidates: Known, seed: string, h: Hashes,
                                        ip: IpText)
    requires n <= |order| && ip in QueuesOf(order, n, candidates, seed, h).seen
    ensures QueuedText(QueuesOf(order, n, candidates, seed, h).lanes, ip)
  {
    if n == 0 {
    } else {
      var before, e := QueuesOf(order, n - 1, candidates, seed, h), order[n - 1];
      var after := Enqueue(before, e, candidates, seed, h);
      if ip in before.seen {
        SeenIsQueued(order, n - 1, candidates, seed, h, ip);
        var x :| Holds(before.lanes, x) && ItemAt(before.lanes, x).ip == ip;
        assert Holds(after.lanes, x) && ItemAt(after.lanes, x) == ItemAt(before.lanes, x);
      } else {
        var items := ItemsFor(e, CandidatesOf(candidates, e.cidr), seed, h, before.seen);
        var t :| t in items && t.ip == ip;
        var i :| 0 <= i < |items| && items[i] == t;
        var x := Place(LaneOf(e.tier), |before.lanes[LaneOf(e.tier)]|, i);
        assert Holds(after.lanes, x) && ItemAt(after.lanes, x) == t;
      }
    }
  }

  lemma {:induction false} SeenGrows(order: seq<Entry>, m: nat, n: nat, candidates: Known, seed: string, h: Hashes)
    requires m <= n <= |order|
    ensures QueuesOf(order, m, candidates, seed, h).seen <= QueuesOf(order, n, candidates, seed, h).seen
  {
    if m == n {
    } else {
      SeenGrows(order, m, n - 1, candidates, seed, h);
    }
  }

  // ---- Narrow prefixes are served before wide ones ---------------------------------------

  /** The address belongs to one of the first `n` entries, none of which is wider than `bits`. */
  ghost predicate TakenByNarrower(ip: IpText, order: seq<Entry>, n: nat, bits: nat)
    requires n <= |order|
  {
    exists i :: 0 <= i < n && ByNarrower(ip, order[i], bits)
  }

  ghost predicate ByNarrower(ip: IpText, e: Entry, bits: nat) {
    && e.cidr.parsed.Some? && e.cidr.parsed.value.bits >= bits
    && ip.parsed.Some? && Contains(Masked(e.cidr.parsed.value), ip.parsed.value)
  }

  /** When an entry is served, only entries with prefixes at least as specific have taken addresses. */
  lemma {:induction false} OnlyNarrowerTaken(order: seq<Entry>, n: nat, candidates: Known, seed: string,
                                             h: Hashes, k: nat, ip: IpText)
    requires n <= k < |order| && AllParse(order) && NarrowestFirst(order, seed, h)
    requires ip in QueuesOf(order, n, candidates, seed, h).seen
    ensures TakenByNarrower(ip, order, n, order[k].cidr.parsed.value.bits)
  {
    if n == 0 {
    } else {
      var before, e := QueuesOf(order, n - 1, candidates, seed, h), order[n - 1];
      if ip in before.seen {
        OnlyNarrowerTaken(order, n - 1, candidates, seed, h, k, ip);
      } else {
        NewlyTaken(before, e, candidates, seed, h, ip);
        assert ByNarrower(ip, e, order[k].cidr.parsed.value.bits);
      }
    }
  }

  lemma NewlyTaken(q: Queued, e: Entry, candidates: Known, seed: string, h: Hashes, ip: IpText)
    requires ip in Enqueue(q, e, candidates, seed, h).seen && ip !in q.seen
    ensures e.cidr.parsed.Some? && ByNarrower(ip, e, e.cidr.parsed.value.bits)
  {
    var items := ItemsFor(e, CandidatesOf(candidates, e.cidr), seed, h, q.seen);
    ItemsMeaning(e, CandidatesOf(candidates, e.cidr), seed, h, q.seen);
    var t :| t in items && t.ip == ip;
    var i :| 0 <= i < |items| && items[i] == t;
    assert InBlock(items[i], Masked(e.cidr.parsed.value));
  }

  // ---- One group per prefix -------------------------------------------------------------

  function BlockOf(e: Entry): Option<Prefix> {
    if e.cidr.parsed.Some? then Some(Masked(e.cidr.parsed.value)) else None
  }

  ghost predicate SameBlock(order: seq<Entry>, i: nat, k: nat)
    requires i < |order| && k < |order|
  {
    BlockOf(order[i]).Some? && BlockOf(order[i]) == BlockOf(order[k])
  }

  ghost predicate DistinctBlocks(order: seq<Entry>) {
    forall i: nat, k: nat | i < k < |order| :: !SameBlock(order, i, k)
  }

  ghost predicate SameCidr(lanes: Lanes, l: nat, g: nat, l': nat, g': nat) {
    HasGroup(lanes, l, g) && HasGroup(lanes, l', g') && lanes[l][g].cidr == lanes[l'][g'].cidr
  }

  /** With distinct blocks each block has at most one group over all lanes. */
  ghost predicate OneGroupPerBlock(lanes: Lanes) {
    forall l: nat, g: nat, l': nat, g': nat | SameCidr(lanes, l, g, l', g') :: l == l' && g == g'
  }

  lemma {:induction false} QueuesOneGroup(order: seq<Entry>, n: nat, candidates: Known, seed: string, h: Hashes)
    requires n <= |order| && DistinctBlocks(order)
    ensures OneGroupPerBlock(QueuesOf(order, n, candidates, seed, h).lanes)
  {
    if n == 0 {
    } else {
      QueuesOneGroup(order, n - 1, candidates, seed, h);
      NextOneGroup(order, n - 1, candidates, seed, h);
    }
  }

  lemma NextOneGroup(order: seq<Entry>, n: nat, candidates: Known, seed: string, h: Hashes)
    requires n < |order| && DistinctBlocks(order) && OneGroupPerBlock(QueuesOf(order, n, candidates, seed, h).lanes)
    ensures OneGroupPerBlock(Enqueue(QueuesOf(order, n, candidates, seed, h), order[n], candidates, seed, h).lanes)
  {
    QueuesSourced(order, n, candidates, seed, h);
    EnqueueOneGroup(QueuesOf(order, n, candidates, seed, h), order, n, candidates, seed, h);
  }

  lemma EnqueueOneGroup(q: Queued, order: seq<Entry>, n: nat, candidates: Known, seed: string, h: Hashes)
    requires n < |order| && DistinctBlocks(order) && OneGroupPerBlock(q.lanes)
             && AllSourced(q.lanes, order, n, candidates, seed, h)
    ensures OneGroupPerBlock(Enqueue(q, order[n], candidates, seed, h).lanes)
  {
    var r := Enqueue(q, order[n], candidates, seed, h);
    if r != q {
      var lane, last := LaneOf(order[n].tier), |q.lanes[LaneOf(order[n].tier)]|;
      forall l: nat, g: nat | HasGroup(q.lanes, l, g) ensures q.lanes[l][g].cidr != r.lanes[lane][last].cidr {
        assert Sourced(q.lanes, l, g, order, n, candidates, seed, h);
        var k :| 0 <= k < n && ComesFrom(l, q.lanes[l][g], order[k], candidates, seed, h);
        assert !SameBlock(order, k, n);
      }
      forall l: nat, g: nat, l': nat, g': nat | SameCidr(r.lanes, l, g, l', g') ensures l == l' && g == g' {
        if !(l == lane && g == last) && !(l' == lane && g' == last) {
          assert SameCidr(q.lanes, l, g, l', g');
        }
      }
    }
  }
}
