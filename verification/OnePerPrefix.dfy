/** One address for every usable prefix, most specific prefixes first. */
module OnePerPrefix {
  import opened Wrappers
  import opened Cardinality
  import opened Cidr
  import opened Probes
  import opened Sorting
  import opened Sampler

  /** Longer prefixes first, equally long ones by their text; `rank` stands for the order of the texts. */
  predicate Before(a: Prefix, b: Prefix, rank: Prefix -> int) {
    if a.bits != b.bits then a.bits > b.bits else rank(a) < rank(b)
  }

  /** Each prefix so far holds an address of its own. */
  ghost predicate Reserved(order: seq<Prefix>, chosen: seq<Addr>)
    requires AllMasked(order)
  {
    && |chosen| <= |order| && Distinct(chosen)
    && forall i :: 0 <= i < |chosen| ==> Contains(order[i], chosen[i])
  }

  /** All digests tried for a prefix name addresses that are already chosen. */
  ghost predicate AllTaken(p: Prefix, seed: string, digest: Digest, rounds: nat, chosen: seq<Addr>)
    requires ValidPrefix(p)
  {
    forall n: nat :: n < rounds ==> AddressFor(p, seed, n, digest) in chosen
  }

  ghost predicate Exhausted(p: Prefix, chosen: seq<Addr>)
    requires ValidPrefix(p)
  {
    forall a: Addr :: Contains(p, a) ==> a in chosen
  }

  ghost predicate Impossible(order: seq<Prefix>)
    requires AllMasked(order)
  {
    forall choice :: !IsChoice(order, choice)
  }

  /** One block lies inside another. */
  predicate Within(q: Prefix, p: Prefix)
    requires ValidPrefix(q) && ValidPrefix(p)
  {
    q.bits >= p.bits && Contains(p, Addr(q.family, q.base))
  }

  /** The earlier prefixes that compete with prefix `k`: only those inside its block. */
  function Rivals(order: seq<Prefix>, k: nat): set<nat>
    requires AllMasked(order) && k < |order|
  {
    set i: nat | i < k && Within(order[i], order[k])
  }

  /** The digests of a prefix reach its whole block, or one address more than it has rivals. */
  predicate Thorough(order: seq<Prefix>, k: nat, seed: string, digest: Digest, rounds: nat)
    requires AllMasked(order) && k < |order|
  {
    |Fresh(order[k], seed, digest, {}, rounds)| >= Min(Size(order[k]), 1 + |Rivals(order, k)|)
  }

  lemma ExhaustedIsImpossible(order: seq<Prefix>, chosen: seq<Addr>)
    requires AllMasked(order) && LongestFirst(order) && Reserved(order, chosen)
    requires |chosen| < |order| && Exhausted(order[|chosen|], chosen)
    ensures Impossible(order)
  {
    forall choice ensures !IsChoice(order, choice) {
      NoChoiceExists(order, |chosen|, chosen, choice);
    }
  }

  /** As many distinct addresses of a block as it has are all of them. */
  lemma WholeBlock(p: Prefix, addrs: seq<Addr>, a: Addr)
    requires IsMasked(p) && Distinct(addrs) && |addrs| >= Size(p)
    requires forall i :: 0 <= i < |addrs| ==> Contains(p, addrs[i])
    requires Contains(p, a)
    ensures a in addrs
  {
    var vals := Values(addrs);
    forall i, k | 0 <= i < k < |vals| ensures vals[i] != vals[k] {
      assert addrs[i] != addrs[k];
    }
    DistinctSize(vals);
    forall v | v in vals ensures v in BlockValues(p) {
      var i :| 0 <= i < |vals| && vals[i] == v;
      MaskedRange(p, addrs[i]);
    }
    SubsetSize(Elements(vals), BlockValues(p));
    BlockSize(p);
    MaskedRange(p, a);
    assert a.value in Elements(vals);
    var i :| 0 <= i < |vals| && vals[i] == a.value;
    assert addrs[i] == a;
  }

  /** Whoever was given an address of the block is a rival. */
  lemma UsersAreRivals(order: seq<Prefix>, chosen: seq<Addr>, k: nat)
    requires AllMasked(order) && LongestFirst(order) && Reserved(order, chosen) && |chosen| == k < |order|
    ensures |Users(order[k], chosen)| <= |Rivals(order, k)|
  {
    forall i | i in Users(order[k], chosen) ensures i in Rivals(order, k) {
      NestedOrDisjoint(order[k], order[i], chosen[i], Addr(order[i].family, order[i].base));
    }
    SubsetSize(Users(order[k], chosen), Rivals(order, k));
  }

  lemma DistinctValues(p: Prefix, addrs: seq<Addr>)
    requires ValidPrefix(p) && Distinct(addrs) && forall i :: 0 <= i < |addrs| ==> Contains(p, addrs[i])
    ensures |Elements(Values(addrs))| == |addrs|
  {
    forall i, k | 0 <= i < k < |addrs| ensures Values(addrs)[i] != Values(addrs)[k] {
      assert addrs[i] != addrs[k];
    }
    DistinctSize(Values(addrs));
  }

  /** Distinct addresses of a block that were all given away went to as many users. */
  lemma FoundAtMostUsers(p: Prefix, found: seq<Addr>, chosen: seq<Addr>)
    requires ValidPrefix(p) && Distinct(found)
    requires forall i :: 0 <= i < |found| ==> Contains(p, found[i]) && found[i] in chosen
    ensures |found| <= |Users(p, chosen)|
  {
    var users := Users(p, chosen);
    var image := set j | j in users :: Values(chosen)[j];
    forall v | v in Elements(Values(found)) ensures v in image {
      var i :| 0 <= i < |found| && Values(found)[i] == v;
      var j :| 0 <= j < |chosen| && chosen[j] == found[i];
      assert j in users;
    }
    SubsetSize(Elements(Values(found)), image);
    DistinctValues(p, found);
    ImageAtMost(users, Values(chosen));
  }

  /** If the digests are thorough, a prefix that finds nothing is truly exhausted. */
  lemma ThoroughIsExact(order: seq<Prefix>, chosen: seq<Addr>, seed: string, digest: Digest, rounds: nat)
    requires AllMasked(order) && LongestFirst(order) && Reserved(order, chosen) && |chosen| < |order|
    requires AllTaken(order[|chosen|], seed, digest, rounds, chosen)
    requires Thorough(order, |chosen|, seed, digest, rounds)
    ensures Exhausted(order[|chosen|], chosen)
  {
    var p := order[|chosen|];
    var found := Fresh(p, seed, digest, {}, rounds);
    FreshMeaning(p, seed, digest, {}, rounds);
    FreshAreDigests(p, seed, digest, {}, rounds);
    forall i | 0 <= i < |found| ensures Contains(p, found[i]) && found[i] in chosen {
      assert found[i] in found && IsDigest(p, seed, digest, rounds, found[i]);
    }
    FoundAtMostUsers(p, found, chosen);
    UsersAreRivals(order, chosen, |chosen|);
    forall a: Addr | Contains(p, a) ensures a in chosen {
      WholeBlock(p, found, a);
    }
  }

  /** A prefix that yields nothing has seen all its digests taken. */
  lemma NothingFresh(p: Prefix, seed: string, digest: Digest, rounds: nat, chosen: seq<Addr>)
    requires IsMasked(p) && Fresh(p, seed, digest, IpStrings(chosen), rounds) == []
    ensures AllTaken(p, seed, digest, rounds, chosen)
  {
    FreshMeaning(p, seed, digest, IpStrings(chosen), rounds);
    forall n: nat | n < rounds ensures AddressFor(p, seed, n, digest) in chosen {
      assert IpString(AddressFor(p, seed, n, digest)) in IpStrings(chosen);
    }
  }

  /** `order` is the usable prefixes in processing order. */
  ghost predicate IsProcessingOrder(rows: seq<StoredPrefix>, includeIPv6: bool, rank: Prefix -> int,
                                    order: seq<Prefix>)
  {
    && UsableResult(rows, includeIPv6, Ok(order)) && LongestFirst(order)
    && Sorted(order, (a, b) => Before(a, b, rank))
    && forall i, k :: 0 <= i < k < |order| && order[i].bits == order[k].bits ==> rank(order[i]) <= rank(order[k])
  }

  predicate Assigned(items: seq<Target>, order: seq<Prefix>, chosen: seq<Addr>)
    requires AllMasked(order)
  {
    && |items| == |chosen| <= |order|
    && forall i :: 0 <= i < |items| ==> items[i] == Target(IpString(chosen[i]), CidrString(order[i]))
  }

  lemma SortedOrder(rows: seq<StoredPrefix>, includeIPv6: bool, rank: Prefix -> int, usable: seq<Prefix>,
                    order: seq<Prefix>)
    requires UsableResult(rows, includeIPv6, Ok(usable)) && multiset(order) == multiset(usable)
    requires IsOrderOn(usable, (a, b) => Before(a, b, rank)) ==> Sorted(order, (a, b) => Before(a, b, rank))
    ensures IsProcessingOrder(rows, includeIPv6, rank, order)
  {
    SameElements(order, usable);
    forall i | 0 <= i < |order| ensures IsMasked(order[i]) {
      assert order[i] in usable;
    }
    var less := (a, b) => Before(a, b, rank);
    assert IsOrderOn(usable, less);
    forall i, k | 0 <= i < k < |order|
      ensures order[i].bits >= order[k].bits
      ensures order[i].bits == order[k].bits ==> rank(order[i]) <= rank(order[k])
    {
      assert !less(order[k], order[i]);
    }
  }

  // ---- The addresses given out ----------------------------------------------------------

  /** The addresses the first `k` prefixes get in turn; serving ends at the first prefix that gets nothing. */
  function Served(order: seq<Prefix>, k: nat, seed: string, digest: Digest, rounds: nat): seq<Addr>
    requires AllMasked(order) && k <= |order|
  {
    if k == 0 then []
    else
      var before := Served(order, k - 1, seed, digest, rounds);
      if |before| < k - 1 then before
      else before + Take(Fresh(order[k - 1], seed, digest, IpStrings(before), rounds), 1)
  }

  /** The call serves every prefix. */
  predicate Succeeds(order: seq<Prefix>, seed: string, digest: Digest)
    requires AllMasked(order)
  {
    |Served(order, |order|, seed, digest, ROUNDS)| == |order|
  }

  /** Nobody is served an address of somebody else, and a prefix that is not served has all digests taken. */
  lemma {:induction false} ServedReserved(order: seq<Prefix>, k: nat, seed: string, digest: Digest, rounds: nat)
    requires AllMasked(order) && k <= |order|
    ensures var chosen := Served(order, k, seed, digest, rounds); |chosen| <= k && Reserved(order, chosen)
  {
    if k == 0 {
    } else {
      ServedReserved(order, k - 1, seed, digest, rounds);
      var before := Served(order, k - 1, seed, digest, rounds);
      if |before| == k - 1 {
        NextServed(order, k - 1, before, seed, digest, rounds);
      }
    }
  }

  lemma NextServed(order: seq<Prefix>, k: nat, before: seq<Addr>, seed: string, digest: Digest, rounds: nat)
    requires AllMasked(order) && |before| == k < |order| && Reserved(order, before)
    ensures var more := Take(Fresh(order[k], seed, digest, IpStrings(before), rounds), 1);
            |more| <= 1 && Reserved(order, before + more)
              && (more == [] ==> AllTaken(order[k], seed, digest, rounds, before))
  {
    var offers := Fresh(order[k], seed, digest, IpStrings(before), rounds);
    FreshMeaning(order[k], seed, digest, IpStrings(before), rounds);
    if offers == [] {
      NothingFresh(order[k], seed, digest, rounds, before);
      assert before + [] == before;
    } else {
      assert offers[0] in offers;
      assert IpString(offers[0]) !in IpStrings(before);
    }
  }

  /** Each served prefix holds one of its own digests. */
  lemma {:induction false} ServedDigests(order: seq<Prefix>, k: nat, seed: string, digest: Digest, rounds: nat, i: nat)
    requires AllMasked(order) && k <= |order| && i < |Served(order, k, seed, digest, rounds)| <= k
    ensures IsDigest(order[i], seed, digest, rounds, Served(order, k, seed, digest, rounds)[i])
  {
    ServedReserved(order, k - 1, seed, digest, rounds);
    var before := Served(order, k - 1, seed, digest, rounds);
    if i < |before| {
      ServedDigests(order, k - 1, seed, digest, rounds, i);
    } else {
      var offers := Fresh(order[k - 1], seed, digest, IpStrings(before), rounds);
      FreshAreDigests(order[k - 1], seed, digest, IpStrings(before), rounds);
      assert offers[0] in offers;
    }
  }

  /** Each served prefix holds the address of its first digest, of 4096, that no earlier prefix holds. */
  lemma {:induction false} ServedFirst(order: seq<Prefix>, k: nat, seed: string, digest: Digest, i: nat)
    returns (n: nat)
    requires AllMasked(order) && k <= |order| && i < |Served(order, k, seed, digest, ROUNDS)| <= k
    ensures var chosen := Served(order, k, seed, digest, ROUNDS);
            && n < 4096 && chosen[i] == AddressFor(order[i], seed, n, digest)
            && forall m :: 0 <= m < n ==> AddressFor(order[i], seed, m, digest) in chosen[..i]
  {
    ServedReserved(order, k - 1, seed, digest, ROUNDS);
    var before, chosen := Served(order, k - 1, seed, digest, ROUNDS), Served(order, k, seed, digest, ROUNDS);
    if i < |before| {
      n := ServedFirst(order, k - 1, seed, digest, i);
      assert chosen[..i] == before[..i];
    } else {
      n := FreshInOrder(order[k - 1], seed, digest, IpStrings(before), ROUNDS, 0);
      assert chosen[..i] == before;
    }
  }

  lemma {:induction false} ServedStops(order: seq<Prefix>, j: nat, k: nat, seed: string, digest: Digest, rounds: nat)
    requires AllMasked(order) && j <= k <= |order| && |Served(order, j, seed, digest, rounds)| < j
    ensures Served(order, k, seed, digest, rounds) == Served(order, j, seed, digest, rounds)
  {
    if j == k {
    } else {
      ServedStops(order, j, k - 1, seed, digest, rounds);
    }
  }

  // ---- When the greedy order is optimal, on the input alone ------------------------------

  ghost predicate Shared(order: seq<Prefix>, i: nat, k: nat, a: Addr)
    requires AllMasked(order)
  {
    i < k < |order| && Eligible(order[i], a) && Eligible(order[k], a)
  }

  /** No address may be given to two prefixes. */
  ghost predicate NothingShared(order: seq<Prefix>)
    requires AllMasked(order)
  {
    forall i, k, a :: !Shared(order, i, k, a)
  }

  lemma {:induction false} NothingSharedSucceeds(order: seq<Prefix>, k: nat, seed: string, digest: Digest, rounds: nat)
    requires AllMasked(order) && NothingShared(order) && k <= |order| && rounds > 0
    ensures |Served(order, k, seed, digest, rounds)| == k
  {
    if k == 0 {
    } else {
      NothingSharedSucceeds(order, k - 1, seed, digest, rounds);
      ServedReserved(order, k - 1, seed, digest, rounds);
      var before, a := Served(order, k - 1, seed, digest, rounds), AddressFor(order[k - 1], seed, 0, digest);
      AddressForEligible(order[k - 1], seed, 0, digest);
      forall i | 0 <= i < |before| ensures before[i] != a {
        ServedDigests(order, k - 1, seed, digest, rounds, i);
        DigestIsEligible(order[i], seed, digest, rounds, before[i]);
        assert !Shared(order, i, k - 1, a);
      }
      FreshMeaning(order[k - 1], seed, digest, IpStrings(before), rounds);
    }
  }

  lemma DigestIsEligible(p: Prefix, seed: string, digest: Digest, rounds: nat, a: Addr)
    requires IsMasked(p) && IsDigest(p, seed, digest, rounds, a)
    ensures Eligible(p, a)
  {
    var n: nat :| n < rounds && a == AddressFor(p, seed, n, digest);
    AddressForEligible(p, seed, n, digest);
  }

  /** Digests that send two prefixes to the same address forever. */
  function Colliding(p: Prefix, q: Prefix, a: Addr): Digest
    requires IsMasked(p) && IsMasked(q) && Eligible(p, a) && Eligible(q, a)
  {
    (x, _, _) => if x == p then DigestOf(p, a) else if x == q then DigestOf(q, a) else 0
  }

  lemma CollisionFails(order: seq<Prefix>, i: nat, k: nat, a: Addr, seed: string)
    requires AllMasked(order) && Distinct(order) && Shared(order, i, k, a)
    ensures !Succeeds(order, seed, Colliding(order[i], order[k], a))
  {
    var digest := Colliding(order[i], order[k], a);
    ServedReserved(order, |order|, seed, digest, ROUNDS);
    var chosen := Served(order, |order|, seed, digest, ROUNDS);
    if |chosen| == |order| {
      ServedDigests(order, |order|, seed, digest, ROUNDS, i);
      ServedDigests(order, |order|, seed, digest, ROUNDS, k);
      OnlyNames(order[i], a, seed, digest, chosen[i]);
      OnlyNames(order[k], a, seed, digest, chosen[k]);
    }
  }

  lemma OnlyNames(p: Prefix, a: Addr, seed: string, digest: Digest, b: Addr)
    requires IsMasked(p) && Eligible(p, a) && (forall n: nat :: digest(p, seed, n) == DigestOf(p, a))
    requires IsDigest(p, seed, digest, ROUNDS, b)
    ensures b == a
  {
    var n: nat :| n < ROUNDS && b == AddressFor(p, seed, n, digest);
    EligibleIsNamed(p, a, seed, n, digest);
  }

  /** Failing means that no choice exists, for every digest, exactly when no address may be given to two
      prefixes or no choice exists anyway. */
  lemma AlwaysOptimalIff(order: seq<Prefix>, seed: string)
    requires AllMasked(order) && Distinct(order)
    ensures (forall digest: Digest :: Succeeds(order, seed, digest) || Impossible(order))
       <==> NothingShared(order) || Impossible(order)
  {
    if NothingShared(order) {
      forall digest: Digest ensures Succeeds(order, seed, digest) {
        NothingSharedSucceeds(order, |order|, seed, digest, ROUNDS);
      }
    } else if !Impossible(order) {
      var i, k, a :| Shared(order, i, k, a);
      CollisionFails(order, i, k, a, seed);
    }
  }

  // ---- The call -------------------------------------------------------------------------

  /** What the next prefix gets. */
  method ChooseOne(p: Prefix, seed: string, digest: Digest, seen: Seen, ghost chosen: seq<Addr>)
    returns (items: seq<Target>, ghost more: seq<Addr>)
    requires IsMasked(p) && seen.texts == IpStrings(chosen)
    modifies seen
    ensures more == Take(Fresh(p, seed, digest, IpStrings(chosen), ROUNDS), 1)
    ensures |more| == |items| <= 1 && items == TargetsOf(p, more)
    ensures seen.texts == IpStrings(chosen + more)
  {
    more := Take(Fresh(p, seed, digest, seen.texts, ROUNDS), 1);
    IpsOfTargets(p, more);
    var r := FromPrefix(CidrString(p), 1, seed, seen, digest);
    items := r.value;
  }

  /** The targets are the addresses served in processing order: one distinct in-prefix address per usable
      prefix on success. A prefix that fails has all its digests taken; if it is truly exhausted then no
      choice of distinct addresses exists for the input; and when the digests are thorough the call
      succeeds exactly if such a choice exists. */
  method OnePerPrefix(rows: seq<StoredPrefix>, includeIPv6: bool, seed: string, digest: Digest, rank: Prefix -> int)
    returns (r: Result<seq<Target>, Error>, ghost order: seq<Prefix>, ghost chosen: seq<Addr>)
    ensures r.Err? && !r.error.NoUniqueAddress? ==> UsableResult(rows, includeIPv6, Err(r.error))
    ensures r.Ok? || r.error.NoUniqueAddress? ==>
      && IsProcessingOrder(rows, includeIPv6, rank, order) && Reserved(order, chosen)
      && chosen == Served(order, |order|, seed, digest, ROUNDS) && (r.Ok? <==> Succeeds(order, seed, digest))
    ensures r.Ok? ==> |r.value| == |order| && Assigned(r.value, order, chosen)
    ensures r.Err? && r.error.NoUniqueAddress? ==>
      && |chosen| < |order| && r.error.prefix == order[|chosen|]
      && AllTaken(order[|chosen|], seed, digest, ROUNDS, chosen)
      && (Exhausted(order[|chosen|], chosen) ==> Impossible(order))
    ensures r.Ok? || r.error.NoUniqueAddress? ==>
      AllThorough(order, seed, digest, ROUNDS) ==> (r.Ok? <==> !Impossible(order))
  {
    order, chosen := [], [];
    var found := UsablePrefixes(rows, includeIPv6);
    if found.Err? {
      return Err(found.error), order, chosen;
    }
    var usable, _ := SortSlice(found.value, (a, b) => Before(a, b, rank));
    order := usable;
    SortedOrder(rows, includeIPv6, rank, found.value, usable);
    var items, k;
    items, k, chosen := Assign(usable, seed, digest);
    if k < |usable| {
      r := Err(NoUniqueAddress(usable[k]));
      FailureMeaning(order, chosen, seed, digest);
    } else {
      r := Ok(items);
      assert IsChoice(order, chosen);
    }
  }

  ghost predicate AllThorough(order: seq<Prefix>, seed: string, digest: Digest, rounds: nat)
    requires AllMasked(order)
  {
    forall k: nat | k < |order| :: Thorough(order, k, seed, digest, rounds)
  }

  lemma FailureMeaning(order: seq<Prefix>, chosen: seq<Addr>, seed: string, digest: Digest)
    requires AllMasked(order) && LongestFirst(order) && Reserved(order, chosen) && |chosen| < |order|
    requires AllTaken(order[|chosen|], seed, digest, ROUNDS, chosen)
    ensures Exhausted(order[|chosen|], chosen) ==> Impossible(order)
    ensures AllThorough(order, seed, digest, ROUNDS) ==> Impossible(order)
  {
    if Thorough(order, |chosen|, seed, digest, ROUNDS) { ThoroughIsExact(order, chosen, seed, digest, ROUNDS); }
    if Exhausted(order[|chosen|], chosen) { ExhaustedIsImpossible(order, chosen); }
  }

  ghost predicate Serving(usable: seq<Prefix>, k: nat, items: seq<Target>, chosen: seq<Addr>, seed: string,
                          digest: Digest)
    requires AllMasked(usable)
  {
    && k == |chosen| <= |usable| && Reserved(usable, chosen) && Assigned(items, usable, chosen)
    && chosen == Served(usable, k, seed, digest, ROUNDS)
  }

  lemma ServeNext(usable: seq<Prefix>, k: nat, items: seq<Target>, chosen: seq<Addr>, more: seq<Addr>, seed: string,
                  digest: Digest)
    requires AllMasked(usable) && Serving(usable, k, items, chosen, seed, digest) && k < |usable|
    requires more == Take(Fresh(usable[k], seed, digest, IpStrings(chosen), ROUNDS), 1) && more != []
    ensures Serving(usable, k + 1, items + TargetsOf(usable[k], more), chosen + more, seed, digest)
  {
    NextServed(usable, k, chosen, seed, digest, ROUNDS);
    assert |chosen + more| == k + 1;
  }

  lemma ServeEnd(usable: seq<Prefix>, k: nat, chosen: seq<Addr>, seed: string, digest: Digest)
    requires AllMasked(usable) && k == |chosen| < |usable| && Reserved(usable, chosen)
    requires chosen == Served(usable, k, seed, digest, ROUNDS)
    requires Take(Fresh(usable[k], seed, digest, IpStrings(chosen), ROUNDS), 1) == []
    ensures AllTaken(usable[k], seed, digest, ROUNDS, chosen)
            && chosen == Served(usable, |usable|, seed, digest, ROUNDS)
  {
    NextServed(usable, k, chosen, seed, digest, ROUNDS);
    assert chosen + [] == chosen;
    ServedStops(usable, k + 1, |usable|, seed, digest, ROUNDS);
  }

  /** The loop: serves prefixes in order and stops at the first that gets nothing. */
  method Assign(usable: seq<Prefix>, seed: string, digest: Digest)
    returns (items: seq<Target>, k: nat, ghost chosen: seq<Addr>)
    requires AllMasked(usable)
    ensures k == |chosen| && Reserved(usable, chosen) && Assigned(items, usable, chosen)
    ensures chosen == Served(usable, |usable|, seed, digest, ROUNDS)
    ensures k < |usable| ==> AllTaken(usable[k], seed, digest, ROUNDS, chosen)
  {
    items, k, chosen := [], 0, [];
    var seen := new Seen();
    while k < |usable|
      invariant Serving(usable, k, items, chosen, seed, digest)
      invariant fresh(seen) && seen.texts == IpStrings(chosen)
    {
      var one;
      ghost var more;
      one, more := ChooseOne(usable[k], seed, digest, seen, chosen);
      if |one| != 1 {
        ServeEnd(usable, k, chosen, seed, digest);
        return;
      }
      ServeNext(usable, k, items, chosen, more, seed, digest);
      items := items + one;
      chosen := chosen + more;
      k := k + 1;
    }
  }

  const TIGHT := [Prefix(V4, 1, 32), Prefix(V4, 2, 32), Prefix(V4, 0, 30)]

  /** With IPv4 blocks whose network and broadcast addresses are never offered, failing does not mean that
      no choice exists: for 0.0.0.1/32, 0.0.0.2/32 and 0.0.0.0/30 the call fails whatever the digests, because
      the /30 is only ever offered .1 and .2, yet giving it .0 would do. */
  lemma GreedyIsNotOptimal(seed: string, digest: Digest)
    ensures AllMasked(TIGHT) && LongestFirst(TIGHT) && !Impossible(TIGHT) && !Succeeds(TIGHT, seed, digest)
  {
    TightHasChoice();
    TightFails(seed, digest);
  }

  lemma TightHasChoice()
    ensures AllMasked(TIGHT) && LongestFirst(TIGHT) && !Impossible(TIGHT)
  {
    TightIsOrdered();
    TightFits(0, Addr(V4, 1));
    TightFits(1, Addr(V4, 2));
    TightFits(2, Addr(V4, 0));
    assert IsChoice(TIGHT, [Addr(V4, 1), Addr(V4, 2), Addr(V4, 0)]);
  }

  lemma TightIsOrdered()
    ensures AllMasked(TIGHT) && LongestFirst(TIGHT)
  {
    SmallBlocks();
  }

  lemma TightFits(i: nat, a: Addr)
    requires i < 3 && a == Addr(V4, [1, 2, 0][i])
    ensures IsMasked(TIGHT[i]) && Contains(TIGHT[i], a)
  {
    SmallBlocks();
  }

  lemma TightFails(seed: string, digest: Digest)
    requires AllMasked(TIGHT)
    ensures !Succeeds(TIGHT, seed, digest)
  {
    ServedReserved(TIGHT, 3, seed, digest, ROUNDS);
    var chosen := Served(TIGHT, 3, seed, digest, ROUNDS);
    if |chosen| == 3 {
      TightOffers(seed, digest, chosen, 0);
      TightOffers(seed, digest, chosen, 1);
      TightOffers(seed, digest, chosen, 2);
    }
  }

  lemma TightOffers(seed: string, digest: Digest, chosen: seq<Addr>, i: nat)
    requires AllMasked(TIGHT) && chosen == Served(TIGHT, 3, seed, digest, ROUNDS) && i < |chosen| == 3
    ensures chosen[i].family == V4 && if i < 2 then chosen[i].value == i + 1 else 0 < chosen[i].value < 3
  {
    SmallBlocks();
    ServedDigests(TIGHT, 3, seed, digest, ROUNDS, i);
    DigestIsEligible(TIGHT[i], seed, digest, ROUNDS, chosen[i]);
  }

  lemma Pow2Large(n: nat)
    requires n >= 2
    ensures Pow2(n) >= 4
  {
    assert Pow2(n) == 2 * Pow2(n - 1) && Pow2(n - 1) == 2 * Pow2(n - 2);
  }

  lemma SingleAddress(v: nat)
    requires v < 4
    ensures IsMasked(Prefix(V4, v, 32)) && Contains(Prefix(V4, v, 32), Addr(V4, v)) && Size(Prefix(V4, v, 32)) == 1
  {
    Pow2Large(32);
    assert HostBits(Prefix(V4, v, 32)) == 0;
  }

  lemma SmallBlocks()
    ensures IsMasked(Prefix(V4, 1, 32)) && IsMasked(Prefix(V4, 2, 32)) && IsMasked(Prefix(V4, 0, 30))
    ensures Contains(Prefix(V4, 1, 32), Addr(V4, 1)) && Contains(Prefix(V4, 2, 32), Addr(V4, 2))
    ensures Size(Prefix(V4, 1, 32)) == Size(Prefix(V4, 2, 32)) == 1
    ensures Contains(Prefix(V4, 0, 30), Addr(V4, 0)) && Size(Prefix(V4, 0, 30)) == 4
  {
    SingleAddress(1);
    SingleAddress(2);
    assert HostBits(Prefix(V4, 0, 30)) == 2 && Pow2(2) == 4 && Shr(0, 2) == 0;
  }
}
