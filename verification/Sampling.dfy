/** Sampling up to a limit over all usable prefixes, round by round. */
module Sampling {
  import opened Wrappers
  import opened Cardinality
  import opened Cidr
  import opened Probes
  import opened Sorting
  import opened Sampler

  function ToTargets(picks: seq<Pick>): (r: seq<Target>)
    requires forall i :: 0 <= i < |picks| ==> ValidPrefix(picks[i].prefix)
    ensures |r| == |picks|
    ensures forall i :: 0 <= i < |r| ==> r[i] == Target(IpString(picks[i].addr), CidrString(picks[i].prefix))
  {
    seq(|picks|, i requires 0 <= i < |picks| => Target(IpString(picks[i].addr), CidrString(picks[i].prefix)))
  }

  /** The addresses recorded as used are those of the picks. */
  ghost predicate Records(seen: set<IpText>, picks: seq<Pick>) {
    forall a :: IpString(a) in seen <==> Picked(picks, a)
  }

  lemma RecordMore(seen: set<IpText>, picks: seq<Pick>, pick: Pick)
    requires Records(seen, picks)
    ensures Records(seen + {IpString(pick.addr)}, picks + [pick])
  {
    var more := picks + [pick];
    PickedGrows(picks, more);
    assert more[|picks|].addr == pick.addr;
    forall a | Picked(more, a) ensures IpString(a) in seen + {IpString(pick.addr)} {
      var i :| 0 <= i < |more| && more[i].addr == a;
      if i < |picks| { assert picks[i].addr == a; }
    }
  }

  /** Where a round stands after the first `i` prefixes. */
  ghost predicate InRound(usable: seq<Prefix>, limit: nat, seed: string, digest: Digest, round: nat, i: nat,
                          before: seq<Pick>, seen: set<IpText>, picks: seq<Pick>)
  {
    && AllMasked(usable) && i <= |usable| && Records(seen, picks) && |picks| <= limit
    && picks == Pass(usable, seed, digest, round, i, before)
  }

  /** One round: prefixes are served in turn until the limit is reached. */
  method SampleRound(usable: seq<Prefix>, limit: nat, seed: string, digest: Digest, round: nat, seen0: set<IpText>,
                     before: seq<Pick>)
    returns (seen: set<IpText>, picks: seq<Pick>)
    requires AllMasked(usable) && |before| < limit && Records(seen0, before)
    ensures Records(seen, picks)
    ensures picks == Take(Pass(usable, seed, digest, round, |usable|, before), limit)
    ensures |picks| < limit ==> picks == Pass(usable, seed, digest, round, |usable|, before)
  {
    seen, picks := seen0, before;
    for i := 0 to |usable|
      invariant InRound(usable, limit, seed, digest, round, i, before, seen, picks)
    {
      if |picks| >= limit {
        PassGrows(usable, seed, digest, round, i, |usable|, before);
        return;
      }
      var addr := ChooseAddress(usable[i], seed, round, digest);
      var value := IpString(addr);
      if value in seen {
        continue;
      }
      RecordMore(seen, picks, Pick(usable[i], addr));
      seen := seen + {value};
      picks := picks + [Pick(usable[i], addr)];
    }
  }

  lemma TakeOfLonger<T>(xs: seq<T>, longer: seq<T>, n: nat)
    requires xs <= longer && (|xs| >= n || xs == longer)
    ensures Take(xs, n) == Take(longer, n)
  {
  }

  method SampleRounds(usable: seq<Prefix>, limit: nat, rounds: nat, seed: string, digest: Digest)
    returns (picks: seq<Pick>)
    requires AllMasked(usable) && limit > 0
    ensures picks == Take(Passes(usable, seed, digest, rounds), limit)
  {
    picks := [];
    var seen: set<IpText> := {};
    var round: nat := 0;
    while |picks| < limit && round < rounds
      invariant round <= rounds && Records(seen, picks)
      invariant UpTo(usable, seed, digest, round, limit, picks)
      decreases rounds - round
    {
      UpToNext(usable, seed, digest, round, limit, picks);
      seen, picks := SampleRound(usable, limit, seed, digest, round, seen, picks);
      round := round + 1;
    }
    UpToEnd(usable, seed, digest, round, rounds, limit, picks);
  }

  predicate UpTo(usable: seq<Prefix>, seed: string, digest: Digest, round: nat, limit: nat, picks: seq<Pick>)
    requires AllMasked(usable)
  {
    picks == Take(Passes(usable, seed, digest, round), limit)
  }

  lemma UpToNext(usable: seq<Prefix>, seed: string, digest: Digest, round: nat, limit: nat, picks: seq<Pick>)
    requires AllMasked(usable) && UpTo(usable, seed, digest, round, limit, picks) && |picks| < limit
    ensures UpTo(usable, seed, digest, round + 1, limit,
                 Take(Pass(usable, seed, digest, round, |usable|, picks), limit))
  {
    assert picks == Passes(usable, seed, digest, round);
  }

  lemma UpToEnd(usable: seq<Prefix>, seed: string, digest: Digest, round: nat, rounds: nat, limit: nat,
                picks: seq<Pick>)
    requires AllMasked(usable) && round <= rounds && UpTo(usable, seed, digest, round, limit, picks)
    requires |picks| >= limit || round == rounds
    ensures UpTo(usable, seed, digest, rounds, limit, picks)
  {
    PassesGrow(usable, seed, digest, round, rounds);
    TakeOfLonger(Passes(usable, seed, digest, round), Passes(usable, seed, digest, rounds), limit);
  }

  /** An address is sampled only if a digest of one of the prefixes, in one of the rounds, names it; and while
      there is room every such address is sampled. */
  lemma SampleReaches(usable: seq<Prefix>, seed: string, digest: Digest, rounds: nat, limit: nat, a: Addr)
    requires AllMasked(usable)
    ensures var picks := Take(Passes(usable, seed, digest, rounds), limit);
            && (Picked(picks, a) ==> exists p :: p in usable && Named(p, seed, digest, rounds, a))
            && (|picks| < limit && (exists p :: p in usable && Named(p, seed, digest, rounds, a)) ==> Picked(picks, a))
  {
    var all := Passes(usable, seed, digest, rounds);
    var picks := Take(all, limit);
    PassesAreDrawn(usable, seed, digest, rounds);
    if Picked(picks, a) {
      var i :| 0 <= i < |picks| && picks[i].addr == a;
      assert IsDrawn(usable, seed, digest, rounds, all[i]);
      DigestIffNamed(picks[i].prefix, seed, digest, rounds, a);
    }
    if |picks| < limit && exists p :: p in usable && Named(p, seed, digest, rounds, a) {
      var p :| p in usable && Named(p, seed, digest, rounds, a);
      var k :| 0 <= k < |usable| && usable[k] == p;
      var n: nat :| n < rounds && Names(p, digest(p, seed, n), a);
      ChosenIffNamed(p, a, seed, n, digest);
      PassesCover(usable, seed, digest, rounds, n);
    }
  }

  /** Every sampled address is named by a digest of a usable prefix in one of the 4 * limit rounds. */
  ghost predicate AllNamed(usable: seq<Prefix>, targets: seq<Target>, seed: string, digest: Digest, limit: nat) {
    forall a :: IpString(a) in IpsOf(targets) ==>
      exists p :: p in usable && IsMasked(p) && Named(p, seed, digest, 4 * limit, a)
  }

  /** And every address so named is sampled. */
  ghost predicate NamedAreIn(usable: seq<Prefix>, targets: seq<Target>, seed: string, digest: Digest, limit: nat) {
    forall p, a | p in usable && IsMasked(p) && Named(p, seed, digest, 4 * limit, a) :: IpString(a) in IpsOf(targets)
  }

  lemma SampledAreNamed(usable: seq<Prefix>, picks: seq<Pick>, seed: string, digest: Digest, limit: nat)
    requires AllMasked(usable) && GoodPicks(usable, picks)
    requires picks == Take(Passes(usable, seed, digest, 4 * limit), limit)
    ensures AllNamed(usable, ToTargets(picks), seed, digest, limit)
    ensures |picks| < limit ==> NamedAreIn(usable, ToTargets(picks), seed, digest, limit)
  {
    var ts := ToTargets(picks);
    forall a | IpString(a) in IpsOf(ts)
      ensures exists p :: p in usable && IsMasked(p) && Named(p, seed, digest, 4 * limit, a)
    {
      SampleReaches(usable, seed, digest, 4 * limit, limit, a);
      var t :| t in ts && t.ip == IpString(a);
      var i :| 0 <= i < |ts| && ts[i] == t;
      assert picks[i].addr == a;
    }
    if |picks| < limit {
      forall p, a | p in usable && IsMasked(p) && Named(p, seed, digest, 4 * limit, a)
        ensures IpString(a) in IpsOf(ts)
      {
        SampleReaches(usable, seed, digest, 4 * limit, limit, a);
        var i :| 0 <= i < |picks| && picks[i].addr == a;
        assert ts[i] in ts;
      }
    }
  }

  /** With a valid limit and usable prefixes the call returns between one and `limit` targets, distinct and
      inside usable prefixes, so it never reports that nothing could be sampled. It falls short of the limit
      only when every address named in any of the 4 * limit rounds is there. */
  method Sample(rows: seq<StoredPrefix>, limit: int, includeIPv6: bool, seed: string, digest: Digest,
                rank: Prefix -> int)
    returns (r: Result<seq<Target>, Error>, ghost usable: seq<Prefix>)
    ensures r == Err(BadLimit) <==> limit < 1 || limit > 10_000
    ensures 1 <= limit <= 10_000 && r.Err? ==>
              UsableResult(rows, includeIPv6, Err(r.error)) && r.error != CouldNotSample
    ensures r.Ok? ==> UsableResult(rows, includeIPv6, Ok(usable)) && Sorted(usable, (a, b) => rank(a) < rank(b))
    ensures r.Ok? ==> var picks := Take(Passes(usable, seed, digest, 4 * limit), limit);
                      GoodPicks(usable, picks) && r.value == ToTargets(picks) && 1 <= |r.value| <= limit
                        && DistinctIps(r.value)
    ensures r.Ok? ==> AllNamed(usable, r.value, seed, digest, limit)
    ensures r.Ok? && |r.value| < limit ==> NamedAreIn(usable, r.value, seed, digest, limit)
  {
    usable := [];
    if limit <= 0 || limit > MAX_SAMPLE_TARGETS {
      return Err(BadLimit), usable;
    }
    var found := UsablePrefixes(rows, includeIPv6);
    if found.Err? {
      return Err(found.error), usable;
    }
    var sorted, _ := SortSlice(found.value, (a, b) => rank(a) < rank(b));
    assert IsOrderOn(found.value, (a: Prefix, b: Prefix) => rank(a) < rank(b));
    SameElements(sorted, found.value);
    assert AllMasked(sorted) by {
      forall i | 0 <= i < |sorted| ensures IsMasked(sorted[i]) { assert sorted[i] in found.value; }
    }
    usable := sorted;
    var picks := SampleRounds(sorted, limit, 4 * limit, seed, digest);
    PassesMeaning(usable, seed, digest, 4 * limit);
    PassesNonEmpty(usable, seed, digest, 4 * limit);
    var result := ToTargets(picks);
    if |result| == 0 {
      assert false;
    }
    SampledAreNamed(usable, picks, seed, digest, limit);
    r := Ok(result);
  }
}
