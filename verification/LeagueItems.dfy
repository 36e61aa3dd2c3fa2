/** What one due prefix contributes to an agent's plan: known good addresses first, then generated ones. */
module LeagueItems {
  import opened Wrappers
  import opened Cardinality
  import opened Cidr
  import opened Probes
  import opened Sampler
  import opened League

  datatype Entry = Entry(agent: string, cidr: CidrText, active: bool, tier: Tier, lastScheduledAt: Option<Time>)

  /** Hash values and the text form of prefixes, all uninterpreted. */
  datatype Hashes = Hashes(
    digest: Digest,
    entryScore: (string, string, CidrText) -> nat,
    groupScore: (string, CidrText) -> nat,
    text: Prefix -> string)

  predicate Eligible(candidate: IpText, p: Prefix)
    requires ValidPrefix(p)
  {
    candidate.parsed.Some? && Contains(p, candidate.parsed.value)
  }

  /** The anchors found among the first `n` candidates. */
  function Anchored(candidates: seq<IpText>, n: nat, p: Prefix, limit: nat, seen: set<IpText>): seq<IpText>
    requires n <= |candidates| && ValidPrefix(p)
  {
    if n == 0 then []
    else
      var before, c := Anchored(candidates, n - 1, p, limit, seen), candidates[n - 1];
      if |before| >= limit || !Eligible(c, p) || c in seen || c in before then before else before + [c]
  }

  /** A candidate that parses, lies in the block and was not used before. */
  predicate Usable(candidate: IpText, p: Prefix, seen: set<IpText>)
    requires ValidPrefix(p)
  {
    candidate.parsed.Some? && Contains(p, candidate.parsed.value) && candidate !in seen
  }

  /** The anchors are the first usable candidates, each once: one is left out only when the limit is used up by
      candidates before it. */
  lemma {:induction false} AnchoredMeaning(candidates: seq<IpText>, n: nat, p: Prefix, limit: nat, seen: set<IpText>)
    requires n <= |candidates| && ValidPrefix(p)
    ensures var r := Anchored(candidates, n, p, limit, seen);
            && |r| <= limit && Distinct(r)
            && (forall c :: c in r ==> c in candidates[..n] && Usable(c, p, seen))
            && (forall i :: 0 <= i < n && Usable(candidates[i], p, seen) && candidates[i] !in r ==>
                  |r| == limit && forall c :: c in r ==> c in candidates[..i])
  {
    if n == 0 {
    } else {
      AnchoredMeaning(candidates, n - 1, p, limit, seen);
      assert candidates[..n] == candidates[..n - 1] + [candidates[n - 1]];
    }
  }

  lemma {:induction false} AnchoredFull(candidates: seq<IpText>, m: nat, n: nat, p: Prefix, limit: nat,
                                        seen: set<IpText>)
    requires m <= n <= |candidates| && ValidPrefix(p) && |Anchored(candidates, m, p, limit, seen)| >= limit
    ensures Anchored(candidates, n, p, limit, seen) == Anchored(candidates, m, p, limit, seen)
  {
    if m == n {
    } else {
      AnchoredFull(candidates, m, n - 1, p, limit, seen);
    }
  }

  function AnchorTargets(p: Block, ips: seq<IpText>): (r: seq<Target>)
    ensures |r| == |ips| && forall i :: 0 <= i < |r| ==> r[i] == Target(ips[i], CidrString(p))
  {
    seq(|ips|, i requires 0 <= i < |ips| => Target(ips[i], CidrString(p)))
  }

  lemma IpsOfAnchors(p: Block, ips: seq<IpText>)
    ensures IpsOf(AnchorTargets(p, ips)) == Elements(ips)
  {
    var ts := AnchorTargets(p, ips);
    forall s | s in Elements(ips) ensures s in IpsOf(ts) {
      var i :| 0 <= i < |ips| && ips[i] == s;
      assert ts[i] in ts;
    }
    forall s | s in IpsOf(ts) ensures s in Elements(ips) {
      var t :| t in ts && s == t.ip;
      var i :| 0 <= i < |ts| && ts[i] == t;
      assert ips[i] in ips;
    }
  }

  method TakeAnchors(candidates: seq<IpText>, p: Prefix, limit: nat, seen: Seen) returns (items: seq<Target>)
    requires IsMasked(p)
    modifies seen
    ensures items == AnchorTargets(p, Anchored(candidates, |candidates|, p, limit, old(seen.texts)))
    ensures seen.texts == old(seen.texts) + IpsOf(items)
  {
    items := [];
    ghost var before, ips := seen.texts, [];
    for i := 0 to |candidates|
      invariant ips == Anchored(candidates, i, p, limit, before) && items == AnchorTargets(p, ips)
      invariant seen.texts == before + Elements(ips)
    {
      if |items| >= limit {
        AnchoredFull(candidates, i, |candidates|, p, limit, before);
        break;
      }
      var candidate := candidates[i];
      if candidate.parsed.None? || !Contains(p, candidate.parsed.value) {
        continue;
      }
      if candidate in seen.texts {
        continue;
      }
      seen.texts := seen.texts + {candidate};
      items := items + [Target(candidate, CidrString(p))];
      ips := ips + [candidate];
    }
    IpsOfAnchors(p, ips);
  }

  function SampleSeed(seed: string, agent: string, p: Prefix, h: Hashes): string {
    seed + "|" + agent + "|" + h.text(p)
  }

  function AnchorsFor(e: Entry, candidates: seq<IpText>, seen: set<IpText>): seq<Target>
    requires e.cidr.parsed.Some?
  {
    var p := Masked(e.cidr.parsed.value);
    AnchorTargets(p, Anchored(candidates, |candidates|, p, Anchors(e.tier), seen))
  }

  function GeneratedFor(e: Entry, count: int, seed: string, h: Hashes, seen: set<IpText>): seq<Target>
    requires e.cidr.parsed.Some?
  {
    var p := Masked(e.cidr.parsed.value);
    match FromText(CidrString(p), count, SampleSeed(seed, e.agent, p, h), h.digest, seen)
    case Ok(items) => items
    case Err(_) => []
  }

  function ItemsFor(e: Entry, candidates: seq<IpText>, seed: string, h: Hashes, seen: set<IpText>): seq<Target>
    requires e.cidr.parsed.Some?
  {
    var anchors := AnchorsFor(e, candidates, seen);
    anchors + GeneratedFor(e, Samples(e.tier) - |anchors|, seed, h, seen + IpsOf(anchors))
  }

  /** The target is one of the digests tried for the entry, in canonical form. */
  ghost predicate Generated(t: Target, e: Entry, seed: string, h: Hashes)
    requires e.cidr.parsed.Some?
  {
    var p := Masked(e.cidr.parsed.value);
    && t.ip.parsed.Some? && t == Target(IpString(t.ip.parsed.value), CidrString(p))
    && IsDigest(p, SampleSeed(seed, e.agent, p, h), h.digest, ROUNDS, t.ip.parsed.value)
  }

  /** The contribution of an entry: at most its tier's number of targets inside its block, of which at most
      its tier's number of anchors come from the candidates and all others were generated. */
  ghost predicate Contribution(e: Entry, candidates: seq<IpText>, seed: string, h: Hashes, items: seq<Target>,
                               anchors: nat)
  {
    && e.cidr.parsed.Some?
    && anchors <= |items| <= Samples(e.tier) && anchors <= Anchors(e.tier)
    && (forall i :: 0 <= i < |items| ==> InBlock(items[i], Masked(e.cidr.parsed.value)))
    && (forall i :: 0 <= i < anchors ==> items[i].ip in candidates)
    && (forall i :: anchors <= i < |items| ==> Generated(items[i], e, seed, h))
  }

  lemma AnchorsMeaning(e: Entry, candidates: seq<IpText>, seed: string, h: Hashes, seen: set<IpText>)
    requires e.cidr.parsed.Some?
    ensures var items := AnchorsFor(e, candidates, seen);
            && Contribution(e, candidates, seed, h, items, |items|) && DistinctIps(items)
            && forall i :: 0 <= i < |items| ==> items[i].ip !in seen
  {
    var p := Masked(e.cidr.parsed.value);
    MaskedIsMasked(e.cidr.parsed.value);
    var ips := Anchored(candidates, |candidates|, p, Anchors(e.tier), seen);
    AnchoredMeaning(candidates, |candidates|, p, Anchors(e.tier), seen);
    forall i | 0 <= i < |ips| ensures ips[i] in candidates && Eligible(ips[i], p) && ips[i] !in seen {
      assert ips[i] in ips;
    }
  }

  lemma GeneratedMeaning(e: Entry, count: int, seed: string, h: Hashes, seen: set<IpText>)
    requires e.cidr.parsed.Some?
    ensures var items, p := GeneratedFor(e, count, seed, h, seen), Masked(e.cidr.parsed.value);
            && |items| <= Max(count, 0) && DistinctIps(items)
            && (forall i :: 0 <= i < |items| ==>
                  InBlock(items[i], p) && Generated(items[i], e, seed, h) && items[i].ip !in seen)
            && (|items| < count ==> forall n: nat :: n < ROUNDS ==>
                  IpString(AddressFor(p, SampleSeed(seed, e.agent, p, h), n, h.digest)) in seen + IpsOf(items))
  {
    var p := Masked(e.cidr.parsed.value);
    MaskedIsMasked(e.cidr.parsed.value);
    FromTextMeaning(CidrString(p), count, SampleSeed(seed, e.agent, p, h), h.digest, seen);
    FreshAreDigests(p, SampleSeed(seed, e.agent, p, h), h.digest, seen, ROUNDS);
  }

  lemma ItemsMeaning(e: Entry, candidates: seq<IpText>, seed: string, h: Hashes, seen: set<IpText>)
    requires e.cidr.parsed.Some?
    ensures var items := ItemsFor(e, candidates, seed, h, seen);
            && Contribution(e, candidates, seed, h, items, |AnchorsFor(e, candidates, seen)|) && DistinctIps(items)
            && forall i :: 0 <= i < |items| ==> items[i].ip !in seen
  {
    var anchors := AnchorsFor(e, candidates, seen);
    var generated := GeneratedFor(e, Samples(e.tier) - |anchors|, seed, h, seen + IpsOf(anchors));
    AnchorsMeaning(e, candidates, seed, h, seen);
    GeneratedMeaning(e, Samples(e.tier) - |anchors|, seed, h, seen + IpsOf(anchors));
    ApartConcat(anchors, generated);
  }

  /** Distinct targets followed by distinct targets with other addresses are distinct. */
  lemma ApartConcat(xs: seq<Target>, ys: seq<Target>)
    requires DistinctIps(xs) && DistinctIps(ys) && forall i :: 0 <= i < |ys| ==> ys[i].ip !in IpsOf(xs)
    ensures DistinctIps(xs + ys)
  {
    forall i | 0 <= i < |xs| ensures xs[i].ip in IpsOf(xs) {
      assert xs[i] in xs;
    }
  }

  /** An entry falls short of its tier's number of targets only when every digest tried for it is used up. */
  lemma ShortOnlyWhenExhausted(e: Entry, candidates: seq<IpText>, seed: string, h: Hashes, seen: set<IpText>, n: nat)
    requires e.cidr.parsed.Some? && n < ROUNDS
    requires |ItemsFor(e, candidates, seed, h, seen)| < Samples(e.tier)
    ensures var p := Masked(e.cidr.parsed.value);
            IpString(AddressFor(p, SampleSeed(seed, e.agent, p, h), n, h.digest)) in seen
              + IpsOf(ItemsFor(e, candidates, seed, h, seen))
  {
    var anchors := AnchorsFor(e, candidates, seen);
    var generated := GeneratedFor(e, Samples(e.tier) - |anchors|, seed, h, seen + IpsOf(anchors));
    GeneratedMeaning(e, Samples(e.tier) - |anchors|, seed, h, seen + IpsOf(anchors));
    IpsOfConcat(anchors, generated);
  }

  lemma IpsOfConcat(xs: seq<Target>, ys: seq<Target>)
    ensures IpsOf(xs + ys) == IpsOf(xs) + IpsOf(ys)
  {
    assert forall t :: t in xs + ys <==> t in xs || t in ys;
  }

  /** A champion gets six targets, a challenger three and any other entry one, of which at most two, one or
      none are anchors: the first usable candidates. The others are named by digests of the prefix under the
      seed with the agent and the prefix appended. */
  lemma ItemsByTier(e: Entry, candidates: seq<IpText>, seed: string, h: Hashes, seen: set<IpText>)
    requires e.cidr.parsed.Some?
    ensures var items, p := ItemsFor(e, candidates, seed, h, seen), Masked(e.cidr.parsed.value);
            var most := if e.tier.Champion? then 6 else if e.tier.Challenger? then 3 else 1;
            var first := if e.tier.Champion? then 2 else if e.tier.Challenger? then 1 else 0;
            var anchors := Anchored(candidates, |candidates|, p, first, seen);
            && |anchors| <= |items| <= most
            && (forall i :: 0 <= i < |anchors| ==> items[i] == Target(anchors[i], CidrString(p)))
            && (forall i :: |anchors| <= i < |items| ==>
                  && items[i].cidr == CidrString(p)
                  && exists a :: items[i].ip == IpString(a)
                                 && Named(p, seed + "|" + e.agent + "|" + h.text(p), h.digest, 4096, a))
            && (|items| < most ==> forall a :: Named(p, seed + "|" + e.agent + "|" + h.text(p), h.digest, 4096, a) ==>
                  IpString(a) in seen + IpsOf(items))
  {
    ItemsMeaning(e, candidates, seed, h, seen);
    var items, p := ItemsFor(e, candidates, seed, h, seen), Masked(e.cidr.parsed.value);
    MaskedIsMasked(e.cidr.parsed.value);
    var own := seed + "|" + e.agent + "|" + h.text(p);
    var anchors := Anchored(candidates, |candidates|, p, Anchors(e.tier), seen);
    forall i | |anchors| <= i < |items|
      ensures exists a :: items[i].ip == IpString(a) && Named(p, own, h.digest, 4096, a)
    {
      assert Generated(items[i], e, seed, h);
      DigestIffNamed(p, own, h.digest, ROUNDS, items[i].ip.parsed.value);
    }
    if |items| < Samples(e.tier) {
      forall a | Named(p, own, h.digest, 4096, a) ensures IpString(a) in seen + IpsOf(items) {
        var n: nat :| n < 4096 && Names(p, h.digest(p, own, n), a);
        ChosenIffNamed(p, a, own, n, h.digest);
        ShortOnlyWhenExhausted(e, candidates, seed, h, seen, n);
      }
    }
  }

  method CollectItems(e: Entry, candidates: seq<IpText>, seed: string, h: Hashes, seen: Seen)
    returns (items: seq<Target>)
    requires e.cidr.parsed.Some?
    modifies seen
    ensures items == ItemsFor(e, candidates, seed, h, old(seen.texts))
    ensures seen.texts == old(seen.texts) + IpsOf(items)
  {
    var desired := Samples(e.tier);
    var prefix := Masked(e.cidr.parsed.value);
    MaskedIsMasked(e.cidr.parsed.value);
    items := TakeAnchors(candidates, prefix, Anchors(e.tier), seen);
    var anchors := items;
    var generated := FromPrefix(CidrString(prefix), desired - |items|, SampleSeed(seed, e.agent, prefix, h), seen,
                                h.digest);
    if generated.Ok? {
      items := items + generated.value;
      IpsOfConcat(anchors, generated.value);
    }
  }
}
