/** Choosing target addresses from stored prefixes. */
module Sampler {
  import opened Wrappers
  import opened Cardinality
  import opened Cidr
  import opened Probes
  import opened Sorting

  const MAX_SAMPLE_TARGETS: nat := 10000

  /** Digests tried per prefix before giving up. */
  const ROUNDS: nat := 4096

  datatype StoredPrefix = StoredPrefix(cidr: CidrText, version: int, active: bool)

  datatype Target = Target(ip: IpText, cidr: CidrText)

  datatype Error =
    BadLimit | Unparsable(text: CidrText) | NoActivePrefix | NoUniqueAddress(prefix: Prefix) | CouldNotSample

  /** The map of addresses already used, shared between calls. */
  class Seen {
    var texts: set<IpText>

    constructor ()
      ensures texts == {}
    {
      texts := {};
    }
  }

  function TargetsOf(p: Block, addrs: seq<Addr>): (r: seq<Target>)
    ensures |r| == |addrs| && forall i :: 0 <= i < |r| ==> r[i] == Target(IpString(addrs[i]), CidrString(p))
  {
    seq(|addrs|, i requires 0 <= i < |addrs| => Target(IpString(addrs[i]), CidrString(p)))
  }

  function IpStrings(addrs: seq<Addr>): (r: set<IpText>)
    ensures forall a :: IpString(a) in r <==> a in addrs
  {
    set a | a in addrs :: IpString(a)
  }

  function IpsOf(items: seq<Target>): set<IpText> {
    set t | t in items :: t.ip
  }

  lemma IpsOfTargets(p: Block, addrs: seq<Addr>)
    ensures IpsOf(TargetsOf(p, addrs)) == IpStrings(addrs)
  {
    var ts := TargetsOf(p, addrs);
    forall s | s in IpStrings(addrs) ensures s in IpsOf(ts) {
      var a :| a in addrs && s == IpString(a);
      var i :| 0 <= i < |addrs| && addrs[i] == a;
      assert ts[i] in ts;
    }
    forall s | s in IpsOf(ts) ensures s in IpStrings(addrs) {
      var t :| t in ts && s == t.ip;
      var i :| 0 <= i < |ts| && ts[i] == t;
      assert addrs[i] in addrs;
    }
  }

  // ---- One prefix -----------------------------------------------------------------------

  /** What one prefix contributes. */
  function FromText(cidr: CidrText, count: int, seed: string, digest: Digest, seen: set<IpText>)
    : Result<seq<Target>, Error>
  {
    if count <= 0 then Ok([])
    else match cidr.parsed
      case None => Err(Unparsable(cidr))
      case Some(p) => Ok(TargetsOf(Masked(p), Take(Fresh(Masked(p), seed, digest, seen, ROUNDS), count)))
  }

  function SeenAfter(r: Result<seq<Target>, Error>, seen: set<IpText>): set<IpText> {
    match r case Ok(items) => seen + IpsOf(items) case Err(_) => seen
  }

  ghost predicate DistinctIps(items: seq<Target>) {
    forall i, k :: 0 <= i < k < |items| ==> items[i].ip != items[k].ip
  }

  /** A target is the canonical text of an address inside the masked block it is recorded under. */
  predicate InBlock(t: Target, p: Prefix) {
    IsMasked(p) && t.cidr == CidrString(p) && t.ip.parsed.Some? && Contains(p, t.ip.parsed.value)
  }

  /** Up to `count` targets, canonical, distinct, not seen before and inside the masked prefix; fewer only
      when every digest tried is taken by then. */
  lemma FromTextMeaning(cidr: CidrText, count: int, seed: string, digest: Digest, seen: set<IpText>)
    requires cidr.parsed.Some? || count <= 0
    ensures var r := FromText(cidr, count, seed, digest, seen);
            && r.Ok? && |r.value| <= Max(count, 0) && DistinctIps(r.value)
            && (forall i ::
                  0 <= i < |r.value| ==>
                    InBlock(r.value[i], Masked(cidr.parsed.value)) && r.value[i].ip.spelling == 0
                      && r.value[i].ip !in seen)
    ensures count > 0 ==>
      var r, p := FromText(cidr, count, seed, digest, seen), Masked(cidr.parsed.value);
      |r.value| < count ==>
        forall n: nat :: n < ROUNDS ==> IpString(AddressFor(p, seed, n, digest)) in SeenAfter(r, seen)
  {
    if count > 0 {
      var p := Masked(cidr.parsed.value);
      MaskedIsMasked(cidr.parsed.value);
      FreshMeaning(p, seed, digest, seen, ROUNDS);
      IpsOfTargets(p, Take(Fresh(p, seed, digest, seen, ROUNDS), count));
    }
  }

  /** Some of the first `rounds` digests of the block names the address. */
  ghost predicate Named(p: Prefix, seed: string, digest: Digest, rounds: nat, a: Addr)
    requires ValidPrefix(p)
  {
    exists n: nat :: n < rounds && Names(p, digest(p, seed, n), a)
  }

  lemma DigestIffNamed(p: Prefix, seed: string, digest: Digest, rounds: nat, a: Addr)
    requires IsMasked(p)
    ensures IsDigest(p, seed, digest, rounds, a) <==> Named(p, seed, digest, rounds, a)
  {
    forall n: nat ensures AddressFor(p, seed, n, digest) == a <==> Names(p, digest(p, seed, n), a) {
      ChosenIffNamed(p, a, seed, n, digest);
    }
  }

  /** An address is returned only if one of 4096 digests names it and it was not used before; and while fewer
      than `count` are returned, each such address is among them. */
  lemma FromTextReaches(cidr: CidrText, count: int, seed: string, digest: Digest, seen: set<IpText>, a: Addr)
    requires cidr.parsed.Some? && count > 0
    ensures var p, r := Masked(cidr.parsed.value), FromText(cidr, count, seed, digest, seen);
            && r.Ok?
            && (IpString(a) in IpsOf(r.value) ==> IpString(a) !in seen && Named(p, seed, digest, 4096, a))
            && (|r.value| < count && IpString(a) !in seen && Named(p, seed, digest, 4096, a) ==>
                  IpString(a) in IpsOf(r.value))
  {
    var p := Masked(cidr.parsed.value);
    var all := Fresh(p, seed, digest, seen, ROUNDS);
    MaskedIsMasked(cidr.parsed.value);
    FreshMeaning(p, seed, digest, seen, ROUNDS);
    FreshAreDigests(p, seed, digest, seen, ROUNDS);
    DigestIffNamed(p, seed, digest, ROUNDS, a);
    IpsOfTargets(p, Take(all, count));
  }

  method ChooseAddress(p: Prefix, seed: string, round: nat, digest: Digest) returns (a: Addr)
    requires IsMasked(p)
    ensures a == AddressFor(p, seed, round, digest)
  {
    var bits := Width(p.family);
    var hostBits := bits - p.bits;
    var count := Pow2(hostBits);
    var offset := digest(p, seed, round);
    offset := offset % count;
    if bits == 32 && hostBits > 1 {
      SizeAtLeastFour(p);
      var usable := count - 2;
      offset := offset % usable;
      offset := offset + 1;
    }
    a := Addr(p.family, p.base + offset);
  }

  method Draw(p: Prefix, count: nat, seed: string, seen: Seen, digest: Digest) returns (items: seq<Target>)
    requires IsMasked(p)
    modifies seen
    ensures items == TargetsOf(p, Take(Fresh(p, seed, digest, old(seen.texts), ROUNDS), count))
    ensures seen.texts == old(seen.texts) + IpsOf(items)
  {
    items := [];
    ghost var before := seen.texts;
    ghost var addrs := [];
    var round: nat := 0;
    while |items| < count && round < ROUNDS
      invariant round <= ROUNDS && |items| <= count
      invariant addrs == Fresh(p, seed, digest, before, round) && items == TargetsOf(p, addrs)
      invariant seen.texts == before + IpStrings(addrs)
    {
      var addr := ChooseAddress(p, seed, round, digest);
      var value := IpString(addr);
      round := round + 1;
      if value in seen.texts {
        continue;
      }
      seen.texts := seen.texts + {value};
      items := items + [Target(value, CidrString(p))];
      addrs := addrs + [addr];
    }
    FreshGrows(p, seed, digest, before, round, ROUNDS);
    assert addrs == Take(Fresh(p, seed, digest, before, ROUNDS), count);
    IpsOfTargets(p, addrs);
  }

  method FromPrefix(cidr: CidrText, count: int, seed: string, seen: Seen?, digest: Digest)
    returns (r: Result<seq<Target>, Error>)
    modifies seen
    ensures seen != null ==> r == FromText(cidr, count, seed, digest, old(seen.texts))
    ensures seen == null ==> r == FromText(cidr, count, seed, digest, {})
    ensures seen != null ==> seen.texts == SeenAfter(r, old(seen.texts))
  {
    if count <= 0 {
      return Ok([]);
    }
    if cidr.parsed.None? {
      return Err(Unparsable(cidr));
    }
    var prefix := Masked(cidr.parsed.value);
    MaskedIsMasked(cidr.parsed.value);
    var used: Seen;
    if seen == null {
      used := new Seen();
    } else {
      used := seen;
    }
    var items := Draw(prefix, count, seed, used, digest);
    r := Ok(items);
  }

  // ---- The usable prefixes --------------------------------------------------------------

  predicate Wanted(row: StoredPrefix, includeIPv6: bool) {
    row.active && (includeIPv6 || row.version != 6)
  }

  predicate Broken(row: StoredPrefix, includeIPv6: bool) {
    Wanted(row, includeIPv6) && row.cidr.parsed.None?
  }

  predicate Offers(row: StoredPrefix, includeIPv6: bool, p: Prefix) {
    Wanted(row, includeIPv6) && row.cidr.parsed.Some? && Masked(row.cidr.parsed.value) == p
  }

  ghost predicate Offered(rows: seq<StoredPrefix>, n: nat, includeIPv6: bool, p: Prefix)
    requires n <= |rows|
  {
    exists i :: 0 <= i < n && Offers(rows[i], includeIPv6, p)
  }

  /** Each wanted block once, or the first wanted row that does not parse, or nothing wanted. */
  ghost predicate UsableResult(rows: seq<StoredPrefix>, includeIPv6: bool, r: Result<seq<Prefix>, Error>) {
    match r
    case Ok(ps) =>
      && ps != [] && Distinct(ps) && AllMasked(ps)
      && (forall p :: p in ps <==> Offered(rows, |rows|, includeIPv6, p))
      && (forall i :: 0 <= i < |rows| ==> !Broken(rows[i], includeIPv6))
    case Err(Unparsable(text)) =>
      exists i :: 0 <= i < |rows| && Broken(rows[i], includeIPv6) && rows[i].cidr == text
                  && forall k :: 0 <= k < i ==> !Broken(rows[k], includeIPv6)
    case Err(NoActivePrefix) => forall i :: 0 <= i < |rows| ==> !Wanted(rows[i], includeIPv6)
    case _ => false
  }

  /** If no row offers a block and none is broken, none is wanted. */
  lemma NothingWanted(rows: seq<StoredPrefix>, includeIPv6: bool)
    requires forall p :: !Offered(rows, |rows|, includeIPv6, p)
    requires forall i :: 0 <= i < |rows| ==> !Broken(rows[i], includeIPv6)
    ensures forall i :: 0 <= i < |rows| ==> !Wanted(rows[i], includeIPv6)
  {
    forall i | 0 <= i < |rows| ensures !Wanted(rows[i], includeIPv6) {
      if rows[i].cidr.parsed.Some? {
        var p := Masked(rows[i].cidr.parsed.value);
        assert !Offered(rows, |rows|, includeIPv6, p);
        assert !Offers(rows[i], includeIPv6, p);
      }
    }
  }

  method UsablePrefixes(rows: seq<StoredPrefix>, includeIPv6: bool) returns (r: Result<seq<Prefix>, Error>)
    ensures UsableResult(rows, includeIPv6, r)
    ensures r.Ok? ==> forall p :: p in r.value <==>
              exists i :: 0 <= i < |rows| && rows[i].active && (includeIPv6 || rows[i].version != 6)
                          && rows[i].cidr.parsed.Some? && Masked(rows[i].cidr.parsed.value) == p
    ensures r == Err(NoActivePrefix) <==>
              forall i :: 0 <= i < |rows| ==> !(rows[i].active && (includeIPv6 || rows[i].version != 6))
    ensures forall text :: r == Err(Unparsable(text)) <==>
              exists i :: 0 <= i < |rows| && rows[i].active && (includeIPv6 || rows[i].version != 6)
                          && rows[i].cidr.parsed.None? && rows[i].cidr == text
                          && forall k :: 0 <= k < i && rows[k].active && (includeIPv6 || rows[k].version != 6) ==>
                                           rows[k].cidr.parsed.Some?
  {
    var usable: seq<Prefix> := [];
    var seenPrefixes: set<CidrText> := {};
    for i := 0 to |rows|
      invariant Distinct(usable) && AllMasked(usable)
      invariant forall p: Block :: CidrString(p) in seenPrefixes <==> p in usable
      invariant forall p :: p in usable <==> Offered(rows, i, includeIPv6, p)
      invariant forall k :: 0 <= k < i ==> !Broken(rows[k], includeIPv6)
    {
      var row := rows[i];
      if !row.active || (!includeIPv6 && row.version == 6) {
        continue;
      }
      if row.cidr.parsed.None? {
        return Err(Unparsable(row.cidr));
      }
      MaskedIsMasked(row.cidr.parsed.value);
      var prefix := Masked(row.cidr.parsed.value);
      assert Offers(row, includeIPv6, prefix);
      var key := CidrString(prefix);
      if key in seenPrefixes {
        continue;
      }
      seenPrefixes := seenPrefixes + {key};
      usable := usable + [prefix];
    }
    if |usable| == 0 {
      forall p ensures !Offered(rows, |rows|, includeIPv6, p) {
        assert p in usable <==> Offered(rows, |rows|, includeIPv6, p);
      }
      NothingWanted(rows, includeIPv6);
      return Err(NoActivePrefix);
    }
    r := Ok(usable);
    assert usable[0] in usable && Offered(rows, |rows|, includeIPv6, usable[0]);
    forall p ensures p in usable <==>
                       exists i :: 0 <= i < |rows| && rows[i].active && (includeIPv6 || rows[i].version != 6)
                                   && rows[i].cidr.parsed.Some? && Masked(rows[i].cidr.parsed.value) == p
    {
      assert p in usable <==> Offered(rows, |rows|, includeIPv6, p);
    }
  }
}
