/** Addresses and CIDR blocks as numbers (section 3.1 of RFC 4632), and the address chosen for a probe. */
module Cidr {
  import opened Wrappers
  import opened Cardinality

  datatype Family = V4 | V6

  datatype Addr = Addr(family: Family, value: nat)

  datatype Prefix = Prefix(family: Family, base: nat, bits: nat)

  /** A prefix as a parser returns it. */
  type Block = p: Prefix | ValidPrefix(p) witness Prefix(V4, 0, 0)

  /** A string seen through its parser: what it parses to and which of the equivalent spellings it is.
      Spelling 0 is the canonical one. */
  datatype IpText = IpText(parsed: Option<Addr>, spelling: nat)

  datatype CidrText = CidrText(parsed: Option<Block>, spelling: nat)

  function Width(f: Family): nat { if f.V4? then 32 else 128 }

  function Pow2(n: nat): (r: nat)
    ensures r >= 1
  {
    if n == 0 then 1 else 2 * Pow2(n - 1)
  }

  /** x without its lowest h bits. */
  function Shr(x: nat, h: nat): nat {
    if h == 0 then x else Shr(x, h - 1) / 2
  }

  predicate ValidAddr(a: Addr) { a.value < Pow2(Width(a.family)) }

  predicate ValidPrefix(p: Prefix) { p.bits <= Width(p.family) && p.base < Pow2(Width(p.family)) }

  function HostBits(p: Prefix): nat
    requires ValidPrefix(p)
  {
    Width(p.family) - p.bits
  }

  function Size(p: Prefix): nat
    requires ValidPrefix(p)
  {
    Pow2(HostBits(p))
  }

  /** An address is inside a block when they agree on the network bits. */
  predicate Contains(p: Prefix, a: Addr)
    requires ValidPrefix(p)
  {
    a.family == p.family && Shr(a.value, HostBits(p)) == Shr(p.base, HostBits(p))
  }

  function Masked(p: Prefix): (r: Prefix)
    requires ValidPrefix(p)
    ensures ValidPrefix(r) && r.family == p.family && r.bits == p.bits && r.base <= p.base
  {
    ShrMasked(p.base, HostBits(p));
    p.(base := Shr(p.base, HostBits(p)) * Size(p))
  }

  predicate IsMasked(p: Prefix) { ValidPrefix(p) && Masked(p) == p }

  function IpString(a: Addr): IpText { IpText(Some(a), 0) }

  function CidrString(p: Block): CidrText { CidrText(Some(p), 0) }

  // ---- Bits ---------------------------------------------------------------------------

  lemma Halves(n: nat, p: nat)
    ensures n * (2 * p) == (2 * n) * p
    ensures (n + 1) * (2 * p) == (2 * n + 2) * p
    ensures (2 * n + 1) * p == (2 * n) * p + p
    ensures (2 * n + 2) * p == (2 * n) * p + p + p
  {
  }

  lemma {:induction false} ShrRange(x: nat, h: nat, n: nat)
    ensures Shr(x, h) == n <==> n * Pow2(h) <= x < (n + 1) * Pow2(h)
  {
    if h == 0 {
    } else {
      ShrRange(x, h - 1, 2 * n);
      ShrRange(x, h - 1, 2 * n + 1);
      Halves(n, Pow2(h - 1));
      HalfIs(Shr(x, h - 1), n);
    }
  }

  lemma HalfIs(m: nat, n: nat)
    ensures m / 2 == n <==> m == 2 * n || m == 2 * n + 1
  {
  }

  lemma OneMore(n: nat, p: nat)
    ensures (n + 1) * p == n * p + p
  {
  }

  /** Agreeing on more bits means agreeing on fewer. */
  lemma {:induction false} ShrCoarser(x: nat, y: nat, fine: nat, coarse: nat)
    requires fine <= coarse && Shr(x, fine) == Shr(y, fine)
    ensures Shr(x, coarse) == Shr(y, coarse)
  {
    if fine == coarse {
    } else {
      ShrCoarser(x, y, fine, coarse - 1);
    }
  }

  lemma ShrMasked(x: nat, h: nat)
    ensures Shr(Shr(x, h) * Pow2(h), h) == Shr(x, h)
    ensures Shr(x, h) * Pow2(h) <= x
  {
    var n := Shr(x, h);
    OneMore(n, Pow2(h));
    ShrRange(x, h, n);
    ShrRange(n * Pow2(h), h, n);
  }

  /** Masking keeps the block and is idempotent. */
  lemma MaskedIsMasked(p: Prefix)
    requires ValidPrefix(p)
    ensures IsMasked(Masked(p))
    ensures forall a: Addr :: Contains(Masked(p), a) <==> Contains(p, a)
  {
    ShrMasked(p.base, HostBits(p));
  }

  lemma SameTopBits(x: nat, y: nat, h: nat, width: nat)
    requires h <= width && Shr(x, h) == Shr(y, h) && y < Pow2(width)
    ensures x < Pow2(width)
  {
    ShrCoarser(x, y, h, width);
    ShrRange(y, width, 0);
    ShrRange(x, width, 0);
  }

  /** A masked block is a range of consecutive addresses, all of which fit in the address width. */
  lemma MaskedRange(p: Prefix, a: Addr)
    requires IsMasked(p)
    ensures Contains(p, a) <==> a.family == p.family && p.base <= a.value < p.base + Size(p)
    ensures Contains(p, a) ==> ValidAddr(a)
  {
    var h, n := HostBits(p), Shr(p.base, HostBits(p));
    ShrRange(a.value, h, n);
    OneMore(n, Size(p));
    if Contains(p, a) { SameTopBits(a.value, p.base, h, Width(p.family)); }
  }

  /** Two blocks that share an address are nested: the longer prefix lies inside the shorter. */
  lemma NestedOrDisjoint(p: Prefix, q: Prefix, shared: Addr, a: Addr)
    requires ValidPrefix(p) && ValidPrefix(q) && q.bits >= p.bits
    requires Contains(p, shared) && Contains(q, shared) && Contains(q, a)
    ensures Contains(p, a)
  {
    ShrCoarser(a.value, shared.value, HostBits(q), HostBits(p));
  }

  lemma {:induction false} Pow2Sum(m: nat, n: nat)
    ensures Pow2(m) * Pow2(n) == Pow2(m + n)
  {
    if m == 0 {
    } else {
      Pow2Sum(m - 1, n);
      assert Pow2(m) * Pow2(n) == 2 * (Pow2(m - 1) * Pow2(n));
    }
  }

  lemma Pow2Twice(n: nat, v: nat)
    requires Pow2(n) == v
    ensures Pow2(2 * n) == v * v
  {
    Pow2Sum(n, n);
  }

  lemma Pow2Of32()
    ensures Pow2(32) == 0x1_0000_0000
  {
    Pow2Twice(8, 0x100);
    Pow2Twice(16, 0x1_0000);
  }

  lemma Pow2Of128()
    ensures Pow2(128) == 0x1_0000_0000_0000_0000_0000_0000_0000_0000
  {
    Pow2Of32();
    Pow2Twice(32, 0x1_0000_0000);
    Pow2Twice(64, 0x1_0000_0000_0000_0000);
  }

  /** A prefix of n bits leaves the 2^n-th part of the 2^32 or 2^128 addresses of its family. */
  lemma BlockSizes(p: Block)
    ensures Pow2(p.bits) * Size(p) == if p.family.V4? then 0x1_0000_0000
                                      else 0x1_0000_0000_0000_0000_0000_0000_0000_0000
  {
    Pow2Sum(p.bits, HostBits(p));
    Pow2Of32();
    Pow2Of128();
  }

  // ---- Choosing an address -------------------------------------------------------------

  /** The digest of (prefix, seed, round) as a number; any function will do. */
  type Digest = (Prefix, string, nat) -> nat

  function AddressFor(p: Prefix, seed: string, round: nat, digest: Digest): Addr
    requires ValidPrefix(p)
  {
    var count := Size(p);
    var offset := digest(p, seed, round) % count;
    var skewed := if p.family.V4? && HostBits(p) > 1 && count > 2 then offset % (count - 2) + 1 else offset;
    Addr(p.family, p.base + skewed)
  }

  lemma SizeAtLeastFour(p: Prefix)
    requires ValidPrefix(p) && HostBits(p) > 1
    ensures Size(p) >= 4
  {
    assert Pow2(HostBits(p)) == 2 * Pow2(HostBits(p) - 1) == 4 * Pow2(HostBits(p) - 2);
  }

  /** The chosen address lies inside the block and fits its width; wider IPv4 blocks than /31 never yield
      their network or broadcast address, while both addresses of a /31 are eligible (section 2.1 of RFC 3021).
      Every digest is reduced to the block first, and for the wider IPv4 blocks then to the addresses between. */
  lemma AddressForInside(p: Prefix, seed: string, round: nat, digest: Digest)
    requires IsMasked(p)
    ensures var a := AddressFor(p, seed, round, digest);
            && Contains(p, a) && ValidAddr(a)
            && (p.family.V4? && HostBits(p) > 1 ==> p.base < a.value < p.base + Size(p) - 1)
            && (!(p.family.V4? && HostBits(p) > 1) ==> a.value == p.base + digest(p, seed, round) % Size(p))
    ensures HostBits(p) > 1 ==> Size(p) >= 4
    ensures p.family.V4? && HostBits(p) > 1 ==>
              AddressFor(p, seed, round, digest).value == p.base + 1 + digest(p, seed, round) % Size(p) % (Size(p) - 2)
  {
    if HostBits(p) > 1 { SizeAtLeastFour(p); }
    MaskedRange(p, AddressFor(p, seed, round, digest));
  }

  /** The addresses a prefix may be given, whatever the digest. */
  predicate Eligible(p: Prefix, a: Addr)
    requires ValidPrefix(p)
  {
    && a.family == p.family
    && if p.family.V4? && HostBits(p) > 1 then p.base < a.value < p.base + Size(p) - 1
       else p.base <= a.value < p.base + Size(p)
  }

  lemma AddressForEligible(p: Prefix, seed: string, round: nat, digest: Digest)
    requires IsMasked(p)
    ensures Eligible(p, AddressFor(p, seed, round, digest))
  {
    AddressForInside(p, seed, round, digest);
    MaskedRange(p, AddressFor(p, seed, round, digest));
  }

  /** The digest that names an eligible address. */
  function DigestOf(p: Prefix, a: Addr): nat
    requires ValidPrefix(p) && Eligible(p, a)
  {
    if p.family.V4? && HostBits(p) > 1 then a.value - p.base - 1 else a.value - p.base
  }

  /** Every eligible address is named by some digest. */
  lemma EligibleIsNamed(p: Prefix, a: Addr, seed: string, round: nat, digest: Digest)
    requires IsMasked(p) && Eligible(p, a) && digest(p, seed, round) == DigestOf(p, a)
    ensures AddressFor(p, seed, round, digest) == a
  {
    if HostBits(p) > 1 { SizeAtLeastFour(p); }
    SmallRemainder(digest(p, seed, round), Size(p));
    if p.family.V4? && HostBits(p) > 1 { SmallRemainder(digest(p, seed, round), Size(p) - 2); }
  }

  /** The digests that name an address: a whole residue class. */
  predicate Names(p: Prefix, d: nat, a: Addr)
    requires ValidPrefix(p)
  {
    && a.family == p.family && a.value >= p.base
    && if p.family.V4? && p.bits < 31 then Size(p) > 2 && a.value == p.base + 1 + d % Size(p) % (Size(p) - 2)
       else a.value == p.base + d % Size(p)
  }

  /** An address is chosen exactly for the digests that name it. */
  lemma ChosenIffNamed(p: Prefix, a: Addr, seed: string, round: nat, digest: Digest)
    requires IsMasked(p)
    ensures AddressFor(p, seed, round, digest) == a <==> Names(p, digest(p, seed, round), a)
  {
    AddressForInside(p, seed, round, digest);
  }

  /** Every eligible address, and no other, is named by digests, and by arbitrarily large ones. */
  lemma NamedBySomeOfAnySize(p: Prefix, a: Addr, atLeast: nat)
    requires IsMasked(p)
    ensures Eligible(p, a) <==> exists d: nat :: d >= atLeast && Names(p, d, a)
  {
    if HostBits(p) > 1 { SizeAtLeastFour(p); }
    if Eligible(p, a) {
      var n, x := Size(p), DigestOf(p, a);
      var d := x + atLeast * n;
      AddMultiple(x, atLeast, n);
      SmallRemainder(x, n);
      if p.family.V4? && HostBits(p) > 1 { SmallRemainder(x, n - 2); }
      assert d >= atLeast && Names(p, d, a);
    }
  }

  lemma AddMultiple(x: nat, k: nat, n: nat)
    requires n > 0
    ensures (x + k * n) % n == x % n && x + k * n >= k
  {
    MultipleIsPositive(k, n);
    var q, r := x / n, x % n;
    assert x + k * n == (q + k) * n + r;
    UniqueRemainder(q + k, r, n);
  }

  lemma MultipleIsPositive(k: nat, n: nat)
    requires n > 0
    ensures k * n >= k
  {
  }

  lemma UniqueRemainder(q: nat, r: nat, n: nat)
    requires r < n
    ensures (q * n + r) % n == r
  {
    var m := q * n + r;
    var q', r' := m / n, m % n;
    assert (q - q') * n == r' - r;
    NoSmallMultiple(q - q', n, r' - r);
  }

  lemma NoSmallMultiple(k: int, n: int, d: int)
    requires n > 0 && k * n == d && -n < d < n
    ensures d == 0
  {
  }

  lemma SmallRemainder(d: nat, n: nat)
    requires n > 0
    ensures d < n ==> d % n == d
  {
  }

  // ---- Counting addresses --------------------------------------------------------------

  lemma {:induction false} ImageSize(js: set<nat>, vals: seq<nat>)
    requires forall j :: j in js ==> j < |vals|
    requires forall i, j :: i in js && j in js && i != j ==> vals[i] != vals[j]
    ensures |set j | j in js :: vals[j]| == |js|
  {
    var image := set j | j in js :: vals[j];
    if js == {} {
      assert image == {};
    } else {
      var x :| x in js;
      ImageSize(js - {x}, vals);
      assert image == (set j | j in js - {x} :: vals[j]) + {vals[x]};
    }
  }

  predicate AllMasked(prefixes: seq<Prefix>) {
    forall i :: 0 <= i < |prefixes| ==> IsMasked(prefixes[i])
  }

  /** A choice gives every prefix an address of its own. */
  ghost predicate IsChoice(prefixes: seq<Prefix>, choice: seq<Addr>)
    requires AllMasked(prefixes)
  {
    && |choice| == |prefixes|
    && (forall i :: 0 <= i < |choice| ==> Contains(prefixes[i], choice[i]))
    && Distinct(choice)
  }

  predicate LongestFirst(prefixes: seq<Prefix>) {
    forall i, k :: 0 <= i < k < |prefixes| ==> prefixes[i].bits >= prefixes[k].bits
  }

  function Values(choice: seq<Addr>): (r: seq<nat>)
    ensures |r| == |choice| && forall i :: 0 <= i < |r| ==> r[i] == choice[i].value
  {
    seq(|choice|, i requires 0 <= i < |choice| => choice[i].value)
  }

  function BlockValues(p: Prefix): (r: set<nat>)
    requires ValidPrefix(p)
    ensures forall v: nat :: v in r <==> p.base <= v < p.base + Size(p)
  {
    Below(p.base + Size(p)) - Below(p.base)
  }

  lemma BlockSize(p: Prefix)
    requires ValidPrefix(p)
    ensures |BlockValues(p)| == Size(p)
  {
    RangeSize(p.base, p.base + Size(p), BlockValues(p));
  }

  /** Addresses at positions `all` are distinct members of the block, so there are at most Size many. */
  lemma ChoiceFitsBlock(p: Prefix, choice: seq<Addr>, all: set<nat>)
    requires IsMasked(p) && Distinct(choice)
    requires forall i :: i in all ==> i < |choice| && Contains(p, choice[i])
    ensures |all| <= Size(p)
  {
    var vals := Values(choice);
    forall i, j | i in all && j in all && i != j ensures vals[i] != vals[j] {
      if i < j { assert choice[i] != choice[j]; } else { assert choice[j] != choice[i]; }
    }
    ImageSize(all, vals);
    var image := set j | j in all :: vals[j];
    forall v | v in image ensures v in BlockValues(p) {
      var j :| j in all && v == vals[j];
      MaskedRange(p, choice[j]);
    }
    SubsetSize(image, BlockValues(p));
    BlockSize(p);
  }

  /** If every address of the block was chosen by someone, at least Size many positions chose from it. */
  lemma UsersFillBlock(p: Prefix, chosen: seq<Addr>, users: set<nat>)
    requires IsMasked(p)
    requires forall i: nat :: i in users <==> i < |chosen| && Contains(p, chosen[i])
    requires forall a: Addr :: Contains(p, a) ==> a in chosen
    ensures |users| >= Size(p)
  {
    var image := set i | i in users :: chosen[i].value;
    forall v | v in BlockValues(p) ensures v in image {
      var a := Addr(p.family, v);
      MaskedRange(p, a);
      var i :| 0 <= i < |chosen| && chosen[i] == a;
      assert i in users;
    }
    SubsetSize(BlockValues(p), image);
    BlockSize(p);
    ImageAtMost(users, Values(chosen));
    assert image == set j | j in users :: Values(chosen)[j];
  }

  lemma {:induction false} ImageAtMost(js: set<nat>, vals: seq<nat>)
    requires forall j :: j in js ==> j < |vals|
    ensures |set j | j in js :: vals[j]| <= |js|
  {
    var image := set j | j in js :: vals[j];
    if js == {} {
      assert image == {};
    } else {
      var x :| x in js;
      ImageAtMost(js - {x}, vals);
      assert image == (set j | j in js - {x} :: vals[j]) + {vals[x]};
    }
  }

  /** The positions that chose from a block. */
  function Users(p: Prefix, chosen: seq<Addr>): (r: set<nat>)
    requires ValidPrefix(p)
    ensures forall i: nat :: i in r <==> i < |chosen| && Contains(p, chosen[i])
  {
    set i: nat | i < |chosen| && Contains(p, chosen[i])
  }

  /** If a choice exists, the block has room for its users so far and for one more. */
  lemma ChoiceMeansRoom(prefixes: seq<Prefix>, k: nat, chosen: seq<Addr>, choice: seq<Addr>)
    requires AllMasked(prefixes) && LongestFirst(prefixes) && IsChoice(prefixes, choice)
    requires |chosen| == k < |prefixes|
    requires forall i :: 0 <= i < k ==> Contains(prefixes[i], chosen[i])
    ensures |Users(prefixes[k], chosen)| < Size(prefixes[k])
  {
    var users := Users(prefixes[k], chosen);
    ChoicesOfUsers(prefixes, k, chosen, choice, users);
    ChoiceFitsBlock(prefixes[k], choice, users + {k});
  }

  /** Pigeonhole: if the addresses chosen for earlier (longer or equal) prefixes use up a whole block,
      then more prefixes lie inside that block than it has addresses, and no choice exists at all. */
  lemma NoChoiceExists(prefixes: seq<Prefix>, k: nat, chosen: seq<Addr>, choice: seq<Addr>)
    requires AllMasked(prefixes) && LongestFirst(prefixes)
    requires |chosen| == k < |prefixes|
    requires forall i :: 0 <= i < k ==> Contains(prefixes[i], chosen[i])
    requires forall a: Addr :: Contains(prefixes[k], a) ==> a in chosen
    ensures !IsChoice(prefixes, choice)
  {
    UsersFillBlock(prefixes[k], chosen, Users(prefixes[k], chosen));
    if IsChoice(prefixes, choice) {
      ChoiceMeansRoom(prefixes, k, chosen, choice);
    }
  }

  /** Whoever took an address of the block is nested in it, so all its addresses are in the block. */
  lemma ChoicesOfUsers(prefixes: seq<Prefix>, k: nat, chosen: seq<Addr>, choice: seq<Addr>, users: set<nat>)
    requires AllMasked(prefixes) && LongestFirst(prefixes) && IsChoice(prefixes, choice)
    requires |chosen| == k < |prefixes|
    requires forall i :: 0 <= i < k ==> Contains(prefixes[i], chosen[i])
    requires forall i: nat :: i in users ==> i < k && Contains(prefixes[k], chosen[i])
    ensures forall i: nat :: i in users + {k} ==> i < |choice| && Contains(prefixes[k], choice[i])
  {
    forall i: nat | i in users ensures Contains(prefixes[k], choice[i]) {
      NestedOrDisjoint(prefixes[k], prefixes[i], chosen[i], choice[i]);
    }
  }
}
