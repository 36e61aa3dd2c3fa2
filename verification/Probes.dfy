/** The addresses a prefix offers: its digests in round order, without those already seen and without repeats. */
module Probes {
  import opened Wrappers
  import opened Cardinality
  import opened Cidr

  function Fresh(p: Prefix, seed: string, digest: Digest, seen: set<IpText>, rounds: nat): seq<Addr>
    requires ValidPrefix(p)
  {
    if rounds == 0 then []
    else
      var before := Fresh(p, seed, digest, seen, rounds - 1);
      var a := AddressFor(p, seed, rounds - 1, digest);
      if IpString(a) in seen || a in before then before else before + [a]
  }

  /** Fresh addresses are distinct, unseen and inside the block, and they miss no unseen digest. */
  lemma {:induction false} FreshMeaning(p: Prefix, seed: string, digest: Digest, seen: set<IpText>, rounds: nat)
    requires IsMasked(p)
    ensures Distinct(Fresh(p, seed, digest, seen, rounds))
    ensures forall a :: a in Fresh(p, seed, digest, seen, rounds) ==> Contains(p, a) && IpString(a) !in seen
    ensures forall r: nat :: r < rounds ==>
              IpString(AddressFor(p, seed, r, digest)) in seen
                || AddressFor(p, seed, r, digest) in Fresh(p, seed, digest, seen, rounds)
    ensures |Fresh(p, seed, digest, seen, rounds)| <= rounds
  {
    if rounds == 0 {
    } else {
      FreshMeaning(p, seed, digest, seen, rounds - 1);
      AddressForInside(p, seed, rounds - 1, digest);
    }
  }

  /** One of the first `rounds` digests names the address. */
  ghost predicate IsDigest(p: Prefix, seed: string, digest: Digest, rounds: nat, a: Addr)
    requires ValidPrefix(p)
  {
    exists n: nat :: n < rounds && a == AddressFor(p, seed, n, digest)
  }

  lemma {:induction false} FreshAreDigests(p: Prefix, seed: string, digest: Digest, seen: set<IpText>, rounds: nat)
    requires ValidPrefix(p)
    ensures forall a :: a in Fresh(p, seed, digest, seen, rounds) ==> IsDigest(p, seed, digest, rounds, a)
  {
    if rounds == 0 {
    } else {
      FreshAreDigests(p, seed, digest, seen, rounds - 1);
      assert IsDigest(p, seed, digest, rounds, AddressFor(p, seed, rounds - 1, digest));
      forall a | IsDigest(p, seed, digest, rounds - 1, a) ensures IsDigest(p, seed, digest, rounds, a) {
        var n: nat :| n < rounds - 1 && a == AddressFor(p, seed, n, digest);
      }
    }
  }

  /** The offers come in the order of their rounds: before one is made, every earlier digest is used up. */
  lemma {:induction false} FreshInOrder(p: Prefix, seed: string, digest: Digest, seen: set<IpText>, rounds: nat, i: nat)
    returns (n: nat)
    requires ValidPrefix(p) && i < |Fresh(p, seed, digest, seen, rounds)|
    ensures n < rounds && Fresh(p, seed, digest, seen, rounds)[i] == AddressFor(p, seed, n, digest)
    ensures forall m :: 0 <= m < n ==>
              IpString(AddressFor(p, seed, m, digest)) in seen
              || AddressFor(p, seed, m, digest) in Fresh(p, seed, digest, seen, rounds)[..i]
  {
    var before := Fresh(p, seed, digest, seen, rounds - 1);
    if i < |before| {
      n := FreshInOrder(p, seed, digest, seen, rounds - 1, i);
      assert Fresh(p, seed, digest, seen, rounds)[..i] == before[..i];
    } else {
      n := rounds - 1;
      assert Fresh(p, seed, digest, seen, rounds)[..i] == before;
      NothingMissed(p, seed, digest, seen, n);
    }
  }

  lemma {:induction false} NothingMissed(p: Prefix, seed: string, digest: Digest, seen: set<IpText>, rounds: nat)
    requires ValidPrefix(p)
    ensures forall m :: 0 <= m < rounds ==>
              IpString(AddressFor(p, seed, m, digest)) in seen
              || AddressFor(p, seed, m, digest) in Fresh(p, seed, digest, seen, rounds)
  {
    if rounds == 0 {
    } else {
      NothingMissed(p, seed, digest, seen, rounds - 1);
    }
  }

  lemma {:induction false} FreshGrows(p: Prefix, seed: string, digest: Digest, seen: set<IpText>, m: nat, n: nat)
    requires ValidPrefix(p) && m <= n
    ensures Fresh(p, seed, digest, seen, m) <= Fresh(p, seed, digest, seen, n)
  {
    if m == n {
    } else {
      FreshGrows(p, seed, digest, seen, m, n - 1);
    }
  }

  // ---- Several prefixes in turn ---------------------------------------------------------

  datatype Pick = Pick(prefix: Prefix, addr: Addr)

  predicate Picked(picks: seq<Pick>, a: Addr) {
    exists i :: 0 <= i < |picks| && picks[i].addr == a
  }

  /** The first `n` prefixes of one round, each adding its digest unless that address is taken. */
  function Pass(usable: seq<Prefix>, seed: string, digest: Digest, round: nat, n: nat, before: seq<Pick>): seq<Pick>
    requires AllMasked(usable) && n <= |usable|
  {
    if n == 0 then before
    else
      var picks := Pass(usable, seed, digest, round, n - 1, before);
      var a := AddressFor(usable[n - 1], seed, round, digest);
      if Picked(picks, a) then picks else picks + [Pick(usable[n - 1], a)]
  }

  function Passes(usable: seq<Prefix>, seed: string, digest: Digest, rounds: nat): seq<Pick>
    requires AllMasked(usable)
  {
    if rounds == 0 then []
    else Pass(usable, seed, digest, rounds - 1, |usable|, Passes(usable, seed, digest, rounds - 1))
  }

  ghost predicate GoodPicks(usable: seq<Prefix>, picks: seq<Pick>) {
    && (forall i ::
          0 <= i < |picks| ==>
            picks[i].prefix in usable && IsMasked(picks[i].prefix) && Contains(picks[i].prefix, picks[i].addr))
    && (forall i, k :: 0 <= i < k < |picks| ==> picks[i].addr != picks[k].addr)
  }

  /** The digests of the first `n` prefixes in one round are all picked. */
  ghost predicate Covered(usable: seq<Prefix>, seed: string, digest: Digest, round: nat, n: nat, picks: seq<Pick>)
    requires AllMasked(usable) && n <= |usable|
  {
    forall i :: 0 <= i < n ==> Picked(picks, AddressFor(usable[i], seed, round, digest))
  }

  lemma {:induction false} PassMeaning(usable: seq<Prefix>, seed: string, digest: Digest, round: nat, n: nat,
                                       before: seq<Pick>)
    requires AllMasked(usable) && n <= |usable| && GoodPicks(usable, before)
    ensures GoodPicks(usable, Pass(usable, seed, digest, round, n, before))
  {
    if n == 0 {
    } else {
      PassMeaning(usable, seed, digest, round, n - 1, before);
      AddressForInside(usable[n - 1], seed, round, digest);
    }
  }

  lemma {:induction false} PassCovers(usable: seq<Prefix>, seed: string, digest: Digest, round: nat, n: nat,
                                      before: seq<Pick>)
    requires AllMasked(usable) && n <= |usable|
    ensures before <= Pass(usable, seed, digest, round, n, before)
    ensures Covered(usable, seed, digest, round, n, Pass(usable, seed, digest, round, n, before))
  {
    if n == 0 {
    } else {
      PassCovers(usable, seed, digest, round, n - 1, before);
      var picks, a := Pass(usable, seed, digest, round, n - 1, before), AddressFor(usable[n - 1], seed, round, digest);
      var next := Pass(usable, seed, digest, round, n, before);
      PickedGrows(picks, next);
      if !Picked(picks, a) { assert next[|picks|].addr == a; }
    }
  }

  lemma PickedGrows(picks: seq<Pick>, more: seq<Pick>)
    requires picks <= more
    ensures forall a :: Picked(picks, a) ==> Picked(more, a)
  {
    forall a | Picked(picks, a) ensures Picked(more, a) {
      var i :| 0 <= i < |picks| && picks[i].addr == a;
      assert more[i] == picks[i];
    }
  }

  lemma CoveredGrows(usable: seq<Prefix>, seed: string, digest: Digest, round: nat, n: nat, picks: seq<Pick>,
                     more: seq<Pick>)
    requires AllMasked(usable) && n <= |usable|
    requires picks <= more && Covered(usable, seed, digest, round, n, picks)
    ensures Covered(usable, seed, digest, round, n, more)
  {
    PickedGrows(picks, more);
  }

  /** Sampling in rounds yields distinct addresses, each inside the prefix it is recorded under. */
  lemma {:induction false} PassesMeaning(usable: seq<Prefix>, seed: string, digest: Digest, rounds: nat)
    requires AllMasked(usable)
    ensures GoodPicks(usable, Passes(usable, seed, digest, rounds))
  {
    if rounds == 0 {
    } else {
      var before := Passes(usable, seed, digest, rounds - 1);
      PassesMeaning(usable, seed, digest, rounds - 1);
      PassMeaning(usable, seed, digest, rounds - 1, |usable|, before);
    }
  }

  /** No digest of any prefix in any round is missed. */
  lemma {:induction false} PassesCover(usable: seq<Prefix>, seed: string, digest: Digest, rounds: nat, r: nat)
    requires AllMasked(usable) && r < rounds
    ensures Covered(usable, seed, digest, r, |usable|, Passes(usable, seed, digest, rounds))
  {
    var before, after := Passes(usable, seed, digest, rounds - 1), Passes(usable, seed, digest, rounds);
    PassCovers(usable, seed, digest, rounds - 1, |usable|, before);
    if r == rounds - 1 {
    } else {
      PassesCover(usable, seed, digest, rounds - 1, r);
      CoveredGrows(usable, seed, digest, r, |usable|, before, after);
    }
  }

  /** The pick is a digest of its prefix in one of the first `rounds` rounds. */
  ghost predicate IsDrawn(usable: seq<Prefix>, seed: string, digest: Digest, rounds: nat, pick: Pick)
    requires AllMasked(usable)
  {
    pick.prefix in usable && IsDigest(pick.prefix, seed, digest, rounds, pick.addr)
  }

  ghost predicate AllDrawn(usable: seq<Prefix>, seed: string, digest: Digest, rounds: nat, picks: seq<Pick>)
    requires AllMasked(usable)
  {
    forall i :: 0 <= i < |picks| ==> IsDrawn(usable, seed, digest, rounds, picks[i])
  }

  lemma DrawnLater(usable: seq<Prefix>, seed: string, digest: Digest, m: nat, n: nat, picks: seq<Pick>)
    requires AllMasked(usable) && m <= n && AllDrawn(usable, seed, digest, m, picks)
    ensures AllDrawn(usable, seed, digest, n, picks)
  {
    forall i | 0 <= i < |picks| ensures IsDrawn(usable, seed, digest, n, picks[i]) {
      assert IsDrawn(usable, seed, digest, m, picks[i]);
    }
  }

  lemma {:induction false} PassIsDrawn(usable: seq<Prefix>, seed: string, digest: Digest, round: nat, n: nat,
                                       before: seq<Pick>)
    requires AllMasked(usable) && n <= |usable| && AllDrawn(usable, seed, digest, round + 1, before)
    ensures AllDrawn(usable, seed, digest, round + 1, Pass(usable, seed, digest, round, n, before))
  {
    if n == 0 {
    } else {
      PassIsDrawn(usable, seed, digest, round, n - 1, before);
      assert IsDigest(usable[n - 1], seed, digest, round + 1, AddressFor(usable[n - 1], seed, round, digest));
    }
  }

  /** Sampling in rounds picks nothing but digests. */
  lemma {:induction false} PassesAreDrawn(usable: seq<Prefix>, seed: string, digest: Digest, rounds: nat)
    requires AllMasked(usable)
    ensures AllDrawn(usable, seed, digest, rounds, Passes(usable, seed, digest, rounds))
  {
    if rounds == 0 {
    } else {
      var before := Passes(usable, seed, digest, rounds - 1);
      PassesAreDrawn(usable, seed, digest, rounds - 1);
      DrawnLater(usable, seed, digest, rounds - 1, rounds, before);
      PassIsDrawn(usable, seed, digest, rounds - 1, |usable|, before);
    }
  }

  lemma {:induction false} PassesGrow(usable: seq<Prefix>, seed: string, digest: Digest, m: nat, n: nat)
    requires AllMasked(usable) && m <= n
    ensures Passes(usable, seed, digest, m) <= Passes(usable, seed, digest, n)
  {
    if m == n {
    } else {
      PassesGrow(usable, seed, digest, m, n - 1);
      PassCovers(usable, seed, digest, n - 1, |usable|, Passes(usable, seed, digest, n - 1));
    }
  }

  /** A round can only extend what came before it, prefix by prefix. */
  lemma {:induction false} PassGrows(usable: seq<Prefix>, seed: string, digest: Digest, round: nat, m: nat, n: nat,
                                     before: seq<Pick>)
    requires AllMasked(usable) && m <= n <= |usable|
    ensures Pass(usable, seed, digest, round, m, before) <= Pass(usable, seed, digest, round, n, before)
  {
    if m == n {
    } else {
      PassGrows(usable, seed, digest, round, m, n - 1, before);
    }
  }

  /** Non-empty input and at least one round give at least one address. */
  lemma PassesNonEmpty(usable: seq<Prefix>, seed: string, digest: Digest, rounds: nat)
    requires AllMasked(usable) && |usable| > 0 && rounds > 0
    ensures |Passes(usable, seed, digest, rounds)| > 0
  {
    PassesCover(usable, seed, digest, rounds, 0);
    assert Picked(Passes(usable, seed, digest, rounds), AddressFor(usable[0], seed, 0, digest));
  }
}
