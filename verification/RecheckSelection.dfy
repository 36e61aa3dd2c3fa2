/** Which blacklisted targets a recheck run picks, and why the LIMIT of its query does not change them. */
module RecheckSelection {
  import opened Wrappers
  import opened ScanState

  datatype Pick = Pick(agent: AgentId, chosen: seq<Key>)

  const MAX_CANDIDATES := 20000

  /** The share of `n` candidates a fraction asks for, rounded up. */
  function RoundedUp(n: nat, fraction: real): int { Ceil(n as real * fraction) }

  function Quota(fraction: real): nat -> int {
    (n: nat) => RoundedUp(n, fraction)
  }

  /** LIMIT of the candidate query. */
  function CandidateLimit(maxTargets: int, fraction: real): int
    requires fraction > 0.0
  {
    Min(Max(Ceil(maxTargets as real / fraction), maxTargets), MAX_CANDIDATES)
  }

  /** How many of an agent's `n` candidates are taken. */
  function Share(n: nat, quota: nat -> int, remaining: int): int {
    var wanted := quota(n);
    var atLeastOne := if wanted < 1 && n > 0 then 1 else wanted;
    Min(Min(atLeastOne, n), remaining)
  }

  // ---- Reference: rows ordered by agent come in blocks --------------------------------

  /** Number of leading rows of the first row's agent. */
  function Lead(rows: seq<Key>): (n: nat)
    requires rows != []
    ensures 1 <= n <= |rows|
  {
    if |rows| == 1 || rows[1].agent != rows[0].agent then 1 else 1 + Lead(rows[1..])
  }

  lemma {:induction false} LeadMeaning(rows: seq<Key>)
    requires rows != []
    ensures forall i :: 0 <= i < Lead(rows) ==> rows[i].agent == rows[0].agent
    ensures Lead(rows) < |rows| ==> rows[Lead(rows)].agent != rows[0].agent
  {
    if |rows| > 1 && rows[1].agent == rows[0].agent {
      LeadMeaning(rows[1..]);
    }
  }

  /** Each agent in turn gets its share of what is left. */
  function Select(rows: seq<Key>, quota: nat -> int, remaining: int): seq<Pick>
    decreases |rows|
  {
    if rows == [] || remaining <= 0 then []
    else
      var n := Lead(rows);
      var c := Share(n, quota, remaining);
      [Pick(rows[0].agent, rows[..Max(c, 0)])] + Select(rows[n..], quota, remaining - c)
  }

  function Selection(rows: seq<Key>, fraction: real, maxTargets: int): seq<Pick> {
    Select(rows, Quota(fraction), maxTargets)
  }

  function Selected(picks: seq<Pick>): nat {
    if picks == [] then 0 else |picks[0].chosen| + Selected(picks[1..])
  }

  /** Sum of the quotas of all agents. */
  function Demand(rows: seq<Key>, quota: nat -> int): int
    decreases |rows|
  {
    if rows == [] then 0 else quota(Lead(rows)) + Demand(rows[Lead(rows)..], quota)
  }

  // ---- Rounding ----------------------------------------------------------------------

  /** All the LIMIT argument needs to know about rounding up a fraction. */
  ghost predicate Rounding(quota: nat -> int) {
    && (forall n: nat :: n >= 1 ==> 1 <= quota(n) <= n)
    && (forall m: nat, n: nat :: m <= n ==> Splits(quota, m, n))
  }

  ghost predicate Splits(quota: nat -> int, m: nat, n: nat)
    requires m <= n
  {
    quota(m) <= quota(n) <= quota(m) + quota(n - m)
  }

  lemma CeilSum(x: real, y: real)
    ensures Ceil(x + y) <= Ceil(x) + Ceil(y)
    ensures x <= y ==> Ceil(x) <= Ceil(y)
  {
  }

  lemma CeilBounds(x: real, n: int)
    ensures Ceil(x) <= n <==> x <= n as real
    ensures Ceil(x) >= n <==> x > (n - 1) as real
  {
  }

  lemma TimesMonotone(x: real, y: real, f: real)
    requires x <= y && f > 0.0
    ensures x * f <= y * f
  {
  }

  lemma TimesAtMost(x: real, f: real)
    requires x > 0.0 && 0.0 < f <= 1.0
    ensures 0.0 < x * f <= x
  {
  }

  lemma Distribute(x: real, y: real, f: real)
    requires y >= 0.0 && f > 0.0
    ensures (x + y) * f == x * f + y * f && y * f >= 0.0
  {
  }

  lemma CeilSplit(x: real, y: real, z: real)
    requires y >= 0.0 && z == x + y
    ensures Ceil(x) <= Ceil(z) <= Ceil(x) + Ceil(y)
  {
    CeilSum(x, y);
    CeilSum(x, z);
  }

  lemma QuotaBounds(fraction: real, n: nat)
    requires 0.0 < fraction <= 1.0 && n >= 1
    ensures 1 <= RoundedUp(n, fraction) <= n
  {
    var x := n as real * fraction;
    TimesAtMost(n as real, fraction);
    CeilBounds(x, 1);
    CeilBounds(x, n);
  }

  lemma QuotaSplits(fraction: real, m: nat, n: nat)
    requires 0.0 < fraction <= 1.0 && m <= n
    ensures RoundedUp(m, fraction) <= RoundedUp(n, fraction) <= RoundedUp(m, fraction) + RoundedUp(n - m, fraction)
  {
    var x, y, z := m as real * fraction, (n - m) as real * fraction, n as real * fraction;
    Distribute(m as real, (n - m) as real, fraction);
    CeilSplit(x, y, z);
  }

  lemma QuotaRounds(fraction: real)
    requires 0.0 < fraction <= 1.0
    ensures Rounding(Quota(fraction))
  {
    forall n: nat | n >= 1 ensures 1 <= Quota(fraction)(n) <= n {
      QuotaBounds(fraction, n);
    }
    forall m: nat, n: nat | m <= n ensures Splits(Quota(fraction), m, n) {
      QuotaSplits(fraction, m, n);
    }
  }

  // ---- The LIMIT theorem -------------------------------------------------------------

  lemma LeadOfCut(rows: seq<Key>, limit: nat)
    requires 0 < limit <= |rows|
    ensures Lead(rows[..limit]) == Min(Lead(rows), limit)
  {
    var cut := rows[..limit];
    LeadMeaning(cut);
    LeadMeaning(rows);
    var m := Lead(cut);
    assert m < limit ==> rows[m].agent != rows[0].agent;
    assert Lead(rows) < limit ==> cut[Lead(rows)].agent != cut[0].agent;
  }

  /** The rows after `limit` make no difference to the selection. */
  predicate CutSame(rows: seq<Key>, limit: nat, quota: nat -> int, remaining: int)
    requires limit <= |rows|
  {
    Select(rows[..limit], quota, remaining) == Select(rows, quota, remaining)
  }

  /** Cutting the rows after `limit` is harmless as soon as the quota of `limit` covers what is wanted. */
  lemma CutIsHarmless(rows: seq<Key>, limit: nat, quota: nat -> int, remaining: int)
    requires Rounding(quota) && limit <= |rows|
    requires limit == 0 ==> remaining <= 0
    requires limit > 0 ==> quota(limit) >= remaining
    ensures CutSame(rows, limit, quota, remaining)
    decreases |rows|
  {
    if remaining > 0 {
      if Lead(rows) <= limit {
        CutBeyondBlock(rows, Lead(rows), rows[Lead(rows)..], limit, quota, remaining);
      } else {
        CutInsideBlock(rows, limit, quota, remaining);
      }
    }
  }

  lemma {:induction false} CutBeyondBlock(rows: seq<Key>, n: nat, rest: seq<Key>, limit: nat, quota: nat -> int,
                                          remaining: int)
    requires Rounding(quota) && rows != [] && n == Lead(rows) <= limit <= |rows| && rest == rows[n..]
    requires 1 <= remaining <= quota(limit)
    ensures CutSame(rows, limit, quota, remaining)
    decreases |rows|, 0
  {
    var c, left := Share(n, quota, remaining), limit - n;
    ShareOfBlock(n, limit, quota, remaining);
    CutIsHarmless(rest, left, quota, remaining - c);
    CutAfterBlock(rows, n, c, rest, limit, left, quota, remaining);
  }

  lemma ShareOfBlock(n: nat, limit: nat, quota: nat -> int, remaining: int)
    requires Rounding(quota) && 1 <= n <= limit && 1 <= remaining <= quota(limit)
    ensures var c := Share(n, quota, remaining);
            && 1 <= c <= n
            && (limit - n == 0 ==> remaining - c <= 0)
            && (limit - n > 0 ==> quota(limit - n) >= remaining - c)
  {
    assert Splits(quota, n, limit);
  }

  lemma SelectFirst(rows: seq<Key>, n: nat, c: int, rest: seq<Key>, quota: nat -> int, remaining: int)
    requires rows != [] && n == Lead(rows) && remaining > 0 && 1 <= c == Share(n, quota, remaining) <= n
             && rest == rows[n..]
    ensures Select(rows, quota, remaining) == [Pick(rows[0].agent, rows[..c])] + Select(rest, quota, remaining - c)
  {
  }

  lemma CutAfterBlock(rows: seq<Key>, n: nat, c: int, rest: seq<Key>, limit: nat, left: nat, quota: nat -> int,
                      remaining: int)
    requires rows != [] && n == Lead(rows) <= limit <= |rows| && remaining > 0 && left == limit - n
    requires 1 <= c == Share(n, quota, remaining) <= n && rest == rows[n..]
    requires CutSame(rest, left, quota, remaining - c)
    ensures CutSame(rows, limit, quota, remaining)
  {
    LeadOfCut(rows, limit);
    CutPieces(rows, n, c, rest, limit);
    SelectFirst(rows, n, c, rest, quota, remaining);
    SelectFirst(rows[..limit], n, c, rest[..left], quota, remaining);
  }

  lemma CutPieces(rows: seq<Key>, n: nat, c: int, rest: seq<Key>, limit: nat)
    requires 1 <= c <= n <= limit <= |rows| && rest == rows[n..]
    ensures rows[..limit][n..] == rest[..limit - n] && rows[..limit][..c] == rows[..c] && rows[..limit][0] == rows[0]
  {
  }

  lemma CutInsideBlock(rows: seq<Key>, limit: nat, quota: nat -> int, remaining: int)
    requires Rounding(quota) && 1 <= limit <= |rows| && limit < Lead(rows)
    requires 1 <= remaining <= quota(limit)
    ensures CutSame(rows, limit, quota, remaining)
  {
    var cut := rows[..limit];
    LeadOfCut(rows, limit);
    assert Splits(quota, limit, Lead(rows));
    assert Share(Lead(rows), quota, remaining) == Share(limit, quota, remaining) == remaining;
    assert cut[..remaining] == rows[..remaining];
  }

  lemma Quotient(m: real, fraction: real, q: real)
    requires 0.0 < fraction <= 1.0 && m >= 1.0 && q == m / fraction
    ensures q * fraction == m && q >= m
  {
    assert q > 0.0;
    TimesAtMost(q, fraction);
  }

  lemma QuotientAtMost(m: real, fraction: real, q: real, n: real)
    requires 0.0 < fraction <= 1.0 && m >= 1.0 && q == m / fraction && q <= n
    ensures m <= n * fraction
  {
    Quotient(m, fraction, q);
    TimesMonotone(q, n, fraction);
  }

  /** Either the rounded-up quotient or the cap is the limit; its quota covers the budget exactly when
      20000 * fraction exceeds max - 1. */
  lemma Covered(maxTargets: int, fraction: real)
    requires 0.0 < fraction <= 1.0 && 1 <= maxTargets <= 5000
    ensures var cover := Ceil(maxTargets as real / fraction);
            1 <= maxTargets <= cover && RoundedUp(cover, fraction) >= maxTargets
            && CandidateLimit(maxTargets, fraction) == Min(cover, MAX_CANDIDATES)
    ensures RoundedUp(MAX_CANDIDATES, fraction) >= maxTargets <==> 20000.0 * fraction > (maxTargets - 1) as real
    ensures Ceil(maxTargets as real / fraction) <= MAX_CANDIDATES ==> 20000.0 * fraction > (maxTargets - 1) as real
  {
    var m, q := maxTargets as real, maxTargets as real / fraction;
    var c := Ceil(q);
    Quotient(m, fraction, q);
    CeilBounds(q, maxTargets);
    CeilBounds(q, c);
    CeilBounds(q, MAX_CANDIDATES);
    QuotientAtMost(m, fraction, q, c as real);
    CoveredBy(c as real * fraction, 20000.0 * fraction, maxTargets);
    if q <= 20000.0 { QuotientAtMost(m, fraction, q, 20000.0); }
  }

  lemma CoveredBy(atCover: real, atCap: real, maxTargets: int)
    ensures atCover >= maxTargets as real ==> Ceil(atCover) >= maxTargets
    ensures Ceil(atCap) >= maxTargets <==> atCap > (maxTargets - 1) as real
  {
  }

  lemma LimitKeepsSelection(rows: seq<Key>, maxTargets: int, fraction: real)
    requires 0.0 < fraction <= 1.0 && 1 <= maxTargets <= 5000
    requires 20000.0 * fraction > (maxTargets - 1) as real
    ensures CandidateLimit(maxTargets, fraction) >= 0
    ensures Selection(Take(rows, CandidateLimit(maxTargets, fraction)), fraction, maxTargets)
            == Selection(rows, fraction, maxTargets)
  {
    Covered(maxTargets, fraction);
    QuotaRounds(fraction);
    var limit := CandidateLimit(maxTargets, fraction);
    if limit < |rows| { CutIsHarmless(rows, limit, Quota(fraction), maxTargets); }
  }

  /** `n` entries of one agent. */
  function OneAgent(n: nat): seq<Key> {
    seq(n, i requires 0 <= i < n => Key(0, i))
  }

  lemma SingleAgent(n: nat, quota: nat -> int, remaining: int)
    requires Rounding(quota) && n >= 1 && remaining >= 1
    ensures Selected(Select(OneAgent(n), quota, remaining)) == Min(quota(n), remaining)
  {
    var rows := OneAgent(n);
    LeadMeaning(rows);
    assert Lead(rows) == n;
    assert 1 <= quota(n) <= n;
    assert rows[n..] == [];
  }

  /** When the 20000 cap bites hard enough, one agent with many entries gets too few: the limited
      query selects less than the budget, which the whole table fills. */
  lemma CapLosesTargets(maxTargets: int, fraction: real)
    requires 0.0 < fraction <= 1.0 && 1 <= maxTargets <= 5000
    requires 20000.0 * fraction <= (maxTargets - 1) as real
    ensures CandidateLimit(maxTargets, fraction) >= 0 && Ceil(maxTargets as real / fraction) >= 0
    ensures var rows := OneAgent(Ceil(maxTargets as real / fraction));
            var limited := Selection(Take(rows, CandidateLimit(maxTargets, fraction)), fraction, maxTargets);
            Selected(limited) < Selected(Selection(rows, fraction, maxTargets)) == maxTargets
  {
    Covered(maxTargets, fraction);
    QuotaRounds(fraction);
    var n := Ceil(maxTargets as real / fraction);
    SingleAgent(n, Quota(fraction), maxTargets);
    SingleAgent(MAX_CANDIDATES, Quota(fraction), maxTargets);
    assert OneAgent(n)[..MAX_CANDIDATES] == OneAgent(MAX_CANDIDATES);
  }

  /** The LIMIT is transparent for every table exactly when 20000 * fraction exceeds max_targets - 1;
      in particular whenever ceil(max_targets / fraction) is at most 20000. */
  lemma LimitExactIff(maxTargets: int, fraction: real)
    requires 0.0 < fraction <= 1.0 && 1 <= maxTargets <= 5000
    ensures CandidateLimit(maxTargets, fraction) >= 0
    ensures (forall rows: seq<Key> ::
               Selection(Take(rows, CandidateLimit(maxTargets, fraction)), fraction, maxTargets)
               == Selection(rows, fraction, maxTargets))
            <==> 20000.0 * fraction > (maxTargets - 1) as real
    ensures Ceil(maxTargets as real / fraction) <= MAX_CANDIDATES ==> 20000.0 * fraction > (maxTargets - 1) as real
  {
    Covered(maxTargets, fraction);
    if 20000.0 * fraction > (maxTargets - 1) as real {
      forall rows: seq<Key>
        ensures Selection(Take(rows, CandidateLimit(maxTargets, fraction)), fraction, maxTargets)
                == Selection(rows, fraction, maxTargets)
      {
        LimitKeepsSelection(rows, maxTargets, fraction);
      }
    } else {
      CapLosesTargets(maxTargets, fraction);
    }
  }

  /** The number selected is the budget or the whole demand, whichever is smaller. */
  lemma {:induction false} SelectedTotal(rows: seq<Key>, quota: nat -> int, remaining: nat)
    requires Rounding(quota)
    ensures Selected(Select(rows, quota, remaining)) == Min(remaining, Demand(rows, quota))
    ensures Demand(rows, quota) >= 0
    decreases |rows|
  {
    if rows == [] {
    } else {
      var n := Lead(rows);
      assert 1 <= quota(n) <= n;
      SelectedTotal(rows[n..], quota, if remaining > 0 then remaining - Share(n, quota, remaining) else 0);
    }
  }
}
