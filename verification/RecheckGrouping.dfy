/** The grouping loop of the recheck: a map of candidates per agent plus the order in which agents appear. */
module RecheckGrouping {
  import opened Cardinality
  import opened Wrappers
  import opened ScanState
  import opened RecheckSelection

  function RowsOf(rows: seq<Key>, a: AgentId): seq<Key> {
    if rows == [] then []
    else RowsOf(rows[..|rows| - 1], a) + if rows[|rows| - 1].agent == a then [rows[|rows| - 1]] else []
  }

  /** Agents in order of first appearance. */
  function AgentsOf(rows: seq<Key>): seq<AgentId> {
    if rows == [] then []
    else
      var before, a := AgentsOf(rows[..|rows| - 1]), rows[|rows| - 1].agent;
      if a in before then before else before + [a]
  }

  predicate ByAgent(rows: seq<Key>) {
    forall i, k :: 0 <= i < k < |rows| ==> rows[i].agent <= rows[k].agent
  }

  lemma NextRow(rows: seq<Key>, i: nat)
    requires i < |rows|
    ensures forall a :: RowsOf(rows[..i + 1], a) == RowsOf(rows[..i], a) + if rows[i].agent == a then [rows[i]] else []
    ensures AgentsOf(rows[..i + 1])
            == if rows[i].agent in AgentsOf(rows[..i]) then AgentsOf(rows[..i])
              else AgentsOf(rows[..i]) + [rows[i].agent]
  {
    assert rows[..i + 1][..i] == rows[..i];
  }

  method GroupRows(rows: seq<Key>) returns (groups: map<AgentId, seq<Key>>, order: seq<AgentId>)
    ensures order == AgentsOf(rows)
    ensures forall a :: a in groups <==> a in order
    ensures forall a :: a in groups ==> groups[a] == RowsOf(rows, a) && groups[a] != []
  {
    groups, order := map[], [];
    for i := 0 to |rows|
      invariant order == AgentsOf(rows[..i])
      invariant forall a :: a in groups <==> a in order
      invariant forall a :: a in groups ==> groups[a] == RowsOf(rows[..i], a) && groups[a] != []
      invariant forall a :: a !in groups ==> RowsOf(rows[..i], a) == []
    {
      var a := rows[i].agent;
      NextRow(rows, i);
      if a !in groups {
        order := order + [a];
        groups := groups[a := []];
      }
      groups := groups[a := groups[a] + [rows[i]]];
    }
    assert rows[..|rows|] == rows;
  }

  /** The selection loop from position `i` of the order of appearance. */
  function PickFrom(order: seq<AgentId>, i: nat, groups: map<AgentId, seq<Key>>, quota: nat -> int,
                    remaining: int): seq<Pick>
    requires i <= |order| && forall a :: a in order ==> a in groups
    decreases |order| - i
  {
    if i == |order| || remaining <= 0 then []
    else
      var own := groups[order[i]];
      var c := Share(|own|, quota, remaining);
      if c <= 0 then PickFrom(order, i + 1, groups, quota, remaining)
      else [Pick(order[i], own[..c])] + PickFrom(order, i + 1, groups, quota, remaining - c)
  }

  lemma NothingLeft(order: seq<AgentId>, i: nat, groups: map<AgentId, seq<Key>>, quota: nat -> int, remaining: int)
    requires i <= |order| && (forall a :: a in order ==> a in groups) && (i == |order| || remaining <= 0)
    ensures PickFrom(order, i, groups, quota, remaining) == []
  {
  }

  // ---- For rows ordered by agent, grouping is cutting into blocks -----------------------

  lemma {:induction false} RowsOfConcat(x: seq<Key>, y: seq<Key>, a: AgentId)
    ensures RowsOf(x + y, a) == RowsOf(x, a) + RowsOf(y, a)
  {
    if y == [] {
      assert x + y == x;
    } else {
      assert (x + y)[..|x + y| - 1] == x + y[..|y| - 1];
      RowsOfConcat(x, y[..|y| - 1], a);
    }
  }

  lemma {:induction false} AgentsOfConcat(x: seq<Key>, y: seq<Key>)
    requires forall i :: 0 <= i < |y| ==> y[i].agent !in AgentsOf(x)
    ensures AgentsOf(x + y) == AgentsOf(x) + AgentsOf(y)
  {
    if y == [] {
      assert x + y == x;
    } else {
      assert (x + y)[..|x + y| - 1] == x + y[..|y| - 1];
      AgentsOfConcat(x, y[..|y| - 1]);
    }
  }

  ghost predicate Mentions(rows: seq<Key>, a: AgentId) {
    exists i :: 0 <= i < |rows| && rows[i].agent == a
  }

  ghost predicate OnlyAgent(rows: seq<Key>, a: AgentId) {
    forall i :: 0 <= i < |rows| ==> rows[i].agent == a
  }

  lemma MentionsLast(rows: seq<Key>, a: AgentId)
    requires rows != []
    ensures Mentions(rows, a) <==> Mentions(rows[..|rows| - 1], a) || rows[|rows| - 1].agent == a
  {
    var front := rows[..|rows| - 1];
    if Mentions(rows, a) {
      var i :| 0 <= i < |rows| && rows[i].agent == a;
      assert i < |front| ==> front[i].agent == a;
    }
    if Mentions(front, a) {
      var i :| 0 <= i < |front| && front[i].agent == a;
      assert rows[i].agent == a;
    }
  }

  lemma {:induction false} AgentsOccur(rows: seq<Key>, a: AgentId)
    ensures a in AgentsOf(rows) <==> Mentions(rows, a)
    ensures a !in AgentsOf(rows) <==> RowsOf(rows, a) == []
  {
    if rows == [] {
    } else {
      AgentsOccur(rows[..|rows| - 1], a);
      MentionsLast(rows, a);
    }
  }

  lemma {:induction false} Block(rows: seq<Key>, a: AgentId)
    requires rows != [] && OnlyAgent(rows, a)
    ensures AgentsOf(rows) == [a] && RowsOf(rows, a) == rows
  {
    var front := rows[..|rows| - 1];
    assert rows == front + [rows[|rows| - 1]];
    if front == [] {
    } else {
      Block(front, a);
    }
  }

  lemma AgentsOfBlockThenRest(block: seq<Key>, rest: seq<Key>, a: AgentId)
    requires block != [] && OnlyAgent(block, a) && !Mentions(rest, a)
    ensures AgentsOf(block + rest) == [a] + AgentsOf(rest)
    ensures RowsOf(block + rest, a) == block
  {
    Block(block, a);
    forall i | 0 <= i < |rest| ensures rest[i].agent !in AgentsOf(block) {
      assert Mentions(rest, rest[i].agent);
    }
    AgentsOfConcat(block, rest);
    RowsOfConcat(block, rest, a);
    AgentsOccur(rest, a);
  }

  lemma RowsOfRest(block: seq<Key>, rest: seq<Key>, a: AgentId, b: AgentId)
    requires OnlyAgent(block, a) && b != a
    ensures RowsOf(block + rest, b) == RowsOf(rest, b)
  {
    AgentsOccur(block, b);
    RowsOfConcat(block, rest, b);
  }

  /** Rows ordered by agent start with a whole block of their first agent. */
  lemma FirstBlock(rows: seq<Key>)
    requires rows != [] && ByAgent(rows)
    ensures OnlyAgent(rows[..Lead(rows)], rows[0].agent) && !Mentions(rows[Lead(rows)..], rows[0].agent)
    ensures ByAgent(rows[Lead(rows)..])
  {
    LeadMeaning(rows);
  }

  lemma {:induction false} FirstGroup(rows: seq<Key>)
    requires rows != [] && ByAgent(rows)
    ensures AgentsOf(rows) == [rows[0].agent] + AgentsOf(rows[Lead(rows)..])
    ensures RowsOf(rows, rows[0].agent) == rows[..Lead(rows)]
  {
    FirstBlock(rows);
    var block, rest := rows[..Lead(rows)], rows[Lead(rows)..];
    assert rows == block + rest;
    AgentsOfBlockThenRest(block, rest, rows[0].agent);
  }

  lemma OtherGroups(rows: seq<Key>, b: AgentId)
    requires rows != [] && ByAgent(rows) && b in AgentsOf(rows[Lead(rows)..])
    ensures RowsOf(rows, b) == RowsOf(rows[Lead(rows)..], b)
  {
    FirstBlock(rows);
    var block, rest := rows[..Lead(rows)], rows[Lead(rows)..];
    assert rows == block + rest;
    AgentsOccur(rest, b);
    RowsOfRest(block, rest, rows[0].agent, b);
  }

  /** From position `i` on, the order and the groups are those of the rows. */
  ghost predicate Grouped(order: seq<AgentId>, i: nat, groups: map<AgentId, seq<Key>>, rows: seq<Key>) {
    && i <= |order| && order[i..] == AgentsOf(rows)
    && forall a :: a in AgentsOf(rows) ==> a in groups && groups[a] == RowsOf(rows, a)
  }

  lemma GroupedRest(order: seq<AgentId>, i: nat, groups: map<AgentId, seq<Key>>, rows: seq<Key>)
    requires Grouped(order, i, groups, rows) && rows != [] && ByAgent(rows)
    ensures i < |order| && order[i] == rows[0].agent && Grouped(order, i + 1, groups, rows[Lead(rows)..])
    ensures order[i] in groups && groups[order[i]] == rows[..Lead(rows)]
  {
    FirstGroup(rows);
    var rest := AgentsOf(rows[Lead(rows)..]);
    assert order[i..] == [rows[0].agent] + rest;
    assert order[i + 1..] == order[i..][1..] == rest;
    forall a | a in rest ensures a in groups && groups[a] == RowsOf(rows[Lead(rows)..], a) {
      OtherGroups(rows, a);
      assert a in AgentsOf(rows);
    }
    assert order[i..][0] == rows[0].agent;
    assert rows[0].agent in AgentsOf(rows);
  }

  /** On rows ordered by agent the map-and-order loop computes the block-wise reference selection. */
  lemma {:induction false} GroupingIsSelection(order: seq<AgentId>, i: nat, groups: map<AgentId, seq<Key>>,
                                               rows: seq<Key>, quota: nat -> int, remaining: int)
    requires Grouped(order, i, groups, rows) && ByAgent(rows) && Rounding(quota)
    requires forall a :: a in order ==> a in groups
    ensures PickFrom(order, i, groups, quota, remaining) == Select(rows, quota, remaining)
    decreases |rows|
  {
    if rows != [] && remaining > 0 {
      GroupedRest(order, i, groups, rows);
      FirstBlock(rows);
      var n := Lead(rows);
      assert 1 <= quota(n) <= n;
      GroupingIsSelection(order, i + 1, groups, rows[n..], quota, remaining - Share(n, quota, remaining));
      FirstPick(rows, order, i, groups, quota, remaining);
    }
  }

  lemma FirstPick(rows: seq<Key>, order: seq<AgentId>, i: nat, groups: map<AgentId, seq<Key>>, quota: nat -> int,
                  remaining: int)
    requires rows != [] && remaining > 0 && 1 <= quota(Lead(rows)) <= Lead(rows)
    requires i < |order| && order[i] == rows[0].agent && (forall a :: a in order ==> a in groups)
    requires groups[order[i]] == rows[..Lead(rows)]
    requires var left := remaining - Share(Lead(rows), quota, remaining);
             PickFrom(order, i + 1, groups, quota, left) == Select(rows[Lead(rows)..], quota, left)
    ensures PickFrom(order, i, groups, quota, remaining) == Select(rows, quota, remaining)
  {
    var n, c := Lead(rows), Share(Lead(rows), quota, remaining);
    assert 1 <= c <= n;
    assert rows[..n][..c] == rows[..c];
  }

  function Addresses(chosen: seq<Key>): (r: seq<Ip>)
    ensures |r| == |chosen| && forall i :: 0 <= i < |chosen| ==> r[i] == chosen[i].ip
  {
    seq(|chosen|, i requires 0 <= i < |chosen| => chosen[i].ip)
  }

  ghost predicate DistinctIps(own: seq<Key>) {
    Distinct(Addresses(own))
  }

  lemma {:induction false} RowsOfDistinct(rows: seq<Key>, a: AgentId)
    requires forall i, k :: 0 <= i < k < |rows| ==> rows[i] != rows[k]
    ensures var own := RowsOf(rows, a);
            && (forall x :: x in own ==> x in rows && x.agent == a)
            && DistinctIps(own)
  {
    if rows == [] {
    } else {
      var front, last := rows[..|rows| - 1], rows[|rows| - 1];
      RowsOfDistinct(front, a);
      var before := RowsOf(front, a);
      forall i | 0 <= i < |before| ensures before[i] in front && before[i].agent == a {
        assert before[i] in before;
      }
      forall i | 0 <= i < |before| && last.agent == a ensures Addresses(before)[i] != last.ip {
        assert before[i] != last;
      }
    }
  }
}
