/** Flattening prefix groups round by round: first item of every group, then second items, and so on. */
module RoundRobin {
  import opened Wrappers

  /** Item `item` of group `group`. */
  datatype Cell = Cell(group: nat, item: nat)

  function Lengths<T>(groups: seq<seq<T>>): (r: seq<nat>)
    ensures |r| == |groups| && forall g :: 0 <= g < |r| ==> r[g] == |groups[g]|
  {
    seq(|groups|, g requires 0 <= g < |groups| => |groups[g]|)
  }

  /** Round `r` over the first `n` groups. */
  function Row(lens: seq<nat>, r: nat, n: nat): seq<Cell>
    requires n <= |lens|
  {
    if n == 0 then [] else Row(lens, r, n - 1) + if r < lens[n - 1] then [Cell(n - 1, r)] else []
  }

  function Rows(lens: seq<nat>, rounds: nat): seq<Cell> {
    if rounds == 0 then [] else Rows(lens, rounds - 1) + Row(lens, rounds - 1, |lens|)
  }

  predicate Inside<T>(groups: seq<seq<T>>, c: Cell) {
    c.group < |groups| && c.item < |groups[c.group]|
  }

  /** `out` lists the items of the cells. */
  ghost predicate Lists<T>(groups: seq<seq<T>>, cells: seq<Cell>, out: seq<T>) {
    && |out| == |cells|
    && forall i :: 0 <= i < |cells| ==> Inside(groups, cells[i]) && out[i] == groups[cells[i].group][cells[i].item]
  }

  ghost predicate Earlier(a: Cell, b: Cell) {
    a.item < b.item || (a.item == b.item && a.group < b.group)
  }

  ghost predicate Ordered(cells: seq<Cell>) {
    forall i, k :: 0 <= i < k < |cells| ==> Earlier(cells[i], cells[k])
  }

  /** Every cell exactly once, ordered by round and then by group. */
  ghost predicate Complete(lens: seq<nat>, cells: seq<Cell>) {
    Ordered(cells) && forall c :: c in cells <==> c.group < |lens| && c.item < lens[c.group]
  }

  // ---- The order ------------------------------------------------------------------------

  lemma OrderedConcat(x: seq<Cell>, y: seq<Cell>)
    requires Ordered(x) && Ordered(y) && forall a, b :: a in x && b in y ==> Earlier(a, b)
    ensures Ordered(x + y)
  {
    forall i, k | 0 <= i < k < |x + y| ensures Earlier((x + y)[i], (x + y)[k]) {
      if i < |x| <= k { assert x[i] in x && y[k - |x|] in y; }
    }
  }

  lemma {:induction false} RowOrder(lens: seq<nat>, r: nat, n: nat)
    requires n <= |lens|
    ensures forall c :: c in Row(lens, r, n) <==> c.item == r && c.group < n && r < lens[c.group]
    ensures Ordered(Row(lens, r, n))
  {
    if n == 0 {
    } else {
      RowOrder(lens, r, n - 1);
      OrderedConcat(Row(lens, r, n - 1), if r < lens[n - 1] then [Cell(n - 1, r)] else []);
    }
  }

  lemma {:induction false} RowsOrder(lens: seq<nat>, rounds: nat)
    ensures forall c :: c in Rows(lens, rounds) <==> c.group < |lens| && c.item < lens[c.group] && c.item < rounds
    ensures Ordered(Rows(lens, rounds))
  {
    if rounds == 0 {
    } else {
      RowsOrder(lens, rounds - 1);
      RowOrder(lens, rounds - 1, |lens|);
      OrderedConcat(Rows(lens, rounds - 1), Row(lens, rounds - 1, |lens|));
    }
  }

  // ---- Fairness -------------------------------------------------------------------------

  /** Whatever precedes a cell of an output prefix is in the prefix too. */
  lemma PrefixClosed(lens: seq<nat>, cells: seq<Cell>, k: nat, a: Cell, b: Cell)
    requires Complete(lens, cells) && k <= |cells|
    requires b in cells[..k] && a in cells && Earlier(a, b)
    ensures a in cells[..k]
  {
    var i :| 0 <= i < |cells| && cells[i] == a;
    var j :| 0 <= j < k && cells[j] == b;
    assert j < i ==> Earlier(b, a);
    assert i < k && cells[..k][i] == a;
  }

  /** The prefix of `k` outputs has taken exactly the first `m` items of group `g`. */
  ghost predicate Gave(cells: seq<Cell>, k: nat, g: nat, m: nat)
    requires k <= |cells|
  {
    forall j: nat :: Cell(g, j) in cells[..k] <==> j < m
  }

  /** Every prefix takes an initial part of every group, so the order within a group is kept. */
  lemma GroupOrderKept(lens: seq<nat>, cells: seq<Cell>, k: nat, g: nat) returns (m: nat)
    requires Complete(lens, cells) && k <= |cells| && g < |lens|
    ensures m <= lens[g] && Gave(cells, k, g, m)
  {
    m := 0;
    while m < lens[g] && Cell(g, m) in cells[..k]
      invariant m <= lens[g] && forall j: nat :: j < m ==> Cell(g, j) in cells[..k]
    {
      m := m + 1;
    }
    forall j: nat | j >= m ensures Cell(g, j) !in cells[..k] {
      if j < lens[g] && j != m {
        assert Cell(g, m) in cells && Earlier(Cell(g, m), Cell(g, j));
        if Cell(g, j) in cells[..k] { PrefixClosed(lens, cells, k, Cell(g, m), Cell(g, j)); }
      }
    }
  }

  /** In every prefix of the output a group that still has items is at most one item behind any other. */
  lemma Balanced(lens: seq<nat>, cells: seq<Cell>, k: nat, g: nat, m: nat, h: nat, n: nat)
    requires Complete(lens, cells) && k <= |cells| && g < |lens| && h < |lens|
    requires Gave(cells, k, g, m) && Gave(cells, k, h, n) && m < lens[g]
    ensures n <= m + 1
  {
    assert Cell(g, m) in cells && Earlier(Cell(g, m), Cell(h, m + 1));
    if Cell(h, m + 1) in cells[..k] { PrefixClosed(lens, cells, k, Cell(g, m), Cell(h, m + 1)); }
  }

  // ---- The loop -------------------------------------------------------------------------

  function LongestOf(lens: seq<nat>): nat {
    if lens == [] then 0 else Max(LongestOf(lens[..|lens| - 1]), lens[|lens| - 1])
  }

  lemma {:induction false} LongestBounds(lens: seq<nat>, g: nat)
    requires g < |lens|
    ensures lens[g] <= LongestOf(lens)
  {
    if g == |lens| - 1 {
    } else {
      LongestBounds(lens[..|lens| - 1], g);
    }
  }

  /** A round that adds nothing is beyond the longest group, and the output is complete. */
  lemma EmptyRound(lens: seq<nat>, round: nat)
    requires forall h :: 0 <= h < |lens| ==> lens[h] <= round
    ensures Complete(lens, Rows(lens, round))
    ensures Row(lens, round, |lens|) == []
  {
    RowsOrder(lens, round);
    EmptyRow(lens, round, |lens|);
  }

  lemma {:induction false} EmptyRow(lens: seq<nat>, round: nat, n: nat)
    requires n <= |lens| && forall h :: 0 <= h < |lens| ==> lens[h] <= round
    ensures Row(lens, round, n) == []
  {
    if n == 0 {
    } else {
      EmptyRow(lens, round, n - 1);
    }
  }

  /** One round over all groups. */
  method FlattenRound<T>(groups: seq<seq<T>>, round: nat, before: seq<T>, ghost taken: seq<Cell>)
    returns (out: seq<T>, added: bool, ghost cells: seq<Cell>)
    requires Lists(groups, taken, before)
    ensures cells == taken + Row(Lengths(groups), round, |groups|) && Lists(groups, cells, out)
    ensures added <==> exists h :: 0 <= h < |groups| && round < Lengths(groups)[h]
  {
    ghost var lens := Lengths(groups);
    out, added, cells := before, false, taken;
    for g := 0 to |groups|
      invariant cells == taken + Row(lens, round, g) && Lists(groups, cells, out)
      invariant added <==> exists h :: 0 <= h < g && round < lens[h]
    {
      if round < |groups[g]| {
        out := out + [groups[g][round]];
        cells := cells + [Cell(g, round)];
        added := true;
      }
    }
  }

  ghost predicate FromGroup<T>(groups: seq<seq<T>>, x: T) {
    exists g :: 0 <= g < |groups| && x in groups[g]
  }

  lemma NothingLost<T>(groups: seq<seq<T>>, cells: seq<Cell>, out: seq<T>)
    requires Lists(groups, cells, out) && Complete(Lengths(groups), cells)
    ensures forall g, j :: 0 <= g < |groups| && 0 <= j < |groups[g]| ==> groups[g][j] in out
    ensures forall i :: 0 <= i < |out| ==> FromGroup(groups, out[i])
  {
    forall g, j | 0 <= g < |groups| && 0 <= j < |groups[g]| ensures groups[g][j] in out {
      assert Lengths(groups)[g] == |groups[g]|;
      assert Cell(g, j) in cells;
      var i :| 0 <= i < |cells| && cells[i] == Cell(g, j);
      assert out[i] == groups[g][j];
    }
    forall i | 0 <= i < |out| ensures FromGroup(groups, out[i]) {
      assert Inside(groups, cells[i]);
      assert out[i] in groups[cells[i].group];
    }
  }

  /** The unbounded round loop ends. */
  method Flatten<T>(groups: seq<seq<T>>) returns (out: seq<T>, ghost cells: seq<Cell>)
    ensures Lists(groups, cells, out) && Complete(Lengths(groups), cells)
    ensures forall g, j :: 0 <= g < |groups| && 0 <= j < |groups[g]| ==> groups[g][j] in out
    ensures forall i :: 0 <= i < |out| ==> FromGroup(groups, out[i])
  {
    ghost var lens := Lengths(groups);
    out, cells := [], [];
    var round := 0;
    while true
      invariant cells == Rows(lens, round) && Lists(groups, cells, out)
      decreases LongestOf(lens) - round
    {
      var added: bool;
      out, added, cells := FlattenRound(groups, round, out, cells);
      if !added {
        EmptyRound(lens, round);
        NothingLost(groups, cells, out);
        return;
      }
      ghost var h :| 0 <= h < |groups| && round < Lengths(groups)[h];
      LongestBounds(lens, h);
      round := round + 1;
    }
  }
}
