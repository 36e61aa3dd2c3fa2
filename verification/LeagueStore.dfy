/** The stored league: one planning request deactivates, upserts, evaluates and saves entries, then plans
    targets for each agent. */
module LeagueStore {
  import opened Wrappers
  import opened Cidr
  import opened Sampler
  import opened Sorting
  import opened League
  import opened LeagueItems
  import opened LeaguePlan
  import P = PlanAgent

  /** Unique key of an entry; `profile` stands for the probe settings it belongs to. */
  datatype Key = Key(agent: string, prefix: Block, profile: nat)

  /** Aggregates over an entry's results, computed by the database. */
  datatype Stats = Stats(week: Window, distinctIps: int, day: Window, lastResultAt: Option<Time>)

  datatype Stored = Stored(
    tier: Tier, active: bool, badStreak: int, lastScheduledAt: Option<Time>, lastEvaluatedAt: Option<Time>,
    stats: Stats)

  const NO_STATS := Stats(Window(0, 0.0, 0.0, 0.0), 0, Window(0, 0.0, 0.0, 0.0), None)

  /** A new entry as the table's defaults make it. */
  const FRESH := Stored(Observation, true, 0, None, None, NO_STATS)

  datatype Request = Request(profile: nat, th: Thresholds, targetCount: int, includeIPv6: bool)

  datatype PlanError = NoAgents | BadPrefix

  datatype Loaded = Loaded(key: Key, row: Stored)

  function Judge(row: Stored, stats: Stats, th: Thresholds): Stored {
    var e := Evaluate(Standing(row.tier, row.badStreak, stats.week, stats.distinctIps, stats.day, stats.lastResultAt,
                               row.lastEvaluatedAt), th);
    row.(tier := e.tier, badStreak := e.badStreak, lastEvaluatedAt := e.lastEvaluatedAt, stats := stats)
  }

  predicate InScope(k: Key, agents: seq<string>, profile: nat) {
    k.agent in agents && k.profile == profile
  }

  /** The prefix column only takes masked blocks. */
  predicate Storable(row: StoredPrefix) {
    row.cidr.parsed.Some? && IsMasked(row.cidr.parsed.value)
  }

  /** The keys a request is about: every agent with every wanted prefix. */
  ghost predicate Asked(k: Key, agents: seq<string>, prefixes: seq<StoredPrefix>, q: Request) {
    InScope(k, agents, q.profile)
    && exists i :: 0 <= i < |prefixes| && Offers(prefixes[i], q.includeIPv6, k.prefix)
  }

  // ---- The table ------------------------------------------------------------------------

  /** Existing keys among `touched` become active, missing ones are added. */
  function Activated(table: map<Key, Stored>, touched: set<Key>): map<Key, Stored> {
    map k | k in table.Keys + touched ::
      if k !in touched then table[k] else if k in table then table[k].(active := true) else FRESH
  }

  function Deactivated(table: map<Key, Stored>, agents: seq<string>, profile: nat): map<Key, Stored> {
    map k | k in table :: if InScope(k, agents, profile) then table[k].(active := false) else table[k]
  }

  /** The table after a request that asked for `keys`. */
  function Planned(table: map<Key, Stored>, keys: set<Key>, agents: seq<string>, q: Request,
                   stats: Key -> Stats): map<Key, Stored>
  {
    var before := Activated(Deactivated(table, agents, q.profile), keys);
    map k | k in before :: if k in keys then Judge(before[k], stats(k), q.th) else before[k]
  }

  class Entries {
    var table: map<Key, Stored>

    constructor ()
      ensures table == map[]
    {
      table := map[];
    }

    method Deactivate(agents: seq<string>, profile: nat)
      modifies this
      ensures table == Deactivated(old(table), agents, profile)
    {
      table := map k | k in table :: if InScope(k, agents, profile) then table[k].(active := false) else table[k];
    }

    method Upsert(k: Key, ghost before: map<Key, Stored>, ghost touched: set<Key>)
      requires table == Activated(before, touched)
      modifies this
      ensures table == Activated(before, touched + {k})
    {
      table := table[k := if k in table then table[k].(active := true) else FRESH];
    }

    /** All wanted prefixes of one agent; a prefix the column cannot take fails the statement. */
    method UpsertAgent(agent: string, prefixes: seq<StoredPrefix>, q: Request, ghost before: map<Key, Stored>,
                       ghost touched: set<Key>)
      returns (ok: bool, ghost keys: set<Key>)
      requires table == Activated(before, touched)
      modifies this
      ensures ok <==> forall i :: 0 <= i < |prefixes| && Wanted(prefixes[i], q.includeIPv6) ==> Storable(prefixes[i])
      ensures ok ==> table == Activated(before, touched + keys)
      ensures ok ==> forall k :: k in keys <==> Asked(k, [agent], prefixes, q)
    {
      keys := {};
      for i := 0 to |prefixes|
        invariant table == Activated(before, touched + keys)
        invariant forall j :: 0 <= j < i && Wanted(prefixes[j], q.includeIPv6) ==> Storable(prefixes[j])
        invariant forall k :: k in keys <==>
                    && k.agent == agent && k.profile == q.profile
                    && exists j :: 0 <= j < i && Offers(prefixes[j], q.includeIPv6, k.prefix)
      {
        if !prefixes[i].active || (!q.includeIPv6 && prefixes[i].version == 6) {
          continue;
        }
        if prefixes[i].cidr.parsed.None? {
          return false, keys;
        }
        var prefix := prefixes[i].cidr.parsed.value;
        if Masked(prefix) != prefix {
          return false, keys;
        }
        var k := Key(agent, prefix, q.profile);
        Upsert(k, before, touched + keys);
        assert touched + keys + {k} == touched + (keys + {k});
        keys := keys + {k};
      }
      ok := true;
    }

    method UpsertAll(agents: seq<string>, prefixes: seq<StoredPrefix>, q: Request)
      returns (ok: bool, ghost keys: set<Key>)
      requires |agents| > 0
      modifies this
      ensures ok <==> forall i :: 0 <= i < |prefixes| && Wanted(prefixes[i], q.includeIPv6) ==> Storable(prefixes[i])
      ensures ok ==> table == Activated(old(table), keys) && forall k :: k in keys <==> Asked(k, agents, prefixes, q)
    {
      keys := {};
      ghost var before := table;
      for n := 0 to |agents|
        invariant table == Activated(before, keys)
        invariant n > 0 ==>
                    forall i :: 0 <= i < |prefixes| && Wanted(prefixes[i], q.includeIPv6) ==> Storable(prefixes[i])
        invariant forall k :: k in keys <==> Asked(k, agents[..n], prefixes, q)
      {
        ghost var more;
        ok, more := UpsertAgent(agents[n], prefixes, q, before, keys);
        if !ok {
          return false, keys;
        }
        keys := keys + more;
        assert agents[..n + 1] == agents[..n] + [agents[n]];
      }
      assert agents[..|agents|] == agents;
      ok := true;
    }

    /** The active entries in scope, in whatever order the database returns them. */
    method Load(agents: seq<string>, profile: nat) returns (rows: seq<Loaded>)
      ensures Lists(rows, table, set k | k in table && table[k].active && InScope(k, agents, profile))
    {
      var keys := set k | k in table && table[k].active && InScope(k, agents, profile);
      var left := keys;
      rows := [];
      while left != {}
        invariant left <= keys && Lists(rows, table, keys - left)
        decreases left
      {
        var k :| k in left;
        ListsMore(rows, table, keys - left, k);
        assert keys - (left - {k}) == (keys - left) + {k};
        left := left - {k};
        rows := rows + [Loaded(k, table[k])];
      }
      assert keys - left == keys;
    }

    method Save(rows: seq<Loaded>)
      modifies this
      ensures table == Saved(old(table), rows, |rows|)
    {
      for i := 0 to |rows|
        invariant table == Saved(old(table), rows, i)
      {
        table := table[rows[i].key := rows[i].row];
      }
    }

    /** One planning transaction, then one plan per agent. A failing statement rolls everything back. */
    method PlanLeagueTargets(q: Request, prefixes: seq<StoredPrefix>, agents: seq<string>, seed: string, force: bool,
                             stats: Key -> Stats, candidates: string -> Known, now: Time, h: Hashes)
      returns (r: Result<seq<AgentPlan>, PlanError>, ghost keys: set<Key>, ghost traces: seq<P.Trace>,
               ghost rows: seq<Loaded>)
      modifies this
      ensures r == Err(NoAgents) <==> agents == []
      ensures r == Err(BadPrefix) <==>
                && agents != []
                && exists i :: 0 <= i < |prefixes| && prefixes[i].active && (q.includeIPv6 || prefixes[i].version != 6)
                               && (prefixes[i].cidr.parsed.None?
                                   || Masked(prefixes[i].cidr.parsed.value) != prefixes[i].cidr.parsed.value)
      ensures r.Err? ==> table == old(table)
      ensures r.Ok? ==>
                && table == Planned(old(table), keys, agents, q, stats)
                && forall k :: k in keys <==> Asked(k, agents, prefixes, q)
      ensures r.Ok? ==> Lists(rows, table, keys) && |r.value| == |traces| == |agents|
      ensures r.Ok? ==> forall i :: 0 <= i < |agents| ==>
        r.value[i].agent == agents[i]
          && PlansFor(rows, candidates(agents[i]), Options(Some(now), seed + "|" + agents[i], q.targetCount, force),
                      now, h, traces[i], r.value[i])
    {
      keys, traces, rows := {}, [], [];
      if |agents| == 0 {
        return Err(NoAgents), keys, traces, rows;
      }
      var before := table;
      Deactivate(agents, q.profile);
      var ok;
      ok, keys := UpsertAll(agents, prefixes, q);
      if !ok {
        table := before;
        return Err(BadPrefix), keys, traces, rows;
      }
      ActiveAreAsked(before, keys, agents, q.profile);
      var loaded := Load(agents, q.profile);
      var entries := EvaluateAll(loaded, stats, q.th);
      ghost var activated := table;
      Save(entries);
      SavedIsPlanned(before, activated, keys, loaded, entries, agents, q, stats);
      rows := entries;
      var plans;
      plans, traces := PlanAll(entries, agents, seed, q.targetCount, force, candidates, now, h);
      r := Ok(plans);
    }
  }

  function Saved(table: map<Key, Stored>, rows: seq<Loaded>, n: nat): map<Key, Stored>
    requires n <= |rows|
  {
    if n == 0 then table else Saved(table, rows, n - 1)[rows[n - 1].key := rows[n - 1].row]
  }

  /** Each key once, with its row. */
  ghost predicate Lists(rows: seq<Loaded>, table: map<Key, Stored>, keys: set<Key>) {
    && (forall i :: 0 <= i < |rows| ==>
          rows[i].key in keys && rows[i].key in table && rows[i].row == table[rows[i].key])
    && (forall k :: k in keys ==> exists i :: 0 <= i < |rows| && rows[i].key == k)
    && (forall i, j :: 0 <= i < j < |rows| ==> rows[i].key != rows[j].key)
  }

  lemma ListsMore(rows: seq<Loaded>, table: map<Key, Stored>, keys: set<Key>, k: Key)
    requires Lists(rows, table, keys) && k !in keys && k in table
    ensures Lists(rows + [Loaded(k, table[k])], table, keys + {k})
  {
    var more := rows + [Loaded(k, table[k])];
    forall x | x in keys + {k} ensures exists i :: 0 <= i < |more| && more[i].key == x {
      if x == k {
        assert more[|rows|].key == x;
      } else {
        var i :| 0 <= i < |rows| && rows[i].key == x;
        assert more[i].key == x;
      }
    }
  }

  method EvaluateAll(loaded: seq<Loaded>, stats: Key -> Stats, th: Thresholds) returns (entries: seq<Loaded>)
    ensures Evaluated(loaded, entries, stats, th)
  {
    entries := loaded;
    for index := 0 to |entries|
      invariant |entries| == |loaded|
      invariant forall i :: index <= i < |entries| ==> entries[i] == loaded[i]
      invariant forall i :: 0 <= i < index ==>
                  entries[i] == Loaded(loaded[i].key, Judge(loaded[i].row, stats(loaded[i].key), th))
    {
      var e := entries[index];
      entries := entries[index := e.(row := Judge(e.row, stats(e.key), th))];
    }
  }

  lemma {:induction false} SavedAt(table: map<Key, Stored>, rows: seq<Loaded>, n: nat, k: Key)
    requires n <= |rows| && forall i, j :: 0 <= i < j < |rows| ==> rows[i].key != rows[j].key
    ensures forall i :: 0 <= i < n && rows[i].key == k ==>
              k in Saved(table, rows, n) && Saved(table, rows, n)[k] == rows[i].row
    ensures (forall i :: 0 <= i < n ==> rows[i].key != k) ==>
              (k in Saved(table, rows, n) <==> k in table) && (k in table ==> Saved(table, rows, n)[k] == table[k])
  {
    if n == 0 {
    } else {
      SavedAt(table, rows, n - 1, k);
    }
  }

  /** After deactivating and upserting, the active entries in scope are exactly those asked for. */
  lemma ActiveAreAsked(table: map<Key, Stored>, keys: set<Key>, agents: seq<string>, profile: nat)
    requires forall k :: k in keys ==> InScope(k, agents, profile)
    ensures var t := Activated(Deactivated(table, agents, profile), keys);
            (set k | k in t && t[k].active && InScope(k, agents, profile)) == keys
  {
  }

  ghost predicate Evaluated(loaded: seq<Loaded>, entries: seq<Loaded>, stats: Key -> Stats, th: Thresholds) {
    && |entries| == |loaded|
    && forall i :: 0 <= i < |entries| ==>
         entries[i] == Loaded(loaded[i].key, Judge(loaded[i].row, stats(loaded[i].key), th))
  }

  lemma EvaluatedKeys(loaded: seq<Loaded>, entries: seq<Loaded>, table: map<Key, Stored>, keys: set<Key>,
                      stats: Key -> Stats, th: Thresholds)
    requires Lists(loaded, table, keys) && Evaluated(loaded, entries, stats, th)
    ensures forall i, j :: 0 <= i < j < |entries| ==> entries[i].key != entries[j].key
    ensures forall k :: k in keys ==> exists i :: 0 <= i < |entries| && entries[i].key == k
  {
    forall k | k in keys ensures exists i :: 0 <= i < |entries| && entries[i].key == k {
      var i :| 0 <= i < |loaded| && loaded[i].key == k;
      assert entries[i].key == k;
    }
  }

  lemma SavedIsPlanned(table: map<Key, Stored>, activated: map<Key, Stored>, keys: set<Key>, loaded: seq<Loaded>,
                       entries: seq<Loaded>,
                       agents: seq<string>, q: Request, stats: Key -> Stats)
    requires activated == Activated(Deactivated(table, agents, q.profile), keys) && Lists(loaded, activated, keys)
    requires Evaluated(loaded, entries, stats, q.th)
    ensures Saved(activated, entries, |entries|) == Planned(table, keys, agents, q, stats)
    ensures Lists(entries, Saved(activated, entries, |entries|), keys)
  {
    EvaluatedKeys(loaded, entries, activated, keys, stats, q.th);
    SavedRows(activated, keys, loaded, entries, stats, q.th);
    assert Saved(activated, entries, |entries|) == Planned(table, keys, agents, q, stats);
    forall i | 0 <= i < |entries|
      ensures entries[i].key in Saved(activated, entries, |entries|)
              && entries[i].row == Saved(activated, entries, |entries|)[entries[i].key]
    {
      SavedAt(activated, entries, |entries|, entries[i].key);
    }
  }

  lemma SavedRows(activated: map<Key, Stored>, keys: set<Key>, loaded: seq<Loaded>, entries: seq<Loaded>,
                  stats: Key -> Stats, th: Thresholds)
    requires Lists(loaded, activated, keys) && Evaluated(loaded, entries, stats, th)
    ensures Saved(activated, entries, |entries|) == map k | k in activated ::
              if k in keys then Judge(activated[k], stats(k), th) else activated[k]
  {
    EvaluatedKeys(loaded, entries, activated, keys, stats, th);
    var saved := Saved(activated, entries, |entries|);
    forall k
      ensures k in saved <==> k in activated
      ensures k in activated ==> saved[k] == if k in keys then Judge(activated[k], stats(k), th) else activated[k]
    {
      SavedAt(activated, entries, |entries|, k);
    }
  }

  // ---- Plans per agent ------------------------------------------------------------------

  datatype AgentPlan = AgentPlan(agent: string, targets: seq<Target>)

  function EntryOf(x: Loaded): Entry {
    Entry(x.key.agent, CidrString(x.key.prefix), x.row.active, x.row.tier, x.row.lastScheduledAt)
  }

  /** The entries of one agent among the first `n`, in load order. */
  function EntriesOf(rows: seq<Loaded>, n: nat, agent: string): seq<Entry>
    requires n <= |rows|
  {
    if n == 0 then []
    else
      var before := EntriesOf(rows, n - 1, agent);
      if rows[n - 1].key.agent == agent then before + [EntryOf(rows[n - 1])] else before
  }

  ghost predicate PlansFor(rows: seq<Loaded>, candidates: Known, o: Options, now: Time, h: Hashes, t: P.Trace,
                           plan: AgentPlan)
  {
    P.IsPlan(EntriesOf(rows, |rows|, plan.agent), candidates, o, now, h, t, plan.targets)
  }

  function Group(m: map<string, seq<Entry>>, agent: string): seq<Entry> {
    if agent in m then m[agent] else []
  }

  method GroupByAgent(rows: seq<Loaded>) returns (m: map<string, seq<Entry>>)
    ensures forall a :: Group(m, a) == EntriesOf(rows, |rows|, a)
  {
    m := map[];
    for i := 0 to |rows|
      invariant forall a :: Group(m, a) == EntriesOf(rows, i, a)
    {
      var agent := rows[i].key.agent;
      m := m[agent := Group(m, agent) + [EntryOf(rows[i])]];
    }
  }

  method PlanAll(rows: seq<Loaded>, agents: seq<string>, seed: string, budget: int, force: bool,
                 candidates: string -> Known, now: Time, h: Hashes)
    returns (plans: seq<AgentPlan>, ghost traces: seq<P.Trace>)
    ensures |plans| == |traces| == |agents|
    ensures forall i :: 0 <= i < |agents| ==>
      plans[i].agent == agents[i]
        && PlansFor(rows, candidates(agents[i]), Options(Some(now), seed + "|" + agents[i], budget, force), now, h,
                    traces[i], plans[i])
  {
    var byAgent := GroupByAgent(rows);
    plans, traces := [], [];
    for n := 0 to |agents|
      invariant |plans| == |traces| == n
      invariant forall i :: 0 <= i < n ==>
        plans[i].agent == agents[i]
          && PlansFor(rows, candidates(agents[i]), Options(Some(now), seed + "|" + agents[i], budget, force), now, h,
                      traces[i], plans[i])
    {
      var agent := agents[n];
      var items;
      ghost var t;
      items, t := P.PlanAgent(Group(byAgent, agent), candidates(agent),
                              Options(Some(now), seed + "|" + agent, budget, force), now, h);
      plans := plans + [AgentPlan(agent, items)];
      traces := traces + [t];
    }
  }

  // ---- What a planning request guarantees -----------------------------------------------

  /** Within the request's agents and profile an entry is active afterwards exactly if it was asked for;
      all other entries, and the history of deactivated ones, are untouched. */
  lemma ActiveIffAsked(table: map<Key, Stored>, keys: set<Key>, agents: seq<string>, q: Request, stats: Key -> Stats,
                       k: Key)
    requires forall x :: x in keys ==> InScope(x, agents, q.profile)
    ensures var t := Planned(table, keys, agents, q, stats);
            && (k in t <==> k in table || k in keys)
            && (InScope(k, agents, q.profile) && k in t ==> (t[k].active <==> k in keys))
            && (!InScope(k, agents, q.profile) && k in table ==> t[k] == table[k])
            && (k in keys ==> t[k].stats == stats(k)
                              && t[k].lastScheduledAt == if k in table then table[k].lastScheduledAt else None)
            && (k in table && k !in keys ==>
                  t[k].tier == table[k].tier && t[k].badStreak == table[k].badStreak
                    && t[k].lastEvaluatedAt == table[k].lastEvaluatedAt)
  {
  }

  /** The keys a request is about: each of its agents with each masked prefix of an active row, of version 6
      only if those are included. */
  lemma AskedRows(k: Key, agents: seq<string>, prefixes: seq<StoredPrefix>, q: Request)
    ensures Asked(k, agents, prefixes, q) <==>
              && k.agent in agents && k.profile == q.profile
              && exists i :: 0 <= i < |prefixes| && prefixes[i].active && (q.includeIPv6 || prefixes[i].version != 6)
                             && prefixes[i].cidr.parsed.Some? && Masked(prefixes[i].cidr.parsed.value) == k.prefix
  {
    if i :| 0 <= i < |prefixes| && Offers(prefixes[i], q.includeIPv6, k.prefix) {
      assert prefixes[i].active && prefixes[i].cidr.parsed.Some?;
    }
    if i :| 0 <= i < |prefixes| && prefixes[i].active && (q.includeIPv6 || prefixes[i].version != 6)
            && prefixes[i].cidr.parsed.Some? && Masked(prefixes[i].cidr.parsed.value) == k.prefix {
      assert Offers(prefixes[i], q.includeIPv6, k.prefix);
    }
  }

  /** Planning again, for whatever thresholds and windows, moves no tier and no streak of an entry without a
      newer result. */
  lemma ReplanningMovesNothing(table: map<Key, Stored>, keys: set<Key>, agents: seq<string>, q: Request,
                               stats: Key -> Stats,
                               keys': set<Key>, agents': seq<string>, q': Request, stats': Key -> Stats, k: Key)
    requires k in keys && stats(k).lastResultAt == stats'(k).lastResultAt
    ensures var once := Planned(table, keys, agents, q, stats);
            var twice := Planned(once, keys', agents', q', stats');
            k in once && k in twice && twice[k].tier == once[k].tier && twice[k].badStreak == once[k].badStreak
            && twice[k].lastEvaluatedAt == once[k].lastEvaluatedAt
  {
    var once := Planned(table, keys, agents, q, stats);
    var row := Activated(Deactivated(table, agents, q.profile), keys)[k];
    JudgeTwice(row, stats(k), q.th, stats'(k), q'.th);
  }

  lemma JudgeTwice(row: Stored, stats: Stats, th: Thresholds, stats': Stats, th': Thresholds)
    requires stats.lastResultAt == stats'.lastResultAt
    ensures var once := Judge(row, stats, th);
            forall active :: var twice := Judge(once.(active := active), stats', th');
              twice.tier == once.tier && twice.badStreak == once.badStreak
                && twice.lastEvaluatedAt == once.lastEvaluatedAt
  {
  }

  lemma {:induction false} EntriesFrom(rows: seq<Loaded>, n: nat, agent: string, k: nat) returns (i: nat)
    requires n <= |rows| && k < |EntriesOf(rows, n, agent)|
    ensures i < n && rows[i].key.agent == agent && EntriesOf(rows, n, agent)[k] == EntryOf(rows[i])
  {
    if k < |EntriesOf(rows, n - 1, agent)| { i := EntriesFrom(rows, n - 1, agent, k); } else { i := n - 1; }
  }

  /** Keys of one request, and only with blocks the column can hold. */
  ghost predicate OneRequest(rows: seq<Loaded>, profile: nat) {
    && (forall i :: 0 <= i < |rows| ==> rows[i].key.profile == profile && IsMasked(rows[i].key.prefix))
    && (forall i, j :: 0 <= i < j < |rows| ==> rows[i].key != rows[j].key)
  }

  lemma AskedIsOneRequest(rows: seq<Loaded>, table: map<Key, Stored>, keys: set<Key>, agents: seq<string>,
                          prefixes: seq<StoredPrefix>, q: Request)
    requires Lists(rows, table, keys) && forall k :: k in keys <==> Asked(k, agents, prefixes, q)
    ensures OneRequest(rows, q.profile)
  {
    forall i | 0 <= i < |rows| ensures rows[i].key.profile == q.profile && IsMasked(rows[i].key.prefix) {
      assert Asked(rows[i].key, agents, prefixes, q);
      var j :| 0 <= j < |prefixes| && Offers(prefixes[j], q.includeIPv6, rows[i].key.prefix);
      MaskedIsMasked(prefixes[j].cidr.parsed.value);
    }
  }

  /** One agent's entries have distinct blocks. */
  lemma {:induction false} EntriesDistinct(rows: seq<Loaded>, n: nat, profile: nat, agent: string)
    requires OneRequest(rows, profile) && n <= |rows|
    ensures DistinctBlocks(EntriesOf(rows, n, agent))
  {
    if n == 0 {
    } else {
      EntriesDistinct(rows, n - 1, profile, agent);
      var before, after := EntriesOf(rows, n - 1, agent), EntriesOf(rows, n, agent);
      forall i: nat, k: nat | i < k < |after| ensures !SameBlock(after, i, k) {
        if k < |before| {
          assert !SameBlock(before, i, k);
        } else {
          var r := EntriesFrom(rows, n - 1, agent, i);
          assert rows[r].key != rows[n - 1].key;
        }
      }
    }
  }

  lemma {:induction false} DueFrom(entries: seq<Entry>, n: nat, now: Time, force: bool, k: nat) returns (i: nat)
    requires n <= |entries| && k < |P.DueEntries(entries, n, now, force)|
    ensures i < n && P.DueEntries(entries, n, now, force)[k] == entries[i]
  {
    if k < |P.DueEntries(entries, n - 1, now, force)| {
      i := DueFrom(entries, n - 1, now, force, k);
    } else {
      i := n - 1;
    }
  }

  lemma {:induction false} DueDistinct(entries: seq<Entry>, n: nat, now: Time, force: bool)
    requires n <= |entries| && DistinctBlocks(entries)
    ensures DistinctBlocks(P.DueEntries(entries, n, now, force))
  {
    if n == 0 {
    } else {
      DueDistinct(entries, n - 1, now, force);
      var before, after := P.DueEntries(entries, n - 1, now, force), P.DueEntries(entries, n, now, force);
      forall i: nat, k: nat | i < k < |after| ensures !SameBlock(after, i, k) {
        if k < |before| {
          assert !SameBlock(before, i, k);
        } else {
          var r := DueFrom(entries, n - 1, now, force, i);
          assert !SameBlock(entries, r, n - 1);
        }
      }
    }
  }

  lemma {:induction false} EntriesHold(rows: seq<Loaded>, n: nat, i: nat)
    requires i < n <= |rows|
    ensures EntryOf(rows[i]) in EntriesOf(rows, n, rows[i].key.agent)
  {
    if i == n - 1 {
    } else {
      EntriesHold(rows, n - 1, i);
    }
  }

  /** A prefix asked for is served in its agent's plan exactly if the request is forced, the prefix was never
      scheduled, or its tier's hour, six hours or day have passed; so a newly added one always is. */
  lemma AskedIsServedWhenDue(rows: seq<Loaded>, table: map<Key, Stored>, keys: set<Key>, candidates: Known, o: Options,
                             now: Time, h: Hashes, t: P.Trace, plan: AgentPlan, k: Key)
    requires Lists(rows, table, keys) && PlansFor(rows, candidates, o, now, h, t, plan)
    requires k in keys && k.agent == plan.agent && table[k].active
    ensures var row := table[k];
            var wait := if row.tier.Champion? then 3_600_000_000 else if row.tier.Challenger? then 21_600_000_000
                        else 86_400_000_000;
            Entry(k.agent, CidrString(k.prefix), true, row.tier, row.lastScheduledAt) in t.order
            <==> o.force || row.lastScheduledAt.None?
                 || row.lastScheduledAt.value + wait <= (if o.now.Some? then o.now.value else now)
  {
    var i :| 0 <= i < |rows| && rows[i].key == k;
    var entries := EntriesOf(rows, |rows|, plan.agent);
    EntriesHold(rows, |rows|, i);
    P.ServesExactlyTheDue(entries, candidates, o, now, h, t, plan.targets, EntryOf(rows[i]));
    assert multiset(entries)[EntryOf(rows[i])] > 0;
  }

  /** Stored prefixes always parse, so the store's plans serve the narrowest prefixes first. */
  lemma StoredPlansServeNarrowestFirst(rows: seq<Loaded>, candidates: Known, o: Options,
                                                          now: Time, h: Hashes, t: P.Trace, plan: AgentPlan)
    requires PlansFor(rows, candidates, o, now, h, t, plan)
    ensures AllParse(t.order) && NarrowestFirst(t.order, o.seed, h)
    ensures forall k: nat, ip | k < |t.order| && ip in QueuesOf(t.order, k, candidates, o.seed, h).seen ::
              TakenByNarrower(ip, t.order, k, t.order[k].cidr.parsed.value.bits)
  {
    var entries := EntriesOf(rows, |rows|, plan.agent);
    var due := P.DueEntries(entries, |entries|, t.now, o.force);
    forall e | e in due ensures e.cidr.parsed.Some? {
      var k :| 0 <= k < |due| && due[k] == e;
      var i := DueFrom(entries, |entries|, t.now, o.force, k);
      var r := EntriesFrom(rows, |rows|, plan.agent, i);
    }
    P.ServedNarrowestFirst(entries, candidates, o, now, h, t, plan.targets);
  }

  /** The quotas hold for every plan the store makes: its keys keep the prefixes of an agent distinct. */
  lemma StoredPlansKeepQuotas(rows: seq<Loaded>, table: map<Key, Stored>, keys: set<Key>, agents: seq<string>,
                              prefixes: seq<StoredPrefix>, q: Request,
                              candidates: Known, o: Options, now: Time, h: Hashes, t: P.Trace, plan: AgentPlan,
                              e: Entry)
    requires Lists(rows, table, keys) && forall k :: k in keys <==> Asked(k, agents, prefixes, q)
    requires PlansFor(rows, candidates, o, now, h, t, plan) && e in t.order && e.cidr.parsed.Some?
    ensures var mine := P.TargetsFor(plan.targets, CidrString(Masked(e.cidr.parsed.value)));
            |mine| <= Samples(e.tier) && |set x | x in mine && !Generated(x, e, o.seed, h)| <= Anchors(e.tier)
  {
    var entries := EntriesOf(rows, |rows|, plan.agent);
    AskedIsOneRequest(rows, table, keys, agents, prefixes, q);
    EntriesDistinct(rows, |rows|, q.profile, plan.agent);
    DueDistinct(entries, |entries|, t.now, o.force);
    P.QuotaPerPrefix(entries, candidates, o, now, h, t, plan.targets, e);
  }
}
