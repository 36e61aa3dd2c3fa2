/** Planning requests one after another: every stored entry lives through a history of evaluations. */
module LeagueStoreRuns {
  import opened Wrappers
  import opened League
  import opened LeagueStore
  import R = LeagueRuns

  /** One successful request: the keys it asked for and the aggregates it read. */
  datatype Planning = Planning(keys: set<Key>, agents: seq<string>, q: Request, stats: Key -> Stats)

  ghost predicate IsRun(tables: seq<map<Key, Stored>>, ps: seq<Planning>) {
    && |tables| == |ps| + 1 && tables[0] == map[]
    && forall i :: 0 <= i < |ps| ==>
         tables[i + 1] == Planned(tables[i], ps[i].keys, ps[i].agents, ps[i].q, ps[i].stats)
  }

  /** What a request reads about an entry; nothing new when it does not ask for it. */
  function ReadingOf(p: Planning, k: Key): R.Reading {
    var s := p.stats(k);
    R.Reading(s.week, s.distinctIps, s.day, if k in p.keys then s.lastResultAt else None, p.q.th)
  }

  function Readings(ps: seq<Planning>, k: Key): (r: seq<R.Reading>)
    ensures |r| == |ps| && forall i :: 0 <= i < |r| ==> r[i] == ReadingOf(ps[i], k)
  {
    seq(|ps|, i requires 0 <= i < |ps| => ReadingOf(ps[i], k))
  }

  /** A new entry is an observation without history. */
  const NEW := Standing(Observation, 0, Window(0, 0.0, 0.0, 0.0), 0, Window(0, 0.0, 0.0, 0.0), None, None)

  /** The stored row, or the row a missing entry would start from, is in this standing. */
  predicate InStanding(table: map<Key, Stored>, k: Key, e: Standing) {
    && e.tier != NO_TIER
    && (k in table ==>
          table[k].tier == e.tier && table[k].badStreak == e.badStreak && table[k].lastEvaluatedAt == e.lastEvaluatedAt)
    && (k !in table ==> e.tier == NEW.tier && e.badStreak == NEW.badStreak && e.lastEvaluatedAt == NEW.lastEvaluatedAt)
  }

  lemma PlanningEvaluates(table: map<Key, Stored>, p: Planning, k: Key, e: Standing)
    requires InStanding(table, k, e)
    ensures InStanding(Planned(table, p.keys, p.agents, p.q, p.stats), k,
                       Evaluate(R.Loaded(e, ReadingOf(p, k)), p.q.th))
  {
  }

  /** Over any run of requests an entry goes through a history of evaluations, one for each request, by the
      aggregates and thresholds of that request if it asked for the entry, and without news if it did not. So
      everything proved about histories holds of the stored tiers and streaks. */
  lemma {:induction false} StoredEntriesAreHistories(tables: seq<map<Key, Stored>>, ps: seq<Planning>, k: Key)
    returns (entries: seq<Standing>)
    requires IsRun(tables, ps)
    ensures R.IsHistory(entries, Readings(ps, k))
    ensures forall i :: 0 <= i < |tables| ==> InStanding(tables[i], k, entries[i])
  {
    if ps == [] {
      entries := [NEW];
    } else {
      var n := |ps| - 1;
      var before := StoredEntriesAreHistories(tables[..n + 1], ps[..n], k);
      entries := OneMoreRequest(tables, ps, n, k, before);
    }
  }

  lemma OneMoreRequest(tables: seq<map<Key, Stored>>, ps: seq<Planning>, n: nat, k: Key, before: seq<Standing>)
    returns (entries: seq<Standing>)
    requires IsRun(tables, ps) && |ps| == n + 1 && R.IsHistory(before, Readings(ps[..n], k))
    requires forall i :: 0 <= i <= n ==> InStanding(tables[..n + 1][i], k, before[i])
    ensures R.IsHistory(entries, Readings(ps, k))
    ensures forall i :: 0 <= i < |tables| ==> InStanding(tables[i], k, entries[i])
  {
    var next := Evaluate(R.Loaded(before[n], ReadingOf(ps[n], k)), ps[n].q.th);
    entries := before + [next];
    PlanningEvaluates(tables[n], ps[n], k, before[n]);
    ExtendHistory(before, Readings(ps[..n], k), Readings(ps, k), next);
  }

  lemma ExtendHistory(before: seq<Standing>, readings: seq<R.Reading>, more: seq<R.Reading>, next: Standing)
    requires R.IsHistory(before, readings) && |more| == |readings| + 1 && more[..|readings|] == readings
    requires next == Evaluate(R.Loaded(before[|readings|], more[|readings|]), more[|readings|].th)
    ensures R.IsHistory(before + [next], more)
  {
    forall i | 0 <= i < |readings| ensures more[i] == readings[i] {
      assert more[..|readings|][i] == readings[i];
    }
  }
}
