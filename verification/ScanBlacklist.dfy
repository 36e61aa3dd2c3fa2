/** The blacklist table is maintained one result at a time; here it is compared with the complete log of
    accepted results and rechecks. */
module ScanBlacklist {
  import opened Wrappers
  import opened ScanState
  import opened ScanInvariants
  import opened ScanRuns

  /** What the log keeps of an accepted result, with the thresholds it was judged by, and of a recheck. */
  datatype Note =
    | Judged(key: Key, probe: Probe, maxLatency: real, maxLoss: real, at: Time, minutes: int)
    | Postponed(key: Key, at: Time, minutes: int)

  predicate IsBad(n: Note)
    requires n.Judged?
  {
    !n.probe.available || n.probe.loss > n.maxLoss || n.probe.latency > n.maxLatency
  }

  /** The text stored for a bad result: an unreachable target comes before loss, loss before latency. */
  predicate Explains(reason: string, n: Note)
    requires n.Judged?
  {
    && (!n.probe.available && n.probe.errorCode != "" ==> reason == n.probe.errorCode)
    && (!n.probe.available && n.probe.errorCode == "" ==> reason == "UNAVAILABLE")
    && (n.probe.available && n.probe.loss > n.maxLoss ==> reason == "HIGH_PACKET_LOSS")
    && (n.probe.available && n.probe.loss <= n.maxLoss && n.probe.latency > n.maxLatency ==> reason == "HIGH_LATENCY")
  }

  function NoteOf(agent: AgentId, job: Job, p: Probe, now: Time): Note {
    Judged(Key(agent, p.ip), p, job.maxLatency, job.maxLoss, now, job.blacklistMinutes)
  }

  function ResultNotes(agent: AgentId, job: Job, ps: seq<Probe>, now: Time): (r: seq<Note>)
    ensures |r| == |ps|
    ensures forall i :: 0 <= i < |ps| ==> r[i] == NoteOf(agent, job, ps[i], now)
  {
    seq(|ps|, i requires 0 <= i < |ps| => NoteOf(agent, job, ps[i], now))
  }

  function RecheckNotes(agent: AgentId, ips: seq<Ip>, now: Time, minutes: int): (r: seq<Note>)
    ensures |r| == |ips|
    ensures forall i :: 0 <= i < |ips| ==> r[i] == Postponed(Key(agent, ips[i]), now, minutes)
  {
    seq(|ips|, i requires 0 <= i < |ips| => Postponed(Key(agent, ips[i]), now, minutes))
  }

  ghost function NotesBy(s: State, e: Event): seq<Note> {
    match e
    case Submit(agent, j, ps) =>
      if Outcome(s, agent, j, ps).Accepted? then ResultNotes(agent, s.jobs[j], ps, s.now) else []
    case Recheck(_, agent, ips, limits) => RecheckNotes(agent, ips, s.now, limits.blacklistMinutes)
    case _ => []
  }

  /** All results accepted and all rechecks made by the first `n` transactions, in order. */
  ghost function Log(states: seq<State>, events: seq<Event>, n: nat): seq<Note>
    requires n <= |events| && |states| == |events| + 1
  {
    if n == 0 then [] else Log(states, events, n - 1) + NotesBy(states[n - 1], events[n - 1])
  }

  function NotesFor(log: seq<Note>, key: Key): (r: seq<Note>)
    ensures forall i :: 0 <= i < |r| ==> r[i].key == key
  {
    if log == [] then []
    else
      var last := log[|log| - 1];
      NotesFor(log[..|log| - 1], key) + if last.key == key then [last] else []
  }

  /** The results among the notes. */
  function Results(notes: seq<Note>): (r: seq<Note>)
    ensures forall i :: 0 <= i < |r| ==> r[i].Judged?
    ensures |r| <= |notes|
  {
    if notes == [] then []
    else
      var last := notes[|notes| - 1];
      Results(notes[..|notes| - 1]) + if last.Judged? then [last] else []
  }

  /** Length of the run of bad results at the end. */
  ghost predicate TrailingBad(results: seq<Note>, n: nat)
    requires forall i :: 0 <= i < |results| ==> results[i].Judged?
  {
    && n <= |results|
    && (forall i :: |results| - n <= i < |results| ==> IsBad(results[i]))
    && (n < |results| ==> !IsBad(results[|results| - n - 1]))
  }

  /** The table is exactly what the log implies. An entry exists iff the last result was bad. It explains that
      result, was blocked when it came, and counts the trailing run of bad results. It may be tried again the
      stated minutes after the last note, be that the result or a later recheck. */
  ghost predicate Reflects(list: map<Key, Entry>, log: seq<Note>) {
    forall key: Key :: ReflectsKey(list, NotesFor(log, key), key)
  }

  ghost predicate ReflectsKey(list: map<Key, Entry>, notes: seq<Note>, key: Key) {
    var results := Results(notes);
    && (key in list <==> results != [] && IsBad(results[|results| - 1]))
    && (key in list ==>
          var entry, bad, last := list[key], results[|results| - 1], notes[|notes| - 1];
          && Explains(entry.reason, bad) && entry.blockedAt == bad.at
          && entry.retryAfter == last.at + 60_000_000 * last.minutes
          && TrailingBad(results, entry.failures))
  }

  /** An empty reason is a good result. */
  lemma ReasonExplains(p: Probe, job: Job, agent: AgentId, now: Time)
    ensures Reason(p, job) != "" <==> IsBad(NoteOf(agent, job, p, now))
    ensures Explains(Reason(p, job), NoteOf(agent, job, p, now))
  {
  }

  lemma AddNote(log: seq<Note>, n: Note, key: Key)
    ensures NotesFor(log + [n], key) == if n.key == key then NotesFor(log, key) + [n] else NotesFor(log, key)
  {
    assert (log + [n])[..|log|] == log;
  }

  lemma AddResult(notes: seq<Note>, n: Note)
    ensures Results(notes + [n]) == if n.Judged? then Results(notes) + [n] else Results(notes)
  {
    assert (notes + [n])[..|notes|] == notes;
  }

  /** One more bad result lengthens the trailing run, or starts one. */
  lemma TrailingMore(results: seq<Note>, n: Note, run: nat)
    requires (forall i :: 0 <= i < |results| ==> results[i].Judged?) && n.Judged? && IsBad(n)
    requires if results == [] || !IsBad(results[|results| - 1]) then run == 0 else TrailingBad(results, run)
    ensures TrailingBad(results + [n], run + 1)
  {
  }

  lemma JudgedKey(list: map<Key, Entry>, notes: seq<Note>, agent: AgentId, job: Job, p: Probe, now: Time)
    requires ReflectsKey(list, notes, Key(agent, p.ip))
    ensures ReflectsKey(UpdateBlacklist(list, Key(agent, p.ip), Reason(p, job), now, job.blacklistMinutes),
                        notes + [NoteOf(agent, job, p, now)], Key(agent, p.ip))
  {
    var n, key := NoteOf(agent, job, p, now), Key(agent, p.ip);
    ReasonExplains(p, job, agent, now);
    AddResult(notes, n);
    if IsBad(n) {
      TrailingMore(Results(notes), n, if key in list then list[key].failures else 0);
    }
  }

  lemma UpdateReflects(list: map<Key, Entry>, log: seq<Note>, agent: AgentId, job: Job, p: Probe, now: Time)
    requires Reflects(list, log)
    ensures Reflects(UpdateBlacklist(list, Key(agent, p.ip), Reason(p, job), now, job.blacklistMinutes),
                     log + [NoteOf(agent, job, p, now)])
  {
    var n := NoteOf(agent, job, p, now);
    var updated := UpdateBlacklist(list, n.key, Reason(p, job), now, job.blacklistMinutes);
    forall key: Key ensures ReflectsKey(updated, NotesFor(log + [n], key), key) {
      AddNote(log, n, key);
      var notes := NotesFor(log, key);
      assert ReflectsKey(list, notes, key);
      if key == n.key {
        JudgedKey(list, notes, agent, job, p, now);
      } else {
        OtherKey(list, updated, notes, key);
      }
    }
  }

  lemma OtherKey(list: map<Key, Entry>, updated: map<Key, Entry>, notes: seq<Note>, key: Key)
    requires ReflectsKey(list, notes, key)
    requires (key in updated <==> key in list) && (key in list && key in updated ==> updated[key] == list[key])
    ensures ReflectsKey(updated, notes, key)
  {
  }

  lemma PostponedKey(list: map<Key, Entry>, notes: seq<Note>, n: Note, updated: map<Key, Entry>)
    requires ReflectsKey(list, notes, n.key) && n.Postponed?
    requires n.key in updated <==> n.key in list
    requires n.key in list && n.key in updated ==>
               updated[n.key] == list[n.key].(retryAfter := n.at + 60_000_000 * n.minutes)
    ensures ReflectsKey(updated, notes + [n], n.key)
  {
    AddResult(notes, n);
  }

  lemma PostponeReflects(s: State, log: seq<Note>, n: Note)
    requires Reflects(s.blacklist, log) && n.Postponed?
    ensures Reflects(Postpone(s, n.key, n.at + n.minutes * MINUTE).blacklist, log + [n])
  {
    var updated := Postpone(s, n.key, n.at + n.minutes * MINUTE).blacklist;
    forall key: Key ensures ReflectsKey(updated, NotesFor(log + [n], key), key) {
      AddNote(log, n, key);
      assert ReflectsKey(s.blacklist, NotesFor(log, key), key);
      if key == n.key {
        PostponedKey(s.blacklist, NotesFor(log, key), n, updated);
      } else {
        OtherKey(s.blacklist, updated, NotesFor(log, key), key);
      }
    }
  }

  lemma {:induction false} AbsorbAllReflects(s: State, agent: AgentId, j: JobId, ps: seq<Probe>, log: seq<Note>)
    requires j in s.jobs && ResultRows(s) && Acceptable(s, agent, j, ps) && Reflects(s.blacklist, log)
    ensures Reflects(AbsorbAll(s, agent, j, ps).blacklist, log + ResultNotes(agent, s.jobs[j], ps, s.now))
  {
    var job := s.jobs[j];
    var notes := ResultNotes(agent, job, ps, s.now);
    if ps == [] {
      assert log + notes == log;
    } else {
      var front, p := ps[..|ps| - 1], ps[|ps| - 1];
      AbsorbAllReflects(s, agent, j, front, log);
      AbsorbAllMeaning(s, agent, j, front);
      assert Takes(s, agent, j, p);
      var b := AbsorbAll(s, agent, j, front);
      var head := log + ResultNotes(agent, job, front, s.now);
      assert head + [NoteOf(agent, job, p, s.now)] == log + notes;
      UpdateReflects(b.blacklist, head, agent, job, p, s.now);
    }
  }

  lemma {:induction false} RechecksReflect(s: State, j: JobId, agent: AgentId, ips: seq<Ip>, minutes: int,
                                           log: seq<Note>)
    requires Reflects(s.blacklist, log)
    ensures Reflects(InsertRechecks(s, j, agent, ips, s.now + minutes * MINUTE).blacklist,
                     log + RecheckNotes(agent, ips, s.now, minutes))
  {
    var notes := RecheckNotes(agent, ips, s.now, minutes);
    if ips == [] {
      assert log + notes == log;
    } else {
      var front, ip := ips[..|ips| - 1], ips[|ips| - 1];
      RechecksReflect(s, j, agent, front, minutes, log);
      var b := InsertRechecks(s, j, agent, front, s.now + minutes * MINUTE);
      var head := log + RecheckNotes(agent, front, s.now, minutes);
      assert head + [Postponed(Key(agent, ip), s.now, minutes)] == log + notes;
      PostponeReflects(InsertTask(b, j, agent, ip, ""), head, Postponed(Key(agent, ip), s.now, minutes));
    }
  }

  lemma StepReflects(s: State, e: Event, log: seq<Note>)
    requires Inv(s) && Enabled(s, e) && Reflects(s.blacklist, log)
    ensures Reflects(Post(s, e).blacklist, log + NotesBy(s, e))
  {
    if NotesBy(s, e) == [] { assert log + NotesBy(s, e) == log; }
    match e
    case Create(j, limits, sets, inc) => if Creates(s, j, sets, inc) { InsertSetsFills(s, j, sets, inc); }
    case Recheck(j, agent, ips, limits) => RechecksReflect(s, j, agent, ips, limits.blacklistMinutes, log);
    case Submit(agent, j, ps) => if Outcome(s, agent, j, ps).Accepted? { AbsorbAllReflects(s, agent, j, ps, log); }
    case _ =>
  }

  /** In every reachable state the incremental table refines the log of accepted results and rechecks. */
  lemma {:induction false} BlacklistRefinesLog(states: seq<State>, events: seq<Event>, n: nat)
    requires IsRun(states, events) && n <= |events|
    ensures Reflects(states[n].blacklist, Log(states, events, n))
  {
    if n == 0 {
    } else {
      BlacklistRefinesLog(states, events, n - 1);
      InvAlways(states, events, n - 1);
      StepReflects(states[n - 1], events[n - 1], Log(states, events, n - 1));
    }
  }

  /** The trailing run has one length, so `failure_count` is determined by the log. */
  lemma TrailingBadUnique(results: seq<Note>, m: nat, n: nat)
    requires forall i :: 0 <= i < |results| ==> results[i].Judged?
    requires TrailingBad(results, m) && TrailingBad(results, n)
    ensures m == n
  {
    assert m < |results| ==> !IsBad(results[|results| - m - 1]);
    assert n < |results| ==> !IsBad(results[|results| - n - 1]);
  }
}
