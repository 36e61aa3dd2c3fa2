/** The agent's waiting loop: one credential, resent until the center gives a final answer. */
module EnrollmentClient {
  import opened Wrappers
  import opened Enrollment
  import opened EnrollmentRuns
  import opened EnrollmentStore

  /** The request the client keeps sending. */
  datatype Request = Request(token: Token, cred: CredentialId, secret: Secret, software: Software)

  datatype Delivery = RequestLost | ReplyLost | Delivered

  /** One round: what else happens at the center first, how the request fares, and whether the client is
      told to stop while it waits. */
  datatype Turn = Turn(others: seq<Event>, delivery: Delivery, clock: Time, stop: bool)

  datatype End = Accepted(row: Row) | Refused(error: Error) | Cancelled | StillWaiting

  /** The answers after which asking again is pointless. */
  predicate Final(e: Error) {
    e.WasRejected? || e.HasExpired? || e.WasRevoked? || e.AlreadyClaimed? || e.Conflict? || e.NotFound?
  }

  function Others(db: Db, es: seq<Event>, n: nat): Db
    requires n <= |es|
  {
    if n == 0 then db else Apply(Others(db, es, n - 1), es[n - 1]).0
  }

  function Ask(db: Db, me: Request, clock: Time): Outcome {
    Claim(db, me.token, me.cred, me.secret, me.software, clock)
  }

  /** The center after a round. */
  function AfterTurn(db: Db, me: Request, turn: Turn): Db {
    var d := Others(db, turn.others, |turn.others|);
    if turn.delivery.RequestLost? then d else Ask(d, me, turn.clock).0
  }

  /** What the client hears in a round. */
  function Heard(db: Db, me: Request, turn: Turn): Option<Result<Row, Error>> {
    var d := Others(db, turn.others, |turn.others|);
    if turn.delivery.Delivered? then Some(Ask(d, me, turn.clock).1) else None
  }

  /** The whole exchange from round `k`: the center, how it ends, and the last polling interval. */
  function Exchange(db: Db, me: Request, script: seq<Turn>, k: nat, interval: int, poll: int): (Db, End, int)
    requires k <= |script|
    decreases |script| - k
  {
    if k == |script| then (db, StillWaiting, interval)
    else
      var d, heard := AfterTurn(db, me, script[k]), Heard(db, me, script[k]);
      if heard.Some? && heard.value.Ok? then (d, Accepted(heard.value.value), interval)
      else if heard.Some? && Final(heard.value.error) then (d, Refused(heard.value.error), interval)
      else
        var next := if heard == Some(Err(StillPending)) then Max(poll, 1) else interval;
        if script[k].stop then (d, Cancelled, next) else Exchange(d, me, script, k + 1, next, poll)
  }

  method WaitForEnrollment(center: Registry, me: Request, script: seq<Turn>, firstInterval: int, poll: int)
    returns (end: End, interval: int)
    modifies center
    ensures (center.Tables(), end, interval) == Exchange(old(center.Tables()), me, script, 0, firstInterval, poll)
  {
    interval := firstInterval;
    for k := 0 to |script|
      invariant Exchange(center.Tables(), me, script, k, interval, poll)
                == Exchange(old(center.Tables()), me, script, 0, firstInterval, poll)
    {
      var answer := Send(center, me, script[k]);
      if answer.Some? && answer.value.Ok? {
        return Accepted(answer.value.value), interval;
      }
      if answer.Some? && Final(answer.value.error) {
        return Refused(answer.value.error), interval;
      }
      if answer == Some(Err(StillPending)) {
        interval := Max(poll, 1);
      }
      if script[k].stop {
        return Cancelled, interval;
      }
    }
    end := StillWaiting;
  }

  /** One request over an unreliable network, after whatever else reached the center before it. */
  method Send(center: Registry, me: Request, turn: Turn) returns (answer: Option<Result<Row, Error>>)
    modifies center
    ensures center.Tables() == AfterTurn(old(center.Tables()), me, turn)
            && answer == Heard(old(center.Tables()), me, turn)
  {
    for n := 0 to |turn.others|
      invariant center.Tables() == Others(old(center.Tables()), turn.others, n)
    {
      center.Handle(turn.others[n]);
    }
    if turn.delivery.RequestLost? {
      return None;
    }
    var reply := center.ClaimAgentEnrollment(me.token, me.cred, me.secret, me.software, turn.clock);
    answer := if turn.delivery.Delivered? then Some(reply) else None;
  }

  // ---- What the exchange guarantees -----------------------------------------------------

  /** Nobody else claims with the client's credential. */
  predicate Private(me: Request, script: seq<Turn>) {
    forall k, n | 0 <= k < |script| && 0 <= n < |script[k].others| ::
      !(script[k].others[n].ClaimEvent? && script[k].others[n].cred == me.cred)
  }

  ghost predicate Mine(db: Db, me: Request, a: AgentId) { Bound(db, me.token, me.cred, me.secret, a) }

  /** Either the credential is unknown, or it is that of the agent of the client's own enrollment. */
  ghost predicate Consistent(db: Db, me: Request) {
    me.cred in db.credentials ==> exists a :: Mine(db, me, a)
  }

  lemma {:induction false} OthersKeep(db: Db, me: Request, turn: Turn, n: nat)
    requires Inv(db) && n <= |turn.others| && Consistent(db, me)
    requires forall i :: 0 <= i < |turn.others| ==> !(turn.others[i].ClaimEvent? && turn.others[i].cred == me.cred)
    ensures var d := Others(db, turn.others, n);
            Inv(d) && Consistent(d, me) && (me.cred in d.credentials <==> me.cred in db.credentials)
    ensures forall a :: Mine(db, me, a) ==> Mine(Others(db, turn.others, n), me, a)
  {
    if n == 0 {
    } else {
      OthersKeep(db, me, turn, n - 1);
      var d, e := Others(db, turn.others, n - 1), turn.others[n - 1];
      StepKeeps(d, e);
      forall a | Mine(d, me, a) ensures Mine(Apply(d, e).0, me, a) {
        StepKeepsBound(d, e, me.token, me.cred, me.secret, a);
      }
      CredentialFromClaim(d, e, me.cred);
      if me.cred in d.credentials {
        var a :| Mine(d, me, a);
        assert Mine(Apply(d, e).0, me, a);
      }
    }
  }

  lemma CredentialFromClaim(db: Db, e: Event, c: CredentialId)
    requires !(e.ClaimEvent? && e.cred == c)
    ensures c in Apply(db, e).0.credentials <==> c in db.credentials
  {
  }

  /** A round keeps the credential consistent, adds at most the client's own agent, and if the client hears
      anything once its credential is known, it hears success. */
  lemma TurnKeeps(db: Db, me: Request, turn: Turn)
    requires Inv(db) && Consistent(db, me)
    requires forall i :: 0 <= i < |turn.others| ==> !(turn.others[i].ClaimEvent? && turn.others[i].cred == me.cred)
    ensures var d, heard := AfterTurn(db, me, turn), Heard(db, me, turn);
            && Inv(d) && Consistent(d, me)
            && (me.cred in db.credentials ==> me.cred in d.credentials)
            && (forall a :: Mine(db, me, a) ==> Mine(d, me, a))
            && (heard.Some? && heard.value.Ok? ==>
                  heard.value.value.agent.Some? && Mine(d, me, heard.value.value.agent.value))
            && (heard.Some? && heard.value.Err? ==> me.cred !in d.credentials)
  {
    OthersKeep(db, me, turn, |turn.others|);
    var d := Others(db, turn.others, |turn.others|);
    AskKeeps(d, me, turn.clock);
  }

  lemma AskKeeps(d: Db, me: Request, clock: Time)
    requires Inv(d) && Consistent(d, me)
    ensures var r := Ask(d, me, clock);
            && Inv(r.0) && Consistent(r.0, me) && (me.cred in d.credentials ==> me.cred in r.0.credentials)
            && (forall a :: Mine(d, me, a) ==> Mine(r.0, me, a))
            && (r.1.Ok? ==> r.1.value.agent.Some? && Mine(r.0, me, r.1.value.agent.value))
            && (r.1.Err? ==> me.cred !in r.0.credentials && r.0 == d)
            && (me.cred in d.credentials ==> r.0 == d)
  {
    ClaimKeeps(d, me.token, me.cred, me.secret, me.software, clock);
    ClaimBinds(d, me.token, me.cred, me.secret, me.software, clock);
    if me.cred in d.credentials {
      var a :| Mine(d, me, a);
      BoundDecidesClaims(d, me.token, me.cred, me.secret, a, me.cred, me.secret, me.software, clock);
    } else {
      ClaimAddsAtMostOne(d, me.token, me.cred, me.secret, me.software, clock);
      var r := Ask(d, me, clock);
      if r.1.Ok? { assert Mine(r.0, me, r.1.value.agent.value); }
    }
  }

  /** However requests and replies are lost and whatever else happens, the exchange ends consistently: an
      accepted client owns the agent of its enrollment, and a refused client left nothing behind. In
      particular its own lost success is never answered with "already used". */
  lemma {:induction false} ExchangeIsSafe(db: Db, me: Request, script: seq<Turn>, k: nat, interval: int, poll: int)
    requires k <= |script| && Inv(db) && Consistent(db, me) && Private(me, script)
    ensures var (d, end, last) := Exchange(db, me, script, k, interval, poll);
            && Inv(d) && Consistent(d, me)
            && (end.Accepted? ==> end.row.agent.Some? && Mine(d, me, end.row.agent.value))
            && (end.Refused? ==> Final(end.error) && me.cred !in d.credentials)
            && (last == interval || last == Max(poll, 1))
    decreases |script| - k
  {
    if k == |script| {
    } else {
      TurnKeeps(db, me, script[k]);
      var d, heard := AfterTurn(db, me, script[k]), Heard(db, me, script[k]);
      if heard.None? || (heard.value.Err? && !Final(heard.value.error)) {
        var next := if heard == Some(Err(StillPending)) then Max(poll, 1) else interval;
        ExchangeIsSafe(d, me, script, k + 1, next, poll);
      }
    }
  }

  /** Agents added by the client's own requests. */
  function OwnAgents(db: Db, me: Request, script: seq<Turn>, k: nat): nat
    requires k <= |script|
    decreases |script| - k
  {
    if k == |script| then 0
    else
      var d, after := Others(db, script[k].others, |script[k].others|), AfterTurn(db, me, script[k]);
      (if after.agents.Keys != d.agents.Keys then 1 else 0) + OwnAgents(after, me, script, k + 1)
  }

  /** The client's own request adds an agent only while its credential is unknown, and makes it known. */
  lemma OwnAgentOnce(db: Db, me: Request, turn: Turn)
    requires Inv(db) && Consistent(db, me)
    requires forall i :: 0 <= i < |turn.others| ==> !(turn.others[i].ClaimEvent? && turn.others[i].cred == me.cred)
    ensures var d, after := Others(db, turn.others, |turn.others|), AfterTurn(db, me, turn);
            after.agents.Keys != d.agents.Keys ==> me.cred !in db.credentials && me.cred in after.credentials
  {
    OthersKeep(db, me, turn, |turn.others|);
    var d := Others(db, turn.others, |turn.others|);
    AskKeeps(d, me, turn.clock);
    ClaimAddsAtMostOne(d, me.token, me.cred, me.secret, me.software, turn.clock);
  }

  /** All rounds together add at most one agent for the client, and none if its credential was known before. */
  lemma {:induction false} AtMostOneOwnAgent(db: Db, me: Request, script: seq<Turn>, k: nat)
    requires k <= |script| && Inv(db) && Consistent(db, me) && Private(me, script)
    ensures OwnAgents(db, me, script, k) <= if me.cred in db.credentials then 0 else 1
    decreases |script| - k
  {
    if k == |script| {
    } else {
      OwnAgentOnce(db, me, script[k]);
      TurnKeeps(db, me, script[k]);
      AtMostOneOwnAgent(AfterTurn(db, me, script[k]), me, script, k + 1);
    }
  }

  /** Some answer gets through from round `k` on before the client is told to stop. */
  predicate Answered(script: seq<Turn>, k: nat)
    requires k <= |script|
    decreases |script| - k
  {
    k < |script| && (script[k].delivery.Delivered? || (!script[k].stop && Answered(script, k + 1)))
  }

  /** Once the client's claim has been committed, the exchange ends in its acceptance as that agent exactly if
      an answer gets through before the client is told to stop; it is never refused. */
  lemma {:induction false} CommittedIsAccepted(db: Db, me: Request, script: seq<Turn>, k: nat, interval: int, poll: int,
                                               a: AgentId)
    requires k <= |script| && Inv(db) && Mine(db, me, a) && Private(me, script)
    ensures var end := Exchange(db, me, script, k, interval, poll).1;
            if Answered(script, k) then end.Accepted? && end.row.agent == Some(a)
              else end.Cancelled? || end.StillWaiting?
    decreases |script| - k
  {
    if k == |script| {
    } else {
      OthersKeep(db, me, script[k], |script[k].others|);
      TurnKeeps(db, me, script[k]);
      var d := AfterTurn(db, me, script[k]);
      assert Mine(d, me, a);
      if !script[k].delivery.Delivered? && !script[k].stop {
        CommittedIsAccepted(d, me, script, k + 1, interval, poll, a);
      }
    }
  }
}
