/** The waiting client makes progress: it waits while it should and ends with the approved agent. */
module EnrollmentProgress {
  import opened Wrappers
  import opened Enrollment
  import opened EnrollmentRuns
  import opened EnrollmentReplies
  import opened EnrollmentClient

  /** The center as the request of round `i` finds it, when the client is still asking. */
  function Arrival(db: Db, me: Request, script: seq<Turn>, k: nat, i: nat): Db
    requires k <= i < |script|
    decreases i - k
  {
    if i == k then Others(db, script[k].others, |script[k].others|)
    else Arrival(AfterTurn(db, me, script[k]), me, script, k + 1, i)
  }

  /** Waiting for a decision, and not late by either clock. */
  predicate IsPending(db: Db, me: Request, clock: Time) {
    && me.token in db.rows && db.rows[me.token].status.Pending?
    && db.now < db.rows[me.token].expiresAt && clock < db.rows[me.token].expiresAt
  }

  /** Approved, not late by either clock, and nothing in the way of the new agent. */
  predicate IsReady(db: Db, me: Request, clock: Time) {
    && me.token in db.rows && db.rows[me.token].status.Approved?
    && db.now < db.rows[me.token].expiresAt && clock < db.rows[me.token].expiresAt
    && (forall a :: a in db.agents ==> db.agents[a].terms.name != db.rows[me.token].terms.name)
    && me.cred !in db.credentials
  }

  /** From round `k` to round `n` no request arrives other than at a pending enrollment. */
  predicate PendingUntil(db: Db, me: Request, script: seq<Turn>, k: nat, n: nat)
    requires k <= n <= |script|
  {
    forall i | k <= i < n ::
      script[i].delivery.RequestLost? || IsPending(Arrival(db, me, script, k, i), me, script[i].clock)
  }

  lemma PendingNext(db: Db, me: Request, script: seq<Turn>, k: nat, n: nat)
    requires k < n <= |script| && PendingUntil(db, me, script, k, n)
    ensures PendingUntil(AfterTurn(db, me, script[k]), me, script, k + 1, n)
  {
    forall i | k + 1 <= i < n
      ensures script[i].delivery.RequestLost?
              || IsPending(Arrival(AfterTurn(db, me, script[k]), me, script, k + 1, i), me, script[i].clock)
    {
      assert script[i].delivery.RequestLost? || IsPending(Arrival(db, me, script, k, i), me, script[i].clock);
    }
  }

  /** A request that arrives at a pending enrollment changes nothing and is told to wait. */
  lemma PendingRound(db: Db, me: Request, script: seq<Turn>, k: nat, n: nat)
    requires k < n <= |script| && PendingUntil(db, me, script, k, n)
    ensures AfterTurn(db, me, script[k]) == Others(db, script[k].others, |script[k].others|)
    ensures Heard(db, me, script[k]) == if script[k].delivery.Delivered? then Some(Err(StillPending)) else None
  {
    var d := Others(db, script[k].others, |script[k].others|);
    if !script[k].delivery.RequestLost? {
      assert IsPending(Arrival(db, me, script, k, k), me, script[k].clock);
      ClaimReplies(d, me.token, me.cred, me.secret, me.software, script[k].clock);
    }
  }

  /** While the enrollment is pending the client never gives up: it waits until it is told to stop, polling at
      the center's interval, but at least a second apart, once it has heard from it. */
  lemma {:induction false} PendingIsAwaited(db: Db, me: Request, script: seq<Turn>, k: nat, interval: int, poll: int)
    requires k <= |script| && PendingUntil(db, me, script, k, |script|)
    ensures var (d, end, last) := Exchange(db, me, script, k, interval, poll);
            && (end.Cancelled? <==> exists i :: k <= i < |script| && script[i].stop)
            && (end.StillWaiting? <==> forall i :: k <= i < |script| ==> !script[i].stop)
            && (end.StillWaiting? ==>
                  last == if exists i :: k <= i < |script| && script[i].delivery.Delivered?
                          then (if poll < 1 then 1 else poll) else interval)
    decreases |script| - k
  {
    if k == |script| {
    } else {
      PendingRound(db, me, script, k, |script|);
      PendingNext(db, me, script, k, |script|);
      if !script[k].stop {
        var next := if script[k].delivery.Delivered? then Max(poll, 1) else interval;
        PendingIsAwaited(AfterTurn(db, me, script[k]), me, script, k + 1, next, poll);
      }
    }
  }

  /** A delivered answer ends the exchange exactly if it is an acceptance or names a rejection, expiry,
      revocation, earlier claim, name conflict or unknown token; after any other the client asks again. */
  lemma AnswerDecides(db: Db, me: Request, script: seq<Turn>, k: nat, interval: int, poll: int)
    requires k < |script| && script[k].delivery.Delivered? && !script[k].stop
    ensures var reply := Ask(Others(db, script[k].others, |script[k].others|), me, script[k].clock).1;
            var end := Exchange(db, me, script, k, interval, poll).1;
            var next := if reply == Err(StillPending) then Max(poll, 1) else interval;
            && (reply.Ok? ==> end == Accepted(reply.value))
            && (reply.Err? ==>
                  if reply.error.WasRejected? || reply.error.HasExpired? || reply.error.WasRevoked?
                     || reply.error.AlreadyClaimed? || reply.error.Conflict? || reply.error.NotFound?
                  then end == Refused(reply.error)
                  else end == Exchange(AfterTurn(db, me, script[k]), me, script, k + 1, next, poll).1)
  {
  }

  // ---- After the approval ---------------------------------------------------------------

  /** A claimed enrollment and its agent's terms never change again. */
  lemma ClaimedStays(db: Db, e: Event, t: Token, a: AgentId)
    requires Inv(db) && Owns(db, t, a)
    ensures var after := Apply(db, e).0;
            && Owns(after, t, a) && after.rows[t] == db.rows[t]
            && a in after.agents && after.agents[a].terms == db.agents[a].terms
  {
    assert a in db.agents && a < db.nextAgent;
  }

  lemma {:induction false} OthersLeaveClaimed(db: Db, me: Request, turn: Turn, n: nat, a: AgentId)
    requires Inv(db) && n <= |turn.others| && Consistent(db, me) && Mine(db, me, a)
    requires forall i :: 0 <= i < |turn.others| ==> !(turn.others[i].ClaimEvent? && turn.others[i].cred == me.cred)
    ensures var d := Others(db, turn.others, n);
            && Owns(d, me.token, a) && d.rows[me.token] == db.rows[me.token]
            && a in d.agents && a in db.agents && d.agents[a].terms == db.agents[a].terms
  {
    if n == 0 {
    } else {
      OthersLeaveClaimed(db, me, turn, n - 1, a);
      OthersKeep(db, me, turn, n - 1);
      ClaimedStays(Others(db, turn.others, n - 1), turn.others[n - 1], me.token, a);
    }
  }

  lemma TurnLeavesClaimed(db: Db, me: Request, turn: Turn, a: AgentId)
    requires Inv(db) && Consistent(db, me) && Mine(db, me, a)
    requires forall i :: 0 <= i < |turn.others| ==> !(turn.others[i].ClaimEvent? && turn.others[i].cred == me.cred)
    ensures var d, heard := AfterTurn(db, me, turn), Heard(db, me, turn);
            && Owns(d, me.token, a) && d.rows[me.token] == db.rows[me.token]
            && a in d.agents && a in db.agents && d.agents[a].terms == db.agents[a].terms
            && heard == if turn.delivery.Delivered? then Some(Ok(db.rows[me.token])) else None
  {
    OthersLeaveClaimed(db, me, turn, |turn.others|, a);
    OthersKeep(db, me, turn, |turn.others|);
    var d := Others(db, turn.others, |turn.others|);
    BoundDecidesClaims(d, me.token, me.cred, me.secret, a, me.cred, me.secret, me.software, turn.clock);
  }

  /** The client ends with the enrollment as claimed, and the agent keeps its terms. */
  lemma {:induction false} ClaimedIsDelivered(db: Db, me: Request, script: seq<Turn>, k: nat, interval: int, poll: int,
                                              a: AgentId)
    requires k <= |script| && Inv(db) && Mine(db, me, a) && Private(me, script)
    ensures var (d, end, last) := Exchange(db, me, script, k, interval, poll);
            && (if Answered(script, k) then end == Accepted(db.rows[me.token]) else end.Cancelled? || end.StillWaiting?)
            && a in d.agents && a in db.agents && d.agents[a].terms == db.agents[a].terms
    decreases |script| - k
  {
    if k == |script| {
      assert a in db.agents;
    } else {
      TurnLeavesClaimed(db, me, script[k], a);
      TurnKeeps(db, me, script[k]);
      var d := AfterTurn(db, me, script[k]);
      assert Mine(d, me, a);
      if !script[k].delivery.Delivered? && !script[k].stop {
        ClaimedIsDelivered(d, me, script, k + 1, interval, poll, a);
      }
    }
  }

  /** Let the first request that does not find the enrollment pending find it approved, in time, with name and
      credential free. Then the exchange ends in acceptance under the approved terms, and the agent exists
      under them, exactly if an answer gets through from that round on before the client is told to stop. */
  lemma {:induction false} ApprovedIsAccepted(db: Db, me: Request, script: seq<Turn>, k: nat, interval: int, poll: int,
                                              m: nat)
    requires k <= m < |script| && Inv(db) && Private(me, script)
    requires PendingUntil(db, me, script, k, m) && forall i :: k <= i < m ==> !script[i].stop
    requires !script[m].delivery.RequestLost? && IsReady(Arrival(db, me, script, k, m), me, script[m].clock)
    ensures var (d, end, last) := Exchange(db, me, script, k, interval, poll);
            var terms := Arrival(db, me, script, k, m).rows[me.token].terms;
            if Answered(script, m)
            then end.Accepted? && end.row.status.Claimed? && end.row.terms == terms
                 && end.row.agent.Some? && end.row.agent.value in d.agents
                 && d.agents[end.row.agent.value].terms == terms
            else end.Cancelled? || end.StillWaiting?
    decreases |script| - k
  {
    OthersInv(db, script[k].others, |script[k].others|);
    if k < m {
      PendingRound(db, me, script, k, m);
      PendingNext(db, me, script, k, m);
      var next := if script[k].delivery.Delivered? then Max(poll, 1) else interval;
      ApprovedIsAccepted(AfterTurn(db, me, script[k]), me, script, k + 1, next, poll, m);
    } else {
      ReadyRound(db, me, script, k, interval, poll);
    }
  }

  lemma {:induction false} OthersInv(db: Db, es: seq<Event>, n: nat)
    requires Inv(db) && n <= |es|
    ensures Inv(Others(db, es, n))
  {
    if n == 0 {
    } else {
      OthersInv(db, es, n - 1);
      StepKeeps(Others(db, es, n - 1), es[n - 1]);
    }
  }

  lemma ReadyRound(db: Db, me: Request, script: seq<Turn>, k: nat, interval: int, poll: int)
    requires k < |script| && Inv(db) && Private(me, script) && !script[k].delivery.RequestLost?
    requires IsReady(Arrival(db, me, script, k, k), me, script[k].clock)
    ensures var (d, end, last) := Exchange(db, me, script, k, interval, poll);
            var terms := Arrival(db, me, script, k, k).rows[me.token].terms;
            if Answered(script, k)
            then end.Accepted? && end.row.status.Claimed? && end.row.terms == terms
                 && end.row.agent.Some? && end.row.agent.value in d.agents
                 && d.agents[end.row.agent.value].terms == terms
            else end.Cancelled? || end.StillWaiting?
  {
    var d, clock := Arrival(db, me, script, k, k), script[k].clock;
    OthersInv(db, script[k].others, |script[k].others|);
    ClaimReplies(d, me.token, me.cred, me.secret, me.software, clock);
    FirstClaimStores(d, me.token, me.cred, me.secret, me.software, clock);
    ClaimKeeps(d, me.token, me.cred, me.secret, me.software, clock);
    ClaimBinds(d, me.token, me.cred, me.secret, me.software, clock);
    var after := Ask(d, me, clock).0;
    var a := d.nextAgent;
    assert Mine(after, me, a);
    if !script[k].delivery.Delivered? && !script[k].stop {
      ClaimedIsDelivered(after, me, script, k + 1, interval, poll, a);
    }
  }
}
