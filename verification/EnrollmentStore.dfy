/** The enrollment tables as they are updated in place; every method is one transaction. */
module EnrollmentStore {
  import opened Wrappers
  import opened Enrollment
  import opened EnrollmentRuns

  class Registry {
    var now: Time
    var rows: map<Token, Row>
    var ids: map<EnrollmentId, Token>
    var agents: map<AgentId, Agent>
    var credentials: map<CredentialId, Credential>
    var nextId: EnrollmentId
    var nextAgent: AgentId

    function Tables(): Db
      reads this
    {
      Db(now, rows, ids, agents, credentials, nextId, nextAgent)
    }

    constructor (start: Time)
      ensures Tables() == Empty(start)
    {
      now, rows, ids, agents, credentials, nextId, nextAgent := start, map[], map[], map[], map[], 0, 0;
    }

    method CreateAgentEnrollment(token: Token, mode: Mode, terms: Terms, software: Software, expiresAt: Time)
      returns (r: Result<Row, Error>)
      modifies this
      ensures (Tables(), r) == Create(old(Tables()), token, mode, terms, software, expiresAt)
    {
      if token in rows {
        return Err(Internal);
      }
      var status := if mode == Preauthorized then Approved else Pending;
      var approvedAt := if status == Approved then Some(now) else None;
      var row := Row(nextId, mode, status, terms, software, None, expiresAt, approvedAt, None);
      rows := rows[token := row];
      ids := ids[nextId := token];
      nextId := nextId + 1;
      r := Ok(row);
    }

    /** Why an update found no row to change. */
    method WhyNot(token: Token) returns (e: Error)
      requires !Decidable(Tables(), token)
      ensures e == if token in rows then StateError(Show(rows[token], now)) else NotFound
    {
      if token !in rows {
        return NotFound;
      }
      e := StateError(Show(rows[token], now));
    }

    method ApproveAgentEnrollment(token: Token, terms: Terms) returns (r: Result<Row, Error>)
      modifies `rows
      ensures (Tables(), r) == Approve(old(Tables()), token, terms)
    {
      if token in rows && rows[token].status == Pending && rows[token].expiresAt > now {
        rows := rows[token := rows[token].(status := Approved, terms := terms, approvedAt := Some(now))];
        r := Ok(rows[token]);
      } else {
        var why := WhyNot(token);
        r := Err(why);
      }
    }

    method RejectAgentEnrollment(token: Token) returns (r: Result<Row, Error>)
      modifies `rows
      ensures (Tables(), r) == Reject(old(Tables()), token)
    {
      if token in rows && rows[token].status == Pending && rows[token].expiresAt > now {
        rows := rows[token := rows[token].(status := Rejected)];
        r := Ok(rows[token]);
      } else {
        var why := WhyNot(token);
        r := Err(why);
      }
    }

    method ApproveAgentEnrollmentByID(id: EnrollmentId, terms: Terms) returns (r: Result<Row, Error>)
      modifies `rows
      ensures (Tables(), r) == ApproveById(old(Tables()), id, terms)
    {
      if id !in ids {
        return Err(NotFound);
      }
      r := ApproveAgentEnrollment(ids[id], terms);
    }

    method RejectAgentEnrollmentByID(id: EnrollmentId) returns (r: Result<Row, Error>)
      modifies `rows
      ensures (Tables(), r) == RejectById(old(Tables()), id)
    {
      if id !in ids {
        return Err(NotFound);
      }
      r := RejectAgentEnrollment(ids[id]);
    }

    /** The unique-name insert; the generated id is new. */
    method InsertAgent(terms: Terms, software: Software) returns (r: Option<AgentId>)
      modifies `agents, `nextAgent
      ensures NameTaken(old(Tables()), terms.name) ==> r == None && unchanged(this)
      ensures !NameTaken(old(Tables()), terms.name) ==>
        && r == Some(old(nextAgent)) && nextAgent == old(nextAgent) + 1
        && agents == old(agents)[old(nextAgent) := Agent(terms, software, now)]
    {
      if exists a :: a in agents && agents[a].terms.name == terms.name {
        return None;
      }
      agents := agents[nextAgent := Agent(terms, software, now)];
      r := Some(nextAgent);
      nextAgent := nextAgent + 1;
    }

    /** A failed insert leaves the transaction to be rolled back: none of its changes stay. */
    method ClaimAgentEnrollment(token: Token, cred: CredentialId, secret: Secret, reported: Software, clock: Time)
      returns (r: Result<Row, Error>)
      modifies this
      ensures (Tables(), r) == Claim(old(Tables()), token, cred, secret, reported, clock)
    {
      if token !in rows {
        return Err(NotFound);
      }
      var item := rows[token];
      if item.status == Claimed {
        if cred in credentials && credentials[cred].secret == secret && !credentials[cred].revoked
          && Some(credentials[cred].agent) == item.agent {
          return Ok(item);
        }
        return Err(AlreadyClaimed);
      }
      if Show(item, now) == Expired || item.expiresAt <= clock {
        return Err(HasExpired);
      }
      match item.status {
        case Pending => return Err(StillPending);
        case Rejected => return Err(WasRejected);
        case Revoked => return Err(WasRevoked);
        case Approved =>
      }
      var software := Reported(item.software, reported);
      var agentsBefore, nextBefore := agents, nextAgent;
      var inserted := InsertAgent(item.terms, software);
      if inserted.None? {
        return Err(Conflict);
      }
      if cred in credentials {
        agents, nextAgent := agentsBefore, nextBefore;
        return Err(Internal);
      }
      credentials := credentials[cred := Credential(inserted.value, secret, false, None)];
      rows := rows[token := item.(status := Claimed, agent := inserted, software := software, claimedAt := Some(now))];
      r := Ok(rows[token]);
    }

    method AuthenticateAgentCredential(cred: CredentialId, secret: Secret) returns (r: Result<AgentId, Error>)
      modifies `credentials
      ensures (Tables(), r) == Authenticate(old(Tables()), cred, secret)
    {
      if cred !in credentials || credentials[cred].secret != secret || credentials[cred].revoked {
        return Err(InvalidCredential);
      }
      credentials := credentials[cred := credentials[cred].(lastUsed := Some(now))];
      r := Ok(credentials[cred].agent);
    }

    method Wait(until: Time)
      modifies `now
      ensures Tables() == Apply(old(Tables()), TimePasses(until)).0
    {
      if until >= now {
        now := until;
      }
    }

    /** Whatever arrives next. */
    method Handle(e: Event)
      modifies this
      ensures Tables() == Apply(old(Tables()), e).0
    {
      match e {
        case CreateEvent(t, mode, terms, software, expiresAt) =>
          var _ := CreateAgentEnrollment(t, mode, terms, software, expiresAt);
        case ApproveEvent(t, terms) => var _ := ApproveAgentEnrollment(t, terms);
        case RejectEvent(t) => var _ := RejectAgentEnrollment(t);
        case ApproveByIdEvent(id, terms) => var _ := ApproveAgentEnrollmentByID(id, terms);
        case RejectByIdEvent(id) => var _ := RejectAgentEnrollmentByID(id);
        case ClaimEvent(t, cred, secret, reported, clock) =>
          var _ := ClaimAgentEnrollment(t, cred, secret, reported, clock);
        case AuthenticateEvent(cred, secret) => var _ := AuthenticateAgentCredential(cred, secret);
        case TimePasses(until) => Wait(until);
      }
    }
  }
}
