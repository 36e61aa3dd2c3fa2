/** Enrolling agents: each operation is one transaction over enrollments, agents and credentials. */
module Enrollment {
  import opened Wrappers

  type Time = int

  // Hashes, names and generated identifiers are only compared for equality.
  type Token = nat
  type EnrollmentId = nat
  type AgentId = nat
  type CredentialId = nat
  type Secret = nat
  type Name = nat

  datatype Mode = Device | Preauthorized

  datatype Status = Pending | Approved | Claimed | Rejected | Revoked

  /** The status shown to callers: open enrollments past their expiry read as expired. */
  datatype Shown = Stored(status: Status) | Expired

  datatype Error =
    | NotFound | StillPending | HasExpired | WasRejected | WasRevoked
    | AlreadyClaimed | Conflict | InvalidCredential | Internal

  /** What an administrator decides about an agent. */
  datatype Terms = Terms(name: Name, region: string, continent: string, concurrency: int)

  /** What an agent reports about itself, already trimmed; an empty text was not reported. */
  datatype Software = Software(os: string, architecture: string, version: string)

  datatype Row = Row(
    id: EnrollmentId, mode: Mode, status: Status, terms: Terms, software: Software, agent: Option<AgentId>,
    expiresAt: Time, approvedAt: Option<Time>, claimedAt: Option<Time>)

  datatype Agent = Agent(terms: Terms, software: Software, lastSeen: Time)

  datatype Credential = Credential(agent: AgentId, secret: Secret, revoked: bool, lastUsed: Option<Time>)

  /** `ids` is the primary-key index of the enrollments; the counters stand for generated identifiers. */
  datatype Db = Db(
    now: Time, rows: map<Token, Row>, ids: map<EnrollmentId, Token>,
    agents: map<AgentId, Agent>, credentials: map<CredentialId, Credential>,
    nextId: EnrollmentId, nextAgent: AgentId)

  function Empty(now: Time): Db { Db(now, map[], map[], map[], map[], 0, 0) }

  function Show(row: Row, now: Time): Shown {
    if (row.status.Pending? || row.status.Approved?) && row.expiresAt <= now then Expired else Stored(row.status)
  }

  function StateError(shown: Shown): Error {
    match shown
    case Expired => HasExpired
    case Stored(Pending) => StillPending
    case Stored(Rejected) => WasRejected
    case Stored(Revoked) => WasRevoked
    case Stored(Claimed) => AlreadyClaimed
    case Stored(Approved) => Conflict
  }

  type Outcome = (Db, Result<Row, Error>)

  /** Device requests wait for approval; preauthorized ones are approved from the start. */
  function Create(db: Db, token: Token, mode: Mode, terms: Terms, software: Software, expiresAt: Time): Outcome {
    if token in db.rows then (db, Err(Internal))
    else
      var row := Row(db.nextId, mode, if mode.Device? then Pending else Approved, terms, software, None, expiresAt,
                     if mode.Device? then None else Some(db.now), None);
      (db.(rows := db.rows[token := row], ids := db.ids[db.nextId := token], nextId := db.nextId + 1), Ok(row))
  }

  predicate Decidable(db: Db, token: Token) {
    token in db.rows && db.rows[token].status.Pending? && db.rows[token].expiresAt > db.now
  }

  /** A decision applies to a pending, unexpired enrollment; otherwise its state says why not. */
  function Decide(db: Db, token: Token, decided: Row): Outcome {
    if Decidable(db, token) then (db.(rows := db.rows[token := decided]), Ok(decided))
    else if token !in db.rows then (db, Err(NotFound))
    else (db, Err(StateError(Show(db.rows[token], db.now))))
  }

  function Approve(db: Db, token: Token, terms: Terms): Outcome {
    if token !in db.rows then (db, Err(NotFound))
    else Decide(db, token, db.rows[token].(status := Approved, terms := terms, approvedAt := Some(db.now)))
  }

  function Reject(db: Db, token: Token): Outcome {
    if token !in db.rows then (db, Err(NotFound))
    else Decide(db, token, db.rows[token].(status := Rejected))
  }

  function ApproveById(db: Db, id: EnrollmentId, terms: Terms): Outcome {
    if id !in db.ids then (db, Err(NotFound)) else Approve(db, db.ids[id], terms)
  }

  function RejectById(db: Db, id: EnrollmentId): Outcome {
    if id !in db.ids then (db, Err(NotFound)) else Reject(db, db.ids[id])
  }

  /** The credential exists, is not revoked, and the secret is right. */
  predicate Matches(db: Db, cred: CredentialId, secret: Secret) {
    cred in db.credentials && db.credentials[cred].secret == secret && !db.credentials[cred].revoked
  }

  predicate NameTaken(db: Db, name: Name) {
    exists a :: a in db.agents && db.agents[a].terms.name == name
  }

  function Reported(stored: Software, reported: Software): Software {
    Software(
      if reported.os != "" then reported.os else stored.os,
      if reported.architecture != "" then reported.architecture else stored.architecture,
      if reported.version != "" then reported.version else stored.version)
  }

  /** The agent, its credential and the claimed enrollment, all or none. */
  function Enroll(db: Db, token: Token, cred: CredentialId, secret: Secret, reported: Software): Outcome
    requires token in db.rows
  {
    var row := db.rows[token];
    var software := Reported(row.software, reported);
    if NameTaken(db, row.terms.name) then (db, Err(Conflict))
    else if cred in db.credentials then (db, Err(Internal))
    else
      var claimed := row.(status := Claimed, agent := Some(db.nextAgent), software := software,
                          claimedAt := Some(db.now));
      (db.(rows := db.rows[token := claimed],
           agents := db.agents[db.nextAgent := Agent(row.terms, software, db.now)],
           credentials := db.credentials[cred := Credential(db.nextAgent, secret, false, None)],
           nextAgent := db.nextAgent + 1),
       Ok(claimed))
  }

  /** `clock` is the center's own clock, which may differ from the database's. */
  function Claim(db: Db, token: Token, cred: CredentialId, secret: Secret, reported: Software, clock: Time): Outcome {
    if token !in db.rows then (db, Err(NotFound))
    else
      var row := db.rows[token];
      if row.status.Claimed? then
        if Matches(db, cred, secret) && Some(db.credentials[cred].agent) == row.agent then (db, Ok(row))
        else (db, Err(AlreadyClaimed))
      else if Show(row, db.now) == Expired || row.expiresAt <= clock then (db, Err(HasExpired))
      else if row.status.Pending? then (db, Err(StillPending))
      else if row.status.Rejected? then (db, Err(WasRejected))
      else if row.status.Revoked? then (db, Err(WasRevoked))
      else Enroll(db, token, cred, secret, reported)
  }

  function Authenticate(db: Db, cred: CredentialId, secret: Secret): (Db, Result<AgentId, Error>) {
    if Matches(db, cred, secret)
    then (db.(credentials := db.credentials[cred := db.credentials[cred].(lastUsed := Some(db.now))]),
          Ok(db.credentials[cred].agent))
    else (db, Err(InvalidCredential))
  }

  // ---- What every operation keeps -------------------------------------------------------

  ghost predicate Owns(db: Db, token: Token, a: AgentId) {
    token in db.rows && db.rows[token].status.Claimed? && db.rows[token].agent == Some(a)
  }

  ghost predicate Holds(db: Db, cred: CredentialId, a: AgentId) {
    cred in db.credentials && db.credentials[cred].agent == a
  }

  ghost predicate RowsOk(db: Db) {
    && (forall t :: t in db.rows ==> (db.rows[t].status.Claimed? <==> db.rows[t].agent.Some?))
    && (forall t :: t in db.rows ==> db.rows[t].id in db.ids && db.ids[db.rows[t].id] == t)
    && (forall id :: id in db.ids ==> id < db.nextId && db.ids[id] in db.rows && db.rows[db.ids[id]].id == id)
  }

  /** Claimed enrollments and agents correspond one to one. */
  ghost predicate AgentsOk(db: Db) {
    && (forall a :: a in db.agents ==> a < db.nextAgent && exists t :: Owns(db, t, a))
    && (forall t, a :: Owns(db, t, a) ==> a in db.agents)
    && (forall t, t', a :: Owns(db, t, a) && Owns(db, t', a) ==> t == t')
  }

  /** Credentials and agents correspond one to one. */
  ghost predicate CredentialsOk(db: Db) {
    && (forall a :: a in db.agents ==> exists c :: Holds(db, c, a))
    && (forall c, a :: Holds(db, c, a) ==> a in db.agents && !db.credentials[c].revoked)
    && (forall c, c', a :: Holds(db, c, a) && Holds(db, c', a) ==> c == c')
  }

  ghost predicate NamesOk(db: Db) {
    forall a, b :: a in db.agents && b in db.agents && a != b ==> db.agents[a].terms.name != db.agents[b].terms.name
  }

  ghost predicate Inv(db: Db) {
    RowsOk(db) && AgentsOk(db) && CredentialsOk(db) && NamesOk(db)
  }

  lemma CreateKeeps(db: Db, token: Token, mode: Mode, terms: Terms, software: Software, expiresAt: Time)
    requires Inv(db)
    ensures Inv(Create(db, token, mode, terms, software, expiresAt).0)
  {
    var r := Create(db, token, mode, terms, software, expiresAt).0;
    OwnersSurvive(db, r);
  }

  lemma DecideKeeps(db: Db, token: Token, decided: Row)
    requires Inv(db)
    requires token in db.rows ==>
               decided.id == db.rows[token].id && decided.agent == db.rows[token].agent && !decided.status.Claimed?
    ensures Inv(Decide(db, token, decided).0)
  {
    var r := Decide(db, token, decided).0;
    OwnersSurvive(db, r);
  }

  /** If ownership is the same before and after, so are the correspondences. */
  lemma OwnersSurvive(db: Db, r: Db)
    requires AgentsOk(db) && CredentialsOk(db) && NamesOk(db)
    requires r.agents == db.agents && r.nextAgent == db.nextAgent
    requires forall t, a :: Owns(r, t, a) <==> Owns(db, t, a)
    requires forall c, a :: Holds(r, c, a) <==> Holds(db, c, a)
    requires forall c, a :: Holds(r, c, a) ==> !r.credentials[c].revoked
    ensures AgentsOk(r) && CredentialsOk(r) && NamesOk(r)
  {
    forall a | a in r.agents ensures exists t :: Owns(r, t, a) {
      var t :| Owns(db, t, a);
      assert Owns(r, t, a);
    }
    forall a | a in r.agents ensures exists c :: Holds(r, c, a) {
      var c :| Holds(db, c, a);
      assert Holds(r, c, a);
    }
  }

  lemma EnrollKeeps(db: Db, token: Token, cred: CredentialId, secret: Secret, reported: Software)
    requires Inv(db) && token in db.rows && db.rows[token].agent.None?
    ensures Inv(Enroll(db, token, cred, secret, reported).0)
  {
    var r := Enroll(db, token, cred, secret, reported).0;
    if r != db {
      EnrollKeepsRows(db, token, cred, secret, reported);
      EnrollKeepsAgents(db, token, cred, secret, reported);
      EnrollKeepsCredentials(db, token, cred, secret, reported);
    }
  }

  lemma EnrollKeepsRows(db: Db, token: Token, cred: CredentialId, secret: Secret, reported: Software)
    requires Inv(db) && token in db.rows && db.rows[token].agent.None?
    ensures RowsOk(Enroll(db, token, cred, secret, reported).0)
  {
    var r := Enroll(db, token, cred, secret, reported).0;
    if r != db { EnrolledRows(db, r, token); }
  }

  lemma EnrollKeepsAgents(db: Db, token: Token, cred: CredentialId, secret: Secret, reported: Software)
    requires Inv(db) && token in db.rows && db.rows[token].agent.None?
    ensures var r := Enroll(db, token, cred, secret, reported).0; AgentsOk(r) && NamesOk(r)
  {
    var r := Enroll(db, token, cred, secret, reported).0;
    if r != db {
      EnrollEffect(db, token, cred, secret, reported);
      EnrolledOwners(db, r, token, db.nextAgent);
    }
  }

  lemma EnrollKeepsCredentials(db: Db, token: Token, cred: CredentialId, secret: Secret, reported: Software)
    requires Inv(db) && token in db.rows && db.rows[token].agent.None?
    ensures CredentialsOk(Enroll(db, token, cred, secret, reported).0)
  {
    var r := Enroll(db, token, cred, secret, reported).0;
    if r != db {
      EnrollEffect(db, token, cred, secret, reported);
      EnrolledHolders(db, r, cred, db.nextAgent);
    }
  }

  /** A first claim adds one ownership and one credential holding, both of the new agent. */
  lemma EnrollEffect(db: Db, token: Token, cred: CredentialId, secret: Secret, reported: Software)
    requires RowsOk(db) && token in db.rows && db.rows[token].agent.None?
    ensures var r, n := Enroll(db, token, cred, secret, reported).0, db.nextAgent;
            r != db ==>
              && (forall t, a :: Owns(r, t, a) <==> Owns(db, t, a) || (t == token && a == n))
              && (forall c, a :: Holds(r, c, a) <==> Holds(db, c, a) || (c == cred && a == n))
  {
  }

  lemma EnrolledRows(db: Db, r: Db, token: Token)
    requires RowsOk(db) && token in db.rows && r.rows.Keys == db.rows.Keys && r.ids == db.ids && r.nextId == db.nextId
    requires forall t :: t in db.rows && t != token ==> r.rows[t] == db.rows[t]
    requires r.rows[token].id == db.rows[token].id && r.rows[token].status.Claimed? && r.rows[token].agent.Some?
    ensures RowsOk(r)
  {
  }

  lemma EnrolledOwners(db: Db, r: Db, token: Token, n: AgentId)
    requires AgentsOk(db) && n == db.nextAgent && r.nextAgent == n + 1
    requires forall a :: a in r.agents <==> a in db.agents || a == n
    requires forall t, a :: Owns(r, t, a) <==> Owns(db, t, a) || (t == token && a == n)
    ensures AgentsOk(r)
  {
    forall a | a in r.agents ensures a < r.nextAgent && exists t :: Owns(r, t, a) {
      if a == n {
        assert Owns(r, token, a);
      } else {
        var t :| Owns(db, t, a);
        assert Owns(r, t, a);
      }
    }
  }

  lemma EnrolledHolders(db: Db, r: Db, cred: CredentialId, n: AgentId)
    requires CredentialsOk(db) && n !in db.agents
    requires forall a :: a in r.agents <==> a in db.agents || a == n
    requires forall c, a :: Holds(r, c, a) <==> Holds(db, c, a) || (c == cred && a == n)
    requires forall c, a :: Holds(r, c, a) ==> !r.credentials[c].revoked
    ensures CredentialsOk(r)
  {
    forall a | a in r.agents ensures exists c :: Holds(r, c, a) {
      if a == n {
        assert Holds(r, cred, a);
      } else {
        var c :| Holds(db, c, a);
        assert Holds(r, c, a);
      }
    }
  }

  lemma ClaimKeeps(db: Db, token: Token, cred: CredentialId, secret: Secret, reported: Software, clock: Time)
    requires Inv(db)
    ensures Inv(Claim(db, token, cred, secret, reported, clock).0)
  {
    if token in db.rows && !db.rows[token].status.Claimed? {
      EnrollKeeps(db, token, cred, secret, reported);
    }
  }

  lemma AuthenticateKeeps(db: Db, cred: CredentialId, secret: Secret)
    requires Inv(db)
    ensures Inv(Authenticate(db, cred, secret).0)
  {
    OwnersSurvive(db, Authenticate(db, cred, secret).0);
  }

  // ---- One claim after another ----------------------------------------------------------

  /** The enrollment belongs to the agent that this credential authenticates. */
  ghost predicate Bound(db: Db, token: Token, cred: CredentialId, secret: Secret, a: AgentId) {
    Owns(db, token, a) && Holds(db, cred, a) && db.credentials[cred].secret == secret
  }

  /** A successful claim binds enrollment, credential and agent. */
  lemma ClaimBinds(db: Db, token: Token, cred: CredentialId, secret: Secret, reported: Software, clock: Time)
    requires Inv(db)
    ensures var (after, reply) := Claim(db, token, cred, secret, reported, clock);
            reply.Ok? ==> reply.value.agent.Some? && Bound(after, token, cred, secret, reply.value.agent.value)
  {
  }

  /** Once bound, the same credential gets the same agent and creates nothing, whatever the clocks say; every
      other credential is refused and changes nothing either. */
  lemma BoundDecidesClaims(db: Db, token: Token, cred: CredentialId, secret: Secret, a: AgentId,
                           cred': CredentialId, secret': Secret, reported: Software, clock: Time)
    requires Inv(db) && Bound(db, token, cred, secret, a)
    ensures var (after, reply) := Claim(db, token, cred', secret', reported, clock);
            && after == db
            && (cred' == cred && secret' == secret ==> reply == Ok(db.rows[token]) && reply.value.agent == Some(a))
            && (cred' != cred || secret' != secret ==> reply == Err(AlreadyClaimed))
  {
    if Matches(db, cred', secret') && db.credentials[cred'].agent == a {
      assert Holds(db, cred', a);
    }
  }

  /** A bound credential authenticates as its agent, and only with its own secret. */
  lemma BoundAuthenticates(db: Db, token: Token, cred: CredentialId, secret: Secret, a: AgentId, secret': Secret)
    requires Inv(db) && Bound(db, token, cred, secret, a)
    ensures Authenticate(db, cred, secret').1 == if secret' == secret then Ok(a) else Err(InvalidCredential)
  {
    assert Holds(db, cred, a);
  }

  /** A claim adds an agent exactly when it succeeds on an enrollment not yet claimed, and then exactly one. */
  lemma ClaimAddsAtMostOne(db: Db, token: Token, cred: CredentialId, secret: Secret, reported: Software, clock: Time)
    requires Inv(db)
    ensures var (after, reply) := Claim(db, token, cred, secret, reported, clock);
            if reply.Ok? && !db.rows[token].status.Claimed?
            then after.agents.Keys == db.agents.Keys + {db.nextAgent} && db.nextAgent !in db.agents
                 && after.credentials.Keys == db.credentials.Keys + {cred} && cred !in db.credentials
            else after == db
  {
  }

  /** A first claim needs approval and both clocks before the expiry, exactly if nothing clashes. */
  lemma FirstClaimIff(db: Db, token: Token, cred: CredentialId, secret: Secret, reported: Software, clock: Time)
    requires Inv(db) && token in db.rows && !db.rows[token].status.Claimed?
    ensures var row := db.rows[token];
            Claim(db, token, cred, secret, reported, clock).1.Ok? <==>
              row.status.Approved? && db.now < row.expiresAt && clock < row.expiresAt
              && !NameTaken(db, row.terms.name) && cred !in db.credentials
  {
  }
}
