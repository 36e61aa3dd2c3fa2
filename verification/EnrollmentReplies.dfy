/** What each enrollment call answers and stores, case by case on the stored status and the clocks. */
module EnrollmentReplies {
  import opened Wrappers
  import opened Enrollment
  import opened EnrollmentRuns

  /** The credential is the one that the claimed enrollment was claimed with. */
  predicate IsOwn(db: Db, row: Row, cred: CredentialId, secret: Secret) {
    && cred in db.credentials && row.agent == Some(db.credentials[cred].agent)
    && db.credentials[cred].secret == secret && !db.credentials[cred].revoked
  }

  /** Every answer to a claim, each exactly under its condition. An open enrollment also expires by the
      database's clock; by the center's own clock everything unclaimed expires. */
  lemma ClaimReplies(db: Db, token: Token, cred: CredentialId, secret: Secret, reported: Software, clock: Time)
    ensures Claim(db, token, cred, secret, reported, clock).1 == Err(NotFound) <==> token !in db.rows
    ensures token in db.rows ==>
              var row, reply := db.rows[token], Claim(db, token, cred, secret, reported, clock).1;
              var late := row.expiresAt <= clock
                          || ((row.status.Pending? || row.status.Approved?) && row.expiresAt <= db.now);
              var taken := exists a :: a in db.agents && db.agents[a].terms.name == row.terms.name;
              && (reply == Err(AlreadyClaimed) <==> row.status.Claimed? && !IsOwn(db, row, cred, secret))
              && (reply == Err(HasExpired) <==> !row.status.Claimed? && late)
              && (reply == Err(StillPending) <==> row.status.Pending? && !late)
              && (reply == Err(WasRejected) <==> row.status.Rejected? && !late)
              && (reply == Err(WasRevoked) <==> row.status.Revoked? && !late)
              && (reply == Err(Conflict) <==> row.status.Approved? && !late && taken)
              && (reply == Err(Internal) <==> row.status.Approved? && !late && !taken && cred in db.credentials)
              && (reply.Ok? <==> if row.status.Claimed? then IsOwn(db, row, cred, secret)
                                 else row.status.Approved? && !late && !taken && cred !in db.credentials)
              && reply != Err(InvalidCredential)
  {
  }

  /** A text the agent reports replaces the stored one unless it is empty. */
  predicate Updated(stored: string, reported: string, now: string) {
    (reported != "" ==> now == reported) && (reported == "" ==> now == stored)
  }

  predicate Refreshed(stored: Software, reported: Software, now: Software) {
    && Updated(stored.os, reported.os, now.os)
    && Updated(stored.architecture, reported.architecture, now.architecture)
    && Updated(stored.version, reported.version, now.version)
  }

  /** What the first successful claim stores: the agent under the enrollment's terms, its credential with the
      given secret, and the enrollment as claimed by that agent now; nothing else changes. */
  lemma FirstClaimStores(db: Db, token: Token, cred: CredentialId, secret: Secret, reported: Software, clock: Time)
    requires token in db.rows && !db.rows[token].status.Claimed?
    requires Claim(db, token, cred, secret, reported, clock).1.Ok?
    ensures var (after, reply) := Claim(db, token, cred, secret, reported, clock);
            var row, n := db.rows[token], db.nextAgent;
            && token in after.rows && reply == Ok(after.rows[token])
            && n in after.agents && cred in after.credentials && after.nextAgent == n + 1
            && reply.value.status.Claimed? && reply.value.agent == Some(n) && reply.value.claimedAt == Some(db.now)
            && Refreshed(row.software, reported, reply.value.software)
            && reply.value.id == row.id && reply.value.mode == row.mode && reply.value.terms == row.terms
            && reply.value.expiresAt == row.expiresAt && reply.value.approvedAt == row.approvedAt
            && after.agents[n].terms == row.terms && after.agents[n].lastSeen == db.now
            && after.agents[n].software == reply.value.software
            && after.credentials[cred] == Credential(n, secret, false, None)
            && after.now == db.now && after.ids == db.ids && after.nextId == db.nextId
            && (forall t :: t != token ==>
                  (t in after.rows <==> t in db.rows) && (t in db.rows ==> after.rows[t] == db.rows[t]))
            && (forall a :: a in db.agents && a != n ==> a in after.agents && after.agents[a] == db.agents[a])
            && (forall c :: c in db.credentials && c != cred ==>
                  c in after.credentials && after.credentials[c] == db.credentials[c])
  {
  }

  /** A new enrollment waits if it came from a device and is approved at once if it was prepared in advance; a
      token is never used twice. */
  lemma CreateStores(db: Db, token: Token, mode: Mode, terms: Terms, software: Software, expiresAt: Time)
    ensures var (after, reply) := Create(db, token, mode, terms, software, expiresAt);
            && (token in db.rows ==> after == db && reply == Err(Internal))
            && (token !in db.rows ==>
                  && token in after.rows && reply == Ok(after.rows[token])
                  && (mode.Device? ==> reply.value.status.Pending? && reply.value.approvedAt.None?)
                  && (mode.Preauthorized? ==> reply.value.status.Approved? && reply.value.approvedAt == Some(db.now))
                  && reply.value.mode == mode && reply.value.terms == terms && reply.value.software == software
                  && reply.value.expiresAt == expiresAt && reply.value.agent.None? && reply.value.claimedAt.None?
                  && after.agents == db.agents && after.credentials == db.credentials
                  && forall t :: t in db.rows ==> t in after.rows && after.rows[t] == db.rows[t])
  {
  }

  /** An approval or rejection, by token or by id, takes effect exactly on a pending enrollment that has not
      expired; otherwise nothing changes and the answer names the state that prevents it. An approval sets the
      terms and the time, a rejection only the status. */
  lemma DecisionStores(db: Db, e: Event)
    requires Inv(db) && (e.ApproveEvent? || e.ApproveByIdEvent? || e.RejectEvent? || e.RejectByIdEvent?)
    ensures var (after, reply) := Apply(db, e);
            && (Subject(db, e).None? || Subject(db, e).value !in db.rows <==> reply == Enrolled(Err(NotFound)))
            && (reply == Enrolled(Err(NotFound)) ==> after == db)
    ensures Subject(db, e).Some? && Subject(db, e).value in db.rows ==>
              var (after, reply) := Apply(db, e);
              var t := Subject(db, e).value;
              var row := db.rows[t];
              && t in after.rows && reply.Enrolled?
              && (reply.r.Ok? <==> row.status.Pending? && db.now < row.expiresAt)
              && (reply.r == Err(HasExpired) <==>
                    (row.status.Pending? || row.status.Approved?) && row.expiresAt <= db.now)
              && (reply.r == Err(WasRejected) <==> row.status.Rejected?)
              && (reply.r == Err(WasRevoked) <==> row.status.Revoked?)
              && (reply.r == Err(AlreadyClaimed) <==> row.status.Claimed?)
              && (reply.r == Err(Conflict) <==> row.status.Approved? && db.now < row.expiresAt)
              && (reply.r.Err? ==> after == db)
              && (reply.r.Ok? ==> reply.r.value == after.rows[t] && after == db.(rows := after.rows))
              && (reply.r.Ok? && (e.ApproveEvent? || e.ApproveByIdEvent?) ==>
                    after.rows == db.rows[t := row.(status := Approved, terms := e.terms, approvedAt := Some(db.now))])
              && (reply.r.Ok? && (e.RejectEvent? || e.RejectByIdEvent?) ==>
                    after.rows == db.rows[t := row.(status := Rejected)])
  {
  }

  /** A login succeeds exactly with the secret of a credential that is not revoked; it is recorded on that
      credential and changes nothing else. */
  lemma LoginStores(db: Db, cred: CredentialId, secret: Secret)
    ensures var (after, reply) := Authenticate(db, cred, secret);
            var right := cred in db.credentials && db.credentials[cred].secret == secret
                         && !db.credentials[cred].revoked;
            && (!right ==> after == db && reply == Err(InvalidCredential))
            && (right ==>
                  && reply == Ok(db.credentials[cred].agent)
                  && after == db.(credentials :=
                                    db.credentials[cred := db.credentials[cred].(lastUsed := Some(db.now))]))
  {
  }

  /** Time passes for the database and for nothing else, and never backwards. */
  lemma TimeStores(db: Db, until: Time)
    ensures Apply(db, TimePasses(until)).0 == db.(now := if until < db.now then db.now else until)
  {
  }

  // ---- Terms over a run -----------------------------------------------------------------

  /** Once an enrollment is approved, its terms, mode and expiry stay, whatever happens. */
  lemma TermsStay(db: Db, e: Event, t: Token)
    requires t in db.rows && !db.rows[t].status.Pending?
    ensures var after := Apply(db, e).0;
            && t in after.rows && after.rows[t].terms == db.rows[t].terms && after.rows[t].mode == db.rows[t].mode
            && after.rows[t].expiresAt == db.rows[t].expiresAt && !after.rows[t].status.Pending?
  {
  }

  /** The terms of a device enrollment past its approval are those of the one approval that decided it. */
  lemma {:induction false} ApprovedTerms(start: Time, es: seq<Event>, ss: seq<Db>, j: nat, t: Token) returns (i: nat)
    requires IsRun(start, es, ss) && j < |ss| && Passed(ss[j], t)
    ensures i < j && DecidedAt(es, ss, i, t) && (es[i].ApproveEvent? || es[i].ApproveByIdEvent?)
    ensures ss[j].rows[t].terms == es[i].terms && ss[i].now < ss[j].rows[t].expiresAt
  {
    InvAlways(start, es, ss, j - 1);
    if Passed(ss[j - 1], t) {
      i := ApprovedTerms(start, es, ss, j - 1, t);
      TermsStay(ss[j - 1], es[j - 1], t);
    } else {
      i := j - 1;
      PassedBack(ss[i], es[i], t);
      DecisionStores(ss[i], es[i]);
    }
  }
}
