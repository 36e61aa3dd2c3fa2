/** Whole runs of the enrollment protocol: any interleaving of creations, decisions, claims, logins and time. */
module EnrollmentRuns {
  import opened Wrappers
  import opened Cardinality
  import opened Enrollment

  datatype Event =
    | CreateEvent(token: Token, mode: Mode, terms: Terms, software: Software, expiresAt: Time)
    | ApproveEvent(token: Token, terms: Terms)
    | RejectEvent(token: Token)
    | ApproveByIdEvent(id: EnrollmentId, terms: Terms)
    | RejectByIdEvent(id: EnrollmentId)
    | ClaimEvent(token: Token, cred: CredentialId, secret: Secret, reported: Software, clock: Time)
    | AuthenticateEvent(cred: CredentialId, secret: Secret)
    | TimePasses(now: Time)

  datatype Reply = Enrolled(r: Result<Row, Error>) | Identified(who: Result<AgentId, Error>) | Nothing

  function Apply(db: Db, e: Event): (Db, Reply) {
    match e
    case CreateEvent(t, mode, terms, software, expiresAt) =>
      var o := Create(db, t, mode, terms, software, expiresAt); (o.0, Enrolled(o.1))
    case ApproveEvent(t, terms) => var o := Approve(db, t, terms); (o.0, Enrolled(o.1))
    case RejectEvent(t) => var o := Reject(db, t); (o.0, Enrolled(o.1))
    case ApproveByIdEvent(id, terms) => var o := ApproveById(db, id, terms); (o.0, Enrolled(o.1))
    case RejectByIdEvent(id) => var o := RejectById(db, id); (o.0, Enrolled(o.1))
    case ClaimEvent(t, cred, secret, reported, clock) =>
      var o := Claim(db, t, cred, secret, reported, clock); (o.0, Enrolled(o.1))
    case AuthenticateEvent(cred, secret) => var o := Authenticate(db, cred, secret); (o.0, Identified(o.1))
    case TimePasses(now) => (if now >= db.now then db.(now := now) else db, Nothing)
  }

  /** A run starts with nothing enrolled; state `i` is what the first `i` events left. */
  ghost predicate IsRun(start: Time, es: seq<Event>, ss: seq<Db>) {
    && |ss| == |es| + 1 && ss[0] == Empty(start)
    && forall i :: 0 <= i < |es| ==> ss[i + 1] == Apply(ss[i], es[i]).0
  }

  lemma StepKeeps(db: Db, e: Event)
    requires Inv(db)
    ensures Inv(Apply(db, e).0)
  {
    match e
    case CreateEvent(t, mode, terms, software, expiresAt) => CreateKeeps(db, t, mode, terms, software, expiresAt);
    case ApproveEvent(t, terms) => ApproveKeeps(db, t, terms);
    case RejectEvent(t) => RejectKeeps(db, t);
    case ApproveByIdEvent(id, terms) => if id in db.ids { ApproveKeeps(db, db.ids[id], terms); }
    case RejectByIdEvent(id) => if id in db.ids { RejectKeeps(db, db.ids[id]); }
    case ClaimEvent(t, cred, secret, reported, clock) => ClaimKeeps(db, t, cred, secret, reported, clock);
    case AuthenticateEvent(cred, secret) => AuthenticateKeeps(db, cred, secret);
    case TimePasses(now) => OwnersSurvive(db, Apply(db, e).0);
  }

  lemma ApproveKeeps(db: Db, token: Token, terms: Terms)
    requires Inv(db)
    ensures Inv(Approve(db, token, terms).0)
  {
    if token in db.rows && Decidable(db, token) {
      DecideKeeps(db, token, db.rows[token].(status := Approved, terms := terms, approvedAt := Some(db.now)));
    }
  }

  lemma RejectKeeps(db: Db, token: Token)
    requires Inv(db)
    ensures Inv(Reject(db, token).0)
  {
    if token in db.rows && Decidable(db, token) {
      DecideKeeps(db, token, db.rows[token].(status := Rejected));
    }
  }

  lemma {:induction false} InvAlways(start: Time, es: seq<Event>, ss: seq<Db>, i: nat)
    requires IsRun(start, es, ss) && i < |ss|
    ensures Inv(ss[i])
  {
    if i == 0 {
    } else {
      InvAlways(start, es, ss, i - 1);
      StepKeeps(ss[i - 1], es[i - 1]);
    }
  }

  // ---- One to one -----------------------------------------------------------------------

  function ClaimedBy(db: Db): map<Token, AgentId> {
    map t | t in db.rows && db.rows[t].status.Claimed? && db.rows[t].agent.Some? :: db.rows[t].agent.value
  }

  function HeldBy(db: Db): map<CredentialId, AgentId> {
    map c | c in db.credentials :: db.credentials[c].agent
  }

  /** In every reachable state claimed enrollments, agents and credentials are equally many, matched one to one. */
  lemma OneToOne(start: Time, es: seq<Event>, ss: seq<Db>, i: nat)
    requires IsRun(start, es, ss) && i < |ss|
    ensures var db := ss[i];
            && ClaimedBy(db).Values == db.agents.Keys == HeldBy(db).Values
            && |ClaimedBy(db)| == |db.agents| == |db.credentials|
            && (forall t :: t in ClaimedBy(db) <==> t in db.rows && db.rows[t].status.Claimed?)
  {
    InvAlways(start, es, ss, i);
    OwnersCount(ss[i]);
    HoldersCount(ss[i]);
    assert ss[i].credentials.Keys == HeldBy(ss[i]).Keys;
  }

  lemma OwnersCount(db: Db)
    requires Inv(db)
    ensures ClaimedBy(db).Values == db.agents.Keys && |ClaimedBy(db)| == |db.agents|
  {
    var m := ClaimedBy(db);
    forall t | t in m ensures Owns(db, t, m[t]) {
    }
    forall a | a in db.agents ensures a in m.Values {
      var t :| Owns(db, t, a);
      assert t in m && m[t] == a;
    }
    InjectiveSize(m);
    assert m.Values == db.agents.Keys;
  }

  lemma HoldersCount(db: Db)
    requires Inv(db)
    ensures HeldBy(db).Values == db.agents.Keys && |HeldBy(db)| == |db.agents|
  {
    var m := HeldBy(db);
    forall c | c in m ensures Holds(db, c, m[c]) {
    }
    forall a | a in db.agents ensures a in m.Values {
      var c :| Holds(db, c, a);
      assert c in m && m[c] == a;
    }
    InjectiveSize(m);
    assert m.Values == db.agents.Keys;
  }

  // ---- Claims over a run ----------------------------------------------------------------

  lemma StepKeepsBound(db: Db, e: Event, t: Token, c: CredentialId, s: Secret, a: AgentId)
    requires Inv(db) && Bound(db, t, c, s, a)
    ensures Bound(Apply(db, e).0, t, c, s, a)
  {
  }

  lemma {:induction false} BoundForever(start: Time, es: seq<Event>, ss: seq<Db>, i: nat, j: nat, t: Token,
                                        c: CredentialId, s: Secret, a: AgentId)
    requires IsRun(start, es, ss) && i <= j < |ss| && Bound(ss[i], t, c, s, a)
    ensures Bound(ss[j], t, c, s, a)
  {
    if i == j {
    } else {
      BoundForever(start, es, ss, i, j - 1, t, c, s, a);
      InvAlways(start, es, ss, j - 1);
      StepKeepsBound(ss[j - 1], es[j - 1], t, c, s, a);
    }
  }

  /** Event `i` is a claim that succeeded and got agent `a`. */
  ghost predicate ClaimedAt(es: seq<Event>, ss: seq<Db>, i: nat, t: Token, c: CredentialId, s: Secret, a: AgentId)
    requires |ss| == |es| + 1
  {
    && i < |es| && es[i].ClaimEvent? && es[i].token == t && es[i].cred == c && es[i].secret == s
    && var reply := Apply(ss[i], es[i]).1; reply.r.Ok? && reply.r.value.agent == Some(a)
  }

  /** A claim retried at any later time with the same credential returns the same agent and creates nothing;
      with any other credential it is refused and changes nothing. */
  lemma RetriesAfterSuccess(start: Time, es: seq<Event>, ss: seq<Db>, i: nat, j: nat, t: Token, c: CredentialId,
                            s: Secret, a: AgentId)
    requires IsRun(start, es, ss) && i < j < |es| && ClaimedAt(es, ss, i, t, c, s, a)
    requires es[j].ClaimEvent? && es[j].token == t
    ensures ss[j + 1] == ss[j]
    ensures es[j].cred == c && es[j].secret == s ==> ClaimedAt(es, ss, j, t, c, s, a)
    ensures es[j].cred != c || es[j].secret != s ==> Apply(ss[j], es[j]).1 == Enrolled(Err(AlreadyClaimed))
  {
    BoundAfterClaim(start, es, ss, i, j, t, c, s, a);
    InvAlways(start, es, ss, j);
    BoundDecidesClaims(ss[j], t, c, s, a, es[j].cred, es[j].secret, es[j].reported, es[j].clock);
  }

  lemma BoundAfterClaim(start: Time, es: seq<Event>, ss: seq<Db>, i: nat, j: nat, t: Token, c: CredentialId, s: Secret,
                        a: AgentId)
    requires IsRun(start, es, ss) && i < j < |ss| && ClaimedAt(es, ss, i, t, c, s, a)
    ensures Bound(ss[j], t, c, s, a)
  {
    InvAlways(start, es, ss, i);
    ClaimBinds(ss[i], t, c, s, es[i].reported, es[i].clock);
    assert ss[i + 1] == Apply(ss[i], es[i]).0;
    BoundForever(start, es, ss, i + 1, j, t, c, s, a);
  }

  /** After a successful claim the credential logs in as that agent forever, and only with its own secret. */
  lemma LoginsAfterSuccess(start: Time, es: seq<Event>, ss: seq<Db>, i: nat, j: nat, t: Token, c: CredentialId,
                           s: Secret, a: AgentId)
    requires IsRun(start, es, ss) && i < j < |es| && ClaimedAt(es, ss, i, t, c, s, a)
    requires es[j].AuthenticateEvent? && es[j].cred == c
    ensures Apply(ss[j], es[j]).1 == Identified(if es[j].secret == s then Ok(a) else Err(InvalidCredential))
  {
    BoundAfterClaim(start, es, ss, i, j, t, c, s, a);
    InvAlways(start, es, ss, j);
    BoundAuthenticates(ss[j], t, c, s, a, es[j].secret);
  }

  /** Two successful claims of one enrollment got the same agent through the same credential, and two
      enrollments never share an agent. */
  lemma ExactlyOneAgent(start: Time, es: seq<Event>, ss: seq<Db>, i: nat, j: nat, t: Token, t': Token,
                        c: CredentialId, c': CredentialId, s: Secret, s': Secret, a: AgentId, a': AgentId)
    requires IsRun(start, es, ss) && i < j && ClaimedAt(es, ss, i, t, c, s, a) && ClaimedAt(es, ss, j, t', c', s', a')
    ensures t == t' <==> a == a'
    ensures t == t' <==> c == c'
    ensures t == t' ==> s == s'
  {
    BoundAfterClaim(start, es, ss, i, j + 1, t, c, s, a);
    BoundAfterClaim(start, es, ss, j, j + 1, t', c', s', a');
    InvAlways(start, es, ss, j + 1);
  }

  lemma StepBoundBack(db: Db, e: Event, t: Token, c: CredentialId, s: Secret, a: AgentId)
    requires Inv(db) && Bound(Apply(db, e).0, t, c, s, a) && !Bound(db, t, c, s, a)
    ensures e.ClaimEvent? && e.token == t && e.cred == c && e.secret == s
    ensures Apply(db, e).1.r.Ok? && Apply(db, e).1.r.value.agent == Some(a)
  {
    assert Owns(db, t, a) ==> a in db.agents;
    assert Enrollment.Holds(db, c, a) ==> a in db.agents;
  }

  lemma {:induction false} BoundByClaim(start: Time, es: seq<Event>, ss: seq<Db>, j: nat, t: Token, c: CredentialId,
                                        s: Secret, a: AgentId)
    returns (i: nat)
    requires IsRun(start, es, ss) && j < |ss| && Bound(ss[j], t, c, s, a)
    ensures i < j && ClaimedAt(es, ss, i, t, c, s, a)
  {
    InvAlways(start, es, ss, j - 1);
    if Bound(ss[j - 1], t, c, s, a) {
      i := BoundByClaim(start, es, ss, j - 1, t, c, s, a);
    } else {
      i := j - 1;
      StepBoundBack(ss[i], es[i], t, c, s, a);
    }
  }

  /** Every login that succeeds traces back to a successful claim with exactly that credential. */
  lemma LoginsComeFromClaims(start: Time, es: seq<Event>, ss: seq<Db>, j: nat)
    requires IsRun(start, es, ss) && j < |es| && es[j].AuthenticateEvent? && Apply(ss[j], es[j]).1.who.Ok?
    ensures exists i, t ::
              0 <= i < j && ClaimedAt(es, ss, i, t, es[j].cred, es[j].secret, Apply(ss[j], es[j]).1.who.value)
  {
    var a := Apply(ss[j], es[j]).1.who.value;
    InvAlways(start, es, ss, j);
    assert Enrollment.Holds(ss[j], es[j].cred, a);
    var t :| Owns(ss[j], t, a);
    var i := BoundByClaim(start, es, ss, j, t, es[j].cred, es[j].secret, a);
  }

  // ---- Decisions ------------------------------------------------------------------------

  /** The enrollment an approval or rejection is about. */
  function Subject(db: Db, e: Event): Option<Token> {
    match e
    case ApproveEvent(t, _) => Some(t)
    case RejectEvent(t) => Some(t)
    case ApproveByIdEvent(id, _) => if id in db.ids then Some(db.ids[id]) else None
    case RejectByIdEvent(id) => if id in db.ids then Some(db.ids[id]) else None
    case _ => None
  }

  ghost predicate DecidedAt(es: seq<Event>, ss: seq<Db>, i: nat, t: Token)
    requires |ss| == |es| + 1
  {
    i < |es| && Subject(ss[i], es[i]) == Some(t) && Apply(ss[i], es[i]).1.r.Ok?
  }

  predicate Settled(db: Db, t: Token) {
    t in db.rows && !db.rows[t].status.Pending?
  }

  lemma StepKeepsSettled(db: Db, e: Event, t: Token)
    requires Settled(db, t)
    ensures Settled(Apply(db, e).0, t)
  {
  }

  lemma {:induction false} SettledForever(start: Time, es: seq<Event>, ss: seq<Db>, i: nat, j: nat, t: Token)
    requires IsRun(start, es, ss) && i <= j < |ss| && Settled(ss[i], t)
    ensures Settled(ss[j], t)
  {
    if i == j {
    } else {
      SettledForever(start, es, ss, i, j - 1, t);
      StepKeepsSettled(ss[j - 1], es[j - 1], t);
    }
  }

  /** Of all approvals and rejections of one enrollment, by token or by id, at most one succeeds. */
  lemma OneDecisionWins(start: Time, es: seq<Event>, ss: seq<Db>, i: nat, j: nat, t: Token)
    requires IsRun(start, es, ss) && i < j && DecidedAt(es, ss, i, t)
    ensures !DecidedAt(es, ss, j, t)
  {
    if j < |es| {
      assert ss[i + 1] == Apply(ss[i], es[i]).0;
      assert Settled(ss[i + 1], t);
      SettledForever(start, es, ss, i + 1, j, t);
    }
  }

  /** A device enrollment that got past its approval. */
  predicate Passed(db: Db, t: Token) {
    t in db.rows && db.rows[t].mode.Device? && (db.rows[t].status.Claimed? || db.rows[t].status.Approved?)
  }

  predicate Approves(e: Event) { e.ApproveEvent? || e.ApproveByIdEvent? }

  lemma PassedBack(db: Db, e: Event, t: Token)
    requires Passed(Apply(db, e).0, t) && !Passed(db, t)
    ensures Subject(db, e) == Some(t) && Approves(e) && Apply(db, e).1.r.Ok?
  {
  }

  lemma {:induction false} ApprovalOf(start: Time, es: seq<Event>, ss: seq<Db>, j: nat, t: Token) returns (i: nat)
    requires IsRun(start, es, ss) && j < |ss| && Passed(ss[j], t)
    ensures i < j && DecidedAt(es, ss, i, t) && Approves(es[i])
  {
    if Passed(ss[j - 1], t) {
      i := ApprovalOf(start, es, ss, j - 1, t);
    } else {
      i := j - 1;
      PassedBack(ss[i], es[i], t);
    }
  }

  /** A device enrollment is claimed only after an approval, so never after a rejection. */
  lemma ClaimNeedsApproval(start: Time, es: seq<Event>, ss: seq<Db>, j: nat, t: Token)
    requires IsRun(start, es, ss) && j < |ss| && Passed(ss[j], t)
    ensures exists i :: 0 <= i < j && DecidedAt(es, ss, i, t) && Approves(es[i])
    ensures forall i :: 0 <= i < j && DecidedAt(es, ss, i, t) ==> Approves(es[i])
  {
    var i := ApprovalOf(start, es, ss, j, t);
    forall k | 0 <= k < j && DecidedAt(es, ss, k, t) ensures k == i {
      if k < i { OneDecisionWins(start, es, ss, k, i, t); }
      if i < k { OneDecisionWins(start, es, ss, i, k, t); }
    }
  }
}
