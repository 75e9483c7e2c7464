/**
 Idle expiry is stored, and written at most once an hour. Against the ideal sliding timeout
 (accept while the last use is less than the timeout ago) it errs by less than that hour.
 */
module IdleTimeout {
  import opened Base
  import opened Credentials
  import opened AuthTables
  import opened Invariants
  import opened AuthAnswers
  import opened PurgeTransparency
  import opened CredentialBound
  import opened DeviceLogin

  /** Does this event issue, provision or accept the secret? */
  predicate Uses(op: Op, reply: Reply, kind: Kind, secret: string) {
    match op
    case Create(k, _, _, s) => k == kind && s == secret && reply.Created? && reply.created.Ok?
    case PollDevice(_, _, s) =>
      kind.Token? && s == secret && reply.Polled? && reply.polled.Ok? && reply.polled.value.Authorized?
    case Authenticate(k, s) =>
      k == kind && s == secret && reply.Answered? && reply.answer.Ok? && reply.answer.value.Some?
    case Provision(_, s, _) => kind.Token? && s == secret && reply.Provisioned? && reply.provisioned.Ok?
    case _ => false
  }

  /** When the secret was last issued, provisioned or accepted in a run. */
  ghost function LastUse(t: Tables, es: seq<Event>, kind: Kind, secret: string): Option<nat> {
    if es == [] then None
    else
      var n := |es| - 1;
      if Uses(es[n].op, ReplyAt(t, es, n), kind, secret) then Some(es[n].now) else LastUse(t, es[..n], kind, secret)
  }

  /** The stored expiry is the timeout after a roll that is less than an hour older than the last use. */
  predicate LagsLessThanAnHour(c: Credential, used: Option<nat>, timeout: nat) {
    c.revokedAt.None? ==>
      used.Some? && c.lastUsedAt <= used.value < c.lastUsedAt + ROLLING_UPDATE_INTERVAL_SECONDS &&
        c.expiresAt == c.lastUsedAt + timeout
  }

  predicate SecretLags(rows: Rows, hash: Digest, used: Option<nat>, timeout: nat) {
    forall id :: id in rows && rows[id].hash == hash ==> LagsLessThanAnHour(rows[id], used, timeout)
  }

  lemma AuthenticateLags(rows: Rows, secret: string, used: Option<nat>, timeout: nat, now: Instant)
    requires UniqueHashes(rows) && SecretLags(rows, SecretHash(secret), used, timeout)
    requires used.Some? ==> used.value <= now
    ensures
      var (after, reply) := AuthenticateCredential(rows, secret, timeout, now);
      SecretLags(after, SecretHash(secret), if reply.Ok? && reply.value.Some? then Some(now) else used, timeout)
  {
    var (after, reply) := AuthenticateCredential(rows, secret, timeout, now);
    var found := Find(rows, SecretHash(secret));
    if secret != "" && found.Some? {
      var id: int := found.value;
      assert id in rows && LagsLessThanAnHour(rows[id], used, timeout);
      forall k | k in after && after[k].hash == SecretHash(secret)
        ensures LagsLessThanAnHour(after[k], if reply.Ok? && reply.value.Some? then Some(now) else used, timeout)
      {
        assert k in rows && rows[k].hash == rows[id].hash && k == id;
      }
    }
  }

  lemma AuthenticateOtherLags(rows: Rows, secret: string, hash: Digest, used: Option<nat>, timeout: nat, now: Instant)
    requires SecretLags(rows, hash, used, timeout) && SecretHash(secret) != hash
    ensures SecretLags(AuthenticateCredential(rows, secret, timeout, now).0, hash, used, timeout)
  {
    var found := Find(rows, SecretHash(secret));
    if found.Some? {
      var id: int := found.value;
      assert id in rows;
    }
  }

  lemma InsertLags(t: Table<Credential>, principals: set<int>, principal: int, secret: string,
                   tokenLabel: Option<string>,
                   now: Instant, hash: Digest, used: Option<nat>, timeout: nat)
    requires SecretLags(t.rows, hash, used, timeout)
    ensures
      var (after, reply) := InsertAndPrune(t, principals, principal, secret, tokenLabel, now + timeout, now);
      SecretLags(after.rows, hash, if reply.Ok? && SecretHash(secret) == hash then Some(now) else used, timeout)
  {
  }

  lemma RevokeLags(rows: Rows, ids: set<int>, now: int, hash: Digest, used: Option<nat>, timeout: nat)
    requires SecretLags(rows, hash, used, timeout)
    ensures SecretLags(RevokeRows(rows, ids, now), hash, used, timeout)
  {
  }

  lemma RevocationLags(t: Tables, e: Event, kind: Kind, hash: Digest, used: Option<nat>)
    requires Revocation(e.op) && SecretLags(t.Of(kind).rows, hash, used, t.Timeout(kind))
    ensures SecretLags(Step(t, e).tables.Of(kind).rows, hash, used, t.Timeout(kind))
  {
    var rows := t.Of(kind).rows;
    match e.op
    case RevokeSecret(k, s) => RevokeLags(rows, WithHash(rows, SecretHash(s)), e.now, hash, used, t.Timeout(kind));
    case RevokeTokenById(id) => RevokeLags(rows, {id}, e.now, hash, used, t.Timeout(kind));
    case RevokePrincipal(p) => RevokeLags(rows, OfPrincipal(rows, p), e.now, hash, used, t.Timeout(kind));
    case RevokeManaged => RevokeLags(rows, ManagedRows(rows), e.now, hash, used, t.Timeout(kind));
  }

  lemma PollLags(t: Tables, e: Event, hash: Digest, used: Option<nat>)
    requires e.op.PollDevice? && SecretLags(t.tokens.rows, hash, used, t.tokenTimeout)
    ensures
      var reply := Step(t, e).reply.polled;
      SecretLags(Step(t, e).tables.tokens.rows, hash,
                 if reply.Ok? && reply.value.Authorized? && SecretHash(e.op.secret) == hash then Some(e.now) else used,
                 t.tokenTimeout)
  {
    var found := FlowOf(t.devices.rows, SecretHash(e.op.deviceCode));
    if found.Some? {
      var row := t.devices.rows[found.value];
      if row.approvedPrincipal.Some? {
        InsertLags(t.tokens, t.principals, row.approvedPrincipal.value, e.op.secret, e.op.tokenLabel, e.now, hash,
                   used, t.tokenTimeout);
      }
    }
  }

  lemma ProvisionLags(t: Tables, e: Event, hash: Digest, used: Option<nat>)
    requires e.op.Provision? && UniqueHashes(t.tokens.rows) && SecretLags(t.tokens.rows, hash, used, t.tokenTimeout)
    ensures
      var done := Step(t, e).reply.provisioned.Ok? && SecretHash(e.op.secret) == hash;
      SecretLags(Step(t, e).tables.tokens.rows, hash, if done then Some(e.now) else used, t.tokenTimeout)
  {
    var rows, hits := t.tokens.rows, WithHash(t.tokens.rows, SecretHash(e.op.secret));
    var id: int := if hits == {} then t.tokens.nextId else AnyOf(hits);
    assert hits != {} ==> id in hits;
    forall k | k in rows && rows[k].hash == SecretHash(e.op.secret) ensures k == id {
      assert k in hits;
    }
  }

  lemma CreateLags(t: Tables, e: Event, kind: Kind, secret: string, used: Option<nat>)
    requires e.op.Create? && SecretLags(t.Of(kind).rows, SecretHash(secret), used, t.Timeout(kind))
    ensures SecretLags(Step(t, e).tables.Of(kind).rows, SecretHash(secret),
                       if Uses(e.op, Step(t, e).reply, kind, secret) then Some(e.now) else used, t.Timeout(kind))
  {
    if e.op.kind == kind {
      InsertLags(t.Of(kind), t.principals, e.op.principal, e.op.secret, SessionLabel(kind, e.op.tokenLabel), e.now,
                 SecretHash(secret), used, t.Timeout(kind));
    }
  }

  lemma AuthenticationLags(t: Tables, e: Event, kind: Kind, secret: string, used: Option<nat>)
    requires e.op.Authenticate? && WellFormed(t, e.now) && (used.Some? ==> used.value <= e.now)
    requires SecretLags(t.Of(kind).rows, SecretHash(secret), used, t.Timeout(kind))
    ensures SecretLags(Step(t, e).tables.Of(kind).rows, SecretHash(secret),
                       if Uses(e.op, Step(t, e).reply, kind, secret) then Some(e.now) else used, t.Timeout(kind))
  {
    if e.op.kind == kind {
      if e.op.secret == secret {
        AuthenticateLags(t.Of(kind).rows, secret, used, t.Timeout(kind), e.now);
      } else {
        AuthenticateOtherLags(t.Of(kind).rows, e.op.secret, SecretHash(secret), used, t.Timeout(kind), e.now);
      }
    }
  }

  lemma StepLags(t: Tables, e: Event, kind: Kind, secret: string, used: Option<nat>)
    requires WellFormed(t, e.now) && (used.Some? ==> used.value <= e.now)
    requires SecretLags(t.Of(kind).rows, SecretHash(secret), used, t.Timeout(kind))
    ensures SecretLags(Step(t, e).tables.Of(kind).rows, SecretHash(secret),
                       if Uses(e.op, Step(t, e).reply, kind, secret) then Some(e.now) else used, t.Timeout(kind))
    ensures Step(t, e).tables.Timeout(kind) == t.Timeout(kind)
  {
    var hash := SecretHash(secret);
    match e.op
    case Create(_, _, _, _) => CreateLags(t, e, kind, secret, used);
    case Authenticate(_, _) => AuthenticationLags(t, e, kind, secret, used);
    case RevokeSecret(_, _) => RevocationLags(t, e, kind, hash, used);
    case RevokeTokenById(_) => RevocationLags(t, e, kind, hash, used);
    case RevokePrincipal(_) => RevocationLags(t, e, kind, hash, used);
    case RevokeManaged => RevocationLags(t, e, kind, hash, used);
    case PollDevice(_, _, _) =>
      if kind.Token? {
        PollLags(t, e, hash, used);
      }
    case Provision(_, _, _) =>
      if kind.Token? {
        ProvisionLags(t, e, hash, used);
      }
    case _ =>
  }

  lemma {:induction false} RunLags(t: Tables, es: seq<Event>, start: int, kind: Kind, secret: string)
    requires WellFormed(t, start) && Clocked(es) && (es != [] ==> start <= es[0].now)
    requires !HashTaken(t.Of(kind).rows, SecretHash(secret))
    ensures SecretLags(Run(t, es).Of(kind).rows, SecretHash(secret), LastUse(t, es, kind, secret), t.Timeout(kind))
    ensures LastUse(t, es, kind, secret).Some? ==> es != [] && LastUse(t, es, kind, secret).value <= es[|es|-1].now
    ensures Run(t, es).Timeout(kind) == t.Timeout(kind)
  {
    if es != [] {
      var n := |es| - 1;
      RunLags(t, es[..n], start, kind, secret);
      RunKeepsWellFormed(t, es[..n], start);
      WellFormedLater(Run(t, es[..n]), LastTime(es[..n], start), es[n].now);
      StepLags(Run(t, es[..n]), es[n], kind, secret, LastUse(t, es[..n], kind, secret));
    }
  }

  /** The answer a secret gets at `now` after a run. */
  ghost function AnswerAfter(t: Tables, es: seq<Event>, kind: Kind, secret: string,
                             now: Instant): Result<Option<Authenticated>> {
    Step(Run(t, es), Event(now, Authenticate(kind, secret))).reply.answer
  }

  /** Once the full timeout has passed since the last use, the secret is refused, whatever else happened. */
  lemma RefusedAfterTimeout(t: Tables, es: seq<Event>, start: int, kind: Kind, secret: string, now: Instant)
    requires WellFormed(t, start) && Clocked(es) && (es != [] ==> start <= es[0].now)
    requires !HashTaken(t.Of(kind).rows, SecretHash(secret))
    requires
      var used := LastUse(t, es, kind, secret);
      used.Some? ==> now - used.value >= t.Timeout(kind)
    ensures AnswerAfter(t, es, kind, secret, now) == Ok(None)
  {
    RunLags(t, es, start, kind, secret);
    var rows := Run(t, es).Of(kind).rows;
    var found := Find(rows, SecretHash(secret));
    if found.Some? {
      var id: int := found.value;
      assert id in rows && LagsLessThanAnHour(rows[id], LastUse(t, es, kind, secret), t.Timeout(kind));
    }
  }

  // ----- acceptance -----

  predicate LiveSecret(rows: Rows, id: int, hash: Digest, now: int) {
    Live(rows, id, now) && rows[id].hash == hash
  }

  /** This event ends a live credential: it is revoked or evicted before its time. */
  ghost predicate EndsEarly(t: Tables, e: Event, kind: Kind, secret: string, id: int) {
    LiveSecret(t.Of(kind).rows, id, SecretHash(secret), e.now) &&
    !LiveSecret(Step(t, e).tables.Of(kind).rows, id, SecretHash(secret), e.now)
  }

  ghost predicate NeverEndedEarly(t: Tables, es: seq<Event>, kind: Kind, secret: string) {
    forall k, id :: 0 <= k < |es| ==> !EndsEarly(Run(t, es[..k]), es[k], kind, secret, id)
  }

  lemma AcceptedIsLive(rows: Rows, secret: string, timeout: nat, now: Instant) returns (id: int)
    requires var reply := AuthenticateCredential(rows, secret, timeout, now).1; reply.Ok? && reply.value.Some?
    ensures LiveSecret(AuthenticateCredential(rows, secret, timeout, now).0, id, SecretHash(secret), now)
  {
    id := Find(rows, SecretHash(secret)).value;
    assert id in rows;
  }

  lemma IssuedIsLive(t: Table<Credential>, principals: set<int>, principal: int, secret: string,
                     tokenLabel: Option<string>,
                     expiresAt: int, now: Instant)
    requires CredentialsOk(t, now) && expiresAt > now
    requires InsertAndPrune(t, principals, principal, secret, tokenLabel, expiresAt, now).1.Ok?
    ensures LiveSecret(InsertAndPrune(t, principals, principal, secret, tokenLabel, expiresAt, now).0.rows, t.nextId,
                       SecretHash(secret), now)
  {
    IssueKeepsNewest(t, principals, principal, secret, tokenLabel, expiresAt, now);
  }

  lemma CreateIsInsert(t: Tables, kind: Kind, principal: int, tokenLabel: Option<string>, secret: string, now: Instant)
    returns (after: Table<Credential>)
    requires CreateStep(t, kind, principal, tokenLabel, secret, now).reply.created.Ok?
    ensures ExpiryFrom(now, t.Timeout(kind)).Ok?
    ensures
      var inserted := InsertAndPrune(t.Of(kind), t.principals, principal, secret, SessionLabel(kind, tokenLabel),
                                     now + t.Timeout(kind), now);
      inserted.1.Ok? && after == inserted.0
    ensures after == CreateStep(t, kind, principal, tokenLabel, secret, now).tables.Of(kind)
  {
    after := CreateStep(t, kind, principal, tokenLabel, secret, now).tables.Of(kind);
  }

  lemma CreatedIsLive(t: Tables, kind: Kind, principal: int, tokenLabel: Option<string>, secret: string, now: Instant)
    requires WellFormed(t, now) && CreateStep(t, kind, principal, tokenLabel, secret, now).reply.created.Ok?
    ensures LiveSecret(CreateStep(t, kind, principal, tokenLabel, secret, now).tables.Of(kind).rows, t.Of(kind).nextId,
                       SecretHash(secret), now)
  {
    var after := CreateIsInsert(t, kind, principal, tokenLabel, secret, now);
    IssuedIsLive(t.Of(kind), t.principals, principal, secret, SessionLabel(kind, tokenLabel), now + t.Timeout(kind),
                 now);
    assert LiveSecret(after.rows, t.Of(kind).nextId, SecretHash(secret), now);
  }

  lemma DeliveredIsLive(t: Tables, e: Event)
    requires WellFormed(t, e.now) && e.op.PollDevice?
    requires Step(t, e).reply.polled.Ok? && Step(t, e).reply.polled.value.Authorized?
    ensures LiveSecret(Step(t, e).tables.tokens.rows, t.tokens.nextId, SecretHash(e.op.secret), e.now)
  {
    var principal := DeliveryInserts(t, e);
    IssuedIsLive(t.tokens, t.principals, principal, e.op.secret, e.op.tokenLabel, e.now + t.tokenTimeout, e.now);
  }

  lemma ProvisionedIsLive(t: Tables, e: Event) returns (id: int)
    requires e.op.Provision? && Step(t, e).reply.provisioned.Ok?
    ensures LiveSecret(Step(t, e).tables.tokens.rows, id, SecretHash(e.op.secret), e.now)
  {
    id := Step(t, e).reply.provisioned.value;
    var hits := WithHash(t.tokens.rows, SecretHash(e.op.secret));
    assert hits != {} ==> AnyOf(hits) in hits;
  }

  /** A secret that is issued, provisioned or accepted is live right after. */
  lemma UsedIsLive(t: Tables, e: Event, kind: Kind, secret: string) returns (id: int)
    requires WellFormed(t, e.now) && Uses(e.op, Step(t, e).reply, kind, secret)
    ensures LiveSecret(Step(t, e).tables.Of(kind).rows, id, SecretHash(secret), e.now)
  {
    id := t.Of(kind).nextId;
    match e.op
    case Create(k, principal, tokenLabel, s) => CreatedIsLive(t, k, principal, tokenLabel, s, e.now);
    case Authenticate(k, s) => id := AcceptedIsLive(t.Of(k).rows, s, t.Timeout(k), e.now);
    case PollDevice(code, tokenLabel, s) => DeliveredIsLive(t, e);
    case Provision(_, _, _) => id := ProvisionedIsLive(t, e);
  }

  lemma {:induction false} StaysLive(t: Tables, es: seq<Event>, start: int, kind: Kind, secret: string)
    returns (id: int)
    requires WellFormed(t, start) && Clocked(es) && (es != [] ==> start <= es[0].now)
    requires !HashTaken(t.Of(kind).rows, SecretHash(secret))
    requires NeverEndedEarly(t, es, kind, secret)
    requires
      var used := LastUse(t, es, kind, secret);
      used.Some? && LastTime(es, start) - used.value <= t.Timeout(kind) - ROLLING_UPDATE_INTERVAL_SECONDS
    ensures LiveSecret(Run(t, es).Of(kind).rows, id, SecretHash(secret), LastTime(es, start))
  {
    var n := |es| - 1;
    var before, e := Run(t, es[..n]), es[n];
    RunKeepsWellFormed(t, es[..n], start);
    WellFormedLater(before, LastTime(es[..n], start), e.now);
    if Uses(e.op, ReplyAt(t, es, n), kind, secret) {
      id := UsedIsLive(before, e, kind, secret);
    } else {
      assert NeverEndedEarly(t, es[..n], kind, secret) by {
        forall k, i | 0 <= k < n ensures !EndsEarly(Run(t, es[..n][..k]), es[..n][k], kind, secret, i) {
          assert es[..n][..k] == es[..k] && es[..n][k] == es[k];
        }
      }
      id := StaysLive(t, es[..n], start, kind, secret);
      RunLags(t, es[..n], start, kind, secret);
      assert LagsLessThanAnHour(before.Of(kind).rows[id], LastUse(t, es[..n], kind, secret), t.Timeout(kind));
      assert LiveSecret(before.Of(kind).rows, id, SecretHash(secret), e.now);
      assert !EndsEarly(Run(t, es[..n]), es[n], kind, secret, id);
    }
  }

  /**
   Up to one hour before the timeout, a secret that was never revoked or evicted is accepted; the one
   exception is a new expiry that would not fit in 64 bits.
   */
  lemma AcceptedWithinTimeout(t: Tables, es: seq<Event>, start: int, kind: Kind, secret: string, now: Instant)
    requires WellFormed(t, start) && Clocked(es) && (es != [] ==> start <= es[0].now)
    requires !HashTaken(t.Of(kind).rows, SecretHash(secret))
    requires NeverEndedEarly(t, es, kind, secret) && secret != "" && LastTime(es, start) <= now
    requires
      var used := LastUse(t, es, kind, secret);
      used.Some? && now - used.value <= t.Timeout(kind) - ROLLING_UPDATE_INTERVAL_SECONDS
    ensures
      var answer := AnswerAfter(t, es, kind, secret, now);
      (answer.Ok? && answer.value.Some?) || (answer == Err(DurationOverflow) && now + t.Timeout(kind) > I64_MAX)
  {
    var id := StaysLive(t, es, start, kind, secret);
    RunLags(t, es, start, kind, secret);
    RunKeepsWellFormed(t, es, start);
    var rows := Run(t, es).Of(kind).rows;
    assert LagsLessThanAnHour(rows[id], LastUse(t, es, kind, secret), t.Timeout(kind));
    var found := Find(rows, SecretHash(secret));
    assert found.Some? && rows[found.value].hash == rows[id].hash;
    assert found.value == id;
  }

  /** ORDER BY created_at DESC, id DESC across two states. */
  predicate NewerThan(row: Credential, id: int, other: Credential, otherId: int) {
    row.createdAt > other.createdAt || (row.createdAt == other.createdAt && id > otherId)
  }

  /** The principal of the row is left with 32 dynamic credentials, every one of them newer. */
  predicate EvictedByFullSet(before: Rows, after: Rows, id: int) {
    && id in before && !Managed(before[id].tokenLabel)
    && |Dynamic(after, before[id].principal)| == MAX_ACTIVE_CREDENTIALS_PER_PRINCIPAL
    && forall k :: k in Dynamic(after, before[id].principal) ==> NewerThan(after[k], k, before[id], id)
  }

  lemma Evicted(t: Table<Credential>, principals: set<int>, principal: int, secret: string, tokenLabel: Option<string>,
                expiresAt: int, now: Instant, id: int)
    requires CredentialsOk(t, now) && expiresAt > now && Live(t.rows, id, now)
    requires InsertAndPrune(t, principals, principal, secret, tokenLabel, expiresAt, now).1.Ok?
    ensures
      var after := InsertAndPrune(t, principals, principal, secret, tokenLabel, expiresAt, now).0.rows;
      (id in after && after[id] == t.rows[id]) ||
      (t.rows[id].principal == principal && EvictedByFullSet(t.rows, after, id))
  {
    IssueKeepsNewest(t, principals, principal, secret, tokenLabel, expiresAt, now);
    var rows := t.rows[t.nextId := NewRow(principal, secret, tokenLabel, now, expiresAt)];
    var after := Prune(rows, principal, now);
    var candidates, kept := ActiveDynamic(rows, principal, now), Dynamic(after, principal);
    if t.rows[id].principal == principal && !Managed(t.rows[id].tokenLabel) {
      assert Live(rows, id, now) && id in candidates;
      if |candidates| < MAX_ACTIVE_CREDENTIALS_PER_PRINCIPAL {
        SameCard(kept, candidates);
        assert id in kept;
      }
      if id !in kept {
        forall k | k in kept ensures NewerThan(after[k], k, t.rows[id], id) {
          assert Newer(rows, k, id) && after[k] == rows[k];
        }
      }
    }
  }

  lemma AuthenticateKeepsLive(rows: Rows, secret: string, timeout: nat, now: Instant, id: int)
    requires Live(rows, id, now)
    ensures var after := AuthenticateCredential(rows, secret, timeout, now).0;
      Live(after, id, now) && after[id].hash == rows[id].hash
  {
    var found := Find(rows, SecretHash(secret));
    if found.Some? {
      var hit: int := found.value;
      assert hit in rows;
    }
  }

  lemma CreateEvicts(t: Tables, kind: Kind, principal: int, tokenLabel: Option<string>, secret: string, now: Instant,
                     id: int)
    requires WellFormed(t, now) && Live(t.Of(kind).rows, id, now)
    ensures
      var before, after := t.Of(kind).rows,
        CreateStep(t, kind, principal, tokenLabel, secret, now).tables.Of(kind).rows;
      (id in after && after[id] == before[id]) || EvictedByFullSet(before, after, id)
  {
    if CreateStep(t, kind, principal, tokenLabel, secret, now).reply.created.Ok? {
      var after := CreateIsInsert(t, kind, principal, tokenLabel, secret, now);
      Evicted(t.Of(kind), t.principals, principal, secret, SessionLabel(kind, tokenLabel), now + t.Timeout(kind), now,
              id);
    }
  }

  lemma InsertEvicts(t: Table<Credential>, principals: set<int>, principal: int, secret: string,
                     tokenLabel: Option<string>,
                     expiresAt: int, now: Instant, id: int, after: Rows)
    requires CredentialsOk(t, now) && expiresAt > now && Live(t.rows, id, now)
    requires InsertAndPrune(t, principals, principal, secret, tokenLabel, expiresAt, now).1.Ok?
    requires after == InsertAndPrune(t, principals, principal, secret, tokenLabel, expiresAt, now).0.rows
    ensures (id in after && after[id] == t.rows[id]) || EvictedByFullSet(t.rows, after, id)
  {
    Evicted(t, principals, principal, secret, tokenLabel, expiresAt, now, id);
  }

  lemma PollEvicts(t: Tables, e: Event, id: int, after: Rows)
    requires WellFormed(t, e.now) && e.op.PollDevice? && Live(t.tokens.rows, id, e.now)
    requires after == Step(t, e).tables.tokens.rows
    ensures (id in after && after[id] == t.tokens.rows[id]) || EvictedByFullSet(t.tokens.rows, after, id)
  {
    PollOnlyDelivers(t, e);
    if Step(t, e).reply.polled.Ok? && Step(t, e).reply.polled.value.Authorized? {
      var principal := DeliveryInserts(t, e);
      InsertEvicts(t.tokens, t.principals, principal, e.op.secret, e.op.tokenLabel, e.now + t.tokenTimeout, e.now, id,
                   after);
    }
  }

  lemma ProvisionKeepsLive(t: Tables, e: Event, id: int)
    requires e.op.Provision? && Live(t.tokens.rows, id, e.now) && t.tokens.nextId !in t.tokens.rows
    ensures Live(Step(t, e).tables.tokens.rows, id, e.now)
    ensures Step(t, e).tables.tokens.rows[id].hash == t.tokens.rows[id].hash
  {
    var hits := WithHash(t.tokens.rows, SecretHash(e.op.secret));
    assert hits != {} ==> AnyOf(hits) in hits;
  }

  /** Nothing but a revocation that covers it, or an eviction by a full set of newer ones, ends a credential early. */
  lemma OnlyRevocationOrEviction(t: Tables, e: Event, kind: Kind, secret: string, id: int)
    requires WellFormed(t, e.now) && EndsEarly(t, e, kind, secret, id)
    ensures
      || Covers(e.op, kind, t.Of(kind).rows[id], id)
      || ((e.op.Create? || e.op.PollDevice?) && EvictedByFullSet(t.Of(kind).rows, Step(t, e).tables.Of(kind).rows, id))
  {
    match e.op
    case Create(k, principal, tokenLabel, s) =>
      if k == kind {
        CreateEvicts(t, k, principal, tokenLabel, s, e.now, id);
      }
    case Authenticate(k, s) => AuthenticateKeepsLive(t.Of(kind).rows, s, t.Timeout(kind), e.now, id);
    case PollDevice(_, _, _) =>
      PollOnlyDelivers(t, e);
      if kind.Token? {
        PollEvicts(t, e, id, Step(t, e).tables.tokens.rows);
      }
    case Provision(_, _, _) =>
      if kind.Token? {
        ProvisionKeepsLive(t, e, id);
      }
    case RevokeSecret(_, _) => RevocationIsExact(t, e);
    case RevokeTokenById(_) => RevocationIsExact(t, e);
    case RevokePrincipal(_) => RevocationIsExact(t, e);
    case RevokeManaged => RevocationIsExact(t, e);
    case _ =>
  }

  /**
   Writes of the idle expiry are at least an hour apart, unless the token is provisioned again, and restart
   the full timeout.
   */
  lemma RollsAreHourly(t: Tables, e: Event, kind: Kind, id: int)
    requires WellFormed(t, e.now)
    requires id in t.Of(kind).rows && id in Step(t, e).tables.Of(kind).rows
    ensures
      var before, after := t.Of(kind).rows[id], Step(t, e).tables.Of(kind).rows[id];
      || (after.lastUsedAt == before.lastUsedAt && after.expiresAt == before.expiresAt)
      || (after.lastUsedAt == e.now >= before.lastUsedAt + ROLLING_UPDATE_INTERVAL_SECONDS
          && after.expiresAt == e.now + t.Timeout(kind) && e.op.Authenticate?)
      || (after.lastUsedAt == e.now && after.expiresAt == e.now + t.Timeout(kind)
          && e.op.Provision? && kind.Token? && before.hash == SecretHash(e.op.secret))
  {
    match e.op
    case Create(k, principal, tokenLabel, s) =>
    case Authenticate(k, s) =>
      var found := Find(t.Of(k).rows, SecretHash(s));
      assert found.Some? ==> found.value in t.Of(k).rows;
    case PollDevice(_, _, _) => var found := FlowOf(t.devices.rows, SecretHash(e.op.deviceCode));
    case Provision(_, s, _) =>
      var hits := WithHash(t.tokens.rows, SecretHash(s));
      assert hits != {} ==> AnyOf(hits) in hits;
    case _ =>
  }
}
