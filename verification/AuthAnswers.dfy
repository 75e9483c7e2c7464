/**
 What each operation of the authentication store answers, and what it leaves of the tables: row by row,
 for every row, in terms of the tables before it.
 */
module AuthAnswers {
  import opened Base
  import opened Credentials
  import opened AuthTables
  import opened Invariants
  import opened CredentialBound

  // ----- revocations -----

  predicate Revocation(op: Op) {
    op.RevokeSecret? || op.RevokeTokenById? || op.RevokePrincipal? || op.RevokeManaged?
  }

  /** Does the revocation cover the row? */
  predicate Covers(op: Op, kind: Kind, row: Credential, id: int) {
    match op
    case RevokeSecret(k, s) => k == kind && s != "" && row.hash == SecretHash(s)
    case RevokeTokenById(k) => kind.Token? && k == id
    case RevokePrincipal(p) => row.principal == p
    case RevokeManaged => kind.Token? && Managed(row.tokenLabel)
    case _ => false
  }

  /** The rows that the revocation ends. */
  function Ended(t: Tables, op: Op, kind: Kind): set<int> {
    set id | id in t.Of(kind).rows && Covers(op, kind, t.Of(kind).rows[id], id) && t.Of(kind).rows[id].revokedAt.None?
  }

  /** Every row that the revocation covers is revoked, and every other row is as it was. */
  predicate RevokesExactly(before: Rows, after: Rows, op: Op, kind: Kind, now: int) {
    before.Keys == after.Keys && forall id :: id in before ==>
      after[id] == if Covers(op, kind, before[id], id) && before[id].revokedAt.None?
                   then before[id].(revokedAt := Some(now)) else before[id]
  }

  lemma RevokedRows(t: Tables, e: Event, kind: Kind)
    requires Revocation(e.op)
    ensures RevokesExactly(t.Of(kind).rows, Step(t, e).tables.Of(kind).rows, e.op, kind, e.now)
    ensures Step(t, e).tables.Of(kind).nextId == t.Of(kind).nextId
  {
    var before, after := t.Of(kind).rows, Step(t, e).tables.Of(kind).rows;
    assert before.Keys == after.Keys;
  }

  lemma SelectedAreEnded(t: Tables, op: Op, kind: Kind, ids: set<int>)
    requires forall id :: id in t.Of(kind).rows ==> (id in ids <==> Covers(op, kind, t.Of(kind).rows[id], id))
    ensures Unrevoked(t.Of(kind).rows, ids) == Ended(t, op, kind)
  {
    var hits, ended := Unrevoked(t.Of(kind).rows, ids), Ended(t, op, kind);
    forall id ensures id in hits <==> id in ended {
    }
  }

  lemma NothingEnded(t: Tables, op: Op, kind: Kind)
    requires forall id :: id in t.Of(kind).rows ==> !Covers(op, kind, t.Of(kind).rows[id], id)
    ensures |Ended(t, op, kind)| == 0
  {
    var ended := Ended(t, op, kind);
    forall id ensures id !in ended {
    }
  }

  lemma RevokedCount(t: Tables, e: Event)
    requires Revocation(e.op)
    ensures Step(t, e).reply == Count(|Ended(t, e.op, Session)| + |Ended(t, e.op, Token)|)
  {
    match e.op
    case RevokeSecret(k, s) =>
      if s != "" {
        SelectedAreEnded(t, e.op, k, WithHash(t.Of(k).rows, SecretHash(s)));
      } else {
        NothingEnded(t, e.op, k);
      }
      NothingEnded(t, e.op, if k.Session? then Token else Session);
    case RevokeTokenById(id) =>
      SelectedAreEnded(t, e.op, Token, {id});
      NothingEnded(t, e.op, Session);
    case RevokePrincipal(p) =>
      SelectedAreEnded(t, e.op, Session, OfPrincipal(t.sessions.rows, p));
      SelectedAreEnded(t, e.op, Token, OfPrincipal(t.tokens.rows, p));
    case RevokeManaged =>
      SelectedAreEnded(t, e.op, Token, ManagedRows(t.tokens.rows));
      NothingEnded(t, e.op, Session);
  }

  /** Each of the four revocations ends the credentials that it covers and no other, and counts them. */
  lemma RevocationIsExact(t: Tables, e: Event)
    requires Revocation(e.op)
    ensures
      var after := Step(t, e).tables;
      && RevokesExactly(t.sessions.rows, after.sessions.rows, e.op, Session, e.now)
      && RevokesExactly(t.tokens.rows, after.tokens.rows, e.op, Token, e.now)
      && after == t.WithRows(Session, after.sessions.rows).WithRows(Token, after.tokens.rows)
      && Step(t, e).reply == Count(|Ended(t, e.op, Session)| + |Ended(t, e.op, Token)|)
  {
    RevokedRows(t, e, Session);
    RevokedRows(t, e, Token);
    RevokedCount(t, e);
  }

  // ----- authentication -----

  predicate OfSecret(rows: Rows, id: int, secret: string) {
    secret != "" && id in rows && rows[id].hash == SecretHash(secret)
  }

  /** The idle expiry was last written an hour ago or more. */
  predicate Due(c: Credential, now: int) {
    c.lastUsedAt <= SaturatingSub(now, ROLLING_UPDATE_INTERVAL_SECONDS)
  }

  predicate Fits(now: int, lifetime: nat) {
    0 < lifetime && now + lifetime <= I64_MAX
  }

  function IdleTimeoutOf(t: Tables, kind: Kind): nat {
    match kind
    case Session => t.sessionTimeout
    case Token => t.tokenTimeout
  }

  /** What authentication makes of a row of the secret. */
  function Touched(c: Credential, timeout: nat, now: int): Credential {
    if c.revokedAt.Some? then c
    else if c.expiresAt <= now then c.(revokedAt := Some(now))
    else if Due(c, now) && Fits(now, timeout) then c.(lastUsedAt := now, expiresAt := now + timeout)
    else c
  }

  /** What authentication answers when this row is the one of the secret. */
  predicate AnswersFor(answer: Result<Option<Authenticated>>, id: int, c: Credential, after: Credential, timeout: nat,
                       now: int) {
    if !Active(c, now) then answer == Ok(None)
    else if Due(c, now) && !Fits(now, timeout) then answer.Err?
    else answer == Ok(Some(Authenticated(id, after.expiresAt, c.principal)))
  }

  /** No row but the secret's own is touched; the principal answered is the row's, the expiry the one stored. */
  lemma AuthenticationIsExact(t: Tables, kind: Kind, secret: string, now: Instant)
    requires WellFormed(t, now)
    ensures
      var e := Event(now, Authenticate(kind, secret));
      var before, after, answer := t.Of(kind).rows, Step(t, e).tables.Of(kind).rows, Step(t, e).reply.answer;
      && before.Keys == after.Keys && Step(t, e).tables == t.WithRows(kind, after)
      && (forall id :: id in before ==>
            after[id] == if OfSecret(before, id, secret) then Touched(before[id], IdleTimeoutOf(t, kind), now)
                         else before[id])
      && (forall id :: OfSecret(before, id, secret) ==>
            AnswersFor(answer, id, before[id], after[id], IdleTimeoutOf(t, kind), now))
      && ((forall id :: id in before ==> !OfSecret(before, id, secret)) ==> answer == Ok(None))
  {
    var rows := t.Of(kind).rows;
    var found := Find(rows, SecretHash(secret));
    if found.Some? {
      var hit: int := found.value;
      assert hit in rows;
      forall id | OfSecret(rows, id, secret) ensures id == hit {
      }
    }
    var after := Step(t, Event(now, Authenticate(kind, secret))).tables.Of(kind).rows;
    assert rows.Keys == after.Keys;
  }

  /** Whoever is let in is let in as the principal of an unrevoked, unexpired row of the secret. */
  lemma AnswerNamesItsRow(t: Tables, kind: Kind, secret: string, now: Instant)
    requires WellFormed(t, now)
    ensures
      var e := Event(now, Authenticate(kind, secret));
      var before, after, answer := t.Of(kind).rows, Step(t, e).tables.Of(kind).rows, Step(t, e).reply.answer;
      answer.Ok? && answer.value.Some? ==>
        var a := answer.value.value;
        && OfSecret(before, a.credentialId, secret) && Active(before[a.credentialId], now)
        && a.credentialId in after && Active(after[a.credentialId], now)
        && a.principal == before[a.credentialId].principal == after[a.credentialId].principal
        && a.expiresAt == after[a.credentialId].expiresAt
  {
    AuthenticationIsExact(t, kind, secret, now);
    var rows := t.Of(kind).rows;
    var answer := Step(t, Event(now, Authenticate(kind, secret))).reply.answer;
    if answer.Ok? && answer.value.Some? {
      var id :| OfSecret(rows, id, secret);
      assert AnswersFor(answer, id, rows[id], Step(t, Event(now, Authenticate(kind, secret))).tables.Of(kind).rows[id],
                        IdleTimeoutOf(t, kind), now);
    }
  }

  // ----- creation and provisioning -----

  predicate Unused(rows: Rows, secret: string) {
    forall id :: id in rows ==> rows[id].hash != SecretHash(secret)
  }

  /** A row of the table is the same one as before, or gone. */
  predicate OnlyDrops(before: Rows, after: Rows, except: int) {
    forall id :: id in after && id != except ==> id in before && after[id] == before[id]
  }

  lemma CreationReply(t: Tables, e: Event)
    requires e.op.Create?
    ensures
      var timeout, reply := IdleTimeoutOf(t, e.op.kind), Step(t, e).reply.created;
      && (reply.Ok? <==>
            Fits(e.now, timeout) && e.op.principal in t.principals && Unused(t.Of(e.op.kind).rows, e.op.secret))
      && (reply == Err(InvalidInput) <==> timeout == 0)
      && (reply == Err(DurationOverflow) <==> e.now + timeout > I64_MAX)
      && (reply.Err? ==> Step(t, e).tables == t)
      && (reply.Ok? ==> reply.value == Issued(t.Of(e.op.kind).nextId, e.op.secret, e.now + timeout))
  {
  }

  function CreatedRow(t: Tables, e: Event): Credential
    requires e.op.Create?
  {
    Credential(e.op.principal, SecretHash(e.op.secret), if e.op.kind.Session? then None else e.op.tokenLabel, e.now,
               e.now, e.now + IdleTimeoutOf(t, e.op.kind), None)
  }

  lemma CreationRows(t: Tables, e: Event)
    requires WellFormed(t, e.now) && e.op.Create? && Step(t, e).reply.created.Ok?
    ensures
      var before, after := t.Of(e.op.kind), Step(t, e).tables.Of(e.op.kind);
      && after.nextId == before.nextId + 1 && before.nextId in after.rows
      && after.rows[before.nextId] == CreatedRow(t, e) && OnlyDrops(before.rows, after.rows, before.nextId)
  {
    IssueKeepsNewest(t.Of(e.op.kind), t.principals, e.op.principal, e.op.secret,
                     SessionLabel(e.op.kind, e.op.tokenLabel), e.now + t.Timeout(e.op.kind), e.now);
  }

  /**
   A credential is created exactly when the lifetime fits, the principal exists and the secret is new. The
   reply and the new row carry what was asked for, and nothing changes when it is refused.
   */
  lemma CreationIsExact(t: Tables, e: Event)
    requires WellFormed(t, e.now) && e.op.Create?
    ensures
      var before, after, reply := t.Of(e.op.kind), Step(t, e).tables.Of(e.op.kind), Step(t, e).reply.created;
      var timeout, id := IdleTimeoutOf(t, e.op.kind), before.nextId;
      && Step(t, e).tables == t.With(e.op.kind, after)
      && (reply.Ok? <==> Fits(e.now, timeout) && e.op.principal in t.principals && Unused(before.rows, e.op.secret))
      && (reply == Err(InvalidInput) <==> timeout == 0)
      && (reply == Err(DurationOverflow) <==> e.now + timeout > I64_MAX)
      && (reply.Err? ==> after == before)
      && (reply.Ok? ==>
            && reply.value == Issued(id, e.op.secret, e.now + timeout) && after.nextId == id + 1
            && id in after.rows && after.rows[id] == CreatedRow(t, e) && OnlyDrops(before.rows, after.rows, id))
  {
    CreationReply(t, e);
    if Step(t, e).reply.created.Ok? {
      CreationRows(t, e);
    }
  }

  /** The one row that provisioning writes. */
  predicate WritesRow(before: Rows, after: Rows, id: int, row: Credential) {
    after == before[id := row]
  }

  predicate OwnedElsewhere(rows: Rows, secret: string, principal: int) {
    exists id :: id in rows && rows[id].hash == SecretHash(secret) && rows[id].principal != principal
  }

  /**
   A token is provisioned exactly when it is not blank, the lifetime fits, and its row, if it has one, is
   the principal's; a new row needs the principal. The row of the token is then unrevoked with the full
   timeout, its id and creation time are kept, and no other row changes.
   */
  lemma ProvisioningIsExact(t: Tables, principal: int, secret: string, tokenLabel: Option<string>, now: Instant)
    requires WellFormed(t, now)
    ensures
      var e := Event(now, Provision(principal, secret, tokenLabel));
      var before, after, reply := t.tokens, Step(t, e).tables.tokens, Step(t, e).reply.provisioned;
      && Step(t, e).tables == t.(tokens := after)
      && (reply.Ok? <==>
            secret != "" && Fits(now, t.tokenTimeout) && !OwnedElsewhere(before.rows, secret, principal)
            && (Unused(before.rows, secret) ==> principal in t.principals))
      && (reply == Err(DurationOverflow) <==> secret != "" && now + t.tokenTimeout > I64_MAX)
      && (reply == Err(Database) <==>
            && secret != "" && Fits(now, t.tokenTimeout)
            && Unused(before.rows, secret) && principal !in t.principals)
      && (reply.Err? ==> after == before && reply.error in {DurationOverflow, Database, InvalidInput})
      && (reply.Ok? ==> var id := reply.value;
            && (if Unused(before.rows, secret) then id == before.nextId == after.nextId - 1
                else OfSecret(before.rows, id, secret) && after.nextId == before.nextId)
            && var created := if id in before.rows then before.rows[id].createdAt else now;
            WritesRow(before.rows, after.rows, id,
                      Credential(principal, SecretHash(secret), tokenLabel, created, now, now + t.tokenTimeout, None)))
  {
    var rows := t.tokens.rows;
    var hits := WithHash(rows, SecretHash(secret));
    if hits == {} {
      forall id | id in rows ensures rows[id].hash != SecretHash(secret) {
        assert id !in hits;
      }
    } else {
      var hit: int := AnyOf(hits);
      assert hit in hits;
      forall id | id in rows && rows[id].hash == SecretHash(secret) ensures id == hit {
      }
    }
  }

  // ----- purge -----

  ghost predicate KeepsAlive<R>(before: map<int, R>, after: map<int, R>, alive: R -> bool) {
    (forall id :: id in after <==> id in before && alive(before[id])) &&
    (forall id :: id in after ==> after[id] == before[id])
  }

  lemma RemovedCount<R>(before: map<int, R>, after: map<int, R>, gone: set<int>)
    requires after.Keys <= before.Keys && gone == before.Keys - after.Keys
    ensures |gone| == |before| - |after|
  {
    assert before.Keys == gone + after.Keys;
  }

  lemma PurgedCredentials(rows: Rows, now: Instant)
    ensures KeepsAlive(rows, PurgeRows(rows, now), (c: Credential) => c.revokedAt.None? && c.expiresAt > now)
    ensures DeadRows(rows, now) == |rows| - |PurgeRows(rows, now)|
  {
    RemovedCount(rows, PurgeRows(rows, now), set id | id in rows && !Live(rows, id, now));
  }

  lemma PurgedOAuth(rows: map<int, OAuthFlow>, now: Instant)
    ensures KeepsAlive(rows, LiveOAuth(rows, now), (f: OAuthFlow) => f.expiresAt > now)
    ensures DeadOAuth(rows, now) == |rows| - |LiveOAuth(rows, now)|
  {
    RemovedCount(rows, LiveOAuth(rows, now), set id | id in rows && rows[id].expiresAt <= now);
  }

  lemma PurgedDevices(rows: map<int, DeviceFlow>, now: Instant)
    ensures KeepsAlive(rows, LiveDevices(rows, now), (f: DeviceFlow) => f.expiresAt > now)
    ensures DeadDevices(rows, now) == |rows| - |LiveDevices(rows, now)|
  {
    RemovedCount(rows, LiveDevices(rows, now), set id | id in rows && rows[id].expiresAt <= now);
  }

  function Size(t: Tables): nat {
    |t.sessions.rows| + |t.tokens.rows| + |t.oauth.rows| + |t.devices.rows|
  }

  /** A purge removes exactly the dead rows of the four tables, and its count is what the tables lost. */
  lemma PurgeIsExact(t: Tables, now: Instant)
    ensures
      var after := Step(t, Event(now, Purge)).tables;
      && KeepsAlive(t.sessions.rows, after.sessions.rows, (c: Credential) => c.revokedAt.None? && c.expiresAt > now)
      && KeepsAlive(t.tokens.rows, after.tokens.rows, (c: Credential) => c.revokedAt.None? && c.expiresAt > now)
      && KeepsAlive(t.oauth.rows, after.oauth.rows, (f: OAuthFlow) => f.expiresAt > now)
      && KeepsAlive(t.devices.rows, after.devices.rows, (f: DeviceFlow) => f.expiresAt > now)
      && Step(t, Event(now, Purge)).reply.Count? && Step(t, Event(now, Purge)).reply.count + Size(after) == Size(t)
  {
    PurgedCredentials(t.sessions.rows, now);
    PurgedCredentials(t.tokens.rows, now);
    PurgedOAuth(t.oauth.rows, now);
    PurgedDevices(t.devices.rows, now);
  }

  // ----- OAuth flows -----

  predicate WaitsFor(rows: map<int, OAuthFlow>, id: int, state: string, now: int) {
    id in rows && rows[id].stateHash == SecretHash(state) && rows[id].expiresAt > now
  }

  function Unexpired(rows: map<int, OAuthFlow>, now: int): set<int> {
    set id | id in rows && rows[id].expiresAt > now
  }

  predicate NoneWaits(rows: map<int, OAuthFlow>, state: string, now: int) {
    forall id :: id in rows ==> !WaitsFor(rows, id, state, now)
  }

  lemma SweptStates(rows: map<int, OAuthFlow>, state: string, now: int)
    ensures LiveOAuth(rows, now).Keys == Unexpired(rows, now)
    ensures |LiveOAuth(rows, now)| == |Unexpired(rows, now)|
    ensures StateIds(LiveOAuth(rows, now), SecretHash(state)) == {} <==> NoneWaits(rows, state, now)
  {
    var live := LiveOAuth(rows, now);
    assert live.Keys == Unexpired(rows, now);
    assert |live| == |live.Keys|;
    var hits := StateIds(live, SecretHash(state));
    if hits == {} {
      forall id | id in rows ensures !WaitsFor(rows, id, state, now) {
        assert id !in hits;
      }
    } else {
      var hit: int := AnyOf(hits);
      assert hit in hits && WaitsFor(rows, hit, state, now);
    }
  }

  predicate OAuthWanted(op: Op, now: int) {
    op.StoreOAuth? && op.state != "" && op.grant.codeVerifier != "" && op.grant.nonce != "" && op.returnToAccepted
    && Fits(now, op.lifetime)
  }

  function StoredRow(op: Op, now: int): OAuthFlow
    requires op.StoreOAuth?
  {
    OAuthFlow(SecretHash(op.state), op.grant.codeVerifier, op.grant.nonce, op.grant.returnTo, now, now + op.lifetime)
  }

  /** The unexpired rows, and no other but the one at `id`, if any. */
  predicate Swept(before: map<int, OAuthFlow>, after: map<int, OAuthFlow>, added: set<int>, now: int) {
    after.Keys == Unexpired(before, now) + added &&
    forall id :: id in after && id !in added ==> id in before && after[id] == before[id]
  }

  lemma OAuthReply(t: Tables, e: Event)
    requires e.op.StoreOAuth?
    ensures
      var before, reply := t.oauth.rows, Step(t, e).reply.stored;
      var room := |Unexpired(before, e.now)| < MAX_ACTIVE_OAUTH_FLOWS;
      && (reply.Ok? <==> OAuthWanted(e.op, e.now) && room && NoneWaits(before, e.op.state, e.now))
      && (reply == Err(CapacityExceeded) <==> OAuthWanted(e.op, e.now) && !room)
      && (reply.Ok? ==> reply.value == e.now + e.op.lifetime)
  {
    SweptStates(t.oauth.rows, e.op.state, e.now);
  }

  lemma OAuthFrame(t: Tables, e: Event)
    requires e.op.StoreOAuth?
    ensures Step(t, e).tables == t.(oauth := Step(t, e).tables.oauth)
  {
  }

  lemma OAuthRows(t: Tables, e: Event)
    requires e.op.StoreOAuth? && forall id :: id in t.oauth.rows ==> id < t.oauth.nextId
    ensures
      var before, after, reply := t.oauth.rows, Step(t, e).tables.oauth.rows, Step(t, e).reply.stored;
      && (reply.Ok? ==>
            Swept(before, after, {t.oauth.nextId}, e.now) && after[t.oauth.nextId] == StoredRow(e.op, e.now))
      && (reply == Err(CapacityExceeded) ==> Swept(before, after, {}, e.now))
      && (reply.Err? && reply != Err(CapacityExceeded) ==> Step(t, e).tables == t)
  {
    SweptStates(t.oauth.rows, e.op.state, e.now);
  }

  /**
   A login transaction is stored exactly when its parts are acceptable, the lifetime fits, fewer than the
   limit are unexpired and none of those has its state; it expires a lifetime from now. The sweep of
   expired transactions goes with it, and is kept when the limit refuses.
   */
  lemma OAuthStoringIsExact(t: Tables, e: Event)
    requires WellFormed(t, e.now) && e.op.StoreOAuth?
    ensures
      var before, after, reply := t.oauth.rows, Step(t, e).tables.oauth.rows, Step(t, e).reply.stored;
      var room := |Unexpired(before, e.now)| < MAX_ACTIVE_OAUTH_FLOWS;
      && Step(t, e).tables == t.(oauth := Step(t, e).tables.oauth)
      && (reply.Ok? <==> OAuthWanted(e.op, e.now) && room && NoneWaits(before, e.op.state, e.now))
      && (reply == Err(CapacityExceeded) <==> OAuthWanted(e.op, e.now) && !room)
      && (reply.Ok? ==>
            && reply.value == e.now + e.op.lifetime && Swept(before, after, {t.oauth.nextId}, e.now)
            && after[t.oauth.nextId] == StoredRow(e.op, e.now))
      && (reply == Err(CapacityExceeded) ==> Swept(before, after, {}, e.now))
      && (reply.Err? && reply != Err(CapacityExceeded) ==> Step(t, e).tables == t)
  {
    OAuthFrame(t, e);
    OAuthReply(t, e);
    OAuthRows(t, e);
  }

  /** A callback takes the one unexpired transaction of its state and nothing else, and otherwise gets nothing. */
  lemma OAuthCallbackIsExact(t: Tables, state: string, now: Instant)
    requires WellFormed(t, now)
    ensures
      var e := Event(now, ConsumeOAuth(state));
      var before, after, reply := t.oauth.rows, Step(t, e).tables.oauth.rows, Step(t, e).reply.consumed;
      && Step(t, e).tables == t.(oauth := t.oauth.(rows := after))
      && (forall id :: state != "" && WaitsFor(before, id, state, now) ==>
            && reply == Some(OAuthGrant(before[id].codeVerifier, before[id].nonce, before[id].returnTo))
            && after == before - {id})
      && (state == "" || NoneWaits(before, state, now) ==> reply == None && after == before)
  {
    var rows := t.oauth.rows;
    var hits := StateIds(LiveOAuth(rows, now), SecretHash(state));
    forall id ensures id in hits <==> WaitsFor(rows, id, state, now) {
    }
    if hits != {} {
      var hit: int := AnyOf(hits);
      assert hit in hits;
      forall id ensures id in hits <==> id == hit {
      }
      assert hits == {hit};
    }
  }

  // ----- device flows -----

  predicate CollidesWith(rows: map<int, DeviceFlow>, draw: Draw, now: int) {
    exists id :: id in rows && rows[id].expiresAt > now
                 && (rows[id].codeHash == SecretHash(draw.deviceCode) || rows[id].userCode == draw.userCode)
  }

  /** The first draw that collides with no unexpired flow. */
  predicate FirstFreeDraw(rows: map<int, DeviceFlow>, draws: seq<Draw>, k: nat, now: int) {
    k < |draws| && !CollidesWith(rows, draws[k], now) && forall i :: 0 <= i < k ==> CollidesWith(rows, draws[i], now)
  }

  lemma FreeMeansNoCollision(rows: map<int, DeviceFlow>, draw: Draw, now: int)
    ensures DrawFree(LiveDevices(rows, now), draw) <==> !CollidesWith(rows, draw, now)
  {
    var live := LiveDevices(rows, now);
    if CollidesWith(rows, draw, now) {
      var id :| id in rows && rows[id].expiresAt > now
                && (rows[id].codeHash == SecretHash(draw.deviceCode) || rows[id].userCode == draw.userCode);
      assert id in live && live[id] == rows[id];
    }
  }

  lemma {:induction false} FirstFreeIs(rows: map<int, DeviceFlow>, draws: seq<Draw>, now: int) returns (k: nat)
    ensures
      var free := FirstFree(LiveDevices(rows, now), draws);
      if free.Some? then FirstFreeDraw(rows, draws, k, now) && free.value == draws[k]
      else forall i :: 0 <= i < |draws| ==> CollidesWith(rows, draws[i], now)
  {
    k := 0;
    if draws != [] {
      FreeMeansNoCollision(rows, draws[0], now);
      if CollidesWith(rows, draws[0], now) {
        k := FirstFreeIs(rows, draws[1..], now);
        forall i | 0 <= i < |draws| && (i == 0 || CollidesWith(rows, draws[1..][i-1], now))
          ensures CollidesWith(rows, draws[i], now)
        {
        }
        k := k + 1;
      }
    }
  }

  function OpenUnexpired(rows: map<int, DeviceFlow>, now: int): set<int> {
    set id | id in rows && rows[id].expiresAt > now && rows[id].deliveredAt.None?
  }

  /** The unexpired flows, and no other. */
  ghost predicate OnlyLive(before: map<int, DeviceFlow>, after: map<int, DeviceFlow>, now: int) {
    (forall k :: k in after <==> k in before && before[k].expiresAt > now) &&
    (forall k :: k in after ==> after[k] == before[k])
  }

  /** The new flow beside the unexpired ones. */
  ghost predicate Starts(before: map<int, DeviceFlow>, after: map<int, DeviceFlow>, id: int, flow: DeviceFlow,
                         now: int) {
    && (forall k :: k in after <==> k == id || (k in before && before[k].expiresAt > now))
    && (forall k :: k in after && k != id ==> after[k] == before[k]) && after[id] == flow
  }

  /**
   A device login starts exactly when its name and times are acceptable, fewer than the limit are open, and
   some draw collides with no unexpired flow; the codes are the first such draw's, the login expires a
   lifetime from now, and nobody has approved or polled it.
   */
  lemma StartIsExact(t: Tables, e: Event) returns (k: nat)
    requires WellFormed(t, e.now) && e.op.StartDevice?
    ensures
      var before, after, reply := t.devices.rows, Step(t, e).tables.devices.rows, Step(t, e).reply.started;
      var wanted := e.op.nameAccepted && 0 < e.op.interval <= I64_MAX && Fits(e.now, e.op.lifetime);
      var room := |OpenUnexpired(before, e.now)| < MAX_ACTIVE_DEVICE_FLOWS;
      && Step(t, e).tables == t.(devices := Step(t, e).tables.devices)
      && (reply.Ok? <==>
            wanted && room && exists i :: 0 <= i < |e.op.draws| && !CollidesWith(before, e.op.draws[i], e.now))
      && (reply == Err(CapacityExceeded) <==> wanted && !room)
      && (reply == Err(RandomGeneration) <==>
            wanted && room && forall i :: 0 <= i < |e.op.draws| ==> CollidesWith(before, e.op.draws[i], e.now))
      && (!wanted ==> Step(t, e).tables == t)
      && (wanted && reply.Err? ==>
            Step(t, e).tables.devices.nextId == t.devices.nextId && OnlyLive(before, after, e.now))
      && (reply.Ok? ==>
            && FirstFreeDraw(before, e.op.draws, k, e.now)
            && var draw, expiresAt := e.op.draws[k], e.now + e.op.lifetime;
            && reply.value == Authorization(draw.deviceCode, draw.userCode, e.op.clientName, expiresAt)
            && Starts(before, after, t.devices.nextId,
                      DeviceFlow(SecretHash(draw.deviceCode), draw.userCode, e.op.clientName, None, e.now, expiresAt,
                                 e.op.interval, None, None, None), e.now))
  {
    var rows := t.devices.rows;
    var live := LiveDevices(rows, e.now);
    k := FirstFreeIs(rows, e.op.draws, e.now);
    assert Undelivered(live) == OpenUnexpired(rows, e.now);
  }

  predicate IsOpen(rows: map<int, DeviceFlow>, id: int, userCode: string, now: int) {
    id in rows && rows[id].userCode == userCode && rows[id].deliveredAt.None? && rows[id].expiresAt > now
  }

  predicate IsApprovable(rows: map<int, DeviceFlow>, id: int, userCode: string, now: int) {
    IsOpen(rows, id, userCode, now) && rows[id].approvedPrincipal.None?
  }

  /** Looking up a typed code changes nothing and answers with the client of the open flow that displays it. */
  lemma LookupIsExact(t: Tables, userCode: string, now: Instant)
    requires WellFormed(t, now)
    ensures
      var e, code := Event(now, LookupDevice(userCode)), NormalizeUserCode(userCode);
      var rows, reply := t.devices.rows, Step(t, e).reply.client;
      && Step(t, e).tables == t
      && (forall id :: IsOpen(rows, id, code, now) ==> reply == Some(rows[id].clientName))
      && ((forall id :: id in rows ==> !IsOpen(rows, id, code, now)) ==> reply == None)
  {
    var rows, code := t.devices.rows, NormalizeUserCode(userCode);
    var hits := OpenFlows(rows, code, now);
    if hits != {} {
      var hit: int := AnyOf(hits);
      assert hit in hits;
      forall id | IsOpen(rows, id, code, now) ensures id == hit {
        assert ShareCode(rows[id], rows[hit]);
      }
    } else {
      forall id ensures !IsOpen(rows, id, code, now) {
        assert id !in hits;
      }
    }
  }

  /**
   Approving a typed code approves the open, unapproved flow that displays it, and no other, for the given
   principal; it answers true exactly if there is one, and fails on a principal that does not exist.
   */
  lemma ApprovalIsExact(t: Tables, userCode: string, principal: int, now: Instant)
    requires WellFormed(t, now)
    ensures
      var e, code := Event(now, ApproveDevice(userCode, principal)), NormalizeUserCode(userCode);
      var before, after, reply := t.devices.rows, Step(t, e).tables.devices.rows, Step(t, e).reply.approved;
      && (forall id :: IsApprovable(before, id, code, now) && principal in t.principals ==>
            && reply == Ok(true) && Step(t, e).tables == t.(devices := t.devices.(rows := after))
            && after == before[id := before[id].(approvedPrincipal := Some(principal), approvedAt := Some(now))])
      && (forall id :: IsApprovable(before, id, code, now) && principal !in t.principals ==>
            reply == Err(Database) && Step(t, e).tables == t)
      && ((forall id :: id in before ==> !IsApprovable(before, id, code, now)) ==>
            reply == Ok(false) && Step(t, e).tables == t)
  {
    var rows, code := t.devices.rows, NormalizeUserCode(userCode);
    var hits := Approvable(rows, code, now);
    forall id ensures id in hits <==> IsApprovable(rows, id, code, now) {
    }
    if hits == {} {
      assert ApproveRows(rows, hits, principal, now) == rows;
    } else {
      var hit: int := AnyOf(hits);
      assert hit in hits;
      forall id ensures id in hits <==> id == hit {
        assert id in hits ==> ShareCode(rows[id], rows[hit]);
      }
      assert hits == {hit};
      assert ApproveRows(rows, hits, principal, now) ==
        rows[hit := rows[hit].(approvedPrincipal := Some(principal), approvedAt := Some(now))];
    }
  }

  /**
   A poll touches no flow but the one of its code, and of the other tables only the tokens; an unknown code is
   expired.
   */
  lemma PollSparesOthers(t: Tables, e: Event)
    requires WellFormed(t, e.now) && e.op.PollDevice?
    ensures
      var before, after := t.devices.rows, Step(t, e).tables.devices.rows;
      && Step(t, e).tables == t.(devices := t.devices.(rows := after), tokens := Step(t, e).tables.tokens)
      && after.Keys <= before.Keys
      && (forall id :: id in before && before[id].codeHash != SecretHash(e.op.deviceCode) ==>
            id in after && after[id] == before[id])
      && (e.op.deviceCode == "" || NoneHasCode(before, e.op.deviceCode) ==>
            Step(t, e).reply == Polled(Ok(Expired)) && Step(t, e).tables == t)
  {
    var found := FlowOf(t.devices.rows, SecretHash(e.op.deviceCode));
    if found.Some? {
      var id: int := found.value;
      assert id in t.devices.rows;
    }
  }

  predicate NoneHasCode(rows: map<int, DeviceFlow>, deviceCode: string) {
    forall id :: id in rows ==> rows[id].codeHash != SecretHash(deviceCode)
  }

  // ----- credentials of existing principals -----

  predicate OwnedRows(rows: Rows, principals: set<int>) {
    forall id :: id in rows ==> rows[id].principal in principals
  }

  /** Every credential is of a principal that exists. */
  predicate Owned(t: Tables) {
    OwnedRows(t.sessions.rows, t.principals) && OwnedRows(t.tokens.rows, t.principals)
  }

  lemma InsertKeepsOwners(t: Table<Credential>, principals: set<int>, principal: int, secret: string,
                          tokenLabel: Option<string>, expiresAt: int, now: int)
    requires OwnedRows(t.rows, principals)
    ensures OwnedRows(InsertAndPrune(t, principals, principal, secret, tokenLabel, expiresAt, now).0.rows, principals)
  {
  }

  lemma UpdateKeepsOwners(t: Tables, e: Event)
    requires Owned(t) && (Revocation(e.op) || e.op.Authenticate?)
    ensures Owned(Step(t, e).tables)
  {
    if e.op.Authenticate? {
      var found := Find(t.Of(e.op.kind).rows, SecretHash(e.op.secret));
      assert found.Some? ==> found.value in t.Of(e.op.kind).rows;
    } else {
      RevocationIsExact(t, e);
    }
  }

  lemma PollKeepsOwners(t: Tables, e: Event)
    requires Owned(t) && e.op.PollDevice?
    ensures Owned(Step(t, e).tables)
  {
    var found := FlowOf(t.devices.rows, SecretHash(e.op.deviceCode));
    var expiry := ExpiryFrom(e.now, t.tokenTimeout);
    if found.Some? && t.devices.rows[found.value].approvedPrincipal.Some? && expiry.Ok? {
      InsertKeepsOwners(t.tokens, t.principals, t.devices.rows[found.value].approvedPrincipal.value, e.op.secret,
                        e.op.tokenLabel, expiry.value, e.now);
    }
  }

  lemma ProvisioningKeepsOwners(t: Tables, e: Event)
    requires Owned(t) && e.op.Provision?
    ensures Owned(Step(t, e).tables)
  {
    var hits := WithHash(t.tokens.rows, SecretHash(e.op.secret));
    assert hits != {} ==> AnyOf(hits) in hits;
  }

  /** No operation leaves a credential without its principal. */
  lemma StepKeepsOwners(t: Tables, e: Event)
    requires Owned(t)
    ensures Owned(Step(t, e).tables)
  {
    match e.op
    case Create(kind, principal, tokenLabel, secret) =>
      var expiry := ExpiryFrom(e.now, t.Timeout(kind));
      if expiry.Ok? {
        InsertKeepsOwners(t.Of(kind), t.principals, principal, secret, SessionLabel(kind, tokenLabel), expiry.value,
                          e.now);
      }
    case Provision(_, _, _) => ProvisioningKeepsOwners(t, e);
    case PollDevice(_, _, _) => PollKeepsOwners(t, e);
    case Purge =>
    case StoreOAuth(_, _, _, _) =>
    case ConsumeOAuth(_) =>
    case StartDevice(_, _, _, _, _) =>
    case LookupDevice(_) =>
    case ApproveDevice(_, _) =>
    case _ => UpdateKeepsOwners(t, e);
  }
}
