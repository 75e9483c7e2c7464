/** What the schema's constraints and the clock guarantee in every state of a run. */
module Invariants {
  import opened Base
  import opened Credentials
  import opened AuthTables

  predicate CredentialsOk(t: Table<Credential>, now: int) {
    (forall id :: id in t.rows ==> id < t.nextId && t.rows[id].createdAt <= now) && UniqueHashes(t.rows)
  }

  predicate UniqueStates(rows: map<int, OAuthFlow>) {
    forall a, b :: a in rows && b in rows && rows[a].stateHash == rows[b].stateHash ==> a == b
  }

  predicate ShareCode(a: DeviceFlow, b: DeviceFlow) {
    a.codeHash == b.codeHash || a.userCode == b.userCode
  }

  predicate UniqueCodes(rows: map<int, DeviceFlow>) {
    forall a, b :: a in rows && b in rows && ShareCode(rows[a], rows[b]) ==> a == b
  }

  predicate WellFormed(t: Tables, now: int) {
    CredentialsOk(t.sessions, now) && CredentialsOk(t.tokens, now) &&
    (forall id :: id in t.oauth.rows ==> id < t.oauth.nextId) && UniqueStates(t.oauth.rows) &&
    (forall id :: id in t.devices.rows ==> id < t.devices.nextId) && UniqueCodes(t.devices.rows)
  }

  lemma RevokeKeepsWellFormed(t: Table<Credential>, ids: set<int>, later: int, now: int)
    requires CredentialsOk(t, now) && now <= later
    ensures CredentialsOk(t.(rows := RevokeRows(t.rows, ids, later)), later)
  {
  }

  lemma InsertKeepsWellFormed(t: Table<Credential>, principals: set<int>, principal: int, secret: string,
                              tokenLabel: Option<string>,
                      expiresAt: int, later: int, now: int)
    requires CredentialsOk(t, now) && now <= later
    ensures CredentialsOk(InsertAndPrune(t, principals, principal, secret, tokenLabel, expiresAt, later).0, later)
  {
  }

  lemma AuthenticateKeepsWellFormed(t: Table<Credential>, secret: string, timeout: nat, later: Instant, now: int)
    requires CredentialsOk(t, now) && now <= later
    ensures CredentialsOk(t.(rows := AuthenticateCredential(t.rows, secret, timeout, later).0), later)
  {
    var id := Find(t.rows, SecretHash(secret));
    if id.Some? {
      RevokeKeepsWellFormed(t, {id.value}, later, now);
    }
  }

  lemma CredentialStepKeepsWellFormed(t: Tables, e: Event, now: int)
    requires WellFormed(t, now) && now <= e.now
    requires e.op.Create? || e.op.Authenticate? || e.op.RevokeSecret? || e.op.RevokeTokenById? ||
      e.op.RevokePrincipal? || e.op.RevokeManaged?
    ensures WellFormed(Step(t, e).tables, e.now)
  {
    match e.op
    case Create(kind, principal, tokenLabel, secret) =>
      var expiry := ExpiryFrom(e.now, t.Timeout(kind));
      if expiry.Ok? {
        InsertKeepsWellFormed(t.Of(kind), t.principals, principal, secret, SessionLabel(kind, tokenLabel),
                              expiry.value, e.now, now);
      }
    case Authenticate(kind, secret) => AuthenticateKeepsWellFormed(t.Of(kind), secret, t.Timeout(kind), e.now, now);
    case RevokeSecret(kind, secret) =>
      RevokeKeepsWellFormed(t.Of(kind), WithHash(t.Of(kind).rows, SecretHash(secret)), e.now, now);
    case RevokeTokenById(id) => RevokeKeepsWellFormed(t.tokens, {id}, e.now, now);
    case RevokePrincipal(principal) =>
      RevokeKeepsWellFormed(t.sessions, OfPrincipal(t.sessions.rows, principal), e.now, now);
      RevokeKeepsWellFormed(t.tokens, OfPrincipal(t.tokens.rows, principal), e.now, now);
    case RevokeManaged => RevokeKeepsWellFormed(t.tokens, ManagedRows(t.tokens.rows), e.now, now);
  }

  lemma StoreOAuthKeepsWellFormed(t: Tables, state: string, grant: OAuthGrant, ok: bool, lifetime: nat, later: Instant,
                                  now: int)
    requires WellFormed(t, now) && now <= later
    ensures WellFormed(StoreOAuthStep(t, state, grant, ok, lifetime, later).tables, later)
  {
    var live := LiveOAuth(t.oauth.rows, later);
    if StateIds(live, SecretHash(state)) == {} {
      forall id | id in live ensures live[id].stateHash != SecretHash(state) {
        assert id !in StateIds(live, SecretHash(state));
      }
    }
  }

  lemma ProvisionKeepsWellFormed(t: Tables, principal: int, secret: string, tokenLabel: Option<string>, later: Instant,
                                 now: int)
    requires WellFormed(t, now) && now <= later
    ensures WellFormed(ProvisionStep(t, principal, secret, tokenLabel, later).tables, later)
  {
    var hits := WithHash(t.tokens.rows, SecretHash(secret));
    assert hits == {} ==> forall id :: id in t.tokens.rows ==> t.tokens.rows[id].hash != SecretHash(secret) by {
      if id :| id in t.tokens.rows && t.tokens.rows[id].hash == SecretHash(secret) {
        assert id in hits;
      }
    }
  }

  lemma StartKeepsWellFormed(t: Tables, clientName: string, ok: bool, lifetime: nat, interval: nat, draws: seq<Draw>,
                             later: Instant, now: int)
    requires WellFormed(t, now) && now <= later
    ensures WellFormed(StartDeviceStep(t, clientName, ok, lifetime, interval, draws, later).tables, later)
  {
  }

  lemma PollKeepsWellFormed(t: Tables, deviceCode: string, tokenLabel: Option<string>, secret: string, later: Instant,
                            now: int)
    requires WellFormed(t, now) && now <= later
    ensures WellFormed(PollDeviceStep(t, deviceCode, tokenLabel, secret, later).tables, later)
  {
  }

  lemma PurgeRowsKeepsWellFormed(t: Table<Credential>, later: int, now: int)
    requires CredentialsOk(t, now) && now <= later
    ensures CredentialsOk(t.(rows := PurgeRows(t.rows, later)), later)
  {
  }

  lemma PurgeKeepsWellFormed(t: Tables, later: Instant, now: int)
    requires WellFormed(t, now) && now <= later
    ensures WellFormed(PurgedTables(t, later), later)
  {
    PurgeRowsKeepsWellFormed(t.sessions, later, now);
    PurgeRowsKeepsWellFormed(t.tokens, later, now);
  }

  lemma SweepingStepKeepsWellFormed(t: Tables, e: Event, now: int)
    requires WellFormed(t, now) && now <= e.now
    requires e.op.ConsumeOAuth? || e.op.LookupDevice? || e.op.ApproveDevice?
    ensures WellFormed(Step(t, e).tables, e.now)
  {
  }

  /** Every statement keeps the schema's constraints: no event of a run can break them. */
  lemma StepKeepsWellFormed(t: Tables, e: Event, now: int)
    requires WellFormed(t, now) && now <= e.now
    ensures WellFormed(Step(t, e).tables, e.now)
  {
    match e.op
    case Provision(principal, secret, tokenLabel) =>
      ProvisionKeepsWellFormed(t, principal, secret, tokenLabel, e.now, now);
    case StartDevice(name, ok, lifetime, interval, draws) =>
      StartKeepsWellFormed(t, name, ok, lifetime, interval, draws, e.now, now);
    case PollDevice(deviceCode, tokenLabel, secret) =>
      PollKeepsWellFormed(t, deviceCode, tokenLabel, secret, e.now, now);
    case StoreOAuth(state, grant, ok, lifetime) => StoreOAuthKeepsWellFormed(t, state, grant, ok, lifetime, e.now, now);
    case Purge => PurgeKeepsWellFormed(t, e.now, now);
    case ConsumeOAuth(state) => SweepingStepKeepsWellFormed(t, e, now);
    case LookupDevice(userCode) => SweepingStepKeepsWellFormed(t, e, now);
    case ApproveDevice(userCode, principal) => SweepingStepKeepsWellFormed(t, e, now);
    case _ => CredentialStepKeepsWellFormed(t, e, now);
  }

  lemma {:induction false} RunKeepsWellFormed(t: Tables, es: seq<Event>, now: int)
    requires WellFormed(t, now) && Clocked(es)
    requires es != [] ==> now <= es[0].now
    ensures WellFormed(Run(t, es), if es == [] then now else es[|es|-1].now)
  {
    if es != [] {
      var n := |es| - 1;
      RunKeepsWellFormed(t, es[..n], now);
      StepKeepsWellFormed(Run(t, es[..n]), es[n], if n == 0 then now else es[n-1].now);
    }
  }

  lemma WellFormedLater(t: Tables, now: int, later: int)
    requires WellFormed(t, now) && now <= later
    ensures WellFormed(t, later)
  {
  }
}
