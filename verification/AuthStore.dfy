/**
 The store object: tables as fields, one method per transaction. Each method is proved against
 the step function of its operation, so what is proved about runs of steps holds of its callers.
 */
module AuthStore {
  import opened Base
  import opened Text
  import opened Credentials
  import opened AuthTables
  import opened Invariants
  import opened AuthAnswers

  /** The stable identity of a principal, unique in its table. */
  datatype PrincipalKey = Oidc(issuer: string, subject: string) | Service(name: string) | Legacy(name: string)

  datatype Profile = Profile(email: Option<string>, displayName: Option<string>, isAdmin: bool, canDeleteAll: bool)

  datatype PrincipalRow = PrincipalRow(profile: Profile, createdAt: int, updatedAt: int, lastSeenAt: int)

  predicate BlankKey(key: PrincipalKey) {
    match key
    case Oidc(issuer, subject) => Blank(issuer) || Blank(subject)
    case Service(name) => Blank(name)
    case Legacy(name) => Blank(name)
  }

  /** A login refreshes the whole profile and the last-seen time, a configured name only its rights. */
  function UpsertedRow(existing: Option<PrincipalRow>, key: PrincipalKey, profile: Profile, now: int): PrincipalRow {
    var rights := Profile(None, None, profile.isAdmin, profile.canDeleteAll);
    match existing
    case None => PrincipalRow(if key.Oidc? then profile else rights, now, now, now)
    case Some(row) =>
      if key.Oidc? then row.(profile := profile, updatedAt := now, lastSeenAt := now)
      else
        row.(profile := row.profile.(isAdmin := profile.isAdmin, canDeleteAll := profile.canDeleteAll),
             updatedAt := now)
  }

  /**
   What an upsert leaves: the rights always become the given ones, the name and address only at a login, the
   creation time never changes, and only a login or the first upsert counts as being seen.
   */
  predicate Upserted(before: Option<PrincipalRow>, after: PrincipalRow, key: PrincipalKey, profile: Profile, now: int) {
    && after.profile.isAdmin == profile.isAdmin && after.profile.canDeleteAll == profile.canDeleteAll
    && after.updatedAt == now
    && after.createdAt == (if before.Some? then before.value.createdAt else now)
    && after.lastSeenAt == (if before.Some? && !key.Oidc? then before.value.lastSeenAt else now)
    && after.profile.email ==
      (if key.Oidc? then profile.email else if before.Some? then before.value.profile.email else None)
    && after.profile.displayName ==
      (if key.Oidc? then profile.displayName else if before.Some? then before.value.profile.displayName else None)
  }

  /** UPDATE principals SET last_seen_at = ?, updated_at = ? WHERE id = ? */
  function Seen(profiles: map<int, PrincipalRow>, principal: int, now: int): map<int, PrincipalRow> {
    if principal in profiles then profiles[principal := profiles[principal].(lastSeenAt := now, updatedAt := now)]
    else profiles
  }

  /** Only the authentication that rolls its credential refreshes the principal, and no other principal. */
  function SeenAfter(profiles: map<int, PrincipalRow>, before: Rows, after: Rows, answer: Result<Option<Authenticated>>,
                     now: int): map<int, PrincipalRow> {
    if answer.Ok? && answer.value.Some? && Rolled(before, after, answer.value.value.credentialId)
    then Seen(profiles, answer.value.value.principal, now)
    else profiles
  }

  predicate Rolled(before: Rows, after: Rows, id: int) {
    id in before && id in after && before[id].lastUsedAt != after[id].lastUsedAt
  }

  lemma MorePrincipals(t: Tables, more: set<int>, now: int)
    requires WellFormed(t, now) && Owned(t) && t.principals <= more
    ensures WellFormed(t.(principals := more), now) && Owned(t.(principals := more))
  {
  }

  class Store {
    var names: map<PrincipalKey, int>
    var nextPrincipal: int
    var principals: set<int>
    var profiles: map<int, PrincipalRow>
    var sessions: Table<Credential>
    var tokens: Table<Credential>
    var oauth: Table<OAuthFlow>
    var devices: Table<DeviceFlow>
    const sessionIdleTimeout: nat
    const tokenIdleTimeout: nat
    ghost var clock: int

    ghost function View(): Tables
      reads this
    {
      Tables(principals, sessions, tokens, oauth, devices, sessionIdleTimeout, tokenIdleTimeout)
    }

    /** The schema's constraints hold, foreign keys included, and no row is from the future. */
    ghost predicate Valid()
      reads this
    {
      && WellFormed(View(), clock) && Owned(View())
      && (forall key :: key in names ==> names[key] in principals)
      && (forall key, other :: key in names && other in names && names[key] == names[other] ==> key == other)
      && (forall id :: id in principals ==> id < nextPrincipal)
      && profiles.Keys == principals
    }

    constructor (sessionIdleTimeout: nat, tokenIdleTimeout: nat, now: Instant)
      ensures Valid() && clock == now && names == map[]
      ensures View() == Tables({}, Table(map[], 1), Table(map[], 1), Table(map[], 1), Table(map[], 1),
                               sessionIdleTimeout, tokenIdleTimeout)
    {
      principals, names, nextPrincipal, profiles := {}, map[], 1, map[];
      sessions, tokens := Table(map[], 1), Table(map[], 1);
      oauth, devices := Table(map[], 1), Table(map[], 1);
      this.sessionIdleTimeout, this.tokenIdleTimeout := sessionIdleTimeout, tokenIdleTimeout;
      clock := now;
    }

    method SetTable(kind: Kind, table: Table<Credential>)
      modifies `sessions, `tokens
      ensures View() == old(View()).With(kind, table)
    {
      if kind.Session? {
        sessions := table;
      } else {
        tokens := table;
      }
    }

    method WriteProfile(id: int, before: Option<PrincipalRow>, key: PrincipalKey, profile: Profile, now: Instant)
      modifies `profiles
      ensures id in profiles && Upserted(before, profiles[id], key, profile, now)
      ensures profiles == old(profiles)[id := profiles[id]]
    {
      profiles := profiles[id := UpsertedRow(before, key, profile, now)];
    }

    /** Inserts or refreshes a principal; identity is the key alone, and the key is not blank. */
    method UpsertPrincipal(key: PrincipalKey, profile: Profile, now: Instant) returns (result: Result<int>)
      requires Valid()
      modifies `names, `principals, `nextPrincipal, `profiles
      ensures Valid() && View() == old(View()).(principals := principals)
      ensures result == if BlankKey(key) then Err(InvalidInput)
        else Ok(if key in old(names) then old(names)[key] else old(nextPrincipal))
      ensures result.Err? ==> names == old(names) && principals == old(principals) && profiles == old(profiles)
      ensures result.Ok? ==> names == old(names)[key := result.value] && principals == old(principals) + {result.value}
      ensures result.Ok? && key !in old(names) ==> result.value !in old(principals)
      ensures result.Ok? ==>
        var before := if key in old(names) then Some(old(profiles)[result.value]) else None;
        && Upserted(before, profiles[result.value], key, profile, now)
        && profiles == old(profiles)[result.value := profiles[result.value]]
    {
      if BlankKey(key) {
        return Err(InvalidInput);
      }
      if key in names {
        var known := names[key];
        WriteProfile(known, Some(profiles[known]), key, profile, now);
        return Ok(known);
      }
      var id := nextPrincipal;
      MorePrincipals(View(), principals + {id}, clock);
      names, principals, nextPrincipal := names[key := id], principals + {id}, id + 1;
      WriteProfile(id, None, key, profile, now);
      result := Ok(id);
    }

    method CreateCredential(kind: Kind, principal: int, tokenLabel: Option<string>, secret: string, now: Instant)
      returns (created: Result<Issued>)
      requires Valid() && clock <= now
      modifies `sessions, `tokens, `oauth, `devices, `clock
      ensures Valid() && clock == now
      ensures Outcome(View(), Created(created)) == CreateStep(old(View()), kind, principal, tokenLabel, secret, now)
    {
      StepKeepsWellFormed(View(), Event(now, Create(kind, principal, tokenLabel, secret)), clock);
      StepKeepsOwners(View(), Event(now, Create(kind, principal, tokenLabel, secret)));
      clock := now;
      var table := if kind.Session? then sessions else tokens;
      var expiry := ExpiryFrom(now, if kind.Session? then sessionIdleTimeout else tokenIdleTimeout);
      if expiry.Err? {
        return Err(expiry.error);
      }
      if principal !in principals || HashTaken(table.rows, SecretHash(secret)) {
        return Err(Database);
      }
      var id := table.nextId;
      table := Table(table.rows[id := NewRow(principal, secret, SessionLabel(kind, tokenLabel), now, expiry.value)],
                     id + 1);
      table := table.(rows := Prune(table.rows, principal, now));
      SetTable(kind, table);
      created := Ok(Issued(id, secret, expiry.value));
    }

    method AuthenticateCredential(kind: Kind, secret: string, now: Instant)
      returns (answer: Result<Option<Authenticated>>)
      requires Valid() && clock <= now
      modifies `sessions, `tokens, `oauth, `devices, `clock, `profiles
      ensures Valid() && clock == now
      ensures Outcome(View(), Answered(answer)) == AuthenticateStep(old(View()), kind, secret, now)
      ensures profiles.Keys == old(profiles).Keys
      ensures forall id :: id in profiles ==>
        var rolled := answer.Ok? && answer.value.Some? && answer.value.value.principal == id
          && Rolled(old(View()).Of(kind).rows, View().Of(kind).rows, answer.value.value.credentialId);
        profiles[id] == if rolled then old(profiles)[id].(lastSeenAt := now, updatedAt := now) else old(profiles)[id]
    {
      StepKeepsWellFormed(View(), Event(now, Authenticate(kind, secret)), clock);
      StepKeepsOwners(View(), Event(now, Authenticate(kind, secret)));
      clock := now;
      answer := Resolve(kind, secret, now);
    }

    /** Expires the credential of the secret, or accepts and perhaps rolls it. */
    method Resolve(kind: Kind, secret: string, now: Instant) returns (answer: Result<Option<Authenticated>>)
      requires UniqueHashes(View().Of(kind).rows)
      modifies `sessions, `tokens, `profiles
      ensures profiles.Keys == old(profiles).Keys
      ensures Outcome(View(), Answered(answer)) == AuthenticateStep(old(View()), kind, secret, now)
      ensures profiles == SeenAfter(old(profiles), old(View()).Of(kind).rows, View().Of(kind).rows, answer, now)
    {
      if secret == "" {
        return Ok(None);
      }
      var table := if kind.Session? then sessions else tokens;
      var rows := table.rows;
      ghost var found := Find(rows, SecretHash(secret));
      var hits := Unrevoked(rows, WithHash(rows, SecretHash(secret)));
      if hits == {} {
        return Ok(None);
      }
      var id := PickOne(hits);
      assert found.Some? && rows[id].hash == rows[found.value].hash;
      if rows[id].expiresAt <= now {
        SetTable(kind, table.(rows := RevokeRows(rows, {id}, now)));
        return Ok(None);
      }
      var expiresAt := rows[id].expiresAt;
      if rows[id].lastUsedAt <= SaturatingSub(now, ROLLING_UPDATE_INTERVAL_SECONDS) {
        var rolled := ExpiryFrom(now, if kind.Session? then sessionIdleTimeout else tokenIdleTimeout);
        if rolled.Err? {
          return Err(rolled.error);
        }
        expiresAt := rolled.value;
        SetTable(kind, table.(rows := rows[id := rows[id].(lastUsedAt := now, expiresAt := expiresAt)]));
        profiles := Seen(profiles, rows[id].principal, now);
      }
      answer := Ok(Some(Authenticated(id, expiresAt, rows[id].principal)));
    }

    method RevokeCredential(kind: Kind, secret: string, now: Instant) returns (count: nat)
      requires Valid() && clock <= now
      modifies `sessions, `tokens, `oauth, `devices, `clock
      ensures Valid() && clock == now
      ensures Outcome(View(), Count(count)) == RevokeSecretStep(old(View()), kind, secret, now)
    {
      StepKeepsWellFormed(View(), Event(now, RevokeSecret(kind, secret)), clock);
      StepKeepsOwners(View(), Event(now, RevokeSecret(kind, secret)));
      clock := now;
      if secret == "" {
        return 0;
      }
      var table := if kind.Session? then sessions else tokens;
      var ids := WithHash(table.rows, SecretHash(secret));
      count := |Unrevoked(table.rows, ids)|;
      SetTable(kind, table.(rows := RevokeRows(table.rows, ids, now)));
    }

    method RevokeApiTokenById(id: int, now: Instant) returns (count: nat)
      requires Valid() && clock <= now
      modifies `sessions, `tokens, `oauth, `devices, `clock
      ensures Valid() && clock == now
      ensures Outcome(View(), Count(count)) == RevokeStep(old(View()), Token, {id}, now)
    {
      StepKeepsWellFormed(View(), Event(now, RevokeTokenById(id)), clock);
      StepKeepsOwners(View(), Event(now, RevokeTokenById(id)));
      clock := now;
      count := |Unrevoked(tokens.rows, {id})|;
      tokens := tokens.(rows := RevokeRows(tokens.rows, {id}, now));
    }

    method RevokePrincipalCredentials(principal: int, now: Instant) returns (count: nat)
      requires Valid() && clock <= now
      modifies `sessions, `tokens, `oauth, `devices, `clock
      ensures Valid() && clock == now
      ensures Outcome(View(), Count(count)) == RevokePrincipalStep(old(View()), principal, now)
    {
      StepKeepsWellFormed(View(), Event(now, RevokePrincipal(principal)), clock);
      StepKeepsOwners(View(), Event(now, RevokePrincipal(principal)));
      clock := now;
      count := RevokeBoth(principal, now);
    }

    /** Sessions first, then tokens. */
    method RevokeBoth(principal: int, now: Instant) returns (count: nat)
      modifies `sessions, `tokens
      ensures Outcome(View(), Count(count)) == RevokePrincipalStep(old(View()), principal, now)
    {
      var ids := OfPrincipal(sessions.rows, principal);
      count := |Unrevoked(sessions.rows, ids)|;
      sessions := sessions.(rows := RevokeRows(sessions.rows, ids, now));
      ids := OfPrincipal(tokens.rows, principal);
      count := count + |Unrevoked(tokens.rows, ids)|;
      tokens := tokens.(rows := RevokeRows(tokens.rows, ids, now));
    }

    method RevokeManagedApiTokens(now: Instant) returns (count: nat)
      requires Valid() && clock <= now
      modifies `sessions, `tokens, `oauth, `devices, `clock
      ensures Valid() && clock == now
      ensures Outcome(View(), Count(count)) == RevokeStep(old(View()), Token, ManagedRows(old(tokens.rows)), now)
    {
      StepKeepsWellFormed(View(), Event(now, RevokeManaged), clock);
      StepKeepsOwners(View(), Event(now, RevokeManaged));
      clock := now;
      var ids := ManagedRows(tokens.rows);
      count := |Unrevoked(tokens.rows, ids)|;
      tokens := tokens.(rows := RevokeRows(tokens.rows, ids, now));
    }

    method ProvisionStaticApiToken(principal: int, secret: string, tokenLabel: Option<string>, now: Instant)
      returns (id: Result<int>)
      requires Valid() && clock <= now
      modifies `sessions, `tokens, `oauth, `devices, `clock
      ensures Valid() && clock == now
      ensures Outcome(View(), Provisioned(id)) == ProvisionStep(old(View()), principal, secret, tokenLabel, now)
    {
      ProvisionKeepsWellFormed(View(), principal, secret, tokenLabel, now, clock);
      StepKeepsOwners(View(), Event(now, Provision(principal, secret, tokenLabel)));
      clock := now;
      if secret == "" {
        return Err(InvalidInput);
      }
      var expiry := ExpiryFrom(now, tokenIdleTimeout);
      if expiry.Err? {
        return Err(expiry.error);
      }
      var hits := WithHash(tokens.rows, SecretHash(secret));
      if hits != {} {
        var existing := PickOne(hits);
        assert AnyOf(hits) in hits && tokens.rows[AnyOf(hits)].hash == tokens.rows[existing].hash;
        var row := tokens.rows[existing];
        if row.principal != principal {
          return Err(InvalidInput);
        }
        row := row.(tokenLabel := tokenLabel, lastUsedAt := now, expiresAt := expiry.value, revokedAt := None);
        tokens := tokens.(rows := tokens.rows[existing := row]);
        return Ok(existing);
      }
      if principal !in principals {
        return Err(Database);
      }
      id := Ok(tokens.nextId);
      tokens := Table(tokens.rows[tokens.nextId := NewRow(principal, secret, tokenLabel, now, expiry.value)],
                      tokens.nextId + 1);
    }

    method PurgeExpired(now: Instant) returns (count: nat)
      requires Valid() && clock <= now
      modifies `sessions, `tokens, `oauth, `devices, `clock
      ensures Valid() && clock == now
      ensures Outcome(View(), Count(count)) == PurgeStep(old(View()), now)
    {
      PurgeKeepsWellFormed(View(), now, clock);
      StepKeepsOwners(View(), Event(now, Purge));
      clock := now;
      count := DeleteDead(now);
    }

    /** The four deletions of a purge, one after the other. */
    method DeleteDead(now: Instant) returns (count: nat)
      modifies `sessions, `tokens, `oauth, `devices
      ensures Outcome(View(), Count(count)) == PurgeStep(old(View()), now)
    {
      count := DeadRows(sessions.rows, now);
      sessions := sessions.(rows := PurgeRows(sessions.rows, now));
      count := count + DeadRows(tokens.rows, now);
      tokens := tokens.(rows := PurgeRows(tokens.rows, now));
      count := count + DeadOAuth(oauth.rows, now);
      oauth := oauth.(rows := LiveOAuth(oauth.rows, now));
      count := count + DeadDevices(devices.rows, now);
      devices := devices.(rows := LiveDevices(devices.rows, now));
    }

    method StoreOAuthFlow(state: string, grant: OAuthGrant, returnToAccepted: bool, lifetime: nat, now: Instant)
      returns (stored: Result<int>)
      requires Valid() && clock <= now
      modifies `sessions, `tokens, `oauth, `devices, `clock
      ensures Valid() && clock == now
      ensures Outcome(View(), OAuthStored(stored)) ==
        StoreOAuthStep(old(View()), state, grant, returnToAccepted, lifetime, now)
    {
      StoreOAuthKeepsWellFormed(View(), state, grant, returnToAccepted, lifetime, now, clock);
      StepKeepsOwners(View(), Event(now, StoreOAuth(state, grant, returnToAccepted, lifetime)));
      clock := now;
      if state == "" || grant.codeVerifier == "" || grant.nonce == "" || !returnToAccepted {
        return Err(InvalidInput);
      }
      stored := ExpiryFrom(now, lifetime);
      if stored.Err? {
        return;
      }
      var before := oauth;
      oauth := oauth.(rows := LiveOAuth(oauth.rows, now));
      if |oauth.rows| >= MAX_ACTIVE_OAUTH_FLOWS {
        return Err(CapacityExceeded);
      }
      if StateIds(oauth.rows, SecretHash(state)) != {} {
        oauth := before;
        return Err(Database);
      }
      var row := OAuthFlow(SecretHash(state), grant.codeVerifier, grant.nonce, grant.returnTo, now, stored.value);
      oauth := Table(oauth.rows[oauth.nextId := row], oauth.nextId + 1);
    }

    method ConsumeOAuthFlow(state: string, now: Instant) returns (consumed: Option<OAuthGrant>)
      requires Valid() && clock <= now
      modifies `sessions, `tokens, `oauth, `devices, `clock
      ensures Valid() && clock == now
      ensures Outcome(View(), OAuthConsumed(consumed)) == ConsumeOAuthStep(old(View()), state, now)
    {
      StepKeepsWellFormed(View(), Event(now, ConsumeOAuth(state)), clock);
      StepKeepsOwners(View(), Event(now, ConsumeOAuth(state)));
      clock := now;
      if state == "" {
        return None;
      }
      var hits := StateIds(LiveOAuth(oauth.rows, now), SecretHash(state));
      if hits == {} {
        return None;
      }
      var id := PickOne(hits);
      ghost var chosen: int := AnyOf(hits);
      assert chosen in hits && oauth.rows[chosen].stateHash == oauth.rows[id].stateHash;
      assert chosen == id;
      var row := oauth.rows[id];
      consumed := Some(OAuthGrant(row.codeVerifier, row.nonce, row.returnTo));
      oauth := oauth.(rows := oauth.rows - hits);
    }

    /** Up to four draws of fresh codes; a draw that violates a unique column is discarded. */
    method StartDeviceFlow(clientName: string, nameAccepted: bool, lifetime: nat, interval: nat, draws: seq<Draw>,
                           now: Instant)
      returns (started: Result<Authorization>)
      requires Valid() && clock <= now && |draws| == 4
      modifies `sessions, `tokens, `oauth, `devices, `clock
      ensures Valid() && clock == now
      ensures Outcome(View(), Started(started)) ==
        StartDeviceStep(old(View()), clientName, nameAccepted, lifetime, interval, draws, now)
    {
      StartKeepsWellFormed(View(), clientName, nameAccepted, lifetime, interval, draws, now, clock);
      StepKeepsOwners(View(), Event(now, StartDevice(clientName, nameAccepted, lifetime, interval, draws)));
      clock := now;
      if !nameAccepted {
        return Err(InvalidInput);
      }
      if interval > I64_MAX {
        return Err(DurationOverflow);
      }
      if interval == 0 {
        return Err(InvalidInput);
      }
      var expiry := ExpiryFrom(now, lifetime);
      if expiry.Err? {
        return Err(expiry.error);
      }
      devices := devices.(rows := LiveDevices(devices.rows, now));
      if |Undelivered(devices.rows)| >= MAX_ACTIVE_DEVICE_FLOWS {
        return Err(CapacityExceeded);
      }
      for i := 0 to 4
        invariant clock == now && View() == old(View()).(devices := devices)
        invariant devices == old(devices).(rows := LiveDevices(old(devices.rows), now))
        invariant FirstFree(devices.rows, draws) == FirstFree(devices.rows, draws[i..])
      {
        var draw := draws[i];
        if DrawFree(devices.rows, draw) {
          var row := DeviceFlow(SecretHash(draw.deviceCode), draw.userCode, clientName, None, now, expiry.value,
                                interval, None, None, None);
          devices := Table(devices.rows[devices.nextId := row], devices.nextId + 1);
          return Ok(Authorization(draw.deviceCode, draw.userCode, clientName, expiry.value));
        }
      }
      started := Err(RandomGeneration);
    }

    method GetDeviceFlowClientName(userCode: string, now: Instant) returns (client: Option<string>)
      requires Valid() && clock <= now
      ensures Outcome(View(), Client(client)) == LookupDeviceStep(View(), userCode, now)
    {
      var hits := OpenFlows(devices.rows, NormalizeUserCode(userCode), now);
      if hits == {} {
        return None;
      }
      var id := PickOne(hits);
      ghost var chosen: int := AnyOf(hits);
      assert chosen in hits && devices.rows[chosen].userCode == devices.rows[id].userCode;
      assert chosen == id;
      client := Some(devices.rows[id].clientName);
    }

    method ApproveDeviceFlow(userCode: string, principal: int, now: Instant) returns (approved: Result<bool>)
      requires Valid() && clock <= now
      modifies `sessions, `tokens, `oauth, `devices, `clock
      ensures Valid() && clock == now
      ensures Outcome(View(), Approved(approved)) == ApproveDeviceStep(old(View()), userCode, principal, now)
    {
      StepKeepsWellFormed(View(), Event(now, ApproveDevice(userCode, principal)), clock);
      StepKeepsOwners(View(), Event(now, ApproveDevice(userCode, principal)));
      clock := now;
      var hits := Approvable(devices.rows, NormalizeUserCode(userCode), now);
      if hits != {} && principal !in principals {
        return Err(Database);
      }
      devices := devices.(rows := ApproveRows(devices.rows, hits, principal, now));
      approved := Ok(|hits| == 1);
    }

    method PollDeviceFlow(deviceCode: string, tokenLabel: Option<string>, secret: string, now: Instant)
      returns (polled: Result<DevicePoll>)
      requires Valid() && clock <= now
      modifies `sessions, `tokens, `oauth, `devices, `clock
      ensures Valid() && clock == now
      ensures Outcome(View(), Polled(polled)) == PollDeviceStep(old(View()), deviceCode, tokenLabel, secret, now)
    {
      PollKeepsWellFormed(View(), deviceCode, tokenLabel, secret, now, clock);
      StepKeepsOwners(View(), Event(now, PollDevice(deviceCode, tokenLabel, secret)));
      clock := now;
      polled := AnswerPoll(deviceCode, tokenLabel, secret, now);
    }

    /** The transaction of a poll. */
    method AnswerPoll(deviceCode: string, tokenLabel: Option<string>, secret: string, now: Instant)
      returns (polled: Result<DevicePoll>)
      requires UniqueCodes(devices.rows)
      modifies `tokens, `devices
      ensures Outcome(View(), Polled(polled)) == PollDeviceStep(old(View()), deviceCode, tokenLabel, secret, now)
    {
      if deviceCode == "" {
        return Ok(Expired);
      }
      ghost var found := FlowOf(devices.rows, SecretHash(deviceCode));
      var hits := CodeIds(devices.rows, SecretHash(deviceCode));
      if hits == {} {
        return Ok(Expired);
      }
      var id := PickOne(hits);
      var before, row := devices, devices.rows[id];
      assert found.Some? && row.codeHash == devices.rows[found.value].codeHash;
      if row.expiresAt <= now {
        devices := devices.(rows := devices.rows - {id});
        return Ok(Expired);
      }
      if row.deliveredAt.Some? {
        return Ok(Consumed);
      }
      row := row.(lastPolledAt := Some(now));
      devices := devices.(rows := devices.rows[id := row]);
      if TooSoon(before.rows[id], now) {
        return Ok(SlowDown);
      }
      if row.approvedPrincipal.None? {
        return Ok(Pending);
      }
      var principal := row.approvedPrincipal.value;
      var expiry := ExpiryFrom(now, tokenIdleTimeout);
      if expiry.Err? {
        devices := before;  // rolled back
        return Err(expiry.error);
      }
      var (issuedTokens, issued) := InsertAndPrune(tokens, principals, principal, secret, tokenLabel, expiry.value,
                                                   now);
      if issued.Err? {
        devices := before;  // rolled back
        return Err(issued.error);
      }
      devices := devices.(rows := devices.rows[id := row.(deliveredAt := Some(now))]);
      tokens := issuedTokens;
      polled := Ok(Authorized(principal, issued.value));
    }
  }
}
