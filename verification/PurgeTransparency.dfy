/**
 The periodic purge is garbage collection: dead rows may be deleted at any moment
 of a run. Revocations then count fewer rows, and provisioning a token whose dead row
 is gone answers differently; no other answer changes.
 */
module PurgeTransparency {
  import opened Base
  import opened Credentials
  import opened AuthTables
  import opened Invariants
  import opened AuthAnswers
  import opened DeviceLogin

  /** The same rows are alive, with the same contents. */
  predicate SameRowAt(a: Rows, b: Rows, id: int, now: int) {
    (Live(a, id, now) <==> Live(b, id, now)) && (Live(a, id, now) ==> a[id] == b[id])
  }

  ghost predicate SameLive(a: Rows, b: Rows, now: int) {
    forall id :: SameRowAt(a, b, id, now)
  }

  predicate LiveOAuthFlow(rows: map<int, OAuthFlow>, id: int, now: int) {
    id in rows && rows[id].expiresAt > now
  }

  predicate SameOAuthAt(a: map<int, OAuthFlow>, b: map<int, OAuthFlow>, id: int, now: int) {
    (LiveOAuthFlow(a, id, now) <==> LiveOAuthFlow(b, id, now)) && (LiveOAuthFlow(a, id, now) ==> a[id] == b[id])
  }

  ghost predicate SameOAuth(a: map<int, OAuthFlow>, b: map<int, OAuthFlow>, now: int) {
    forall id :: SameOAuthAt(a, b, id, now)
  }

  predicate LiveDevice(rows: map<int, DeviceFlow>, id: int, now: int) {
    id in rows && rows[id].expiresAt > now
  }

  predicate SameDeviceAt(a: map<int, DeviceFlow>, b: map<int, DeviceFlow>, id: int, now: int) {
    (LiveDevice(a, id, now) <==> LiveDevice(b, id, now)) && (LiveDevice(a, id, now) ==> a[id] == b[id])
  }

  ghost predicate SameDevices(a: map<int, DeviceFlow>, b: map<int, DeviceFlow>, now: int) {
    forall id :: SameDeviceAt(a, b, id, now)
  }

  /** Two states that differ in dead rows only. */
  ghost predicate Similar(a: Tables, b: Tables, now: int) {
    a.principals == b.principals && a.sessionTimeout == b.sessionTimeout && a.tokenTimeout == b.tokenTimeout &&
    a.sessions.nextId == b.sessions.nextId && SameLive(a.sessions.rows, b.sessions.rows, now) &&
    a.tokens.nextId == b.tokens.nextId && SameLive(a.tokens.rows, b.tokens.rows, now) &&
    a.oauth.nextId == b.oauth.nextId && SameOAuth(a.oauth.rows, b.oauth.rows, now) &&
    a.devices.nextId == b.devices.nextId && SameDevices(a.devices.rows, b.devices.rows, now)
  }

  lemma SimilarLater(a: Tables, b: Tables, now: int, later: int)
    requires Similar(a, b, now) && now <= later
    ensures Similar(a, b, later)
  {
    forall id ensures SameRowAt(a.sessions.rows, b.sessions.rows, id, later) {
      assert SameRowAt(a.sessions.rows, b.sessions.rows, id, now);
    }
    forall id ensures SameRowAt(a.tokens.rows, b.tokens.rows, id, later) {
      assert SameRowAt(a.tokens.rows, b.tokens.rows, id, now);
    }
    forall id ensures SameOAuthAt(a.oauth.rows, b.oauth.rows, id, later) {
      assert SameOAuthAt(a.oauth.rows, b.oauth.rows, id, now);
    }
    forall id ensures SameDeviceAt(a.devices.rows, b.devices.rows, id, later) {
      assert SameDeviceAt(a.devices.rows, b.devices.rows, id, now);
    }
  }

  lemma SimilarToItself(t: Tables, now: int)
    ensures Similar(t, t, now)
  {
    forall id
      ensures SameRowAt(t.sessions.rows, t.sessions.rows, id, now) && SameRowAt(t.tokens.rows, t.tokens.rows, id, now)
    {
    }
  }

  lemma SimilarTransitive(a: Tables, b: Tables, c: Tables, now: int)
    requires Similar(a, b, now) && Similar(b, c, now)
    ensures Similar(a, c, now)
  {
    forall id ensures SameRowAt(a.sessions.rows, c.sessions.rows, id, now) {
      assert SameRowAt(a.sessions.rows, b.sessions.rows, id, now) &&
        SameRowAt(b.sessions.rows, c.sessions.rows, id, now);
    }
    forall id ensures SameRowAt(a.tokens.rows, c.tokens.rows, id, now) {
      assert SameRowAt(a.tokens.rows, b.tokens.rows, id, now) && SameRowAt(b.tokens.rows, c.tokens.rows, id, now);
    }
    forall id ensures SameOAuthAt(a.oauth.rows, c.oauth.rows, id, now) {
      assert SameOAuthAt(a.oauth.rows, b.oauth.rows, id, now) && SameOAuthAt(b.oauth.rows, c.oauth.rows, id, now);
    }
    forall id ensures SameDeviceAt(a.devices.rows, c.devices.rows, id, now) {
      assert SameDeviceAt(a.devices.rows, b.devices.rows, id, now) &&
        SameDeviceAt(b.devices.rows, c.devices.rows, id, now);
    }
  }

  // ----- credentials -----

  lemma {:induction false} NewestCongruence(a: Rows, b: Rows, ids: set<int>, k: nat)
    requires ids <= a.Keys && ids <= b.Keys
    requires forall id :: id in ids ==> a[id] == b[id]
    ensures Newest(a, ids, k) == Newest(b, ids, k)
    decreases k
  {
    if k != 0 && ids != {} {
      var top, other := NewestOf(a, ids), NewestOf(b, ids);
      assert IsNewest(a, ids, top) && IsNewest(b, ids, other);
      assert top == other by {
        assert top != other ==> Newer(a, top, other);
      }
      NewestCongruence(a, b, ids - {top}, k - 1);
    }
  }

  lemma PruneSameLive(a: Rows, b: Rows, principal: int, now: int)
    requires SameLive(a, b, now)
    ensures SameLive(Prune(a, principal, now), Prune(b, principal, now), now)
  {
    var ids := ActiveDynamic(a, principal, now);
    var others := ActiveDynamic(b, principal, now);
    forall id ensures (id in ids <==> id in others) && (id in ids ==> id in b && a[id] == b[id]) {
      assert SameRowAt(a, b, id, now);
    }
    assert ids == others;
    NewestCongruence(a, b, ids, MAX_ACTIVE_CREDENTIALS_PER_PRINCIPAL);
    var c, d := Prune(a, principal, now), Prune(b, principal, now);
    forall id ensures SameRowAt(c, d, id, now) {
      assert SameRowAt(a, b, id, now);
    }
  }

  lemma InsertSameLive(a: Table<Credential>, b: Table<Credential>, principals: set<int>, principal: int, secret: string,
                       tokenLabel: Option<string>, expiresAt: int, now: int)
    requires SameLive(a.rows, b.rows, now) && a.nextId == b.nextId
    requires !HashTaken(a.rows, SecretHash(secret)) && !HashTaken(b.rows, SecretHash(secret))
    ensures
      var x, y := InsertAndPrune(a, principals, principal, secret, tokenLabel, expiresAt, now),
                  InsertAndPrune(b, principals, principal, secret, tokenLabel, expiresAt, now);
      x.1 == y.1 && x.0.nextId == y.0.nextId && SameLive(x.0.rows, y.0.rows, now)
  {
    var row := NewRow(principal, secret, tokenLabel, now, expiresAt);
    var c, d := a.rows[a.nextId := row], b.rows[b.nextId := row];
    forall id ensures SameRowAt(c, d, id, now) {
      assert SameRowAt(a.rows, b.rows, id, now);
    }
    PruneSameLive(c, d, principal, now);
  }

  lemma AuthenticateSameLive(a: Rows, b: Rows, secret: string, timeout: nat, now: Instant)
    requires SameLive(a, b, now) && UniqueHashes(a) && UniqueHashes(b)
    ensures
      var x, y := AuthenticateCredential(a, secret, timeout, now), AuthenticateCredential(b, secret, timeout, now);
      x.1 == y.1 && SameLive(x.0, y.0, now)
  {
    var hash := SecretHash(secret);
    var i, j := Find(a, hash), Find(b, hash);
    if i.Some? {
      assert SameRowAt(a, b, i.value, now);
    }
    if j.Some? {
      assert SameRowAt(a, b, j.value, now);
    }
    var x, y := AuthenticateCredential(a, secret, timeout, now), AuthenticateCredential(b, secret, timeout, now);
    assert (i.Some? && Live(a, i.value, now)) == (j.Some? && Live(b, j.value, now));
    forall id ensures SameRowAt(x.0, y.0, id, now) {
      assert SameRowAt(a, b, id, now);
    }
  }

  /** Do the two selections agree on row `id`, whenever the row is alive? */
  predicate SelectedAlike(a: Rows, idsA: set<int>, idsB: set<int>, id: int, now: int) {
    Live(a, id, now) ==> (id in idsA <==> id in idsB)
  }

  lemma RevokeSameLive(a: Rows, b: Rows, idsA: set<int>, idsB: set<int>, now: int)
    requires SameLive(a, b, now)
    requires forall id :: SelectedAlike(a, idsA, idsB, id, now)
    ensures SameLive(RevokeRows(a, idsA, now), RevokeRows(b, idsB, now), now)
  {
    var c, d := RevokeRows(a, idsA, now), RevokeRows(b, idsB, now);
    forall id ensures SameRowAt(c, d, id, now) {
      assert SameRowAt(a, b, id, now) && SelectedAlike(a, idsA, idsB, id, now);
    }
  }

  lemma RevokeByContents(a: Rows, b: Rows, hash: Digest, principal: int, now: int)
    requires SameLive(a, b, now)
    ensures SameLive(RevokeRows(a, WithHash(a, hash), now), RevokeRows(b, WithHash(b, hash), now), now)
    ensures SameLive(RevokeRows(a, OfPrincipal(a, principal), now), RevokeRows(b, OfPrincipal(b, principal), now), now)
    ensures SameLive(RevokeRows(a, ManagedRows(a), now), RevokeRows(b, ManagedRows(b), now), now)
  {
    forall id ensures SelectedAlike(a, WithHash(a, hash), WithHash(b, hash), id, now) {
      assert SameRowAt(a, b, id, now);
    }
    forall id ensures SelectedAlike(a, OfPrincipal(a, principal), OfPrincipal(b, principal), id, now) {
      assert SameRowAt(a, b, id, now);
    }
    forall id ensures SelectedAlike(a, ManagedRows(a), ManagedRows(b), id, now) {
      assert SameRowAt(a, b, id, now);
    }
    RevokeSameLive(a, b, WithHash(a, hash), WithHash(b, hash), now);
    RevokeSameLive(a, b, OfPrincipal(a, principal), OfPrincipal(b, principal), now);
    RevokeSameLive(a, b, ManagedRows(a), ManagedRows(b), now);
  }

  // ----- one step -----

  /** What a client learns from a reply; the counts of revocations and purges are bookkeeping. */
  function Observed(op: Op, reply: Reply): Reply {
    if Revocation(op) || op.Purge? then Count(0) else reply
  }

  /** The table and the secret that an event may insert. */
  function Generated(op: Op, kind: Kind): set<Digest> {
    match op
    case Create(k, _, _, secret) => if k == kind then {SecretHash(secret)} else {}
    case PollDevice(_, _, secret) => if kind.Token? then {SecretHash(secret)} else {}
    case _ => {}
  }

  ghost predicate FreshFor(t: Tables, op: Op) {
    forall kind, hash :: hash in Generated(op, kind) ==> !HashTaken(t.Of(kind).rows, hash)
  }

  ghost predicate Ready(a: Tables, b: Tables, e: Event) {
    Similar(a, b, e.now) && WellFormed(a, e.now) && WellFormed(b, e.now) && FreshFor(a, e.op) && FreshFor(b, e.op)
  }

  lemma CreateSimilar(a: Tables, b: Tables, e: Event)
    requires Ready(a, b, e) && e.op.Create?
    ensures Step(a, e).reply == Step(b, e).reply
    ensures Similar(Step(a, e).tables, Step(b, e).tables, e.now)
  {
    var kind := e.op.kind;
    var expiry := ExpiryFrom(e.now, a.Timeout(kind));
    if expiry.Ok? {
      assert SecretHash(e.op.secret) in Generated(e.op, kind);
      InsertSameLive(a.Of(kind), b.Of(kind), a.principals, e.op.principal, e.op.secret,
                     SessionLabel(kind, e.op.tokenLabel),
                     expiry.value, e.now);
    }
  }

  lemma AuthenticateSimilar(a: Tables, b: Tables, e: Event)
    requires Ready(a, b, e) && e.op.Authenticate?
    ensures Step(a, e).reply == Step(b, e).reply
    ensures Similar(Step(a, e).tables, Step(b, e).tables, e.now)
  {
    var kind := e.op.kind;
    AuthenticateSameLive(a.Of(kind).rows, b.Of(kind).rows, e.op.secret, a.Timeout(kind), e.now);
  }

  lemma RevokeSecretSimilar(a: Tables, b: Tables, e: Event)
    requires Ready(a, b, e) && e.op.RevokeSecret?
    ensures Similar(Step(a, e).tables, Step(b, e).tables, e.now)
  {
    RevokeByContents(a.Of(e.op.kind).rows, b.Of(e.op.kind).rows, SecretHash(e.op.secret), 0, e.now);
  }

  lemma RevocationSimilar(a: Tables, b: Tables, e: Event)
    requires Ready(a, b, e) && Revocation(e.op)
    ensures Similar(Step(a, e).tables, Step(b, e).tables, e.now)
  {
    match e.op
    case RevokeSecret(_, _) => RevokeSecretSimilar(a, b, e);
    case RevokeTokenById(id) => RevokeSameLive(a.tokens.rows, b.tokens.rows, {id}, {id}, e.now);
    case RevokePrincipal(p) =>
      RevokeByContents(a.sessions.rows, b.sessions.rows, SecretHash(""), p, e.now);
      RevokeByContents(a.tokens.rows, b.tokens.rows, SecretHash(""), p, e.now);
    case RevokeManaged => RevokeByContents(a.tokens.rows, b.tokens.rows, SecretHash(""), 0, e.now);
  }

  lemma SameOAuthMaps(a: map<int, OAuthFlow>, b: map<int, OAuthFlow>, now: int)
    requires SameOAuth(a, b, now)
    ensures LiveOAuth(a, now) == LiveOAuth(b, now)
  {
    var c, d := LiveOAuth(a, now), LiveOAuth(b, now);
    forall id ensures (id in c <==> id in d) && (id in c ==> c[id] == d[id]) {
      assert SameOAuthAt(a, b, id, now);
    }
  }

  lemma StoreOAuthSimilar(a: Tables, b: Tables, e: Event)
    requires Ready(a, b, e) && e.op.StoreOAuth?
    ensures Step(a, e).reply == Step(b, e).reply
    ensures Similar(Step(a, e).tables, Step(b, e).tables, e.now)
  {
    SameOAuthMaps(a.oauth.rows, b.oauth.rows, e.now);
  }

  lemma ConsumeOAuthSimilar(a: Tables, b: Tables, e: Event)
    requires Ready(a, b, e) && e.op.ConsumeOAuth?
    ensures Step(a, e).reply == Step(b, e).reply
    ensures Similar(Step(a, e).tables, Step(b, e).tables, e.now)
  {
    SameOAuthMaps(a.oauth.rows, b.oauth.rows, e.now);
    var hits := StateIds(LiveOAuth(a.oauth.rows, e.now), SecretHash(e.op.state));
    if hits != {} {
      assert SameOAuthAt(a.oauth.rows, b.oauth.rows, AnyOf(hits), e.now);
    }
    var c, d := a.oauth.rows - hits, b.oauth.rows - hits;
    forall id ensures SameOAuthAt(c, d, id, e.now) {
      assert SameOAuthAt(a.oauth.rows, b.oauth.rows, id, e.now);
    }
  }

  lemma SameDeviceMaps(a: map<int, DeviceFlow>, b: map<int, DeviceFlow>, now: int)
    requires SameDevices(a, b, now)
    ensures LiveDevices(a, now) == LiveDevices(b, now)
  {
    var c, d := LiveDevices(a, now), LiveDevices(b, now);
    forall id ensures (id in c <==> id in d) && (id in c ==> c[id] == d[id]) {
      assert SameDeviceAt(a, b, id, now);
    }
  }

  lemma StartSimilar(a: Tables, b: Tables, e: Event)
    requires Ready(a, b, e) && e.op.StartDevice?
    ensures Step(a, e).reply == Step(b, e).reply
    ensures Similar(Step(a, e).tables, Step(b, e).tables, e.now)
  {
    SameDeviceMaps(a.devices.rows, b.devices.rows, e.now);
    var x, y := Step(a, e), Step(b, e);
    assert x.reply == y.reply && x.tables.devices.nextId == y.tables.devices.nextId;
    assert x.tables == a.(devices := x.tables.devices) && y.tables == b.(devices := y.tables.devices);
    if x.tables.devices.rows == y.tables.devices.rows {
      forall id ensures SameDeviceAt(x.tables.devices.rows, y.tables.devices.rows, id, e.now) {
      }
    } else {
      assert x.tables == a && y.tables == b;
    }
  }

  lemma ApproveSimilar(a: Tables, b: Tables, e: Event)
    requires Ready(a, b, e) && (e.op.ApproveDevice? || e.op.LookupDevice?)
    ensures Step(a, e).reply == Step(b, e).reply
    ensures Similar(Step(a, e).tables, Step(b, e).tables, e.now)
  {
    var code := NormalizeUserCode(e.op.userCode);
    var x, y := a.devices.rows, b.devices.rows;
    var v, w := OpenFlows(x, code, e.now), OpenFlows(y, code, e.now);
    forall id ensures (id in v <==> id in w) && (id in v ==> x[id] == y[id]) {
      assert SameDeviceAt(x, y, id, e.now);
    }
    assert v == w;
    if e.op.ApproveDevice? {
      assert Approvable(x, code, e.now) == Approvable(y, code, e.now);
      ApproveRowsSame(x, y, Approvable(x, code, e.now), e.op.principal, e.now);
    }
  }

  lemma ApproveRowsSame(x: map<int, DeviceFlow>, y: map<int, DeviceFlow>, ids: set<int>, principal: int, now: int)
    requires SameDevices(x, y, now)
    ensures SameDevices(ApproveRows(x, ids, principal, now), ApproveRows(y, ids, principal, now), now)
  {
    var v, w := ApproveRows(x, ids, principal, now), ApproveRows(y, ids, principal, now);
    forall id ensures SameDeviceAt(v, w, id, now) {
      assert SameDeviceAt(x, y, id, now);
    }
  }

  lemma UpdateSame(x: map<int, DeviceFlow>, y: map<int, DeviceFlow>, id: int, row: DeviceFlow, now: int)
    requires SameDevices(x, y, now)
    ensures SameDevices(x[id := row], y[id := row], now)
  {
    var v, w := x[id := row], y[id := row];
    forall k ensures SameDeviceAt(v, w, k, now) {
      assert SameDeviceAt(x, y, k, now);
    }
  }

  /** The flow of a code, live in one state, is the flow found by the other. */
  lemma PollLookup(x: map<int, DeviceFlow>, y: map<int, DeviceFlow>, hash: Digest, now: int, id: int)
    requires SameDevices(x, y, now) && UniqueCodes(y)
    requires LiveDevice(x, id, now) && x[id].codeHash == hash
    ensures FlowOf(y, hash) == Some(id) && y[id] == x[id] && LiveDevice(y, id, now)
  {
    assert SameDeviceAt(x, y, id, now);
    var found := FlowOf(y, hash);
    assert found.Some? && y[found.value].codeHash == y[id].codeHash;
    assert found.value == id;
  }

  lemma DropDead(x: map<int, DeviceFlow>, y: map<int, DeviceFlow>, dead: set<int>, now: int)
    requires SameDevices(x, y, now)
    requires forall id :: id in dead ==> !LiveDevice(x, id, now)
    ensures SameDevices(x - dead, y, now)
  {
    var v := x - dead;
    forall k ensures SameDeviceAt(v, y, k, now) {
      assert SameDeviceAt(x, y, k, now);
    }
  }

  lemma SameDevicesSymmetric(x: map<int, DeviceFlow>, y: map<int, DeviceFlow>, now: int)
    requires SameDevices(x, y, now)
    ensures SameDevices(y, x, now)
  {
    forall id ensures SameDeviceAt(y, x, id, now) {
      assert SameDeviceAt(x, y, id, now);
    }
  }

  /** Polling a code whose flow is dead or gone: `Expired`, and nothing alive changes. */
  lemma PollDead(a: Tables, e: Event) returns (dead: set<int>)
    requires e.op.PollDevice? && UniqueCodes(a.devices.rows)
    requires e.op.deviceCode != "" ==>
      forall id :: LiveDevice(a.devices.rows, id, e.now) ==> a.devices.rows[id].codeHash != SecretHash(e.op.deviceCode)
    ensures Step(a, e).reply == Polled(Ok(Expired))
    ensures Step(a, e).tables == a.(devices := a.devices.(rows := a.devices.rows - dead))
    ensures forall id :: id in dead ==> !LiveDevice(a.devices.rows, id, e.now)
  {
    var rows := a.devices.rows;
    var found := FlowOf(rows, SecretHash(e.op.deviceCode));
    if e.op.deviceCode == "" || found.None? {
      dead := {};
      assert rows - dead == rows;
    } else {
      dead := {found.value};
      assert !LiveDevice(rows, found.value, e.now);
    }
  }

  lemma PollLive(a: Tables, b: Tables, e: Event, id: int)
    requires Ready(a, b, e) && e.op.PollDevice? && e.op.deviceCode != ""
    requires LiveDevice(a.devices.rows, id, e.now) && a.devices.rows[id].codeHash == SecretHash(e.op.deviceCode)
    ensures Step(a, e).reply == Step(b, e).reply
    ensures Similar(Step(a, e).tables, Step(b, e).tables, e.now)
  {
    var x, y := a.devices.rows, b.devices.rows;
    var hash := SecretHash(e.op.deviceCode);
    PollLookup(x, x, hash, e.now, id);
    PollLookup(x, y, hash, e.now, id);
    var row := x[id];
    UpdateSame(x, y, id, row.(lastPolledAt := Some(e.now)), e.now);
    UpdateSame(x, y, id, row.(lastPolledAt := Some(e.now), deliveredAt := Some(e.now)), e.now);
    assert SecretHash(e.op.secret) in Generated(e.op, Token);
    var expiry := ExpiryFrom(e.now, a.tokenTimeout);
    if row.approvedPrincipal.Some? && expiry.Ok? {
      InsertSameLive(a.tokens, b.tokens, a.principals, row.approvedPrincipal.value, e.op.secret, e.op.tokenLabel,
                     expiry.value, e.now);
    }
  }

  lemma PollSimilar(a: Tables, b: Tables, e: Event)
    requires Ready(a, b, e) && e.op.PollDevice?
    ensures Step(a, e).reply == Step(b, e).reply
    ensures Similar(Step(a, e).tables, Step(b, e).tables, e.now)
  {
    var x, y := a.devices.rows, b.devices.rows;
    var hash := SecretHash(e.op.deviceCode);
    if e.op.deviceCode != "" && exists id :: LiveDevice(x, id, e.now) && x[id].codeHash == hash {
      var id :| LiveDevice(x, id, e.now) && x[id].codeHash == hash;
      PollLive(a, b, e, id);
    } else {
      if e.op.deviceCode != "" {
        forall id | LiveDevice(y, id, e.now) ensures y[id].codeHash != hash {
          assert SameDeviceAt(x, y, id, e.now);
        }
      }
      var da := PollDead(a, e);
      var db := PollDead(b, e);
      DropDead(x, y, da, e.now);
      SameDevicesSymmetric(x - da, y, e.now);
      DropDead(y, x - da, db, e.now);
      SameDevicesSymmetric(y - db, x - da, e.now);
    }
  }

  lemma PurgedSimilar(t: Tables, now: Instant)
    ensures Similar(PurgeStep(t, now).tables, t, now)
  {
    var p := PurgeStep(t, now).tables;
    forall id ensures SameRowAt(p.sessions.rows, t.sessions.rows, id, now) {
    }
    forall id ensures SameRowAt(p.tokens.rows, t.tokens.rows, id, now) {
    }
    forall id ensures SameOAuthAt(p.oauth.rows, t.oauth.rows, id, now) {
    }
    forall id ensures SameDeviceAt(p.devices.rows, t.devices.rows, id, now) {
    }
  }

  /** A dead row of a token is there. */
  predicate DeadToken(rows: Rows, secret: string, now: int) {
    exists id :: id in rows && rows[id].hash == SecretHash(secret) && !Live(rows, id, now)
  }

  /** What provisioning keeps of a row that it revives. */
  predicate SameRecord(a: Credential, b: Credential) {
    a.principal == b.principal && a.hash == b.hash && a.createdAt == b.createdAt
  }

  /** Both states hold the same row of this secret, dead or alive, or none. */
  predicate SameTokens(a: Rows, b: Rows, secret: string) {
    && (forall id :: id in a && a[id].hash == SecretHash(secret) ==> id in b && SameRecord(a[id], b[id]))
    && (forall id :: id in b && b[id].hash == SecretHash(secret) ==> id in a && SameRecord(a[id], b[id]))
  }

  predicate RefusedOutright(t: Tables, e: Event) {
    e.op.Provision? && (e.op.secret == "" || ExpiryFrom(e.now, t.tokenTimeout).Err?)
  }

  /** If this provisions a token, both states hold the same row of it. */
  predicate ProvisionedAlike(a: Tables, b: Tables, e: Event) {
    e.op.Provision? ==> RefusedOutright(a, e) || SameTokens(a.tokens.rows, b.tokens.rows, e.op.secret)
  }

  lemma SameHits(a: Rows, b: Rows, secret: string)
    requires SameTokens(a, b, secret)
    ensures WithHash(a, SecretHash(secret)) == WithHash(b, SecretHash(secret))
  {
    var c, d := WithHash(a, SecretHash(secret)), WithHash(b, SecretHash(secret));
    forall id ensures id in c <==> id in d {
    }
    assert c == d;
  }

  lemma ProvisionSimilar(a: Tables, b: Tables, e: Event)
    requires Ready(a, b, e) && e.op.Provision? && ProvisionedAlike(a, b, e)
    ensures Step(a, e).reply == Step(b, e).reply
    ensures Similar(Step(a, e).tables, Step(b, e).tables, e.now)
  {
    if !RefusedOutright(a, e) {
      var rows, others := a.tokens.rows, b.tokens.rows;
      SameHits(rows, others, e.op.secret);
      var hits := WithHash(rows, SecretHash(e.op.secret));
      var id: int := if hits == {} then a.tokens.nextId else AnyOf(hits);
      assert hits != {} ==> id in hits && SameRecord(rows[id], others[id]);
      var c, d := Step(a, e).tables.tokens.rows, Step(b, e).tables.tokens.rows;
      forall k ensures SameRowAt(c, d, k, e.now) {
        assert SameRowAt(rows, others, k, e.now);
      }
    }
  }

  /**
   Two states that differ in dead rows only answer alike and still differ in dead rows only; for a
   provisioning they must hold the same row of its token.
   */
  lemma StepSimilar(a: Tables, b: Tables, e: Event)
    requires Ready(a, b, e) && !e.op.Purge? && ProvisionedAlike(a, b, e)
    ensures Observed(e.op, Step(a, e).reply) == Observed(e.op, Step(b, e).reply)
    ensures Similar(Step(a, e).tables, Step(b, e).tables, e.now)
  {
    match e.op
    case StoreOAuth(_, _, _, _) => StoreOAuthSimilar(a, b, e);
    case ConsumeOAuth(_) => ConsumeOAuthSimilar(a, b, e);
    case StartDevice(_, _, _, _, _) => StartSimilar(a, b, e);
    case LookupDevice(_) => ApproveSimilar(a, b, e);
    case ApproveDevice(_, _) => ApproveSimilar(a, b, e);
    case PollDevice(_, _, _) => PollSimilar(a, b, e);
    case Create(_, _, _, _) => CreateSimilar(a, b, e);
    case Authenticate(_, _) => AuthenticateSimilar(a, b, e);
    case Provision(_, _, _) => ProvisionSimilar(a, b, e);
    case _ => RevocationSimilar(a, b, e);
  }

  // ----- whole runs -----

  /** The same run without its purges. */
  function Erased(es: seq<Event>): seq<Event> {
    if es == [] then []
    else
      var n := |es| - 1;
      if es[n].op.Purge? then Erased(es[..n]) else Erased(es[..n]) + [es[n]]
  }

  /** Everything the clients of a run observe, in order. */
  ghost function Observations(t: Tables, es: seq<Event>): seq<Reply> {
    if es == [] then []
    else
      var n := |es| - 1;
      var before := Observations(t, es[..n]);
      if es[n].op.Purge? then before else before + [Observed(es[n].op, ReplyAt(t, es, n))]
  }

  ghost function InitialHashes(t: Tables, kind: Kind): set<Digest> {
    set id | id in t.Of(kind).rows :: t.Of(kind).rows[id].hash
  }

  /** The table and the secret that an event may insert, generated or configured. */
  function Written(op: Op, kind: Kind): set<Digest> {
    if op.Provision? then (if kind.Token? then {SecretHash(op.secret)} else {}) else Generated(op, kind)
  }

  /** The digests a table can hold after a run: those it started with and those written since. */
  ghost function KnownHashes(t: Tables, es: seq<Event>, kind: Kind): set<Digest> {
    if es == [] then InitialHashes(t, kind)
    else KnownHashes(t, es[..|es|-1], kind) + Written(es[|es|-1].op, kind)
  }

  /** Generated secrets are new: never seen before in their table. */
  ghost predicate FreshSecrets(t: Tables, es: seq<Event>) {
    forall k, kind :: 0 <= k < |es| ==> Generated(es[k].op, kind) !! KnownHashes(t, es[..k], kind)
  }

  predicate RowsWithin(rows: Rows, known: set<Digest>) {
    forall id :: id in rows ==> rows[id].hash in known
  }

  lemma AuthenticateHashes(rows: Rows, secret: string, timeout: nat, now: Instant, known: set<Digest>)
    requires RowsWithin(rows, known)
    ensures RowsWithin(AuthenticateCredential(rows, secret, timeout, now).0, known)
  {
    var found := Find(rows, SecretHash(secret));
    if found.Some? {
      var id: int := found.value;
      assert id in rows;
      assert rows[id].hash in known;
    }
  }

  lemma InsertHashes(t: Table<Credential>, principals: set<int>, principal: int, secret: string,
                     tokenLabel: Option<string>,
                     expiresAt: int, now: int, known: set<Digest>)
    requires RowsWithin(t.rows, known)
    ensures RowsWithin(InsertAndPrune(t, principals, principal, secret, tokenLabel, expiresAt, now).0.rows,
                       known + {SecretHash(secret)})
  {
  }

  lemma RevokeHashes(rows: Rows, ids: set<int>, now: int, known: set<Digest>)
    requires RowsWithin(rows, known)
    ensures RowsWithin(RevokeRows(rows, ids, now), known)
  {
  }

  lemma PollHashes(t: Tables, e: Event, known: set<Digest>)
    requires RowsWithin(t.tokens.rows, known) && e.op.PollDevice?
    ensures RowsWithin(Step(t, e).tables.tokens.rows, known + {SecretHash(e.op.secret)})
    ensures Step(t, e).tables.sessions == t.sessions
  {
    var found := FlowOf(t.devices.rows, SecretHash(e.op.deviceCode));
    var expiry := ExpiryFrom(e.now, t.tokenTimeout);
    if found.Some? && expiry.Ok? {
      var row := t.devices.rows[found.value];
      if row.approvedPrincipal.Some? {
        InsertHashes(t.tokens, t.principals, row.approvedPrincipal.value, e.op.secret, e.op.tokenLabel, expiry.value,
                     e.now, known);
      }
    }
  }

  lemma StepHashes(t: Tables, e: Event, kind: Kind, known: set<Digest>)
    requires RowsWithin(t.Of(kind).rows, known)
    ensures RowsWithin(Step(t, e).tables.Of(kind).rows, known + Written(e.op, kind))
  {
    var rows := t.Of(kind).rows;
    assert RowsWithin(rows, known + Written(e.op, kind));
    match e.op
    case PollDevice(_, _, _) =>
      if kind.Token? {
        PollHashes(t, e, known);
      }
    case Create(k, principal, tokenLabel, secret) =>
      var expiry := ExpiryFrom(e.now, t.Timeout(kind));
      if k == kind && expiry.Ok? {
        InsertHashes(t.Of(k), t.principals, principal, secret, SessionLabel(k, tokenLabel), expiry.value, e.now, known);
      }
    case Authenticate(k, secret) => AuthenticateHashes(rows, secret, t.Timeout(kind), e.now, known);
    case RevokeSecret(k, secret) => RevokeHashes(rows, WithHash(rows, SecretHash(secret)), e.now, known);
    case RevokeTokenById(id) => RevokeHashes(rows, {id}, e.now, known);
    case RevokePrincipal(p) => RevokeHashes(rows, OfPrincipal(rows, p), e.now, known);
    case RevokeManaged => RevokeHashes(rows, ManagedRows(rows), e.now, known);
    case Provision(_, secret, _) =>
      var hits := WithHash(t.tokens.rows, SecretHash(secret));
      assert hits != {} ==> AnyOf(hits) in hits;
    case _ =>
  }

  lemma {:induction false} RunHashes(t: Tables, es: seq<Event>, kind: Kind)
    ensures RowsWithin(Run(t, es).Of(kind).rows, KnownHashes(t, es, kind))
    ensures RowsWithin(Run(t, Erased(es)).Of(kind).rows, KnownHashes(t, es, kind))
  {
    if es != [] {
      var n := |es| - 1;
      RunHashes(t, es[..n], kind);
      StepHashes(Run(t, es[..n]), es[n], kind, KnownHashes(t, es[..n], kind));
      if !es[n].op.Purge? {
        ErasedLast(t, es);
        StepHashes(Run(t, Erased(es[..n])), es[n], kind, KnownHashes(t, es[..n], kind));
      }
    }
  }

  lemma ErasedLast(t: Tables, es: seq<Event>)
    requires es != [] && !es[|es|-1].op.Purge?
    ensures Run(t, Erased(es)) == Step(Run(t, Erased(es[..|es|-1])), es[|es|-1]).tables
    ensures Observations(t, Erased(es)) ==
      Observations(t, Erased(es[..|es|-1])) +
        [Observed(es[|es|-1].op, Step(Run(t, Erased(es[..|es|-1])), es[|es|-1]).reply)]
  {
    var short := Erased(es);
    assert short[..|short|-1] == Erased(es[..|es|-1]) && short[|short|-1] == es[|es|-1];
  }

  /** A fresh secret is not taken in either run. */
  lemma FreshLast(t: Tables, es: seq<Event>)
    requires es != [] && FreshSecrets(t, es)
    ensures FreshFor(Run(t, es[..|es|-1]), es[|es|-1].op)
    ensures FreshFor(Run(t, Erased(es[..|es|-1])), es[|es|-1].op)
  {
    var n := |es| - 1;
    forall kind, hash | hash in Generated(es[n].op, kind)
      ensures !HashTaken(Run(t, es[..n]).Of(kind).rows, hash) && !HashTaken(Run(t, Erased(es[..n])).Of(kind).rows, hash)
    {
      RunHashes(t, es[..n], kind);
    }
  }

  lemma FreshPrefix(t: Tables, es: seq<Event>)
    requires es != [] && FreshSecrets(t, es)
    ensures FreshSecrets(t, es[..|es|-1])
  {
    var n := |es| - 1;
    forall k, kind | 0 <= k < n ensures Generated(es[..n][k].op, kind) !! KnownHashes(t, es[..n][..k], kind) {
      assert es[..n][..k] == es[..k] && es[..n][k] == es[k];
    }
  }

  // ----- the purged run holds fewer rows -----

  /** Every row of `a` is a row of `b`, with the same principal, secret and creation time. */
  predicate Thinned(a: Rows, b: Rows) {
    forall id :: id in a ==> id in b && SameRecord(a[id], b[id])
  }

  /** A row of the token that `b` still holds and `a` does not. */
  predicate Taken(a: Rows, b: Rows, secret: string) {
    exists id :: id in b && b[id].hash == SecretHash(secret) && id !in a
  }

  /** This provisions a token, and is not refused outright, whose dead row a purge has taken from `a`. */
  predicate MeetsTaken(a: Tables, b: Tables, e: Event) {
    e.op.Provision? && !RefusedOutright(a, e) && Taken(a.tokens.rows, b.tokens.rows, e.op.secret)
  }

  lemma NotTakenIsAlike(a: Tables, b: Tables, e: Event)
    requires Thinned(a.tokens.rows, b.tokens.rows) && !MeetsTaken(a, b, e)
    ensures ProvisionedAlike(a, b, e)
  {
  }

  /** A statement that updates rows and keeps what identifies them. */
  predicate KeepsRecords(before: Rows, after: Rows) {
    Thinned(before, after) && Thinned(after, before)
  }

  lemma ThinnedAfterUpdates(a: Rows, b: Rows, c: Rows, d: Rows)
    requires Thinned(a, b) && KeepsRecords(a, c) && KeepsRecords(b, d)
    ensures Thinned(c, d)
  {
  }

  lemma RevokeKeepsRecords(rows: Rows, ids: set<int>, now: int)
    ensures KeepsRecords(rows, RevokeRows(rows, ids, now))
  {
  }

  lemma AuthenticateKeepsRecords(rows: Rows, secret: string, timeout: nat, now: Instant)
    ensures KeepsRecords(rows, AuthenticateCredential(rows, secret, timeout, now).0)
  {
    var found := Find(rows, SecretHash(secret));
    var id: int := if found.Some? then found.value else 0;
    assert found.Some? ==> id in rows;
  }

  /** These leave the token table alone, or update its rows. */
  lemma UpdateKeepsRecords(t: Tables, e: Event)
    requires Revocation(e.op) || e.op.Authenticate?
    ensures KeepsRecords(t.tokens.rows, Step(t, e).tables.tokens.rows)
  {
    var rows := t.tokens.rows;
    match e.op
    case Authenticate(_, secret) => AuthenticateKeepsRecords(rows, secret, t.tokenTimeout, e.now);
    case RevokeSecret(_, secret) => RevokeKeepsRecords(rows, WithHash(rows, SecretHash(secret)), e.now);
    case RevokeTokenById(id) => RevokeKeepsRecords(rows, {id}, e.now);
    case RevokePrincipal(p) => RevokeKeepsRecords(rows, OfPrincipal(rows, p), e.now);
    case RevokeManaged => RevokeKeepsRecords(rows, ManagedRows(rows), e.now);
  }

  lemma PruneThinned(a: Rows, b: Rows, principal: int, now: int)
    requires SameLive(a, b, now) && Thinned(a, b)
    ensures Thinned(Prune(a, principal, now), Prune(b, principal, now))
  {
    var ids, others := ActiveDynamic(a, principal, now), ActiveDynamic(b, principal, now);
    forall id ensures (id in ids <==> id in others) && (id in ids ==> id in b && a[id] == b[id]) {
      assert SameRowAt(a, b, id, now);
    }
    assert ids == others;
    NewestCongruence(a, b, ids, MAX_ACTIVE_CREDENTIALS_PER_PRINCIPAL);
    var c, d := Prune(a, principal, now), Prune(b, principal, now);
    forall id | id in c ensures id in d && SameRecord(c[id], d[id]) {
      assert SameRowAt(a, b, id, now);
    }
  }

  lemma InsertThinned(a: Table<Credential>, b: Table<Credential>, principals: set<int>, principal: int, secret: string,
                      tokenLabel: Option<string>, expiresAt: int, now: int)
    requires SameLive(a.rows, b.rows, now) && Thinned(a.rows, b.rows) && a.nextId == b.nextId
    requires !HashTaken(a.rows, SecretHash(secret)) && !HashTaken(b.rows, SecretHash(secret))
    ensures Thinned(InsertAndPrune(a, principals, principal, secret, tokenLabel, expiresAt, now).0.rows,
                    InsertAndPrune(b, principals, principal, secret, tokenLabel, expiresAt, now).0.rows)
  {
    var row := NewRow(principal, secret, tokenLabel, now, expiresAt);
    var c, d := a.rows[a.nextId := row], b.rows[b.nextId := row];
    forall id ensures SameRowAt(c, d, id, now) {
      assert SameRowAt(a.rows, b.rows, id, now);
    }
    PruneThinned(c, d, principal, now);
  }

  lemma CreateThinned(a: Tables, b: Tables, e: Event)
    requires Ready(a, b, e) && e.op.Create? && Thinned(a.tokens.rows, b.tokens.rows)
    ensures Thinned(Step(a, e).tables.tokens.rows, Step(b, e).tables.tokens.rows)
  {
    var expiry := ExpiryFrom(e.now, a.tokenTimeout);
    if e.op.kind.Token? && expiry.Ok? {
      assert SecretHash(e.op.secret) in Generated(e.op, Token);
      InsertThinned(a.tokens, b.tokens, a.principals, e.op.principal, e.op.secret, e.op.tokenLabel,
        expiry.value, e.now);
    }
  }

  predicate Delivers(reply: Reply) {
    reply.Polled? && reply.polled.Ok? && reply.polled.value.Authorized?
  }

  lemma PolledIsFresh(t: Tables, e: Event)
    requires FreshFor(t, e.op) && e.op.PollDevice?
    ensures !HashTaken(t.tokens.rows, SecretHash(e.op.secret))
  {
    assert SecretHash(e.op.secret) in Generated(e.op, Token);
    assert !HashTaken(t.Of(Token).rows, SecretHash(e.op.secret));
  }

  lemma PollsAlike(a: Tables, b: Tables, e: Event)
    requires Ready(a, b, e) && e.op.PollDevice?
    ensures Step(a, e).reply == Step(b, e).reply
  {
    PollSimilar(a, b, e);
  }

  lemma PollThinned(a: Tables, b: Tables, e: Event)
    requires Ready(a, b, e) && e.op.PollDevice? && Thinned(a.tokens.rows, b.tokens.rows)
    ensures Thinned(Step(a, e).tables.tokens.rows, Step(b, e).tables.tokens.rows)
  {
    PollsAlike(a, b, e);
    PolledIsFresh(a, e);
    PolledIsFresh(b, e);
    PolledTablesThinned(a, b, e);
  }

  lemma PolledTablesThinned(a: Tables, b: Tables, e: Event)
    requires e.op.PollDevice? && Step(a, e).reply == Step(b, e).reply
    requires a.principals == b.principals && a.tokenTimeout == b.tokenTimeout && a.tokens.nextId == b.tokens.nextId
    requires SameLive(a.tokens.rows, b.tokens.rows, e.now) && Thinned(a.tokens.rows, b.tokens.rows)
    requires !HashTaken(a.tokens.rows, SecretHash(e.op.secret)) && !HashTaken(b.tokens.rows, SecretHash(e.op.secret))
    ensures Thinned(Step(a, e).tables.tokens.rows, Step(b, e).tables.tokens.rows)
  {
    if Delivers(Step(a, e).reply) {
      var principal := DeliveryInserts(a, e);
      var same := DeliveryInserts(b, e);
      InsertedThinned(a.tokens, b.tokens, Step(a, e).tables.tokens, Step(b, e).tables.tokens, a.principals, principal,
                      e.op.secret, e.op.tokenLabel, e.now + a.tokenTimeout, e.now);
    } else {
      PollOnlyDelivers(a, e);
      PollOnlyDelivers(b, e);
    }
  }

  lemma InsertedThinned(a: Table<Credential>, b: Table<Credential>, x: Table<Credential>, y: Table<Credential>,
                        principals: set<int>, principal: int, secret: string, tokenLabel: Option<string>,
                        expiresAt: int, now: int)
    requires SameLive(a.rows, b.rows, now) && Thinned(a.rows, b.rows) && a.nextId == b.nextId
    requires !HashTaken(a.rows, SecretHash(secret)) && !HashTaken(b.rows, SecretHash(secret))
    requires x == InsertAndPrune(a, principals, principal, secret, tokenLabel, expiresAt, now).0
    requires y == InsertAndPrune(b, principals, principal, secret, tokenLabel, expiresAt, now).0
    ensures Thinned(x.rows, y.rows)
  {
    InsertThinned(a, b, principals, principal, secret, tokenLabel, expiresAt, now);
  }

  lemma ProvisionThinned(a: Tables, b: Tables, e: Event)
    requires Ready(a, b, e) && e.op.Provision? && Thinned(a.tokens.rows, b.tokens.rows) && !MeetsTaken(a, b, e)
    ensures Thinned(Step(a, e).tables.tokens.rows, Step(b, e).tables.tokens.rows)
  {
    if !RefusedOutright(a, e) {
      SameHits(a.tokens.rows, b.tokens.rows, e.op.secret);
      var hits := WithHash(a.tokens.rows, SecretHash(e.op.secret));
      assert hits != {} ==> AnyOf(hits) in hits;
    }
  }

  lemma UpdateThinned(a: Tables, b: Tables, e: Event)
    requires (Revocation(e.op) || e.op.Authenticate?) && Thinned(a.tokens.rows, b.tokens.rows)
    ensures Thinned(Step(a, e).tables.tokens.rows, Step(b, e).tables.tokens.rows)
  {
    UpdateKeepsRecords(a, e);
    UpdateKeepsRecords(b, e);
    ThinnedAfterUpdates(a.tokens.rows, b.tokens.rows, Step(a, e).tables.tokens.rows, Step(b, e).tables.tokens.rows);
  }

  lemma StepThinned(a: Tables, b: Tables, e: Event)
    requires Ready(a, b, e) && !e.op.Purge? && Thinned(a.tokens.rows, b.tokens.rows) && !MeetsTaken(a, b, e)
    ensures Thinned(Step(a, e).tables.tokens.rows, Step(b, e).tables.tokens.rows)
  {
    match e.op
    case Create(_, _, _, _) => CreateThinned(a, b, e);
    case PollDevice(_, _, _) => PollThinned(a, b, e);
    case Provision(_, _, _) => ProvisionThinned(a, b, e);
    case StoreOAuth(_, _, _, _) =>
    case ConsumeOAuth(_) =>
    case StartDevice(_, _, _, _, _) =>
    case LookupDevice(_) =>
    case ApproveDevice(_, _) =>
    case _ => UpdateThinned(a, b, e);
  }

  /** A provisioning that meets a taken token gets another answer: another row, or another refusal. */
  lemma TakenIsSeen(a: Tables, b: Tables, e: Event)
    requires Ready(a, b, e) && Thinned(a.tokens.rows, b.tokens.rows) && MeetsTaken(a, b, e)
    ensures Step(a, e).reply != Step(b, e).reply
  {
    var rows, others := a.tokens.rows, b.tokens.rows;
    var id :| id in others && others[id].hash == SecretHash(e.op.secret) && id !in rows;
    var hits, more := WithHash(rows, SecretHash(e.op.secret)), WithHash(others, SecretHash(e.op.secret));
    forall k ensures k !in hits && (k in more <==> k == id) {
      assert k in hits ==> k in others && k == id;
    }
    assert id in more && AnyOf(more) in more && AnyOf(more) == id;
    assert hits == {} && id < a.tokens.nextId;
  }

  // ----- with and without the purges -----

  /** One event later; only the run `a` takes the purges. */
  lemma SimilarStep(a: Tables, b: Tables, e: Event, before: int)
    requires Similar(a, b, before) && WellFormed(a, before) && WellFormed(b, before) && before <= e.now
    requires FreshFor(a, e.op) && FreshFor(b, e.op)
    requires Thinned(a.tokens.rows, b.tokens.rows) && !MeetsTaken(a, b, e)
    ensures
      var c, d := Step(a, e).tables, if e.op.Purge? then b else Step(b, e).tables;
      Similar(c, d, e.now) && WellFormed(c, e.now) && WellFormed(d, e.now) && Thinned(c.tokens.rows, d.tokens.rows)
    ensures !e.op.Purge? ==> Observed(e.op, Step(a, e).reply) == Observed(e.op, Step(b, e).reply)
  {
    SimilarLater(a, b, before, e.now);
    WellFormedLater(a, before, e.now);
    WellFormedLater(b, before, e.now);
    StepKeepsWellFormed(a, e, e.now);
    if e.op.Purge? {
      PurgedSimilar(a, e.now);
      SimilarTransitive(Step(a, e).tables, a, b, e.now);
    } else {
      StepKeepsWellFormed(b, e, e.now);
      NotTakenIsAlike(a, b, e);
      StepSimilar(a, b, e);
      StepThinned(a, b, e);
    }
  }

  /** Event `k` provisions a token whose dead row an earlier purge of the run has taken. */
  ghost predicate MeetsTakenAt(t: Tables, es: seq<Event>, k: nat)
    requires k < |es|
  {
    MeetsTaken(Run(t, es[..k]), Run(t, Erased(es[..k])), es[k])
  }

  /** No provisioning of the run meets a token whose dead row a purge of the run has taken. */
  ghost predicate NoneMeetsTaken(t: Tables, es: seq<Event>) {
    forall k :: 0 <= k < |es| ==> !MeetsTakenAt(t, es, k)
  }

  lemma MeetsTakenInPrefix(t: Tables, es: seq<Event>, n: nat, k: nat)
    requires k < n <= |es|
    ensures MeetsTakenAt(t, es[..n], k) <==> MeetsTakenAt(t, es, k)
  {
    assert es[..n][..k] == es[..k] && es[..n][k] == es[k];
  }

  lemma NoneMeetsTakenLast(t: Tables, es: seq<Event>)
    requires es != []
    ensures NoneMeetsTaken(t, es) <==> NoneMeetsTaken(t, es[..|es|-1]) && !MeetsTakenAt(t, es, |es| - 1)
  {
    var n := |es| - 1;
    forall k | 0 <= k < n ensures MeetsTakenAt(t, es[..n], k) <==> MeetsTakenAt(t, es, k) {
      MeetsTakenInPrefix(t, es, n, k);
    }
  }

  lemma {:induction false} ErasedRun(t: Tables, es: seq<Event>, start: int)
    requires WellFormed(t, start) && Clocked(es) && (es != [] ==> start <= es[0].now)
    requires NoneMeetsTaken(t, es) && FreshSecrets(t, es)
    ensures Similar(Run(t, es), Run(t, Erased(es)), LastTime(es, start))
    ensures WellFormed(Run(t, es), LastTime(es, start)) && WellFormed(Run(t, Erased(es)), LastTime(es, start))
    ensures Thinned(Run(t, es).tokens.rows, Run(t, Erased(es)).tokens.rows)
    ensures Observations(t, es) == Observations(t, Erased(es))
  {
    if es == [] {
      SimilarToItself(t, start);
    } else {
      var n, e := |es| - 1, es[|es|-1];
      var before := LastTime(es[..n], start);
      assert before <= e.now;
      FreshPrefix(t, es);
      NoneMeetsTakenLast(t, es);
      ErasedRun(t, es[..n], start);
      FreshLast(t, es);
      SimilarStep(Run(t, es[..n]), Run(t, Erased(es[..n])), e, before);
      if !e.op.Purge? {
        ErasedLast(t, es);
      }
    }
  }

  /** Equal observations leave no room for a provisioning that meets a taken token. */
  lemma {:induction false} UnobservedMeansNone(t: Tables, es: seq<Event>, start: int)
    requires WellFormed(t, start) && Clocked(es) && (es != [] ==> start <= es[0].now)
    requires FreshSecrets(t, es) && Observations(t, es) == Observations(t, Erased(es))
    ensures NoneMeetsTaken(t, es)
  {
    if es != [] {
      var n, e := |es| - 1, es[|es|-1];
      FreshPrefix(t, es);
      if !e.op.Purge? {
        ErasedLast(t, es);
        SameFronts(Observations(t, es[..n]), Observed(e.op, ReplyAt(t, es, n)), Observations(t, Erased(es[..n])),
                   Observed(e.op, Step(Run(t, Erased(es[..n])), e).reply));
      }
      UnobservedMeansNone(t, es[..n], start);
      LastIsNotTaken(t, es, start);
      NoneMeetsTakenLast(t, es);
    }
  }

  lemma SameFronts<T>(a: seq<T>, x: T, b: seq<T>, y: T)
    requires a + [x] == b + [y]
    ensures a == b && x == y
  {
    assert |a + [x]| == |b + [y]|;
    assert a == (a + [x])[..|a|] && b == (b + [y])[..|b|];
    assert (a + [x])[|a|] == x && (b + [y])[|b|] == y;
  }

  lemma LastIsNotTaken(t: Tables, es: seq<Event>, start: int)
    requires WellFormed(t, start) && Clocked(es) && es != [] && start <= es[0].now && FreshSecrets(t, es)
    requires NoneMeetsTaken(t, es[..|es|-1])
    requires !es[|es|-1].op.Purge? ==>
      Observed(es[|es|-1].op, ReplyAt(t, es, |es| - 1))
        == Observed(es[|es|-1].op, Step(Run(t, Erased(es[..|es|-1])), es[|es|-1]).reply)
    ensures !MeetsTakenAt(t, es, |es| - 1)
  {
    var n, e := |es| - 1, es[|es|-1];
    var a, b := Run(t, es[..n]), Run(t, Erased(es[..n]));
    var before := LastTime(es[..n], start);
    assert before <= e.now;
    FreshPrefix(t, es);
    ErasedRun(t, es[..n], start);
    FreshLast(t, es);
    SimilarLater(a, b, before, e.now);
    WellFormedLater(a, before, e.now);
    WellFormedLater(b, before, e.now);
    if MeetsTaken(a, b, e) {
      TakenIsSeen(a, b, e);
    }
  }

  /**
   A run and the same run without its purges, wherever they stand, give the same answers of authentication,
   credential creation, provisioning, OAuth and device login if and only if no provisioning, unless it is
   refused outright, meets a token whose dead row a purge has taken. In particular runs without provisioning
   never see a purge, and neither does a restart that finds the rows of its tokens.
   */
  lemma PurgeIsUnobservable(t: Tables, es: seq<Event>, start: int)
    requires WellFormed(t, start) && Clocked(es) && (es != [] ==> start <= es[0].now) && FreshSecrets(t, es)
    ensures Observations(t, es) == Observations(t, Erased(es)) <==> NoneMeetsTaken(t, es)
  {
    if NoneMeetsTaken(t, es) {
      ErasedRun(t, es, start);
    }
    if Observations(t, es) == Observations(t, Erased(es)) {
      UnobservedMeansNone(t, es, start);
    }
  }

  // ----- what a purge can be observed by -----

  /** Unrevoked rows of a selection that are already expired. */
  function ExpiredUnrevoked(rows: Rows, ids: set<int>, now: int): set<int> {
    set id | id in Unrevoked(rows, ids) && !Live(rows, id, now)
  }

  /** What is counted of a selection shrinks by exactly the expired rows that the purge took away. */
  lemma SelectionSeesPurge(rows: Rows, ids: set<int>, left: set<int>, now: int)
    requires forall id :: Live(rows, id, now) ==> (id in ids <==> id in left)
    ensures |Unrevoked(PurgeRows(rows, now), left)| == |Unrevoked(rows, ids)| - |ExpiredUnrevoked(rows, ids, now)|
  {
    var all, dead := Unrevoked(rows, ids), ExpiredUnrevoked(rows, ids, now);
    var alive := Unrevoked(PurgeRows(rows, now), left);
    forall id ensures id in alive <==> id in all - dead {
    }
    assert alive == all - dead;
    assert dead <= all;
  }

  /** The rows of a table that a revocation selects. */
  function Selected(t: Tables, op: Op, kind: Kind): set<int>
    requires Revocation(op)
  {
    var rows := t.Of(kind).rows;
    match op
    case RevokeSecret(k, secret) => if k == kind && secret != "" then WithHash(rows, SecretHash(secret)) else {}
    case RevokeTokenById(id) => if kind.Token? then {id} else {}
    case RevokePrincipal(principal) => OfPrincipal(rows, principal)
    case RevokeManaged => if kind.Token? then ManagedRows(rows) else {}
  }

  /** Every revocation counts the unrevoked rows of its selection, in both tables together. */
  lemma RevocationCounts(t: Tables, e: Event)
    requires Revocation(e.op)
    ensures Step(t, e).reply == Count(|Unrevoked(t.sessions.rows, Selected(t, e.op, Session))|
                                      + |Unrevoked(t.tokens.rows, Selected(t, e.op, Token))|)
  {
    var none: set<int> := {};
    assert Unrevoked(t.sessions.rows, none) == none && Unrevoked(t.tokens.rows, none) == none;
  }

  /** A revocation's answer shrinks by exactly the expired rows of its selection that a purge took away. */
  lemma RevocationCountSeesPurge(t: Tables, e: Event)
    requires Revocation(e.op)
    ensures Step(PurgedTables(t, e.now), e).reply.Count? && Step(t, e).reply.Count?
    ensures Step(PurgedTables(t, e.now), e).reply.count == Step(t, e).reply.count
      - |ExpiredUnrevoked(t.sessions.rows, Selected(t, e.op, Session), e.now)|
      - |ExpiredUnrevoked(t.tokens.rows, Selected(t, e.op, Token), e.now)|
  {
    var purged := PurgedTables(t, e.now);
    RevocationCounts(t, e);
    RevocationCounts(purged, e);
    SelectionSeesPurge(t.sessions.rows, Selected(t, e.op, Session), Selected(purged, e.op, Session), e.now);
    SelectionSeesPurge(t.tokens.rows, Selected(t, e.op, Token), Selected(purged, e.op, Token), e.now);
  }

  /** Moving a configured token between principals fails while its dead row is still there, and works after a purge. */
  lemma DeadTokenBlocksMove(t: Tables, principal: int, secret: string, tokenLabel: Option<string>, now: Instant,
                            id: int)
    requires WellFormed(t, now) && principal in t.principals && secret != "" && ExpiryFrom(now, t.tokenTimeout).Ok?
    requires id in t.tokens.rows && t.tokens.rows[id].hash == SecretHash(secret) && !Live(t.tokens.rows, id, now)
    ensures ProvisionStep(t, principal, secret, tokenLabel, now).reply.provisioned.Ok? <==>
      t.tokens.rows[id].principal == principal
    ensures ProvisionStep(PurgedTables(t, now), principal, secret, tokenLabel, now).reply.provisioned.Ok?
  {
    PurgedHits(t.tokens.rows, secret, now);
    var hits := WithHash(t.tokens.rows, SecretHash(secret));
    assert id in hits && AnyOf(hits) in hits && AnyOf(hits) == id;
  }

  /** A purge leaves the token's row exactly when it is not dead. */
  lemma PurgedHits(rows: Rows, secret: string, now: int)
    requires UniqueHashes(rows)
    ensures
      var hash := SecretHash(secret);
      WithHash(PurgeRows(rows, now), hash) == if DeadToken(rows, secret, now) then {} else WithHash(rows, hash)
  {
    var hash := SecretHash(secret);
    var left := WithHash(PurgeRows(rows, now), hash);
    var expected := if DeadToken(rows, secret, now) then {} else WithHash(rows, hash);
    forall id ensures id in left <==> id in expected {
    }
    assert left == expected;
  }

  /** Provisioning answers differently after a purge exactly when it would have found a dead row of its token. */
  lemma ProvisioningSeesPurge(t: Tables, principal: int, secret: string, tokenLabel: Option<string>, now: Instant)
    requires WellFormed(t, now)
    ensures
      ProvisionStep(PurgedTables(t, now), principal, secret, tokenLabel, now).reply
        == ProvisionStep(t, principal, secret, tokenLabel, now).reply
      <==> secret == "" || ExpiryFrom(now, t.tokenTimeout).Err? || !DeadToken(t.tokens.rows, secret, now)
  {
    var rows := t.tokens.rows;
    PurgedHits(rows, secret, now);
    var hits := WithHash(rows, SecretHash(secret));
    var id: int := if hits == {} then t.tokens.nextId else AnyOf(hits);
    assert hits != {} ==> id in hits && id < t.tokens.nextId;
    assert DeadToken(rows, secret, now) ==> hits != {} by {
      if DeadToken(rows, secret, now) {
        var dead :| dead in rows && rows[dead].hash == SecretHash(secret) && !Live(rows, dead, now);
        assert dead in hits;
      }
    }
  }
}
