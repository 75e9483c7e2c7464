/** The authentication tables as one value, and each store transaction as a step on it. */
module AuthTables {
  import opened Base
  import opened Credentials

  const MAX_ACTIVE_OAUTH_FLOWS: nat := 10_000
  const MAX_ACTIVE_DEVICE_FLOWS: nat := 10_000

  datatype OAuthFlow = OAuthFlow(
    stateHash: Digest,
    codeVerifier: string,
    nonce: string,
    returnTo: string,
    createdAt: int,
    expiresAt: int)

  datatype OAuthGrant = OAuthGrant(codeVerifier: string, nonce: string, returnTo: string)

  datatype DeviceFlow = DeviceFlow(
    codeHash: Digest,
    userCode: string,
    clientName: string,
    approvedPrincipal: Option<int>,
    createdAt: int,
    expiresAt: int,
    pollInterval: int,
    lastPolledAt: Option<int>,
    approvedAt: Option<int>,
    deliveredAt: Option<int>)

  datatype DevicePoll = Pending | SlowDown | Expired | Consumed | Authorized(principal: int, credential: Issued)

  /** One draw of the code generator. */
  datatype Draw = Draw(deviceCode: string, userCode: string)

  datatype Authorization = Authorization(deviceCode: string, userCode: string, clientName: string, expiresAt: int)

  datatype Kind = Session | Token

  datatype Tables = Tables(
    principals: set<int>,
    sessions: Table<Credential>,
    tokens: Table<Credential>,
    oauth: Table<OAuthFlow>,
    devices: Table<DeviceFlow>,
    sessionTimeout: nat,
    tokenTimeout: nat)
  {
    function Of(kind: Kind): Table<Credential> {
      if kind.Session? then sessions else tokens
    }

    function Timeout(kind: Kind): nat {
      if kind.Session? then sessionTimeout else tokenTimeout
    }

    function With(kind: Kind, t: Table<Credential>): Tables {
      if kind.Session? then this.(sessions := t) else this.(tokens := t)
    }

    function WithRows(kind: Kind, rows: Rows): Tables {
      With(kind, Of(kind).(rows := rows))
    }
  }

  /**
   The store's operations with their arguments; generated secrets and codes are arguments.
   Outcomes of library checks (a relative return_to, an acceptable client name) are flags.
   */
  datatype Op =
    | Create(kind: Kind, principal: int, tokenLabel: Option<string>, secret: string)
    | Authenticate(kind: Kind, secret: string)
    | RevokeSecret(kind: Kind, secret: string)
    | RevokeTokenById(id: int)
    | RevokePrincipal(principal: int)
    | RevokeManaged
    | Provision(principal: int, secret: string, tokenLabel: Option<string>)
    | Purge
    | StoreOAuth(state: string, grant: OAuthGrant, returnToAccepted: bool, lifetime: nat)
    | ConsumeOAuth(state: string)
    | StartDevice(clientName: string, nameAccepted: bool, lifetime: nat, interval: nat, draws: seq<Draw>)
    | LookupDevice(userCode: string)
    | ApproveDevice(userCode: string, principal: int)
    | PollDevice(deviceCode: string, tokenLabel: Option<string>, secret: string)

  datatype Reply =
    | Created(created: Result<Issued>)
    | Answered(answer: Result<Option<Authenticated>>)
    | Count(count: nat)
    | Provisioned(provisioned: Result<int>)
    | OAuthStored(stored: Result<int>)
    | OAuthConsumed(consumed: Option<OAuthGrant>)
    | Started(started: Result<Authorization>)
    | Client(client: Option<string>)
    | Approved(approved: Result<bool>)
    | Polled(polled: Result<DevicePoll>)

  datatype Outcome = Outcome(tables: Tables, reply: Reply)

  datatype Event = Event(now: Instant, op: Op)

  // ----- credentials -----

  function SessionLabel(kind: Kind, tokenLabel: Option<string>): Option<string> {
    if kind.Session? then None else tokenLabel
  }

  function CreateStep(t: Tables, kind: Kind, principal: int, tokenLabel: Option<string>, secret: string,
                      now: Instant): Outcome {
    var (table, reply) :=
      CreateCredential(t.Of(kind), t.principals, principal, secret, SessionLabel(kind, tokenLabel), t.Timeout(kind),
                       now);
    Outcome(t.With(kind, table), Created(reply))
  }

  ghost function AuthenticateStep(t: Tables, kind: Kind, secret: string, now: Instant): Outcome {
    var (rows, reply) := AuthenticateCredential(t.Of(kind).rows, secret, t.Timeout(kind), now);
    Outcome(t.WithRows(kind, rows), Answered(reply))
  }

  function RevokeStep(t: Tables, kind: Kind, ids: set<int>, now: Instant): Outcome {
    var rows := t.Of(kind).rows;
    Outcome(t.WithRows(kind, RevokeRows(rows, ids, now)), Count(|Unrevoked(rows, ids)|))
  }

  function RevokeSecretStep(t: Tables, kind: Kind, secret: string, now: Instant): Outcome {
    if secret == "" then Outcome(t, Count(0))
    else RevokeStep(t, kind, WithHash(t.Of(kind).rows, SecretHash(secret)), now)
  }

  function RevokePrincipalStep(t: Tables, principal: int, now: Instant): Outcome {
    var first := RevokeStep(t, Session, OfPrincipal(t.sessions.rows, principal), now);
    var second := RevokeStep(first.tables, Token, OfPrincipal(t.tokens.rows, principal), now);
    Outcome(second.tables, Count(first.reply.count + second.reply.count))
  }

  ghost function ProvisionStep(t: Tables, principal: int, secret: string, tokenLabel: Option<string>,
                               now: Instant): Outcome {
    var (table, reply) := ProvisionToken(t.tokens, t.principals, principal, secret, tokenLabel, t.tokenTimeout, now);
    Outcome(t.(tokens := table), Provisioned(reply))
  }

  // ----- OAuth flows -----

  function LiveOAuth(rows: map<int, OAuthFlow>, now: int): map<int, OAuthFlow> {
    map id | id in rows && rows[id].expiresAt > now :: rows[id]
  }

  function StateIds(rows: map<int, OAuthFlow>, hash: Digest): set<int> {
    set id | id in rows && rows[id].stateHash == hash
  }

  function StoreOAuthStep(t: Tables, state: string, grant: OAuthGrant, returnToAccepted: bool, lifetime: nat,
                          now: Instant): Outcome {
    if state == "" || grant.codeVerifier == "" || grant.nonce == "" || !returnToAccepted then
      Outcome(t, OAuthStored(Err(InvalidInput)))
    else match ExpiryFrom(now, lifetime)
      case Err(e) => Outcome(t, OAuthStored(Err(e)))
      case Ok(expiresAt) =>
        var live := LiveOAuth(t.oauth.rows, now);
        if |live| >= MAX_ACTIVE_OAUTH_FLOWS then
          Outcome(t.(oauth := t.oauth.(rows := live)), OAuthStored(Err(CapacityExceeded)))
        else if StateIds(live, SecretHash(state)) != {} then
          Outcome(t, OAuthStored(Err(Database)))
        else
          var row := OAuthFlow(SecretHash(state), grant.codeVerifier, grant.nonce, grant.returnTo, now, expiresAt);
          Outcome(t.(oauth := Table(live[t.oauth.nextId := row], t.oauth.nextId + 1)), OAuthStored(Ok(expiresAt)))
  }

  ghost function ConsumeOAuthStep(t: Tables, state: string, now: Instant): Outcome {
    var hits := StateIds(LiveOAuth(t.oauth.rows, now), SecretHash(state));
    if state == "" || hits == {} then Outcome(t, OAuthConsumed(None))
    else
      var row := t.oauth.rows[AnyOf(hits)];
      Outcome(t.(oauth := t.oauth.(rows := t.oauth.rows - hits)),
              OAuthConsumed(Some(OAuthGrant(row.codeVerifier, row.nonce, row.returnTo))))
  }

  // ----- device flows -----

  function LiveDevices(rows: map<int, DeviceFlow>, now: int): map<int, DeviceFlow> {
    map id | id in rows && rows[id].expiresAt > now :: rows[id]
  }

  function Undelivered(rows: map<int, DeviceFlow>): set<int> {
    set id | id in rows && rows[id].deliveredAt.None?
  }

  predicate DrawFree(rows: map<int, DeviceFlow>, draw: Draw) {
    forall id :: id in rows ==> rows[id].codeHash != SecretHash(draw.deviceCode) && rows[id].userCode != draw.userCode
  }

  /** The first draw, among those left, that violates neither unique column. */
  function FirstFree(rows: map<int, DeviceFlow>, draws: seq<Draw>): (r: Option<Draw>)
    ensures r.Some? ==> r.value in draws && DrawFree(rows, r.value)
  {
    if draws == [] then None
    else if DrawFree(rows, draws[0]) then Some(draws[0])
    else FirstFree(rows, draws[1..])
  }

  function StartDeviceStep(t: Tables, clientName: string, nameAccepted: bool, lifetime: nat, interval: nat,
                           draws: seq<Draw>, now: Instant): Outcome {
    if !nameAccepted then Outcome(t, Started(Err(InvalidInput)))
    else if interval > I64_MAX then Outcome(t, Started(Err(DurationOverflow)))
    else if interval == 0 then Outcome(t, Started(Err(InvalidInput)))
    else match ExpiryFrom(now, lifetime)
      case Err(e) => Outcome(t, Started(Err(e)))
      case Ok(expiresAt) =>
        var live := LiveDevices(t.devices.rows, now);
        var purged := t.(devices := t.devices.(rows := live));
        if |Undelivered(live)| >= MAX_ACTIVE_DEVICE_FLOWS then Outcome(purged, Started(Err(CapacityExceeded)))
        else match FirstFree(live, draws)
          case None => Outcome(purged, Started(Err(RandomGeneration)))
          case Some(draw) =>
            var row := DeviceFlow(SecretHash(draw.deviceCode), draw.userCode, clientName, None, now, expiresAt,
                                  interval, None, None, None);
            Outcome(t.(devices := Table(live[t.devices.nextId := row], t.devices.nextId + 1)),
                    Started(Ok(Authorization(draw.deviceCode, draw.userCode, clientName, expiresAt))))
  }

  predicate AsciiAlphanumeric(c: char) {
    '0' <= c <= '9' || 'A' <= c <= 'Z' || 'a' <= c <= 'z'
  }

  function Upper(c: char): char {
    if 'a' <= c <= 'z' then c - 'a' + 'A' else c
  }

  function Compact(value: string): string {
    if value == "" then ""
    else (if AsciiAlphanumeric(value[0]) then [Upper(value[0])] else "") + Compact(value[1..])
  }

  /** What the user typed, upper-cased, without punctuation, and hyphenated when eight characters long. */
  function NormalizeUserCode(value: string): string {
    var compact := Compact(value);
    if |compact| == 8 then compact[..4] + "-" + compact[4..] else compact
  }

  /** The undelivered, unexpired flows of a user code. */
  function OpenFlows(rows: map<int, DeviceFlow>, userCode: string, now: int): set<int> {
    set id | id in rows && rows[id].userCode == userCode && rows[id].deliveredAt.None? && rows[id].expiresAt > now
  }

  ghost function LookupDeviceStep(t: Tables, userCode: string, now: Instant): Outcome {
    var hits := OpenFlows(t.devices.rows, NormalizeUserCode(userCode), now);
    Outcome(t, Client(if hits == {} then None else Some(t.devices.rows[AnyOf(hits)].clientName)))
  }

  function Approvable(rows: map<int, DeviceFlow>, userCode: string, now: int): set<int> {
    set id | id in OpenFlows(rows, userCode, now) && rows[id].approvedPrincipal.None?
  }

  function ApproveRows(rows: map<int, DeviceFlow>, ids: set<int>, principal: int, now: int): map<int, DeviceFlow> {
    map id | id in rows ::
      if id in ids then rows[id].(approvedPrincipal := Some(principal), approvedAt := Some(now)) else rows[id]
  }

  function ApproveDeviceStep(t: Tables, userCode: string, principal: int, now: Instant): Outcome {
    var hits := Approvable(t.devices.rows, NormalizeUserCode(userCode), now);
    if hits != {} && principal !in t.principals then Outcome(t, Approved(Err(Database)))
    else
      Outcome(t.(devices := t.devices.(rows := ApproveRows(t.devices.rows, hits, principal, now))),
              Approved(Ok(|hits| == 1)))
  }

  function CodeIds(rows: map<int, DeviceFlow>, hash: Digest): set<int> {
    set id | id in rows && rows[id].codeHash == hash
  }

  ghost function FlowOf(rows: map<int, DeviceFlow>, hash: Digest): (r: Option<int>)
    ensures r.Some? ==> r.value in rows && rows[r.value].codeHash == hash
    ensures r.None? ==> forall id :: id in rows ==> rows[id].codeHash != hash
  {
    var hits := CodeIds(rows, hash);
    if hits == {} then
      assert forall id :: id in rows && rows[id].codeHash == hash ==> id in hits;
      None
    else
      assert AnyOf(hits) in hits;
      Some(AnyOf(hits))
  }

  predicate TooSoon(row: DeviceFlow, now: int) {
    row.lastPolledAt.Some? && now < SaturatingAdd(row.lastPolledAt.value, row.pollInterval)
  }

  function Deliver(t: Tables, id: int, tokenLabel: Option<string>, secret: string, now: Instant): Outcome
    requires id in t.devices.rows && t.devices.rows[id].approvedPrincipal.Some?
  {
    var row := t.devices.rows[id];
    var principal := row.approvedPrincipal.value;
    match ExpiryFrom(now, t.tokenTimeout)
    case Err(e) => Outcome(t, Polled(Err(e)))
    case Ok(expiresAt) =>
      match InsertAndPrune(t.tokens, t.principals, principal, secret, tokenLabel, expiresAt, now) {
        case (_, Err(e)) => Outcome(t, Polled(Err(e)))
        case (tokens, Ok(issued)) =>
          var done := row.(lastPolledAt := Some(now), deliveredAt := Some(now));
          Outcome(t.(devices := t.devices.(rows := t.devices.rows[id := done]), tokens := tokens),
                  Polled(Ok(Authorized(principal, issued))))
      }
  }

  ghost function PollDeviceStep(t: Tables, deviceCode: string, tokenLabel: Option<string>, secret: string,
                                now: Instant): Outcome {
    var rows := t.devices.rows;
    var found := FlowOf(rows, SecretHash(deviceCode));
    if deviceCode == "" || found.None? then Outcome(t, Polled(Ok(Expired)))
    else
      var id := found.value;
      var row := rows[id];
      if row.expiresAt <= now then Outcome(t.(devices := t.devices.(rows := rows - {id})), Polled(Ok(Expired)))
      else if row.deliveredAt.Some? then Outcome(t, Polled(Ok(Consumed)))
      else
        var polled := t.(devices := t.devices.(rows := rows[id := row.(lastPolledAt := Some(now))]));
        if TooSoon(row, now) then Outcome(polled, Polled(Ok(SlowDown)))
        else if row.approvedPrincipal.None? then Outcome(polled, Polled(Ok(Pending)))
        else Deliver(t, id, tokenLabel, secret, now)
  }

  // ----- purge -----

  function PurgedTables(t: Tables, now: Instant): Tables {
    t.(
      sessions := t.sessions.(rows := PurgeRows(t.sessions.rows, now)),
      tokens := t.tokens.(rows := PurgeRows(t.tokens.rows, now)),
      oauth := t.oauth.(rows := LiveOAuth(t.oauth.rows, now)),
      devices := t.devices.(rows := LiveDevices(t.devices.rows, now)))
  }

  /** The rows that the four DELETE statements affect. */
  function PurgedCount(t: Tables, now: Instant): nat {
    DeadRows(t.sessions.rows, now) + DeadRows(t.tokens.rows, now) + DeadOAuth(t.oauth.rows, now) +
      DeadDevices(t.devices.rows, now)
  }

  function DeadRows(rows: Rows, now: Instant): nat {
    |set id | id in rows && !Live(rows, id, now)|
  }

  function DeadOAuth(rows: map<int, OAuthFlow>, now: Instant): nat {
    |set id | id in rows && rows[id].expiresAt <= now|
  }

  function DeadDevices(rows: map<int, DeviceFlow>, now: Instant): nat {
    |set id | id in rows && rows[id].expiresAt <= now|
  }

  function PurgeStep(t: Tables, now: Instant): Outcome {
    Outcome(PurgedTables(t, now), Count(PurgedCount(t, now)))
  }

  // ----- runs -----

  ghost function Step(t: Tables, e: Event): Outcome {
    match e.op
    case Create(kind, principal, tokenLabel, secret) => CreateStep(t, kind, principal, tokenLabel, secret, e.now)
    case Authenticate(kind, secret) => AuthenticateStep(t, kind, secret, e.now)
    case RevokeSecret(kind, secret) => RevokeSecretStep(t, kind, secret, e.now)
    case RevokeTokenById(id) => RevokeStep(t, Token, {id}, e.now)
    case RevokePrincipal(principal) => RevokePrincipalStep(t, principal, e.now)
    case RevokeManaged => RevokeStep(t, Token, ManagedRows(t.tokens.rows), e.now)
    case Provision(principal, secret, tokenLabel) => ProvisionStep(t, principal, secret, tokenLabel, e.now)
    case Purge => PurgeStep(t, e.now)
    case StoreOAuth(state, grant, ok, lifetime) => StoreOAuthStep(t, state, grant, ok, lifetime, e.now)
    case ConsumeOAuth(state) => ConsumeOAuthStep(t, state, e.now)
    case StartDevice(name, ok, lifetime, interval, draws) =>
      StartDeviceStep(t, name, ok, lifetime, interval, draws, e.now)
    case LookupDevice(userCode) => LookupDeviceStep(t, userCode, e.now)
    case ApproveDevice(userCode, principal) => ApproveDeviceStep(t, userCode, principal, e.now)
    case PollDevice(deviceCode, tokenLabel, secret) => PollDeviceStep(t, deviceCode, tokenLabel, secret, e.now)
  }

  /** The tables after a run. */
  ghost function Run(t: Tables, es: seq<Event>): Tables {
    if es == [] then t else Step(Run(t, es[..|es|-1]), es[|es|-1]).tables
  }

  /** The reply to event `k` of a run. */
  ghost function ReplyAt(t: Tables, es: seq<Event>, k: nat): Reply
    requires k < |es|
  {
    Step(Run(t, es[..k]), es[k]).reply
  }

  /** Successive events read a clock that never goes back. */
  predicate Clocked(es: seq<Event>) {
    forall i, j :: 0 <= i < j < |es| ==> es[i].now <= es[j].now
  }

  function LastTime(es: seq<Event>, start: int): int {
    if es == [] then start else es[|es|-1].now
  }
}
