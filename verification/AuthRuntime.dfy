/** Startup: the tokens of the configuration replace whatever an earlier configuration managed. */
module AuthRuntime {
  import opened Base
  import opened Credentials
  import opened AuthTables
  import opened AuthAnswers
  import opened AuthStore

  datatype Assignment = Assignment(principal: int, secret: string, tokenLabel: string)

  /** Provisioning a list of tokens, stopping at the first refusal. */
  ghost function ProvisionAll(t: Table<Credential>, plan: seq<Assignment>, timeout: nat,
                              now: Instant): Result<Table<Credential>> {
    if plan == [] then Ok(t)
    else
      var n := |plan| - 1;
      match ProvisionAll(t, plan[..n], timeout, now)
      case Err(e) => Err(e)
      case Ok(before) =>
        match ProvisionToken(before, {plan[n].principal}, plan[n].principal, plan[n].secret, Some(plan[n].tokenLabel),
                             timeout, now) {
          case (_, Err(e)) => Err(e)
          case (after, Ok(_)) => Ok(after)
        }
  }

  predicate Serves(c: Credential, a: Assignment) {
    c.hash == SecretHash(a.secret) && c.principal == a.principal && c.tokenLabel == Some(a.tokenLabel) &&
      c.revokedAt.None?
  }

  /** Does row `id` stem from some assignment of the plan? */
  predicate Planned(rows: Rows, id: int, plan: seq<Assignment>)
    requires id in rows
  {
    exists k :: 0 <= k < |plan| && Serves(rows[id], plan[k])
  }

  predicate Provided(rows: Rows, a: Assignment) {
    exists id :: id in rows && rows[id].hash == SecretHash(a.secret) && rows[id].principal == a.principal
                 && rows[id].revokedAt.None? && Managed(rows[id].tokenLabel)
  }

  predicate ManagedLabels(plan: seq<Assignment>) {
    forall k :: 0 <= k < |plan| ==> Managed(Some(plan[k].tokenLabel))
  }

  predicate NamesSecret(plan: seq<Assignment>, hash: Digest) {
    exists k :: 0 <= k < |plan| && SecretHash(plan[k].secret) == hash
  }

  /** The managed rows of a table in which provisioning has followed a plan. */
  ghost predicate Follows(start: Rows, rows: Rows, plan: seq<Assignment>) {
    && UniqueHashes(rows)
    && (forall id :: id in rows && Managed(rows[id].tokenLabel) && rows[id].revokedAt.None? ==> Planned(rows, id, plan))
    && (forall k :: 0 <= k < |plan| ==> Provided(rows, plan[k]))
    && (forall id :: id in start && !NamesSecret(plan, start[id].hash) ==> id in rows && rows[id] == start[id])
    && (forall id :: id in rows && !NamesSecret(plan, rows[id].hash) ==> id in start)
  }

  /** The one row that a successful provisioning writes. */
  lemma ProvisionTarget(before: Table<Credential>, a: Assignment, timeout: nat, now: Instant) returns (target: int)
    requires UniqueHashes(before.rows) && forall id :: id in before.rows ==> id < before.nextId
    requires ProvisionToken(before, {a.principal}, a.principal, a.secret, Some(a.tokenLabel), timeout, now).1.Ok?
    ensures
      var after := ProvisionToken(before, {a.principal}, a.principal, a.secret, Some(a.tokenLabel), timeout, now).0;
      WritesOnly(before.rows, after.rows, target, a) && forall id :: id in after.rows ==> id < after.nextId
  {
    var (after, reply) := ProvisionToken(before, {a.principal}, a.principal, a.secret, Some(a.tokenLabel), timeout,
                                         now);
    var hits := WithHash(before.rows, SecretHash(a.secret));
    target := reply.value;
    if hits != {} {
      var id: int := AnyOf(hits);
      assert id in hits && id == target;
    } else {
      forall id | id in before.rows ensures before.rows[id].hash != SecretHash(a.secret) {
        assert id !in hits;
      }
    }
  }

  /** `after` is `before` with the row of the assignment written at `target`. */
  predicate WritesOnly(before: Rows, after: Rows, target: int, a: Assignment) {
    && target in after && Serves(after[target], a)
    && (forall id :: id in after && id != target ==> id in before)
    && (forall id :: id in before && id != target ==>
          id in after && after[id] == before[id] && before[id].hash != SecretHash(a.secret))
    && (target in before ==> before[target].hash == SecretHash(a.secret) && before[target].principal == a.principal)
  }

  lemma SecretsOfLonger(plan: seq<Assignment>, a: Assignment, hash: Digest)
    ensures NamesSecret(plan + [a], hash) <==> NamesSecret(plan, hash) || hash == SecretHash(a.secret)
  {
    var longer := plan + [a];
    if NamesSecret(plan, hash) {
      var k :| 0 <= k < |plan| && SecretHash(plan[k].secret) == hash;
      assert SecretHash(longer[k].secret) == hash;
    }
    assert SecretHash(longer[|plan|].secret) == SecretHash(a.secret);
  }

  /** Managed rows stem from the longer plan. */
  lemma WritePlanned(before: Rows, after: Rows, target: int, plan: seq<Assignment>, a: Assignment, id: int)
    requires WritesOnly(before, after, target, a) && id in after
    requires id != target ==> Planned(before, id, plan)
    ensures Planned(after, id, plan + [a])
  {
    var longer := plan + [a];
    if id != target {
      var k :| 0 <= k < |plan| && Serves(before[id], plan[k]);
      assert Serves(after[id], longer[k]);
    } else {
      assert Serves(after[id], longer[|plan|]);
    }
  }

  /** Assignments that were provided still are. */
  lemma WriteProvides(before: Rows, after: Rows, target: int, a: Assignment, earlier: Assignment)
    requires WritesOnly(before, after, target, a) && Managed(Some(a.tokenLabel)) && Provided(before, earlier)
    ensures Provided(after, earlier)
  {
    var id :| id in before && before[id].hash == SecretHash(earlier.secret) && before[id].principal == earlier.principal
              && before[id].revokedAt.None? && Managed(before[id].tokenLabel);
    assert id in after && after[id].hash == before[id].hash && after[id].principal == before[id].principal;
    assert after[id].revokedAt.None? && Managed(after[id].tokenLabel);
  }

  lemma WriteProvidesNew(before: Rows, after: Rows, target: int, a: Assignment)
    requires WritesOnly(before, after, target, a) && Managed(Some(a.tokenLabel))
    ensures Provided(after, a)
  {
    assert after[target].hash == SecretHash(a.secret) && Managed(after[target].tokenLabel);
  }

  lemma WriteProvidesAll(before: Rows, after: Rows, target: int, plan: seq<Assignment>, a: Assignment)
    requires WritesOnly(before, after, target, a) && Managed(Some(a.tokenLabel))
    requires forall k :: 0 <= k < |plan| ==> Provided(before, plan[k])
    ensures forall k :: 0 <= k < |plan + [a]| ==> Provided(after, (plan + [a])[k])
  {
    forall k | 0 <= k < |plan + [a]| ensures Provided(after, (plan + [a])[k]) {
      if k < |plan| {
        WriteProvides(before, after, target, a, plan[k]);
      } else {
        WriteProvidesNew(before, after, target, a);
      }
    }
  }

  /** Rows of secrets that the plan does not name stay, and no new ones of such secrets come. */
  lemma WriteSparesOthers(start: Rows, before: Rows, after: Rows, target: int, plan: seq<Assignment>, a: Assignment)
    requires WritesOnly(before, after, target, a)
    requires forall id :: id in start && !NamesSecret(plan, start[id].hash) ==> id in before && before[id] == start[id]
    requires forall id :: id in before && !NamesSecret(plan, before[id].hash) ==> id in start
    ensures forall id :: id in start && !NamesSecret(plan + [a], start[id].hash) ==>
      id in after && after[id] == start[id]
    ensures forall id :: id in after && !NamesSecret(plan + [a], after[id].hash) ==> id in start
  {
    forall id | id in start && !NamesSecret(plan + [a], start[id].hash) ensures id in after && after[id] == start[id] {
      SecretsOfLonger(plan, a, start[id].hash);
    }
    forall id | id in after && !NamesSecret(plan + [a], after[id].hash) ensures id in start {
      SecretsOfLonger(plan, a, after[id].hash);
    }
  }

  lemma WriteKeepsUnique(before: Rows, after: Rows, target: int, a: Assignment)
    requires UniqueHashes(before) && WritesOnly(before, after, target, a)
    ensures UniqueHashes(after)
  {
  }

  lemma WriteFollows(start: Rows, before: Rows, after: Rows, target: int, plan: seq<Assignment>, a: Assignment)
    requires Follows(start, before, plan) && WritesOnly(before, after, target, a) && Managed(Some(a.tokenLabel))
    ensures Follows(start, after, plan + [a])
  {
    WriteKeepsUnique(before, after, target, a);
    WriteProvidesAll(before, after, target, plan, a);
    WriteSparesOthers(start, before, after, target, plan, a);
    forall id | id in after && Managed(after[id].tokenLabel) && after[id].revokedAt.None?
      ensures Planned(after, id, plan + [a])
    {
      WritePlanned(before, after, target, plan, a, id);
    }
  }

  lemma ProvisionFollows(start: Rows, before: Table<Credential>, plan: seq<Assignment>, a: Assignment, timeout: nat,
                         now: Instant)
    requires Follows(start, before.rows, plan) && Managed(Some(a.tokenLabel))
    requires forall id :: id in before.rows ==> id < before.nextId
    requires ProvisionToken(before, {a.principal}, a.principal, a.secret, Some(a.tokenLabel), timeout, now).1.Ok?
    ensures
      var after := ProvisionToken(before, {a.principal}, a.principal, a.secret, Some(a.tokenLabel), timeout, now).0;
      Follows(start, after.rows, plan + [a]) && forall id :: id in after.rows ==> id < after.nextId
  {
    var target := ProvisionTarget(before, a, timeout, now);
    var after := ProvisionToken(before, {a.principal}, a.principal, a.secret, Some(a.tokenLabel), timeout, now).0;
    WriteFollows(start, before.rows, after.rows, target, plan, a);
  }

  lemma ProvisionOneMore(t: Table<Credential>, plan: seq<Assignment>, a: Assignment, principals: set<int>,
                         timeout: nat, now: Instant)
    requires ProvisionAll(t, plan, timeout, now).Ok? && a.principal in principals
    ensures
      var before := ProvisionAll(t, plan, timeout, now).value;
      var (after, reply) := ProvisionToken(before, principals, a.principal, a.secret, Some(a.tokenLabel), timeout, now);
      ProvisionToken(before, {a.principal}, a.principal, a.secret, Some(a.tokenLabel), timeout, now) ==
        (after, reply) &&
      ProvisionAll(t, plan + [a], timeout, now) == if reply.Ok? then Ok(after) else Err(reply.error)
  {
    assert (plan + [a])[..|plan|] == plan && (plan + [a])[|plan|] == a;
  }

  lemma NothingManaged(rows: Rows)
    requires UniqueHashes(rows) && forall id :: id in rows ==>
      !(Managed(rows[id].tokenLabel) && rows[id].revokedAt.None?)
    ensures Follows(rows, rows, [])
  {
  }

  /** After the rotation the unrevoked managed rows are the plan's, and rows of other secrets are as they were. */
  lemma {:induction false} PlanFollowed(t: Table<Credential>, plan: seq<Assignment>, timeout: nat, now: Instant)
    requires UniqueHashes(t.rows) && ManagedLabels(plan)
    requires forall id :: id in t.rows ==>
      id < t.nextId && !(Managed(t.rows[id].tokenLabel) && t.rows[id].revokedAt.None?)
    requires ProvisionAll(t, plan, timeout, now).Ok?
    ensures Follows(t.rows, ProvisionAll(t, plan, timeout, now).value.rows, plan)
    ensures var after := ProvisionAll(t, plan, timeout, now).value; forall id :: id in after.rows ==> id < after.nextId
  {
    if plan == [] {
      NothingManaged(t.rows);
    } else {
      var n := |plan| - 1;
      var shorter, a := plan[..n], plan[n];
      assert shorter + [a] == plan;
      PlanFollowed(t, shorter, timeout, now);
      var before := ProvisionAll(t, shorter, timeout, now).value;
      ProvisionOneMore(t, shorter, a, {a.principal}, timeout, now);
      ProvisionFollows(t.rows, before, shorter, a, timeout, now);
    }
  }

  /** A plan that gives one token to two principals is refused. */
  lemma OneOwnerPerToken(t: Table<Credential>, plan: seq<Assignment>, timeout: nat, now: Instant, i: nat, j: nat)
    requires UniqueHashes(t.rows) && ManagedLabels(plan)
    requires forall id :: id in t.rows ==>
      id < t.nextId && !(Managed(t.rows[id].tokenLabel) && t.rows[id].revokedAt.None?)
    requires ProvisionAll(t, plan, timeout, now).Ok?
    requires i < |plan| && j < |plan| && plan[i].secret == plan[j].secret
    ensures plan[i].principal == plan[j].principal
  {
    PlanFollowed(t, plan, timeout, now);
    assert Provided(ProvisionAll(t, plan, timeout, now).value.rows, plan[i]);
    assert Provided(ProvisionAll(t, plan, timeout, now).value.rows, plan[j]);
  }

  // ----- the startup sequence -----

  datatype Account = Account(name: string, token: Option<string>, admin: bool)

  /** Service accounts with their resolved tokens, and the deprecated shared tokens. */
  datatype TokenConfig = TokenConfig(services: seq<Account>, authTokens: set<string>, deleteTokens: set<string>)

  const AUTH_TOKENS: PrincipalKey := Legacy("deprecated-auth-tokens")
  const DELETE_TOKENS: PrincipalKey := Legacy("deprecated-delete-tokens")

  predicate ServiceAssigns(account: Account, names: map<PrincipalKey, int>, a: Assignment) {
    account.token == Some(a.secret) && Service(account.name) in names && names[Service(account.name)] == a.principal
    && a.tokenLabel == "service:" + account.name
  }

  predicate ServicesNamed(services: seq<Account>, names: map<PrincipalKey, int>) {
    forall k :: 0 <= k < |services| ==> Service(services[k].name) in names
  }

  predicate FromServices(services: seq<Account>, names: map<PrincipalKey, int>, a: Assignment) {
    exists k :: 0 <= k < |services| && ServiceAssigns(services[k], names, a)
  }

  ghost predicate ServicePlan(services: seq<Account>, names: map<PrincipalKey, int>, plan: seq<Assignment>) {
    forall a :: a in plan <==> FromServices(services, names, a)
  }

  predicate FromShared(secrets: set<string>, key: PrincipalKey, tokenLabel: string, names: map<PrincipalKey, int>,
                       a: Assignment) {
    a.secret in secrets && key in names && names[key] == a.principal && a.tokenLabel == tokenLabel
  }

  /** What the configuration asks for; a token listed as both auth and delete is a delete token. */
  predicate Configured(config: TokenConfig, names: map<PrincipalKey, int>, a: Assignment) {
    || FromServices(config.services, names, a)
    || FromShared(config.authTokens - config.deleteTokens, AUTH_TOKENS, "legacy-auth", names, a)
    || FromShared(config.deleteTokens, DELETE_TOKENS, "legacy-delete", names, a)
  }

  /** Principals are never renumbered. */
  predicate Extends(names: map<PrincipalKey, int>, later: map<PrincipalKey, int>) {
    forall k :: k in names ==> k in later && later[k] == names[k]
  }

  /** A new name is a new principal's. */
  predicate FreshNames(names: map<PrincipalKey, int>, principals: set<int>, later: map<PrincipalKey, int>,
                       more: set<int>) {
    principals <= more && forall key :: key in later && key !in names ==> later[key] !in principals
  }

  ghost predicate SharedPlan(secrets: set<string>, key: PrincipalKey, tokenLabel: string, names: map<PrincipalKey, int>,
                             plan: seq<Assignment>) {
    (secrets != {} ==> key in names) && forall a :: a in plan <==> FromShared(secrets, key, tokenLabel, names, a)
  }

  /** The same token label and principal for every secret of a set. */
  ghost predicate UniformPlan(secrets: set<string>, principal: int, tokenLabel: string, plan: seq<Assignment>) {
    forall a :: a in plan <==> a.secret in secrets && a.principal == principal && a.tokenLabel == tokenLabel
  }

  lemma UniformPlanExtends(secrets: set<string>, todo: set<string>, before: seq<Assignment>, plan: seq<Assignment>,
                           a: Assignment)
    requires UniformPlan(secrets - todo, a.principal, a.tokenLabel, plan) && a.secret in todo && todo <= secrets
    requires ManagedLabels(before + plan) && Managed(Some(a.tokenLabel))
    ensures UniformPlan(secrets - (todo - {a.secret}), a.principal, a.tokenLabel, plan + [a])
    ensures before + (plan + [a]) == before + plan + [a] && ManagedLabels(before + plan + [a])
  {
  }

  // ----- when startup can succeed -----

  /** The configuration gives this token to the principal of this key. */
  predicate Assigns(config: TokenConfig, key: PrincipalKey, secret: string) {
    || (exists k :: 0 <= k < |config.services| && AssignsTo(config.services[k], key, secret))
    || (key == AUTH_TOKENS && secret in config.authTokens && secret !in config.deleteTokens)
    || (key == DELETE_TOKENS && secret in config.deleteTokens)
  }

  predicate AssignsTo(account: Account, key: PrincipalKey, secret: string) {
    Service(account.name) == key && account.token == Some(secret)
  }

  predicate SoundAccount(account: Account) {
    !BlankKey(Service(account.name)) && account.token.Some?
  }

  /** Whatever row the token has is already this principal's. */
  predicate FreeFor(names: map<PrincipalKey, int>, rows: Rows, key: PrincipalKey, secret: string) {
    forall id :: id in rows && rows[id].hash == SecretHash(secret) ==> key in names && names[key] == rows[id].principal
  }

  /**
   Every account has a name and a token, no token is blank or given to two principals, the lifetime fits, and
   no token has a row, dead or alive, of another principal.
   */
  ghost predicate Startable(config: TokenConfig, names: map<PrincipalKey, int>, rows: Rows, timeout: nat, now: int) {
    && (forall k :: 0 <= k < |config.services| ==> SoundAccount(config.services[k]))
    && (forall key, secret :: Assigns(config, key, secret) ==>
          secret != "" && Fits(now, timeout) && FreeFor(names, rows, key, secret))
    && (forall key, other, secret :: Assigns(config, key, secret) && Assigns(config, other, secret) ==> key == other)
  }

  predicate StemsFrom(config: TokenConfig, names: map<PrincipalKey, int>, a: Assignment, key: PrincipalKey) {
    key in names && names[key] == a.principal && Assigns(config, key, a.secret)
  }

  ghost predicate AllStem(config: TokenConfig, names: map<PrincipalKey, int>, plan: seq<Assignment>) {
    forall k :: 0 <= k < |plan| ==> Stems(config, names, plan[k])
  }

  ghost predicate Stems(config: TokenConfig, names: map<PrincipalKey, int>, a: Assignment) {
    exists key :: StemsFrom(config, names, a, key)
  }

  predicate Refuses(rows: Rows, principal: int, secret: string, timeout: nat, now: int) {
    secret == "" || !Fits(now, timeout) || OwnedElsewhere(rows, secret, principal)
  }

  /** After part of the configuration, the next token is refused. */
  ghost predicate Stuck(config: TokenConfig, names: map<PrincipalKey, int>, start: Table<Credential>,
                        plan: seq<Assignment>, key: PrincipalKey, secret: string, timeout: nat, now: Instant) {
    var table := ProvisionAll(start, plan, timeout, now);
    && ManagedLabels(plan) && AllStem(config, names, plan) && key in names && Assigns(config, key, secret)
    && table.Ok? && Refuses(table.value.rows, names[key], secret, timeout, now)
  }

  ghost predicate Faulted(config: TokenConfig, names: map<PrincipalKey, int>, start: Table<Credential>, timeout: nat,
                          now: Instant) {
    || (exists k :: 0 <= k < |config.services| && !SoundAccount(config.services[k]))
    || exists plan, key, secret :: Stuck(config, names, start, plan, key, secret, timeout, now)
  }

  lemma StemsLater(config: TokenConfig, names: map<PrincipalKey, int>, later: map<PrincipalKey, int>,
                   plan: seq<Assignment>)
    requires AllStem(config, names, plan) && Extends(names, later)
    ensures AllStem(config, later, plan)
  {
    forall k | 0 <= k < |plan| ensures Stems(config, later, plan[k]) {
      assert Stems(config, names, plan[k]);
      var key :| StemsFrom(config, names, plan[k], key);
      assert StemsFrom(config, later, plan[k], key);
    }
  }

  lemma StemsOneMore(config: TokenConfig, names: map<PrincipalKey, int>, plan: seq<Assignment>, a: Assignment,
                     key: PrincipalKey)
    requires AllStem(config, names, plan) && StemsFrom(config, names, a, key)
    ensures AllStem(config, names, plan + [a])
  {
    var longer := plan + [a];
    forall k | 0 <= k < |longer| ensures Stems(config, names, longer[k]) {
      if k < |plan| {
        assert longer[k] == plan[k] && Stems(config, names, plan[k]);
      } else {
        assert StemsFrom(config, names, longer[k], key);
      }
    }
  }

  /** The state after the revocation: the rows of before, and no managed one unrevoked. */
  ghost predicate Rotated(before: Rows, start: Table<Credential>) {
    && UniqueHashes(start.rows) && start.rows.Keys == before.Keys
    && (forall id :: id in start.rows ==>
          && id < start.nextId && !(Managed(start.rows[id].tokenLabel) && start.rows[id].revokedAt.None?)
          && start.rows[id].hash == before[id].hash && start.rows[id].principal == before[id].principal)
  }

  predicate KeepsOwners(before: Rows, after: Rows) {
    forall id :: id in before ==>
      id in after && after[id].hash == before[id].hash && after[id].principal == before[id].principal
  }

  lemma WriteKeepsOwners(start: Rows, before: Rows, after: Rows, target: int, a: Assignment)
    requires KeepsOwners(start, before) && WritesOnly(before, after, target, a)
    ensures KeepsOwners(start, after)
  {
  }

  /** Provisioning a plan leaves every row with its secret and its owner. */
  lemma {:induction false} PlanKeepsOwners(t: Table<Credential>, plan: seq<Assignment>, timeout: nat, now: Instant)
    requires UniqueHashes(t.rows) && ManagedLabels(plan)
    requires forall id :: id in t.rows ==>
      id < t.nextId && !(Managed(t.rows[id].tokenLabel) && t.rows[id].revokedAt.None?)
    requires ProvisionAll(t, plan, timeout, now).Ok?
    ensures KeepsOwners(t.rows, ProvisionAll(t, plan, timeout, now).value.rows)
  {
    if plan != [] {
      var n := |plan| - 1;
      PlanKeepsOwners(t, plan[..n], timeout, now);
      PlanFollowed(t, plan[..n], timeout, now);
      var before := ProvisionAll(t, plan[..n], timeout, now).value;
      var target := ProvisionTarget(before, plan[n], timeout, now);
      WriteKeepsOwners(t.rows, before.rows, ProvisionAll(t, plan, timeout, now).value.rows, target, plan[n]);
    }
  }

  /** A plan that is provisioned to its end has no blank token, and a lifetime that fits. */
  lemma {:induction false} PlanSucceeds(t: Table<Credential>, plan: seq<Assignment>, timeout: nat, now: Instant)
    requires ProvisionAll(t, plan, timeout, now).Ok?
    ensures forall k :: 0 <= k < |plan| ==> plan[k].secret != "" && Fits(now, timeout)
  {
    if plan != [] {
      var n := |plan| - 1;
      PlanSucceeds(t, plan[..n], timeout, now);
      forall k | 0 <= k < |plan| ensures plan[k].secret != "" && Fits(now, timeout) {
        assert k < n ==> plan[..n][k] == plan[k];
      }
    }
  }

  /** A row that stands in the way is an earlier configured token's, or was there before. */
  lemma BlockingRow(config: TokenConfig, names: map<PrincipalKey, int>, before: Rows, start: Table<Credential>,
                    rows: Rows, plan: seq<Assignment>, principal: int, secret: string)
    requires Rotated(before, start) && AllStem(config, names, plan)
    requires Follows(start.rows, rows, plan) && KeepsOwners(start.rows, rows)
    requires OwnedElsewhere(rows, secret, principal)
    ensures
      || (exists other :: other in names && names[other] != principal && Assigns(config, other, secret))
      || OwnedElsewhere(before, secret, principal)
  {
    var id :| id in rows && rows[id].hash == SecretHash(secret) && rows[id].principal != principal;
    if NamesSecret(plan, rows[id].hash) {
      var k :| 0 <= k < |plan| && SecretHash(plan[k].secret) == rows[id].hash;
      assert Provided(rows, plan[k]) && Stems(config, names, plan[k]);
      var other :| StemsFrom(config, names, plan[k], other);
    } else {
      assert id in start.rows && rows[id].hash == start.rows[id].hash;
      assert before[id].principal != principal && before[id].hash == SecretHash(secret);
    }
  }

  lemma FaultedCannotStart(config: TokenConfig, first: map<PrincipalKey, int>, names: map<PrincipalKey, int>,
                           before: Rows, start: Table<Credential>, timeout: nat, now: Instant)
    requires Faulted(config, names, start, timeout, now) && Extends(first, names) && Rotated(before, start)
    ensures !Startable(config, first, before, timeout, now)
  {
    if forall k :: 0 <= k < |config.services| ==> SoundAccount(config.services[k]) {
      var plan, key, secret :| Stuck(config, names, start, plan, key, secret, timeout, now);
      var rows := ProvisionAll(start, plan, timeout, now).value.rows;
      if OwnedElsewhere(rows, secret, names[key]) {
        PlanFollowed(start, plan, timeout, now);
        PlanKeepsOwners(start, plan, timeout, now);
        BlockingRow(config, names, before, start, rows, plan, names[key], secret);
        if OwnedElsewhere(before, secret, names[key]) {
          assert !FreeFor(first, before, key, secret);
        }
      }
    }
  }

  // ----- rights -----

  /** The principal of this key has exactly these rights. */
  predicate HasRights(names: map<PrincipalKey, int>, profiles: map<int, PrincipalRow>, key: PrincipalKey,
                      isAdmin: bool, canDeleteAll: bool) {
    && key in names && names[key] in profiles
    && profiles[names[key]].profile.isAdmin == isAdmin && profiles[names[key]].profile.canDeleteAll == canDeleteAll
  }

  /** The row of the principal is the one it was before. */
  predicate SameProfile(names: map<PrincipalKey, int>, before: map<int, PrincipalRow>, after: map<int, PrincipalRow>,
                        key: PrincipalKey) {
    key in names && names[key] in before && names[key] in after && after[names[key]] == before[names[key]]
  }

  /** Of the principals there were, all but that of one key are as they were. */
  predicate TouchesOnly(names: map<PrincipalKey, int>, before: map<int, PrincipalRow>, after: map<int, PrincipalRow>,
                        key: PrincipalKey) {
    forall other :: other in names && other != key ==> SameProfile(names, before, after, other)
  }

  predicate NamesService(services: seq<Account>, key: PrincipalKey) {
    exists k :: 0 <= k < |services| && Service(services[k].name) == key
  }

  predicate LastOfItsName(services: seq<Account>, k: int)
    requires 0 <= k < |services|
  {
    forall j :: k < j < |services| ==> services[j].name != services[k].name
  }

  /** Each account has the rights that are configured for its name, last. */
  predicate ServiceRights(services: seq<Account>, names: map<PrincipalKey, int>, profiles: map<int, PrincipalRow>) {
    forall k :: 0 <= k < |services| && LastOfItsName(services, k) ==>
      HasRights(names, profiles, Service(services[k].name), services[k].admin, services[k].admin)
  }

  predicate OthersUntouched(services: seq<Account>, names: map<PrincipalKey, int>, before: map<int, PrincipalRow>,
                            after: map<int, PrincipalRow>) {
    forall key :: key in names && !NamesService(services, key) ==> SameProfile(names, before, after, key)
  }

  /** One account more. */
  lemma RightsExtend(services: seq<Account>, i: nat, names: map<PrincipalKey, int>, middle: map<PrincipalKey, int>,
                     later: map<PrincipalKey, int>, first: map<int, PrincipalRow>, before: map<int, PrincipalRow>,
                     after: map<int, PrincipalRow>)
    requires i < |services| && Extends(names, middle) && Extends(middle, later)
    requires ServiceRights(services[..i], middle, before) && OthersUntouched(services[..i], names, first, before)
    requires HasRights(later, after, Service(services[i].name), services[i].admin, services[i].admin)
    requires TouchesOnly(middle, before, after, Service(services[i].name))
    ensures ServiceRights(services[..i+1], later, after) && OthersUntouched(services[..i+1], names, first, after)
  {
    forall k | 0 <= k < i + 1 && LastOfItsName(services[..i+1], k)
      ensures HasRights(later, after, Service(services[k].name), services[k].admin, services[k].admin)
    {
      if k < i {
        assert services[..i+1][i].name != services[k].name;
        assert LastOfItsName(services[..i], k) by {
          forall j | k < j < i ensures services[..i][j].name != services[..i][k].name {
            assert services[..i+1][j].name != services[..i+1][k].name;
          }
        }
        assert HasRights(middle, before, Service(services[..i][k].name), services[k].admin, services[k].admin);
        assert SameProfile(middle, before, after, Service(services[k].name));
      }
    }
    forall key | key in names && !NamesService(services[..i+1], key) ensures SameProfile(names, first, after, key) {
      assert Service(services[..i+1][i].name) != key;
      assert !NamesService(services[..i], key) by {
        forall k | 0 <= k < i ensures Service(services[..i][k].name) != key {
          assert Service(services[..i+1][k].name) != key;
        }
      }
      assert SameProfile(names, first, before, key) && SameProfile(middle, before, after, key);
    }
  }

  method ProvisionSecret(store: Store, a: Assignment, now: Instant, ghost start: Table<Credential>,
                         ghost plan: seq<Assignment>)
    returns (error: Option<StoreError>)
    requires store.Valid() && store.clock == now && a.principal in store.principals
    requires ProvisionAll(start, plan, store.tokenIdleTimeout, now) == Ok(store.tokens)
    modifies store`sessions, store`tokens, store`oauth, store`devices, store`clock
    ensures store.Valid() && store.clock == now
    ensures error.None? ==> ProvisionAll(start, plan + [a], store.tokenIdleTimeout, now) == Ok(store.tokens)
    ensures error.Some? ==> Refuses(old(store.tokens.rows), a.principal, a.secret, store.tokenIdleTimeout, now)
  {
    ProvisionOneMore(start, plan, a, store.principals, store.tokenIdleTimeout, now);
    ProvisioningIsExact(store.View(), a.principal, a.secret, Some(a.tokenLabel), now);
    var id := store.ProvisionStaticApiToken(a.principal, a.secret, Some(a.tokenLabel), now);
    error := if id.Err? then Some(id.error) else None;
  }

  method ProvisionEach(store: Store, secrets: set<string>, principal: int, tokenLabel: string, now: Instant,
                       ghost start: Table<Credential>, ghost before: seq<Assignment>, ghost config: TokenConfig,
                       ghost key: PrincipalKey)
    returns (error: Option<StoreError>, ghost added: seq<Assignment>)
    requires store.Valid() && store.clock == now && principal in store.principals
    requires key in store.names && store.names[key] == principal && AllStem(config, store.names, before)
    requires forall secret :: secret in secrets ==> Assigns(config, key, secret)
    requires Managed(Some(tokenLabel)) && ManagedLabels(before)
    requires ProvisionAll(start, before, store.tokenIdleTimeout, now) == Ok(store.tokens)
    modifies store`sessions, store`tokens, store`oauth, store`devices, store`clock
    ensures store.Valid() && store.clock == now
    ensures error.None? ==> ManagedLabels(before + added) && UniformPlan(secrets, principal, tokenLabel, added)
    ensures error.None? ==> ProvisionAll(start, before + added, store.tokenIdleTimeout, now) == Ok(store.tokens)
    ensures error.None? ==> AllStem(config, store.names, before + added)
    ensures error.Some? ==> Faulted(config, store.names, start, store.tokenIdleTimeout, now)
  {
    added := [];
    assert before + [] == before;
    var todo := secrets;
    while todo != {}
      invariant store.Valid() && store.clock == now && todo <= secrets
      invariant ManagedLabels(before + added) && UniformPlan(secrets - todo, principal, tokenLabel, added)
      invariant ProvisionAll(start, before + added, store.tokenIdleTimeout, now) == Ok(store.tokens)
      invariant AllStem(config, store.names, before + added)
    {
      var secret := PickOne(todo);
      var a := Assignment(principal, secret, tokenLabel);
      error := ProvisionSecret(store, a, now, start, before + added);
      if error.Some? {
        assert Stuck(config, store.names, start, before + added, key, secret, store.tokenIdleTimeout, now);
        return;
      }
      StemsOneMore(config, store.names, before + added, a, key);
      UniformPlanExtends(secrets, todo, before, added, a);
      added := added + [a];
      todo := todo - {secret};
    }
    assert secrets - todo == secrets;
    error := None;
  }

  /** The principal of a key, created or given its rights. */
  method EnsurePrincipal(store: Store, key: PrincipalKey, isAdmin: bool, canDeleteAll: bool, now: Instant)
    returns (principal: Result<int>)
    requires store.Valid()
    modifies store`names, store`principals, store`nextPrincipal, store`profiles
    ensures store.Valid() && Extends(old(store.names), store.names)
    ensures principal.Err? <==> BlankKey(key)
    ensures principal.Ok? ==>
      && key in store.names && store.names[key] == principal.value && principal.value in store.principals
      && HasRights(store.names, store.profiles, key, isAdmin, canDeleteAll)
    ensures TouchesOnly(old(store.names), old(store.profiles), store.profiles, key)
    ensures FreshNames(old(store.names), old(store.principals), store.names, store.principals)
  {
    principal := store.UpsertPrincipal(key, Profile(None, None, isAdmin, canDeleteAll), now);
  }

  method ProvisionShared(store: Store, secrets: set<string>, key: PrincipalKey, canDeleteAll: bool, tokenLabel: string,
                         now: Instant,
                         ghost start: Table<Credential>, ghost before: seq<Assignment>, ghost config: TokenConfig)
    returns (error: Option<StoreError>, ghost added: seq<Assignment>)
    requires store.Valid() && store.clock == now && Managed(Some(tokenLabel)) && ManagedLabels(before)
    requires AllStem(config, store.names, before)
    requires forall secret :: secret in secrets ==> Assigns(config, key, secret)
    requires ProvisionAll(start, before, store.tokenIdleTimeout, now) == Ok(store.tokens)
    modifies store
    ensures store.Valid() && store.clock == now && Extends(old(store.names), store.names)
    ensures TouchesOnly(old(store.names), old(store.profiles), store.profiles, key)
    ensures error.None? && secrets != {} ==> HasRights(store.names, store.profiles, key, false, canDeleteAll)
    ensures secrets == {} ==> store.names == old(store.names) && store.profiles == old(store.profiles)
    ensures error.None? ==> ManagedLabels(before + added)
    ensures error.None? ==> ProvisionAll(start, before + added, store.tokenIdleTimeout, now) == Ok(store.tokens)
    ensures error.None? ==> SharedPlan(secrets, key, tokenLabel, store.names, added)
    ensures FreshNames(old(store.names), old(store.principals), store.names, store.principals)
    ensures error.None? ==> AllStem(config, store.names, before + added)
    ensures error.Some? && !BlankKey(key) ==> Faulted(config, store.names, start, store.tokenIdleTimeout, now)
  {
    added := [];
    assert before + [] == before;
    if secrets == {} {
      return None, added;
    }
    var principal := EnsurePrincipal(store, key, false, canDeleteAll, now);
    if principal.Err? {
      return Some(principal.error), added;
    }
    StemsLater(config, old(store.names), store.names, before);
    error, added := ProvisionEach(store, secrets, principal.value, tokenLabel, now, start, before, config, key);
  }

  method ProvisionService(store: Store, account: Account, now: Instant, ghost start: Table<Credential>,
                          ghost plan: seq<Assignment>, ghost config: TokenConfig)
    returns (error: Option<StoreError>, ghost a: Assignment)
    requires store.Valid() && store.clock == now
    requires account in config.services && ManagedLabels(plan) && AllStem(config, store.names, plan)
    requires ProvisionAll(start, plan, store.tokenIdleTimeout, now) == Ok(store.tokens)
    modifies store
    ensures store.Valid() && store.clock == now
    ensures Extends(old(store.names), store.names)
    ensures TouchesOnly(old(store.names), old(store.profiles), store.profiles, Service(account.name))
    ensures error.None? ==>
      HasRights(store.names, store.profiles, Service(account.name), account.admin, account.admin)
    ensures error.None? ==> ServiceAssigns(account, store.names, a) && Managed(Some(a.tokenLabel))
    ensures error.None? ==> ProvisionAll(start, plan + [a], store.tokenIdleTimeout, now) == Ok(store.tokens)
    ensures FreshNames(old(store.names), old(store.principals), store.names, store.principals)
    ensures error.None? ==> SoundAccount(account) && AllStem(config, store.names, plan + [a])
    ensures error.Some? ==> Faulted(config, store.names, start, store.tokenIdleTimeout, now)
  {
    assert SoundAccount(account) || Faulted(config, store.names, start, store.tokenIdleTimeout, now);
    var principal := EnsurePrincipal(store, Service(account.name), account.admin, account.admin, now);
    if principal.Err? {
      return Some(principal.error), Assignment(0, "", "");
    }
    if account.token.None? {
      return Some(InvalidInput), Assignment(0, "", "");
    }
    var service := Assignment(principal.value, account.token.value, "service:" + account.name);
    StemsLater(config, old(store.names), store.names, plan);
    assert AssignsTo(account, Service(account.name), service.secret);
    error := ProvisionSecret(store, service, now, start, plan);
    a := service;
    if error.Some? {
      assert Stuck(config, store.names, start, plan, Service(account.name), service.secret, store.tokenIdleTimeout,
                   now);
    } else {
      StemsOneMore(config, store.names, plan, service, Service(account.name));
    }
  }

  /** The first `i` accounts are served: their plan, their names, and their rights. */
  ghost predicate Served(config: TokenConfig, i: nat, names: map<PrincipalKey, int>, principals: set<int>,
                         profiles: map<int, PrincipalRow>, later: map<PrincipalKey, int>, more: set<int>,
                         after: map<int, PrincipalRow>, plan: seq<Assignment>)
    requires i <= |config.services|
  {
    var services := config.services[..i];
    && Extends(names, later) && FreshNames(names, principals, later, more)
    && ServicesNamed(services, later) && ServicePlan(services, later, plan) && AllStem(config, later, plan)
    && (forall k :: 0 <= k < i ==> SoundAccount(config.services[k]))
    && ServiceRights(services, later, after) && OthersUntouched(services, names, profiles, after)
  }

  lemma ServedOneMore(config: TokenConfig, i: nat, names: map<PrincipalKey, int>, principals: set<int>,
                      profiles: map<int, PrincipalRow>, middle: map<PrincipalKey, int>, some: set<int>,
                      before: map<int, PrincipalRow>, later: map<PrincipalKey, int>, more: set<int>,
                      after: map<int, PrincipalRow>, plan: seq<Assignment>, a: Assignment)
    requires i < |config.services| && Served(config, i, names, principals, profiles, middle, some, before, plan)
    requires Extends(middle, later) && FreshNames(middle, some, later, more) && SoundAccount(config.services[i])
    requires ServiceAssigns(config.services[i], later, a) && AllStem(config, later, plan + [a])
    requires
      var account := config.services[i];
      && HasRights(later, after, Service(account.name), account.admin, account.admin)
      && TouchesOnly(middle, before, after, Service(account.name))
    ensures Served(config, i + 1, names, principals, profiles, later, more, after, plan + [a])
  {
    ServicesExtend(config.services, i, middle, later, plan, a);
    RightsExtend(config.services, i, names, middle, later, profiles, before, after);
  }

  method ProvisionServices(store: Store, now: Instant, ghost start: Table<Credential>, config: TokenConfig)
    returns (error: Option<StoreError>, ghost plan: seq<Assignment>)
    requires store.Valid() && store.clock == now && start == store.tokens
    modifies store
    ensures store.Valid() && store.clock == now
    ensures Extends(old(store.names), store.names)
    ensures FreshNames(old(store.names), old(store.principals), store.names, store.principals)
    ensures error.None? ==>
      ManagedLabels(plan) && ProvisionAll(start, plan, store.tokenIdleTimeout, now) == Ok(store.tokens)
    ensures error.None? ==>
      && ServicePlan(config.services, store.names, plan) && ServicesNamed(config.services, store.names)
      && AllStem(config, store.names, plan)
    ensures error.None? ==> forall k :: 0 <= k < |config.services| ==> SoundAccount(config.services[k])
    ensures error.None? ==>
      && ServiceRights(config.services, store.names, store.profiles)
      && OthersUntouched(config.services, old(store.names), old(store.profiles), store.profiles)
    ensures error.Some? ==> Faulted(config, store.names, start, store.tokenIdleTimeout, now)
  {
    plan := [];
    for i := 0 to |config.services|
      invariant store.Valid() && store.clock == now
      invariant ManagedLabels(plan) && ProvisionAll(start, plan, store.tokenIdleTimeout, now) == Ok(store.tokens)
      invariant Served(config, i, old(store.names), old(store.principals), old(store.profiles), store.names,
                       store.principals, store.profiles, plan)
    {
      ghost var names, principals, profiles := store.names, store.principals, store.profiles;
      ghost var a: Assignment;
      error, a := ProvisionService(store, config.services[i], now, start, plan, config);
      if error.Some? {
        return;
      }
      ServedOneMore(config, i, old(store.names), old(store.principals), old(store.profiles), names, principals,
                    profiles, store.names, store.principals, store.profiles, plan, a);
      plan := plan + [a];
    }
    assert config.services[..|config.services|] == config.services;
    error := None;
  }

  lemma OneMoreService(services: seq<Account>, i: nat, names: map<PrincipalKey, int>, later: map<PrincipalKey, int>,
                       b: Assignment)
    requires i < |services| && Extends(names, later)
    requires ServicesNamed(services[..i], names)
    ensures FromServices(services[..i+1], later, b) <==>
      FromServices(services[..i], names, b) || ServiceAssigns(services[i], later, b)
  {
    if FromServices(services[..i], names, b) {
      var k :| 0 <= k < i && ServiceAssigns(services[..i][k], names, b);
      assert ServiceAssigns(services[..i+1][k], later, b);
    }
    if ServiceAssigns(services[i], later, b) {
      assert ServiceAssigns(services[..i+1][i], later, b);
    }
    if FromServices(services[..i+1], later, b) {
      var k :| 0 <= k < i + 1 && ServiceAssigns(services[..i+1][k], later, b);
      assert k < i ==> ServiceAssigns(services[..i][k], names, b);
    }
  }

  lemma ServicesExtend(services: seq<Account>, i: nat, names: map<PrincipalKey, int>, later: map<PrincipalKey, int>,
                       plan: seq<Assignment>, a: Assignment)
    requires i < |services| && Extends(names, later)
    requires ServicesNamed(services[..i], names)
    requires ServicePlan(services[..i], names, plan) && ServiceAssigns(services[i], later, a)
    ensures ServicePlan(services[..i+1], later, plan + [a]) && ServicesNamed(services[..i+1], later)
  {
    assert services[..i+1] == services[..i] + [services[i]];
    forall b ensures b in plan + [a] <==> FromServices(services[..i+1], later, b) {
      OneMoreService(services, i, names, later, b);
    }
  }

  /** The three parts of the plan, recorded as the names grew, are the configuration under the final names. */
  lemma PlanIsConfigured(config: TokenConfig, first: map<PrincipalKey, int>, second: map<PrincipalKey, int>,
                         last: map<PrincipalKey, int>,
                         services: seq<Assignment>, uploads: seq<Assignment>, deletes: seq<Assignment>)
    requires Extends(first, second) && Extends(second, last)
    requires ServicesNamed(config.services, first)
    requires ServicePlan(config.services, first, services)
    requires SharedPlan(config.authTokens - config.deleteTokens, AUTH_TOKENS, "legacy-auth", second, uploads)
    requires SharedPlan(config.deleteTokens, DELETE_TOKENS, "legacy-delete", last, deletes)
    ensures forall a :: a in services + uploads + deletes <==> Configured(config, last, a)
  {
    forall a ensures a in services + uploads + deletes <==> Configured(config, last, a) {
      assert FromServices(config.services, first, a) <==> FromServices(config.services, last, a) by {
        forall k | 0 <= k < |config.services|
          ensures ServiceAssigns(config.services[k], first, a) <==> ServiceAssigns(config.services[k], last, a)
        {
          assert Service(config.services[k].name) in first;
        }
      }
    }
  }

  predicate ListsSecret(account: Account, hash: Digest) {
    account.token.Some? && SecretHash(account.token.value) == hash
  }

  /** The configuration lists this secret, for whomever. */
  predicate ConfiguresSecret(config: TokenConfig, hash: Digest) {
    || (exists k :: 0 <= k < |config.services| && ListsSecret(config.services[k], hash))
    || (exists secret :: secret in config.authTokens + config.deleteTokens && SecretHash(secret) == hash)
  }

  lemma PlanNamesConfigured(config: TokenConfig, names: map<PrincipalKey, int>, plan: seq<Assignment>)
    requires forall a :: a in plan <==> Configured(config, names, a)
    requires ServicesNamed(config.services, names)
    requires config.authTokens - config.deleteTokens != {} ==> AUTH_TOKENS in names
    requires config.deleteTokens != {} ==> DELETE_TOKENS in names
    ensures forall hash :: NamesSecret(plan, hash) <==> ConfiguresSecret(config, hash)
  {
    forall hash ensures NamesSecret(plan, hash) <==> ConfiguresSecret(config, hash) {
      if NamesSecret(plan, hash) {
        var k :| 0 <= k < |plan| && SecretHash(plan[k].secret) == hash;
        assert Configured(config, names, plan[k]);
      }
      if ConfiguresSecret(config, hash) {
        var a := ConfiguredAssignment(config, names, hash);
        assert a in plan;
      }
    }
  }

  lemma ConfiguredAssignment(config: TokenConfig, names: map<PrincipalKey, int>, hash: Digest) returns (a: Assignment)
    requires ConfiguresSecret(config, hash)
    requires ServicesNamed(config.services, names)
    requires config.authTokens - config.deleteTokens != {} ==> AUTH_TOKENS in names
    requires config.deleteTokens != {} ==> DELETE_TOKENS in names
    ensures Configured(config, names, a) && SecretHash(a.secret) == hash
  {
    var services := config.services;
    if k :| 0 <= k < |services| && ListsSecret(services[k], hash) {
      a := Assignment(names[Service(services[k].name)], services[k].token.value, "service:" + services[k].name);
      assert ServiceAssigns(services[k], names, a);
    } else {
      var secret :| secret in config.authTokens + config.deleteTokens && SecretHash(secret) == hash;
      if secret in config.deleteTokens {
        a := Assignment(names[DELETE_TOKENS], secret, "legacy-delete");
      } else {
        assert secret in config.authTokens - config.deleteTokens;
        a := Assignment(names[AUTH_TOKENS], secret, "legacy-auth");
      }
    }
  }

  predicate KeptAs(rows: Rows, id: int, row: Credential) {
    id in rows && rows[id] == row
  }

  /** Provisioning leaves a dynamic row as it is exactly when the plan does not name its secret. */
  lemma DynamicRowsKeptIff(start: Rows, rows: Rows, plan: seq<Assignment>)
    requires Follows(start, rows, plan)
    ensures forall id :: id in start && !Managed(start[id].tokenLabel) ==>
      (KeptAs(rows, id, start[id]) <==> !NamesSecret(plan, start[id].hash))
  {
    forall id | id in start && !Managed(start[id].tokenLabel)
      ensures KeptAs(rows, id, start[id]) <==> !NamesSecret(plan, start[id].hash)
    {
      if NamesSecret(plan, start[id].hash) {
        var k :| 0 <= k < |plan| && SecretHash(plan[k].secret) == start[id].hash;
        assert Provided(rows, plan[k]);
      }
    }
  }

  lemma RotationKeepsIff(before: Rows, after: Rows, plan: seq<Assignment>, config: TokenConfig, now: int)
    requires Follows(RevokeRows(before, ManagedRows(before), now), after, plan)
    requires forall hash :: NamesSecret(plan, hash) <==> ConfiguresSecret(config, hash)
    ensures forall id :: id in before && !Managed(before[id].tokenLabel) ==>
      (KeptAs(after, id, before[id]) <==> !ConfiguresSecret(config, before[id].hash))
  {
    var start := RevokeRows(before, ManagedRows(before), now);
    DynamicRowsKeptIff(start, after, plan);
    forall id | id in before && !Managed(before[id].tokenLabel)
      ensures KeptAs(after, id, before[id]) <==> !ConfiguresSecret(config, before[id].hash)
    {
      assert id in start && start[id] == before[id];
      assert NamesSecret(plan, before[id].hash) <==> ConfiguresSecret(config, before[id].hash);
    }
  }

  /**
   It happens: a token issued to one login and then configured becomes a managed one, and the next rotation
   revokes it.
   */
  lemma ConfiguredDynamicTokenIsTaken(now: Instant)
    requires now < 1_000_000_000_000
    ensures
      var before := Table(map[1 := Credential(7, SecretHash("s"), Some("cli"), 0, 0, now + 10, None)], 2);
      var plan := [Assignment(7, "s", "legacy-auth")];
      var result := ProvisionAll(before, plan, 3600, now);
      && result.Ok? && 1 in result.value.rows && Managed(result.value.rows[1].tokenLabel)
      && RevokeRows(result.value.rows, ManagedRows(result.value.rows), now)[1].revokedAt == Some(now)
  {
    var before := Table(map[1 := Credential(7, SecretHash("s"), Some("cli"), 0, 0, now + 10, None)], 2);
    var plan := [Assignment(7, "s", "legacy-auth")];
    assert plan[..0] == [];
    var hits := WithHash(before.rows, SecretHash("s"));
    assert 1 in hits && AnyOf(hits) in hits;
    assert AnyOf(hits) == 1;
  }

  /** The configuration sets the rights of this principal. */
  predicate Configures(config: TokenConfig, key: PrincipalKey) {
    || NamesService(config.services, key)
    || (key == AUTH_TOKENS && config.authTokens - config.deleteTokens != {})
    || (key == DELETE_TOKENS && config.deleteTokens != {})
  }

  /**
   Service accounts have the rights of their configuration. Shared upload tokens give none, shared delete
   tokens the right to delete everything, and neither makes an administrator.
   */
  predicate ConfiguredRights(config: TokenConfig, names: map<PrincipalKey, int>, profiles: map<int, PrincipalRow>) {
    && ServiceRights(config.services, names, profiles)
    && (config.authTokens - config.deleteTokens != {} ==> HasRights(names, profiles, AUTH_TOKENS, false, false))
    && (config.deleteTokens != {} ==> HasRights(names, profiles, DELETE_TOKENS, false, true))
  }

  /** Principals that the configuration does not name are as they were. */
  predicate KeepsOtherProfiles(config: TokenConfig, names: map<PrincipalKey, int>, before: map<int, PrincipalRow>,
                               after: map<int, PrincipalRow>) {
    forall key :: key in names && !Configures(config, key) ==> SameProfile(names, before, after, key)
  }

  lemma RightsStand(services: seq<Account>, names: map<PrincipalKey, int>, later: map<PrincipalKey, int>,
                    before: map<int, PrincipalRow>, after: map<int, PrincipalRow>, key: PrincipalKey)
    requires ServiceRights(services, names, before) && Extends(names, later) && key.Legacy?
    requires TouchesOnly(names, before, after, key)
    ensures ServiceRights(services, later, after)
  {
    forall k | 0 <= k < |services| && LastOfItsName(services, k)
      ensures HasRights(later, after, Service(services[k].name), services[k].admin, services[k].admin)
    {
      assert HasRights(names, before, Service(services[k].name), services[k].admin, services[k].admin);
      assert SameProfile(names, before, after, Service(services[k].name));
    }
  }

  lemma ProfilesKept(config: TokenConfig, names: map<PrincipalKey, int>, second: map<PrincipalKey, int>,
                     third: map<PrincipalKey, int>, first: map<int, PrincipalRow>, b: map<int, PrincipalRow>,
                     c: map<int, PrincipalRow>, d: map<int, PrincipalRow>)
    requires Extends(names, second) && Extends(second, third)
    requires OthersUntouched(config.services, names, first, b)
    requires TouchesOnly(second, b, c, AUTH_TOKENS) && (config.authTokens - config.deleteTokens == {} ==> c == b)
    requires TouchesOnly(third, c, d, DELETE_TOKENS) && (config.deleteTokens == {} ==> d == c)
    ensures KeepsOtherProfiles(config, names, first, d)
  {
    forall key | key in names && !Configures(config, key) ensures SameProfile(names, first, d, key) {
      assert SameProfile(names, first, b, key);
      assert key == AUTH_TOKENS || SameProfile(second, b, c, key);
      assert key == DELETE_TOKENS || SameProfile(third, c, d, key);
    }
  }

  // ----- startup as a whole -----

  /** Under the final names, what the configuration assigns is in the plan. */
  lemma AssignedIsPlanned(config: TokenConfig, names: map<PrincipalKey, int>, key: PrincipalKey, secret: string)
    returns (a: Assignment)
    requires Assigns(config, key, secret) && ServicesNamed(config.services, names)
    requires config.authTokens - config.deleteTokens != {} ==> AUTH_TOKENS in names
    requires config.deleteTokens != {} ==> DELETE_TOKENS in names
    ensures key in names && Configured(config, names, a) && a.secret == secret && a.principal == names[key]
  {
    if k :| 0 <= k < |config.services| && AssignsTo(config.services[k], key, secret) {
      a := Assignment(names[key], secret, "service:" + config.services[k].name);
      assert ServiceAssigns(config.services[k], names, a);
    } else if key == DELETE_TOKENS && secret in config.deleteTokens {
      a := Assignment(names[key], secret, "legacy-delete");
    } else {
      assert secret in config.authTokens - config.deleteTokens;
      a := Assignment(names[key], secret, "legacy-auth");
    }
  }

  lemma SuccessWasStartable(config: TokenConfig, first: map<PrincipalKey, int>, principals: set<int>,
                            names: map<PrincipalKey, int>, more: set<int>, before: Rows, start: Table<Credential>,
                            plan: seq<Assignment>, timeout: nat, now: Instant)
    requires Rotated(before, start) && ManagedLabels(plan) && ProvisionAll(start, plan, timeout, now).Ok?
    requires forall a :: a in plan <==> Configured(config, names, a)
    requires ServicesNamed(config.services, names)
    requires forall k :: 0 <= k < |config.services| ==> SoundAccount(config.services[k])
    requires config.authTokens - config.deleteTokens != {} ==> AUTH_TOKENS in names
    requires config.deleteTokens != {} ==> DELETE_TOKENS in names
    requires forall key, other :: key in names && other in names && names[key] == names[other] ==> key == other
    requires Extends(first, names) && FreshNames(first, principals, names, more) && OwnedRows(before, principals)
    ensures Startable(config, first, before, timeout, now)
  {
    PlanSucceeds(start, plan, timeout, now);
    PlanFollowed(start, plan, timeout, now);
    PlanKeepsOwners(start, plan, timeout, now);
    var rows := ProvisionAll(start, plan, timeout, now).value.rows;
    forall key, secret | Assigns(config, key, secret)
      ensures secret != "" && Fits(now, timeout) && FreeFor(first, before, key, secret)
    {
      var a := AssignedIsPlanned(config, names, key, secret);
      assert a in plan;
      var i :| 0 <= i < |plan| && plan[i] == a;
      assert Provided(rows, plan[i]);
      forall id | id in before && before[id].hash == SecretHash(secret)
        ensures key in first && first[key] == before[id].principal
      {
        assert rows[id].principal == before[id].principal == names[key];
      }
    }
    forall key, other, secret | Assigns(config, key, secret) && Assigns(config, other, secret) ensures key == other {
      var a := AssignedIsPlanned(config, names, key, secret);
      var b := AssignedIsPlanned(config, names, other, secret);
      assert a in plan && b in plan;
      var i :| 0 <= i < |plan| && plan[i] == a;
      var j :| 0 <= j < |plan| && plan[j] == b;
      OneOwnerPerToken(start, plan, timeout, now, i, j);
    }
  }

  /** The plan is the configuration under these names. */
  ghost predicate PlansConfigured(config: TokenConfig, names: map<PrincipalKey, int>, plan: seq<Assignment>) {
    && (forall a :: a in plan <==> Configured(config, names, a)) && ManagedLabels(plan)
    && ServicesNamed(config.services, names)
    && (forall k :: 0 <= k < |config.services| ==> SoundAccount(config.services[k]))
    && (config.authTokens - config.deleteTokens != {} ==> AUTH_TOKENS in names)
    && (config.deleteTokens != {} ==> DELETE_TOKENS in names)
  }

  lemma SharedAssigned(config: TokenConfig)
    ensures forall secret :: secret in config.authTokens - config.deleteTokens ==> Assigns(config, AUTH_TOKENS, secret)
    ensures forall secret :: secret in config.deleteTokens ==> Assigns(config, DELETE_TOKENS, secret)
    ensures !BlankKey(AUTH_TOKENS) && !BlankKey(DELETE_TOKENS)
  {
    assert AUTH_TOKENS.name[0] == 'd' && DELETE_TOKENS.name[0] == 'd';
  }

  /** After the revocation: service accounts, upload tokens that are not delete tokens, delete tokens. */
  method ProvisionConfigured(store: Store, config: TokenConfig, now: Instant, ghost start: Table<Credential>)
    returns (error: Option<StoreError>, ghost plan: seq<Assignment>)
    requires store.Valid() && store.clock == now && start == store.tokens
    modifies store
    ensures store.Valid() && store.clock == now && Extends(old(store.names), store.names)
    ensures FreshNames(old(store.names), old(store.principals), store.names, store.principals)
    ensures error.Some? ==> Faulted(config, store.names, start, store.tokenIdleTimeout, now)
    ensures error.None? ==> PlansConfigured(config, store.names, plan)
    ensures error.None? ==> ProvisionAll(start, plan, store.tokenIdleTimeout, now) == Ok(store.tokens)
    ensures error.None? ==> ConfiguredRights(config, store.names, store.profiles)
    ensures error.None? ==> KeepsOtherProfiles(config, old(store.names), old(store.profiles), store.profiles)
  {
    SharedAssigned(config);
    ghost var services, uploads, deletes: seq<Assignment>;
    error, services := ProvisionServices(store, now, start, config);
    plan := services;
    if error.Some? {
      return;
    }
    ghost var names, profiles := store.names, store.profiles;
    error, uploads := ProvisionShared(store, config.authTokens - config.deleteTokens, AUTH_TOKENS, false,
                                      "legacy-auth", now, start, plan, config);
    plan := plan + uploads;
    if error.Some? {
      return;
    }
    ghost var second, secondProfiles := store.names, store.profiles;
    RightsStand(config.services, names, second, profiles, secondProfiles, AUTH_TOKENS);
    error, deletes := ProvisionShared(store, config.deleteTokens, DELETE_TOKENS, true, "legacy-delete", now, start,
                                      plan, config);
    plan := plan + deletes;
    if error.None? {
      PlanIsConfigured(config, names, second, store.names, services, uploads, deletes);
      RightsStand(config.services, second, store.names, secondProfiles, store.profiles, DELETE_TOKENS);
      ProfilesKept(config, old(store.names), names, second, old(store.profiles), profiles, secondProfiles,
                   store.profiles);
      assert config.authTokens - config.deleteTokens != {} ==>
        SameProfile(second, secondProfiles, store.profiles, AUTH_TOKENS);
    }
  }

  lemma RevocationRotates(t: Table<Credential>, now: int)
    requires UniqueHashes(t.rows) && forall id :: id in t.rows ==> id < t.nextId
    ensures Rotated(t.rows, t.(rows := RevokeRows(t.rows, ManagedRows(t.rows), now)))
  {
  }

  /**
   The startup sequence. It succeeds exactly when the configuration is sound and none of its tokens is somebody
   else's. Then the unrevoked managed tokens are exactly the configured ones, each on its configured
   principal, every row of another secret is as the revocation left it, a dynamic token is unchanged exactly
   when its secret is not configured, and the configured principals, and no others, have the configured rights.
   */
  method Initialize(store: Store, config: TokenConfig, now: Instant)
    returns (error: Option<StoreError>, ghost plan: seq<Assignment>)
    requires store.Valid() && store.clock <= now
    modifies store
    ensures store.Valid() && store.clock == now
    ensures error.None? <==>
      Startable(config, old(store.names), old(store.tokens.rows), store.tokenIdleTimeout, now)
    ensures error.None? ==> forall a :: a in plan <==> Configured(config, store.names, a)
    ensures error.None? ==>
      Follows(RevokeRows(old(store.tokens.rows), ManagedRows(old(store.tokens.rows)), now), store.tokens.rows, plan)
    ensures error.None? ==> forall hash :: NamesSecret(plan, hash) <==> ConfiguresSecret(config, hash)
    ensures error.None? ==>
      forall id :: id in old(store.tokens.rows) && !Managed(old(store.tokens.rows)[id].tokenLabel) ==>
        (KeptAs(store.tokens.rows, id, old(store.tokens.rows)[id]) <==>
         !ConfiguresSecret(config, old(store.tokens.rows)[id].hash))
    ensures error.None? ==> ConfiguredRights(config, store.names, store.profiles)
    ensures error.None? ==> KeepsOtherProfiles(config, old(store.names), old(store.profiles), store.profiles)
  {
    ghost var before, principals := store.tokens, store.principals;
    var revoked := store.RevokeManagedApiTokens(now);
    ghost var start := store.tokens;
    RevocationRotates(before, now);
    error, plan := ProvisionConfigured(store, config, now, start);
    if error.Some? {
      FaultedCannotStart(config, old(store.names), store.names, before.rows, start, store.tokenIdleTimeout, now);
    } else {
      SuccessWasStartable(config, old(store.names), principals, store.names, store.principals, before.rows, start, plan,
                          store.tokenIdleTimeout, now);
      PlanNamesConfigured(config, store.names, plan);
      PlanFollowed(start, plan, store.tokenIdleTimeout, now);
      RotationKeepsIff(before.rows, store.tokens.rows, plan, config, now);
    }
  }
}
