/** Browser sessions and API tokens: one table shape, one set of statements. */
module Credentials {
  import opened Base

  const ROLLING_UPDATE_INTERVAL_SECONDS: int := 60 * 60
  const MAX_ACTIVE_CREDENTIALS_PER_PRINCIPAL: nat := 32

  datatype Credential = Credential(
    principal: int,
    hash: Digest,
    tokenLabel: Option<string>,
    createdAt: int,
    lastUsedAt: int,
    expiresAt: int,
    revokedAt: Option<int>)

  type Rows = map<int, Credential>

  datatype Issued = Issued(id: int, secret: string, expiresAt: int)
  datatype Authenticated = Authenticated(credentialId: int, expiresAt: int, principal: int)

  /** Labels reserved for tokens provisioned from the configuration. */
  predicate Managed(tokenLabel: Option<string>) {
    tokenLabel.Some? &&
    ("service:" <= tokenLabel.value || tokenLabel.value == "legacy-auth" || tokenLabel.value == "legacy-delete")
  }

  predicate Active(c: Credential, now: int) {
    c.revokedAt.None? && c.expiresAt > now
  }

  /** Row `id` exists and is neither revoked nor expired. */
  predicate Live(rows: Rows, id: int, now: int) {
    id in rows && Active(rows[id], now)
  }

  /** ORDER BY created_at DESC, id DESC: does `a` come before `b`? */
  predicate Newer(rows: Rows, a: int, b: int)
    requires a in rows && b in rows
  {
    rows[a].createdAt > rows[b].createdAt || (rows[a].createdAt == rows[b].createdAt && a > b)
  }

  function Dynamic(rows: Rows, principal: int): set<int> {
    set id | id in rows && rows[id].principal == principal && !Managed(rows[id].tokenLabel)
  }

  function ActiveDynamic(rows: Rows, principal: int, now: int): set<int> {
    set id | id in rows && rows[id].principal == principal && !Managed(rows[id].tokenLabel) && Live(rows, id, now)
  }

  predicate IsNewest(rows: Rows, ids: set<int>, top: int)
    requires ids <= rows.Keys
  {
    top in ids && forall b :: b in ids && b != top ==> Newer(rows, top, b)
  }

  lemma {:induction false} NewestExists(rows: Rows, ids: set<int>)
    requires ids <= rows.Keys && ids != {}
    ensures exists top :: IsNewest(rows, ids, top)
    decreases ids
  {
    var one := AnyOf(ids);
    var others := ids - {one};
    if others != {} {
      NewestExists(rows, others);
      var rest :| IsNewest(rows, others, rest);
      assert ids == others + {one};
      assert IsNewest(rows, ids, if Newer(rows, one, rest) then one else rest);
    } else {
      assert ids == {one};
      assert IsNewest(rows, ids, one);
    }
  }

  function NewestOf(rows: Rows, ids: set<int>): (top: int)
    requires ids <= rows.Keys && ids != {}
    ensures IsNewest(rows, ids, top)
  {
    NewestExists(rows, ids);
    var top :| top in ids && IsNewest(rows, ids, top);
    top
  }

  /** ORDER BY created_at DESC, id DESC LIMIT k. */
  function Newest(rows: Rows, ids: set<int>, k: nat): set<int>
    requires ids <= rows.Keys
    decreases ids
  {
    if k == 0 || ids == {} then {}
    else var top := NewestOf(rows, ids); {top} + Newest(rows, ids - {top}, k - 1)
  }

  /** LIMIT really selects the newest: the right number of them, each newer than all that are left out. */
  lemma {:induction false} NewestAreNewest(rows: Rows, ids: set<int>, k: nat)
    requires ids <= rows.Keys
    ensures Newest(rows, ids, k) <= ids
    ensures |Newest(rows, ids, k)| == if |ids| < k then |ids| else k
    ensures forall a, b :: a in Newest(rows, ids, k) && b in ids - Newest(rows, ids, k) ==> Newer(rows, a, b)
    decreases k
  {
    if k != 0 && ids != {} {
      var top := NewestOf(rows, ids);
      NewestAreNewest(rows, ids - {top}, k - 1);
      assert |ids - {top}| == |ids| - 1;
    }
  }

  // ----- statements of one transaction, as functions on the rows -----

  predicate Pruned(rows: Rows, principal: int, now: int, id: int)
    requires id in rows
  {
    rows[id].principal == principal &&
    (!Live(rows, id, now) ||
     (!Managed(rows[id].tokenLabel) &&
      id !in Newest(rows, ActiveDynamic(rows, principal, now), MAX_ACTIVE_CREDENTIALS_PER_PRINCIPAL)))
  }

  /** The DELETE that runs after every credential insert. */
  function Prune(rows: Rows, principal: int, now: int): Rows {
    map id | id in rows && !Pruned(rows, principal, now, id) :: rows[id]
  }

  predicate HashTaken(rows: Rows, hash: Digest) {
    exists id :: id in rows && rows[id].hash == hash
  }

  function NewRow(principal: int, secret: string, tokenLabel: Option<string>, now: int, expiresAt: int): Credential {
    Credential(principal, SecretHash(secret), tokenLabel, now, now, expiresAt, None)
  }

  /** INSERT of a generated secret followed by the prune; a foreign key or unique violation rolls back. */
  function InsertAndPrune(t: Table<Credential>, principals: set<int>, principal: int, secret: string,
                          tokenLabel: Option<string>, expiresAt: int, now: int): (Table<Credential>, Result<Issued>) {
    if principal !in principals || HashTaken(t.rows, SecretHash(secret)) then (t, Err(Database))
    else
      var row := NewRow(principal, secret, tokenLabel, now, expiresAt);
      (Table(Prune(t.rows[t.nextId := row], principal, now), t.nextId + 1), Ok(Issued(t.nextId, secret, expiresAt)))
  }

  function CreateCredential(t: Table<Credential>, principals: set<int>, principal: int, secret: string,
                  tokenLabel: Option<string>, timeout: nat, now: Instant): (Table<Credential>, Result<Issued>) {
    match ExpiryFrom(now, timeout)
    case Err(e) => (t, Err(e))
    case Ok(expiresAt) => InsertAndPrune(t, principals, principal, secret, tokenLabel, expiresAt, now)
  }

  /** UPDATE ... SET revoked_at = ? on the given unrevoked rows. */
  function RevokeRows(rows: Rows, ids: set<int>, now: int): Rows {
    map id | id in rows :: if id in ids && rows[id].revokedAt.None? then rows[id].(revokedAt := Some(now)) else rows[id]
  }

  /** The rows that an UPDATE with `revoked_at IS NULL` matches among `ids`. */
  function Unrevoked(rows: Rows, ids: set<int>): set<int> {
    set id | id in ids && id in rows && rows[id].revokedAt.None?
  }

  function WithHash(rows: Rows, hash: Digest): set<int> {
    set id | id in rows && rows[id].hash == hash
  }

  function OfPrincipal(rows: Rows, principal: int): set<int> {
    set id | id in rows && rows[id].principal == principal
  }

  function ManagedRows(rows: Rows): set<int> {
    set id | id in rows && Managed(rows[id].tokenLabel)
  }

  predicate UniqueHashes(rows: Rows) {
    forall a, b :: a in rows && b in rows && rows[a].hash == rows[b].hash ==> a == b
  }

  /** The unrevoked row of a secret, if there is one. */
  ghost function Find(rows: Rows, hash: Digest): (r: Option<int>)
    ensures r.Some? ==> r.value in rows && rows[r.value].hash == hash && rows[r.value].revokedAt.None?
    ensures r.None? ==> forall id :: id in rows && rows[id].hash == hash ==> rows[id].revokedAt.Some?
  {
    var hits := Unrevoked(rows, WithHash(rows, hash));
    if hits == {} then
      assert forall id :: id in rows && rows[id].hash == hash && rows[id].revokedAt.None? ==> id in hits;
      None
    else
      assert AnyOf(hits) in hits;
      Some(AnyOf(hits))
  }

  /** One authentication: expire, or accept and roll the idle expiry when the last roll is an hour old. */
  ghost function AuthenticateCredential(rows: Rows, secret: string, timeout: nat,
                                        now: Instant): (Rows, Result<Option<Authenticated>>) {
    if secret == "" then (rows, Ok(None))
    else match Find(rows, SecretHash(secret))
      case None => (rows, Ok(None))
      case Some(id) =>
        if rows[id].expiresAt <= now then (RevokeRows(rows, {id}, now), Ok(None))
        else if rows[id].lastUsedAt <= SaturatingSub(now, ROLLING_UPDATE_INTERVAL_SECONDS) then
          match ExpiryFrom(now, timeout) {
            case Err(e) => (rows, Err(e))
            case Ok(rolled) =>
              (rows[id := rows[id].(lastUsedAt := now, expiresAt := rolled)],
               Ok(Some(Authenticated(id, rolled, rows[id].principal))))
          }
        else (rows, Ok(Some(Authenticated(id, rows[id].expiresAt, rows[id].principal))))
  }

  /** Re-provisioning revives the row of a configured token; a new token gets a new row; neither prunes. */
  ghost function ProvisionToken(t: Table<Credential>, principals: set<int>, principal: int, secret: string,
                           tokenLabel: Option<string>, timeout: nat, now: Instant): (Table<Credential>, Result<int>) {
    if secret == "" then (t, Err(InvalidInput))
    else match ExpiryFrom(now, timeout)
      case Err(e) => (t, Err(e))
      case Ok(expiresAt) =>
        var hits := WithHash(t.rows, SecretHash(secret));
        if hits != {} then
          var id := AnyOf(hits);
          if t.rows[id].principal != principal then (t, Err(InvalidInput))
          else
            var row := t.rows[id].(tokenLabel := tokenLabel, lastUsedAt := now, expiresAt := expiresAt,
                                   revokedAt := None);
            (t.(rows := t.rows[id := row]), Ok(id))
        else if principal !in principals then (t, Err(Database))
        else
          (Table(t.rows[t.nextId := NewRow(principal, secret, tokenLabel, now, expiresAt)], t.nextId + 1), Ok(t.nextId))
  }

  /** The credential half of the periodic purge. */
  function PurgeRows(rows: Rows, now: int): Rows {
    map id | id in rows && Live(rows, id, now) :: rows[id]
  }
}
