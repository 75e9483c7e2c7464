/** A revoked credential stays refused: nothing but provisioning or issuing the same secret brings it back. */
module Revocations {
  import opened Base
  import opened Credentials
  import opened AuthTables
  import opened Invariants
  import opened AuthAnswers
  import opened PurgeTransparency
  import opened DeviceLogin
  import opened IdleTimeout

  /** No unrevoked row has this secret. */
  predicate Refused(rows: Rows, hash: Digest) {
    forall id :: id in rows && rows[id].hash == hash ==> rows[id].revokedAt.Some?
  }

  /** The event neither provisions nor issues this very secret in this table. */
  predicate NotReissued(op: Op, kind: Kind, secret: string) {
    !(op.Provision? && kind.Token? && op.secret == secret) && SecretHash(secret) !in Generated(op, kind)
  }

  lemma RevokeKeepsRefused(rows: Rows, ids: set<int>, now: int, hash: Digest)
    requires Refused(rows, hash)
    ensures Refused(RevokeRows(rows, ids, now), hash)
  {
  }

  lemma InsertKeepsRefused(t: Table<Credential>, principals: set<int>, principal: int, secret: string,
                           tokenLabel: Option<string>,
                           expiresAt: int, now: int, hash: Digest)
    requires Refused(t.rows, hash) && SecretHash(secret) != hash
    ensures Refused(InsertAndPrune(t, principals, principal, secret, tokenLabel, expiresAt, now).0.rows, hash)
  {
  }

  lemma AuthenticateKeepsRefused(rows: Rows, secret: string, timeout: nat, now: Instant, hash: Digest)
    requires Refused(rows, hash)
    ensures Refused(AuthenticateCredential(rows, secret, timeout, now).0, hash)
  {
    var found := Find(rows, SecretHash(secret));
    if found.Some? {
      var id: int := found.value;
      assert id in rows && rows[id].hash != hash;
    }
  }

  lemma PollKeepsRefused(t: Tables, e: Event, hash: Digest)
    requires e.op.PollDevice? && SecretHash(e.op.secret) != hash && Refused(t.tokens.rows, hash)
    ensures Refused(Step(t, e).tables.tokens.rows, hash)
  {
    PollOnlyDelivers(t, e);
    if Step(t, e).reply.polled.Ok? && Step(t, e).reply.polled.value.Authorized? {
      var principal := DeliveryInserts(t, e);
      InsertKeepsRefused(t.tokens, t.principals, principal, e.op.secret, e.op.tokenLabel, e.now + t.tokenTimeout,
                         e.now, hash);
    }
  }

  lemma ProvisionKeepsRefused(t: Tables, e: Event, hash: Digest)
    requires e.op.Provision? && SecretHash(e.op.secret) != hash && Refused(t.tokens.rows, hash)
    ensures Refused(Step(t, e).tables.tokens.rows, hash)
  {
    var hits := WithHash(t.tokens.rows, SecretHash(e.op.secret));
    assert hits != {} ==> AnyOf(hits) in hits;
  }

  lemma StepKeepsRefused(t: Tables, e: Event, kind: Kind, secret: string)
    requires Refused(t.Of(kind).rows, SecretHash(secret)) && NotReissued(e.op, kind, secret)
    ensures Refused(Step(t, e).tables.Of(kind).rows, SecretHash(secret))
  {
    var rows, hash := t.Of(kind).rows, SecretHash(secret);
    match e.op
    case Create(k, principal, tokenLabel, s) =>
      var expiry := ExpiryFrom(e.now, t.Timeout(k));
      if k == kind && expiry.Ok? {
        InsertKeepsRefused(t.Of(k), t.principals, principal, s, SessionLabel(k, tokenLabel), expiry.value, e.now, hash);
      }
    case Authenticate(k, s) => AuthenticateKeepsRefused(rows, s, t.Timeout(kind), e.now, hash);
    case RevokeSecret(k, s) => RevokeKeepsRefused(rows, WithHash(rows, SecretHash(s)), e.now, hash);
    case RevokeTokenById(id) => RevokeKeepsRefused(rows, {id}, e.now, hash);
    case RevokePrincipal(p) => RevokeKeepsRefused(rows, OfPrincipal(rows, p), e.now, hash);
    case RevokeManaged => RevokeKeepsRefused(rows, ManagedRows(rows), e.now, hash);
    case PollDevice(_, _, _) =>
      if kind.Token? {
        PollKeepsRefused(t, e, hash);
      }
    case Provision(_, _, _) =>
      if kind.Token? {
        ProvisionKeepsRefused(t, e, hash);
      }
    case _ =>
  }

  lemma {:induction false} RunKeepsRefused(t: Tables, es: seq<Event>, kind: Kind, secret: string)
    requires Refused(t.Of(kind).rows, SecretHash(secret))
    requires forall k :: 0 <= k < |es| ==> NotReissued(es[k].op, kind, secret)
    ensures Refused(Run(t, es).Of(kind).rows, SecretHash(secret))
  {
    if es != [] {
      var n := |es| - 1;
      RunKeepsRefused(t, es[..n], kind, secret);
      StepKeepsRefused(Run(t, es[..n]), es[n], kind, secret);
    }
  }

  lemma RefusedIsRefused(t: Tables, kind: Kind, secret: string, now: Instant)
    requires Refused(t.Of(kind).rows, SecretHash(secret))
    ensures Step(t, Event(now, Authenticate(kind, secret))).reply == Answered(Ok(None))
  {
    var found := Find(t.Of(kind).rows, SecretHash(secret));
    var id: int := if found.Some? then found.value else 0;
    assert found.Some? ==> id in t.Of(kind).rows;
  }

  lemma CoveredIsRevoked(t: Tables, e: Event, kind: Kind, id: int)
    requires id in t.Of(kind).rows && Covers(e.op, kind, t.Of(kind).rows[id], id)
    ensures
      var after := Step(t, e).tables.Of(kind).rows;
      after.Keys == t.Of(kind).rows.Keys && after[id].revokedAt.Some? && forall k :: k in after ==>
        after[k].hash == t.Of(kind).rows[k].hash
  {
  }

  /**
   A credential that a revocation covers, by secret, id, principal or label, is refused in every later
   state of every run in which its secret is not issued or provisioned again.
   */
  lemma RevocationIsFinal(t: Tables, start: int, e: Event, es: seq<Event>, kind: Kind, id: int, secret: string,
                          now: Instant)
    requires WellFormed(t, start) && id in t.Of(kind).rows && t.Of(kind).rows[id].hash == SecretHash(secret)
    requires Covers(e.op, kind, t.Of(kind).rows[id], id)
    requires forall k :: 0 <= k < |es| ==> NotReissued(es[k].op, kind, secret)
    ensures AnswerAfter(Step(t, e).tables, es, kind, secret, now) == Ok(None)
  {
    CoveredIsRevoked(t, e, kind, id);
    var after := Step(t, e).tables;
    assert forall k :: k in after.Of(kind).rows && after.Of(kind).rows[k].hash == SecretHash(secret) ==> k == id;
    RunKeepsRefused(after, es, kind, secret);
    RefusedIsRefused(Run(after, es), kind, secret, now);
  }
}
