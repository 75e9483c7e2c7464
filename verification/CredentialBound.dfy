/** "Newest 32": how many credentials a principal can hold, and which ones an issue keeps. */
module CredentialBound {
  import opened Base
  import opened Credentials
  import opened AuthTables
  import opened Invariants

  predicate Within(rows: Rows, principal: int) {
    |Dynamic(rows, principal)| <= MAX_ACTIVE_CREDENTIALS_PER_PRINCIPAL
  }

  /** No principal has more than 32 dynamically issued rows, dead or alive. */
  ghost predicate Bounded(rows: Rows) {
    forall principal :: Within(rows, principal)
  }

  /** After a prune the principal's dynamic rows are exactly its newest active ones. */
  lemma PruneKeepsNewest(rows: Rows, principal: int, now: int)
    ensures Dynamic(Prune(rows, principal, now), principal)
            == Newest(rows, ActiveDynamic(rows, principal, now), MAX_ACTIVE_CREDENTIALS_PER_PRINCIPAL)
  {
    var candidates := ActiveDynamic(rows, principal, now);
    var kept := Newest(rows, candidates, MAX_ACTIVE_CREDENTIALS_PER_PRINCIPAL);
    NewestAreNewest(rows, candidates, MAX_ACTIVE_CREDENTIALS_PER_PRINCIPAL);
    var after := Dynamic(Prune(rows, principal, now), principal);
    forall id ensures id in after <==> id in kept {
      assert id in kept ==> id in candidates;
    }
  }

  predicate SparedBy(rows: Rows, id: int, principal: int, now: int)
    requires id in rows
  {
    rows[id].principal != principal || (Live(rows, id, now) && Managed(rows[id].tokenLabel))
  }

  /** A prune touches no other principal, and no active managed token. */
  lemma PruneSpares(rows: Rows, principal: int, now: int, id: int)
    requires id in rows && SparedBy(rows, id, principal, now)
    ensures id in Prune(rows, principal, now) && Prune(rows, principal, now)[id] == rows[id]
  {
  }

  lemma PruneSparesDynamic(rows: Rows, principal: int, now: int, other: int)
    requires other != principal
    ensures Dynamic(Prune(rows, principal, now), other) == Dynamic(rows, other)
  {
    var after := Dynamic(Prune(rows, principal, now), other);
    forall id ensures id in after <==> id in Dynamic(rows, other) {
    }
  }

  lemma InsertBounded(t: Table<Credential>, principals: set<int>, principal: int, secret: string,
                      tokenLabel: Option<string>,
                      expiresAt: int, now: int)
    requires Bounded(t.rows) && t.nextId !in t.rows
    ensures Bounded(InsertAndPrune(t, principals, principal, secret, tokenLabel, expiresAt, now).0.rows)
  {
    if principal in principals && !HashTaken(t.rows, SecretHash(secret)) {
      var rows := t.rows[t.nextId := NewRow(principal, secret, tokenLabel, now, expiresAt)];
      forall p ensures Within(Prune(rows, principal, now), p) {
        if p == principal {
          PruneKeepsNewest(rows, principal, now);
          NewestAreNewest(rows, ActiveDynamic(rows, principal, now), MAX_ACTIVE_CREDENTIALS_PER_PRINCIPAL);
        } else {
          PruneSparesDynamic(rows, principal, now, p);
          assert Dynamic(rows, p) == Dynamic(t.rows, p);
          assert Within(t.rows, p);
        }
      }
    }
  }

  /** Statements that add no dynamic row cannot break the bound. */
  lemma NoNewDynamic(before: Rows, after: Rows)
    requires Bounded(before)
    requires forall id :: id in after && !Managed(after[id].tokenLabel) ==>
      id in before && !Managed(before[id].tokenLabel) && before[id].principal == after[id].principal
    ensures Bounded(after)
  {
    forall p ensures Within(after, p) {
      assert Within(before, p);
      var small, large := Dynamic(after, p), Dynamic(before, p);
      forall id | id in small ensures id in large {
      }
      SubsetCard(small, large);
    }
  }

  ghost predicate TablesBounded(t: Tables) {
    Bounded(t.sessions.rows) && Bounded(t.tokens.rows)
  }

  /** Static tokens carry the labels reserved for the configuration. */
  predicate ManagedProvisioning(op: Op) {
    op.Provision? ==> Managed(op.tokenLabel)
  }

  lemma PollBounded(t: Tables, e: Event, now: int)
    requires TablesBounded(t) && WellFormed(t, now) && e.op.PollDevice?
    ensures TablesBounded(Step(t, e).tables)
  {
    var found := FlowOf(t.devices.rows, SecretHash(e.op.deviceCode));
    var expiry := ExpiryFrom(e.now, t.tokenTimeout);
    if found.Some? && expiry.Ok? {
      var row := t.devices.rows[found.value];
      if row.approvedPrincipal.Some? {
        InsertBounded(t.tokens, t.principals, row.approvedPrincipal.value, e.op.secret, e.op.tokenLabel, expiry.value,
                      e.now);
      }
    }
  }

  lemma RevokeBounded(rows: Rows, ids: set<int>, now: int)
    requires Bounded(rows)
    ensures Bounded(RevokeRows(rows, ids, now))
  {
    NoNewDynamic(rows, RevokeRows(rows, ids, now));
  }

  lemma AuthenticateBounded(rows: Rows, secret: string, timeout: nat, now: Instant)
    requires Bounded(rows)
    ensures Bounded(AuthenticateCredential(rows, secret, timeout, now).0)
  {
    var found := Find(rows, SecretHash(secret));
    if found.Some? {
      var id: int := found.value;
      assert id in rows;
    }
    NoNewDynamic(rows, AuthenticateCredential(rows, secret, timeout, now).0);
  }

  lemma ProvisionBounded(t: Table<Credential>, principals: set<int>, principal: int, secret: string,
                         tokenLabel: Option<string>,
                         timeout: nat, now: Instant)
    requires Bounded(t.rows) && Managed(tokenLabel)
    ensures Bounded(ProvisionToken(t, principals, principal, secret, tokenLabel, timeout, now).0.rows)
  {
    NoNewDynamic(t.rows, ProvisionToken(t, principals, principal, secret, tokenLabel, timeout, now).0.rows);
  }

  lemma StepBounded(t: Tables, e: Event, now: int)
    requires TablesBounded(t) && WellFormed(t, now) && ManagedProvisioning(e.op)
    ensures TablesBounded(Step(t, e).tables)
  {
    match e.op
    case Create(kind, principal, tokenLabel, secret) =>
      var expiry := ExpiryFrom(e.now, t.Timeout(kind));
      if expiry.Ok? {
        InsertBounded(t.Of(kind), t.principals, principal, secret, SessionLabel(kind, tokenLabel), expiry.value, e.now);
      }
    case Authenticate(kind, secret) => AuthenticateBounded(t.Of(kind).rows, secret, t.Timeout(kind), e.now);
    case RevokeSecret(kind, secret) =>
      RevokeBounded(t.Of(kind).rows, WithHash(t.Of(kind).rows, SecretHash(secret)), e.now);
    case RevokeTokenById(id) => RevokeBounded(t.tokens.rows, {id}, e.now);
    case RevokePrincipal(p) =>
      RevokeBounded(t.sessions.rows, OfPrincipal(t.sessions.rows, p), e.now);
      RevokeBounded(t.tokens.rows, OfPrincipal(t.tokens.rows, p), e.now);
    case RevokeManaged => RevokeBounded(t.tokens.rows, ManagedRows(t.tokens.rows), e.now);
    case Provision(principal, secret, tokenLabel) =>
      ProvisionBounded(t.tokens, t.principals, principal, secret, tokenLabel, t.tokenTimeout, e.now);
    case Purge =>
      NoNewDynamic(t.sessions.rows, PurgeRows(t.sessions.rows, e.now));
      NoNewDynamic(t.tokens.rows, PurgeRows(t.tokens.rows, e.now));
    case PollDevice(_, _, _) => PollBounded(t, e, now);
    case _ =>
  }

  /** Every reachable state holds at most 32 sessions and 32 dynamic tokens of each principal. */
  lemma {:induction false} EveryStateIsBounded(t: Tables, es: seq<Event>, start: int)
    requires WellFormed(t, start) && TablesBounded(t) && Clocked(es) && (es != [] ==> start <= es[0].now)
    requires forall k :: 0 <= k < |es| ==> ManagedProvisioning(es[k].op)
    ensures TablesBounded(Run(t, es))
  {
    if es != [] {
      var n := |es| - 1;
      EveryStateIsBounded(t, es[..n], start);
      RunKeepsWellFormed(t, es[..n], start);
      StepBounded(Run(t, es[..n]), es[n], if n == 0 then start else es[n-1].now);
    }
  }

  lemma NewestHasTop(rows: Rows, ids: set<int>, k: nat, top: int)
    requires ids <= rows.Keys && k > 0 && IsNewest(rows, ids, top)
    ensures top in Newest(rows, ids, k)
  {
    var first := NewestOf(rows, ids);
    assert first != top ==> Newer(rows, first, top);
  }

  /**
   Issuing a credential keeps the new row and exactly the newest active dynamic rows beside it:
   what survives is active, is as many as the limit allows, and is newer than anything active that went.
   */
  lemma IssueKeepsNewest(t: Table<Credential>, principals: set<int>, principal: int, secret: string,
                         tokenLabel: Option<string>,
                         expiresAt: int, now: int)
    requires CredentialsOk(t, now) && expiresAt > now
    requires InsertAndPrune(t, principals, principal, secret, tokenLabel, expiresAt, now).1.Ok?
    ensures
      var rows := t.rows[t.nextId := NewRow(principal, secret, tokenLabel, now, expiresAt)];
      var after := InsertAndPrune(t, principals, principal, secret, tokenLabel, expiresAt, now).0.rows;
      var candidates, kept := ActiveDynamic(rows, principal, now), Dynamic(after, principal);
      && t.nextId in after && after[t.nextId] == rows[t.nextId]
      && kept <= candidates
      && |kept| == (if |candidates| < MAX_ACTIVE_CREDENTIALS_PER_PRINCIPAL then |candidates|
                    else MAX_ACTIVE_CREDENTIALS_PER_PRINCIPAL)
      && (forall a, b :: a in kept && b in candidates - kept ==> Newer(rows, a, b))
      && (forall id :: id in t.rows && SparedBy(t.rows, id, principal, now) ==> id in after && after[id] == t.rows[id])
  {
    var rows := t.rows[t.nextId := NewRow(principal, secret, tokenLabel, now, expiresAt)];
    var after := Prune(rows, principal, now);
    var candidates := ActiveDynamic(rows, principal, now);
    PruneKeepsNewest(rows, principal, now);
    NewestAreNewest(rows, candidates, MAX_ACTIVE_CREDENTIALS_PER_PRINCIPAL);
    var kept := Newest(rows, candidates, MAX_ACTIVE_CREDENTIALS_PER_PRINCIPAL);
    if Managed(tokenLabel) {
      PruneSpares(rows, principal, now, t.nextId);
    } else {
      NewestHasTop(rows, candidates, MAX_ACTIVE_CREDENTIALS_PER_PRINCIPAL, t.nextId);
      assert t.nextId in kept;
    }
    forall id | id in t.rows && SparedBy(t.rows, id, principal, now)
      ensures id in after && after[id] == t.rows[id]
    {
      PruneSpares(rows, principal, now, id);
    }
  }

  /** The active dynamic rows of a principal that are newer than this one. */
  function NewerThanRow(rows: Rows, principal: int, now: int, id: int): set<int>
    requires id in rows
  {
    set other | other in rows && rows[other].principal == principal && !Managed(rows[other].tokenLabel)
                && Live(rows, other, now) && Newer(rows, other, id)
  }

  lemma NewestByCount(rows: Rows, principal: int, now: int, id: int, k: nat)
    requires id in ActiveDynamic(rows, principal, now)
    ensures id in Newest(rows, ActiveDynamic(rows, principal, now), k) <==>
      |NewerThanRow(rows, principal, now, id)| < k
  {
    var ids, newer := ActiveDynamic(rows, principal, now), NewerThanRow(rows, principal, now, id);
    NewestAreNewest(rows, ids, k);
    var kept := Newest(rows, ids, k);
    if id in kept {
      forall other | other in newer ensures other in kept - {id} {
        assert other in ids;
        assert other in ids - kept ==> Newer(rows, id, other);
      }
      SubsetCard(newer, kept - {id});
    } else {
      if |kept| == |ids| {
        SameCard(kept, ids);
      }
      forall other | other in kept ensures other in newer {
        assert other in ids && id in ids - kept;
      }
      SubsetCard(kept, newer);
    }
  }

  /**
   A prune deletes the dead rows of the principal, and of its active rows exactly the dynamic ones that have 32
   newer ones.
   */
  lemma PruneIsExact(rows: Rows, principal: int, now: int, id: int)
    requires id in rows
    ensures
      var after := Prune(rows, principal, now);
      && (id in after ==> after[id] == rows[id])
      && (id in after <==>
            || rows[id].principal != principal
            || (Live(rows, id, now)
                && (Managed(rows[id].tokenLabel)
                    || |NewerThanRow(rows, principal, now, id)| < MAX_ACTIVE_CREDENTIALS_PER_PRINCIPAL)))
  {
    if id in ActiveDynamic(rows, principal, now) {
      NewestByCount(rows, principal, now, id, MAX_ACTIVE_CREDENTIALS_PER_PRINCIPAL);
    }
  }
}
