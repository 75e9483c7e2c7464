/** The life of one OAuth login transaction, over every interleaving with the rest of the store. */
module OAuthLogin {
  import opened Base
  import opened AuthTables
  import opened Invariants

  /** A stored transaction and the callback that it admits. */
  datatype Login = Login(id: int, state: string, grant: OAuthGrant, expiresAt: int)

  datatype Callback = Callback(now: Instant, answer: Option<OAuthGrant>)

  /** The callbacks of a run that carry this state, in order. */
  ghost function Callbacks(t: Tables, es: seq<Event>, state: string): seq<Callback> {
    if es == [] then []
    else
      var n := |es| - 1;
      var before := Callbacks(t, es[..n], state);
      if es[n].op.ConsumeOAuth? && es[n].op.state == state
      then before + [Callback(es[n].now, ReplyAt(t, es, n).consumed)] else before
  }

  /** The first callback in time gets the transaction; nobody else gets anything. */
  predicate AnsweredOnce(log: seq<Callback>, login: Login) {
    forall k :: 0 <= k < |log| ==>
      log[k].answer == if k == 0 && log[k].now < login.expiresAt then Some(login.grant) else None
  }

  predicate Spent(log: seq<Callback>, login: Login) {
    log != [] && log[0].now < login.expiresAt
  }

  predicate Holds(row: OAuthFlow, login: Login) {
    row.stateHash == SecretHash(login.state) && row.expiresAt == login.expiresAt
    && OAuthGrant(row.codeVerifier, row.nonce, row.returnTo) == login.grant
  }

  predicate LoginOk(oauth: Table<OAuthFlow>, login: Login, now: int, log: seq<Callback>) {
    && login.id < oauth.nextId && login.state != ""
    && (forall k :: k in oauth.rows && oauth.rows[k].stateHash == SecretHash(login.state) ==> k == login.id)
    && (login.id in oauth.rows ==> Holds(oauth.rows[login.id], login) && !Spent(log, login))
    && (now < login.expiresAt && !Spent(log, login) ==> login.id in oauth.rows)
    && AnsweredOnce(log, login)
    && (forall k :: 0 <= k < |log| ==> log[k].now <= now)
  }

  /** No later login draws the same state. */
  predicate NotReused(e: Event, state: string) {
    e.op.StoreOAuth? ==> e.op.state != state
  }

  lemma OtherEvent(before: Table<OAuthFlow>, after: Table<OAuthFlow>, login: Login, now: int, later: int,
                   log: seq<Callback>)
    requires LoginOk(before, login, now, log) && now <= later && before.nextId <= after.nextId
    requires forall k :: k in after.rows && k !in before.rows ==> after.rows[k].stateHash != SecretHash(login.state)
    requires forall k :: k in after.rows && k in before.rows ==> after.rows[k] == before.rows[k]
    requires login.id in after.rows ==> login.id in before.rows
    requires later < login.expiresAt && login.id in before.rows ==> login.id in after.rows
    ensures LoginOk(after, login, later, log)
  {
  }

  lemma OwnCallback(t: Tables, e: Event, login: Login, now: int, log: seq<Callback>)
    requires WellFormed(t, now) && now <= e.now && LoginOk(t.oauth, login, now, log)
    requires e.op.ConsumeOAuth? && e.op.state == login.state
    ensures LoginOk(Step(t, e).tables.oauth, login, e.now, log + [Callback(e.now, Step(t, e).reply.consumed)])
  {
    var rows := t.oauth.rows;
    var hits := StateIds(LiveOAuth(rows, e.now), SecretHash(login.state));
    var longer := log + [Callback(e.now, Step(t, e).reply.consumed)];
    forall id ensures id in hits <==> id == login.id && login.id in rows && rows[login.id].expiresAt > e.now {
    }
    var chosen: int := if hits == {} then login.id else AnyOf(hits);
    assert chosen == login.id;
    assert log != [] ==> log[0].now <= e.now;
    assert hits == {} <==> login.id !in hits by {
      assert hits != {} ==> AnyOf(hits) in hits;
    }
    assert Step(t, e).reply.consumed == if login.id in hits then Some(login.grant) else None;
    forall k | 0 <= k < |longer|
      ensures longer[k].answer == if k == 0 && longer[k].now < login.expiresAt then Some(login.grant) else None
    {
      assert k < |log| ==> longer[k] == log[k];
      assert k == |log| ==> longer[k] == Callback(e.now, Step(t, e).reply.consumed);
    }
  }

  lemma StepKeepsLogin(t: Tables, e: Event, login: Login, now: int, log: seq<Callback>)
    requires WellFormed(t, now) && now <= e.now && LoginOk(t.oauth, login, now, log) && NotReused(e, login.state)
    ensures
      var mine := e.op.ConsumeOAuth? && e.op.state == login.state;
      LoginOk(Step(t, e).tables.oauth, login, e.now,
              if mine then log + [Callback(e.now, Step(t, e).reply.consumed)] else log)
  {
    if e.op.ConsumeOAuth? && e.op.state == login.state {
      OwnCallback(t, e, login, now, log);
    } else {
      OtherEvent(t.oauth, Step(t, e).tables.oauth, login, now, e.now, log);
    }
  }

  /** A transaction stored at the head of a run, with a state that is never used again. */
  ghost predicate Begins(t: Tables, start: int, e: Event, es: seq<Event>, expiresAt: int) {
    && WellFormed(t, start) && start <= e.now && Clocked([e] + es)
    && e.op.StoreOAuth? && Step(t, e).reply == OAuthStored(Ok(expiresAt))
    && forall k :: 0 <= k < |es| ==> NotReused(es[k], e.op.state)
  }

  function LoginOf(t: Tables, e: Event, expiresAt: int): Login
    requires e.op.StoreOAuth?
  {
    Login(t.oauth.nextId, e.op.state, e.op.grant, expiresAt)
  }

  lemma StoredLogin(t: Tables, start: int, e: Event, expiresAt: int)
    requires WellFormed(t, start) && start <= e.now && e.op.StoreOAuth? &&
      Step(t, e).reply == OAuthStored(Ok(expiresAt))
    ensures LoginOk(Step(t, e).tables.oauth, LoginOf(t, e, expiresAt), e.now, [])
  {
    var live := LiveOAuth(t.oauth.rows, e.now);
    forall k | k in live ensures live[k].stateHash != SecretHash(e.op.state) {
      assert k !in StateIds(live, SecretHash(e.op.state));
    }
  }

  lemma {:induction false} RunKeepsLogin(t: Tables, start: int, e: Event, es: seq<Event>, expiresAt: int)
    requires Begins(t, start, e, es, expiresAt)
    ensures
      var after := Step(t, e).tables;
      LoginOk(Run(after, es).oauth, LoginOf(t, e, expiresAt), LastTime(es, e.now), Callbacks(after, es, e.op.state))
    ensures WellFormed(Run(Step(t, e).tables, es), LastTime(es, e.now))
  {
    var after := Step(t, e).tables;
    if es == [] {
      StepKeepsWellFormed(t, e, start);
      StoredLogin(t, start, e, expiresAt);
    } else {
      var n := |es| - 1;
      var all := [e] + es;
      assert all[..n+1] == [e] + es[..n] && all[n+1] == es[n];
      assert all[n].now <= all[n+1].now;
      assert n > 0 ==> all[n] == es[n-1];
      RunKeepsLogin(t, start, e, es[..n], expiresAt);
      var now := LastTime(es[..n], e.now);
      StepKeepsLogin(Run(after, es[..n]), es[n], LoginOf(t, e, expiresAt), now, Callbacks(after, es[..n], e.op.state));
      StepKeepsWellFormed(Run(after, es[..n]), es[n], now);
    }
  }

  /**
   In every run a stored transaction answers exactly one callback: the first one, if it comes before
   the expiry, gets verifier, nonce and target as stored; every other callback gets nothing.
   */
  lemma CallbackIsAnsweredOnce(t: Tables, start: int, e: Event, es: seq<Event>, expiresAt: int)
    requires Begins(t, start, e, es, expiresAt)
    ensures AnsweredOnce(Callbacks(Step(t, e).tables, es, e.op.state), LoginOf(t, e, expiresAt))
  {
    RunKeepsLogin(t, start, e, es, expiresAt);
  }
}
