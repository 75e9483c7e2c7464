/**
 The life of one device code, over every interleaving with the rest of the store:
 what its polls can answer, how they are paced, and whose approval they deliver.
 */
module DeviceLogin {
  import opened Base
  import opened Credentials
  import opened AuthTables
  import opened Invariants
  import opened AuthAnswers

  /** A started login: its row, its codes, its client, and its two times. */
  datatype Login = Login(
    id: int,
    deviceCode: string,
    userCode: string,
    clientName: string,
    expiresAt: int,
    interval: int)

  datatype Logged = Logged(now: Instant, reply: DevicePoll)

  /** The answered polls of a code, in order. A poll that fails with an error rolls back and is not answered. */
  ghost function PollLog(t: Tables, es: seq<Event>, deviceCode: string): seq<Logged> {
    if es == [] then []
    else
      var n := |es| - 1;
      var before := PollLog(t, es[..n], deviceCode);
      var reply := ReplyAt(t, es, n);
      if es[n].op.PollDevice? && es[n].op.deviceCode == deviceCode && reply.polled.Ok?
      then before + [Logged(es[n].now, reply.polled.value)] else before
  }

  /** The principals of the successful approvals typed for a user code before a time. */
  ghost function Approvals(t: Tables, es: seq<Event>, userCode: string, until: int): seq<int> {
    if es == [] then []
    else
      var n := |es| - 1;
      var before := Approvals(t, es[..n], userCode, until);
      if es[n].op.ApproveDevice? && NormalizeUserCode(es[n].op.userCode) == userCode && es[n].now < until
         && ReplyAt(t, es, n) == Approved(Ok(true))
      then before + [es[n].op.principal] else before
  }

  /** Has a poll before entry `k` delivered the token? */
  predicate DeliveredBefore(log: seq<Logged>, k: int) {
    exists i :: 0 <= i < k && i < |log| && log[i].reply.Authorized?
  }

  predicate Waiting(reply: DevicePoll) {
    reply.Pending? || reply.SlowDown?
  }

  function LastPoll(log: seq<Logged>): Option<int> {
    if log == [] then None else Some(log[|log|-1].now)
  }

  /** What entry `k` may be, given the entries before it. */
  predicate EntryOk(log: seq<Logged>, k: int, login: Login)
    requires 0 <= k < |log|
  {
    var reply, now := log[k].reply, log[k].now;
    && (k > 0 ==> log[k-1].now <= now)
    && (reply.Expired? <==> now >= login.expiresAt)
    && (reply.Consumed? ==> DeliveredBefore(log, k))
    && (DeliveredBefore(log, k) ==> reply.Consumed? || reply.Expired?)
    && (Waiting(reply) || reply.Authorized? ==>
          (reply.SlowDown? <==> k > 0 && now < SaturatingAdd(log[k-1].now, login.interval)))
  }

  /** Everything the log of one login is claimed to satisfy. */
  predicate LogOk(log: seq<Logged>, login: Login) {
    forall k :: 0 <= k < |log| ==> EntryOk(log, k, login)
  }

  predicate ApprovalOk(log: seq<Logged>, approvals: seq<int>) {
    |approvals| <= 1 && forall k :: 0 <= k < |log| && log[k].reply.Authorized? ==> approvals == [log[k].reply.principal]
  }

  /** The row of a login agrees with what its clients have seen. */
  predicate RowOk(row: DeviceFlow, login: Login, log: seq<Logged>, approvals: seq<int>) {
    && row.codeHash == SecretHash(login.deviceCode) && row.userCode == login.userCode
    && row.clientName == login.clientName
    && row.expiresAt == login.expiresAt && row.pollInterval == login.interval
    && (row.deliveredAt.Some? <==> DeliveredBefore(log, |log|))
    && (row.deliveredAt.None? ==> row.lastPolledAt == LastPoll(log))
    && approvals == (if row.approvedPrincipal.None? then [] else [row.approvedPrincipal.value])
  }

  predicate LoginOk(devices: Table<DeviceFlow>, login: Login, now: int, log: seq<Logged>, approvals: seq<int>) {
    && login.id < devices.nextId
    && (forall k :: k in devices.rows && devices.rows[k].codeHash == SecretHash(login.deviceCode) ==> k == login.id)
    && (now < login.expiresAt ==> login.id in devices.rows)
    && (login.id in devices.rows ==> RowOk(devices.rows[login.id], login, log, approvals))
    && LogOk(log, login) && ApprovalOk(log, approvals)
    && (log != [] ==> log[|log|-1].now <= now)
  }

  /** No later login draws the same device code. */
  predicate NotRedrawn(e: Event, deviceCode: string) {
    e.op.StartDevice? ==> forall k :: 0 <= k < |e.op.draws| ==> e.op.draws[k].deviceCode != deviceCode
  }

  lemma DeliveredPrefix(log: seq<Logged>, entry: Logged, k: int)
    requires k <= |log|
    ensures DeliveredBefore(log + [entry], k) <==> DeliveredBefore(log, k)
  {
    if DeliveredBefore(log, k) {
      var i :| 0 <= i < k && i < |log| && log[i].reply.Authorized?;
      assert (log + [entry])[i].reply.Authorized?;
    }
  }

  lemma LogExtends(log: seq<Logged>, login: Login, entry: Logged)
    requires LogOk(log, login)
    requires EntryOk(log + [entry], |log|, login)
    ensures LogOk(log + [entry], login)
    ensures DeliveredBefore(log + [entry], |log| + 1) <==> DeliveredBefore(log, |log|) || entry.reply.Authorized?
  {
    var longer := log + [entry];
    forall k | 0 <= k < |longer| ensures EntryOk(longer, k, login) {
      if k < |log| {
        assert EntryOk(log, k, login);
        DeliveredPrefix(log, entry, k);
      }
    }
    DeliveredPrefix(log, entry, |log|);
    if entry.reply.Authorized? {
      assert longer[|log|].reply.Authorized?;
    }
    if DeliveredBefore(longer, |log| + 1) && !entry.reply.Authorized? {
      var i :| 0 <= i < |log| + 1 && i < |longer| && longer[i].reply.Authorized?;
      assert i < |log|;
    }
  }

  /** Statements on other flows, and on other tables, leave the login as it is. */
  lemma OtherEvent(before: Table<DeviceFlow>, after: Table<DeviceFlow>, login: Login, now: int, later: int,
                   log: seq<Logged>, approvals: seq<int>)
    requires LoginOk(before, login, now, log, approvals) && now <= later && before.nextId <= after.nextId
    requires forall k :: k in after.rows && k !in before.rows ==> after.rows[k].codeHash != SecretHash(login.deviceCode)
    requires forall k :: k in after.rows && k in before.rows ==> after.rows[k].codeHash == before.rows[k].codeHash
    requires login.id in after.rows ==> login.id in before.rows && after.rows[login.id] == before.rows[login.id]
    requires later < login.expiresAt && login.id in before.rows ==> login.id in after.rows
    ensures LoginOk(after, login, later, log, approvals)
  {
  }

  lemma StartKeepsLogin(t: Tables, e: Event, login: Login, now: int, log: seq<Logged>, approvals: seq<int>)
    requires WellFormed(t, now) && now <= e.now && e.op.StartDevice? && NotRedrawn(e, login.deviceCode)
    requires LoginOk(t.devices, login, now, log, approvals)
    ensures LoginOk(Step(t, e).tables.devices, login, e.now, log, approvals)
  {
    var free := FirstFree(LiveDevices(t.devices.rows, e.now), e.op.draws);
    assert free.Some? ==> free.value.deviceCode != login.deviceCode;
    OtherEvent(t.devices, Step(t, e).tables.devices, login, now, e.now, log, approvals);
  }

  lemma ApproveKeepsLogin(t: Tables, e: Event, login: Login, now: int, log: seq<Logged>, approvals: seq<int>)
    requires WellFormed(t, now) && now <= e.now && e.op.ApproveDevice?
    requires LoginOk(t.devices, login, now, log, approvals)
    ensures
      var mine := NormalizeUserCode(e.op.userCode) == login.userCode && e.now < login.expiresAt &&
        Step(t, e).reply == Approved(Ok(true));
      LoginOk(Step(t, e).tables.devices, login, e.now, log, if mine then approvals + [e.op.principal] else approvals)
  {
    var rows, code := t.devices.rows, NormalizeUserCode(e.op.userCode);
    var hits := Approvable(rows, code, e.now);
    if code == login.userCode && e.now < login.expiresAt {
      if rows[login.id].approvedPrincipal.None? && rows[login.id].deliveredAt.None? {
        assert forall k :: k in hits <==> k == login.id;
        assert hits == {login.id};
      } else {
        assert forall k :: k in rows && rows[k].userCode == code ==> k == login.id;
        assert hits == {};
      }
    } else {
      assert login.id !in hits;
    }
  }

  lemma PollKeepsLogin(t: Tables, e: Event, login: Login, now: int, log: seq<Logged>, approvals: seq<int>)
    requires WellFormed(t, now) && now <= e.now && e.op.PollDevice? && login.deviceCode != ""
    requires LoginOk(t.devices, login, now, log, approvals)
    ensures
      var reply := Step(t, e).reply.polled;
      LoginOk(Step(t, e).tables.devices, login, e.now,
              if e.op.deviceCode == login.deviceCode && reply.Ok? then log + [Logged(e.now, reply.value)] else log,
              approvals)
  {
    var rows := t.devices.rows;
    var found := FlowOf(rows, SecretHash(e.op.deviceCode));
    if e.op.deviceCode != login.deviceCode {
      if found.Some? {
        var id: int := found.value;
        assert id != login.id;
      }
      OtherEvent(t.devices, Step(t, e).tables.devices, login, now, e.now, log, approvals);
    } else {
      OwnPollKeepsLogin(t, e, login, now, log, approvals);
    }
  }

  lemma OwnPollKeepsLogin(t: Tables, e: Event, login: Login, now: int, log: seq<Logged>, approvals: seq<int>)
    requires WellFormed(t, now) && now <= e.now && e.op.PollDevice? && login.deviceCode != ""
    requires LoginOk(t.devices, login, now, log, approvals) && e.op.deviceCode == login.deviceCode
    ensures
      var reply := Step(t, e).reply.polled;
      LoginOk(Step(t, e).tables.devices, login, e.now,
              if reply.Ok? then log + [Logged(e.now, reply.value)] else log, approvals)
  {
    var rows := t.devices.rows;
    var found := FlowOf(rows, SecretHash(e.op.deviceCode));
    if login.id in rows {
      assert found.Some? && found.value == login.id;
      assert RowOk(rows[login.id], login, log, approvals);
    }
    var reply := Step(t, e).reply.polled;
    if reply.Ok? {
      DeliveredPrefix(log, Logged(e.now, reply.value), |log|);
      LogExtends(log, login, Logged(e.now, reply.value));
    }
  }

  lemma PollOnlyDelivers(t: Tables, e: Event)
    requires e.op.PollDevice?
    ensures Step(t, e).tables.sessions == t.sessions
    ensures !(Step(t, e).reply.polled.Ok? && Step(t, e).reply.polled.value.Authorized?) ==>
      Step(t, e).tables.tokens == t.tokens
  {
  }

  /** What an authorized poll did to the token table. */
  lemma DeliveryInserts(t: Tables, e: Event) returns (principal: int)
    requires e.op.PollDevice?
    requires Step(t, e).reply.polled.Ok? && Step(t, e).reply.polled.value.Authorized?
    ensures principal == Step(t, e).reply.polled.value.principal && ExpiryFrom(e.now, t.tokenTimeout).Ok?
    ensures
      var inserted := InsertAndPrune(t.tokens, t.principals, principal, e.op.secret, e.op.tokenLabel,
                                     e.now + t.tokenTimeout, e.now);
      inserted.1.Ok? && Step(t, e).tables.tokens == inserted.0 &&
        inserted.1.value == Step(t, e).reply.polled.value.credential
  {
    var id: int := FlowOf(t.devices.rows, SecretHash(e.op.deviceCode)).value;
    principal := t.devices.rows[id].approvedPrincipal.value;
  }

  /** The login that a successful start creates. */
  function LoginOf(t: Tables, e: Event, auth: Authorization): Login
    requires e.op.StartDevice?
  {
    Login(t.devices.nextId, auth.deviceCode, auth.userCode, auth.clientName, auth.expiresAt, e.op.interval)
  }

  /** A start that succeeded at the head of a run, with a code that is never drawn again. */
  ghost predicate Begins(t: Tables, start: int, e: Event, es: seq<Event>, auth: Authorization) {
    && WellFormed(t, start) && start <= e.now && Clocked([e] + es)
    && e.op.StartDevice? && Step(t, e).reply == Started(Ok(auth)) && auth.deviceCode != ""
    && forall k :: 0 <= k < |es| ==> NotRedrawn(es[k], auth.deviceCode)
  }

  lemma StartedLogin(t: Tables, start: int, e: Event, auth: Authorization)
    requires WellFormed(t, start) && start <= e.now && e.op.StartDevice? && Step(t, e).reply == Started(Ok(auth))
    ensures LoginOk(Step(t, e).tables.devices, LoginOf(t, e, auth), e.now, [], [])
  {
  }

  lemma StepKeepsLogin(t: Tables, e: Event, login: Login, now: int, log: seq<Logged>, approvals: seq<int>)
    requires WellFormed(t, now) && now <= e.now && NotRedrawn(e, login.deviceCode) && login.deviceCode != ""
    requires LoginOk(t.devices, login, now, log, approvals)
    ensures
      var reply := Step(t, e).reply;
      var answered := e.op.PollDevice? && e.op.deviceCode == login.deviceCode && reply.polled.Ok?;
      var approved := e.op.ApproveDevice? && NormalizeUserCode(e.op.userCode) == login.userCode &&
        e.now < login.expiresAt
                      && reply == Approved(Ok(true));
      LoginOk(Step(t, e).tables.devices, login, e.now,
              if answered then log + [Logged(e.now, reply.polled.value)] else log,
              if approved then approvals + [e.op.principal] else approvals)
  {
    match e.op
    case StartDevice(_, _, _, _, _) => StartKeepsLogin(t, e, login, now, log, approvals);
    case ApproveDevice(_, _) => ApproveKeepsLogin(t, e, login, now, log, approvals);
    case PollDevice(_, _, _) => PollKeepsLogin(t, e, login, now, log, approvals);
    case _ => OtherEvent(t.devices, Step(t, e).tables.devices, login, now, e.now, log, approvals);
  }

  lemma {:induction false} RunKeepsLogin(t: Tables, start: int, e: Event, es: seq<Event>, auth: Authorization)
    requires Begins(t, start, e, es, auth)
    ensures
      var after := Step(t, e).tables;
      LoginOk(Run(after, es).devices, LoginOf(t, e, auth), LastTime(es, e.now),
              PollLog(after, es, auth.deviceCode), Approvals(after, es, auth.userCode, auth.expiresAt))
    ensures WellFormed(Run(Step(t, e).tables, es), LastTime(es, e.now))
  {
    var after := Step(t, e).tables;
    if es == [] {
      StepKeepsWellFormed(t, e, start);
      StartedLogin(t, start, e, auth);
    } else {
      var n := |es| - 1;
      var all := [e] + es;
      assert all[..n+1] == [e] + es[..n] && all[n+1] == es[n];
      assert all[n].now <= all[n+1].now;
      assert n > 0 ==> all[n] == es[n-1];
      RunKeepsLogin(t, start, e, es[..n], auth);
      var now := LastTime(es[..n], e.now);
      assert now <= es[n].now;
      StepKeepsLogin(Run(after, es[..n]), es[n], LoginOf(t, e, auth), now,
                     PollLog(after, es[..n], auth.deviceCode),
                     Approvals(after, es[..n], auth.userCode, auth.expiresAt));
      StepKeepsWellFormed(Run(after, es[..n]), es[n], now);
    }
  }

  /** (Pending | SlowDown)* (Authorized Consumed*)? Expired* */
  predicate IsDeviceWord(log: seq<Logged>, i: nat, j: nat) {
    && i <= j <= |log|
    && (forall k :: 0 <= k < i ==> Waiting(log[k].reply))
    && (i < j ==> log[i].reply.Authorized?)
    && (forall k :: i < k < j ==> log[k].reply.Consumed?)
    && (forall k :: j <= k < |log| ==> log[k].reply.Expired?)
  }

  lemma {:induction false} LogIsWord(log: seq<Logged>, login: Login) returns (i: nat, j: nat)
    requires LogOk(log, login)
    ensures IsDeviceWord(log, i, j)
  {
    i, j := 0, 0;
    if log != [] {
      var n := |log| - 1;
      assert log[..n] + [log[n]] == log;
      forall k | 0 <= k < n ensures EntryOk(log[..n], k, login) {
        assert EntryOk(log, k, login);
        DeliveredPrefix(log[..n], log[n], k);
      }
      i, j := LogIsWord(log[..n], login);
      assert EntryOk(log, n, login);
      assert n > 0 ==> EntryOk(log, n - 1, login);
      DeliveredPrefix(log[..n], log[n], n);
      if log[n].reply.Expired? {
      } else {
        if i < n {
          assert log[..n][i].reply.Authorized?;
          j := n + 1;
        } else if log[n].reply.Authorized? {
          j := n + 1;
        } else {
          assert !DeliveredBefore(log, n);
          i, j := n + 1, n + 1;
        }
      }
    }
  }

  /**
   Every run: the answers for one device code form a word of the grammar, and the one
   delivery carries the principal of the only approval, which was made before the expiry.
   */
  lemma DeviceLoginWord(t: Tables, start: int, e: Event, es: seq<Event>, auth: Authorization) returns (i: nat, j: nat)
    requires Begins(t, start, e, es, auth)
    ensures
      var log := PollLog(Step(t, e).tables, es, auth.deviceCode);
      var approvals := Approvals(Step(t, e).tables, es, auth.userCode, auth.expiresAt);
      && IsDeviceWord(log, i, j)
      && |approvals| <= 1
      && (i < j ==> approvals == [log[i].reply.principal] && log[i].now < auth.expiresAt)
      && (forall k :: 0 <= k < |log| ==> (log[k].reply.Expired? <==> log[k].now >= auth.expiresAt))
  {
    RunKeepsLogin(t, start, e, es, auth);
    var log := PollLog(Step(t, e).tables, es, auth.deviceCode);
    i, j := LogIsWord(log, LoginOf(t, e, auth));
    forall k | 0 <= k < |log| ensures log[k].reply.Expired? <==> log[k].now >= auth.expiresAt {
      assert EntryOk(log, k, LoginOf(t, e, auth));
    }
  }

  // ----- every answer, from what the run has shown before -----

  lemma BeginsPrefix(t: Tables, start: int, e: Event, es: seq<Event>, auth: Authorization, k: nat)
    requires Begins(t, start, e, es, auth) && k < |es|
    ensures Begins(t, start, e, es[..k], auth) && LastTime(es[..k], e.now) <= es[k].now
  {
    var all, part := [e] + es, [e] + es[..k];
    assert forall i :: 0 <= i < |part| ==> part[i] == all[i];
    assert all[k+1] == es[k] && all[k].now <= all[k+1].now;
    assert k > 0 ==> all[k] == es[k-1];
  }

  lemma {:induction false} RunKeepsPrincipals(t: Tables, es: seq<Event>)
    ensures Run(t, es).principals == t.principals && Run(t, es).tokenTimeout == t.tokenTimeout
  {
    if es != [] {
      RunKeepsPrincipals(t, es[..|es|-1]);
    }
  }

  lemma {:induction false} ApproversExist(t: Tables, es: seq<Event>, userCode: string, until: int)
    ensures forall k :: 0 <= k < |Approvals(t, es, userCode, until)| ==>
      Approvals(t, es, userCode, until)[k] in t.principals
  {
    if es != [] {
      var n := |es| - 1;
      ApproversExist(t, es[..n], userCode, until);
      RunKeepsPrincipals(t, es[..n]);
    }
  }

  /** A token can be issued now: its lifetime fits, and its secret is new. */
  predicate Issuable(t: Tables, secret: string, now: int) {
    Fits(now, t.tokenTimeout) && Unused(t.tokens.rows, secret)
  }

  /**
   What a poll answers, given the answers and the approvals before it: it is let through unless it comes too
   soon, and once the login is approved, and until it is delivered, such a poll delivers. It fails only if
   the token cannot be issued.
   */
  predicate PollAnswers(reply: Result<DevicePoll>, log: seq<Logged>, approvals: seq<int>, login: Login, issued: Issued,
                        issuable: bool, now: int) {
    if now >= login.expiresAt then reply == Ok(Expired)
    else if DeliveredBefore(log, |log|) then reply == Ok(Consumed)
    else if log != [] && now < SaturatingAdd(log[|log|-1].now, login.interval) then reply == Ok(SlowDown)
    else if approvals == [] then reply == Ok(Pending)
    else if issuable then reply == Ok(Authorized(approvals[0], issued))
    else reply.Err?
  }

  ghost predicate AnsweredAs(t: Tables, poll: Event, login: Login, log: seq<Logged>, approvals: seq<int>)
    requires poll.op.PollDevice?
  {
    PollAnswers(Step(t, poll).reply.polled, log, approvals, login,
                Issued(t.tokens.nextId, poll.op.secret, poll.now + t.tokenTimeout),
                Issuable(t, poll.op.secret, poll.now), poll.now)
  }

  lemma OwnPollAnswer(t: Tables, e: Event, login: Login, now: int, log: seq<Logged>, approvals: seq<int>)
    requires WellFormed(t, now) && now <= e.now && e.op.PollDevice? && login.deviceCode != ""
    requires LoginOk(t.devices, login, now, log, approvals) && e.op.deviceCode == login.deviceCode
    requires forall k :: 0 <= k < |approvals| ==> approvals[k] in t.principals
    ensures AnsweredAs(t, e, login, log, approvals)
  {
    var rows := t.devices.rows;
    var found := FlowOf(rows, SecretHash(e.op.deviceCode));
    if login.id in rows {
      assert found.Some? && found.value == login.id;
      assert RowOk(rows[login.id], login, log, approvals);
    }
  }

  lemma PollAnswersAfter(t: Tables, es: seq<Event>, poll: Event, login: Login, now: int)
    requires WellFormed(Run(t, es), now) && now <= poll.now && login.deviceCode != ""
    requires poll.op.PollDevice? && poll.op.deviceCode == login.deviceCode
    requires LoginOk(Run(t, es).devices, login, now, PollLog(t, es, login.deviceCode),
                     Approvals(t, es, login.userCode, login.expiresAt))
    ensures AnsweredByHistory(t, es, poll, login)
  {
    RunKeepsPrincipals(t, es);
    ApproversExist(t, es, login.userCode, login.expiresAt);
    OwnPollAnswer(Run(t, es), poll, login, now, PollLog(t, es, login.deviceCode),
                  Approvals(t, es, login.userCode, login.expiresAt));
  }

  /** The poll after this run is answered as the run says. */
  ghost predicate AnsweredByHistory(t: Tables, es: seq<Event>, poll: Event, login: Login)
    requires poll.op.PollDevice?
  {
    AnsweredAs(Run(t, es), poll, login, PollLog(t, es, login.deviceCode),
               Approvals(t, es, login.userCode, login.expiresAt))
  }

  /** In every run each poll of the code is answered exactly as its history says. */
  lemma PollIsAnsweredByHistory(t: Tables, start: int, e: Event, es: seq<Event>, auth: Authorization, k: nat)
    requires Begins(t, start, e, es, auth) && k < |es|
    requires es[k].op.PollDevice? && es[k].op.deviceCode == auth.deviceCode
    ensures AnsweredByHistory(Step(t, e).tables, es[..k], es[k], LoginOf(t, e, auth))
  {
    BeginsPrefix(t, start, e, es, auth, k);
    RunKeepsLogin(t, start, e, es[..k], auth);
    PollAnswersAfter(Step(t, e).tables, es[..k], es[k], LoginOf(t, e, auth), LastTime(es[..k], e.now));
  }

  lemma OwnApprovalAnswer(t: Tables, e: Event, login: Login, now: int, log: seq<Logged>, approvals: seq<int>)
    requires WellFormed(t, now) && now <= e.now < login.expiresAt && e.op.ApproveDevice?
    requires LoginOk(t.devices, login, now, log, approvals) && NormalizeUserCode(e.op.userCode) == login.userCode
    ensures Step(t, e).reply.approved ==
      if approvals != [] then Ok(false) else if e.op.principal in t.principals then Ok(true) else Err(Database)
  {
    ApprovalIsExact(t, e.op.userCode, e.op.principal, e.now);
    var rows := t.devices.rows;
    assert RowOk(rows[login.id], login, log, approvals);
    if approvals == [] {
      assert !DeliveredBefore(log, |log|);
      assert IsApprovable(rows, login.id, login.userCode, e.now);
    } else {
      forall id | id in rows ensures !IsApprovable(rows, id, login.userCode, e.now) {
        assert rows[id].userCode == login.userCode ==> ShareCode(rows[id], rows[login.id]);
      }
    }
  }

  /** In every run, before the expiry, the first approval of the code by a principal succeeds, and no other. */
  lemma ApprovalIsAnsweredByHistory(t: Tables, start: int, e: Event, es: seq<Event>, auth: Authorization, k: nat)
    requires Begins(t, start, e, es, auth) && k < |es| && es[k].now < auth.expiresAt
    requires es[k].op.ApproveDevice? && NormalizeUserCode(es[k].op.userCode) == auth.userCode
    ensures
      var after := Step(t, e).tables;
      ReplyAt(after, es, k).approved ==
        if Approvals(after, es[..k], auth.userCode, auth.expiresAt) != [] then Ok(false)
        else if es[k].op.principal in t.principals then Ok(true) else Err(Database)
  {
    var after := Step(t, e).tables;
    BeginsPrefix(t, start, e, es, auth, k);
    RunKeepsLogin(t, start, e, es[..k], auth);
    RunKeepsPrincipals(after, es[..k]);
    OwnApprovalAnswer(Run(after, es[..k]), es[k], LoginOf(t, e, auth), LastTime(es[..k], e.now),
                      PollLog(after, es[..k], auth.deviceCode),
                      Approvals(after, es[..k], auth.userCode, auth.expiresAt));
  }

  lemma OwnLookupAnswer(t: Tables, e: Event, login: Login, now: int, log: seq<Logged>, approvals: seq<int>)
    requires WellFormed(t, now) && now <= e.now < login.expiresAt && e.op.LookupDevice?
    requires LoginOk(t.devices, login, now, log, approvals) && NormalizeUserCode(e.op.userCode) == login.userCode
    ensures Step(t, e).reply.client == if DeliveredBefore(log, |log|) then None else Some(login.clientName)
  {
    LookupIsExact(t, e.op.userCode, e.now);
    var rows := t.devices.rows;
    assert RowOk(rows[login.id], login, log, approvals);
    if DeliveredBefore(log, |log|) {
      forall id | id in rows ensures !IsOpen(rows, id, login.userCode, e.now) {
        assert rows[id].userCode == login.userCode ==> ShareCode(rows[id], rows[login.id]);
      }
    } else {
      assert IsOpen(rows, login.id, login.userCode, e.now);
    }
  }

  /** In every run looking up the code shows the client that started the login, until the delivery or the expiry. */
  lemma LookupIsAnsweredByHistory(t: Tables, start: int, e: Event, es: seq<Event>, auth: Authorization, k: nat)
    requires Begins(t, start, e, es, auth) && k < |es| && es[k].now < auth.expiresAt
    requires es[k].op.LookupDevice? && NormalizeUserCode(es[k].op.userCode) == auth.userCode
    ensures
      var after := Step(t, e).tables;
      var log := PollLog(after, es[..k], auth.deviceCode);
      ReplyAt(after, es, k).client == if DeliveredBefore(log, |log|) then None else Some(e.op.clientName)
  {
    var after := Step(t, e).tables;
    BeginsPrefix(t, start, e, es, auth, k);
    RunKeepsLogin(t, start, e, es[..k], auth);
    OwnLookupAnswer(Run(after, es[..k]), es[k], LoginOf(t, e, auth), LastTime(es[..k], e.now),
                    PollLog(after, es[..k], auth.deviceCode),
                    Approvals(after, es[..k], auth.userCode, auth.expiresAt));
  }

  // ----- pacing -----

  lemma {:induction false} TimesGrow(log: seq<Logged>, login: Login, i: nat, j: nat)
    requires LogOk(log, login) && i <= j < |log|
    ensures log[i].now <= log[j].now
    decreases j
  {
    if i < j {
      TimesGrow(log, login, i, j - 1);
      assert EntryOk(log, j, login);
    }
  }

  predicate LetThrough(reply: DevicePoll) {
    reply.Pending? || reply.Authorized?
  }

  predicate Hasty(log: seq<Logged>, k: int, interval: int) {
    0 < k < |log| && log[k].now < SaturatingAdd(log[k-1].now, interval)
  }

  /**
   Polls that are let through are at least the interval apart. SlowDown is exactly the answer to a
   poll that follows the previous one too soon: a client that always waits never gets it, and one
   that never waits gets nothing else after its first poll, until the delivery or the expiry.
   */
  predicate Paced(log: seq<Logged>, interval: int) {
    && (forall i, j :: 0 <= i < j < |log| && LetThrough(log[i].reply) && LetThrough(log[j].reply) ==>
          log[j].now >= SaturatingAdd(log[i].now, interval))
    && (forall k :: 0 <= k < |log| && log[k].reply.SlowDown? ==> Hasty(log, k, interval))
    && (forall k :: 0 <= k < |log| && Hasty(log, k, interval) ==>
          log[k].reply.SlowDown? || log[k].reply.Consumed? || log[k].reply.Expired?)
    && ((forall k :: 0 < k < |log| ==> Hasty(log, k, interval)) && log != [] && !log[0].reply.Authorized? ==>
          forall k :: 0 < k < |log| ==> log[k].reply.SlowDown? || log[k].reply.Expired?)
  }

  lemma LogIsPaced(log: seq<Logged>, login: Login)
    requires LogOk(log, login)
    ensures Paced(log, login.interval)
  {
    forall i, j | 0 <= i < j < |log| && LetThrough(log[i].reply) && LetThrough(log[j].reply)
      ensures log[j].now >= SaturatingAdd(log[i].now, login.interval)
    {
      assert EntryOk(log, j, login);
      TimesGrow(log, login, i, j - 1);
    }
    forall k | 0 <= k < |log|
      ensures log[k].reply.SlowDown? ==> Hasty(log, k, login.interval)
      ensures Hasty(log, k, login.interval) ==>
        log[k].reply.SlowDown? || log[k].reply.Consumed? || log[k].reply.Expired?
    {
      assert EntryOk(log, k, login);
    }
    if (forall k :: 0 < k < |log| ==> Hasty(log, k, login.interval)) && log != [] && !log[0].reply.Authorized? {
      forall k | 0 < k < |log| ensures !log[k].reply.Consumed? {
        assert forall i :: 0 < i < k ==> Hasty(log, i, login.interval);
        assert EntryOk(log, k, login) && !DeliveredBefore(log, k);
      }
    }
  }

  lemma DevicePollsArePaced(t: Tables, start: int, e: Event, es: seq<Event>, auth: Authorization)
    requires Begins(t, start, e, es, auth)
    ensures Paced(PollLog(Step(t, e).tables, es, auth.deviceCode), e.op.interval)
  {
    RunKeepsLogin(t, start, e, es, auth);
    LogIsPaced(PollLog(Step(t, e).tables, es, auth.deviceCode), LoginOf(t, e, auth));
  }

  // ----- user codes -----

  predicate UpperAlphanumeric(s: string) {
    forall k :: 0 <= k < |s| ==> '0' <= s[k] <= '9' || 'A' <= s[k] <= 'Z'
  }

  function Kept(c: char): string {
    if AsciiAlphanumeric(c) then [Upper(c)] else ""
  }

  lemma Reassociate(a: string, b: string, c: string)
    ensures a + (b + c) == (a + b) + c
  {
  }

  lemma CompactFirst(s: string)
    requires s != ""
    ensures Compact(s) == Kept(s[0]) + Compact(s[1..])
  {
  }

  lemma {:induction false} CompactConcat(a: string, b: string)
    ensures Compact(a + b) == Compact(a) + Compact(b)
  {
    if a == "" {
      assert a + b == b;
    } else {
      CompactConcat(a[1..], b);
      assert (a + b)[1..] == a[1..] + b && (a + b)[0] == a[0];
      CompactFirst(a + b);
      CompactFirst(a);
      Reassociate(Kept(a[0]), Compact(a[1..]), Compact(b));
    }
  }

  lemma {:induction false} CompactUpper(s: string)
    requires UpperAlphanumeric(s)
    ensures Compact(s) == s
  {
    if s != "" {
      CompactUpper(s[1..]);
    }
  }

  /** A displayed code XXXX-XXXX is its own normal form, and so is whatever has the same letters and digits. */
  lemma DisplayedCodeIsNormal(a: string, b: string, typed: string)
    requires |a| == |b| == 4 && UpperAlphanumeric(a) && UpperAlphanumeric(b)
    ensures NormalizeUserCode(a + "-" + b) == a + "-" + b
    ensures NormalizeUserCode(typed) == a + "-" + b <==> Compact(typed) == a + b
  {
    CompactOfDisplayed(a, b);
    CompactLetters(typed);
    Hyphenation(Compact(typed), a, b);
    Hyphenation(a + b, a, b);
  }

  lemma CompactOfDisplayed(a: string, b: string)
    requires UpperAlphanumeric(a) && UpperAlphanumeric(b)
    ensures Compact(a + "-" + b) == a + b
  {
    CompactConcat(a + "-", b);
    CompactConcat(a, "-");
    CompactUpper(a);
    CompactUpper(b);
    CompactOfOneHyphen();
  }

  /** Hyphenated in the middle, eight letters and digits are the two halves of a displayed code. */
  lemma Hyphenation(c: string, a: string, b: string)
    requires |a| == |b| == 4 && UpperAlphanumeric(c)
    ensures (if |c| == 8 then c[..4] + "-" + c[4..] else c) == a + "-" + b <==> c == a + b
  {
    if |c| == 8 {
      HalvesAgree(c[..4], c[4..], a, b);
      assert c == c[..4] + c[4..];
      assert c == a + b ==> c[..4] == a && c[4..] == b;
    } else {
      assert (a + "-" + b)[4] == '-';
    }
  }

  lemma HalvesAgree(c: string, d: string, a: string, b: string)
    requires |a| == |c| == 4
    ensures c + "-" + d == a + "-" + b <==> c == a && d == b
  {
    var x, y := c + "-" + d, a + "-" + b;
    assert x[..4] == c && y[..4] == a && x[5..] == d && y[5..] == b;
  }

  lemma CompactOfOneHyphen()
    ensures Compact("-") == ""
  {
    assert Compact("-") == "" + Compact("-"[1..]);
  }

  lemma {:induction false} CompactLetters(s: string)
    ensures UpperAlphanumeric(Compact(s))
  {
    if s != "" {
      CompactLetters(s[1..]);
    }
  }
}
