/** Whose credential a secret is, over whole runs: it is let in as the principal that it was last given to. */
module Attribution {
  import opened Base
  import opened Credentials
  import opened AuthTables
  import opened Invariants
  import opened AuthAnswers
  import opened DeviceLogin
  import opened IdleTimeout

  /** The principal that this event gives the secret to. */
  function GivenTo(op: Op, reply: Reply, kind: Kind, secret: string): Option<int> {
    if !Uses(op, reply, kind, secret) then None
    else match op
      case Create(_, principal, _, _) => Some(principal)
      case Provision(principal, _, _) => Some(principal)
      case PollDevice(_, _, _) => Some(reply.polled.value.principal)
      case _ => None
  }

  /** The principal that the secret was last issued, provisioned or delivered to in a run. */
  ghost function Holder(t: Tables, es: seq<Event>, kind: Kind, secret: string): Option<int> {
    if es == [] then None
    else
      var n := |es| - 1;
      var given := GivenTo(es[n].op, ReplyAt(t, es, n), kind, secret);
      if given.Some? then given else Holder(t, es[..n], kind, secret)
  }

  predicate HeldBy(rows: Rows, secret: string, holder: Option<int>) {
    forall id :: id in rows && rows[id].hash == SecretHash(secret) ==> holder == Some(rows[id].principal)
  }

  function HolderAfter(holder: Option<int>, given: Option<int>): Option<int> {
    if given.Some? then given else holder
  }

  lemma CreationKeepsHolder(t: Tables, e: Event, kind: Kind, secret: string, holder: Option<int>)
    requires WellFormed(t, e.now) && e.op.Create? && HeldBy(t.Of(kind).rows, secret, holder)
    ensures HeldBy(Step(t, e).tables.Of(kind).rows, secret,
                   HolderAfter(holder, GivenTo(e.op, Step(t, e).reply, kind, secret)))
  {
    CreationIsExact(t, e);
  }

  lemma ProvisioningKeepsHolder(t: Tables, e: Event, kind: Kind, secret: string, holder: Option<int>)
    requires WellFormed(t, e.now) && e.op.Provision? && HeldBy(t.Of(kind).rows, secret, holder)
    ensures HeldBy(Step(t, e).tables.Of(kind).rows, secret,
                   HolderAfter(holder, GivenTo(e.op, Step(t, e).reply, kind, secret)))
  {
    ProvisioningIsExact(t, e.op.principal, e.op.secret, e.op.tokenLabel, e.now);
  }

  lemma PollKeepsHolder(t: Tables, e: Event, kind: Kind, secret: string, holder: Option<int>)
    requires e.op.PollDevice? && HeldBy(t.Of(kind).rows, secret, holder)
    ensures HeldBy(Step(t, e).tables.Of(kind).rows, secret,
                   HolderAfter(holder, GivenTo(e.op, Step(t, e).reply, kind, secret)))
  {
    PollOnlyDelivers(t, e);
    if Step(t, e).reply.polled.Ok? && Step(t, e).reply.polled.value.Authorized? {
      var principal := DeliveryInserts(t, e);
    }
  }

  lemma UpdateKeepsHolder(t: Tables, e: Event, kind: Kind, secret: string, holder: Option<int>)
    requires WellFormed(t, e.now) && HeldBy(t.Of(kind).rows, secret, holder)
    requires Revocation(e.op) || e.op.Authenticate?
    ensures HeldBy(Step(t, e).tables.Of(kind).rows, secret, holder)
  {
    if e.op.Authenticate? {
      AuthenticationIsExact(t, e.op.kind, e.op.secret, e.now);
    } else {
      RevocationIsExact(t, e);
    }
  }

  lemma StepKeepsHolder(t: Tables, e: Event, kind: Kind, secret: string, holder: Option<int>)
    requires WellFormed(t, e.now) && HeldBy(t.Of(kind).rows, secret, holder)
    ensures HeldBy(Step(t, e).tables.Of(kind).rows, secret,
                   HolderAfter(holder, GivenTo(e.op, Step(t, e).reply, kind, secret)))
  {
    match e.op
    case Create(_, _, _, _) => CreationKeepsHolder(t, e, kind, secret, holder);
    case Provision(_, _, _) => ProvisioningKeepsHolder(t, e, kind, secret, holder);
    case PollDevice(_, _, _) => PollKeepsHolder(t, e, kind, secret, holder);
    case Purge =>
    case StoreOAuth(_, _, _, _) =>
    case ConsumeOAuth(_) =>
    case StartDevice(_, _, _, _, _) =>
    case LookupDevice(_) =>
    case ApproveDevice(_, _) =>
    case _ => UpdateKeepsHolder(t, e, kind, secret, holder);
  }

  lemma {:induction false} RunKeepsHolder(t: Tables, es: seq<Event>, start: int, kind: Kind, secret: string)
    requires WellFormed(t, start) && Clocked(es) && (es != [] ==> start <= es[0].now)
    requires !HashTaken(t.Of(kind).rows, SecretHash(secret))
    ensures HeldBy(Run(t, es).Of(kind).rows, secret, Holder(t, es, kind, secret))
  {
    if es != [] {
      var n := |es| - 1;
      RunKeepsHolder(t, es[..n], start, kind, secret);
      RunKeepsWellFormed(t, es[..n], start);
      WellFormedLater(Run(t, es[..n]), LastTime(es[..n], start), es[n].now);
      StepKeepsHolder(Run(t, es[..n]), es[n], kind, secret, Holder(t, es[..n], kind, secret));
    }
  }

  /** After every run a secret that is let in is let in as the principal that it was last given to. */
  lemma AnsweredAsHolder(t: Tables, es: seq<Event>, start: int, kind: Kind, secret: string, now: Instant)
    requires WellFormed(t, start) && Clocked(es) && (es != [] ==> start <= es[0].now) && LastTime(es, start) <= now
    requires !HashTaken(t.Of(kind).rows, SecretHash(secret))
    ensures
      var answer := AnswerAfter(t, es, kind, secret, now);
      answer.Ok? && answer.value.Some? ==> Holder(t, es, kind, secret) == Some(answer.value.value.principal)
  {
    RunKeepsHolder(t, es, start, kind, secret);
    RunKeepsWellFormed(t, es, start);
    WellFormedLater(Run(t, es), LastTime(es, start), now);
    AnswerNamesItsRow(Run(t, es), kind, secret, now);
  }
}
