/**
 The gateway's submission path: the authenticating interceptor, the limiter keyed on the identity it
 installs, validation, the idempotency guard and the publish, in that order.
 */
module Gateway {
  import opened Common
  import A = AuthCache
  import R = RateLimiter
  import I = Idempotency

  datatype Config = Config(apiKeyHeader: string, identityHeader: string, limiter: R.Config, store: I.Config)

  /** gRPC metadata; header names are in their lower-case form. */
  type Metadata = map<string, seq<string>>

  datatype Context = Context(client: Option<string>, metadata: Option<Metadata>, peer: Option<string>)

  datatype Code = Unauthenticated | AuthUnavailable | ResourceExhausted | InvalidArgument | Internal

  // ---------------------------------------------------------------------------------------
  // Who is calling
  // ---------------------------------------------------------------------------------------

  /** The full name of a method: a service, which has no slash, and a method of it. */
  function MethodOf(service: string, name: string): string {
    "/" + service + "/" + name
  }

  const HEALTH_PREFIX := "/grpc.health.v1.Health/"
  const ADMIN_PREFIX := "/sentinel.gateway.v1.AdminService/"

  const HEALTH := "grpc.health.v1.Health"
  const ADMIN := "sentinel.gateway.v1.AdminService"
  const GATEWAY := "sentinel.gateway.v1.GatewayService"
  const SUBMIT := MethodOf(GATEWAY, "SubmitTransaction")

  datatype Gate = Forwarded(ctx: Context) | Refused(code: Code)

  /** The first value of a header, unless it is missing or empty. */
  function Header(md: Metadata, name: string): Option<string> {
    if name in md && md[name] != [] && md[name][0] != "" then Some(md[name][0]) else None
  }

  predicate Exempt(rpc: string) {
    HEALTH_PREFIX <= rpc || ADMIN_PREFIX <= rpc
  }

  lemma SlashAfter(service: string, name: string)
    ensures var full := MethodOf(service, name);
      full[0] == '/' && full[|service| + 1] == '/' && full[1..|service| + 1] == service
  {
  }

  /** A prefix that ends at the service's slash picks out that service alone. */
  lemma PrefixIsService(own: string, service: string, name: string)
    requires '/' !in own && '/' !in service
    ensures MethodOf(own, "") <= MethodOf(service, name) <==> own == service
  {
    var prefix, full := MethodOf(own, ""), MethodOf(service, name);
    SlashAfter(own, "");
    SlashAfter(service, name);
    assert |own| < |service| ==> full[|own| + 1] == service[|own|] && service[|own|] in service;
    assert |service| < |own| ==> prefix[|service| + 1] == own[|service|] && own[|service|] in own;
    if prefix <= full {
      assert |own| == |service|;
      assert full[1..|own| + 1] == prefix[1..|own| + 1];
    }
  }

  lemma ServiceNames()
    ensures '/' !in HEALTH && '/' !in ADMIN && '/' !in GATEWAY && ADMIN != GATEWAY && HEALTH != GATEWAY
  {
    assert ADMIN[20] == 'A' && GATEWAY[20] == 'G' && HEALTH[0] == 'g' && GATEWAY[0] == 's';
  }

  lemma HealthPrefix()
    ensures HEALTH_PREFIX == MethodOf(HEALTH, "")
  {
  }

  lemma AdminPrefix()
    ensures ADMIN_PREFIX == MethodOf(ADMIN, "")
  {
  }

  /** The services that need no key are the health check and the admin service, by their whole names. */
  lemma ExemptExactly(service: string, name: string)
    requires '/' !in service
    ensures Exempt(MethodOf(service, name)) <==> service == HEALTH || service == ADMIN
  {
    ServiceNames();
    HealthPrefix();
    AdminPrefix();
    PrefixIsService(HEALTH, service, name);
    PrefixIsService(ADMIN, service, name);
  }

  lemma NotExempt()
    ensures !Exempt(SUBMIT)
  {
    ServiceNames();
    ExemptExactly(GATEWAY, "SubmitTransaction");
  }

  /** The key that a call which needs one presents. */
  function Presented(c: Config, rpc: string, ctx: Context): Option<string> {
    if Exempt(rpc) || ctx.metadata == None then None else Header(ctx.metadata.value, c.apiKeyHeader)
  }

  /** Only a verified client goes on, under its own id in place of whatever the identity header said. */
  function Identify(c: Config, ctx: Context, md: Metadata, outcome: A.Outcome): Gate {
    match outcome
    case NotFound => Refused(Unauthenticated)
    case Unavailable => Refused(AuthUnavailable)
    case Found(id) => Forwarded(ctx.(client := Some(id), metadata := Some(md[c.identityHeader := [id]])))
  }

  /** The interceptor; `lookup` is what the cached registry answers to each key. */
  function Intercept(c: Config, rpc: string, ctx: Context, lookup: string -> A.Outcome): Gate {
    if Exempt(rpc) then Forwarded(ctx)
    else if Presented(c, rpc, ctx) == None then Refused(Unauthenticated)
    else Identify(c, ctx, ctx.metadata.value, lookup(Presented(c, rpc, ctx).value))
  }

  /** The limiter's key: the identity header, else the peer's address, else one shared name. */
  function ClientKey(c: Config, ctx: Context): string {
    if ctx.metadata.Some? && Header(ctx.metadata.value, c.identityHeader).Some?
    then Header(ctx.metadata.value, c.identityHeader).value
    else if ctx.peer.Some? then ctx.peer.value
    else "unknown"
  }

  /** The call bears no key: no metadata, no such header, no value in it, or an empty first value. */
  predicate Keyless(c: Config, ctx: Context) {
    ctx.metadata.Some? ==>
      var md := ctx.metadata.value;
      c.apiKeyHeader !in md || |md[c.apiKeyHeader]| == 0 || md[c.apiKeyHeader][0] == ""
  }

  /** The exempt services are reached by any call, unchanged; every other service by no call without a key. */
  lemma KeyNeededExactly(c: Config, service: string, name: string, ctx: Context, lookup: string -> A.Outcome)
    requires '/' !in service
    ensures var gate := Intercept(c, MethodOf(service, name), ctx, lookup);
      if service == HEALTH || service == ADMIN then gate == Forwarded(ctx)
      else Keyless(c, ctx) ==> gate == Refused(Unauthenticated)
    ensures service != HEALTH && service != ADMIN && !Keyless(c, ctx) ==>
      Presented(c, MethodOf(service, name), ctx) == Some(ctx.metadata.value[c.apiKeyHeader][0])
  {
    ExemptExactly(service, name);
  }

  /** The call bears no usable identity header. */
  predicate Anonymous(c: Config, ctx: Context) {
    ctx.metadata == None || Header(ctx.metadata.value, c.identityHeader) == None
  }

  /** Calls without an identity share a bucket exactly when they come from the same peer, where none is one named "unknown". */
  lemma AnonymousBucketsExactly(c: Config, a: Context, b: Context)
    requires Anonymous(c, a) && Anonymous(c, b)
    ensures ClientKey(c, a) == ClientKey(c, b) <==> a.peer == b.peer || {a.peer, b.peer} == {None, Some("unknown")}
  {
    assert {a.peer, b.peer} == {None, Some("unknown")} <==>
      (a.peer == None && b.peer == Some("unknown")) || (a.peer == Some("unknown") && b.peer == None);
  }

  /** The interleaved lookups, expiry and registry changes behind the answers that the interceptor gets. */
  datatype Life = Life(ttl: int, now: int, registry: A.Registry, steps: seq<A.Step>, delay: nat, hash: string -> string)

  /** In the life of the cache, within the staleness bound of the time, the registry held this row for the key. */
  ghost predicate HeldFor(life: Life, key: string, row: Option<A.Client>, at: int) {
    A.Held(life.ttl, A.Start(life.now, life.registry), life.steps, life.hash(key), row, at - life.ttl - life.delay, at)
  }

  predicate SaneLife(life: Life) {
    life.ttl > 0 && A.Prompt(life.ttl, A.Start(life.now, life.registry), life.steps, life.delay)
  }

  /** The answer to the key was given at this time in that life. */
  predicate AnsweredAt(life: Life, key: string, outcome: A.Outcome, at: int) {
    A.Answer(life.hash(key), outcome, at) in A.Run(life.ttl, A.Start(life.now, life.registry), life.steps).answers
  }

  /**
   Over interleaved lookups, expiry and registry changes: a call that needs a key goes on only under the id of a
   client that was active in the registry under that key within the staleness bound; it is turned away as
   unauthenticated only without a key, or if within that bound the registry had no active row that can be
   cached; and otherwise authentication was unavailable.
   */
  lemma ForwardedWasActive(c: Config, rpc: string, ctx: Context, lookup: string -> A.Outcome, life: Life, at: int)
    requires !Exempt(rpc) && SaneLife(life)
    requires var key := Presented(c, rpc, ctx); key.Some? ==> AnsweredAt(life, key.value, lookup(key.value), at)
    ensures var key := Presented(c, rpc, ctx);
      match Intercept(c, rpc, ctx, lookup)
      case Forwarded(out) =>
        key.Some? && out.client.Some? && HeldFor(life, key.value, Some(A.Client(out.client.value, "active")), at)
      case Refused(code) =>
        || (code == Unauthenticated && key == None)
        || (code == Unauthenticated && exists row ::
              HeldFor(life, key.value, row, at) && (row.None? || row.value.status != "active" || '|' in row.value.id))
        || (code == AuthUnavailable && key.Some? && lookup(key.value) == A.Unavailable)
  {
    var key := Presented(c, rpc, ctx);
    if key.Some? {
      var a := A.Answer(life.hash(key.value), lookup(key.value), at);
      A.BoundedStaleness(life.ttl, life.now, life.registry, life.steps, life.delay, a);
      if a.outcome.NotFound? {
        var row :| A.Held(life.ttl, A.Start(life.now, life.registry), life.steps, a.hash, row, a.at - life.ttl - life.delay, a.at)
          && (row.None? || row.value.status != "active" || '|' in row.value.id);
        assert HeldFor(life, key.value, row, at);
      }
    }
  }

  /** Whatever the caller writes into the identity header, the handler and the limiter see the same call. */
  lemma IdentityNotForgeable(c: Config, rpc: string, ctx: Context, lookup: string -> A.Outcome, forged: seq<string>)
    requires !Exempt(rpc) && ctx.metadata.Some? && c.identityHeader != c.apiKeyHeader
    ensures var md := ctx.metadata.value;
      var liar := ctx.(metadata := Some(md[c.identityHeader := forged]));
      Intercept(c, rpc, liar, lookup) == Intercept(c, rpc, ctx, lookup)
    ensures var gate := Intercept(c, rpc, ctx, lookup);
      gate.Forwarded? ==>
        && gate.ctx.client == Some(lookup(Presented(c, rpc, ctx).value).id)
        && (gate.ctx.client.value != "" ==> ClientKey(c, gate.ctx) == gate.ctx.client.value)
  {
    var md := ctx.metadata.value;
    var liar := md[c.identityHeader := forged];
    assert Header(liar, c.apiKeyHeader) == Header(md, c.apiKeyHeader);
    assert forall id: string :: liar[c.identityHeader := [id]] == md[c.identityHeader := [id]];
  }

  // ---------------------------------------------------------------------------------------
  // SubmitTransaction
  // ---------------------------------------------------------------------------------------

  /** A submission, and how the parties it depends on behave while it is handled. */
  datatype Call = Call(
    ctx: Context, lookup: string -> A.Outcome, key: string, valid: bool, txn: string,
    at: real, checkedAt: int, rereadAt: int, wrote: Reply, reread: Reply, sent: Reply)

  /** A rejection, the acknowledgement of an earlier transaction, or an acknowledgement. */
  datatype Response = Rejected(code: Code) | AlreadyExists(original: string) | Accepted(txn: string)

  datatype State = State(limits: R.Entries, keys: I.Keys, published: seq<I.Event>)

  const START := State(map[], map[], [])

  /** Steps 4 to 6: the idempotency guard and the publish. */
  function Record(c: Config, g: State, client: string, call: Call): (State, Response) {
    var (keys, verdict) := I.CheckAlone(c.store, g.keys, call.key, call.txn, call.checkedAt, call.rereadAt, call.wrote, call.reread);
    match verdict
    case StoreError => (g.(keys := keys), Rejected(Internal))
    case Duplicate(original) => (g.(keys := keys), AlreadyExists(original))
    case Fresh =>
      var published := if call.sent == Lost then g.published else g.published + [I.Event(call.txn, client)];
      (g.(keys := keys, published := published), if call.sent == Answered then Accepted(call.txn) else Rejected(Internal))
  }

  function Submit(c: Config, g: State, ctx: Context, call: Call): (State, Response) {
    if ctx.client == None || ctx.client.value == "" then (g, Rejected(Internal))
    else
      var (limits, ok) := R.Admit(c.limiter, g.limits, ClientKey(c, ctx), call.at);
      if !ok then (g.(limits := limits), Rejected(ResourceExhausted))
      else if !call.valid then (g.(limits := limits), Rejected(InvalidArgument))
      else Record(c, g.(limits := limits), ctx.client.value, call)
  }

  /** The interceptor and then the handler. */
  function Serve(c: Config, g: State, call: Call): (State, Response) {
    match Intercept(c, SUBMIT, call.ctx, call.lookup)
    case Refused(code) => (g, Rejected(code))
    case Forwarded(ctx) => Submit(c, g, ctx, call)
  }

  /** The verified caller, if there is one with a usable id. */
  function Caller(c: Config, call: Call): Option<string> {
    var gate := Intercept(c, SUBMIT, call.ctx, call.lookup);
    if gate.Forwarded? && gate.ctx.client.Some? && gate.ctx.client.value != "" then gate.ctx.client else None
  }

  lemma CallerKey(c: Config, call: Call)
    requires Caller(c, call).Some?
    ensures var gate := Intercept(c, SUBMIT, call.ctx, call.lookup); ClientKey(c, gate.ctx) == Caller(c, call).value
  {
    NotExempt();
  }

  /** What each answer says about the log and the key store, and about who was billed. */
  lemma AnswersAccount(c: Config, g: State, call: Call)
    ensures var (after, r) := Serve(c, g, call); var caller := Caller(c, call);
      && (r.Accepted? ==> caller.Some? && after.published == g.published + [I.Event(call.txn, caller.value)] && r.txn == call.txn)
      && (after.published != g.published && call.sent == Answered ==> r.Accepted?)
      && (r.Rejected? && r.code != Internal ==> after.keys == g.keys && after.published == g.published)
      && (r.AlreadyExists? ==> after.published == g.published)
      && (after.limits != g.limits ==> caller.Some? && forall k :: k != caller.value ==> (k in after.limits <==> k in g.limits))
      && (forall k :: k in g.limits && Some(k) != caller ==> k in after.limits && after.limits[k] == g.limits[k])
  {
    if Caller(c, call).Some? {
      CallerKey(c, call);
    } else {
      NotExempt();
    }
  }

  /** Without a verified caller nothing is billed, checked or published; a verified but empty id is an internal error. */
  lemma UnverifiedTurnedAway(c: Config, g: State, call: Call)
    requires Caller(c, call) == None
    ensures var (after, r) := Serve(c, g, call);
      && after == g
      && match Intercept(c, SUBMIT, call.ctx, call.lookup)
         case Refused(code) => r == Rejected(code) && code in {Unauthenticated, AuthUnavailable}
         case Forwarded(_) => r == Rejected(Internal)
  {
    NotExempt();
  }

  /**
   A verified caller is billed one token whatever it sends.  It is turned away for want of a token first, for an
   invalid submission next, and then without a trace in the keys or on the log; only otherwise does the guard run.
   */
  lemma InvalidTurnedAway(c: Config, g: State, call: Call)
    requires Caller(c, call).Some?
    ensures var (after, r) := Serve(c, g, call); var id := Caller(c, call).value;
      var (limits, ok) := R.Admit(c.limiter, g.limits, id, call.at);
      && after.limits == limits
      && (r == Rejected(ResourceExhausted) <==> !ok)
      && (r == Rejected(InvalidArgument) <==> ok && !call.valid)
      && (!ok || !call.valid ==> after.keys == g.keys && after.published == g.published)
      && (ok && call.valid ==> (after, r) == Record(c, g.(limits := limits), id, call))
  {
    CallerKey(c, call);
  }

  // ---------------------------------------------------------------------------------------
  // The guard inside the handler is the interleaved protocol
  // ---------------------------------------------------------------------------------------

  function AckOf(sub: I.Submission, r: Response, claimed: bool, at: int, written: bool): I.Ack {
    match r
    case Accepted(_) => I.Accepted(sub, claimed, at)
    case AlreadyExists(original) => I.AlreadyExists(sub, original, at)
    case Rejected(_) => I.Failed(sub, written)
  }

  /** The guard's three steps of one submission: SETNX, the wait, the read-back. */
  function Guarded(c: Config, s: I.System, req: nat, sub: I.Submission, call: Call): I.System
    requires call.checkedAt <= call.rereadAt
  {
    var checked := I.Next(c.store, s, I.Check(req, sub, call.wrote));
    I.Next(c.store, I.Next(c.store, checked, I.Tick(call.rereadAt - call.checkedAt)), I.ReadBack(req, call.reread))
  }

  /** The SETNX of this submission created the key, and said so. */
  predicate ClaimedKey(s: I.System, call: Call) {
    call.wrote == Answered && I.Get(s.keys, call.key, s.now) == None
  }

  lemma GuardedIsChecked(c: Config, s: I.System, req: nat, sub: I.Submission, call: Call)
    requires req !in s.running && call.checkedAt == s.now <= call.rereadAt && sub.key == call.key && sub.txn == call.txn
    ensures var (keys, verdict) :=
              I.CheckAlone(c.store, s.keys, call.key, call.txn, s.now, call.rereadAt, call.wrote, call.reread);
      var t := Guarded(c, s, req, sub, call);
      && t.keys == keys && t.published == s.published && t.now == call.rereadAt
      && match verdict
         case Fresh => t.running == s.running[req := I.Admitted(sub, ClaimedKey(s, call))] && t.acks == s.acks
         case StoreError => t.running == s.running && t.acks == s.acks + [I.Failed(sub, false)]
         case Duplicate(o) => t.running == s.running && t.acks == s.acks + [I.AlreadyExists(sub, o, t.now)]
  {
    var checked := I.Next(c.store, s, I.Check(req, sub, call.wrote));
    if call.wrote == Answered && !ClaimedKey(s, call) {
      var waited := I.Next(c.store, checked, I.Tick(call.rereadAt - call.checkedAt));
      assert waited.running == s.running[req := I.Collided(sub)] && waited.keys == s.keys;
      assert waited.running - {req} == s.running;
    } else if call.wrote != Answered && !c.store.allowOnError {
      assert checked.running == s.running;
    }
  }

  lemma PublishEnds(c: Config, s: I.System, req: nat, sub: I.Submission, claimed: bool, rest: map<nat, I.Phase>, sent: Reply)
    requires req !in rest && s.running == rest[req := I.Admitted(sub, claimed)]
    ensures var t := I.Next(c.store, s, I.Publish(req, sent));
      && t.keys == s.keys && t.running == rest
      && t.published == (if sent == Lost then s.published else s.published + [I.Event(sub.txn, sub.client)])
      && t.acks == s.acks + [if sent == Answered then I.Accepted(sub, claimed, s.now) else I.Failed(sub, sent == Unanswered)]
  {
    assert s.running - {req} == rest;
  }

  /**
   Steps 4 to 6 of one handler are a run of the interleaved guard, so what holds of every interleaving
   of that protocol holds of the handler's keys, events and answers.
   */
  lemma SubmissionIsARun(c: Config, s: I.System, g: State, client: string, call: Call, req: nat)
    requires req !in s.running && call.checkedAt == s.now <= call.rereadAt
    requires g.keys == s.keys && g.published == s.published
    ensures var sub := I.Submission(call.key, client, call.txn);
      var t := I.Next(c.store, Guarded(c, s, req, sub, call), I.Publish(req, call.sent));
      var (after, r) := Record(c, g, client, call);
      && t.keys == after.keys && t.published == after.published && t.running == s.running
      && t.acks == s.acks + [AckOf(sub, r, ClaimedKey(s, call), call.rereadAt, after.published != g.published)]
  {
    var sub := I.Submission(call.key, client, call.txn);
    var t := Guarded(c, s, req, sub, call);
    GuardedIsChecked(c, s, req, sub, call);
    if req in t.running {
      PublishEnds(c, t, req, sub, ClaimedKey(s, call), s.running, call.sent);
    }
  }

  // ---------------------------------------------------------------------------------------
  // Runs, and the bound on each caller
  // ---------------------------------------------------------------------------------------

  /** Calls in the order in which they reach the limiter, and ticks of its cleanup loop. */
  datatype Op = Submission(call: Call) | Cleanup(tick: real)

  function At(op: Op): real {
    match op
    case Submission(call) => call.at
    case Cleanup(tick) => tick
  }

  function Next(c: Config, g: State, op: Op): State {
    match op
    case Submission(call) => Serve(c, g, call).0
    case Cleanup(tick) => g.(limits := R.Evict(g.limits, tick))
  }

  function Run(c: Config, g: State, ops: seq<Op>): State {
    if ops == [] then g else Next(c, Run(c, g, ops[..|ops| - 1]), ops[|ops| - 1])
  }

  /** The op is a call by this verified client that was not turned away by the limiter. */
  predicate Passes(c: Config, g: State, op: Op, client: string) {
    op.Submission? && Caller(c, op.call) == Some(client) && Serve(c, g, op.call).1 != Rejected(ResourceExhausted)
  }

  function Passed(c: Config, g: State, ops: seq<Op>, client: string): nat {
    if ops == [] then 0
    else
      var init := ops[..|ops| - 1];
      if Passes(c, Run(c, g, init), ops[|ops| - 1], client) then Passed(c, g, init, client) + 1 else Passed(c, g, init, client)
  }

  /** What the limiter sees of a run: requests under verified ids only. */
  function LimiterOps(c: Config, ops: seq<Op>): seq<R.Op> {
    if ops == [] then []
    else
      var before := LimiterOps(c, ops[..|ops| - 1]);
      match ops[|ops| - 1]
      case Cleanup(tick) => before + [R.Cleanup(tick)]
      case Submission(call) =>
        if Caller(c, call) == None then before else before + [R.Request(call.at, Caller(c, call).value)]
  }

  lemma ServeLimits(c: Config, g: State, call: Call)
    ensures var (after, r) := Serve(c, g, call);
      match Caller(c, call)
      case None => after.limits == g.limits && r != Rejected(ResourceExhausted)
      case Some(id) =>
        (after.limits, r != Rejected(ResourceExhausted)) == R.Admit(c.limiter, g.limits, id, call.at)
  {
    if Caller(c, call).Some? {
      CallerKey(c, call);
    } else {
      NotExempt();
    }
  }

  /** The entries, and the requests of the client granted, of the limiter alone on the calls it sees. */
  function SeenBy(c: Config, g: State, ops: seq<Op>, client: string): (R.Entries, nat) {
    var (entries, answers) := R.Run(c.limiter, g.limits, LimiterOps(c, ops), true);
    (entries, R.Granted(LimiterOps(c, ops), answers, client))
  }

  lemma SeenCleanup(c: Config, g: State, init: seq<Op>, tick: real, client: string)
    ensures var (entries, granted) := SeenBy(c, g, init, client);
      SeenBy(c, g, init + [Cleanup(tick)], client) == (R.Evict(entries, tick), granted)
  {
    var seen := LimiterOps(c, init);
    assert (init + [Cleanup(tick)])[..|init|] == init;
    R.RunSnoc(c.limiter, g.limits, seen, R.Cleanup(tick), true);
    assert (seen + [R.Cleanup(tick)])[..|seen|] == seen;
  }

  lemma SeenCall(c: Config, g: State, init: seq<Op>, call: Call, client: string)
    ensures var (entries, granted) := SeenBy(c, g, init, client);
      SeenBy(c, g, init + [Submission(call)], client) ==
      match Caller(c, call)
      case None => (entries, granted)
      case Some(id) =>
        var (after, ok) := R.Admit(c.limiter, entries, id, call.at);
        (after, if id == client && ok then granted + 1 else granted)
  {
    var seen := LimiterOps(c, init);
    assert (init + [Submission(call)])[..|init|] == init;
    if Caller(c, call).Some? {
      var request := R.Request(call.at, Caller(c, call).value);
      var (entries, answers) := R.Run(c.limiter, g.limits, seen, true);
      R.RunSnoc(c.limiter, g.limits, seen, request, true);
      R.GrantedSnoc(seen, answers, request, R.Admit(c.limiter, entries, request.key, call.at).1, client);
    }
  }

  lemma {:induction false} RunLimits(c: Config, g: State, ops: seq<Op>, client: string)
    ensures (Run(c, g, ops).limits, Passed(c, g, ops, client)) == SeenBy(c, g, ops, client)
  {
    if ops != [] {
      var init, op := ops[..|ops| - 1], ops[|ops| - 1];
      RunLimits(c, g, init, client);
      assert ops == init + [op];
      match op
      case Cleanup(tick) => SeenCleanup(c, g, init, tick, client);
      case Submission(call) =>
        ServeLimits(c, Run(c, g, init), call);
        SeenCall(c, g, init, call, client);
    }
  }

  predicate Ordered(ops: seq<Op>) {
    forall i, j :: 0 <= i < j < |ops| ==> At(ops[i]) <= At(ops[j])
  }

  predicate Within(ops: seq<Op>, from: real, to: real) {
    forall i :: 0 <= i < |ops| ==> from <= At(ops[i]) <= to
  }

  /** A stretch of a run: everything before it happened by `from`, and it lasts until `to`. */
  predicate Stretch(before: seq<Op>, during: seq<Op>, from: real, to: real) {
    && Ordered(before) && Ordered(during) && from <= to && Within(during, from, to)
    && forall i :: 0 <= i < |before| ==> At(before[i]) <= from
  }

  lemma {:induction false} LimiterOpsOrdered(c: Config, ops: seq<Op>, to: real)
    requires Ordered(ops) && forall i :: 0 <= i < |ops| ==> At(ops[i]) <= to
    ensures R.Ordered(LimiterOps(c, ops))
    ensures forall i :: 0 <= i < |LimiterOps(c, ops)| ==> LimiterOps(c, ops)[i].at <= to
  {
    if ops != [] {
      LimiterOpsOrdered(c, ops[..|ops| - 1], At(ops[|ops| - 1]));
    }
  }

  lemma {:induction false} LimiterOpsAfter(c: Config, ops: seq<Op>, from: real)
    requires forall i :: 0 <= i < |ops| ==> from <= At(ops[i])
    ensures forall i :: 0 <= i < |LimiterOps(c, ops)| ==> from <= LimiterOps(c, ops)[i].at
  {
    if ops != [] {
      LimiterOpsAfter(c, ops[..|ops| - 1], from);
    }
  }

  lemma StretchSeen(c: Config, before: seq<Op>, during: seq<Op>, from: real, to: real)
    requires Stretch(before, during, from, to)
    ensures R.Stretch(LimiterOps(c, before), LimiterOps(c, during), from, to)
  {
    LimiterOpsOrdered(c, before, from);
    LimiterOpsOrdered(c, during, to);
    LimiterOpsAfter(c, during, from);
  }

  lemma CallerBoundHolds(c: Config, before: seq<Op>, during: seq<Op>, client: string, from: real, to: real)
    requires Stretch(before, during, from, to) && c.limiter.burst <= c.limiter.rps * 600
    ensures Passed(c, Run(c, START, before), during, client) as real
            <= c.limiter.burst as real + R.Earned(c.limiter, to - from)
  {
    RunLimits(c, START, before, client);
    RunLimits(c, Run(c, START, before), during, client);
    StretchSeen(c, before, during, from, to);
    R.RateBoundHolds(c.limiter, LimiterOps(c, before), LimiterOps(c, during), client, from, to);
  }

  /** Calls that present a valid key of the client, one for each limiter request. */
  function Authentic(c: Config, client: string, op: R.Op): Op {
    match op
    case Cleanup(at) => Cleanup(at)
    case Request(at, _) =>
      var ctx := Context(None, Some(map[c.apiKeyHeader := ["key"]]), None);
      Submission(Call(ctx, _ => A.Found(client), "", false, "", at, 0, 0, Answered, Answered, Answered))
  }

  lemma AuthenticCaller(c: Config, client: string, op: R.Op)
    requires client != "" && op.Request?
    ensures Caller(c, Authentic(c, client, op).call) == Some(client)
  {
    NotExempt();
  }

  lemma LimiterOpsSnoc(c: Config, init: seq<Op>, op: Op)
    ensures LimiterOps(c, init + [op]) ==
            if op.Cleanup? then LimiterOps(c, init) + [R.Cleanup(op.tick)]
            else if Caller(c, op.call) == None then LimiterOps(c, init)
            else LimiterOps(c, init) + [R.Request(op.call.at, Caller(c, op.call).value)]
  {
    assert (init + [op])[..|init|] == init;
  }

  /** What the limiter sees of one of them. */
  lemma AuthenticSeen(c: Config, client: string, before: seq<Op>, op: R.Op) returns (call: Op)
    requires client != "" && (op.Request? ==> op.key == client)
    ensures At(call) == op.at && LimiterOps(c, before + [call]) == LimiterOps(c, before) + [op]
  {
    call := Authentic(c, client, op);
    if op.Request? {
      AuthenticCaller(c, client, op);
    }
    LimiterOpsSnoc(c, before, call);
  }

  /** One of them for each limiter operation, seen by the limiter as that operation. */
  lemma {:induction false} AuthenticCalls(c: Config, client: string, ops: seq<R.Op>) returns (calls: seq<Op>)
    requires client != "" && forall i :: 0 <= i < |ops| && ops[i].Request? ==> ops[i].key == client
    ensures |calls| == |ops| && LimiterOps(c, calls) == ops && forall i :: 0 <= i < |ops| ==> At(calls[i]) == ops[i].at
  {
    calls := [];
    if ops != [] {
      var init, op := ops[..|ops| - 1], ops[|ops| - 1];
      var before := AuthenticCalls(c, client, init);
      var call := AuthenticSeen(c, client, before, op);
      calls := before + [call];
      assert ops == init + [op];
    }
  }

  lemma TwiceExceeds(c: Config, away: real)
    requires R.Earned(c.limiter, away) < c.limiter.burst as real
    ensures (2 * c.limiter.burst) as real > c.limiter.burst as real + R.Earned(c.limiter, away - 0.0)
  {
    assert away - 0.0 == away;
  }

  lemma SameStretch(ops: seq<R.Op>, calls: seq<Op>, to: real)
    requires |calls| == |ops| && forall i :: 0 <= i < |ops| ==> At(calls[i]) == ops[i].at
    requires R.Ordered(ops) && to >= 0.0 && forall i :: 0 <= i < |ops| ==> 0.0 <= ops[i].at <= to
    ensures Stretch([], calls, 0.0, to)
  {
  }

  /** From the start, the calls that pass are the requests that the limiter grants. */
  lemma PassedAsGranted(c: Config, ops: seq<R.Op>, calls: seq<Op>, client: string)
    requires LimiterOps(c, calls) == ops
    ensures Passed(c, START, calls, client) == R.Granted(ops, R.Answers(c.limiter, ops, true), client)
  {
    RunLimits(c, START, calls, client);
  }

  lemma SpentCalls(c: Config, away: real) returns (calls: seq<Op>)
    requires away > R.IDLE_LIMIT && c.limiter.burst > 0
    ensures Stretch([], calls, 0.0, away) && Passed(c, START, calls, R.KEY) == 2 * c.limiter.burst
  {
    var ops := R.Comeback(c.limiter, away);
    calls := AuthenticCalls(c, R.KEY, ops);
    R.ComebackOrdered(c.limiter, away);
    SameStretch(ops, calls, away);
    R.ComebackGrantsTwice(c.limiter, away);
    PassedAsGranted(c, ops, calls, R.KEY);
  }

  /** When a bucket takes longer than ten minutes to refill, a client that comes back right then gets two bursts. */
  lemma SpentTwice(c: Config) returns (away: real, calls: seq<Op>)
    requires c.limiter.burst > c.limiter.rps * 600
    ensures Stretch([], calls, 0.0, away) && Passed(c, START, calls, R.KEY) == 2 * c.limiter.burst
    ensures (2 * c.limiter.burst) as real > c.limiter.burst as real + R.Earned(c.limiter, away - 0.0)
  {
    away := R.JustOverIdle(c.limiter);
    calls := SpentCalls(c, away);
    TwiceExceeds(c, away);
  }

  /**
   In any stretch of time, whatever identity headers are sent and whatever is evicted, the calls of one
   verified client that get past the limiter number at most a burst plus what the stretch earns:
   on every run exactly when ten minutes earn at least one whole burst.
   */
  lemma CallerBoundExactly(c: Config)
    ensures (forall before: seq<Op>, during: seq<Op>, client: string, from: real, to: real |
               Stretch(before, during, from, to) ::
               Passed(c, Run(c, START, before), during, client) as real
               <= c.limiter.burst as real + R.Earned(c.limiter, to - from))
            <==> c.limiter.burst <= c.limiter.rps * 600
  {
    if c.limiter.burst <= c.limiter.rps * 600 {
      forall before: seq<Op>, during: seq<Op>, client: string, from: real, to: real | Stretch(before, during, from, to)
        ensures Passed(c, Run(c, START, before), during, client) as real
                <= c.limiter.burst as real + R.Earned(c.limiter, to - from)
      {
        CallerBoundHolds(c, before, during, client, from, to);
      }
    } else {
      var away, calls := SpentTwice(c);
      assert Run(c, START, []) == START;
    }
  }

  /** The op is a valid submission of this transaction by this verified client. */
  predicate Submitted(c: Config, op: Op, e: I.Event) {
    op.Submission? && op.call.valid && Caller(c, op.call) == Some(e.client) && op.call.txn == e.txn
  }

  /** Every event on the log was validly submitted by the verified client that it names. */
  lemma {:induction false} EventsAreSubmitted(c: Config, ops: seq<Op>, e: I.Event)
    requires e in Run(c, START, ops).published
    ensures exists i :: 0 <= i < |ops| && Submitted(c, ops[i], e)
  {
    var init, op := ops[..|ops| - 1], ops[|ops| - 1];
    var before := Run(c, START, init);
    if e in before.published {
      EventsAreSubmitted(c, init, e);
      var i :| 0 <= i < |init| && Submitted(c, init[i], e);
      assert ops[i] == init[i];
    } else {
      assert Submitted(c, ops[|ops| - 1], e);
    }
  }

  /** The answers to the call's key come from the life of the cache. */
  ghost predicate AnsweredIn(c: Config, life: Life, op: Op) {
    op.Submission? && Presented(c, SUBMIT, op.call.ctx).Some? ==>
      var key := Presented(c, SUBMIT, op.call.ctx).value;
      exists at :: AnsweredAt(life, key, op.call.lookup(key), at)
  }

  /** The op submitted the event, under a key that was the event's client's within the staleness bound of the time. */
  ghost predicate ActiveSubmission(c: Config, life: Life, op: Op, e: I.Event, at: int) {
    Submitted(c, op, e) && Presented(c, SUBMIT, op.call.ctx).Some?
    && HeldFor(life, Presented(c, SUBMIT, op.call.ctx).value, Some(A.Client(e.client, "active")), at)
  }

  /**
   Every event on the log was submitted under a key that belonged, within the staleness bound of its lookup, to
   an active client, and names that client.
   */
  lemma EventsOfActiveClients(c: Config, ops: seq<Op>, life: Life, e: I.Event)
    requires SaneLife(life) && (forall i :: 0 <= i < |ops| ==> AnsweredIn(c, life, ops[i]))
    requires e in Run(c, START, ops).published
    ensures exists i, at :: 0 <= i < |ops| && ActiveSubmission(c, life, ops[i], e, at)
  {
    EventsAreSubmitted(c, ops, e);
    NotExempt();
    var i :| 0 <= i < |ops| && Submitted(c, ops[i], e);
    var call := ops[i].call;
    assert AnsweredIn(c, life, ops[i]);
    var key := Presented(c, SUBMIT, call.ctx).value;
    var at :| AnsweredAt(life, key, call.lookup(key), at);
    ForwardedWasActive(c, SUBMIT, call.ctx, call.lookup, life, at);
    assert ActiveSubmission(c, life, ops[i], e, at);
  }

  // ---------------------------------------------------------------------------------------
  // The server
  // ---------------------------------------------------------------------------------------

  /** What the cache and the registry are like while a key is looked up. */
  datatype Moment = Moment(registry: A.Registry, now: int, cacheUp: bool, registryUp: bool, writeUp: bool)

  function LookUp(ttl: int, entries: A.CacheMap, m: Moment, hash: string): (A.CacheMap, A.Outcome) {
    A.LookupAlone(ttl, entries, m.registry, hash, m.now, m.cacheUp, m.registryUp, m.writeUp)
  }

  /** The cache after a call: only a presented key is looked up. */
  function CacheAfter(ttl: int, entries: A.CacheMap, m: Moment, hash: string -> string, key: Option<string>): A.CacheMap {
    if key.Some? then LookUp(ttl, entries, m, hash(key.value)).0 else entries
  }

  class Interceptor {
    const config: Config
    const cache: A.Cache

    constructor (c: Config, cache: A.Cache)
      ensures config == c && this.cache == cache
    {
      config := c;
      this.cache := cache;
    }

    /** Looks a key up and sets the identity header in a copy of the metadata. */
    method Authenticate(ctx: Context, metadata: Metadata, hash: string, m: Moment) returns (gate: Gate)
      modifies cache
      ensures gate == Identify(config, ctx, metadata, LookUp(cache.ttl, old(cache.entries), m, hash).1)
      ensures cache.entries == LookUp(cache.ttl, old(cache.entries), m, hash).0
    {
      var outcome := cache.Lookup(hash, m.registry, m.now, m.cacheUp, m.registryUp, m.writeUp);
      match outcome
      case NotFound => gate := Refused(Unauthenticated);
      case Unavailable => gate := Refused(AuthUnavailable);
      case Found(id) =>
        var verified := ctx.(client := Some(id));
        var md := metadata;
        md := md[config.identityHeader := [id]];
        gate := Forwarded(verified.(metadata := Some(md)));
    }

    method UnaryServer(rpc: string, ctx: Context, hash: string -> string, m: Moment) returns (gate: Gate)
      modifies cache
      ensures var entries := old(cache.entries);
        gate == Intercept(config, rpc, ctx, key => LookUp(cache.ttl, entries, m, hash(key)).1)
      ensures cache.entries == CacheAfter(cache.ttl, old(cache.entries), m, hash, Presented(config, rpc, ctx))
    {
      if Exempt(rpc) {
        return Forwarded(ctx);
      }
      if ctx.metadata == None {
        return Refused(Unauthenticated);
      }
      var key := Header(ctx.metadata.value, config.apiKeyHeader);
      if key == None {
        return Refused(Unauthenticated);
      }
      gate := Authenticate(ctx, ctx.metadata.value, hash(key.value), m);
    }
  }

  class Handler {
    const config: Config
    const limiter: R.Limiter
    const store: I.Store
    var published: seq<I.Event>

    ghost predicate Valid() {
      limiter.config == config.limiter && store.config == config.store
    }

    ghost function Abs(): State
      reads this, limiter, store
    {
      State(limiter.entries, store.keys, published)
    }

    constructor (c: Config)
      ensures Valid() && config == c && Abs() == START && fresh(limiter) && fresh(store)
    {
      config := c;
      limiter := new R.Limiter(c.limiter);
      store := new I.Store(c.store);
      published := [];
    }

    method SubmitTransaction(ctx: Context, call: Call) returns (r: Response)
      requires Valid()
      modifies this, limiter, store
      ensures Valid() && (Abs(), r) == Submit(config, old(Abs()), ctx, call)
    {
      if ctx.client == None || ctx.client.value == "" {
        return Rejected(Internal);
      }
      var ok := limiter.Allow(ClientKey(config, ctx), call.at);
      if !ok {
        return Rejected(ResourceExhausted);
      }
      if !call.valid {
        return Rejected(InvalidArgument);
      }
      var verdict := store.CheckAndSet(call.key, call.txn, call.checkedAt, call.rereadAt, call.wrote, call.reread);
      if verdict == I.StoreError {
        return Rejected(Internal);
      }
      if verdict.Duplicate? {
        return AlreadyExists(verdict.original);
      }
      if call.sent != Lost {
        published := published + [I.Event(call.txn, ctx.client.value)];
      }
      if call.sent != Answered {
        return Rejected(Internal);
      }
      r := Accepted(call.txn);
    }
  }
}
