/**
 A decision from the risk score to the client: the risk service's answer or the engine's fallback, the
 published event, the stored row, and the status the gateway reports.
 */
module DecisionPath {
  import opened Common
  import CB = CircuitBreaker
  import S = RiskScorer
  import U = UpsertStore

  // ---------------------------------------------------------------------------------------
  // The risk service
  // ---------------------------------------------------------------------------------------

  datatype RiskRequest = RiskRequest(txnId: string, features: Option<S.Vector>, amountMinor: int)

  datatype RiskResponse = RiskResponse(score: int, decision: Decision, triggered: seq<string>)

  datatype Missing = Request | TxnId | Features

  datatype RiskResult = Scored(response: RiskResponse) | Invalid(what: Missing)

  function ToEnum(decision: string): Decision {
    if decision == "APPROVE" then Approve else if decision == "DECLINE" then Decline else Review
  }

  /** Answers exactly the requests with an id and features, always with a decision and a score in range. */
  function CalculateRisk(log: S.Log10, c: S.Config, req: Option<RiskRequest>): (r: RiskResult)
    ensures r.Scored? <==> req.Some? && req.value.txnId != "" && req.value.features.Some?
    ensures r == Invalid(TxnId) <==> req.Some? && req.value.txnId == ""
    ensures r.Scored? ==> 100 <= r.response.score <= 1000 && r.response.decision in {Approve, Review, Decline}
  {
    match req
    case None => Invalid(Request)
    case Some(RiskRequest(txnId, features, amountMinor)) =>
      if txnId == "" then Invalid(TxnId)
      else if features == None then Invalid(Features)
      else
        var r := S.ScoreOf(log, c, features.value, amountMinor);
        Scored(RiskResponse(r.score, ToEnum(r.decision), r.factors))
  }

  // ---------------------------------------------------------------------------------------
  // The fraud engine
  // ---------------------------------------------------------------------------------------

  datatype Thresholds = Thresholds(approveBelow: int, declineAbove: int)

  function ScoreToDecision(t: Thresholds, score: int): Decision {
    if score < t.approveBelow then Approve
    else if score > t.declineAbove then Decline
    else Review
  }

  /** One guarded call: when the breaker is asked and told, whether Redis answers, and what the service replies. */
  datatype RiskCall = RiskCall(askedAt: int, toldAt: int, askUp: bool, tellUp: bool, reply: Option<RiskResponse>)

  datatype EngineConfig = EngineConfig(thresholds: Thresholds, fallback: int, breaker: CB.Config)

  predicate Blocked(k: CB.Keys, call: RiskCall) {
    call.askUp && CB.GetState(k, call.askedAt) == CB.Open
  }

  /** The reply the engine gets to use. */
  function Obtained(k: CB.Keys, call: RiskCall): Option<RiskResponse> {
    if Blocked(k, call) then None else call.reply
  }

  function KeysAfter(c: CB.Config, k: CB.Keys, call: RiskCall): CB.Keys {
    if Blocked(k, call) || !call.tellUp then k
    else if call.reply.Some? then CB.OnSuccess(c, k, call.toldAt)
    else CB.OnFailure(c, k, call.toldAt)
  }

  /** Score and decision: the service's, or the fallback score judged by the engine's own thresholds. */
  function Verdict(e: EngineConfig, k: CB.Keys, call: RiskCall): (int, Decision) {
    match Obtained(k, call)
    case None => (e.fallback, ScoreToDecision(e.thresholds, e.fallback))
    case Some(r) => (r.score, if r.decision == Unspecified then ScoreToDecision(e.thresholds, r.score) else r.decision)
  }

  /** A transaction that reached step 6, the call made for it, and whether its result could be written. */
  datatype Job = Job(
    key: U.Key, identity: U.Identity, clientId: string, rules: seq<string>, processedAt: int, call: RiskCall, written: bool)

  function Publish(e: EngineConfig, k: CB.Keys, job: Job): U.Event {
    var (score, decision) := Verdict(e, k, job.call);
    U.Event(job.key, job.identity, decision, score, job.rules, job.processedAt, job.clientId)
  }

  /** The breaker's keys and the published events after a run of jobs. */
  function Engine(e: EngineConfig, k: CB.Keys, jobs: seq<Job>): (CB.Keys, seq<U.Event>) {
    if jobs == [] then (k, [])
    else
      var (before, events) := Engine(e, k, jobs[..|jobs| - 1]);
      var job := jobs[|jobs| - 1];
      (KeysAfter(e.breaker, before, job.call), if job.written then events + [Publish(e, before, job)] else events)
  }

  /** Every reply comes from a risk service with this configuration. */
  ghost predicate RepliesFrom(log: S.Log10, c: S.Config, jobs: seq<Job>) {
    forall i :: 0 <= i < |jobs| && jobs[i].call.reply.Some? ==>
      exists req :: CalculateRisk(log, c, req) == Scored(jobs[i].call.reply.value)
  }

  /** The event's decision is what the thresholds say of its score. */
  predicate ObeysRule(t: Thresholds, ev: U.Event) {
    ev.decision == ScoreToDecision(t, ev.riskScore)
  }

  // ---------------------------------------------------------------------------------------
  // Two implementations of one rule
  // ---------------------------------------------------------------------------------------

  /** The first score that is declined. */
  function DeclineFrom(t: Thresholds): int {
    Max(t.approveBelow, t.declineAbove + 1)
  }

  predicate SameRule(t: Thresholds, c: S.Config) {
    t.approveBelow == c.approveBelow && DeclineFrom(t) == DeclineFrom(Thresholds(c.approveBelow, c.declineAbove))
  }

  /** The engine and the risk service judge every score alike exactly when their two cut-offs coincide. */
  lemma JudgeAlikeExactly(t: Thresholds, c: S.Config)
    ensures (forall score: int :: ScoreToDecision(t, score) == ToEnum(S.Decide(c.approveBelow, c.declineAbove, score)))
            <==> SameRule(t, c)
  {
    if forall score: int :: ScoreToDecision(t, score) == ToEnum(S.Decide(c.approveBelow, c.declineAbove, score)) {
      var u := Thresholds(c.approveBelow, c.declineAbove);
      assert ScoreToDecision(t, t.approveBelow) == ToEnum(S.Decide(c.approveBelow, c.declineAbove, t.approveBelow));
      assert ScoreToDecision(t, u.approveBelow) == ToEnum(S.Decide(c.approveBelow, c.declineAbove, u.approveBelow));
      assert ScoreToDecision(t, DeclineFrom(t)) == ToEnum(S.Decide(c.approveBelow, c.declineAbove, DeclineFrom(t)));
      assert ScoreToDecision(t, DeclineFrom(u)) == ToEnum(S.Decide(c.approveBelow, c.declineAbove, DeclineFrom(u)));
    }
  }

  lemma ReplyObeysRule(log: S.Log10, c: S.Config, t: Thresholds, req: Option<RiskRequest>, r: RiskResponse)
    requires SameRule(t, c) && CalculateRisk(log, c, req) == Scored(r)
    ensures r.decision == ScoreToDecision(t, r.score)
  {
    JudgeAlikeExactly(t, c);
    var result := S.ScoreOf(log, c, req.value.features.value, req.value.amountMinor);
    assert r.score == result.score && r.decision == ToEnum(result.decision);
    assert ScoreToDecision(t, r.score) == ToEnum(S.Decide(c.approveBelow, c.declineAbove, r.score));
  }

  /** No published decision is unspecified, whatever service replies, with whatever thresholds and breaker. */
  lemma {:induction false} NoneUnspecified(e: EngineConfig, k: CB.Keys, jobs: seq<Job>, i: nat)
    requires i < |Engine(e, k, jobs).1|
    ensures Engine(e, k, jobs).1[i].decision != Unspecified
  {
    if jobs != [] {
      var init := jobs[..|jobs| - 1];
      if i < |Engine(e, k, init).1| {
        NoneUnspecified(e, k, init, i);
      }
    }
  }

  /**
   Whatever the breaker and the service do, every published event carries the decision that the shared
   thresholds give to its score.
   */
  lemma {:induction false} EventsObeyRule(log: S.Log10, c: S.Config, e: EngineConfig, k: CB.Keys, jobs: seq<Job>, i: nat)
    requires SameRule(e.thresholds, c) && RepliesFrom(log, c, jobs) && i < |Engine(e, k, jobs).1|
    ensures ObeysRule(e.thresholds, Engine(e, k, jobs).1[i])
  {
    if jobs != [] {
      var init, job := jobs[..|jobs| - 1], jobs[|jobs| - 1];
      var (before, events) := Engine(e, k, init);
      assert forall j :: 0 <= j < |init| ==> init[j] == jobs[j];
      if i < |events| {
        EventsObeyRule(log, c, e, k, init, i);
      } else if job.call.reply.Some? {
        var req :| CalculateRisk(log, c, req) == Scored(job.call.reply.value);
        ReplyObeysRule(log, c, e.thresholds, req, job.call.reply.value);
      }
    }
  }

  /** jobs[i] published the fallback. */
  predicate FellBack(e: EngineConfig, k: CB.Keys, jobs: seq<Job>, i: nat) {
    i < |jobs| && jobs[i].written && Obtained(Engine(e, k, jobs[..i]).0, jobs[i].call) == None
  }

  lemma {:induction false} WrittenIsPublished(e: EngineConfig, k: CB.Keys, jobs: seq<Job>, i: nat)
    requires i < |jobs| && jobs[i].written
    ensures Publish(e, Engine(e, k, jobs[..i]).0, jobs[i]) in Engine(e, k, jobs).1
  {
    var init := jobs[..|jobs| - 1];
    if i < |init| {
      WrittenIsPublished(e, k, init, i);
      assert init[..i] == jobs[..i];
    } else {
      assert jobs[..i] == init;
    }
  }

  /** On every run the fallbacks are published for review, exactly when the fallback score lies between the thresholds. */
  lemma FallbackReviewedExactly(e: EngineConfig)
    ensures (forall k: CB.Keys, jobs: seq<Job>, i: nat | FellBack(e, k, jobs, i) ::
               exists ev :: ev in Engine(e, k, jobs).1 && ev.key == jobs[i].key
                 && ev.decision == Review && ev.riskScore == e.fallback)
            <==> e.thresholds.approveBelow <= e.fallback <= e.thresholds.declineAbove
  {
    forall k: CB.Keys, jobs: seq<Job>, i: nat | FellBack(e, k, jobs, i)
      ensures Publish(e, Engine(e, k, jobs[..i]).0, jobs[i]) in Engine(e, k, jobs).1
    {
      WrittenIsPublished(e, k, jobs, i);
    }
    var failed := RiskCall(0, 0, false, false, None);
    var identity := U.Identity("", "", 0, "", "", "", "", "", "", "", "");
    var jobs := [Job(U.Key("", 0), identity, "", [], 0, failed, true)];
    assert jobs[..0] == [];
    assert FellBack(e, CB.NO_KEYS, jobs, 0);
    assert forall ev :: ev in Engine(e, CB.NO_KEYS, jobs).1 ==> ev.decision == ScoreToDecision(e.thresholds, e.fallback);
  }

  // ---------------------------------------------------------------------------------------
  // What the breaker is told
  // ---------------------------------------------------------------------------------------

  /** A failure that opened the circuit was recorded less than an open duration ago. */
  ghost predicate InOpenWindow(c: CB.Config, h: CB.History, now: int) {
    exists i :: 0 <= i < |h| && CB.Opens(c, h, i) && now < h[i].at + c.openMs
  }

  /** The service is not asked: Redis answers, and the circuit is open. */
  ghost predicate HeldBack(c: CB.Config, h: CB.History, call: RiskCall) {
    call.askUp && InOpenWindow(c, h, call.askedAt)
  }

  /** What the run tells the breaker: a success for each reply and a failure for each missing one, of calls that were made. */
  ghost function Told(c: CB.Config, jobs: seq<Job>): CB.History {
    if jobs == [] then []
    else
      var h, call := Told(c, jobs[..|jobs| - 1]), jobs[|jobs| - 1].call;
      if HeldBack(c, h, call) || !call.tellUp then h
      else h + [CB.Event(call.toldAt, if call.reply == None then CB.Failure else CB.Success)]
  }

  /** Calls follow one another. */
  predicate Timely(jobs: seq<Job>) {
    && (forall i :: 0 <= i < |jobs| ==> jobs[i].call.askedAt <= jobs[i].call.toldAt)
    && (forall i, j :: 0 <= i < j < |jobs| ==> jobs[i].call.toldAt <= jobs[j].call.askedAt)
  }

  lemma {:induction false} ReplayPrefix(c: CB.Config, h: CB.History, more: CB.History, n: nat)
    requires n <= |h|
    ensures CB.Replay(c, h + more, n) == CB.Replay(c, h, n)
  {
    if n > 0 {
      ReplayPrefix(c, h, more, n - 1);
    }
  }

  lemma ToldSnoc(c: CB.Config, h: CB.History, e: CB.Event)
    requires CB.Reached(h, e.at)
    ensures CB.Reached(h + [e], e.at)
    ensures CB.Replay(c, h + [e], |h| + 1) ==
            match e.op
            case Failure => CB.OnFailure(c, CB.Replay(c, h, |h|), e.at)
            case Success => CB.OnSuccess(c, CB.Replay(c, h, |h|), e.at)
  {
    ReplayPrefix(c, h, [e], |h|);
  }

  /**
   The engine's breaker is the replay of what it was told, so whatever is proved of recorded histories, when they
   open and when they close, is proved of every run of the engine.
   */
  lemma {:induction false} EngineRefinesHistory(e: EngineConfig, jobs: seq<Job>, now: int)
    requires CB.Sane(e.breaker) && Timely(jobs) && (jobs != [] ==> jobs[|jobs| - 1].call.toldAt <= now)
    ensures var h := Told(e.breaker, jobs);
      CB.Reached(h, now) && Engine(e, CB.NO_KEYS, jobs).0 == CB.Replay(e.breaker, h, |h|)
  {
    if jobs != [] {
      var init, call := jobs[..|jobs| - 1], jobs[|jobs| - 1].call;
      var h := Told(e.breaker, init);
      EngineRefinesHistory(e, init, call.askedAt);
      CB.BlockedExactly(e.breaker, h, call.askedAt);
      var event := CB.Event(call.toldAt, if call.reply == None then CB.Failure else CB.Success);
      ToldSnoc(e.breaker, h, event);
    }
  }

  /** The event says of the job what it should: the job's own columns, and the reply if there was one to use. */
  ghost predicate Reports(e: EngineConfig, h: CB.History, job: Job, ev: U.Event) {
    && ev.key == job.key && ev.identity == job.identity && ev.triggeredRules == job.rules
    && ev.processedAt == job.processedAt && ev.clientId == job.clientId
    && if HeldBack(e.breaker, h, job.call) || job.call.reply == None
       then ev.riskScore == e.fallback && ObeysRule(e.thresholds, ev)
       else ev.riskScore == job.call.reply.value.score
            && (ev.decision == job.call.reply.value.decision || (job.call.reply.value.decision == Unspecified && ObeysRule(e.thresholds, ev)))
  }

  predicate Written(jobs: seq<Job>, i: nat) {
    i < |jobs| && jobs[i].written
  }

  /** The events are those of the jobs at the positions, each judged by what the breaker had been told before it. */
  ghost predicate ReportsAt(e: EngineConfig, jobs: seq<Job>, js: seq<nat>, events: seq<U.Event>) {
    && |events| == |js|
    && forall a :: 0 <= a < |js| ==>
         js[a] < |jobs| && Reports(e, Told(e.breaker, jobs[..js[a]]), jobs[js[a]], events[a])
  }

  lemma PublishReports(e: EngineConfig, jobs: seq<Job>, i: nat)
    requires CB.Sane(e.breaker) && Timely(jobs) && i < |jobs|
    ensures Reports(e, Told(e.breaker, jobs[..i]), jobs[i], Publish(e, Engine(e, CB.NO_KEYS, jobs[..i]).0, jobs[i]))
  {
    EngineRefinesHistory(e, jobs[..i], jobs[i].call.askedAt);
    CB.BlockedExactly(e.breaker, Told(e.breaker, jobs[..i]), jobs[i].call.askedAt);
  }

  /** The events after one more job. */
  lemma EventsSnoc(e: EngineConfig, k: CB.Keys, jobs: seq<Job>, n: nat)
    requires n < |jobs|
    ensures var (before, events) := Engine(e, k, jobs[..n]);
      Engine(e, k, jobs[..n + 1]).1 == if jobs[n].written then events + [Publish(e, before, jobs[n])] else events
  {
    assert jobs[..n + 1][..n] == jobs[..n];
  }

  lemma ReportsSnoc(e: EngineConfig, jobs: seq<Job>, js: seq<nat>, events: seq<U.Event>, n: nat, ev: U.Event)
    requires ReportsAt(e, jobs, js, events) && n < |jobs| && Reports(e, Told(e.breaker, jobs[..n]), jobs[n], ev)
    ensures ReportsAt(e, jobs, js + [n], events + [ev])
  {
  }

  lemma ReportsStep(e: EngineConfig, jobs: seq<Job>, js: seq<nat>, n: nat)
    requires CB.Sane(e.breaker) && Timely(jobs) && n < |jobs|
    requires ReportsAt(e, jobs, js, Engine(e, CB.NO_KEYS, jobs[..n]).1)
    ensures ReportsAt(e, jobs, if jobs[n].written then js + [n] else js, Engine(e, CB.NO_KEYS, jobs[..n + 1]).1)
  {
    var (before, events) := Engine(e, CB.NO_KEYS, jobs[..n]);
    EventsSnoc(e, CB.NO_KEYS, jobs, n);
    PublishReports(e, jobs, n);
    ReportsSnoc(e, jobs, js, events, n, Publish(e, before, jobs[n]));
  }

  lemma {:induction false} EventsUpTo(e: EngineConfig, jobs: seq<Job>, n: nat, test: nat -> bool)
    requires CB.Sane(e.breaker) && Timely(jobs) && n <= |jobs| && forall i :: test(i) <==> Written(jobs, i)
    ensures ReportsAt(e, jobs, Positions(n, test), Engine(e, CB.NO_KEYS, jobs[..n]).1)
  {
    if n > 0 {
      EventsUpTo(e, jobs, n - 1, test);
      assert test(n - 1) <==> Written(jobs, n - 1);
      ReportsStep(e, jobs, Positions(n - 1, test), n - 1);
    }
  }

  /**
   The log holds one event for each job whose result could be written, in order, with the job's own columns: the
   service's score and decision if the call was made and answered, and else the fallback.
   */
  lemma EventsReportJobs(e: EngineConfig, jobs: seq<Job>)
    requires CB.Sane(e.breaker) && Timely(jobs)
    ensures ReportsAt(e, jobs, Positions(|jobs|, (i: nat) => Written(jobs, i)), Engine(e, CB.NO_KEYS, jobs).1)
  {
    EventsUpTo(e, jobs, |jobs|, (i: nat) => Written(jobs, i));
    assert jobs[..|jobs|] == jobs;
  }

  // ---------------------------------------------------------------------------------------
  // The status query
  // ---------------------------------------------------------------------------------------

  function Matches(t: U.Table, txnId: string, client: string): set<U.Key> {
    set k | k in t && k.txnId == txnId && t[k].verdict.clientId == client
  }

  predicate Latest(ks: set<U.Key>, k: U.Key) {
    k in ks && forall j :: j in ks ==> j.txnTimestamp <= k.txnTimestamp
  }

  lemma {:induction false} LatestExists(ks: set<U.Key>)
    requires ks != {}
    ensures exists k :: Latest(ks, k)
    decreases |ks|
  {
    var k :| k in ks;
    if ks == {k} {
      assert Latest(ks, k);
    } else {
      LatestExists(ks - {k});
      var j :| Latest(ks - {k}, j);
      var top := if j.txnTimestamp >= k.txnTimestamp then j else k;
      assert Latest(ks, top);
    }
  }

  /** WHERE txn_id AND client_id, ORDER BY txn_timestamp DESC LIMIT 1. */
  function Lookup(t: U.Table, txnId: string, client: string): (k: Option<U.Key>)
    ensures k == None <==> Matches(t, txnId, client) == {}
    ensures k.Some? ==> Latest(Matches(t, txnId, client), k.value)
  {
    var ks := Matches(t, txnId, client);
    if ks == {} then None
    else
      LatestExists(ks);
      assert forall j, k :: Latest(ks, j) && Latest(ks, k) ==> j.txnTimestamp == k.txnTimestamp;
      var k :| Latest(ks, k);
      Some(k)
  }

  datatype Status = Pending | Approved | Declined | InReview | Errored

  datatype StatusResponse = StatusResponse(
    txnId: string, status: Status, fraudDecision: string, score: int, submittedAt: Option<int>, decidedAt: Option<int>)

  datatype Code = InvalidArgument | Internal | Unavailable

  datatype StatusReply = Reply(response: StatusResponse) | Fault(code: Code)

  function StatusOf(decision: string): (Status, string) {
    if decision == "APPROVED" then (Approved, "APPROVE")
    else if decision == "DECLINED" then (Declined, "DECLINE")
    else if decision == "REVIEW" then (InReview, "REVIEW")
    else (Errored, "")
  }

  function NotDecided(txnId: string): StatusResponse {
    StatusResponse(txnId, Pending, "", 0, None, None)
  }

  function Decided(k: U.Key, v: U.Verdict): StatusResponse {
    var (status, fraudDecision) := StatusOf(v.decision);
    StatusResponse(k.txnId, status, fraudDecision, v.riskScore, Some(k.txnTimestamp), Some(v.processedAt))
  }

  /** Faults are, in this order, for a missing id, a caller without an identity, and a table that does not answer. */
  function GetStatus(t: U.Table, client: Option<string>, txnId: string, up: bool): (r: StatusReply)
    ensures r == Fault(InvalidArgument) <==> txnId == ""
    ensures r == Fault(Internal) <==> txnId != "" && client == None
    ensures r == Fault(Unavailable) <==> txnId != "" && client.Some? && !up
  {
    if txnId == "" then Fault(InvalidArgument)
    else if client == None then Fault(Internal)
    else if !up then Fault(Unavailable)
    else
      match Lookup(t, txnId, client.value)
      case None => Reply(NotDecided(txnId))
      case Some(k) => Reply(Decided(k, t[k].verdict))
  }

  function OwnRows(t: U.Table, client: string): U.Table {
    map k | k in t && t[k].verdict.clientId == client :: t[k]
  }

  lemma OwnMatches(t: U.Table, txnId: string, client: string)
    ensures Matches(OwnRows(t, client), txnId, client) == Matches(t, txnId, client)
  {
  }

  lemma LatestUnique(ks: set<U.Key>, txnId: string, j: U.Key, k: U.Key)
    requires Latest(ks, j) && Latest(ks, k) && forall x :: x in ks ==> x.txnId == txnId
    ensures j == k
  {
  }

  /** A client's answer depends on the rows it owns and on nothing else in the table. */
  lemma OnlyOwnRowsMatter(t: U.Table, u: U.Table, client: string, txnId: string, up: bool)
    requires OwnRows(t, client) == OwnRows(u, client)
    ensures GetStatus(t, Some(client), txnId, up) == GetStatus(u, Some(client), txnId, up)
  {
    OwnMatches(t, txnId, client);
    OwnMatches(u, txnId, client);
    var j, k := Lookup(t, txnId, client), Lookup(u, txnId, client);
    if j.Some? {
      LatestUnique(Matches(t, txnId, client), txnId, j.value, k.value);
      assert t[j.value] == OwnRows(t, client)[j.value] == OwnRows(u, client)[j.value] == u[j.value];
    }
  }

  // ---------------------------------------------------------------------------------------
  // From the log to the status
  // ---------------------------------------------------------------------------------------

  /** log[i] is what the transaction's row says, and the row belongs to this client. */
  ghost predicate Stands(log: seq<U.Event>, i: nat, txnId: string, client: string)
    requires i < |log|
  {
    U.LastWriter(log, i) && log[i].key.txnId == txnId && log[i].clientId == client
  }

  ghost predicate Newest(log: seq<U.Event>, i: nat, txnId: string, client: string) {
    && i < |log| && Stands(log, i, txnId, client)
    && forall j :: 0 <= j < |log| && Stands(log, j, txnId, client) ==> log[j].key.txnTimestamp <= log[i].key.txnTimestamp
  }

  lemma {:induction false} LastWriterExists(log: seq<U.Event>, k: U.Key) returns (i: nat)
    requires k in U.KeysOf(log)
    ensures i < |log| && U.LastWriter(log, i) && log[i].key == k
  {
    if log[0].key == k && k !in U.KeysOf(log[1..]) {
      i := 0;
    } else {
      assert U.KeysOf(log) == U.KeysOf([log[0]]) + U.KeysOf(log[1..]) by {
        assert log == [log[0]] + log[1..];
        U.KeysConcat([log[0]], log[1..]);
      }
      i := LastWriterExists(log[1..], k);
      assert log[1..][i + 1..] == log[i + 2..];
      i := i + 1;
    }
  }

  /** The matching keys of the table are the keys of the events that stand. */
  lemma MatchesStand(log: seq<U.Event>, txnId: string, client: string, k: U.Key) returns (i: nat)
    requires k in Matches(U.ApplyAll(map[], log), txnId, client)
    ensures i < |log| && Stands(log, i, txnId, client) && log[i].key == k
    ensures U.ApplyAll(map[], log)[k].verdict == U.VerdictOf(log[i])
  {
    U.UpsertMeaning(map[], log);
    i := LastWriterExists(log, k);
    U.WriterAt(map[], log, i);
  }

  lemma StandsMatches(log: seq<U.Event>, txnId: string, client: string, i: nat)
    requires i < |log| && Stands(log, i, txnId, client)
    ensures log[i].key in Matches(U.ApplyAll(map[], log), txnId, client)
  {
    U.WriterAt(map[], log, i);
  }

  /**
   A client is told of the newest of its transaction's rows, with the verdict last written to that row;
   and it is told that the transaction is pending exactly when no event for it stands.
   */
  lemma StatusShowsLog(log: seq<U.Event>, client: string, txnId: string)
    requires txnId != ""
    ensures var r := GetStatus(U.ApplyAll(map[], log), Some(client), txnId, true);
      if exists i :: 0 <= i < |log| && Stands(log, i, txnId, client)
      then exists i: nat :: Newest(log, i, txnId, client) && r == Reply(Decided(log[i].key, U.VerdictOf(log[i])))
      else r == Reply(NotDecided(txnId))
  {
    var t := U.ApplyAll(map[], log);
    var found := Lookup(t, txnId, client);
    forall j | 0 <= j < |log| && Stands(log, j, txnId, client) ensures log[j].key in Matches(t, txnId, client) {
      StandsMatches(log, txnId, client, j);
    }
    if found.Some? {
      var i := MatchesStand(log, txnId, client, found.value);
      assert Newest(log, i, txnId, client);
    }
  }

  /** No later job wrote a result for the same key, and this one's belongs to the client. */
  predicate JobStands(jobs: seq<Job>, i: nat, txnId: string, client: string) {
    && Written(jobs, i) && jobs[i].key.txnId == txnId && jobs[i].clientId == client
    && forall j :: i < j < |jobs| && Written(jobs, j) ==> jobs[j].key != jobs[i].key
  }

  /** The events bear the keys and the clients of the jobs at the positions. */
  predicate NamesJobs(jobs: seq<Job>, js: seq<nat>, events: seq<U.Event>) {
    && |events| == |js|
    && forall a :: 0 <= a < |js| ==>
         js[a] < |jobs| && events[a].key == jobs[js[a]].key && events[a].clientId == jobs[js[a]].clientId
  }

  lemma NamesJobsSnoc(jobs: seq<Job>, js: seq<nat>, events: seq<U.Event>, n: nat, ev: U.Event)
    requires NamesJobs(jobs, js, events) && n < |jobs| && ev.key == jobs[n].key && ev.clientId == jobs[n].clientId
    ensures NamesJobs(jobs, js + [n], events + [ev])
  {
  }

  lemma PublishNames(e: EngineConfig, k: CB.Keys, job: Job)
    ensures Publish(e, k, job).key == job.key && Publish(e, k, job).clientId == job.clientId
  {
  }

  lemma NamesStep(e: EngineConfig, k: CB.Keys, jobs: seq<Job>, js: seq<nat>, n: nat)
    requires n < |jobs| && NamesJobs(jobs, js, Engine(e, k, jobs[..n]).1)
    ensures NamesJobs(jobs, if jobs[n].written then js + [n] else js, Engine(e, k, jobs[..n + 1]).1)
  {
    var (before, events) := Engine(e, k, jobs[..n]);
    EventsSnoc(e, k, jobs, n);
    PublishNames(e, before, jobs[n]);
    NamesJobsSnoc(jobs, js, events, n, Publish(e, before, jobs[n]));
  }

  lemma {:induction false} EventsName(e: EngineConfig, k: CB.Keys, jobs: seq<Job>, n: nat, test: nat -> bool)
    requires n <= |jobs| && forall i :: test(i) <==> Written(jobs, i)
    ensures NamesJobs(jobs, Positions(n, test), Engine(e, k, jobs[..n]).1)
  {
    if n > 0 {
      EventsName(e, k, jobs, n - 1, test);
      assert test(n - 1) <==> Written(jobs, n - 1);
      NamesStep(e, k, jobs, Positions(n - 1, test), n - 1);
    }
  }

  /** The positions are those of the jobs whose results could be written, in order. */
  ghost predicate AllWritten(jobs: seq<Job>, js: seq<nat>) {
    && (forall a, b :: 0 <= a < b < |js| ==> js[a] < js[b])
    && (forall i: nat :: i in js <==> Written(jobs, i))
  }

  lemma StandsWithJob(jobs: seq<Job>, js: seq<nat>, events: seq<U.Event>, a: nat, txnId: string, client: string)
    requires NamesJobs(jobs, js, events) && AllWritten(jobs, js) && a < |js|
    ensures Stands(events, a, txnId, client) <==> JobStands(jobs, js[a], txnId, client)
  {
    if U.LastWriter(events, a) {
      forall j | js[a] < j < |jobs| && Written(jobs, j) ensures jobs[j].key != jobs[js[a]].key {
        var b :| 0 <= b < |js| && js[b] == j;
        assert a < b;
        assert events[a + 1..][b - a - 1] == events[b];
      }
    } else {
      var ev :| ev in events[a + 1..] && ev.key == events[a].key;
      var b :| a < b < |events| && events[b] == ev;
      assert js[a] < js[b] && Written(jobs, js[b]);
    }
  }

  lemma SomeJobStands(jobs: seq<Job>, js: seq<nat>, events: seq<U.Event>, txnId: string, client: string)
    requires NamesJobs(jobs, js, events) && AllWritten(jobs, js)
    ensures (exists a :: 0 <= a < |events| && Stands(events, a, txnId, client)) <==>
            exists i :: JobStands(jobs, i, txnId, client)
  {
    if a :| 0 <= a < |events| && Stands(events, a, txnId, client) {
      StandsWithJob(jobs, js, events, a, txnId, client);
    }
    if i :| JobStands(jobs, i, txnId, client) {
      assert Written(jobs, i) && i in js;
      var a :| 0 <= a < |js| && js[a] == i;
      StandsWithJob(jobs, js, events, a, txnId, client);
    }
  }

  /** A transaction is pending for a client exactly when no job that could write a result for that client stands. */
  lemma PendingExactly(e: EngineConfig, k: CB.Keys, jobs: seq<Job>, client: string, txnId: string)
    requires txnId != ""
    ensures GetStatus(U.ApplyAll(map[], Engine(e, k, jobs).1), Some(client), txnId, true) == Reply(NotDecided(txnId)) <==>
            !exists i :: JobStands(jobs, i, txnId, client)
  {
    var events, test := Engine(e, k, jobs).1, (i: nat) => Written(jobs, i);
    var js := Positions(|jobs|, test);
    EventsName(e, k, jobs, |jobs|, test);
    PositionsExactly(|jobs|, test);
    assert jobs[..|jobs|] == jobs && AllWritten(jobs, js);
    StatusShowsLog(events, client, txnId);
    SomeJobStands(jobs, js, events, txnId, client);
  }

  /** The status that the thresholds give to a score. */
  predicate FitsScore(t: Thresholds, status: Status, score: int) {
    && (status == Approved <==> score < t.approveBelow)
    && (status == Declined <==> score >= t.approveBelow && score > t.declineAbove)
    && (status == InReview <==> t.approveBelow <= score <= t.declineAbove)
  }

  /** A status that is pending, or that shows the decision its own score calls for. */
  predicate ShowsRule(t: Thresholds, r: StatusResponse) {
    || r == StatusResponse(r.txnId, Pending, "", 0, None, None)
    || (FitsScore(t, r.status, r.score) && r.fraudDecision == S.Decide(t.approveBelow, t.declineAbove, r.score))
  }

  /** Every decision is read back from its row under its own status, and only a missing one as an error. */
  lemma StatusOfDecision(ev: U.Event)
    ensures var r := Decided(ev.key, U.VerdictOf(ev));
      && (r.status == Approved <==> ev.decision == Approve) && (r.status == Declined <==> ev.decision == Decline)
      && (r.status == InReview <==> ev.decision == Review) && (r.status == Errored <==> ev.decision == Unspecified)
      && (if ev.decision == Unspecified then r.fraudDecision == "" else ToEnum(r.fraudDecision) == ev.decision)
      && r.txnId == ev.key.txnId && r.score == ev.riskScore
      && r.submittedAt == Some(ev.key.txnTimestamp) && r.decidedAt == Some(ev.processedAt)
  {
  }

  lemma DecisionReadsBack(t: Thresholds, ev: U.Event)
    requires ObeysRule(t, ev)
    ensures ShowsRule(t, Decided(ev.key, U.VerdictOf(ev)))
  {
  }

  lemma ObeyedLogShows(t: Thresholds, log: seq<U.Event>, client: string, txnId: string)
    requires txnId != "" && forall i :: 0 <= i < |log| ==> ObeysRule(t, log[i])
    ensures var reply := GetStatus(U.ApplyAll(map[], log), Some(client), txnId, true);
      reply.Reply? && ShowsRule(t, reply.response)
  {
    StatusShowsLog(log, client, txnId);
    var reply := GetStatus(U.ApplyAll(map[], log), Some(client), txnId, true);
    if reply != Reply(NotDecided(txnId)) {
      var i: nat :| Newest(log, i, txnId, client) && reply == Reply(Decided(log[i].key, U.VerdictOf(log[i])));
      DecisionReadsBack(t, log[i]);
    }
  }

  /**
   End to end: events published over any behaviour of the breaker and the risk service, applied to the
   table, give every client a status whose decision is what the shared thresholds say of the score beside it.
   */
  lemma StatusObeysRule(
      log: S.Log10, c: S.Config, e: EngineConfig, k: CB.Keys, jobs: seq<Job>, client: string, txnId: string)
    requires SameRule(e.thresholds, c) && RepliesFrom(log, c, jobs) && txnId != ""
    ensures var reply := GetStatus(U.ApplyAll(map[], Engine(e, k, jobs).1), Some(client), txnId, true);
      reply.Reply? && ShowsRule(e.thresholds, reply.response)
  {
    var events := Engine(e, k, jobs).1;
    forall i | 0 <= i < |events| ensures ObeysRule(e.thresholds, events[i]) {
      EventsObeyRule(log, c, e, k, jobs, i);
    }
    ObeyedLogShows(e.thresholds, events, client, txnId);
  }

  // ---------------------------------------------------------------------------------------
  // The processes
  // ---------------------------------------------------------------------------------------

  class FraudEngine {
    const config: EngineConfig
    const breaker: CB.Breaker
    var published: seq<U.Event>

    constructor (e: EngineConfig)
      ensures config == e && breaker.config == e.breaker && breaker.Abs() == CB.NO_KEYS && published == [] && fresh(breaker)
    {
      config := e;
      breaker := new CB.Breaker(e.breaker);
      published := [];
    }

    /** The fallback score without a decision when the circuit is open or the call fails. */
    method CallRiskService(call: RiskCall) returns (score: int, decision: Decision)
      requires breaker.config == config.breaker
      modifies breaker
      ensures breaker.Abs() == KeysAfter(config.breaker, old(breaker.Abs()), call)
      ensures (score, decision) ==
              match Obtained(old(breaker.Abs()), call)
              case None => (config.fallback, Unspecified)
              case Some(r) => (r.score, r.decision)
    {
      var allowed, _ := breaker.Allow(call.askedAt, call.askUp);
      if !allowed {
        return config.fallback, Unspecified;
      }
      if call.reply == None {
        breaker.RecordFailure(call.toldAt, call.tellUp);
        return config.fallback, Unspecified;
      }
      breaker.RecordSuccess(call.toldAt, call.tellUp);
      return call.reply.value.score, call.reply.value.decision;
    }

    /** Steps 6 to 9 of the handler. */
    method Handle(job: Job)
      requires breaker.config == config.breaker
      modifies this, breaker
      ensures breaker.Abs() == KeysAfter(config.breaker, old(breaker.Abs()), job.call)
      ensures var event := Publish(config, old(breaker.Abs()), job);
        published == if job.written then old(published) + [event] else old(published)
    {
      var score, decision := CallRiskService(job.call);
      if decision == Unspecified {
        decision := ScoreToDecision(config.thresholds, score);
      }
      var event := U.Event(job.key, job.identity, decision, score, job.rules, job.processedAt, job.clientId);
      if job.written {
        published := published + [event];
      }
    }
  }

  /** The gateway's answer, filled in field by field. */
  method GetTransactionStatus(t: U.Table, client: Option<string>, txnId: string, up: bool) returns (r: StatusReply)
    ensures r == GetStatus(t, client, txnId, up)
  {
    if txnId == "" {
      return Fault(InvalidArgument);
    }
    if client == None {
      return Fault(Internal);
    }
    if !up {
      return Fault(Unavailable);
    }
    var found := Lookup(t, txnId, client.value);
    if found == None {
      return Reply(NotDecided(txnId));
    }
    var k := found.value;
    var v := t[k].verdict;
    var resp := NotDecided(txnId).(score := v.riskScore, submittedAt := Some(k.txnTimestamp));
    if v.decision == "APPROVED" {
      resp := resp.(status := Approved, fraudDecision := "APPROVE");
    } else if v.decision == "DECLINED" {
      resp := resp.(status := Declined, fraudDecision := "DECLINE");
    } else if v.decision == "REVIEW" {
      resp := resp.(status := InReview, fraudDecision := "REVIEW");
    } else {
      resp := resp.(status := Errored);
    }
    resp := resp.(decidedAt := Some(v.processedAt));
    r := Reply(resp);
  }
}
