/**
 The transactions table and its upsert: the first writer of a row fixes the identity
 columns, the last writer fixes the decision columns.
 */
module UpsertStore {
  import opened Common

  /** The primary key (txn_id, txn_timestamp); timestamps are already parsed instants. */
  datatype Key = Key(txnId: string, txnTimestamp: int)

  /** Columns that an upsert leaves alone once the row exists. */
  datatype Identity = Identity(
    cardHash: string, maskedPan: string, amountMinor: int, currency: string, merchantId: string,
    terminalId: string, mcc: string, transactionType: string, channel: string, scheme: string, rrn: string)

  /** Columns that every upsert overwrites. */
  datatype Verdict = Verdict(
    status: string, riskScore: int, triggeredRules: seq<string>, decision: string, processedAt: int, clientId: string)

  datatype Row = Row(identity: Identity, verdict: Verdict)

  type Table = map<Key, Row>

  /** A decoded FraudResultEvent. */
  datatype Event = Event(
    key: Key, identity: Identity, decision: Decision, riskScore: int, triggeredRules: seq<string>,
    processedAt: int, clientId: string)

  function MapDecision(d: Decision): string {
    match d
    case Approve => "APPROVED"
    case Decline => "DECLINED"
    case Review => "REVIEW"
    case Unspecified => "UNKNOWN"
  }

  function VerdictOf(e: Event): Verdict {
    var decision := MapDecision(e.decision);
    Verdict(decision, e.riskScore, e.triggeredRules, decision, e.processedAt, e.clientId)
  }

  /** INSERT ... ON CONFLICT (txn_id, txn_timestamp) DO UPDATE. */
  function Upsert(t: Table, e: Event): Table {
    t[e.key := if e.key in t then t[e.key].(verdict := VerdictOf(e)) else Row(e.identity, VerdictOf(e))]
  }

  function ApplyAll(t: Table, es: seq<Event>): Table {
    if es == [] then t else Upsert(ApplyAll(t, es[..|es| - 1]), es[|es| - 1])
  }

  function KeysOf(es: seq<Event>): set<Key> {
    set e | e in es :: e.key
  }

  lemma KeysConcat(xs: seq<Event>, ys: seq<Event>)
    ensures KeysOf(xs + ys) == KeysOf(xs) + KeysOf(ys)
  {
    assert forall e :: e in xs + ys <==> e in xs || e in ys;
  }

  lemma {:induction false} ApplyConcat(t: Table, xs: seq<Event>, ys: seq<Event>)
    ensures ApplyAll(t, xs + ys) == ApplyAll(ApplyAll(t, xs), ys)
  {
    if ys == [] {
      assert xs + ys == xs;
    } else {
      assert (xs + ys)[..|xs + ys| - 1] == xs + ys[..|ys| - 1];
      ApplyConcat(t, xs, ys[..|ys| - 1]);
    }
  }

  /** A log adds the rows of its keys, never changes an identity, and rewrites only the rows of its keys. */
  lemma {:induction false} ApplyFrame(t: Table, es: seq<Event>)
    ensures ApplyAll(t, es).Keys == t.Keys + KeysOf(es)
    ensures forall k :: k in t ==> ApplyAll(t, es)[k].identity == t[k].identity
    ensures forall k :: k in t && k !in KeysOf(es) ==> ApplyAll(t, es)[k] == t[k]
  {
    if es != [] {
      var init, e := es[..|es| - 1], es[|es| - 1];
      ApplyFrame(t, init);
      KeysConcat(init, [e]);
      assert es == init + [e];
    }
  }

  // ---------------------------------------------------------------------------------------
  // What a table holds after a log of events, said without folding over the log
  // ---------------------------------------------------------------------------------------

  /** log[i] created the row of its key. */
  ghost predicate FirstWriter(log: seq<Event>, i: nat)
    requires i < |log|
  {
    log[i].key !in KeysOf(log[..i])
  }

  /** log[i] wrote the row of its key last. */
  ghost predicate LastWriter(log: seq<Event>, i: nat)
    requires i < |log|
  {
    log[i].key !in KeysOf(log[i + 1..])
  }

  lemma WriterAt(t: Table, log: seq<Event>, i: nat)
    requires i < |log|
    ensures log[i].key in ApplyAll(t, log)
    ensures FirstWriter(log, i) && log[i].key !in t ==> ApplyAll(t, log)[log[i].key].identity == log[i].identity
    ensures LastWriter(log, i) ==> ApplyAll(t, log)[log[i].key].verdict == VerdictOf(log[i])
  {
    var before := ApplyAll(t, log[..i]);
    assert log[..i + 1][..i] == log[..i];
    assert log == log[..i + 1] + log[i + 1..];
    ApplyFrame(t, log[..i]);
    ApplyConcat(t, log[..i + 1], log[i + 1..]);
    ApplyFrame(Upsert(before, log[i]), log[i + 1..]);
  }

  /**
   First writer wins the identity, last writer wins the verdict, rows no event mentions stay,
   and there are no other rows.
   */
  lemma UpsertMeaning(t: Table, log: seq<Event>)
    ensures ApplyAll(t, log).Keys == t.Keys + KeysOf(log)
    ensures forall k :: k in t ==> ApplyAll(t, log)[k].identity == t[k].identity
    ensures forall k :: k in t && k !in KeysOf(log) ==> ApplyAll(t, log)[k] == t[k]
    ensures forall i :: 0 <= i < |log| && FirstWriter(log, i) && log[i].key !in t ==>
      log[i].key in ApplyAll(t, log) && ApplyAll(t, log)[log[i].key].identity == log[i].identity
    ensures forall i :: 0 <= i < |log| && LastWriter(log, i) ==>
      log[i].key in ApplyAll(t, log) && ApplyAll(t, log)[log[i].key].verdict == VerdictOf(log[i])
  {
    ApplyFrame(t, log);
    forall i | 0 <= i < |log| && FirstWriter(log, i) && log[i].key !in t
      ensures log[i].key in ApplyAll(t, log) && ApplyAll(t, log)[log[i].key].identity == log[i].identity
    {
      WriterAt(t, log, i);
    }
    forall i | 0 <= i < |log| && LastWriter(log, i)
      ensures log[i].key in ApplyAll(t, log) && ApplyAll(t, log)[log[i].key].verdict == VerdictOf(log[i])
    {
      WriterAt(t, log, i);
    }
  }

  /** The decision column has one text for each decision, and the status column repeats it. */
  predicate SaysDecision(v: Verdict, d: Decision) {
    && v.status == v.decision && v.decision in {"APPROVED", "DECLINED", "REVIEW", "UNKNOWN"}
    && (v.decision == "APPROVED" <==> d == Approve) && (v.decision == "DECLINED" <==> d == Decline)
    && (v.decision == "REVIEW" <==> d == Review)
  }

  /** Column by column, a row says what the last event for it says. */
  lemma LastWriterColumns(t: Table, log: seq<Event>, i: nat)
    requires i < |log| && LastWriter(log, i)
    ensures log[i].key in ApplyAll(t, log)
    ensures var v, e := ApplyAll(t, log)[log[i].key].verdict, log[i];
      && SaysDecision(v, e.decision) && v.riskScore == e.riskScore && v.triggeredRules == e.triggeredRules
      && v.processedAt == e.processedAt && v.clientId == e.clientId
  {
    WriterAt(t, log, i);
  }

  // ---------------------------------------------------------------------------------------
  // Redelivery
  // ---------------------------------------------------------------------------------------

  /** A run of consecutive events that was applied: log[from..to]. */
  datatype Segment = Segment(from: nat, to: nat)

  /** The log position that the last segment reached. */
  function Position(segments: seq<Segment>): nat {
    if segments == [] then 0 else segments[|segments| - 1].to
  }

  /** Each segment restarts at or before the position the previous one reached, as a redelivery or a retry does. */
  predicate ValidDelivery(segments: seq<Segment>, n: nat) {
    forall i :: 0 <= i < |segments| ==>
      segments[i].from <= segments[i].to <= n && segments[i].from <= Position(segments[..i])
  }

  function Deliver(t: Table, log: seq<Event>, segments: seq<Segment>): Table
    requires ValidDelivery(segments, |log|)
  {
    if segments == [] then t
    else
      var init, last := segments[..|segments| - 1], segments[|segments| - 1];
      assert forall i :: 0 <= i < |init| ==> init[i] == segments[i] && init[..i] == segments[..i];
      ApplyAll(Deliver(t, log, init), log[last.from..last.to])
  }

  /** The table has the rows due by now, no row is out of place, and only keys still to be written differ from the final table. */
  ghost predicate Approaches(final: Table, due: set<Key>, s: Table, toCome: set<Key>) {
    && due <= s.Keys <= final.Keys
    && (forall k :: k in s ==> s[k].identity == final[k].identity)
    && (forall k :: k in s && k !in toCome ==> s[k].verdict == final[k].verdict)
  }

  /**
   s holds everything a table must hold once log[..c] has been applied, possibly out of step:
   all that is missing or stale will be rewritten by log[c..].
   */
  ghost predicate CaughtUp(t: Table, log: seq<Event>, s: Table, c: nat)
    requires c <= |log|
  {
    Approaches(ApplyAll(t, log), t.Keys + KeysOf(log[..c]), s, KeysOf(log[c..]))
  }

  lemma CaughtUpAtStart(t: Table, log: seq<Event>)
    ensures CaughtUp(t, log, t, 0)
  {
    assert log[0..] == log;
    ApplyFrame(t, log);
  }

  /** Going back in the log never hurts. */
  lemma CaughtUpEarlier(t: Table, log: seq<Event>, s: Table, c: nat, p: nat)
    requires p <= c <= |log| && CaughtUp(t, log, s, c)
    ensures CaughtUp(t, log, s, p)
  {
    assert log[..c] == log[..p] + log[p..c];
    assert log[p..] == log[p..c] + log[c..];
    KeysConcat(log[..p], log[p..c]);
    KeysConcat(log[p..c], log[c..]);
  }

  lemma KeysAround(log: seq<Event>, p: nat)
    requires p < |log|
    ensures KeysOf(log[..p + 1]) == KeysOf(log[..p]) + {log[p].key}
    ensures KeysOf(log[p..]) == {log[p].key} + KeysOf(log[p + 1..])
  {
    assert log[..p + 1] == log[..p] + [log[p]];
    KeysConcat(log[..p], [log[p]]);
    assert log[p..] == [log[p]] + log[p + 1..];
    KeysConcat([log[p]], log[p + 1..]);
  }

  lemma ApproachesStep(final: Table, due: set<Key>, s: Table, toCome: set<Key>, e: Event)
    requires Approaches(final, due, s, {e.key} + toCome) && e.key in final
    requires e.key !in due ==> final[e.key].identity == e.identity
    requires e.key !in toCome ==> final[e.key].verdict == VerdictOf(e)
    ensures Approaches(final, due + {e.key}, Upsert(s, e), toCome)
  {
  }

  lemma CaughtUpStep(t: Table, log: seq<Event>, s: Table, p: nat)
    requires p < |log| && CaughtUp(t, log, s, p)
    ensures CaughtUp(t, log, Upsert(s, log[p]), p + 1)
  {
    KeysAround(log, p);
    WriterAt(t, log, p);
    ApplyFrame(t, log);
    var due, e := t.Keys + KeysOf(log[..p]), log[p];
    ApproachesStep(ApplyAll(t, log), due, s, KeysOf(log[p + 1..]), e);
    assert t.Keys + KeysOf(log[..p + 1]) == due + {e.key};
  }

  lemma ApplyOneMore(t: Table, log: seq<Event>, p: nat, q: nat)
    requires p < q <= |log|
    ensures ApplyAll(t, log[p..q]) == Upsert(ApplyAll(t, log[p..q - 1]), log[q - 1])
  {
    assert log[p..q][..q - 1 - p] == log[p..q - 1];
  }

  lemma {:induction false} CaughtUpSegment(t: Table, log: seq<Event>, s: Table, c: nat, p: nat, q: nat)
    requires p <= c <= |log| && p <= q <= |log| && CaughtUp(t, log, s, c)
    ensures CaughtUp(t, log, ApplyAll(s, log[p..q]), q)
    decreases q
  {
    if p == q {
      CaughtUpEarlier(t, log, s, c, p);
    } else {
      CaughtUpSegment(t, log, s, c, p, q - 1);
      ApplyOneMore(s, log, p, q);
      CaughtUpStep(t, log, ApplyAll(s, log[p..q - 1]), q - 1);
    }
  }

  lemma CaughtUpAtEnd(t: Table, log: seq<Event>, s: Table)
    requires CaughtUp(t, log, s, |log|)
    ensures s == ApplyAll(t, log)
  {
    assert log[..|log|] == log;
    ApplyFrame(t, log);
  }

  lemma {:induction false} DeliveryCatchesUp(t: Table, log: seq<Event>, segments: seq<Segment>)
    requires ValidDelivery(segments, |log|)
    ensures Position(segments) <= |log|
    ensures CaughtUp(t, log, Deliver(t, log, segments), Position(segments))
  {
    if segments == [] {
      CaughtUpAtStart(t, log);
    } else {
      var init, last := segments[..|segments| - 1], segments[|segments| - 1];
      assert forall i :: 0 <= i < |init| ==> init[i] == segments[i] && init[..i] == segments[..i];
      DeliveryCatchesUp(t, log, init);
      CaughtUpSegment(t, log, Deliver(t, log, init), Position(init), last.from, last.to);
    }
  }

  /**
   At-least-once delivery converges: however often processing is cut short and resumed at or
   before the point it had reached, once the end of the log is reached the table is the one that
   a single pass leaves.
   */
  lemma RedeliveryConverges(t: Table, log: seq<Event>, segments: seq<Segment>)
    requires ValidDelivery(segments, |log|) && Position(segments) == |log|
    ensures Deliver(t, log, segments) == ApplyAll(t, log)
  {
    DeliveryCatchesUp(t, log, segments);
    CaughtUpAtEnd(t, log, Deliver(t, log, segments));
  }

  function AfterFailedAttempts(t: Table, batch: seq<Event>, kept: seq<nat>): Table {
    if kept == [] then t
    else
      var before, n := AfterFailedAttempts(t, batch, kept[..|kept| - 1]), kept[|kept| - 1];
      ApplyAll(before, if n <= |batch| then batch[..n] else batch)
  }

  /** Partial attempts at the batch log[a..b] keep the table caught up to a. */
  lemma {:induction false} FailedAttemptsKeepUp(
      t: Table, log: seq<Event>, s: Table, c: nat, a: nat, b: nat, kept: seq<nat>)
    requires a <= b <= |log| && a <= c <= |log| && CaughtUp(t, log, s, c)
    ensures CaughtUp(t, log, AfterFailedAttempts(s, log[a..b], kept), a)
  {
    if kept == [] {
      CaughtUpEarlier(t, log, s, c, a);
    } else {
      FailedAttemptsKeepUp(t, log, s, c, a, b, kept[..|kept| - 1]);
      var n := kept[|kept| - 1];
      var q := if n <= b - a then a + n else b;
      assert log[a..q] == if n <= |log[a..b]| then log[a..b][..n] else log[a..b];
      var before := AfterFailedAttempts(s, log[a..b], kept[..|kept| - 1]);
      CaughtUpSegment(t, log, before, a, a, q);
      CaughtUpEarlier(t, log, ApplyAll(before, log[a..q]), q, a);
    }
  }

  /** Failed attempts that applied any prefixes of a batch leave nothing behind once a later attempt succeeds. */
  lemma {:induction false} RetryConverges(t: Table, batch: seq<Event>, kept: seq<nat>)
    requires forall n :: n in kept ==> n <= |batch|
    ensures ApplyAll(AfterFailedAttempts(t, batch, kept), batch) == ApplyAll(t, batch)
  {
    CaughtUpAtStart(t, batch);
    FailedAttemptsKeepUp(t, batch, t, 0, 0, |batch|, kept);
    assert batch[0..|batch|] == batch;
    CaughtUpSegment(t, batch, AfterFailedAttempts(t, batch, kept), 0, 0, |batch|);
    CaughtUpAtEnd(t, batch, ApplyAll(AfterFailedAttempts(t, batch, kept), batch));
  }

  /** Resuming beyond the position reached, even below the furthest one, can leave a stale verdict for good. */
  lemma GapLeavesStaleVerdict(t: Table, a: Event, b: Event, c: Event)
    requires a.key == b.key != c.key && VerdictOf(a) != VerdictOf(b)
    ensures var log := [a, b, c];
      ApplyAll(ApplyAll(ApplyAll(t, log[0..2]), log[0..1]), log[2..3]) != ApplyAll(t, log)
  {
    var log := [a, b, c];
    var s := ApplyAll(ApplyAll(t, log[0..2]), log[0..1]);
    UpsertMeaning(ApplyAll(t, log[0..2]), log[0..1]);
    assert LastWriter(log[0..1], 0) && log[0..1][0] == a;
    UpsertMeaning(s, log[2..3]);
    UpsertMeaning(t, log);
    assert LastWriter(log, 1) && log[1] == b;
  }

  // ---------------------------------------------------------------------------------------
  // The store
  // ---------------------------------------------------------------------------------------

  /** What becomes of one batch sent to the database: stored, or failed after the server kept some rows. */
  datatype Fault = Stored | Failed(kept: nat)

  /** The part of the batch that reaches the table. */
  function Applied(es: seq<Event>, f: Fault): seq<Event> {
    match f
    case Stored => es
    case Failed(kept) => if kept <= |es| then es[..kept] else es
  }

  class Store {
    var table: Table

    constructor (t: Table)
      ensures table == t
    {
      table := t;
    }

    /** Queues one statement an event, sends the queue, then reads one result a statement. */
    method UpsertBatch(events: seq<Event>, fault: Fault) returns (ok: bool)
      modifies this
      ensures ok <==> events == [] || fault.Stored?
      ensures table == if events == [] then old(table) else ApplyAll(old(table), Applied(events, fault))
    {
      if |events| == 0 {
        return true;
      }
      var sent := Applied(events, fault);
      var i := 0;
      while i < |sent|
        invariant 0 <= i <= |sent|
        invariant table == ApplyAll(old(table), sent[..i])
      {
        assert sent[..i + 1][..i] == sent[..i];
        table := Upsert(table, sent[i]);
        i := i + 1;
      }
      assert sent[..i] == sent;
      ok := fault.Stored?;
    }
  }
}
