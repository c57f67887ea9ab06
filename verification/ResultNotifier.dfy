/**
 The result notifier: it republishes each fraud result, byte for byte, to the topic of the client that
 owns it, or parks it in the dead-letter topic, and commits only after one of the two.
 */
module ResultNotifier {
  import opened Common
  import opened Wire
  import Backoff

  datatype Message = Message(offset: nat, key: Bytes, value: Bytes)

  datatype Result = Result(txnId: string, clientId: string)

  /** One partition of the internal results topic, with the protobuf decoder of its values. */
  datatype Partition = Partition(log: seq<Message>, unmarshal: Bytes -> Option<Result>) {
    predicate Valid() {
      forall i :: 0 <= i < |log| ==> log[i].offset == i
    }

    function Decode(value: Bytes): Option<Result> {
      Wire.Decode(unmarshal, value)
    }
  }

  datatype Config = Config(topicPrefix: string, retry: Backoff.Config)

  // ---------------------------------------------------------------------------------------
  // Routing
  // ---------------------------------------------------------------------------------------

  predicate TopicChar(c: char) {
    'a' <= c <= 'z' || 'A' <= c <= 'Z' || '0' <= c <= '9' || c == '.' || c == '_' || c == '-'
  }

  /** One to two hundred characters that are legal in a topic name. */
  predicate LegalId(id: string) {
    1 <= |id| <= 200 && forall i :: 0 <= i < |id| ==> TopicChar(id[i])
  }

  function ResolveTopic(prefix: string, id: string): Option<string> {
    if LegalId(id) then Some(prefix + id) else None
  }

  const UPPER := "ABCDEFGHIJKLMNOPQRSTUVWXYZ"
  const LOWER := "abcdefghijklmnopqrstuvwxyz"
  const OTHER := "0123456789._-"

  lemma UpperCharacters(c: char)
    ensures 'A' <= c <= 'Z' <==> c in UPPER
  {
    assert 'A' <= c <= 'Z' ==> UPPER[c as int - 'A' as int] == c;
  }

  lemma LowerCharacters(c: char)
    ensures 'a' <= c <= 'z' <==> c in LOWER
  {
    assert 'a' <= c <= 'z' ==> LOWER[c as int - 'a' as int] == c;
  }

  lemma OtherCharacters(c: char)
    ensures '0' <= c <= '9' || c == '.' || c == '_' || c == '-' <==> c in OTHER
  {
    assert '0' <= c <= '9' ==> OTHER[c as int - '0' as int] == c;
    assert OTHER[10] == '.' && OTHER[11] == '_' && OTHER[12] == '-';
  }

  /** The characters that are legal in a topic name. */
  predicate Legal(c: char) {
    c in UPPER || c in LOWER || c in OTHER
  }

  lemma LegalCharacters(c: char)
    ensures TopicChar(c) <==> Legal(c)
  {
    UpperCharacters(c);
    LowerCharacters(c);
    OtherCharacters(c);
  }

  /** Results go to the prefix and the id, for ids of at most two hundred legal characters and for no others. */
  lemma ResolvesExactly(prefix: string, id: string, topic: string)
    ensures ResolveTopic(prefix, id) == Some(topic) <==>
            topic == prefix + id && id != "" && |id| <= 200 && forall c :: c in id ==> Legal(c)
  {
    forall c | c in id ensures TopicChar(c) <==> Legal(c) {
      LegalCharacters(c);
    }
    assert (forall c :: c in id ==> Legal(c)) <==> forall i :: 0 <= i < |id| ==> TopicChar(id[i]);
  }

  /** No two clients share a topic. */
  lemma TopicsDistinct(prefix: string, a: string, b: string)
    requires ResolveTopic(prefix, a).Some? && ResolveTopic(prefix, a) == ResolveTopic(prefix, b)
    ensures a == b
  {
    assert (prefix + a)[|prefix|..] == a && (prefix + b)[|prefix|..] == b;
  }

  // ---------------------------------------------------------------------------------------
  // The state machine
  // ---------------------------------------------------------------------------------------

  /** What a topic holds of a message. */
  datatype Record = Record(key: Bytes, value: Bytes)

  type Topics = map<string, seq<Record>>

  /** A publish is acknowledged, or fails although the record may have been written. */
  datatype Reply = Acked | Failed(written: bool)

  datatype Env = Env(write: nat -> Reply, cancelled: nat -> bool, dlq: Reply, commitOk: bool)

  datatype Step = Fetched(env: Env) | FetchError | Crash

  datatype State = State(
    pos: nat, committed: nat, topics: Topics, dlq: seq<Record>,
    commits: seq<Message>,  // messages passed to CommitMessages
    failed: set<nat>)       // offsets of messages whose dead-letter publish failed

  function Initial(topics: Topics): State {
    State(0, 0, topics, [], [], {})
  }

  function RecordOf(m: Message): Record {
    Record(m.key, m.value)
  }

  function Held(topics: Topics, topic: string): seq<Record> {
    if topic in topics then topics[topic] else []
  }

  function Append(topics: Topics, topic: string, r: Record, reply: Reply): Topics {
    if reply == Failed(false) then topics else topics[topic := Held(topics, topic) + [r]]
  }

  datatype Publish = Publish(topics: Topics, ok: bool, calls: nat, waits: seq<real>)

  /** publishWithRetry from the given attempt on. */
  function Retry(c: Backoff.Config, topics: Topics, topic: string, r: Record, env: Env, attempt: nat, delay: real): Publish
    decreases c.maxAttempts - attempt
  {
    if attempt > c.maxAttempts then Publish(topics, false, 0, [])
    else
      var after := Append(topics, topic, r, env.write(attempt));
      if env.write(attempt) == Acked then Publish(after, true, 1, [])
      else if attempt == c.maxAttempts then Publish(after, false, 1, [])
      else if env.cancelled(attempt) then Publish(after, false, 1, [delay])
      else
        var rest := Retry(c, after, topic, r, env, attempt + 1, Backoff.NextDelay(c, delay));
        Publish(rest.topics, rest.ok, 1 + rest.calls, [delay] + rest.waits)
  }

  function Park(s: State, m: Message, reply: Reply): (State, bool) {
    (s.(dlq := if reply == Failed(false) then s.dlq else s.dlq + [RecordOf(m)],
        failed := if reply == Acked then s.failed else s.failed + {m.offset}),
     reply == Acked)
  }

  /** The topic of a message's owner, if it decodes and its client id is legal. */
  function TopicOf(c: Config, p: Partition, value: Bytes): Option<string> {
    match p.Decode(value)
    case None => None
    case Some(r) => ResolveTopic(c.topicPrefix, r.clientId)
  }

  function Handle(c: Config, p: Partition, s: State, m: Message, env: Env): (State, bool) {
    match TopicOf(c, p, m.value)
    case None => Park(s, m, env.dlq)
    case Some(topic) =>
      var r := Retry(c.retry, s.topics, topic, RecordOf(m), env, 1, c.retry.initialDelay);
      if r.ok then (s.(topics := r.topics), true) else Park(s.(topics := r.topics), m, env.dlq)
  }

  /** One turn of the loop; after a crash a new process starts at the committed offset. */
  function Next(c: Config, p: Partition, s: State, step: Step): State {
    match step
    case FetchError => s
    case Crash => s.(pos := s.committed)
    case Fetched(env) =>
      if s.pos >= |p.log| then s
      else
        var m := p.log[s.pos];
        var (after, ok) := Handle(c, p, s.(pos := s.pos + 1), m, env);
        if !ok then after
        else after.(commits := after.commits + [m], committed := if env.commitOk then m.offset + 1 else after.committed)
  }

  function Run(c: Config, p: Partition, s: State, steps: seq<Step>): State {
    if steps == [] then s else Next(c, p, Run(c, p, s, steps[..|steps| - 1]), steps[|steps| - 1])
  }

  // ---------------------------------------------------------------------------------------
  // What every step keeps
  // ---------------------------------------------------------------------------------------

  /** The message is, byte for byte, in its owner's topic or in the dead-letter topic. */
  predicate Settled(c: Config, p: Partition, s: State, m: Message) {
    var topic := TopicOf(c, p, m.value);
    (topic.Some? && RecordOf(m) in Held(s.topics, topic.value)) || RecordOf(m) in s.dlq
  }

  /** Every record of a results topic belongs to the client the topic is named after. */
  ghost predicate Isolated(c: Config, p: Partition, topics: Topics) {
    forall t :: t in topics ==> forall r :: r in topics[t] ==> TopicOf(c, p, r.value) == Some(t)
  }

  ghost predicate Inv(c: Config, p: Partition, s: State) {
    && s.committed <= s.pos <= |p.log|
    && Isolated(c, p, s.topics)
    && (forall m :: m in s.commits ==> Settled(c, p, s, m))
    && (forall i :: 0 <= i < s.pos ==> Settled(c, p, s, p.log[i]) || i in s.failed)
  }

  /** Topics only grow. */
  ghost predicate Grown(s: Topics, t: Topics) {
    forall topic, r :: r in Held(s, topic) ==> r in Held(t, topic)
  }

  lemma AppendGrows(c: Config, p: Partition, topics: Topics, topic: string, r: Record, reply: Reply)
    requires Isolated(c, p, topics) && TopicOf(c, p, r.value) == Some(topic)
    ensures Isolated(c, p, Append(topics, topic, r, reply)) && Grown(topics, Append(topics, topic, r, reply))
    ensures reply == Acked ==> r in Held(Append(topics, topic, r, reply), topic)
  {
    if reply != Failed(false) {
      var after := Append(topics, topic, r, reply);
      assert after[topic] == Held(topics, topic) + [r];
      assert after[topic][|Held(topics, topic)|] == r;
    }
  }

  lemma {:induction false} RetryDelivers(
      c: Config, p: Partition, topics: Topics, topic: string, r: Record, env: Env, attempt: nat, delay: real)
    requires Isolated(c, p, topics) && TopicOf(c, p, r.value) == Some(topic)
    ensures var done := Retry(c.retry, topics, topic, r, env, attempt, delay);
      Isolated(c, p, done.topics) && Grown(topics, done.topics) && (done.ok ==> r in Held(done.topics, topic))
    decreases c.retry.maxAttempts - attempt
  {
    if attempt <= c.retry.maxAttempts {
      AppendGrows(c, p, topics, topic, r, env.write(attempt));
      RetryDelivers(c, p, Append(topics, topic, r, env.write(attempt)), topic, r, env, attempt + 1,
                    Backoff.NextDelay(c.retry, delay));
    }
  }

  /** At most maxAttempts publishes, with the same waits as the persistence service's retries. */
  lemma {:induction false} RetrySchedule(
      c: Backoff.Config, topics: Topics, topic: string, r: Record, env: Env, attempt: nat, delay: real)
    requires 1 <= attempt && (attempt <= c.maxAttempts ==> delay == Backoff.Wait(c, attempt - 1))
    ensures var done := Retry(c, topics, topic, r, env, attempt, delay);
      && done.calls <= Max(0, c.maxAttempts - attempt + 1) && |done.waits| <= done.calls
      && (attempt <= c.maxAttempts ==> |done.waits| <= c.maxAttempts - attempt && done.calls >= 1)
      && forall i :: 0 <= i < |done.waits| ==> done.waits[i] == Backoff.Wait(c, attempt - 1 + i)
    decreases c.maxAttempts - attempt
  {
    if attempt < c.maxAttempts && env.write(attempt) != Acked && !env.cancelled(attempt) {
      var after, next := Append(topics, topic, r, env.write(attempt)), Backoff.NextDelay(c, delay);
      assert next == Backoff.Wait(c, attempt);
      RetrySchedule(c, after, topic, r, env, attempt + 1, next);
      var rest := Retry(c, after, topic, r, env, attempt + 1, next);
      var waits := [delay] + rest.waits;
      forall i | 0 <= i < |waits| ensures waits[i] == Backoff.Wait(c, attempt - 1 + i) {
        if i > 0 {
          assert waits[i] == rest.waits[i - 1] == Backoff.Wait(c, (attempt + 1) - 1 + (i - 1));
        }
      }
    }
  }

  /** All the waiting of one retry. */
  lemma RetryWaitBounded(c: Backoff.Config, topics: Topics, topic: string, r: Record, env: Env)
    requires Backoff.Sane(c) && c.initialDelay <= c.maxDelay && c.maxAttempts >= 1
    ensures Backoff.Total(Retry(c, topics, topic, r, env, 1, c.initialDelay).waits) <= Backoff.Caps(c.maxAttempts - 1, c.maxDelay)
  {
    RetrySchedule(c, topics, topic, r, env, 1, c.initialDelay);
    Backoff.ScheduledWaitBounded(c, Retry(c, topics, topic, r, env, 1, c.initialDelay).waits);
  }

  lemma HandleSettles(c: Config, p: Partition, s: State, m: Message, env: Env)
    requires Isolated(c, p, s.topics)
    ensures var (after, ok) := Handle(c, p, s, m, env);
      && Isolated(c, p, after.topics) && Grown(s.topics, after.topics) && s.dlq <= after.dlq
      && (ok ==> Settled(c, p, after, m)) && (ok || m.offset in after.failed) && s.failed <= after.failed
      && after == s.(topics := after.topics, dlq := after.dlq, failed := after.failed)
  {
    match TopicOf(c, p, m.value)
    case None =>
      assert (s.dlq + [RecordOf(m)])[|s.dlq|] == RecordOf(m);
    case Some(topic) =>
      RetryDelivers(c, p, s.topics, topic, RecordOf(m), env, 1, c.retry.initialDelay);
      assert (s.dlq + [RecordOf(m)])[|s.dlq|] == RecordOf(m);
  }

  lemma SettledStays(c: Config, p: Partition, s: State, t: State, m: Message)
    requires Settled(c, p, s, m) && Grown(s.topics, t.topics) && s.dlq <= t.dlq
    ensures Settled(c, p, t, m)
  {
  }

  lemma NextKeepsInv(c: Config, p: Partition, s: State, step: Step)
    requires p.Valid() && Inv(c, p, s)
    ensures Inv(c, p, Next(c, p, s, step))
  {
    if step.Fetched? && s.pos < |p.log| {
      var m, t := p.log[s.pos], Next(c, p, s, step);
      HandleSettles(c, p, s.(pos := s.pos + 1), m, step.env);
      forall x | Settled(c, p, s, x) ensures Settled(c, p, t, x) {
        SettledStays(c, p, s, t, x);
      }
    }
  }

  lemma {:induction false} RunKeepsInv(c: Config, p: Partition, topics: Topics, steps: seq<Step>)
    requires p.Valid() && Isolated(c, p, topics)
    ensures Inv(c, p, Run(c, p, Initial(topics), steps))
  {
    if steps != [] {
      RunKeepsInv(c, p, topics, steps[..|steps| - 1]);
      NextKeepsInv(c, p, Run(c, p, Initial(topics), steps[..|steps| - 1]), steps[|steps| - 1]);
    }
  }

  // ---------------------------------------------------------------------------------------
  // Theorems over whole runs, with any failures, crashes and restarts
  // ---------------------------------------------------------------------------------------

  /** Whatever is committed was routed to its owner or parked, byte for byte. */
  lemma RouteOrPark(c: Config, p: Partition, topics: Topics, steps: seq<Step>, m: Message)
    requires p.Valid() && Isolated(c, p, topics)
    ensures var s := Run(c, p, Initial(topics), steps); m in s.commits ==> Settled(c, p, s, m)
  {
    RunKeepsInv(c, p, topics, steps);
  }

  /** A client's topic never holds another client's result. */
  lemma TenantIsolation(c: Config, p: Partition, topics: Topics, steps: seq<Step>, id: string, topic: string, r: Record)
    requires p.Valid() && Isolated(c, p, topics) && ResolveTopic(c.topicPrefix, id) == Some(topic)
    requires r in Held(Run(c, p, Initial(topics), steps).topics, topic)
    ensures p.Decode(r.value).Some? && p.Decode(r.value).value.clientId == id
  {
    RunKeepsInv(c, p, topics, steps);
    TopicsDistinct(c.topicPrefix, id, p.Decode(r.value).value.clientId);
  }

  /** Read as a watermark: everything below the committed offset is settled, or its dead-letter publish failed. */
  lemma WatermarkSafety(c: Config, p: Partition, topics: Topics, steps: seq<Step>)
    requires p.Valid() && Isolated(c, p, topics)
    ensures var s := Run(c, p, Initial(topics), steps);
      s.committed <= |p.log| && forall i :: 0 <= i < s.committed ==> Settled(c, p, s, p.log[i]) || i in s.failed
  {
    RunKeepsInv(c, p, topics, steps);
  }

  // ---------------------------------------------------------------------------------------
  // When failed dead-letter publishes lose messages
  // ---------------------------------------------------------------------------------------

  const DOWN := Env(_ => Failed(false), _ => false, Failed(false), true)
  const UP := Env(_ => Acked, _ => false, Acked, true)

  lemma {:induction false} NothingWritten(c: Backoff.Config, topics: Topics, topic: string, r: Record, attempt: nat, delay: real)
    ensures var done := Retry(c, topics, topic, r, DOWN, attempt, delay); done.topics == topics && !done.ok
    decreases c.maxAttempts - attempt
  {
    if attempt < c.maxAttempts {
      NothingWritten(c, topics, topic, r, attempt + 1, Backoff.NextDelay(c, delay));
    }
  }

  /** While every publish fails the loop moves on and leaves nothing behind. */
  lemma DownTurn(c: Config, p: Partition, s: State)
    requires p.Valid() && s.pos < |p.log|
    ensures Next(c, p, s, Fetched(DOWN)) == s.(pos := s.pos + 1, failed := s.failed + {s.pos})
  {
    var topic := TopicOf(c, p, p.log[s.pos].value);
    if topic.Some? {
      NothingWritten(c.retry, s.topics, topic.value, RecordOf(p.log[s.pos]), 1, c.retry.initialDelay);
    }
  }

  lemma {:induction false} AllDown(c: Config, p: Partition, n: nat) returns (steps: seq<Step>)
    requires p.Valid() && n <= |p.log|
    ensures var s := Run(c, p, Initial(map[]), steps); s == Initial(map[]).(pos := n, failed := s.failed)
  {
    if n == 0 {
      steps := [];
    } else {
      var init := AllDown(c, p, n - 1);
      steps := init + [Fetched(DOWN)];
      assert steps[..|init|] == init;
      DownTurn(c, p, Run(c, p, Initial(map[]), init));
    }
  }

  /** The first message that gets through is the only one that anything holds. */
  lemma UpTurn(c: Config, p: Partition, s: State, m: Message)
    requires p.Valid() && s.pos < |p.log| && s.topics == map[] && s.dlq == []
    requires Settled(c, p, Next(c, p, s, Fetched(UP)), m)
    ensures RecordOf(m) == RecordOf(p.log[s.pos])
  {
    var t, r := Next(c, p, s, Fetched(UP)), RecordOf(p.log[s.pos]);
    assert forall x :: x in t.dlq ==> x == r;
    var topic := TopicOf(c, p, p.log[s.pos].value);
    if topic.Some? && c.retry.maxAttempts >= 1 {
      assert t.topics == map[topic.value := [] + [r]];
    } else {
      assert t.topics == map[];
    }
  }

  /**
   After failed dead-letter publishes the loop moves on, and the next commit passes the lost message for good:
   any message whose record differs from that of the next one can be lost, decodable or not.
   */
  lemma LaterCommitPassesFailure(c: Config, p: Partition, k: nat) returns (steps: seq<Step>)
    requires p.Valid() && k + 1 < |p.log| && RecordOf(p.log[k]) != RecordOf(p.log[k + 1])
    ensures var s := Run(c, p, Initial(map[]), steps);
      s.committed == s.pos == k + 2 && !Settled(c, p, s, p.log[k]) && k in s.failed
  {
    var before := AllDown(c, p, k + 1);
    var s := Run(c, p, Initial(map[]), before);
    var up, crashed := before + [Fetched(UP)], before + [Fetched(UP)] + [Crash];
    assert up[..|before|] == before && crashed[..|up|] == up;
    var t := Next(c, p, s, Fetched(UP));
    assert t.committed == k + 2;
    if Settled(c, p, t, p.log[k]) {
      UpTurn(c, p, s, p.log[k]);
    }
    steps := crashed;
    WatermarkSafety(c, p, map[], steps);
  }

  predicate AllAlike(p: Partition) {
    forall i, j :: 0 <= i < |p.log| && 0 <= j < |p.log| ==> RecordOf(p.log[i]) == RecordOf(p.log[j])
  }

  lemma {:induction false} NeighboursAlike(p: Partition, i: nat, j: nat)
    requires forall k :: 0 <= k && k + 1 < |p.log| ==> RecordOf(p.log[k]) == RecordOf(p.log[k + 1])
    requires i <= j < |p.log|
    ensures RecordOf(p.log[i]) == RecordOf(p.log[j])
  {
    if i < j {
      NeighboursAlike(p, i, j - 1);
      assert RecordOf(p.log[j - 1]) == RecordOf(p.log[j - 1 + 1]);
    }
  }

  lemma CommitsGrow(c: Config, p: Partition, s: State, step: Step)
    ensures s.commits <= Next(c, p, s, step).commits
  {
  }

  lemma {:induction false} CommittedSomething(c: Config, p: Partition, steps: seq<Step>)
    ensures var s := Run(c, p, Initial(map[]), steps);
      s.committed > 0 ==> exists m :: m in s.commits && m in p.log
  {
    if steps != [] {
      var init := steps[..|steps| - 1];
      CommittedSomething(c, p, init);
      var s, t := Run(c, p, Initial(map[]), init), Run(c, p, Initial(map[]), steps);
      if s.committed > 0 {
        var m :| m in s.commits && m in p.log;
        CommitsGrow(c, p, s, steps[|steps| - 1]);
        assert m in t.commits;
      } else if t.committed > 0 {
        var m := p.log[s.pos];
        assert t.commits == s.commits + [m] && t.commits[|s.commits|] == m;
        assert m in t.commits && m in p.log;
      }
    }
  }

  /**
   With any failures allowed, everything below the committed offset is settled on every run exactly when all
   messages of the partition are the same record: otherwise some failed dead-letter publish loses one.
   */
  lemma SettledBelowExactly(c: Config, p: Partition)
    requires p.Valid()
    ensures (forall steps: seq<Step>, i: nat | i < Run(c, p, Initial(map[]), steps).committed ::
               i < |p.log| && Settled(c, p, Run(c, p, Initial(map[]), steps), p.log[i]))
            <==> AllAlike(p)
  {
    if AllAlike(p) {
      forall steps: seq<Step>, i: nat | i < Run(c, p, Initial(map[]), steps).committed
        ensures i < |p.log| && Settled(c, p, Run(c, p, Initial(map[]), steps), p.log[i])
      {
        WatermarkSafety(c, p, map[], steps);
        CommittedSomething(c, p, steps);
        var m :| m in Run(c, p, Initial(map[]), steps).commits && m in p.log;
        RouteOrPark(c, p, map[], steps, m);
        assert RecordOf(m) == RecordOf(p.log[i]);
      }
    } else if k :| 0 <= k && k + 1 < |p.log| && RecordOf(p.log[k]) != RecordOf(p.log[k + 1]) {
      var steps := LaterCommitPassesFailure(c, p, k);
      var s := Run(c, p, Initial(map[]), steps);
      assert k < s.committed && !Settled(c, p, s, p.log[k]);
      assert !AllAlike(p);
    } else {
      forall i, j | 0 <= i < |p.log| && 0 <= j < |p.log| ensures RecordOf(p.log[i]) == RecordOf(p.log[j]) {
        NeighboursAlike(p, if i <= j then i else j, if i <= j then j else i);
      }
      assert false;
    }
  }

  // ---------------------------------------------------------------------------------------
  // What exactly is lost on a run
  // ---------------------------------------------------------------------------------------

  /** The given publish of a retry is made: none before it was acknowledged, and no wait was cut short. */
  ghost predicate Called(c: Backoff.Config, env: Env, attempt: nat) {
    1 <= attempt <= c.maxAttempts && forall b :: 1 <= b < attempt ==> env.write(b) != Acked && !env.cancelled(b)
  }

  /** From the given attempt on, some publish of the retry is acknowledged. */
  ghost predicate Acknowledged(c: Backoff.Config, env: Env, attempt: nat) {
    exists a :: attempt <= a && Called(c, env, a) && env.write(a) == Acked
  }

  /** From the given attempt on, some publish of the retry reaches the topic. */
  ghost predicate Lands(c: Backoff.Config, env: Env, attempt: nat) {
    exists a :: attempt <= a && Called(c, env, a) && env.write(a) != Failed(false)
  }

  /** The first publish decides, or else the later ones do. */
  lemma RepliesFrom(c: Backoff.Config, env: Env, attempt: nat)
    requires Called(c, env, attempt)
    ensures var more := attempt < c.maxAttempts && env.write(attempt) != Acked && !env.cancelled(attempt);
      && (more ==> Called(c, env, attempt + 1))
      && (Acknowledged(c, env, attempt) <==> env.write(attempt) == Acked || (more && Acknowledged(c, env, attempt + 1)))
      && (Lands(c, env, attempt) <==> env.write(attempt) != Failed(false) || (more && Lands(c, env, attempt + 1)))
  {
    forall a | attempt < a && Called(c, env, a)
      ensures attempt < c.maxAttempts && env.write(attempt) != Acked && !env.cancelled(attempt)
    {
    }
  }

  lemma {:induction false} RetryFromReplies(
      c: Backoff.Config, topics: Topics, topic: string, r: Record, env: Env, attempt: nat, delay: real, t: string, x: Record)
    requires Called(c, env, attempt)
    ensures var done := Retry(c, topics, topic, r, env, attempt, delay);
      && (done.ok <==> Acknowledged(c, env, attempt))
      && (x in Held(done.topics, t) <==> x in Held(topics, t) || (t == topic && x == r && Lands(c, env, attempt)))
    decreases c.maxAttempts - attempt
  {
    RepliesFrom(c, env, attempt);
    var after := Append(topics, topic, r, env.write(attempt));
    assert x in Held(after, t) <==> x in Held(topics, t) || (t == topic && x == r && env.write(attempt) != Failed(false));
    if env.write(attempt) != Acked && attempt < c.maxAttempts && !env.cancelled(attempt) {
      RetryFromReplies(c, after, topic, r, env, attempt + 1, Backoff.NextDelay(c, delay), t, x);
    }
  }

  /** Handling the message ends well: its retry or its dead-letter publish is acknowledged. */
  ghost predicate EndsWell(c: Config, p: Partition, m: Message, env: Env) {
    (TopicOf(c, p, m.value).Some? && Acknowledged(c.retry, env, 1)) || env.dlq == Acked
  }

  /** Handling the message writes its record somewhere, acknowledged or not. */
  ghost predicate Writes(c: Config, p: Partition, m: Message, env: Env) {
    var routed := TopicOf(c, p, m.value).Some?;
    (routed && Lands(c.retry, env, 1)) || (!(routed && Acknowledged(c.retry, env, 1)) && env.dlq != Failed(false))
  }

  lemma HandleFromReplies(c: Config, p: Partition, s: State, m: Message, env: Env, x: Message)
    ensures var (after, ok) := Handle(c, p, s, m, env);
      && (ok <==> EndsWell(c, p, m, env))
      && (Settled(c, p, after, x) <==> Settled(c, p, s, x) || (RecordOf(x) == RecordOf(m) && Writes(c, p, m, env)))
  {
    var topic := TopicOf(c, p, m.value);
    if topic.Some? && c.retry.maxAttempts >= 1 {
      assert Called(c.retry, env, 1);
      var t := TopicOf(c, p, x.value);
      RetryFromReplies(c.retry, s.topics, topic.value, RecordOf(m), env, 1, c.retry.initialDelay,
                       if t.Some? then t.value else topic.value, RecordOf(x));
    }
  }

  /** The turn handles a message with the record of x and writes it. */
  ghost predicate WritesRecord(c: Config, p: Partition, s: State, step: Step, x: Message) {
    step.Fetched? && s.pos < |p.log| && RecordOf(p.log[s.pos]) == RecordOf(x) && Writes(c, p, p.log[s.pos], step.env)
  }

  /** The turn handles a later message well and commits it. */
  ghost predicate CommitsPast(c: Config, p: Partition, s: State, step: Step, i: nat) {
    step.Fetched? && i < s.pos < |p.log| && EndsWell(c, p, p.log[s.pos], step.env) && step.env.commitOk
  }

  lemma TurnFromReplies(c: Config, p: Partition, s: State, step: Step, i: nat)
    requires p.Valid() && i < |p.log| && s.committed <= s.pos
    ensures var t := Next(c, p, s, step);
      && (Settled(c, p, t, p.log[i]) <==> Settled(c, p, s, p.log[i]) || WritesRecord(c, p, s, step, p.log[i]))
      && (!WritesRecord(c, p, s, step, p.log[i]) ==>
            (i < t.committed <==> i < s.committed || CommitsPast(c, p, s, step, i)))
  {
    if step.Fetched? && s.pos < |p.log| {
      HandleFromReplies(c, p, s.(pos := s.pos + 1), p.log[s.pos], step.env, p.log[i]);
      HandleFromReplies(c, p, s.(pos := s.pos + 1), p.log[s.pos], step.env, p.log[s.pos]);
    }
  }

  ghost predicate NeverWritten(c: Config, p: Partition, topics: Topics, steps: seq<Step>, i: nat)
    requires i < |p.log|
  {
    forall j :: 0 <= j < |steps| ==> !WritesRecord(c, p, Run(c, p, Initial(topics), steps[..j]), steps[j], p.log[i])
  }

  ghost predicate CommittedPast(c: Config, p: Partition, topics: Topics, steps: seq<Step>, i: nat) {
    exists j :: 0 <= j < |steps| && CommitsPast(c, p, Run(c, p, Initial(topics), steps[..j]), steps[j], i)
  }

  /** A message below the committed offset that no topic holds. */
  predicate Lost(c: Config, p: Partition, s: State, i: nat)
    requires i < |p.log|
  {
    i < s.committed && !Settled(c, p, s, p.log[i])
  }

  lemma NeverWrittenSnoc(c: Config, p: Partition, topics: Topics, init: seq<Step>, step: Step, i: nat)
    requires i < |p.log|
    ensures NeverWritten(c, p, topics, init + [step], i) <==>
      NeverWritten(c, p, topics, init, i) && !WritesRecord(c, p, Run(c, p, Initial(topics), init), step, p.log[i])
  {
    var steps := init + [step];
    assert steps[..|init|] == init;
    assert forall j :: 0 <= j < |init| ==> steps[..j] == init[..j] && steps[j] == init[j];
  }

  lemma CommittedPastSnoc(c: Config, p: Partition, topics: Topics, init: seq<Step>, step: Step, i: nat)
    ensures CommittedPast(c, p, topics, init + [step], i) <==>
      CommittedPast(c, p, topics, init, i) || CommitsPast(c, p, Run(c, p, Initial(topics), init), step, i)
  {
    var steps := init + [step];
    assert steps[..|init|] == init;
    assert forall j :: 0 <= j < |init| ==> steps[..j] == init[..j] && steps[j] == init[j];
  }

  lemma {:induction false} RunFromReplies(c: Config, p: Partition, topics: Topics, steps: seq<Step>, i: nat)
    requires p.Valid() && Isolated(c, p, topics) && i < |p.log|
    ensures var s := Run(c, p, Initial(topics), steps);
      && (!Settled(c, p, s, p.log[i]) <==>
            !Settled(c, p, Initial(topics), p.log[i]) && NeverWritten(c, p, topics, steps, i))
      && (NeverWritten(c, p, topics, steps, i) ==> (i < s.committed <==> CommittedPast(c, p, topics, steps, i)))
  {
    if steps == [] {
      assert NeverWritten(c, p, topics, steps, i) && !CommittedPast(c, p, topics, steps, i);
    } else {
      var init, step := steps[..|steps| - 1], steps[|steps| - 1];
      assert steps == init + [step];
      RunFromReplies(c, p, topics, init, i);
      RunKeepsInv(c, p, topics, init);
      TurnFromReplies(c, p, Run(c, p, Initial(topics), init), step, i);
      NeverWrittenSnoc(c, p, topics, init, step, i);
      CommittedPastSnoc(c, p, topics, init, step, i);
    }
  }

  /**
   On every run, a message is lost exactly when every publish made of it failed unwritten, of its retries and to
   the dead-letter topic alike, and a commit of a later message succeeded.
   */
  lemma LostExactly(c: Config, p: Partition, topics: Topics, steps: seq<Step>, i: nat)
    requires p.Valid() && Isolated(c, p, topics) && i < |p.log|
    ensures Lost(c, p, Run(c, p, Initial(topics), steps), i) <==>
            && !Settled(c, p, Initial(topics), p.log[i])
            && NeverWritten(c, p, topics, steps, i) && CommittedPast(c, p, topics, steps, i)
  {
    RunFromReplies(c, p, topics, steps, i);
  }

  /** The turn handles the message at the offset, and fails to. */
  ghost predicate FailsOn(c: Config, p: Partition, s: State, step: Step, i: nat) {
    step.Fetched? && s.pos == i < |p.log| && !EndsWell(c, p, p.log[i], step.env)
  }

  ghost predicate FailedOn(c: Config, p: Partition, topics: Topics, steps: seq<Step>, i: nat) {
    exists j :: 0 <= j < |steps| && FailsOn(c, p, Run(c, p, Initial(topics), steps[..j]), steps[j], i)
  }

  lemma FailedOnSnoc(c: Config, p: Partition, topics: Topics, init: seq<Step>, step: Step, i: nat)
    ensures FailedOn(c, p, topics, init + [step], i) <==>
      FailedOn(c, p, topics, init, i) || FailsOn(c, p, Run(c, p, Initial(topics), init), step, i)
  {
    var steps := init + [step];
    assert steps[..|init|] == init;
    assert forall j :: 0 <= j < |init| ==> steps[..j] == init[..j] && steps[j] == init[j];
  }

  lemma TurnFails(c: Config, p: Partition, s: State, step: Step, i: nat)
    requires p.Valid()
    ensures i in Next(c, p, s, step).failed <==> i in s.failed || FailsOn(c, p, s, step, i)
    ensures Next(c, p, s, step).pos == match step
      case Fetched(_) => if s.pos < |p.log| then s.pos + 1 else s.pos
      case FetchError => s.pos
      case Crash => s.committed
  {
    if step.Fetched? && s.pos < |p.log| {
      HandleFromReplies(c, p, s.(pos := s.pos + 1), p.log[s.pos], step.env, p.log[s.pos]);
    }
  }

  /** The failed messages are exactly those of which some turn had neither publish acknowledged. */
  lemma {:induction false} FailedExactly(c: Config, p: Partition, topics: Topics, steps: seq<Step>, i: nat)
    requires p.Valid()
    ensures i in Run(c, p, Initial(topics), steps).failed <==> FailedOn(c, p, topics, steps, i)
  {
    if steps != [] {
      var init, step := steps[..|steps| - 1], steps[|steps| - 1];
      assert steps == init + [step];
      FailedExactly(c, p, topics, init, i);
      TurnFails(c, p, Run(c, p, Initial(topics), init), step, i);
      FailedOnSnoc(c, p, topics, init, step, i);
    }
  }

  /** The process has committed all that it has read, and everything from an offset on is settled. */
  predicate SettledFrom(c: Config, p: Partition, s: State, from: nat) {
    from <= s.pos == s.committed <= |p.log| && forall i :: from <= i < s.pos ==> Settled(c, p, s, p.log[i])
  }

  lemma UpHandles(c: Config, p: Partition, m: Message)
    ensures EndsWell(c, p, m, UP)
  {
  }

  lemma UpKeepsSettled(c: Config, p: Partition, s: State, from: nat)
    requires p.Valid() && SettledFrom(c, p, s, from) && s.pos < |p.log| && Isolated(c, p, s.topics)
    ensures var u := Next(c, p, s, Fetched(UP));
      SettledFrom(c, p, u, from) && u.pos == s.pos + 1 && Isolated(c, p, u.topics)
  {
    var u, m := Next(c, p, s, Fetched(UP)), p.log[s.pos];
    UpHandles(c, p, m);
    HandleFromReplies(c, p, s.(pos := s.pos + 1), m, UP, m);
    HandleSettles(c, p, s.(pos := s.pos + 1), m, UP);
    forall i | from <= i < s.pos ensures Settled(c, p, u, p.log[i]) {
      SettledStays(c, p, s, u, p.log[i]);
    }
  }

  lemma RunSnoc(c: Config, p: Partition, s: State, init: seq<Step>, step: Step)
    ensures Run(c, p, s, init + [step]) == Next(c, p, Run(c, p, s, init), step)
  {
    assert (init + [step])[..|init|] == init;
  }

  lemma {:induction false} UpRun(c: Config, p: Partition, s: State, n: nat) returns (steps: seq<Step>, u: State)
    requires p.Valid() && SettledFrom(c, p, s, s.pos) && s.pos + n <= |p.log| && Isolated(c, p, s.topics)
    ensures |steps| == n && u == Run(c, p, s, steps) && forall j :: 0 <= j < n ==> steps[j] == Fetched(UP)
    ensures SettledFrom(c, p, u, s.pos) && u.pos == s.pos + n && Isolated(c, p, u.topics)
  {
    steps, u := [], s;
    if n > 0 {
      var init, before := UpRun(c, p, s, n - 1);
      UpKeepsSettled(c, p, before, s.pos);
      RunSnoc(c, p, s, init, Fetched(UP));
      steps, u := init + [Fetched(UP)], Next(c, p, before, Fetched(UP));
    }
  }

  /**
   Whatever has happened, a new process with nothing failing takes over at the committed offset, routes or parks
   everything from there on, and commits all of it.
   */
  lemma Recovers(c: Config, p: Partition, topics: Topics, before: seq<Step>) returns (steps: seq<Step>, u: State)
    requires p.Valid() && Isolated(c, p, topics)
    ensures var s := Run(c, p, Initial(topics), before);
      && (forall j :: 0 <= j < |steps| ==> steps[j] == Fetched(UP)) && u == Run(c, p, Next(c, p, s, Crash), steps)
      && SettledFrom(c, p, u, s.committed) && u.pos == |p.log|
  {
    RunKeepsInv(c, p, topics, before);
    var s := Run(c, p, Initial(topics), before);
    steps, u := UpRun(c, p, s.(pos := s.committed), |p.log| - s.committed);
  }

  // ---------------------------------------------------------------------------------------
  // The consumer
  // ---------------------------------------------------------------------------------------

  /** A turn of the loop without a crash. */
  predicate Loops(steps: seq<Step>) {
    forall i :: 0 <= i < |steps| ==> !steps[i].Crash?
  }

  /** The outcome of a retry, on top of the calls and waits made before it. */
  function After(rest: Publish, calls: nat, waits: seq<real>): Publish {
    Publish(rest.topics, rest.ok, calls + rest.calls, waits + rest.waits)
  }

  lemma RetryOnce(
      c: Backoff.Config, topics: Topics, topic: string, r: Record, env: Env, attempt: nat, delay: real, calls: nat, waits: seq<real>)
    requires attempt <= c.maxAttempts
    ensures var after, reply := Append(topics, topic, r, env.write(attempt)), env.write(attempt);
      After(Retry(c, topics, topic, r, env, attempt, delay), calls, waits) ==
      if reply == Acked then Publish(after, true, calls + 1, waits)
      else if attempt == c.maxAttempts then Publish(after, false, calls + 1, waits)
      else if env.cancelled(attempt) then Publish(after, false, calls + 1, waits + [delay])
      else After(Retry(c, after, topic, r, env, attempt + 1, Backoff.NextDelay(c, delay)), calls + 1, waits + [delay])
  {
    var after := Append(topics, topic, r, env.write(attempt));
    var rest := Retry(c, after, topic, r, env, attempt + 1, Backoff.NextDelay(c, delay));
    assert waits + ([delay] + rest.waits) == (waits + [delay]) + rest.waits;
    assert waits + [] == waits;
  }

  class Processor {
    const config: Config
    const partition: Partition
    var pos: nat
    var committed: nat
    var topics: Topics
    var dlq: seq<Record>
    ghost var commits: seq<Message>
    ghost var failed: set<nat>

    ghost function Abs(): State
      reads this
    {
      State(pos, committed, topics, dlq, commits, failed)
    }

    constructor (c: Config, p: Partition, topics: Topics)
      ensures config == c && partition == p && Abs() == Initial(topics)
    {
      config, partition, this.topics := c, p, topics;
      pos, committed, dlq := 0, 0, [];
      commits, failed := [], {};
    }

    method PublishWithRetry(topic: string, m: Message, env: Env) returns (ok: bool, calls: nat, waits: seq<real>)
      modifies `topics
      ensures Publish(topics, ok, calls, waits) ==
              Retry(config.retry, old(topics), topic, RecordOf(m), env, 1, config.retry.initialDelay)
    {
      ok, calls, waits := false, 0, [];
      var attempt, delay := 1, config.retry.initialDelay;
      ghost var whole := Retry(config.retry, topics, topic, RecordOf(m), env, attempt, delay);
      assert whole == After(whole, 0, []);
      while attempt <= config.retry.maxAttempts
        invariant attempt >= 1 && !ok
        invariant whole == After(Retry(config.retry, topics, topic, RecordOf(m), env, attempt, delay), calls, waits)
        decreases config.retry.maxAttempts - attempt
      {
        RetryOnce(config.retry, topics, topic, RecordOf(m), env, attempt, delay, calls, waits);
        var reply := env.write(attempt);
        topics := Append(topics, topic, RecordOf(m), reply);
        calls := calls + 1;
        if reply == Acked {
          ok := true;
          return;
        }
        if attempt < config.retry.maxAttempts {
          waits := waits + [delay];
          if env.cancelled(attempt) {
            return;
          }
          delay := Backoff.NextDelay(config.retry, delay);
        }
        attempt := attempt + 1;
      }
    }

    method ToDlq(m: Message, reply: Reply) returns (ok: bool)
      modifies `dlq, `failed
      ensures (Abs(), ok) == Park(old(Abs()), m, reply)
    {
      if reply != Failed(false) {
        dlq := dlq + [RecordOf(m)];
      }
      ok := reply == Acked;
      failed := if ok then failed else failed + {m.offset};
    }

    method HandleMessage(m: Message, env: Env) returns (ok: bool)
      modifies `topics, `dlq, `failed
      ensures (Abs(), ok) == Handle(config, partition, old(Abs()), m, env)
    {
      var result := partition.Decode(m.value);
      if result == None {
        ok := ToDlq(m, env.dlq);
        return;
      }
      var topic := ResolveTopic(config.topicPrefix, result.value.clientId);
      if topic == None {
        ok := ToDlq(m, env.dlq);
        return;
      }
      var calls, waits;
      ok, calls, waits := PublishWithRetry(topic.value, m, env);
      if !ok {
        ok := ToDlq(m, env.dlq);
      }
    }

    /** Handles one fetched message, and commits it unless handling failed. */
    method Consume(m: Message, env: Env)
      requires pos < |partition.log| && m == partition.log[pos]
      modifies this
      ensures Abs() == Next(config, partition, old(Abs()), Fetched(env))
    {
      pos := pos + 1;
      var ok := HandleMessage(m, env);
      if ok {
        commits := commits + [m];
        if env.commitOk {
          committed := m.offset + 1;
        }
      }
    }

    method RunLoop(steps: seq<Step>)
      requires Loops(steps)
      modifies this
      ensures Abs() == Run(config, partition, old(Abs()), steps)
    {
      var i := 0;
      while i < |steps|
        invariant 0 <= i <= |steps|
        invariant Abs() == Run(config, partition, old(Abs()), steps[..i])
      {
        assert steps[..i + 1][..i] == steps[..i];
        if steps[i].Fetched? && pos < |partition.log| {
          Consume(partition.log[pos], steps[i].env);
        }
        i := i + 1;
      }
      assert steps[..i] == steps;
    }
  }
}
