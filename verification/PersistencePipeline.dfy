/**
 The persistence service: it fetches fraud results from one partition log, batches them,
 upserts each batch with retries, dead-letters what cannot be stored, and commits offsets.

 The first half is the state machine of one consumer; the second half is the consumer itself.
 */
module PersistencePipeline {
  import opened Common
  import opened Wire
  import opened UpsertStore
  import Backoff

  datatype Message = Message(offset: nat, value: Bytes)

  /** One partition of the topic, with the protobuf decoder of its values. */
  datatype Partition = Partition(log: seq<Message>, unmarshal: Bytes -> Option<Event>) {
    predicate Valid() {
      forall i :: 0 <= i < |log| ==> log[i].offset == i
    }

    function Decode(m: Message): Option<Event> {
      Wire.Decode(unmarshal, m.value)
    }

    /** The decodable messages of log[a..b], in order. */
    function Good(a: nat, b: nat): seq<Message>
      requires a <= b <= |log|
    {
      if a == b then [] else
        var init := Good(a, b - 1);
        if Decode(log[b - 1]).Some? then init + [log[b - 1]] else init
    }

    /** The undecodable messages of log[a..b], in order. */
    function Bad(a: nat, b: nat): seq<Message>
      requires a <= b <= |log|
    {
      if a == b then [] else
        var init := Bad(a, b - 1);
        if Decode(log[b - 1]).Some? then init else init + [log[b - 1]]
    }

    /** The events that the decodable messages of log[a..b] carry, in order. */
    function Events(a: nat, b: nat): seq<Event>
      requires a <= b <= |log|
    {
      if a == b then [] else
        var init, d := Events(a, b - 1), Decode(log[b - 1]);
        if d.Some? then init + [d.value] else init
    }

    function AllEvents(): seq<Event> {
      Events(0, |log|)
    }

    /** Events and decodable messages correspond one to one. */
    lemma {:induction false} EventsDecode(a: nat, b: nat)
      requires a <= b <= |log|
      ensures |Events(a, b)| == |Good(a, b)|
      ensures forall i :: 0 <= i < |Good(a, b)| ==> Decode(Good(a, b)[i]) == Some(Events(a, b)[i])
    {
      if a < b {
        EventsDecode(a, b - 1);
      }
    }

    /** Splitting the log at a position in between. */
    lemma {:induction false} Split(a: nat, b: nat, c: nat)
      requires a <= b <= c <= |log|
      ensures Good(a, c) == Good(a, b) + Good(b, c)
      ensures Bad(a, c) == Bad(a, b) + Bad(b, c)
      ensures Events(a, c) == Events(a, b) + Events(b, c)
      decreases c
    {
      if b < c {
        Split(a, b, c - 1);
      }
    }

    lemma {:induction false} Members(a: nat, b: nat)
      requires a <= b <= |log|
      ensures forall i :: a <= i < b ==> log[i] in Good(a, b) || log[i] in Bad(a, b)
      ensures forall m :: m in Good(a, b) || m in Bad(a, b) ==> m in log[a..b]
    {
      if a < b {
        Members(a, b - 1);
        assert log[a..b] == log[a..b - 1] + [log[b - 1]];
      }
    }
  }

  datatype Config = Config(maxBatchSize: int, retry: Backoff.Config)

  // ---------------------------------------------------------------------------------------
  // What the surroundings do
  // ---------------------------------------------------------------------------------------

  /** Outcomes met by one flush: of each upsert attempt, each wait, each dead-letter publish, and the commit. */
  datatype FlushEnv = FlushEnv(fault: nat -> Fault, cancelled: nat -> bool, dlqOk: nat -> bool, commitOk: bool)

  datatype Fetch = Fetched | TimedOut | Cancelled

  /** Outcomes met by one turn of the loop. */
  datatype Turn = Turn(fetch: Fetch, dlqOk: bool, commitOk: bool, flush: FlushEnv, tick: bool, tickFlush: FlushEnv)

  /** A turn of the loop, or the death of the process while attempts at the pending batch had applied prefixes of it. */
  datatype Step = Loop(turn: Turn) | Crash(kept: seq<nat>)

  // ---------------------------------------------------------------------------------------
  // The state machine
  // ---------------------------------------------------------------------------------------

  /** Bookkeeping that the program does not keep but the theorems speak of. */
  datatype History = History(
    start: nat,                // where this process began reading
    mark: nat,                 // everything below was settled, everything pending lies above
    settled: seq<Message>,     // messages of flushed batches, this process
    poison: seq<Message>,      // undecodable messages, this process
    commits: seq<Message>,     // messages passed to CommitMessages, this process
    stored: seq<Message>,      // messages of batches whose upsert succeeded, all processes
    undelivered: seq<Message>, // messages whose dead-letter publish failed, all processes
    deadLettered: bool,        // some batch ran out of retries
    poisonMidBatch: bool)      // an undecodable message arrived while a batch was pending

  datatype State = State(
    table: Table, pos: nat, batch: seq<Message>, events: seq<Event>, committed: nat, dlq: seq<Message>,
    done: bool, history: History)

  function Initial(t: Table): State {
    State(t, 0, [], [], 0, [], false, History(0, 0, [], [], [], [], [], false, false))
  }

  datatype Attempts = Attempts(table: Table, failed: bool, calls: nat, waits: seq<real>)

  /** withRetry around the upsert of es, from the given attempt on. */
  function Retry(c: Backoff.Config, t: Table, es: seq<Event>, env: FlushEnv, attempt: nat, delay: real): Attempts
    decreases c.maxAttempts - attempt
  {
    if attempt > c.maxAttempts then Attempts(t, false, 0, [])
    else if es == [] then Attempts(t, false, 1, [])
    else
      var fault := env.fault(attempt);
      var after := ApplyAll(t, Applied(es, fault));
      if fault.Stored? then Attempts(after, false, 1, [])
      else if attempt == c.maxAttempts then Attempts(after, true, 1, [])
      else if env.cancelled(attempt) then Attempts(after, true, 1, [delay])
      else
        var rest := Retry(c, after, es, env, attempt + 1, Backoff.NextDelay(c, delay));
        Attempts(rest.table, rest.failed, 1 + rest.calls, [delay] + rest.waits)
  }

  function Chosen(ms: seq<Message>, ok: nat -> bool, want: bool): seq<Message> {
    if ms == [] then [] else
      var init := Chosen(ms[..|ms| - 1], ok, want);
      if ok(|ms| - 1) == want then init + [ms[|ms| - 1]] else init
  }

  /** processBatch and the truncation after it. */
  function Flush(c: Config, s: State, env: FlushEnv): State {
    if s.batch == [] then s
    else
      var r := Retry(c.retry, s.table, s.events, env, 1, c.retry.initialDelay);
      var h := s.history;
      State(
        r.table, s.pos, [], [],
        if env.commitOk then s.batch[|s.batch| - 1].offset + 1 else s.committed,
        if r.failed then s.dlq + Chosen(s.batch, env.dlqOk, true) else s.dlq,
        s.done,
        h.(mark := s.pos, settled := h.settled + s.batch, commits := h.commits + s.batch,
           stored := if !r.failed && r.calls > 0 then h.stored + s.batch else h.stored,
           undelivered := if r.failed then h.undelivered + Chosen(s.batch, env.dlqOk, false) else h.undelivered,
           deadLettered := h.deadLettered || r.failed))
  }

  /** Takes one fetched message: into the batch, or straight to the dead-letter topic. */
  function Take(p: Partition, s: State, m: Message, turn: Turn): State {
    var h := s.history;
    match p.Decode(m)
    case Some(e) => s.(pos := s.pos + 1, batch := s.batch + [m], events := s.events + [e])
    case None =>
      s.(pos := s.pos + 1,
         dlq := if turn.dlqOk then s.dlq + [m] else s.dlq,
         committed := if turn.commitOk then m.offset + 1 else s.committed,
         history := h.(mark := if s.batch == [] then s.pos + 1 else h.mark,
                       poison := h.poison + [m],
                       commits := h.commits + [m],
                       undelivered := if turn.dlqOk then h.undelivered else h.undelivered + [m],
                       poisonMidBatch := h.poisonMidBatch || s.batch != []))
  }

  function OnTick(c: Config, s: State, turn: Turn): State {
    if turn.tick then Flush(c, s, turn.tickFlush) else s
  }

  /** One turn of the loop in Run. */
  function LoopTurn(c: Config, p: Partition, s: State, turn: Turn): State {
    if s.done then s
    else
      match turn.fetch
      case Cancelled => Flush(c, s, turn.flush).(done := true)
      case TimedOut => OnTick(c, s, turn)
      case Fetched =>
        if s.pos >= |p.log| then OnTick(c, s, turn)
        else
          var taken := Take(p, s, p.log[s.pos], turn);
          OnTick(c, if |taken.batch| >= c.maxBatchSize then Flush(c, taken, turn.flush) else taken, turn)
  }

  /** A new process takes over from the committed offset. */
  function Restart(s: State, kept: seq<nat>): State {
    State(AfterFailedAttempts(s.table, s.events, kept), s.committed, [], [], s.committed, s.dlq, false,
          s.history.(start := s.committed, mark := s.committed, settled := [], poison := [], commits := []))
  }

  function Apply(c: Config, p: Partition, s: State, step: Step): State {
    match step
    case Loop(turn) => LoopTurn(c, p, s, turn)
    case Crash(kept) => Restart(s, kept)
  }

  function Run(c: Config, p: Partition, s: State, steps: seq<Step>): State {
    if steps == [] then s else Apply(c, p, Run(c, p, s, steps[..|steps| - 1]), steps[|steps| - 1])
  }

  // ---------------------------------------------------------------------------------------
  // Retries
  // ---------------------------------------------------------------------------------------

  /**
   From an attempt on: at least one call and at most one per attempt left, fewer waits than attempts,
   the waits of the backoff schedule, and failure only after the last attempt or a cancelled wait.
   */
  ghost predicate OnSchedule(c: Backoff.Config, r: Attempts, attempt: nat)
    requires attempt >= 1
  {
    && 1 <= r.calls <= c.maxAttempts - attempt + 1
    && |r.waits| <= r.calls && |r.waits| <= c.maxAttempts - attempt
    && (r.failed ==> |r.waits| == r.calls || r.calls == c.maxAttempts - attempt + 1)
    && forall i :: 0 <= i < |r.waits| ==> r.waits[i] == Backoff.Wait(c, attempt - 1 + i)
  }

  lemma ScheduleStep(c: Backoff.Config, rest: Attempts, attempt: nat, delay: real)
    requires attempt >= 1 && delay == Backoff.Wait(c, attempt - 1) && OnSchedule(c, rest, attempt + 1)
    ensures OnSchedule(c, Attempts(rest.table, rest.failed, 1 + rest.calls, [delay] + rest.waits), attempt)
  {
    var waits := [delay] + rest.waits;
    forall i | 0 <= i < |waits| ensures waits[i] == Backoff.Wait(c, attempt - 1 + i) {
      if i > 0 {
        assert waits[i] == rest.waits[i - 1] == Backoff.Wait(c, (attempt + 1) - 1 + (i - 1));
      }
    }
  }

  lemma {:induction false} RetrySchedule(
      c: Backoff.Config, t: Table, es: seq<Event>, env: FlushEnv, attempt: nat, delay: real)
    requires 1 <= attempt <= c.maxAttempts && delay == Backoff.Wait(c, attempt - 1)
    ensures OnSchedule(c, Retry(c, t, es, env, attempt, delay), attempt)
    decreases c.maxAttempts - attempt
  {
    if attempt < c.maxAttempts && es != [] && env.fault(attempt).Failed? && !env.cancelled(attempt) {
      var after, next := ApplyAll(t, Applied(es, env.fault(attempt))), Backoff.NextDelay(c, delay);
      assert next == Backoff.Wait(c, attempt);
      RetrySchedule(c, after, es, env, attempt + 1, next);
      ScheduleStep(c, Retry(c, after, es, env, attempt + 1, next), attempt, delay);
    }
  }

  /** The given attempt of a retry is made: all before it failed, and no wait was cut short. */
  ghost predicate Called(c: Backoff.Config, env: FlushEnv, attempt: nat) {
    1 <= attempt <= c.maxAttempts && forall b :: 1 <= b < attempt ==> env.fault(b).Failed? && !env.cancelled(b)
  }

  /** From the given attempt on, some attempt is made and stores the batch. */
  ghost predicate StoresFrom(c: Backoff.Config, env: FlushEnv, attempt: nat) {
    exists a :: attempt <= a && Called(c, env, a) && env.fault(a).Stored?
  }

  /** The first attempt decides, or else the later ones do. */
  lemma AttemptDecides(c: Backoff.Config, env: FlushEnv, attempt: nat)
    requires Called(c, env, attempt)
    ensures var more := attempt < c.maxAttempts && env.fault(attempt).Failed? && !env.cancelled(attempt);
      && (Called(c, env, attempt + 1) <==> more)
      && (!more ==> forall a :: attempt < a ==> !Called(c, env, a))
      && (StoresFrom(c, env, attempt) <==> env.fault(attempt).Stored? || (more && StoresFrom(c, env, attempt + 1)))
  {
    forall a | attempt < a && Called(c, env, a)
      ensures attempt < c.maxAttempts && env.fault(attempt).Failed? && !env.cancelled(attempt)
    {
    }
  }

  lemma {:induction false} AttemptsFrom(
      c: Backoff.Config, t: Table, es: seq<Event>, env: FlushEnv, attempt: nat, delay: real)
    requires es != [] && Called(c, env, attempt)
    ensures var r := Retry(c, t, es, env, attempt, delay);
      && (forall a: nat :: attempt <= a ==> (Called(c, env, a) <==> a < attempt + r.calls))
      && (r.failed <==> !StoresFrom(c, env, attempt))
    decreases c.maxAttempts - attempt
  {
    AttemptDecides(c, env, attempt);
    if attempt < c.maxAttempts && env.fault(attempt).Failed? && !env.cancelled(attempt) {
      var after := ApplyAll(t, Applied(es, env.fault(attempt)));
      AttemptsFrom(c, after, es, env, attempt + 1, Backoff.NextDelay(c, delay));
    }
  }

  /**
   The attempts that are made are exactly those before which every attempt failed and no wait was cancelled, and the
   retry fails exactly when none of them stores the batch.
   */
  lemma AttemptsExactly(c: Backoff.Config, t: Table, es: seq<Event>, env: FlushEnv)
    requires es != [] && c.maxAttempts >= 1
    ensures var r := Retry(c, t, es, env, 1, c.initialDelay);
      && (forall a: nat :: Called(c, env, a) <==> 1 <= a <= r.calls)
      && (r.failed <==> !exists a :: Called(c, env, a) && env.fault(a).Stored?)
  {
    assert Called(c, env, 1);
    AttemptsFrom(c, t, es, env, 1, c.initialDelay);
    assert StoresFrom(c, env, 1) <==> exists a :: Called(c, env, a) && env.fault(a).Stored?;
  }

  /** All the waiting of one retry. */
  lemma RetryWaitBounded(c: Backoff.Config, t: Table, es: seq<Event>, env: FlushEnv)
    requires Backoff.Sane(c) && c.initialDelay <= c.maxDelay && c.maxAttempts >= 1
    ensures Backoff.Total(Retry(c, t, es, env, 1, c.initialDelay).waits) <= Backoff.Caps(c.maxAttempts - 1, c.maxDelay)
  {
    RetrySchedule(c, t, es, env, 1, c.initialDelay);
    Backoff.ScheduledWaitBounded(c, Retry(c, t, es, env, 1, c.initialDelay).waits);
  }

  /** One attempt at log[a..b], with whatever part of it reached the table. */
  lemma AttemptKeepsUp(t: Table, log: seq<Event>, s: Table, a: nat, b: nat, fault: Fault)
    requires a < b <= |log| && CaughtUp(t, log, s, a)
    ensures var after := ApplyAll(s, Applied(log[a..b], fault));
      CaughtUp(t, log, after, a) && (fault.Stored? ==> CaughtUp(t, log, after, b))
  {
    var q := if fault.Stored? || fault.kept > b - a then b else a + fault.kept;
    assert Applied(log[a..b], fault) == log[a..q];
    CaughtUpSegment(t, log, s, a, a, q);
    CaughtUpEarlier(t, log, ApplyAll(s, log[a..q]), q, a);
  }

  /** What one attempt keeps of a table, and what a successful one makes of it, holds of the whole retry. */
  lemma {:induction false} RetryInvariant(
      c: Backoff.Config, t: Table, es: seq<Event>, env: FlushEnv, attempt: nat, delay: real,
      kept: Table -> bool, made: Table -> bool)
    requires es != [] && kept(t)
    requires forall x: Table, fault: Fault | kept(x) ::
      kept(ApplyAll(x, Applied(es, fault))) && (fault.Stored? ==> made(ApplyAll(x, Applied(es, fault))))
    ensures var r := Retry(c, t, es, env, attempt, delay);
      kept(r.table) && (!r.failed && attempt <= c.maxAttempts ==> made(r.table))
    decreases c.maxAttempts - attempt
  {
    if attempt < c.maxAttempts && env.fault(attempt).Failed? && !env.cancelled(attempt) {
      var after := ApplyAll(t, Applied(es, env.fault(attempt)));
      RetryInvariant(c, after, es, env, attempt + 1, Backoff.NextDelay(c, delay), kept, made);
    }
  }

  /** Retrying log[a..b] leaves the table caught up to b on success and still to a on failure. */
  lemma RetryKeepsUp(
      c: Backoff.Config, t: Table, log: seq<Event>, s: Table, a: nat, b: nat, env: FlushEnv, attempt: nat, delay: real)
    requires a < b <= |log| && attempt >= 1 && CaughtUp(t, log, s, a)
    ensures var r := Retry(c, s, log[a..b], env, attempt, delay);
      && CaughtUp(t, log, r.table, a)
      && (!r.failed && attempt <= c.maxAttempts ==> CaughtUp(t, log, r.table, b))
  {
    forall x: Table, fault: Fault | CaughtUp(t, log, x, a)
      ensures CaughtUp(t, log, ApplyAll(x, Applied(log[a..b], fault)), a)
      ensures fault.Stored? ==> CaughtUp(t, log, ApplyAll(x, Applied(log[a..b], fault)), b)
    {
      AttemptKeepsUp(t, log, x, a, b, fault);
    }
    RetryInvariant(c, s, log[a..b], env, attempt, delay,
                   x => a <= |log| && CaughtUp(t, log, x, a), x => b <= |log| && CaughtUp(t, log, x, b));
  }

  /** Whatever prefixes the failed attempts applied, a batch that is finally stored was in effect applied once. */
  lemma RetryStoresOnce(c: Backoff.Config, t: Table, es: seq<Event>, env: FlushEnv)
    requires es != [] && c.maxAttempts >= 1
    ensures var r := Retry(c, t, es, env, 1, c.initialDelay);
      !r.failed ==> r.table == ApplyAll(t, es)
  {
    CaughtUpAtStart(t, es);
    assert es[0..|es|] == es;
    RetryKeepsUp(c, t, es, t, 0, |es|, env, 1, c.initialDelay);
    RetrySchedule(c, t, es, env, 1, c.initialDelay);
    var r := Retry(c, t, es, env, 1, c.initialDelay);
    if !r.failed {
      CaughtUpAtEnd(t, es, r.table);
    }
  }

  // ---------------------------------------------------------------------------------------
  // What every step keeps
  // ---------------------------------------------------------------------------------------

  /** Fetched messages are in exactly one place: settled, pending or poison, each in log order. */
  ghost predicate InOrder(p: Partition, s: State) {
    var h := s.history;
    && h.start <= h.mark <= s.pos <= |p.log|
    && h.start <= s.committed <= s.pos
    && h.settled == p.Good(h.start, h.mark)
    && s.batch == p.Good(h.mark, s.pos)
    && s.events == p.Events(h.mark, s.pos)
    && h.poison == p.Bad(h.start, s.pos)
    && multiset(h.commits) == multiset(h.settled) + multiset(h.poison)
  }

  predicate BelowLimit(c: Config, s: State) {
    s.batch == [] || |s.batch| < c.maxBatchSize
  }

  /** m is in a stored batch or its publish to the dead-letter topic was attempted. */
  predicate Handled(s: State, m: Message) {
    m in s.history.stored || m in s.dlq || m in s.history.undelivered
  }

  ghost predicate CommitsHandled(s: State) {
    forall m :: m in s.history.settled || m in s.history.poison ==> Handled(s, m)
  }

  /** Nothing pending, and nothing lost, lies below the committed offset. */
  ghost predicate WatermarkKept(p: Partition, s: State) {
    && (!s.history.poisonMidBatch ==> s.committed <= s.history.mark)
    && (!s.history.poisonMidBatch ==>
          forall i :: 0 <= i < s.history.mark && i < |p.log| ==> Handled(s, p.log[i]))
  }

  /** The table is one pass over the log below mark, up to what redelivery will rewrite. */
  ghost predicate CaughtUpTo(t: Table, p: Partition, table: Table, mark: nat)
    requires mark <= |p.log|
  {
    && |p.Events(0, mark)| <= |p.AllEvents()|
    && CaughtUp(t, p.AllEvents(), table, |p.Events(0, mark)|)
  }

  ghost predicate TableKept(t: Table, p: Partition, s: State) {
    !s.history.poisonMidBatch && !s.history.deadLettered && s.history.mark <= |p.log| ==>
      CaughtUpTo(t, p, s.table, s.history.mark)
  }

  /** What holds at loop heads and also in between, when the batch may just have filled up. */
  ghost predicate Inv(c: Config, p: Partition, t: Table, s: State) {
    && InOrder(p, s)
    && (c.retry.maxAttempts >= 1 ==> CommitsHandled(s) && WatermarkKept(p, s) && TableKept(t, p, s))
  }

  lemma {:induction false} ChosenMembers(ms: seq<Message>, ok: nat -> bool)
    ensures forall m :: m in ms ==> m in Chosen(ms, ok, true) || m in Chosen(ms, ok, false)
  {
    if ms != [] {
      ChosenMembers(ms[..|ms| - 1], ok);
    }
  }

  /** The events below two positions of the log. */
  lemma EventsBelow(p: Partition, a: nat, b: nat)
    requires a <= b <= |p.log|
    ensures |p.Events(0, a)| <= |p.Events(0, b)| <= |p.AllEvents()|
    ensures p.AllEvents()[|p.Events(0, a)|..|p.Events(0, b)|] == p.Events(a, b)
  {
    p.Split(0, a, b);
    p.Split(0, b, |p.log|);
  }

  lemma CommittedOnce(commits: seq<Message>, settled: seq<Message>, poison: seq<Message>, ms: seq<Message>)
    requires multiset(commits) == multiset(settled) + multiset(poison)
    ensures multiset(commits + ms) == multiset(settled + ms) + multiset(poison)
    ensures multiset(commits + ms) == multiset(settled) + multiset(poison + ms)
  {
  }

  /** Every message above the mark is pending or poison, and a pending one lies below the fetch position. */
  lemma PendingCovered(p: Partition, s: State)
    requires p.Valid() && InOrder(p, s)
    ensures forall i :: s.history.mark <= i < s.pos ==> p.log[i] in s.batch || p.log[i] in s.history.poison
    ensures forall m :: m in s.batch ==> s.history.mark <= m.offset < s.pos
  {
    var h := s.history;
    p.Split(h.start, h.mark, s.pos);
    p.Members(h.mark, s.pos);
  }

  /** The decodable messages of a stretch of the log end with the one of greatest offset. */
  lemma {:induction false} BatchAscends(p: Partition, a: nat, b: nat)
    requires p.Valid() && a <= b <= |p.log|
    ensures var ms := p.Good(a, b); forall m :: m in ms ==> m.offset <= ms[|ms| - 1].offset
    ensures forall m :: m in p.Good(a, b) ==> m.offset < b
  {
    if a < b {
      BatchAscends(p, a, b - 1);
    }
  }

  lemma FlushConserves(c: Config, p: Partition, s: State, env: FlushEnv)
    requires p.Valid() && InOrder(p, s)
    ensures InOrder(p, Flush(c, s, env)) && Flush(c, s, env).batch == []
  {
    if s.batch != [] {
      p.Split(s.history.start, s.history.mark, s.pos);
      CommittedOnce(s.history.commits, s.history.settled, s.history.poison, s.batch);
      PendingCovered(p, s);
      assert s.batch[|s.batch| - 1] in s.batch;
    }
  }

  /** Flushing with at least one attempt handles the batch and forgets nothing. */
  lemma FlushHandlesBatch(c: Config, s: State, env: FlushEnv)
    requires c.retry.maxAttempts >= 1
    ensures forall m :: Handled(s, m) || m in s.batch ==> Handled(Flush(c, s, env), m)
  {
    if s.batch != [] {
      RetrySchedule(c.retry, s.table, s.events, env, 1, c.retry.initialDelay);
      ChosenMembers(s.batch, env.dlqOk);
    }
  }

  lemma FlushKeepsWatermark(c: Config, p: Partition, s: State, env: FlushEnv)
    requires p.Valid() && InOrder(p, s) && c.retry.maxAttempts >= 1
    requires CommitsHandled(s) && WatermarkKept(p, s)
    ensures CommitsHandled(Flush(c, s, env)) && WatermarkKept(p, Flush(c, s, env))
  {
    if s.batch != [] {
      var after := Flush(c, s, env);
      PendingCovered(p, s);
      FlushHandlesBatch(c, s, env);
      assert after.history.mark == s.pos && after.history.poison == s.history.poison;
      assert s.batch[|s.batch| - 1] in s.batch;
      forall i | !s.history.poisonMidBatch && 0 <= i < s.pos ensures Handled(after, p.log[i]) {
        if i < s.history.mark {
          assert Handled(s, p.log[i]);
        }
      }
    }
  }

  lemma FlushKeepsTable(c: Config, p: Partition, t: Table, s: State, env: FlushEnv)
    requires InOrder(p, s) && c.retry.maxAttempts >= 1 && TableKept(t, p, s)
    ensures TableKept(t, p, Flush(c, s, env))
  {
    var h := s.history;
    if s.batch != [] && !h.poisonMidBatch && !h.deadLettered {
      var a, b := |p.Events(0, h.mark)|, |p.Events(0, s.pos)|;
      EventsBelow(p, h.mark, s.pos);
      p.EventsDecode(h.mark, s.pos);
      RetryKeepsUp(c.retry, t, p.AllEvents(), s.table, a, b, env, 1, c.retry.initialDelay);
      RetrySchedule(c.retry, s.table, s.events, env, 1, c.retry.initialDelay);
    }
  }

  lemma FlushKeepsInv(c: Config, p: Partition, t: Table, s: State, env: FlushEnv)
    requires p.Valid() && Inv(c, p, t, s)
    ensures Inv(c, p, t, Flush(c, s, env)) && Flush(c, s, env).batch == []
  {
    FlushConserves(c, p, s, env);
    if c.retry.maxAttempts >= 1 {
      FlushKeepsWatermark(c, p, s, env);
      FlushKeepsTable(c, p, t, s, env);
    }
  }

  lemma TakeGoodConserves(p: Partition, s: State, turn: Turn)
    requires p.Valid() && InOrder(p, s) && s.pos < |p.log| && p.Decode(p.log[s.pos]).Some?
    ensures InOrder(p, Take(p, s, p.log[s.pos], turn))
  {
    var m, after := p.log[s.pos], Take(p, s, p.log[s.pos], turn);
    assert after.history == s.history && after.pos == s.pos + 1 && after.committed == s.committed;
    assert after.batch == s.batch + [m] && after.events == s.events + [p.Decode(m).value];
  }

  /** What an undecodable message does to each part of the log. */
  lemma BadNext(p: Partition, s: State)
    requires InOrder(p, s) && s.pos < |p.log| && p.Decode(p.log[s.pos]).None?
    ensures var h := s.history;
      && p.Bad(h.start, s.pos + 1) == h.poison + [p.log[s.pos]]
      && p.Good(h.mark, s.pos + 1) == s.batch
      && p.Events(h.mark, s.pos + 1) == s.events
      && (s.batch == [] ==> p.Good(h.start, s.pos + 1) == h.settled)
  {
    if s.batch == [] {
      p.Split(s.history.start, s.history.mark, s.pos + 1);
    }
  }

  lemma TakeBadConserves(p: Partition, s: State, turn: Turn)
    requires p.Valid() && InOrder(p, s) && s.pos < |p.log| && p.Decode(p.log[s.pos]).None?
    ensures InOrder(p, Take(p, s, p.log[s.pos], turn))
  {
    BadNext(p, s);
    CommittedOnce(s.history.commits, s.history.settled, s.history.poison, [p.log[s.pos]]);
    p.EventsDecode(s.history.mark, s.pos);
  }

  lemma MarkMoves(t: Table, p: Partition, table: Table, a: nat, b: nat)
    requires a <= b <= |p.log| && p.Events(a, b) == [] && CaughtUpTo(t, p, table, a)
    ensures CaughtUpTo(t, p, table, b)
  {
    assert |p.Events(0, a)| == |p.Events(0, b)| by {
      p.Split(0, a, b);
    }
  }

  lemma NothingPending(p: Partition, s: State)
    requires InOrder(p, s) && s.pos < |p.log| && s.batch == [] && p.Decode(p.log[s.pos]).None?
    ensures p.Events(s.history.mark, s.pos + 1) == []
  {
    p.EventsDecode(s.history.mark, s.pos);
  }

  lemma TakeKeepsTable(c: Config, p: Partition, t: Table, s: State, turn: Turn)
    requires InOrder(p, s) && s.pos < |p.log| && TableKept(t, p, s)
    requires s.batch == [] && p.Decode(p.log[s.pos]).None?
    ensures TableKept(t, p, Take(p, s, p.log[s.pos], turn))
  {
    NothingPending(p, s);
    if !s.history.poisonMidBatch && !s.history.deadLettered {
      MarkMoves(t, p, s.table, s.history.mark, s.pos + 1);
    }
  }

  lemma TakeKeepsWatermark(c: Config, p: Partition, s: State, turn: Turn)
    requires p.Valid() && InOrder(p, s) && s.pos < |p.log| && p.Decode(p.log[s.pos]).None?
    requires CommitsHandled(s) && WatermarkKept(p, s)
    ensures CommitsHandled(Take(p, s, p.log[s.pos], turn)) && WatermarkKept(p, Take(p, s, p.log[s.pos], turn))
  {
    var after := Take(p, s, p.log[s.pos], turn);
    PendingCovered(p, s);
    assert forall m :: Handled(s, m) || m == p.log[s.pos] ==> Handled(after, m);
    forall i | !after.history.poisonMidBatch && 0 <= i < after.history.mark && i < |p.log|
      ensures Handled(after, p.log[i])
    {
      if i < s.history.mark {
        assert Handled(s, p.log[i]);
      }
    }
  }

  lemma TakeKeepsInv(c: Config, p: Partition, t: Table, s: State, turn: Turn)
    requires p.Valid() && Inv(c, p, t, s) && s.pos < |p.log|
    ensures Inv(c, p, t, Take(p, s, p.log[s.pos], turn))
  {
    if p.Decode(p.log[s.pos]).Some? {
      TakeGoodConserves(p, s, turn);
    } else {
      TakeBadConserves(p, s, turn);
      if c.retry.maxAttempts >= 1 {
        TakeKeepsWatermark(c, p, s, turn);
        if s.batch == [] {
          TakeKeepsTable(c, p, t, s, turn);
        }
      }
    }
  }

  lemma RestartKeepsInv(c: Config, p: Partition, t: Table, s: State, kept: seq<nat>)
    requires p.Valid() && Inv(c, p, t, s)
    ensures Inv(c, p, t, Restart(s, kept))
  {
    var h, after := s.history, Restart(s, kept);
    if c.retry.maxAttempts >= 1 && !h.poisonMidBatch {
      forall i | 0 <= i < after.history.mark && i < |p.log| ensures Handled(after, p.log[i]) {
        assert Handled(s, p.log[i]);
      }
      if !h.deadLettered {
        EventsBelow(p, s.committed, h.mark);
        EventsBelow(p, h.mark, s.pos);
        var es, a, b := p.AllEvents(), |p.Events(0, h.mark)|, |p.Events(0, s.pos)|;
        FailedAttemptsKeepUp(t, es, s.table, a, a, b, kept);
        CaughtUpEarlier(t, es, after.table, a, |p.Events(0, s.committed)|);
      }
    }
  }

  lemma DoneKeepsInv(c: Config, p: Partition, t: Table, s: State)
    requires Inv(c, p, t, s)
    ensures Inv(c, p, t, s.(done := true))
  {
  }

  lemma TickKeepsInv(c: Config, p: Partition, t: Table, s: State, turn: Turn)
    requires p.Valid() && Inv(c, p, t, s) && BelowLimit(c, s)
    ensures Inv(c, p, t, OnTick(c, s, turn)) && BelowLimit(c, OnTick(c, s, turn))
  {
    FlushKeepsInv(c, p, t, s, turn.tickFlush);
  }

  lemma LoopKeepsInv(c: Config, p: Partition, t: Table, s: State, turn: Turn)
    requires p.Valid() && Inv(c, p, t, s) && BelowLimit(c, s) && !s.done
    ensures Inv(c, p, t, LoopTurn(c, p, s, turn)) && BelowLimit(c, LoopTurn(c, p, s, turn))
  {
    if turn.fetch.Cancelled? {
      FlushKeepsInv(c, p, t, s, turn.flush);
      DoneKeepsInv(c, p, t, Flush(c, s, turn.flush));
    } else if turn.fetch.Fetched? && s.pos < |p.log| {
      var taken := Take(p, s, p.log[s.pos], turn);
      TakeKeepsInv(c, p, t, s, turn);
      FlushKeepsInv(c, p, t, taken, turn.flush);
      TickKeepsInv(c, p, t, if |taken.batch| >= c.maxBatchSize then Flush(c, taken, turn.flush) else taken, turn);
    } else {
      TickKeepsInv(c, p, t, s, turn);
    }
  }

  lemma ApplyKeepsInv(c: Config, p: Partition, t: Table, s: State, step: Step)
    requires p.Valid() && Inv(c, p, t, s) && BelowLimit(c, s)
    ensures Inv(c, p, t, Apply(c, p, s, step)) && BelowLimit(c, Apply(c, p, s, step))
  {
    match step
    case Crash(kept) => RestartKeepsInv(c, p, t, s, kept);
    case Loop(turn) =>
      if !s.done {
        LoopKeepsInv(c, p, t, s, turn);
      }
  }

  // ---------------------------------------------------------------------------------------
  // Theorems over whole lives of the service: any turns, failures, ticks, crashes and restarts
  // ---------------------------------------------------------------------------------------

  lemma {:induction false} RunKeepsInv(c: Config, p: Partition, t: Table, steps: seq<Step>)
    requires p.Valid()
    ensures Inv(c, p, t, Run(c, p, Initial(t), steps)) && BelowLimit(c, Run(c, p, Initial(t), steps))
  {
    if steps == [] {
      CaughtUpAtStart(t, p.AllEvents());
    } else {
      RunKeepsInv(c, p, t, steps[..|steps| - 1]);
      ApplyKeepsInv(c, p, t, Run(c, p, Initial(t), steps[..|steps| - 1]), steps[|steps| - 1]);
    }
  }

  /**
   At every loop head: what this process fetched is, in log order, what it settled, then what is
   pending, with the undecodable messages set apart; event i decodes message i; the batch is below
   its size limit; and each settled or poison message was passed to CommitMessages exactly once.
   */
  lemma Conservation(c: Config, p: Partition, t: Table, steps: seq<Step>)
    requires p.Valid()
    ensures var s := Run(c, p, Initial(t), steps);
      && s.history.start <= s.pos <= |p.log|
      && p.Good(s.history.start, s.pos) == s.history.settled + s.batch
      && p.Bad(s.history.start, s.pos) == s.history.poison
      && |s.events| == |s.batch|
      && (forall i :: 0 <= i < |s.batch| ==> p.Decode(s.batch[i]) == Some(s.events[i]))
      && BelowLimit(c, s)
      && multiset(s.history.commits) == multiset(s.history.settled) + multiset(s.history.poison)
  {
    RunKeepsInv(c, p, t, steps);
    var s := Run(c, p, Initial(t), steps);
    p.Split(s.history.start, s.history.mark, s.pos);
    p.EventsDecode(s.history.mark, s.pos);
  }

  /** The chosen messages are those at the positions. */
  predicate ChosenAt(ms: seq<Message>, js: seq<nat>, chosen: seq<Message>) {
    |chosen| == |js| && forall a :: 0 <= a < |js| ==> js[a] < |ms| && chosen[a] == ms[js[a]]
  }

  lemma {:induction false} ChosenUpTo(ms: seq<Message>, ok: nat -> bool, want: bool, n: nat, test: nat -> bool)
    requires n <= |ms| && forall i :: test(i) <==> ok(i) == want
    ensures var js := Positions(n, test); var chosen := Chosen(ms[..n], ok, want);
      ChosenAt(ms, js, chosen)
  {
    if n > 0 {
      ChosenUpTo(ms, ok, want, n - 1, test);
      assert ms[..n][..n - 1] == ms[..n - 1];
      assert test(n - 1) <==> ok(n - 1) == want;
    }
  }

  /** The messages that stand at the positions where a test holds, in order. */
  predicate ChosenBy(ms: seq<Message>, test: nat -> bool, chosen: seq<Message>) {
    ChosenAt(ms, Positions(|ms|, test), chosen)
  }

  lemma ChosenExactly(ms: seq<Message>, ok: nat -> bool)
    ensures ChosenBy(ms, (i: nat) => ok(i), Chosen(ms, ok, true)) && ChosenBy(ms, (i: nat) => !ok(i), Chosen(ms, ok, false))
  {
    ChosenUpTo(ms, ok, true, |ms|, (i: nat) => ok(i));
    ChosenUpTo(ms, ok, false, |ms|, (i: nat) => !ok(i));
    assert ms[..|ms|] == ms;
  }

  /** The sequence is the other one with the chosen messages appended. */
  predicate Appends(before: seq<Message>, ms: seq<Message>, test: nat -> bool, after: seq<Message>) {
    before <= after && ChosenBy(ms, test, after[|before|..])
  }

  /** What a flush of a batch leaves in the places a message can end up in. */
  predicate Parks(s: State, env: FlushEnv, stores: bool, u: State) {
    if stores then
      && u.dlq == s.dlq && u.history.stored == s.history.stored + s.batch && u.history.undelivered == s.history.undelivered
    else
      && u.history.stored == s.history.stored && Appends(s.dlq, s.batch, (i: nat) => env.dlqOk(i), u.dlq)
      && Appends(s.history.undelivered, s.batch, (i: nat) => !env.dlqOk(i), u.history.undelivered)
  }

  lemma FlushParks(c: Config, s: State, env: FlushEnv)
    requires c.retry.maxAttempts >= 1 && s.batch != [] && s.events != []
    ensures var u := Flush(c, s, env);
      Parks(s, env, exists a :: Called(c.retry, env, a) && env.fault(a).Stored?, u)
  {
    AttemptsExactly(c.retry, s.table, s.events, env);
    assert Called(c.retry, env, 1);
    ChosenExactly(s.batch, env.dlqOk);
    var u, parked, missed := Flush(c, s, env), Chosen(s.batch, env.dlqOk, true), Chosen(s.batch, env.dlqOk, false);
    assert (s.dlq + parked)[|s.dlq|..] == parked;
    assert (s.history.undelivered + missed)[|s.history.undelivered|..] == missed;
  }

  /**
   A flush whose retries failed appends to the dead-letter topic, in the order of the batch, exactly the messages whose
   publish succeeded; a flush that stored its batch appends nothing.
   */
  lemma FlushParksExactly(c: Config, p: Partition, t: Table, steps: seq<Step>, env: FlushEnv)
    requires p.Valid() && c.retry.maxAttempts >= 1
    ensures var s := Run(c, p, Initial(t), steps); var u := Flush(c, s, env);
      s.batch != [] ==> Parks(s, env, exists a :: Called(c.retry, env, a) && env.fault(a).Stored?, u)
  {
    RunKeepsInv(c, p, t, steps);
    var s := Run(c, p, Initial(t), steps);
    if s.batch != [] {
      p.EventsDecode(s.history.mark, s.pos);
      FlushParks(c, s, env);
    }
  }

  /** The messages that a turn fetches. */
  function Fetches(p: Partition, s: State, turn: Turn): seq<Message> {
    if !s.done && turn.fetch == Fetched && s.pos < |p.log| then [p.log[s.pos]] else []
  }

  /** The turn ends with a flush: the loop is cancelled, or its ticker is due. */
  predicate FlushDue(turn: Turn) {
    turn.fetch == Cancelled || turn.tick
  }

  lemma FlushEmpties(c: Config, p: Partition, s: State, env: FlushEnv)
    requires InOrder(p, s)
    ensures Flush(c, s, env).batch == [] && Flush(c, s, env).events == []
  {
    p.EventsDecode(s.history.mark, s.pos);
  }

  /** A commit that succeeds passes the whole batch. */
  lemma FlushCommits(c: Config, s: State, env: FlushEnv, m: Message)
    requires env.commitOk && m in s.batch && m.offset <= s.batch[|s.batch| - 1].offset
    ensures m.offset < Flush(c, s, env).committed
  {
  }

  /** Within a batch that is in log order the last offset is the greatest. */
  lemma LastIsGreatest(p: Partition, s: State, m: Message)
    requires p.Valid() && InOrder(p, s) && m in s.batch
    ensures m.offset <= s.batch[|s.batch| - 1].offset
  {
    BatchAscends(p, s.history.mark, s.pos);
  }

  /** The process has the message pending or has dealt with it. */
  predicate Has(s: State, m: Message) {
    m in s.batch || Handled(s, m)
  }

  lemma FlushKeepsHold(c: Config, s: State, env: FlushEnv, m: Message)
    requires c.retry.maxAttempts >= 1 && Has(s, m)
    ensures Handled(Flush(c, s, env), m) || (s.batch == [] && Flush(c, s, env) == s)
  {
    FlushHandlesBatch(c, s, env);
  }

  lemma TakeGains(p: Partition, s: State, turn: Turn, m: Message)
    requires s.pos < |p.log| && (Has(s, m) || m == p.log[s.pos])
    ensures Has(Take(p, s, p.log[s.pos], turn), m)
  {
  }

  lemma TakeConserves(p: Partition, s: State, turn: Turn)
    requires p.Valid() && InOrder(p, s) && s.pos < |p.log|
    ensures InOrder(p, Take(p, s, p.log[s.pos], turn))
  {
    if p.Decode(p.log[s.pos]).Some? {
      TakeGoodConserves(p, s, turn);
    } else {
      TakeBadConserves(p, s, turn);
    }
  }

  /** The state of a turn that fetches a message, before its tick. */
  function Filled(c: Config, p: Partition, s: State, turn: Turn): State
    requires s.pos < |p.log|
  {
    var taken := Take(p, s, p.log[s.pos], turn);
    if |taken.batch| >= c.maxBatchSize then Flush(c, taken, turn.flush) else taken
  }

  lemma FilledConserves(c: Config, p: Partition, s: State, turn: Turn)
    requires p.Valid() && InOrder(p, s) && s.pos < |p.log|
    ensures var u := Filled(c, p, s, turn); InOrder(p, u) && u.pos == s.pos + 1 && u.done == s.done
  {
    TakeConserves(p, s, turn);
    FlushConserves(c, p, Take(p, s, p.log[s.pos], turn), turn.flush);
  }

  lemma FilledHas(c: Config, p: Partition, s: State, turn: Turn, m: Message)
    requires c.retry.maxAttempts >= 1 && s.pos < |p.log| && (Has(s, m) || m == p.log[s.pos])
    ensures Has(Filled(c, p, s, turn), m)
  {
    TakeGains(p, s, turn, m);
    FlushKeepsHold(c, Take(p, s, p.log[s.pos], turn), turn.flush, m);
  }

  /** A flush that is due settles all that the process has. */
  lemma FlushSettles(c: Config, p: Partition, s: State, env: FlushEnv, m: Message)
    requires p.Valid() && InOrder(p, s) && c.retry.maxAttempts >= 1
    ensures var u := Flush(c, s, env);
      u.batch == [] && u.events == [] && u.pos == s.pos && u.done == s.done && (Has(s, m) ==> Handled(u, m))
  {
    FlushEmpties(c, p, s, env);
    if Has(s, m) {
      FlushKeepsHold(c, s, env, m);
    }
  }

  lemma DueTurnSettles(c: Config, p: Partition, s: State, turn: Turn, m: Message)
    requires p.Valid() && InOrder(p, s) && c.retry.maxAttempts >= 1 && !s.done
    ensures var u := LoopTurn(c, p, s, turn);
      && u.pos == s.pos + |Fetches(p, s, turn)| && (u.done <==> turn.fetch == Cancelled)
      && (FlushDue(turn) ==> u.batch == [] && u.events == [] && (m in s.batch || m in Fetches(p, s, turn) ==> Handled(u, m)))
  {
    FlushSettles(c, p, s, turn.flush, m);
    FlushSettles(c, p, s, turn.tickFlush, m);
    if turn.fetch == Fetched && s.pos < |p.log| {
      FilledConserves(c, p, s, turn);
      if Has(s, m) || m == p.log[s.pos] {
        FilledHas(c, p, s, turn, m);
      }
      FlushSettles(c, p, Filled(c, p, s, turn), turn.tickFlush, m);
    }
  }

  /**
   A shutdown, and a due tick, leave nothing pending: every message that was pending or is fetched by the turn has
   been stored or sent to the dead-letter topic.  Only a shutdown ends the loop, and a loop that has ended stays so.
   */
  lemma DueFlushSettles(c: Config, p: Partition, t: Table, steps: seq<Step>, turn: Turn)
    requires p.Valid() && c.retry.maxAttempts >= 1
    ensures var s := Run(c, p, Initial(t), steps); var u := LoopTurn(c, p, s, turn);
      && (s.done ==> u == s)
      && (!s.done ==> u.pos == s.pos + |Fetches(p, s, turn)| && (u.done <==> turn.fetch == Cancelled))
      && (!s.done && FlushDue(turn) ==>
            u.batch == [] && u.events == [] && forall m :: m in s.batch || m in Fetches(p, s, turn) ==> Handled(u, m))
  {
    RunKeepsInv(c, p, t, steps);
    var s := Run(c, p, Initial(t), steps);
    if !s.done {
      forall m ensures m in s.batch || m in Fetches(p, s, turn) ==> FlushDue(turn) ==> Handled(LoopTurn(c, p, s, turn), m) {
        DueTurnSettles(c, p, s, turn, m);
      }
      DueTurnSettles(c, p, s, turn, Message(0, []));
    }
  }

  lemma FilledCommits(c: Config, p: Partition, s: State, turn: Turn, m: Message)
    requires p.Valid() && InOrder(p, s) && s.pos < |p.log| && m in s.batch && turn.flush.commitOk
    ensures var u := Filled(c, p, s, turn); m in u.batch || (u.batch == [] && m.offset < u.committed)
  {
    var taken := Take(p, s, p.log[s.pos], turn);
    TakeConserves(p, s, turn);
    assert m in taken.batch;
    LastIsGreatest(p, taken, m);
    FlushCommits(c, taken, turn.flush, m);
  }

  lemma TickCommits(c: Config, p: Partition, s: State, turn: Turn, m: Message)
    requires p.Valid() && InOrder(p, s) && turn.tick && turn.tickFlush.commitOk
    requires m in s.batch || (s.batch == [] && m.offset < s.committed)
    ensures m.offset < OnTick(c, s, turn).committed
  {
    if m in s.batch {
      LastIsGreatest(p, s, m);
      FlushCommits(c, s, turn.tickFlush, m);
    }
  }

  lemma DueTurnCommits(c: Config, p: Partition, s: State, turn: Turn, m: Message)
    requires p.Valid() && InOrder(p, s) && !s.done && FlushDue(turn) && m in s.batch
    requires turn.flush.commitOk && turn.tickFlush.commitOk
    ensures m.offset < LoopTurn(c, p, s, turn).committed
  {
    LastIsGreatest(p, s, m);
    if turn.fetch == Fetched && s.pos < |p.log| {
      FilledCommits(c, p, s, turn, m);
      FilledConserves(c, p, s, turn);
      TickCommits(c, p, Filled(c, p, s, turn), turn, m);
    } else if turn.fetch == Cancelled {
      FlushCommits(c, s, turn.flush, m);
    } else {
      TickCommits(c, p, s, turn, m);
    }
  }

  /** When its commit succeeds, such a flush leaves the committed offset past all that was pending. */
  lemma DueFlushCommits(c: Config, p: Partition, t: Table, steps: seq<Step>, turn: Turn)
    requires p.Valid() && FlushDue(turn) && turn.flush.commitOk && turn.tickFlush.commitOk
    ensures var s := Run(c, p, Initial(t), steps);
      !s.done ==> forall m :: m in s.batch ==> m.offset < LoopTurn(c, p, s, turn).committed
  {
    RunKeepsInv(c, p, t, steps);
    var s := Run(c, p, Initial(t), steps);
    forall m | m in s.batch && !s.done ensures m.offset < LoopTurn(c, p, s, turn).committed {
      DueTurnCommits(c, p, s, turn, m);
    }
  }

  /** What is stored, dead-lettered or passed to CommitMessages is only ever added to, at the end. */
  predicate Longer(s: State, u: State) {
    && s.dlq <= u.dlq && s.history.stored <= u.history.stored && s.history.undelivered <= u.history.undelivered
    && s.history.commits <= u.history.commits
  }

  lemma LongerStill(s: State, t: State, u: State)
    requires Longer(s, t) && Longer(t, u)
    ensures Longer(s, u)
  {
  }

  lemma FlushAppends(c: Config, s: State, env: FlushEnv)
    ensures Longer(s, Flush(c, s, env)) && (!env.commitOk ==> Flush(c, s, env).committed == s.committed)
  {
  }

  lemma TakeAppends(p: Partition, s: State, turn: Turn)
    requires s.pos < |p.log|
    ensures var u := Take(p, s, p.log[s.pos], turn); Longer(s, u) && (!turn.commitOk ==> u.committed == s.committed)
  {
  }

  /** None of the commits that the turn may make succeeds. */
  predicate NoCommit(turn: Turn) {
    !turn.commitOk && !turn.flush.commitOk && !turn.tickFlush.commitOk
  }

  lemma FilledAppends(c: Config, p: Partition, s: State, turn: Turn)
    requires s.pos < |p.log|
    ensures var u := Filled(c, p, s, turn); Longer(s, u) && (NoCommit(turn) ==> u.committed == s.committed)
  {
    var taken := Take(p, s, p.log[s.pos], turn);
    TakeAppends(p, s, turn);
    FlushAppends(c, taken, turn.flush);
    LongerStill(s, taken, Flush(c, taken, turn.flush));
  }

  /** A turn only appends, and moves the committed offset only by a commit that succeeds. */
  lemma TurnAppends(c: Config, p: Partition, s: State, turn: Turn)
    ensures var u := LoopTurn(c, p, s, turn); Longer(s, u) && (NoCommit(turn) ==> u.committed == s.committed)
  {
    FlushAppends(c, s, turn.flush);
    FlushAppends(c, s, turn.tickFlush);
    if turn.fetch == Fetched && s.pos < |p.log| {
      var filled := Filled(c, p, s, turn);
      FilledAppends(c, p, s, turn);
      FlushAppends(c, filled, turn.tickFlush);
      LongerStill(s, filled, OnTick(c, filled, turn));
    }
  }

  /** Everything passed to CommitMessages was stored, or its dead-letter publish was attempted. */
  ghost predicate CommitSafe(s: State) {
    forall m :: m in s.history.commits ==> Handled(s, m)
  }

  /** A turn in which everything succeeds; with a tick, nothing stays pending. */
  function Smooth(dlqOk: bool, tick: bool): Turn {
    var env := FlushEnv(n => Stored, n => false, n => dlqOk, true);
    Turn(Fetched, dlqOk, true, env, tick, env)
  }

  /** Every fetched message has been dealt with, and no other has left a trace. */
  ghost predicate Clean(p: Partition, s: State, k: nat) {
    && k <= |p.log| && s.pos == k && s.batch == [] && s.events == [] && !s.done && s.history.undelivered == []
    && (forall m :: Handled(s, m) ==> m in p.log[..k])
  }

  lemma SmoothFlush(c: Config, s: State)
    ensures var t := Flush(c, s, Smooth(true, true).flush);
      && t.batch == [] && t.pos == s.pos && t.done == s.done && t.dlq == s.dlq
      && (s.events == [] || s.batch != [] ==> t.events == [])
      && t.history.undelivered == s.history.undelivered
      && (forall m :: m in t.history.stored ==> m in s.history.stored || m in s.batch)
  {
  }

  lemma SmoothTurn(c: Config, p: Partition, s: State, k: nat)
    requires Clean(p, s, k) && k < |p.log|
    ensures Clean(p, LoopTurn(c, p, s, Smooth(true, true)), k + 1)
  {
    var m := p.log[k];
    var taken := Take(p, s, m, Smooth(true, true));
    assert p.log[..k + 1] == p.log[..k] + [m];
    assert forall x :: Handled(taken, x) || x in taken.batch ==> x in p.log[..k + 1];
    SmoothFlush(c, taken);
    SmoothFlush(c, Flush(c, taken, Smooth(true, true).flush));
  }

  /** The service can get through the first k messages without a failure. */
  lemma {:induction false} ReachClean(c: Config, p: Partition, t: Table, k: nat) returns (steps: seq<Step>)
    requires k <= |p.log|
    ensures Clean(p, Run(c, p, Initial(t), steps), k)
  {
    if k == 0 {
      steps := [];
    } else {
      var init := ReachClean(c, p, t, k - 1);
      steps := init + [Loop(Smooth(true, true))];
      assert steps[..|steps| - 1] == init;
      SmoothTurn(c, p, Run(c, p, Initial(t), init), k - 1);
    }
  }

  /** A turn without failures settles its message and commits it. */
  lemma SmoothSettles(c: Config, p: Partition, s: State)
    requires p.Valid() && s.batch == [] && s.events == [] && !s.done && s.pos < |p.log| && c.retry.maxAttempts >= 1
    ensures var u, m := LoopTurn(c, p, s, Smooth(true, true)), p.log[s.pos];
      && u.batch == [] && u.events == [] && !u.done && u.pos == u.committed == s.pos + 1
      && (if p.Decode(m).Some? then m in u.history.stored else m in u.dlq)
  {
    var m := p.log[s.pos];
    var taken := Take(p, s, m, Smooth(true, true));
    if p.Decode(m).Some? {
      assert taken.batch == [m] && taken.events == [p.Decode(m).value];
      var u := Flush(c, taken, Smooth(true, true).flush);
      assert u.history.stored == s.history.stored + [m] && u.history.stored[|s.history.stored|] == m;
    } else {
      assert taken.dlq == s.dlq + [m] && taken.dlq[|s.dlq|] == m;
    }
  }

  /** Turns that fetch one message each, in which nothing fails. */
  ghost predicate AllSmooth(steps: seq<Step>) {
    forall j :: 0 <= j < |steps| ==> steps[j] == Loop(Smooth(true, true))
  }

  /** Stored if it can be decoded, and dead-lettered otherwise. */
  predicate Placed(p: Partition, s: State, m: Message) {
    if p.Decode(m).Some? then m in s.history.stored else m in s.dlq
  }

  lemma PlacedStays(p: Partition, s: State, u: State, m: Message)
    requires Longer(s, u) && Placed(p, s, m)
    ensures Placed(p, u, m)
  {
  }

  /** The process has nothing pending, has committed all that it has read, and everything from an offset on is in its place. */
  predicate SettledFrom(p: Partition, s: State, from: nat) {
    && s.batch == [] && s.events == [] && !s.done && from <= s.pos == s.committed <= |p.log|
    && forall i :: from <= i < s.pos ==> Placed(p, s, p.log[i])
  }

  lemma SmoothKeepsSettled(c: Config, p: Partition, s: State, from: nat)
    requires p.Valid() && SettledFrom(p, s, from) && c.retry.maxAttempts >= 1 && s.pos < |p.log|
    ensures var u := LoopTurn(c, p, s, Smooth(true, true)); SettledFrom(p, u, from) && u.pos == s.pos + 1
  {
    var u := LoopTurn(c, p, s, Smooth(true, true));
    SmoothSettles(c, p, s);
    TurnAppends(c, p, s, Smooth(true, true));
    forall i | from <= i < u.pos ensures Placed(p, u, p.log[i]) {
      if i < s.pos {
        PlacedStays(p, s, u, p.log[i]);
      }
    }
  }

  lemma RunSnoc(c: Config, p: Partition, s: State, init: seq<Step>, step: Step)
    ensures Run(c, p, s, init + [step]) == Apply(c, p, Run(c, p, s, init), step)
  {
    assert (init + [step])[..|init|] == init;
  }

  lemma {:induction false} SmoothRun(c: Config, p: Partition, s: State, n: nat) returns (steps: seq<Step>, u: State)
    requires p.Valid() && SettledFrom(p, s, s.pos) && c.retry.maxAttempts >= 1 && s.pos + n <= |p.log|
    ensures |steps| == n && AllSmooth(steps) && u == Run(c, p, s, steps)
    ensures SettledFrom(p, u, s.pos) && u.pos == s.pos + n
  {
    steps, u := [], s;
    if n > 0 {
      var init, before := SmoothRun(c, p, s, n - 1);
      SmoothKeepsSettled(c, p, before, s.pos);
      RunSnoc(c, p, s, init, Loop(Smooth(true, true)));
      steps, u := init + [Loop(Smooth(true, true))], LoopTurn(c, p, before, Smooth(true, true));
    }
  }

  lemma CommittedInLog(c: Config, p: Partition, t: Table, steps: seq<Step>)
    requires p.Valid()
    ensures Run(c, p, Initial(t), steps).committed <= |p.log|
  {
    RunKeepsInv(c, p, t, steps);
  }

  /**
   Whatever has happened, a new process with nothing failing takes over at the committed offset, drains the log, stores
   or dead-letters everything from there on, and commits all of it.
   */
  lemma Recovers(c: Config, p: Partition, t: Table, before: seq<Step>, kept: seq<nat>) returns (steps: seq<Step>, u: State)
    requires p.Valid() && c.retry.maxAttempts >= 1
    ensures var s := Run(c, p, Initial(t), before);
      && AllSmooth(steps) && u == Run(c, p, Apply(c, p, s, Crash(kept)), steps)
      && SettledFrom(p, u, s.committed) && u.pos == |p.log|
  {
    CommittedInLog(c, p, t, before);
    var s := Run(c, p, Initial(t), before);
    steps, u := SmoothRun(c, p, Restart(s, kept), |p.log| - s.committed);
  }

  lemma NotBefore(p: Partition, k: nat)
    requires p.Valid() && k < |p.log|
    ensures p.log[k] !in p.log[..k]
  {
    assert forall i :: 0 <= i < k ==> p.log[i].offset != p.log[k].offset;
  }

  ghost predicate PoisonSafe(s: State) {
    forall m :: m in s.history.poison ==> Handled(s, m)
  }

  lemma FlushKeepsHandled(c: Config, s: State, env: FlushEnv)
    ensures Flush(c, s, env).history.poison == s.history.poison
    ensures forall m :: Handled(s, m) ==> Handled(Flush(c, s, env), m)
  {
  }

  lemma PoisonStaysHandled(c: Config, p: Partition, s: State, step: Step)
    requires PoisonSafe(s)
    ensures PoisonSafe(Apply(c, p, s, step))
  {
    if step.Loop? {
      var turn := step.turn;
      FlushKeepsHandled(c, s, turn.flush);
      FlushKeepsHandled(c, s, turn.tickFlush);
      if turn.fetch == Fetched && s.pos < |p.log| {
        var taken := Take(p, s, p.log[s.pos], turn);
        assert PoisonSafe(taken);
        FlushKeepsHandled(c, taken, turn.flush);
        FlushKeepsHandled(c, taken, turn.tickFlush);
        FlushKeepsHandled(c, Flush(c, taken, turn.flush), turn.tickFlush);
      }
    }
  }

  /** Undecodable messages are parked, or failed to be, whatever the retry limit is. */
  lemma {:induction false} PoisonHandled(c: Config, p: Partition, t: Table, steps: seq<Step>)
    ensures PoisonSafe(Run(c, p, Initial(t), steps))
  {
    if steps != [] {
      var init := steps[..|steps| - 1];
      PoisonHandled(c, p, t, init);
      PoisonStaysHandled(c, p, Run(c, p, Initial(t), init), steps[|steps| - 1]);
    }
  }

  lemma CommitsAreSafe(c: Config, p: Partition, t: Table, steps: seq<Step>)
    requires p.Valid() && (c.retry.maxAttempts >= 1 || p.Good(0, |p.log|) == [])
    ensures CommitSafe(Run(c, p, Initial(t), steps))
  {
    RunKeepsInv(c, p, t, steps);
    PoisonHandled(c, p, t, steps);
    var h := Run(c, p, Initial(t), steps).history;
    forall m | m in h.commits ensures m in h.settled || m in h.poison {
      assert m in multiset(h.commits);
    }
    if c.retry.maxAttempts < 1 {
      p.Split(0, h.start, |p.log|);
      p.Split(h.start, h.mark, |p.log|);
      assert h.settled == [];
    }
  }

  lemma FirstGood(p: Partition) returns (k: nat)
    requires p.Good(0, |p.log|) != []
    ensures k < |p.log| && p.Decode(p.log[k]).Some?
  {
    p.EventsDecode(0, |p.log|);
    p.Members(0, |p.log|);
    var m := p.Good(0, |p.log|)[0];
    assert m in p.log[0..|p.log|];
    k :| 0 <= k < |p.log| && p.log[k] == m;
  }

  /** Without an attempt, withRetry reports success and the batch is committed unstored. */
  lemma NoAttemptsUnsafeRun(c: Config, p: Partition, t: Table, k: nat) returns (steps: seq<Step>)
    requires p.Valid() && k < |p.log| && p.Decode(p.log[k]).Some? && c.retry.maxAttempts < 1
    ensures var s := Run(c, p, Initial(t), steps); p.log[k] in s.history.commits && !Handled(s, p.log[k])
  {
    var init := ReachClean(c, p, t, k);
    var s := Run(c, p, Initial(t), init);
    steps := init + [Loop(Smooth(true, true))];
    assert steps[..|steps| - 1] == init;
    NotBefore(p, k);
    assert !Handled(s, p.log[k]);
    var taken := Take(p, s, p.log[k], Smooth(true, true));
    assert taken.batch == [p.log[k]] && taken.batch[0] == p.log[k];
  }

  /** Commits are safe on every run exactly when the retry limit allows an attempt, or there is nothing to store. */
  lemma CommitSafetyExact(c: Config, p: Partition, t: Table)
    requires p.Valid()
    ensures (forall steps: seq<Step> :: CommitSafe(Run(c, p, Initial(t), steps)))
            <==> c.retry.maxAttempts >= 1 || p.Good(0, |p.log|) == []
  {
    if c.retry.maxAttempts >= 1 || p.Good(0, |p.log|) == [] {
      forall steps: seq<Step> ensures CommitSafe(Run(c, p, Initial(t), steps)) {
        CommitsAreSafe(c, p, t, steps);
      }
    } else {
      var k := FirstGood(p);
      var steps := NoAttemptsUnsafeRun(c, p, t, k);
      assert !CommitSafe(Run(c, p, Initial(t), steps));
    }
  }

  /**
   Read as a watermark: unless an undecodable message arrived while a batch was pending, every message below
   the committed offset is stored or dead-lettered, or its dead-letter publish failed.
   */
  lemma WatermarkSafety(c: Config, p: Partition, t: Table, steps: seq<Step>)
    requires p.Valid() && c.retry.maxAttempts >= 1
    ensures var s := Run(c, p, Initial(t), steps);
      !s.history.poisonMidBatch ==>
        && s.committed <= |p.log|
        && forall i :: 0 <= i < s.committed ==>
             p.log[i] in s.history.stored || p.log[i] in s.dlq || p.log[i] in s.history.undelivered
  {
    RunKeepsInv(c, p, t, steps);
    var s := Run(c, p, Initial(t), steps);
    if !s.history.poisonMidBatch {
      forall i | 0 <= i < s.committed
        ensures p.log[i] in s.history.stored || p.log[i] in s.dlq || p.log[i] in s.history.undelivered
      {
        assert Handled(s, p.log[i]);
      }
    }
  }

  /** Everything below the committed offset is stored or dead-lettered. */
  ghost predicate Covered(p: Partition, s: State) {
    s.committed <= |p.log| && forall i :: 0 <= i < s.committed ==> p.log[i] in s.history.stored || p.log[i] in s.dlq
  }

  /** No undecodable message follows a decodable one. */
  predicate BadFirst(p: Partition) {
    forall i, j :: 0 <= i < j < |p.log| && p.Decode(p.log[i]).Some? ==> p.Decode(p.log[j]).Some?
  }

  lemma PendingIsGood(p: Partition, s: State)
    requires InOrder(p, s) && s.batch != []
    ensures exists i :: 0 <= i < s.pos && p.Decode(p.log[i]).Some?
  {
    p.EventsDecode(s.history.mark, s.pos);
    p.Members(s.history.mark, s.pos);
    var m := s.batch[0];
    assert m in p.log[s.history.mark..s.pos];
    var i :| s.history.mark <= i < s.pos && p.log[i] == m;
  }

  lemma NotMidBatchNext(c: Config, p: Partition, s: State, step: Step)
    requires InOrder(p, s) && BelowLimit(c, s) && (c.maxBatchSize <= 1 || BadFirst(p))
    ensures Apply(c, p, s, step).history.poisonMidBatch ==> s.history.poisonMidBatch
  {
    if s.pos < |p.log| && s.batch != [] {
      PendingIsGood(p, s);
      assert p.Decode(p.log[s.pos]).Some?;
    }
  }

  lemma {:induction false} NeverMidBatch(c: Config, p: Partition, t: Table, steps: seq<Step>)
    requires p.Valid() && (c.maxBatchSize <= 1 || BadFirst(p))
    ensures !Run(c, p, Initial(t), steps).history.poisonMidBatch
  {
    if steps != [] {
      var init := steps[..|steps| - 1];
      NeverMidBatch(c, p, t, init);
      RunKeepsInv(c, p, t, init);
      NotMidBatchNext(c, p, Run(c, p, Initial(t), init), steps[|steps| - 1]);
    }
  }

  lemma BadAfterGood(p: Partition) returns (k: nat)
    requires !BadFirst(p)
    ensures k + 1 < |p.log| && p.Decode(p.log[k]).Some? && p.Decode(p.log[k + 1]).None?
  {
    var i, j :| 0 <= i < j < |p.log| && p.Decode(p.log[i]).Some? && p.Decode(p.log[j]).None?;
    k := i;
    while p.Decode(p.log[k + 1]).Some?
      invariant i <= k < j && p.Decode(p.log[k]).Some?
      decreases j - k
    {
      k := k + 1;
    }
  }

  /** An undecodable message behind a pending one is committed, and with it the pending one, which is nowhere yet. */
  lemma PendingPassed(c: Config, p: Partition, t: Table, k: nat) returns (steps: seq<Step>)
    requires p.Valid() && k + 1 < |p.log| && p.Decode(p.log[k]).Some? && p.Decode(p.log[k + 1]).None? && c.maxBatchSize >= 2
    ensures var s := Run(c, p, Initial(t), steps);
      && s.history.undelivered == [] && s.committed == k + 2
      && p.log[k] !in s.history.stored && p.log[k] !in s.dlq
  {
    var init := ReachClean(c, p, t, k);
    var s := Run(c, p, Initial(t), init);
    NotBefore(p, k);
    assert !Handled(s, p.log[k]);
    var s1 := LoopTurn(c, p, s, Smooth(true, false));
    assert s1.batch == [p.log[k]] && s1.pos == k + 1;
    steps := init + [Loop(Smooth(true, false))];
    assert steps[..|steps| - 1] == init;
    assert Run(c, p, Initial(t), steps) == s1;
    var more := steps + [Loop(Smooth(true, false))];
    assert more[..|more| - 1] == steps;
    steps := more;
    assert p.log[k + 1] != p.log[k];
  }

  /**
   Read as a watermark: on every run in which no dead-letter publish fails, everything below the committed
   offset is stored or dead-lettered, exactly when batches have one message or no undecodable message
   follows a decodable one.
   */
  lemma WatermarkExactly(c: Config, p: Partition, t: Table)
    requires p.Valid() && c.retry.maxAttempts >= 1
    ensures (forall steps: seq<Step> | Run(c, p, Initial(t), steps).history.undelivered == [] ::
               Covered(p, Run(c, p, Initial(t), steps)))
            <==> c.maxBatchSize <= 1 || BadFirst(p)
  {
    if c.maxBatchSize <= 1 || BadFirst(p) {
      forall steps: seq<Step> | Run(c, p, Initial(t), steps).history.undelivered == []
        ensures Covered(p, Run(c, p, Initial(t), steps))
      {
        NeverMidBatch(c, p, t, steps);
        WatermarkSafety(c, p, t, steps);
      }
    } else {
      var k := BadAfterGood(p);
      var steps := PendingPassed(c, p, t, k);
      assert !Covered(p, Run(c, p, Initial(t), steps));
    }
  }

  /**
   At-least-once delivery, exactly-once contents: through any crashes, retries and lost commits, once
   the log is drained the table is what a single pass over it leaves, provided no batch was
   dead-lettered and no undecodable message arrived while a batch was pending.
   */
  lemma ExactlyOnceContents(c: Config, p: Partition, t: Table, steps: seq<Step>)
    requires p.Valid() && c.retry.maxAttempts >= 1
    ensures var s := Run(c, p, Initial(t), steps);
      s.pos == |p.log| && s.batch == [] && !s.history.deadLettered && !s.history.poisonMidBatch ==>
        s.table == ApplyAll(t, p.AllEvents())
  {
    RunKeepsInv(c, p, t, steps);
    var s := Run(c, p, Initial(t), steps);
    if s.pos == |p.log| && s.batch == [] && !s.history.deadLettered && !s.history.poisonMidBatch {
      EventsBelow(p, s.history.mark, s.pos);
      p.EventsDecode(s.history.mark, s.pos);
      CaughtUpAtEnd(t, p.AllEvents(), s.table);
    }
  }

  // ---------------------------------------------------------------------------------------
  // Which messages are lost on a run
  // ---------------------------------------------------------------------------------------

  /** Below the committed offset, and neither stored nor dead-lettered nor pending: this process will not deal with it any more. */
  predicate Lost(p: Partition, s: State, i: nat)
    requires i < |p.log|
  {
    i < s.committed && p.log[i] !in s.history.stored && p.log[i] !in s.dlq && p.log[i] !in s.batch
  }

  /**
   A step by which a message is lost: a crash while it is pending although a commit has already passed it, or a turn
   that commits past it, or settles it when a commit has passed it, after every publish of it has failed.
   */
  predicate Loses(p: Partition, s: State, step: Step, u: State, i: nat)
    requires i < |p.log|
  {
    var m := p.log[i];
    && i < u.committed && m !in u.history.stored && m !in u.dlq && m !in u.batch
    && match step
       case Crash(_) => m in s.batch
       case Loop(_) => m in u.history.undelivered && (s.committed <= i || m in s.batch)
  }

  /** The state at a moment of a run. */
  function At(c: Config, p: Partition, t: Table, steps: seq<Step>, k: nat): State
    requires k <= |steps|
  {
    Run(c, p, Initial(t), steps[..k])
  }

  predicate LosesAt(c: Config, p: Partition, t: Table, steps: seq<Step>, j: nat, i: nat)
    requires j < |steps| && i < |p.log|
  {
    Loses(p, At(c, p, t, steps, j), steps[j], At(c, p, t, steps, j + 1), i)
  }

  predicate PassedAt(c: Config, p: Partition, t: Table, steps: seq<Step>, k: nat, i: nat)
    requires k <= |steps|
  {
    i < At(c, p, t, steps, k).committed
  }

  /** Something happens in one of the first n steps, and from then on something else stays true. */
  ghost predicate ForGood(n: nat, happens: nat -> bool, stays: nat -> bool) {
    exists j :: 0 <= j < n && happens(j) && forall k :: j < k <= n ==> stays(k)
  }

  /** One of the first n steps loses the message, and from then on the committed offset stays past it. */
  ghost predicate LosesForGood(c: Config, p: Partition, t: Table, steps: seq<Step>, n: nat, i: nat)
    requires n <= |steps| && i < |p.log|
  {
    ForGood(n, (j: nat) => j < |steps| && LosesAt(c, p, t, steps, j, i),
            (k: nat) => k <= |steps| && PassedAt(c, p, t, steps, k, i))
  }

  lemma {:induction false} ChosenFrom(ms: seq<Message>, ok: nat -> bool, want: bool)
    ensures forall m :: m in Chosen(ms, ok, want) ==> m in ms
  {
    if ms != [] {
      ChosenFrom(ms[..|ms| - 1], ok, want);
    }
  }

  /** A message that is stored or dead-lettered stays so. */
  predicate Remembers(s: State, u: State, m: Message) {
    (m in s.history.stored ==> m in u.history.stored) && (m in s.dlq ==> m in u.dlq)
  }

  /** A message that is not pending stays where it is. */
  predicate Unmoved(s: State, u: State, m: Message) {
    m !in s.batch ==>
      m !in u.batch && (m in u.history.stored ==> m in s.history.stored) && (m in u.dlq ==> m in s.dlq)
  }

  lemma FlushKeeps(c: Config, s: State, env: FlushEnv, m: Message)
    ensures Remembers(s, Flush(c, s, env), m) && Unmoved(s, Flush(c, s, env), m)
  {
    ChosenFrom(s.batch, env.dlqOk, true);
  }

  lemma TickKeeps(c: Config, s: State, turn: Turn, m: Message)
    ensures Remembers(s, OnTick(c, s, turn), m) && Unmoved(s, OnTick(c, s, turn), m)
  {
    FlushKeeps(c, s, turn.tickFlush, m);
  }

  lemma FetchKeeps(c: Config, p: Partition, s: State, turn: Turn, m: Message)
    requires s.pos < |p.log|
    ensures var taken := Take(p, s, p.log[s.pos], turn);
      var u := OnTick(c, if |taken.batch| >= c.maxBatchSize then Flush(c, taken, turn.flush) else taken, turn);
      Remembers(s, u, m) && (m != p.log[s.pos] ==> Unmoved(s, u, m))
  {
    var taken := Take(p, s, p.log[s.pos], turn);
    var filled := if |taken.batch| >= c.maxBatchSize then Flush(c, taken, turn.flush) else taken;
    assert Remembers(s, taken, m) && (m != p.log[s.pos] ==> Unmoved(s, taken, m));
    FlushKeeps(c, taken, turn.flush, m);
    assert Remembers(taken, filled, m) && Unmoved(taken, filled, m);
    TickKeeps(c, filled, turn, m);
  }

  /** So it is for a whole turn, unless the message is the one that the turn fetches. */
  lemma ApplyKeeps(c: Config, p: Partition, s: State, step: Step, m: Message)
    ensures var u := Apply(c, p, s, step);
      Remembers(s, u, m) && ((s.pos < |p.log| ==> m != p.log[s.pos]) ==> Unmoved(s, u, m))
  {
    if step.Loop? {
      FlushKeeps(c, s, step.turn.flush, m);
      TickKeeps(c, s, step.turn, m);
      if s.pos < |p.log| {
        FetchKeeps(c, p, s, step.turn, m);
      }
    }
  }

  /** Only a crash moves the point where the process began. */
  lemma TurnKeepsStart(c: Config, p: Partition, s: State, turn: Turn)
    ensures LoopTurn(c, p, s, turn).history.start == s.history.start
  {
  }

  /** What this process has fetched is pending or handled. */
  lemma FetchedHandled(p: Partition, s: State, i: nat)
    requires InOrder(p, s) && CommitsHandled(s) && s.history.start <= i < s.pos
    ensures p.log[i] in s.batch || Handled(s, p.log[i])
  {
    p.Split(s.history.start, s.history.mark, s.pos);
    p.Members(s.history.start, s.pos);
  }

  /** A lost message stays lost through a step that leaves the committed offset past it. */
  lemma LostStays(c: Config, p: Partition, s: State, step: Step, i: nat)
    requires p.Valid() && s.committed <= s.pos && i < |p.log| && Lost(p, s, i)
    ensures Lost(p, Apply(c, p, s, step), i) <==> i < Apply(c, p, s, step).committed
  {
    assert s.pos < |p.log| ==> p.log[i].offset != p.log[s.pos].offset;
    ApplyKeeps(c, p, s, step, p.log[i]);
  }

  /** A message that was not lost before is lost by a step exactly if the step loses it. */
  lemma LossIsNew(c: Config, p: Partition, t: Table, s: State, step: Step, i: nat)
    requires p.Valid() && c.retry.maxAttempts >= 1 && i < |p.log| && !Lost(p, s, i)
    requires Inv(c, p, t, s) && Inv(c, p, t, Apply(c, p, s, step))
    ensures Lost(p, Apply(c, p, s, step), i) <==> Loses(p, s, step, Apply(c, p, s, step), i)
  {
    var u := Apply(c, p, s, step);
    if Lost(p, u, i) {
      ApplyKeeps(c, p, s, step, p.log[i]);
      assert i < s.committed ==> p.log[i] in s.batch;
      if step.Loop? {
        TurnKeepsStart(c, p, s, step.turn);
        PendingCovered(p, s);
        FetchedHandled(p, u, i);
      }
    }
  }

  lemma AtNext(c: Config, p: Partition, t: Table, steps: seq<Step>, n: nat)
    requires n < |steps|
    ensures At(c, p, t, steps, n + 1) == Apply(c, p, At(c, p, t, steps, n), steps[n])
  {
    assert steps[..n + 1][..n] == steps[..n];
  }

  lemma LosesImpliesPassed(c: Config, p: Partition, t: Table, steps: seq<Step>, j: nat, i: nat)
    requires j < |steps| && i < |p.log| && LosesAt(c, p, t, steps, j, i)
    ensures PassedAt(c, p, t, steps, j + 1, i)
  {
  }

  lemma NowOrBefore(n: nat, happens: nat -> bool, stays: nat -> bool)
    requires happens(n) ==> stays(n + 1)
    ensures ForGood(n + 1, happens, stays) <==> (ForGood(n, happens, stays) && stays(n + 1)) || happens(n)
  {
  }

  lemma {:induction false} LostSoFar(c: Config, p: Partition, t: Table, steps: seq<Step>, n: nat, i: nat)
    requires p.Valid() && c.retry.maxAttempts >= 1 && n <= |steps| && i < |p.log|
    ensures Lost(p, At(c, p, t, steps, n), i) <==> LosesForGood(c, p, t, steps, n, i)
  {
    if n == 0 {
      assert !LosesForGood(c, p, t, steps, n, i);
    } else {
      var s, step := At(c, p, t, steps, n - 1), steps[n - 1];
      LostSoFar(c, p, t, steps, n - 1, i);
      if LosesAt(c, p, t, steps, n - 1, i) {
        LosesImpliesPassed(c, p, t, steps, n - 1, i);
      }
      NowOrBefore(n - 1, (j: nat) => j < |steps| && LosesAt(c, p, t, steps, j, i),
                  (k: nat) => k <= |steps| && PassedAt(c, p, t, steps, k, i));
      AtNext(c, p, t, steps, n - 1);
      RunKeepsInv(c, p, t, steps[..n - 1]);
      if Lost(p, s, i) {
        LostStays(c, p, s, step, i);
      } else {
        RunKeepsInv(c, p, t, steps[..n]);
        LossIsNew(c, p, t, s, step, i);
      }
    }
  }

  /** On every run, a message is lost exactly when some step loses it and no later commit falls back to or below it. */
  lemma LostExactly(c: Config, p: Partition, t: Table, steps: seq<Step>, i: nat)
    requires p.Valid() && c.retry.maxAttempts >= 1 && i < |p.log|
    ensures Lost(p, Run(c, p, Initial(t), steps), i) <==> LosesForGood(c, p, t, steps, |steps|, i)
  {
    assert steps[..|steps|] == steps;
    LostSoFar(c, p, t, steps, |steps|, i);
  }

  /** All that is pending lies at or above the committed offset. */
  ghost predicate Ahead(s: State) {
    forall m :: m in s.batch ==> m.offset >= s.committed
  }

  lemma FlushMovesOn(c: Config, s: State, env: FlushEnv)
    requires Ahead(s)
    ensures var u := Flush(c, s, env);
      s.committed <= u.committed && Ahead(u) && s.history.poisonMidBatch == u.history.poisonMidBatch
  {
    if s.batch != [] {
      assert s.batch[|s.batch| - 1] in s.batch;
    }
  }

  lemma PoisonFlagStays(c: Config, p: Partition, s: State, step: Step)
    ensures s.history.poisonMidBatch ==> Apply(c, p, s, step).history.poisonMidBatch
  {
  }

  /** Without an undecodable message mid-batch the committed offset never falls. */
  lemma CommittedMovesOn(c: Config, p: Partition, s: State, step: Step)
    requires p.Valid() && InOrder(p, s) && s.committed <= s.history.mark
    requires !Apply(c, p, s, step).history.poisonMidBatch
    ensures s.committed <= Apply(c, p, s, step).committed
  {
    PendingCovered(p, s);
    if step.Loop? {
      var turn := step.turn;
      FlushMovesOn(c, s, turn.flush);
      FlushMovesOn(c, s, turn.tickFlush);
      if turn.fetch == Fetched && s.pos < |p.log| {
        var taken := Take(p, s, p.log[s.pos], turn);
        if !taken.history.poisonMidBatch {
          assert Ahead(taken) && s.committed <= taken.committed;
          FlushMovesOn(c, taken, turn.flush);
          FlushMovesOn(c, if |taken.batch| >= c.maxBatchSize then Flush(c, taken, turn.flush) else taken, turn.tickFlush);
        }
      }
    }
  }

  lemma NextNeverFalls(c: Config, p: Partition, t: Table, steps: seq<Step>, k: nat)
    requires p.Valid() && c.retry.maxAttempts >= 1 && k < |steps|
    requires !At(c, p, t, steps, k + 1).history.poisonMidBatch
    ensures At(c, p, t, steps, k).committed <= At(c, p, t, steps, k + 1).committed
    ensures !At(c, p, t, steps, k).history.poisonMidBatch
  {
    AtNext(c, p, t, steps, k);
    RunKeepsInv(c, p, t, steps[..k]);
    PoisonFlagStays(c, p, At(c, p, t, steps, k), steps[k]);
    CommittedMovesOn(c, p, At(c, p, t, steps, k), steps[k]);
  }

  lemma {:induction false} NeverFalls(c: Config, p: Partition, t: Table, steps: seq<Step>, j: nat, k: nat)
    requires p.Valid() && c.retry.maxAttempts >= 1 && j <= k <= |steps|
    requires !At(c, p, t, steps, k).history.poisonMidBatch
    ensures At(c, p, t, steps, j).committed <= At(c, p, t, steps, k).committed
    ensures !At(c, p, t, steps, j).history.poisonMidBatch
    decreases k
  {
    if j < k {
      NextNeverFalls(c, p, t, steps, k - 1);
      NeverFalls(c, p, t, steps, j, k - 1);
    }
  }

  ghost predicate LosesSomewhere(c: Config, p: Partition, t: Table, steps: seq<Step>, i: nat)
    requires i < |p.log|
  {
    exists j :: 0 <= j < |steps| && LosesAt(c, p, t, steps, j, i)
  }

  lemma StaysPassed(c: Config, p: Partition, t: Table, steps: seq<Step>, j: nat, k: nat, i: nat)
    requires p.Valid() && c.retry.maxAttempts >= 1 && j < k <= |steps| && i < |p.log|
    requires !At(c, p, t, steps, |steps|).history.poisonMidBatch && LosesAt(c, p, t, steps, j, i)
    ensures PassedAt(c, p, t, steps, k, i)
  {
    LosesImpliesPassed(c, p, t, steps, j, i);
    NeverFalls(c, p, t, steps, k, |steps|);
    NeverFalls(c, p, t, steps, j + 1, k);
  }

  /** Unless an undecodable message meets a pending batch, a loss is final: no later commit falls back. */
  lemma LossIsFinal(c: Config, p: Partition, t: Table, steps: seq<Step>, i: nat)
    requires p.Valid() && c.retry.maxAttempts >= 1 && i < |p.log|
    requires !Run(c, p, Initial(t), steps).history.poisonMidBatch
    ensures Lost(p, Run(c, p, Initial(t), steps), i) <==> LosesSomewhere(c, p, t, steps, i)
  {
    assert steps[..|steps|] == steps;
    LostExactly(c, p, t, steps, i);
    if LosesSomewhere(c, p, t, steps, i) {
      var j :| 0 <= j < |steps| && LosesAt(c, p, t, steps, j, i);
      var loses, passed := (j: nat) => j < |steps| && LosesAt(c, p, t, steps, j, i),
                           (k: nat) => k <= |steps| && PassedAt(c, p, t, steps, k, i);
      forall k | j < k <= |steps| ensures passed(k) {
        StaysPassed(c, p, t, steps, j, k, i);
      }
      assert loses(j) && ForGood(|steps|, loses, passed);
    }
  }

  /** A turn in which only the fetch and the commits succeed. */
  const DOWN_ENV := FlushEnv(_ => Failed(0), _ => false, _ => false, true)
  const DOWN := Turn(Fetched, false, true, DOWN_ENV, true, DOWN_ENV)

  lemma {:induction false} NoAttemptStores(c: Backoff.Config, t: Table, es: seq<Event>, attempt: nat, delay: real)
    requires es != []
    ensures var r := Retry(c, t, es, DOWN_ENV, attempt, delay); r.failed || (r.calls == 0 && attempt > c.maxAttempts)
    decreases c.maxAttempts - attempt
  {
    if attempt < c.maxAttempts {
      NoAttemptStores(c, ApplyAll(t, Applied(es, DOWN_ENV.fault(attempt))), es, attempt + 1, Backoff.NextDelay(c, delay));
    }
  }

  lemma {:induction false} NoneChosen(ms: seq<Message>)
    ensures Chosen(ms, DOWN_ENV.dlqOk, true) == []
  {
    if ms != [] {
      NoneChosen(ms[..|ms| - 1]);
    }
  }

  lemma DownFlush(c: Config, s: State)
    requires |s.batch| == |s.events|
    ensures var u := Flush(c, s, DOWN_ENV);
      && u.batch == [] && u.dlq == s.dlq && u.history.stored == s.history.stored
      && u.committed == if s.batch == [] then s.committed else s.batch[|s.batch| - 1].offset + 1
  {
    if s.batch != [] {
      NoAttemptStores(c.retry, s.table, s.events, 1, c.retry.initialDelay);
      NoneChosen(s.batch);
    }
  }

  /** A failed dead-letter publish is logged and committed all the same: any message, decodable or not, can be lost so. */
  lemma FailedDeadLetterLosesMessage(c: Config, p: Partition, t: Table, k: nat) returns (steps: seq<Step>)
    requires p.Valid() && k < |p.log|
    ensures Lost(p, Run(c, p, Initial(t), steps), k)
  {
    var init := ReachClean(c, p, t, k);
    var s := Run(c, p, Initial(t), init);
    NotBefore(p, k);
    assert !Handled(s, p.log[k]);
    steps := init + [Loop(DOWN)];
    assert steps[..|init|] == init;
    var taken := Take(p, s, p.log[k], DOWN);
    DownFlush(c, taken);
    DownFlush(c, Flush(c, taken, DOWN_ENV));
    assert p.Decode(p.log[k]).Some? ==> taken.batch == [p.log[k]];
  }

  /** An undecodable message commits past any pending one right before it, which a crash then loses, with no publish failed. */
  lemma PoisonMidBatchLosesPending(c: Config, p: Partition, t: Table, k: nat) returns (steps: seq<Step>)
    requires p.Valid() && k + 1 < |p.log| && p.Decode(p.log[k]).Some? && p.Decode(p.log[k + 1]).None? && c.maxBatchSize >= 2
    ensures var s := Run(c, p, Initial(t), steps);
      Lost(p, s, k) && s.pos == s.committed == k + 2 && s.history.undelivered == []
  {
    var passed := PendingPassed(c, p, t, k);
    steps := passed + [Crash([])];
    assert steps[..|passed|] == passed;
  }

  /** With any failures allowed, everything below the committed offset is covered on every run only of an empty log. */
  lemma CoveredOfEmptyLogOnly(c: Config, p: Partition, t: Table)
    requires p.Valid() && c.retry.maxAttempts >= 1
    ensures (forall steps: seq<Step> :: Covered(p, Run(c, p, Initial(t), steps))) <==> p.log == []
  {
    if p.log == [] {
      forall steps: seq<Step> ensures Covered(p, Run(c, p, Initial(t), steps)) {
        RunKeepsInv(c, p, t, steps);
      }
    } else {
      var steps := FailedDeadLetterLosesMessage(c, p, t, 0);
      assert !Covered(p, Run(c, p, Initial(t), steps));
    }
  }

  // ---------------------------------------------------------------------------------------
  // The consumer
  // ---------------------------------------------------------------------------------------

  function Loops(turns: seq<Turn>): seq<Step> {
    seq(|turns|, i requires 0 <= i < |turns| => Loop(turns[i]))
  }

  lemma {:induction false} DoneStays(c: Config, p: Partition, s: State, turns: seq<Turn>, n: nat)
    requires n <= |turns| && Run(c, p, s, Loops(turns[..n])).done
    ensures Run(c, p, s, Loops(turns)) == Run(c, p, s, Loops(turns[..n]))
    decreases |turns| - n
  {
    if n < |turns| {
      assert Loops(turns[..n + 1])[..n] == Loops(turns[..n]);
      DoneStays(c, p, s, turns, n + 1);
    } else {
      assert turns[..n] == turns;
    }
  }

  /** The outcome of a retry, on top of the calls and waits made before it. */
  function After(rest: Attempts, calls: nat, waits: seq<real>): Attempts {
    Attempts(rest.table, rest.failed, calls + rest.calls, waits + rest.waits)
  }

  lemma RetryOnTop(
      c: Backoff.Config, t: Table, es: seq<Event>, env: FlushEnv, attempt: nat, delay: real, calls: nat, waits: seq<real>)
    requires attempt <= c.maxAttempts
    ensures var ok := es == [] || env.fault(attempt).Stored?;
      var after := if es == [] then t else ApplyAll(t, Applied(es, env.fault(attempt)));
      After(Retry(c, t, es, env, attempt, delay), calls, waits) ==
      if ok then Attempts(after, false, calls + 1, waits)
      else if attempt == c.maxAttempts then Attempts(after, true, calls + 1, waits)
      else if env.cancelled(attempt) then Attempts(after, true, calls + 1, waits + [delay])
      else After(Retry(c, after, es, env, attempt + 1, Backoff.NextDelay(c, delay)), calls + 1, waits + [delay])
  {
    assert waits + [] == waits;
    if es != [] {
      var after := ApplyAll(t, Applied(es, env.fault(attempt)));
      var rest := Retry(c, after, es, env, attempt + 1, Backoff.NextDelay(c, delay));
      assert waits + ([delay] + rest.waits) == (waits + [delay]) + rest.waits;
    }
  }

  class Processor {
    const config: Config
    const partition: Partition
    const store: Store
    var pos: nat
    var batch: seq<Message>
    var events: seq<Event>
    var committed: nat
    var dlq: seq<Message>
    var done: bool
    ghost var history: History

    ghost function Abs(): State
      reads this, store
    {
      State(store.table, pos, batch, events, committed, dlq, done, history)
    }

    predicate Valid()
      reads this
    {
      |batch| == |events|
    }

    constructor (c: Config, p: Partition, store: Store)
      ensures this.config == c && this.partition == p && this.store == store
      ensures Valid() && Abs() == Initial(store.table)
    {
      this.config, this.partition, this.store := c, p, store;
      pos, batch, events, committed, dlq, done := 0, [], [], 0, [], false;
      history := Initial(map[]).history;
    }

    /** Upserts with exponential backoff; a run without attempts reports success. */
    method WithRetry(es: seq<Event>, env: FlushEnv) returns (failed: bool, calls: nat, waits: seq<real>)
      modifies store
      ensures Attempts(store.table, failed, calls, waits) ==
              Retry(config.retry, old(store.table), es, env, 1, config.retry.initialDelay)
    {
      failed, calls, waits := false, 0, [];
      var attempt, delay := 1, config.retry.initialDelay;
      ghost var whole := Retry(config.retry, store.table, es, env, attempt, delay);
      assert whole == After(whole, 0, []);
      while attempt <= config.retry.maxAttempts
        invariant attempt >= 1 && !failed
        invariant whole == After(Retry(config.retry, store.table, es, env, attempt, delay), calls, waits)
        decreases config.retry.maxAttempts - attempt
      {
        RetryOnTop(config.retry, store.table, es, env, attempt, delay, calls, waits);
        var ok := store.UpsertBatch(es, env.fault(attempt));
        calls := calls + 1;
        if ok {
          return;
        }
        if attempt == config.retry.maxAttempts {
          failed := true;
          return;
        }
        waits := waits + [delay];
        if env.cancelled(attempt) {
          failed := true;
          return;
        }
        delay := Backoff.NextDelay(config.retry, delay);
        attempt := attempt + 1;
      }
    }

    /** Publishes every pending message to the dead-letter topic; a failed publish is only noted. */
    method DeadLetterBatch(env: FlushEnv)
      modifies `dlq, `history
      ensures dlq == old(dlq) + Chosen(batch, env.dlqOk, true)
      ensures history == old(history).(
                undelivered := old(history).undelivered + Chosen(batch, env.dlqOk, false), deadLettered := true)
    {
      var i := 0;
      while i < |batch|
        invariant 0 <= i <= |batch|
        invariant dlq == old(dlq) + Chosen(batch[..i], env.dlqOk, true)
        invariant history == old(history).(
                    undelivered := old(history).undelivered + Chosen(batch[..i], env.dlqOk, false))
      {
        assert batch[..i + 1][..i] == batch[..i];
        if env.dlqOk(i) {
          dlq := dlq + [batch[i]];
        } else {
          history := history.(undelivered := history.undelivered + [batch[i]]);
        }
        i := i + 1;
      }
      assert batch[..i] == batch;
      history := history.(deadLettered := true);
    }

    /** Upserts the pending batch, dead-letters it if that fails, and commits it either way. */
    method ProcessBatch(env: FlushEnv)
      requires Valid() && batch != []
      modifies `committed, `dlq, `history, store
      ensures Abs().(batch := [], events := []) == Flush(config, old(Abs()), env)
    {
      if |events| == 0 {
        return;
      }
      var failed, calls, waits := WithRetry(events, env);
      if failed {
        DeadLetterBatch(env);
      } else if calls > 0 {
        history := history.(stored := history.stored + batch);
      }
      if env.commitOk {
        committed := batch[|batch| - 1].offset + 1;
      }
      history := history.(mark := pos, settled := history.settled + batch, commits := history.commits + batch);
    }

    method FlushBatch(env: FlushEnv)
      requires Valid()
      modifies this, store
      ensures Valid() && Abs() == Flush(config, old(Abs()), env)
    {
      if |batch| == 0 {
        return;
      }
      ProcessBatch(env);
      batch := [];
      events := [];
    }

    /** Decodes a fetched message into the batch, or dead-letters and commits it. */
    method Receive(msg: Message, turn: Turn)
      requires Valid()
      modifies this
      ensures Valid() && Abs() == Take(partition, old(Abs()), msg, turn)
    {
      pos := pos + 1;
      var event := partition.Decode(msg);
      if event == None {
        if turn.dlqOk {
          dlq := dlq + [msg];
        } else {
          history := history.(undelivered := history.undelivered + [msg]);
        }
        if turn.commitOk {
          committed := msg.offset + 1;
        }
        history := history.(mark := if batch == [] then pos else history.mark,
                            poison := history.poison + [msg],
                            commits := history.commits + [msg],
                            poisonMidBatch := history.poisonMidBatch || batch != []);
      } else {
        batch := batch + [msg];
        events := events + [event.value];
      }
    }

    /** One turn of the loop. */
    method TakeTurn(turn: Turn)
      requires Valid() && !done
      modifies this, store
      ensures Valid() && Abs() == LoopTurn(config, partition, old(Abs()), turn)
    {
      if turn.fetch == Cancelled {
        FlushBatch(turn.flush);
        done := true;
        return;
      }
      if turn.fetch == Fetched && pos < |partition.log| {
        var msg := partition.log[pos];
        Receive(msg, turn);
        if |batch| >= config.maxBatchSize {
          FlushBatch(turn.flush);
        }
      }
      if turn.tick {
        FlushBatch(turn.tickFlush);
      }
    }

    /** The consumer loop: one turn fetches at most one message, and ticks flush what is pending. */
    method RunLoop(turns: seq<Turn>)
      requires Valid() && !done
      modifies this, store
      ensures Valid() && Abs() == Run(config, partition, old(Abs()), Loops(turns))
    {
      var i := 0;
      while i < |turns| && !done
        invariant 0 <= i <= |turns| && Valid()
        invariant Abs() == Run(config, partition, old(Abs()), Loops(turns[..i]))
      {
        assert Loops(turns[..i + 1])[..i] == Loops(turns[..i]);
        TakeTurn(turns[i]);
        i := i + 1;
      }
      if done {
        DoneStays(config, partition, old(Abs()), turns, i);
      }
      assert turns[..|turns|] == turns;
    }
  }
}
