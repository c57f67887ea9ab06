/**
 What interleaving replicas do to the breaker's open window and to the lifetimes of its counters: exactly
 when the window can be cut short, and what it takes for a counter to have no deadline.
 */
module BreakerInterleaving {
  import opened Common
  import opened CircuitBreaker
  import opened BreakerCommands

  lemma {:induction false} TimeGrows(c: Config, s: System, steps: seq<Step>)
    ensures Run(c, s, steps).now >= s.now
  {
    if steps != [] {
      TimeGrows(c, s, steps[..|steps| - 1]);
    }
  }

  lemma {:induction false} RunCons(c: Config, s: System, x: Step, rest: seq<Step>)
    ensures Run(c, s, [x] + rest) == Run(c, Next(c, s, x), rest)
  {
    if rest == [] {
      assert [x] + rest == [x] && [x][..0] == [];
    } else {
      assert ([x] + rest)[..|rest|] == [x] + rest[..|rest| - 1];
      RunCons(c, s, x, rest[..|rest| - 1]);
    }
  }

  // ---------------------------------------------------------------------------------------
  // The open window
  // ---------------------------------------------------------------------------------------

  /** The replica has found the circuit half open and has yet to deal with the state key. */
  predicate Probing(s: System, r: nat) {
    PcOf(s, r).IncrSuccesses? || PcOf(s, r).ExpireSuccesses? || PcOf(s, r).SetClosed?
  }

  predicate OpenUntil(s: System, d: int) {
    s.keys.state.Present? && s.keys.state.value == Open && s.keys.state.deadline.Some? && d <= s.keys.state.deadline.value
  }

  /** Open at least until d, or closed for good. */
  predicate NotHalfOpenUntil(s: System, d: int) {
    OpenUntil(s, d) || s.keys.state == Present(Closed, None)
  }

  lemma StepKeepsStale(c: Config, s: System, step: Step, d: int)
    requires NotHalfOpenUntil(s, d) && s.now < d <= s.now + c.openMs
    ensures NotHalfOpenUntil(Next(c, s, step), d)
    ensures forall r :: Probing(Next(c, s, step), r) ==> Probing(s, r)
  {
    assert GetState(s.keys, s.now) != HalfOpen;
  }

  /** Inside an open window no replica passes the state check: whoever closes had passed it when the window began. */
  lemma {:induction false} ProbesAreStale(c: Config, s: System, steps: seq<Step>, d: int)
    requires NotHalfOpenUntil(s, d) && d <= s.now + c.openMs && Run(c, s, steps).now < d
    ensures NotHalfOpenUntil(Run(c, s, steps), d)
    ensures forall r :: Probing(Run(c, s, steps), r) ==> Probing(s, r)
  {
    if steps != [] {
      var init, step := steps[..|steps| - 1], steps[|steps| - 1];
      TimeGrows(c, s, init);
      TimeGrows(c, Run(c, s, init), [step]);
      assert [step][..0] == [];
      ProbesAreStale(c, s, init, d);
      StepKeepsStale(c, Run(c, s, init), step, d);
    }
  }

  /** The close that cuts an open window short belongs to a replica whose state check preceded the SET that opened it. */
  lemma ClosersCheckedBefore(c: Config, now: int, before: seq<Step>, steps: seq<Step>, replica: nat, d: int)
    requires Run(c, Start(now), before).keys.state == Present(Open, Some(d))
    requires var u := Run(c, Run(c, Start(now), before), steps); u.now < d && PcOf(u, replica) == SetClosed
    ensures Probing(Run(c, Start(now), before), replica)
  {
    StateKeyAlwaysBounded(c, now, before);
    ProbesAreStale(c, Run(c, Start(now), before), steps, d);
  }

  /** Replicas about to count a success. */
  function Counting(s: System): set<nat> {
    set r | r in s.pcs && s.pcs[r] == IncrSuccesses
  }

  /** The replicas past the state check can still reach the success threshold between them, or one of them has. */
  predicate CanClose(c: Config, s: System) {
    || (exists r :: r in s.pcs && s.pcs[r] == SetClosed)
    || (exists r :: r in s.pcs && s.pcs[r].ExpireSuccesses? && s.pcs[r].count >= c.successThreshold)
    || (Counting(s) != {} && Count(s.keys.successes, s.now) + |Counting(s)| >= c.successThreshold)
  }

  predicate CountNotNegative(e: Entry<int>) {
    e.Present? ==> e.value >= 0
  }

  lemma {:induction false} SuccessesNotNegative(c: Config, now: int, steps: seq<Step>)
    ensures CountNotNegative(Run(c, Start(now), steps).keys.successes)
  {
    if steps != [] {
      SuccessesNotNegative(c, now, steps[..|steps| - 1]);
    }
  }

  /** A command by a replica that is not about to count moves no one to or from counting, and never raises the count. */
  lemma OthersDoNotCount(c: Config, s: System, step: Step)
    requires step.Command? && PcOf(s, step.replica) != IncrSuccesses && GetState(s.keys, s.now) != HalfOpen
    requires CountNotNegative(s.keys.successes)
    ensures var t := Next(c, s, step);
      && Counting(t) == Counting(s) && CountNotNegative(t.keys.successes)
      && Count(t.keys.successes, t.now) <= Count(s.keys.successes, s.now)
  {
    var t := Next(c, s, step);
    assert forall r :: r in Counting(t) <==> r in Counting(s);
  }

  lemma CountingOne(c: Config, s: System, step: Step)
    requires step.Command? && PcOf(s, step.replica) == IncrSuccesses && CountNotNegative(s.keys.successes)
    ensures var t, n := Next(c, s, step), Count(s.keys.successes, s.now);
      && Counting(t) == Counting(s) - {step.replica} && |Counting(t)| == |Counting(s)| - 1
      && CountNotNegative(t.keys.successes) && t.keys.state == s.keys.state
      && Count(t.keys.successes, t.now) == (if step.reply == Lost then n else n + 1)
      && PcOf(t, step.replica) == (if step.reply == Answered then ExpireSuccesses(n + 1) else Idle)
  {
    var t := Next(c, s, step);
    assert forall r :: r in Counting(t) <==> r in Counting(s) && r != step.replica;
    assert step.replica in Counting(s);
  }

  /** Counting takes a replica one step closer to closing, and leaves the others as many steps short. */
  lemma HarmlessCount(c: Config, s: System, step: Step)
    requires !CanClose(c, s) && CountNotNegative(s.keys.successes)
    requires step.Command? && PcOf(s, step.replica) == IncrSuccesses
    ensures !CanClose(c, Next(c, s, step))
  {
    var t := Next(c, s, step);
    CountingOne(c, s, step);
    assert forall r :: r in t.pcs && r != step.replica ==> r in s.pcs && t.pcs[r] == s.pcs[r];
  }

  lemma HarmlessOther(c: Config, s: System, step: Step)
    requires !CanClose(c, s) && CountNotNegative(s.keys.successes) && GetState(s.keys, s.now) != HalfOpen
    requires step.Command? && PcOf(s, step.replica) != IncrSuccesses
    ensures !CanClose(c, Next(c, s, step))
  {
    var t := Next(c, s, step);
    OthersDoNotCount(c, s, step);
    assert forall r :: r in t.pcs && r != step.replica ==> r in s.pcs && t.pcs[r] == s.pcs[r];
  }

  lemma HarmlessNext(c: Config, s: System, step: Step, d: int)
    requires !CanClose(c, s) && OpenUntil(s, d) && s.now < d <= s.now + c.openMs && CountNotNegative(s.keys.successes)
    ensures var t := Next(c, s, step); !CanClose(c, t) && OpenUntil(t, d) && CountNotNegative(t.keys.successes)
  {
    assert GetState(s.keys, s.now) == Open;
    if step.Tick? {
      assert Counting(Next(c, s, step)) == Counting(s);
    } else if PcOf(s, step.replica) == IncrSuccesses {
      HarmlessCount(c, s, step);
    } else {
      HarmlessOther(c, s, step);
    }
  }

  lemma {:induction false} HarmlessRun(c: Config, s: System, steps: seq<Step>, d: int)
    requires !CanClose(c, s) && OpenUntil(s, d) && d <= s.now + c.openMs && CountNotNegative(s.keys.successes)
    requires Run(c, s, steps).now < d
    ensures var t := Run(c, s, steps); !CanClose(c, t) && OpenUntil(t, d) && CountNotNegative(t.keys.successes)
  {
    if steps != [] {
      var init, step := steps[..|steps| - 1], steps[|steps| - 1];
      TimeGrows(c, s, init);
      HarmlessRun(c, s, init, d);
      HarmlessNext(c, Run(c, s, init), step, d);
    }
  }

  /** A replica that has counted enough closes with its next commands, at once. */
  lemma CounterCloses(c: Config, s: System, r: nat) returns (steps: seq<Step>)
    requires PcOf(s, r) == SetClosed || (PcOf(s, r).ExpireSuccesses? && PcOf(s, r).count >= c.successThreshold)
    ensures var t := Run(c, s, steps); t.now == s.now && t.keys.state == Present(Closed, None)
  {
    var step := Command(r, RecordSuccess, Answered);
    if PcOf(s, r) == SetClosed {
      steps := [step];
      RunCons(c, s, step, []);
      assert [step] + [] == [step];
    } else {
      steps := [step] + [step];
      RunCons(c, s, step, [step]);
      RunCons(c, Next(c, s, step), step, []);
      assert [step] + [] == [step];
      assert PcOf(Next(c, s, step), r) == SetClosed;
    }
  }

  /** If the replicas past the check can reach the threshold, some continuation closes at once. */
  lemma {:induction false} SomeoneCloses(c: Config, s: System) returns (steps: seq<Step>)
    requires CanClose(c, s) && CountNotNegative(s.keys.successes)
    ensures var t := Run(c, s, steps); t.now == s.now && t.keys.state == Present(Closed, None)
    decreases |Counting(s)|
  {
    if r :| r in s.pcs && (s.pcs[r] == SetClosed || (s.pcs[r].ExpireSuccesses? && s.pcs[r].count >= c.successThreshold)) {
      steps := CounterCloses(c, s, r);
    } else {
      var r :| r in Counting(s);
      var step := Command(r, RecordSuccess, Answered);
      CountingOne(c, s, step);
      var t := Next(c, s, step);
      if Counting(t) == {} {
        assert |Counting(s)| == 1;
        assert PcOf(t, r).count >= c.successThreshold;
      }
      assert CanClose(c, t);
      var rest := SomeoneCloses(c, t);
      RunCons(c, s, step, rest);
      steps := [step] + rest;
    }
  }

  /**
   From any reachable open circuit: it stays open until its deadline on every continuation, exactly when the
   replicas already past the state check can no longer reach the success threshold.
   */
  lemma WindowKeptExactly(c: Config, now: int, before: seq<Step>, d: int)
    requires Run(c, Start(now), before).keys.state == Present(Open, Some(d)) && Run(c, Start(now), before).now < d
    ensures var s := Run(c, Start(now), before);
      (forall steps: seq<Step> | Run(c, s, steps).now < d :: GetState(Run(c, s, steps).keys, Run(c, s, steps).now) == Open)
      <==> !CanClose(c, s)
  {
    var s := Run(c, Start(now), before);
    StateKeyAlwaysBounded(c, now, before);
    SuccessesNotNegative(c, now, before);
    if CanClose(c, s) {
      var steps := SomeoneCloses(c, s);
      assert Run(c, s, steps).now < d && GetState(Run(c, s, steps).keys, Run(c, s, steps).now) == Closed;
    } else {
      forall steps: seq<Step> | Run(c, s, steps).now < d
        ensures GetState(Run(c, s, steps).keys, Run(c, s, steps).now) == Open
      {
        HarmlessRun(c, s, steps, d);
      }
    }
  }

  lemma SixSteps(c: Config, s: System, steps: seq<Step>)
    requires |steps| == 6
    ensures Run(c, s, steps) ==
            Next(c, Next(c, Next(c, Next(c, Next(c, Next(c, s, steps[0]), steps[1]), steps[2]), steps[3]), steps[4]), steps[5])
  {
    assert forall i, j :: 0 <= i <= j <= 6 ==> steps[..j][..i] == steps[..i];
    assert steps[..0] == [] && Run(c, s, steps[..0]) == s;
    assert Run(c, s, steps[..1]) == Next(c, Run(c, s, steps[..0]), steps[0]);
    assert Run(c, s, steps[..2]) == Next(c, Run(c, s, steps[..1]), steps[1]);
    assert Run(c, s, steps[..3]) == Next(c, Run(c, s, steps[..2]), steps[2]);
    assert Run(c, s, steps[..4]) == Next(c, Run(c, s, steps[..3]), steps[3]);
    assert Run(c, s, steps[..5]) == Next(c, Run(c, s, steps[..4]), steps[4]);
  }

  /**
   A success whose state check ran before another replica opened the circuit still closes it: the open
   window of the atomic model is not kept under interleaving.
   */
  lemma StaleProbeCloses(c: Config, now: int)
    requires Sane(c) && c.failureThreshold == 1 && c.successThreshold == 1
    ensures var probe, fail := Command(0, RecordSuccess, Answered), Command(1, RecordFailure, Answered);
      var tripped := Run(c, Start(now), [probe, probe, probe, fail, fail, fail]);
      && GetState(tripped.keys, tripped.now) == Open
      && GetState(Next(c, tripped, probe).keys, tripped.now) == Closed
  {
    var probe, fail := Command(0, RecordSuccess, Answered), Command(1, RecordFailure, Answered);
    SixSteps(c, Start(now), [probe, probe, probe, fail, fail, fail]);
  }

  // ---------------------------------------------------------------------------------------
  // Counters without a deadline
  // ---------------------------------------------------------------------------------------

  /** Some replica other than this one has an EXPIRE of the failure counter to come. */
  predicate OtherExpiresFailures(s: System, replica: nat) {
    exists r :: r in s.pcs && r != replica && s.pcs[r].ExpireFailures?
  }

  predicate OtherExpiresSuccesses(s: System, replica: nat) {
    exists r :: r in s.pcs && r != replica && s.pcs[r].ExpireSuccesses?
  }

  predicate WithoutDeadline(e: Entry<int>) {
    e.Present? && e.deadline.None?
  }

  /**
   The step leaves the failure counter without a deadline and without an EXPIRE to come: an unanswered INCR that
   creates the counter, or a lost EXPIRE of one without a deadline, when no other replica is about to EXPIRE it.
   */
  predicate StrandsFailures(s: System, step: Step) {
    && step.Command? && !OtherExpiresFailures(s, step.replica)
    && match PcOf(s, step.replica)
       case Idle => step.call == RecordFailure && step.reply == Unanswered && Live(s.keys.failures, s.now).Absent?
       case ExpireFailures(_) => step.reply == Lost && WithoutDeadline(s.keys.failures)
       case _ => false
  }

  predicate StrandsSuccesses(s: System, step: Step) {
    && step.Command? && !OtherExpiresSuccesses(s, step.replica)
    && match PcOf(s, step.replica)
       case IncrSuccesses => step.reply == Unanswered && Live(s.keys.successes, s.now).Absent?
       case ExpireSuccesses(_) => step.reply == Lost && WithoutDeadline(s.keys.successes)
       case _ => false
  }

  predicate FailuresPending(s: System) {
    exists r :: r in s.pcs && s.pcs[r].ExpireFailures?
  }

  predicate SuccessesPending(s: System) {
    exists r :: r in s.pcs && s.pcs[r].ExpireSuccesses?
  }

  /** The counter is absent, about to be given a deadline, or will lapse within its TTL. */
  predicate Lapsing(e: Entry<int>, pending: bool, now: int, ttl: int) {
    e.Absent? || pending || (e.deadline.Some? && e.deadline.value <= now + ttl)
  }

  predicate FailuresLapsing(c: Config, s: System) {
    Lapsing(s.keys.failures, FailuresPending(s), s.now, c.failuresTtlMs)
  }

  predicate SuccessesLapsing(c: Config, s: System) {
    Lapsing(s.keys.successes, SuccessesPending(s), s.now, c.successTtlMs)
  }

  /** A deadline is never more than the TTL ahead. */
  predicate DeadlineBounded(e: Entry<int>, now: int, ttl: int) {
    e.Present? && e.deadline.Some? ==> e.deadline.value <= now + ttl
  }

  predicate DeadlinesBounded(c: Config, s: System) {
    && DeadlineBounded(s.keys.failures, s.now, c.failuresTtlMs)
    && DeadlineBounded(s.keys.successes, s.now, c.successTtlMs)
  }

  lemma {:induction false} DeadlinesAlwaysBounded(c: Config, now: int, steps: seq<Step>)
    ensures DeadlinesBounded(c, Run(c, Start(now), steps))
  {
    if steps != [] {
      DeadlinesAlwaysBounded(c, now, steps[..|steps| - 1]);
    }
  }

  /** Replicas other than the one that moves stay where they are. */
  lemma OthersStay(c: Config, s: System, step: Step)
    requires step.Command?
    ensures forall r :: r != step.replica ==>
              (r in Next(c, s, step).pcs <==> r in s.pcs) && (r in s.pcs ==> Next(c, s, step).pcs[r] == s.pcs[r])
    ensures step.replica in Next(c, s, step).pcs
  {
  }

  /** After a step an EXPIRE is to come by another replica, or by the one that moved. */
  lemma FailuresPendingAfter(c: Config, s: System, step: Step)
    requires step.Command?
    ensures var t := Next(c, s, step);
      && (FailuresPending(s) <==> OtherExpiresFailures(s, step.replica) || PcOf(s, step.replica).ExpireFailures?)
      && (FailuresPending(t) <==> OtherExpiresFailures(s, step.replica) || PcOf(t, step.replica).ExpireFailures?)
  {
    OthersStay(c, s, step);
    var t := Next(c, s, step);
    if r :| r in s.pcs && r != step.replica && s.pcs[r].ExpireFailures? {
      assert r in t.pcs && t.pcs[r].ExpireFailures?;
    }
    if PcOf(t, step.replica).ExpireFailures? {
      assert t.pcs[step.replica].ExpireFailures?;
    }
  }

  lemma SuccessesPendingAfter(c: Config, s: System, step: Step)
    requires step.Command?
    ensures var t := Next(c, s, step);
      && (SuccessesPending(s) <==> OtherExpiresSuccesses(s, step.replica) || PcOf(s, step.replica).ExpireSuccesses?)
      && (SuccessesPending(t) <==> OtherExpiresSuccesses(s, step.replica) || PcOf(t, step.replica).ExpireSuccesses?)
  {
    OthersStay(c, s, step);
    var t := Next(c, s, step);
    if r :| r in s.pcs && r != step.replica && s.pcs[r].ExpireSuccesses? {
      assert r in t.pcs && t.pcs[r].ExpireSuccesses?;
    }
    if PcOf(t, step.replica).ExpireSuccesses? {
      assert t.pcs[step.replica].ExpireSuccesses?;
    }
  }

  lemma FailuresLapseNext(c: Config, s: System, step: Step)
    requires DeadlinesBounded(c, s) && FailuresLapsing(c, s)
    ensures FailuresLapsing(c, Next(c, s, step)) <==> !StrandsFailures(s, step)
  {
    if step.Command? {
      FailuresPendingAfter(c, s, step);
    }
  }

  lemma SuccessesLapseNext(c: Config, s: System, step: Step)
    requires DeadlinesBounded(c, s) && SuccessesLapsing(c, s)
    ensures SuccessesLapsing(c, Next(c, s, step)) <==> !StrandsSuccesses(s, step)
  {
    if step.Command? {
      SuccessesPendingAfter(c, s, step);
    }
  }

  /** The failure counter is lapsing at every moment of the run. */
  predicate FailuresAlwaysLapsing(c: Config, s: System, steps: seq<Step>) {
    FailuresLapsing(c, Run(c, s, steps)) && (steps == [] || FailuresAlwaysLapsing(c, s, steps[..|steps| - 1]))
  }

  predicate FailuresNeverStranded(c: Config, s: System, steps: seq<Step>) {
    steps == [] ||
    var init := steps[..|steps| - 1];
    FailuresNeverStranded(c, s, init) && !StrandsFailures(Run(c, s, init), steps[|steps| - 1])
  }

  predicate SuccessesAlwaysLapsing(c: Config, s: System, steps: seq<Step>) {
    SuccessesLapsing(c, Run(c, s, steps)) && (steps == [] || SuccessesAlwaysLapsing(c, s, steps[..|steps| - 1]))
  }

  predicate SuccessesNeverStranded(c: Config, s: System, steps: seq<Step>) {
    steps == [] ||
    var init := steps[..|steps| - 1];
    SuccessesNeverStranded(c, s, init) && !StrandsSuccesses(Run(c, s, init), steps[|steps| - 1])
  }

  /**
   Under any interleaving the failure counter has at every moment a deadline within its TTL, or an EXPIRE to
   come, exactly when no step strands it.
   */
  lemma {:induction false} FailuresLapseExactly(c: Config, now: int, steps: seq<Step>)
    ensures FailuresAlwaysLapsing(c, Start(now), steps) <==> FailuresNeverStranded(c, Start(now), steps)
  {
    if steps != [] {
      var init := steps[..|steps| - 1];
      FailuresLapseExactly(c, now, init);
      DeadlinesAlwaysBounded(c, now, init);
      if FailuresAlwaysLapsing(c, Start(now), init) {
        assert FailuresLapsing(c, Run(c, Start(now), init));
        FailuresLapseNext(c, Run(c, Start(now), init), steps[|steps| - 1]);
      }
    }
  }

  /** The same of the success counter. */
  lemma {:induction false} SuccessesLapseExactly(c: Config, now: int, steps: seq<Step>)
    ensures SuccessesAlwaysLapsing(c, Start(now), steps) <==> SuccessesNeverStranded(c, Start(now), steps)
  {
    if steps != [] {
      var init := steps[..|steps| - 1];
      SuccessesLapseExactly(c, now, init);
      DeadlinesAlwaysBounded(c, now, init);
      if SuccessesAlwaysLapsing(c, Start(now), init) {
        assert SuccessesLapsing(c, Run(c, Start(now), init));
        SuccessesLapseNext(c, Run(c, Start(now), init), steps[|steps| - 1]);
      }
    }
  }

  const FAIL := Command(0, RecordFailure, Answered)
  const FAIL_LOST := Command(0, RecordFailure, Lost)

  /** n failures whose EXPIREs are all lost. */
  function LeakyFailures(n: nat): seq<Step> {
    if n == 0 then [] else LeakyFailures(n - 1) + [FAIL] + [FAIL_LOST]
  }

  function Leaked(n: nat): Keys {
    NO_KEYS.(failures := if n == 0 then Absent else Present(n, None))
  }

  lemma LeakOnce(c: Config, s: System, n: nat)
    requires PcOf(s, 0) == Idle && s.keys == Leaked(n) && n + 1 < c.failureThreshold
    ensures var t := Next(c, Next(c, s, FAIL), FAIL_LOST);
      t.now == s.now && PcOf(t, 0) == Idle && t.keys == Leaked(n + 1)
  {
    assert PcOf(Next(c, s, FAIL), 0) == ExpireFailures(n + 1);
  }

  lemma {:induction false} LeakyFailuresCount(c: Config, now: int, n: nat)
    requires n < c.failureThreshold
    ensures var s := Run(c, Start(now), LeakyFailures(n)); s.now == now && PcOf(s, 0) == Idle && s.keys == Leaked(n)
  {
    if n > 0 {
      var before := LeakyFailures(n - 1);
      LeakyFailuresCount(c, now, n - 1);
      LeakOnce(c, Run(c, Start(now), before), n - 1);
      assert (before + [FAIL])[..|before|] == before;
      assert (before + [FAIL] + [FAIL_LOST])[..|before| + 1] == before + [FAIL];
    }
  }

  /**
   Lost EXPIREs leave a failure counter that never lapses: for every threshold from two on, one failure fewer than it and
   then one more any time later open the circuit, although the failures TTL has long passed.
   */
  lemma LostExpireNeverLapses(c: Config, now: int, gap: nat)
    requires c.openMs > 0 && c.failureThreshold >= 2
    ensures var s := Run(c, Start(now), LeakyFailures(c.failureThreshold - 1));
      var t := Run(c, s, [Tick(gap)] + ([FAIL] + ([FAIL] + ([FAIL] + []))));
      GetState(t.keys, t.now) == Open
  {
    var n := c.failureThreshold - 1;
    var s := Run(c, Start(now), LeakyFailures(n));
    LeakyFailuresCount(c, now, n);
    var s1 := Next(c, s, Tick(gap));
    var s2 := Next(c, s1, FAIL);
    var s3 := Next(c, s2, FAIL);
    RunCons(c, s, Tick(gap), [FAIL] + ([FAIL] + ([FAIL] + [])));
    RunCons(c, s1, FAIL, [FAIL] + ([FAIL] + []));
    RunCons(c, s2, FAIL, [FAIL] + []);
    RunCons(c, s3, FAIL, []);
    assert PcOf(s2, 0) == ExpireFailures(n + 1);
    assert PcOf(s3, 0) == SetOpen;
  }
}
