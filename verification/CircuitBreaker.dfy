/**
 The Redis-backed circuit breaker, one call at a time.

 HALF_OPEN is the absence of the state key.  The theorems compare the three expiring keys with
 definitions that look only at the history of recorded failures and successes.
 Times are milliseconds; a key is live strictly before its deadline.
 */
module CircuitBreaker {
  import opened Common

  datatype Config = Config(failureThreshold: int, successThreshold: int, openMs: int, successTtlMs: int, failuresTtlMs: int)

  /** Durations are positive once configuration defaults are applied. */
  predicate Sane(c: Config) {
    c.openMs > 0 && c.successTtlMs > 0 && c.failuresTtlMs > 0
  }

  datatype Circuit = Closed | Open | HalfOpen

  // ---------------------------------------------------------------------------------------
  // The keys
  // ---------------------------------------------------------------------------------------

  datatype Entry<+V> = Absent | Present(value: V, deadline: Option<int>)

  function Live<V>(e: Entry<V>, now: int): Entry<V> {
    if e.Present? && e.deadline.Some? && e.deadline.value <= now then Absent else e
  }

  function Count(e: Entry<int>, now: int): int {
    match Live(e, now)
    case Absent => 0
    case Present(n, _) => n
  }

  /** INCR keeps the deadline of a live counter and creates a counter without one. */
  function Incr(e: Entry<int>, now: int): (r: Entry<int>)
    ensures r.Present? && r.value == Count(e, now) + 1
  {
    match Live(e, now)
    case Absent => Present(1, None)
    case Present(n, d) => Present(n + 1, d)
  }

  function Expire<V>(e: Entry<V>, deadline: int): Entry<V> {
    if e.Present? then e.(deadline := Some(deadline)) else e
  }

  /** The TTL command rounds what is left to the nearest second. */
  function TtlSeconds(leftMs: int): int {
    (leftMs + 500) / 1000
  }

  datatype Keys = Keys(state: Entry<Circuit>, failures: Entry<int>, successes: Entry<int>)

  const NO_KEYS := Keys(Absent, Absent, Absent)

  function GetState(k: Keys, now: int): Circuit {
    match Live(k.state, now)
    case Absent => HalfOpen
    case Present(s, _) => s
  }

  function OnFailure(c: Config, k: Keys, now: int): Keys {
    var failures := Expire(Incr(k.failures, now), now + c.failuresTtlMs);
    Keys(if failures.value >= c.failureThreshold then Present(Open, Some(now + c.openMs)) else k.state,
         failures, k.successes)
  }

  function OnSuccess(c: Config, k: Keys, now: int): Keys {
    if GetState(k, now) != HalfOpen then k
    else
      var successes := Expire(Incr(k.successes, now), now + c.successTtlMs);
      if successes.value >= c.successThreshold then Keys(Present(Closed, None), Absent, Absent)
      else Keys(k.state, k.failures, successes)
  }

  /** The openDurationSeconds gauge, in milliseconds. */
  function ReportedOpenMs(c: Config, k: Keys, now: int): int {
    match Live(k.state, now)
    case Present(_, Some(deadline)) => Max(0, c.openMs - 1000 * TtlSeconds(deadline - now))
    case _ => 0
  }

  // ---------------------------------------------------------------------------------------
  // Histories
  // ---------------------------------------------------------------------------------------

  datatype Op = Failure | Success

  datatype Event = Event(at: int, op: Op)

  type History = seq<Event>

  predicate Ordered(h: History) {
    forall i, j :: 0 <= i < j < |h| ==> h[i].at <= h[j].at
  }

  /** now is not before any event of h. */
  predicate Reached(h: History, now: int) {
    Ordered(h) && (h == [] || h[|h| - 1].at <= now)
  }

  /** The keys after the calls of h[..n]. */
  function Replay(c: Config, h: History, n: nat): Keys
    requires n <= |h|
  {
    if n == 0 then NO_KEYS
    else
      var k, e := Replay(c, h, n - 1), h[n - 1];
      match e.op
      case Failure => OnFailure(c, k, e.at)
      case Success => OnSuccess(c, k, e.at)
  }

  /**
   Looking back from `now` over h[..n]: the failures since the last close, up to the first silence
   of a whole failures TTL.  Successes in between do not matter.
   */
  ghost function FailureChain(c: Config, h: History, n: nat, now: int): nat
    requires n <= |h|
    decreases n, 0
  {
    if n == 0 then 0
    else
      var e := h[n - 1];
      if e.op == Failure then
        if now - e.at < c.failuresTtlMs then 1 + FailureChain(c, h, n - 1, e.at) else 0
      else if Closes(c, h, n - 1) then 0
      else FailureChain(c, h, n - 1, now)
  }

  /** The same for successes that found the circuit half open.  Failures in between do not matter. */
  ghost function SuccessChain(c: Config, h: History, n: nat, now: int): nat
    requires n <= |h|
    decreases n, 0
  {
    if n == 0 then 0
    else
      var e := h[n - 1];
      if e.op == Failure || Status(c, h, n - 1, e.at) != HalfOpen then SuccessChain(c, h, n - 1, now)
      else if Closes(c, h, n - 1) || now - e.at >= c.successTtlMs then 0
      else 1 + SuccessChain(c, h, n - 1, e.at)
  }

  /** Call i is a failure that completes a chain of failureThreshold failures. */
  ghost predicate Opens(c: Config, h: History, i: nat)
    requires i < |h|
    decreases i, 1
  {
    h[i].op == Failure && 1 + FailureChain(c, h, i, h[i].at) >= c.failureThreshold
  }

  /** Call i is a half-open success that completes a chain of successThreshold of them. */
  ghost predicate Closes(c: Config, h: History, i: nat)
    requires i < |h|
    decreases i, 1
  {
    h[i].op == Success && Status(c, h, i, h[i].at) == HalfOpen
    && 1 + SuccessChain(c, h, i, h[i].at) >= c.successThreshold
  }

  /** The circuit as its latest transition left it. */
  ghost function Status(c: Config, h: History, n: nat, now: int): Circuit
    requires n <= |h|
    decreases n, 0
  {
    if n == 0 then HalfOpen
    else if Opens(c, h, n - 1) then (if now < h[n - 1].at + c.openMs then Open else HalfOpen)
    else if Closes(c, h, n - 1) then Closed
    else Status(c, h, n - 1, now)
  }

  /** The three keys say exactly what the history says, at every later moment. */
  lemma {:induction false} KeysRefineHistory(c: Config, h: History, n: nat, now: int)
    requires Sane(c) && Ordered(h) && n <= |h| && (n > 0 ==> h[n - 1].at <= now)
    ensures Count(Replay(c, h, n).failures, now) == FailureChain(c, h, n, now)
    ensures Count(Replay(c, h, n).successes, now) == SuccessChain(c, h, n, now)
    ensures GetState(Replay(c, h, n), now) == Status(c, h, n, now)
    decreases n
  {
    if n > 0 {
      KeysRefineHistory(c, h, n - 1, now);
      KeysRefineHistory(c, h, n - 1, h[n - 1].at);
    }
  }

  // ---------------------------------------------------------------------------------------
  // Chains as plain sets of calls
  // ---------------------------------------------------------------------------------------

  /** Calls in time order, each less than a TTL after the one before, ending at call i. */
  ghost predicate IsSpaced(h: History, chain: seq<nat>, i: nat, ttl: int) {
    && |chain| > 0 && chain[|chain| - 1] == i < |h|
    && (forall j, k :: 0 <= j < k < |chain| ==> chain[j] < chain[k])
    && (forall j :: 0 <= j < |chain| ==> chain[j] <= i)
    && (forall j, k :: 0 <= j < k < |chain| && k == j + 1 ==> h[chain[k]].at - h[chain[j]].at < ttl)
  }

  lemma SpacedExtends(h: History, chain: seq<nat>, i: nat, ttl: int, n: nat)
    requires IsSpaced(h, chain, i, ttl) && i < n < |h| && h[n].at - h[i].at < ttl
    ensures IsSpaced(h, chain + [n], n, ttl)
  {
    var more := chain + [n];
    forall j, k | 0 <= j < k < |more| ensures more[j] < more[k] && (k == j + 1 ==> h[more[k]].at - h[more[j]].at < ttl) {
      assert more[j] == chain[j];
      assert k == |chain| || more[k] == chain[k];
    }
  }

  /** No call from a on and before b closes the circuit. */
  ghost predicate NoClose(c: Config, h: History, a: nat, b: nat)
    requires b <= |h|
  {
    forall k :: a <= k < b ==> !Closes(c, h, k)
  }

  lemma NoCloseJoin(c: Config, h: History, a: nat, m: nat, b: nat)
    requires m <= b <= |h| && NoClose(c, h, a, m) && NoClose(c, h, m, b)
    ensures NoClose(c, h, a, b)
  {
  }

  /** Failures in time order, each less than a TTL after the one before, with no close in between, ending at call i. */
  ghost predicate IsFailureChain(c: Config, h: History, chain: seq<nat>, i: nat) {
    && IsSpaced(h, chain, i, c.failuresTtlMs)
    && (forall j :: 0 <= j < |chain| ==> h[chain[j]].op == Failure)
    && NoClose(c, h, chain[0], i)
  }

  lemma FailureChainExtends(c: Config, h: History, chain: seq<nat>, i: nat, n: nat)
    requires IsFailureChain(c, h, chain, i) && i < n < |h| && h[n].op == Failure
    requires h[n].at - h[i].at < c.failuresTtlMs && NoClose(c, h, i, n)
    ensures IsFailureChain(c, h, chain + [n], n)
  {
    SpacedExtends(h, chain, i, c.failuresTtlMs, n);
    NoCloseJoin(c, h, chain[0], i, n);
  }

  lemma {:induction false} FailureChainFound(c: Config, h: History, n: nat, now: int) returns (chain: seq<nat>)
    requires Ordered(h) && n <= |h| && FailureChain(c, h, n, now) > 0
    ensures |chain| == FailureChain(c, h, n, now)
    ensures chain[|chain| - 1] < n && IsFailureChain(c, h, chain, chain[|chain| - 1])
    ensures now - h[chain[|chain| - 1]].at < c.failuresTtlMs
    ensures h[n - 1].op == Failure ==> chain[|chain| - 1] == n - 1
    ensures NoClose(c, h, chain[|chain| - 1], n)
    decreases n
  {
    var e := h[n - 1];
    if e.op == Success {
      chain := FailureChainFound(c, h, n - 1, now);
    } else if FailureChain(c, h, n - 1, e.at) == 0 {
      chain := [n - 1];
    } else {
      var before := FailureChainFound(c, h, n - 1, e.at);
      FailureChainExtends(c, h, before, before[|before| - 1], n - 1);
      chain := before + [n - 1];
    }
  }

  /** A failure within a TTL, with no close since, is on the chain. */
  lemma {:induction false} FailureOnChain(c: Config, h: History, n: nat, now: int, i: nat)
    requires Ordered(h) && i < n <= |h| && h[i].op == Failure && h[n - 1].at <= now
    requires now - h[i].at < c.failuresTtlMs && NoClose(c, h, i, n)
    ensures FailureChain(c, h, n, now) >= 1 + FailureChain(c, h, i, h[i].at)
    decreases n
  {
    if i < n - 1 {
      FailureOnChain(c, h, n - 1, if h[n - 1].op == Failure then h[n - 1].at else now, i);
    }
  }

  lemma {:induction false} FailureChainLongest(c: Config, h: History, chain: seq<nat>, i: nat)
    requires Ordered(h) && IsFailureChain(c, h, chain, i)
    ensures |chain| <= 1 + FailureChain(c, h, i, h[i].at)
    decreases |chain|
  {
    if |chain| > 1 {
      var init := chain[..|chain| - 1];
      var j := init[|init| - 1];
      assert chain[|chain| - 2 + 1] == i;
      FailureChainLongest(c, h, init, j);
      FailureOnChain(c, h, i, h[i].at, j);
    }
  }

  ghost predicate CompletesFailureChain(c: Config, h: History, i: nat) {
    exists chain: seq<nat> :: |chain| >= c.failureThreshold && IsFailureChain(c, h, chain, i)
  }

  /**
   A failure opens the circuit exactly when it ends a chain of failureThreshold failures since the last
   close, each less than a failures TTL after the one before.  They need not be consecutive calls.
   */
  lemma OpensExactly(c: Config, h: History, i: nat)
    requires Sane(c) && Ordered(h) && i < |h| && h[i].op == Failure && c.failureThreshold >= 1
    ensures Replay(c, h, i + 1).state ==
            if CompletesFailureChain(c, h, i) then Present(Open, Some(h[i].at + c.openMs)) else Replay(c, h, i).state
  {
    KeysRefineHistory(c, h, i, h[i].at);
    if Opens(c, h, i) {
      var chain := FailureChainFound(c, h, i + 1, h[i].at);
    }
    forall chain: seq<nat> | IsFailureChain(c, h, chain, i) ensures |chain| <= 1 + FailureChain(c, h, i, h[i].at) {
      FailureChainLongest(c, h, chain, i);
    }
  }

  ghost predicate Probe(c: Config, h: History, i: nat)
    requires i < |h|
  {
    h[i].op == Success && Status(c, h, i, h[i].at) == HalfOpen
  }

  ghost predicate AllProbes(c: Config, h: History, chain: seq<nat>) {
    forall j :: 0 <= j < |chain| ==> chain[j] < |h| && Probe(c, h, chain[j])
  }

  lemma AllProbesExtends(c: Config, h: History, chain: seq<nat>, n: nat)
    requires AllProbes(c, h, chain) && n < |h| && Probe(c, h, n)
    ensures AllProbes(c, h, chain + [n])
  {
  }

  /** Successes that found the circuit half open, each less than a TTL after the one before, with no close in between. */
  ghost predicate IsProbeChain(c: Config, h: History, chain: seq<nat>, i: nat) {
    IsSpaced(h, chain, i, c.successTtlMs) && AllProbes(c, h, chain) && NoClose(c, h, chain[0], i)
  }

  lemma ProbeChainExtends(c: Config, h: History, chain: seq<nat>, i: nat, n: nat)
    requires IsProbeChain(c, h, chain, i) && i < n < |h| && Probe(c, h, n)
    requires h[n].at - h[i].at < c.successTtlMs && NoClose(c, h, i, n)
    ensures IsProbeChain(c, h, chain + [n], n)
  {
    SpacedExtends(h, chain, i, c.successTtlMs, n);
    AllProbesExtends(c, h, chain, n);
    NoCloseJoin(c, h, chain[0], i, n);
  }

  lemma {:induction false} ProbeChainFound(c: Config, h: History, n: nat, now: int) returns (chain: seq<nat>)
    requires Ordered(h) && n <= |h| && SuccessChain(c, h, n, now) > 0
    ensures |chain| == SuccessChain(c, h, n, now)
    ensures chain[|chain| - 1] < n && IsProbeChain(c, h, chain, chain[|chain| - 1])
    ensures now - h[chain[|chain| - 1]].at < c.successTtlMs
    ensures NoClose(c, h, chain[|chain| - 1], n)
    decreases n
  {
    var e := h[n - 1];
    if !Probe(c, h, n - 1) {
      chain := ProbeChainFound(c, h, n - 1, now);
    } else if SuccessChain(c, h, n - 1, e.at) == 0 {
      chain := [n - 1];
    } else {
      var before := ProbeChainFound(c, h, n - 1, e.at);
      ProbeChainExtends(c, h, before, before[|before| - 1], n - 1);
      chain := before + [n - 1];
    }
  }

  lemma {:induction false} ProbeOnChain(c: Config, h: History, n: nat, now: int, i: nat)
    requires Ordered(h) && i < n <= |h| && Probe(c, h, i) && h[n - 1].at <= now
    requires now - h[i].at < c.successTtlMs && NoClose(c, h, i, n)
    ensures SuccessChain(c, h, n, now) >= 1 + SuccessChain(c, h, i, h[i].at)
    decreases n
  {
    if i < n - 1 {
      ProbeOnChain(c, h, n - 1, if Probe(c, h, n - 1) then h[n - 1].at else now, i);
    }
  }

  lemma {:induction false} ProbeChainLongest(c: Config, h: History, chain: seq<nat>, i: nat)
    requires Ordered(h) && IsProbeChain(c, h, chain, i)
    ensures |chain| <= 1 + SuccessChain(c, h, i, h[i].at)
    decreases |chain|
  {
    if |chain| > 1 {
      var init := chain[..|chain| - 1];
      var j := init[|init| - 1];
      assert chain[|chain| - 2 + 1] == i;
      ProbeChainLongest(c, h, init, j);
      ProbeOnChain(c, h, i, h[i].at, j);
    }
  }

  ghost predicate CompletesProbeChain(c: Config, h: History, i: nat) {
    exists chain: seq<nat> :: |chain| >= c.successThreshold && IsProbeChain(c, h, chain, i)
  }

  /**
   A success closes the circuit exactly when it ends a chain of successThreshold half-open successes since
   the last close, each less than a success TTL after the one before.  Failures between them do not matter.
   */
  lemma ClosesExactly(c: Config, h: History, i: nat)
    requires Sane(c) && Ordered(h) && i < |h| && h[i].op == Success && c.successThreshold >= 1
    ensures Replay(c, h, i + 1).state ==
            if CompletesProbeChain(c, h, i) then Present(Closed, None) else Replay(c, h, i).state
    ensures CompletesProbeChain(c, h, i) ==> Replay(c, h, i + 1).failures == Replay(c, h, i + 1).successes == Absent
  {
    KeysRefineHistory(c, h, i, h[i].at);
    if Closes(c, h, i) {
      if SuccessChain(c, h, i, h[i].at) == 0 {
        assert IsProbeChain(c, h, [i], i);
      } else {
        var before := ProbeChainFound(c, h, i, h[i].at);
        ProbeChainExtends(c, h, before, before[|before| - 1], i);
      }
    }
    forall chain: seq<nat> | IsProbeChain(c, h, chain, i)
      ensures |chain| <= 1 + SuccessChain(c, h, i, h[i].at) && Probe(c, h, i)
    {
      ProbeChainLongest(c, h, chain, i);
    }
  }

  // ---------------------------------------------------------------------------------------
  // "Consecutive" successes and failures
  // ---------------------------------------------------------------------------------------

  /** The documented counter: a failure between two half-open successes starts the count afresh. */
  ghost function ConsecutiveSuccesses(c: Config, h: History, n: nat, now: int): nat
    requires n <= |h|
    decreases n
  {
    if n == 0 then 0
    else
      var e := h[n - 1];
      if e.op == Failure then 0
      else if !Probe(c, h, n - 1) then ConsecutiveSuccesses(c, h, n - 1, now)
      else if Closes(c, h, n - 1) || now - e.at >= c.successTtlMs then 0
      else 1 + ConsecutiveSuccesses(c, h, n - 1, e.at)
  }

  /** Some failure of h[..n] was recorded while the success counter, as it stands at `now`, was already running. */
  ghost predicate FailureInsideChain(c: Config, h: History, n: nat, now: int)
    requires n <= |h|
    decreases n
  {
    n > 0 &&
    var e := h[n - 1];
    if e.op == Failure then SuccessChain(c, h, n - 1, now) > 0
    else if !Probe(c, h, n - 1) then FailureInsideChain(c, h, n - 1, now)
    else !Closes(c, h, n - 1) && now - e.at < c.successTtlMs && FailureInsideChain(c, h, n - 1, e.at)
  }

  lemma {:induction false} ProbeChainsConsecutive(c: Config, h: History, n: nat, now: int)
    requires n <= |h|
    ensures ConsecutiveSuccesses(c, h, n, now) <= SuccessChain(c, h, n, now)
    ensures ConsecutiveSuccesses(c, h, n, now) == SuccessChain(c, h, n, now) <==> !FailureInsideChain(c, h, n, now)
    decreases n
  {
    if n > 0 {
      ProbeChainsConsecutive(c, h, n - 1, now);
      ProbeChainsConsecutive(c, h, n - 1, h[n - 1].at);
    }
  }

  /**
   The stored success counter is never less than the documented one, and equal to it exactly when no failure
   fell inside the running chain.
   */
  lemma ConsecutiveExactly(c: Config, h: History, n: nat, now: int)
    requires Sane(c) && Ordered(h) && n <= |h| && (n > 0 ==> h[n - 1].at <= now)
    ensures var stored := Count(Replay(c, h, n).successes, now);
      && ConsecutiveSuccesses(c, h, n, now) <= stored
      && (ConsecutiveSuccesses(c, h, n, now) == stored <==> !FailureInsideChain(c, h, n, now))
  {
    KeysRefineHistory(c, h, n, now);
    ProbeChainsConsecutive(c, h, n, now);
  }

  /** Success, failure, success closes a circuit that asks for two consecutive successes. */
  lemma NotConsecutive(c: Config, at: int)
    requires Sane(c) && c.successThreshold == 2 && c.failureThreshold >= 2
    ensures var h := [Event(at, Success), Event(at, Failure), Event(at, Success)];
      GetState(Replay(c, h, 3), at) == Closed && ConsecutiveSuccesses(c, h, 2, at) == 0
  {
    var h := [Event(at, Success), Event(at, Failure), Event(at, Success)];
    assert Replay(c, h, 0) == NO_KEYS;
    assert Replay(c, h, 1) == Keys(Absent, Absent, Present(1, Some(at + c.successTtlMs)));
    assert Replay(c, h, 2).successes == Present(1, Some(at + c.successTtlMs)) && Replay(c, h, 2).state == Absent;
  }

  /** The documented counter: any success starts the count of failures afresh. */
  ghost function ConsecutiveFailures(c: Config, h: History, n: nat, now: int): nat
    requires n <= |h|
    decreases n
  {
    if n == 0 then 0
    else
      var e := h[n - 1];
      if e.op == Success || now - e.at >= c.failuresTtlMs then 0 else 1 + ConsecutiveFailures(c, h, n - 1, e.at)
  }

  /** Some success of h[..n] that did not close was recorded while the failure counter, as it stands at `now`, was running. */
  ghost predicate SuccessInsideChain(c: Config, h: History, n: nat, now: int)
    requires n <= |h|
    decreases n
  {
    n > 0 &&
    var e := h[n - 1];
    if e.op == Success then !Closes(c, h, n - 1) && FailureChain(c, h, n - 1, now) > 0
    else now - e.at < c.failuresTtlMs && SuccessInsideChain(c, h, n - 1, e.at)
  }

  lemma {:induction false} FailureChainsConsecutive(c: Config, h: History, n: nat, now: int)
    requires n <= |h|
    ensures ConsecutiveFailures(c, h, n, now) <= FailureChain(c, h, n, now)
    ensures ConsecutiveFailures(c, h, n, now) == FailureChain(c, h, n, now) <==> !SuccessInsideChain(c, h, n, now)
    decreases n
  {
    if n > 0 {
      FailureChainsConsecutive(c, h, n - 1, now);
      FailureChainsConsecutive(c, h, n - 1, h[n - 1].at);
    }
  }

  /**
   The stored failure counter is never less than the documented one, and equal to it exactly when no success
   that did not close fell inside the running chain.
   */
  lemma FailuresConsecutiveExactly(c: Config, h: History, n: nat, now: int)
    requires Sane(c) && Ordered(h) && n <= |h| && (n > 0 ==> h[n - 1].at <= now)
    ensures var stored := Count(Replay(c, h, n).failures, now);
      && ConsecutiveFailures(c, h, n, now) <= stored
      && (ConsecutiveFailures(c, h, n, now) == stored <==> !SuccessInsideChain(c, h, n, now))
  {
    KeysRefineHistory(c, h, n, now);
    FailureChainsConsecutive(c, h, n, now);
  }

  /** Failure, success, failure opens a closed circuit that asks for two consecutive failures. */
  lemma FailuresNotConsecutive(c: Config, at: int)
    requires Sane(c) && c.successThreshold == 1 && c.failureThreshold == 2
    ensures var h := [Event(at, Success), Event(at, Failure), Event(at, Success), Event(at, Failure)];
      GetState(Replay(c, h, 3), at) == Closed && GetState(Replay(c, h, 4), at) == Open
  {
    var h := [Event(at, Success), Event(at, Failure), Event(at, Success), Event(at, Failure)];
    assert Replay(c, h, 0) == NO_KEYS;
    assert Replay(c, h, 1) == Keys(Present(Closed, None), Absent, Absent);
    assert Replay(c, h, 2) == Keys(Present(Closed, None), Present(1, Some(at + c.failuresTtlMs)), Absent);
    assert Replay(c, h, 3) == Replay(c, h, 2);
  }

  // ---------------------------------------------------------------------------------------
  // The open window and the probe after it
  // ---------------------------------------------------------------------------------------

  lemma {:induction false} OpenWindow(c: Config, h: History, n: nat, now: int)
    requires Ordered(h) && n <= |h| && (n > 0 ==> h[n - 1].at <= now)
    ensures Status(c, h, n, now) == Open <==> exists i :: 0 <= i < n && Opens(c, h, i) && now < h[i].at + c.openMs
    decreases n
  {
    if n > 0 {
      OpenWindow(c, h, n - 1, now);
      OpenWindow(c, h, n - 1, h[n - 1].at);
    }
  }

  /**
   Calls are blocked exactly during the full open duration after a failure that reached the threshold:
   nothing recorded meanwhile ends the window early, and nothing else blocks.
   */
  lemma BlockedExactly(c: Config, h: History, now: int)
    requires Sane(c) && Reached(h, now)
    ensures GetState(Replay(c, h, |h|), now) == Open <==>
            exists i :: 0 <= i < |h| && Opens(c, h, i) && now < h[i].at + c.openMs
  {
    KeysRefineHistory(c, h, |h|, now);
    OpenWindow(c, h, |h|, now);
  }

  lemma {:induction false} OpenDeadline(c: Config, h: History, n: nat, i: nat)
    requires Sane(c) && Ordered(h) && i < n <= |h| && Opens(c, h, i)
    requires forall j :: i < j < n ==> !Opens(c, h, j) && !Closes(c, h, j)
    ensures Replay(c, h, n).state == Present(Open, Some(h[i].at + c.openMs))
    decreases n
  {
    KeysRefineHistory(c, h, n - 1, h[n - 1].at);
    if i < n - 1 {
      assert !Opens(c, h, n - 1) && !Closes(c, h, n - 1);
      OpenDeadline(c, h, n - 1, i);
    }
  }

  lemma NoCloseWhileOpen(c: Config, h: History, n: nat, now: int, i: nat)
    requires Ordered(h) && i < n <= |h| && h[n - 1].at <= now && Opens(c, h, i) && now < h[i].at + c.openMs
    ensures forall j :: i <= j < n ==> !Closes(c, h, j)
  {
    forall j | i < j < n ensures !Closes(c, h, j) {
      OpenWindow(c, h, j, h[j].at);
    }
  }

  /** While calls are blocked, the reported open time is within half a second of the time since the circuit last opened. */
  lemma ReportedOpenTime(c: Config, h: History, now: int, i: nat)
    requires Sane(c) && Reached(h, now) && i < |h| && Opens(c, h, i) && now < h[i].at + c.openMs
    requires forall j :: i < j < |h| ==> !Opens(c, h, j)
    ensures -500 <= ReportedOpenMs(c, Replay(c, h, |h|), now) - (now - h[i].at) <= 500
  {
    NoCloseWhileOpen(c, h, |h|, now, i);
    OpenDeadline(c, h, |h|, i);
  }

  lemma WholeSeconds(openMs: int, seconds: int)
    ensures openMs % 1000 == 0 ==> Max(0, openMs - 1000 * seconds) % 1000 == 0
  {
  }

  /** Only the open state expires. */
  lemma {:induction false} StateHasDeadline(c: Config, h: History, n: nat)
    requires n <= |h|
    ensures match Replay(c, h, n).state
      case Absent => true
      case Present(state, deadline) => state != HalfOpen && (deadline.Some? <==> state == Open)
  {
    if n > 0 {
      StateHasDeadline(c, h, n - 1);
    }
  }

  /** Otherwise nothing is reported, and it is reported in whole seconds if the open duration is one of whole seconds. */
  lemma ReportedOnlyWhileOpen(c: Config, h: History, now: int)
    requires Sane(c) && Reached(h, now)
    ensures var reported := ReportedOpenMs(c, Replay(c, h, |h|), now);
      && 0 <= reported && (GetState(Replay(c, h, |h|), now) != Open ==> reported == 0)
      && (c.openMs % 1000 == 0 ==> reported % 1000 == 0)
  {
    StateHasDeadline(c, h, |h|);
    var k := Replay(c, h, |h|);
    if k.state.Present? && k.state.deadline.Some? {
      WholeSeconds(c.openMs, TtlSeconds(k.state.deadline.value - now));
    }
  }

  function Burst(n: nat): History {
    seq(n, i => Event(0, Failure))
  }

  lemma {:induction false} BurstChain(c: Config, size: nat, n: nat)
    requires Sane(c) && n <= size
    ensures FailureChain(c, Burst(size), n, 0) == n
    decreases n
  {
    if n > 0 {
      BurstChain(c, size, n - 1);
    }
  }

  /** The failure counter outlasts every open window exactly when its TTL is at least the open duration. */
  lemma CounterOutlastsOpenExactly(c: Config)
    requires Sane(c) && c.failureThreshold >= 1
    ensures (forall h: History, now: int :: Reached(h, now) && GetState(Replay(c, h, |h|), now) == Open ==>
               Count(Replay(c, h, |h|).failures, now) >= c.failureThreshold)
            <==> c.failuresTtlMs >= c.openMs
  {
    if c.failuresTtlMs >= c.openMs {
      forall h: History, now: int | Reached(h, now) && GetState(Replay(c, h, |h|), now) == Open
        ensures Count(Replay(c, h, |h|).failures, now) >= c.failureThreshold
      {
        KeysRefineHistory(c, h, |h|, now);
        BlockedExactly(c, h, now);
        var i :| 0 <= i < |h| && Opens(c, h, i) && now < h[i].at + c.openMs;
        NoCloseWhileOpen(c, h, |h|, now, i);
        FailureOnChain(c, h, |h|, now, i);
      }
    } else {
      var h, now := Burst(c.failureThreshold), c.failuresTtlMs;
      BurstChain(c, c.failureThreshold, c.failureThreshold - 1);
      assert Opens(c, h, |h| - 1);
      KeysRefineHistory(c, h, |h|, now);
      assert Reached(h, now) && GetState(Replay(c, h, |h|), now) == Open;
      assert Count(Replay(c, h, |h|).failures, now) == 0;
    }
  }

  /** One failed probe after the window reopens at once, as long as the counter has not lapsed. */
  lemma ProbeReopens(c: Config, h: History, now: int, i: nat)
    requires Sane(c) && Reached(h, now) && i < |h| && Opens(c, h, i) && now < h[i].at + c.failuresTtlMs
    requires forall j :: i < j < |h| ==> !Closes(c, h, j)
    ensures GetState(OnFailure(c, Replay(c, h, |h|), now), now) == Open
    ensures ReportedOpenMs(c, OnFailure(c, Replay(c, h, |h|), now), now) <= 500
  {
    KeysRefineHistory(c, h, |h|, now);
    FailureOnChain(c, h, |h|, now, i);
  }

  // ---------------------------------------------------------------------------------------
  // The breaker
  // ---------------------------------------------------------------------------------------

  class Breaker {
    const config: Config
    var state: Entry<Circuit>
    var failures: Entry<int>
    var successes: Entry<int>

    function Abs(): Keys
      reads this
    {
      Keys(state, failures, successes)
    }

    constructor (c: Config)
      ensures config == c && Abs() == NO_KEYS
    {
      config := c;
      state, failures, successes := Absent, Absent, Absent;
    }

    /** Blocks only an open circuit; when Redis does not answer, it fails open. */
    method Allow(now: int, up: bool) returns (allowed: bool, openMs: Option<int>)
      ensures allowed <==> !up || GetState(Abs(), now) != Open
      ensures openMs == if !up then None else if allowed then Some(0) else Some(ReportedOpenMs(config, Abs(), now))
    {
      if !up {
        return true, None;
      }
      var current := GetState(Abs(), now);
      if current == Open {
        return false, Some(ReportedOpenMs(config, Abs(), now));
      }
      return true, Some(0);
    }

    /** Persists a state without expiry and zeroes the failure counter. */
    method SetState(s: Circuit, now: int)
      modifies `state, `failures
      ensures state == Present(s, None) && failures == Present(0, Some(now + config.failuresTtlMs))
    {
      state := Present(s, None);
      failures := Present(0, Some(now + config.failuresTtlMs));
    }

    method RecordSuccess(now: int, up: bool)
      modifies this
      ensures Abs() == if up then OnSuccess(config, old(Abs()), now) else old(Abs())
    {
      if !up {
        return;
      }
      var current := GetState(Abs(), now);
      if current != HalfOpen {
        return;
      }
      successes := Incr(successes, now);
      var count := successes.value;
      successes := Expire(successes, now + config.successTtlMs);
      if count >= config.successThreshold {
        SetState(Closed, now);
        failures, successes := Absent, Absent;
      }
    }

    method SetStateWithTTL(s: Circuit, now: int, ttlMs: int)
      modifies `state, `failures
      ensures state == Present(s, Some(now + ttlMs))
      ensures failures == if s == Closed then Present(0, Some(now + config.failuresTtlMs)) else old(failures)
    {
      state := Present(s, Some(now + ttlMs));
      if s == Closed {
        failures := Present(0, Some(now + config.failuresTtlMs));
      }
    }

    method RecordFailure(now: int, up: bool)
      modifies this
      ensures Abs() == if up then OnFailure(config, old(Abs()), now) else old(Abs())
    {
      if !up {
        return;
      }
      failures := Incr(failures, now);
      var count := failures.value;
      failures := Expire(failures, now + config.failuresTtlMs);
      if count >= config.failureThreshold {
        SetStateWithTTL(Open, now, config.openMs);
      }
    }
  }
}
