/**
 The circuit breaker again, at the grain of single Redis commands issued by many replicas in any
 order, any of which may fail.
 */
module BreakerCommands {
  import opened Common
  import opened CircuitBreaker

  /** The next command of a replica, with the counter value it has read. */
  datatype Pc =
    | Idle
    | ExpireFailures(count: int)
    | SetOpen
    | IncrSuccesses
    | ExpireSuccesses(count: int)
    | SetClosed
    | ZeroFailures
    | DeleteCounters

  /** What an idle replica does next. */
  datatype Call = RecordFailure | RecordSuccess

  datatype Step = Tick(ms: nat) | Command(replica: nat, call: Call, reply: Reply)

  datatype System = System(now: int, keys: Keys, pcs: map<nat, Pc>)

  function PcOf(s: System, replica: nat): Pc {
    if replica in s.pcs then s.pcs[replica] else Idle
  }

  /** The effect of a replica's next command on the keys. */
  function Execute(c: Config, k: Keys, now: int, pc: Pc, call: Call): Keys {
    match pc
    case Idle => if call == RecordFailure then k.(failures := Incr(k.failures, now)) else k
    case ExpireFailures(_) => k.(failures := Expire(Live(k.failures, now), now + c.failuresTtlMs))
    case SetOpen => k.(state := Present(Open, Some(now + c.openMs)))
    case IncrSuccesses => k.(successes := Incr(k.successes, now))
    case ExpireSuccesses(_) => k.(successes := Expire(Live(k.successes, now), now + c.successTtlMs))
    case SetClosed => k.(state := Present(Closed, None))
    case ZeroFailures => k.(failures := Present(0, Some(now + c.failuresTtlMs)))
    case DeleteCounters => k.(failures := Absent, successes := Absent)
  }

  /** Where the replica goes on, from the keys it saw before the command and the reply it got. */
  function Continue(c: Config, k: Keys, now: int, pc: Pc, call: Call, reply: Reply): Pc {
    match pc
    case Idle =>
      if reply != Answered then Idle
      else if call == RecordFailure then ExpireFailures(Incr(k.failures, now).value)
      else if GetState(k, now) == HalfOpen then IncrSuccesses else Idle
    case ExpireFailures(count) => if count >= c.failureThreshold then SetOpen else Idle
    case SetOpen => Idle
    case IncrSuccesses => if reply != Answered then Idle else ExpireSuccesses(Incr(k.successes, now).value)
    case ExpireSuccesses(count) => if count >= c.successThreshold then SetClosed else Idle
    case SetClosed => ZeroFailures
    case ZeroFailures => DeleteCounters
    case DeleteCounters => Idle
  }

  function Next(c: Config, s: System, step: Step): System {
    match step
    case Tick(ms) => s.(now := s.now + ms)
    case Command(replica, call, reply) =>
      var pc := PcOf(s, replica);
      System(s.now,
             if reply == Lost then s.keys else Execute(c, s.keys, s.now, pc, call),
             s.pcs[replica := Continue(c, s.keys, s.now, pc, call, reply)])
  }

  function Run(c: Config, s: System, steps: seq<Step>): System {
    if steps == [] then s else Next(c, Run(c, s, steps[..|steps| - 1]), steps[|steps| - 1])
  }

  function Start(now: int): System {
    System(now, NO_KEYS, map[])
  }

  /** The state key is absent, CLOSED without expiry, or OPEN with a deadline at most one open duration ahead. */
  predicate StateKeyBounded(c: Config, s: System) {
    match s.keys.state
    case Absent => true
    case Present(Closed, deadline) => deadline == None
    case Present(Open, deadline) => deadline.Some? && deadline.value <= s.now + c.openMs
    case Present(HalfOpen, _) => false
  }

  lemma {:induction false} StateKeyAlwaysBounded(c: Config, now: int, steps: seq<Step>)
    ensures StateKeyBounded(c, Run(c, Start(now), steps))
  {
    if steps != [] {
      StateKeyAlwaysBounded(c, now, steps[..|steps| - 1]);
    }
  }

  /** The step writes the state key. */
  predicate WritesState(s: System, step: Step) {
    step.Command? && step.reply != Lost && (PcOf(s, step.replica).SetOpen? || PcOf(s, step.replica).SetClosed?)
  }

  /** No step of the run from s writes the state key. */
  predicate NoStateWrite(c: Config, s: System, steps: seq<Step>) {
    forall i :: 0 <= i < |steps| ==> !WritesState(Run(c, s, steps[..i]), steps[i])
  }

  lemma {:induction false} StateKeyUntouched(c: Config, s: System, steps: seq<Step>)
    requires NoStateWrite(c, s, steps)
    ensures Run(c, s, steps).keys.state == s.keys.state
  {
    if steps != [] {
      var init := steps[..|steps| - 1];
      assert forall i :: 0 <= i < |init| ==> init[..i] == steps[..i];
      StateKeyUntouched(c, s, init);
      assert !WritesState(Run(c, s, steps[..|steps| - 1]), steps[|steps| - 1]);
    }
  }

  /**
   Never stuck open: after any interleaving whatever, once an open duration passes without a further
   write of the state key, calls are allowed.
   */
  lemma NeverStuckOpen(c: Config, now: int, before: seq<Step>, after: seq<Step>)
    requires NoStateWrite(c, Run(c, Start(now), before), after)
    requires Run(c, Run(c, Start(now), before), after).now >= Run(c, Start(now), before).now + c.openMs
    ensures var s := Run(c, Run(c, Start(now), before), after); GetState(s.keys, s.now) != Open
  {
    StateKeyAlwaysBounded(c, now, before);
    StateKeyUntouched(c, Run(c, Start(now), before), after);
  }

  lemma RunRepeated(c: Config, s: System, step: Step, n: nat)
    ensures Run(c, s, seq(0, _ => step)) == s
    ensures Run(c, s, seq(n + 1, _ => step)) == Next(c, Run(c, s, seq(n, _ => step)), step)
  {
    assert seq(n + 1, _ => step)[..n] == seq(n, _ => step);
  }

  /** A whole call by one replica, without interference or errors, is the atomic call of the other model. */
  lemma AtomicFailure(c: Config, s: System, replica: nat)
    requires Sane(c) && PcOf(s, replica) == Idle
    ensures var step := Command(replica, RecordFailure, Answered);
      var n := if Incr(s.keys.failures, s.now).value >= c.failureThreshold then 3 else 2;
      var t := Run(c, s, seq(n, _ => step));
      t.keys == OnFailure(c, s.keys, s.now) && PcOf(t, replica) == Idle && t.now == s.now
  {
    var step := Command(replica, RecordFailure, Answered);
    var s1 := Next(c, s, step);
    var s2 := Next(c, s1, step);
    RunRepeated(c, s, step, 0);
    RunRepeated(c, s, step, 1);
    RunRepeated(c, s, step, 2);
    assert PcOf(s1, replica) == ExpireFailures(Incr(s.keys.failures, s.now).value);
  }

  /** The state check and the INCR of a half-open success. */
  lemma CountProbe(c: Config, s: System, replica: nat) returns (t: System)
    requires Sane(c) && PcOf(s, replica) == Idle && GetState(s.keys, s.now) == HalfOpen
    ensures t == Run(c, s, seq(2, _ => Command(replica, RecordSuccess, Answered)))
    ensures t.now == s.now && t.keys == s.keys.(successes := Incr(s.keys.successes, s.now))
    ensures PcOf(t, replica) == ExpireSuccesses(Incr(s.keys.successes, s.now).value)
  {
    var step := Command(replica, RecordSuccess, Answered);
    RunRepeated(c, s, step, 0);
    RunRepeated(c, s, step, 1);
    var s1 := Next(c, s, step);
    assert PcOf(s1, replica) == IncrSuccesses && s1.keys == s.keys;
    t := Next(c, s1, step);
  }

  /** The EXPIRE after an INCR at the same moment. */
  lemma ExpireProbe(c: Config, s: System, replica: nat, before: Entry<int>)
    requires PcOf(s, replica) == ExpireSuccesses(Incr(before, s.now).value) && s.keys.successes == Incr(before, s.now)
    ensures var t := Next(c, s, Command(replica, RecordSuccess, Answered));
      && t.now == s.now && t.keys == s.keys.(successes := Expire(Incr(before, s.now), s.now + c.successTtlMs))
      && PcOf(t, replica) == if Incr(before, s.now).value >= c.successThreshold then SetClosed else Idle
  {
  }

  /** The SET, the zeroing and the DEL of a close. */
  lemma CloseCommands(c: Config, s: System, replica: nat)
    requires PcOf(s, replica) == SetClosed
    ensures var step := Command(replica, RecordSuccess, Answered);
      var t := Next(c, Next(c, Next(c, s, step), step), step);
      t.now == s.now && t.keys == Keys(Present(Closed, None), Absent, Absent) && PcOf(t, replica) == Idle
  {
    var step := Command(replica, RecordSuccess, Answered);
    assert PcOf(Next(c, s, step), replica) == ZeroFailures;
    assert PcOf(Next(c, Next(c, s, step), step), replica) == DeleteCounters;
  }

  /** When the DEL of a close is lost, failures are counted from zero all the same, and the counter lapses in its TTL. */
  lemma LostDeleteCountsFromZero(c: Config, s: System, replica: nat, later: nat)
    requires Sane(c) && PcOf(s, replica) == SetClosed
    ensures var step := Command(replica, RecordSuccess, Answered);
      var t := Next(c, Next(c, Next(c, s, step), step), Command(replica, RecordSuccess, Lost));
      && GetState(t.keys, t.now) == Closed && PcOf(t, replica) == Idle
      && Count(t.keys.failures, t.now) == 0 && (Live(t.keys.failures, t.now + later).Absent? <==> later >= c.failuresTtlMs)
  {
    var step := Command(replica, RecordSuccess, Answered);
    assert PcOf(Next(c, s, step), replica) == ZeroFailures;
    assert PcOf(Next(c, Next(c, s, step), step), replica) == DeleteCounters;
  }

  function Elapsed(steps: seq<Step>): nat {
    if steps == [] then 0
    else Elapsed(steps[..|steps| - 1]) + (if steps[|steps| - 1].Tick? then steps[|steps| - 1].ms else 0)
  }

  /** Time passes by ticks alone. */
  lemma {:induction false} ClockAdvances(c: Config, s: System, steps: seq<Step>)
    ensures Run(c, s, steps).now == s.now + Elapsed(steps)
  {
    if steps != [] {
      ClockAdvances(c, s, steps[..|steps| - 1]);
    }
  }

  lemma AtomicSuccess(c: Config, s: System, replica: nat)
    requires Sane(c) && PcOf(s, replica) == Idle && GetState(s.keys, s.now) == HalfOpen
    ensures var step := Command(replica, RecordSuccess, Answered);
      var n := if Incr(s.keys.successes, s.now).value >= c.successThreshold then 6 else 3;
      var t := Run(c, s, seq(n, _ => step));
      t.keys == OnSuccess(c, s.keys, s.now) && PcOf(t, replica) == Idle && t.now == s.now
  {
    var step := Command(replica, RecordSuccess, Answered);
    var s2 := CountProbe(c, s, replica);
    ExpireProbe(c, s2, replica, s.keys.successes);
    RunRepeated(c, s, step, 2);
    if Incr(s.keys.successes, s.now).value >= c.successThreshold {
      CloseCommands(c, Next(c, s2, step), replica);
      RunRepeated(c, s, step, 3);
      RunRepeated(c, s, step, 4);
      RunRepeated(c, s, step, 5);
    }
  }
}
