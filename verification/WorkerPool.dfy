/**
 The fraud engine's consumer loop and its handlers, interleaved: one buffered channel bounds the
 handlers, another bounds those inside the risk call, and every message is handed to CommitMessages by its
 handler.  A process that crashes is followed by one that reads from the committed offset.
 */
module WorkerPool {
  /** The capacities of the two channels. */
  datatype Config = Config(workers: nat, risk: nat)

  /** Where a handler is: steps 1 to 5, at the risk channel, in the risk call, publishing, committing, committed. */
  datatype Stage = Working | Waiting | InRisk | Publishing | Committing | Finishing

  /** Where the loop is: fetching, holding a message at the worker channel, waiting for the handlers, or gone. */
  datatype Loop = Fetching | Holding(offset: nat) | Draining | Stopped

  /** `handed` is what this process has passed to CommitMessages, in order; `start` is where it began to read. */
  datatype System = System(
    loop: Loop, start: nat, next: nat, handlers: map<nat, Stage>, workerSem: int, riskSem: int, handed: seq<nat>,
    committed: nat,        // the committed offset
    published: set<nat>,   // messages whose result was written
    failed: set<nat>)      // messages whose handler returned an error

  /** A process that begins to read at the committed offset. */
  function Started(committed: nat, published: set<nat>, failed: set<nat>): System {
    System(Fetching, committed, committed, map[], 0, 0, [], committed, published, failed)
  }

  const START := Started(0, {}, {})

  /** `ok` is whether the message decodes, the result is written, or the commit succeeds, depending on the stage. */
  datatype Step = Fetch | Cancel | Spawn | Advance(offset: nat, ok: bool) | Close | Crash

  predicate Enabled(c: Config, s: System, step: Step) {
    match step
    case Fetch => s.loop == Fetching
    case Cancel => s.loop == Fetching
    case Spawn => s.loop.Holding? && s.workerSem < c.workers
    case Advance(m, _) => m in s.handlers && (s.handlers[m] == Waiting ==> s.riskSem < c.risk)
    case Close => s.loop == Draining && s.handlers == map[]
    case Crash => true
  }

  function Moved(s: System, m: nat, ok: bool): System
    requires m in s.handlers
  {
    match s.handlers[m]
    case Working =>
      if ok then s.(handlers := s.handlers[m := Waiting])
      else s.(handlers := s.handlers[m := Committing], failed := s.failed + {m})
    case Waiting => s.(handlers := s.handlers[m := InRisk], riskSem := s.riskSem + 1)
    case InRisk => s.(handlers := s.handlers[m := Publishing], riskSem := s.riskSem - 1)
    case Publishing =>
      if ok then s.(handlers := s.handlers[m := Committing], published := s.published + {m})
      else s.(handlers := s.handlers[m := Committing], failed := s.failed + {m})
    case Committing =>
      s.(handlers := s.handlers[m := Finishing], handed := s.handed + [m], committed := if ok then m + 1 else s.committed)
    case Finishing => s.(handlers := s.handlers - {m}, workerSem := s.workerSem - 1)
  }

  function Next(c: Config, s: System, step: Step): System {
    if !Enabled(c, s, step) then s
    else
      match step
      case Fetch => s.(loop := Holding(s.next), next := s.next + 1)
      case Cancel => s.(loop := Draining)
      case Spawn => s.(loop := Fetching, handlers := s.handlers[s.loop.offset := Working], workerSem := s.workerSem + 1)
      case Advance(m, ok) => Moved(s, m, ok)
      case Close => s.(loop := Stopped)
      case Crash => Started(s.committed, s.published, s.failed)
  }

  function Run(c: Config, s: System, steps: seq<Step>): System {
    if steps == [] then s else Next(c, Run(c, s, steps[..|steps| - 1]), steps[|steps| - 1])
  }

  // ---------------------------------------------------------------------------------------
  // Slots and messages
  // ---------------------------------------------------------------------------------------

  function RiskCalls(handlers: map<nat, Stage>): set<nat> {
    set m | m in handlers && handlers[m] == InRisk
  }

  /** Each channel holds one token for each handler in the section it guards, and none overflows. */
  predicate SlotsConserved(c: Config, s: System) {
    && s.workerSem == |s.handlers| <= c.workers
    && s.riskSem == |RiskCalls(s.handlers)| <= c.risk
  }

  function Bit(b: bool): nat {
    if b then 1 else 0
  }

  /** In how many places a message is: held by the loop, with a handler yet to hand it over, or handed to CommitMessages. */
  function Places(s: System, m: nat): nat {
    Bit(s.loop == Holding(m)) + Bit(m in s.handlers && s.handlers[m] != Finishing) + multiset(s.handed)[m]
  }

  ghost predicate Accounted(s: System) {
    && s.start <= s.next
    && (forall m: nat :: Places(s, m) == Bit(s.start <= m < s.next))
    && (forall m :: m in s.handlers ==> s.start <= m < s.next)
    && (s.loop.Holding? ==> s.loop.offset !in s.handlers && s.start <= s.loop.offset < s.next)
  }

  /** The handler of the message has come to an end: its result was written, or it gave an error. */
  predicate Handled(s: System, m: nat) {
    m in s.published || m in s.failed
  }

  /** No message is handed to CommitMessages before its handler has come to an end. */
  predicate HandedWereHandled(s: System) {
    && (forall m :: m in s.handlers && s.handlers[m] in {Committing, Finishing} ==> Handled(s, m))
    && (forall m :: m in s.handed ==> Handled(s, m))
  }

  lemma Restaged(h: map<nat, Stage>, m: nat, stage: Stage)
    requires m in h
    ensures |h[m := stage]| == |h|
    ensures |RiskCalls(h[m := stage])| == |RiskCalls(h)| + Bit(stage == InRisk) - Bit(h[m] == InRisk)
  {
    var before, after := RiskCalls(h), RiskCalls(h[m := stage]);
    assert h[m := stage].Keys == h.Keys;
    if stage == InRisk {
      assert after == before + {m};
    } else {
      assert after == before - {m};
    }
  }

  lemma Removed(h: map<nat, Stage>, m: nat)
    requires m in h && h[m] != InRisk
    ensures |h - {m}| == |h| - 1 && RiskCalls(h - {m}) == RiskCalls(h)
  {
    assert (h - {m})[m := h[m]] == h;
  }

  lemma MovedKeepsSlots(c: Config, s: System, m: nat, ok: bool)
    requires SlotsConserved(c, s) && Enabled(c, s, Advance(m, ok))
    ensures SlotsConserved(c, Moved(s, m, ok))
  {
    if s.handlers[m] == Finishing {
      Removed(s.handlers, m);
    } else {
      Restaged(s.handlers, m, Moved(s, m, ok).handlers[m]);
    }
  }

  /** A handler's step moves no message from one place to another, except from the handler to CommitMessages. */
  lemma PlacesStay(s: System, m: nat, ok: bool, j: nat)
    requires m in s.handlers
    ensures Places(Moved(s, m, ok), j) == Places(s, j)
  {
  }

  lemma MovedKeepsAccount(s: System, m: nat, ok: bool)
    requires Accounted(s) && m in s.handlers
    ensures Accounted(Moved(s, m, ok))
  {
    var t := Moved(s, m, ok);
    assert t.loop == s.loop && t.start == s.start && t.next == s.next;
    assert forall j :: j in t.handlers ==> j in s.handlers;
    forall j: nat ensures Places(t, j) == Bit(t.start <= j < t.next) {
      PlacesStay(s, m, ok, j);
      assert Places(s, j) == Bit(s.start <= j < s.next);
    }
  }

  lemma StartedKeeps(c: Config, s: System)
    ensures var t := Started(s.committed, s.published, s.failed); SlotsConserved(c, t) && Accounted(t) && HandedWereHandled(t)
  {
    assert RiskCalls(map[]) == {};
  }

  lemma LoopKeeps(c: Config, s: System, step: Step)
    requires SlotsConserved(c, s) && Accounted(s) && Enabled(c, s, step) && !step.Advance? && !step.Crash?
    ensures SlotsConserved(c, Next(c, s, step)) && Accounted(Next(c, s, step))
  {
    var t := Next(c, s, step);
    assert RiskCalls(t.handlers) == RiskCalls(s.handlers);
    forall j: nat ensures Places(t, j) == Bit(t.start <= j < t.next) {
      assert Places(s, j) == Bit(s.start <= j < s.next);
    }
  }

  lemma NextKeepsHanded(c: Config, s: System, step: Step)
    requires HandedWereHandled(s)
    ensures HandedWereHandled(Next(c, s, step))
  {
    if step.Advance? && Enabled(c, s, step) && s.handlers[step.offset] == Committing {
      assert forall m :: m in Next(c, s, step).handed ==> m in s.handed || m == step.offset;
    }
  }

  lemma NextKeeps(c: Config, s: System, step: Step)
    requires SlotsConserved(c, s) && Accounted(s) && HandedWereHandled(s)
    ensures SlotsConserved(c, Next(c, s, step)) && Accounted(Next(c, s, step)) && HandedWereHandled(Next(c, s, step))
  {
    NextKeepsHanded(c, s, step);
    if Enabled(c, s, step) {
      if step.Advance? {
        MovedKeepsSlots(c, s, step.offset, step.ok);
        MovedKeepsAccount(s, step.offset, step.ok);
      } else if step.Crash? {
        StartedKeeps(c, s);
      } else {
        LoopKeeps(c, s, step);
      }
    }
  }

  /**
   In every interleaving, over any crashes, both pools stay within their size, every message fetched by the
   process is in exactly one place, and none is handed to CommitMessages before its handler has come to an end.
   */
  lemma {:induction false} RunKeeps(c: Config, steps: seq<Step>)
    ensures var s := Run(c, START, steps); SlotsConserved(c, s) && Accounted(s) && HandedWereHandled(s)
  {
    if steps != [] {
      RunKeeps(c, steps[..|steps| - 1]);
      NextKeeps(c, Run(c, START, steps[..|steps| - 1]), steps[|steps| - 1]);
    } else {
      StartedKeeps(c, START);
    }
  }

  // ---------------------------------------------------------------------------------------
  // What is published, and what is given up
  // ---------------------------------------------------------------------------------------

  /** A handler's step at this stage, with this outcome. */
  predicate Does(s: System, step: Step, m: nat, stage: Stage, ok: bool) {
    step == Advance(m, ok) && m in s.handlers && s.handlers[m] == stage
  }

  /** Some step of the run was that step of the message's handler. */
  ghost predicate Did(c: Config, steps: seq<Step>, m: nat, stage: Stage, ok: bool) {
    exists j :: 0 <= j < |steps| && Does(Run(c, START, steps[..j]), steps[j], m, stage, ok)
  }

  lemma DidSnoc(c: Config, init: seq<Step>, step: Step, m: nat, stage: Stage, ok: bool)
    ensures Did(c, init + [step], m, stage, ok) <==>
            Did(c, init, m, stage, ok) || Does(Run(c, START, init), step, m, stage, ok)
  {
    var steps := init + [step];
    assert steps[..|init|] == init;
    assert forall j :: 0 <= j < |init| ==> steps[..j] == init[..j] && steps[j] == init[j];
  }

  /** The message's handler, in this process or an earlier one, has been through the risk call. */
  ghost predicate AskedRisk(c: Config, steps: seq<Step>, m: nat) {
    Did(c, steps, m, InRisk, true) || Did(c, steps, m, InRisk, false)
  }

  lemma AskedNext(c: Config, s: System, step: Step, m: nat)
    requires var t := Next(c, s, step); m in t.handlers && t.handlers[m] == Publishing
    ensures (m in s.handlers && s.handlers[m] == Publishing) || Does(s, step, m, InRisk, true) || Does(s, step, m, InRisk, false)
  {
  }

  lemma {:induction false} PublishingAsked(c: Config, steps: seq<Step>, m: nat)
    ensures var s := Run(c, START, steps); m in s.handlers && s.handlers[m] == Publishing ==> AskedRisk(c, steps, m)
  {
    var t := Run(c, START, steps);
    if steps != [] && m in t.handlers && t.handlers[m] == Publishing {
      var init, step := steps[..|steps| - 1], steps[|steps| - 1];
      assert steps == init + [step];
      PublishingAsked(c, init, m);
      AskedNext(c, Run(c, START, init), step, m);
      DidSnoc(c, init, step, m, InRisk, true);
      DidSnoc(c, init, step, m, InRisk, false);
    }
  }

  lemma OutcomeNext(c: Config, s: System, step: Step, m: nat)
    ensures var t := Next(c, s, step);
      && (m in t.published <==> m in s.published || Does(s, step, m, Publishing, true))
      && (m in t.failed <==> m in s.failed || Does(s, step, m, Working, false) || Does(s, step, m, Publishing, false))
  {
  }

  lemma {:induction false} PublishedExactly(c: Config, steps: seq<Step>, m: nat)
    ensures m in Run(c, START, steps).published <==> Did(c, steps, m, Publishing, true)
  {
    if steps != [] {
      var init, step := steps[..|steps| - 1], steps[|steps| - 1];
      assert steps == init + [step];
      PublishedExactly(c, init, m);
      OutcomeNext(c, Run(c, START, init), step, m);
      DidSnoc(c, init, step, m, Publishing, true);
    }
  }

  lemma {:induction false} GivenUpExactly(c: Config, steps: seq<Step>, m: nat)
    ensures m in Run(c, START, steps).failed <==> Did(c, steps, m, Working, false) || Did(c, steps, m, Publishing, false)
  {
    if steps != [] {
      var init, step := steps[..|steps| - 1], steps[|steps| - 1];
      assert steps == init + [step];
      GivenUpExactly(c, init, m);
      OutcomeNext(c, Run(c, START, init), step, m);
      DidSnoc(c, init, step, m, Working, false);
      DidSnoc(c, init, step, m, Publishing, false);
    }
  }

  lemma {:induction false} PublishedAsked(c: Config, steps: seq<Step>, m: nat)
    ensures m in Run(c, START, steps).published ==> AskedRisk(c, steps, m)
  {
    if steps != [] {
      var init, step := steps[..|steps| - 1], steps[|steps| - 1];
      assert steps == init + [step];
      PublishedAsked(c, init, m);
      PublishingAsked(c, init, m);
      OutcomeNext(c, Run(c, START, init), step, m);
      DidSnoc(c, init, step, m, InRisk, true);
      DidSnoc(c, init, step, m, InRisk, false);
    }
  }

  /**
   Over any crashes: a message's result is on the log exactly if some handler of it wrote it, and none does before a
   risk call for that message; and it is given up exactly if a handler of it failed to decode it or to write.
   */
  lemma OutcomesExactly(c: Config, steps: seq<Step>, m: nat)
    ensures var s := Run(c, START, steps);
      && (m in s.published <==> Did(c, steps, m, Publishing, true))
      && (m in s.published ==> AskedRisk(c, steps, m))
      && (m in s.failed <==> Did(c, steps, m, Working, false) || Did(c, steps, m, Publishing, false))
  {
    PublishedExactly(c, steps, m);
    PublishedAsked(c, steps, m);
    GivenUpExactly(c, steps, m);
  }

  /** One past the message of the last commit that succeeded. */
  function LastCommit(c: Config, steps: seq<Step>): nat {
    if steps == [] then 0
    else
      var init, step := steps[..|steps| - 1], steps[|steps| - 1];
      if step.Advance? && Does(Run(c, START, init), step, step.offset, Committing, true) then step.offset + 1
      else LastCommit(c, init)
  }

  /** The committed offset is that of the last commit that succeeded: failed ones, and crashes, leave it alone. */
  lemma {:induction false} CommittedExactly(c: Config, steps: seq<Step>)
    ensures Run(c, START, steps).committed == LastCommit(c, steps)
  {
    if steps != [] {
      CommittedExactly(c, steps[..|steps| - 1]);
    }
  }

  // ---------------------------------------------------------------------------------------
  // No deadlock
  // ---------------------------------------------------------------------------------------

  /** A step that needs neither a new message nor a shutdown. */
  predicate Internal(step: Step) {
    step.Spawn? || step.Advance? || step.Close?
  }

  ghost predicate CanMove(c: Config, s: System) {
    exists step :: Internal(step) && Enabled(c, s, step)
  }

  /** Nothing is left to do until a message or a shutdown arrives. */
  predicate Idle(s: System) {
    s.handlers == map[] && (s.loop == Fetching || s.loop == Stopped)
  }

  lemma SomeoneMoves(c: Config, s: System)
    requires SlotsConserved(c, s) && !Idle(s) && c.workers >= 1 && c.risk >= 1
    ensures CanMove(c, s)
  {
    if s.handlers == map[] {
      var step := if s.loop == Draining then Close else Spawn;
      assert Internal(step) && Enabled(c, s, step);
    } else {
      var m :| m in s.handlers;
      var j := if RiskCalls(s.handlers) == {} then m else (var i :| i in RiskCalls(s.handlers); i);
      assert Internal(Advance(j, true)) && Enabled(c, s, Advance(j, true));
    }
  }

  lemma NoWorkersIsStuck(c: Config)
    requires c.workers == 0
    ensures !Idle(Run(c, START, [Fetch])) && !CanMove(c, Run(c, START, [Fetch]))
  {
    assert [Fetch][..0] == [];
    assert Run(c, START, [Fetch]) == Next(c, START, Fetch);
  }

  lemma RunThree(c: Config, x: Step, y: Step, z: Step)
    ensures Run(c, START, [x, y, z]) == Next(c, Next(c, Next(c, START, x), y), z)
  {
    assert [x, y, z][..2] == [x, y] && [x, y][..1] == [x] && [x][..0] == [];
    assert Run(c, START, [x]) == Next(c, START, x);
    assert Run(c, START, [x, y]) == Next(c, Next(c, START, x), y);
  }

  lemma NoRiskSlotsIsStuck(c: Config)
    requires c.workers >= 1 && c.risk == 0
    ensures var s := Run(c, START, [Fetch, Spawn, Advance(0, true)]); !Idle(s) && !CanMove(c, s)
  {
    RunThree(c, Fetch, Spawn, Advance(0, true));
    assert Next(c, Next(c, START, Fetch), Spawn).handlers == map[0 := Working];
    var s := Run(c, START, [Fetch, Spawn, Advance(0, true)]);
    assert s.handlers == map[0 := Waiting] && 0 in s.handlers;
  }

  /** No reachable state is stuck, exactly when both channels have room for at least one token. */
  lemma DeadlockFreeExactly(c: Config)
    ensures (forall steps: seq<Step> | !Idle(Run(c, START, steps)) :: CanMove(c, Run(c, START, steps)))
            <==> c.workers >= 1 && c.risk >= 1
  {
    if c.workers == 0 {
      NoWorkersIsStuck(c);
    } else if c.risk == 0 {
      NoRiskSlotsIsStuck(c);
    } else {
      forall steps: seq<Step> | !Idle(Run(c, START, steps)) ensures CanMove(c, Run(c, START, steps)) {
        RunKeeps(c, steps);
        SomeoneMoves(c, Run(c, START, steps));
      }
    }
  }

  // ---------------------------------------------------------------------------------------
  // Draining
  // ---------------------------------------------------------------------------------------

  function StepsLeft(stage: Stage): nat {
    match stage
    case Working => 6
    case Waiting => 5
    case InRisk => 4
    case Publishing => 3
    case Committing => 2
    case Finishing => 1
  }

  /** Steps left to the handlers of the offsets below n. */
  function Work(handlers: map<nat, Stage>, n: nat): nat {
    if n == 0 then 0
    else if n - 1 in handlers then Work(handlers, n - 1) + StepsLeft(handlers[n - 1])
    else Work(handlers, n - 1)
  }

  function Measure(s: System): nat {
    Work(s.handlers, s.next) + match s.loop case Holding(_) => 7 case Draining => 1 case _ => 0
  }

  lemma {:induction false} WorkFrame(h: map<nat, Stage>, g: map<nat, Stage>, n: nat)
    requires forall m :: m < n ==> (m in h <==> m in g) && (m in h ==> h[m] == g[m])
    ensures Work(h, n) == Work(g, n)
  {
    if n > 0 {
      WorkFrame(h, g, n - 1);
    }
  }

  function LeftOf(h: map<nat, Stage>, m: nat): nat {
    if m in h then StepsLeft(h[m]) else 0
  }

  /** Changing one handler changes the total by its share. */
  lemma {:induction false} WorkChange(h: map<nat, Stage>, g: map<nat, Stage>, n: nat, m: nat)
    requires m < n && forall j :: j != m ==> (j in h <==> j in g) && (j in h ==> h[j] == g[j])
    ensures Work(g, n) + LeftOf(h, m) == Work(h, n) + LeftOf(g, m)
  {
    if m == n - 1 {
      WorkFrame(h, g, n - 1);
    } else {
      WorkChange(h, g, n - 1, m);
    }
  }

  lemma InternalStepsCount(c: Config, s: System, step: Step)
    requires Accounted(s) && Internal(step) && Enabled(c, s, step)
    ensures Measure(Next(c, s, step)) < Measure(s)
  {
    var t := Next(c, s, step);
    match step
    case Spawn => WorkChange(s.handlers, t.handlers, s.next, s.loop.offset);
    case Advance(m, _) => WorkChange(s.handlers, t.handlers, s.next, m);
    case Close =>
  }

  /** A schedule in which every step is internal and was possible when it was taken. */
  predicate Schedule(c: Config, s: System, steps: seq<Step>) {
    steps == [] ||
    var init, step := steps[..|steps| - 1], steps[|steps| - 1];
    Schedule(c, s, init) && Internal(step) && Enabled(c, Run(c, s, init), step)
  }

  lemma {:induction false} SchedulesEnd(c: Config, s: System, steps: seq<Step>)
    requires SlotsConserved(c, s) && Accounted(s) && HandedWereHandled(s) && Schedule(c, s, steps)
    ensures var t := Run(c, s, steps);
      && |steps| + Measure(t) <= Measure(s)
      && SlotsConserved(c, t) && Accounted(t) && HandedWereHandled(t)
      && (s.loop == Draining ==> t.loop in {Draining, Stopped} && t.next == s.next && t.start == s.start)
  {
    if steps != [] {
      var init, step := steps[..|steps| - 1], steps[|steps| - 1];
      SchedulesEnd(c, s, init);
      InternalStepsCount(c, Run(c, s, init), step);
      NextKeeps(c, Run(c, s, init), step);
    }
  }

  /**
   After a shutdown every schedule, however it interleaves the handlers, is finite; and one that can go
   no further has stopped the loop, with every message that the process fetched published or given up with an
   error, and handed to CommitMessages exactly once.  Whether those commits succeed is another matter: they are
   made under the context that the shutdown has cancelled.
   */
  lemma ShutdownDrains(c: Config, before: seq<Step>, steps: seq<Step>)
    requires c.workers >= 1 && c.risk >= 1
    requires Run(c, START, before).loop == Draining && Schedule(c, Run(c, START, before), steps)
    ensures var s, t := Run(c, START, before), Run(c, Run(c, START, before), steps);
      && |steps| <= Measure(s)
      && (!CanMove(c, t) ==>
            && t.loop == Stopped && t.handlers == map[]
            && (forall m: nat :: multiset(t.handed)[m] == Bit(s.start <= m < s.next))
            && (forall m :: s.start <= m < s.next ==> Handled(t, m)))
  {
    var s, t := Run(c, START, before), Run(c, Run(c, START, before), steps);
    RunKeeps(c, before);
    SchedulesEnd(c, s, steps);
    if !CanMove(c, t) {
      if !Idle(t) {
        SomeoneMoves(c, t);
      }
      assert t.handlers == map[] && t.loop == Stopped;
      forall m: nat ensures multiset(t.handed)[m] == Bit(s.start <= m < s.next) {
        assert Places(t, m) == Bit(t.start <= m < t.next);
      }
      forall m | s.start <= m < s.next ensures Handled(t, m) {
        assert m in multiset(t.handed);
      }
    }
  }

  /**
   A shutdown that comes while the loop is fetching always runs to the end: a schedule that can go no further has
   stopped the loop after the last handler, with every fetched message handled.
   */
  lemma CancelEnds(c: Config, before: seq<Step>, steps: seq<Step>)
    requires c.workers >= 1 && c.risk >= 1 && Run(c, START, before).loop == Fetching
    requires Schedule(c, Next(c, Run(c, START, before), Cancel), steps)
    ensures var s, t := Run(c, START, before), Run(c, Next(c, Run(c, START, before), Cancel), steps);
      !CanMove(c, t) ==> t.loop == Stopped && t.handlers == map[] && forall m :: s.start <= m < s.next ==> Handled(t, m)
  {
    var more := before + [Cancel];
    assert more[..|before|] == before;
    ShutdownDrains(c, more, steps);
  }

  /** On every run, a loop that has stopped has waited for all of its handlers. */
  lemma {:induction false} StoppedHasWaited(c: Config, steps: seq<Step>)
    ensures var s := Run(c, START, steps); s.loop == Stopped ==> s.handlers == map[]
  {
    if steps != [] {
      StoppedHasWaited(c, steps[..|steps| - 1]);
    }
  }

  // ---------------------------------------------------------------------------------------
  // One worker: commits in order, and nothing passed over
  // ---------------------------------------------------------------------------------------

  predicate InOrder(s: System) {
    forall i :: 0 <= i < |s.handed| ==> s.handed[i] == s.start + i
  }

  /** Messages that have left the loop for a handler. */
  function Spawned(s: System): int {
    s.next - Bit(s.loop.Holding?)
  }

  /** The first message that this process has not handed over. */
  function Frontier(s: System): nat {
    s.start + |s.handed|
  }

  /** With one worker, the only handler is on the first message not handed over or is leaving the one before it. */
  predicate OneAtATime(s: System) {
    && InOrder(s)
    && (s.loop.Holding? ==> s.loop.offset == s.next - 1)
    && (s.handlers == map[] ==> Spawned(s) == Frontier(s))
    && (forall m :: m in s.handlers ==>
          if s.handlers[m] == Finishing then m == Frontier(s) - 1 == Spawned(s) - 1 else m == Frontier(s) == Spawned(s) - 1)
  }

  /** Everything before the first message not handed over has been handled, and the committed offset is not past it. */
  predicate Behind(s: System) {
    s.committed <= Frontier(s) && forall m: nat :: m < Frontier(s) ==> Handled(s, m)
  }

  lemma OneAtATimeNext(c: Config, s: System, step: Step)
    requires c.workers <= 1 && SlotsConserved(c, s) && OneAtATime(s)
    ensures OneAtATime(Next(c, s, step))
  {
    if Enabled(c, s, step) {
      var t := Next(c, s, step);
      match step
      case Spawn =>
        assert s.handlers == map[];
      case Advance(m, _) =>
        assert forall j :: j in s.handlers ==> j == m;
        if s.handlers[m] == Finishing {
          assert t.handlers == map[];
        }
      case _ =>
    }
  }

  lemma BehindNext(c: Config, s: System, step: Step)
    requires HandedWereHandled(s) && OneAtATime(s) && Behind(s)
    ensures Behind(Next(c, s, step))
  {
    var t := Next(c, s, step);
    assert forall m :: Handled(s, m) ==> Handled(t, m);
  }

  lemma {:induction false} OneWorkerInOrder(c: Config, steps: seq<Step>)
    requires c.workers <= 1
    ensures OneAtATime(Run(c, START, steps)) && Behind(Run(c, START, steps))
  {
    if steps != [] {
      var init, step := steps[..|steps| - 1], steps[|steps| - 1];
      OneWorkerInOrder(c, init);
      RunKeeps(c, init);
      OneAtATimeNext(c, Run(c, START, init), step);
      BehindNext(c, Run(c, START, init), step);
    }
  }

  lemma {:induction false} RunConcat(c: Config, s: System, xs: seq<Step>, ys: seq<Step>)
    ensures Run(c, s, xs + ys) == Run(c, Run(c, s, xs), ys)
  {
    if ys == [] {
      assert xs + ys == xs;
    } else {
      assert (xs + ys)[..|xs + ys| - 1] == xs + ys[..|ys| - 1];
      RunConcat(c, s, xs, ys[..|ys| - 1]);
    }
  }

  lemma RunTwo(c: Config, s: System, x: Step, y: Step)
    ensures Run(c, s, [x, y]) == Next(c, Next(c, s, x), y)
  {
    assert [x, y][..1] == [x] && [x][..0] == [];
    assert Run(c, s, [x]) == Next(c, s, x);
  }

  const OVERTAKING := [Fetch, Spawn] + [Fetch, Spawn] + [Advance(1, false), Advance(1, true)]

  /** With two workers a later message can be committed while an earlier one has hardly been started. */
  lemma SecondOvertakesFirst(c: Config)
    requires c.workers >= 2
    ensures Run(c, START, OVERTAKING) == System(Fetching, 0, 2, map[0 := Working, 1 := Finishing], 2, 0, [1], 2, {}, {1})
  {
    var xs := [Fetch, Spawn];
    var s1 := Run(c, START, xs);
    RunTwo(c, START, Fetch, Spawn);
    assert s1 == System(Fetching, 0, 1, map[0 := Working], 1, 0, [], 0, {}, {});
    var s2 := Run(c, s1, xs);
    RunTwo(c, s1, Fetch, Spawn);
    assert s2 == System(Fetching, 0, 2, map[0 := Working, 1 := Working], 2, 0, [], 0, {}, {});
    RunTwo(c, s2, Advance(1, false), Advance(1, true));
    assert Next(c, s2, Advance(1, false)).handlers == map[0 := Working, 1 := Committing];
    RunConcat(c, START, xs, xs);
    RunConcat(c, START, xs + xs, [Advance(1, false), Advance(1, true)]);
  }

  /** Messages are handed to CommitMessages in the order of the log on every run exactly when there is at most one worker. */
  lemma CommitsInOrderExactly(c: Config)
    ensures (forall steps: seq<Step> :: InOrder(Run(c, START, steps))) <==> c.workers <= 1
  {
    if c.workers <= 1 {
      forall steps: seq<Step> ensures InOrder(Run(c, START, steps)) {
        OneWorkerInOrder(c, steps);
      }
    } else {
      SecondOvertakesFirst(c);
      assert Run(c, START, OVERTAKING).handed[0] == 1;
    }
  }

  // ---------------------------------------------------------------------------------------
  // The committed offset, and crashes
  // ---------------------------------------------------------------------------------------

  /** Everything below the committed offset was published, or its handler gave an error. */
  predicate Covered(s: System) {
    forall m: nat :: m < s.committed ==> Handled(s, m)
  }

  /**
   Over any crashes and restarts, everything below the committed offset was published or given up with an error
   on every run exactly when there is at most one worker.
   */
  lemma CoveredExactly(c: Config)
    ensures (forall steps: seq<Step> :: Covered(Run(c, START, steps))) <==> c.workers <= 1
  {
    if c.workers <= 1 {
      forall steps: seq<Step> ensures Covered(Run(c, START, steps)) {
        OneWorkerInOrder(c, steps);
      }
    } else {
      SecondOvertakesFirst(c);
      assert !Handled(Run(c, START, OVERTAKING), 0);
    }
  }

  /** The process reads, and so touches, nothing below this offset. */
  predicate Above(s: System, b: nat) {
    && b <= s.start <= s.next && b <= s.committed
    && (s.loop.Holding? ==> b <= s.loop.offset) && (forall m :: m in s.handlers ==> b <= m)
  }

  /** Once the committed offset has been read back after a crash, what lies below it is never handled again. */
  lemma {:induction false} BelowIsForgotten(c: Config, s: System, steps: seq<Step>, b: nat, m: nat)
    requires Above(s, b) && m < b
    ensures var t := Run(c, s, steps); Above(t, b) && (m in t.published <==> m in s.published)
  {
    if steps != [] {
      BelowIsForgotten(c, s, steps[..|steps| - 1], b, m);
    }
  }

  /**
   With two workers a crash loses data for good: the overtaken message is not published by then, and on no
   continuation, with whatever further restarts, is it ever published.
   */
  lemma CrashLosesOvertaken(c: Config, more: seq<Step>)
    requires c.workers >= 2
    ensures var s := Next(c, Run(c, START, OVERTAKING), Crash);
      s.start == s.committed == 2 && 0 !in Run(c, s, more).published
  {
    SecondOvertakesFirst(c);
    BelowIsForgotten(c, Next(c, Run(c, START, OVERTAKING), Crash), more, 2, 0);
  }

  lemma {:induction false} NoWorkersCommitNothing(c: Config, steps: seq<Step>)
    requires c.workers == 0
    ensures Run(c, START, steps).committed == 0
  {
    if steps != [] {
      var init := steps[..|steps| - 1];
      NoWorkersCommitNothing(c, init);
      RunKeeps(c, init);
      assert Run(c, START, init).handlers == map[];
    }
  }

  /** A handler that gives an error is committed all the same, so something below the offset can always be unpublished. */
  lemma PublishedBelowExactly(c: Config)
    ensures (forall steps: seq<Step>, m: nat | m < Run(c, START, steps).committed :: m in Run(c, START, steps).published)
            <==> c.workers == 0
  {
    if c.workers == 0 {
      forall steps: seq<Step> ensures Run(c, START, steps).committed == 0 {
        NoWorkersCommitNothing(c, steps);
      }
    } else {
      var x, y := [Fetch, Spawn], [Advance(0, false), Advance(0, true)];
      var s1 := Run(c, START, x);
      RunTwo(c, START, Fetch, Spawn);
      assert s1 == System(Fetching, 0, 1, map[0 := Working], 1, 0, [], 0, {}, {});
      RunTwo(c, s1, Advance(0, false), Advance(0, true));
      assert Next(c, s1, Advance(0, false)).handlers == map[0 := Committing];
      RunConcat(c, START, x, y);
      assert Run(c, START, x + y).committed == 1 && 0 !in Run(c, START, x + y).published;
    }
  }
}
