/**
 The per-client rate limiter: a map of token buckets from which entries idle for ten minutes are
 evicted.  Buckets start full, refill continuously and are capped; tokens and seconds are reals.
 */
module RateLimiter {
  datatype Config = Config(rps: nat, burst: nat)

  const IDLE_LIMIT := 600.0

  datatype Bucket = Bucket(tokens: real, last: real)

  datatype Entry = Entry(bucket: Bucket, lastSeen: real)

  type Entries = map<string, Entry>

  /** Tokens earned in a stretch of time. */
  function Earned(c: Config, seconds: real): real {
    c.rps as real * seconds
  }

  function Capped(c: Config, tokens: real): real {
    if tokens > c.burst as real then c.burst as real else tokens
  }

  function Full(c: Config, now: real): Bucket {
    Bucket(c.burst as real, now)
  }

  /** What the bucket holds at a later moment. */
  function Level(c: Config, b: Bucket, now: real): real {
    Capped(c, b.tokens + Earned(c, now - b.last))
  }

  /** A request takes one token if there is one; a refused request leaves the bucket alone. */
  function Take(c: Config, b: Bucket, now: real): (Bucket, bool) {
    var level := Level(c, b, now);
    if level >= 1.0 then (Bucket(level - 1.0, now), true) else (b, false)
  }

  function EntryFor(c: Config, m: Entries, key: string, now: real): Entry {
    if key in m then m[key] else Entry(Full(c, now), now)
  }

  /** limiterFor, then Allow on the bucket it returns. */
  function Admit(c: Config, m: Entries, key: string, now: real): (Entries, bool) {
    var (bucket, ok) := Take(c, EntryFor(c, m, key, now).bucket, now);
    (m[key := Entry(bucket, now)], ok)
  }

  function Evict(m: Entries, now: real): Entries {
    map k | k in m && m[k].lastSeen >= now - IDLE_LIMIT :: m[k]
  }

  // ---------------------------------------------------------------------------------------
  // Runs
  // ---------------------------------------------------------------------------------------

  datatype Op = Request(at: real, key: string) | Cleanup(at: real)

  predicate Ordered(ops: seq<Op>) {
    forall i, j :: 0 <= i < j < |ops| ==> ops[i].at <= ops[j].at
  }

  /** The entries after a run, and the answer to each request; a limiter that never evicts ignores cleanups. */
  function Run(c: Config, m: Entries, ops: seq<Op>, evicting: bool): (Entries, seq<bool>) {
    if ops == [] then (m, [])
    else
      var (before, answers) := Run(c, m, ops[..|ops| - 1], evicting);
      match ops[|ops| - 1]
      case Request(at, key) =>
        var (after, ok) := Admit(c, before, key, at);
        (after, answers + [ok])
      case Cleanup(at) => (if evicting then Evict(before, at) else before, answers)
  }

  function Answers(c: Config, ops: seq<Op>, evicting: bool): seq<bool> {
    Run(c, map[], ops, evicting).1
  }

  // ---------------------------------------------------------------------------------------
  // Buckets over time
  // ---------------------------------------------------------------------------------------

  lemma EarnedAdds(c: Config, x: real, y: real)
    ensures Earned(c, x + y) == Earned(c, x) + Earned(c, y)
    ensures x >= 0.0 ==> Earned(c, x) >= 0.0
  {
    if x >= 0.0 {
      assert c.rps as real * x >= 0.0;
    }
  }

  lemma EarnedMonotone(c: Config, x: real, y: real)
    requires x <= y
    ensures Earned(c, x) <= Earned(c, y)
  {
    EarnedAdds(c, y - x, x);
  }

  /** Looking at a bucket twice is looking at it once. */
  lemma LevelLater(c: Config, b: Bucket, now: real, later: real)
    requires now <= later
    ensures Level(c, b, later) == Capped(c, Level(c, b, now) + Earned(c, later - now))
  {
    assert (now - b.last) + (later - now) == later - b.last;
    EarnedAdds(c, now - b.last, later - now);
    EarnedAdds(c, later - now, 0.0);
  }

  /** An entry used at lastSeen. */
  predicate Healthy(c: Config, e: Entry, now: real) {
    e.bucket.tokens >= 0.0 && e.bucket.last <= e.lastSeen <= now
  }

  lemma TakeHealthy(c: Config, e: Entry, now: real)
    requires Healthy(c, e, now)
    ensures Healthy(c, Entry(Take(c, e.bucket, now).0, now), now)
  {
  }

  /**
   The evicting and the keeping limiter agree at a moment: entries they share are at the same level,
   and an entry only the keeping one has is full.
   */
  ghost predicate Alike(c: Config, e: Entries, n: Entries, now: real) {
    && (forall k :: k in e ==> k in n && Healthy(c, e[k], now) && e[k].lastSeen == n[k].lastSeen
                               && Level(c, e[k].bucket, now) == Level(c, n[k].bucket, now))
    && (forall k :: k in n ==> Healthy(c, n[k], now))
    && (forall k :: k in n && k !in e ==> Level(c, n[k].bucket, now) == c.burst as real)
  }

  lemma AlikeLater(c: Config, e: Entries, n: Entries, now: real, later: real)
    requires Alike(c, e, n, now) && now <= later
    ensures Alike(c, e, n, later)
  {
    EarnedAdds(c, later - now, 0.0);
    forall k | k in n ensures Level(c, n[k].bucket, later) == Capped(c, Level(c, n[k].bucket, now) + Earned(c, later - now)) {
      LevelLater(c, n[k].bucket, now, later);
    }
    forall k | k in e ensures Level(c, e[k].bucket, later) == Capped(c, Level(c, e[k].bucket, now) + Earned(c, later - now)) {
      LevelLater(c, e[k].bucket, now, later);
    }
  }

  lemma FullIsFull(c: Config, now: real)
    ensures Level(c, Full(c, now), now) == c.burst as real
  {
    EarnedAdds(c, 0.0, 0.0);
  }

  lemma AdmitAlike(c: Config, e: Entries, n: Entries, key: string, now: real)
    requires Alike(c, e, n, now)
    ensures Admit(c, e, key, now).1 == Admit(c, n, key, now).1
    ensures Alike(c, Admit(c, e, key, now).0, Admit(c, n, key, now).0, now)
  {
    FullIsFull(c, now);
    var x, y := EntryFor(c, e, key, now), EntryFor(c, n, key, now);
    TakeHealthy(c, x, now);
    TakeHealthy(c, y, now);
  }

  /** An idle bucket has refilled when ten minutes earn a whole burst. */
  lemma IdleIsFull(c: Config, e: Entry, now: real)
    requires Healthy(c, e, now) && e.lastSeen < now - IDLE_LIMIT && c.burst <= c.rps * 600
    ensures Level(c, e.bucket, now) == c.burst as real
  {
    EarnedMonotone(c, IDLE_LIMIT, now - e.bucket.last);
    assert Earned(c, IDLE_LIMIT) == (c.rps * 600) as real;
  }

  lemma EvictAlike(c: Config, e: Entries, n: Entries, now: real)
    requires Alike(c, e, n, now) && c.burst <= c.rps * 600
    ensures Alike(c, Evict(e, now), n, now)
  {
    forall k | k in e && e[k].lastSeen < now - IDLE_LIMIT ensures Level(c, n[k].bucket, now) == c.burst as real {
      IdleIsFull(c, n[k], now);
    }
  }

  lemma {:induction false} RunsAlike(c: Config, ops: seq<Op>, now: real)
    requires Ordered(ops) && (ops != [] ==> ops[|ops| - 1].at <= now) && c.burst <= c.rps * 600
    ensures Answers(c, ops, true) == Answers(c, ops, false)
    ensures Alike(c, Run(c, map[], ops, true).0, Run(c, map[], ops, false).0, now)
  {
    if ops != [] {
      var init, op := ops[..|ops| - 1], ops[|ops| - 1];
      RunsAlike(c, init, op.at);
      var e, n := Run(c, map[], init, true).0, Run(c, map[], init, false).0;
      match op
      case Request(at, key) =>
        AdmitAlike(c, e, n, key, at);
        AlikeLater(c, Admit(c, e, key, at).0, Admit(c, n, key, at).0, at, now);
      case Cleanup(at) =>
        EvictAlike(c, e, n, at);
        AlikeLater(c, Evict(e, at), n, at, now);
    }
  }

  // ---------------------------------------------------------------------------------------
  // When eviction can be noticed
  // ---------------------------------------------------------------------------------------

  const KEY := "client"

  function Burst(n: nat, at: real): seq<Op> {
    seq(n, _ => Request(at, KEY))
  }

  /** The level of the probed client's bucket, counting an absent one as full. */
  function LevelOf(c: Config, m: Entries, now: real): real {
    Level(c, EntryFor(c, m, KEY, now).bucket, now)
  }

  lemma RunSnoc(c: Config, m: Entries, ops: seq<Op>, op: Op, evicting: bool)
    ensures var (before, answers) := Run(c, m, ops, evicting);
      Run(c, m, ops + [op], evicting) ==
      match op
      case Request(at, key) => (Admit(c, before, key, at).0, answers + [Admit(c, before, key, at).1])
      case Cleanup(at) => (if evicting then Evict(before, at) else before, answers)
  {
    assert (ops + [op])[..|ops|] == ops;
  }

  /** One request at a moment: it is granted exactly when a token is there, and takes it. */
  lemma AdmitOne(c: Config, m: Entries, now: real)
    ensures var level, (after, ok) := LevelOf(c, m, now), Admit(c, m, KEY, now);
      && (ok <==> level >= 1.0)
      && LevelOf(c, after, now) == (if ok then level - 1.0 else level)
      && KEY in after && after[KEY].lastSeen == now
  {
    FullIsFull(c, now);
    EarnedAdds(c, 0.0, 0.0);
  }

  /** What a burst of |answers| requests at one moment does to a bucket at the first level. */
  ghost predicate Spent(first: real, answers: seq<bool>, level: real) {
    && (|answers| as real <= first ==> level == first - |answers| as real && false !in answers)
    && (|answers| as real > first >= 0.0 ==> level < 1.0 && false in answers)
  }

  lemma SpentMore(first: real, answers: seq<bool>, level: real, ok: bool)
    requires Spent(first, answers, level) && (ok <==> level >= 1.0)
    ensures Spent(first, answers + [ok], if ok then level - 1.0 else level)
  {
    assert (|answers| + 1) as real == |answers| as real + 1.0;
    assert (answers + [ok])[|answers|] == ok;
    assert forall x :: x in answers ==> x in answers + [ok];
  }

  /** A burst is granted in full from a level that covers it, and not beyond that level. */
  lemma {:induction false} BurstFrom(c: Config, before: seq<Op>, n: nat, at: real, evicting: bool) returns (answers: seq<bool>)
    ensures var s, t := Run(c, map[], before, evicting), Run(c, map[], before + Burst(n, at), evicting);
      && t.1 == s.1 + answers && |answers| == n
      && Spent(LevelOf(c, s.0, at), answers, LevelOf(c, t.0, at))
      && (n > 0 ==> KEY in t.0 && t.0[KEY].lastSeen == at)
  {
    if n == 0 {
      answers := [];
      assert before + Burst(0, at) == before;
    } else {
      var init := BurstFrom(c, before, n - 1, at, evicting);
      var ops := before + Burst(n - 1, at);
      var m := Run(c, map[], ops, evicting).0;
      assert before + Burst(n, at) == ops + [Request(at, KEY)];
      RunSnoc(c, map[], ops, Request(at, KEY), evicting);
      AdmitOne(c, m, at);
      answers := init + [Admit(c, m, KEY, at).1];
      SpentMore(LevelOf(c, Run(c, map[], before, evicting).0, at), init, LevelOf(c, m, at), Admit(c, m, KEY, at).1);
    }
  }

  /** Drain the bucket, stay away just over ten minutes, and come back with another burst. */
  function Comeback(c: Config, away: real): seq<Op> {
    Burst(c.burst, 0.0) + [Cleanup(away)] + Burst(c.burst, away)
  }

  lemma ComebackOrdered(c: Config, away: real)
    requires away >= 0.0
    ensures Ordered(Comeback(c, away))
  {
  }

  /** After the first burst and the cleanup: evicted and so full again, or kept and refilled by what was earned. */
  lemma LevelOnReturn(c: Config, away: real, evicting: bool)
    requires away > IDLE_LIMIT && c.burst > 0
    ensures var level := LevelOf(c, Run(c, map[], Burst(c.burst, 0.0) + [Cleanup(away)], evicting).0, away);
      level == if evicting then c.burst as real else Capped(c, Earned(c, away))
  {
    var drain := Burst(c.burst, 0.0);
    FullIsFull(c, 0.0);
    FullIsFull(c, away);
    assert [] + drain == drain;
    var _ := BurstFrom(c, [], c.burst, 0.0, evicting);
    RunSnoc(c, map[], drain, Cleanup(away), evicting);
    var drained := Run(c, map[], drain, evicting).0;
    if evicting {
      assert KEY !in Evict(drained, away);
    } else {
      LevelLater(c, drained[KEY].bucket, 0.0, away);
    }
  }

  lemma FirstBurst(c: Config, evicting: bool) returns (answers: seq<bool>)
    ensures Answers(c, Burst(c.burst, 0.0), evicting) == answers && |answers| == c.burst && false !in answers
  {
    FullIsFull(c, 0.0);
    answers := BurstFrom(c, [], c.burst, 0.0, evicting);
    assert [] + Burst(c.burst, 0.0) == Burst(c.burst, 0.0);
    assert [] + answers == answers;
  }

  /** The two bursts of a comeback: the first meets a full bucket, the second whatever is there after the cleanup. */
  lemma ComebackBursts(c: Config, away: real, evicting: bool) returns (first: seq<bool>, second: seq<bool>)
    requires away > IDLE_LIMIT && c.burst > 0
    ensures Answers(c, Comeback(c, away), evicting) == first + second && |first| == |second| == c.burst
    ensures false !in first
    ensures evicting ==> false !in second
    ensures !evicting && Earned(c, away) < c.burst as real ==> false in second
  {
    var rest := Burst(c.burst, 0.0) + [Cleanup(away)];
    first := FirstBurst(c, evicting);
    assert Answers(c, rest, evicting) == first by {
      RunSnoc(c, map[], Burst(c.burst, 0.0), Cleanup(away), evicting);
    }
    second := BurstFrom(c, rest, c.burst, away, evicting);
    LevelOnReturn(c, away, evicting);
    EarnedAdds(c, away, 0.0);
  }

  lemma ComebackNoticed(c: Config, away: real)
    requires away > IDLE_LIMIT && Earned(c, away) < c.burst as real
    ensures Answers(c, Comeback(c, away), true) != Answers(c, Comeback(c, away), false)
  {
    EarnedAdds(c, away, 0.0);
    var x, granted := ComebackBursts(c, away, true);
    var y, refused := ComebackBursts(c, away, false);
    var j :| 0 <= j < |refused| && !refused[j];
    assert granted[j] in granted;
    assert (x + granted)[c.burst + j] != (y + refused)[c.burst + j];
  }

  lemma JustOverIdle(c: Config) returns (away: real)
    requires c.burst > c.rps * 600
    ensures away > IDLE_LIMIT && Earned(c, away) < c.burst as real
  {
    var d := (c.rps + 1) as real;
    var extra := 1.0 / d;
    away := IDLE_LIMIT + extra;
    EarnedAdds(c, IDLE_LIMIT, extra);
    assert Earned(c, IDLE_LIMIT) == (c.rps * 600) as real;
    assert Earned(c, extra) == c.rps as real / d < 1.0;
  }

  /**
   Evicting idle entries goes unnoticed on every run exactly when ten minutes of idling earn at least
   one whole burst.
   */
  lemma EvictionUnobservableExactly(c: Config)
    ensures (forall ops: seq<Op> | Ordered(ops) :: Answers(c, ops, true) == Answers(c, ops, false))
            <==> c.burst <= c.rps * 600
  {
    if c.burst <= c.rps * 600 {
      forall ops: seq<Op> | Ordered(ops) ensures Answers(c, ops, true) == Answers(c, ops, false) {
        if ops != [] {
          RunsAlike(c, ops, ops[|ops| - 1].at);
        }
      }
    } else {
      var away := JustOverIdle(c);
      ComebackOrdered(c, away);
      ComebackNoticed(c, away);
    }
  }

  // ---------------------------------------------------------------------------------------
  // The rate bound
  // ---------------------------------------------------------------------------------------

  /** How many requests of the key were granted. */
  function Granted(ops: seq<Op>, answers: seq<bool>, key: string): nat {
    if ops == [] then 0
    else
      match ops[|ops| - 1]
      case Cleanup(_) => Granted(ops[..|ops| - 1], answers, key)
      case Request(_, k) =>
        if answers == [] then 0
        else Granted(ops[..|ops| - 1], answers[..|answers| - 1], key) + if k == key && answers[|answers| - 1] then 1 else 0
  }

  /** Level of a key, counting an absent entry as full. */
  function KeyLevel(c: Config, m: Entries, key: string, now: real): real {
    Level(c, EntryFor(c, m, key, now).bucket, now)
  }

  /** Waiting never lowers a level and raises it by what is earned at most. */
  lemma KeyLevelLater(c: Config, m: Entries, key: string, now: real, later: real)
    requires now <= later
    ensures KeyLevel(c, m, key, now) <= KeyLevel(c, m, key, later) <= KeyLevel(c, m, key, now) + Earned(c, later - now)
  {
    FullIsFull(c, now);
    FullIsFull(c, later);
    EarnedAdds(c, later - now, 0.0);
    LevelLater(c, EntryFor(c, m, key, now).bucket, now, later);
  }

  lemma AdmitLevels(c: Config, m: Entries, key: string, other: string, now: real)
    ensures var (after, ok) := Admit(c, m, other, now);
      KeyLevel(c, after, key, now) == KeyLevel(c, m, key, now) - (if other == key && ok then 1.0 else 0.0)
    ensures KeyLevel(c, m, key, now) >= 0.0 ==> KeyLevel(c, Admit(c, m, other, now).0, key, now) >= 0.0
  {
    FullIsFull(c, now);
    EarnedAdds(c, 0.0, 0.0);
  }

  /** The account of a key: grants made, and the level left, against the first level and the time since. */
  predicate Paid(c: Config, granted: nat, level: real, first: real, elapsed: real) {
    granted as real + level <= first + Earned(c, elapsed) && level >= 0.0
  }

  lemma PaidLater(c: Config, granted: nat, level: real, first: real, elapsed: real, later: real, more: real)
    requires Paid(c, granted, level, first, elapsed) && level <= later <= level + Earned(c, more)
    ensures Paid(c, granted, later, first, elapsed + more)
  {
    EarnedAdds(c, elapsed, more);
  }

  lemma PaidNothing(c: Config, m: Entries, key: string, from: real, now: real, elapsed: real)
    requires from <= now && KeyLevel(c, m, key, from) >= 0.0 && elapsed == now - from
    ensures Paid(c, 0, KeyLevel(c, m, key, now), KeyLevel(c, m, key, from), elapsed)
  {
    KeyLevelLater(c, m, key, from, now);
  }

  lemma PaidCleanup(
      c: Config, m: Entries, key: string, at: real, granted: nat, first: real, elapsed: real, now: real, total: real)
    requires at <= now && Paid(c, granted, KeyLevel(c, m, key, at), first, elapsed) && total == elapsed + (now - at)
    ensures Paid(c, granted, KeyLevel(c, m, key, now), first, total)
  {
    KeyLevelLater(c, m, key, at, now);
    PaidLater(c, granted, KeyLevel(c, m, key, at), first, elapsed, KeyLevel(c, m, key, now), now - at);
  }

  lemma PaidRequest(
      c: Config, m: Entries, key: string, op: Op, granted: nat, first: real, elapsed: real, now: real, total: real)
    requires op.Request? && op.at <= now && Paid(c, granted, KeyLevel(c, m, key, op.at), first, elapsed)
    requires total == elapsed + (now - op.at)
    ensures var (after, ok) := Admit(c, m, op.key, op.at);
      Paid(c, if op.key == key && ok then granted + 1 else granted, KeyLevel(c, after, key, now), first, total)
  {
    var (after, ok) := Admit(c, m, op.key, op.at);
    var more := if op.key == key && ok then granted + 1 else granted;
    AdmitLevels(c, m, key, op.key, op.at);
    KeyLevelLater(c, after, key, op.at, now);
    PaidLater(c, more, KeyLevel(c, after, key, op.at), first, elapsed, KeyLevel(c, after, key, now), now - op.at);
  }

  lemma GrantedSnoc(ops: seq<Op>, answers: seq<bool>, op: Op, ok: bool, key: string)
    requires op.Request?
    ensures Granted(ops + [op], answers + [ok], key) ==
            if op.key == key && ok then Granted(ops, answers, key) + 1 else Granted(ops, answers, key)
  {
    assert (ops + [op])[..|ops|] == ops && (answers + [ok])[..|answers|] == answers;
  }

  /** Grants of a key are paid for by what its bucket held and what it has earned since. */
  lemma {:induction false} GrantsArePaid(
      c: Config, m: Entries, ops: seq<Op>, key: string, from: real, now: real, elapsed: real)
    requires Ordered(ops) && from <= now && KeyLevel(c, m, key, from) >= 0.0 && elapsed == now - from
    requires forall i :: 0 <= i < |ops| ==> from <= ops[i].at <= now
    ensures var (after, answers) := Run(c, m, ops, false);
      Paid(c, Granted(ops, answers, key), KeyLevel(c, after, key, now), KeyLevel(c, m, key, from), elapsed)
  {
    var first := KeyLevel(c, m, key, from);
    if ops == [] {
      PaidNothing(c, m, key, from, now, elapsed);
    } else {
      var init, op := ops[..|ops| - 1], ops[|ops| - 1];
      var until := op.at - from;
      GrantsArePaid(c, m, init, key, from, op.at, until);
      var (before, answers) := Run(c, m, init, false);
      var granted := Granted(init, answers, key);
      assert ops == init + [op];
      if op.Cleanup? {
        PaidCleanup(c, before, key, op.at, granted, first, until, now, elapsed);
      } else {
        PaidRequest(c, before, key, op, granted, first, until, now, elapsed);
        GrantedSnoc(init, answers, op, Admit(c, before, op.key, op.at).1, key);
      }
    }
  }

  lemma {:induction false} RunConcat(c: Config, m: Entries, xs: seq<Op>, ys: seq<Op>, evicting: bool)
    ensures Run(c, m, xs + ys, evicting) ==
            (Run(c, Run(c, m, xs, evicting).0, ys, evicting).0,
             Run(c, m, xs, evicting).1 + Run(c, Run(c, m, xs, evicting).0, ys, evicting).1)
  {
    if ys == [] {
      assert xs + ys == xs && Run(c, m, xs, evicting).1 + [] == Run(c, m, xs, evicting).1;
    } else {
      var init, op := ys[..|ys| - 1], ys[|ys| - 1];
      RunConcat(c, m, xs, init, evicting);
      assert xs + ys == (xs + init) + [op];
      assert init + [op] == ys;
      RunSnoc(c, m, xs + init, op, evicting);
      var (middle, early) := Run(c, m, xs, evicting);
      RunSnoc(c, middle, init, op, evicting);
      var (before, late) := Run(c, middle, init, evicting);
      if op.Request? {
        var ok := Admit(c, before, op.key, op.at).1;
        assert (early + late) + [ok] == early + (late + [ok]);
      }
    }
  }

  /** A stretch of a run: everything before it happened by `from`, and it lasts until `to`. */
  predicate Stretch(before: seq<Op>, during: seq<Op>, from: real, to: real) {
    && Ordered(before + during) && from <= to
    && (forall i :: 0 <= i < |before| ==> before[i].at <= from)
    && (forall i :: 0 <= i < |during| ==> from <= during[i].at <= to)
  }

  /** Requests of the key that the evicting limiter grants during the stretch. */
  function GrantedDuring(c: Config, before: seq<Op>, during: seq<Op>, key: string): nat {
    Granted(during, Run(c, Run(c, map[], before, true).0, during, true).1, key)
  }

  lemma SameAnswersDuring(c: Config, before: seq<Op>, during: seq<Op>, from: real, to: real)
    requires Stretch(before, during, from, to) && c.burst <= c.rps * 600
    ensures Run(c, Run(c, map[], before, true).0, during, true).1 == Run(c, Run(c, map[], before, false).0, during, false).1
  {
    var ops := before + during;
    assert forall i :: 0 <= i < |before| ==> before[i] == ops[i];
    assert forall i :: 0 <= i < |during| ==> during[i] == ops[|before| + i];
    RunsAlike(c, before, from);
    RunsAlike(c, ops, to);
    RunConcat(c, map[], before, during, true);
    RunConcat(c, map[], before, during, false);
    var e, n := Run(c, map[], before, true), Run(c, map[], before, false);
    var x, y := Run(c, e.0, during, true).1, Run(c, n.0, during, false).1;
    assert x == (e.1 + x)[|e.1|..] && y == (n.1 + y)[|n.1|..];
  }

  lemma LevelNotNegative(c: Config, before: seq<Op>, key: string, from: real)
    requires Ordered(before) && forall i :: 0 <= i < |before| ==> before[i].at <= from
    ensures KeyLevel(c, Run(c, map[], before, false).0, key, from) >= 0.0
  {
    var start := if before == [] then from else before[0].at;
    FullIsFull(c, start);
    GrantsArePaid(c, map[], before, key, start, from, from - start);
  }

  lemma RateBoundHolds(c: Config, before: seq<Op>, during: seq<Op>, key: string, from: real, to: real)
    requires Stretch(before, during, from, to) && c.burst <= c.rps * 600
    ensures GrantedDuring(c, before, during, key) as real <= c.burst as real + Earned(c, to - from)
  {
    assert forall i :: 0 <= i < |before| ==> before[i] == (before + during)[i];
    assert forall i :: 0 <= i < |during| ==> during[i] == (before + during)[|before| + i];
    SameAnswersDuring(c, before, during, from, to);
    LevelNotNegative(c, before, key, from);
    GrantsArePaid(c, Run(c, map[], before, false).0, during, key, from, to, to - from);
  }

  lemma {:induction false} AllGranted(n: nat, at: real, answers: seq<bool>)
    requires |answers| == n && false !in answers
    ensures Granted(Burst(n, at), answers, KEY) == n
  {
    if n > 0 {
      assert Burst(n, at)[..n - 1] == Burst(n - 1, at);
      assert answers[n - 1] in answers;
      AllGranted(n - 1, at, answers[..n - 1]);
    }
  }

  lemma {:induction false} GrantedConcat(ops: seq<Op>, answers: seq<bool>, n: nat, at: real, more: seq<bool>)
    requires |more| == n && false !in more
    ensures Granted(ops + Burst(n, at), answers + more, KEY) == Granted(ops, answers, KEY) + n
  {
    if n == 0 {
      assert ops + Burst(n, at) == ops && answers + more == answers;
    } else {
      assert (ops + Burst(n, at))[..|ops| + n - 1] == ops + Burst(n - 1, at);
      assert (answers + more)[..|answers| + n - 1] == answers + more[..n - 1];
      assert more[n - 1] in more;
      GrantedConcat(ops, answers, n - 1, at, more[..n - 1]);
    }
  }

  lemma ComebackGrantsTwice(c: Config, away: real)
    requires away > IDLE_LIMIT && c.burst > 0
    ensures Granted(Comeback(c, away), Answers(c, Comeback(c, away), true), KEY) == 2 * c.burst
  {
    var drain, rest := Burst(c.burst, 0.0), Burst(c.burst, 0.0) + [Cleanup(away)];
    var first, second := ComebackBursts(c, away, true);
    AllGranted(c.burst, 0.0, first);
    assert rest[..|drain|] == drain;
    GrantedConcat(rest, first, c.burst, away, second);
  }

  /**
   In any stretch of time, whatever was evicted, a client is granted at most one burst plus what the
   stretch earns: on every run exactly when ten minutes earn at least one whole burst.
   */
  lemma RateBoundExactly(c: Config)
    ensures (forall before: seq<Op>, during: seq<Op>, key: string, from: real, to: real |
               Stretch(before, during, from, to) ::
               GrantedDuring(c, before, during, key) as real <= c.burst as real + Earned(c, to - from))
            <==> c.burst <= c.rps * 600
  {
    if c.burst <= c.rps * 600 {
      forall before: seq<Op>, during: seq<Op>, key: string, from: real, to: real | Stretch(before, during, from, to)
        ensures GrantedDuring(c, before, during, key) as real <= c.burst as real + Earned(c, to - from)
      {
        RateBoundHolds(c, before, during, key, from, to);
      }
    } else {
      var away := JustOverIdle(c);
      var ops := Comeback(c, away);
      ComebackOrdered(c, away);
      ComebackGrantsTwice(c, away);
      assert [] + ops == ops;
      assert Stretch([], ops, 0.0, away);
      assert GrantedDuring(c, [], ops, KEY) == 2 * c.burst;
    }
  }

  // ---------------------------------------------------------------------------------------
  // The limiter
  // ---------------------------------------------------------------------------------------

  class Limiter {
    const config: Config
    var entries: Entries

    constructor (c: Config)
      ensures config == c && entries == map[]
    {
      config := c;
      entries := map[];
    }

    /** Finds or creates the bucket of a key and stamps the entry. */
    method LimiterFor(key: string, now: real) returns (bucket: Bucket)
      modifies this
      ensures bucket == EntryFor(config, old(entries), key, now).bucket
      ensures entries == old(entries)[key := Entry(bucket, now)]
    {
      if key !in entries {
        entries := entries[key := Entry(Full(config, now), now)];
      }
      entries := entries[key := entries[key].(lastSeen := now)];
      bucket := entries[key].bucket;
    }

    method Allow(key: string, now: real) returns (ok: bool)
      modifies this
      ensures (entries, ok) == Admit(config, old(entries), key, now)
    {
      var bucket := LimiterFor(key, now);
      var (after, granted) := Take(config, bucket, now);
      entries := entries[key := Entry(after, now)];
      ok := granted;
      assert entries == old(entries)[key := Entry(after, now)];
    }

    /** One tick of the cleanup loop: walks the entries and deletes the idle ones. */
    method CleanUp(now: real)
      modifies this
      ensures entries == Evict(old(entries), now)
    {
      var cutoff := now - IDLE_LIMIT;
      var rest := entries.Keys;
      while rest != {}
        invariant rest <= entries.Keys <= old(entries).Keys
        invariant forall k :: k in entries ==> entries[k] == old(entries)[k]
        invariant forall k :: k in entries && k !in rest ==> entries[k].lastSeen >= cutoff
        invariant forall k :: k in old(entries) && k !in entries ==> old(entries)[k].lastSeen < cutoff
        decreases |rest|
      {
        var k :| k in rest;
        rest := rest - {k};
        if entries[k].lastSeen < cutoff {
          entries := entries - {k};
        }
      }
    }
  }
}
