/**
 The read-through cache in front of the API-key registry: many lookups interleave with each other,
 with expiry, with registry changes and with failures of the cache and of the registry.
 */
module AuthCache {
  import opened Common

  datatype Client = Client(id: string, status: string)

  /** The api_clients table, by key hash. */
  type Registry = map<string, Client>

  datatype Outcome = Found(id: string) | NotFound | Unavailable

  const ACTIVE := "active"
  const NEGATIVE_MARKER := "\0NOTFOUND"

  // ---------------------------------------------------------------------------------------
  // Cached values
  // ---------------------------------------------------------------------------------------

  function Row(r: Registry, hash: string): Option<Client> {
    if hash in r then Some(r[hash]) else None
  }

  function Encode(row: Option<Client>): string {
    match row
    case None => NEGATIVE_MARKER
    case Some(c) => c.id + "|" + c.status
  }

  /** The position of the first separator, or the length if there is none. */
  function FirstBar(s: string): (p: nat)
    ensures p <= |s| && '|' !in s[..p] && (p < |s| ==> s[p] == '|')
  {
    if s == [] then 0
    else if s[0] == '|' then 0
    else
      assert forall p :: 0 <= p <= |s[1..]| ==> s[..p + 1] == [s[0]] + s[1..][..p];
      1 + FirstBar(s[1..])
  }

  /** Splits at the first separator only. */
  function Decode(value: string): Outcome {
    if value == NEGATIVE_MARKER then NotFound
    else
      var p := FirstBar(value);
      if p < |value| && value[p + 1..] == ACTIVE then Found(value[..p]) else NotFound
  }

  function OutcomeOf(row: Option<Client>): Outcome {
    match row
    case Some(c) => if c.status == ACTIVE then Found(c.id) else NotFound
    case None => NotFound
  }

  lemma {:induction false} FirstBarAtMost(s: string, i: nat)
    requires i < |s| && s[i] == '|'
    ensures FirstBar(s) <= i
  {
    if s[0] != '|' {
      FirstBarAtMost(s[1..], i - 1);
    }
  }

  lemma {:induction false} FirstBarOf(id: string, rest: string)
    requires '|' !in id
    ensures FirstBar(id + "|" + rest) == |id|
  {
    var s := id + "|" + rest;
    if id == [] {
      assert s[0] == '|';
    } else {
      FirstBarOf(id[1..], rest);
      assert s[1..] == id[1..] + "|" + rest;
      assert s[0] == id[0] && id[0] in id;
    }
  }

  lemma BarsNotActive(s: string)
    requires '|' in s
    ensures s != ACTIVE
  {
    var i :| 0 <= i < |s| && s[i] == '|';
  }

  /**
   A cached value reads back as what the registry said exactly when the row is absent or inactive, or its
   id has no separator; an active id with a separator reads back as not found, never as another id.
   */
  lemma EncodingExact(row: Option<Client>)
    ensures Decode(Encode(row)) == OutcomeOf(row) <==>
            row.None? || row.value.status != "active" || '|' !in row.value.id
    ensures Decode(Encode(row)) == OutcomeOf(row) || Decode(Encode(row)) == NotFound
    ensures row.Some? ==> Encode(row) != NEGATIVE_MARKER
  {
    if row.Some? {
      var id, status := row.value.id, row.value.status;
      var value := Encode(row);
      assert value[|id|] == '|';
      assert '|' !in NEGATIVE_MARKER && value[|id|] in value;
      var p := FirstBar(value);
      if '|' !in id {
        FirstBarOf(id, status);
        assert value[..|id|] == id && value[|id| + 1..] == status;
      } else {
        var i :| 0 <= i < |id| && id[i] == '|';
        FirstBarAtMost(value, i);
        assert value[p + 1..][|id| - p - 1] == '|';
        BarsNotActive(value[p + 1..]);
      }
    }
  }

  // ---------------------------------------------------------------------------------------
  // Interleaved lookups
  // ---------------------------------------------------------------------------------------

  /** A cache entry; `row` records what the value encodes. */
  datatype CacheEntry = CacheEntry(value: string, deadline: int, row: Option<Client>)

  type CacheMap = map<string, CacheEntry>

  /** Where a lookup stands: it missed the cache, or it has read the registry. */
  datatype Pending = Missed(hash: string) | Fetched(hash: string, row: Option<Client>, readAt: int)

  datatype Answer = Answer(hash: string, outcome: Outcome, at: int)

  datatype System = System(now: int, registry: Registry, cache: CacheMap, pending: map<nat, Pending>, answers: seq<Answer>)

  datatype Step =
    | Tick(ms: nat)
    | ChangeRegistry(registry: Registry)
    | ReadCache(lookup: nat, hash: string, up: bool)
    | ReadRegistry(lookup: nat, up: bool)
    | WriteBack(lookup: nat, up: bool)

  function CacheGet(cache: CacheMap, hash: string, now: int): Option<string> {
    if hash in cache && now < cache[hash].deadline then Some(cache[hash].value) else None
  }

  function CachePut(cache: CacheMap, hash: string, row: Option<Client>, now: int, ttl: int, up: bool): CacheMap {
    if up then cache[hash := CacheEntry(Encode(row), now + ttl, row)] else cache
  }

  function Next(ttl: int, s: System, step: Step): System {
    match step
    case Tick(ms) => s.(now := s.now + ms)
    case ChangeRegistry(r) => s.(registry := r)
    case ReadCache(l, hash, up) =>
      if l in s.pending then s
      else if up && CacheGet(s.cache, hash, s.now).Some? then
        s.(answers := s.answers + [Answer(hash, Decode(CacheGet(s.cache, hash, s.now).value), s.now)])
      else s.(pending := s.pending[l := Missed(hash)])
    case ReadRegistry(l, up) =>
      if l !in s.pending || s.pending[l].Fetched? then s
      else if up then
        s.(pending := s.pending[l := Fetched(s.pending[l].hash, Row(s.registry, s.pending[l].hash), s.now)])
      else
        s.(pending := s.pending - {l}, answers := s.answers + [Answer(s.pending[l].hash, Unavailable, s.now)])
    case WriteBack(l, up) =>
      if l !in s.pending || s.pending[l].Missed? then s
      else
        var p := s.pending[l];
        s.(pending := s.pending - {l},
           cache := CachePut(s.cache, p.hash, p.row, s.now, ttl, up),
           answers := s.answers + [Answer(p.hash, OutcomeOf(p.row), s.now)])
  }

  function Start(now: int, r: Registry): System {
    System(now, r, map[], map[], [])
  }

  function Run(ttl: int, s: System, steps: seq<Step>): System {
    if steps == [] then s else Next(ttl, Run(ttl, s, steps[..|steps| - 1]), steps[|steps| - 1])
  }

  /** Every write-back comes within `delay` of the registry read it writes back. */
  predicate Prompt(ttl: int, s: System, steps: seq<Step>, delay: nat) {
    steps == [] ||
    var init, step := steps[..|steps| - 1], steps[|steps| - 1];
    var before := Run(ttl, s, init);
    Prompt(ttl, s, init, delay) &&
    (step.WriteBack? && step.lookup in before.pending && before.pending[step.lookup].Fetched? ==>
       before.now - before.pending[step.lookup].readAt <= delay)
  }

  /** At some point of the run, between the two times, the registry held this row for the key. */
  ghost predicate Held(ttl: int, s: System, steps: seq<Step>, hash: string, row: Option<Client>, from: int, to: int) {
    exists j :: 0 <= j <= |steps| &&
      from <= Run(ttl, s, steps[..j]).now <= to && Row(Run(ttl, s, steps[..j]).registry, hash) == row
  }

  lemma HeldLater(ttl: int, s: System, steps: seq<Step>, step: Step, hash: string, row: Option<Client>, from: int, to: int)
    requires Held(ttl, s, steps, hash, row, from, to)
    ensures Held(ttl, s, steps + [step], hash, row, from, to)
  {
    var j :| 0 <= j <= |steps| && from <= Run(ttl, s, steps[..j]).now <= to &&
      Row(Run(ttl, s, steps[..j]).registry, hash) == row;
    assert (steps + [step])[..j] == steps[..j];
  }

  lemma HeldNow(ttl: int, s: System, steps: seq<Step>, hash: string)
    ensures var t := Run(ttl, s, steps); Held(ttl, s, steps, hash, Row(t.registry, hash), t.now, t.now)
  {
    assert steps[..|steps|] == steps;
  }

  lemma HeldWider(
      ttl: int, s: System, steps: seq<Step>, hash: string, row: Option<Client>, from: int, to: int, from': int, to': int)
    requires Held(ttl, s, steps, hash, row, from, to) && from' <= from && to <= to'
    ensures Held(ttl, s, steps, hash, row, from', to')
  {
  }

  /** The outcome is what the row says, or what its encoding says. */
  predicate RightFor(outcome: Outcome, row: Option<Client>) {
    outcome == OutcomeOf(row) || outcome == Decode(Encode(row))
  }

  /** The answer is right for a row held within the last `age` milliseconds. */
  ghost predicate Justified(ttl: int, s: System, steps: seq<Step>, a: Answer, age: int) {
    a.outcome == Unavailable ||
    exists row :: RightFor(a.outcome, row) && Held(ttl, s, steps, a.hash, row, a.at - age, a.at)
  }

  ghost predicate CacheJustified(ttl: int, s: System, steps: seq<Step>, delay: nat, h: string, e: CacheEntry) {
    && e.value == Encode(e.row) && e.deadline - ttl <= Run(ttl, s, steps).now
    && Held(ttl, s, steps, h, e.row, e.deadline - ttl - delay, e.deadline - ttl)
  }

  ghost predicate PendingJustified(ttl: int, s: System, steps: seq<Step>, p: Pending) {
    p.Fetched? ==> p.readAt <= Run(ttl, s, steps).now && Held(ttl, s, steps, p.hash, p.row, p.readAt, p.readAt)
  }

  ghost predicate AnswerJustified(ttl: int, s: System, steps: seq<Step>, delay: nat, a: Answer) {
    a.at <= Run(ttl, s, steps).now && Justified(ttl, s, steps, a, ttl + delay)
  }

  ghost predicate Inv(ttl: int, s: System, steps: seq<Step>, delay: nat) {
    var t := Run(ttl, s, steps);
    && (forall h :: h in t.cache ==> CacheJustified(ttl, s, steps, delay, h, t.cache[h]))
    && (forall l :: l in t.pending ==> PendingJustified(ttl, s, steps, t.pending[l]))
    && (forall a :: a in t.answers ==> AnswerJustified(ttl, s, steps, delay, a))
  }

  lemma RunSnoc(ttl: int, s: System, init: seq<Step>, step: Step)
    ensures Run(ttl, s, init + [step]) == Next(ttl, Run(ttl, s, init), step)
    ensures Run(ttl, s, init).now <= Run(ttl, s, init + [step]).now
  {
    assert (init + [step])[..|init|] == init;
  }

  lemma JustifiedLater(ttl: int, s: System, steps: seq<Step>, step: Step, a: Answer, age: int)
    requires Justified(ttl, s, steps, a, age)
    ensures Justified(ttl, s, steps + [step], a, age)
  {
    if a.outcome != Unavailable {
      var row :| RightFor(a.outcome, row) && Held(ttl, s, steps, a.hash, row, a.at - age, a.at);
      HeldLater(ttl, s, steps, step, a.hash, row, a.at - age, a.at);
    }
  }

  lemma CacheKept(ttl: int, s: System, init: seq<Step>, step: Step, delay: nat, h: string)
    requires ttl > 0 && Inv(ttl, s, init, delay) && Prompt(ttl, s, init + [step], delay)
    requires h in Run(ttl, s, init + [step]).cache
    ensures CacheJustified(ttl, s, init + [step], delay, h, Run(ttl, s, init + [step]).cache[h])
  {
    var t := Run(ttl, s, init);
    RunSnoc(ttl, s, init, step);
    var e := Run(ttl, s, init + [step]).cache[h];
    assert (init + [step])[..|init|] == init;
    if h in t.cache && e == t.cache[h] {
      assert CacheJustified(ttl, s, init, delay, h, e);
      HeldLater(ttl, s, init, step, h, e.row, e.deadline - ttl - delay, e.deadline - ttl);
    } else {
      var p := t.pending[step.lookup];
      assert PendingJustified(ttl, s, init, p);
      HeldWider(ttl, s, init, h, p.row, p.readAt, p.readAt, t.now - delay, t.now);
      HeldLater(ttl, s, init, step, h, p.row, t.now - delay, t.now);
    }
  }

  lemma PendingKept(ttl: int, s: System, init: seq<Step>, step: Step, delay: nat, l: nat)
    requires Inv(ttl, s, init, delay) && l in Run(ttl, s, init + [step]).pending
    ensures PendingJustified(ttl, s, init + [step], Run(ttl, s, init + [step]).pending[l])
  {
    var t := Run(ttl, s, init);
    RunSnoc(ttl, s, init, step);
    var p := Run(ttl, s, init + [step]).pending[l];
    if l in t.pending && t.pending[l] == p {
      assert PendingJustified(ttl, s, init, p);
      if p.Fetched? {
        HeldLater(ttl, s, init, step, p.hash, p.row, p.readAt, p.readAt);
      }
    } else if p.Fetched? {
      HeldNow(ttl, s, init, p.hash);
      HeldLater(ttl, s, init, step, p.hash, p.row, t.now, t.now);
    }
  }

  /** A row held up to now justifies the answer that is right for it, from the next step on. */
  lemma JustifyNow(ttl: int, s: System, init: seq<Step>, step: Step, age: int, hash: string, row: Option<Client>, outcome: Outcome)
    requires RightFor(outcome, row) && Held(ttl, s, init, hash, row, Run(ttl, s, init).now - age, Run(ttl, s, init).now)
    ensures Justified(ttl, s, init + [step], Answer(hash, outcome, Run(ttl, s, init).now), age)
  {
    var now := Run(ttl, s, init).now;
    HeldLater(ttl, s, init, step, hash, row, now - age, now);
  }

  /** An answer read from a live entry of the cache. */
  lemma CachedAnswerJustified(ttl: int, s: System, init: seq<Step>, step: Step, delay: nat, hash: string, e: CacheEntry)
    requires ttl > 0 && CacheJustified(ttl, s, init, delay, hash, e) && Run(ttl, s, init).now < e.deadline
    ensures AnswerJustified(ttl, s, init + [step], delay, Answer(hash, Decode(Encode(e.row)), Run(ttl, s, init).now))
  {
    var now := Run(ttl, s, init).now;
    HeldWider(ttl, s, init, hash, e.row, e.deadline - ttl - delay, e.deadline - ttl, now - (ttl + delay), now);
    JustifyNow(ttl, s, init, step, ttl + delay, hash, e.row, Decode(Encode(e.row)));
    RunSnoc(ttl, s, init, step);
  }

  /** An answer read from the registry, given once it has been written back. */
  lemma FetchedAnswerJustified(ttl: int, s: System, init: seq<Step>, step: Step, delay: nat, p: Pending)
    requires ttl > 0 && PendingJustified(ttl, s, init, p) && p.Fetched? && Run(ttl, s, init).now - p.readAt <= delay
    ensures AnswerJustified(ttl, s, init + [step], delay, Answer(p.hash, OutcomeOf(p.row), Run(ttl, s, init).now))
  {
    var t := Run(ttl, s, init);
    HeldWider(ttl, s, init, p.hash, p.row, p.readAt, p.readAt, t.now - (ttl + delay), t.now);
    JustifyNow(ttl, s, init, step, ttl + delay, p.hash, p.row, OutcomeOf(p.row));
    RunSnoc(ttl, s, init, step);
  }

  lemma AnswerKept(ttl: int, s: System, init: seq<Step>, step: Step, delay: nat, a: Answer)
    requires ttl > 0 && Inv(ttl, s, init, delay) && Prompt(ttl, s, init + [step], delay)
    requires a in Run(ttl, s, init + [step]).answers
    ensures AnswerJustified(ttl, s, init + [step], delay, a)
  {
    var t := Run(ttl, s, init);
    RunSnoc(ttl, s, init, step);
    assert (init + [step])[..|init|] == init;
    if a in t.answers {
      assert AnswerJustified(ttl, s, init, delay, a);
      JustifiedLater(ttl, s, init, step, a, ttl + delay);
    } else if step.ReadCache? {
      var e := t.cache[step.hash];
      assert CacheJustified(ttl, s, init, delay, step.hash, e);
      CachedAnswerJustified(ttl, s, init, step, delay, step.hash, e);
    } else if step.WriteBack? {
      FetchedAnswerJustified(ttl, s, init, step, delay, t.pending[step.lookup]);
    }
  }

  lemma StepKeepsInv(ttl: int, s: System, init: seq<Step>, step: Step, delay: nat)
    requires ttl > 0 && Inv(ttl, s, init, delay) && Prompt(ttl, s, init + [step], delay)
    ensures Inv(ttl, s, init + [step], delay)
  {
    var u := Run(ttl, s, init + [step]);
    forall h | h in u.cache ensures CacheJustified(ttl, s, init + [step], delay, h, u.cache[h]) {
      CacheKept(ttl, s, init, step, delay, h);
    }
    forall l | l in u.pending ensures PendingJustified(ttl, s, init + [step], u.pending[l]) {
      PendingKept(ttl, s, init, step, delay, l);
    }
    forall a | a in u.answers ensures AnswerJustified(ttl, s, init + [step], delay, a) {
      AnswerKept(ttl, s, init, step, delay, a);
    }
  }

  lemma {:induction false} RunKeepsInv(ttl: int, s: System, steps: seq<Step>, delay: nat)
    requires ttl > 0 && s.cache == map[] && s.pending == map[] && s.answers == [] && Prompt(ttl, s, steps, delay)
    ensures Inv(ttl, s, steps, delay)
  {
    if steps != [] {
      var init, step := steps[..|steps| - 1], steps[|steps| - 1];
      RunKeepsInv(ttl, s, init, delay);
      assert steps == init + [step];
      StepKeepsInv(ttl, s, init, step, delay);
    }
  }

  /** Some row that the answer is right for was held in time. */
  lemma JustifiedRow(ttl: int, s: System, steps: seq<Step>, delay: nat, a: Answer) returns (row: Option<Client>)
    requires AnswerJustified(ttl, s, steps, delay, a) && a.outcome != Unavailable
    ensures RightFor(a.outcome, row) && Held(ttl, s, steps, a.hash, row, a.at - (ttl + delay), a.at)
  {
    row :| RightFor(a.outcome, row) && Held(ttl, s, steps, a.hash, row, a.at - (ttl + delay), a.at);
  }

  /**
   Bounded staleness, over every interleaving: an answered client was active in the registry within the
   TTL plus the write-back delay before the answer, and for an answer of "not found" the registry held,
   within the same time, no active row, or a row whose id cannot be cached.
   */
  lemma BoundedStaleness(ttl: int, now: int, r: Registry, steps: seq<Step>, delay: nat, a: Answer)
    requires ttl > 0 && Prompt(ttl, Start(now, r), steps, delay)
    requires a in Run(ttl, Start(now, r), steps).answers
    ensures a.outcome.Found? ==>
      Held(ttl, Start(now, r), steps, a.hash, Some(Client(a.outcome.id, "active")), a.at - ttl - delay, a.at)
    ensures a.outcome.NotFound? ==> exists row ::
      && Held(ttl, Start(now, r), steps, a.hash, row, a.at - ttl - delay, a.at)
      && (row.None? || row.value.status != "active" || '|' in row.value.id)
  {
    var s := Start(now, r);
    RunKeepsInv(ttl, s, steps, delay);
    if a.outcome != Unavailable {
      var row := JustifiedRow(ttl, s, steps, delay, a);
      HeldWider(ttl, s, steps, a.hash, row, a.at - (ttl + delay), a.at, a.at - ttl - delay, a.at);
      EncodingExact(row);
      if a.outcome.Found? {
        assert row == Some(Client(a.outcome.id, ACTIVE));
      }
    }
  }

  /** A lookup that reads the registry, waits, writes back, and is read again at the end of the entry's life. */
  function LateReader(ttl: nat, hash: string, delay: nat): seq<Step>
    requires ttl > 0
  {
    [ReadCache(0, hash, true), ReadRegistry(0, true), ChangeRegistry(map[])] +
    [Tick(delay), WriteBack(0, true)] + [Tick(ttl - 1), ReadCache(1, hash, true)]
  }

  lemma RunPair(ttl: int, s: System, x: Step, y: Step)
    ensures Run(ttl, s, [x, y]) == Next(ttl, Next(ttl, s, x), y)
  {
    assert [x, y][..1] == [x] && [x][..0] == [];
    assert Run(ttl, s, [x]) == Next(ttl, s, x);
  }

  lemma {:induction false} RunConcat(ttl: int, s: System, xs: seq<Step>, ys: seq<Step>)
    ensures Run(ttl, s, xs + ys) == Run(ttl, Run(ttl, s, xs), ys)
  {
    if ys == [] {
      assert xs + ys == xs;
    } else {
      assert (xs + ys)[..|xs + ys| - 1] == xs + ys[..|ys| - 1];
      RunConcat(ttl, s, xs, ys[..|ys| - 1]);
    }
  }

  lemma ReadThenRemoved(ttl: int, now: int, hash: string, client: Client)
    ensures Run(ttl, Start(now, map[hash := client]), [ReadCache(0, hash, true), ReadRegistry(0, true), ChangeRegistry(map[])]) ==
            System(now, map[], map[], map[0 := Fetched(hash, Some(client), now)], [])
  {
    var s, x := Start(now, map[hash := client]), [ReadCache(0, hash, true), ReadRegistry(0, true)];
    RunPair(ttl, s, x[0], x[1]);
    assert (x + [ChangeRegistry(map[])])[..2] == x;
    assert x + [ChangeRegistry(map[])] == [ReadCache(0, hash, true), ReadRegistry(0, true), ChangeRegistry(map[])];
  }

  /**
   The bound is attained: whatever the TTL and the delay of the write-back, a client removed from the registry right
   after it was read is still answered for, a millisecond short of the TTL and the delay together later.
   */
  lemma StalenessAttained(ttl: nat, now: int, hash: string, id: string, delay: nat)
    requires ttl > 0 && '|' !in id
    ensures var client := Client(id, "active");
      var s := Run(ttl, Start(now, map[hash := client]), LateReader(ttl, hash, delay));
      && Answer(hash, Found(id), now + delay + ttl - 1) in s.answers
      && Run(ttl, Start(now, map[hash := client]), LateReader(ttl, hash, delay)[..3]).registry == map[]
      && Run(ttl, Start(now, map[hash := client]), LateReader(ttl, hash, delay)[..3]).now == now
  {
    var client := Client(id, "active");
    var s0, steps := Start(now, map[hash := client]), LateReader(ttl, hash, delay);
    var xs, ys, zs := steps[..3], [Tick(delay), WriteBack(0, true)], [Tick(ttl - 1), ReadCache(1, hash, true)];
    assert xs == [ReadCache(0, hash, true), ReadRegistry(0, true), ChangeRegistry(map[])];
    assert steps == xs + ys + zs;
    ReadThenRemoved(ttl, now, hash, client);
    var s1 := Run(ttl, s0, xs);
    RunPair(ttl, s1, ys[0], ys[1]);
    RunConcat(ttl, s0, xs, ys);
    var s2 := Run(ttl, s0, xs + ys);
    assert s2.cache == map[hash := CacheEntry(Encode(Some(client)), now + delay + ttl, Some(client))];
    assert s2.pending == map[] && s2.now == now + delay;
    RunPair(ttl, s2, zs[0], zs[1]);
    RunConcat(ttl, s0, xs + ys, zs);
    EncodingExact(Some(client));
    var t := Run(ttl, s0, steps);
    assert t.answers == s2.answers + [Answer(hash, Found(id), now + delay + ttl - 1)];
    assert t.answers[|s2.answers|] in t.answers;
  }

  /** Only a write-back that the cache answers puts anything into it. */
  lemma {:induction false} DownCacheStaysEmpty(ttl: int, now: int, r: Registry, steps: seq<Step>)
    requires forall i :: 0 <= i < |steps| && steps[i].WriteBack? ==> !steps[i].up
    ensures Run(ttl, Start(now, r), steps).cache == map[]
  {
    if steps != [] {
      DownCacheStaysEmpty(ttl, now, r, steps[..|steps| - 1]);
    }
  }

  /** The answer that a lookup gets right after another one cached the row. */
  lemma SecondLookup(ttl: int, s: System, hash: string)
    requires ttl > 0 && s.pending == map[] && CacheGet(s.cache, hash, s.now) == None
    ensures var steps := [ReadCache(0, hash, true), ReadRegistry(0, true), WriteBack(0, true), ReadCache(0, hash, true)];
      Run(ttl, s, steps).answers == s.answers +
        [Answer(hash, OutcomeOf(Row(s.registry, hash)), s.now),
         Answer(hash, Decode(Encode(Row(s.registry, hash))), s.now)]
  {
    var steps := [ReadCache(0, hash, true), ReadRegistry(0, true), WriteBack(0, true), ReadCache(0, hash, true)];
    var s1 := Next(ttl, s, steps[0]);
    var s2 := Next(ttl, s1, steps[1]);
    var s3 := Next(ttl, s2, steps[2]);
    assert steps[..3][..2] == steps[..2] && steps[..2][..1] == steps[..1] && steps[..1][..0] == [];
    assert Run(ttl, s, steps[..1]) == s1;
    assert Run(ttl, s, steps[..2]) == s2;
    assert Run(ttl, s, steps[..3]) == s3;
    assert s2.pending[0] == Fetched(hash, Row(s.registry, hash), s.now);
    assert s3.answers == s.answers + [Answer(hash, OutcomeOf(Row(s.registry, hash)), s.now)];
  }

  /** A cached lookup repeats the registry's answer exactly when an active id has no separator in it. */
  lemma CachedAnswerExact(ttl: int, now: int, r: Registry, hash: string)
    requires ttl > 0
    ensures var steps := [ReadCache(0, hash, true), ReadRegistry(0, true), WriteBack(0, true), ReadCache(0, hash, true)];
      var answers := Run(ttl, Start(now, r), steps).answers;
      |answers| == 2 &&
      (answers[1] == answers[0] <==> hash !in r || r[hash].status != "active" || '|' !in r[hash].id)
  {
    SecondLookup(ttl, Start(now, r), hash);
    EncodingExact(Row(r, hash));
  }

  // ---------------------------------------------------------------------------------------
  // The cache
  // ---------------------------------------------------------------------------------------

  /** One whole lookup without interference. */
  function LookupAlone(ttl: int, cache: CacheMap, r: Registry, hash: string, now: int, cacheUp: bool, registryUp: bool, writeUp: bool): (CacheMap, Outcome) {
    if cacheUp && CacheGet(cache, hash, now).Some? then (cache, Decode(CacheGet(cache, hash, now).value))
    else if !registryUp then (cache, Unavailable)
    else (CachePut(cache, hash, Row(r, hash), now, ttl, writeUp), OutcomeOf(Row(r, hash)))
  }

  /** It is what the interleaved system does when nothing comes in between. */
  lemma LookupIsARun(ttl: int, s: System, hash: string, l: nat, cacheUp: bool, registryUp: bool, writeUp: bool)
    requires l !in s.pending
    ensures var (cache, outcome) := LookupAlone(ttl, s.cache, s.registry, hash, s.now, cacheUp, registryUp, writeUp);
      Next(ttl, Next(ttl, Next(ttl, s, ReadCache(l, hash, cacheUp)), ReadRegistry(l, registryUp)), WriteBack(l, writeUp)) ==
      s.(cache := cache, answers := s.answers + [Answer(hash, outcome, s.now)])
  {
    var s1 := Next(ttl, s, ReadCache(l, hash, cacheUp));
    if s1.pending != s.pending {
      var s2 := Next(ttl, s1, ReadRegistry(l, registryUp));
      if !registryUp {
        assert s2.pending == s.pending;
      } else {
        assert s2.pending - {l} == s.pending;
      }
    }
  }

  class Cache {
    const ttl: int
    var entries: CacheMap

    constructor (ttl: int)
      ensures this.ttl == ttl && entries == map[]
    {
      this.ttl := ttl;
      entries := map[];
    }

    /** Best-effort write of what the registry said. */
    method TrySet(hash: string, row: Option<Client>, now: int, up: bool)
      modifies this
      ensures entries == CachePut(old(entries), hash, row, now, ttl, up)
    {
      if up {
        entries := entries[hash := CacheEntry(Encode(row), now + ttl, row)];
      }
    }

    /** Answers from the cache if it can; otherwise from the registry, which it then caches; otherwise not at all. */
    method Lookup(hash: string, r: Registry, now: int, cacheUp: bool, registryUp: bool, writeUp: bool) returns (outcome: Outcome)
      modifies this
      ensures (entries, outcome) == LookupAlone(ttl, old(entries), r, hash, now, cacheUp, registryUp, writeUp)
    {
      if cacheUp {
        var cached := CacheGet(entries, hash, now);
        if cached.Some? {
          return Decode(cached.value);
        }
      }
      if !registryUp {
        return Unavailable;
      }
      var row := Row(r, hash);
      TrySet(hash, row, now, writeUp);
      match row
      case None => outcome := NotFound;
      case Some(client) =>
        if client.status != ACTIVE {
          outcome := NotFound;
        } else {
          outcome := Found(client.id);
        }
    }
  }
}
