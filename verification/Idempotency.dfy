/**
 The idempotency guard: many submissions interleave their SETNX, GET and publish steps over one
 expiring key store, whose replies may be lost.
 */
module Idempotency {
  import opened Common

  datatype Config = Config(ttl: int, allowOnError: bool)

  datatype Stored = Stored(txn: string, deadline: int)

  type Keys = map<string, Stored>

  /** What CheckAndSet tells the handler. */
  datatype Verdict = Fresh | Duplicate(original: string) | StoreError

  function Get(k: Keys, key: string, now: int): Option<string> {
    if key in k && now < k[key].deadline then Some(k[key].txn) else None
  }

  /** SET NX EX: creates the key unless it is live. */
  function SetNx(c: Config, k: Keys, key: string, txn: string, now: int): Keys {
    if Get(k, key, now).Some? then k else k[key := Stored(txn, now + c.ttl)]
  }

  function OnError(c: Config): Verdict {
    if c.allowOnError then Fresh else StoreError
  }

  // ---------------------------------------------------------------------------------------
  // Interleaved submissions
  // ---------------------------------------------------------------------------------------

  datatype Submission = Submission(key: string, client: string, txn: string)

  /** A submission lost the SETNX and must read the key, or it may publish. */
  datatype Phase = Collided(sub: Submission) | Admitted(sub: Submission, claimed: bool)

  /** An executed SETNX that created the key. */
  datatype Claim = Claim(sub: Submission, at: int)

  datatype Ack =
    | Accepted(sub: Submission, claimed: bool, at: int)
    | AlreadyExists(sub: Submission, original: string, at: int)
    | Failed(sub: Submission, written: bool)  // the event may have been written although the publish failed

  datatype Event = Event(txn: string, client: string)

  datatype System = System(
    now: int, keys: Keys, running: map<nat, Phase>, claims: seq<Claim>, acks: seq<Ack>, published: seq<Event>)

  datatype Step =
    | Tick(ms: nat)
    | Check(req: nat, sub: Submission, reply: Reply)
    | ReadBack(req: nat, reply: Reply)
    | Publish(req: nat, reply: Reply)

  function Admit(s: System, req: nat, sub: Submission, claimed: bool): System {
    s.(running := s.running[req := Admitted(sub, claimed)])
  }

  function Reject(s: System, req: nat, ack: Ack): System {
    s.(running := s.running - {req}, acks := s.acks + [ack])
  }

  function Unreachable(c: Config, s: System, req: nat, sub: Submission): System {
    if c.allowOnError then Admit(s, req, sub, false) else Reject(s, req, Failed(sub, false))
  }

  /** The SETNX, whether or not its reply arrives. */
  function Claimed(c: Config, s: System, sub: Submission, reply: Reply): System {
    if reply == Lost || Get(s.keys, sub.key, s.now).Some? then s
    else s.(keys := SetNx(c, s.keys, sub.key, sub.txn, s.now), claims := s.claims + [Claim(sub, s.now)])
  }

  function CheckStep(c: Config, s: System, req: nat, sub: Submission, reply: Reply): System {
    var after := Claimed(c, s, sub, reply);
    if reply != Answered then Unreachable(c, after, req, sub)
    else if Get(s.keys, sub.key, s.now).Some? then after.(running := after.running[req := Collided(sub)])
    else Admit(after, req, sub, true)
  }

  function ReadBackStep(c: Config, s: System, req: nat, sub: Submission, reply: Reply): System {
    var original := Get(s.keys, sub.key, s.now);
    if reply != Answered then Unreachable(c, s, req, sub)
    else if original == None then Admit(s, req, sub, false)
    else Reject(s, req, AlreadyExists(sub, original.value, s.now))
  }

  function PublishStep(s: System, req: nat, sub: Submission, claimed: bool, reply: Reply): System {
    var after := if reply == Lost then s else s.(published := s.published + [Event(sub.txn, sub.client)]);
    Reject(after, req, if reply == Answered then Accepted(sub, claimed, s.now) else Failed(sub, reply == Unanswered))
  }

  function Next(c: Config, s: System, step: Step): System {
    match step
    case Tick(ms) => s.(now := s.now + ms)
    case Check(req, sub, reply) => if req in s.running then s else CheckStep(c, s, req, sub, reply)
    case ReadBack(req, reply) =>
      if req in s.running && s.running[req].Collided? then ReadBackStep(c, s, req, s.running[req].sub, reply) else s
    case Publish(req, reply) =>
      if req in s.running && s.running[req].Admitted?
      then PublishStep(s, req, s.running[req].sub, s.running[req].claimed, reply) else s
  }

  function Run(c: Config, s: System, steps: seq<Step>): System {
    if steps == [] then s else Next(c, Run(c, s, steps[..|steps| - 1]), steps[|steps| - 1])
  }

  function Start(now: int): System {
    System(now, map[], map[], [], [], [])
  }

  /** The claim holds its key until its deadline. */
  predicate Holds(c: Config, s: System, claim: Claim) {
    && claim.at <= s.now
    && (s.now < claim.at + c.ttl ==> claim.sub.key in s.keys && s.keys[claim.sub.key] == Stored(claim.sub.txn, claim.at + c.ttl))
  }

  /** Some claim of the key named this transaction and was in force at the time. */
  ghost predicate Named(c: Config, claims: seq<Claim>, key: string, txn: string, at: int) {
    exists i :: 0 <= i < |claims| && claims[i].sub.key == key && claims[i].sub.txn == txn && claims[i].at <= at < claims[i].at + c.ttl
  }

  /** The stored value was put there by a claim of the key. */
  ghost predicate KeyClaimed(c: Config, claims: seq<Claim>, key: string, v: Stored, now: int) {
    exists i :: 0 <= i < |claims| && claims[i].sub.key == key && claims[i].sub.txn == v.txn
      && v.deadline == claims[i].at + c.ttl && claims[i].at <= now
  }

  ghost predicate SubClaimed(claims: seq<Claim>, sub: Submission) {
    exists i :: 0 <= i < |claims| && claims[i].sub == sub
  }

  /** Some claim of the key has run out. */
  ghost predicate Lapsed(c: Config, claims: seq<Claim>, key: string, now: int) {
    exists i :: 0 <= i < |claims| && claims[i].sub.key == key && claims[i].at + c.ttl <= now
  }

  /** A submission is admitted by its own claim, by the policy on errors, or because the claim it lost to ran out. */
  ghost predicate Entitled(c: Config, claims: seq<Claim>, sub: Submission, claimed: bool, now: int) {
    if claimed then SubClaimed(claims, sub) else c.allowOnError || Lapsed(c, claims, sub.key, now)
  }

  ghost predicate PhaseJustified(c: Config, claims: seq<Claim>, now: int, p: Phase) {
    match p
    case Collided(sub) => exists i :: 0 <= i < |claims| && claims[i].sub.key == sub.key
    case Admitted(sub, claimed) => Entitled(c, claims, sub, claimed, now)
  }

  ghost predicate AckJustified(c: Config, claims: seq<Claim>, published: seq<Event>, a: Ack) {
    match a
    case Accepted(sub, claimed, at) =>
      Event(sub.txn, sub.client) in published && Entitled(c, claims, sub, claimed, at)
    case AlreadyExists(sub, original, at) => Named(c, claims, sub.key, original, at)
    case Failed(_, _) => true
  }

  /** Claims of one key are at least a TTL apart. */
  predicate Apart(c: Config, claims: seq<Claim>) {
    forall i, j :: 0 <= i < j < |claims| && claims[i].sub.key == claims[j].sub.key ==> claims[j].at - claims[i].at >= c.ttl
  }

  ghost predicate ClaimsKept(c: Config, s: System) {
    && Apart(c, s.claims)
    && (forall i :: 0 <= i < |s.claims| ==> Holds(c, s, s.claims[i]))
    && (forall k :: k in s.keys ==> KeyClaimed(c, s.claims, k, s.keys[k], s.now))
  }

  ghost predicate AcksKept(c: Config, s: System) {
    && (forall r :: r in s.running ==> PhaseJustified(c, s.claims, s.now, s.running[r]))
    && (forall a :: a in s.acks ==> AckJustified(c, s.claims, s.published, a))
  }

  lemma SubClaimedGrows(claims: seq<Claim>, more: seq<Claim>, sub: Submission)
    requires SubClaimed(claims, sub) && claims <= more
    ensures SubClaimed(more, sub)
  {
    var i :| 0 <= i < |claims| && claims[i].sub == sub;
    assert more[i] == claims[i];
  }

  lemma EntitledLater(c: Config, claims: seq<Claim>, more: seq<Claim>, sub: Submission, claimed: bool, now: int, later: int)
    requires Entitled(c, claims, sub, claimed, now) && claims <= more && now <= later
    ensures Entitled(c, more, sub, claimed, later)
  {
    if claimed {
      SubClaimedGrows(claims, more, sub);
    } else if !c.allowOnError {
      var i :| 0 <= i < |claims| && claims[i].sub.key == sub.key && claims[i].at + c.ttl <= now;
      assert more[i] == claims[i];
    }
  }

  lemma PhaseLater(c: Config, claims: seq<Claim>, more: seq<Claim>, now: int, later: int, p: Phase)
    requires PhaseJustified(c, claims, now, p) && claims <= more && now <= later
    ensures PhaseJustified(c, more, later, p)
  {
    match p
    case Collided(sub) =>
      var i :| 0 <= i < |claims| && claims[i].sub.key == sub.key;
      assert more[i] == claims[i];
    case Admitted(sub, claimed) => EntitledLater(c, claims, more, sub, claimed, now, later);
  }

  /** What a new claim or a later time leaves as it was. */
  lemma ClaimsGrow(c: Config, s: System, t: System)
    requires AcksKept(c, s) && s.claims <= t.claims && s.published <= t.published && s.now <= t.now
    ensures forall r :: r in s.running ==> PhaseJustified(c, t.claims, t.now, s.running[r])
    ensures forall a :: a in s.acks ==> AckJustified(c, t.claims, t.published, a)
  {
    forall r | r in s.running ensures PhaseJustified(c, t.claims, t.now, s.running[r]) {
      PhaseLater(c, s.claims, t.claims, s.now, t.now, s.running[r]);
    }
    forall a | a in s.acks ensures AckJustified(c, t.claims, t.published, a) {
      match a
      case Accepted(sub, claimed, at) =>
        assert Event(sub.txn, sub.client) in t.published;
        EntitledLater(c, s.claims, t.claims, sub, claimed, at, at);
      case AlreadyExists(sub, original, at) =>
        var i :| 0 <= i < |s.claims| && s.claims[i].sub.key == sub.key && s.claims[i].sub.txn == original
          && s.claims[i].at <= at < s.claims[i].at + c.ttl;
        assert t.claims[i] == s.claims[i];
      case Failed(_, _) =>
    }
  }

  lemma KeyClaimedGrows(c: Config, claims: seq<Claim>, more: seq<Claim>, key: string, v: Stored, now: int, later: int)
    requires KeyClaimed(c, claims, key, v, now) && claims <= more && now <= later
    ensures KeyClaimed(c, more, key, v, later)
  {
    var i :| 0 <= i < |claims| && claims[i].sub.key == key && claims[i].sub.txn == v.txn
      && v.deadline == claims[i].at + c.ttl && claims[i].at <= now;
    assert more[i] == claims[i];
  }

  lemma TickKeepsClaims(c: Config, s: System, ms: nat)
    requires ClaimsKept(c, s)
    ensures ClaimsKept(c, s.(now := s.now + ms))
  {
    forall k | k in s.keys ensures KeyClaimed(c, s.claims, k, s.keys[k], s.now + ms) {
      KeyClaimedGrows(c, s.claims, s.claims, k, s.keys[k], s.now, s.now + ms);
    }
  }

  /** Creating a key that is not live starts a claim a whole TTL after the key's previous ones. */
  lemma NewClaimKeepsClaims(c: Config, s: System, sub: Submission)
    requires ClaimsKept(c, s) && Get(s.keys, sub.key, s.now) == None && c.ttl > 0
    ensures ClaimsKept(c, s.(keys := SetNx(c, s.keys, sub.key, sub.txn, s.now), claims := s.claims + [Claim(sub, s.now)]))
  {
    var key, more := sub.key, s.claims + [Claim(sub, s.now)];
    var keys := SetNx(c, s.keys, key, sub.txn, s.now);
    forall i | 0 <= i < |s.claims| && s.claims[i].sub.key == key ensures s.now - s.claims[i].at >= c.ttl {
      assert Holds(c, s, s.claims[i]);
    }
    forall k | k in keys ensures KeyClaimed(c, more, k, keys[k], s.now) {
      if k == key {
        assert more[|s.claims|].sub.key == key;
      } else {
        KeyClaimedGrows(c, s.claims, more, k, s.keys[k], s.now, s.now);
      }
    }
    forall i | 0 <= i < |more| ensures Holds(c, s.(keys := keys, claims := more), more[i]) {
      if i < |s.claims| {
        assert Holds(c, s, s.claims[i]);
      }
    }
  }

  lemma ClaimedKeepsClaims(c: Config, s: System, sub: Submission, reply: Reply)
    requires ClaimsKept(c, s) && c.ttl > 0
    ensures ClaimsKept(c, Claimed(c, s, sub, reply))
  {
    if reply != Lost && Get(s.keys, sub.key, s.now) == None {
      NewClaimKeepsClaims(c, s, sub);
    }
  }

  /** Only the clock and SETNX matter to the claims. */
  lemma ClaimsOf(c: Config, s: System, step: Step)
    ensures var t := Next(c, s, step);
      var u := match step
               case Tick(ms) => s.(now := s.now + ms)
               case Check(req, sub, reply) => if req in s.running then s else Claimed(c, s, sub, reply)
               case _ => s;
      t.keys == u.keys && t.claims == u.claims && t.now == u.now
  {
  }

  lemma SameClaims(c: Config, s: System, t: System)
    requires ClaimsKept(c, s) && t.keys == s.keys && t.claims == s.claims && t.now == s.now
    ensures ClaimsKept(c, t)
  {
    assert forall i :: 0 <= i < |s.claims| ==> Holds(c, s, s.claims[i]);
  }

  lemma NextKeepsClaims(c: Config, s: System, step: Step)
    requires ClaimsKept(c, s) && c.ttl > 0
    ensures ClaimsKept(c, Next(c, s, step))
  {
    ClaimsOf(c, s, step);
    var t := Next(c, s, step);
    match step
    case Tick(ms) =>
      TickKeepsClaims(c, s, ms);
      SameClaims(c, s.(now := s.now + ms), t);
    case Check(req, sub, reply) =>
      if req in s.running {
        SameClaims(c, s, t);
      } else {
        ClaimedKeepsClaims(c, s, sub, reply);
        SameClaims(c, Claimed(c, s, sub, reply), t);
      }
    case ReadBack(_, _) => SameClaims(c, s, t);
    case Publish(_, _) => SameClaims(c, s, t);
  }

  /** A step that adds one justified phase or one justified answer. */
  lemma AcksGrow(c: Config, s: System, t: System, req: nat, p: Option<Phase>, a: Option<Ack>)
    requires AcksKept(c, s) && s.claims <= t.claims && s.published <= t.published && s.now == t.now
    requires t.running == if p.Some? then s.running[req := p.value] else s.running - {req}
    requires p.Some? ==> PhaseJustified(c, t.claims, t.now, p.value)
    requires t.acks == if a.Some? then s.acks + [a.value] else s.acks
    requires a.Some? ==> AckJustified(c, t.claims, t.published, a.value)
    ensures AcksKept(c, t)
  {
    ClaimsGrow(c, s, t);
    forall r | r in t.running ensures PhaseJustified(c, t.claims, t.now, t.running[r]) {
    }
    forall b | b in t.acks ensures AckJustified(c, t.claims, t.published, b) {
    }
  }

  lemma UnreachableKeepsAcks(c: Config, s: System, after: System, req: nat, sub: Submission)
    requires AcksKept(c, s) && s.claims <= after.claims && after == s.(keys := after.keys, claims := after.claims)
    ensures AcksKept(c, Unreachable(c, after, req, sub))
  {
    if c.allowOnError {
      AcksGrow(c, s, Unreachable(c, after, req, sub), req, Some(Admitted(sub, false)), None);
    } else {
      AcksGrow(c, s, Unreachable(c, after, req, sub), req, None, Some(Failed(sub, false)));
    }
  }

  lemma CheckKeepsAcks(c: Config, s: System, req: nat, sub: Submission, reply: Reply)
    requires ClaimsKept(c, s) && AcksKept(c, s)
    ensures AcksKept(c, CheckStep(c, s, req, sub, reply))
  {
    var after, t := Claimed(c, s, sub, reply), CheckStep(c, s, req, sub, reply);
    if reply != Answered {
      UnreachableKeepsAcks(c, s, after, req, sub);
    } else if Get(s.keys, sub.key, s.now).Some? {
      assert KeyClaimed(c, s.claims, sub.key, s.keys[sub.key], s.now);
      AcksGrow(c, s, t, req, Some(Collided(sub)), None);
    } else {
      assert after.claims[|s.claims|] == Claim(sub, s.now);
      assert SubClaimed(after.claims, sub);
      AcksGrow(c, s, t, req, Some(Admitted(sub, true)), None);
    }
  }

  /** A live key names the transaction of a claim in force. */
  lemma LiveIsNamed(c: Config, s: System, key: string)
    requires ClaimsKept(c, s) && Get(s.keys, key, s.now).Some?
    ensures Named(c, s.claims, key, Get(s.keys, key, s.now).value, s.now)
  {
    assert KeyClaimed(c, s.claims, key, s.keys[key], s.now);
    var i :| 0 <= i < |s.claims| && s.claims[i].sub.key == key && s.claims[i].sub.txn == s.keys[key].txn
      && s.keys[key].deadline == s.claims[i].at + c.ttl && s.claims[i].at <= s.now;
  }

  /** A key that was claimed and is not live has lapsed. */
  lemma DeadHasLapsed(c: Config, s: System, key: string)
    requires ClaimsKept(c, s) && Get(s.keys, key, s.now) == None
    requires exists i :: 0 <= i < |s.claims| && s.claims[i].sub.key == key
    ensures Lapsed(c, s.claims, key, s.now)
  {
    var i :| 0 <= i < |s.claims| && s.claims[i].sub.key == key;
    assert Holds(c, s, s.claims[i]);
  }

  lemma ReadBackKeepsAcks(c: Config, s: System, req: nat, sub: Submission, reply: Reply)
    requires ClaimsKept(c, s) && AcksKept(c, s) && PhaseJustified(c, s.claims, s.now, Collided(sub))
    ensures AcksKept(c, ReadBackStep(c, s, req, sub, reply))
  {
    var t, original := ReadBackStep(c, s, req, sub, reply), Get(s.keys, sub.key, s.now);
    if reply != Answered {
      UnreachableKeepsAcks(c, s, s, req, sub);
    } else if original == None {
      DeadHasLapsed(c, s, sub.key);
      AcksGrow(c, s, t, req, Some(Admitted(sub, false)), None);
    } else {
      LiveIsNamed(c, s, sub.key);
      AcksGrow(c, s, t, req, None, Some(AlreadyExists(sub, original.value, s.now)));
    }
  }

  lemma PublishKeepsAcks(c: Config, s: System, req: nat, reply: Reply)
    requires AcksKept(c, s) && req in s.running && s.running[req].Admitted?
    ensures AcksKept(c, PublishStep(s, req, s.running[req].sub, s.running[req].claimed, reply))
  {
    var p := s.running[req];
    var t := PublishStep(s, req, p.sub, p.claimed, reply);
    assert PhaseJustified(c, s.claims, s.now, p);
    if reply == Answered {
      assert t.published[|s.published|] == Event(p.sub.txn, p.sub.client);
      AcksGrow(c, s, t, req, None, Some(Accepted(p.sub, p.claimed, s.now)));
    } else {
      AcksGrow(c, s, t, req, None, Some(Failed(p.sub, reply == Unanswered)));
    }
  }

  lemma NextKeepsAcks(c: Config, s: System, step: Step)
    requires ClaimsKept(c, s) && AcksKept(c, s)
    ensures AcksKept(c, Next(c, s, step))
  {
    match step
    case Tick(_) => ClaimsGrow(c, s, Next(c, s, step));
    case Check(req, sub, reply) => CheckKeepsAcks(c, s, req, sub, reply);
    case ReadBack(req, reply) =>
      if req in s.running && s.running[req].Collided? {
        ReadBackKeepsAcks(c, s, req, s.running[req].sub, reply);
      }
    case Publish(req, reply) =>
      if req in s.running && s.running[req].Admitted? {
        PublishKeepsAcks(c, s, req, reply);
      }
  }

  lemma {:induction false} RunKeeps(c: Config, now: int, steps: seq<Step>)
    requires c.ttl > 0
    ensures ClaimsKept(c, Run(c, Start(now), steps)) && AcksKept(c, Run(c, Start(now), steps))
  {
    if steps != [] {
      var init := steps[..|steps| - 1];
      RunKeeps(c, now, init);
      NextKeepsClaims(c, Run(c, Start(now), init), steps[|steps| - 1]);
      NextKeepsAcks(c, Run(c, Start(now), init), steps[|steps| - 1]);
    }
  }

  /** Over every interleaving, two SETNXs that created the same key did so at least a TTL apart. */
  lemma ClaimsApart(c: Config, now: int, steps: seq<Step>, i: nat, j: nat)
    requires c.ttl > 0
    ensures var claims := Run(c, Start(now), steps).claims;
      i < j < |claims| && claims[i].sub.key == claims[j].sub.key ==> claims[j].at - claims[i].at >= c.ttl
  {
    RunKeeps(c, now, steps);
  }

  /** Every duplicate answer names the transaction of the claim in force on its key. */
  lemma DuplicatesNameClaims(c: Config, now: int, steps: seq<Step>, a: Ack)
    requires c.ttl > 0 && a in Run(c, Start(now), steps).acks && a.AlreadyExists?
    ensures Named(c, Run(c, Start(now), steps).claims, a.sub.key, a.original, a.at)
  {
    RunKeeps(c, now, steps);
  }

  /**
   Every acceptance was published under its verified client.  It rests on a claim of its own, or, where store
   errors are not waved through, on an earlier claim of its key that had run out.
   */
  lemma AcceptedWerePublished(c: Config, now: int, steps: seq<Step>, a: Ack)
    requires c.ttl > 0 && a in Run(c, Start(now), steps).acks && a.Accepted?
    ensures Event(a.sub.txn, a.sub.client) in Run(c, Start(now), steps).published
    ensures a.claimed ==> SubClaimed(Run(c, Start(now), steps).claims, a.sub)
    ensures !a.claimed && !c.allowOnError ==> Lapsed(c, Run(c, Start(now), steps).claims, a.sub.key, a.at)
  {
    RunKeeps(c, now, steps);
  }

  /**
   Two acceptances of one key through SETNX with different transactions rest on two claims a TTL apart.
   */
  lemma AcceptedApart(c: Config, now: int, steps: seq<Step>, a: Ack, b: Ack)
    requires c.ttl > 0 && a in Run(c, Start(now), steps).acks && b in Run(c, Start(now), steps).acks
    requires a.Accepted? && b.Accepted? && a.claimed && b.claimed
    requires a.sub.key == b.sub.key && a.sub.txn != b.sub.txn
    ensures var claims := Run(c, Start(now), steps).claims;
      exists i, j :: 0 <= i < |claims| && 0 <= j < |claims|
        && claims[i].sub == a.sub && claims[j].sub == b.sub
        && (claims[j].at - claims[i].at >= c.ttl || claims[i].at - claims[j].at >= c.ttl)
  {
    RunKeeps(c, now, steps);
    var s := Run(c, Start(now), steps);
    assert AckJustified(c, s.claims, s.published, a) && AckJustified(c, s.claims, s.published, b);
    var i :| 0 <= i < |s.claims| && s.claims[i].sub == a.sub;
    var j :| 0 <= j < |s.claims| && s.claims[j].sub == b.sub;
    assert i < j || j < i;
  }

  lemma RunTwo(c: Config, s: System, x: Step, y: Step)
    ensures Run(c, s, [x, y]) == Next(c, Next(c, s, x), y)
  {
    assert [x, y][..1] == [x] && [x][..0] == [];
    assert Run(c, s, [x]) == Next(c, s, x);
  }

  lemma {:induction false} RunConcat(c: Config, s: System, xs: seq<Step>, ys: seq<Step>)
    ensures Run(c, s, xs + ys) == Run(c, Run(c, s, xs), ys)
  {
    if ys == [] {
      assert xs + ys == xs;
    } else {
      assert (xs + ys)[..|xs + ys| - 1] == xs + ys[..|ys| - 1];
      RunConcat(c, s, xs, ys[..|ys| - 1]);
    }
  }

  lemma BothAdmitted(c: Config, s: System, b: Submission, d: Submission)
    requires 1 in s.running && s.running[1] == Collided(b) && 2 !in s.running && b.key == d.key
    requires Get(s.keys, b.key, s.now) == None
    ensures var t := Run(c, s, [ReadBack(1, Answered), Check(2, d, Answered)]);
      && 1 in t.running && t.running[1] == Admitted(b, false) && 2 in t.running && t.running[2] == Admitted(d, true)
      && t.acks == s.acks && t.now == s.now
  {
    RunTwo(c, s, ReadBack(1, Answered), Check(2, d, Answered));
  }

  lemma BothPublished(c: Config, s: System, b: Submission, d: Submission)
    requires 1 in s.running && s.running[1] == Admitted(b, false) && 2 in s.running && s.running[2] == Admitted(d, true)
    ensures Run(c, s, [Publish(1, Answered), Publish(2, Answered)]).acks ==
            s.acks + [Accepted(b, false, s.now), Accepted(d, true, s.now)]
  {
    RunTwo(c, s, Publish(1, Answered), Publish(2, Answered));
    var t := Next(c, s, Publish(1, Answered));
    assert t.acks == s.acks + [Accepted(b, false, s.now)];
  }

  lemma CollidedAtExpiry(c: Config, key: string, client: string, t0: string, t1: string) returns (s: System)
    requires c.ttl > 0
    ensures s == Run(c, Start(0), [Check(0, Submission(key, client, t0), Answered), Tick(c.ttl - 1)]
                                  + [Check(1, Submission(key, client, t1), Answered), Tick(1)])
    ensures s.now == c.ttl && s.keys == map[key := Stored(t0, c.ttl)] && s.acks == [] && 2 !in s.running
    ensures 1 in s.running && s.running[1] == Collided(Submission(key, client, t1))
  {
    var a, b := Submission(key, client, t0), Submission(key, client, t1);
    var w, x := [Check(0, a, Answered), Tick(c.ttl - 1)], [Check(1, b, Answered), Tick(1)];
    RunTwo(c, Start(0), w[0], w[1]);
    var s1 := Run(c, Start(0), w);
    assert s1.keys == map[key := Stored(t0, c.ttl)] && s1.now == c.ttl - 1 && s1.running == map[0 := Admitted(a, true)];
    RunTwo(c, s1, x[0], x[1]);
    s := Run(c, s1, x);
    RunConcat(c, Start(0), w, x);
  }

  /**
   A key that expires between the SETNX that lost and the read-back admits a submission without a claim,
   so the next one is admitted too: two acceptances of one key at one moment.
   */
  lemma ExpiredReadBackAcceptsTwice(c: Config, key: string, client: string, t0: string, t1: string, t2: string)
    requires c.ttl > 0
    ensures var a, b, d := Submission(key, client, t0), Submission(key, client, t1), Submission(key, client, t2);
      Run(c, Start(0), [Check(0, a, Answered), Tick(c.ttl - 1)] + [Check(1, b, Answered), Tick(1)]
                       + [ReadBack(1, Answered), Check(2, d, Answered)] + [Publish(1, Answered), Publish(2, Answered)]).acks
      == [Accepted(b, false, c.ttl), Accepted(d, true, c.ttl)]
  {
    var b, d := Submission(key, client, t1), Submission(key, client, t2);
    var w := [Check(0, Submission(key, client, t0), Answered), Tick(c.ttl - 1)];
    var x, y := [Check(1, b, Answered), Tick(1)], [ReadBack(1, Answered), Check(2, d, Answered)];
    var s2 := CollidedAtExpiry(c, key, client, t0, t1);
    BothAdmitted(c, s2, b, d);
    BothPublished(c, Run(c, s2, y), b, d);
    RunConcat(c, Start(0), w + x, y);
    RunConcat(c, Start(0), w + x + y, [Publish(1, Answered), Publish(2, Answered)]);
  }

  /** After a failed publish the key stays claimed: the retry is told of a transaction that was never published. */
  lemma FailedPublishBlocksRetry(c: Config, key: string, client: string, t0: string, t1: string, gap: nat)
    requires gap < c.ttl
    ensures var a, b := Submission(key, client, t0), Submission(key, client, t1);
      var s := Run(c, Start(0), [Check(0, a, Answered), Publish(0, Lost)] + [Tick(gap), Check(1, b, Answered)]
                                + [ReadBack(1, Answered), Tick(0)]);
      s.acks == [Failed(a, false), AlreadyExists(b, t0, gap)] && s.published == []
  {
    var a, b := Submission(key, client, t0), Submission(key, client, t1);
    var x, y, z := [Check(0, a, Answered), Publish(0, Lost)], [Tick(gap), Check(1, b, Answered)], [ReadBack(1, Answered), Tick(0)];
    var s0 := Start(0);
    RunTwo(c, s0, x[0], x[1]);
    var s1 := Run(c, s0, x);
    assert s1.keys == map[key := Stored(t0, c.ttl)] && s1.acks == [Failed(a, false)] && 1 !in s1.running;
    RunTwo(c, s1, y[0], y[1]);
    var s2 := Run(c, s1, y);
    assert s2.running[1] == Collided(b) && s2.now == gap;
    RunTwo(c, s2, z[0], z[1]);
    RunConcat(c, s0, x, y);
    RunConcat(c, s0, x + y, z);
  }

  // ---------------------------------------------------------------------------------------
  // The store
  // ---------------------------------------------------------------------------------------

  /** CheckAndSet without interference; the read-back happens at a later moment. */
  function CheckAlone(c: Config, k: Keys, key: string, txn: string, now: int, later: int, wrote: Reply, reread: Reply): (Keys, Verdict) {
    var after := if wrote == Lost then k else SetNx(c, k, key, txn, now);
    if wrote != Answered then (after, OnError(c))
    else if Get(k, key, now) == None then (after, Fresh)
    else if reread != Answered then (after, OnError(c))
    else
      var original := Get(after, key, later);
      (after, if original == None then Fresh else Duplicate(original.value))
  }

  /** A claim answers every later check of the key with its transaction until it expires, and none after that. */
  lemma CheckedTwice(c: Config, k: Keys, key: string, first: string, second: string, now: int, later: int)
    requires c.ttl > 0 && now <= later
    requires CheckAlone(c, k, key, first, now, now, Answered, Answered).1 == Fresh
    ensures var after := CheckAlone(c, k, key, first, now, now, Answered, Answered).0;
      CheckAlone(c, after, key, second, later, later, Answered, Answered).1 ==
      if later < now + c.ttl then Duplicate(first) else Fresh
  {
  }

  class Store {
    const config: Config
    var keys: Keys

    constructor (c: Config)
      ensures config == c && keys == map[]
    {
      config := c;
      keys := map[];
    }

    method CheckAndSet(key: string, txn: string, now: int, later: int, wrote: Reply, reread: Reply) returns (v: Verdict)
      modifies this
      ensures (keys, v) == CheckAlone(config, old(keys), key, txn, now, later, wrote, reread)
    {
      var taken := Get(keys, key, now).Some?;
      if wrote != Lost {
        keys := SetNx(config, keys, key, txn, now);
      }
      if wrote != Answered {
        return OnError(config);
      }
      if !taken {
        return Fresh;
      }
      if reread != Answered {
        return OnError(config);
      }
      var original := Get(keys, key, later);
      if original == None {
        return Fresh;
      }
      return Duplicate(original.value);
    }
  }
}
