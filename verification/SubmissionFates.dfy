/**
 What becomes of the submissions of the idempotency guard, over every interleaving: which duplicates name a
 published transaction, which retries are admitted, and when an acceptance rests on a claim.
 */
module SubmissionFates {
  import opened Common
  import opened Idempotency

  // ---------------------------------------------------------------------------------------
  // The claim in force
  // ---------------------------------------------------------------------------------------

  predicate InForce(c: Config, s: System, i: nat, key: string) {
    i < |s.claims| && s.claims[i].sub.key == key && s.now < s.claims[i].at + c.ttl
  }

  predicate NoneInForce(c: Config, s: System, key: string) {
    forall i :: 0 <= i < |s.claims| ==> !InForce(c, s, i, key)
  }

  /** A key is live exactly while a claim of it is in force, and then it names that claim's transaction. */
  lemma LiveIsInForce(c: Config, s: System, key: string)
    requires ClaimsKept(c, s)
    ensures Get(s.keys, key, s.now) == None <==> NoneInForce(c, s, key)
    ensures forall i :: 0 <= i < |s.claims| && InForce(c, s, i, key) ==> Get(s.keys, key, s.now) == Some(s.claims[i].sub.txn)
  {
    forall i | 0 <= i < |s.claims| && InForce(c, s, i, key) ensures Get(s.keys, key, s.now) == Some(s.claims[i].sub.txn) {
      assert Holds(c, s, s.claims[i]);
    }
    if Get(s.keys, key, s.now).Some? {
      assert KeyClaimed(c, s.claims, key, s.keys[key], s.now);
      var i :| 0 <= i < |s.claims| && s.claims[i].sub.key == key && s.claims[i].sub.txn == s.keys[key].txn
        && s.keys[key].deadline == s.claims[i].at + c.ttl && s.claims[i].at <= s.now;
      assert InForce(c, s, i, key);
    }
  }

  /** One undisturbed submission at a reachable moment. */
  function Submitted(c: Config, s: System, req: nat, sub: Submission): System {
    Next(c, Next(c, s, Check(req, sub, Answered)), ReadBack(req, Answered))
  }

  /**
   At any moment of any run a submission, a retry say, is admitted exactly when no claim of its key is in
   force; otherwise it is told of the transaction of that claim, whichever client made it.
   */
  lemma AdmittedExactly(c: Config, now: int, steps: seq<Step>, req: nat, sub: Submission)
    requires c.ttl > 0 && req !in Run(c, Start(now), steps).running
    ensures var s := Run(c, Start(now), steps); var t := Submitted(c, s, req, sub);
      && (req in t.running && t.running[req] == Admitted(sub, true) <==> NoneInForce(c, s, sub.key))
      && (forall i :: 0 <= i < |s.claims| && InForce(c, s, i, sub.key) ==>
            t.acks == s.acks + [AlreadyExists(sub, s.claims[i].sub.txn, s.now)])
  {
    RunKeeps(c, now, steps);
    LiveIsInForce(c, Run(c, Start(now), steps), sub.key);
  }

  lemma RunOne(c: Config, s: System, x: Step)
    ensures Run(c, s, [x]) == Next(c, s, x)
  {
    assert [x][..0] == [];
  }

  /** Keys are not scoped by client: one client's key answers another client with a transaction that is not its own. */
  lemma KeysSharedByClients(c: Config, key: string, owner: string, other: string, t0: string, t1: string)
    requires c.ttl > 0 && owner != other
    ensures var s := Run(c, Start(0), [Check(0, Submission(key, owner, t0), Answered)]);
      Submitted(c, s, 1, Submission(key, other, t1)).acks == [AlreadyExists(Submission(key, other, t1), t0, 0)]
  {
    var steps := [Check(0, Submission(key, owner, t0), Answered)];
    var s := Run(c, Start(0), steps);
    RunOne(c, Start(0), steps[0]);
    assert InForce(c, s, 0, key);
    AdmittedExactly(c, 0, steps, 1, Submission(key, other, t1));
  }

  // ---------------------------------------------------------------------------------------
  // Fates
  // ---------------------------------------------------------------------------------------

  predicate Published(s: System, sub: Submission) {
    Event(sub.txn, sub.client) in s.published
  }

  /** The submission may still publish. */
  ghost predicate InFlight(s: System, sub: Submission) {
    exists r :: r in s.running && s.running[r].Admitted? && s.running[r].sub == sub
  }

  /** The submission failed without an event on the log. */
  predicate Unsent(s: System, sub: Submission) {
    Failed(sub, false) in s.acks
  }

  ghost predicate HasFate(s: System, sub: Submission) {
    Published(s, sub) || InFlight(s, sub) || Unsent(s, sub)
  }

  lemma FateStays(c: Config, s: System, step: Step, sub: Submission)
    requires HasFate(s, sub)
    ensures HasFate(Next(c, s, step), sub)
  {
    var t := Next(c, s, step);
    assert forall e :: e in s.published ==> e in t.published;
    assert forall a :: a in s.acks ==> a in t.acks;
    if InFlight(s, sub) {
      var r :| r in s.running && s.running[r].Admitted? && s.running[r].sub == sub;
      if step.Publish? && step.req == r {
        if step.reply == Lost {
          assert t.acks[|s.acks|] == Failed(sub, false);
        } else {
          assert t.published[|s.published|] == Event(sub.txn, sub.client);
        }
      } else {
        assert r in t.running && t.running[r] == s.running[r];
      }
    }
  }

  lemma NewClaimHasFate(c: Config, s: System, req: nat, sub: Submission, reply: Reply)
    requires req !in s.running && |CheckStep(c, s, req, sub, reply).claims| > |s.claims|
    ensures CheckStep(c, s, req, sub, reply).claims == s.claims + [Claim(sub, s.now)]
    ensures HasFate(CheckStep(c, s, req, sub, reply), sub)
  {
    var t := CheckStep(c, s, req, sub, reply);
    if reply == Answered || c.allowOnError {
      assert t.running[req].Admitted? && t.running[req].sub == sub;
    } else {
      assert t.acks[|s.acks|] == Failed(sub, false);
    }
  }

  /** Every claimed submission is published, may still be, or failed unsent. */
  lemma {:induction false} ClaimsHaveFates(c: Config, now: int, steps: seq<Step>, i: nat)
    requires i < |Run(c, Start(now), steps).claims|
    ensures HasFate(Run(c, Start(now), steps), Run(c, Start(now), steps).claims[i].sub)
  {
    if steps != [] {
      var init, step := steps[..|steps| - 1], steps[|steps| - 1];
      var s := Run(c, Start(now), init);
      if i < |s.claims| {
        ClaimsHaveFates(c, now, init, i);
        FateStays(c, s, step, s.claims[i].sub);
      } else {
        NewClaimHasFate(c, s, step.req, step.sub, step.reply);
      }
    }
  }

  // ---------------------------------------------------------------------------------------
  // Fresh transaction ids
  // ---------------------------------------------------------------------------------------

  function TxnsOf(steps: seq<Step>): set<string> {
    set x | x in steps && x.Check? :: x.sub.txn
  }

  /** Every submission brings a transaction id of its own. */
  predicate FreshIds(steps: seq<Step>) {
    steps == [] ||
    var init, step := steps[..|steps| - 1], steps[|steps| - 1];
    FreshIds(init) && (step.Check? ==> step.sub.txn !in TxnsOf(init))
  }

  lemma TxnsSnoc(steps: seq<Step>, step: Step)
    ensures TxnsOf(steps + [step]) == TxnsOf(steps) + if step.Check? then {step.sub.txn} else {}
  {
    assert forall x :: x in steps + [step] <==> x in steps || x == step;
  }

  ghost predicate IdsKnown(s: System, used: set<string>) {
    && (forall r :: r in s.running ==> s.running[r].sub.txn in used)
    && (forall e :: e in s.published ==> e.txn in used)
    && (forall a :: a in s.acks ==> a.sub.txn in used)
    && (forall x :: x in s.claims ==> x.sub.txn in used)
  }

  /** A submission that is being handled has been neither published nor answered, nor is it handled twice. */
  ghost predicate HandledOnce(s: System) {
    && (forall q, r :: q in s.running && r in s.running && q != r ==> s.running[q].sub.txn != s.running[r].sub.txn)
    && (forall r, e :: r in s.running && e in s.published ==> e.txn != s.running[r].sub.txn)
    && (forall r, a :: r in s.running && a in s.acks ==> a.sub.txn != s.running[r].sub.txn)
  }

  predicate UnsentUnpublished(s: System) {
    forall a, e :: a in s.acks && e in s.published && a.Failed? && !a.written ==> e.txn != a.sub.txn
  }

  predicate MayClaim(s: System, t: System, sub: Submission) {
    t.published == s.published && (t.claims == s.claims || t.claims == s.claims + [Claim(sub, s.now)])
  }

  lemma EnterKeepsIds(s: System, t: System, req: nat, p: Phase, used: set<string>)
    requires IdsKnown(s, used) && HandledOnce(s) && UnsentUnpublished(s) && req !in s.running && p.sub.txn !in used
    requires MayClaim(s, t, p.sub) && t.running == s.running[req := p] && t.acks == s.acks
    ensures IdsKnown(t, used + {p.sub.txn}) && HandledOnce(t) && UnsentUnpublished(t)
  {
    assert forall x :: x in t.claims ==> x in s.claims || x == Claim(p.sub, s.now);
  }

  lemma RefuseKeepsIds(s: System, t: System, sub: Submission, used: set<string>)
    requires IdsKnown(s, used) && HandledOnce(s) && UnsentUnpublished(s) && sub.txn !in used
    requires MayClaim(s, t, sub) && t.running == s.running && t.acks == s.acks + [Failed(sub, false)]
    ensures IdsKnown(t, used + {sub.txn}) && HandledOnce(t) && UnsentUnpublished(t)
  {
    assert forall x :: x in t.claims ==> x in s.claims || x == Claim(sub, s.now);
    assert forall a :: a in t.acks ==> a in s.acks || a == Failed(sub, false);
  }

  lemma CheckKeepsIds(c: Config, s: System, req: nat, sub: Submission, reply: Reply, used: set<string>)
    requires IdsKnown(s, used) && HandledOnce(s) && UnsentUnpublished(s) && req !in s.running && sub.txn !in used
    ensures var t := CheckStep(c, s, req, sub, reply);
      IdsKnown(t, used + {sub.txn}) && HandledOnce(t) && UnsentUnpublished(t)
  {
    var t := CheckStep(c, s, req, sub, reply);
    if req in t.running {
      EnterKeepsIds(s, t, req, t.running[req], used);
    } else {
      assert t.running == s.running;
      RefuseKeepsIds(s, t, sub, used);
    }
  }

  /** A step of a running submission keeps it running, or ends it with one answer and at most one event of its own. */
  ghost predicate Progress(s: System, t: System, req: nat)
    requires req in s.running
  {
    var sub := s.running[req].sub;
    && t.claims == s.claims
    && ((t.running == s.running[req := Admitted(sub, false)] && t.acks == s.acks && t.published == s.published)
        || (&& t.running == s.running - {req}
            && (exists a :: t.acks == s.acks + [a] && a.sub == sub && (a.Failed? && !a.written ==> t.published == s.published))
            && (t.published == s.published || t.published == s.published + [Event(sub.txn, sub.client)])))
  }

  lemma ProgressKeepsIds(s: System, t: System, req: nat, used: set<string>)
    requires IdsKnown(s, used) && HandledOnce(s) && UnsentUnpublished(s) && req in s.running && Progress(s, t, req)
    ensures IdsKnown(t, used) && HandledOnce(t) && UnsentUnpublished(t)
  {
    var sub := s.running[req].sub;
    if t.running == s.running - {req} {
      var a :| t.acks == s.acks + [a] && a.sub == sub && (a.Failed? && !a.written ==> t.published == s.published);
      assert forall b :: b in t.acks ==> b in s.acks || b == a;
      assert forall e :: e in t.published ==> e in s.published || e == Event(sub.txn, sub.client);
    }
  }

  lemma StepIsProgress(c: Config, s: System, step: Step, req: nat)
    requires req in s.running
    requires (step.ReadBack? && s.running[req].Collided?) || (step.Publish? && s.running[req].Admitted?)
    requires step.req == req
    ensures Progress(s, Next(c, s, step), req)
  {
    var t := Next(c, s, step);
    if t.acks != s.acks {
      var a := t.acks[|s.acks|];
      assert t.acks == s.acks + [a] && a.sub == s.running[req].sub;
    }
  }

  lemma NextKeepsIds(c: Config, s: System, step: Step, used: set<string>)
    requires IdsKnown(s, used) && HandledOnce(s) && UnsentUnpublished(s) && (step.Check? ==> step.sub.txn !in used)
    ensures var t := Next(c, s, step);
      IdsKnown(t, used + if step.Check? then {step.sub.txn} else {}) && HandledOnce(t) && UnsentUnpublished(t)
  {
    match step
    case Tick(_) =>
    case Check(req, sub, reply) =>
      if req !in s.running {
        CheckKeepsIds(c, s, req, sub, reply, used);
      }
    case ReadBack(req, _) =>
      if req in s.running && s.running[req].Collided? {
        StepIsProgress(c, s, step, req);
        ProgressKeepsIds(s, Next(c, s, step), req, used);
      }
    case Publish(req, _) =>
      if req in s.running && s.running[req].Admitted? {
        StepIsProgress(c, s, step, req);
        ProgressKeepsIds(s, Next(c, s, step), req, used);
      }
  }

  lemma {:induction false} RunKeepsIds(c: Config, now: int, steps: seq<Step>)
    requires FreshIds(steps)
    ensures var s := Run(c, Start(now), steps); IdsKnown(s, TxnsOf(steps)) && HandledOnce(s) && UnsentUnpublished(s)
  {
    if steps != [] {
      var init, step := steps[..|steps| - 1], steps[|steps| - 1];
      RunKeepsIds(c, now, init);
      assert steps == init + [step];
      TxnsSnoc(init, step);
      NextKeepsIds(c, Run(c, Start(now), init), step, TxnsOf(init));
    }
  }

  /** A claimed submission is on the log exactly when it is no longer in flight and did not fail unsent. */
  lemma ClaimPublishedExactly(c: Config, now: int, steps: seq<Step>, i: nat)
    requires FreshIds(steps) && i < |Run(c, Start(now), steps).claims|
    ensures var s := Run(c, Start(now), steps); var sub := s.claims[i].sub;
      Published(s, sub) <==> !InFlight(s, sub) && !Unsent(s, sub)
  {
    ClaimsHaveFates(c, now, steps, i);
    RunKeepsIds(c, now, steps);
  }

  /**
   A duplicate names the transaction of a claim in force when it was answered, and that transaction is on the
   log exactly when the submission that made the claim is no longer in flight and did not fail unsent.
   */
  lemma DuplicateNamesPublishedExactly(c: Config, now: int, steps: seq<Step>, a: Ack) returns (i: nat)
    requires c.ttl > 0 && FreshIds(steps) && a in Run(c, Start(now), steps).acks && a.AlreadyExists?
    ensures var s := Run(c, Start(now), steps);
      && i < |s.claims| && s.claims[i].sub.key == a.sub.key && s.claims[i].sub.txn == a.original
      && s.claims[i].at <= a.at < s.claims[i].at + c.ttl
      && (Published(s, s.claims[i].sub) <==> !InFlight(s, s.claims[i].sub) && !Unsent(s, s.claims[i].sub))
  {
    DuplicatesNameClaims(c, now, steps, a);
    var claims := Run(c, Start(now), steps).claims;
    i :| 0 <= i < |claims| && claims[i].sub.key == a.sub.key && claims[i].sub.txn == a.original
      && claims[i].at <= a.at < claims[i].at + c.ttl;
    ClaimPublishedExactly(c, now, steps, i);
  }

  /** No failure is needed: a duplicate of a submission that is still in flight names nothing on the log. */
  lemma DuplicateOfOneInFlight(c: Config, key: string, client: string, t0: string, t1: string)
    requires c.ttl > 0
    ensures var a, b := Submission(key, client, t0), Submission(key, client, t1);
      var s := Submitted(c, Run(c, Start(0), [Check(0, a, Answered)]), 1, b);
      s.acks == [AlreadyExists(b, t0, 0)] && s.published == [] && InFlight(s, a)
  {
    var a, b, steps := Submission(key, client, t0), Submission(key, client, t1), [Check(0, Submission(key, client, t0), Answered)];
    var s0 := Run(c, Start(0), steps);
    RunOne(c, Start(0), steps[0]);
    assert InForce(c, s0, 0, key);
    AdmittedExactly(c, 0, steps, 1, b);
    var s := Submitted(c, s0, 1, b);
    assert 0 in s.running && s.running[0] == Admitted(a, true);
  }

  // ---------------------------------------------------------------------------------------
  // Acceptances without a claim
  // ---------------------------------------------------------------------------------------

  /** A submission that lost the SETNX reads the key, and is answered, when no claim of it is in force any more. */
  predicate LateReadBack(c: Config, s: System, step: Step) {
    && step.ReadBack? && step.reply == Answered
    && step.req in s.running && s.running[step.req].Collided? && NoneInForce(c, s, s.running[step.req].sub.key)
  }

  /**
   Where store errors are waved through: a GET goes unanswered, or a SETNX does that did not create the key, being
   lost or finding a claim in force.
   */
  predicate WavedThrough(c: Config, s: System, step: Step) {
    && c.allowOnError
    && match step
       case ReadBack(req, reply) => reply != Answered && req in s.running && s.running[req].Collided?
       case Check(req, sub, reply) => req !in s.running && (reply == Lost || (reply == Unanswered && !NoneInForce(c, s, sub.key)))
       case _ => false
  }

  /** The step admits a submission that has made no claim. */
  predicate Bypasses(c: Config, s: System, step: Step) {
    LateReadBack(c, s, step) || WavedThrough(c, s, step)
  }

  predicate BypassedAt(c: Config, now: int, steps: seq<Step>, i: nat) {
    i < |steps| && Bypasses(c, Run(c, Start(now), steps[..i]), steps[i])
  }

  predicate NeverBypassed(c: Config, now: int, steps: seq<Step>) {
    forall i :: 0 <= i < |steps| ==> !BypassedAt(c, now, steps, i)
  }

  /** A collided submission is admitted without a claim exactly when its read-back is late. */
  lemma UnclaimedExactly(c: Config, now: int, steps: seq<Step>, req: nat)
    requires c.ttl > 0 && req in Run(c, Start(now), steps).running && Run(c, Start(now), steps).running[req].Collided?
    ensures var s := Run(c, Start(now), steps);
      var t := Next(c, s, ReadBack(req, Answered));
      req in t.running && t.running[req] == Admitted(s.running[req].sub, false) <==> LateReadBack(c, s, ReadBack(req, Answered))
  {
    RunKeeps(c, now, steps);
    var s := Run(c, Start(now), steps);
    LiveIsInForce(c, s, s.running[req].sub.key);
  }

  lemma NeverBypassedBefore(c: Config, now: int, steps: seq<Step>)
    requires steps != [] && NeverBypassed(c, now, steps)
    ensures NeverBypassed(c, now, steps[..|steps| - 1])
    ensures !Bypasses(c, Run(c, Start(now), steps[..|steps| - 1]), steps[|steps| - 1])
  {
    var init := steps[..|steps| - 1];
    forall i | 0 <= i < |init| ensures !BypassedAt(c, now, init, i) {
      assert init[..i] == steps[..i] && !BypassedAt(c, now, steps, i);
    }
    assert !BypassedAt(c, now, steps, |steps| - 1);
  }

  /** Whoever may publish made a claim. */
  ghost predicate AdmittedClaimed(s: System) {
    forall r :: r in s.running && s.running[r].Admitted? ==> SubClaimed(s.claims, s.running[r].sub)
  }

  /** And so did whoever has been accepted. */
  ghost predicate AllClaimed(s: System) {
    && AdmittedClaimed(s)
    && (forall a :: a in s.acks && a.Accepted? ==> SubClaimed(s.claims, a.sub))
  }

  lemma ClaimedStays(s: System, t: System)
    requires AllClaimed(s) && s.claims <= t.claims
    ensures forall r :: r in s.running && s.running[r].Admitted? ==> SubClaimed(t.claims, s.running[r].sub)
    ensures forall a :: a in s.acks && a.Accepted? ==> SubClaimed(t.claims, a.sub)
  {
    forall r | r in s.running && s.running[r].Admitted? ensures SubClaimed(t.claims, s.running[r].sub) {
      SubClaimedGrows(s.claims, t.claims, s.running[r].sub);
    }
    forall a | a in s.acks && a.Accepted? ensures SubClaimed(t.claims, a.sub) {
      SubClaimedGrows(s.claims, t.claims, a.sub);
    }
  }

  lemma CheckClaims(c: Config, s: System, req: nat, sub: Submission, reply: Reply)
    requires ClaimsKept(c, s) && req !in s.running && !WavedThrough(c, s, Check(req, sub, reply))
    ensures var t := CheckStep(c, s, req, sub, reply);
      s.claims <= t.claims && (req in t.running && t.running[req].Admitted? ==> SubClaimed(t.claims, sub))
  {
    LiveIsInForce(c, s, sub.key);
    var t := CheckStep(c, s, req, sub, reply);
    if req in t.running && t.running[req].Admitted? {
      assert t.claims[|s.claims|] == Claim(sub, s.now);
    }
  }

  lemma NextKeepsClaimed(c: Config, s: System, step: Step)
    requires ClaimsKept(c, s) && AllClaimed(s) && !Bypasses(c, s, step)
    ensures AllClaimed(Next(c, s, step))
  {
    var t := Next(c, s, step);
    match step
    case Tick(_) =>
    case Check(req, sub, reply) =>
      if req !in s.running {
        CheckClaims(c, s, req, sub, reply);
        ClaimedStays(s, t);
      }
    case ReadBack(req, _) =>
      if req in s.running {
        LiveIsInForce(c, s, s.running[req].sub.key);
      }
    case Publish(req, _) =>
      assert t.claims == s.claims;
  }

  lemma {:induction false} NeverBypassedAllClaimed(c: Config, now: int, steps: seq<Step>)
    requires c.ttl > 0 && NeverBypassed(c, now, steps)
    ensures AllClaimed(Run(c, Start(now), steps))
  {
    if steps != [] {
      var init := steps[..|steps| - 1];
      NeverBypassedBefore(c, now, steps);
      NeverBypassedAllClaimed(c, now, init);
      RunKeeps(c, now, init);
      NextKeepsClaimed(c, Run(c, Start(now), init), steps[|steps| - 1]);
    }
  }

  /** A submission that lost the SETNX has made no claim. */
  ghost predicate CollidedUnclaimed(s: System) {
    forall r, x :: r in s.running && x in s.claims && s.running[r].Collided? ==> x.sub.txn != s.running[r].sub.txn
  }

  lemma NextKeepsCollided(c: Config, s: System, step: Step, used: set<string>)
    requires IdsKnown(s, used) && CollidedUnclaimed(s) && (step.Check? ==> step.sub.txn !in used)
    ensures CollidedUnclaimed(Next(c, s, step))
  {
    var t := Next(c, s, step);
    if step.Check? && step.req !in s.running {
      assert forall x :: x in t.claims ==> x in s.claims || x == Claim(step.sub, s.now);
    } else {
      assert t.claims == s.claims;
    }
  }

  lemma {:induction false} RunKeepsCollided(c: Config, now: int, steps: seq<Step>)
    requires FreshIds(steps)
    ensures CollidedUnclaimed(Run(c, Start(now), steps))
  {
    if steps != [] {
      var init := steps[..|steps| - 1];
      RunKeepsCollided(c, now, init);
      RunKeepsIds(c, now, init);
      NextKeepsCollided(c, Run(c, Start(now), init), steps[|steps| - 1], TxnsOf(init));
    }
  }

  /** The submission a step is about. */
  function SubOf(s: System, step: Step): Option<Submission> {
    match step
    case Check(_, sub, _) => Some(sub)
    case ReadBack(req, _) => if req in s.running then Some(s.running[req].sub) else None
    case _ => None
  }

  predicate NoClaimOf(s: System, sub: Submission) {
    forall x :: x in s.claims ==> x.sub.txn != sub.txn
  }

  ghost predicate WasAccepted(s: System, sub: Submission) {
    exists a :: a in s.acks && a.Accepted? && a.sub == sub
  }

  /** A step that bypasses the claims admits its submission, which has made none. */
  lemma BypassAdmits(c: Config, s: System, step: Step, used: set<string>)
    requires ClaimsKept(c, s) && IdsKnown(s, used) && CollidedUnclaimed(s) && (step.Check? ==> step.sub.txn !in used)
    requires Bypasses(c, s, step)
    ensures var t := Next(c, s, step);
      SubOf(s, step).Some? && InFlight(t, SubOf(s, step).value) && NoClaimOf(t, SubOf(s, step).value)
  {
    var t, sub := Next(c, s, step), SubOf(s, step).value;
    LiveIsInForce(c, s, sub.key);
    assert step.req in t.running && t.running[step.req] == Admitted(sub, false);
    assert t.claims == s.claims;
  }

  lemma NoClaimStays(c: Config, s: System, step: Step, sub: Submission, used: set<string>)
    requires NoClaimOf(s, sub) && sub.txn in used && (step.Check? ==> step.sub.txn !in used)
    ensures NoClaimOf(Next(c, s, step), sub)
  {
    if step.Check? {
      assert forall x :: x in Next(c, s, step).claims ==> x in s.claims || x == Claim(step.sub, s.now);
    }
  }

  /** The log answers every publish. */
  predicate PublishesAnswered(steps: seq<Step>) {
    forall i :: 0 <= i < |steps| && steps[i].Publish? ==> steps[i].reply == Answered
  }

  lemma AcceptedStays(c: Config, s: System, step: Step, sub: Submission)
    requires (InFlight(s, sub) || WasAccepted(s, sub)) && (step.Publish? ==> step.reply == Answered)
    ensures InFlight(Next(c, s, step), sub) || WasAccepted(Next(c, s, step), sub)
  {
    var t := Next(c, s, step);
    assert forall a :: a in s.acks ==> a in t.acks;
    if r :| r in s.running && s.running[r].Admitted? && s.running[r].sub == sub {
      if step.Publish? && step.req == r {
        var a := Accepted(sub, s.running[r].claimed, s.now);
        assert t.acks[|s.acks|] == a;
        assert a in t.acks && a.Accepted? && a.sub == sub;
      } else {
        assert r in t.running && t.running[r] == s.running[r];
      }
    }
  }

  /** What a bypass leaves behind: a submission without a claim that was admitted, and accepted if its publish was. */
  lemma {:induction false} BypassLeaves(c: Config, now: int, steps: seq<Step>, i: nat) returns (sub: Submission)
    requires c.ttl > 0 && FreshIds(steps) && BypassedAt(c, now, steps, i)
    ensures var u := Run(c, Start(now), steps[..i + 1]); InFlight(u, sub) && NoClaimOf(u, sub)
    ensures var t := Run(c, Start(now), steps);
      NoClaimOf(t, sub) && sub.txn in TxnsOf(steps) && (PublishesAnswered(steps) ==> InFlight(t, sub) || WasAccepted(t, sub))
  {
    var init, step := steps[..|steps| - 1], steps[|steps| - 1];
    var s := Run(c, Start(now), init);
    assert steps == init + [step];
    TxnsSnoc(init, step);
    RunKeepsIds(c, now, init);
    if i == |init| {
      RunKeeps(c, now, init);
      RunKeepsCollided(c, now, init);
      BypassAdmits(c, s, step, TxnsOf(init));
      sub := SubOf(s, step).value;
      assert steps[..i] == init && steps[..i + 1] == steps;
    } else {
      assert init[..i] == steps[..i] && init[..i + 1] == steps[..i + 1];
      sub := BypassLeaves(c, now, init, i);
      NoClaimStays(c, s, step, sub, TxnsOf(init));
      if PublishesAnswered(steps) {
        assert PublishesAnswered(init);
        AcceptedStays(c, s, step, sub);
      }
    }
  }

  /** At every moment of the run, whoever may publish made a claim. */
  ghost predicate AdmissionsClaimed(c: Config, now: int, steps: seq<Step>) {
    forall i :: 0 <= i <= |steps| ==> AdmittedClaimed(Run(c, Start(now), steps[..i]))
  }

  lemma PrefixNeverBypassed(c: Config, now: int, steps: seq<Step>, i: nat)
    requires i <= |steps| && NeverBypassed(c, now, steps)
    ensures NeverBypassed(c, now, steps[..i])
  {
    forall j | 0 <= j < i ensures !BypassedAt(c, now, steps[..i], j) {
      assert steps[..i][..j] == steps[..j] && !BypassedAt(c, now, steps, j);
    }
  }

  /**
   On every run, whatever is lost or unanswered: every submission that is ever admitted has made a claim, exactly
   when no read-back was late and no store error was waved through.
   */
  lemma AdmissionsClaimedExactly(c: Config, now: int, steps: seq<Step>)
    requires c.ttl > 0 && FreshIds(steps)
    ensures AdmissionsClaimed(c, now, steps) <==> NeverBypassed(c, now, steps)
  {
    if NeverBypassed(c, now, steps) {
      forall i | 0 <= i <= |steps| ensures AllClaimed(Run(c, Start(now), steps[..i])) {
        PrefixNeverBypassed(c, now, steps, i);
        NeverBypassedAllClaimed(c, now, steps[..i]);
      }
    } else {
      var i :| 0 <= i < |steps| && BypassedAt(c, now, steps, i);
      var sub := BypassLeaves(c, now, steps, i);
      var u := Run(c, Start(now), steps[..i + 1]);
      var r :| r in u.running && u.running[r].Admitted? && u.running[r].sub == sub;
      assert !SubClaimed(u.claims, sub);
      assert !AdmittedClaimed(u);
    }
  }

  /**
   Once every submission has been answered, and the log answered every publish: each acceptance rests on a claim of
   its own, exactly when no read-back was late and no store error was waved through.
   */
  lemma AcceptancesClaimedExactly(c: Config, now: int, steps: seq<Step>)
    requires c.ttl > 0 && FreshIds(steps) && PublishesAnswered(steps) && Run(c, Start(now), steps).running == map[]
    ensures var s := Run(c, Start(now), steps);
      (forall a :: a in s.acks && a.Accepted? ==> SubClaimed(s.claims, a.sub)) <==> NeverBypassed(c, now, steps)
  {
    var s := Run(c, Start(now), steps);
    if NeverBypassed(c, now, steps) {
      NeverBypassedAllClaimed(c, now, steps);
    } else {
      var i :| 0 <= i < |steps| && BypassedAt(c, now, steps, i);
      var sub := BypassLeaves(c, now, steps, i);
      var a :| a in s.acks && a.Accepted? && a.sub == sub;
      assert !SubClaimed(s.claims, a.sub);
    }
  }

  /** So on every run without one of the two, two acceptances of one key rest on claims a TTL apart. */
  lemma AcceptancesApart(c: Config, now: int, steps: seq<Step>, a: Ack, b: Ack)
    requires c.ttl > 0 && NeverBypassed(c, now, steps)
    requires a in Run(c, Start(now), steps).acks && b in Run(c, Start(now), steps).acks
    requires a.Accepted? && b.Accepted? && a.sub.key == b.sub.key && a.sub.txn != b.sub.txn
    ensures var claims := Run(c, Start(now), steps).claims;
      exists i, j :: 0 <= i < |claims| && 0 <= j < |claims| && claims[i].sub == a.sub && claims[j].sub == b.sub
        && (claims[j].at - claims[i].at >= c.ttl || claims[i].at - claims[j].at >= c.ttl)
  {
    NeverBypassedAllClaimed(c, now, steps);
    var claims := Run(c, Start(now), steps).claims;
    assert SubClaimed(claims, a.sub) && SubClaimed(claims, b.sub);
    var i :| 0 <= i < |claims| && claims[i].sub == a.sub;
    var j :| 0 <= j < |claims| && claims[j].sub == b.sub;
    ClaimsApart(c, now, steps, i, j);
    ClaimsApart(c, now, steps, j, i);
    assert claims[j].at - claims[i].at >= c.ttl || claims[i].at - claims[j].at >= c.ttl;
  }

  /** Where store errors are waved through, one lost SETNX is enough to accept a key twice at one moment. */
  lemma LostCheckAcceptsTwice(c: Config, key: string, client: string, t0: string, t1: string)
    requires c.allowOnError && c.ttl > 0
    ensures var a, b := Submission(key, client, t0), Submission(key, client, t1);
      Run(c, Start(0), [Check(0, a, Answered), Publish(0, Answered)] + [Check(1, b, Lost), Publish(1, Answered)]).acks
      == [Accepted(a, true, 0), Accepted(b, false, 0)]
  {
    var a, b := Submission(key, client, t0), Submission(key, client, t1);
    var xs, ys := [Check(0, a, Answered), Publish(0, Answered)], [Check(1, b, Lost), Publish(1, Answered)];
    RunTwo(c, Start(0), xs[0], xs[1]);
    var s := Run(c, Start(0), xs);
    assert s.running == map[] && s.acks == [Accepted(a, true, 0)];
    RunTwo(c, s, ys[0], ys[1]);
    RunConcat(c, Start(0), xs, ys);
  }
}
