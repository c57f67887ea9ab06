/**
 Per-card velocity metrics: pruned sorted sets, a companion hash that is never pruned, and
 distinct-count buckets, compared with sliding windows over the full history of calls.
 Times are milliseconds since the epoch; HyperLogLogs are idealised as exact sets.
 */
module Velocity {
  import opened Common

  datatype Call = Call(at: int, card: string, txn: string, merchant: string, terminal: string, amount: int)

  datatype Rule = Rule(windowMs: int, ttlMs: int)

  const MINUTE := 60 * 1000
  const BUCKET_MS := 5 * MINUTE
  const BUCKET_TTL := 10 * MINUTE
  const COUNT_RULES := [Rule(MINUTE, 2 * MINUTE), Rule(5 * MINUTE, 10 * MINUTE), Rule(60 * MINUTE, 120 * MINUTE)]
  const AMOUNT_RULES := [Rule(MINUTE, 2 * MINUTE), Rule(60 * MINUTE, 120 * MINUTE)]

  /** The key families; the number is the position of the rule in its list. */
  datatype Key =
    | CountKey(rule: nat, card: string)
    | ScoreKey(rule: nat, card: string)
    | AmountKey(rule: nat, card: string)
    | MerchantKey(card: string, bucket: int)
    | TerminalKey(card: string, bucket: int)

  datatype Timed<V> = Timed(value: V, deadline: int)

  type Scores = map<string, int>

  datatype Db = Db(zsets: map<Key, Timed<Scores>>, hashes: map<Key, Timed<map<string, int>>>, logs: map<Key, Timed<set<string>>>)

  datatype Result = Result(
    txnCount1Min: int, txnCount5Min: int, txnCount1Hr: int, amountSum1Min: int, amountSum1Hr: int,
    uniqueMerchants5Min: int, uniqueTerminals5Min: int)

  function Read<V>(m: map<Key, Timed<V>>, k: Key, now: int, none: V): V {
    if k in m && now < m[k].deadline then m[k].value else none
  }

  // ---------------------------------------------------------------------------------------
  // The commands of one call
  // ---------------------------------------------------------------------------------------

  function Prune(z: Scores, cutoff: int): Scores {
    map t | t in z && z[t] > cutoff :: z[t]
  }

  /** ZREMRANGEBYSCORE -inf cutoff, then ZADD. */
  function PruneAndAdd(z: Scores, cutoff: int, member: string, score: int): Scores {
    Prune(z, cutoff)[member := score]
  }

  function Slid(z: map<Key, Timed<Scores>>, k: Key, r: Rule, c: Call): Scores {
    PruneAndAdd(Read(z, k, c.at, map[]), c.at - r.windowMs, c.txn, c.at)
  }

  /** Prunes, adds and renews one sorted set. */
  function Slide(z: map<Key, Timed<Scores>>, k: Key, r: Rule, c: Call): map<Key, Timed<Scores>> {
    z[k := Timed(Slid(z, k, r, c), c.at + r.ttlMs)]
  }

  function WriteCounts(z: map<Key, Timed<Scores>>, c: Call, n: nat): map<Key, Timed<Scores>>
    requires n <= |COUNT_RULES|
  {
    if n == 0 then z else Slide(WriteCounts(z, c, n - 1), CountKey(n - 1, c.card), COUNT_RULES[n - 1], c)
  }

  function WriteScores(z: map<Key, Timed<Scores>>, c: Call, n: nat): map<Key, Timed<Scores>>
    requires n <= |AMOUNT_RULES|
  {
    if n == 0 then z else Slide(WriteScores(z, c, n - 1), ScoreKey(n - 1, c.card), AMOUNT_RULES[n - 1], c)
  }

  function WriteAmounts(h: map<Key, Timed<map<string, int>>>, c: Call, n: nat): map<Key, Timed<map<string, int>>>
    requires n <= |AMOUNT_RULES|
  {
    if n == 0 then h
    else
      var before, k := WriteAmounts(h, c, n - 1), AmountKey(n - 1, c.card);
      before[k := Timed(Read(before, k, c.at, map[])[c.txn := c.amount], c.at + AMOUNT_RULES[n - 1].ttlMs)]
  }

  function Bucket(at: int): int {
    at / BUCKET_MS
  }

  function Note(m: map<Key, Timed<set<string>>>, k: Key, at: int, value: string): map<Key, Timed<set<string>>> {
    m[k := Timed(Read(m, k, at, {}) + {value}, at + BUCKET_TTL)]
  }

  function NoteBoth(m: map<Key, Timed<set<string>>>, c: Call): map<Key, Timed<set<string>>> {
    Note(Note(m, MerchantKey(c.card, Bucket(c.at)), c.at, c.merchant),
         TerminalKey(c.card, Bucket(c.at)), c.at, c.terminal)
  }

  function Write(db: Db, c: Call): Db {
    Db(WriteScores(WriteCounts(db.zsets, c, |COUNT_RULES|), c, |AMOUNT_RULES|),
       WriteAmounts(db.hashes, c, |AMOUNT_RULES|),
       NoteBoth(db.logs, c))
  }

  /** ZRANGEBYSCORE from +inf, inclusive. */
  function Members(z: Scores, from: int): set<string> {
    set t | t in z && z[t] >= from
  }

  ghost function Sum(s: set<string>, amounts: map<string, int>): int {
    if s == {} then 0
    else
      var t :| t in s;
      (if t in amounts then amounts[t] else 0) + Sum(s - {t}, amounts)
  }

  lemma {:induction false} SumSplit(s: set<string>, amounts: map<string, int>, t: string)
    requires t in s
    ensures Sum(s, amounts) == (if t in amounts then amounts[t] else 0) + Sum(s - {t}, amounts)
  {
    var u :| u in s && Sum(s, amounts) == (if u in amounts then amounts[u] else 0) + Sum(s - {u}, amounts);
    if u != t {
      SumSplit(s - {u}, amounts, t);
      SumSplit(s - {t}, amounts, u);
      assert s - {u} - {t} == s - {t} - {u};
    }
  }

  function Counted(db: Db, c: Call, rule: nat): set<string>
    requires rule < |COUNT_RULES|
  {
    Members(Read(db.zsets, CountKey(rule, c.card), c.at, map[]), c.at - COUNT_RULES[rule].windowMs)
  }

  function Summed(db: Db, c: Call, rule: nat): set<string>
    requires rule < |AMOUNT_RULES|
  {
    Members(Read(db.zsets, ScoreKey(rule, c.card), c.at, map[]), c.at - AMOUNT_RULES[rule].windowMs)
  }

  ghost function AmountSum(db: Db, c: Call, rule: nat): int
    requires rule < |AMOUNT_RULES|
  {
    Sum(Summed(db, c, rule), Read(db.hashes, AmountKey(rule, c.card), c.at, map[]))
  }

  /** The read phase after the call's writes. */
  ghost function Report(db: Db, c: Call): Result {
    Result(|Counted(db, c, 0)|, |Counted(db, c, 1)|, |Counted(db, c, 2)|, AmountSum(db, c, 0), AmountSum(db, c, 1),
           |Read(db.logs, MerchantKey(c.card, Bucket(c.at)), c.at, {})|,
           |Read(db.logs, TerminalKey(c.card, Bucket(c.at)), c.at, {})|)
  }

  // ---------------------------------------------------------------------------------------
  // Sliding windows over the full history
  // ---------------------------------------------------------------------------------------

  type History = seq<Call>

  predicate NoneAfter(h: History, now: int) {
    forall c :: c in h ==> c.at <= now
  }

  /** Calls arrive in time order, after the epoch. */
  predicate Ordered(h: History) {
    h == [] ||
    var init, c := h[..|h| - 1], h[|h| - 1];
    Ordered(init) && NoneAfter(init, c.at) && c.at >= 0
  }

  function Replay(h: History): Db {
    if h == [] then Db(map[], map[], map[]) else Write(Replay(h[..|h| - 1]), h[|h| - 1])
  }

  /** The latest call that recorded the transaction for the card. */
  function LastRecord(h: History, card: string, txn: string): (r: Option<Call>)
    ensures r.Some? ==> r.value in h && r.value.card == card && r.value.txn == txn
  {
    if h == [] then None
    else if h[|h| - 1].card == card && h[|h| - 1].txn == txn then Some(h[|h| - 1])
    else LastRecord(h[..|h| - 1], card, txn)
  }

  /** The transactions ever recorded for the card. */
  function Txns(h: History, card: string): set<string> {
    set c | c in h && c.card == card :: c.txn
  }

  predicate Within(h: History, card: string, txn: string, after: int) {
    var r := LastRecord(h, card, txn);
    r.Some? && r.value.at > after
  }

  /** The transactions of the card whose latest record lies in (now - window, now]. */
  function LiveIds(h: History, card: string, window: int, now: int): set<string> {
    set t | t in Txns(h, card) && Within(h, card, t, now - window)
  }

  /** The amount last recorded for each of them. */
  function LastAmounts(h: History, card: string): map<string, int> {
    map t | t in Txns(h, card) && LastRecord(h, card, t).Some? :: LastRecord(h, card, t).value.amount
  }

  /** What was seen in a bucket of five minutes. */
  function Merchants(h: History, card: string, bucket: int): set<string> {
    set c | c in h && c.card == card && c.at / 300_000 == bucket :: c.merchant
  }

  function Terminals(h: History, card: string, bucket: int): set<string> {
    set c | c in h && c.card == card && c.at / 300_000 == bucket :: c.terminal
  }

  /** What the metrics are meant to be at the last call of h. */
  ghost function Intended(h: History): Result
    requires h != []
  {
    var c := h[|h| - 1];
    Result(
      |LiveIds(h, c.card, 60_000, c.at)|, |LiveIds(h, c.card, 300_000, c.at)|, |LiveIds(h, c.card, 3_600_000, c.at)|,
      Sum(LiveIds(h, c.card, 60_000, c.at), LastAmounts(h, c.card)),
      Sum(LiveIds(h, c.card, 3_600_000, c.at), LastAmounts(h, c.card)),
      |Merchants(h, c.card, Bucket(c.at))|, |Terminals(h, c.card, Bucket(c.at))|)
  }

  // ---------------------------------------------------------------------------------------
  // One structure at a time
  // ---------------------------------------------------------------------------------------

  lemma TxnsSnoc(h: History, c: Call, card: string)
    ensures Txns(h + [c], card) == Txns(h, card) + if c.card == card then {c.txn} else {}
  {
    assert forall d :: d in h + [c] <==> d in h || d == c;
  }

  lemma LastRecordSnoc(h: History, c: Call, card: string)
    ensures forall t :: LastRecord(h + [c], card, t) ==
                        if c.card == card && c.txn == t then Some(c) else LastRecord(h, card, t)
  {
    assert (h + [c])[..|h|] == h;
  }

  /** The latest call of the card. */
  function LastCall(h: History, card: string): (r: Option<Call>)
    ensures r.Some? ==> r.value in h && r.value.card == card
    ensures r.None? ==> forall c :: c in h ==> c.card != card
  {
    if h == [] then None
    else if h[|h| - 1].card == card then Some(h[|h| - 1])
    else
      assert h == h[..|h| - 1] + [h[|h| - 1]];
      LastCall(h[..|h| - 1], card)
  }

  lemma {:induction false} LastCallIsLatest(h: History, card: string)
    requires Ordered(h)
    ensures forall c :: c in h && c.card == card ==> c.at <= LastCall(h, card).value.at
  {
    if h != [] {
      LastCallIsLatest(h[..|h| - 1], card);
      assert h == h[..|h| - 1] + [h[|h| - 1]];
    }
  }

  lemma {:induction false} EveryTxnHasARecord(h: History, card: string)
    ensures forall t :: t in Txns(h, card) <==> LastRecord(h, card, t).Some?
  {
    if h != [] {
      EveryTxnHasARecord(h[..|h| - 1], card);
      assert h == h[..|h| - 1] + [h[|h| - 1]];
      TxnsSnoc(h[..|h| - 1], h[|h| - 1], card);
      LastRecordSnoc(h[..|h| - 1], h[|h| - 1], card);
    }
  }

  /** z holds exactly the live transactions of the card, each with its latest time. */
  ghost predicate IsWindow(z: Scores, h: History, card: string, window: int, now: int) {
    && (forall t :: t in z <==> Within(h, card, t, now - window))
    && (forall t :: t in z ==> z[t] == LastRecord(h, card, t).value.at)
  }

  /** The sorted set under k is the window as of the card's last call, and is kept for its TTL. */
  ghost predicate ZSetTracks(z: map<Key, Timed<Scores>>, k: Key, r: Rule, h: History, card: string) {
    match LastCall(h, card)
    case None => k !in z
    case Some(last) =>
      && k in z && z[k].deadline == last.at + r.ttlMs
      && IsWindow(z[k].value, h, card, r.windowMs, last.at)
  }

  /** Expiry drops only dead entries, pruning loses no live one, and the call's own entry is renewed. */
  lemma SlidEntry(z: map<Key, Timed<Scores>>, k: Key, r: Rule, h: History, c: Call, t: string)
    requires ZSetTracks(z, k, r, h, c.card) && Ordered(h) && NoneAfter(h, c.at) && 0 < r.windowMs <= r.ttlMs
    ensures var v := Slid(z, k, r, c);
      && (t in v <==> Within(h + [c], c.card, t, c.at - r.windowMs))
      && (t in v ==> v[t] == LastRecord(h + [c], c.card, t).value.at)
  {
    assert (h + [c])[..|h|] == h;
    LastCallIsLatest(h, c.card);
  }

  lemma SlidWindow(z: map<Key, Timed<Scores>>, k: Key, r: Rule, h: History, c: Call)
    requires ZSetTracks(z, k, r, h, c.card) && Ordered(h) && NoneAfter(h, c.at) && 0 < r.windowMs <= r.ttlMs
    ensures IsWindow(Slid(z, k, r, c), h + [c], c.card, r.windowMs, c.at)
  {
    forall t
      ensures t in Slid(z, k, r, c) <==> Within(h + [c], c.card, t, c.at - r.windowMs)
      ensures t in Slid(z, k, r, c) ==> Slid(z, k, r, c)[t] == LastRecord(h + [c], c.card, t).value.at
    {
      SlidEntry(z, k, r, h, c, t);
    }
  }

  lemma LastCallSnoc(h: History, c: Call, card: string)
    ensures LastCall(h + [c], card) == if c.card == card then Some(c) else LastCall(h, card)
  {
    assert (h + [c])[..|h|] == h;
  }

  lemma SlideTracks(z: map<Key, Timed<Scores>>, k: Key, r: Rule, h: History, c: Call)
    requires ZSetTracks(z, k, r, h, c.card) && Ordered(h) && NoneAfter(h, c.at) && 0 < r.windowMs <= r.ttlMs
    ensures ZSetTracks(Slide(z, k, r, c), k, r, h + [c], c.card)
  {
    SlidWindow(z, k, r, h, c);
    LastCallSnoc(h, c, c.card);
  }

  predicate SameAt<V(==)>(a: map<Key, V>, b: map<Key, V>, k: Key) {
    (k in a <==> k in b) && (k in a ==> a[k] == b[k])
  }

  /** A call slides its own card's sets and leaves every other key alone. */
  lemma {:induction false} WriteCountsAt(z: map<Key, Timed<Scores>>, c: Call, n: nat, k: Key)
    requires n <= |COUNT_RULES|
    ensures SameAt(WriteCounts(z, c, n),
                   if k.CountKey? && k.card == c.card && k.rule < n then Slide(z, k, COUNT_RULES[k.rule], c) else z, k)
  {
    if n > 0 {
      WriteCountsAt(z, c, n - 1, k);
    }
  }

  lemma {:induction false} WriteScoresAt(z: map<Key, Timed<Scores>>, c: Call, n: nat, k: Key)
    requires n <= |AMOUNT_RULES|
    ensures SameAt(WriteScores(z, c, n),
                   if k.ScoreKey? && k.card == c.card && k.rule < n then Slide(z, k, AMOUNT_RULES[k.rule], c) else z, k)
  {
    if n > 0 {
      WriteScoresAt(z, c, n - 1, k);
    }
  }

  /** A call of another card changes nothing that the card's sets must hold. */
  lemma OtherCard(z: map<Key, Timed<Scores>>, k: Key, r: Rule, h: History, c: Call, card: string)
    requires c.card != card && ZSetTracks(z, k, r, h, card)
    ensures ZSetTracks(z, k, r, h + [c], card)
  {
    LastCallSnoc(h, c, card);
    LastRecordSnoc(h, c, card);
  }

  lemma {:induction false} CountsTrack(h: History, card: string, rule: nat)
    requires Ordered(h) && rule < |COUNT_RULES|
    ensures ZSetTracks(Replay(h).zsets, CountKey(rule, card), COUNT_RULES[rule], h, card)
  {
    if h != [] {
      var init, c, k := h[..|h| - 1], h[|h| - 1], CountKey(rule, card);
      var z := Replay(init).zsets;
      CountsTrack(init, card, rule);
      WriteCountsAt(z, c, |COUNT_RULES|, k);
      WriteScoresAt(WriteCounts(z, c, |COUNT_RULES|), c, |AMOUNT_RULES|, k);
      assert h == init + [c];
      if c.card == card {
        SlideTracks(z, k, COUNT_RULES[rule], init, c);
      } else {
        OtherCard(z, k, COUNT_RULES[rule], init, c, card);
      }
    }
  }

  lemma {:induction false} ScoresTrack(h: History, card: string, rule: nat)
    requires Ordered(h) && rule < |AMOUNT_RULES|
    ensures ZSetTracks(Replay(h).zsets, ScoreKey(rule, card), AMOUNT_RULES[rule], h, card)
  {
    if h != [] {
      var init, c, k := h[..|h| - 1], h[|h| - 1], ScoreKey(rule, card);
      var z := Replay(init).zsets;
      var counted := WriteCounts(z, c, |COUNT_RULES|);
      ScoresTrack(init, card, rule);
      WriteCountsAt(z, c, |COUNT_RULES|, k);
      WriteScoresAt(counted, c, |AMOUNT_RULES|, k);
      assert h == init + [c];
      if c.card == card {
        SlideTracks(counted, k, AMOUNT_RULES[rule], init, c);
      } else {
        OtherCard(counted, k, AMOUNT_RULES[rule], init, c, card);
      }
    }
  }

  /** The hash under k has the last amount of every live transaction, whatever else it still holds. */
  ghost predicate HashTracks(m: map<Key, Timed<map<string, int>>>, k: Key, r: Rule, h: History, card: string) {
    match LastCall(h, card)
    case None => k !in m
    case Some(last) =>
      && k in m && m[k].deadline == last.at + r.ttlMs
      && forall t :: Within(h, card, t, last.at - r.windowMs) ==>
           t in m[k].value && m[k].value[t] == LastRecord(h, card, t).value.amount
  }

  lemma {:induction false} WriteAmountsAt(m: map<Key, Timed<map<string, int>>>, c: Call, n: nat, k: Key)
    requires n <= |AMOUNT_RULES|
    ensures SameAt(WriteAmounts(m, c, n),
                   if k.AmountKey? && k.card == c.card && k.rule < n
                   then m[k := Timed(Read(m, k, c.at, map[])[c.txn := c.amount], c.at + AMOUNT_RULES[k.rule].ttlMs)]
                   else m, k)
  {
    if n > 0 {
      WriteAmountsAt(m, c, n - 1, k);
    }
  }

  /** A transaction that was live at the card's last call, and still is, has its amount in the hash. */
  lemma HashRead(m: map<Key, Timed<map<string, int>>>, k: Key, r: Rule, h: History, card: string, now: int)
    requires HashTracks(m, k, r, h, card) && Ordered(h) && NoneAfter(h, now) && 0 < r.windowMs <= r.ttlMs
    ensures forall t :: Within(h, card, t, now - r.windowMs) ==>
              t in Read(m, k, now, map[]) && Read(m, k, now, map[])[t] == LastRecord(h, card, t).value.amount
  {
    LastCallIsLatest(h, card);
  }

  /** One more call: it refreshes the hash of its own card and leaves the others. */
  lemma HashStep(
      m: map<Key, Timed<map<string, int>>>, after: map<Key, Timed<map<string, int>>>, k: Key, r: Rule, h: History, c: Call, card: string)
    requires HashTracks(m, k, r, h, card) && Ordered(h) && NoneAfter(h, c.at) && 0 < r.windowMs <= r.ttlMs
    requires SameAt(after, if c.card == card then m[k := Timed(Read(m, k, c.at, map[])[c.txn := c.amount], c.at + r.ttlMs)] else m, k)
    ensures HashTracks(after, k, r, h + [c], card)
  {
    LastCallSnoc(h, c, card);
    LastRecordSnoc(h, c, card);
    if c.card == card {
      HashRead(m, k, r, h, card, c.at);
    }
  }

  lemma {:induction false} AmountsTrack(h: History, card: string, rule: nat)
    requires Ordered(h) && rule < |AMOUNT_RULES|
    ensures HashTracks(Replay(h).hashes, AmountKey(rule, card), AMOUNT_RULES[rule], h, card)
  {
    if h != [] {
      var init, c, k := h[..|h| - 1], h[|h| - 1], AmountKey(rule, card);
      AmountsTrack(init, card, rule);
      WriteAmountsAt(Replay(init).hashes, c, |AMOUNT_RULES|, k);
      assert h == init + [c];
      HashStep(Replay(init).hashes, Replay(h).hashes, k, AMOUNT_RULES[rule], init, c, card);
    }
  }

  /** The bucket's set has exactly the merchants (or terminals) seen, and goes between five and ten minutes after the bucket. */
  predicate LogTracks(m: map<Key, Timed<set<string>>>, k: Key, bucket: int, seen: set<string>) {
    if seen == {} then k !in m
    else k in m && m[k].value == seen && (bucket + 2) * 300_000 <= m[k].deadline < (bucket + 3) * 300_000
  }

  lemma NoteTracks(m: map<Key, Timed<set<string>>>, k: Key, at: int, seen: set<string>, value: string)
    requires at >= 0 && LogTracks(m, k, Bucket(at), seen)
    ensures LogTracks(Note(m, k, at, value), k, Bucket(at), seen + {value})
  {
  }

  lemma SeenSnoc(h: History, c: Call, card: string, bucket: int)
    ensures var here := c.card == card && Bucket(c.at) == bucket;
      && Merchants(h + [c], card, bucket) == Merchants(h, card, bucket) + (if here then {c.merchant} else {})
      && Terminals(h + [c], card, bucket) == Terminals(h, card, bucket) + (if here then {c.terminal} else {})
  {
    assert forall d :: d in h + [c] <==> d in h || d == c;
  }

  predicate BothTrack(m: map<Key, Timed<set<string>>>, h: History, card: string, bucket: int) {
    && LogTracks(m, MerchantKey(card, bucket), bucket, Merchants(h, card, bucket))
    && LogTracks(m, TerminalKey(card, bucket), bucket, Terminals(h, card, bucket))
  }

  lemma BothStep(m: map<Key, Timed<set<string>>>, h: History, c: Call, card: string, bucket: int)
    requires BothTrack(m, h, card, bucket) && c.at >= 0
    ensures BothTrack(NoteBoth(m, c), h + [c], card, bucket)
  {
    SeenSnoc(h, c, card, bucket);
    if c.card == card && Bucket(c.at) == bucket {
      var noted := Note(m, MerchantKey(card, bucket), c.at, c.merchant);
      NoteTracks(m, MerchantKey(card, bucket), c.at, Merchants(h, card, bucket), c.merchant);
      NoteTracks(noted, TerminalKey(card, bucket), c.at, Terminals(h, card, bucket), c.terminal);
    }
  }

  lemma NothingSeen(card: string, bucket: int)
    ensures BothTrack(map[], [], card, bucket)
  {
    assert Merchants([], card, bucket) == {} && Terminals([], card, bucket) == {};
  }

  lemma ReplayNotes(init: History, c: Call)
    ensures Replay(init + [c]).logs == NoteBoth(Replay(init).logs, c)
  {
    assert (init + [c])[..|init|] == init;
  }

  lemma LogsStep(init: History, c: Call, card: string, bucket: int)
    requires BothTrack(Replay(init).logs, init, card, bucket) && c.at >= 0
    ensures BothTrack(Replay(init + [c]).logs, init + [c], card, bucket)
  {
    ReplayNotes(init, c);
    BothStep(Replay(init).logs, init, c, card, bucket);
  }

  lemma {:induction false} LogsTrack(h: History, card: string, bucket: int)
    requires Ordered(h)
    ensures BothTrack(Replay(h).logs, h, card, bucket)
  {
    if h == [] {
      NothingSeen(card, bucket);
    } else {
      var init, c := h[..|h| - 1], h[|h| - 1];
      assert h == init + [c];
      LogsTrack(init, card, bucket);
      LogsStep(init, c, card, bucket);
    }
  }

  // ---------------------------------------------------------------------------------------
  // All metrics at once
  // ---------------------------------------------------------------------------------------

  lemma WindowMembers(z: Scores, h: History, card: string, window: int, now: int)
    requires IsWindow(z, h, card, window, now)
    ensures Members(z, now - window) == LiveIds(h, card, window, now)
  {
    EveryTxnHasARecord(h, card);
  }

  lemma {:induction false} SumAgrees(s: set<string>, a: map<string, int>, b: map<string, int>)
    requires forall t :: t in s ==> t in a && t in b && a[t] == b[t]
    ensures Sum(s, a) == Sum(s, b)
  {
    if s != {} {
      var t :| t in s;
      SumSplit(s, a, t);
      SumSplit(s, b, t);
      SumAgrees(s - {t}, a, b);
    }
  }

  /** Right after the card's last call its sorted set reads back as the window. */
  lemma TrackedRead(z: map<Key, Timed<Scores>>, k: Key, r: Rule, h: History, c: Call)
    requires ZSetTracks(z, k, r, h, c.card) && LastCall(h, c.card) == Some(c) && r.ttlMs > 0
    ensures Members(Read(z, k, c.at, map[]), c.at - r.windowMs) == LiveIds(h, c.card, r.windowMs, c.at)
  {
    WindowMembers(z[k].value, h, c.card, r.windowMs, c.at);
  }

  lemma LastCallOfLast(h: History)
    requires h != []
    ensures LastCall(h, h[|h| - 1].card) == Some(h[|h| - 1])
  {
  }

  lemma SummedRefines(h: History, rule: nat)
    requires Ordered(h) && h != [] && rule < |AMOUNT_RULES|
    ensures var c := h[|h| - 1];
      Summed(Replay(h), c, rule) == LiveIds(h, c.card, AMOUNT_RULES[rule].windowMs, c.at)
  {
    var c := h[|h| - 1];
    ScoresTrack(h, c.card, rule);
    LastCallOfLast(h);
    TrackedRead(Replay(h).zsets, ScoreKey(rule, c.card), AMOUNT_RULES[rule], h, c);
  }

  lemma AmountsAgree(h: History, rule: nat)
    requires Ordered(h) && h != [] && rule < |AMOUNT_RULES|
    ensures var c := h[|h| - 1];
      var stored := Read(Replay(h).hashes, AmountKey(rule, c.card), c.at, map[]);
      forall t :: t in LiveIds(h, c.card, AMOUNT_RULES[rule].windowMs, c.at) ==>
        t in stored && t in LastAmounts(h, c.card) && stored[t] == LastAmounts(h, c.card)[t]
  {
    AmountsTrack(h, h[|h| - 1].card, rule);
  }

  lemma SumRefines(h: History, rule: nat)
    requires Ordered(h) && h != [] && rule < |AMOUNT_RULES|
    ensures var c := h[|h| - 1];
      AmountSum(Replay(h), c, rule) ==
      Sum(LiveIds(h, c.card, AMOUNT_RULES[rule].windowMs, c.at), LastAmounts(h, c.card))
  {
    var c := h[|h| - 1];
    SummedRefines(h, rule);
    AmountsAgree(h, rule);
    SumAgrees(LiveIds(h, c.card, AMOUNT_RULES[rule].windowMs, c.at),
              Read(Replay(h).hashes, AmountKey(rule, c.card), c.at, map[]), LastAmounts(h, c.card));
  }

  lemma CountRefines(h: History, rule: nat)
    requires Ordered(h) && h != [] && rule < |COUNT_RULES|
    ensures var c := h[|h| - 1];
      Counted(Replay(h), c, rule) == LiveIds(h, c.card, COUNT_RULES[rule].windowMs, c.at)
  {
    var c := h[|h| - 1];
    CountsTrack(h, c.card, rule);
    LastCallOfLast(h);
    TrackedRead(Replay(h).zsets, CountKey(rule, c.card), COUNT_RULES[rule], h, c);
  }

  lemma CountsRefine(h: History)
    requires Ordered(h) && h != []
    ensures var c := h[|h| - 1];
      && Counted(Replay(h), c, 0) == LiveIds(h, c.card, 60_000, c.at)
      && Counted(Replay(h), c, 1) == LiveIds(h, c.card, 300_000, c.at)
      && Counted(Replay(h), c, 2) == LiveIds(h, c.card, 3_600_000, c.at)
  {
    CountRefines(h, 0);
    CountRefines(h, 1);
    CountRefines(h, 2);
  }

  lemma SumsRefine(h: History)
    requires Ordered(h) && h != []
    ensures var c := h[|h| - 1];
      && AmountSum(Replay(h), c, 0) == Sum(LiveIds(h, c.card, 60_000, c.at), LastAmounts(h, c.card))
      && AmountSum(Replay(h), c, 1) == Sum(LiveIds(h, c.card, 3_600_000, c.at), LastAmounts(h, c.card))
  {
    SumRefines(h, 0);
    SumRefines(h, 1);
  }

  lemma LogsRefine(h: History)
    requires Ordered(h) && h != []
    ensures var c := h[|h| - 1]; var bucket := Bucket(c.at);
      && Read(Replay(h).logs, MerchantKey(c.card, bucket), c.at, {}) == Merchants(h, c.card, bucket)
      && Read(Replay(h).logs, TerminalKey(c.card, bucket), c.at, {}) == Terminals(h, c.card, bucket)
  {
    var c := h[|h| - 1];
    LogsTrack(h, c.card, Bucket(c.at));
    assert c.merchant in Merchants(h, c.card, Bucket(c.at)) && c.terminal in Terminals(h, c.card, Bucket(c.at));
  }

  /**
   Every metric that a call reports is the one its sliding window over the full history defines:
   the counts and sums are over the distinct transactions whose latest record is inside the window,
   this call included, and the distinct counts over this five-minute bucket.
   */
  lemma MetricsRefineHistory(h: History)
    requires Ordered(h) && h != []
    ensures Report(Replay(h), h[|h| - 1]) == Intended(h)
  {
    CountsRefine(h);
    SumsRefine(h);
    LogsRefine(h);
  }

  predicate LivesUntil<V>(m: map<Key, Timed<V>>, k: Key, deadline: int) {
    k in m && m[k].deadline == deadline
  }

  /** Count keys live for two, ten and 120 minutes after the card's last call, and amount keys for two and 120. */
  lemma KeyLifetimes(h: History, card: string)
    requires Ordered(h) && LastCall(h, card).Some?
    ensures var z, at := Replay(h).zsets, LastCall(h, card).value.at;
      && LivesUntil(z, CountKey(0, card), at + 120_000) && LivesUntil(z, CountKey(1, card), at + 600_000)
      && LivesUntil(z, CountKey(2, card), at + 7_200_000)
      && LivesUntil(z, ScoreKey(0, card), at + 120_000) && LivesUntil(z, ScoreKey(1, card), at + 7_200_000)
    ensures var m, at := Replay(h).hashes, LastCall(h, card).value.at;
      LivesUntil(m, AmountKey(0, card), at + 120_000) && LivesUntil(m, AmountKey(1, card), at + 7_200_000)
  {
    CountsTrack(h, card, 0);
    CountsTrack(h, card, 1);
    CountsTrack(h, card, 2);
    ScoresTrack(h, card, 0);
    ScoresTrack(h, card, 1);
    AmountsTrack(h, card, 0);
    AmountsTrack(h, card, 1);
  }

  /** A call's own transaction is all that it adds to the transactions already live at that moment. */
  lemma CallAddsItself(h: History, c: Call, window: int)
    requires window > 0
    ensures LiveIds(h + [c], c.card, window, c.at) == LiveIds(h, c.card, window, c.at) + {c.txn}
  {
    TxnsSnoc(h, c, c.card);
    LastRecordSnoc(h, c, c.card);
    EveryTxnHasARecord(h, c.card);
    EveryTxnHasARecord(h + [c], c.card);
  }

  /** The merchants of the card's calls in the last five minutes. */
  function RecentMerchants(h: History, card: string, now: int): set<string> {
    set c | c in h && c.card == card && c.at > now - 300_000 :: c.merchant
  }

  function RecentTerminals(h: History, card: string, now: int): set<string> {
    set c | c in h && c.card == card && c.at > now - 300_000 :: c.terminal
  }

  lemma {:induction false} SubsetSize<T>(a: set<T>, b: set<T>)
    requires a <= b
    ensures |a| <= |b|
  {
    assert b == a + (b - a);
  }

  /** A set inside another has as many elements exactly when it is the other. */
  lemma SameSizeExactly(a: set<string>, b: set<string>)
    requires a <= b
    ensures |a| <= |b| && (|a| == |b| <==> b <= a)
  {
    SubsetSize(a, b);
    assert |b - a| == |b| - |a|;
    if |a| == |b| {
      assert b - a == {};
    }
  }

  /** What the last call reports of distinct merchants and terminals. */
  lemma DistinctRefines(h: History)
    requires Ordered(h) && h != []
    ensures var c := h[|h| - 1]; var r := Report(Replay(h), c);
      && r.uniqueMerchants5Min == |Merchants(h, c.card, Bucket(c.at))|
      && r.uniqueTerminals5Min == |Terminals(h, c.card, Bucket(c.at))|
  {
    MetricsRefineHistory(h);
  }

  /** The current bucket lies within the last five minutes. */
  lemma BucketIsRecent(h: History, card: string, now: int)
    requires NoneAfter(h, now)
    ensures Merchants(h, card, Bucket(now)) <= RecentMerchants(h, card, now)
    ensures Terminals(h, card, Bucket(now)) <= RecentTerminals(h, card, now)
  {
    forall d | d in h && Bucket(d.at) == Bucket(now) ensures d.at > now - BUCKET_MS {
    }
  }

  lemma LastIsLatest(h: History)
    requires Ordered(h) && h != []
    ensures NoneAfter(h, h[|h| - 1].at)
  {
    assert forall c :: c in h ==> c in h[..|h| - 1] || c == h[|h| - 1];
  }

  /**
   The feature vector documents the distinct counts as those of the last five minutes.  The reported ones are of
   the current five-minute bucket: never more, and the same exactly when all that was seen in the last five minutes
   was seen in the bucket too.
   */
  lemma DistinctRecentExactly(h: History)
    requires Ordered(h) && h != []
    ensures var c := h[|h| - 1]; var r := Report(Replay(h), c);
      && r.uniqueMerchants5Min <= |RecentMerchants(h, c.card, c.at)|
      && r.uniqueTerminals5Min <= |RecentTerminals(h, c.card, c.at)|
      && (r.uniqueMerchants5Min == |RecentMerchants(h, c.card, c.at)|
          <==> RecentMerchants(h, c.card, c.at) <= Merchants(h, c.card, Bucket(c.at)))
      && (r.uniqueTerminals5Min == |RecentTerminals(h, c.card, c.at)|
          <==> RecentTerminals(h, c.card, c.at) <= Terminals(h, c.card, Bucket(c.at)))
  {
    var c := h[|h| - 1];
    DistinctRefines(h);
    LastIsLatest(h);
    BucketIsRecent(h, c.card, c.at);
    SameSizeExactly(Merchants(h, c.card, Bucket(c.at)), RecentMerchants(h, c.card, c.at));
    SameSizeExactly(Terminals(h, c.card, Bucket(c.at)), RecentTerminals(h, c.card, c.at));
  }

  lemma OrderedPair(a: Call, b: Call)
    requires 0 <= a.at <= b.at
    ensures Ordered([a, b])
  {
    var h: History := [a, b];
    assert h[..1] == [a] && [a][..0] == [];
    assert Ordered([]) && NoneAfter([], a.at);
    assert Ordered([a]) && NoneAfter([a], b.at);
  }

  lemma BucketEndSets(a: Call, b: Call)
    requires a.card == b.card && a.at == 299_999 && b.at == 300_000
    ensures Merchants([a, b], b.card, Bucket(b.at)) == {b.merchant}
    ensures RecentMerchants([a, b], b.card, b.at) == {a.merchant, b.merchant}
  {
    assert Bucket(a.at) == 0 && Bucket(b.at) == 1;
    assert a in [a, b] && b in [a, b];
  }

  /** Two merchants a millisecond apart, on either side of a bucket's end: one is reported, two are recent. */
  lemma BucketEndHidesMerchant(a: Call, b: Call)
    requires a.card == b.card && a.merchant != b.merchant && a.at == 299_999 && b.at == 300_000
    ensures Report(Replay([a, b]), b).uniqueMerchants5Min == 1 && |RecentMerchants([a, b], b.card, b.at)| == 2
  {
    OrderedPair(a, b);
    BucketEndSets(a, b);
    DistinctRefines([a, b]);
  }

  lemma SizeWith(s: set<string>, x: string)
    ensures |s + {x}| == if x in s then |s| else |s| + 1
  {
    if x in s {
      assert s + {x} == s;
    }
  }

  /**
   The feature vector documents its counts as being of prior transactions.  A reported count is the prior count
   exactly when the call repeats a transaction that is live in the window already; otherwise it is one more.
   */
  lemma CountExcludesCurrentExactly(h: History, c: Call, rule: nat)
    requires Ordered(h + [c]) && rule < |COUNT_RULES|
    ensures var prior := LiveIds(h, c.card, COUNT_RULES[rule].windowMs, c.at);
      var reported := |Counted(Replay(h + [c]), c, rule)|;
      && (reported == |prior| <==> c.txn in prior)
      && (c.txn !in prior ==> reported == |prior| + 1)
  {
    var w := COUNT_RULES[rule].windowMs;
    assert |h + [c]| - 1 == |h| && (h + [c])[|h|] == c;
    CountRefines(h + [c], rule);
    assert Counted(Replay(h + [c]), c, rule) == LiveIds(h + [c], c.card, w, c.at);
    CallAddsItself(h, c, w);
    SizeWith(LiveIds(h, c.card, w, c.at), c.txn);
  }

  /** The first transaction of a card has none before it, and every count reports one. */
  lemma FirstCallCountsItself(c: Call)
    requires c.at >= 0
    ensures var r := Report(Replay([c]), c); r.txnCount1Min == r.txnCount5Min == r.txnCount1Hr == 1
    ensures forall w :: LiveIds([], c.card, w, c.at) == {}
  {
    var h: History := [c];
    assert [] + [c] == h && h[..|h| - 1] == [];
    assert Ordered(h[..|h| - 1]) && NoneAfter(h[..|h| - 1], c.at);
    CountExcludesCurrentExactly([], c, 0);
    CountExcludesCurrentExactly([], c, 1);
    CountExcludesCurrentExactly([], c, 2);
    assert forall w :: LiveIds([], c.card, w, c.at) == {};
  }

  lemma {:induction false} SumMonotone(s: set<string>, t: set<string>, amounts: map<string, int>)
    requires s <= t && forall x :: x in t && x in amounts ==> amounts[x] >= 0
    ensures Sum(s, amounts) <= Sum(t, amounts)
    decreases |t - s|
  {
    if t - s == {} {
      assert s == t;
    } else {
      var x :| x in t - s;
      SumSplit(s + {x}, amounts, x);
      assert s + {x} - {x} == s;
      assert |t - (s + {x})| < |t - s| by {
        assert t - (s + {x}) == (t - s) - {x};
      }
      SumMonotone(s + {x}, t, amounts);
    }
  }

  lemma LiveIdsNest(h: History, card: string, small: int, large: int, now: int)
    requires small <= large
    ensures LiveIds(h, card, small, now) <= LiveIds(h, card, large, now)
    ensures |LiveIds(h, card, small, now)| <= |LiveIds(h, card, large, now)|
  {
    SubsetSize(LiveIds(h, card, small, now), LiveIds(h, card, large, now));
  }

  lemma IntendedNests(h: History)
    requires h != []
    ensures var r := Intended(h);
      && 1 <= r.txnCount1Min <= r.txnCount5Min <= r.txnCount1Hr
      && r.uniqueMerchants5Min >= 1 && r.uniqueTerminals5Min >= 1
  {
    var c := h[|h| - 1];
    LiveIdsNest(h, c.card, MINUTE, 5 * MINUTE, c.at);
    LiveIdsNest(h, c.card, 5 * MINUTE, 60 * MINUTE, c.at);
    assert c in h && c.txn in Txns(h, c.card);
    assert Within(h, c.card, c.txn, c.at - MINUTE);
    assert c.txn in LiveIds(h, c.card, MINUTE, c.at);
    assert c.merchant in Merchants(h, c.card, Bucket(c.at)) && c.terminal in Terminals(h, c.card, Bucket(c.at));
  }

  /** Wider windows never report less, although each is kept in its own structures. */
  lemma WiderWindowsReportMore(h: History)
    requires Ordered(h) && h != []
    ensures var r := Report(Replay(h), h[|h| - 1]);
      && 1 <= r.txnCount1Min <= r.txnCount5Min <= r.txnCount1Hr
      && r.uniqueMerchants5Min >= 1 && r.uniqueTerminals5Min >= 1
      && ((forall c :: c in h ==> c.amount >= 0) ==> r.amountSum1Min <= r.amountSum1Hr)
  {
    var c := h[|h| - 1];
    MetricsRefineHistory(h);
    IntendedNests(h);
    if forall d :: d in h ==> d.amount >= 0 {
      LiveIdsNest(h, c.card, MINUTE, 60 * MINUTE, c.at);
      SumMonotone(LiveIds(h, c.card, MINUTE, c.at), LiveIds(h, c.card, 60 * MINUTE, c.at), LastAmounts(h, c.card));
    }
  }

  lemma SameRecordsSameWindows(h: History, g: History, card: string)
    requires forall t :: LastRecord(h, card, t) == LastRecord(g, card, t)
    ensures LastAmounts(h, card) == LastAmounts(g, card)
    ensures forall w, now :: LiveIds(h, card, w, now) == LiveIds(g, card, w, now)
  {
    EveryTxnHasARecord(h, card);
    EveryTxnHasARecord(g, card);
  }

  lemma {:induction false} SkipsOther(before: History, early: Call, between: History, card: string, txn: string)
    requires early.txn != txn
    ensures LastRecord(before + [early] + between, card, txn) == LastRecord(before + between, card, txn)
  {
    if between == [] {
      assert before + [early] + between == before + [early] && before + between == before;
      LastRecordSnoc(before, early, card);
    } else {
      var init, c := between[..|between| - 1], between[|between| - 1];
      SkipsOther(before, early, init, card, txn);
      assert before + [early] + between == (before + [early] + init) + [c];
      assert before + between == (before + init) + [c];
      LastRecordSnoc(before + [early] + init, c, card);
      LastRecordSnoc(before + init, c, card);
    }
  }

  lemma Superseded(before: History, early: Call, between: History, again: Call, txn: string)
    requires early.card == again.card && early.txn == again.txn
    ensures LastRecord(before + [early] + between + [again], again.card, txn) ==
            LastRecord(before + between + [again], again.card, txn)
  {
    LastRecordSnoc(before + [early] + between, again, again.card);
    LastRecordSnoc(before + between, again, again.card);
    if txn != again.txn {
      SkipsOther(before, early, between, again.card, txn);
    }
  }

  /** Recording a transaction again makes its earlier record invisible to the counts and sums: nothing is counted twice. */
  lemma SupersededRecordLeavesNoTrace(before: History, early: Call, between: History, again: Call)
    requires early.card == again.card && early.txn == again.txn
    requires Ordered(before + [early] + between + [again]) && Ordered(before + between + [again])
    ensures var r, s := Report(Replay(before + [early] + between + [again]), again),
                        Report(Replay(before + between + [again]), again);
      && r.txnCount1Min == s.txnCount1Min && r.txnCount5Min == s.txnCount5Min && r.txnCount1Hr == s.txnCount1Hr
      && r.amountSum1Min == s.amountSum1Min && r.amountSum1Hr == s.amountSum1Hr
  {
    var h, g := before + [early] + between + [again], before + between + [again];
    forall t ensures LastRecord(h, again.card, t) == LastRecord(g, again.card, t) {
      Superseded(before, early, between, again, t);
    }
    SameRecordsSameWindows(h, g, again.card);
    MetricsRefineHistory(h);
    MetricsRefineHistory(g);
  }

  /** One call more in a history, wherever it stands. */
  lemma SeenWith(all: History, rest: History, early: Call, card: string, bucket: int)
    requires (forall d :: d in all <==> d in rest || d == early) && early.card == card
    ensures var here := Bucket(early.at) == bucket;
      && Merchants(all, card, bucket) == Merchants(rest, card, bucket) + (if here then {early.merchant} else {})
      && Terminals(all, card, bucket) == Terminals(rest, card, bucket) + (if here then {early.terminal} else {})
  {
  }

  /**
   The distinct counts do keep a trace of the superseded record, exactly when it was made in the same bucket at a
   merchant (or terminal) that no other call has seen there.
   */
  lemma SupersededDistinctExactly(before: History, early: Call, between: History, again: Call)
    requires early.card == again.card
    requires Ordered(before + [early] + between + [again]) && Ordered(before + between + [again])
    ensures var rest, bucket := before + between + [again], Bucket(again.at);
      var r, s := Report(Replay(before + [early] + between + [again]), again), Report(Replay(rest), again);
      && (r.uniqueMerchants5Min == s.uniqueMerchants5Min
          <==> Bucket(early.at) != bucket || early.merchant in Merchants(rest, again.card, bucket))
      && (r.uniqueTerminals5Min == s.uniqueTerminals5Min
          <==> Bucket(early.at) != bucket || early.terminal in Terminals(rest, again.card, bucket))
  {
    var all, rest, bucket := before + [early] + between + [again], before + between + [again], Bucket(again.at);
    DistinctRefines(all);
    DistinctRefines(rest);
    SeenWith(all, rest, early, again.card, bucket);
    SizeWith(Merchants(rest, again.card, bucket), early.merchant);
    SizeWith(Terminals(rest, again.card, bucket), early.terminal);
  }

  // ---------------------------------------------------------------------------------------
  // The store
  // ---------------------------------------------------------------------------------------

  class Store {
    var zsets: map<Key, Timed<Scores>>
    var hashes: map<Key, Timed<map<string, int>>>
    var logs: map<Key, Timed<set<string>>>

    function Abs(): Db
      reads this
    {
      Db(zsets, hashes, logs)
    }

    constructor ()
      ensures Abs() == Replay([])
    {
      zsets, hashes, logs := map[], map[], map[];
    }

    /** HMGET of the members, skipping the missing ones, added up one by one. */
    static method SumAmounts(members: set<string>, amounts: map<string, int>) returns (sum: int)
      ensures sum == Sum(members, amounts)
    {
      sum := 0;
      var rest := members;
      while rest != {}
        invariant sum + Sum(rest, amounts) == Sum(members, amounts)
        decreases |rest|
      {
        var t :| t in rest;
        SumSplit(rest, amounts, t);
        if t in amounts {
          sum := sum + amounts[t];
        }
        rest := rest - {t};
      }
    }

    /** Writes one call into every structure of its card, then reads the metrics back. */
    method Record(c: Call) returns (r: Result)
      modifies this
      ensures Abs() == Write(old(Abs()), c)
      ensures r == Report(Abs(), c)
    {
      var i := 0;
      while i < |COUNT_RULES|
        invariant 0 <= i <= |COUNT_RULES|
        invariant zsets == WriteCounts(old(zsets), c, i) && unchanged(`hashes) && unchanged(`logs)
      {
        zsets := Slide(zsets, CountKey(i, c.card), COUNT_RULES[i], c);
        i := i + 1;
      }
      ghost var counted := zsets;
      i := 0;
      while i < |AMOUNT_RULES|
        invariant 0 <= i <= |AMOUNT_RULES| && unchanged(`logs)
        invariant zsets == WriteScores(counted, c, i)
        invariant hashes == WriteAmounts(old(hashes), c, i)
      {
        zsets := Slide(zsets, ScoreKey(i, c.card), AMOUNT_RULES[i], c);
        var k := AmountKey(i, c.card);
        hashes := hashes[k := Timed(Read(hashes, k, c.at, map[])[c.txn := c.amount], c.at + AMOUNT_RULES[i].ttlMs)];
        i := i + 1;
      }
      var mk, tk := MerchantKey(c.card, Bucket(c.at)), TerminalKey(c.card, Bucket(c.at));
      logs := Note(logs, mk, c.at, c.merchant);
      logs := Note(logs, tk, c.at, c.terminal);

      var sum1Min := SumAmounts(Summed(Abs(), c, 0), Read(hashes, AmountKey(0, c.card), c.at, map[]));
      var sum1Hr := SumAmounts(Summed(Abs(), c, 1), Read(hashes, AmountKey(1, c.card), c.at, map[]));
      r := Result(|Counted(Abs(), c, 0)|, |Counted(Abs(), c, 1)|, |Counted(Abs(), c, 2)|, sum1Min, sum1Hr,
                  |Read(logs, mk, c.at, {})|, |Read(logs, tk, c.at, {})|);
    }
  }
}
