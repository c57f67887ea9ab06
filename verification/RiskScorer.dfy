/**
 The weighted-linear risk scorer: features are normalised to [0, 1], weighted, summed and scaled to
 [100, 1000].  Numbers are reals; the logarithm is any function with the shape of log10.
 */
module RiskScorer {
  import opened Common

  ghost predicate IsLog10(f: real -> real) {
    f(1.0) == 0.0 && forall x, y :: 1.0 <= x < y ==> f(x) < f(y)
  }

  type Log10 = f: real -> real | IsLog10(f) ghost witness x => x - 1.0

  /** Any other method name passes the value through. */
  datatype Method = LogTen | LinearCap | Binary | Passthrough

  datatype Normalisation = Normalisation(kind: Method, cap: real)

  datatype Feature = Feature(name: string, weight: real, normalise: Normalisation)

  datatype Config = Config(features: seq<Feature>, approveBelow: int, declineAbove: int, threshold: real)

  /** The feature vector built by the fraud engine. */
  datatype Vector = Vector(
    txnCount1Min: int, txnCount5Min: int, txnCount1Hr: int, amountSum1Min: int, amountSum1Hr: int,
    uniqueMerchants5Min: int, uniqueTerminals5Min: int, merchantRisk: real,
    isNight: int, isRiskyMcc: int, isCardNotPresent: int)

  datatype Result = Result(score: int, decision: string, factors: seq<string>)

  // ---------------------------------------------------------------------------------------
  // Values
  // ---------------------------------------------------------------------------------------

  function ExtractRaw(name: string, v: Vector, amountMinor: int): real {
    if name == "amount_minor" then amountMinor as real
    else if name == "txn_count_1min" then v.txnCount1Min as real
    else if name == "txn_count_5min" then v.txnCount5Min as real
    else if name == "txn_count_1hr" then v.txnCount1Hr as real
    else if name == "amount_sum_1min" then v.amountSum1Min as real
    else if name == "amount_sum_1hr" then v.amountSum1Hr as real
    else if name == "unique_merchants_5min" then v.uniqueMerchants5Min as real
    else if name == "unique_terminals_5min" then v.uniqueTerminals5Min as real
    else if name == "merchant_risk" then v.merchantRisk
    else if name == "is_night" then v.isNight as real
    else if name == "is_risky_mcc" then v.isRiskyMcc as real
    else if name == "is_card_not_present" then v.isCardNotPresent as real
    else 0.0
  }

  function Clamp01(x: real): (r: real)
    ensures 0.0 <= r <= 1.0
  {
    if x < 0.0 then 0.0 else if x > 1.0 then 1.0 else x
  }

  function Distance(x: real, y: real): real {
    if x <= y then y - x else x - y
  }

  /** The value in [0, 1] nearest to a number. */
  lemma ClampNearest(x: real, y: real)
    requires 0.0 <= y <= 1.0
    ensures Distance(Clamp01(x), x) <= Distance(y, x)
  {
  }

  lemma LogPositive(log: Log10, x: real)
    requires x > 1.0
    ensures log(x) > 0.0
  {
    assert log(1.0) < log(x);
  }

  function Normalise(log: Log10, v: real, n: Normalisation): (r: real)
    ensures 0.0 <= r <= 1.0
  {
    match n.kind
    case LogTen =>
      if n.cap <= 1.0 then 0.0
      else
        LogPositive(log, n.cap);
        Clamp01(log(if v > 1.0 then v else 1.0) / log(n.cap))
    case LinearCap => if n.cap == 0.0 then 0.0 else Clamp01((if v < n.cap then v else n.cap) / n.cap)
    case Binary => if v > 0.0 then 1.0 else 0.0
    case Passthrough => Clamp01(v)
  }

  /** math.Round: to the nearest integer, halves away from zero. */
  function Round(x: real): int {
    if x >= 0.0 then (x + 0.5).Floor else -(0.5 - x).Floor
  }

  /** To the nearest integer, away from zero when two are equally near. */
  lemma RoundNearest(x: real, n: int)
    ensures Distance(Round(x) as real, x) <= 0.5
    ensures Round(-x) == -Round(x)
    ensures n >= 0 ==> Round(n as real + 0.5) == n + 1
  {
  }

  function Bounded(raw: int): int {
    if raw < 100 then 100 else if raw > 1000 then 1000 else raw
  }

  function Decide(approveBelow: int, declineAbove: int, score: int): string {
    if score < approveBelow then "APPROVE" else if score > declineAbove then "DECLINE" else "REVIEW"
  }

  // ---------------------------------------------------------------------------------------
  // Sums over features
  // ---------------------------------------------------------------------------------------

  function SumOf(g: Feature -> real, fs: seq<Feature>): real {
    if fs == [] then 0.0 else SumOf(g, fs[..|fs| - 1]) + g(fs[|fs| - 1])
  }

  function Times(x: real, y: real): real {
    x * y
  }

  lemma TimesMonotone(x: real, y: real, w: real)
    requires x <= y && w >= 0.0
    ensures Times(x, w) <= Times(y, w)
  {
    assert (y - x) * w >= 0.0;
  }

  lemma TimesPositive(x: real, y: real)
    requires x > 0.0 && y > 0.0
    ensures Times(x, y) > 0.0
  {
  }

  function Weights(): Feature -> real {
    (f: Feature) => f.weight
  }

  function Level(log: Log10, v: Vector, amountMinor: int, f: Feature): (r: real)
    ensures 0.0 <= r <= 1.0
  {
    Normalise(log, ExtractRaw(f.name, v, amountMinor), f.normalise)
  }

  function Contributions(log: Log10, v: Vector, amountMinor: int): Feature -> real {
    (f: Feature) => Times(Level(log, v, amountMinor, f), f.weight)
  }

  function RawScore(log: Log10, fs: seq<Feature>, v: Vector, amountMinor: int): int {
    Round(100.0 + SumOf(Contributions(log, v, amountMinor), fs) * 900.0)
  }

  /** A feature that counts towards the score and lies above the threshold, or counts against it and lies below. */
  predicate Notable(level: real, weight: real, threshold: real) {
    (weight > 0.0 && level > threshold) || (weight < 0.0 && level < threshold)
  }

  function Factors(log: Log10, threshold: real, fs: seq<Feature>, v: Vector, amountMinor: int): seq<string> {
    if fs == [] then []
    else
      var before, f := Factors(log, threshold, fs[..|fs| - 1], v, amountMinor), fs[|fs| - 1];
      if Notable(Level(log, v, amountMinor, f), f.weight, threshold) then before + [f.name] else before
  }

  function ScoreOf(log: Log10, c: Config, v: Vector, amountMinor: int): Result {
    var score := Bounded(RawScore(log, c.features, v, amountMinor));
    Result(score, Decide(c.approveBelow, c.declineAbove, score), Factors(log, c.threshold, c.features, v, amountMinor))
  }

  const TOLERANCE := 0.000000001

  predicate Accepted(c: Config) {
    SumOf(Weights(), c.features) <= 1.0 + TOLERANCE && c.features != []
  }

  predicate NonNegative(fs: seq<Feature>) {
    forall f :: f in fs ==> f.weight >= 0.0
  }

  // ---------------------------------------------------------------------------------------
  // The score needs no clamping
  // ---------------------------------------------------------------------------------------

  lemma {:induction false} SumMonotone(g: Feature -> real, h: Feature -> real, fs: seq<Feature>)
    requires forall f :: f in fs ==> g(f) <= h(f)
    ensures SumOf(g, fs) <= SumOf(h, fs)
  {
    if fs != [] {
      assert fs[|fs| - 1] in fs;
      SumMonotone(g, h, fs[..|fs| - 1]);
    }
  }

  lemma {:induction false} SumZero(fs: seq<Feature>)
    ensures SumOf(_ => 0.0, fs) == 0.0
  {
    if fs != [] {
      SumZero(fs[..|fs| - 1]);
    }
  }

  /** The weighted sum lies between nothing and all of the weights. */
  lemma SumBounds(log: Log10, fs: seq<Feature>, v: Vector, amountMinor: int)
    requires NonNegative(fs)
    ensures 0.0 <= SumOf(Contributions(log, v, amountMinor), fs) <= SumOf(Weights(), fs)
  {
    var g := Contributions(log, v, amountMinor);
    forall f | f in fs ensures 0.0 <= g(f) <= f.weight {
      TimesMonotone(0.0, Level(log, v, amountMinor, f), f.weight);
      TimesMonotone(Level(log, v, amountMinor, f), 1.0, f.weight);
    }
    SumZero(fs);
    SumMonotone(_ => 0.0, g, fs);
    SumMonotone(g, Weights(), fs);
  }

  lemma RoundMonotone(x: real, y: real)
    requires x <= y
    ensures Round(x) <= Round(y)
  {
  }

  /** With weights that are not negative, whatever the tolerance let through, clamping changes nothing. */
  lemma ScoreNeedsNoClamp(log: Log10, c: Config, v: Vector, amountMinor: int)
    requires Accepted(c) && NonNegative(c.features)
    ensures 100 <= RawScore(log, c.features, v, amountMinor) <= 1000
    ensures ScoreOf(log, c, v, amountMinor).score == RawScore(log, c.features, v, amountMinor)
  {
    SumBounds(log, c.features, v, amountMinor);
    RoundMonotone(100.0, 100.0 + SumOf(Contributions(log, v, amountMinor), c.features) * 900.0);
    RoundMonotone(100.0 + SumOf(Contributions(log, v, amountMinor), c.features) * 900.0, 1000.4);
  }

  const PLAIN := Normalisation(Binary, 0.0)

  /** With a negative weight New still accepts, and the rounded score leaves the range on either side. */
  lemma NegativeWeightNeedsClamp(log: Log10, v: Vector)
    requires v.isNight == 1 && v.isRiskyMcc == 0
    ensures var up, down := Feature("is_night", 2.0, PLAIN), Feature("is_risky_mcc", -1.0, PLAIN);
      var c := Config([up, down], 350, 650, 0.06);
      Accepted(c) && RawScore(log, c.features, v, 0) == 1900
    ensures var down := Feature("is_night", -1.0, PLAIN);
      var c := Config([down], 350, 650, 0.06);
      Accepted(c) && RawScore(log, c.features, v, 0) == -800
  {
    var up, down, alone := Feature("is_night", 2.0, PLAIN), Feature("is_risky_mcc", -1.0, PLAIN), Feature("is_night", -1.0, PLAIN);
    var g := Contributions(log, v, 0);
    assert [up, down][..1] == [up] && [up][..0] == [] && [alone][..0] == [];
    assert Level(log, v, 0, up) == 1.0 && Level(log, v, 0, down) == 0.0 && Level(log, v, 0, alone) == 1.0;
    assert g(up) == 2.0 && g(down) == 0.0 && g(alone) == -1.0;
    assert SumOf(g, [up]) == 2.0 && SumOf(Weights(), [up]) == 2.0;
    assert SumOf(g, [up, down]) == 2.0 && SumOf(Weights(), [up, down]) == 1.0;
    assert SumOf(g, [alone]) == -1.0 && SumOf(Weights(), [alone]) == -1.0;
  }

  // ---------------------------------------------------------------------------------------
  // When the clamp acts
  // ---------------------------------------------------------------------------------------

  function PositiveWeights(): Feature -> real {
    (f: Feature) => if f.weight > 0.0 then f.weight else 0.0
  }

  function NegativeWeights(): Feature -> real {
    (f: Feature) => if f.weight < 0.0 then f.weight else 0.0
  }

  /** Rounding absorbs half a point on either side of the range. */
  predicate WithinHalfAPoint(fs: seq<Feature>) {
    -0.5 <= SumOf(NegativeWeights(), fs) * 900.0 && SumOf(PositiveWeights(), fs) * 900.0 < 900.5
  }

  lemma ShareBetweenSigns(level: real, w: real)
    requires 0.0 <= level <= 1.0
    ensures (if w < 0.0 then w else 0.0) <= Times(level, w) <= if w > 0.0 then w else 0.0
  {
    if w >= 0.0 {
      TimesMonotone(0.0, level, w);
      TimesMonotone(level, 1.0, w);
    } else {
      TimesMonotone(0.0, level, -w);
      TimesMonotone(level, 1.0, -w);
      assert Times(level, -w) == -Times(level, w);
    }
  }

  lemma SumBetweenSigns(log: Log10, fs: seq<Feature>, v: Vector, amountMinor: int)
    ensures SumOf(NegativeWeights(), fs) <= SumOf(Contributions(log, v, amountMinor), fs) <= SumOf(PositiveWeights(), fs)
  {
    var g := Contributions(log, v, amountMinor);
    forall f | f in fs ensures NegativeWeights()(f) <= g(f) <= PositiveWeights()(f) {
      ShareBetweenSigns(Level(log, v, amountMinor, f), f.weight);
    }
    SumMonotone(NegativeWeights(), g, fs);
    SumMonotone(g, PositiveWeights(), fs);
  }

  /** Whatever the configuration, weights within half a point need no clamp. */
  lemma NoClampWithin(log: Log10, fs: seq<Feature>, v: Vector, amountMinor: int)
    requires WithinHalfAPoint(fs)
    ensures 100 <= RawScore(log, fs, v, amountMinor) <= 1000
  {
    SumBetweenSigns(log, fs, v, amountMinor);
  }

  /** The feature vector that has the given value for every feature name. */
  function VectorOf(g: string -> int): Vector {
    Vector(g("txn_count_1min"), g("txn_count_5min"), g("txn_count_1hr"), g("amount_sum_1min"), g("amount_sum_1hr"),
           g("unique_merchants_5min"), g("unique_terminals_5min"), g("merchant_risk") as real,
           g("is_night"), g("is_risky_mcc"), g("is_card_not_present"))
  }

  predicate Known(name: string) {
    || name == "amount_minor" || name == "txn_count_1min" || name == "txn_count_5min" || name == "txn_count_1hr"
    || name == "amount_sum_1min" || name == "amount_sum_1hr" || name == "unique_merchants_5min"
    || name == "unique_terminals_5min" || name == "merchant_risk" || name == "is_night" || name == "is_risky_mcc"
    || name == "is_card_not_present"
  }

  lemma ExtractedValue(g: string -> int, name: string)
    requires Known(name)
    ensures ExtractRaw(name, VectorOf(g), g("amount_minor")) == g(name) as real
  {
  }

  lemma UnknownIsZero(name: string, v: Vector, amountMinor: int)
    requires !Known(name)
    ensures ExtractRaw(name, v, amountMinor) == 0.0
  {
  }

  lemma QuotientMonotone(x: real, y: real, d: real)
    requires x <= y && d > 0.0
    ensures x / d <= y / d
  {
    assert y / d - x / d == (y - x) / d;
  }

  /** The normalised value can be made 0 and 1. */
  predicate ReachesBothEnds(n: Normalisation) {
    match n.kind
    case LogTen => n.cap > 1.0
    case LinearCap => n.cap > 0.0
    case _ => true
  }

  lemma LogEnds(log: Log10, cap: real, high: real)
    requires 1.0 < cap <= high
    ensures log(cap) > 0.0 && log(1.0) / log(cap) == 0.0 && log(high) / log(cap) >= 1.0
  {
    LogPositive(log, cap);
    assert cap == high || log(cap) < log(high);
    QuotientMonotone(log(cap), log(high), log(cap));
  }

  lemma CapEnds(cap: real, high: real)
    requires 0.0 < cap <= high
    ensures 0.0 / cap == 0.0 && cap / cap == 1.0
  {
  }

  lemma Ends(log: Log10, n: Normalisation, high: int)
    requires ReachesBothEnds(n) && high >= 1 && high as real >= n.cap
    ensures Normalise(log, 0.0, n) == 0.0 && Normalise(log, high as real, n) == 1.0
  {
    match n.kind
    case LogTen => LogEnds(log, n.cap, high as real);
    case LinearCap => CapEnds(n.cap, high as real);
    case _ =>
  }

  /** An integer at or above every cap. */
  function High(fs: seq<Feature>): (h: int)
    ensures h >= 1 && forall f :: f in fs ==> f.normalise.cap <= h as real
  {
    if fs == [] then 1
    else
      var before, mine := High(fs[..|fs| - 1]), fs[|fs| - 1].normalise.cap.Floor + 1;
      assert forall f :: f in fs ==> f in fs[..|fs| - 1] || f == fs[|fs| - 1];
      if mine > before then mine else before
  }

  /** Features with names of their own, known to the scorer, whose normalised values reach both ends. */
  predicate Independent(fs: seq<Feature>) {
    && (forall i, j :: 0 <= i < j < |fs| ==> fs[i].name != fs[j].name)
    && (forall f :: f in fs ==> Known(f.name) && ReachesBothEnds(f.normalise))
  }

  /** High for the features whose weight has the wanted sign, zero for the others. */
  function Extreme(fs: seq<Feature>, positive: bool): string -> int {
    name => if exists f :: f in fs && f.name == name && (f.weight > 0.0) == positive then High(fs) else 0
  }

  lemma ExtremeLevel(log: Log10, fs: seq<Feature>, positive: bool, f: Feature)
    requires Independent(fs) && f in fs
    ensures var g := Extreme(fs, positive);
      Level(log, VectorOf(g), g("amount_minor"), f) == if (f.weight > 0.0) == positive then 1.0 else 0.0
  {
    var g := Extreme(fs, positive);
    ExtractedValue(g, f.name);
    Ends(log, f.normalise, High(fs));
    forall e | e in fs && e.name == f.name ensures e == f {
      var i :| 0 <= i < |fs| && fs[i] == e;
      var j :| 0 <= j < |fs| && fs[j] == f;
      assert i == j;
    }
    assert g(f.name) == if (f.weight > 0.0) == positive then High(fs) else 0;
  }

  /** Some input raises exactly the features of positive weight, and some other exactly the rest. */
  lemma ExtremeSum(log: Log10, fs: seq<Feature>, positive: bool)
    requires Independent(fs)
    ensures var g := Extreme(fs, positive);
      SumOf(Contributions(log, VectorOf(g), g("amount_minor")), fs)
      == SumOf(if positive then PositiveWeights() else NegativeWeights(), fs)
  {
    var g := Extreme(fs, positive);
    var x, y := Contributions(log, VectorOf(g), g("amount_minor")), if positive then PositiveWeights() else NegativeWeights();
    forall f | f in fs ensures x(f) == y(f) {
      ExtremeLevel(log, fs, positive, f);
    }
    SumMonotone(x, y, fs);
    SumMonotone(y, x, fs);
  }

  /**
   For features that vary independently, the rounded score of every input is in range before clamping exactly
   when the negative weights, and the excess of the positive ones over one, stay within half a point.
   */
  lemma ClampIdleExactly(log: Log10, fs: seq<Feature>)
    requires Independent(fs)
    ensures (forall v: Vector, amountMinor: int :: 100 <= RawScore(log, fs, v, amountMinor) <= 1000) <==> WithinHalfAPoint(fs)
  {
    if WithinHalfAPoint(fs) {
      forall v: Vector, amountMinor: int ensures 100 <= RawScore(log, fs, v, amountMinor) <= 1000 {
        NoClampWithin(log, fs, v, amountMinor);
      }
    } else {
      var up, down := Extreme(fs, true), Extreme(fs, false);
      ExtremeSum(log, fs, true);
      ExtremeSum(log, fs, false);
      assert !(100 <= RawScore(log, fs, VectorOf(up), up("amount_minor")) <= 1000)
          || !(100 <= RawScore(log, fs, VectorOf(down), down("amount_minor")) <= 1000);
    }
  }

  // ---------------------------------------------------------------------------------------
  // The documented scale
  // ---------------------------------------------------------------------------------------

  /** The configuration file documents the score as a thousand times the weighted sum. */
  function DocumentedScore(weightedSum: real): int {
    Round(weightedSum * 1000.0)
  }

  /**
   The score is never below the documented one for a weighted sum of at most one, above it for a sum of at most
   0.99, the same for a sum of one, and never above it beyond that.
   */
  lemma ScaleCompared(log: Log10, fs: seq<Feature>, v: Vector, amountMinor: int)
    ensures var sum := SumOf(Contributions(log, v, amountMinor), fs); var raw := RawScore(log, fs, v, amountMinor);
      && (sum <= 1.0 ==> raw >= DocumentedScore(sum))
      && (sum <= 0.99 ==> raw > DocumentedScore(sum))
      && (sum == 1.0 ==> raw == DocumentedScore(sum))
      && (sum >= 1.0 ==> raw <= DocumentedScore(sum))
  {
    var sum := SumOf(Contributions(log, v, amountMinor), fs);
    var x, y := sum * 1000.0, 100.0 + sum * 900.0;
    if x <= y {
      RoundMonotone(x, y);
    }
    if y <= x {
      RoundMonotone(y, x);
    }
    if x + 1.0 <= y {
      RoundMonotone(x + 1.0, y);
    }
  }

  /** With weights that are not negative and sum to at most 0.99, as shipped, no input at all has its documented score. */
  lemma NoInputOnDocumentedScale(log: Log10, fs: seq<Feature>, v: Vector, amountMinor: int)
    requires NonNegative(fs) && SumOf(Weights(), fs) <= 0.99
    ensures RawScore(log, fs, v, amountMinor) > DocumentedScore(SumOf(Contributions(log, v, amountMinor), fs))
  {
    SumBounds(log, fs, v, amountMinor);
    ScaleCompared(log, fs, v, amountMinor);
  }

  /** An input with every value zero scores 100 where the documented score is zero. */
  lemma ZeroInputScores100(log: Log10, fs: seq<Feature>)
    requires Independent(fs)
    ensures var v := VectorOf(_ => 0);
      RawScore(log, fs, v, 0) == 100 && DocumentedScore(SumOf(Contributions(log, v, 0), fs)) == 0
  {
    var g: string -> int := _ => 0;
    var x := Contributions(log, VectorOf(g), 0);
    forall f | f in fs ensures x(f) == 0.0 {
      ExtractedValue(g, f.name);
      Ends(log, f.normalise, High(fs));
    }
    SumZero(fs);
    SumMonotone(x, _ => 0.0, fs);
    SumMonotone(_ => 0.0, x, fs);
  }

  // ---------------------------------------------------------------------------------------
  // Monotone in every feature
  // ---------------------------------------------------------------------------------------

  /** No feature of the second vector is below that of the first. */
  predicate AtMost(v: Vector, w: Vector) {
    && v.txnCount1Min <= w.txnCount1Min && v.txnCount5Min <= w.txnCount5Min && v.txnCount1Hr <= w.txnCount1Hr
    && v.amountSum1Min <= w.amountSum1Min && v.amountSum1Hr <= w.amountSum1Hr
    && v.uniqueMerchants5Min <= w.uniqueMerchants5Min && v.uniqueTerminals5Min <= w.uniqueTerminals5Min
    && v.merchantRisk <= w.merchantRisk
    && v.isNight <= w.isNight && v.isRiskyMcc <= w.isRiskyMcc && v.isCardNotPresent <= w.isCardNotPresent
  }

  /** A negative cap makes a feature that is always at its maximum. */
  lemma NegativeCapSaturates(x: real, cap: real)
    requires x <= cap < 0.0
    ensures x / cap >= 1.0
  {
    var q := x / cap;
    assert q * cap == x;
    if q < 1.0 {
      TimesPositive(1.0 - q, -cap);
    }
  }

  lemma NormaliseMonotone(log: Log10, v: real, w: real, n: Normalisation)
    requires v <= w
    ensures Normalise(log, v, n) <= Normalise(log, w, n)
  {
    match n.kind
    case LogTen =>
      if n.cap > 1.0 {
        LogPositive(log, n.cap);
        var x, y := if v > 1.0 then v else 1.0, if w > 1.0 then w else 1.0;
        assert x == y || log(x) < log(y);
        QuotientMonotone(log(x), log(y), log(n.cap));
      }
    case LinearCap =>
      var x, y := if v < n.cap then v else n.cap, if w < n.cap then w else n.cap;
      if n.cap > 0.0 {
        QuotientMonotone(x, y, n.cap);
      } else if n.cap < 0.0 {
        NegativeCapSaturates(y, n.cap);
      }
    case Binary =>
    case Passthrough =>
  }

  function Between(x: real, low: real, high: real): real {
    if x < low then low else if x > high then high else x
  }

  lemma ClampedShare(y: real, top: real)
    requires top > 0.0
    ensures Times(Clamp01(y / top), top) == Between(y, 0.0, top)
  {
    var q := y / top;
    assert Times(q, top) == y;
    if y < 0.0 {
      QuotientMonotone(y, 0.0, top);
    } else {
      QuotientMonotone(0.0, y, top);
      if y <= top {
        QuotientMonotone(y, top, top);
      } else {
        QuotientMonotone(top, y, top);
      }
    }
  }

  lemma LogBetween(log: Log10, v: real, cap: real)
    requires cap > 1.0
    ensures log(cap) > 0.0
    ensures Between(log(if v > 1.0 then v else 1.0), 0.0, log(cap)) == log(Between(v, 1.0, cap))
  {
    LogPositive(log, cap);
    if v > 1.0 {
      LogPositive(log, v);
      assert v == cap || (v < cap && log(v) < log(cap)) || (v > cap && log(v) > log(cap));
    }
  }

  /**
   What each normalisation is: the share of the cap, or of its logarithm, that the value reaches; whether it is
   positive; or the value itself.  A logarithmic cap of at most one or a linear cap of zero gives nothing, and a
   negative linear cap gives everything.
   */
  lemma NormaliseMeaning(log: Log10, v: real, n: Normalisation)
    ensures var r := Normalise(log, v, n);
      match n.kind
      case LogTen => if n.cap <= 1.0 then r == 0.0 else Times(r, log(n.cap)) == log(Between(v, 1.0, n.cap))
      case LinearCap =>
        if n.cap == 0.0 then r == 0.0 else if n.cap < 0.0 then r == 1.0 else Times(r, n.cap) == Between(v, 0.0, n.cap)
      case Binary => (r == 1.0 <==> v > 0.0) && (r == 0.0 <==> v <= 0.0)
      case Passthrough => r == Between(v, 0.0, 1.0)
  {
    match n.kind
    case LogTen =>
      if n.cap > 1.0 {
        LogBetween(log, v, n.cap);
        ClampedShare(log(if v > 1.0 then v else 1.0), log(n.cap));
      }
    case LinearCap =>
      if n.cap > 0.0 {
        ClampedShare(if v < n.cap then v else n.cap, n.cap);
      } else if n.cap < 0.0 {
        NegativeCapSaturates(if v < n.cap then v else n.cap, n.cap);
      }
    case Binary =>
    case Passthrough =>
  }

  /** 0 for approve, 1 for review, 2 for decline. */
  function Rank(decision: string): nat {
    if decision == "APPROVE" then 0 else if decision == "DECLINE" then 2 else 1
  }

  /** Raising any features never lowers the score, and never moves the decision towards approval. */
  lemma ScoreMonotone(log: Log10, c: Config, v: Vector, w: Vector, a: int, b: int)
    requires NonNegative(c.features) && AtMost(v, w) && a <= b
    ensures ScoreOf(log, c, v, a).score <= ScoreOf(log, c, w, b).score
    ensures Rank(ScoreOf(log, c, v, a).decision) <= Rank(ScoreOf(log, c, w, b).decision)
  {
    var g, h := Contributions(log, v, a), Contributions(log, w, b);
    forall f | f in c.features ensures g(f) <= h(f) {
      NormaliseMonotone(log, ExtractRaw(f.name, v, a), ExtractRaw(f.name, w, b), f.normalise);
      TimesMonotone(Level(log, v, a, f), Level(log, w, b, f), f.weight);
    }
    SumMonotone(g, h, c.features);
    RoundMonotone(100.0 + SumOf(g, c.features) * 900.0, 100.0 + SumOf(h, c.features) * 900.0);
  }

  // ---------------------------------------------------------------------------------------
  // Order of the configuration
  // ---------------------------------------------------------------------------------------

  lemma {:induction false} SumConcat(g: Feature -> real, xs: seq<Feature>, ys: seq<Feature>)
    ensures SumOf(g, xs + ys) == SumOf(g, xs) + SumOf(g, ys)
  {
    if ys == [] {
      assert xs + ys == xs;
    } else {
      assert (xs + ys)[..|xs + ys| - 1] == xs + ys[..|ys| - 1];
      SumConcat(g, xs, ys[..|ys| - 1]);
    }
  }

  lemma {:induction false} FactorsConcat(
      log: Log10, threshold: real, xs: seq<Feature>, ys: seq<Feature>, v: Vector, amountMinor: int)
    ensures Factors(log, threshold, xs + ys, v, amountMinor) ==
            Factors(log, threshold, xs, v, amountMinor) + Factors(log, threshold, ys, v, amountMinor)
  {
    if ys == [] {
      assert xs + ys == xs;
    } else {
      assert (xs + ys)[..|xs + ys| - 1] == xs + ys[..|ys| - 1];
      FactorsConcat(log, threshold, xs, ys[..|ys| - 1], v, amountMinor);
    }
  }

  function Without(fs: seq<Feature>, i: nat): seq<Feature>
    requires i < |fs|
  {
    fs[..i] + fs[i + 1..]
  }

  lemma SumSnoc(g: Feature -> real, front: seq<Feature>, x: Feature)
    ensures SumOf(g, front + [x]) == SumOf(g, front) + g(x)
  {
    assert (front + [x])[..|front|] == front;
  }

  lemma SumMiddle(g: Feature -> real, front: seq<Feature>, x: Feature, back: seq<Feature>)
    ensures SumOf(g, front + [x] + back) == SumOf(g, front + back) + g(x)
  {
    SumConcat(g, front + [x], back);
    SumSnoc(g, front, x);
    SumConcat(g, front, back);
  }

  lemma FactorsWithout(log: Log10, threshold: real, fs: seq<Feature>, i: nat, v: Vector, amountMinor: int)
    requires i < |fs|
    ensures multiset(Factors(log, threshold, fs, v, amountMinor)) ==
            multiset(Factors(log, threshold, Without(fs, i), v, amountMinor))
            + multiset(Factors(log, threshold, [fs[i]], v, amountMinor))
  {
    var front, mid, back := fs[..i], [fs[i]], fs[i + 1..];
    assert fs == (front + mid) + back;
    FactorsConcat(log, threshold, front + mid, back, v, amountMinor);
    FactorsConcat(log, threshold, front, mid, v, amountMinor);
    FactorsConcat(log, threshold, front, back, v, amountMinor);
  }

  lemma MultisetWithout(fs: seq<Feature>, i: nat)
    requires i < |fs|
    ensures fs == fs[..i] + [fs[i]] + fs[i + 1..]
    ensures multiset(fs) == multiset(Without(fs, i)) + multiset{fs[i]}
  {
    assert fs == fs[..i] + [fs[i]] + fs[i + 1..];
  }

  lemma SameRest(a: multiset<Feature>, b: multiset<Feature>, x: Feature)
    requires a + multiset{x} == b + multiset{x}
    ensures a == b
  {
    assert a == (a + multiset{x}) - multiset{x};
  }

  /** Where the last feature of one list is in a permutation of it; the rest are permutations of each other. */
  lemma LastInPermutation(xs: seq<Feature>, ys: seq<Feature>) returns (i: nat)
    requires multiset(xs) == multiset(ys) && xs != []
    ensures i < |ys| && ys[i] == xs[|xs| - 1] && ys == ys[..i] + [ys[i]] + ys[i + 1..]
    ensures multiset(xs[..|xs| - 1]) == multiset(Without(ys, i))
  {
    var n := |xs| - 1;
    assert xs[n] in multiset(ys);
    i :| 0 <= i < |ys| && ys[i] == xs[n];
    MultisetWithout(xs, n);
    MultisetWithout(ys, i);
    assert Without(xs, n) == xs[..n];
    SameRest(multiset(xs[..n]), multiset(Without(ys, i)), xs[n]);
  }

  lemma {:induction false} SumPermutes(g: Feature -> real, xs: seq<Feature>, ys: seq<Feature>)
    requires multiset(xs) == multiset(ys)
    ensures SumOf(g, xs) == SumOf(g, ys)
    decreases |xs|
  {
    if xs == [] {
      assert |ys| == |multiset(ys)| == |multiset(xs)| == 0;
    } else {
      var i := LastInPermutation(xs, ys);
      SumPermutes(g, xs[..|xs| - 1], Without(ys, i));
      SumMiddle(g, ys[..i], ys[i], ys[i + 1..]);
    }
  }

  lemma {:induction false} FactorsPermute(
      log: Log10, threshold: real, xs: seq<Feature>, ys: seq<Feature>, v: Vector, amountMinor: int)
    requires multiset(xs) == multiset(ys)
    ensures multiset(Factors(log, threshold, xs, v, amountMinor)) == multiset(Factors(log, threshold, ys, v, amountMinor))
    decreases |xs|
  {
    if xs == [] {
      assert |ys| == |multiset(ys)| == |multiset(xs)| == 0;
    } else {
      var n := |xs| - 1;
      var i := LastInPermutation(xs, ys);
      FactorsPermute(log, threshold, xs[..n], Without(ys, i), v, amountMinor);
      FactorsWithout(log, threshold, ys, i, v, amountMinor);
      FactorsWithout(log, threshold, xs, n, v, amountMinor);
      assert Without(xs, n) == xs[..n];
    }
  }

  /** The order in which features are configured changes neither acceptance, score nor decision, and no factor is lost. */
  lemma OrderIrrelevant(log: Log10, c: Config, features: seq<Feature>, v: Vector, amountMinor: int)
    requires multiset(features) == multiset(c.features)
    ensures var d := c.(features := features);
      && (Accepted(d) <==> Accepted(c))
      && ScoreOf(log, d, v, amountMinor).score == ScoreOf(log, c, v, amountMinor).score
      && ScoreOf(log, d, v, amountMinor).decision == ScoreOf(log, c, v, amountMinor).decision
      && multiset(ScoreOf(log, d, v, amountMinor).factors) == multiset(ScoreOf(log, c, v, amountMinor).factors)
  {
    SumPermutes(Weights(), features, c.features);
    SumPermutes(Contributions(log, v, amountMinor), features, c.features);
    FactorsPermute(log, c.threshold, features, c.features, v, amountMinor);
    assert |features| == |multiset(features)| == |c.features|;
  }

  // ---------------------------------------------------------------------------------------
  // Contributing factors
  // ---------------------------------------------------------------------------------------

  /** The code's test, a contribution above the threshold times the weight, compares the level with the threshold. */
  lemma FactorTest(level: real, weight: real, threshold: real)
    ensures Times(level, weight) > Times(threshold, weight) <==> Notable(level, weight, threshold)
  {
    assert Times(level, weight) - Times(threshold, weight) == Times(level - threshold, weight);
    if weight > 0.0 && level > threshold {
      assert (level - threshold) * weight > 0.0;
    } else if weight < 0.0 && level < threshold {
      assert (threshold - level) * -weight > 0.0;
    } else if weight > 0.0 {
      assert (threshold - level) * weight >= 0.0;
    } else if weight < 0.0 {
      assert (level - threshold) * -weight >= 0.0;
    }
  }

  /** The comparison in the code, for the i-th configured feature. */
  predicate Contributes(log: Log10, threshold: real, fs: seq<Feature>, v: Vector, amountMinor: int, i: nat) {
    i < |fs| && Contributions(log, v, amountMinor)(fs[i]) > Times(threshold, fs[i].weight)
  }

  /** The names are those of the features at the positions. */
  predicate NamesAt(fs: seq<Feature>, js: seq<nat>, names: seq<string>) {
    |names| == |js| && forall a :: 0 <= a < |js| ==> js[a] < |fs| && names[a] == fs[js[a]].name
  }

  lemma FactorsSnoc(log: Log10, threshold: real, fs: seq<Feature>, v: Vector, amountMinor: int, n: nat)
    requires n < |fs|
    ensures var before := Factors(log, threshold, fs[..n], v, amountMinor);
      Factors(log, threshold, fs[..n + 1], v, amountMinor) ==
      if Contributes(log, threshold, fs, v, amountMinor, n) then before + [fs[n].name] else before
  {
    assert fs[..n + 1][..n] == fs[..n];
    FactorTest(Level(log, v, amountMinor, fs[n]), fs[n].weight, threshold);
  }

  lemma NamesSnoc(fs: seq<Feature>, js: seq<nat>, names: seq<string>, n: nat)
    requires NamesAt(fs, js, names) && n < |fs|
    ensures NamesAt(fs, js + [n], names + [fs[n].name])
  {
  }

  lemma FactorsStep(log: Log10, threshold: real, fs: seq<Feature>, v: Vector, amountMinor: int, js: seq<nat>, n: nat)
    requires n < |fs| && NamesAt(fs, js, Factors(log, threshold, fs[..n], v, amountMinor))
    ensures NamesAt(fs, if Contributes(log, threshold, fs, v, amountMinor, n) then js + [n] else js,
                    Factors(log, threshold, fs[..n + 1], v, amountMinor))
  {
    FactorsSnoc(log, threshold, fs, v, amountMinor, n);
    NamesSnoc(fs, js, Factors(log, threshold, fs[..n], v, amountMinor), n);
  }

  lemma {:induction false} FactorsUpTo(
      log: Log10, threshold: real, fs: seq<Feature>, v: Vector, amountMinor: int, n: nat, test: nat -> bool)
    requires n <= |fs| && forall i :: test(i) <==> Contributes(log, threshold, fs, v, amountMinor, i)
    ensures NamesAt(fs, Positions(n, test), Factors(log, threshold, fs[..n], v, amountMinor))
  {
    if n > 0 {
      FactorsUpTo(log, threshold, fs, v, amountMinor, n - 1, test);
      assert test(n - 1) <==> Contributes(log, threshold, fs, v, amountMinor, n - 1);
      FactorsStep(log, threshold, fs, v, amountMinor, Positions(n - 1, test), n - 1);
    }
  }

  /**
   The reported factors are the names of the features whose contribution is above the threshold times the weight,
   each as often as it is configured and in the order of the configuration, and no other names.
   */
  lemma FactorsExactly(log: Log10, c: Config, v: Vector, amountMinor: int)
    ensures var js := Positions(|c.features|, (i: nat) => Contributes(log, c.threshold, c.features, v, amountMinor, i));
      NamesAt(c.features, js, ScoreOf(log, c, v, amountMinor).factors)
  {
    FactorsUpTo(log, c.threshold, c.features, v, amountMinor, |c.features|,
                (i: nat) => Contributes(log, c.threshold, c.features, v, amountMinor, i));
    assert c.features[..|c.features|] == c.features;
  }

  /**
   The configuration file documents a contributing feature as one whose contribution is above the threshold
   itself.  On a weight in [0, 1] the two rules agree on every normalised value exactly in the corner cases.
   */
  lemma DocumentedFactorRule(weight: real, threshold: real)
    requires 0.0 <= weight <= 1.0 && threshold >= 0.0
    ensures (forall level :: 0.0 <= level <= 1.0 ==> (Notable(level, weight, threshold) <==> Times(level, weight) > threshold))
            <==> weight == 0.0 || weight == 1.0 || threshold == 0.0 || threshold >= 1.0
  {
    if weight == 0.0 || weight == 1.0 || threshold == 0.0 || threshold >= 1.0 {
      forall level | 0.0 <= level <= 1.0 ensures Notable(level, weight, threshold) <==> Times(level, weight) > threshold {
        TimesMonotone(level, 1.0, weight);
        FactorTest(level, weight, threshold);
      }
    } else {
      var gap := Times(threshold, 1.0 - weight);
      TimesPositive(threshold, 1.0 - weight);
      TimesPositive(gap, 1.0 - weight);
      var level := if threshold + gap <= 1.0 then threshold + gap else 1.0;
      TimesMonotone(level, threshold + gap, weight);
      assert Times(threshold + gap, weight) == threshold - Times(gap, 1.0 - weight);
      assert Notable(level, weight, threshold) && !(Times(level, weight) > threshold);
    }
  }

  // ---------------------------------------------------------------------------------------
  // The scorer
  // ---------------------------------------------------------------------------------------

  datatype Rejection = WeightsExceedOne | NoFeatures

  method New(c: Config) returns (error: Option<Rejection>)
    ensures error == None <==> Accepted(c)
    ensures error == Some(NoFeatures) <==> c.features == []
    ensures error == Some(WeightsExceedOne) <==> SumOf(Weights(), c.features) > 1.000000001
  {
    var totalWeight := 0.0;
    for i := 0 to |c.features|
      invariant totalWeight == SumOf(Weights(), c.features[..i])
    {
      assert c.features[..i + 1][..i] == c.features[..i];
      totalWeight := totalWeight + c.features[i].weight;
    }
    assert c.features[..|c.features|] == c.features;
    if totalWeight > 1.0 + TOLERANCE {
      return Some(WeightsExceedOne);
    }
    if |c.features| == 0 {
      return Some(NoFeatures);
    }
    error := None;
  }

  /** One pass over the features: each contribution, and their running sum. */
  method Accumulate(g: Feature -> real, fs: seq<Feature>) returns (weightedSum: real, contribs: seq<real>)
    ensures weightedSum == SumOf(g, fs)
    ensures |contribs| == |fs| && forall j :: 0 <= j < |fs| ==> contribs[j] == g(fs[j])
  {
    weightedSum, contribs := 0.0, [];
    for i := 0 to |fs|
      invariant weightedSum == SumOf(g, fs[..i])
      invariant |contribs| == i
      invariant forall j :: 0 <= j < i ==> contribs[j] == g(fs[j])
    {
      assert fs[..i + 1] == fs[..i] + [fs[i]];
      SumSnoc(g, fs[..i], fs[i]);
      var contribution := g(fs[i]);
      weightedSum := weightedSum + contribution;
      contribs := contribs + [contribution];
    }
    assert fs[..|fs|] == fs;
  }

  method ContributingFactors(log: Log10, c: Config, v: Vector, amountMinor: int, contribs: seq<real>) returns (factors: seq<string>)
    requires |contribs| == |c.features|
    requires forall j :: 0 <= j < |contribs| ==> contribs[j] == Contributions(log, v, amountMinor)(c.features[j])
    ensures factors == Factors(log, c.threshold, c.features, v, amountMinor)
  {
    var fs := c.features;
    factors := [];
    for i := 0 to |fs|
      invariant factors == Factors(log, c.threshold, fs[..i], v, amountMinor)
    {
      assert fs[..i + 1][..i] == fs[..i];
      FactorTest(Level(log, v, amountMinor, fs[i]), fs[i].weight, c.threshold);
      var threshold := Times(c.threshold, fs[i].weight);
      if contribs[i] > threshold {
        factors := factors + [fs[i].name];
      }
    }
    assert fs[..|fs|] == fs;
  }

  method Score(log: Log10, c: Config, v: Vector, amountMinor: int) returns (r: Result)
    ensures r == ScoreOf(log, c, v, amountMinor)
  {
    var weightedSum, contribs := Accumulate(Contributions(log, v, amountMinor), c.features);
    var score := Bounded(Round(100.0 + weightedSum * 900.0));
    var factors := ContributingFactors(log, c, v, amountMinor, contribs);
    r := Result(score, Decide(c.approveBelow, c.declineAbove, score), factors);
  }
}
