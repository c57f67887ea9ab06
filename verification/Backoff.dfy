/**
 The exponential-backoff schedule that the persistence service and the result
 notifier both follow.  Delays are real numbers of seconds.
 */
module Backoff {
  datatype Config = Config(maxAttempts: int, initialDelay: real, multiplier: real, maxDelay: real)

  /** Delays and factors read from configuration files are not negative. */
  predicate Sane(c: Config) {
    c.initialDelay >= 0.0 && c.multiplier >= 0.0 && c.maxDelay >= 0.0
  }

  function Cap(x: real, cap: real): real {
    if x > cap then cap else x
  }

  function Grow(c: Config, delay: real): real {
    delay * c.multiplier
  }

  /** One update of the loop variable `delay`. */
  function NextDelay(c: Config, delay: real): real {
    Cap(Grow(c, delay), c.maxDelay)
  }

  /** The wait before retry k, counting retries from zero. */
  function Wait(c: Config, k: nat): real {
    if k == 0 then c.initialDelay else NextDelay(c, Wait(c, k - 1))
  }

  function Waits(c: Config, n: nat): seq<real> {
    seq(n, k requires 0 <= k => Wait(c, k))
  }

  function Total(waits: seq<real>): real {
    if waits == [] then 0.0 else Total(waits[..|waits| - 1]) + waits[|waits| - 1]
  }

  /** Uncapped geometric growth: the first delay times the k-th power of the factor. */
  function Geometric(c: Config, k: nat): real {
    if k == 0 then c.initialDelay else Grow(c, Geometric(c, k - 1))
  }

  /** The documented schedule: geometric growth under a cap. */
  function CappedGeometric(c: Config, k: nat): real {
    Cap(Geometric(c, k), c.maxDelay)
  }

  lemma ProductNotNegative(x: real, y: real)
    requires x >= 0.0 && y >= 0.0
    ensures x * y >= 0.0
  {
  }

  lemma GrowBounds(c: Config, d: real)
    requires Sane(c) && d >= 0.0
    ensures Grow(c, d) >= 0.0
    ensures c.multiplier <= 1.0 ==> Grow(c, d) <= d
    ensures c.multiplier >= 1.0 ==> Grow(c, d) >= d
  {
    var m := c.multiplier;
    if m <= 1.0 {
      ProductNotNegative(d, 1.0 - m);
    }
    if m >= 1.0 {
      ProductNotNegative(d, m - 1.0);
    }
    ProductNotNegative(d, m);
  }

  lemma {:induction false} GeometricBounds(c: Config, k: nat)
    requires Sane(c)
    ensures Geometric(c, k) >= 0.0
    ensures c.multiplier <= 1.0 ==> Geometric(c, k) <= c.initialDelay
  {
    if k > 0 {
      GeometricBounds(c, k - 1);
      GrowBounds(c, Geometric(c, k - 1));
    }
  }

  /** Capping before a multiplication and after it is the same as capping once after it. */
  lemma CapOnce(c: Config, d: real)
    requires Sane(c) && d >= 0.0
    requires d > c.maxDelay ==> c.multiplier >= 1.0
    ensures NextDelay(c, Cap(d, c.maxDelay)) == Cap(Grow(c, d), c.maxDelay)
  {
    if d > c.maxDelay {
      GrowBounds(c, d);
      GrowBounds(c, c.maxDelay);
    }
  }

  lemma {:induction false} WaitIsCappedGeometric(c: Config, k: nat)
    requires Sane(c) && c.initialDelay <= c.maxDelay
    ensures Wait(c, k) == CappedGeometric(c, k)
  {
    if k > 0 {
      WaitIsCappedGeometric(c, k - 1);
      GeometricBounds(c, k - 1);
      CapOnce(c, Geometric(c, k - 1));
    }
  }

  /** The loops realise the capped geometric schedule exactly when the first delay is within the cap. */
  lemma ScheduleExact(c: Config)
    requires Sane(c)
    ensures (forall k: nat :: Wait(c, k) == CappedGeometric(c, k)) <==> c.initialDelay <= c.maxDelay
  {
    if c.initialDelay <= c.maxDelay {
      forall k: nat ensures Wait(c, k) == CappedGeometric(c, k) {
        WaitIsCappedGeometric(c, k);
      }
    } else {
      assert Wait(c, 0) != CappedGeometric(c, 0);
    }
  }

  lemma {:induction false} WaitBounds(c: Config, k: nat)
    requires Sane(c) && c.initialDelay <= c.maxDelay
    ensures 0.0 <= Wait(c, k) <= c.maxDelay
  {
    if k > 0 {
      WaitBounds(c, k - 1);
      GrowBounds(c, Wait(c, k - 1));
    }
  }

  /** With a factor of at least one, waits never shrink exactly when the first delay is within the cap. */
  lemma WaitsNeverShrink(c: Config)
    requires Sane(c) && c.multiplier >= 1.0
    ensures (forall k: nat :: Wait(c, k) <= Wait(c, k + 1)) <==> c.initialDelay <= c.maxDelay
  {
    if c.initialDelay <= c.maxDelay {
      forall k: nat ensures Wait(c, k) <= Wait(c, k + 1) {
        WaitBounds(c, k);
        GrowBounds(c, Wait(c, k));
        assert Wait(c, k + 1) == NextDelay(c, Wait(c, k));
      }
    } else {
      assert Wait(c, 1) == NextDelay(c, Wait(c, 0)) <= c.maxDelay < Wait(c, 0);
      assert !(Wait(c, 0) <= Wait(c, 0 + 1));
    }
  }

  /** So many times the cap. */
  function Caps(n: int, cap: real): real {
    n as real * cap
  }

  /** The waits of n retries never add up to more than n caps. */
  lemma {:induction false} TotalWaitBounded(c: Config, n: nat)
    requires Sane(c) && c.initialDelay <= c.maxDelay
    ensures 0.0 <= Total(Waits(c, n)) <= Caps(n, c.maxDelay)
  {
    if n > 0 {
      TotalWaitBounded(c, n - 1);
      WaitBounds(c, n - 1);
      assert Waits(c, n)[..n - 1] == Waits(c, n - 1);
      assert Caps(n, c.maxDelay) == Caps(n - 1, c.maxDelay) + c.maxDelay;
    }
  }

  lemma MoreCaps(n: int, m: int, cap: real)
    requires n <= m && cap >= 0.0
    ensures Caps(n, cap) <= Caps(m, cap)
  {
    ProductNotNegative((m - n) as real, cap);
    assert (m - n) as real == m as real - n as real;
  }

  /** Waits that follow the schedule, fewer of them than attempts, add up to at most MaxAttempts - 1 caps. */
  lemma ScheduledWaitBounded(c: Config, waits: seq<real>)
    requires Sane(c) && c.initialDelay <= c.maxDelay && |waits| <= c.maxAttempts - 1
    requires forall i :: 0 <= i < |waits| ==> waits[i] == Wait(c, i)
    ensures 0.0 <= Total(waits) <= Caps(c.maxAttempts - 1, c.maxDelay)
  {
    assert waits == Waits(c, |waits|);
    TotalWaitBounded(c, |waits|);
    assert Total(waits) <= Caps(|waits|, c.maxDelay);
    MoreCaps(|waits|, c.maxAttempts - 1, c.maxDelay);
  }
}
