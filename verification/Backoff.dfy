/** Capped exponential backoff of the Kafka consumer. Durations are whole nanoseconds. */
module Backoff {

  datatype RetryConfig = RetryConfig(
    maxAttempts: nat,
    initialDelay: int,
    maxDelay: int,
    multiplier: real)

  // The conversion of a float to a duration, which cuts off the fraction.
  function Truncate(x: real): int {
    if x >= 0.0 then x.Floor else -((-x).Floor)
  }

  function Scaled(cfg: RetryConfig, delay: int): int {
    Truncate(delay as real * cfg.multiplier)
  }

  function Capped(cfg: RetryConfig, delay: int): int {
    if delay > cfg.maxDelay then cfg.maxDelay else delay
  }

  // The delay before retry number n, one multiplication and one cap at a time.
  function Delay(cfg: RetryConfig, n: int): int
    decreases if n <= 0 then 0 else n
  {
    if n <= 0 then cfg.initialDelay
    else Capped(cfg, Scaled(cfg, Delay(cfg, n - 1)))
  }

  method CalculateDelay(cfg: RetryConfig, retryCount: int) returns (delay: int)
    ensures delay == Delay(cfg, retryCount)
  {
    delay := cfg.initialDelay;
    var i := 0;
    while i < retryCount
      invariant 0 <= i && (i <= retryCount || i == 0)
      invariant delay == Delay(cfg, i)
    {
      delay := Scaled(cfg, delay);
      if delay > cfg.maxDelay {
        delay := cfg.maxDelay;
      }
      i := i + 1;
    }
  }

  function Pow(m: nat, n: nat): nat {
    if n == 0 then 1 else m * Pow(m, n - 1)
  }

  function Min(a: int, b: int): int {
    if a <= b then a else b
  }

  lemma ScaledWhole(cfg: RetryConfig, x: nat, m: nat)
    requires cfg.multiplier == m as real
    ensures Scaled(cfg, x) == x * m
  {
    assert x as real * m as real == (x * m) as real;
  }

  lemma MulGrows(a: nat, m: nat)
    requires m >= 1
    ensures a * m >= a
  {}

  lemma MulAssociates(a: nat, p: nat, m: nat)
    ensures a * p >= 0 && (a * p) * m == a * (m * p)
  {}

  // Capping before or after the next multiplication gives the same capped value.
  lemma CapCommutes(full: nat, cap: nat, m: nat)
    requires m >= 1
    ensures Min(Min(full, cap) * m, cap) == Min(full * m, cap)
  {
    MulGrows(Min(full, cap), m);
    MulGrows(full, m);
  }

  // For a whole multiplier the loop computes the textbook formula.
  lemma {:induction false} ClosedForm(cfg: RetryConfig, m: nat, n: nat)
    requires m >= 1 && cfg.multiplier == m as real
    requires 0 <= cfg.initialDelay <= cfg.maxDelay
    ensures Delay(cfg, n) == Min(cfg.initialDelay * Pow(m, n), cfg.maxDelay)
  {
    if n > 0 {
      ClosedForm(cfg, m, n - 1);
      MulAssociates(cfg.initialDelay, Pow(m, n - 1), m);
      var full: nat := cfg.initialDelay * Pow(m, n - 1);
      ScaledWhole(cfg, Delay(cfg, n - 1), m);
      CapCommutes(full, cfg.maxDelay, m);
    }
  }

  // ----- any multiplier -----

  // The product is rounded towards zero.
  lemma ScaledSpec(cfg: RetryConfig, delay: int)
    ensures var x := delay as real * cfg.multiplier;
            && (x >= 0.0 ==> 0.0 <= Scaled(cfg, delay) as real <= x < Scaled(cfg, delay) as real + 1.0)
            && (x < 0.0 ==> Scaled(cfg, delay) as real - 1.0 < x <= Scaled(cfg, delay) as real <= 0.0)
  {}

  // The first delay multiplied n times, with neither rounding nor cap.
  function Exact(cfg: RetryConfig, n: nat): real {
    if n == 0 then cfg.initialDelay as real else cfg.multiplier * Exact(cfg, n - 1)
  }

  // 1 + m + ... + m to the n - 1: the most that n roundings, multiplied on, take away.
  function Rounding(m: real, n: nat): real {
    if n == 0 then 0.0 else 1.0 + m * Rounding(m, n - 1)
  }

  predicate Between(cfg: RetryConfig, d: int, exact: real, rounding: real) {
    0 <= d <= cfg.maxDelay && d as real <= exact && (d == cfg.maxDelay || exact - rounding <= d as real)
  }

  lemma ScaleBound(d: real, full: real, m: real)
    requires m >= 0.0 && d <= full
    ensures d * m <= m * full
  {
    assert m * (full - d) >= 0.0;
  }

  // One multiplication and one cap keep the bounds on the delay.
  lemma NextDelay(cfg: RetryConfig, d: int, exact: real, rounding: real)
    requires cfg.multiplier >= 1.0 && Between(cfg, d, exact, rounding)
    ensures Between(cfg, Capped(cfg, Scaled(cfg, d)), cfg.multiplier * exact, 1.0 + cfg.multiplier * rounding)
  {
    var m, x := cfg.multiplier, d as real;
    ScaledSpec(cfg, d);
    ScaledGrows(cfg, d);
    ScaleBound(x, exact, m);
    if d < cfg.maxDelay {
      ScaleBound(exact - rounding, x, m);
      assert (exact - rounding) * m == m * exact - m * rounding && m * x == x * m;
    }
  }

  lemma NextIsExponential(cfg: RetryConfig, n: nat, d: int)
    requires n > 0 && cfg.multiplier >= 1.0
    requires Between(cfg, d, Exact(cfg, n - 1), Rounding(cfg.multiplier, n - 1))
    ensures Between(cfg, Capped(cfg, Scaled(cfg, d)), Exact(cfg, n), Rounding(cfg.multiplier, n))
  {
    NextDelay(cfg, d, Exact(cfg, n - 1), Rounding(cfg.multiplier, n - 1));
  }

  // Whatever the multiplier, the delay of retry n is the first delay multiplied n times,
  // short of it by the roundings at most, or it is the cap; and it exceeds neither.
  lemma {:induction false} DelayIsExponential(cfg: RetryConfig, n: nat)
    requires cfg.multiplier >= 1.0 && 0 <= cfg.initialDelay <= cfg.maxDelay
    ensures Between(cfg, Delay(cfg, n), Exact(cfg, n), Rounding(cfg.multiplier, n))
  {
    if n > 0 {
      DelayIsExponential(cfg, n - 1);
      NextIsExponential(cfg, n, Delay(cfg, n - 1));
    }
  }

  // The cap holds exactly when the configured first delay is not itself above it:
  // the loop caps only after a multiplication, so retry 0 is never capped.
  lemma {:induction false} DelayCapped(cfg: RetryConfig, n: int)
    ensures Delay(cfg, n) <= cfg.maxDelay <==> (n <= 0 ==> cfg.initialDelay <= cfg.maxDelay)
  {}

  lemma ScaledGrows(cfg: RetryConfig, d: nat)
    requires cfg.multiplier >= 1.0
    ensures Scaled(cfg, d) >= d
  {
    var x := d as real;
    assert x * cfg.multiplier >= x * 1.0;
  }

  lemma ScaledMonotone(cfg: RetryConfig, d: nat, e: nat)
    requires cfg.multiplier >= 0.0 && d <= e
    ensures 0 <= Scaled(cfg, d) <= Scaled(cfg, e)
  {
    var x, y := d as real, e as real;
    assert 0.0 <= x * cfg.multiplier <= y * cfg.multiplier;
  }

  lemma {:induction false} DelayNonNegative(cfg: RetryConfig, n: int)
    requires cfg.initialDelay >= 0 && cfg.maxDelay >= 0 && cfg.multiplier >= 0.0
    ensures Delay(cfg, n) >= 0
    decreases if n <= 0 then 0 else n
  {
    if n > 0 {
      DelayNonNegative(cfg, n - 1);
      ScaledMonotone(cfg, 0, Delay(cfg, n - 1));
    }
  }

  lemma {:induction false} DelayStep(cfg: RetryConfig, n: nat)
    requires 0 <= cfg.initialDelay <= cfg.maxDelay && cfg.multiplier >= 0.0
    requires cfg.initialDelay <= Scaled(cfg, cfg.initialDelay)
    ensures 0 <= Delay(cfg, n) <= Delay(cfg, n + 1)
  {
    if n > 0 {
      DelayStep(cfg, n - 1);
      ScaledMonotone(cfg, Delay(cfg, n - 1), Delay(cfg, n));
    }
  }

  ghost predicate NonDecreasing(cfg: RetryConfig) {
    forall n: nat :: Delay(cfg, n) <= Delay(cfg, n + 1)
  }

  lemma FirstDelays(cfg: RetryConfig)
    ensures Delay(cfg, 0) == cfg.initialDelay
    ensures Delay(cfg, 1) == Capped(cfg, Scaled(cfg, cfg.initialDelay))
  {
    assert Delay(cfg, 1 - 1) == cfg.initialDelay;
  }

  // Backoff grows exactly when the first delay respects the cap and the multiplier does not
  // shrink it; a first delay above the cap makes the second wait shorter than the first.
  lemma {:induction false} GrowsIffFirstStepGrows(cfg: RetryConfig)
    requires cfg.initialDelay >= 0 && cfg.multiplier >= 0.0
    ensures NonDecreasing(cfg)
           <==> cfg.initialDelay <= cfg.maxDelay && cfg.initialDelay <= Scaled(cfg, cfg.initialDelay)
    ensures cfg.multiplier >= 1.0 ==> cfg.initialDelay <= Scaled(cfg, cfg.initialDelay)
  {
    if cfg.initialDelay <= cfg.maxDelay && cfg.initialDelay <= Scaled(cfg, cfg.initialDelay) {
      forall n: nat ensures Delay(cfg, n) <= Delay(cfg, n + 1) { DelayStep(cfg, n); }
    }
    FirstDelays(cfg);
    assert NonDecreasing(cfg) ==> Delay(cfg, 0) <= Delay(cfg, 0 + 1);
    if cfg.multiplier >= 1.0 { ScaledGrows(cfg, cfg.initialDelay); }
  }

  // The waits of one record that is retried n times.
  function TotalWait(cfg: RetryConfig, n: nat): int {
    if n == 0 then 0 else TotalWait(cfg, n - 1) + Delay(cfg, n - 1)
  }

  function Geometric(cfg: RetryConfig, m: nat, n: nat): int {
    if n == 0 then 0
    else Geometric(cfg, m, n - 1) + Min(cfg.initialDelay * Pow(m, n - 1), cfg.maxDelay)
  }

  lemma {:induction false} TotalWaitClosedForm(cfg: RetryConfig, m: nat, n: nat)
    requires m >= 1 && cfg.multiplier == m as real
    requires 0 <= cfg.initialDelay <= cfg.maxDelay
    ensures TotalWait(cfg, n) == Geometric(cfg, m, n)
  {
    if n > 0 {
      TotalWaitClosedForm(cfg, m, n - 1);
      ClosedForm(cfg, m, n - 1);
    }
  }

  lemma {:induction false} TotalWaitGrows(cfg: RetryConfig, i: nat, j: nat)
    requires cfg.initialDelay >= 0 && cfg.maxDelay >= 0 && cfg.multiplier >= 0.0
    requires i <= j
    ensures TotalWait(cfg, i) <= TotalWait(cfg, j)
    decreases j
  {
    if i < j {
      TotalWaitGrows(cfg, i, j - 1);
      DelayNonNegative(cfg, j - 1);
    }
  }

  // Raw settings as read from the application config, and the defaults that replace
  // the settings that are not positive. Delays are given in milliseconds.
  datatype RawConfig = RawConfig(
    retryMaxAttempts: int,
    retryInitialBackoff: int,
    retryMaxBackoff: int,
    retryMultiplier: real)

  const MILLISECOND := 1_000_000

  function OrDefault(x: int, default: int): int {
    if x <= 0 then default else x
  }

  function NewRetryConfig(raw: RawConfig): (cfg: RetryConfig)
    ensures cfg.maxAttempts >= 1 && cfg.initialDelay > 0 && cfg.maxDelay > 0 && cfg.multiplier > 0.0
    ensures raw.retryMaxAttempts > 0 ==> cfg.maxAttempts == raw.retryMaxAttempts
    ensures raw.retryInitialBackoff > 0 ==> cfg.initialDelay == raw.retryInitialBackoff * 1_000_000
    ensures raw.retryMaxBackoff > 0 ==> cfg.maxDelay == raw.retryMaxBackoff * 1_000_000
    ensures raw.retryMultiplier > 0.0 ==> cfg.multiplier == raw.retryMultiplier
    ensures raw.retryMaxAttempts <= 0 ==> cfg.maxAttempts == 3
    ensures raw.retryInitialBackoff <= 0 ==> cfg.initialDelay == 100_000_000
    ensures raw.retryMaxBackoff <= 0 ==> cfg.maxDelay == 10_000_000_000
    ensures raw.retryMultiplier <= 0.0 ==> cfg.multiplier == 2.0
  {
    RetryConfig(
      OrDefault(raw.retryMaxAttempts, 3),
      OrDefault(raw.retryInitialBackoff, 100) * MILLISECOND,
      OrDefault(raw.retryMaxBackoff, 10000) * MILLISECOND,
      if raw.retryMultiplier <= 0.0 then 2.0 else raw.retryMultiplier)
  }
}
