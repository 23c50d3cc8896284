/** Deterministic capped backoff with symmetric jitter, in the source's fixed-width arithmetic. */
module Retry {
  import opened Basics
  import opened Identifiers
  import opened DeliveryConfig

  const NANOS_PER_MILLI: int := 1_000_000
  /** 9999-12-31T23:59:59.999999999Z, the last representable instant, in nanoseconds. */
  const LAST_INSTANT: int := 253_402_300_799_999_999_999

  function Pow2(n: nat): (p: nat)
    ensures p >= 1
  {
    if n == 0 then 1 else 2 * Pow2(n - 1)
  }

  /** `capped_delay`: a u128 checked shift, a saturating multiply, a narrowing to u64, a minimum. */
  function CappedDelay(policy: DeliveryPolicy, attempt: nat): int {
    var shifts := if attempt == 0 then 0 else attempt - 1;
    var multiplier := if shifts < 128 then Pow2(shifts) else U128_MAX;
    var expanded := Min(policy.baseBackoffMs * multiplier, U128_MAX);
    var narrowed := if expanded <= U64_MAX then expanded else U64_MAX;
    Min(narrowed, policy.maxBackoffMs)
  }

  /** The jitter half-window, `floor(delay * ratio)`. */
  function Window(policy: DeliveryPolicy, attempt: nat): int {
    (CappedDelay(policy, attempt) as real * policy.jitterRatio).Floor
  }

  /** `deterministic_retry_at`; `hash` is the first eight digest bytes of (event, route, attempt). */
  function RetryAt(eventId: string, hash: nat, attempt: nat, policy: DeliveryPolicy, committedAt: int): Result<int> {
    if !IsSha256(eventId) || attempt == 0 || !policy.Valid() then Err else
      var delay := CappedDelay(policy, attempt);
      var window := Window(policy, attempt);
      if window < 0 || window > U64_MAX || 2 * window + 1 > U64_MAX then Err else
        var raw := hash % (2 * window + 1);
        var offset := raw - window;
        var delayed := if delay + offset < 0 then 0 else delay + offset;
        if delayed > 0x7FFF_FFFF_FFFF_FFFF || committedAt + delayed * NANOS_PER_MILLI > LAST_INSTANT then Err
        else Ok(committedAt + delayed * NANOS_PER_MILLI)
  }

  lemma {:induction false} Pow2Monotone(a: nat, b: nat)
    requires a <= b
    ensures Pow2(a) <= Pow2(b)
    decreases b
  {
    if a < b {
      Pow2Monotone(a, b - 1);
    }
  }

  lemma {:induction false} Pow2Add(a: nat, b: nat)
    ensures Pow2(a + b) == Pow2(a) * Pow2(b)
  {
    if a > 0 {
      Pow2Add(a - 1, b);
    }
  }

  lemma Pow2Doubled(n: nat, value: nat, square: nat)
    requires Pow2(n) == value && value * value == square
    ensures Pow2(2 * n) == square
  {
    Pow2Add(n, n);
  }

  /** One bit past the widest multiplier. */
  lemma Pow2At128()
    ensures Pow2(128) == U128_MAX + 1
  {
    Pow2Doubled(1, 2, 4);
    Pow2Doubled(2, 4, 16);
    Pow2Doubled(4, 16, 0x100);
    Pow2Doubled(8, 0x100, 0x1_0000);
    Pow2Doubled(16, 0x1_0000, 0x1_0000_0000);
    Pow2Doubled(32, 0x1_0000_0000, 0x1_0000_0000_0000_0000);
    Pow2Doubled(64, 0x1_0000_0000_0000_0000, U128_MAX + 1);
  }

  lemma ScaleMonotone(base: nat, a: nat, b: nat)
    requires a <= b
    ensures base * a <= base * b
  {
    assert base * (b - a) >= 0;
  }

  lemma ScaledAtLeast(base: nat, factor: nat)
    requires base >= 1
    ensures base * factor >= factor
  {
    assert (base - 1) * factor >= 0;
  }

  /** Saturation is never observable: the fixed-width delay is `min(base * 2^(attempt-1), max)`. */
  lemma CappedDelayExact(policy: DeliveryPolicy, attempt: nat)
    requires policy.Valid() && attempt >= 1
    ensures CappedDelay(policy, attempt) == Min(policy.baseBackoffMs * Pow2(attempt - 1), policy.maxBackoffMs)
  {
    if attempt - 1 >= 128 {
      Pow2At128();
      Pow2Monotone(128, attempt - 1);
      ScaledAtLeast(policy.baseBackoffMs, Pow2(attempt - 1));
      ScaledAtLeast(policy.baseBackoffMs, U128_MAX);
    }
  }

  lemma CappedDelayMonotone(policy: DeliveryPolicy, attempt: nat, later: nat)
    requires policy.Valid() && 1 <= attempt <= later
    ensures policy.baseBackoffMs <= CappedDelay(policy, attempt) <= CappedDelay(policy, later) <= policy.maxBackoffMs
  {
    CappedDelayExact(policy, attempt);
    CappedDelayExact(policy, later);
    Pow2Monotone(attempt - 1, later - 1);
    var base := policy.baseBackoffMs;
    ScaleMonotone(base, Pow2(attempt - 1), Pow2(later - 1));
    ScaleMonotone(base, 1, Pow2(attempt - 1));
  }

  lemma FractionFloor(whole: nat, ratio: real)
    requires 0.0 <= ratio <= 1.0
    ensures 0 <= (whole as real * ratio).Floor <= whole
  {
    var w := whole as real;
    assert w * ratio >= 0.0;
    assert w * (1.0 - ratio) >= 0.0;
    assert w * (1.0 - ratio) == w - w * ratio;
  }

  lemma WindowWithinDelay(policy: DeliveryPolicy, attempt: nat)
    requires policy.Valid() && attempt >= 1
    ensures 0 <= Window(policy, attempt) <= CappedDelay(policy, attempt)
  {
    CappedDelayMonotone(policy, attempt, attempt);
    FractionFloor(CappedDelay(policy, attempt), policy.jitterRatio);
  }

  /**
    The retry instant: the call fails exactly on a malformed key or past the last instant, no
    internal overflow branch and no clamp is ever taken, and the delay is the capped delay moved
    by a signed offset inside the window.
   */
  lemma RetryAtExact(eventId: string, hash: nat, attempt: nat, policy: DeliveryPolicy, committedAt: int)
    requires policy.Valid() && IsSha256(eventId) && attempt >= 1
    ensures
      var delay, window := CappedDelay(policy, attempt), Window(policy, attempt);
      var offset := hash % (2 * window + 1) - window;
      && 2 * window + 1 <= U64_MAX
      && 0 <= window <= delay
      && -window <= offset <= window
      && 0 <= delay + offset <= 2 * policy.maxBackoffMs
      && (RetryAt(eventId, hash, attempt, policy, committedAt).Ok? <==>
            committedAt + (delay + offset) * NANOS_PER_MILLI <= LAST_INSTANT)
      && (RetryAt(eventId, hash, attempt, policy, committedAt).Ok? ==>
            RetryAt(eventId, hash, attempt, policy, committedAt).value
              == committedAt + (delay + offset) * NANOS_PER_MILLI)
  {
    WindowWithinDelay(policy, attempt);
    CappedDelayMonotone(policy, attempt, attempt);
  }

  /** The retry instant from its delay and its window. */
  lemma RetryAtFrom(
    eventId: string, hash: nat, attempt: nat, policy: DeliveryPolicy, committedAt: int, delay: int, window: int)
    requires policy.Valid() && IsSha256(eventId) && attempt >= 1
    requires delay == CappedDelay(policy, attempt) && window == Window(policy, attempt)
    ensures 0 <= window <= delay
    ensures
      var retryAt := committedAt + (delay + hash % (2 * window + 1) - window) * NANOS_PER_MILLI;
      RetryAt(eventId, hash, attempt, policy, committedAt) == if retryAt <= LAST_INSTANT then Ok(retryAt) else Err
  {
    RetryAtExact(eventId, hash, attempt, policy, committedAt);
  }

  lemma WindowOfDelay(policy: DeliveryPolicy, attempt: nat, delay: int)
    requires delay == CappedDelay(policy, attempt)
    ensures Window(policy, attempt) == (delay as real * policy.jitterRatio).Floor
  {
  }

  /** The retry instant after `failures` earlier attempts, spelled out over unbounded integers. */
  lemma RetryAtSpelled(
    eventId: string, hash: nat, failures: nat, policy: DeliveryPolicy, committedAt: int, delay: int, window: int)
    requires policy.Valid() && IsSha256(eventId)
    requires delay == Min(policy.baseBackoffMs * Pow2(failures), policy.maxBackoffMs)
    requires window == (delay as real * policy.jitterRatio).Floor
    ensures 0 <= window <= delay
    ensures
      var retryAt := committedAt + (delay + hash % (2 * window + 1) - window) * NANOS_PER_MILLI;
      RetryAt(eventId, hash, failures + 1, policy, committedAt)
        == if retryAt <= LAST_INSTANT then Ok(retryAt) else Err
  {
    CappedDelayExact(policy, failures + 1);
    WindowOfDelay(policy, failures + 1, delay);
    RetryAtFrom(eventId, hash, failures + 1, policy, committedAt, delay, window);
  }

  /** The jitter is symmetric and complete: every offset in the window is produced by some digest. */
  lemma EveryOffsetReachable(policy: DeliveryPolicy, attempt: nat, offset: int)
    returns (hash: nat)
    requires policy.Valid() && attempt >= 1
    requires -Window(policy, attempt) <= offset <= Window(policy, attempt)
    ensures hash <= U64_MAX
    ensures Window(policy, attempt) >= 0 && hash % (2 * Window(policy, attempt) + 1) - Window(policy, attempt) == offset
  {
    WindowWithinDelay(policy, attempt);
    CappedDelayMonotone(policy, attempt, attempt);
    var window: int := Window(policy, attempt);
    SmallRemainder(offset + window, 2 * window + 1);
    hash := offset + window;
  }

  lemma SmallRemainder(n: int, modulus: int)
    requires 0 <= n < modulus
    ensures n % modulus == n
  {
  }
}
