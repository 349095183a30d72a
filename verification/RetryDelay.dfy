/** The outbox retry delay, outboxRetryDelay of internal/eventbus/outbox.go, in 64-bit nanoseconds. */
module RetryDelay {
  newtype Duration = x: int | -0x8000_0000_0000_0000 <= x < 0x8000_0000_0000_0000

  const DEFAULT_MAX_DELAY: Duration := 60_000_000_000

  function Power2(n: nat): nat {
    if n == 0 then 1 else 2 * Power2(n - 1)
  }

  function Min(a: int, b: int): int { if a < b then a else b }

  /** The delay before jitter, after `attempts` doublings that stop at the maximum. */
  function Doubled(delay: nat, maximum: nat, attempts: nat): nat
    decreases attempts
  {
    if attempts == 0 || delay >= maximum then delay
    else if delay >= maximum / 2 then maximum
    else Doubled(2 * delay, maximum, attempts - 1)
  }

  lemma {:induction false} DoubledBounds(delay: nat, maximum: nat, attempts: nat)
    requires delay <= maximum
    ensures delay <= Doubled(delay, maximum, attempts) <= maximum
    ensures Min(delay * Power2(attempts), maximum) <= Doubled(delay, maximum, attempts)
    ensures Doubled(delay, maximum, attempts) == maximum
        || Doubled(delay, maximum, attempts) == delay * Power2(attempts)
    decreases attempts
  {
    if attempts > 0 && delay < maximum && delay < maximum / 2 {
      DoubledBounds(2 * delay, maximum, attempts - 1);
      assert 2 * delay * Power2(attempts - 1) == delay * Power2(attempts) by {
        Shift(delay, Power2(attempts - 1));
      }
    }
  }

  lemma Shift(a: nat, b: nat)
    ensures 2 * a * b == a * (2 * b)
  {}

  /** More failed deliveries never shorten the delay. */
  lemma {:induction false} DoubledMonotone(delay: nat, maximum: nat, a: nat, b: nat)
    requires delay <= maximum && a <= b
    ensures Doubled(delay, maximum, a) <= Doubled(delay, maximum, b)
    decreases a
  {
    DoubledBounds(delay, maximum, b);
    if a > 0 && delay < maximum && delay < maximum / 2 {
      DoubledMonotone(2 * delay, maximum, a - 1, b - 1);
    }
  }

  function Limit(maximum: Duration): Duration { if maximum <= 0 then DEFAULT_MAX_DELAY else maximum }

  /** The delay before jitter for a configured base and maximum. */
  function BeforeJitter(base: Duration, maximum: Duration, attempts: nat): nat {
    if base <= 0 then 0 else Doubled(Min(base as int, Limit(maximum) as int), Limit(maximum) as int, attempts)
  }

  lemma BeforeJitterMonotone(base: Duration, maximum: Duration, a: nat, b: nat)
    requires a <= b
    ensures BeforeJitter(base, maximum, a) <= BeforeJitter(base, maximum, b)
  {
    if base > 0 { DoubledMonotone(Min(base as int, Limit(maximum) as int), Limit(maximum) as int, a, b); }
  }

  lemma MinTimes(a: int, b: int, n: nat)
    requires a > 0 && b > 0 && n > 0
    ensures Min(Min(a, b) * n, b) == Min(a * n, b)
  {
    TimesAtLeast(a, n);
    TimesAtLeast(b, n);
  }

  lemma {:induction false} TimesAtLeast(a: int, n: int)
    requires a > 0 && n > 0
    ensures a * n >= a
    decreases n
  {
    if n > 1 {
      TimesAtLeast(a, n - 1);
      assert a * n == a * (n - 1) + a;
    }
  }

  lemma {:induction false} PowerPositive(n: nat)
    ensures Power2(n) >= 1
    decreases n
  {
    if n == 0 {
    } else {
      PowerPositive(n - 1);
    }
  }

  /**
   The source's loop, with the random draw left open.  It ends, no step overflows, and
   the result lies between min(base * 2^attempts, maximum) and the maximum.
   */
  method OutboxRetryDelay(base: Duration, maximum: Duration, attempts: Duration) returns (delay: Duration)
    requires attempts >= 0
    ensures base <= 0 ==> delay == 0
    ensures base > 0 ==>
        Min((base as int) * Power2(attempts as int), Limit(maximum) as int) <= delay as int <= Limit(maximum) as int
    ensures BeforeJitter(base, maximum, attempts as int) <= delay as int
    ensures delay as int <= BeforeJitter(base, maximum, attempts as int)
        + BeforeJitter(base, maximum, attempts as int) / 5
  {
    if base <= 0 { return 0; }
    var limit := if maximum <= 0 then DEFAULT_MAX_DELAY else maximum;
    var first := if base < limit then base else limit;
    delay := first;
    var left := attempts;
    while left > 0 && delay < limit
      invariant 0 <= left <= attempts && 0 < delay <= limit
      invariant Doubled(delay as int, limit as int, left as int) == Doubled(first as int, limit as int, attempts as int)
      decreases left as int
    {
      if delay >= limit / 2 {
        delay := limit;
        break;
      }
      delay := delay * 2;
      left := left - 1;
    }
    DoubledBounds(first as int, limit as int, attempts as int);
    PowerPositive(attempts as int);
    MinTimes(base as int, limit as int, Power2(attempts as int));
    var jitter := if delay / 5 < limit - delay then delay / 5 else limit - delay;
    var draw: Duration :| 0 <= draw <= jitter;
    delay := delay + draw;
  }
}
