/** Exponential backoff on wrapping 64-bit arithmetic. */
module Backoff {
  import opened Domain

  const TWO_63: int := 0x8000_0000_0000_0000
  const TWO_64: int := 0x1_0000_0000_0000_0000

  /** The int64 that an exact result wraps to. */
  function Wrap64(x: int): int {
    var m := x % TWO_64;
    if m >= TWO_63 then m - TWO_64 else m
  }

  function Pow2(n: nat): nat {
    if n == 0 then 1 else 2 * Pow2(n - 1)
  }

  function Shift(attempts: int): nat {
    if attempts >= 1 then attempts - 1 else 0
  }

  /** 1 << shift as an int64: the sign bit at 63, nothing from 64 on. */
  function ShiftedOne(shift: nat): int {
    if shift >= 64 then 0 else Wrap64(Pow2(shift))
  }

  /** The delay before jitter and Retry-After, as the service computes it. */
  function GuardedDelay(base: Duration, maxBackoff: Duration, attempts: int): Duration {
    var product := Wrap64(base * ShiftedOne(Shift(attempts)));
    if product <= 0 || product > maxBackoff then maxBackoff else product
  }

  /** What it is meant to be: the exact exponential, capped. */
  function ExactDelay(base: Duration, maxBackoff: Duration, attempts: int): Duration {
    var exact := base * Pow2(Shift(attempts));
    if exact > maxBackoff then maxBackoff else exact
  }

  predicate ValidBackoff(base: Duration, maxBackoff: Duration) {
    0 < base < TWO_63 && 0 < maxBackoff < TWO_63
  }

  // ------------------------------------------------------ powers and wraps

  lemma Associate(a: int, b: int, c: int)
    ensures (a * b) * c == a * (b * c)
  {}

  lemma Distribute(a: int, b: int, c: int)
    ensures a * (b + c) == a * b + a * c
  {}

  lemma Scale(a: int, b: int, c: int)
    requires a <= b && 0 <= c
    ensures a * c <= b * c && c * a <= c * b
  {}

  lemma {:induction false} Pow2Adds(m: nat, n: nat)
    ensures Pow2(m + n) == Pow2(m) * Pow2(n)
  {
    if m == 0 {
    } else {
      Pow2Adds(m - 1, n);
      assert Pow2(m - 1 + n) == Pow2(m - 1) * Pow2(n);
      assert 2 * (Pow2(m - 1) * Pow2(n)) == (2 * Pow2(m - 1)) * Pow2(n);
    }
  }

  lemma {:induction false} Pow2Grows(m: nat, n: nat)
    requires m <= n
    ensures Pow2(m) <= Pow2(n)
    decreases n
  {
    if m == n {
    } else {
      Pow2Grows(m, n - 1);
    }
  }

  lemma Pow2At64()
    ensures Pow2(64) == TWO_64
  {
    assert Pow2(8) == 256;
    Pow2Adds(8, 8);
    Pow2Adds(16, 16);
    Pow2Adds(32, 32);
  }

  /** Wrapping is subtracting a multiple of 2^64. */
  lemma WrapIsShift(x: int) returns (q: int)
    ensures Wrap64(x) == x - q * TWO_64
  {
    q := x / TWO_64;
    if x % TWO_64 >= TWO_63 { q := q + 1; }
  }

  lemma WrapUnique(x: int, w: int, q: int)
    requires x == w + q * TWO_64 && -TWO_63 <= w < TWO_63
    ensures Wrap64(x) == w
  {
    var p := WrapIsShift(x);
    var v := Wrap64(x);
    assert v - w == (q - p) * TWO_64;
    assert -TWO_64 < v - w < TWO_64;
  }

  /** From 2^64 on, a power of two is a multiple of 2^64. */
  lemma HighPower(shift: nat)
    requires shift >= 64
    ensures Pow2(shift) == Pow2(shift - 64) * TWO_64
  {
    Pow2At64();
    Pow2Adds(64, shift - 64);
  }

  lemma OneWraps(shift: nat) returns (q: int)
    ensures Pow2(shift) == ShiftedOne(shift) + q * TWO_64
  {
    if shift < 64 {
      q := WrapIsShift(Pow2(shift));
    } else {
      HighPower(shift);
      q := Pow2(shift - 64);
    }
  }

  /** Multiplying by the wrapped power is wrapping the exact product. */
  lemma ProductWraps(base: int, shift: nat)
    ensures Wrap64(base * ShiftedOne(shift)) == Wrap64(base * Pow2(shift))
  {
    var one := ShiftedOne(shift);
    var q := OneWraps(shift);
    var p := WrapIsShift(base * one);
    Distribute(base, one, q * TWO_64);
    Associate(base, q, TWO_64);
    WrapUnique(base * Pow2(shift), Wrap64(base * one), p + base * q);
  }

  // --------------------------------------------------------------- results

  /** The guarded product is the capped exponential exactly when the product
      does not overflow into the accepted range below the cap. */
  lemma ExactIff(base: Duration, maxBackoff: Duration, attempts: int)
    requires ValidBackoff(base, maxBackoff)
    ensures var product := base * Pow2(Shift(attempts));
            GuardedDelay(base, maxBackoff, attempts) == ExactDelay(base, maxBackoff, attempts)
            <==> !(product >= TWO_63 && 0 < Wrap64(product) < maxBackoff)
  {
    var power := Pow2(Shift(attempts));
    ProductWraps(base, Shift(attempts));
    Pow2Grows(0, Shift(attempts));
    Scale(1, power, base);
    ExactIffCases(base, maxBackoff, base * power);
  }

  lemma ExactIffCases(base: Duration, maxBackoff: Duration, product: int)
    requires ValidBackoff(base, maxBackoff) && base <= product
    ensures var wrapped := Wrap64(product);
            (if wrapped <= 0 || wrapped > maxBackoff then maxBackoff else wrapped)
            == (if product > maxBackoff then maxBackoff else product)
            <==> !(product >= TWO_63 && 0 < wrapped < maxBackoff)
  {
    if product < TWO_63 { WrapUnique(product, product, 0); }
  }

  /** From the 65th attempt on, everything has been shifted out and the cap is
      exact: a base and a cap are exact for every attempts value if and only if
      they are for the first 64. */
  lemma ExactForAllIff(base: Duration, maxBackoff: Duration)
    requires ValidBackoff(base, maxBackoff)
    ensures (forall attempts :: GuardedDelay(base, maxBackoff, attempts) == ExactDelay(base, maxBackoff, attempts))
            <==> (forall attempts | 1 <= attempts <= 64 ::
                GuardedDelay(base, maxBackoff, attempts) == ExactDelay(base, maxBackoff, attempts))
  {
    if forall attempts | 1 <= attempts <= 64 ::
        GuardedDelay(base, maxBackoff, attempts) == ExactDelay(base, maxBackoff, attempts) {
      forall attempts ensures GuardedDelay(base, maxBackoff, attempts) == ExactDelay(base, maxBackoff, attempts) {
        if attempts < 1 {
          assert Shift(attempts) == Shift(1) && GuardedDelay(base, maxBackoff, 1) == ExactDelay(base, maxBackoff, 1);
        } else if attempts > 64 {
          ShiftedOut(base, maxBackoff, attempts);
        }
      }
    }
  }

  lemma ShiftedOut(base: Duration, maxBackoff: Duration, attempts: int)
    requires ValidBackoff(base, maxBackoff) && attempts > 64
    ensures GuardedDelay(base, maxBackoff, attempts) == maxBackoff == ExactDelay(base, maxBackoff, attempts)
  {
    var shift := Shift(attempts);
    WrapUnique(0, 0, 0);
    HighPower(shift);
    Pow2Grows(0, shift - 64);
    Scale(1, Pow2(shift - 64), TWO_64);
    Scale(1, base, Pow2(shift));
  }

  /** Overflow leaves a multiple of the power of two it came from. */
  lemma WrappedIsLarge(odd: nat, k: nat)
    requires Wrap64(odd * Pow2(k)) > 0
    ensures Wrap64(odd * Pow2(k)) >= Pow2(k)
  {
    var product := odd * Pow2(k);
    if k >= 64 {
      HighPower(k);
      Associate(odd, Pow2(k - 64), TWO_64);
      WrapUnique(product, 0, odd * Pow2(k - 64));
    } else {
      var q := WrapIsShift(product);
      var high := Pow2(64 - k);
      Pow2At64();
      Pow2Adds(k, 64 - k);
      MultipleIsLarge(Pow2(k), odd, q, high, Wrap64(product));
    }
  }

  lemma MultipleIsLarge(power: int, odd: int, q: int, high: int, w: int)
    requires 0 < power && power * high == TWO_64 && w == odd * power - q * TWO_64 && 0 < w
    ensures power <= w
  {
    var r := odd - q * high;
    assert w == power * r by {
      Associate(q, high, power);
      Distribute(power, odd, -(q * high));
    }
    if r <= 0 { Scale(r, 0, power); } else { Scale(1, r, power); }
  }

  /** With base = odd * 2^e, no attempts value wraps back under the cap as
      long as odd * maxBackoff stays below 2^63. */
  lemma NeverWrapsBack(base: Duration, maxBackoff: Duration, attempts: int, odd: nat, e: nat)
    requires ValidBackoff(base, maxBackoff)
    requires base == odd * Pow2(e) && odd * maxBackoff < TWO_63
    ensures GuardedDelay(base, maxBackoff, attempts) == ExactDelay(base, maxBackoff, attempts)
  {
    ExactIff(base, maxBackoff, attempts);
    var k := e + Shift(attempts);
    Pow2Adds(e, Shift(attempts));
    Associate(odd, Pow2(e), Pow2(Shift(attempts)));
    var wrapped := Wrap64(odd * Pow2(k));
    if odd * Pow2(k) >= TWO_63 && wrapped > 0 {
      WrappedIsLarge(odd, k);
      Scale(Pow2(k), wrapped, odd);
      if wrapped <= maxBackoff { Scale(wrapped, maxBackoff, odd); }
    }
  }

  lemma ExactIsMonotone(base: Duration, maxBackoff: Duration, fewer: int, more: int)
    requires ValidBackoff(base, maxBackoff) && fewer <= more
    ensures ExactDelay(base, maxBackoff, fewer) <= ExactDelay(base, maxBackoff, more)
    ensures 0 < ExactDelay(base, maxBackoff, fewer) <= maxBackoff
  {
    var a, b := Pow2(Shift(fewer)), Pow2(Shift(more));
    Pow2Grows(Shift(fewer), Shift(more));
    Pow2Grows(0, Shift(fewer));
    Scale(a, b, base);
    Scale(1, a, base);
  }

  /** More attempts never wait less before jitter. */
  lemma DelayIsMonotone(base: Duration, maxBackoff: Duration, fewer: int, more: int, odd: nat, e: nat)
    requires ValidBackoff(base, maxBackoff) && fewer <= more
    requires base == odd * Pow2(e) && odd * maxBackoff < TWO_63
    ensures 0 < GuardedDelay(base, maxBackoff, fewer) <= GuardedDelay(base, maxBackoff, more) <= maxBackoff
  {
    NeverWrapsBack(base, maxBackoff, fewer, odd, e);
    NeverWrapsBack(base, maxBackoff, more, odd, e);
    ExactIsMonotone(base, maxBackoff, fewer, more);
    ExactIsMonotone(base, maxBackoff, more, more);
  }

  /** The schedule without shifts: it starts with the base, and each attempt
      doubles the last delay, both capped. */
  lemma DelayDoubles(base: Duration, maxBackoff: Duration, attempts: int)
    requires ValidBackoff(base, maxBackoff)
    ensures attempts <= 1 ==> ExactDelay(base, maxBackoff, attempts) == if base > maxBackoff then maxBackoff else base
    ensures attempts >= 1 ==>
              var twice := 2 * ExactDelay(base, maxBackoff, attempts);
              ExactDelay(base, maxBackoff, attempts + 1) == if twice > maxBackoff then maxBackoff else twice
  {
    var power := Pow2(Shift(attempts));
    Associate(base, 2, power);
    Associate(2, base, power);
    assert base * (2 * power) == 2 * (base * power);
  }

  const DEFAULT_BASE: Duration := 5 * SECOND
  const DEFAULT_MAX: Duration := 5 * MINUTE

  /** The shipped defaults, 5s doubling up to 5min, are exact for every attempts value. */
  lemma DefaultsAreExact(attempts: int)
    ensures GuardedDelay(DEFAULT_BASE, DEFAULT_MAX, attempts) == ExactDelay(DEFAULT_BASE, DEFAULT_MAX, attempts)
  {
    assert Pow2(9) == 512;
    NeverWrapsBack(DEFAULT_BASE, DEFAULT_MAX, attempts, 9765625, 9);
  }

  /** 5s, 10s, 20s, 40s, 80s, 160s, and 5min from then on. */
  lemma DefaultSchedule(attempts: int)
    ensures GuardedDelay(DEFAULT_BASE, DEFAULT_MAX, 1) == 5_000_000_000
    ensures GuardedDelay(DEFAULT_BASE, DEFAULT_MAX, 2) == 10_000_000_000
    ensures GuardedDelay(DEFAULT_BASE, DEFAULT_MAX, 3) == 20_000_000_000
    ensures GuardedDelay(DEFAULT_BASE, DEFAULT_MAX, 6) == 160_000_000_000
    ensures attempts >= 7 ==> GuardedDelay(DEFAULT_BASE, DEFAULT_MAX, attempts) == 300_000_000_000
  {
    DefaultsAreExact(attempts);
    for i := 1 to 8
      invariant 1 < i ==> ExactDelay(DEFAULT_BASE, DEFAULT_MAX, i) == DefaultAt(i)
      invariant forall j | 1 <= j < i :: GuardedDelay(DEFAULT_BASE, DEFAULT_MAX, j) == DefaultAt(j)
    {
      DelayDoubles(DEFAULT_BASE, DEFAULT_MAX, i);
      DefaultsAreExact(i);
    }
    assert GuardedDelay(DEFAULT_BASE, DEFAULT_MAX, 2) == DefaultAt(2)
        && GuardedDelay(DEFAULT_BASE, DEFAULT_MAX, 3) == DefaultAt(3);
    assert GuardedDelay(DEFAULT_BASE, DEFAULT_MAX, 6) == DefaultAt(6)
        && GuardedDelay(DEFAULT_BASE, DEFAULT_MAX, 1) == DefaultAt(1);
    if attempts >= 7 { ExactIsMonotone(DEFAULT_BASE, DEFAULT_MAX, 7, attempts); }
  }

  function DefaultAt(attempts: int): Duration {
    match attempts
    case 1 => 5 * SECOND
    case 2 => 10 * SECOND
    case 3 => 20 * SECOND
    case 4 => 40 * SECOND
    case 5 => 80 * SECOND
    case 6 => 160 * SECOND
    case _ => 300 * SECOND
  }

  /** A base with a large odd part does wrap back: an exact 2^64 + 4 becomes 4. */
  lemma LargeOddPartWrapsBack()
    ensures ValidBackoff(TWO_63 / 2 + 1, 10)
    ensures GuardedDelay(TWO_63 / 2 + 1, 10, 3) == 4 && ExactDelay(TWO_63 / 2 + 1, 10, 3) == 10
  {
    assert Pow2(2) == 4;
    WrapUnique(4, 4, 0);
    WrapUnique((TWO_63 / 2 + 1) * 4, 4, 1);
  }

  // ----------------------------------------------------- jitter and Retry-After

  /** What one deferral draws: the jitter factor, and what the platform makes
      of a product that does not fit an int64. Go leaves that conversion to the
      implementation; amd64 gives -2^63. */
  datatype Jitter = Jitter(factor: real, outOfRange: int)

  /** The factor lies in [3/4, 5/4). */
  predicate IsJitter(jitter: Jitter) {
    0.75 <= jitter.factor < 1.25 && -TWO_63 <= jitter.outOfRange < TWO_63
  }

  /** Converting a non-negative product to an int64 drops the fraction. */
  function Jittered(delay: Duration, jitter: Jitter): Duration {
    var product := delay as real * jitter.factor;
    if product < TWO_63 as real then product.Floor else jitter.outOfRange
  }

  const UNIT := Jitter(1.0, 0)

  /** The longest wait whose product fits for every factor: 4/5 of 2^63, about 233 years. */
  const LONGEST_WAIT: Duration := 4 * TWO_63 / 5

  /** What is waited before jitter. */
  function Wait(base: Duration, maxBackoff: Duration, retryAfter: Duration, attempts: int): Duration {
    var delay := GuardedDelay(base, maxBackoff, attempts);
    if retryAfter > delay then retryAfter else delay
  }

  function NextAttemptAt(base: Duration, maxBackoff: Duration, retryAfter: Duration, attempts: int, now: Time,
          jitter: Jitter): Time {
    now + Jittered(Wait(base, maxBackoff, retryAfter, attempts), jitter)
  }

  lemma WaitIsPositive(base: Duration, maxBackoff: Duration, retryAfter: Duration, attempts: int)
    requires ValidBackoff(base, maxBackoff)
    ensures var delay, wait := GuardedDelay(base, maxBackoff, attempts), Wait(base, maxBackoff, retryAfter, attempts);
            0 < delay <= maxBackoff && delay <= wait && retryAfter <= wait
  {}

  /** Between 3/4 and 5/4 of the wait. */
  predicate NearWait(base: Duration, maxBackoff: Duration, retryAfter: Duration, attempts: int, now: Time, next: Time) {
    var wait := Wait(base, maxBackoff, retryAfter, attempts);
    now + (3 * wait) / 4 <= next <= now + (5 * wait) / 4
  }

  lemma NextAttemptBounds(base: Duration, maxBackoff: Duration, retryAfter: Duration, attempts: int, now: Time,
          jitter: Jitter)
    requires ValidBackoff(base, maxBackoff) && IsJitter(jitter)
    requires Wait(base, maxBackoff, retryAfter, attempts) <= LONGEST_WAIT
    ensures NearWait(base, maxBackoff, retryAfter, attempts, now,
            NextAttemptAt(base, maxBackoff, retryAfter, attempts, now, jitter))
  {
    WaitIsPositive(base, maxBackoff, retryAfter, attempts);
    JitterBounds(Wait(base, maxBackoff, retryAfter, attempts), jitter);
  }

  /** The next attempt falls between 3/4 and 5/4 of the longer of the backoff
      delay and the upstream's Retry-After, for every factor and platform, if
      and only if that wait is at most 4/5 of 2^63. */
  lemma NextAttemptBoundsIff(base: Duration, maxBackoff: Duration, retryAfter: Duration, attempts: int, now: Time)
    requires ValidBackoff(base, maxBackoff)
    ensures (forall jitter | IsJitter(jitter) ::
               NearWait(base, maxBackoff, retryAfter, attempts, now,
                   NextAttemptAt(base, maxBackoff, retryAfter, attempts, now, jitter)))
            <==> Wait(base, maxBackoff, retryAfter, attempts) <= LONGEST_WAIT
  {
    WaitIsPositive(base, maxBackoff, retryAfter, attempts);
    if Wait(base, maxBackoff, retryAfter, attempts) <= LONGEST_WAIT {
      forall jitter | IsJitter(jitter)
        ensures NearWait(base, maxBackoff, retryAfter, attempts, now,
                NextAttemptAt(base, maxBackoff, retryAfter, attempts, now, jitter))
      {
        NextAttemptBounds(base, maxBackoff, retryAfter, attempts, now, jitter);
      }
    } else {
      var jitter := Overflow(Wait(base, maxBackoff, retryAfter, attempts));
    }
  }

  /** A longer wait overflows under some factor, and may then lie 292 years back. */
  lemma Overflow(wait: Duration) returns (jitter: Jitter)
    requires wait > LONGEST_WAIT
    ensures IsJitter(jitter) && Jittered(wait, jitter) == -TWO_63
  {
    var w, limit := wait as real, TWO_63 as real;
    var exact := limit / w;
    var factor := if exact < 0.75 then 0.75 else exact;
    jitter := Jitter(factor, -TWO_63);
    assert (5 * wait) as real > (4 * TWO_63) as real;
    Quotient(w, limit, factor);
  }

  lemma Quotient(w: real, limit: real, factor: real)
    requires 0.0 < w && 5.0 * w > 4.0 * limit && 0.0 < limit
    requires factor == if limit / w < 0.75 then 0.75 else limit / w
    ensures factor < 1.25 && w * factor >= limit
  {
    var exact := limit / w;
    assert w * exact == limit;
    BelowFiveQuarters(w, limit, exact);
    AtLeast(w, limit, exact, factor);
  }

  lemma AtLeast(w: real, limit: real, exact: real, factor: real)
    requires 0.0 < w && w * exact == limit && exact <= factor
    ensures w * factor >= limit
  {
    ScaleReal(exact, factor, w);
  }

  lemma BelowFiveQuarters(w: real, limit: real, exact: real)
    requires 0.0 < w && 5.0 * w > 4.0 * limit && w * exact == limit
    ensures exact < 1.25
  {
    if exact >= 1.25 { ScaleReal(1.25, exact, w); }
  }

  lemma JitterBounds(wait: Duration, jitter: Jitter)
    requires 0 <= wait <= LONGEST_WAIT && IsJitter(jitter)
    ensures (3 * wait) / 4 <= Jittered(wait, jitter) <= (5 * wait) / 4
  {
    QuarterBounds(wait);
    ProductBounds(wait as real, jitter.factor, ((3 * wait) / 4) as real, ((5 * wait) / 4) as real);
    FloorBetween((wait as real) * jitter.factor, (3 * wait) / 4, (5 * wait) / 4);
    ProductFits(wait, jitter.factor);
  }

  lemma ProductFits(wait: Duration, factor: real)
    requires 0 <= wait <= LONGEST_WAIT && 0.75 <= factor < 1.25
    ensures wait as real * factor < TWO_63 as real
  {
    assert (5 * wait) as real <= (4 * TWO_63) as real;
    RealProductFits(wait as real, factor, TWO_63 as real);
  }

  lemma RealProductFits(w: real, factor: real, limit: real)
    requires 0.0 <= w && 5.0 * w <= 4.0 * limit && factor < 1.25 && 0.0 < limit
    ensures w * factor < limit
  {
    if w == 0.0 {
      assert w * factor == 0.0;
    } else {
      StrictlyScaleReal(factor, 1.25, w);
    }
  }

  lemma StrictlyScaleReal(a: real, b: real, c: real)
    requires a < b && 0.0 < c
    ensures c * a < c * b
  {}

  lemma ProductBounds(w: real, factor: real, low: real, high: real)
    requires 0.0 <= w && 0.75 <= factor < 1.25 && low <= w * 0.75 && w * 1.25 < high + 1.0
    ensures low <= w * factor < high + 1.0
  {
    ScaleReal(0.75, factor, w);
    ScaleReal(factor, 1.25, w);
  }

  lemma QuarterBounds(wait: Duration)
    ensures ((3 * wait) / 4) as real <= (wait as real) * 0.75
    ensures (wait as real) * 1.25 < ((5 * wait) / 4) as real + 1.0
  {
    var low, high := (3 * wait) / 4, (5 * wait) / 4;
    assert (4 * low) as real <= (3 * wait) as real;
    assert (5 * wait) as real <= (4 * high + 3) as real;
  }

  lemma FloorBetween(x: real, low: int, high: int)
    requires low as real <= x < high as real + 1.0
    ensures low <= x.Floor <= high
  {
    assert x.Floor as real <= x < x.Floor as real + 1.0;
  }

  lemma ScaleReal(a: real, b: real, c: real)
    requires a <= b && 0.0 <= c
    ensures c * a <= c * b
  {}

  lemma WrapKeepsEven(half: int)
    ensures exists h :: Wrap64(2 * half) == 2 * h
  {
    var q := WrapIsShift(2 * half);
    assert Wrap64(2 * half) == 2 * (half - q * TWO_63);
  }

  lemma DelayOfTwo(base: Duration, maxBackoff: Duration, attempts: int)
    requires ValidBackoff(base, maxBackoff) && 2 <= base && 2 <= maxBackoff
    ensures GuardedDelay(base, maxBackoff, attempts) >= 2
  {
    var shift := Shift(attempts);
    ProductWraps(base, shift);
    if shift == 0 {
      WrapUnique(base, base, 0);
    } else {
      Associate(base, 2, Pow2(shift - 1));
      Associate(2, base, Pow2(shift - 1));
      assert base * Pow2(shift) == 2 * (base * Pow2(shift - 1));
      WrapKeepsEven(base * Pow2(shift - 1));
    }
  }

  /** A deferral is later than the instant it is made, for every factor and
      platform, if and only if the wait before jitter is at least 2ns and at
      most 4/5 of 2^63. */
  lemma DeferralIsLaterIff(base: Duration, maxBackoff: Duration, retryAfter: Duration, attempts: int, now: Time)
    requires ValidBackoff(base, maxBackoff)
    ensures (forall jitter | IsJitter(jitter) ::
            now < NextAttemptAt(base, maxBackoff, retryAfter, attempts, now, jitter))
            <==> 2 <= Wait(base, maxBackoff, retryAfter, attempts) <= LONGEST_WAIT
  {
    var wait := Wait(base, maxBackoff, retryAfter, attempts);
    WaitIsPositive(base, maxBackoff, retryAfter, attempts);
    if wait > LONGEST_WAIT {
      var jitter := Overflow(wait);
      assert NextAttemptAt(base, maxBackoff, retryAfter, attempts, now, jitter) < now;
    } else if wait == 1 {
      var jitter := Jitter(0.75, 0);
      assert IsJitter(jitter) && NextAttemptAt(base, maxBackoff, retryAfter, attempts, now, jitter) == now;
    } else {
      forall jitter | IsJitter(jitter) ensures now < NextAttemptAt(base, maxBackoff, retryAfter, attempts, now,
          jitter) {
        NextAttemptBounds(base, maxBackoff, retryAfter, attempts, now, jitter);
      }
    }
  }

  /** Every deferral with a Retry-After of at most 4/5 of 2^63 is later than
      the instant it is made, whatever the attempts, the factor and the
      platform, if and only if base and cap are at least 2ns and the cap is
      within that bound too. */
  lemma DeferralsAreLaterIff(base: Duration, maxBackoff: Duration)
    requires ValidBackoff(base, maxBackoff)
    ensures (forall retryAfter, attempts, now, jitter | retryAfter <= LONGEST_WAIT && IsJitter(jitter) ::
               now < NextAttemptAt(base, maxBackoff, retryAfter, attempts, now, jitter))
            <==> 2 <= base && 2 <= maxBackoff <= LONGEST_WAIT
  {
    if 2 <= base && 2 <= maxBackoff <= LONGEST_WAIT {
      forall retryAfter, attempts, now, jitter | retryAfter <= LONGEST_WAIT && IsJitter(jitter)
        ensures now < NextAttemptAt(base, maxBackoff, retryAfter, attempts, now, jitter)
      {
        DelayOfTwo(base, maxBackoff, attempts);
        WaitIsPositive(base, maxBackoff, retryAfter, attempts);
        DeferralIsLaterIff(base, maxBackoff, retryAfter, attempts, now);
      }
    } else if maxBackoff > LONGEST_WAIT {
      ShiftedOut(base, maxBackoff, 65);
      DeferralIsLaterIff(base, maxBackoff, 0, 65, 0);
    } else {
      assert Pow2(0) == 1;
      WrapUnique(1, 1, 0);
      WrapUnique(base, base, 0);
      assert Wait(base, maxBackoff, 0, 1) == 1;
      DeferralIsLaterIff(base, maxBackoff, 0, 1, 0);
    }
  }

  /** The bound on Retry-After is needed under the shipped configuration: one
      of 2^63 - 1, which a date in the year 9999 saturates to, can put the next
      attempt 292 years back. */
  lemma FarRetryAfterIsPast(now: Time)
    ensures IsJitter(Jitter(1.1, -TWO_63))
    ensures NextAttemptAt(DEFAULT_BASE, DEFAULT_MAX, TWO_63 - 1, 1, now, Jitter(1.1, -TWO_63)) == now - TWO_63
  {
    assert Pow2(0) == 1;
    WrapUnique(1, 1, 0);
    WrapUnique(DEFAULT_BASE, DEFAULT_BASE, 0);
    assert (TWO_63 - 1) as real * 1.1 >= TWO_63 as real;
  }

  /** The row itself may come back before the upstream's Retry-After is over. */
  lemma MayReturnBeforeRetryAfter(now: Time, outOfRange: int)
    ensures NextAttemptAt(DEFAULT_BASE, DEFAULT_MAX, 100 * SECOND, 1, now, Jitter(0.75, outOfRange))
            == now + 75 * SECOND
  {
    assert Pow2(0) == 1;
    WrapUnique(1, 1, 0);
    WrapUnique(DEFAULT_BASE, DEFAULT_BASE, 0);
  }

  /** For every factor and platform a row does not come back before the
      upstream's Retry-After r is over if and only if r is at most 3/4 of the
      backoff delay, and that delay at most 4/5 of 2^63. */
  lemma NeverBeforeRetryAfterIff(base: Duration, maxBackoff: Duration, retryAfter: Duration, attempts: int, now: Time)
    requires ValidBackoff(base, maxBackoff) && -TWO_63 < retryAfter
    ensures (forall jitter | IsJitter(jitter) ::
               NextAttemptAt(base, maxBackoff, retryAfter, attempts, now, jitter) >= now + retryAfter)
            <==> (&& 4 * retryAfter <= 3 * GuardedDelay(base, maxBackoff, attempts)
                  && GuardedDelay(base, maxBackoff, attempts) <= LONGEST_WAIT)
  {
    var wait := Wait(base, maxBackoff, retryAfter, attempts);
    WaitIsPositive(base, maxBackoff, retryAfter, attempts);
    if wait > LONGEST_WAIT {
      var jitter := Overflow(wait);
      assert NextAttemptAt(base, maxBackoff, retryAfter, attempts, now, jitter) < now + retryAfter;
    } else if 4 * retryAfter <= 3 * GuardedDelay(base, maxBackoff, attempts) {
      forall jitter | IsJitter(jitter) ensures NextAttemptAt(base, maxBackoff, retryAfter, attempts, now,
          jitter) >= now + retryAfter {
        NextAttemptBounds(base, maxBackoff, retryAfter, attempts, now, jitter);
      }
    } else {
      var jitter := Jitter(0.75, 0);
      ThreeQuarters(wait, retryAfter);
      assert IsJitter(jitter) && NextAttemptAt(base, maxBackoff, retryAfter, attempts, now, jitter) < now + retryAfter;
    }
  }

  lemma ThreeQuarters(wait: Duration, retryAfter: Duration)
    requires 0 < wait <= LONGEST_WAIT && 3 * wait < 4 * retryAfter
    ensures Jittered(wait, Jitter(0.75, 0)) < retryAfter
  {
    ProductFits(wait, 0.75);
    assert (3 * wait) as real < (4 * retryAfter) as real;
    assert Jittered(wait, Jitter(0.75, 0)) as real <= wait as real * 0.75;
  }

  /** The same condition on the configuration: with base = odd * 2^e and
      odd * maxBackoff < 2^63 the delay is the exact capped exponential. */
  lemma NeverBeforeRetryAfterIfExact(base: Duration, maxBackoff: Duration, retryAfter: Duration, attempts: int,
          now: Time, odd: nat, e: nat)
    requires ValidBackoff(base, maxBackoff) && -TWO_63 < retryAfter
    requires base == odd * Pow2(e) && odd * maxBackoff < TWO_63
    ensures (forall jitter | IsJitter(jitter) ::
               NextAttemptAt(base, maxBackoff, retryAfter, attempts, now, jitter) >= now + retryAfter)
            <==> (&& 4 * retryAfter <= 3 * ExactDelay(base, maxBackoff, attempts)
                  && ExactDelay(base, maxBackoff, attempts) <= LONGEST_WAIT)
  {
    NeverWrapsBack(base, maxBackoff, attempts, odd, e);
    NeverBeforeRetryAfterIff(base, maxBackoff, retryAfter, attempts, now);
  }
}
