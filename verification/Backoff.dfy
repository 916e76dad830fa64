/**
 Retry backoff: `BackoffConfig.Delay` of internal/jobs/job.go, with the 64-bit
 wrap-around of Go's multiplication written out.
 */
module Backoff {
  import opened Schema

  /** Durations are int64 nanoseconds. */
  newtype Duration = d: int | -0x8000_0000_0000_0000 <= d < 0x8000_0000_0000_0000

  datatype BackoffConfig = BackoffConfig(base: Duration, max: Duration)

  const SECOND: int := 1_000_000_000
  const TWO63: int := 0x8000_0000_0000_0000
  const TWO64: int := 0x1_0000_0000_0000_0000

  function DefaultBackoff(): BackoffConfig {
    BackoffConfig(1_000_000_000, 300_000_000_000)
  }

  function Pow2(k: nat): int {
    if k == 0 then 1 else 2 * Pow2(k - 1)
  }

  /** The int64 whose bits are the low 64 bits of `x`. */
  function Wrap64(x: int): (r: int)
    ensures -TWO63 <= r < TWO63
    ensures -TWO63 <= x < TWO63 ==> r == x
  {
    var m := x % TWO64;
    if m < TWO63 then m else m - TWO64
  }

  function EffectiveBase(c: BackoffConfig): (b: int)
    ensures 0 < b < TWO63
  {
    if c.base <= 0 then SECOND else c.base as int
  }

  function EffectiveMax(c: BackoffConfig): (m: int)
    ensures 0 < m < TWO63
  {
    if c.max <= 0 then 300 * SECOND else c.max as int
  }

  /** The wait before the retry that follows `attempt` failed attempts. Always positive,
      never above the ceiling, for every configuration and every attempt count. */
  function Delay(c: BackoffConfig, attempt: int): (d: int)
    ensures 0 < d <= EffectiveMax(c)
  {
    var attempt := if attempt < 1 then 1 else attempt;
    var base := EffectiveBase(c);
    var max := EffectiveMax(c);
    if attempt > 40 then max else
    Clamp(Wrap64(Pow2(attempt - 1) * base), max)
  }

  /** A product that wrapped to zero or below, or passed the ceiling, is the ceiling. */
  function Clamp(d: int, max: int): (r: int)
    requires 0 < max
    ensures 0 < r <= max
  {
    if d <= 0 || d > max then max else d
  }

  /** What the documentation promises: base * 2^(attempt - 1), capped. */
  function Promised(c: BackoffConfig, attempt: int): int {
    Min(EffectiveBase(c) * Pow2(Max(attempt, 1) - 1), EffectiveMax(c))
  }

  // ----- powers of two and wrap-around -----

  lemma {:induction false} Pow2Add(i: nat, j: nat)
    ensures Pow2(i + j) == Pow2(i) * Pow2(j)
  {
    if i > 0 {
      Pow2Add(i - 1, j);
      assert Pow2(i + j) == 2 * Pow2(i - 1 + j);
    }
  }

  lemma {:induction false} Pow2Positive(k: nat)
    ensures Pow2(k) > 0
  {
    if k > 0 {
      Pow2Positive(k - 1);
    }
  }

  lemma Pow2Monotone(i: nat, j: nat)
    requires i <= j
    ensures 0 < Pow2(i) <= Pow2(j)
  {
    Pow2Add(i, j - i);
    Pow2Positive(i);
    Pow2Positive(j - i);
    assert Pow2(i) * Pow2(j - i) >= Pow2(i) * 1;
  }

  lemma Pow2At64()
    ensures Pow2(16) == 0x1_0000 && Pow2(32) == 0x1_0000_0000 && Pow2(64) == TWO64 && 2 * Pow2(63) == TWO64
  {
    assert Pow2(4) == 16;
    Pow2Add(4, 4);
    Pow2Add(8, 8);
    Pow2Add(16, 16);
    Pow2Add(32, 32);
  }

  lemma ModUnique(x: int, m: int, q: int, r: int)
    requires 0 < m && x == q * m + r && 0 <= r < m
    ensures x % m == r
  {
    DivMod(x, m);
    SameQuotient(m, q, r, x / m, x % m);
  }

  lemma DivMod(x: int, m: int)
    requires 0 < m
    ensures x == (x / m) * m + x % m && 0 <= x % m < m
  {
  }

  lemma SameQuotient(m: int, q: int, r: int, q': int, r': int)
    requires q * m + r == q' * m + r' && 0 <= r < m && 0 <= r' < m
    ensures q == q' && r == r'
  {
    if q < q' {
      Scale(m, q + 1, q');
    } else if q' < q {
      Scale(m, q' + 1, q);
    }
  }

  lemma Distribute(p: int, q: int, n: int, r: int)
    ensures p * (n * q + r) == n * (q * p) + r * p
  {
  }

  lemma Scale(m: int, i: int, j: int)
    requires 0 <= m && i <= j
    ensures i * m <= j * m
  {
  }

  /** Shifting left by k keeps exactly the low 64 - k bits. */
  lemma ShiftMod(b: int, k: nat)
    requires 0 <= b && k <= 64
    ensures Pow2(64 - k) > 0
    ensures (Pow2(k) * b) % TWO64 == (b % Pow2(64 - k)) * Pow2(k)
  {
    var p, q := Pow2(k), Pow2(64 - k);
    Pow2Positive(k);
    Pow2Positive(64 - k);
    Pow2Add(64 - k, k);
    Pow2At64();
    DivMod(b, q);
    ShiftedRemainder(b, p, q, b / q, b % q);
    ModUnique(p * b, TWO64, b / q, (b % q) * p);
  }

  lemma ShiftedRemainder(b: int, p: int, q: int, n: int, low: int)
    requires 0 < p && b == n * q + low && 0 <= low < q
    ensures p * b == n * (q * p) + low * p && 0 <= low * p < q * p
  {
    Distribute(p, q, n, low);
    Scale(p, 0, low);
    Scale(p, low + 1, q);
  }

  // ----- when the documented formula is met -----

  /** At shift k the product leaves the int64 range, yet its low 64 bits read as a
      positive duration under the ceiling, so the clamp does not catch it. */
  predicate WrapsUnderMax(base: int, max: int, k: nat)
    requires 0 < base && k <= 64
  {
    Pow2Positive(64 - k);
    var low := base % Pow2(64 - k);
    base * Pow2(k) >= TWO63 && 0 < low && low * Pow2(k) < max
  }

  /** None of the forty shifts wraps under the ceiling. */
  ghost predicate NoWrap(c: BackoffConfig) {
    forall k: nat :: k < 40 ==> !WrapsUnderMax(EffectiveBase(c), EffectiveMax(c), k)
  }

  /** Checkable before the first retry: the ceiling is reached by attempt 41 and no shift wraps
      under it. */
  ghost predicate Sound(c: BackoffConfig) {
    EffectiveMax(c) <= EffectiveBase(c) * Pow2(40) && NoWrap(c)
  }

  lemma ClampAfterWrap(product: int, max: int)
    requires 0 < product && 0 < max < TWO63
    ensures Clamp(Wrap64(product), max) == Min(product, max)
       <==> !(product >= TWO63 && 0 < product % TWO64 < max)
  {
  }

  lemma PositiveProduct(x: int, y: int)
    requires 0 < y
    ensures 0 < x * y <==> 0 < x
  {
  }

  lemma DelayAtShift(c: BackoffConfig, k: nat)
    requires k < 40
    ensures Delay(c, k + 1) == Promised(c, k + 1) <==> !WrapsUnderMax(EffectiveBase(c), EffectiveMax(c), k)
  {
    var base, max := EffectiveBase(c), EffectiveMax(c);
    Pow2Positive(k);
    ShiftMod(base, k);
    PositiveProduct(base, Pow2(k));
    PositiveProduct(base % Pow2(64 - k), Pow2(k));
    var product := Pow2(k) * base;
    assert product == base * Pow2(k);
    ClampAfterWrap(product, max);
    assert Delay(c, k + 1) == Clamp(Wrap64(product), max);
    assert Promised(c, k + 1) == Min(product, max);
  }

  lemma SoundDelay(c: BackoffConfig, attempt: int)
    requires Sound(c)
    ensures Delay(c, attempt) == Promised(c, attempt)
  {
    var k := Max(attempt, 1) - 1;
    if k < 40 {
      DelayAtShift(c, k);
    } else {
      Pow2Monotone(40, k);
      Scale(EffectiveBase(c), Pow2(40), Pow2(k));
    }
  }

  /** The delay is the documented one for every attempt exactly when the configuration
      is Sound. */
  lemma ExactIffSound(c: BackoffConfig)
    ensures (forall attempt: int :: Delay(c, attempt) == Promised(c, attempt)) <==> Sound(c)
  {
    var base, max := EffectiveBase(c), EffectiveMax(c);
    if Sound(c) {
      forall attempt: int
        ensures Delay(c, attempt) == Promised(c, attempt)
      {
        SoundDelay(c, attempt);
      }
    } else if max > base * Pow2(40) {
      assert Delay(c, 41) != Promised(c, 41);
    } else {
      var k: nat :| k < 40 && WrapsUnderMax(base, max, k);
      DelayAtShift(c, k);
      assert Delay(c, k + 1) != Promised(c, k + 1);
    }
  }

  /** A closed-form test: 2^v divides the base, base * max stays under 2^(63+v), and the
      ceiling is within 40 doublings of the base. */
  lemma DivisibleBaseIsSound(c: BackoffConfig, v: nat)
    requires Pow2(v) > 0 && EffectiveBase(c) % Pow2(v) == 0
    requires EffectiveBase(c) * EffectiveMax(c) < Pow2(63 + v)
    requires EffectiveMax(c) <= EffectiveBase(c) * Pow2(40)
    ensures Sound(c)
  {
    var base, max := EffectiveBase(c), EffectiveMax(c);
    forall k: nat | k < 40
      ensures !WrapsUnderMax(base, max, k)
    {
      if WrapsUnderMax(base, max, k) {
        Pow2Positive(64 - k);
        Pow2Positive(k);
        LowBitsDivisible(base, v, 64 - k);
        Pow2Add(63, v);
        Pow2At64();
        NoRoom(base, max, base % Pow2(64 - k), Pow2(k), Pow2(v));
      }
    }
  }

  /** low >= 2^v and base * 2^k >= 2^63 force base * max >= 2^(63+v). */
  lemma NoRoom(base: int, max: int, low: int, p: int, u: int)
    requires 0 < base && 0 < p && 0 < u <= low
    requires base * p >= TWO63 && low * p <= max
    ensures base * max >= TWO63 * u
  {
    Scale(p, u, low);
    Scale(base, u * p, max);
    Scale(u, TWO63, base * p);
    assert (u * p) * base == (base * p) * u;
  }

  /** The low w bits of a multiple of 2^v are zero or at least 2^v. */
  lemma LowBitsDivisible(b: int, v: nat, w: nat)
    requires 0 < b && Pow2(v) > 0 && Pow2(w) > 0 && b % Pow2(v) == 0
    ensures b % Pow2(w) == 0 || b % Pow2(w) >= Pow2(v)
  {
    if w <= v {
      Pow2Add(w, v - w);
      DivMod(b, Pow2(v));
      Regroup(b / Pow2(v), Pow2(w), Pow2(v - w));
      ModUnique(b, Pow2(w), (b / Pow2(v)) * Pow2(v - w), 0);
    } else {
      var low := b % Pow2(w);
      Pow2Add(v, w - v);
      DivMod(b, Pow2(w));
      Regroup(b / Pow2(w), Pow2(v), Pow2(w - v));
      if 0 < low < Pow2(v) {
        ModUnique(b, Pow2(v), (b / Pow2(w)) * Pow2(w - v), low);
      }
    }
  }

  lemma Regroup(n: int, p: int, q: int)
    ensures n * (p * q) == (n * q) * p
  {
  }

  /** The shipped defaults meet the documented formula at every attempt -- 1 s, 2 s, 4 s and so on
      up to 5 min -- and a configuration left unset behaves like them. */
  lemma DefaultIsExact(attempt: int)
    ensures Delay(DefaultBackoff(), attempt) == Min(SECOND * Pow2(Max(attempt, 1) - 1), 300 * SECOND)
    ensures forall c: BackoffConfig :: c.base <= 0 && c.max <= 0 ==> Delay(c, attempt) == Delay(DefaultBackoff(), attempt)
  {
    var c := DefaultBackoff();
    assert Pow2(9) == 512;
    Pow2Add(36, 36);
    Pow2Add(32, 4);
    Pow2Add(32, 8);
    Pow2At64();
    assert Pow2(4) == 16 && Pow2(8) == 256;
    DivisibleBaseIsSound(c, 9);
    SoundDelay(c, attempt);
  }

  lemma PromisedMonotone(c: BackoffConfig, a: int, b: int)
    requires a <= b
    ensures Promised(c, a) <= Promised(c, b)
  {
    Pow2Monotone(Max(a, 1) - 1, Max(b, 1) - 1);
    Scale(EffectiveBase(c), Pow2(Max(a, 1) - 1), Pow2(Max(b, 1) - 1));
  }

  lemma NoWrapMonotone(c: BackoffConfig, a: int, b: int)
    requires NoWrap(c) && a <= b
    ensures Delay(c, a) <= Delay(c, b)
  {
    PromisedMonotone(c, a, b);
    var i, k := Max(a, 1) - 1, Max(b, 1) - 1;
    if i < 40 {
      DelayAtShift(c, i);
      assert Delay(c, a) == Promised(c, a);
    }
    if k < 40 {
      DelayAtShift(c, k);
      assert Delay(c, b) == Promised(c, b);
    }
  }

  /** At the first shift that wraps, the product is at least 2^64, so the shift before it gave the
      ceiling; this one gives less. */
  lemma FirstWrapDrops(c: BackoffConfig, k: nat)
    requires k < 40 && WrapsUnderMax(EffectiveBase(c), EffectiveMax(c), k)
    requires forall i: nat :: i < k ==> !WrapsUnderMax(EffectiveBase(c), EffectiveMax(c), i)
    ensures Delay(c, k + 1) < Delay(c, k)
  {
    var base, max := EffectiveBase(c), EffectiveMax(c);
    ShiftMod(base, k);
    assert Pow2(k) == if k == 0 then 1 else 2 * Pow2(k - 1);
    var product := Pow2(k) * base;
    assert product == base * Pow2(k);
    Pow2Positive(k);
    PositiveProduct(base % Pow2(64 - k), Pow2(k));
    WrapBelow(product, max);
    assert k > 0;
    DelayAtShift(c, k - 1);
    HalfProduct(base, Pow2(k - 1));
    assert Delay(c, k) == Min(base * Pow2(k - 1), max);
  }

  lemma WrapBelow(product: int, max: int)
    requires TWO63 <= product && 0 < product % TWO64 < max < TWO63
    ensures TWO64 <= product && Clamp(Wrap64(product), max) < max
  {
  }

  lemma HalfProduct(base: int, p: int)
    ensures (2 * p) * base == 2 * (base * p)
  {
  }

  /** A further failure never shortens the wait exactly when no shift wraps under the ceiling. */
  lemma MonotoneIffNoWrap(c: BackoffConfig)
    ensures (forall a: int, b: int :: a <= b ==> Delay(c, a) <= Delay(c, b)) <==> NoWrap(c)
  {
    if NoWrap(c) {
      forall a: int, b: int | a <= b
        ensures Delay(c, a) <= Delay(c, b)
      {
        NoWrapMonotone(c, a, b);
      }
    } else {
      var k := FirstWrap(c, 40);
      FirstWrapDrops(c, k);
      assert k <= k + 1;
    }
  }

  lemma {:induction false} FirstWrap(c: BackoffConfig, n: nat) returns (k: nat)
    requires n <= 40 && exists k: nat :: k < n && WrapsUnderMax(EffectiveBase(c), EffectiveMax(c), k)
    ensures k < n && WrapsUnderMax(EffectiveBase(c), EffectiveMax(c), k)
    ensures forall i: nat :: i < k ==> !WrapsUnderMax(EffectiveBase(c), EffectiveMax(c), i)
  {
    if exists i: nat :: i < n - 1 && WrapsUnderMax(EffectiveBase(c), EffectiveMax(c), i) {
      k := FirstWrap(c, n - 1);
    } else {
      k := n - 1;
    }
  }

  /** Not every configuration is sound: with a base of 2^25 + 1 ns and a ceiling of 600 s the
      40th attempt wraps to 2^39 ns, less than the 39th waits. */
  lemma UnsoundConfiguration()
    ensures var c := BackoffConfig(0x200_0001, 600_000_000_000);
            Delay(c, 39) == 600_000_000_000 && Delay(c, 40) == 549_755_813_888 && !Sound(c)
  {
    var c := BackoffConfig(0x200_0001, 600_000_000_000);
    assert Pow2(6) == 64 && Pow2(7) == 128;
    Pow2Add(32, 6);
    Pow2Add(32, 7);
    Pow2At64();
    assert Pow2(38) == 274_877_906_944 && Pow2(39) == 549_755_813_888;
    assert Pow2(38) * 0x200_0001 == 9_223_372_311_732_682_752;
    assert Pow2(39) * 0x200_0001 == TWO64 + 549_755_813_888;
    assert Delay(c, 40) != Promised(c, 40);
    ExactIffSound(c);
  }
}
