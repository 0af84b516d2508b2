// Deterministic jitter and exponential probe delays, over exact reals.
module RetryPolicy {
  import opened Common

  const HASH_RANGE: nat := 0x1_0000_0000_0000_0000

  // The first eight bytes of a SHA-256 digest, as a big-endian integer.
  type Hash64 = h: nat | h < HASH_RANGE witness 0

  function Fraction(h: Hash64): real {
    h as real / (HASH_RANGE - 1) as real
  }

  function Min(a: real, b: real): real {
    if b < a then b else a
  }

  function Max(a: real, b: real): real {
    if b > a then b else a
  }

  // `deterministic_jitter_seconds`
  function Jitter(h: Hash64, maxSeconds: real): real {
    if maxSeconds <= 0.0 then 0.0 else Fraction(h) * maxSeconds
  }

  // `probe_after_reset`, with instants in seconds.
  function ProbeAfterReset(h: Hash64, retryAt: real, maxJitterSeconds: real): real {
    retryAt + Jitter(h, maxJitterSeconds)
  }

  function Pow2(n: nat): real {
    if n == 0 then 1.0 else 2.0 * Pow2(n - 1)
  }

  datatype Params = Params(base: real, cap: real, jitterFraction: real)

  function Exponential(base: real, n: nat): real {
    base * Pow2(n)
  }

  function Raw(p: Params, attempt: nat): real
    requires attempt >= 1
  {
    Min(p.cap, Exponential(p.base, attempt - 1))
  }

  // How far the jitter of an unjittered delay may reach.
  function Spread(p: Params, raw: real): real {
    raw * Max(0.0, p.jitterFraction)
  }

  function Delay(p: Params, h: Hash64, raw: real): real {
    Min(p.cap, raw + Jitter(h, Spread(p, raw)))
  }

  // `exponential_probe_delay`; `hash` gives the digest of deployment and attempt. None is its error.
  function ProbeDelay(p: Params, hash: nat -> Hash64, attempt: int): Option<real> {
    if attempt < 1 then None else Some(Delay(p, hash(attempt), Raw(p, attempt)))
  }

  // ----- Arithmetic -----

  lemma FractionRange(h: Hash64)
    ensures 0.0 <= Fraction(h) <= 1.0
    ensures Fraction(0) == 0.0 && Fraction(HASH_RANGE - 1) == 1.0
  {
  }

  lemma ProductRange(f: real, x: real)
    requires 0.0 <= f <= 1.0 && x >= 0.0
    ensures 0.0 <= f * x <= x
  {
  }

  lemma JitterRange(h: Hash64, maxSeconds: real)
    ensures 0.0 <= Jitter(h, maxSeconds) <= Max(0.0, maxSeconds)
  {
    FractionRange(h);
    hide Fraction;
    if maxSeconds > 0.0 {
      ProductRange(Fraction(h), maxSeconds);
    }
  }

  lemma JitterAtEnds(x: real)
    ensures Jitter(0, x) == 0.0
    ensures x > 0.0 ==> Jitter(HASH_RANGE - 1, x) == x
  {
    FractionRange(0);
    hide Fraction;
  }

  lemma SpreadRange(p: Params, raw: real)
    ensures raw <= 0.0 ==> Spread(p, raw) <= 0.0
    ensures raw >= 0.0 && p.jitterFraction <= 1.0 ==> Spread(p, raw) <= raw
    ensures raw > 0.0 && p.jitterFraction > 1.0 ==> Spread(p, raw) > raw
  {
    var factor := Max(0.0, p.jitterFraction);
    FactorRange(p.jitterFraction);
    hide Max;
    assert Spread(p, raw) == raw * factor;
    hide Spread;
    ScaledBy(raw, factor);
  }

  lemma FactorRange(fraction: real)
    ensures Max(0.0, fraction) >= 0.0
    ensures Max(0.0, fraction) <= 1.0 <==> fraction <= 1.0
  {
  }

  lemma ScaledBy(x: real, f: real)
    requires f >= 0.0
    ensures x <= 0.0 ==> x * f <= 0.0
    ensures x >= 0.0 && f <= 1.0 ==> x * f <= x
    ensures x > 0.0 && f > 1.0 ==> x * f > x
  {
    if x <= 0.0 {
      ProductSign(0.0 - x, f);
      assert (0.0 - x) * f == 0.0 - x * f;
    } else if f <= 1.0 {
      ProductSign(x, 1.0 - f);
      assert x * (1.0 - f) == x - x * f;
    } else {
      ProductSign(x, f - 1.0);
      assert x * (f - 1.0) == x * f - x;
    }
  }

  lemma ProductSign(a: real, b: real)
    requires a >= 0.0 && b >= 0.0
    ensures a * b >= 0.0
    ensures a > 0.0 && b > 0.0 ==> a * b > 0.0
  {
  }

  lemma {:induction false} Pow2Grows(n: nat)
    ensures Pow2(n) >= n as real + 1.0
  {
    if n > 0 { Pow2Grows(n - 1); }
  }

  lemma ExponentialGrows(base: real, n: nat)
    ensures Exponential(base, 0) == base
    ensures Exponential(base, n + 1) == 2.0 * Exponential(base, n)
    ensures base >= 0.0 ==> Exponential(base, n) >= base
    ensures base == 0.0 ==> Exponential(base, n) == 0.0
    ensures base < 0.0 ==> Exponential(base, n) < 0.0
  {
    Pow2Grows(n);
    hide Pow2;
    assert Pow2(n + 1) == 2.0 * Pow2(n) && Pow2(0) == 1.0 by { Doubles(n); }
    assert base * (2.0 * Pow2(n)) == 2.0 * (base * Pow2(n));
    if base >= 0.0 { ScaledUp(base, Pow2(n)); }
  }

  lemma ScaledUp(base: real, p: real)
    requires base >= 0.0 && p >= 1.0
    ensures base * p >= base
  {
  }

  lemma Doubles(n: nat)
    ensures Pow2(n + 1) == 2.0 * Pow2(n) && Pow2(0) == 1.0
  {
  }

  // A positive base passes every bound, a negative one falls below every bound.
  lemma ExponentialIsUnbounded(base: real, bound: real, n: nat)
    requires base != 0.0 && n as real >= bound / base
    ensures base > 0.0 ==> bound <= 0.0 || Exponential(base, n) >= bound
    ensures base < 0.0 ==> bound >= 0.0 || Exponential(base, n) < bound
  {
    Pow2Grows(n);
    hide Pow2;
    var p := Pow2(n);
    assert p > bound / base;
    assert base * (bound / base) == bound;
    if base > 0.0 {
      assert base * p >= base * (bound / base);
    } else {
      assert base * p < base * (bound / base);
    }
  }

  // ----- Bounds -----

  // A probe is never before the provider's reset and never later than the jitter allows.
  lemma ProbeNeverBeforeReset(h: Hash64, retryAt: real, maxJitterSeconds: real)
    ensures retryAt <= ProbeAfterReset(h, retryAt, maxJitterSeconds) <= retryAt + Max(0.0, maxJitterSeconds)
  {
    JitterRange(h, maxJitterSeconds);
  }

  lemma DelayRange(p: Params, h: Hash64, raw: real)
    requires raw <= p.cap
    ensures raw <= Delay(p, h, raw) <= p.cap
  {
    hide Jitter;
    JitterRange(h, Spread(p, raw));
  }

  // Whatever the parameters and the hash, a delay lies between the unjittered delay and the cap.
  lemma DelayBounds(p: Params, hash: nat -> Hash64, attempt: nat)
    requires attempt >= 1
    ensures var d := ProbeDelay(p, hash, attempt);
            d.Some? && Min(p.cap, Exponential(p.base, attempt - 1)) <= d.value <= p.cap
  {
    hide Delay, Exponential;
    DelayRange(p, hash(attempt), Raw(p, attempt));
  }

  // The delay written out: doubling from the base up to the cap, plus the hash's share, in steps of
  // 1/(2^64 - 1), of the jitter, again up to the cap.
  lemma DelayIs(p: Params, hash: nat -> Hash64, attempt: int)
    ensures ProbeDelay(p, hash, attempt).None? <==> attempt < 1
    ensures attempt >= 1 ==>
              var doubled := p.base * Pow2(attempt - 1);
              var raw := if doubled < p.cap then doubled else p.cap;
              var share := hash(attempt) as real / 18446744073709551615.0;
              var late := if raw > 0.0 && p.jitterFraction > 0.0 then raw + share * (raw * p.jitterFraction) else raw;
              ProbeDelay(p, hash, attempt).value == if late < p.cap then late else p.cap
    ensures Pow2(0) == 1.0 && (attempt >= 1 ==> Pow2(attempt) == 2.0 * Pow2(attempt - 1))
  {
    hide Pow2;
    if attempt >= 1 {
      Doubles(attempt - 1);
      var raw := Raw(p, attempt);
      SpreadIs(p, raw);
    } else {
      Doubles(0);
    }
  }

  lemma SpreadIs(p: Params, raw: real)
    ensures if raw > 0.0 && p.jitterFraction > 0.0 then Spread(p, raw) == raw * p.jitterFraction && Spread(p, raw) > 0.0
            else Spread(p, raw) <= 0.0
  {
    var factor := Max(0.0, p.jitterFraction);
    if raw > 0.0 && p.jitterFraction > 0.0 {
      ProductSign(raw, factor);
    } else if raw <= 0.0 {
      ProductSign(0.0 - raw, factor);
      assert (0.0 - raw) * factor == 0.0 - raw * factor;
    }
  }

  lemma ProbeIs(h: Hash64, retryAt: real, maxJitterSeconds: real)
    ensures ProbeAfterReset(h, retryAt, maxJitterSeconds)
         == if maxJitterSeconds > 0.0 then retryAt + h as real / 18446744073709551615.0 * maxJitterSeconds else retryAt
  {
  }

  // ----- When delays never shrink -----

  ghost predicate NeverShrinks(p: Params) {
    forall hash: nat -> Hash64, attempt: nat :: attempt >= 1 ==>
      ProbeDelay(p, hash, attempt).value <= ProbeDelay(p, hash, attempt + 1).value
  }

  // What a caller can check beforehand.
  predicate SafeParams(p: Params) {
    p.base >= 0.0 && (p.jitterFraction <= 1.0 || p.base == 0.0 || p.cap <= 2.0 * p.base)
  }

  // One step, with x the exponential part of the earlier attempt.
  lemma StepNeverShrinks(p: Params, h: Hash64, k: Hash64, x: real)
    requires SafeParams(p) && x >= p.base
    requires p.base == 0.0 ==> x == 0.0
    ensures Delay(p, h, Min(p.cap, x)) <= Delay(p, k, Min(p.cap, 2.0 * x))
  {
    hide Jitter, Spread;
    var raw := Min(p.cap, x);
    DelayRange(p, h, raw);
    DelayRange(p, k, Min(p.cap, 2.0 * x));
    SpreadRange(p, raw);
    JitterRange(h, Spread(p, raw));
  }

  // A negative base falls without bound, so some later delay is shorter.
  lemma NegativeBaseShrinks(p: Params, hash: nat -> Hash64)
    requires p.base < 0.0
    ensures exists attempt: nat ::
              attempt >= 1 && ProbeDelay(p, hash, attempt + 1).value < ProbeDelay(p, hash, attempt).value
  {
    hide Jitter, Spread, Exponential;
    var n: nat := if p.cap >= 0.0 then 1 else (p.cap / p.base).Floor + 1;
    if p.cap < 0.0 { ExponentialIsUnbounded(p.base, p.cap, n); }
    assert n >= 1;
    ExponentialGrows(p.base, n - 1);
    assert Exponential(p.base, n) < p.cap;
    ExponentialGrows(p.base, n);
    UnjitteredBelowZero(p, hash(n), Raw(p, n));
    UnjitteredBelowZero(p, hash(n + 1), Raw(p, n + 1));
    assert Raw(p, n + 1) < Raw(p, n);
    assert ProbeDelay(p, hash, n + 1).value < ProbeDelay(p, hash, n).value;
  }

  lemma UnjitteredBelowZero(p: Params, h: Hash64, raw: real)
    requires raw <= 0.0 && raw <= p.cap
    ensures Delay(p, h, raw) == raw
  {
    hide Jitter, Spread;
    SpreadRange(p, raw);
    JitterRange(h, Spread(p, raw));
  }

  // More than full jitter lets the first delay overtake the second, as long as the cap leaves room.
  lemma LargeJitterShrinks(p: Params)
    requires p.base > 0.0 && p.jitterFraction > 1.0 && p.cap > 2.0 * p.base
    ensures exists hash: nat -> Hash64 :: ProbeDelay(p, hash, 1 + 1).value < ProbeDelay(p, hash, 1).value
  {
    hide Jitter, Spread, Exponential;
    var hash: nat -> Hash64 := n => if n == 1 then HASH_RANGE - 1 else 0;
    ExponentialGrows(p.base, 0);
    SpreadRange(p, p.base);
    JitterAtEnds(Spread(p, p.base));
    JitterAtEnds(Spread(p, 2.0 * p.base));
    assert Raw(p, 1) == p.base && Raw(p, 2) == 2.0 * p.base;
    assert ProbeDelay(p, hash, 2) == Some(Delay(p, 0, 2.0 * p.base));
    assert ProbeDelay(p, hash, 1) == Some(Delay(p, HASH_RANGE - 1, p.base));
  }

  // For any hash at all: delays never shrink from one attempt to the next if and only if the base is
  // not negative and the jitter is at most the delay itself (or the parameters leave it no room).
  lemma NeverShrinksExactly(p: Params)
    ensures NeverShrinks(p) <==> SafeParams(p)
  {
    hide Delay, Exponential;
    if SafeParams(p) {
      forall hash: nat -> Hash64, attempt: nat | attempt >= 1
        ensures ProbeDelay(p, hash, attempt).value <= ProbeDelay(p, hash, attempt + 1).value
      {
        ExponentialGrows(p.base, attempt - 1);
        StepNeverShrinks(p, hash(attempt), hash(attempt + 1), Exponential(p.base, attempt - 1));
      }
    } else if p.base < 0.0 {
      var zero: nat -> Hash64 := n => 0;
      NegativeBaseShrinks(p, zero);
    } else {
      LargeJitterShrinks(p);
    }
  }

  // ----- The cap -----

  ghost predicate CappedFrom(p: Params, hash: nat -> Hash64, n: nat) {
    forall attempt: nat :: attempt >= 1 && attempt >= n ==> ProbeDelay(p, hash, attempt) == Some(p.cap)
  }

  // With a positive base the cap is reached after finitely many attempts and kept from then on.
  lemma CapIsReached(p: Params, hash: nat -> Hash64)
    requires p.base > 0.0
    ensures exists n: nat :: CappedFrom(p, hash, n)
  {
    hide Delay, Exponential;
    var n: nat := if p.cap <= 0.0 then 1 else (p.cap / p.base).Floor + 2;
    forall attempt: nat | attempt >= 1 && attempt >= n ensures ProbeDelay(p, hash, attempt) == Some(p.cap) {
      if p.cap > 0.0 { ExponentialIsUnbounded(p.base, p.cap, attempt - 1); }
      ExponentialGrows(p.base, attempt - 1);
      assert Raw(p, attempt) == p.cap;
      DelayRange(p, hash(attempt), p.cap);
    }
    assert CappedFrom(p, hash, n);
  }
}
