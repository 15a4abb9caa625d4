/** Retry delays, with the wrap-around of 64-bit durations
    (internal/runtime/autopilot.go, internal/connectors/polymarket/ws_market_client.go). */
module Backoff {
  import opened FixedWidth

  const MILLISECOND: int := 1_000_000

  function Min(a: int, b: int): int { if a <= b then a else b }

  function Pow2(n: nat): (p: nat)
    ensures p >= 1
  {
    if n == 0 then 1 else 2 * Pow2(n - 1)
  }

  // ----- the reconcile loop's delay -----

  function NextReconcileDelay(current: int, maxDelay: int): int {
    var doubled := Wrap64(current * 2);
    var next := if doubled <= 0 then 200 * MILLISECOND else doubled;
    if maxDelay > 0 && next > maxDelay then maxDelay else next
  }

  /** One step doubles up to the cap exactly when the doubling fits an int64, or the cap is no larger
      than the 200ms that an overflow falls back to. */
  lemma NextReconcileDelayExact(current: int, maxDelay: int)
    requires 0 < current < TWO_63 && 0 < maxDelay < TWO_63
    ensures NextReconcileDelay(current, maxDelay) == Min(2 * current, maxDelay) <==>
            Int64(2 * current) || maxDelay <= 200 * MILLISECOND
  {
    if !Int64(2 * current) {
      assert Wrap64(current * 2) == current * 2 - TWO_64;
    }
  }

  /** The step in full: doubled, or 200ms where that is not positive or does not fit, and capped by a positive cap. */
  lemma DelayDoubles(current: int, maxDelay: int)
    requires -TWO_63 <= 2 * current && current < TWO_63
    ensures var next := if 0 < 2 * current < TWO_63 then 2 * current else 200_000_000;
            NextReconcileDelay(current, maxDelay) == if maxDelay > 0 then Min(next, maxDelay) else next
  {
    if 2 * current >= TWO_63 {
      assert Wrap64(current * 2) == current * 2 - TWO_64;
    }
  }

  function NthDelay(base: int, maxDelay: int, k: nat): int {
    if k == 0 then base else NextReconcileDelay(NthDelay(base, maxDelay, k - 1), maxDelay)
  }

  lemma DoublePow2(base: int, k: nat)
    ensures base * Pow2(k + 1) == 2 * (base * Pow2(k))
  {
  }

  lemma ScaledAtLeast(base: int, p: nat)
    requires base > 0 && p >= 1
    ensures base * p >= base
  {
  }

  /** The first wait is the base delay as it is; from the second on the k-th is min(base * 2^k, max). */
  predicate FollowsFormula(base: int, maxDelay: int, k: nat) {
    NthDelay(base, maxDelay, k) == if k == 0 then base else Min(base * Pow2(k), maxDelay)
  }

  /** Neither delay overflows when doubled, or the cap is at most the 200ms an overflow falls back to. */
  predicate Doublable(base: int, maxDelay: int) {
    (Int64(2 * base) && Int64(2 * maxDelay)) || maxDelay <= 200 * MILLISECOND
  }

  lemma DoubledMin(base: int, p: int, maxDelay: int, current: int)
    requires base > 0 && p >= 1 && maxDelay > 0
    requires current == Min(base * p, maxDelay) || (p == 1 && current == base)
    ensures Min(2 * current, maxDelay) == Min(base * (2 * p), maxDelay)
  {
    var product := base * p;
    ScaledAtLeast(base, p);
    assert base * (2 * p) == 2 * product;
  }

  lemma {:induction false} NthDelayClosedForm(base: int, maxDelay: int, k: nat)
    requires 0 < base < TWO_63 && 0 < maxDelay < TWO_63 && Doublable(base, maxDelay)
    ensures FollowsFormula(base, maxDelay, k) && 0 < NthDelay(base, maxDelay, k)
  {
    if k > 0 {
      NthDelayClosedForm(base, maxDelay, k - 1);
      var current := NthDelay(base, maxDelay, k - 1);
      ScaledAtLeast(base, Pow2(k - 1));
      NextReconcileDelayExact(current, maxDelay);
      DoubledMin(base, Pow2(k - 1), maxDelay, current);
    }
  }

  /** After how many doublings a delay no longer fits when doubled again. */
  lemma {:induction false} LastDoubling(base: int, k: nat) returns (n: nat)
    requires 0 < base && base * Pow2(k) < TWO_63
    ensures n >= k && TWO_63 <= 2 * (base * Pow2(n)) && base * Pow2(n) < TWO_63
    decreases TWO_63 - base * Pow2(k)
  {
    DoublePow2(base, k);
    ScaledAtLeast(base, Pow2(k));
    if 2 * (base * Pow2(k)) >= TWO_63 {
      n := k;
    } else {
      n := LastDoubling(base, k + 1);
    }
  }

  lemma OverflowBreaksFormula(base: int, maxDelay: int, k: nat)
    requires 0 < base && 200 * MILLISECOND < maxDelay < TWO_63 <= 2 * maxDelay
    requires TWO_63 <= 2 * (base * Pow2(k)) && base * Pow2(k) < TWO_63
    requires FollowsFormula(base, maxDelay, k)
    ensures !FollowsFormula(base, maxDelay, k + 1)
  {
    var current := NthDelay(base, maxDelay, k);
    NextReconcileDelayExact(current, maxDelay);
    DoubledMin(base, Pow2(k), maxDelay, current);
  }

  lemma BaseOverflowBreaksFormula(base: int, maxDelay: int)
    requires 0 < base < TWO_63 <= 2 * base && 200 * MILLISECOND < maxDelay < TWO_63
    ensures !FollowsFormula(base, maxDelay, 1)
  {
    NextReconcileDelayExact(base, maxDelay);
    assert Pow2(0) == 1 && Pow2(1) == 2;
    assert NthDelay(base, maxDelay, 0) == base;
  }

  ghost predicate AllFollow(base: int, maxDelay: int) {
    forall k: nat :: FollowsFormula(base, maxDelay, k)
  }

  /** Every wait follows the formula exactly when neither the base delay nor the cap overflows on doubling,
      or the cap is at most 200ms. */
  lemma DelaysFollowExactlyWhen(base: int, maxDelay: int)
    requires 0 < base < TWO_63 && 0 < maxDelay < TWO_63
    ensures AllFollow(base, maxDelay) <==> Doublable(base, maxDelay)
  {
    if Doublable(base, maxDelay) {
      forall k: nat
        ensures FollowsFormula(base, maxDelay, k)
      {
        NthDelayClosedForm(base, maxDelay, k);
      }
    } else if Int64(2 * base) {
      assert Pow2(0) == 1;
      var k := LastDoubling(base, 0);
      if FollowsFormula(base, maxDelay, k) {
        OverflowBreaksFormula(base, maxDelay, k);
      }
    } else {
      BaseOverflowBreaksFormula(base, maxDelay);
    }
  }

  // ----- the market stream's reconnect delay -----

  datatype ReconnectPolicy = ReconnectPolicy(baseDelay: int, maxDelay: int, maxAttempts: int)

  const DEFAULT_POLICY := ReconnectPolicy(250 * MILLISECOND, 5000 * MILLISECOND, 0)

  /** time.Duration(1 << n): the bit leaves an int64 after 63 places. */
  function ShiftedOne(n: nat): int {
    Wrap64(Pow2(n))
  }

  function NextBackoff(attempt: int, policy: ReconnectPolicy): int {
    var n := if attempt < 0 then 0 else attempt;
    var delay := Wrap64(policy.baseDelay * ShiftedOne(n));
    if delay > policy.maxDelay then policy.maxDelay else delay
  }

  lemma CappedWrap(product: int, cap: int)
    requires product > 0 && cap > 0 && Int64(cap)
    ensures Min(Wrap64(product), cap) == Min(product, cap) <==> Int64(product) || Wrap64(product) >= cap
  {
  }

  lemma {:induction false} Pow2Splits(m: nat, n: nat)
    ensures Pow2(m + n) == Pow2(m) * Pow2(n)
  {
    if m > 0 {
      Pow2Splits(m - 1, n);
      assert Pow2(m + n) == 2 * Pow2(m - 1 + n);
    }
  }

  lemma Regroup(base: int, q: int, a: int, b: int, c: int, p: int, n: int)
    requires base == q * a && p == b * c && n == a * b
    ensures base * p == (q * c) * n
  {
    assert (q * a) * (b * c) == (q * c) * (a * b);
  }

  lemma Pow2Of64()
    ensures Pow2(16) == 65536 && Pow2(32) == 4294967296 && Pow2(64) == TWO_64
  {
    assert Pow2(8) == 256;
    Pow2Splits(8, 8);
    Pow2Splits(16, 16);
    Pow2Splits(32, 32);
  }

  lemma MultipleVanishes(k: int)
    ensures Wrap64(k * TWO_64) == 0
  {
    WrapShift(0, k);
  }

  lemma ProductIsMultiple(base: int, q: int, z: nat, attempt: nat)
    requires z <= 64 && base == q * Pow2(z) && attempt >= 64 - z
    ensures base * Pow2(attempt) == (q * Pow2(attempt - (64 - z))) * TWO_64
  {
    var r := attempt - (64 - z);
    Pow2Splits(z, 64 - z);
    Pow2Splits(64 - z, r);
    Pow2Of64();
    Regroup(base, q, Pow2(z), Pow2(64 - z), Pow2(r), Pow2(attempt), TWO_64);
  }

  /** A base delay that is a multiple of 2^z makes every delay from attempt 64 - z on zero: the
      reconnect loop stops waiting. */
  lemma BackoffVanishes(attempt: nat, q: int, z: nat, policy: ReconnectPolicy)
    requires z <= 64 && policy.baseDelay == q * Pow2(z) && policy.maxDelay >= 0
    requires attempt >= 64 - z
    ensures NextBackoff(attempt, policy) == 0
  {
    ProductIsMultiple(policy.baseDelay, q, z, attempt);
    WrapProduct(policy.baseDelay, Pow2(attempt));
    MultipleVanishes(q * Pow2(attempt - (64 - z)));
  }

  lemma Pow2Monotone(m: nat, n: nat)
    requires m <= n
    ensures Pow2(m) <= Pow2(n)
  {
    Pow2Splits(m, n - m);
    ScaledAtLeast(Pow2(m), Pow2(n - m));
  }

  // ----- when the reconnect delay is what it should be -----

  /** The low `w` bits of a number, read as a signed integer of that width. */
  function SignedLow(base: nat, w: nat): int
    requires w > 0
  {
    var low := base % Pow2(w);
    if low < Pow2(w - 1) then low else low - Pow2(w)
  }

  lemma SignedLowRange(base: nat, w: nat)
    requires w > 0
    ensures -(Pow2(w - 1) as int) <= SignedLow(base, w) < Pow2(w - 1)
    ensures exists q: int :: base == q * Pow2(w) + SignedLow(base, w)
  {
    var n := Pow2(w);
    assert n == 2 * Pow2(w - 1);
    assert base == (base / n) * n + base % n;
    if base % n >= Pow2(w - 1) {
      assert base == (base / n + 1) * n + (base % n - n);
    }
  }

  lemma PositiveProduct(x: int, p: int)
    requires x > 0 && p > 0
    ensures x * p > 0
  {
  }

  lemma NonNegativeProduct(x: int, p: int)
    requires x >= 0 && p > 0
    ensures x * p >= 0
  {
  }

  lemma ScaledRange(x: int, h: int, p: int)
    requires 0 - h <= x < h && p >= 1
    ensures 0 - h * p <= x * p < h * p
  {
    PositiveProduct(h - x, p);
    NonNegativeProduct(x + h, p);
    assert (h - x) * p == h * p - x * p;
    assert (x + h) * p == x * p + h * p;
  }

  lemma SplitProduct(base: int, q: int, n: int, x: int, p: int)
    requires base == q * n + x
    ensures base * p == x * p + q * (n * p)
  {
    assert (q * n + x) * p == q * n * p + x * p;
    assert q * n * p == q * (n * p);
  }

  lemma WrapOfSplit(base: int, q: int, n: int, x: int, h: int, p: int)
    requires base == q * n + x && n * p == TWO_64 && h * p == TWO_63
    requires 0 - h <= x < h && p >= 1
    ensures Wrap64(base * p) == x * p
  {
    SplitProduct(base, q, n, x, p);
    ScaledRange(x, h, p);
    WrapShift(x * p, q);
  }

  /** Shifting drops the high bits: what remains are the low 64 - a ones, signed and shifted. */
  lemma WrapOfShift(base: nat, a: nat)
    requires a < 64
    ensures Wrap64(base * Pow2(a)) == SignedLow(base, 64 - a) * Pow2(a)
  {
    var w, x := 64 - a, SignedLow(base, 64 - a);
    SignedLowRange(base, w);
    var q: int :| base == q * Pow2(w) + x;
    ShiftWidths(a);
    WrapOfSplit(base, q, Pow2(w), x, Pow2(w - 1), Pow2(a));
  }

  lemma ShiftWidths(a: nat)
    requires a < 64
    ensures Pow2(64 - a) * Pow2(a) == TWO_64 && Pow2(63 - a) * Pow2(a) == TWO_63
  {
    Pow2Splits(64 - a, a);
    Pow2Splits(63 - a, a);
    Pow2Of64();
    assert Pow2(64) == 2 * Pow2(63);
  }

  /** The delay is min(base * 2^attempt, max). */
  predicate MeetsFormula(attempt: nat, policy: ReconnectPolicy) {
    NextBackoff(attempt, policy) == Min(policy.baseDelay * Pow2(attempt), policy.maxDelay)
  }

  /** The formula is met exactly when the product fits an int64, or the bits of the
      base delay that are not shifted out happen to make a number that is no smaller than the cap. */
  lemma NextBackoffExact(attempt: nat, policy: ReconnectPolicy)
    requires policy.baseDelay > 0 && policy.maxDelay > 0 && Int64(policy.maxDelay)
    ensures MeetsFormula(attempt, policy) <==>
            Int64(policy.baseDelay * Pow2(attempt))
            || (attempt < 64 && SignedLow(policy.baseDelay, 64 - attempt) * Pow2(attempt) >= policy.maxDelay)
  {
    var product := policy.baseDelay * Pow2(attempt);
    WrapProduct(policy.baseDelay, Pow2(attempt));
    ScaledAtLeast(policy.baseDelay, Pow2(attempt));
    CappedWrap(product, policy.maxDelay);
    if attempt < 64 {
      WrapOfShift(policy.baseDelay, attempt);
    } else {
      AllShiftedOut(policy.baseDelay, attempt);
    }
  }

  /** The delay whether or not it meets the formula: the bits of the base delay that are not shifted out, signed and
      shifted, up to the cap; a negative attempt counts as the first. */
  lemma NextBackoffInFull(attempt: int, policy: ReconnectPolicy)
    requires policy.baseDelay >= 0
    ensures var n: nat := if attempt < 0 then 0 else attempt;
            var shifted := if n < 64 then SignedLow(policy.baseDelay, 64 - n) * Pow2(n) else 0;
            NextBackoff(attempt, policy) == if shifted <= policy.maxDelay then shifted else policy.maxDelay
  {
    var n: nat := if attempt < 0 then 0 else attempt;
    WrapProduct(policy.baseDelay, Pow2(n));
    if n < 64 {
      WrapOfShift(policy.baseDelay, n);
    } else {
      assert Pow2(0) == 1;
      ProductIsMultiple(policy.baseDelay, policy.baseDelay, 0, n);
      MultipleVanishes(policy.baseDelay * Pow2(n - 64));
    }
  }

  lemma AllShiftedOut(base: int, attempt: nat)
    requires base > 0 && attempt >= 64
    ensures Wrap64(base * Pow2(attempt)) == 0 && !Int64(base * Pow2(attempt))
  {
    assert Pow2(0) == 1;
    ProductIsMultiple(base, base, 0, attempt);
    MultipleVanishes(base * Pow2(attempt - 64));
    ScaledAtLeast(base, Pow2(attempt - 64));
  }

  // ----- the default policy -----

  lemma DefaultPolicyEarly(attempt: nat)
    requires attempt <= 35
    ensures MeetsFormula(attempt, DEFAULT_POLICY)
  {
    Pow2Monotone(attempt, 35);
    Pow2At35();
    ProductFits(DEFAULT_POLICY.baseDelay, Pow2(attempt), 34359738368);
    NextBackoffExact(attempt, DEFAULT_POLICY);
  }

  lemma ProductFits(base: int, p: nat, bound: nat)
    requires 0 < base && 1 <= p <= bound && Int64(base * bound)
    ensures Int64(base * p)
  {
    assert base * p <= base * bound;
    ScaledAtLeast(base, p);
  }

  lemma Pow2At35()
    ensures Pow2(35) == 34359738368
  {
    Pow2Of64();
    Pow2Splits(3, 32);
    assert Pow2(3) == 8;
  }

  lemma DefaultPolicyLate(attempt: nat)
    requires attempt >= 57
    ensures NextBackoff(attempt, DEFAULT_POLICY) == 0
  {
    assert Pow2(7) == 128;
    BackoffVanishes(attempt, 1953125, 7, DEFAULT_POLICY);
  }

  /** The attempts past 35 at which the bits that are left of 250ms are those of a positive number. */
  const FORTUNATE: set<nat> := {39, 43, 44, 47, 49, 52, 53, 55}

  /** 2^8 to 2^28. */
  const POWERS: seq<nat> := [
    256, 512, 1024, 2048, 4096, 8192, 16384, 32768, 65536,
    131072, 262144, 524288, 1048576, 2097152, 4194304,
    8388608, 16777216, 33554432, 67108864, 134217728, 268435456]

  lemma PowersDouble(i: nat)
    requires 0 < i < 21
    ensures POWERS[i] == 2 * POWERS[i - 1]
  {
  }

  lemma Double(w: nat)
    requires w > 0
    ensures Pow2(w) == 2 * Pow2(w - 1)
  {
  }

  lemma {:induction false} PowerAt(i: nat)
    requires i < 21
    ensures Pow2(8 + i) == POWERS[i] && POWERS[i] % 2 == 0
  {
    if i == 0 {
      assert Pow2(8) == 256;
    } else {
      PowerAt(i - 1);
      PowersDouble(i);
      Double(8 + i);
    }
  }

  /** 250ms modulo n is a positive signed number. */
  predicate LeavesPositive(n: nat)
    requires n > 0
  {
    0 < 250000000 % n < n / 2
  }

  lemma BitsLeft(w: nat, n: nat)
    requires w > 0 && Pow2(w) == n && n % 2 == 0
    ensures n > 0 && (SignedLow(250000000, w) > 0 <==> LeavesPositive(n))
  {
  }

  lemma Remainders36To42()
    ensures !LeavesPositive(268435456)
    ensures !LeavesPositive(134217728)
    ensures !LeavesPositive(67108864)
    ensures LeavesPositive(33554432)
    ensures !LeavesPositive(16777216)
    ensures !LeavesPositive(8388608)
    ensures !LeavesPositive(4194304)
  {
  }

  lemma Remainders43To49()
    ensures LeavesPositive(2097152)
    ensures LeavesPositive(1048576)
    ensures !LeavesPositive(524288)
    ensures !LeavesPositive(262144)
    ensures LeavesPositive(131072)
    ensures !LeavesPositive(65536)
    ensures LeavesPositive(32768)
  {
  }

  lemma Remainders50To56()
    ensures !LeavesPositive(16384)
    ensures !LeavesPositive(8192)
    ensures LeavesPositive(4096)
    ensures LeavesPositive(2048)
    ensures !LeavesPositive(1024)
    ensures LeavesPositive(512)
    ensures !LeavesPositive(256)
  {
  }

  lemma FortunateRemainders(i: nat)
    requires i < 21
    ensures POWERS[i] > 0 && (LeavesPositive(POWERS[i]) <==> 56 - i in FORTUNATE)
  {
    Remainders36To42();
    Remainders43To49();
    Remainders50To56();
  }

  lemma FortunateBits(attempt: nat)
    requires 36 <= attempt <= 56
    ensures SignedLow(250000000, 64 - attempt) > 0 <==> attempt in FORTUNATE
  {
    var i := 56 - attempt;
    PowerAt(i);
    BitsLeft(64 - attempt, POWERS[i]);
    FortunateRemainders(i);
  }

  lemma SignOfProduct(x: int, p: nat, bound: nat)
    requires 1 <= bound <= p
    ensures if x > 0 then x * p >= bound else x * p <= 0
  {
    if x > 0 {
      ScaledAtLeast(p, x);
    } else {
      NonNegativeProduct(-x, p);
    }
  }

  lemma DefaultProductTooLarge(attempt: nat)
    requires attempt >= 36
    ensures !Int64(DEFAULT_POLICY.baseDelay * Pow2(attempt))
  {
    Pow2Monotone(36, attempt);
    Pow2At35();
    assert Pow2(36) == 2 * Pow2(35);
    assert DEFAULT_POLICY.baseDelay * Pow2(attempt) >= DEFAULT_POLICY.baseDelay * Pow2(36);
  }

  lemma DefaultPolicyBetween(attempt: nat)
    requires 36 <= attempt <= 56
    ensures MeetsFormula(attempt, DEFAULT_POLICY) <==> attempt in FORTUNATE
    ensures attempt !in FORTUNATE ==> NextBackoff(attempt, DEFAULT_POLICY) <= 0
  {
    var x := SignedLow(250000000, 64 - attempt);
    FortunateBits(attempt);
    Pow2Monotone(35, attempt);
    Pow2At35();
    SignOfProduct(x, Pow2(attempt), 34359738368);
    DefaultProductTooLarge(attempt);
    NextBackoffExact(attempt, DEFAULT_POLICY);
    WrapProduct(DEFAULT_POLICY.baseDelay, Pow2(attempt));
    WrapOfShift(DEFAULT_POLICY.baseDelay, attempt);
  }

  /** With the default policy the formula is met up to attempt 35 and at eight attempts after that; at every
      other attempt the delay is zero or negative, and the loop does not wait. */
  lemma DefaultPolicyExactlyWhen(attempt: nat)
    ensures MeetsFormula(attempt, DEFAULT_POLICY) <==> attempt <= 35 || attempt in FORTUNATE
    ensures attempt > 35 && attempt !in FORTUNATE ==> NextBackoff(attempt, DEFAULT_POLICY) <= 0
  {
    if attempt <= 35 {
      DefaultPolicyEarly(attempt);
    } else if attempt <= 56 {
      DefaultPolicyBetween(attempt);
    } else {
      DefaultPolicyLate(attempt);
      ScaledAtLeast(DEFAULT_POLICY.baseDelay, Pow2(attempt));
    }
  }

  // ----- which HTTP answers are worth another try -----

  /** 425 Too Early (section 5.2 of RFC 8470), 429 Too Many Requests (section 4 of RFC 6585) and 5xx. */
  predicate ShouldRetryHTTPStatus(statusCode: int) {
    statusCode == 425 || statusCode == 429 || 500 <= statusCode <= 599
  }
}
