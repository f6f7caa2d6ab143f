/** The exponential back-off of retry/retry.go:54-85, over real arithmetic. */
module BackOff {
  import opened Prelude
  import opened Retry

  datatype BackOff = BackOff(min: int, max: int, factor: real, jitter: real)

  const MILLISECOND := 1_000_000
  const DEFAULT_BACK_OFF := BackOff(500 * MILLISECOND, 5000 * MILLISECOND, 2.0, 0.2)

  /** 2^63, the first value that int64 does not hold. */
  const INT64_END: real := 9223372036854775808.0

  function Truncate(x: real): int {
    if x >= 0.0 then x.Floor else -((-x).Floor)
  }

  /**
   What is assumed of the float64 operations. Rounding is allowed: multiplication, powers and
   the conversion from int64 only have to keep order. The conversion to int64 truncates every
   value in range.
   */
  ghost predicate Ordered(num: Numbers) {
    && (forall a: real, x: real, y: real :: 0.0 <= a && 0.0 <= x <= y ==> 0.0 <= num.mul(a, x) <= num.mul(a, y))
    && (forall a: real, b: real, x: real :: 0.0 <= a <= b && 0.0 <= x ==> num.mul(a, x) <= num.mul(b, x))
    && (forall a: real, x: real :: 0.0 <= a <= 1.0 && 0.0 <= x ==> num.mul(a, x) <= x)
    && (forall x: real, m: nat, n: nat :: 1.0 <= x && m <= n ==> 1.0 <= num.pow(x, m) <= num.pow(x, n))
    && num.fromInt64(0) == 0.0
    && (forall m: int, n: int :: m <= n ==> num.fromInt64(m) <= num.fromInt64(n))
    && (forall x: real :: 0.0 <= x < INT64_END ==> num.toInt64(x) == Truncate(x))
  }

  /** The integers that float64 holds exactly. */
  const EXACT_END: int := 0x20_0000_0000_0000

  function PowerOfTwo(n: nat): nat {
    if n == 0 then 1 else 2 * PowerOfTwo(n - 1)
  }

  /** Where float64 does not round: integers up to 2^53, their products within it, quarters of them, and powers of two. */
  ghost predicate ExactOnSmall(num: Numbers) {
    && (forall n: int :: 0 <= n <= EXACT_END ==> num.fromInt64(n) == n as real)
    && (forall m: nat, n: nat :: m * n <= EXACT_END ==> num.mul(m as real, n as real) == (m * n) as real)
    && (forall x: real :: 1.0 <= x <= EXACT_END as real ==> num.mul(0.25, x) == x / 4.0)
    && (forall n: nat :: PowerOfTwo(n) <= EXACT_END ==> num.pow(2.0, n) == PowerOfTwo(n) as real)
  }

  /** Min * Factor^attempts, before the conversion. */
  function Growth(b: BackOff, num: Numbers, attempts: nat): real {
    num.mul(num.fromInt64(b.min), num.pow(b.factor, attempts))
  }

  /** The fraction of a delay that jitter leaves; `draw` is the random number. */
  function Jittered(b: BackOff, num: Numbers, d: int, draw: real): int {
    num.toInt64(num.mul(num.mul(draw, b.jitter), num.fromInt64(d)))
  }

  function Next(b: BackOff, num: Numbers, attempts: nat, draw: real): int {
    var grown := num.toInt64(Growth(b, num, attempts));
    var d := if b.jitter > 0.0 then Jittered(b, num, grown, draw) else grown;
    if d > b.max then b.max else if d < b.min then b.min else d
  }

  method NextDelay(b: BackOff, num: Numbers, attempts: nat, draw: real) returns (r: int)
    ensures r == Next(b, num, attempts, draw)
    ensures b.min <= b.max ==> b.min <= r <= b.max
  {
    var d := num.toInt64(Growth(b, num, attempts));
    if b.jitter > 0.0 {
      d := Jittered(b, num, d, draw);
    }
    if d > b.max {
      return b.max;
    }
    if d < b.min {
      return b.min;
    }
    return d;
  }

  /** The result is within the bounds, for every draw and every value of an out-of-range conversion, iff there are bounds to be within. */
  lemma NextBounded(b: BackOff, num: Numbers, attempts: nat, draw: real)
    ensures b.min <= Next(b, num, attempts, draw) <= b.max <==> b.min <= b.max
  {
  }

  /**
   The value: Min * Factor^attempts in whole nanoseconds, with jitter the drawn fraction of
   that, cut to the bounds. It is what the formula gives while it is within int64.
   */
  lemma NextValue(b: BackOff, num: Numbers, attempts: nat, draw: real)
    requires Ordered(num) && b.min <= b.max
    requires 0.0 <= num.mul(num.fromInt64(b.min), num.pow(b.factor, attempts)) < INT64_END
    ensures var d := num.mul(num.fromInt64(b.min), num.pow(b.factor, attempts)).Floor;
            && (b.jitter <= 0.0 ==> Next(b, num, attempts, draw) == Min(b.max, Max(b.min, d)))
            && (b.jitter > 0.0 && 0.0 <= num.mul(num.mul(draw, b.jitter), num.fromInt64(d)) < INT64_END ==>
                  Next(b, num, attempts, draw) ==
                    Min(b.max, Max(b.min, num.mul(num.mul(draw, b.jitter), num.fromInt64(d)).Floor)))
  {
  }

  /** `d` doubled `n` times. */
  function Doubled(d: nat, n: nat): nat {
    if n == 0 then d else 2 * Doubled(d, n - 1)
  }

  lemma TwiceOver(d: nat, p: nat)
    ensures d * (2 * p) == 2 * (d * p)
  {
  }

  lemma {:induction false} DoubledIs(d: nat, n: nat)
    ensures Doubled(d, n) == d * PowerOfTwo(n)
  {
    if n > 0 {
      DoubledIs(d, n - 1);
      TwiceOver(d, PowerOfTwo(n - 1));
    }
  }

  lemma {:induction false} DoubledGrows(d: nat, n: nat)
    requires d > 0
    ensures d <= Doubled(d, n) && PowerOfTwo(n) <= Doubled(d, n)
  {
    if n > 0 {
      DoubledGrows(d, n - 1);
    }
  }

  lemma {:induction false} PowerGrows(m: nat, n: nat)
    requires m <= n
    ensures PowerOfTwo(m) <= PowerOfTwo(n)
    decreases n
  {
    if m < n {
      PowerGrows(m, n - 1);
    }
  }

  /** The growth of a back-off by two is exact up to 2^53. */
  lemma DoublingExact(b: BackOff, num: Numbers, n: nat)
    requires ExactOnSmall(num) && b.min > 0 && b.factor == 2.0 && Doubled(b.min, n) <= EXACT_END
    ensures Growth(b, num, n) == Doubled(b.min, n) as real
  {
    DoubledIs(b.min, n);
    DoubledGrows(b.min, n);
    ExactProduct(num, b.min, PowerOfTwo(n));
  }

  lemma ExactProduct(num: Numbers, m: nat, n: nat)
    requires ExactOnSmall(num) && m * n <= EXACT_END
    ensures num.mul(m as real, n as real) == (m * n) as real
  {
  }

  /** The first doubling that exceeds `max` is not over twice that. */
  lemma {:induction false} FirstOver(d: nat, max: nat, n: nat) returns (m: nat)
    requires 0 < d <= max < Doubled(d, n)
    ensures m <= n && max < Doubled(d, m) <= 2 * max
    decreases n
  {
    if Doubled(d, n - 1) <= max {
      m := n;
    } else {
      m := FirstOver(d, max, n - 1);
    }
  }

  /** Without jitter a back-off by two doubles its delay with every attempt until it reaches Max, and stays there. */
  lemma DoublesUntilMax(b: BackOff, num: Numbers, attempts: nat, draw: real)
    requires Ordered(num) && ExactOnSmall(num)
    requires 0 < b.min <= b.max && 2 * b.max <= EXACT_END && b.factor == 2.0 && b.jitter <= 0.0
    requires Growth(b, num, attempts) < INT64_END
    ensures Next(b, num, attempts, draw) == Min(b.max, Doubled(b.min, attempts))
  {
    if Doubled(b.min, attempts) <= b.max {
      DoublingExact(b, num, attempts);
      DoubledGrows(b.min, attempts);
    } else {
      var m := FirstOver(b.min, b.max, attempts);
      DoublingExact(b, num, m);
      assert num.fromInt64(b.min) == b.min as real;
      assert num.pow(2.0, m) <= num.pow(2.0, attempts);
      assert Growth(b, num, m) <= Growth(b, num, attempts);
    }
  }

  /** From 500ms to 5s by two: one, two, four and then always five seconds. */
  lemma FiveSecondSchedule(num: Numbers, attempts: nat, draw: real)
    requires Ordered(num) && ExactOnSmall(num) && attempts >= 1
    requires Growth(BackOff(500_000_000, 5_000_000_000, 2.0, 0.0), num, attempts) < INT64_END
    ensures Next(BackOff(500_000_000, 5_000_000_000, 2.0, 0.0), num, attempts, draw) ==
              if attempts == 1 then 1_000_000_000
              else if attempts == 2 then 2_000_000_000
              else if attempts == 3 then 4_000_000_000
              else 5_000_000_000
  {
    DoublesUntilMax(BackOff(500_000_000, 5_000_000_000, 2.0, 0.0), num, attempts, draw);
    DoubledIs(500_000_000, attempts);
    assert PowerOfTwo(1) == 2 && PowerOfTwo(2) == 4 && PowerOfTwo(3) == 8 && PowerOfTwo(4) == 16;
    if attempts >= 4 {
      PowerGrows(4, attempts);
    }
  }

  /** Without jitter the delay does not decrease, while the conversion is in range. */
  lemma NextMonotone(b: BackOff, num: Numbers, m: nat, n: nat, draw: real, draw': real)
    requires Ordered(num) && 0 <= b.min <= b.max && b.factor >= 1.0 && b.jitter <= 0.0
    requires m <= n && Growth(b, num, n) < INT64_END
    ensures Next(b, num, m, draw) <= Next(b, num, n, draw')
  {
  }

  /** With jitter the delay is a fraction of the exponential one: it stays at Min until Jitter times that exceeds Min. */
  lemma JitterStaysAtMin(b: BackOff, num: Numbers, attempts: nat, draw: real)
    requires Ordered(num) && 0 < b.min <= b.max < TWO_63 && b.factor >= 1.0
    requires b.jitter > 0.0 && 0.0 <= draw < 1.0
    requires Growth(b, num, attempts) < INT64_END
    requires num.mul(b.jitter, num.fromInt64(num.toInt64(Growth(b, num, attempts)))) <= b.min as real
    ensures Next(b, num, attempts, draw) == b.min
  {
    assert 1.0 <= num.pow(b.factor, attempts) <= num.pow(b.factor, attempts);
    assert 0.0 <= num.fromInt64(b.min) && 0.0 <= Growth(b, num, attempts);
    var d := num.toInt64(Growth(b, num, attempts));
    assert 0.0 <= num.fromInt64(d);
    var j := num.mul(draw, b.jitter);
    assert 0.0 <= j <= b.jitter;
    assert 0.0 <= num.mul(j, num.fromInt64(d)) <= num.mul(b.jitter, num.fromInt64(d));
  }

  /** The default back-off sleeps its minimum of 500ms after the first and the second attempt, whatever is drawn. */
  lemma DefaultStartsAtMin(num: Numbers, attempts: nat, draw: real)
    requires Ordered(num) && ExactOnSmall(num) && 1 <= attempts <= 2 && 0.0 <= draw < 1.0
    ensures Next(DEFAULT_BACK_OFF, num, attempts, draw) == 500_000_000
  {
    var p := PowerOfTwo(attempts);
    assert p == 2 || p == 4 by { assert PowerOfTwo(1) == 2 && PowerOfTwo(2) == 4; }
    var d := 500_000_000 * p;
    assert Growth(DEFAULT_BACK_OFF, num, attempts) == num.mul(500_000_000 as real, p as real) == d as real;
    assert num.toInt64(d as real) == d;
    assert num.mul(0.2, d as real) <= num.mul(0.25, d as real) == d as real / 4.0;
    JitterStaysAtMin(DEFAULT_BACK_OFF, num, attempts, draw);
  }

  /** A policy that backs off: its interval is Next at the draws of this run. */
  function Backing(b: BackOff, num: Numbers, draws: int -> real, p: Policy): Policy {
    p.(interval := Some((i: int) => if i < 0 then b.min else Next(b, num, i, draws(i))))
  }

  /** k attempts under a back-off, with no rate limits, sleep between (k-1)*Min and (k-1)*Max in all. */
  lemma BackOffTotal(b: BackOff, draws: int -> real, p: Policy, w: World, n: nat, t: Trace)
    requires b.min <= b.max
    requires EndsAt(Backing(b, w.num, draws, p), w, n, t) && t.verdict.Returned?
    requires forall i: nat :: 1 <= i < n && w.op(i).Some? ==> RateLimit(w.num, w.op(i).value) == 0
    ensures (|t.calls| - 1) * b.min <= Sum(t.sleeps) <= (|t.calls| - 1) * b.max
  {
    forall i: nat | 1 <= i < n ensures b.min <= Backing(b, w.num, draws, p).interval.value(i) <= b.max {
      NextBounded(b, w.num, i, draws(i));
    }
    TotalSleep(Backing(b, w.num, draws, p), w, n, t, b.min, b.max);
  }
}
