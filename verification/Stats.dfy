/** Wilson and Newcombe intervals of eval_harness/stats.py over exact reals. */
module Stats {
  import opened Wrappers

  datatype StatsError = IllegalCounts | NoTrials | RateOutOfRange

  datatype Interval = Interval(lower: real, upper: real)

  const Z_975: real := 1.959964

  /** `math.sqrt` with the rounding left aside. */
  ghost predicate IsSqrt(sqrt: real -> real) {
    forall x | x >= 0.0 :: sqrt(x) >= 0.0 && sqrt(x) * sqrt(x) == x
  }

  function Max(x: real, y: real): real {
    if x < y then y else x
  }

  function Min(x: real, y: real): real {
    if y < x then y else x
  }

  // ---------- wilson_interval ----------

  /** z²/n */
  function K(trials: nat, z: real): (k: real)
    requires trials > 0
    ensures k >= 0.0
  {
    SquareNonNegative(z);
    z * z / trials as real
  }

  function Rate(successes: nat, trials: nat): real
    requires trials > 0
  {
    successes as real / trials as real
  }

  function Center(p: real, trials: nat, z: real): real
    requires trials > 0
  {
    var n, z2 := trials as real, z * z;
    var denom := 1.0 + K(trials, z);
    (p + z2 / (2.0 * n)) / denom
  }

  function Spread(p: real, trials: nat, z: real): real
    requires trials > 0
  {
    var n, z2 := trials as real, z * z;
    p * (1.0 - p) / n + z2 / (4.0 * n * n)
  }

  function Margin(sqrt: real -> real, p: real, trials: nat, z: real): real
    requires trials > 0
  {
    z / (1.0 + K(trials, z)) * sqrt(Spread(p, trials, z))
  }

  function WilsonInterval(sqrt: real -> real, successes: int, trials: int, z: real): Result<Interval, StatsError> {
    if trials < 0 || successes < 0 || successes > trials then Err(IllegalCounts)
    else if trials == 0 then Ok(Interval(0.0, 1.0))
    else
      var p := Rate(successes, trials);
      var center, margin := Center(p, trials, z), Margin(sqrt, p, trials, z);
      Ok(Interval(Max(0.0, center - margin), Min(1.0, center + margin)))
  }

  // ---------- newcombe_wilson_diff ----------

  /** Python's `round`: to the nearest integer, ties to the even one. */
  function Round(x: real): int {
    var low := x.Floor;
    var part := x - low as real;
    if part < 0.5 || (part == 0.5 && low % 2 == 0) then low else low + 1
  }

  /** The distance a bound keeps from the difference, from the two half-widths. */
  function Reach(sqrt: real -> real, a: real, b: real): real {
    sqrt(a * a + b * b)
  }

  function NewcombeWilsonDiff(sqrt: real -> real, pArm: real, nArm: int, pC: real, nC: int, z: real)
    : Result<Interval, StatsError>
  {
    if nArm <= 0 || nC <= 0 then Err(NoTrials)
    else if !(0.0 <= pArm <= 1.0) || !(0.0 <= pC <= 1.0) then Err(RateOutOfRange)
    else
      var w1 :- WilsonInterval(sqrt, Round(pArm * nArm as real), nArm, z);
      var w2 :- WilsonInterval(sqrt, Round(pC * nC as real), nC, z);
      var delta := pArm - pC;
      var lb := delta - Reach(sqrt, pArm - w1.lower, w2.upper - pC);
      var ub := delta + Reach(sqrt, w1.upper - pArm, pC - w2.lower);
      Ok(Interval(Max(-1.0, lb), Min(1.0, ub)))
  }

  predicate SignificantPositive(lb: real, deltaMin: real) {
    lb > deltaMin
  }

  // ---------- real arithmetic ----------

  lemma SquareNonNegative(x: real)
    ensures x * x >= 0.0
  {
  }

  /** A name for a product, so that products of equal factors are seen to be equal. */
  function Times(x: real, y: real): real {
    x * y
  }

  lemma Product(x: real, y: real)
    requires x >= 0.0 && y >= 0.0
    ensures Times(x, y) >= 0.0
  {
  }

  lemma PositiveProduct(x: real, y: real)
    requires x > 0.0 && y > 0.0
    ensures Times(x, y) > 0.0
  {
  }

  lemma SquareOrder(x: real, y: real)
    requires y >= 0.0 && x * x <= y * y
    ensures -y <= x <= y
  {
    assert (x - y) * (x + y) == x * x - y * y == (-x - y) * (y - x);
    if x > y {
      PositiveProduct(x - y, x + y);
      assert false;
    }
    if -x > y {
      PositiveProduct(-x - y, y - x);
      assert false;
    }
  }

  lemma RateRange(successes: nat, trials: nat)
    requires 0 < trials && successes <= trials
    ensures 0.0 <= Rate(successes, trials) <= 1.0
    ensures Rate(successes, trials) * trials as real == successes as real
  {
  }

  lemma Radicand(n: real, z2: real, pq: real)
    requires n > 0.0 && z2 >= 0.0 && pq >= 0.0
    ensures 4.0 * n * n > 0.0 && pq / n + z2 / (4.0 * n * n) >= 0.0
    ensures z2 * (pq / n + z2 / (4.0 * n * n)) == (z2 / n) * pq + (z2 / n) * (z2 / n) / 4.0
  {
    PositiveProduct(n, n);
    var k, a, b := z2 / n, pq / n, z2 / (4.0 * n * n);
    assert a >= 0.0 && b >= 0.0;
    assert z2 == k * n && pq == a * n;
    assert z2 * a == k * n * a == k * pq;
    assert n * (4.0 * (n * b)) == z2 == n * k;
    assert 4.0 * (n * b) == k;
    assert z2 * b == k * n * b == k * (n * b) == k * k / 4.0;
  }

  lemma ScaledSquare(z: real, d: real, s: real, m: real)
    requires d > 0.0 && m == z / d * s
    ensures (d * m) * (d * m) == (z * z) * (s * s)
  {
    var q := z / d;
    assert d * q == z;
    assert d * m == (d * q) * s == z * s;
    assert (z * s) * (z * s) == (z * z) * (s * s);
  }

  /** The centre and margin, multiplied out: no division is left. */
  lemma Multiplied(sqrt: real -> real, p: real, trials: nat, z: real)
    requires IsSqrt(sqrt) && trials > 0 && z >= 0.0 && 0.0 <= p <= 1.0
    ensures var k := K(trials, z);
            var c, m := Center(p, trials, z), Margin(sqrt, p, trials, z);
            && (1.0 + k) * c == p + k / 2.0
            && m >= 0.0
            && ((1.0 + k) * m) * ((1.0 + k) * m) == k * (p * (1.0 - p)) + k * k / 4.0
  {
    var n, k := trials as real, K(trials, z);
    var d := 1.0 + k;
    Product(p, 1.0 - p);
    SquareNonNegative(z);
    Radicand(n, z * z, p * (1.0 - p));
    var s := sqrt(Spread(p, trials, z));
    var m := Margin(sqrt, p, trials, z);
    Product(z / d, s);
    ScaledSquare(z, d, s, m);
    CenterMultiplied(p, trials, z);
  }

  lemma CenterMultiplied(p: real, trials: nat, z: real)
    requires trials > 0
    ensures (1.0 + K(trials, z)) * Center(p, trials, z) == p + K(trials, z) / 2.0
  {
    var n, z2 := trials as real, z * z;
    assert z2 / (2.0 * n) == (z2 / n) / 2.0;
  }
}
