/** Bounds, symmetry and monotonicity of the Wilson interval. */
module Wilson {
  import opened Wrappers
  import opened Stats

  /** The two bounds before they are clamped to [0, 1]. */
  function Lower(sqrt: real -> real, p: real, trials: nat, z: real): real
    requires trials > 0
  {
    Center(p, trials, z) - Margin(sqrt, p, trials, z)
  }

  function Upper(sqrt: real -> real, p: real, trials: nat, z: real): real
    requires trials > 0
  {
    Center(p, trials, z) + Margin(sqrt, p, trials, z)
  }

  /** Zero exactly at the score bounds: (x - p)² = k·x·(1 - x). */
  function Score(p: real, k: real, x: real): real {
    (x - p) * (x - p) - k * (x * (1.0 - x))
  }

  lemma ScoreExpanded(p: real, k: real, x: real)
    ensures (1.0 + k) * Score(p, k, x)
            == ((1.0 + k) * x - (p + k / 2.0)) * ((1.0 + k) * x - (p + k / 2.0)) - (k * (p * (1.0 - p)) + k * k / 4.0)
  {
  }

  lemma ScoreFactors(sqrt: real -> real, p: real, trials: nat, z: real, x: real)
    requires IsSqrt(sqrt) && trials > 0 && z >= 0.0 && 0.0 <= p <= 1.0
    ensures var k := K(trials, z);
            Score(p, k, x) == (1.0 + k) * ((x - Lower(sqrt, p, trials, z)) * (x - Upper(sqrt, p, trials, z)))
  {
    var k, c, m := K(trials, z), Center(p, trials, z), Margin(sqrt, p, trials, z);
    var d := 1.0 + k;
    Multiplied(sqrt, p, trials, z);
    ScoreExpanded(p, k, x);
    assert d * x - (p + k / 2.0) == d * (x - c);
    DifferenceOfSquares(d, x, c, m);
    assert d * Score(p, k, x) == d * (d * ((x - (c - m)) * (x - (c + m))));
  }

  lemma DifferenceOfSquares(d: real, x: real, c: real, m: real)
    ensures (d * (x - c)) * (d * (x - c)) - (d * m) * (d * m) == d * (d * ((x - (c - m)) * (x - (c + m))))
  {
    assert (x - (c - m)) * (x - (c + m)) == (x - c) * (x - c) - m * m;
    assert (d * (x - c)) * (d * (x - c)) == d * (d * ((x - c) * (x - c)));
    assert (d * m) * (d * m) == d * (d * (m * m));
  }

  /** The unclamped bounds enclose the rate and stay inside [0, 1]; both are roots of the score. */
  lemma BoundsEnclose(sqrt: real -> real, p: real, trials: nat, z: real)
    requires IsSqrt(sqrt) && trials > 0 && z >= 0.0 && 0.0 <= p <= 1.0
    ensures 0.0 <= Lower(sqrt, p, trials, z) <= p <= Upper(sqrt, p, trials, z) <= 1.0
    ensures Score(p, K(trials, z), Lower(sqrt, p, trials, z)) == 0.0
  {
    hide Lower;
    hide Upper;
    hide Center;
    hide K;
    hide Score;
    var k, a, b := K(trials, z), Lower(sqrt, p, trials, z), Upper(sqrt, p, trials, z);
    BoundsAroundCenter(sqrt, p, trials, z);
    ScoreFactors(sqrt, p, trials, z, a);
    // at the rate itself the score is not positive, at 0 and at 1 it is not negative
    ScoreSigns(p, k);
    ScoreFactors(sqrt, p, trials, z, p);
    Between(1.0 + k, p, a, b);
    ScoreFactors(sqrt, p, trials, z, 0.0);
    ScoreFactors(sqrt, p, trials, z, 1.0);
    CenterInside(p, trials, z);
    Outside(1.0 + k, 0.0, a, b);
    Outside(1.0 + k, 1.0, a, b);
  }

  lemma ScoreSigns(p: real, k: real)
    requires 0.0 <= p <= 1.0 && k >= 0.0
    ensures Score(p, k, p) <= 0.0 && Score(p, k, 0.0) >= 0.0 && Score(p, k, 1.0) >= 0.0
  {
    Product(p, 1.0 - p);
    Product(k, p * (1.0 - p));
    SquareNonNegative(p);
    SquareNonNegative(1.0 - p);
    assert Score(p, k, 0.0) == p * p && Score(p, k, 1.0) == (1.0 - p) * (1.0 - p);
  }

  lemma BoundsAroundCenter(sqrt: real -> real, p: real, trials: nat, z: real)
    requires IsSqrt(sqrt) && trials > 0 && z >= 0.0 && 0.0 <= p <= 1.0
    ensures Lower(sqrt, p, trials, z) <= Upper(sqrt, p, trials, z)
    ensures (Lower(sqrt, p, trials, z) + Upper(sqrt, p, trials, z)) / 2.0 == Center(p, trials, z)
  {
    Multiplied(sqrt, p, trials, z);
  }

  lemma CenterInside(p: real, trials: nat, z: real)
    requires trials > 0 && 0.0 <= p <= 1.0
    ensures 0.0 <= Center(p, trials, z) <= 1.0
  {
    var d, c := 1.0 + K(trials, z), Center(p, trials, z);
    CenterMultiplied(p, trials, z);
    if c < 0.0 {
      PositiveProduct(d, -c);
    }
    if c > 1.0 {
      PositiveProduct(d, c - 1.0);
    }
  }

  lemma Between(d: real, x: real, a: real, b: real)
    requires d > 0.0 && a <= b && d * ((x - a) * (x - b)) <= 0.0
    ensures a <= x <= b
  {
    var y := (x - a) * (x - b);
    assert Times(a - x, b - x) == y == Times(x - a, x - b);
    if x < a {
      PositiveProduct(a - x, b - x);
      PositiveProduct(d, y);
      assert false;
    }
    if x > b {
      PositiveProduct(x - a, x - b);
      PositiveProduct(d, y);
      assert false;
    }
  }

  /** A point with a non-negative score on one side of the centre is outside the bounds on that side. */
  lemma Outside(d: real, x: real, a: real, b: real)
    requires d > 0.0 && a <= b && d * ((x - a) * (x - b)) >= 0.0
    ensures x <= (a + b) / 2.0 ==> x <= a
    ensures x >= (a + b) / 2.0 ==> x >= b
  {
    var y := (x - a) * (b - x);
    assert d * y == -(d * ((x - a) * (x - b)));
    assert Times(x - a, b - x) == y;
    if a < x < b {
      PositiveProduct(x - a, b - x);
      PositiveProduct(d, y);
      assert false;
    }
  }

  lemma BelowBoth(d: real, x: real, a: real, b: real)
    requires d > 0.0 && x < a <= b
    ensures d * ((x - a) * (x - b)) > 0.0
  {
    var y := (x - a) * (x - b);
    assert Times(a - x, b - x) == y;
    PositiveProduct(a - x, b - x);
    PositiveProduct(d, y);
  }

  lemma ScoreGap(p: real, q: real, k: real, x: real)
    ensures Score(p, k, x) - Score(q, k, x) == (x - p) * (x - p) - (x - q) * (x - q)
  {
  }

  lemma FartherSquare(x: real, p: real, q: real)
    requires x <= p <= q
    ensures (x - p) * (x - p) <= (x - q) * (x - q)
  {
    assert (x - q) * (x - q) - (x - p) * (x - p) == Times(q - p, (q - x) + (p - x));
    Product(q - p, (q - x) + (p - x));
  }

  /** Strictly below the bounds the score is positive. */
  lemma BelowIsPositive(sqrt: real -> real, p: real, trials: nat, z: real, x: real)
    requires IsSqrt(sqrt) && trials > 0 && z >= 0.0 && 0.0 <= p <= 1.0 && x < Lower(sqrt, p, trials, z)
    ensures Score(p, K(trials, z), x) > 0.0
  {
    hide Lower;
    hide Upper;
    hide Score;
    BoundsEnclose(sqrt, p, trials, z);
    ScoreFactors(sqrt, p, trials, z, x);
    BelowBoth(1.0 + K(trials, z), x, Lower(sqrt, p, trials, z), Upper(sqrt, p, trials, z));
  }

  /** A larger rate never has a smaller lower bound. */
  lemma LowerMonotone(sqrt: real -> real, p: real, q: real, trials: nat, z: real)
    requires IsSqrt(sqrt) && trials > 0 && z >= 0.0 && 0.0 <= p <= q <= 1.0
    ensures Lower(sqrt, p, trials, z) <= Lower(sqrt, q, trials, z)
  {
    hide Lower;
    hide Upper;
    hide K;
    hide Score;
    var k, a, a' := K(trials, z), Lower(sqrt, p, trials, z), Lower(sqrt, q, trials, z);
    BoundsEnclose(sqrt, p, trials, z);
    BoundsEnclose(sqrt, q, trials, z);
    if a' < a {
      // (p - a')² > k·a'·(1 - a') = (q - a')², although 0 < p - a' <= q - a'
      BelowIsPositive(sqrt, p, trials, z, a');
      FartherSquare(a', p, q);
      ScoreGap(p, q, k, a');
      assert false;
    }
  }

  lemma CenterComplement(p: real, trials: nat, z: real)
    requires trials > 0
    ensures Center(p, trials, z) + Center(1.0 - p, trials, z) == 1.0
  {
    var d, c, c' := 1.0 + K(trials, z), Center(p, trials, z), Center(1.0 - p, trials, z);
    CenterMultiplied(p, trials, z);
    CenterMultiplied(1.0 - p, trials, z);
    assert d * (c + c' - 1.0) == 0.0;
  }

  /** Exchanging successes and failures mirrors the interval. */
  lemma Complement(sqrt: real -> real, p: real, trials: nat, z: real)
    requires IsSqrt(sqrt) && trials > 0 && z >= 0.0 && 0.0 <= p <= 1.0
    ensures Lower(sqrt, 1.0 - p, trials, z) == 1.0 - Upper(sqrt, p, trials, z)
    ensures Upper(sqrt, 1.0 - p, trials, z) == 1.0 - Lower(sqrt, p, trials, z)
  {
    CenterComplement(p, trials, z);
    assert Spread(1.0 - p, trials, z) == Spread(p, trials, z) by {
      assert (1.0 - p) * (1.0 - (1.0 - p)) == p * (1.0 - p);
    }
  }

  lemma UpperMonotone(sqrt: real -> real, p: real, q: real, trials: nat, z: real)
    requires IsSqrt(sqrt) && trials > 0 && z >= 0.0 && 0.0 <= p <= q <= 1.0
    ensures Upper(sqrt, p, trials, z) <= Upper(sqrt, q, trials, z)
  {
    Complement(sqrt, p, trials, z);
    Complement(sqrt, q, trials, z);
    LowerMonotone(sqrt, 1.0 - q, 1.0 - p, trials, z);
  }

  // ---------- wilson_interval on counts ----------

  /** Neither clamp ever bites, and the interval holds the observed rate. */
  lemma IntervalEncloses(sqrt: real -> real, successes: nat, trials: nat, z: real)
    requires IsSqrt(sqrt) && 0 < trials && successes <= trials && z >= 0.0
    ensures var p := Rate(successes, trials);
            && 0.0 <= Lower(sqrt, p, trials, z) <= p <= Upper(sqrt, p, trials, z) <= 1.0
            && WilsonInterval(sqrt, successes, trials, z)
               == Ok(Interval(Lower(sqrt, p, trials, z), Upper(sqrt, p, trials, z)))
  {
    RateRange(successes, trials);
    BoundsEnclose(sqrt, Rate(successes, trials), trials, z);
  }

  /** The score test at the quantile z does not reject the rate x: n(x - p)² ≤ z²x(1 - x), p being the observed
    rate. */
  ghost predicate NotRejected(successes: int, trials: int, z: real, x: real)
    requires trials > 0
  {
    var n, p := trials as real, successes as real / trials as real;
    n * ((x - p) * (x - p)) <= (z * z) * (x * (1.0 - x))
  }

  /** The interval exists exactly for possible counts. With no trial it is all of [0, 1]; with trials it is exactly
    the rates the score test does not reject. */
  lemma IntervalIsScoreTest(sqrt: real -> real, successes: int, trials: int, z: real)
    requires IsSqrt(sqrt) && z >= 0.0
    ensures var w := WilsonInterval(sqrt, successes, trials, z);
            && (w.Ok? <==> 0 <= successes <= trials)
            && (w.Ok? && trials == 0 ==> w.value.lower == 0.0 && w.value.upper == 1.0)
            && (w.Ok? && trials > 0 ==>
                  && w.value.lower <= w.value.upper
                  && forall x :: NotRejected(successes, trials, z, x) <==> w.value.lower <= x <= w.value.upper)
  {
    if 0 <= successes <= trials && trials > 0 {
      var p, w := Rate(successes, trials), WilsonInterval(sqrt, successes, trials, z).value;
      IntervalEncloses(sqrt, successes, trials, z);
      forall x ensures NotRejected(successes, trials, z, x) <==> w.lower <= x <= w.upper {
        InsideExactly(sqrt, successes, trials, z, x);
      }
    }
    hide NotRejected;
    hide Lower;
    hide Upper;
  }

  lemma InsideExactly(sqrt: real -> real, successes: nat, trials: nat, z: real, x: real)
    requires IsSqrt(sqrt) && 0 < trials && successes <= trials && z >= 0.0
    ensures NotRejected(successes, trials, z, x)
            <==> Lower(sqrt, Rate(successes, trials), trials, z) <= x <= Upper(sqrt, Rate(successes, trials), trials, z)
  {
    hide Score;
    hide Lower;
    hide Upper;
    var p := Rate(successes, trials);
    RateRange(successes, trials);
    BoundsEnclose(sqrt, p, trials, z);
    ScoreFactors(sqrt, p, trials, z, x);
    ScoreScaled(trials as real, p, z, K(trials, z), x);
    SignOfProduct(1.0 + K(trials, z), x - Lower(sqrt, p, trials, z), x - Upper(sqrt, p, trials, z));
  }

  lemma ScoreScaled(n: real, p: real, z: real, k: real, x: real)
    requires n > 0.0 && k == z * z / n
    ensures Score(p, k, x) <= 0.0 <==> n * ((x - p) * (x - p)) <= (z * z) * (x * (1.0 - x))
  {
    var a, b := (x - p) * (x - p), x * (1.0 - x);
    assert z * z == k * n;
    assert n * (a - k * b) == n * a - (k * n) * b;
    Scaled(n, a - k * b);
  }

  lemma Scaled(n: real, y: real)
    requires n > 0.0
    ensures n * y <= 0.0 <==> y <= 0.0
  {
    if y > 0.0 {
      PositiveProduct(n, y);
    } else {
      Product(n, -y);
      assert n * y == -Times(n, -y);
    }
  }

  lemma SignOfProduct(d: real, a: real, b: real)
    requires d > 0.0 && b <= a
    ensures d * (a * b) <= 0.0 <==> b <= 0.0 <= a
  {
    Scaled(d, a * b);
    if b <= 0.0 <= a {
      Product(a, -b);
      assert a * b == -Times(a, -b);
    } else if b > 0.0 {
      PositiveProduct(a, b);
    } else {
      PositiveProduct(-a, -b);
      assert a * b == Times(-a, -b);
    }
  }

  lemma RateMonotone(few: nat, many: nat, trials: nat)
    requires 0 < trials && few <= many
    ensures Rate(few, trials) <= Rate(many, trials)
  {
  }

  /** More successes never lower either bound. */
  lemma IntervalMonotone(sqrt: real -> real, few: nat, many: nat, trials: nat, z: real)
    requires IsSqrt(sqrt) && few <= many <= trials && z >= 0.0
    ensures var less, more := WilsonInterval(sqrt, few, trials, z), WilsonInterval(sqrt, many, trials, z);
            less.Ok? && more.Ok? && less.value.lower <= more.value.lower && less.value.upper <= more.value.upper
  {
    if trials > 0 {
      IntervalEncloses(sqrt, few, trials, z);
      IntervalEncloses(sqrt, many, trials, z);
      RateRange(few, trials);
      RateRange(many, trials);
      RateMonotone(few, many, trials);
      LowerMonotone(sqrt, Rate(few, trials), Rate(many, trials), trials, z);
      UpperMonotone(sqrt, Rate(few, trials), Rate(many, trials), trials, z);
    }
  }

  lemma RateComplement(successes: nat, trials: nat)
    requires 0 < trials && successes <= trials
    ensures Rate(trials - successes, trials) == 1.0 - Rate(successes, trials)
  {
    var n, s := trials as real, successes as real;
    var q := Rate(successes, trials);
    Quotient(1.0 - q, n - s, n);
    assert (trials - successes) as real == n - s;
  }

  lemma IntervalComplement(sqrt: real -> real, successes: nat, trials: nat, z: real)
    requires IsSqrt(sqrt) && successes <= trials && z >= 0.0
    ensures var w, v := WilsonInterval(sqrt, successes, trials, z), WilsonInterval(sqrt, trials - successes, trials, z);
            w.Ok? && v == Ok(Interval(1.0 - w.value.upper, 1.0 - w.value.lower))
  {
    if trials > 0 {
      RateRange(successes, trials);
      IntervalEncloses(sqrt, successes, trials, z);
      IntervalEncloses(sqrt, trials - successes, trials, z);
      Complement(sqrt, Rate(successes, trials), trials, z);
      RateComplement(successes, trials);
    }
  }

  /** With every trial a success the lower bound is n / (n + z²). */
  lemma AllSuccesses(sqrt: real -> real, trials: nat, z: real)
    requires IsSqrt(sqrt) && 0 < trials && z >= 0.0
    ensures trials as real + z * z > 0.0
    ensures WilsonInterval(sqrt, trials, trials, z) == Ok(Interval(trials as real / (trials as real + z * z), 1.0))
  {
    var n, k := trials as real, K(trials, z);
    var c, m := Center(1.0, trials, z), Margin(sqrt, 1.0, trials, z);
    SquareNonNegative(z);
    IntervalEncloses(sqrt, trials, trials, z);
    AllRate(trials);
    Multiplied(sqrt, 1.0, trials, z);
    AllSuccessesAlgebra(n, z, k, c, m);
    assert 1.0 - (c + m) == 0.0;
    Quotient(c - m, n, n + z * z);
  }

  lemma AllRate(trials: nat)
    requires trials > 0
    ensures Rate(trials, trials) == 1.0
  {
    var n := trials as real;
    Quotient(1.0, n, n);
  }

  lemma Quotient(q: real, x: real, y: real)
    requires y > 0.0 && y * q == x
    ensures q == x / y
  {
    var r := x / y;
    assert y * r == x;
    assert y * (q - r) == 0.0;
  }

  lemma AllSuccessesAlgebra(n: real, z: real, k: real, c: real, m: real)
    requires n > 0.0 && k * n == z * z && k >= 0.0 && m >= 0.0
    requires (1.0 + k) * c == 1.0 + k / 2.0
    requires ((1.0 + k) * m) * ((1.0 + k) * m) == k * k / 4.0
    ensures c + m == 1.0 && (n + z * z) * (c - m) == n
  {
    var d := 1.0 + k;
    var dm := d * m;
    assert dm >= 0.0 by {
      Product(d, m);
    }
    assert dm * dm == (k / 2.0) * (k / 2.0);
    SquareOrder(dm, k / 2.0);
    SquareOrder(k / 2.0, dm);
    assert d * (c - m) == 1.0 && d * (c + m - 1.0) == 0.0;
    assert n + z * z == n * d;
    assert n * d * (c - m) == n * (d * (c - m));
  }

  /** A 95% lower bound above 0.9 needs at least 35 trials, and 35 successes in a row reach it. */
  lemma ThirtyFiveTrials(sqrt: real -> real, trials: nat)
    requires IsSqrt(sqrt)
    ensures trials >= 35 <==>
            exists s: nat | s <= trials ::
              WilsonInterval(sqrt, s, trials, Z_975).Ok? && WilsonInterval(sqrt, s, trials, Z_975).value.lower > 0.9
  {
    if trials > 0 {
      AllSuccesses(sqrt, trials, Z_975);
      NineTenths(trials as real);
      var best := WilsonInterval(sqrt, trials, trials, Z_975).value.lower;
      assert best > 0.9 <==> trials >= 35;
      forall s: nat | s <= trials
        ensures WilsonInterval(sqrt, s, trials, Z_975).Ok? && WilsonInterval(sqrt, s, trials, Z_975).value.lower <= best
      {
        IntervalMonotone(sqrt, s, trials, trials, Z_975);
      }
    }
  }

  lemma NineTenths(n: real)
    requires n > 0.0
    ensures n / (n + Z_975 * Z_975) > 0.9 <==> n > 9.0 * (Z_975 * Z_975)
  {
    var t := n + Z_975 * Z_975;
    var q := n / t;
    assert q * t == n;
    if q > 0.9 {
      PositiveProduct(q - 0.9, t);
    } else {
      Product(0.9 - q, t);
    }
  }
}
