/** The Newcombe interval of a difference of rates: containment, antisymmetry, monotonicity. */
module Newcombe {
  import opened Wrappers
  import opened Stats
  import opened Wilson

  lemma ReachSquared(sqrt: real -> real, a: real, b: real)
    requires IsSqrt(sqrt)
    ensures Reach(sqrt, a, b) >= 0.0
    ensures Reach(sqrt, a, b) * Reach(sqrt, a, b) == a * a + b * b
  {
    SquareNonNegative(a);
    SquareNonNegative(b);
  }

  lemma ReachSymmetric(sqrt: real -> real, a: real, b: real)
    ensures Reach(sqrt, a, b) == Reach(sqrt, b, a)
  {
    assert a * a + b * b == b * b + a * a;
  }

  lemma RoundInRange(p: real, n: nat)
    requires 0.0 <= p <= 1.0
    ensures 0 <= Round(p * n as real) <= n
  {
    var x := p * n as real;
    Product(p, n as real);
    Product(1.0 - p, n as real);
    assert x == Times(p, n as real) && n as real - x == Times(1.0 - p, n as real);
  }

  lemma RoundOfCount(successes: nat, trials: nat)
    requires 0 < trials && successes <= trials
    ensures Round(Rate(successes, trials) * trials as real) == successes
  {
    RateRange(successes, trials);
  }

  /** Rounding is to the nearest integer, halves to the even one. */
  lemma RoundExactly(x: real, n: int)
    ensures Round(x) == n
            <==> (-0.5 < x - n as real < 0.5) || ((x - n as real == 0.5 || x - n as real == -0.5) && n % 2 == 0)
  {
  }

  // ---------- any rates ----------

  /** The interval exists exactly for positive sample sizes and rates in [0, 1], and holds the difference. */
  lemma HoldsDifference(sqrt: real -> real, pArm: real, nArm: int, pC: real, nC: int, z: real)
    requires IsSqrt(sqrt)
    ensures var r := NewcombeWilsonDiff(sqrt, pArm, nArm, pC, nC, z);
            && (r.Ok? <==> 0 < nArm && 0 < nC && 0.0 <= pArm <= 1.0 && 0.0 <= pC <= 1.0)
            && (r.Ok? ==> -1.0 <= r.value.lower <= pArm - pC <= r.value.upper <= 1.0)
  {
    if 0 < nArm && 0 < nC && 0.0 <= pArm <= 1.0 && 0.0 <= pC <= 1.0 {
      RoundInRange(pArm, nArm);
      RoundInRange(pC, nC);
      var w1 := WilsonInterval(sqrt, Round(pArm * nArm as real), nArm, z).value;
      var w2 := WilsonInterval(sqrt, Round(pC * nC as real), nC, z).value;
      ReachSquared(sqrt, pArm - w1.lower, w2.upper - pC);
      ReachSquared(sqrt, w1.upper - pArm, pC - w2.lower);
    }
  }

  /** The distance is the root of a² + b², or less where it is cut off. */
  ghost predicate IsReach(distance: real, a: real, b: real, cut: bool) {
    && distance >= 0.0
    && (distance * distance == a * a + b * b || (cut && distance * distance <= a * a + b * b))
  }

  /** From the difference to a bound it is a reach: over the two half-widths that face each other, unless the
    bound is cut off at -1 or 1. */
  lemma BoundsAreReaches(sqrt: real -> real, pArm: real, nArm: int, pC: real, nC: int, z: real)
    requires IsSqrt(sqrt)
    requires 0 < nArm && 0 < nC && 0.0 <= pArm <= 1.0 && 0.0 <= pC <= 1.0
    ensures var r := NewcombeWilsonDiff(sqrt, pArm, nArm, pC, nC, z);
            var arm := WilsonInterval(sqrt, Round(pArm * nArm as real), nArm, z);
            var c := WilsonInterval(sqrt, Round(pC * nC as real), nC, z);
            && r.Ok? && arm.Ok? && c.Ok?
            && var lower, upper, d := r.value.lower, r.value.upper, pArm - pC;
               && IsReach(d - lower, pArm - arm.value.lower, c.value.upper - pC, lower == -1.0)
               && IsReach(upper - d, arm.value.upper - pArm, pC - c.value.lower, upper == 1.0)
  {
    RoundInRange(pArm, nArm);
    RoundInRange(pC, nC);
    var arm := WilsonInterval(sqrt, Round(pArm * nArm as real), nArm, z).value;
    var c := WilsonInterval(sqrt, Round(pC * nC as real), nC, z).value;
    hide WilsonInterval;
    hide Round;
    CutOff(sqrt, pArm - pC, pArm - arm.lower, c.upper - pC);
    CutOff(sqrt, pC - pArm, arm.upper - pArm, pC - c.lower);
    hide IsReach;
    hide Reach;
  }

  lemma CutOff(sqrt: real -> real, d: real, a: real, b: real)
    requires IsSqrt(sqrt) && -1.0 <= d
    ensures var lower := Max(-1.0, d - Reach(sqrt, a, b));
            IsReach(d - lower, a, b, lower == -1.0)
  {
    ReachSquared(sqrt, a, b);
    var r, gap := Reach(sqrt, a, b), d - Max(-1.0, d - Reach(sqrt, a, b));
    if gap < r {
      Product(r - gap, r + gap);
      assert r * r - gap * gap == Times(r - gap, r + gap);
    }
  }

  /** Exchanging the two samples negates and exchanges the bounds. */
  lemma Antisymmetric(sqrt: real -> real, pArm: real, nArm: int, pC: real, nC: int, z: real)
    requires IsSqrt(sqrt)
    requires 0 < nArm && 0 < nC && 0.0 <= pArm <= 1.0 && 0.0 <= pC <= 1.0
    ensures var r := NewcombeWilsonDiff(sqrt, pArm, nArm, pC, nC, z);
            var s := NewcombeWilsonDiff(sqrt, pC, nC, pArm, nArm, z);
            r.Ok? && s == Ok(Interval(-r.value.upper, -r.value.lower))
  {
    RoundInRange(pArm, nArm);
    RoundInRange(pC, nC);
    var w1 := WilsonInterval(sqrt, Round(pArm * nArm as real), nArm, z).value;
    var w2 := WilsonInterval(sqrt, Round(pC * nC as real), nC, z).value;
    ReachSymmetric(sqrt, pArm - w1.lower, w2.upper - pC);
    ReachSymmetric(sqrt, w1.upper - pArm, pC - w2.lower);
  }

  // ---------- rates that come from counts ----------

  function Difference(sqrt: real -> real, s1: nat, n1: nat, s2: nat, n2: nat, z: real): Result<Interval, StatsError> {
    if n1 == 0 || n2 == 0 then Err(NoTrials)
    else NewcombeWilsonDiff(sqrt, Rate(s1, n1), n1, Rate(s2, n2), n2, z)
  }

  /** Moving one half-width by d moves the reach by at most d. */
  lemma ReachLipschitz(sqrt: real -> real, a: real, a': real, b: real, d: real)
    requires IsSqrt(sqrt) && a >= 0.0 && a' >= 0.0 && d >= 0.0 && a' <= a + d
    ensures Reach(sqrt, a', b) <= Reach(sqrt, a, b) + d
  {
    ReachSquared(sqrt, a, b);
    ReachSquared(sqrt, a', b);
    var r, r' := Reach(sqrt, a, b), Reach(sqrt, a', b);
    SquareNonNegative(b);
    assert a * a <= r * r;
    SquareOrder(a, r);
    LipschitzAlgebra(a, a', b, d, r);
    SquareOrder(r', r + d);
  }

  lemma LipschitzAlgebra(a: real, a': real, b: real, d: real, r: real)
    requires 0.0 <= a <= r && 0.0 <= a' <= a + d && d >= 0.0
    requires r * r == a * a + b * b
    ensures a' * a' + b * b <= (r + d) * (r + d)
  {
    var e, f := a + d - a', r - a;
    assert (a + d) * (a + d) - a' * a' == Times(e, a + d + a');
    Product(e, a + d + a');
    assert (r + d) * (r + d) - b * b - (a + d) * (a + d) == 2.0 * Times(f, d);
    Product(f, d);
  }

  ghost predicate IsSample(successes: nat, trials: nat) {
    0 < trials && successes <= trials
  }

  /** On counts neither clamp bites: the bounds are the difference minus and plus a reach. */
  lemma DifferenceUnclamped(sqrt: real -> real, s1: nat, n1: nat, s2: nat, n2: nat, z: real)
    requires IsSqrt(sqrt) && IsSample(s1, n1) && IsSample(s2, n2) && z >= 0.0
    ensures var p1, p2 := Rate(s1, n1), Rate(s2, n2);
            var a, b := p1 - Lower(sqrt, p1, n1, z), Upper(sqrt, p2, n2, z) - p2;
            var c, d := Upper(sqrt, p1, n1, z) - p1, p2 - Lower(sqrt, p2, n2, z);
            Difference(sqrt, s1, n1, s2, n2, z)
            == Ok(Interval(p1 - p2 - Reach(sqrt, a, b), p1 - p2 + Reach(sqrt, c, d)))
  {
    var p1, p2 := Rate(s1, n1), Rate(s2, n2);
    RateRange(s1, n1);
    RateRange(s2, n2);
    RoundOfCount(s1, n1);
    RoundOfCount(s2, n2);
    IntervalEncloses(sqrt, s1, n1, z);
    IntervalEncloses(sqrt, s2, n2, z);
    ReachBounded(sqrt, p1, Lower(sqrt, p1, n1, z), p2, Upper(sqrt, p2, n2, z));
    ReachBounded(sqrt, p2, Lower(sqrt, p2, n2, z), p1, Upper(sqrt, p1, n1, z));
    ReachSymmetric(sqrt, Upper(sqrt, p1, n1, z) - p1, p2 - Lower(sqrt, p2, n2, z));
  }

  lemma ReachAtMostSum(sqrt: real -> real, a: real, b: real)
    requires IsSqrt(sqrt) && a >= 0.0 && b >= 0.0
    ensures Reach(sqrt, a, b) <= a + b
  {
    ReachSquared(sqrt, a, b);
    Product(a, b);
    assert (a + b) * (a + b) - (a * a + b * b) == 2.0 * Times(a, b);
    SquareOrder(Reach(sqrt, a, b), a + b);
  }

  lemma ReachAtLeast(sqrt: real -> real, a: real, b: real)
    requires IsSqrt(sqrt)
    ensures Reach(sqrt, a, b) >= b
  {
    ReachSquared(sqrt, a, b);
    SquareNonNegative(a);
    SquareOrder(b, Reach(sqrt, a, b));
  }

  /** Two half-widths inside [0, 1] never reach further than the difference allows. */
  lemma ReachBounded(sqrt: real -> real, p: real, l: real, q: real, u: real)
    requires IsSqrt(sqrt) && 0.0 <= l <= p <= 1.0 && 0.0 <= q <= u <= 1.0
    ensures p - q - Reach(sqrt, p - l, u - q) >= -1.0
  {
    ReachAtMostSum(sqrt, p - l, u - q);
    assert p - q - ((p - l) + (u - q)) == l - u;
  }

  /** More recoveries in the arm, or fewer in the control, never lower the lower bound. */
  lemma LowerBoundMonotone(sqrt: real -> real, s1: nat, s1': nat, n1: nat, s2: nat, s2': nat, n2: nat, z: real)
    requires IsSqrt(sqrt) && z >= 0.0
    requires s1 <= s1' && IsSample(s1', n1) && s2' <= s2 && IsSample(s2, n2)
    ensures var before, after := Difference(sqrt, s1, n1, s2, n2, z), Difference(sqrt, s1', n1, s2', n2, z);
            before.Ok? && after.Ok? && before.value.lower <= after.value.lower
  {
    ArmMonotone(sqrt, s1, s1', n1, s2, n2, z);
    ControlMonotone(sqrt, s1', n1, s2, s2', n2, z);
  }

  lemma ArmMonotone(sqrt: real -> real, s1: nat, s1': nat, n1: nat, s2: nat, n2: nat, z: real)
    requires IsSqrt(sqrt) && z >= 0.0 && s1 <= s1' && IsSample(s1', n1) && IsSample(s2, n2)
    ensures var before, after := Difference(sqrt, s1, n1, s2, n2, z), Difference(sqrt, s1', n1, s2, n2, z);
            before.Ok? && after.Ok? && before.value.lower <= after.value.lower
  {
    var p, p', q := Rate(s1, n1), Rate(s1', n1), Rate(s2, n2);
    DifferenceUnclamped(sqrt, s1, n1, s2, n2, z);
    DifferenceUnclamped(sqrt, s1', n1, s2, n2, z);
    RateRange(s1, n1);
    RateRange(s1', n1);
    RateMonotone(s1, s1', n1);
    LowerMonotone(sqrt, p, p', n1, z);
    BoundsEnclose(sqrt, p, n1, z);
    BoundsEnclose(sqrt, p', n1, z);
    ReachLipschitz(sqrt, p - Lower(sqrt, p, n1, z), p' - Lower(sqrt, p', n1, z), Upper(sqrt, q, n2, z) - q, p' - p);
  }

  lemma ControlMonotone(sqrt: real -> real, s1: nat, n1: nat, s2: nat, s2': nat, n2: nat, z: real)
    requires IsSqrt(sqrt) && z >= 0.0 && IsSample(s1, n1) && s2' <= s2 && IsSample(s2, n2)
    ensures var before, after := Difference(sqrt, s1, n1, s2, n2, z), Difference(sqrt, s1, n1, s2', n2, z);
            before.Ok? && after.Ok? && before.value.lower <= after.value.lower
  {
    var p, q, q' := Rate(s1, n1), Rate(s2, n2), Rate(s2', n2);
    DifferenceUnclamped(sqrt, s1, n1, s2, n2, z);
    DifferenceUnclamped(sqrt, s1, n1, s2', n2, z);
    RateRange(s2, n2);
    RateRange(s2', n2);
    RateMonotone(s2', s2, n2);
    UpperMonotone(sqrt, q', q, n2, z);
    BoundsEnclose(sqrt, q, n2, z);
    BoundsEnclose(sqrt, q', n2, z);
    var a, b, b' := p - Lower(sqrt, p, n1, z), Upper(sqrt, q, n2, z) - q, Upper(sqrt, q', n2, z) - q';
    ReachLipschitz(sqrt, b, b', a, q - q');
    ReachSymmetric(sqrt, a, b);
    ReachSymmetric(sqrt, a, b');
  }

  /** Extra recovery never makes a significant arm insignificant. */
  lemma SignificanceKept(sqrt: real -> real, s1: nat, s1': nat, n1: nat, s2: nat, s2': nat, n2: nat, deltaMin: real)
    requires IsSqrt(sqrt)
    requires s1 <= s1' && IsSample(s1', n1) && s2' <= s2 && IsSample(s2, n2)
    ensures var before, after := Difference(sqrt, s1, n1, s2, n2, Z_975), Difference(sqrt, s1', n1, s2', n2, Z_975);
            && before.Ok? && after.Ok?
            && (SignificantPositive(before.value.lower, deltaMin) ==> SignificantPositive(after.value.lower, deltaMin))
  {
    LowerBoundMonotone(sqrt, s1, s1', n1, s2, s2', n2, Z_975);
  }
}
