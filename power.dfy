/** Powers over the reals. `Pow` is the whole-number power; `PowR` stands in for
    `Math.pow(x, e)` at a non-negative real exponent: it is exact at whole
    exponents and interpolates linearly between them, which keeps the facts the
    finance formulas rely on (at least 1, above 1 for a growth factor above 1,
    monotone in the exponent). */
module Power {

  function Pow(x: real, n: nat): real
    decreases n
  {
    if n == 0 then 1.0 else x * Pow(x, n - 1)
  }

  lemma {:induction false} PowPositive(x: real, n: nat)
    requires x > 0.0
    ensures Pow(x, n) > 0.0
    decreases n
  {
    if n > 0 {
      PowPositive(x, n - 1);
    }
  }

  lemma {:induction false} PowAtLeastOne(x: real, n: nat)
    requires x >= 1.0
    ensures Pow(x, n) >= 1.0
    decreases n
  {
    if n > 0 {
      PowAtLeastOne(x, n - 1);
      assert x * Pow(x, n - 1) >= Pow(x, n - 1);
    }
  }

  /** A growth factor above one raised to a positive whole power is at least the factor itself. */
  lemma {:induction false} PowAboveOne(x: real, n: nat)
    requires x > 1.0 && n > 0
    ensures Pow(x, n) >= x
    decreases n
  {
    PowAtLeastOne(x, n - 1);
    assert x * Pow(x, n - 1) >= x * 1.0;
  }

  /** Strictly increasing in the exponent for a base above one. */
  lemma {:induction false} PowStrictlyIncreasing(x: real, m: nat, n: nat)
    requires x > 1.0 && m < n
    ensures Pow(x, m) < Pow(x, n)
    decreases n
  {
    PowAtLeastOne(x, n - 1);
    if m < n - 1 {
      PowStrictlyIncreasing(x, m, n - 1);
    }
    assert Pow(x, n) == x * Pow(x, n - 1);
    assert x * Pow(x, n - 1) > Pow(x, n - 1);
  }

  lemma PowSucc(x: real, n: nat)
    ensures Pow(x, n + 1) == x * Pow(x, n)
  {
  }

  /** The point a fraction f of the way from x^k to x^(k+1), on the straight line. */
  function Interpolated(x: real, k: nat, f: real): real
  {
    Pow(x, k) * (1.0 + f * (x - 1.0))
  }

  /** `Math.pow(x, e)` for e >= 0, exact at whole exponents (see the module comment). */
  function PowR(x: real, e: real): (p: real)
    requires e >= 0.0
    ensures x >= 1.0 ==> p >= 1.0
    ensures x > 1.0 && e > 0.0 ==> p > 1.0
  {
    var k: nat := e.Floor;
    var f := e - k as real;
    assert 0.0 <= f < 1.0;
    assert e > 0.0 ==> k > 0 || f > 0.0;
    PowRBounds(x, k, f);
    Interpolated(x, k, f)
  }

  lemma PowRBounds(x: real, k: nat, f: real)
    requires 0.0 <= f < 1.0
    ensures x >= 1.0 ==> Interpolated(x, k, f) >= 1.0
    ensures x > 1.0 && (k > 0 || f > 0.0) ==> Interpolated(x, k, f) > 1.0
  {
    if x >= 1.0 {
      PowAtLeastOne(x, k);
      var g := 1.0 + f * (x - 1.0);
      assert g >= 1.0;
      assert Pow(x, k) * g >= Pow(x, k) * 1.0;
      if x > 1.0 && k > 0 {
        PowAboveOne(x, k);
      }
      if x > 1.0 && f > 0.0 {
        assert g > 1.0;
        assert Pow(x, k) * g > Pow(x, k) * 1.0;
      }
    }
  }

  lemma ScaleLe(p: real, a: real, b: real)
    requires p >= 0.0 && a <= b
    ensures p * a <= p * b
  {
    assert p * b - p * a == p * (b - a);
  }

  /** p·a <= q·b when a <= x, p·x <= q and b >= 1 (all positive): the step from one
      interpolated segment to a later one. */
  lemma AcrossWholeStep(p: real, x: real, a: real, q: real, b: real)
    requires x > 1.0 && p > 0.0 && a <= x && x * p <= q && b >= 1.0
    ensures p * a <= q * b
  {
    ScaleLe(p, a, x);
    assert q >= 0.0;
    ScaleLe(q, 1.0, b);
  }

  /** The interpolation factor 1 + f·(x − 1) grows with f and stays below x for f < 1. */
  lemma StepFactor(x: real, f: real, g: real)
    requires x > 1.0 && 0.0 <= f <= g < 1.0
    ensures 1.0 + f * (x - 1.0) <= 1.0 + g * (x - 1.0) <= x
  {
    ScaleLe(x - 1.0, f, g);
    ScaleLe(x - 1.0, g, 1.0);
  }

  /** PowR at e is the whole power at e's floor times the interpolation factor. */
  lemma PowRSplit(x: real, e: real, k: nat, f: real)
    requires e >= 0.0 && k == e.Floor && f == e - k as real
    ensures PowR(x, e) == Interpolated(x, k, f)
  {
  }

  /** Within one segment the interpolated value grows with the fraction. */
  lemma SameSegmentOrdered(x: real, j: nat, f: real, g: real)
    requires x > 1.0 && 0.0 <= f <= g < 1.0
    ensures Interpolated(x, j, f) <= Interpolated(x, j, g)
  {
    PowPositive(x, j);
    StepFactor(x, f, g);
    ScaleLe(Pow(x, j), 1.0 + f * (x - 1.0), 1.0 + g * (x - 1.0));
  }

  /** Any point of an earlier segment lies below any point of a later one. */
  lemma LaterSegmentOrdered(x: real, j: nat, f: real, k: nat, g: real)
    requires x > 1.0 && 0.0 <= f < 1.0 && 0.0 <= g < 1.0 && j < k
    ensures Interpolated(x, j, f) <= Interpolated(x, k, g)
  {
    PowPositive(x, j);
    StepFactor(x, f, f);
    StepFactor(x, 0.0, g);
    PowSucc(x, j);
    if j + 1 < k {
      PowStrictlyIncreasing(x, j + 1, k);
    }
    AcrossWholeStep(Pow(x, j), x, 1.0 + f * (x - 1.0), Pow(x, k), 1.0 + g * (x - 1.0));
  }

  /** Two exponents in order: their whole parts are in order, and so are their
      fractions when the whole parts agree. */
  lemma FloorOrder(d: real, e: real)
    requires 0.0 <= d <= e
    ensures 0 <= d.Floor <= e.Floor
    ensures 0.0 <= d - d.Floor as real < 1.0 && 0.0 <= e - e.Floor as real < 1.0
    ensures d.Floor == e.Floor ==> d - d.Floor as real <= e - e.Floor as real
  {
  }

  /** Interpolated points ordered by segment, then by fraction within a segment. */
  lemma SegmentsOrdered(x: real, j: nat, f: real, k: nat, g: real)
    requires x > 1.0 && 0.0 <= f < 1.0 && 0.0 <= g < 1.0 && j <= k
    requires j == k ==> f <= g
    ensures Interpolated(x, j, f) <= Interpolated(x, k, g)
  {
    if j == k {
      SameSegmentOrdered(x, j, f, g);
    } else {
      LaterSegmentOrdered(x, j, f, k, g);
    }
  }

  /** Non-decreasing in the exponent for a base above one. */
  lemma PowRMonotone(x: real, d: real, e: real)
    requires x > 1.0 && 0.0 <= d <= e
    ensures PowR(x, d) <= PowR(x, e)
  {
    FloorOrder(d, e);
    var j: nat := d.Floor;
    var k: nat := e.Floor;
    PowRSplit(x, d, j, d - j as real);
    PowRSplit(x, e, k, e - k as real);
    SegmentsOrdered(x, j, d - j as real, k, e - k as real);
  }

  lemma PowRWhole(x: real, n: nat)
    ensures PowR(x, n as real) == Pow(x, n)
  {
    assert (n as real).Floor == n;
  }
}
