/**
 Ratios of two counts through a narrow integer (src/numeric.rs). The float the source returns
 is the quotient of the two narrow integers modelled here; its own rounding is not modelled.
 */
module Ratio {
  import opened Common
  import opened Arithmetic

  /** An integer family: the largest value of its narrow and of its wide integer. */
  datatype RawFamily = Family(narrowMax: nat, wideMax: nat) {
    function Range(): nat {
      narrowMax + 1
    }
  }

  type Family = f: RawFamily | 1 <= f.narrowMax < f.wideMax witness Family(1, 2)

  /** Counts in u64 narrowed through u32, and counts in usize narrowed through u16. */
  const DOUBLE_FAMILY: Family := Family(0xFFFF_FFFF, U64_MAX)
  const SINGLE_FAMILY: Family := Family(0xFFFF, USIZE_MAX)

  datatype Quotient = Default | Fraction(numerator: nat, denominator: nat)

  function ScaleOperand(value: nat, scale: nat): nat {
    var scaled := if scale == 0 then value else value / scale;
    if value > 0 && scaled == 0 then 1 else scaled
  }

  function Scale(f: Family, numerator: nat, denominator: nat): nat {
    SatAdd(f.wideMax, Max(denominator, numerator) / f.Range(), 1)
  }

  function Narrow(f: Family, value: nat): nat {
    if value <= f.narrowMax then value else f.narrowMax
  }

  function UnitRatio(f: Family, numerator: nat, denominator: nat): Quotient {
    if denominator == 0 then Default else
    var scale := Scale(f, numerator, denominator);
    Fraction(Narrow(f, ScaleOperand(numerator, scale)), Narrow(f, ScaleOperand(denominator, scale)))
  }

  function AsReal(q: Quotient): real
    requires q.Fraction? ==> q.denominator > 0
  {
    if q.Default? then 0.0 else q.numerator as real / q.denominator as real
  }

  function Abs(x: real): real {
    if x < 0.0 then -x else x
  }

  // ---------------------------------------------------------------- division facts

  lemma DivBelow(n: nat, range: nat, k: nat)
    requires range > 0 && n / range < k
    ensures n < range * k && n / k < range
  {
    DivMod(n, range);
    MulMono(n / range + 1, k, range);
    DivMod(n, k);
    if n / k >= range {
      MulMono(range, n / k, k);
    }
  }

  // ---------------------------------------------------------------- the guards never fire

  predicate Counts(f: Family, numerator: nat, denominator: nat) {
    numerator <= f.wideMax && denominator <= f.wideMax
  }

  /** The `+ 1` of the scale does not saturate, and a scaled operand always fits the narrow integer. */
  lemma NarrowingNeverSaturates(f: Family, n: nat, d: nat)
    requires Counts(f, n, d) && d > 0
    ensures Scale(f, n, d) == Max(d, n) / f.Range() + 1
    ensures ScaleOperand(n, Scale(f, n, d)) <= f.narrowMax
    ensures 0 < ScaleOperand(d, Scale(f, n, d)) <= f.narrowMax
    ensures UnitRatio(f, n, d) == Fraction(ScaleOperand(n, Scale(f, n, d)), ScaleOperand(d, Scale(f, n, d)))
  {
    var m := Max(d, n);
    DivMod(m, f.Range());
    MulMono(2, f.Range(), m / f.Range());
    var k := m / f.Range() + 1;
    assert k <= f.wideMax;
    DivBelow(m, f.Range(), k);
    DivMono(n, m, k);
    DivMono(d, m, k);
  }

  lemma OperandIs(value: nat, k: nat)
    requires k > 0
    ensures ScaleOperand(value, k) == if value == 0 then 0 else Max(value / k, 1)
  {
    DivZero(value, k);
  }

  /** Both counts over one scale, rounded down, but neither of them down to nothing. */
  lemma UnitRatioIs(f: Family, n: nat, d: nat, k: nat)
    requires Counts(f, n, d) && d > 0 && k == Max(d, n) / (f.narrowMax + 1) + 1
    ensures UnitRatio(f, n, d) == Fraction(if n == 0 then 0 else Max(n / k, 1), Max(d / k, 1))
  {
    NarrowingNeverSaturates(f, n, d);
    OperandIs(n, k);
    OperandIs(d, k);
  }

  /** Counts that already fit the narrow integer pass through unchanged, the largest one included. */
  lemma NarrowCountsAreExact(f: Family, n: nat, d: nat)
    requires d > 0 && n <= f.narrowMax && d <= f.narrowMax
    ensures UnitRatio(f, n, d) == Fraction(n, d)
  {
    assert Max(d, n) / f.Range() == 0;
  }

  lemma ZeroOnlyForZero(f: Family, n: nat, d: nat)
    requires Counts(f, n, d)
    ensures UnitRatio(f, n, d).Fraction? ==> UnitRatio(f, n, d).denominator > 0
    ensures AsReal(UnitRatio(f, n, d)) == 0.0 <==> n == 0 || d == 0
  {
    if d > 0 {
      NarrowingNeverSaturates(f, n, d);
      var q := UnitRatio(f, n, d);
      var x, y := q.numerator as real, q.denominator as real;
      assert x / y * y == x;
      assert q.numerator == 0 <==> n == 0;
    }
  }

  /** The quotient is on the same side of one as the true ratio. */
  lemma SameSideOfOne(f: Family, n: nat, d: nat)
    requires Counts(f, n, d) && d > 0
    ensures var q := UnitRatio(f, n, d);
      && q.Fraction?
      && (n <= d ==> q.numerator <= q.denominator)
      && (n >= d ==> q.numerator >= q.denominator)
  {
    NarrowingNeverSaturates(f, n, d);
    var k := Scale(f, n, d);
    if n <= d {
      DivMono(n, d, k);
    }
    if n >= d {
      DivMono(d, n, k);
    }
  }

  // ---------------------------------------------------------------- the error bound

  /** How far the cross products of the scaled and of the true ratio are apart. */
  function CrossError(n: int, d: int, ns: int, ds: int): int {
    ns * d - n * ds
  }

  lemma RemainderBound(ns: nat, ds: nat, k: nat, s: nat, r: nat)
    requires s < k && r < k && ns <= ds
    ensures -((k - 1) * ds) <= ns * r - s * ds <= (k - 1) * ds
  {
    MulMono(s, k - 1, ds);
    MulMono(r, k - 1, ns);
    MulMono(ns, ds, k - 1);
    assert ns * r == r * ns && ns * (k - 1) == (k - 1) * ns && ds * (k - 1) == (k - 1) * ds;
  }

  lemma ClampedBound(n: nat, ds: nat, k: nat, r: nat)
    requires 0 < n < k && r < k && ds >= 1
    ensures 0 <= (k * ds + r) - n * ds <= 2 * ((k - 1) * ds)
  {
    MulMono(1, n, ds);
    MulMono(n, k, ds);
    MulMono(1, ds, k - 1);
    assert k * ds == (k - 1) * ds + ds;
    assert ds * (k - 1) == (k - 1) * ds;
  }

  lemma DivPositive(d: nat, k: nat)
    requires 0 < k <= d
    ensures d / k >= 1
  {
    DivMono(k, d, k);
  }

  lemma CrossErrorOfParts(n: nat, d: nat, k: nat, ns: nat, ds: nat, s: nat, r: nat)
    requires n == k * ns + s && d == k * ds + r && s < k && r < k && ns <= ds && ds >= 1
    ensures -2 * ((k - 1) * ds) <= CrossError(n, d, ns, ds) <= 2 * ((k - 1) * ds)
  {
    MulMono(0, k - 1, ds);
    Expand(ns, k, ds, r, s);
    RemainderBound(ns, ds, k, s, r);
  }

  lemma CrossErrorOfLifted(n: nat, d: nat, k: nat, ds: nat, r: nat)
    requires 0 < n < k && d == k * ds + r && r < k && ds >= 1
    ensures -2 * ((k - 1) * ds) <= CrossError(n, d, 1, ds) <= 2 * ((k - 1) * ds)
  {
    MulMono(0, k - 1, ds);
    ClampedBound(n, ds, k, r);
  }

  lemma CrossErrorBound(n: nat, d: nat, k: nat)
    requires 0 < k <= d && n <= d
    ensures var ds := ScaleOperand(d, k); var e := CrossError(n, d, ScaleOperand(n, k), ds);
      -2 * ((k - 1) * ds) <= e <= 2 * ((k - 1) * ds)
  {
    DivMod(n, k);
    DivMod(d, k);
    DivMono(n, d, k);
    DivPositive(d, k);
    if n / k > 0 || n == 0 {
      CrossErrorOfParts(n, d, k, n / k, d / k, n % k, d % k);
    } else {
      CrossErrorOfLifted(n, d, k, d / k, d % k);
    }
  }

  lemma Expand(ns: int, k: int, ds: int, r: int, s: int)
    ensures ns * (k * ds + r) - (k * ns + s) * ds == ns * r - s * ds
  {
    assert ns * (k * ds + r) == ns * (k * ds) + ns * r;
    assert (k * ns + s) * ds == (k * ns) * ds + s * ds;
    assert ns * (k * ds) == (ns * k) * ds == (k * ns) * ds;
  }

  lemma IntegerBound(e: int, d: nat, ds: nat, k: nat, range: nat)
    requires k > 0 && (k - 1) * range <= d
    requires -2 * ((k - 1) * ds) <= e <= 2 * ((k - 1) * ds)
    ensures -2 * (ds * d) <= e * range <= 2 * (ds * d)
  {
    var a, b := k - 1, (k - 1) * ds;
    MulMono(a * range, d, ds);
    assert b * range == (a * range) * ds;
    assert ds * d == d * ds;
    if e >= 0 {
      MulMono(e, 2 * b, range);
    } else {
      MulMono(-e, 2 * b, range);
      assert (-e) * range == -(e * range);
    }
    assert (2 * b) * range == 2 * (b * range);
  }

  lemma FractionDifference(a: real, b: real, c: real, d: real)
    requires b > 0.0 && d > 0.0
    ensures (a / b - c / d) * (b * d) == a * d - c * b
  {
    var x, y := a / b, c / d;
    assert x * b == a && y * d == c;
    assert x * (b * d) == (x * b) * d;
    assert y * (b * d) == (y * d) * b;
  }

  lemma ScaledBound(x: real, p: real, e: real, range: real)
    requires p > 0.0 && range > 0.0 && x * p == e
    requires -2.0 * p <= e * range <= 2.0 * p
    ensures Abs(x) <= 2.0 / range
  {
    assert (x * range) * p == e * range;
    CancelFactor(x * range, 2.0, p);
    CancelFactor(-2.0, x * range, p);
    var b := 2.0 / range;
    assert b * range == 2.0;
    CancelFactor(x, b, range);
    CancelFactor(-b, x, range);
  }

  lemma CancelFactor(a: real, b: real, p: real)
    requires p > 0.0 && a * p <= b * p
    ensures a <= b
  {
  }

  lemma RealBound(n: nat, d: nat, ns: nat, ds: nat, k: nat, range: nat)
    requires d > 0 && ds > 0 && range > 0 && k > 0
    requires (k - 1) * range <= d
    requires -2 * ((k - 1) * ds) <= CrossError(n, d, ns, ds) <= 2 * ((k - 1) * ds)
    ensures Abs(ns as real / ds as real - n as real / d as real) <= 2.0 / range as real
  {
    var e := CrossError(n, d, ns, ds);
    IntegerBound(e, d, ds, k, range);
    FractionDifference(ns as real, ds as real, n as real, d as real);
    ProductAsReal(ns, d);
    ProductAsReal(n, ds);
    ProductAsReal(ds, d);
    ProductAsReal(e, range);
    assert ds as real * d as real > 0.0;
    ScaledBound(ns as real / ds as real - n as real / d as real, ds as real * d as real, e as real, range as real);
  }

  lemma ProductAsReal(a: int, b: int)
    ensures (a * b) as real == a as real * b as real
  {
  }

  /** For a fraction of one, the result is within 2 / RANGE of the true quotient. */
  lemma FractionError(f: Family, n: nat, d: nat)
    requires Counts(f, n, d) && d > 0 && n <= d
    ensures var q := UnitRatio(f, n, d);
      q.Fraction? && q.denominator > 0
      && Abs(AsReal(q) - n as real / d as real) <= 2.0 / f.Range() as real
  {
    NarrowingNeverSaturates(f, n, d);
    ScaleWithin(f, d);
    var k := Scale(f, n, d);
    CrossErrorBound(n, d, k);
    RealBound(n, d, ScaleOperand(n, k), ScaleOperand(d, k), k, f.Range());
  }

  /** Above one, the same holds of the reciprocal, so every positive pair of counts is covered. */
  lemma ReciprocalError(f: Family, n: nat, d: nat)
    requires Counts(f, n, d) && 0 < d <= n
    ensures var q := UnitRatio(f, n, d);
      q.Fraction? && q.numerator > 0
      && Abs(q.denominator as real / q.numerator as real - d as real / n as real) <= 2.0 / f.Range() as real
  {
    NarrowingNeverSaturates(f, n, d);
    NarrowingNeverSaturates(f, d, n);
    ScaleWithin(f, n);
    var k := Scale(f, n, d);
    CrossErrorBound(d, n, k);
    RealBound(d, n, ScaleOperand(d, k), ScaleOperand(n, k), k, f.Range());
  }

  lemma ScaleWithin(f: Family, m: nat)
    requires m > 0
    ensures m / f.Range() + 1 <= m && (m / f.Range()) * f.Range() <= m
  {
    DivMod(m, f.Range());
    MulMono(2, f.Range(), m / f.Range());
  }

  // ---------------------------------------------------------------- exactness

  predicate Exact(n: nat, d: nat, q: Quotient) {
    q.Fraction? && q.numerator * d == n * q.denominator
  }

  /** The greatest common divisor, by Euclid's algorithm. */
  function Gcd(a: nat, b: nat): (g: nat)
    requires a > 0 || b > 0
    ensures g > 0
    decreases b
  {
    if b == 0 then a else Gcd(b, a % b)
  }

  /** Both numbers over their greatest common divisor, with the combination of the two that gives one. */
  lemma {:induction false} LowestTerms(a: nat, b: nat) returns (x: nat, y: nat, u: int, v: int)
    requires a > 0 || b > 0
    ensures a == Gcd(a, b) * x && b == Gcd(a, b) * y && u * x + v * y == 1
    decreases b
  {
    if b == 0 {
      x, y, u, v := 1, 0, 1, 0;
    } else {
      var y', r, u', v' := LowestTerms(b, a % b);
      var q := a / b;
      x, y, u, v := q * y' + r, y', v', u' - v' * q;
      DivMod(a, b);
      EuclidStep(Gcd(a, b), q, y', r, u', v');
    }
  }

  lemma EuclidStep(g: nat, q: nat, y: nat, r: nat, u: int, v: int)
    requires u * y + v * r == 1
    ensures (g * y) * q + g * r == g * (q * y + r)
    ensures v * (q * y + r) + (u - v * q) * y == 1
  {
    assert (g * y) * q == g * (q * y);
    assert g * (q * y + r) == g * (q * y) + g * r;
    assert v * (q * y + r) == v * q * y + v * r;
    assert (u - v * q) * y == u * y - v * q * y;
  }

  /** It divides both numbers, and every other common divisor divides it. */
  lemma GcdIsGreatest(a: nat, b: nat, c: nat, x: nat, y: nat)
    requires (a > 0 || b > 0) && a == c * x && b == c * y
    ensures exists m: int :: Gcd(a, b) == c * m
    ensures exists i: nat, j: nat :: a == Gcd(a, b) * i && b == Gcd(a, b) * j
  {
    var i, j, u, v := LowestTerms(a, b);
    var g := Gcd(a, b);
    Combine(g, i, j, u, v);
    Combine(c, x, y, u, v);
    assert g == c * (u * x + v * y);
  }

  lemma Combine(g: int, i: int, j: int, u: int, v: int)
    ensures u * (g * i) + v * (g * j) == g * (u * i + v * j)
  {
    assert u * (g * i) == g * (u * i);
    assert v * (g * j) == g * (v * j);
  }

  /** The quotient of a multiple of g, from the quotient of g and from what the remainder of g adds. */
  lemma QuotientOfMultiple(n: nat, g: nat, x: nat, k: nat) returns (a: nat, s: nat)
    requires n == g * x && k > 0
    ensures g % k * x == k * a + s && s < k
    ensures n / k == g / k * x + a
  {
    var r := g % k;
    a, s := r * x / k, r * x % k;
    DivMod(g, k);
    DivMod(r * x, k);
    Regroup(g / k, r, x, k, a, s);
    QuotientIs(n, k, g / k * x + a, s);
  }

  lemma Regroup(q: nat, r: nat, x: nat, k: nat, e: nat, s: nat)
    requires r * x == k * e + s
    ensures (k * q + r) * x == k * (q * x + e) + s
  {
    assert (k * q + r) * x == k * q * x + r * x;
    assert k * (q * x + e) == k * (q * x) + k * e;
    assert k * q * x == k * (q * x);
  }

  /** Adding the same multiple of the lowest terms to two numbers does not change whether they are in proportion. */
  lemma SharedPart(g: nat, x: nat, y: nat, q: nat, a: nat, b: nat)
    requires g > 0
    ensures (q * x + a) * (g * y) == (g * x) * (q * y + b) <==> a * y == x * b
  {
    assert (q * x + a) * (g * y) == g * (q * x * y) + g * (a * y);
    assert (g * x) * (q * y + b) == g * (q * x * y) + g * (x * b);
    if g * (a * y) == g * (x * b) {
      Cancel(g, a * y, x * b);
    }
  }

  lemma Cancel(g: nat, a: int, b: int)
    requires g > 0 && g * a == g * b
    ensures a == b
  {
    assert g * (a - b) == 0;
    ZeroFactor(g, a - b);
  }

  lemma ZeroFactor(g: nat, z: int)
    requires g > 0 && g * z == 0
    ensures z == 0
  {
  }

  /** In lowest terms, numbers below those terms are in their proportion only when both are zero. */
  lemma SmallProportion(x: nat, y: nat, u: int, v: int, a: nat, b: nat)
    requires u * x + v * y == 1 && x > 0 && a < x && a * y == x * b
    ensures a == 0 && b == 0
  {
    var w := u * a + v * b;
    assert a == a * (u * x + v * y) == x * (u * a) + v * (a * y);
    assert v * (x * b) == x * (v * b);
    assert x * w == x * (u * a) + x * (v * b);
    MultipleBelow(a, x, w);
    PositiveProduct(x, b);
  }

  lemma MultipleBelow(a: nat, x: nat, w: int)
    requires a == x * w && a < x
    ensures a == 0
  {
    if w >= 1 {
      MulMono(1, w, x);
    }
  }

  /** Where both counts reach the scale, what the shared divisor leaves over decides. */
  lemma ExactAboveScale(n: nat, d: nat, k: nat)
    requires 0 < k <= n && k <= d
    ensures (n / k) * d == n * (d / k) <==> (Gcd(n, d) % k) * (Max(n, d) / Gcd(n, d)) < k
  {
    var x, y, u, v := LowestTerms(n, d);
    LargerTerm(n, d, Gcd(n, d), x, y);
    TermsDecide(n, d, k, Gcd(n, d), x, y, u, v);
  }

  lemma TermsDecide(n: nat, d: nat, k: nat, g: nat, x: nat, y: nat, u: int, v: int)
    requires n == g * x && d == g * y && u * x + v * y == 1 && g > 0 && n > 0 && k > 0
    ensures (n / k) * d == n * (d / k) <==> (g % k) * Max(x, y) < k
  {
    var a, s := QuotientOfMultiple(n, g, x, k);
    var b, t := QuotientOfMultiple(d, g, y, k);
    DivMod(g, k);
    PositiveProduct(g, x);
    LeftoverDecides(n, d, g, x, y, u, v, g / k, g % k, k, n / k, d / k, a, s, b, t);
  }

  lemma LeftoverDecides(n: nat, d: nat, g: nat, x: nat, y: nat, u: int, v: int, q: nat, r: nat, k: nat,
                        ns: nat, ds: nat, a: nat, s: nat, b: nat, t: nat)
    requires n == g * x && d == g * y && u * x + v * y == 1 && g > 0 && x > 0
    requires ns == q * x + a && ds == q * y + b && r < k
    requires r * x == k * a + s && s < k && r * y == k * b + t && t < k
    ensures ns * d == n * ds <==> r * Max(x, y) < k
  {
    SharedPart(g, x, y, q, a, b);
    BelowFactor(r, x, k, a, s);
    if a * y == x * b {
      SmallProportion(x, y, u, v, a, b);
    }
    QuotientZero(k, a, s);
    QuotientZero(k, b, t);
    if x <= y {
      MulMono(x, y, r);
    } else {
      MulMono(y, x, r);
    }
  }

  lemma QuotientZero(k: nat, a: nat, s: nat)
    requires s < k
    ensures a == 0 <==> k * a + s < k
  {
    if a > 0 {
      MulMono(1, a, k);
    }
  }

  lemma BelowFactor(r: nat, x: nat, k: nat, a: nat, s: nat)
    requires r < k && x > 0 && r * x == k * a + s
    ensures a < x
  {
    MulMono(r + 1, k, x);
    if a >= x {
      MulMono(x, a, k);
    }
  }

  lemma LargerTerm(n: nat, d: nat, g: nat, x: nat, y: nat)
    requires g > 0 && n == g * x && d == g * y
    ensures Max(n, d) / g == Max(x, y)
  {
    if x <= y {
      MulMono(x, y, g);
    } else {
      MulMono(y, x, g);
    }
    QuotientIs(Max(n, d), g, Max(x, y), 0);
  }

  /** A count lifted to one keeps no proportion with a count that was scaled. */
  lemma LiftedIsNotExact(small: nat, large: nat, k: nat)
    requires 0 < small < k <= large
    ensures small * (large / k) < large
  {
    DivMod(large, k);
    DivPositive(large, k);
    MulMono(small + 1, k, large / k);
    assert (small + 1) * (large / k) == small * (large / k) + large / k;
  }

  /**
   Sharing the scale does not by itself preserve the quotient. It does if and only if the numerator
   is zero, or both counts reach the scale and the scale goes into their greatest common divisor
   with less left over than the larger count's lowest term allows.
   */
  lemma ExactIff(f: Family, n: nat, d: nat)
    requires Counts(f, n, d) && d > 0
    ensures var k, g := Scale(f, n, d), Gcd(n, d);
      Exact(n, d, UnitRatio(f, n, d)) <==>
        n == 0 || (k <= Min(n, d) && (g % k) * (Max(n, d) / g) < k)
  {
    NarrowingNeverSaturates(f, n, d);
    ScaleWithin(f, Max(n, d));
    if n > 0 {
      ExactAtScale(n, d, Scale(f, n, d));
    }
  }

  lemma ExactAtScale(n: nat, d: nat, k: nat)
    requires n > 0 && d > 0 && 0 < k <= Max(n, d)
    ensures ScaleOperand(n, k) * d == n * ScaleOperand(d, k) <==>
      k <= Min(n, d) && (Gcd(n, d) % k) * (Max(n, d) / Gcd(n, d)) < k
  {
    Operand(n, k);
    Operand(d, k);
    if k <= n && k <= d {
      ExactAboveScale(n, d, k);
    } else if n < k {
      LiftedIsNotExact(n, d, k);
    } else {
      LiftedIsNotExact(d, n, k);
    }
  }

  lemma Operand(value: nat, k: nat)
    requires value > 0 && k > 0
    ensures ScaleOperand(value, k) == if k <= value then value / k else 1
  {
    DivZero(value, k);
  }

  /** In both families, two counts one apart whose quotient the shared scale changes. */
  lemma SharedScaleIsNotExact()
    ensures UnitRatio(DOUBLE_FAMILY, 0x1_0000_0001, 0x1_0000_0002) == Fraction(0x8000_0000, 0x8000_0001)
    ensures !Exact(0x1_0000_0001, 0x1_0000_0002, UnitRatio(DOUBLE_FAMILY, 0x1_0000_0001, 0x1_0000_0002))
    ensures UnitRatio(SINGLE_FAMILY, 0x1_0001, 0x1_0002) == Fraction(0x8000, 0x8001)
    ensures !Exact(0x1_0001, 0x1_0002, UnitRatio(SINGLE_FAMILY, 0x1_0001, 0x1_0002))
  {
    HalvedPair(DOUBLE_FAMILY, 0x8000_0000);
    HalvedPair(SINGLE_FAMILY, 0x8000);
  }

  lemma HalvedPair(f: Family, h: nat)
    requires f.Range() == 2 * h && h >= 2 && 2 * h + 2 <= f.wideMax
    ensures UnitRatio(f, 2 * h + 1, 2 * h + 2) == Fraction(h, h + 1)
    ensures !Exact(2 * h + 1, 2 * h + 2, Fraction(h, h + 1))
  {
    QuotientIs(2 * h + 2, 2 * h, 1, 2);
    assert Scale(f, 2 * h + 1, 2 * h + 2) == 2;
    QuotientIs(2 * h + 1, 2, h, 1);
    QuotientIs(2 * h + 2, 2, h + 1, 0);
    assert h * (2 * h + 2) == 2 * (h * h) + 2 * h;
    assert (2 * h + 1) * (h + 1) == 2 * (h * h) + 3 * h + 1;
  }
}
