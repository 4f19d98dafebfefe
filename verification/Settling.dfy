/** When `get_d` settles, and on what: for every pool whose amplification outweighs the rounding of the
    multiply-divide chain, the loop leaves through its |delta| <= 1 test on the exact Stableswap
    invariant rounded down, or one above it. */
module Settling {
  import opened Bits
  import opened Stableswap

  // ---------------------------------------------------------------------------------------------
  // The exact invariant, cleared of its denominator
  // ---------------------------------------------------------------------------------------------

  /** G(z) = z^(n+1) + k ((a - 1) z - a s) with k = n^n x_1 .. x_n; its root is the exact D. `loss`
      bounds what the floors inside d_p can take off. */
  datatype Balance = Balance(n: nat, k: nat, a: nat, s: nat, loss: nat) {

    function W(z: int): int { if n == 2 then z * z * z else z * z * z * z }

    function G(z: int): int { W(z) + k * ((a - 1) * z - a * s) }

    /** What a pool supplies: amplification over rounding, a sum of some size, and the two bounds on
        k that come from its being made of positive balances. */
    ghost predicate Tame() {
      && (n == 2 || n == 3) && k > 0 && s >= 40 && 3 <= loss && 2 * loss <= a + 1
      && W(s) >= k * s
      && forall z: nat :: z <= s ==> W(z) <= (z * loss) * k
    }

    /** One pass of the loop from d to next, with its rounded product p. */
    ghost predicate Pass(d: nat, p: nat, next: nat) {
      && d > 0 && a >= 1 && (a - 1) * d <= a * s
      && p * k <= W(d) <= (p + loss) * k
      && next * DDenominator(d, p, a, n) <= DNumerator(d, p, a, s, n) < (next + 1) * DDenominator(d, p, a, n)
    }
  }

  /** The tangent at d lies below the power: z^(n+1) >= d^n ((n+1) z - n d). */
  lemma TangentBelow(b: Balance, z: nat, d: nat)
    requires b.n == 2 || b.n == 3
    ensures d * b.W(z) >= b.W(d) * ((b.n + 1) * z - b.n * d)
  {
    if b.n == 2 {
      Tangent2(z, d);
      Lift(d, d * d, 3 * z - 2 * d, z * z * z);
    } else {
      Tangent3(z, d);
      Lift(d, d * d * d, 4 * z - 3 * d, z * z * z * z);
    }
  }

  lemma Lift(d: nat, c: int, f: int, w: int)
    requires w >= c * f
    ensures d * w >= (c * d) * f
  {
    MulLe(c * f, w, d);
    assert d * (c * f) == (c * d) * f;
  }

  lemma Tangent2(z: nat, d: nat)
    ensures z * z * z >= d * d * (3 * z - 2 * d)
  {
    var q := (z - d) * (z - d);
    SquareNonNegative(z - d);
    MulLe(0, z + 2 * d, q);
    assert q * (z + 2 * d) == z * z * z - d * d * (3 * z - 2 * d);
  }

  lemma Tangent3(z: nat, d: nat)
    ensures z * z * z * z >= d * d * d * (4 * z - 3 * d)
  {
    var q := (z - d) * (z - d);
    SquareNonNegative(z - d);
    MulLe(0, z * z + 2 * (z * d) + 3 * (d * d), q);
    assert q * (z * z + 2 * (z * d) + 3 * (d * d)) == z * z * z * z - d * d * d * (4 * z - 3 * d);
  }

  /** A value above the step is at least n / (n + 1) of where it came from. */
  lemma AboveFraction(n: nat, a: nat, s: nat, d: nat, p: nat, z: nat)
    requires (n == 2 || n == 3) && a >= 1 && (a - 1) * d <= a * s && d > 0
    requires z * DDenominator(d, p, a, n) > DNumerator(d, p, a, s, n)
    ensures (n + 1) * z >= n * d
  {
    AboveShare(n, a * s, (a - 1) * d, d, p, z);
  }

  lemma AboveShare(n: nat, x: nat, y: nat, d: nat, p: nat, z: nat)
    requires (n == 2 || n == 3) && y <= x && d > 0
    requires z * (y + (n + 1) * p) > (x + p * n) * d
    ensures (n + 1) * z >= n * d
  {
    if (n + 1) * z < n * d {
      MulLe((n + 1) * z, n * d, y);
      MulLe((n + 1) * z, n * d, p);
      MulLe(y, x, d);
      AboveFractionTerms(n, x, y, d, p, z);
      assert false;
    }
  }

  lemma AboveFractionTerms(n: nat, x: nat, y: nat, d: nat, p: nat, z: nat)
    requires (n == 2 || n == 3) && ((n + 1) * z) * y <= (n * d) * y && ((n + 1) * z) * p <= (n * d) * p && y * d <= x * d
    ensures z * (y + (n + 1) * p) <= (x + p * n) * d
  {
    if n == 2 {
      assert z * (y + 3 * p) == z * y + 3 * (z * p) && (x + p * 2) * d == x * d + 2 * (d * p);
      assert (3 * z) * y == 3 * (z * y) && (2 * d) * y == 2 * (y * d);
      assert (3 * z) * p == 3 * (z * p) && (2 * d) * p == 2 * (d * p);
      MulLe(0, d, x);
    } else {
      assert z * (y + 4 * p) == z * y + 4 * (z * p) && (x + p * 3) * d == x * d + 3 * (d * p);
      assert (4 * z) * y == 4 * (z * y) && (3 * d) * y == 3 * (y * d);
      assert (4 * z) * p == 4 * (z * p) && (3 * d) * p == 3 * (d * p);
      MulLe(0, d, x);
    }
  }

  /** No pass lands more than the final floor below the exact root. */
  lemma PassStaysAbove(b: Balance, d: nat, p: nat, next: nat)
    requires b.Tame() && b.Pass(d, p, next)
    ensures b.G(next + 1) > 0
  {
    var z := next + 1;
    AboveFraction(b.n, b.a, b.s, d, p, z);
    LandingPays(b, d, p, z);
    PositiveFactor(d, b.G(z));
  }

  lemma PositiveFactor(d: nat, x: int)
    requires d * x > 0
    ensures x > 0
  {
    if x <= 0 {
      MulLe(x, 0, d);
      assert false;
    }
  }

  lemma LandingPays(b: Balance, d: nat, p: nat, z: nat)
    requires (b.n == 2 || b.n == 3) && b.k > 0 && b.a >= 1 && d > 0 && p * b.k <= b.W(d) && (b.n + 1) * z >= b.n * d
    requires z * DDenominator(d, p, b.a, b.n) > DNumerator(d, p, b.a, b.s, b.n)
    ensures d * b.G(z) > 0
  {
    var f := (b.n + 1) * z - b.n * d;
    TangentBelow(b, z, d);
    MulLe(p * b.k, b.W(d), f);
    ClearedStep(b.k, p, b.a, b.s, b.n, d, z);
    MulLe(1, z * DDenominator(d, p, b.a, b.n) - DNumerator(d, p, b.a, b.s, b.n), b.k);
    DistributeGap(d, b.W(z), b.k, (b.a - 1) * z - b.a * b.s);
  }

  lemma DistributeGap(d: int, w: int, k: int, t: int)
    ensures d * (w + k * t) == d * w + k * (d * t)
  {
    assert d * (k * t) == k * (d * t);
  }

  lemma ClearedStep(k: int, p: int, a: int, s: int, n: int, d: int, z: int)
    requires a >= 1 && d >= 0 && p >= 0 && n >= 0 && s >= 0
    ensures (p * k) * ((n + 1) * z - n * d) + k * (d * ((a - 1) * z - a * s))
      == k * (z * DDenominator(d, p, a, n) - DNumerator(d, p, a, s, n))
  {
    var e, g := (n + 1) * z - n * d, d * ((a - 1) * z - a * s);
    StepTerms(p, a - 1, a * s, n, d, z);
    Reassociate(p, k, e);
    Collect(k, p * e, g);
  }

  lemma Reassociate(x: int, y: int, z: int)
    ensures (x * y) * z == y * (x * z)
  {
  }

  lemma Collect(k: int, x: int, y: int)
    ensures k * (x + y) == k * x + k * y
  {
  }

  lemma StepTerms(p: int, c: int, t: int, n: int, d: int, z: int)
    ensures p * ((n + 1) * z - n * d) + d * (c * z - t) == z * (c * d + (n + 1) * p) - (t + p * n) * d
  {
    assert p * ((n + 1) * z - n * d) == z * ((n + 1) * p) - (p * n) * d;
    assert d * (c * z - t) == z * (c * d) - t * d;
  }

  // ---------------------------------------------------------------------------------------------
  // Above the root a pass gains at most one
  // ---------------------------------------------------------------------------------------------

  /** (d + 1)^(n+1) d <= (d + 2 (n + 1)) d^(n+1). */
  lemma NextPower(b: Balance, d: nat)
    requires (b.n == 2 || b.n == 3) && d >= 3
    ensures d * b.W(d + 1) <= (d + 2 * (b.n + 1)) * b.W(d)
  {
    var q, c := d * d, d * d * d;
    MulLe(3, d, d);
    MulLe(3, d, q);
    MulLe(3, d, c);
    if b.n == 2 {
      assert (d + 1) * (d + 1) * (d + 1) == c + 3 * q + 3 * d + 1;
      assert d * (c + 3 * q + 3 * d + 1) == d * c + 3 * c + 3 * q + d;
      assert (d + 6) * c == d * c + 6 * c;
    } else {
      var f := d * d * d * d;
      assert (d + 1) * (d + 1) * (d + 1) * (d + 1) == f + 4 * c + 6 * q + 4 * d + 1;
      assert d * (f + 4 * c + 6 * q + 4 * d + 1) == d * f + 4 * f + 6 * c + 4 * q + d;
      assert (d + 8) * f == d * f + 8 * f;
    }
  }

  /** What an up-move of two or more would need of the residual. */
  lemma UpTwoNeeds(d: int, den: int, num: int, t: int, next: int)
    requires next * den <= num && num - d * den == d * t && next >= d + 2 && den >= 0
    ensures d * t >= 2 * den
  {
    MulLe(d + 2, next, den);
    assert (d + 2) * den == d * den + 2 * den;
  }

  lemma PassGainsAtMostOne(b: Balance, d: nat, p: nat, next: nat)
    requires b.Tame() && b.Pass(d, p, next) && d >= 26 && b.G(d + 1) > 0
    ensures next <= d + 1
  {
    if next >= d + 2 {
      var den, t := DDenominator(d, p, b.a, b.n), b.a * b.s - (b.a - 1) * d - p;
      StepResidual(d, p, b.a, b.s, b.n);
      ResidualSign(d, p, b.a, b.s);
      MulLe(0, d, b.a - 1);
      MulLe(0, p, b.n + 1);
      UpTwoNeeds(d, den, DNumerator(d, p, b.a, b.s, b.n), t, next);
      NextPower(b, d);
      UpTwoBound(b.k, b.a, b.s, b.n, d, p, t, b.W(d + 1));
      UpTwoCost(b, d, p);
      assert false;
    }
  }

  lemma ResidualSign(d: int, p: int, a: int, s: int)
    ensures d * (p + (a - 1) * d - a * s) == -(d * (a * s - (a - 1) * d - p))
  {
    var r := p + (a - 1) * d - a * s;
    assert d * (-r) == -(d * r);
  }

  lemma UpTwoBound(k: nat, a: nat, s: nat, n: nat, d: nat, p: nat, t: int, w: int)
    requires a >= 1 && t == a * s - (a - 1) * d - p && w + k * ((a - 1) * (d + 1) - a * s) > 0
    requires d * t >= 2 * DDenominator(d, p, a, n) && d > 0
    ensures k * ((a - 1) * d) + (k * p) * (d + 2 * (n + 1)) < d * w
  {
    var u, v := t + p - (a - 1), (a - 1) * d + p * (d + 2 * (n + 1));
    UpTwoStart(k, a, s, d, p, t, w);
    UpTwoSlope(a, n, d, p, t);
    UpTwoGap(k, d, u, v, w);
    assert k * v == k * ((a - 1) * d) + (k * p) * (d + 2 * (n + 1)) by { MulAssoc(k, p, d + 2 * (n + 1), (a - 1) * d); }
  }

  lemma UpTwoStart(k: nat, a: nat, s: nat, d: nat, p: nat, t: int, w: int)
    requires a >= 1 && t == a * s - (a - 1) * d - p && w + k * ((a - 1) * (d + 1) - a * s) > 0
    ensures w > k * (t + p - (a - 1))
  {
    var u := t + p - (a - 1);
    assert (a - 1) * (d + 1) == (a - 1) * d + (a - 1);
    assert k * (-u) == -(k * u);
  }

  lemma UpTwoGap(k: nat, d: nat, u: int, v: int, w: int)
    requires d > 0 && w > k * u && d * u >= v
    ensures k * v < d * w
  {
    MulLe(k * u + 1, w, d);
    assert d * (k * u) == k * (d * u);
    MulLe(v, d * u, k);
  }

  lemma UpTwoSlope(a: nat, n: nat, d: nat, p: nat, t: int)
    requires a >= 1 && d * t >= 2 * DDenominator(d, p, a, n)
    ensures (a - 1) * d + p * (d + 2 * (n + 1)) <= d * (t + p - (a - 1))
  {
    assert d * (t + p - (a - 1)) == d * t + d * p - d * (a - 1);
    assert p * (d + 2 * (n + 1)) == d * p + 2 * ((n + 1) * p);
  }

  /** The amplification pays for the lost rounding at every d from 26 on. */
  lemma UpTwoCost(b: Balance, d: nat, p: nat)
    requires b.Tame() && d >= 26 && b.W(d) <= (p + b.loss) * b.k
    ensures (d + 2 * (b.n + 1)) * b.W(d) <= b.k * ((b.a - 1) * d) + (b.k * p) * (d + 2 * (b.n + 1))
  {
    var c := d + 2 * (b.n + 1);
    MulLe(b.W(d), (p + b.loss) * b.k, c);
    assert c * ((p + b.loss) * b.k) == (b.k * p) * c + b.k * (b.loss * c);
    LossPaid(b.loss, b.a, d, c);
    MulLe(b.loss * c, (b.a - 1) * d, b.k);
  }

  lemma LossPaid(loss: nat, a: nat, d: nat, c: nat)
    requires 3 <= loss && 2 * loss <= a + 1 && d >= 26 && c <= d + 8
    ensures loss * c <= (a - 1) * d
  {
    MulLe(c, d + 8, loss);
    MulLe(2 * loss, a + 1, d + 8);
    assert (2 * loss) * (d + 8) == 2 * (loss * (d + 8));
    assert (a + 1) * (d + 8) == a * d + 8 * a + d + 8;
    MulLe(24, d - 2, a - 3) by { assert a >= 5; }
    assert (a - 3) * (d - 2) == a * d - 2 * a - 3 * d + 6;
    assert (a - 1) * d == a * d - d;
  }

  // ---------------------------------------------------------------------------------------------
  // Above the root a pass closes three eighths of the distance
  // ---------------------------------------------------------------------------------------------

  /** d r >= d (G(d) / k - loss) for the rounded residual r = p + (a - 1) d - a s. */
  lemma ResidualAtLeast(b: Balance, d: nat, p: nat)
    requires b.W(d) <= (p + b.loss) * b.k
    ensures b.k * (p + (b.a - 1) * d - b.a * b.s) >= b.G(d) - b.loss * b.k
  {
    Collect(b.k, p, b.loss);
    Collect(b.k, p, (b.a - 1) * d - b.a * b.s);
  }

  /** The secant from the root up to d has at least half again the slope of d^n. */
  lemma SecantAtLeast(b: Balance, d: nat, root: nat)
    requires (b.n == 2 || b.n == 3) && root <= d <= 2 * root
    ensures 2 * (d * (b.W(d) - b.W(root))) >= (3 * (d - root)) * b.W(d)
  {
    var q := d * d;
    MulLe(0, root, root);
    if b.n == 2 {
      MulLe(d, 2 * root, d);
      CubeFactor(d, root);
      SecantFrom(d, d - root, q, q + d * root + root * root);
    } else {
      MulLe(d, 2 * root, q);
      MulLe(0, root * root, d);
      MulLe(0, root * root, root);
      FourthFactor(d, root);
      SecantFrom(d, d - root, q * d, q * d + q * root + d * (root * root) + root * (root * root));
    }
  }

  lemma SecantFrom(d: nat, e: nat, c: int, t: int)
    requires 3 * c <= 2 * t
    ensures 2 * (d * (e * t)) >= (3 * e) * (c * d)
  {
    MulLe(0, e, d);
    MulLe(3 * c, 2 * t, e * d);
    assert (e * d) * (3 * c) == (3 * e) * (c * d);
    assert (e * d) * (2 * t) == 2 * (d * (e * t));
  }

  lemma CubeFactor(d: int, r: int)
    ensures d * d * d - r * r * r == (d - r) * (d * d + d * r + r * r)
  {
  }

  lemma FourthFactor(d: int, r: int)
    ensures d * d * d * d - r * r * r * r == (d - r) * (d * d * d + d * d * r + d * (r * r) + r * (r * r))
  {
  }

  /** 8 d r >= (3 e - 6) den, with e the distance to the root. */
  lemma ResidualPaysDistance(k: nat, a: nat, n: nat, loss: nat, d: nat, p: nat, e: nat, r: int, w: int, gap: int)
    requires k > 0 && (n == 2 || n == 3) && a >= 5 && 2 * loss <= a + 1
    requires k * r >= gap + k * ((a - 1) * e) - loss * k && p * k <= w && 2 * (d * gap) >= (3 * e) * w
    ensures 8 * (d * r) >= (3 * e - 6) * DDenominator(d, p, a, n)
  {
    var u := (a - 1) * d;
    ScaledResidual(k, a, loss, d, e, r, gap);
    MulLe(p * k, w, 3 * e);
    assert (3 * e) * (p * k) == k * (3 * (e * p));
    GatherScale(k, 2 * (d * r), 3 * (e * p), e * u, loss * d);
    PayTerms(a, n, loss, d, p, e);
  }

  lemma ScaledResidual(k: nat, a: nat, loss: nat, d: nat, e: nat, r: int, gap: int)
    requires a >= 1 && k * r >= gap + k * ((a - 1) * e) - loss * k
    ensures k * (2 * (d * r)) >= 2 * (d * gap) + 2 * (k * (e * ((a - 1) * d))) - 2 * (k * (loss * d))
  {
    MulLe(gap + k * ((a - 1) * e) - loss * k, k * r, d);
    assert d * (k * ((a - 1) * e)) == k * (e * ((a - 1) * d));
    assert d * (loss * k) == k * (loss * d);
    assert d * (gap + k * ((a - 1) * e) - loss * k) == d * gap + d * (k * ((a - 1) * e)) - d * (loss * k);
    assert d * (k * r) == k * (d * r);
  }

  lemma GatherScale(k: nat, x: int, t: int, u: int, v: int)
    requires k > 0 && k * x >= k * t + 2 * (k * u) - 2 * (k * v)
    ensures x >= t + 2 * u - 2 * v
  {
    assert k * (t + 2 * u - 2 * v) == k * t + 2 * (k * u) - 2 * (k * v);
    CancelScale(k, x, t + 2 * u - 2 * v);
  }

  lemma CancelScale(k: nat, x: int, y: int)
    requires k > 0 && k * x >= k * y
    ensures x >= y
  {
    CancelFactor(y, x, k);
  }

  lemma PayTerms(a: nat, n: nat, loss: nat, d: nat, p: nat, e: nat)
    requires (n == 2 || n == 3) && a >= 5 && 2 * loss <= a + 1
    ensures 4 * (3 * (e * p) + 2 * (e * ((a - 1) * d)) - 2 * (loss * d)) >= (3 * e - 6) * DDenominator(d, p, a, n)
  {
    var u := (a - 1) * d;
    MulLe(4 * loss, 3 * (a - 1), d);
    assert (4 * loss) * d == 4 * (loss * d) && (3 * (a - 1)) * d == 3 * u;
    MulLe(n + 1, 4, p);
    MulLe((n + 1) * p, 4 * p, e);
    assert e * (4 * p) == 4 * (e * p);
    assert (3 * e - 6) * (u + (n + 1) * p) == 3 * (e * u) + 3 * (e * ((n + 1) * p)) - 6 * u - 6 * ((n + 1) * p);
    MulLe(0, u, e) by { MulLe(0, d, a - 1); }
    MulLe(0, p, n + 1);
  }

  /** From d down to next: the step is the rounded residual over the rounded slope. */
  lemma StepFromResidual(b: Balance, d: nat, p: nat, next: nat)
    requires b.Pass(d, p, next)
    ensures var den := DDenominator(d, p, b.a, b.n); var r := p + (b.a - 1) * d - b.a * b.s;
      d * r <= (d - next) * den && (d - next - 1) * den < d * r
  {
    var den := DDenominator(d, p, b.a, b.n);
    StepResidual(d, p, b.a, b.s, b.n);
    assert (d - next) * den == d * den - next * den;
    assert (d - next - 1) * den == d * den - (next + 1) * den;
  }

  lemma GAboveRoot(b: Balance, d: nat, root: nat)
    requires b.G(root) >= 0
    ensures b.G(d) >= b.W(d) - b.W(root) + b.k * ((b.a - 1) * (d - root))
  {
    LinearPart(b.k, b.a - 1, b.a * b.s, d, root);
    assert b.G(d) - b.G(root) == b.W(d) - b.W(root) + b.k * ((b.a - 1) * (d - root));
  }

  lemma LinearPart(k: int, c: int, t: int, d: int, root: int)
    ensures k * (c * d - t) - k * (c * root - t) == k * (c * (d - root))
  {
    assert (c * d - t) - (c * root - t) == c * (d - root);
    assert k * (c * d - t) - k * (c * root - t) == k * ((c * d - t) - (c * root - t));
  }

  lemma DenominatorAtLeast(b: Balance, d: nat, p: nat)
    requires b.Tame() && d > 0
    ensures DDenominator(d, p, b.a, b.n) > 0
  {
    DenominatorPositive(d, p, b.a, b.n);
  }

  lemma PassClosesDistance(b: Balance, d: nat, p: nat, next: nat, root: nat)
    requires b.Tame() && b.Pass(d, p, next) && b.G(root) >= 0 && root <= d <= 2 * root
    ensures 8 * (next - root) <= 5 * (d - root) + 6
  {
    var den, e, r := DDenominator(d, p, b.a, b.n), d - root, p + (b.a - 1) * d - b.a * b.s;
    ResidualAtLeast(b, d, p);
    GAboveRoot(b, d, root);
    SecantAtLeast(b, d, root);
    ResidualPaysDistance(b.k, b.a, b.n, b.loss, d, p, e, r, b.W(d), b.W(d) - b.W(root));
    StepFromResidual(b, d, p, next);
    DenominatorAtLeast(b, d, p);
    StepAtLeast(den, e, d * r, d - next);
  }

  lemma StepAtLeast(den: nat, e: nat, dr: int, step: int)
    requires den > 0 && 8 * dr >= (3 * e - 6) * den && dr <= step * den
    ensures 8 * step >= 3 * e - 6
  {
    assert 8 * (step * den) == (8 * step) * den;
    CancelFactor(3 * e - 6, 8 * step, den);
  }

  // ---------------------------------------------------------------------------------------------
  // Next to the root
  // ---------------------------------------------------------------------------------------------

  lemma PowerMonotone(b: Balance, x: nat, y: nat)
    requires x <= y
    ensures b.W(x) <= b.W(y)
  {
    ProductAtMost(x, y, x, y);
    ProductAtMost(x * x, y * y, x, y);
    ProductAtMost(x * x * x, y * y * y, x, y);
  }

  lemma GIncreasing(b: Balance, x: nat, y: nat)
    requires b.Tame() && x < y
    ensures b.G(x) < b.G(y)
  {
    PowerMonotone(b, x, y);
    LinearPart(b.k, b.a - 1, b.a * b.s, y, x);
    MulLe(1, y - x, b.a - 1);
    MulLe(1, (b.a - 1) * (y - x), b.k);
    assert b.G(y) - b.G(x) == b.W(y) - b.W(x) + b.k * ((b.a - 1) * (y - x));
  }

  /** Dropping two from d gives up at least (n + 1) d^n. */
  lemma TwoBelow(b: Balance, d: nat)
    requires (b.n == 2 || b.n == 3) && d >= 26
    ensures d * (b.W(d) - b.W(d - 2)) >= (b.n + 1) * b.W(d)
  {
    var q, c := d * d, d * d * d;
    MulLe(26, d, d);
    MulLe(26, d, q);
    MulLe(26, d, c);
    if b.n == 2 {
      assert (d - 2) * (d - 2) * (d - 2) == c - 6 * q + 12 * d - 8;
      assert d * (6 * q - 12 * d + 8) == 6 * c - 12 * q + 8 * d;
    } else {
      var f := d * d * d * d;
      assert (d - 2) * (d - 2) * (d - 2) * (d - 2) == f - 8 * c + 24 * q - 32 * d + 16;
      assert d * (8 * c - 24 * q + 32 * d - 16) == 8 * f - 24 * c + 32 * q - 16 * d;
    }
  }

  /** From two or more above the root a pass moves by more than one, so the loop cannot stop there. */
  lemma PassLeavesFarPoints(b: Balance, d: nat, p: nat, next: nat)
    requires b.Tame() && b.Pass(d, p, next) && d >= 26 && b.G(d - 2) >= 0
    ensures next + 2 <= d
  {
    var den, r := DDenominator(d, p, b.a, b.n), p + (b.a - 1) * d - b.a * b.s;
    ResidualAtLeast(b, d, p);
    GAboveRoot(b, d, d - 2);
    TwoBelow(b, d);
    ResidualBeatsSlope(b.k, b.a, b.n, b.loss, d, p, r, b.W(d), b.W(d) - b.W(d - 2));
    StepFromResidual(b, d, p, next);
    StepAbove(den, d * r, d - next, 1);
  }

  lemma StepAbove(den: nat, dr: int, step: int, least: int)
    requires dr > least * den && dr <= step * den
    ensures step > least
  {
    if step <= least {
      MulLe(step, least, den);
      assert false;
    }
  }

  lemma ResidualBeatsSlope(k: nat, a: nat, n: nat, loss: nat, d: nat, p: nat, r: int, w: int, gap: int)
    requires k > 0 && a >= 5 && 2 * loss <= a + 1 && d > 0
    requires k * r >= gap + k * ((a - 1) * 2) - loss * k && p * k <= w && d * gap >= (n + 1) * w
    ensures d * r > DDenominator(d, p, a, n)
  {
    ScaledResidual(k, a, loss, d, 2, r, gap);
    MulLe(p * k, w, n + 1);
    assert (n + 1) * (p * k) == k * ((n + 1) * p);
    GatherScale(k, 2 * (d * r), 2 * ((n + 1) * p), 2 * ((a - 1) * d), loss * d);
    LossBelowSlope(a, loss, d);
  }

  lemma LossBelowSlope(a: nat, loss: nat, d: nat)
    requires a >= 5 && 2 * loss <= a + 1
    ensures loss * d + d <= (a - 1) * d
  {
    MulLe(loss + 1, a - 1, d);
    assert (loss + 1) * d == loss * d + d;
  }

  /** d r is positive, or falls short of zero by less than the slope. */
  lemma ResidualSigns(k: nat, a: nat, loss: nat, d: nat, r: int, g: int)
    requires k > 0 && a >= 5 && 2 * loss <= a + 1 && d > 0 && k * r >= g - loss * k
    ensures g > 0 ==> d * r > -((a - 1) * d)
    ensures g >= k * (a - 1) ==> d * r > 0
  {
    if g > 0 {
      var least: int := 0 - loss;
      assert k * least == -(loss * k);
      CancelStrict(k, r, least);
      MulLe(least, r, d);
      assert d * least == -(loss * d);
      LossBelowSlope(a, loss, d);
    }
    if g >= k * (a - 1) {
      assert k * (a - 1 - loss) == k * (a - 1) - loss * k;
      CancelScale(k, r, a - 1 - loss);
      MulLe(1, r, d);
    }
  }

  lemma CancelStrict(k: nat, x: int, y: int)
    requires k > 0 && k * x > k * y - k
    ensures x >= y
  {
    assert k * (y - 1) == k * y - k;
    if x < y {
      MulLe(x, y - 1, k);
      assert false;
    }
  }

  /** Above the root no pass goes up. */
  lemma PassNeverRises(b: Balance, d: nat, p: nat, next: nat)
    requires b.Tame() && b.Pass(d, p, next) && b.G(d) > 0
    ensures next <= d
  {
    var den, r := DDenominator(d, p, b.a, b.n), p + (b.a - 1) * d - b.a * b.s;
    ResidualAtLeast(b, d, p);
    ResidualSigns(b.k, b.a, b.loss, d, r, b.G(d));
    MulLe(0, p, b.n + 1);
    StepFromResidual(b, d, p, next);
    StepAbove(den, d * r, d - next, -1);
  }

  /** From one or more above the first integer past the root every pass goes down. */
  lemma PassDrops(b: Balance, d: nat, p: nat, next: nat)
    requires b.Tame() && b.Pass(d, p, next) && b.G(d - 1) >= 0
    ensures next < d
  {
    var den, r := DDenominator(d, p, b.a, b.n), p + (b.a - 1) * d - b.a * b.s;
    ResidualAtLeast(b, d, p);
    GAboveRoot(b, d, d - 1);
    PowerMonotone(b, d - 1, d);
    ResidualSigns(b.k, b.a, b.loss, d, r, b.G(d));
    StepFromResidual(b, d, p, next);
    StepAbove(den, d * r, d - next, 0);
  }

  // ---------------------------------------------------------------------------------------------
  // The integer root, and what a pass does around it
  // ---------------------------------------------------------------------------------------------

  ghost predicate IsFloor(b: Balance, root: nat) { b.G(root) <= 0 < b.G(root + 1) }

  function SearchDown(b: Balance, z: nat): (root: nat)
    requires b.G(0) <= 0 < b.G(z + 1)
    ensures IsFloor(b, root)
  {
    if b.G(z) <= 0 then z else SearchDown(b, z - 1)
  }

  lemma GAtZero(b: Balance)
    requires b.a >= 1
    ensures b.G(0) <= 0
  {
    MulLe(0, b.s, b.a);
    MulLe((b.a - 1) * 0 - b.a * b.s, 0, b.k);
  }

  /** The exact invariant never exceeds the sum. */
  lemma GAtSum(b: Balance)
    requires b.Tame()
    ensures b.G(b.s) >= 0 && b.G(b.s + 1) > 0
  {
    assert b.a * b.s == (b.a - 1) * b.s + b.s;
    var less: int := 0 - b.s;
    assert b.k * less == -(b.k * b.s);
    GIncreasing(b, b.s, b.s + 1);
  }

  /** ... and is more than two thirds of it. */
  lemma GAtTwoThirds(b: Balance, z: nat)
    requires b.Tame() && 3 * z <= 2 * b.s
    ensures b.G(z) <= 0
  {
    var t := z * b.loss + (b.a - 1) * z - b.a * b.s;
    assert b.W(z) <= (z * b.loss) * b.k;
    assert b.k * t == (z * b.loss) * b.k + b.k * ((b.a - 1) * z - b.a * b.s);
    ShareOfSum(b.a, b.s, b.loss, z);
    MulLe(t, 0, b.k);
  }

  lemma ShareOfSum(a: nat, s: nat, loss: nat, z: nat)
    requires a >= 1 && 2 * loss <= a + 1 && 3 * z <= 2 * s
    ensures z * loss + (a - 1) * z <= a * s
  {
    MulLe(2 * loss, a + 1, z);
    assert z * (2 * loss) == 2 * (z * loss) && z * (a + 1) == a * z + z && (a - 1) * z == a * z - z;
    MulLe(3 * z, 2 * s, a);
    assert a * (3 * z) == 3 * (a * z) && a * (2 * s) == 2 * (a * s);
  }

  lemma FloorBounds(b: Balance, root: nat)
    requires b.Tame() && IsFloor(b, root)
    ensures root <= b.s && 3 * (root + 1) > 2 * b.s && root >= 26
  {
    GAtSum(b);
    if root > b.s {
      GIncreasing(b, b.s, root);
      assert false;
    }
    if 3 * (root + 1) <= 2 * b.s {
      GAtTwoThirds(b, root + 1);
      assert false;
    }
  }

  lemma GOrdered(b: Balance, x: nat, y: nat)
    requires b.Tame() && b.G(x) <= 0 < b.G(y)
    ensures x < y
  {
    if y < x {
      GIncreasing(b, y, x);
      assert false;
    }
  }

  lemma PositiveAbove(b: Balance, root: nat, z: nat)
    requires b.Tame() && IsFloor(b, root) && z > root
    ensures b.G(z) > 0
  {
    if z > root + 1 { GIncreasing(b, root + 1, z); }
  }

  /** From at or above the integer root a pass stays there; it leaves the root and its successor only
      for one another, and from further up it closes in on them. */
  lemma PassAdvances(b: Balance, root: nat, d: nat, p: nat, next: nat)
    requires b.Tame() && b.Pass(d, p, next) && IsFloor(b, root) && root <= d <= b.s
    ensures root <= next
    ensures d <= root + 1 ==> next <= root + 1
    ensures d > root + 1 ==> next < d && 8 * (next - root - 1) <= 5 * (d - root - 1) + 6
    ensures d > root + 2 ==> next + 2 <= d
  {
    FloorBounds(b, root);
    PassStaysAbove(b, d, p, next);
    GOrdered(b, root, next + 1);
    if d == root {
      PassGainsAtMostOne(b, d, p, next);
    } else {
      PositiveAbove(b, root, d);
      PassNeverRises(b, d, p, next);
    }
    if d > root + 1 {
      PositiveAbove(b, root, d - 1);
      PassDrops(b, d, p, next);
      PassClosesDistance(b, d, p, next, root + 1);
    }
    if d > root + 2 {
      PositiveAbove(b, root, d - 2);
      PassLeavesFarPoints(b, d, p, next);
    }
  }

  // ---------------------------------------------------------------------------------------------
  // How many passes it takes
  // ---------------------------------------------------------------------------------------------

  /** How far above the root's successor `fuel` passes can start and still settle. */
  function Room(fuel: nat): nat
    requires fuel > 0
  {
    if fuel == 1 then 0
    else
      var room := Room(fuel - 1);
      if (8 * room + 1) / 5 > room + 2 then (8 * room + 1) / 5 else room + 2
  }

  lemma RoomStep(fuel: nat, e: int, next: int)
    requires fuel > 1 && e <= Room(fuel)
    requires e <= 0 ==> next <= 0
    requires e > 0 ==> next < e && 8 * next <= 5 * e + 6
    requires e > 1 ==> next + 2 <= e
    ensures next <= Room(fuel - 1)
  {
  }

  lemma RoomTwice(fuel: nat)
    requires fuel > 0 && Room(fuel) >= 3
    ensures Room(fuel + 2) >= 2 * Room(fuel)
  {
    assert Room(fuel + 1) >= (8 * Room(fuel) + 1) / 5;
    assert Room(fuel + 2) >= (8 * Room(fuel + 1) + 1) / 5;
  }

  /** Every two passes double the room once there is some. */
  lemma {:induction false} RoomDoubles(fuel: nat, k: nat)
    requires fuel > 0 && Room(fuel) >= 32
    ensures Room(fuel + 2 * k) >= 32 * Pow2(k)
    decreases k
  {
    if k > 0 {
      RoomDoubles(fuel, k - 1);
      RoomTwice(fuel + 2 * (k - 1));
    }
  }

  lemma {:induction false} EarlyRoom(fuel: nat)
    requires 1 <= fuel <= 9
    ensures Room(fuel) == [0, 2, 4, 6, 9, 14, 22, 35, 56][fuel - 1]
  {
    if fuel > 1 { EarlyRoom(fuel - 1); }
  }

  /** 255 passes settle every sum of three 128-bit balances. */
  lemma RoomForWords(fuel: nat)
    requires fuel == 255
    ensures Room(fuel) >= B128
  {
    var start, k := fuel - 246, (fuel - 9) / 2;
    EarlyRoom(start);
    RoomDoubles(start, k);
    Pow2Five(k);
    PowAt(k + 5);
  }

  lemma Pow2Five(k: nat)
    ensures Pow2(k + 5) == 32 * Pow2(k)
  {
    assert Pow2(k + 2) == 4 * Pow2(k);
    assert Pow2(k + 4) == 4 * Pow2(k + 2);
  }

  // ---------------------------------------------------------------------------------------------
  // Pools
  // ---------------------------------------------------------------------------------------------

  /** How far the smallest balance lies below the mean: every d / (n x_i) with d <= S is at most this. */
  function Reach(pool: Pool): nat
    requires pool.Valid()
  {
    MulLe(1, Smallest(pool.xs), pool.N());
    QuotientAtLeast(pool.S(), pool.N() * Smallest(pool.xs), 0);
    pool.S() / (pool.N() * Smallest(pool.xs)) + 1
  }

  /** Ann is at least twice what the floors of d_p can lose, less one: checked from the balances
      before the call. */
  ghost predicate Steady(pool: Pool)
    requires pool.Valid()
  {
    pool.S() >= 40 && 2 * FloorLoss(Reach(pool), pool.N()) <= pool.ann + 1
  }

  function BalanceOf(pool: Pool): Balance
    requires pool.Valid()
  {
    Balance(pool.N(), Divisor(pool.xs, pool.N(), pool.N()), pool.ann, pool.S(), FloorLoss(Reach(pool), pool.N()))
  }

  lemma PairDivisor(xs: seq<nat>, n: nat)
    requires |xs| == n == 2
    ensures Divisor(xs, n, n) == 4 * (xs[0] * xs[1])
  {
    assert Divisor(xs, n, n - 1) == (xs[0] * n) * Divisor(xs, n, n - 2) == xs[0] * 2;
    assert (xs[1] * 2) * (xs[0] * 2) == 4 * (xs[0] * xs[1]);
  }

  lemma TripleDivisor(xs: seq<nat>, n: nat)
    requires |xs| == n == 3
    ensures Divisor(xs, n, n) == 27 * (xs[0] * xs[1] * xs[2])
  {
    assert Divisor(xs, n, n - 2) == (xs[0] * n) * Divisor(xs, n, n - 3) == xs[0] * 3;
    assert Divisor(xs, n, n - 1) == (xs[1] * 3) * (xs[0] * 3) == 9 * (xs[0] * xs[1]);
    assert (xs[2] * 3) * (9 * (xs[0] * xs[1])) == 27 * (xs[0] * xs[1] * xs[2]);
  }

  lemma TripleSum(xs: seq<nat>)
    requires |xs| == 3
    ensures Sum(xs) == xs[0] + xs[1] + xs[2]
  {
    PairSum(xs[..2]);
  }

  lemma LossOf(r: nat, n: nat)
    requires n == 2 || n == 3
    ensures FloorLoss(r, n) == if n == 2 then r + 1 else r * r + r + 1
  {
    assert FloorLoss(r, n - 2) == if n == 2 then 0 else 1;
    assert FloorLoss(r, n - 1) == if n == 2 then 1 else r + 1;
  }

  /** The product of two is at most the square of their mean ... */
  lemma PairMean(x: nat, y: nat)
    ensures (x + y) * (x + y) >= 4 * (x * y)
  {
    SquareNonNegative(x - y);
    assert (x + y) * (x + y) - 4 * (x * y) == (x - y) * (x - y);
  }

  /** ... and that of three at most the cube. */
  lemma TripleMean(x: nat, y: nat, z: nat, s: nat, p: nat)
    requires s == x + y + z && p == x * y * z
    ensures s * s * s >= 27 * p
  {
    assert p == y * z * x == x * z * y;
    if z <= x && z <= y {
      MeanFromLeast(z, x - z, y - z, s, p);
    } else if x <= y && x <= z {
      MeanFromLeast(x, y - x, z - x, s, p);
    } else {
      MeanFromLeast(y, x - y, z - y, s, p);
    }
  }

  lemma MeanFromLeast(z: nat, a: nat, b: nat, s: nat, p: nat)
    requires s == 3 * z + a + b && p == (z + a) * (z + b) * z
    ensures s * s * s >= 27 * p
  {
    CubeFromTriple(z, a + b, s);
    ProductFromLeast(z, a, b);
    CrossTerms(z, a, b);
  }

  lemma CrossTerms(z: nat, a: nat, b: nat)
    ensures z * ((a + b) * (a + b)) >= 3 * (z * (a * b)) && (a + b) * (a + b) * (a + b) >= 0
  {
    var t := a + b;
    PairMean(a, b);
    MulLe(3 * (a * b), t * t, z);
    assert z * (3 * (a * b)) == 3 * (z * (a * b));
    MulLe(0, t * t, t);
  }

  lemma ProductFromLeast(z: int, a: int, b: int)
    ensures (z + a) * (z + b) * z == z * z * z + z * z * (a + b) + z * (a * b)
  {
    assert (z + a) * (z + b) == z * z + z * (a + b) + a * b;
    assert (z * z + z * (a + b) + a * b) * z == z * z * z + z * z * (a + b) + z * (a * b);
  }

  lemma CubeFromTriple(z: int, t: int, s: int)
    requires s == 3 * z + t
    ensures s * s * s == 27 * (z * z * z) + 27 * (z * z * t) + 9 * (z * (t * t)) + t * t * t
  {
    var u := 3 * z;
    CubeOfSum(u, t);
    assert u * u == 9 * (z * z);
    assert (9 * (z * z)) * u == 27 * (z * z * z) && (9 * (z * z)) * t == 9 * (z * z * t);
    assert u * (t * t) == 3 * (z * (t * t));
  }

  lemma CubeOfSum(u: int, t: int)
    ensures (u + t) * (u + t) * (u + t) == u * u * u + 3 * (u * u * t) + 3 * (u * (t * t)) + t * t * t
  {
    var q := u * u;
    assert (u + t) * (u + t) == q + 2 * (u * t) + t * t;
  }

  /** z is at most twice the larger of two and r times twice the smaller, so z^2 <= r 4 x y. */
  lemma PairReach(z: nat, x: nat, y: nat, r: nat)
    requires z <= x + y && z <= r * (x * 2) && z <= r * (y * 2)
    ensures z * z <= r * (4 * (x * y))
  {
    if x <= y { OrderedPairReach(z, x, y, r); } else { OrderedPairReach(z, y, x, r); }
  }

  lemma OrderedPairReach(z: nat, x: nat, y: nat, r: nat)
    requires z <= 2 * y && z <= r * (x * 2)
    ensures z * z <= r * (4 * (x * y))
  {
    ProductAtMost(z, r * (x * 2), z, 2 * y);
    assert (r * (x * 2)) * (2 * y) == r * (4 * (x * y));
  }

  /** The same for three: z^3 <= r^2 27 x y w. */
  lemma TripleReach(z: nat, x: nat, y: nat, w: nat, r: nat, p: nat)
    requires z <= x + y + w && p == x * y * w
    requires z <= r * (x * 3) && z <= r * (y * 3) && z <= r * (w * 3)
    ensures z * z * z <= (r * r) * (27 * p)
  {
    Permuted(x, y, w);
    if x <= w && y <= w {
      OrderedTripleReach(z, x, y, w, r, p);
    } else if y <= x && w <= x {
      OrderedTripleReach(z, y, w, x, r, p);
    } else {
      OrderedTripleReach(z, x, w, y, r, p);
    }
  }

  lemma Permuted(x: int, y: int, w: int)
    ensures x * y * w == y * w * x == x * w * y
  {
  }

  lemma OrderedTripleReach(z: nat, x: nat, y: nat, w: nat, r: nat, p: nat)
    requires z <= 3 * w && p == x * y * w && z <= r * (x * 3) && z <= r * (y * 3)
    ensures z * z * z <= (r * r) * (27 * p)
  {
    ProductAtMost(z, r * (x * 3), z, r * (y * 3));
    assert (r * (x * 3)) * (r * (y * 3)) == (r * r) * (9 * (x * y)) by { FourFactors(r, x * 3, r, y * 3); }
    ProductAtMost(z * z, (r * r) * (9 * (x * y)), z, 3 * w);
    FourFactors(r * r, 9 * (x * y), 1, 3 * w);
    assert (9 * (x * y)) * (3 * w) == 27 * p;
  }

  lemma FourFactors(a: int, b: int, c: int, d: int)
    ensures (a * b) * (c * d) == (a * c) * (b * d)
  {
    assert (a * b) * (c * d) == a * (b * (c * d)) == a * (c * (b * d));
  }

  lemma ReachBounds(pool: Pool, z: nat)
    requires pool.Valid() && z <= pool.S()
    ensures forall i :: 0 <= i < |pool.xs| ==> z <= Reach(pool) * (pool.xs[i] * pool.N())
  {
    MulLe(1, Smallest(pool.xs), pool.N());
    forall i | 0 <= i < |pool.xs|
      ensures z <= Reach(pool) * (pool.xs[i] * pool.N())
    {
      SkewBound(pool.S(), pool.N(), Smallest(pool.xs), pool.xs[i]);
    }
  }

  lemma ReachAtLeastTwo(pool: Pool)
    requires pool.Valid()
    ensures Reach(pool) >= 2
  {
    var xs, m := pool.xs, Smallest(pool.xs);
    MulLe(1, m, pool.N());
    assert pool.S() >= pool.N() * m by {
      if |xs| == 2 { PairSum(xs); } else { TripleSum(xs); }
    }
    QuotientAtLeast(pool.S(), pool.N() * m, 1);
  }

  lemma PowerWithinReach(pool: Pool, z: nat)
    requires pool.Valid() && z <= pool.S()
    ensures BalanceOf(pool).W(z) <= (z * BalanceOf(pool).loss) * BalanceOf(pool).k
  {
    var xs, n, r, b := pool.xs, pool.N(), Reach(pool), BalanceOf(pool);
    ReachBounds(pool, z);
    LossOf(r, n);
    if n == 2 {
      PairSum(xs);
      PairDivisor(xs, n);
      PairReach(z, xs[0], xs[1], r);
      PowerFromReach(z, z * z, r, b.loss, b.k);
    } else {
      TripleSum(xs);
      TripleDivisor(xs, n);
      TripleReach(z, xs[0], xs[1], xs[2], r, xs[0] * xs[1] * xs[2]);
      PowerFromReach(z, z * z * z, r * r, b.loss, b.k);
    }
  }

  lemma PowerFromReach(z: nat, w: nat, r: nat, loss: nat, k: nat)
    requires w <= r * k && r <= loss
    ensures w * z <= (z * loss) * k
  {
    MulLe(r, loss, k);
    MulLe(w, loss * k, z);
    assert z * (loss * k) == (z * loss) * k;
  }

  lemma PowerOfSum(pool: Pool)
    requires pool.Valid()
    ensures BalanceOf(pool).k > 0 && BalanceOf(pool).W(pool.S()) >= BalanceOf(pool).k * pool.S()
  {
    var xs, n, s, k := pool.xs, pool.N(), pool.S(), BalanceOf(pool).k;
    MulLe(1, xs[0], xs[1]);
    if n == 2 {
      PairSum(xs);
      PairDivisor(xs, n);
      PairMean(xs[0], xs[1]);
      MulLe(k, s * s, s);
    } else {
      TripleSum(xs);
      TripleDivisor(xs, n);
      MulLe(1, xs[0] * xs[1], xs[2]);
      TripleMean(xs[0], xs[1], xs[2], s, xs[0] * xs[1] * xs[2]);
      MulLe(k, s * s * s, s);
    }
  }

  lemma SteadyIsTame(pool: Pool)
    requires pool.Valid() && Steady(pool)
    ensures BalanceOf(pool).Tame()
  {
    ReachAtLeastTwo(pool);
    LossOf(Reach(pool), pool.N());
    MulLe(0, Reach(pool), Reach(pool));
    PowerOfSum(pool);
    forall z: nat | z <= pool.S()
      ensures BalanceOf(pool).W(z) <= (z * BalanceOf(pool).loss) * BalanceOf(pool).k
    {
      PowerWithinReach(pool, z);
    }
  }

  lemma PowerIsW(b: Balance, d: nat, m: nat)
    requires (b.n == 2 || b.n == 3) && m == b.n + 1
    ensures Power(d, m) == b.W(d)
  {
    var q := d * d;
    assert Power(d, m - b.n) == d * Power(d, m - b.n - 1) == d;
    assert Power(d, m - b.n + 1) == d * Power(d, m - b.n) == q;
    assert Power(d, m - b.n + 2) == d * Power(d, m - b.n + 1) == d * q;
    assert d * q == q * d;
    if b.n == 3 {
      assert Power(d, m) == d * Power(d, m - 1);
      assert d * (q * d) == q * d * d;
    }
  }

  lemma NextIsPass(pool: Pool, d: nat)
    requires pool.Valid() && pool.InRange(d) && d <= pool.S()
    ensures BalanceOf(pool).Pass(d, pool.Product(d), pool.Next(d))
  {
    var b, p := BalanceOf(pool), pool.Product(d);
    ReachBounds(pool, d);
    ProductIsRoundedPower(d, pool.xs, b.n, b.n, Reach(pool));
    PowerIsW(b, d, b.n + 1);
    DenominatorPositive(d, p, b.a, b.n);
    NextTimesDenominator(DNumerator(d, p, b.a, b.s, b.n), DDenominator(d, p, b.a, b.n));
  }

  lemma NextTimesDenominator(num: nat, den: nat)
    requires den > 0
    ensures (num / den) * den <= num < (num / den + 1) * den
  {
    QuotientBounds(num, den);
  }

  // ---------------------------------------------------------------------------------------------
  // The loop settles
  // ---------------------------------------------------------------------------------------------

  /** From within `Room(fuel)` above the integer root the loop leaves by its |delta| <= 1 test, on
      the root or its successor. */
  lemma {:induction false} Lands(pool: Pool, root: nat, d: nat, fuel: nat)
    requires pool.Valid() && BalanceOf(pool).Tame() && IsFloor(BalanceOf(pool), root)
    requires pool.InRange(d) && root <= d <= pool.S() && fuel > 0 && d - root - 1 <= Room(fuel)
    ensures root <= pool.Solve(d, fuel) <= root + 1
    ensures exists k :: 0 <= k < fuel && !MovesAt(pool, d, k)
    decreases fuel
  {
    var next := pool.Next(d);
    pool.NextInRange(d);
    NextIsPass(pool, d);
    PassAdvances(BalanceOf(pool), root, d, pool.Product(d), next);
    if AbsDiff(next, d) <= 1 {
      FirstPass(pool, d);
      assert !MovesAt(pool, d, 0);
    } else {
      if fuel > 1 { RoomStep(fuel, d - root - 1, next - root - 1); }
      Lands(pool, root, next, fuel - 1);
      var k :| 0 <= k < fuel - 1 && !MovesAt(pool, next, k);
      assert !MovesAt(pool, d, k + 1);
    }
  }

  lemma FirstPass(pool: Pool, d: nat)
    requires pool.Valid() && pool.InRange(d)
    ensures Iterate(pool, d, 0) == d && Iterate(pool, d, 1) == pool.Next(d)
  {
    pool.NextInRange(d);
    assert Iterate(pool, pool.Next(d), 0) == pool.Next(d);
  }

  /** `get_d` settles on every steady pool of 128-bit balances, and returns the exact invariant rounded
      down or one more. */
  lemma SteadySettles(pool: Pool)
    requires pool.Valid() && Steady(pool) && pool.S() < 3 * B128
    ensures pool.InRange(pool.S()) && exists k :: 0 <= k < 255 && !MovesAt(pool, pool.S(), k)
    ensures BalanceOf(pool).G(pool.D() - 1) <= 0 < BalanceOf(pool).G(pool.D() + 1)
    ensures exists prev :: NearInvariant(pool, prev, pool.D())
  {
    var fuel := 255;
    StartInRange(pool);
    DIsSolve(pool, fuel);
    SteadyIsTame(pool);
    RoomForWords(fuel);
    SettlesWithin(pool, fuel);
    var prev, exhausted := SolveNearInvariant(pool, pool.S(), fuel);
    var k :| 0 <= k < fuel && !MovesAt(pool, pool.S(), k);
    assert !exhausted;
  }

  lemma DIsSolve(pool: Pool, fuel: nat)
    requires pool.Valid() && fuel == 255
    ensures pool.InRange(pool.S()) && pool.D() == pool.Solve(pool.S(), fuel)
  {
    StartInRange(pool);
  }

  lemma SettlesWithin(pool: Pool, fuel: nat)
    requires pool.Valid() && BalanceOf(pool).Tame() && pool.S() < 3 * B128 && pool.InRange(pool.S())
    requires fuel > 0 && Room(fuel) >= B128
    ensures exists k :: 0 <= k < fuel && !MovesAt(pool, pool.S(), k)
    ensures BalanceOf(pool).G(pool.Solve(pool.S(), fuel) - 1) <= 0 < BalanceOf(pool).G(pool.Solve(pool.S(), fuel) + 1)
  {
    var b := BalanceOf(pool);
    GAtZero(b);
    GAtSum(b);
    var root := SearchDown(b, pool.S());
    FloorBounds(b, root);
    Lands(pool, root, pool.S(), fuel);
    AroundFloor(b, root, pool.Solve(pool.S(), fuel));
  }

  lemma AroundFloor(b: Balance, root: nat, d: nat)
    requires b.Tame() && IsFloor(b, root) && root <= d <= root + 1
    ensures b.G(d - 1) <= 0 < b.G(d + 1)
  {
    PositiveAbove(b, root, d + 1);
    FloorBounds(b, root);
    if d == root { GIncreasing(b, root - 1, root); }
  }

  // ---------------------------------------------------------------------------------------------
  // How the condition compares
  // ---------------------------------------------------------------------------------------------

  /** Amplification above the loss at the skew that bounds every iterate is enough. */
  lemma SkewIsSteady(pool: Pool)
    requires pool.Valid() && pool.S() >= 40 && FloorLoss(Skew(pool), pool.N()) <= pool.ann - 1
    ensures Steady(pool)
  {
    var c := pool.N() * Smallest(pool.xs);
    MulLe(1, Smallest(pool.xs), pool.N());
    TwiceQuotient(pool.S(), c);
    ReachAtLeastTwo(pool);
    TwiceLoss(Reach(pool), Skew(pool), pool.N());
  }

  lemma TwiceQuotient(s: nat, c: nat)
    requires c > 0
    ensures 2 * (s / c) <= 2 * s / c
  {
    QuotientBounds(s, c);
    QuotientAtLeast(2 * s, c, 2 * (s / c));
  }

  lemma TwiceLoss(r: nat, t: nat, n: nat)
    requires (n == 2 || n == 3) && 2 <= r && 2 * r - 1 <= t
    ensures 2 * FloorLoss(r, n) <= FloorLoss(t, n) + 2
  {
    LossOf(r, n);
    LossOf(t, n);
    TwiceSquare(r, t);
  }

  lemma TwiceSquare(r: nat, t: nat)
    requires 2 <= r && 2 * r - 1 <= t
    ensures 2 * (r * r + r + 1) <= t * t + t + 3
  {
    ProductAtMost(2 * r - 1, t, 2 * r - 1, t);
    assert (2 * r - 1) * (2 * r - 1) == 4 * (r * r) - 4 * r + 1;
    MulLe(2, r, r);
  }

  /** From A = 50 on, the low end of the documented range, two coins are steady down to a balance of one
      part in 198 of the sum, three coins down to one in 75. */
  lemma TypicalPoolsSteady(pool: Pool)
    requires pool.Valid() && pool.S() >= 40
    requires pool.ann >= if pool.N() == 2 then 200 else 1350
    requires forall k :: 0 <= k < pool.N() ==> pool.S() < (if pool.N() == 2 then 198 else 75) * pool.xs[k]
    ensures Steady(pool)
  {
    var m, n, r := Smallest(pool.xs), pool.N(), Reach(pool);
    MulLe(1, m, n);
    LossOf(r, n);
    if n == 2 {
      QuotientAtMost(pool.S(), n * m, 98);
    } else {
      QuotientAtMost(pool.S(), n * m, 24);
      ProductAtMost(r, 25, r, 25);
    }
  }

  /** Steadiness is not needed: two equal balances with A = 1 are not steady, yet settle on their sum. */
  lemma UnsteadyCanSettle(pool: Pool, t: nat)
    requires pool.Valid() && pool.xs == [t, t] && pool.ann == 4
    ensures !Steady(pool) && pool.D() == pool.S() && NearInvariant(pool, pool.S(), pool.D())
  {
    EqualBalances(pool, t);
    EqualNext(pool, t);
    ReachAtLeastTwo(pool);
    LossOf(Reach(pool), pool.N());
    CloseStep(pool, pool.S());
  }
}
