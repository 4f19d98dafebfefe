/** Which equation `get_y` solves: the reserve it returns puts the pool back on the Stableswap invariant,
    at the pool's own D, with the amount paid in and the reserve in place of the old balances. */
module SwapInvariant {
  import opened Bits
  import opened Curve
  import opened Settling
  import opened Stableswap
  import opened WordSolver
  import opened Wrappers

  /** The exact invariant's left side for these balances: zero at their real-valued D, negative below. */
  function Imbalance(xs: seq<nat>, ann: nat, d: int): int {
    Balance(|xs|, Divisor(xs, |xs|, |xs|), ann, Sum(xs), 0).G(d)
  }

  lemma ImbalanceOfPool(pool: Pool, d: int)
    requires pool.Valid()
    ensures Imbalance(pool.xs, pool.ann, d) == BalanceOf(pool).G(d)
  {
  }

  // ---------------------------------------------------------------------------------------------
  // One balance singled out
  // ---------------------------------------------------------------------------------------------

  lemma PairOthers(xs: seq<nat>, i: nat, j: nat, x: nat, z: nat)
    requires |xs| == 2 && i < 2 && j < 2 && i != j
    ensures var all, others, n := xs[i := x][j := z], Others(xs, i, j, x), |xs|;
      Sum(all) == Sum(others) + z && Divisor(all, n, n) == (z * n) * Divisor(others, n, n - 1)
  {
    var all, others, n := xs[i := x][j := z], Others(xs, i, j, x), |xs|;
    assert others == [x];
    PairSum(all);
    PairDivisor(all, n);
    AloneOther(others, x, n);
    Fourfold(x, z);
    assert all[0] * all[1] == if i == 0 then x * z else z * x;
  }

  lemma AloneOther(others: seq<nat>, x: nat, n: nat)
    requires others == [x]
    ensures Sum(others) == x && Divisor(others, n, 1) == x * n
  {
    assert Sum(others[..0]) == 0;
    assert Divisor(others, n, 1) == (others[0] * n) * Divisor(others, n, 0);
  }

  lemma Fourfold(x: int, z: int)
    ensures (z * 2) * (x * 2) == 4 * (x * z) == 4 * (z * x)
  {
  }

  lemma TripleOthers(xs: seq<nat>, i: nat, j: nat, x: nat, z: nat)
    requires |xs| == 3 && i < 3 && j < 3 && i != j
    ensures var all, others, n := xs[i := x][j := z], Others(xs, i, j, x), |xs|;
      Sum(all) == Sum(others) + z && Divisor(all, n, n) == (z * n) * Divisor(others, n, n - 1)
  {
    var all, others, n := xs[i := x][j := z], Others(xs, i, j, x), |xs|;
    TripleSum(all);
    TripleDivisor(all, n);
    var a, b := others[0], others[1];
    assert a == all[if j == 0 then 1 else 0] && b == all[if j == 2 then 1 else 2];
    PairSum(others);
    assert Divisor(others, n, n - 2) == (a * n) * Divisor(others, n, n - 3) == a * 3;
    assert Divisor(others, n, n - 1) == (b * 3) * (a * 3);
    NineTimes(a, b, z);
    Permuted(a, b, z);
  }

  lemma NineTimes(a: int, b: int, z: int)
    ensures (z * 3) * ((b * 3) * (a * 3)) == 27 * (a * b * z)
  {
    assert (b * 3) * (a * 3) == 9 * (a * b);
    assert (z * 3) * (9 * (a * b)) == 27 * (a * b * z);
  }

  /** The exact equation at z: above zero on the left of the reserve, below on the right. */
  function Side(d: nat, q: nat, ann: nat, s: nat, a: nat, z: nat): int {
    d * q - (z * a) * (ann * (s + z) - (ann - 1) * d)
  }

  /** With q = d^n and a = n times the other factors of the divisor. */
  lemma Singled(xs: seq<nat>, ann: nat, i: nat, j: nat, x: nat, z: nat, d: nat)
    requires (|xs| == 2 || |xs| == 3) && i < |xs| && j < |xs| && i != j
    ensures var others, n := Others(xs, i, j, x), |xs|;
      Imbalance(xs[i := x][j := z], ann, d)
        == Side(d, Power(d, n), ann, Sum(others), n * Divisor(others, n, |others|), z)
  {
    var all, others, n := xs[i := x][j := z], Others(xs, i, j, x), |xs|;
    if n == 2 { PairOthers(xs, i, j, x, z); } else { TripleOthers(xs, i, j, x, z); }
    var b, p := Balance(n, Divisor(all, n, n), ann, Sum(all), 0), Divisor(others, n, n - 1);
    PowerIsW(b, d, n + 1);
    assert Power(d, n + 1) == d * Power(d, n);
    MulLe(0, p, n);
    BalanceIsSide(b, d, Power(d, n), ann, Sum(others), p, n * p, z);
  }

  lemma BalanceIsSide(b: Balance, d: nat, q: nat, ann: nat, s: nat, p: nat, a: nat, z: nat)
    requires b.W(d) == d * q && b.k == (z * b.n) * p && b.a == ann && b.s == s + z && a == b.n * p
    ensures b.G(d) == Side(d, q, ann, s, a, z)
  {
    SingledTerms(z, b.n, p, ann * (s + z) - (ann - 1) * d);
  }

  lemma SingledTerms(z: int, n: int, p: int, t: int)
    ensures ((z * n) * p) * (-t) == -((z * (n * p)) * t)
  {
    assert (z * n) * p == z * (n * p);
  }

  // ---------------------------------------------------------------------------------------------
  // The settled reserve against the exact equation
  // ---------------------------------------------------------------------------------------------

  /** ann (s + z) - (ann - 1) d against ann (z + b - d), where b has d / ann rounded down. */
  lemma LinearRounded(ann: nat, s: nat, d: nat, z: int, b: nat)
    requires ann > 0 && b == s + d / ann
    ensures ann * (z + b - d) <= ann * (s + z) - (ann - 1) * d < ann * (z + b - d) + ann
  {
    var f := d / ann;
    QuotientBounds(d, ann);
    assert ann * (z + b - d) == ann * (s + z) - ann * d + ann * f;
    assert (ann - 1) * d == ann * d - d;
  }

  /** c (ann n) is at most p d, and one more exceeds it. */
  lemma ConstantRounded(ann: nat, n: nat, p: nat, d: nat, c: nat)
    requires ann > 0 && n > 0 && ann * n > 0 && c == p * d / (ann * n)
    ensures c * (ann * n) <= p * d < (c + 1) * (ann * n)
  {
    MulLe(0, d, p);
    QuotientBounds(p * d, ann * n);
    assert (c + 1) * (ann * n) == c * (ann * n) + ann * n;
  }

  /** The equation's left side at one below y, never more than the power. */
  lemma BelowReserve(d: nat, q: nat, ann: nat, s: nat, n: nat, pp: nat, p: nat, c: nat, b: nat, y: nat)
    requires ann > 0 && n > 0 && ann * n > 0 && y > 0
    requires b == s + d / ann && c == p * d / (ann * n) && p * pp <= q
    requires y + b - d >= 0 && y * (y + b - d) <= c + 1
    ensures ((y - 1) * (n * pp)) * (ann * (s + (y - 1)) - (ann - 1) * d) <= d * q
  {
    var w, t := y + b - d, ann * (s + (y - 1)) - (ann - 1) * d;
    LinearRounded(ann, s, d, y - 1, b);
    assert ann * (w - 1) + ann == ann * w;
    assert (y - 1) * w <= c by { assert (y - 1) * w == y * w - w; }
    MulLe(0, pp, n);
    MulLe(0, n * pp, y - 1);
    MulLe(t, ann * w, (y - 1) * (n * pp));
    ConstantRounded(ann, n, p, d, c);
    BelowTerms(d, q, ann, n, pp, p, c, w, y - 1);
  }

  lemma BelowTerms(d: nat, q: nat, ann: nat, n: nat, pp: nat, p: nat, c: nat, w: nat, z: nat)
    requires z * w <= c && c * (ann * n) <= p * d && p * pp <= q
    ensures (z * (n * pp)) * (ann * w) <= d * q
  {
    assert (z * (n * pp)) * (ann * w) == (z * w) * ((ann * n) * pp) by { FiveFactors(z, n, pp, ann, w); }
    MulLe(0, n, ann);
    MulLe(0, pp, ann * n);
    MulLe(z * w, c, (ann * n) * pp);
    MulLe(c * (ann * n), p * d, pp);
    assert c * ((ann * n) * pp) == (c * (ann * n)) * pp;
    MulLe(p * pp, q, d);
    assert (p * d) * pp == d * (p * pp);
  }

  lemma FiveFactors(z: int, n: int, pp: int, ann: int, w: int)
    ensures (z * (n * pp)) * (ann * w) == (z * w) * ((ann * n) * pp)
  {
    assert (z * (n * pp)) * (ann * w) == (z * w) * ((n * pp) * ann) by { FourFactors(z, n * pp, w, ann); FourFactors(z, w, n * pp, ann); }
    assert (n * pp) * ann == (ann * n) * pp;
  }

  /** How far above y + 1 the exact reserve can lie: what the floors of the constant can take off. */
  function Slack(ann: nat, n: nat, loss: nat, d: nat, y: nat): (slack: nat)
    requires ann > 0 && n > 0
    ensures slack > 0
  {
    MulLe(1, n, ann);
    MulLe(1, y + 1, ann * n);
    MulLe(0, d, loss);
    QuotientAtLeast(loss * d, (ann * n) * (y + 1), 0);
    loss * d / ((ann * n) * (y + 1)) + 1
  }

  lemma AboveReserve(d: nat, q: nat, ann: nat, s: nat, n: nat, pp: nat, p: nat, c: nat, b: nat, y: nat, loss: nat)
    requires ann > 0 && n > 0 && ann * n > 0
    requires b == s + d / ann && c == p * d / (ann * n) && q <= (p + loss) * pp
    requires y + b - d >= 0 && (y + 1) * (y + 1 + b - d) > c
    ensures var z := y + 1 + Slack(ann, n, loss, d, y);
      (z * (n * pp)) * (ann * (s + z) - (ann - 1) * d) >= d * q
  {
    var slack := Slack(ann, n, loss, d, y);
    var z, w := y + 1 + slack, y + 1 + b - d;
    LinearRounded(ann, s, d, z, b);
    MulLe(0, pp, n);
    MulLe(0, n * pp, z);
    MulLe(ann * (w + slack), ann * (s + z) - (ann - 1) * d, z * (n * pp));
    ConstantRounded(ann, n, p, d, c);
    SlackPays(ann, n, loss, d, y);
    WiderProduct(y + 1, w, slack, c);
    AboveTerms(d, q, ann, n, pp, p, c, loss, y + 1, slack, z, w + slack);
  }

  lemma SlackPays(ann: nat, n: nat, loss: nat, d: nat, y: nat)
    requires ann > 0 && n > 0
    ensures loss * d <= (ann * n) * ((y + 1) * Slack(ann, n, loss, d, y))
  {
    MulLe(1, n, ann);
    MulLe(1, y + 1, ann * n);
    MulLe(0, d, loss);
    var den := (ann * n) * (y + 1);
    QuotientBounds(loss * d, den);
    assert (loss * d / den + 1) * den == (loss * d / den) * den + den;
    assert (ann * n) * ((y + 1) * (loss * d / den + 1)) == (loss * d / den + 1) * den;
  }

  lemma WiderProduct(y: nat, w: nat, slack: nat, c: nat)
    requires y * w >= c + 1
    ensures (y + slack) * (w + slack) >= c + 1 + y * slack
  {
    assert (y + slack) * (w + slack) == y * w + y * slack + slack * (w + slack);
    MulLe(0, w + slack, slack);
  }

  lemma AboveTerms(d: nat, q: nat, ann: nat, n: nat, pp: nat, p: nat, c: nat, loss: nat, y: nat, slack: nat, z: nat, w: nat)
    requires z * w >= c + 1 + y * slack && p * d < (c + 1) * (ann * n) && loss * d <= (ann * n) * (y * slack)
    requires q <= (p + loss) * pp
    ensures (z * (n * pp)) * (ann * w) >= d * q
  {
    FiveFactors(z, n, pp, ann, w);
    MulLe(0, n, ann);
    AbovePower(z * w, ann * n, p, d, c, loss, y * slack);
    PowerBelow((z * w), ann * n, p + loss, d, pp, q);
  }

  lemma PowerBelow(zw: int, m: nat, above: nat, d: nat, pp: nat, q: nat)
    requires above * d <= zw * m && q <= above * pp
    ensures d * q <= zw * (m * pp)
  {
    MulLe(above * d, zw * m, pp);
    assert (zw * m) * pp == zw * (m * pp);
    MulLe(q, above * pp, d);
    assert (above * d) * pp == d * (above * pp);
  }

  lemma AbovePower(zw: int, m: nat, p: nat, d: nat, c: nat, loss: nat, ys: int)
    requires zw >= c + 1 + ys && p * d < (c + 1) * m && loss * d <= m * ys
    ensures (p + loss) * d <= zw * m
  {
    MulLe(c + 1 + ys, zw, m);
    assert (c + 1 + ys) * m == (c + 1) * m + m * ys;
  }

  // ---------------------------------------------------------------------------------------------
  // What `get_y` solves
  // ---------------------------------------------------------------------------------------------

  /** A bound on every factor d / (n x_k) of the constant's chain. */
  function Spread(s: Swap): nat
    requires s.Valid() && s.others != []
  {
    MulLe(1, Smallest(s.others), s.n);
    QuotientAtLeast(s.d, s.n * Smallest(s.others), 0);
    s.d / (s.n * Smallest(s.others)) + 1
  }

  function SwapSlack(s: Swap): (slack: nat)
    requires s.Fits() && s.others != []
    ensures slack > 0
  {
    Slack(s.ann, s.n, FloorLoss(Spread(s), |s.others|), s.d, s.Y())
  }

  lemma SpreadBounds(s: Swap)
    requires s.Valid() && s.others != []
    ensures forall k :: 0 <= k < |s.others| ==> s.d <= Spread(s) * (s.others[k] * s.n)
  {
    MulLe(1, Smallest(s.others), s.n);
    forall k | 0 <= k < |s.others| ensures s.d <= Spread(s) * (s.others[k] * s.n) {
      SkewBound(s.d, s.n, Smallest(s.others), s.others[k]);
    }
  }

  lemma ChainBounds(s: Swap)
    requires s.Valid() && s.others != []
    ensures var p, pp := DProduct(s.d, s.d, s.others, s.n, |s.others|), Divisor(s.others, s.n, |s.others|);
      p * pp <= Power(s.d, |s.others| + 1) <= (p + FloorLoss(Spread(s), |s.others|)) * pp
  {
    SpreadBounds(s);
    ProductIsRoundedPower(s.d, s.others, s.n, |s.others|, Spread(s));
  }

  lemma BracketTerms(d: nat, q: nat, ann: nat, s: nat, n: nat, pp: nat, p: nat, e: Quadratic, y: nat, loss: nat,
                     a: nat, slack: nat)
    requires ann > 0 && n > 0 && ann * n > 0 && e.IsRoot(y) && a == n * pp && slack == Slack(ann, n, loss, d, y)
    requires e.b == s + d / ann && e.d == d && e.c == p * d / (ann * n) && p * pp <= q <= (p + loss) * pp
    ensures y > 0 ==> Side(d, q, ann, s, a, y - 1) >= 0
    ensures Side(d, q, ann, s, a, y + 1 + slack) <= 0
  {
    FactorNonNegative(e, y);
    RootSides(e, y);
    if y > 0 { BelowReserve(d, q, ann, s, n, pp, p, e.c, e.b, y); }
    AboveReserve(d, q, ann, s, n, pp, p, e.c, e.b, y, loss);
  }

  ghost predicate Bracketed(s: Swap, y: nat, slack: nat)
    requires s.Valid() && |s.others| == s.n - 1
  {
    var q, a := Power(s.d, s.n), s.n * Divisor(s.others, s.n, |s.others|);
    && (y > 0 ==> Side(s.d, q, s.ann, Sum(s.others), a, y - 1) >= 0)
    && Side(s.d, q, s.ann, Sum(s.others), a, y + 1 + slack) <= 0
  }

  lemma EquationTerms(s: Swap)
    requires s.Fits() && s.others != []
    ensures var e := s.Equation();
      && e.b == Sum(s.others) + s.d / s.ann && e.d == s.d && e.IsRoot(s.Y()) && s.ann * s.n > 0
      && e.c == DProduct(s.d, s.d, s.others, s.n, |s.others|) * s.d / (s.ann * s.n)
  {
    MulLe(1, s.n, s.ann);
  }

  lemma RootBrackets(s: Swap)
    requires s.Fits() && s.others != [] && |s.others| == s.n - 1
    ensures Bracketed(s, s.Y(), SwapSlack(s))
  {
    EquationTerms(s);
    var pp, p, loss := Divisor(s.others, s.n, |s.others|), DProduct(s.d, s.d, s.others, s.n, |s.others|),
      FloorLoss(Spread(s), |s.others|);
    MulLe(0, pp, s.n);
    var a: nat := s.n * pp;
    assert p * pp <= Power(s.d, s.n) <= (p + loss) * pp by { ChainBounds(s); }
    BracketTerms(s.d, Power(s.d, s.n), s.ann, Sum(s.others), s.n, pp, p, s.Equation(), s.Y(), loss, a, SwapSlack(s));
  }

  lemma RootSides(e: Quadratic, y: nat)
    requires e.IsRoot(y)
    ensures y * (y + e.b - e.d) <= e.c + 1 && (y + 1) * (y + 1 + e.b - e.d) > e.c
  {
    assert y * (y + e.b - e.d) == y * y + (e.b - e.d) * y;
    assert (y + 1) * (y + 1 + e.b - e.d) == (y + 1) * (y + 1) + (e.b - e.d) * (y + 1);
  }

  /** At the pool's own D, with x in place of coin i's balance, the exact invariant changes sign as coin
      j's balance goes from one below y to `slack` and one above it. */
  ghost predicate OnInvariant(pool: Pool, i: nat, j: nat, x: nat, y: nat, slack: nat)
    requires pool.Valid() && i < pool.N() && j < pool.N()
  {
    && (y > 0 ==> Imbalance(pool.xs[i := x][j := y - 1], pool.ann, pool.D()) >= 0)
    && Imbalance(pool.xs[i := x][j := y + 1 + slack], pool.ann, pool.D()) <= 0
  }

  /** What `get_y` returns for a fitting swap puts the pool back on its invariant, up to the floors. */
  lemma ReserveOnInvariant(pool: Pool, i: nat, j: nat, x: nat)
    requires SwapFits(pool, i, j, x)
    ensures var s := SwapOf(pool, i, j, x);
      WordY(pool, i, j, x) == Some(s.Y()) && OnInvariant(pool, i, j, x, s.Y(), SwapSlack(s))
  {
    var s := SwapOf(pool, i, j, x);
    FitsWordY(pool, i, j, x);
    RootBrackets(s);
    SidesAreImbalances(pool, i, j, x, s.Y(), SwapSlack(s));
  }

  lemma SidesAreImbalances(pool: Pool, i: nat, j: nat, x: nat, y: nat, slack: nat)
    requires pool.Valid() && i < pool.N() && j < pool.N() && i != j
    requires SwapOf(pool, i, j, x).Valid() && Bracketed(SwapOf(pool, i, j, x), y, slack)
    ensures OnInvariant(pool, i, j, x, y, slack)
  {
    if y > 0 { Singled(pool.xs, pool.ann, i, j, x, y - 1, pool.D()); }
    Singled(pool.xs, pool.ann, i, j, x, y + 1 + slack, pool.D());
  }

  /** The change of sign is the only one: past a reserve that is too large every larger one is. */
  lemma ImbalanceFalls(pool: Pool, i: nat, j: nat, x: nat, lo: nat, hi: nat, d: nat)
    requires pool.Valid() && i < pool.N() && j < pool.N() && i != j && x > 0 && d > 0 && lo < hi
    requires Imbalance(pool.xs[i := x][j := lo], pool.ann, d) <= 0
    ensures Imbalance(pool.xs[i := x][j := hi], pool.ann, d) < 0
  {
    var others, n := Others(pool.xs, i, j, x), pool.N();
    Singled(pool.xs, pool.ann, i, j, x, lo, d);
    Singled(pool.xs, pool.ann, i, j, x, hi, d);
    PowerPositive(d, n);
    DivisorPositive(others, n, |others|);
    MulLe(1, Divisor(others, n, |others|), n);
    SideFalls(d, Power(d, n), pool.ann, Sum(others), n * Divisor(others, n, |others|), lo, hi);
  }

  lemma SideFalls(d: nat, q: nat, ann: nat, s: nat, a: nat, lo: nat, hi: nat)
    requires d > 0 && q > 0 && a > 0 && lo < hi && Side(d, q, ann, s, a, lo) <= 0
    ensures Side(d, q, ann, s, a, hi) < 0
  {
    MulLe(1, q, d);
    MulLe(s + lo, s + hi, ann);
    MulLe(0, a, lo);
    MulLe(lo + 1, hi, a);
    FactorsPositive(lo * a, ann * (s + lo) - (ann - 1) * d, d * q);
    ProductGrows(lo * a, ann * (s + lo) - (ann - 1) * d, hi * a, ann * (s + hi) - (ann - 1) * d);
  }

  lemma ProductGrows(x: nat, t: int, x': nat, t': int)
    requires x < x' && 0 < t <= t'
    ensures x * t < x' * t'
  {
    MulLe(x + 1, x', t);
    MulLe(t, t', x');
  }

  lemma FactorsPositive(x: nat, t: int, m: nat)
    requires m > 0 && x * t >= m
    ensures t > 0
  {
    if t <= 0 {
      MulLe(t, 0, x);
      assert false;
    }
  }

  lemma {:induction false} PowerPositive(d: nat, k: nat)
    requires d > 0
    ensures Power(d, k) > 0
  {
    if k > 0 {
      PowerPositive(d, k - 1);
      MulLe(1, d, Power(d, k - 1));
    }
  }

  lemma {:induction false} DivisorPositive(xs: seq<nat>, n: nat, k: nat)
    requires AllPositive(xs) && n > 0 && k <= |xs|
    ensures Divisor(xs, n, k) > 0
  {
    if k > 0 {
      DivisorPositive(xs, n, k - 1);
      MulLe(1, n, xs[k - 1]);
      MulLe(1, Divisor(xs, n, k - 1), xs[k - 1] * n);
    }
  }

  // ---------------------------------------------------------------------------------------------
  // Paying in nothing
  // ---------------------------------------------------------------------------------------------

  /** Around d the power grows by less than five parts in d. */
  lemma PowerSteps(b: Balance, d: nat)
    requires (b.n == 2 || b.n == 3) && d >= 26
    ensures d * (b.W(d) - b.W(d - 1)) <= 5 * b.W(d - 1)
    ensures d * (b.W(d + 1) - b.W(d)) <= 5 * b.W(d - 1)
  {
    var e := d - 1;
    if b.n == 2 { CubeSteps(e, e * e); } else { FourthSteps(e, e * e, e * e * e); }
  }

  lemma CubeSteps(e: nat, q: nat)
    requires e >= 25 && q == e * e
    ensures (e + 1) * ((e + 1) * (e + 1) * (e + 1) - e * e * e) <= 5 * (e * e * e)
    ensures (e + 1) * ((e + 2) * (e + 2) * (e + 2) - (e + 1) * (e + 1) * (e + 1)) <= 5 * (e * e * e)
  {
    var c := q * e;
    MulLe(25, e, e);
    MulLe(25, e, q);
    assert (e + 1) * (e + 1) * (e + 1) == c + 3 * q + 3 * e + 1;
    assert (e + 2) * (e + 2) * (e + 2) == c + 6 * q + 12 * e + 8;
    assert (e + 1) * (3 * q + 3 * e + 1) == 3 * c + 6 * q + 4 * e + 1;
    assert (e + 1) * (3 * q + 9 * e + 7) == 3 * c + 12 * q + 16 * e + 7;
  }

  lemma FourthSteps(e: nat, q: nat, c: nat)
    requires e >= 25 && q == e * e && c == e * e * e
    ensures (e + 1) * ((e + 1) * (e + 1) * (e + 1) * (e + 1) - e * e * e * e) <= 5 * (e * e * e * e)
    ensures (e + 1) * ((e + 2) * (e + 2) * (e + 2) * (e + 2) - (e + 1) * (e + 1) * (e + 1) * (e + 1)) <= 5 * (e * e * e * e)
  {
    var f := c * e;
    MulLe(25, e, e);
    MulLe(25, e, q);
    MulLe(25, e, c);
    FourthPowers(e, q, c, f);
    assert (e + 1) * (4 * c + 6 * q + 4 * e + 1) == 4 * f + 10 * c + 10 * q + 5 * e + 1;
    assert (e + 1) * (4 * c + 18 * q + 28 * e + 15) == 4 * f + 22 * c + 46 * q + 43 * e + 15;
  }

  lemma FourthPowers(e: int, q: int, c: int, f: int)
    requires q == e * e && c == q * e && f == c * e
    ensures (e + 1) * (e + 1) * (e + 1) * (e + 1) == f + 4 * c + 6 * q + 4 * e + 1
    ensures (e + 2) * (e + 2) * (e + 2) * (e + 2) == f + 8 * c + 24 * q + 32 * e + 16
  {
    assert (e + 1) * (e + 1) * (e + 1) == c + 3 * q + 3 * e + 1;
    assert (e + 2) * (e + 2) * (e + 2) == c + 6 * q + 12 * e + 8;
  }

  /** A growth of five parts in d is at most eight slopes of the single balance. */
  lemma GrowthBound(d: nat, g: int, w: nat, z: nat, a: nat, u: nat)
    requires d > 0 && d * g <= 5 * w && w <= (z * a) * u && 5 * z <= 8 * d
    ensures g <= a * (8 * u)
  {
    MulLe(0, u, a);
    MulLe(5 * z, 8 * d, a * u);
    assert (z * a) * u == z * (a * u);
    assert (5 * z) * (a * u) == 5 * (z * (a * u));
    assert (8 * d) * (a * u) == (a * (8 * u)) * d;
    CancelFactor(g, a * (8 * u), d);
  }

  /** Moving the single balance by delta, with t = Ann (s + z) - (Ann - 1) d. */
  lemma SideMoves(d: nat, q: nat, ann: nat, s: nat, a: nat, z: nat, delta: nat)
    ensures var t := ann * (s + z) - (ann - 1) * d;
      && Side(d, q, ann, s, a, z + delta) == Side(d, q, ann, s, a, z) - a * (delta * (ann * (z + delta) + t))
      && (z >= delta ==>
            Side(d, q, ann, s, a, z - delta) == Side(d, q, ann, s, a, z) + a * (delta * (ann * (z - delta) + t)))
  {
    var t := ann * (s + z) - (ann - 1) * d;
    MovedTerm(a, ann, z, delta, t);
    assert ann * (s + (z + delta)) == ann * (s + z) + ann * delta;
    if z >= delta {
      var down: int := 0 - delta;
      MovedTerm(a, ann, z, down, t);
      assert ann * down == -(ann * delta) && a * (down * (ann * (z + down) + t)) == -(a * (delta * (ann * (z - delta) + t))) by {
        Negated(a, delta, ann * (z - delta) + t);
      }
      assert ann * (s + (z - delta)) == ann * (s + z) - ann * delta;
    }
  }

  lemma MovedTerm(a: int, ann: int, z: int, e: int, t: int)
    ensures ((z + e) * a) * (t + ann * e) == (z * a) * t + a * (e * (ann * (z + e) + t))
  {
    assert ((z + e) * a) * (t + ann * e) == a * ((z + e) * (t + ann * e));
    assert (z + e) * (t + ann * e) == z * t + e * t + (z + e) * (ann * e);
    assert (z + e) * (ann * e) == e * (ann * (z + e));
    assert (z * a) * t == a * (z * t);
  }

  lemma Negated(a: int, x: int, y: int)
    ensures a * ((0 - x) * y) == -(a * (x * y))
  {
    assert (0 - x) * y == -(x * y);
  }

  /** Weighing an inequality between the factors of a. */
  lemma Weigh(a: nat, x: int, y: int, v: int)
    requires a > 0 && x > y + v
    ensures a * x > a * y + a * v
  {
    MulLe(y + v + 1, x, a);
    Collect(a, y, v);
    Collect(a, y + v, 1);
  }

  lemma EightSlopes(ann: nat, z: nat, t: nat)
    requires ann >= 2
    ensures 8 * (ann * (z + 8) + t) > 8 * (t + ann - 1) + z * (ann - 1)
  {
    MulLe(0, z, ann);
    assert ann * (z + 8) == ann * z + 8 * ann && z * (ann - 1) == ann * z - z;
  }

  lemma TenSlopes(ann: nat, z: nat, t: nat)
    requires ann >= 2 && z >= 12
    ensures 10 * (ann * (z - 10) + t) > 8 * (t + ann - 1) + z * (ann - 1)
  {
    MulLe(12, z, ann);
    assert ann * (z - 10) == ann * z - 10 * ann && z * (ann - 1) == ann * z - z;
  }

  /** Eight above the balance at rest the equation is below zero. */
  lemma EightAbove(d: nat, q: nat, ann: nat, s: nat, a: nat, z: nat, t: nat, g: int)
    requires ann >= 2 && a > 0 && t == ann * (s + z) - (ann - 1) * d
    requires Side(d, q, ann, s, a, z) <= g + a * (z * (ann - 1)) && g <= a * (8 * (t + ann - 1))
    ensures Side(d, q, ann, s, a, z + 8) < 0
  {
    SideMoves(d, q, ann, s, a, z, 8);
    EightSlopes(ann, z, t);
    Weigh(a, 8 * (ann * (z + 8) + t), 8 * (t + ann - 1), z * (ann - 1));
  }

  /** Ten below it the equation is above zero. */
  lemma TenBelow(d: nat, q: nat, ann: nat, s: nat, a: nat, z: nat, t: nat, g: int)
    requires ann >= 2 && a > 0 && t == ann * (s + z) - (ann - 1) * d && z >= 12
    requires Side(d, q, ann, s, a, z) > -(g + a * (z * (ann - 1))) && g <= a * (8 * (t + ann - 1))
    ensures Side(d, q, ann, s, a, z - 10) > 0
  {
    SideMoves(d, q, ann, s, a, z, 10);
    TenSlopes(ann, z, t);
    Weigh(a, 10 * (ann * (z - 10) + t), 8 * (t + ann - 1), z * (ann - 1));
  }

  /** A pool's own balance j, singled out. */
  lemma AtRest(pool: Pool, i: nat, j: nat)
    requires pool.Valid() && i < pool.N() && j < pool.N() && i != j
    ensures var others, n := Others(pool.xs, i, j, pool.xs[i]), pool.N();
      && AllPositive(others) && pool.S() == Sum(others) + pool.xs[j]
      && BalanceOf(pool).k == pool.xs[j] * (n * Divisor(others, n, |others|))
  {
    var xs, n, z := pool.xs, pool.N(), pool.xs[j];
    assert xs[i] > 0 && xs[i := xs[i]][j := z] == xs;
    if n == 2 { PairOthers(xs, i, j, xs[i], z); } else { TripleOthers(xs, i, j, xs[i], z); }
    Regrouped(z, n, Divisor(Others(xs, i, j, xs[i]), n, n - 1));
  }

  lemma Regrouped(z: int, n: int, p: int)
    ensures (z * n) * p == z * (n * p)
  {
  }

  /** What the settled D of a steady pool says of its neighbours' size. */
  lemma SteadySize(b: Balance, d: nat)
    requires b.Tame() && d > 0 && b.G(d - 1) <= 0 < b.G(d + 1)
    ensures d >= 26 && 10 * b.s <= 16 * d
  {
    var root: nat := if b.G(d) <= 0 then d else d - 1;
    FloorBounds(b, root);
  }

  /** How far the settled D leaves the invariant from zero. */
  lemma SettledGaps(b: Balance, d: nat)
    requires b.Tame() && d > 0 && b.G(d - 1) <= 0 < b.G(d + 1)
    ensures b.G(d) <= b.W(d) - b.W(d - 1) + b.k * (b.a - 1)
    ensures b.G(d) > -(b.W(d + 1) - b.W(d) + b.k * (b.a - 1))
    ensures b.W(d - 1) <= b.k * (b.a * b.s - (b.a - 1) * d + b.a - 1)
  {
    LinearPart(b.k, b.a - 1, b.a * b.s, d, d - 1);
    LinearPart(b.k, b.a - 1, b.a * b.s, d + 1, d);
    var u := b.a * b.s - (b.a - 1) * d + b.a - 1;
    assert (b.a - 1) * (d - 1) == (b.a - 1) * d - (b.a - 1);
    assert b.k * (-u) == -(b.k * u);
  }

  /** Around its own balance j the pool's equation is below zero eight above, and above zero ten below. */
  ghost predicate RestBrackets(pool: Pool, j: nat)
    requires pool.Valid() && j < pool.N()
  {
    && Imbalance(pool.xs[j := pool.xs[j] + 8], pool.ann, pool.D()) < 0
    && (pool.xs[j] >= 12 ==> Imbalance(pool.xs[j := pool.xs[j] - 10], pool.ann, pool.D()) > 0)
  }

  /** What a settled D of a steady pool says of its equation: how far G is from zero there, and how far
      one unit of D moves it. */
  ghost predicate Resting(b: Balance, d: nat) {
    && d > 0 && 10 * b.s <= 16 * d && (b.a - 1) * d <= b.a * b.s
    && b.G(d) <= b.W(d) - b.W(d - 1) + b.k * (b.a - 1) && b.G(d) > -(b.W(d + 1) - b.W(d) + b.k * (b.a - 1))
    && 0 <= b.W(d - 1) <= b.k * (b.a * b.s - (b.a - 1) * d + b.a - 1)
    && d * (b.W(d) - b.W(d - 1)) <= 5 * b.W(d - 1) && d * (b.W(d + 1) - b.W(d)) <= 5 * b.W(d - 1)
  }

  lemma RestMoves(b: Balance, d: nat, q: nat, s: nat, a: nat, z: nat)
    requires b.a >= 2 && a > 0 && b.k == z * a && b.s == s + z && 5 * z <= 8 * d && Resting(b, d)
    requires Side(d, q, b.a, s, a, z) == b.G(d)
    ensures Side(d, q, b.a, s, a, z + 8) < 0
    ensures z >= 12 ==> Side(d, q, b.a, s, a, z - 10) > 0
  {
    RestMovesBy(d, q, b.a, s, a, z, b.a * b.s - (b.a - 1) * d, b.G(d), b.W(d) - b.W(d - 1), b.W(d + 1) - b.W(d), b.W(d - 1));
  }

  lemma RestMovesBy(d: nat, q: nat, ann: nat, s: nat, a: nat, z: nat, t: nat, g: int, down: int, up: int, w: nat)
    requires ann >= 2 && a > 0 && d > 0 && 5 * z <= 8 * d && t == ann * (s + z) - (ann - 1) * d
    requires Side(d, q, ann, s, a, z) == g && g <= down + (z * a) * (ann - 1) && g > -(up + (z * a) * (ann - 1))
    requires w <= (z * a) * (t + ann - 1) && d * down <= 5 * w && d * up <= 5 * w
    ensures Side(d, q, ann, s, a, z + 8) < 0
    ensures z >= 12 ==> Side(d, q, ann, s, a, z - 10) > 0
  {
    GrowthBound(d, down, w, z, a, t + ann - 1);
    GrowthBound(d, up, w, z, a, t + ann - 1);
    Reassociate(z, a, ann - 1);
    EightAbove(d, q, ann, s, a, z, t, down);
    if z >= 12 { TenBelow(d, q, ann, s, a, z, t, up); }
  }

  lemma RestingSides(pool: Pool, i: nat, j: nat)
    requires pool.Valid() && Steady(pool) && pool.S() < 3 * B128 && i < pool.N() && j < pool.N() && i != j
    ensures var others, n, d, z := Others(pool.xs, i, j, pool.xs[i]), pool.N(), pool.D(), pool.xs[j];
      var q, a := Power(d, n), n * Divisor(others, n, |others|);
      && Side(d, q, pool.ann, Sum(others), a, z + 8) < 0
      && (z >= 12 ==> Side(d, q, pool.ann, Sum(others), a, z - 10) > 0)
  {
    var others, n, d, z, b := Others(pool.xs, i, j, pool.xs[i]), pool.N(), pool.D(), pool.xs[j], BalanceOf(pool);
    RestFacts(pool);
    AtRest(pool, i, j);
    RestSide(pool, i, j);
    DivisorPositive(others, n, |others|);
    MulLe(1, Divisor(others, n, |others|), n);
    EachAtMostSum(pool.xs, j);
    RestMoves(b, d, Power(d, n), Sum(others), n * Divisor(others, n, |others|), z);
  }

  lemma RestFacts(pool: Pool)
    requires pool.Valid() && Steady(pool) && pool.S() < 3 * B128
    ensures Resting(BalanceOf(pool), pool.D())
  {
    var b, d := BalanceOf(pool), pool.D();
    SteadySettles(pool);
    SteadyIsTame(pool);
    SteadySize(b, d);
    SettledGaps(b, d);
    PowerSteps(b, d);
    PowerMonotone(b, 0, d - 1);
  }

  lemma RestSide(pool: Pool, i: nat, j: nat)
    requires pool.Valid() && i < pool.N() && j < pool.N() && i != j
    ensures var others, n := Others(pool.xs, i, j, pool.xs[i]), pool.N();
      Side(pool.D(), Power(pool.D(), n), pool.ann, Sum(others), n * Divisor(others, n, |others|), pool.xs[j])
        == BalanceOf(pool).G(pool.D())
  {
    assert pool.xs[i := pool.xs[i]][j := pool.xs[j]] == pool.xs;
    Singled(pool.xs, pool.ann, i, j, pool.xs[i], pool.xs[j], pool.D());
    ImbalanceOfPool(pool, pool.D());
  }

  lemma SteadyAtRest(pool: Pool, i: nat, j: nat)
    requires pool.Valid() && Steady(pool) && pool.S() < 3 * B128 && i < pool.N() && j < pool.N() && i != j
    ensures RestBrackets(pool, j)
  {
    var z := pool.xs[j];
    RestingSides(pool, i, j);
    assert pool.xs[i := pool.xs[i]] == pool.xs;
    Singled(pool.xs, pool.ann, i, j, pool.xs[i], z + 8, pool.D());
    if z >= 12 { Singled(pool.xs, pool.ann, i, j, pool.xs[i], z - 10, pool.D()); }
  }

  /** Paying in nothing: on a steady pool `get_y` returns coin j's own balance, within eight units above
      and ten plus the slack below. */
  lemma NothingInNothingOut(pool: Pool, i: nat, j: nat)
    requires pool.Valid() && Steady(pool) && pool.S() < 3 * B128
    requires i < pool.N() && SwapFits(pool, i, j, pool.xs[i])
    ensures var s := SwapOf(pool, i, j, pool.xs[i]);
      && WordY(pool, i, j, pool.xs[i]) == Some(s.Y())
      && s.Y() <= pool.xs[j] + 8 && pool.xs[j] <= s.Y() + 10 + SwapSlack(s)
  {
    ReserveOnInvariant(pool, i, j, pool.xs[i]);
    SteadyAtRest(pool, i, j);
    var s := SwapOf(pool, i, j, pool.xs[i]);
    var y, slack := s.Y(), SwapSlack(s);
    RestAgainst(pool, i, j, y, slack);
  }

  lemma RestAgainst(pool: Pool, i: nat, j: nat, y: nat, slack: nat)
    requires pool.Valid() && i < pool.N() && j < pool.N() && i != j && slack > 0
    requires OnInvariant(pool, i, j, pool.xs[i], y, slack) && RestBrackets(pool, j)
    ensures y <= pool.xs[j] + 8 && pool.xs[j] <= y + 10 + slack
  {
    var z, x := pool.xs[j], pool.xs[i];
    assert pool.xs[i := x] == pool.xs && x > 0;
    if y > z + 9 { ImbalanceFalls(pool, i, j, x, z + 8, y - 1, pool.D()); }
    if z > y + 10 + slack && y + 1 + slack < z - 10 { ImbalanceFalls(pool, i, j, x, y + 1 + slack, z - 10, pool.D()); }
  }
}
