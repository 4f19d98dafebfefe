/** The Stableswap recurrences over unbounded integers: what the 256-bit solver computes when no
    intermediate wraps, and the facts about its roots that survive floor rounding. */
module Stableswap {
  import opened Bits
  import opened Wrappers

  function AbsDiff(a: nat, b: nat): nat { if a > b then a - b else b - a }

  // ---------------------------------------------------------------------------------------------
  // The invariant D
  // ---------------------------------------------------------------------------------------------

  function Sum(xs: seq<nat>): (s: nat)
  {
    if |xs| == 0 then 0 else Sum(xs[..|xs| - 1]) + xs[|xs| - 1]
  }

  predicate AllPositive(xs: seq<nat>) { forall k :: 0 <= k < |xs| ==> xs[k] > 0 }

  /** `d_p` after the first k balances: k floor-rounded multiply-divide steps from `d`. */
  function DProduct(seed: nat, d: nat, xs: seq<nat>, n: nat, k: nat): nat
    requires k <= |xs| && n > 0 && AllPositive(xs)
  {
    if k == 0 then seed
    else
      assert xs[k - 1] * n > 0 by { MulLe(1, n, xs[k - 1]); }
      DProduct(seed, d, xs, n, k - 1) * d / (xs[k - 1] * n)
  }

  function DNumerator(d: nat, p: nat, ann: nat, s: nat, n: nat): nat { (ann * s + p * n) * d }

  function DDenominator(d: nat, p: nat, ann: nat, n: nat): nat
    requires ann >= 1
  {
    (ann - 1) * d + (n + 1) * p
  }

  /** One Newton step of `get_d` from `d`, given its `d_p`. */
  function DNext(d: nat, p: nat, ann: nat, s: nat, n: nat): nat
    requires ann >= 2 && d > 0
  {
    DenominatorPositive(d, p, ann, n);
    DNumerator(d, p, ann, s, n) / DDenominator(d, p, ann, n)
  }

  lemma DenominatorPositive(d: nat, p: nat, ann: nat, n: nat)
    requires ann >= 2 && d > 0
    ensures DDenominator(d, p, ann, n) > 0
  {
    MulLe(1, ann - 1, d);
    MulLe(0, n + 1, p);
  }

  /** The pool parameters `get_d` is called with; `ann` is A * n^n, so it is at least 4 once A >= 1. */
  datatype Pool = Pool(xs: seq<nat>, ann: nat) {
    ghost predicate Valid() { (|xs| == 2 || |xs| == 3) && AllPositive(xs) && ann >= 2 }

    function N(): nat { |xs| }

    function S(): nat { Sum(xs) }

    function Product(d: nat): nat
      requires Valid()
    {
      DProduct(d, d, xs, N(), N())
    }

    function Next(d: nat): nat
      requires Valid() && d > 0
    {
      DNext(d, Product(d), ann, S(), N())
    }

    /** Every iterate stays in (0, Ann * S / (Ann - 1)]. */
    ghost predicate InRange(d: nat) { d > 0 && ann >= 1 && (ann - 1) * d <= ann * S() }

    /** The value `get_d` returns: iterate until two consecutive values differ by at most one. */
    function Solve(d: nat, fuel: nat): nat
      requires Valid() && InRange(d)
      decreases fuel
    {
      if fuel == 0 then d
      else
        var next := Next(d);
        NextInRange(d);
        if AbsDiff(next, d) <= 1 then next else Solve(next, fuel - 1)
    }

    /** `get_d`: start from the sum, at most 255 steps. */
    function D(): (d: nat)
      requires Valid()
      ensures InRange(d)
    {
      StartInRange(this);
      SolveInRange(this, S(), 255);
      Solve(S(), 255)
    }

    lemma NextInRange(d: nat)
      requires Valid() && InRange(d)
      ensures InRange(Next(d))
    {
      var p, den := Product(d), DDenominator(d, Product(d), ann, N());
      SumPositive(xs);
      NumeratorBound(d, p, ann, S(), N());
      DenominatorPositive(d, p, ann, N());
      ScaledQuotient(ann - 1, DNumerator(d, p, ann, S(), N()), den, ann * S());
      UnitProduct(xs, N(), N());
      NextPositive(d, p, ann, S(), N());
    }
  }

  lemma {:induction false} SolveInRange(pool: Pool, d: nat, fuel: nat)
    requires pool.Valid() && pool.InRange(d)
    ensures pool.InRange(pool.Solve(d, fuel))
    decreases fuel
  {
    if fuel > 0 {
      pool.NextInRange(d);
      if AbsDiff(pool.Next(d), d) > 1 { SolveInRange(pool, pool.Next(d), fuel - 1); }
    }
  }

  lemma {:induction false} SumPositive(xs: seq<nat>)
    requires |xs| > 0 && AllPositive(xs)
    ensures Sum(xs) > 0
  {
  }

  /** The mediant bound: numerator / denominator is at most Ann * S / (Ann - 1). */
  lemma NumeratorBound(d: nat, p: nat, ann: nat, s: nat, n: nat)
    requires ann >= 2 && d > 0 && (ann - 1) * d <= ann * s
    ensures (ann - 1) * DNumerator(d, p, ann, s, n) <= (ann * s) * DDenominator(d, p, ann, n)
  {
    var a, t := ann - 1, ann * s;
    // a * (t + p n) * d <= t * (a d + (n + 1) p), because a d <= t
    var pn := p * n;
    assert a * ((t + pn) * d) == (a * d) * t + (a * d) * pn by { Rearrange(a, t, pn, d); }
    assert t * (a * d + (n + 1) * p) == t * (a * d) + t * pn + t * p by { Expand(t, a * d, n, p); }
    MulLe(a * d, t, pn) by { MulLe(0, n, p); }
    MulLe(0, p, t);
  }

  lemma Rearrange(a: int, t: int, q: int, d: int)
    ensures a * ((t + q) * d) == (a * d) * t + (a * d) * q
  {
    assert (t + q) * d == t * d + q * d;
    assert a * (t * d) == (a * d) * t;
    assert a * (q * d) == (a * d) * q;
    assert a * (t * d + q * d) == a * (t * d) + a * (q * d);
  }

  lemma Expand(t: int, u: int, n: int, p: int)
    ensures t * (u + (n + 1) * p) == t * u + t * (p * n) + t * p
  {
    assert (n + 1) * p == p * n + p;
    assert t * (u + (p * n + p)) == t * u + t * (p * n) + t * p;
  }

  lemma ScaledQuotient(a: nat, num: nat, den: nat, t: nat)
    requires den > 0 && a * num <= t * den
    ensures a * (num / den) <= t
  {
    QuotientBounds(num, den);
    MulLe((num / den) * den, num, a);
    assert a * ((num / den) * den) == (a * (num / den)) * den;
    CancelFactor(a * (num / den), t, den);
  }

  /** From d == 1 every floor-rounded product step gives zero. */
  lemma {:induction false} UnitProduct(xs: seq<nat>, n: nat, k: nat)
    requires n >= 2 && AllPositive(xs) && k <= |xs|
    ensures DProduct(1, 1, xs, n, k) == if k == 0 then 1 else 0
  {
    if k > 0 {
      UnitProduct(xs, n, k - 1);
      MulLe(1, xs[k - 1], n);
      var x := xs[k - 1] * n;
      DivUnique(0, x, 0, 0);
      DivUnique(1, x, 0, 1);
    }
  }

  lemma NextPositive(d: nat, p: nat, ann: nat, s: nat, n: nat)
    requires ann >= 2 && d > 0 && s > 0 && n >= 2
    requires d == 1 ==> p == 0
    ensures DNext(d, p, ann, s, n) > 0
  {
    DenominatorPositive(d, p, ann, n);
    var num, den := DNumerator(d, p, ann, s, n), DDenominator(d, p, ann, n);
    assert num == (ann * s) * d + (p * n) * d;
    MulLe(1, s, ann);
    MulLe(ann - 1, ann * s, d);
    assert (p * n) * d >= (n + 1) * p by {
      if d >= 2 {
        MulLe(0, n, p);
        MulLe(2, d, p * n);
        assert 2 * (p * n) == (2 * n) * p;
        MulLe(n + 1, 2 * n, p);
      }
    }
    QuotientAtLeast(num, den, 1);
  }

  // -- leaving the loop ---------------------------------------------------------------------------

  /** `prev * f(prev)` for f(d) = d_p + (Ann - 1) d - Ann S, whose root is the invariant D. */
  function Residual(pool: Pool, d: nat): int
    requires pool.Valid()
  {
    d * (pool.Product(d) + (pool.ann - 1) * d - pool.ann * pool.S())
  }

  /** What holds of the last two iterates when `get_d` leaves through its |delta| <= 1 test. */
  ghost predicate NearInvariant(pool: Pool, prev: nat, d: nat) {
    && pool.Valid() && pool.InRange(prev) && pool.InRange(d)
    && AbsDiff(d, prev) <= 1
    && var den := DDenominator(prev, pool.Product(prev), pool.ann, pool.N());
       -2 * den < Residual(pool, prev) <= den
  }

  lemma StepResidual(d: nat, p: nat, ann: nat, s: nat, n: nat)
    requires ann >= 1
    ensures d * DDenominator(d, p, ann, n) - DNumerator(d, p, ann, s, n) == d * (p + (ann - 1) * d - ann * s)
  {
    var u, t := (ann - 1) * d, ann * s;
    assert (n + 1) * p == p * n + p;
    var pn := p * n;
    assert d * (u + (pn + p)) == d * u + d * pn + d * p;
    assert (t + pn) * d == d * t + d * pn;
    assert d * (p + u - t) == d * p + d * u - d * t;
  }

  lemma CloseStep(pool: Pool, prev: nat)
    requires pool.Valid() && pool.InRange(prev) && AbsDiff(pool.Next(prev), prev) <= 1
    ensures NearInvariant(pool, prev, pool.Next(prev))
  {
    pool.NextInRange(prev);
    var p, next := pool.Product(prev), pool.Next(prev);
    var num := DNumerator(prev, p, pool.ann, pool.S(), pool.N());
    var den := DDenominator(prev, p, pool.ann, pool.N());
    DenominatorPositive(prev, p, pool.ann, pool.N());
    StepResidual(prev, p, pool.ann, pool.S(), pool.N());
    QuotientBounds(num, den);
    MulLe(prev - 1, next, den);
    MulLe(next, prev + 1, den);
    assert (prev - 1) * den == prev * den - den && (prev + 1) * den == prev * den + den;
  }

  /** Whatever `get_d` returns before its 255 steps run out comes with a previous iterate next to it
      at which the invariant's residual is within two denominators of zero. */
  lemma {:induction false} SolveNearInvariant(pool: Pool, d: nat, fuel: nat) returns (prev: nat, exhausted: bool)
    requires pool.Valid() && pool.InRange(d)
    ensures pool.InRange(pool.Solve(d, fuel))
    ensures !exhausted ==> NearInvariant(pool, prev, pool.Solve(d, fuel))
    ensures exhausted ==> forall k :: 0 <= k < fuel ==> MovesAt(pool, d, k)
    decreases fuel
  {
    if fuel == 0 {
      return d, true;
    }
    pool.NextInRange(d);
    var next := pool.Next(d);
    if AbsDiff(next, d) <= 1 {
      CloseStep(pool, d);
      return d, false;
    }
    prev, exhausted := SolveNearInvariant(pool, next, fuel - 1);
    if exhausted {
      forall k | 0 <= k < fuel
        ensures MovesAt(pool, d, k)
      {
        if k > 0 { assert MovesAt(pool, next, k - 1); }
      }
    }
  }

  /** The k-th iterate of the loop body, ignoring its exit. */
  function Iterate(pool: Pool, d: nat, k: nat): nat
    requires pool.Valid() && pool.InRange(d)
    decreases k
  {
    if k == 0 then d
    else
      pool.NextInRange(d);
      Iterate(pool, pool.Next(d), k - 1)
  }

  lemma {:induction false} IteratesAtMostTwiceSum(pool: Pool, d: nat, k: nat)
    requires pool.Valid() && pool.InRange(d)
    ensures pool.InRange(Iterate(pool, d, k)) && Iterate(pool, d, k) <= 2 * pool.S()
    decreases k
  {
    if k == 0 {
      AtMostTwiceSum(pool, d);
    } else {
      pool.NextInRange(d);
      IteratesAtMostTwiceSum(pool, pool.Next(d), k - 1);
    }
  }

  lemma AtMostTwiceSum(pool: Pool, d: nat)
    requires pool.Valid() && pool.InRange(d)
    ensures d <= 2 * pool.S()
  {
    var a, s := pool.ann - 1, pool.S();
    MulLe(1, a, s);
    assert pool.ann * s == a * s + s;
    assert (2 * s) * a == 2 * (a * s);
    CancelFactor(d, 2 * s, a);
  }

  lemma StartInRange(pool: Pool)
    requires pool.Valid()
    ensures pool.InRange(pool.S())
  {
    SumPositive(pool.xs);
    MulLe(pool.ann - 1, pool.ann, pool.S());
  }

  /** A pool holding the same amount of every coin has D equal to the plain sum. */
  lemma EqualBalances(pool: Pool, t: nat)
    requires pool.Valid() && forall k :: 0 <= k < |pool.xs| ==> pool.xs[k] == t
    ensures pool.D() == pool.S() == pool.N() * t
  {
    EqualNext(pool, t);
    EqualSum(pool.xs, t);
  }

  lemma EqualNext(pool: Pool, t: nat)
    requires pool.Valid() && forall k :: 0 <= k < |pool.xs| ==> pool.xs[k] == t
    ensures pool.InRange(pool.S()) && pool.Next(pool.S()) == pool.S()
  {
    StartInRange(pool);
    var xs, n, s := pool.xs, pool.N(), pool.S();
    EqualSum(xs, t);
    EqualProduct(xs, t, n, s, n);
    var num, den := DNumerator(s, s, pool.ann, s, n), DDenominator(s, s, pool.ann, n);
    StepResidual(s, s, pool.ann, s, n);
    assert s + (pool.ann - 1) * s - pool.ann * s == 0 by { assert pool.ann * s == (pool.ann - 1) * s + s; }
    DenominatorPositive(s, s, pool.ann, n);
    DivUnique(num, den, s, 0);
  }

  lemma {:induction false} EqualSum(xs: seq<nat>, t: nat)
    requires forall k :: 0 <= k < |xs| ==> xs[k] == t
    ensures Sum(xs) == |xs| * t
  {
    if |xs| > 0 {
      EqualSum(xs[..|xs| - 1], t);
      assert |xs| * t == (|xs| - 1) * t + t;
    }
  }

  lemma {:induction false} EqualProduct(xs: seq<nat>, t: nat, n: nat, s: nat, k: nat)
    requires t > 0 && n > 0 && s == n * t && k <= |xs|
    requires forall i :: 0 <= i < |xs| ==> xs[i] == t
    ensures DProduct(s, s, xs, n, k) == s
  {
    if k > 0 {
      EqualProduct(xs, t, n, s, k - 1);
      assert t * n == s;
      DivUnique(s * s, s, s, 0);
    }
  }

  /** The k-th pass from d moves by more than one, so the loop does not leave there. */
  ghost predicate MovesAt(pool: Pool, d: nat, k: nat)
    requires pool.Valid() && pool.InRange(d)
  {
    AbsDiff(Iterate(pool, d, k + 1), Iterate(pool, d, k)) > 1
  }

  ghost predicate NeverSettles(pool: Pool, d: nat)
    requires pool.Valid() && pool.InRange(d)
  {
    forall k: nat :: MovesAt(pool, d, k)
  }

  ghost predicate SkewedPair(pool: Pool) { |pool.xs| == 2 && pool.xs[0] == 584 && pool.xs[1] == 1 && pool.ann == 4 }

  /** Not every pool converges: two coins at 584 and 1 with A = 1 reach a cycle of two values that
      differ by two, so `get_d` runs all of its 255 steps. */
  lemma NewtonCanCycle(pool: Pool)
    requires SkewedPair(pool)
    ensures pool.Valid() && pool.InRange(pool.S()) && NeverSettles(pool, pool.S())
  {
    PairSum(pool.xs);
    StartInRange(pool);
    forall k: nat
      ensures MovesAt(pool, pool.S(), k)
    {
      IterateIsSkewed(pool, pool.S(), k);
      IterateIsSkewed(pool, pool.S(), k + 1);
      SkewedMoves(pool.S(), k);
    }
  }

  /** The Newton step of the skewed pair, and its iterates. */
  function SkewedStep(d: int): int {
    var p := d * d / 1168 * d / 2;
    if 3 * d + 3 * p <= 0 then 0 else ((2340 + p * 2) * d) / (3 * d + 3 * p)
  }

  function SkewedIterate(d: int, k: nat): int
    decreases k
  {
    if k == 0 then d else SkewedIterate(SkewedStep(d), k - 1)
  }

  lemma {:induction false} IterateIsSkewed(pool: Pool, d: nat, k: nat)
    requires SkewedPair(pool) && pool.Valid() && pool.InRange(d)
    ensures Iterate(pool, d, k) == SkewedIterate(d, k)
    decreases k
  {
    if k > 0 {
      PairSum(pool.xs);
      PairNext(pool, d);
      pool.NextInRange(d);
      IterateIsSkewed(pool, pool.Next(d), k - 1);
    }
  }

  lemma SkewedStepAt(d: nat, a: nat, p: nat, next: nat)
    requires d > 0 && a * 1168 <= d * d < a * 1168 + 1168 && p * 2 <= a * d < p * 2 + 2
    requires next * (3 * d + 3 * p) <= (2340 + p * 2) * d < next * (3 * d + 3 * p) + (3 * d + 3 * p)
    ensures SkewedStep(d) == next
  {
    DivUnique(d * d, 1168, a, d * d - a * 1168);
    DivUnique(a * d, 2, p, a * d - p * 2);
    DivUnique((2340 + p * 2) * d, 3 * d + 3 * p, next, (2340 + p * 2) * d - next * (3 * d + 3 * p));
  }

  lemma SkewedDescent()
    ensures SkewedStep(585) == 392 && SkewedStep(392) == 269 && SkewedStep(269) == 198
    ensures SkewedStep(198) == 169 && SkewedStep(169) == 164
  {
    SkewedStepAt(585, 293, 85702, 392);
    SkewedStepAt(392, 131, 25676, 269);
    SkewedStepAt(269, 61, 8204, 198);
    SkewedStepAt(198, 33, 3267, 169);
    SkewedStepAt(169, 24, 2028, 164);
  }

  lemma SkewedLoop()
    ensures SkewedStep(164) == 162 && SkewedStep(162) == 164
  {
    SkewedStepAt(164, 23, 1886, 162);
    SkewedStepAt(162, 22, 1782, 164);
  }

  /** 585, 392, 269, 198, 169, then 164 and 162 for ever. */
  function SkewedValue(k: nat): nat {
    if k == 0 then 585 else if k == 1 then 392 else if k == 2 then 269 else if k == 3 then 198
    else if k == 4 then 169 else if k % 2 == 1 then 164 else 162
  }

  lemma SkewedTail(i: nat)
    requires i >= 5
    ensures SkewedValue(i) == if i % 2 == 1 then 164 else 162
  {
  }

  lemma SkewedSucceeds(i: nat)
    ensures SkewedStep(SkewedValue(i)) == SkewedValue(i + 1)
  {
    if i < 5 {
      SkewedDescent();
    } else {
      SkewedLoop();
      SkewedTail(i);
      SkewedTail(i + 1);
    }
  }

  lemma {:induction false} SkewedFrom(i: nat, k: nat)
    ensures SkewedIterate(SkewedValue(i), k) == SkewedValue(i + k)
    decreases k
  {
    if k > 0 {
      SkewedSucceeds(i);
      SkewedFrom(i + 1, k - 1);
    }
  }

  lemma SkewedMoves(d: nat, k: nat)
    requires d == SkewedValue(0)
    ensures SkewedIterate(d, k) - SkewedIterate(d, k + 1) > 1 || SkewedIterate(d, k + 1) - SkewedIterate(d, k) > 1
  {
    SkewedFrom(0, k);
    SkewedFrom(0, k + 1);
    ValuesMove(k);
  }

  lemma ValuesMove(k: nat)
    ensures SkewedValue(k) - SkewedValue(k + 1) > 1 || SkewedValue(k + 1) - SkewedValue(k) > 1
  {
  }

  lemma PairSum(xs: seq<nat>)
    requires |xs| == 2
    ensures Sum(xs) == xs[0] + xs[1]
  {
    assert Sum(xs[..1]) == xs[0];
  }

  lemma PairNext(pool: Pool, d: nat)
    requires SkewedPair(pool) && pool.Valid() && d > 0
    ensures pool.Next(d) == SkewedStep(d)
  {
    PairSum(pool.xs);
    assert DProduct(d, d, pool.xs, 2, 1) == DProduct(d, d, pool.xs, 2, 0) * d / 1168;
    assert DProduct(d, d, pool.xs, 2, 2) == DProduct(d, d, pool.xs, 2, 1) * d / 2;
    DenominatorPositive(d, pool.Product(d), 4, 2);
  }

  // -- when no intermediate of `get_d` reaches 2^256 -----------------------------------------------

  function Smallest(xs: seq<nat>): (m: nat)
    requires |xs| > 0
    ensures forall i :: 0 <= i < |xs| ==> m <= xs[i]
    ensures m in xs
  {
    if |xs| == 1 then xs[0]
    else
      var m := Smallest(xs[..|xs| - 1]);
      if m <= xs[|xs| - 1] then m else xs[|xs| - 1]
  }

  /** How far the smallest balance lies below the mean: every factor d / (n x_i) is at most this. */
  function Skew(pool: Pool): nat
    requires pool.Valid()
  {
    MulLe(1, Smallest(pool.xs), pool.N());
    2 * pool.S() / (pool.N() * Smallest(pool.xs)) + 1
  }

  /** A bound on every product the 256-bit Newton step forms, computable from the balances alone. */
  ghost predicate Fits(pool: Pool, limit: nat)
    requires pool.Valid()
  {
    (pool.ann + 2 * pool.N() * Power(Skew(pool), pool.N())) * (pool.S() * (2 * pool.S())) < limit
  }

  lemma SkewBounds(pool: Pool, d: nat)
    requires pool.Valid() && d <= 2 * pool.S()
    ensures forall i :: 0 <= i < |pool.xs| ==> d <= Skew(pool) * (pool.xs[i] * pool.N())
  {
    MulLe(1, Smallest(pool.xs), pool.N());
    forall i | 0 <= i < |pool.xs|
      ensures d <= Skew(pool) * (pool.xs[i] * pool.N())
    {
      SkewBound(2 * pool.S(), pool.N(), Smallest(pool.xs), pool.xs[i]);
    }
  }

  lemma SkewBound(t: nat, n: nat, m: nat, x: nat)
    requires 0 < n * m && m <= x
    ensures t <= (t / (n * m) + 1) * (x * n)
  {
    var r := t / (n * m) + 1;
    QuotientBounds(t, n * m);
    assert (r - 1) * (n * m) + n * m == r * (n * m);
    MulLe(m, x, n);
    MulLe(n * m, x * n, r);
  }

  lemma {:induction false} ProductGrowth(d: nat, xs: seq<nat>, n: nat, k: nat, r: nat)
    requires n > 0 && AllPositive(xs) && k <= |xs| && r >= 1
    requires forall i :: 0 <= i < |xs| ==> d <= r * (xs[i] * n)
    ensures DProduct(d, d, xs, n, k) <= d * Power(r, k)
  {
    if k > 0 {
      ProductGrowth(d, xs, n, k - 1, r);
      MulLe(1, n, xs[k - 1]);
      GrowthStep(DProduct(d, d, xs, n, k - 1), d, xs[k - 1] * n, r, Power(r, k - 1));
    }
  }

  lemma GrowthStep(q: nat, d: nat, m: nat, r: nat, pw: nat)
    requires m > 0 && q <= d * pw && d <= r * m
    ensures q * d / m <= d * (r * pw)
  {
    QuotientAtMost(q * d, m, q * r) by {
      MulLe(d, r * m, q);
      assert q * (r * m) == (q * r) * m;
    }
    MulLe(q, d * pw, r);
    assert (d * pw) * r == d * (r * pw);
  }

  lemma {:induction false} PowerMono(r: nat, a: nat, b: nat)
    requires r >= 1 && a <= b
    ensures 1 <= Power(r, a) <= Power(r, b)
  {
    if b > 0 {
      if a < b {
        PowerMono(r, a, b - 1);
        MulLe(1, r, Power(r, b - 1));
      } else {
        PowerMono(r, a - 1, b - 1);
        MulLe(1, r, Power(r, b - 1));
      }
    }
  }

  /** In a fitting pool no multiply-divide chain from an iterate reaches the limit ... */
  lemma ProductsFit(pool: Pool, d: nat, limit: nat)
    requires pool.Valid() && pool.InRange(d) && Fits(pool, limit)
    ensures forall k :: 0 <= k <= pool.N() ==> DProduct(d, d, pool.xs, pool.N(), k) * d < limit
    ensures pool.Product(d) <= d * Power(Skew(pool), pool.N())
  {
    AtMostTwiceSum(pool, d);
    SkewBounds(pool, d);
    forall k | 0 <= k <= pool.N()
      ensures DProduct(d, d, pool.xs, pool.N(), k) * d < limit
    {
      ProductGrowth(d, pool.xs, pool.N(), k, Skew(pool));
      PowerMono(Skew(pool), k, pool.N());
      MulLe(Power(Skew(pool), k), Power(Skew(pool), pool.N()), d);
      PartFits(pool.ann, pool.N(), pool.S(), Power(Skew(pool), pool.N()), d, DProduct(d, d, pool.xs, pool.N(), k), limit);
    }
    ProductGrowth(d, pool.xs, pool.N(), pool.N(), Skew(pool));
  }

  /** ... and neither do the numerator, the denominator or their parts. */
  lemma StepFits(pool: Pool, d: nat, limit: nat)
    requires pool.Valid() && pool.InRange(d) && Fits(pool, limit)
    ensures pool.ann * pool.S() + pool.Product(d) * pool.N() < limit
    ensures DNumerator(d, pool.Product(d), pool.ann, pool.S(), pool.N()) < limit
    ensures DDenominator(d, pool.Product(d), pool.ann, pool.N()) < limit
  {
    AtMostTwiceSum(pool, d);
    ProductsFit(pool, d, limit);
    SumPositive(pool.xs);
    var n, s, rn := pool.N(), pool.S(), Power(Skew(pool), pool.N());
    var ws := (pool.ann + 2 * n * rn) * s;
    SumBound(pool.ann, n, s, rn, d, pool.Product(d));
    ScaledFits(pool.ann + 2 * n * rn, s, limit);
    NumeratorFits(pool.ann, n, s, d, pool.Product(d), ws, limit);
    DenominatorFits(pool.ann, n, s, d, pool.Product(d), ws, limit);
  }

  lemma PartFits(ann: nat, n: nat, s: nat, rn: nat, d: nat, p: nat, limit: nat)
    requires (ann + 2 * n * rn) * (s * (2 * s)) < limit
    requires n >= 1 && d <= 2 * s && p <= d * rn
    ensures p * d < limit
  {
    var ss, w := s * (2 * s), 2 * n * rn;
    MulLe(d, 2 * s, rn);
    MulLe(p, (2 * s) * rn, d);
    MulLe(d, 2 * s, (2 * s) * rn);
    assert ((2 * s) * rn) * (2 * s) == (2 * rn) * ss;
    assert w == n * (2 * rn);
    MulLe(1, n, 2 * rn);
    MulLe(2 * rn, ann + w, ss);
  }

  lemma ScaledFits(w: nat, s: nat, limit: nat)
    requires w * (s * (2 * s)) < limit && s >= 1
    ensures (w * s) * (2 * s) < limit && 2 * (w * s) < limit
  {
    assert (w * s) * (2 * s) == w * (s * (2 * s));
    MulLe(0, s, w);
    MulLe(2, 2 * s, w * s);
  }

  lemma NumeratorFits(ann: nat, n: nat, s: nat, d: nat, p: nat, ws: nat, limit: nat)
    requires ann * s + p * n <= ws && d <= 2 * s && ws * (2 * s) < limit
    ensures DNumerator(d, p, ann, s, n) < limit
  {
    ProductAtMost(ann * s + p * n, ws, d, 2 * s);
  }

  lemma DenominatorFits(ann: nat, n: nat, s: nat, d: nat, p: nat, ws: nat, limit: nat)
    requires ann * s + p * n <= ws && 2 * ws < limit && n >= 1
    requires ann >= 1 && (ann - 1) * d <= ann * s
    ensures DDenominator(d, p, ann, n) < limit
  {
    MulLe(1, n, p);
    MulLe(0, s, ann);
    assert (n + 1) * p == p * n + p;
  }

  lemma ProductAtMost(a: nat, b: nat, c: nat, d: nat)
    requires a <= b && c <= d
    ensures a * c <= b * d
  {
    MulLe(a, b, c);
    MulLe(c, d, b);
  }

  lemma SumBound(ann: nat, n: nat, s: nat, rn: nat, d: nat, p: nat)
    requires d <= 2 * s && p <= d * rn
    ensures ann * s + p * n <= (ann + 2 * n * rn) * s
  {
    MulLe(d, 2 * s, rn);
    MulLe(p, (2 * s) * rn, n);
    assert ((2 * s) * rn) * n == (2 * n * rn) * s;
    assert (ann + 2 * n * rn) * s == ann * s + (2 * n * rn) * s;
  }

  // -- floors inside d_p --------------------------------------------------------------------------

  function Power(b: nat, k: nat): nat { if k == 0 then 1 else b * Power(b, k - 1) }

  /** n * x_1 * ... * n * x_k, the exact divisor of the first k steps. */
  function Divisor(xs: seq<nat>, n: nat, k: nat): nat
    requires k <= |xs|
  {
    if k == 0 then 1 else (xs[k - 1] * n) * Divisor(xs, n, k - 1)
  }

  /** 1 + r + ... + r^(k-1): what k floors can lose when every factor d / (n x_i) is at most r. */
  function FloorLoss(r: nat, k: nat): nat { if k == 0 then 0 else r * FloorLoss(r, k - 1) + 1 }

  /** `d_p` is the exact d^(k+1) / (n^k x_1 .. x_k) rounded down, off by at most `FloorLoss`. */
  lemma {:induction false} ProductIsRoundedPower(d: nat, xs: seq<nat>, n: nat, k: nat, r: nat)
    requires n > 0 && AllPositive(xs) && k <= |xs|
    requires forall i :: 0 <= i < |xs| ==> d <= r * (xs[i] * n)
    ensures DProduct(d, d, xs, n, k) * Divisor(xs, n, k) <= Power(d, k + 1)
    ensures Power(d, k + 1) <= (DProduct(d, d, xs, n, k) + FloorLoss(r, k)) * Divisor(xs, n, k)
  {
    if k == 0 {
      assert Power(d, 1) == d * Power(d, 0) == d;
    } else {
      ProductIsRoundedPower(d, xs, n, k - 1, r);
      MulLe(1, n, xs[k - 1]);
      RoundedStep(d, xs[k - 1] * n, DProduct(d, d, xs, n, k - 1), Divisor(xs, n, k - 1), Power(d, k), FloorLoss(r, k - 1), r);
    }
  }

  lemma RoundedStep(d: nat, m: nat, q: nat, c: nat, e: nat, loss: nat, r: nat)
    requires m > 0 && d <= r * m && q * c <= e <= (q + loss) * c
    ensures (q * d / m) * (m * c) <= d * e <= (q * d / m + (r * loss + 1)) * (m * c)
  {
    var t := q * d / m;
    QuotientBounds(q * d, m);
    MulLe(t * m, q * d, c);
    assert t * (m * c) == (t * m) * c;
    assert (q * d) * c == d * (q * c);
    MulLe(q * c, e, d);
    MulLe(e, (q + loss) * c, d);
    assert d * ((q + loss) * c) == (q * d + loss * d) * c;
    MulLe(d, r * m, loss);
    assert loss * (r * m) == (r * loss) * m;
    MulLe(q * d + loss * d, t * m + m + (r * loss) * m, c);
    assert (t * m + m + (r * loss) * m) * c == (t + (r * loss + 1)) * (m * c) by { Regroup(t, r * loss, m, c); }
  }

  lemma Regroup(t: int, u: int, m: int, c: int)
    ensures (t * m + m + u * m) * c == (t + (u + 1)) * (m * c)
  {
    assert t * m + m + u * m == (t + (u + 1)) * m;
    assert ((t + (u + 1)) * m) * c == (t + (u + 1)) * (m * c);
  }

  // ---------------------------------------------------------------------------------------------
  // The output reserve y
  // ---------------------------------------------------------------------------------------------

  /** The quadratic y^2 + (b - d) y = c whose root `get_y` looks for. */
  datatype Quadratic = Quadratic(b: nat, d: nat, c: nat) {

    function Slope(y: nat): int { 2 * y + b - d }

    function G(y: int): int { y * y + (b - d) * y }

    /** One pass of the loop; None is the early return on a denominator that is not positive. */
    function Step(y: nat): Option<nat> {
      if Slope(y) <= 0 then None else Some((y * y + c) / Slope(y))
    }

    function Solve(y: nat, fuel: nat): Option<nat>
      decreases fuel
    {
      if fuel == 0 then Some(y)
      else match Step(y)
        case None => None
        case Some(next) => if AbsDiff(next, y) <= 1 then Some(next) else Solve(next, fuel - 1)
    }

    /** No root lies at or above y + 1, and the next denominator is positive. */
    ghost predicate AboveRoot(y: nat) { G(y + 1) > c && Slope(y) > 0 }

    /** y is the floor of the root, or one above it with the equation missed by exactly one. */
    ghost predicate IsRoot(y: nat) { G(y) <= c + 1 && G(y + 1) > c }

    ghost predicate IsFloorRoot(y: nat) { G(y) <= c < G(y + 1) }
  }

  /** (next + 1 - y)^2 >= 0 keeps every computed value at or above the floor root. */
  lemma StepAboveRoot(q: Quadratic, y: nat)
    requires q.Slope(y) > 0
    ensures q.G(q.Step(y).value + 1) > q.c
    ensures AbsDiff(q.Step(y).value, y) <= 1 ==> q.G(q.Step(y).value) <= q.c + 1
  {
    var m := q.Slope(y);
    var next := (y * y + q.c) / m;
    QuotientBounds(y * y + q.c, m);
    assert next * m + m == (next + 1) * m;
    GAgainstTangent(q, y, next + 1);
    GAgainstTangent(q, y, next);
    SquareNonNegative(next + 1 - y);
    if AbsDiff(next, y) <= 1 {
      UnitSquare(next - y);
    }
  }

  lemma GAgainstTangent(q: Quadratic, y: nat, z: int)
    ensures q.G(z) == z * q.Slope(y) - y * y + (z - y) * (z - y)
  {
    var e := q.b - q.d;
    assert z * (2 * y + e) == 2 * (z * y) + e * z;
    assert (z - y) * (z - y) == z * z - 2 * (z * y) + y * y;
  }

  lemma SquareNonNegative(x: int)
    ensures x * x >= 0
  {
    if x >= 0 { MulLe(0, x, x); } else { assert x * x == (-x) * (-x); MulLe(0, -x, -x); }
  }

  lemma UnitSquare(x: int)
    requires -1 <= x <= 1
    ensures x * x <= 1
  {
  }

  /** A value above the root has a non-negative linear factor. */
  lemma FactorNonNegative(q: Quadratic, y: nat)
    requires q.G(y + 1) > q.c
    ensures y + q.b - q.d >= 0
  {
    var t := y + 1 + q.b - q.d;
    assert q.G(y + 1) == (y + 1) * t;
    if t <= 0 {
      MulLe(t, 0, y + 1);
      assert false;
    }
  }

  /** After a step that moves by more than one, the loop never meets a non-positive denominator. */
  lemma StepKeepsSlope(q: Quadratic, y: nat)
    requires q.Slope(y) > 0 && AbsDiff(q.Step(y).value, y) > 1
    ensures q.AboveRoot(q.Step(y).value)
  {
    StepAboveRoot(q, y);
    var next := q.Step(y).value;
    FactorNonNegative(q, next);
    if next == 0 && q.b == q.d {
      MulLe(2, y, y);
      QuotientAtLeast(y * y + q.c, 2 * y, 1);
      assert false;
    }
  }

  /** Above the root a step raises the value by at most one, so iterates only fall until the exit. */
  lemma StepAtMostNext(q: Quadratic, y: nat)
    requires q.AboveRoot(y)
    ensures q.Step(y).value <= y + 1
  {
    GAgainstTangent(q, y, y + 1);
    QuotientAtMost(y * y + q.c, q.Slope(y), y + 1);
  }

  function FloorRoot(q: Quadratic, y: nat): (r: nat)
    requires q.G(y + 1) > q.c
    ensures r <= y && q.IsFloorRoot(r)
  {
    if q.G(y) <= q.c then y else FloorRoot(q, y - 1)
  }

  lemma GIncreases(q: Quadratic, lo: nat, hi: nat)
    requires q.G(lo + 1) > q.c && lo < hi
    ensures q.G(hi) >= q.G(lo + 1) + (hi - lo - 1)
  {
    FactorNonNegative(q, lo);
    var gap, f := hi - lo - 1, hi + lo + 1 + q.b - q.d;
    assert q.G(hi) - q.G(lo + 1) == gap * f by { FactorDifference(hi, lo + 1, q.b - q.d); }
    MulLe(1, f, gap);
  }

  lemma FactorDifference(x: int, y: int, e: int)
    ensures (x * x + e * x) - (y * y + e * y) == (x - y) * (x + y + e)
  {
    assert (x - y) * (x + y + e) == x * (x + y + e) - y * (x + y + e);
    assert x * (x + y + e) == x * x + x * y + x * e;
    assert y * (x + y + e) == y * x + y * y + y * e;
  }

  /** The distance above the floor root at least halves with every step. */
  lemma StepHalvesDistance(q: Quadratic, y: nat, root: nat)
    requires q.AboveRoot(y) && q.IsFloorRoot(root) && y >= root
    ensures q.Step(y).value >= root
    ensures y <= root + 1 ==> q.Step(y).value <= root + 1
    ensures y > root + 1 ==> 2 * (q.Step(y).value - root - 1) <= y - root - 1
  {
    var m, next := q.Slope(y), q.Step(y).value;
    StepAboveRoot(q, y);
    if next < root {
      GIncreases(q, next, root);
      assert false;
    }
    TangentGap(q, y, root);
    FactorNonNegative(q, root);
    var f := y - root - 1;
    if f > 0 {
      Halve(next - root - 1, m, f);
    } else if next > root + 1 {
      MulLe(1, next - root - 1, m);
      UnitSquare(f);
      assert false;
    }
  }

  lemma TangentGap(q: Quadratic, y: nat, root: nat)
    requires q.Slope(y) > 0 && q.G(root + 1) > q.c
    ensures (q.Step(y).value - root - 1) * q.Slope(y) < (y - root - 1) * (y - root - 1)
  {
    var m, next := q.Slope(y), q.Step(y).value;
    QuotientBounds(y * y + q.c, m);
    GAgainstTangent(q, y, root + 1);
    OppositeSquares(y, root + 1);
    GapBelow(next, m, root + 1, y * y, q.c, (y - root - 1) * (y - root - 1));
  }

  lemma OppositeSquares(x: int, y: int)
    ensures (x - y) * (x - y) == (y - x) * (y - x)
  {
  }

  lemma GapBelow(next: int, m: int, r: int, yy: int, c: int, square: int)
    requires next * m <= yy + c && c < r * m - yy + square
    ensures (next - r) * m < square
  {
    assert (next - r) * m == next * m - r * m;
  }

  lemma Halve(g: int, m: int, f: int)
    requires f > 0 && m >= 2 * f && g * m < f * f
    ensures 2 * g <= f
  {
    if 2 * g > f {
      MulLe(2 * f, m, g);
      assert g * (2 * f) == (2 * g) * f;
      MulLe(f, 2 * g, f);
      assert false;
    }
  }

  /** From within 2^k of the root, k + 1 steps suffice to leave by the |delta| <= 1 test. */
  lemma {:induction false} Converges(q: Quadratic, y: nat, root: nat, k: nat, fuel: nat)
    requires q.AboveRoot(y) && q.IsFloorRoot(root) && root <= y < root + 1 + Pow2(k) && fuel > k
    ensures q.Solve(y, fuel).Some? && q.IsRoot(q.Solve(y, fuel).value)
    decreases fuel
  {
    StepAboveRoot(q, y);
    StepHalvesDistance(q, y, root);
    var next := q.Step(y).value;
    if AbsDiff(next, y) > 1 {
      StepKeepsSlope(q, y);
      Converges(q, next, root, k - 1, fuel - 1);
    }
  }

  /** `get_y`'s loop, whatever its start: it never takes the denominator exit and never runs out of
      steps, and what it returns is the floor of the root or one above it. */
  lemma SolveFindsRoot(q: Quadratic, limitBits: nat)
    requires q.d + q.b > 0 && limitBits < 254 && q.Step(q.d).value < Pow2(limitBits)
    ensures q.Solve(q.d, 255).Some? && q.IsRoot(q.Solve(q.d, 255).value)
  {
    StepAboveRoot(q, q.d);
    var next := q.Step(q.d).value;
    if AbsDiff(next, q.d) > 1 {
      StepKeepsSlope(q, q.d);
      Converges(q, next, FloorRoot(q, next), limitBits, 254);
    }
  }

  lemma RootIsFloorOrNext(q: Quadratic, y: nat)
    requires q.IsRoot(y)
    ensures q.IsFloorRoot(y) || (y > 0 && q.G(y) == q.c + 1 && q.IsFloorRoot(y - 1))
  {
    if q.G(y) == q.c + 1 {
      var r := FloorRoot(q, y);
      if r < y {
        GIncreases(q, r, y);
      }
      if r + 1 < y {
        assert false;
      }
    }
  }

  /** A larger linear term or a smaller constant never raises the returned root by more than one. */
  lemma RootNearMonotone(q1: Quadratic, q2: Quadratic, y1: nat, y2: nat)
    requires q1.d == q2.d && q1.b <= q2.b && q2.c <= q1.c
    requires q1.IsRoot(y1) && q2.IsRoot(y2)
    ensures y2 <= y1 + 1
  {
    if y2 > y1 + 1 {
      MulLe(q1.b - q1.d, q2.b - q2.d, y1 + 1);
      assert q2.G(y1 + 1) >= q1.G(y1 + 1);
      GIncreases(q2, y1, y2);
      assert false;
    }
  }

  /** Larger balances never give a larger product of floor-rounded quotients. */
  lemma {:induction false} ProductAntitone(seed: nat, d: nat, xs: seq<nat>, ys: seq<nat>, n: nat, k: nat)
    requires n > 0 && AllPositive(xs) && |xs| == |ys| && k <= |xs|
    requires forall i :: 0 <= i < |xs| ==> xs[i] <= ys[i]
    ensures AllPositive(ys) && DProduct(seed, d, ys, n, k) <= DProduct(seed, d, xs, n, k)
  {
    if k > 0 {
      ProductAntitone(seed, d, xs, ys, n, k - 1);
      MulLe(DProduct(seed, d, ys, n, k - 1), DProduct(seed, d, xs, n, k - 1), d);
      MulLe(1, n, xs[k - 1]);
      MulLe(xs[k - 1], ys[k - 1], n);
      QuotientMono(DProduct(seed, d, ys, n, k - 1) * d, DProduct(seed, d, xs, n, k - 1) * d, ys[k - 1] * n, xs[k - 1] * n);
    }
  }

  lemma QuotientMono(a: nat, b: nat, p: nat, q: nat)
    requires a <= b && 0 < q <= p
    ensures a / p <= b / q
  {
    QuotientBounds(a, p);
    MulLe(q, p, a / p);
    QuotientAtLeast(b, q, a / p);
  }
}
