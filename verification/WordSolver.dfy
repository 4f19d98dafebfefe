/** What the Stableswap solvers compute on 256-bit words for every input, wrapping included, and when
    that is what the unbounded recurrences say. */
module WordSolver {
  import opened Bits
  import opened Stableswap
  import opened Uint256
  import opened Wrappers

  // ---------------------------------------------------------------------------------------------
  // Words
  // ---------------------------------------------------------------------------------------------

  /** A value cut to 256 bits. */
  function Cut(x: int): (r: nat)
    ensures r == x % B256
  {
    if 0 <= x < B256 then
      ModSmall(x, B256);
      x
    else x % B256
  }

  function Quotient(num: nat, den: nat): (r: nat)
    requires den > 0
    ensures r * den <= num < r * den + den
  {
    QuotientBounds(num, den);
    num / den
  }

  lemma ModMul(x: int, d: int, m: int)
    requires m > 0
    ensures (x % m) * d % m == x * d % m
  {
    assert x == m * (x / m) + x % m;
    assert (m * (x / m) + x % m) * d == (x % m) * d + ((x / m) * d) * m;
    ModPlus(x * d, (x % m) * d, (x / m) * d, m);
  }

  lemma ModAdd(x: int, y: int, m: int)
    requires m > 0
    ensures (x % m + y % m) % m == (x + y) % m
  {
    assert x == m * (x / m) + x % m && y == m * (y / m) + y % m;
    ModPlus(x + y, x % m + y % m, x / m + y / m, m);
  }

  // ---------------------------------------------------------------------------------------------
  // The invariant D
  // ---------------------------------------------------------------------------------------------

  /** The first k multiply-divide steps, each product cut to 256 bits. */
  function WordChain(seed: nat, d: nat, xs: seq<nat>, n: nat, k: nat): nat
    requires k <= |xs| && n > 0 && AllPositive(xs)
  {
    if k == 0 then seed
    else
      assert xs[k - 1] * n > 0 by { MulLe(1, n, xs[k - 1]); }
      Quotient(Cut(WordChain(seed, d, xs, n, k - 1) * d), xs[k - 1] * n)
  }

  function WordDenominator(d: nat, p: nat, ann: nat, n: nat): nat { Cut((ann - 1) * d + (n + 1) * p) }

  /** One pass of `get_d`; None is the return on a zero denominator. */
  function WordNext(pool: Pool, d: nat): Option<nat>
    requires pool.N() > 0 && AllPositive(pool.xs)
  {
    var p := WordChain(d, d, pool.xs, pool.N(), pool.N());
    var den := WordDenominator(d, p, pool.ann, pool.N());
    if den == 0 then None else Some(Quotient(Cut(DNumerator(d, p, pool.ann, pool.S() % B128, pool.N())), den))
  }

  function WordSolve(pool: Pool, d: nat, fuel: nat): Option<nat>
    requires pool.N() > 0 && AllPositive(pool.xs)
    decreases fuel
  {
    if fuel == 0 then Some(d % B128)
    else match WordNext(pool, d)
      case None => None
      case Some(next) => if AbsDiff(next, d) <= 1 then Some(next % B128) else WordSolve(pool, next, fuel - 1)
  }

  /** `get_d`. */
  function WordD(pool: Pool): Option<nat>
    requires pool.N() > 0
  {
    if pool.S() % B128 == 0 then Some(0)
    else if !AllPositive(pool.xs) then None
    else WordSolve(pool, pool.S() % B128, 255)
  }

  /** No intermediate of the pass from d reaches 2^256; the denominator never exceeds the numerator. */
  ghost predicate PassFits(pool: Pool, d: nat)
    requires pool.Valid()
  {
    && (forall k :: 0 <= k <= pool.N() ==> DProduct(d, d, pool.xs, pool.N(), k) * d < B256)
    && DNumerator(d, pool.Product(d), pool.ann, pool.S(), pool.N()) < B256
  }

  lemma DenominatorAtMost(pool: Pool, d: nat)
    requires pool.Valid() && pool.InRange(d)
    ensures DDenominator(d, pool.Product(d), pool.ann, pool.N())
         <= DNumerator(d, pool.Product(d), pool.ann, pool.S(), pool.N())
  {
    var num := DNumerator(d, pool.Product(d), pool.ann, pool.S(), pool.N());
    var den := DDenominator(d, pool.Product(d), pool.ann, pool.N());
    pool.NextInRange(d);
    DenominatorPositive(d, pool.Product(d), pool.ann, pool.N());
    QuotientBounds(num, den);
    MulLe(1, num / den, den);
  }

  /** No intermediate of any pass up to the exit does. */
  ghost predicate RunFits(pool: Pool, d: nat, fuel: nat)
    requires pool.Valid() && pool.InRange(d)
    decreases fuel
  {
    fuel > 0 ==>
      && PassFits(pool, d)
      && (pool.NextInRange(d); AbsDiff(pool.Next(d), d) > 1 ==> RunFits(pool, pool.Next(d), fuel - 1))
  }

  lemma {:induction false} ChainExact(seed: nat, d: nat, xs: seq<nat>, n: nat, k: nat)
    requires k <= |xs| && n > 0 && AllPositive(xs)
    requires forall m :: 0 <= m < k ==> DProduct(seed, d, xs, n, m) * d < B256
    ensures WordChain(seed, d, xs, n, k) == DProduct(seed, d, xs, n, k)
  {
    if k > 0 {
      ChainExact(seed, d, xs, n, k - 1);
      var p := DProduct(seed, d, xs, n, k - 1);
      MulLe(0, d, p);
      DivUnique(p * d, B256, 0, p * d);
    }
  }

  lemma NextExact(pool: Pool, d: nat)
    requires pool.Valid() && pool.InRange(d) && pool.S() < B128 && PassFits(pool, d)
    ensures WordNext(pool, d) == Some(pool.Next(d))
  {
    var p, n := pool.Product(d), pool.N();
    ChainExact(d, d, pool.xs, n, n);
    ModSmall(pool.S(), B128);
    DenominatorPositive(d, p, pool.ann, n);
    DenominatorAtMost(pool, d);
  }

  /** Without a wrap the word loop is the unbounded loop. */
  lemma {:induction false} SolveExact(pool: Pool, d: nat, fuel: nat)
    requires pool.Valid() && pool.InRange(d) && pool.S() < B128 && RunFits(pool, d, fuel)
    ensures WordSolve(pool, d, fuel) == Some(pool.Solve(d, fuel) % B128)
    decreases fuel
  {
    if fuel > 0 {
      NextExact(pool, d);
      pool.NextInRange(d);
      if AbsDiff(pool.Next(d), d) > 1 { SolveExact(pool, pool.Next(d), fuel - 1); }
    }
  }

  /** A pool whose balances pass the bound of `Fits` never wraps, and its D is a 128-bit word. */
  lemma {:induction false} FitsRun(pool: Pool, d: nat, fuel: nat)
    requires pool.Valid() && pool.InRange(d) && Fits(pool, B256)
    ensures RunFits(pool, d, fuel)
    decreases fuel
  {
    if fuel > 0 {
      ProductsFit(pool, d, B256);
      StepFits(pool, d, B256);
      pool.NextInRange(d);
      FitsRun(pool, pool.Next(d), fuel - 1);
    }
  }

  lemma SquareFits(x: nat)
    requires x * x < B256
    ensures x < B128
  {
    if x >= B128 {
      ProductAtMost(B128, x, B128, x);
      assert false;
    }
  }

  lemma FitsInWord(pool: Pool, d: nat)
    requires pool.Valid() && Fits(pool, B256) && pool.InRange(d)
    ensures d < B128
  {
    ProductsFit(pool, d, B256);
    assert DProduct(d, d, pool.xs, pool.N(), 0) == d;
    SquareFits(d);
  }

  /** `get_d` is exact, up to its cut to 128 bits, whenever no intermediate wraps ... */
  lemma WordDIsD(pool: Pool)
    requires pool.Valid() && pool.InRange(pool.S()) && pool.S() < B128 && RunFits(pool, pool.S(), 255)
    ensures WordD(pool) == Some(pool.D() % B128)
  {
    SumPositive(pool.xs);
    ModSmall(pool.S(), B128);
    SolveExact(pool, pool.S(), 255);
  }

  /** ... for which a bound on the balances is enough. */
  lemma FitsWordD(pool: Pool)
    requires pool.Valid() && Fits(pool, B256)
    ensures WordD(pool) == Some(pool.D())
  {
    StartInRange(pool);
    FitsInWord(pool, pool.S());
    FitsRun(pool, pool.S(), 255);
    WordDIsD(pool);
    FitsInWord(pool, pool.D());
    ModSmall(pool.D(), B128);
  }

  // ---------------------------------------------------------------------------------------------
  // The output reserve y
  // ---------------------------------------------------------------------------------------------

  /** The balances seen by the quadratic: x in place of coin i, coin j left out, in coin order. */
  function Others(xp: seq<nat>, i: nat, j: nat, x: nat): (r: seq<nat>)
    requires (|xp| == 2 || |xp| == 3) && i < |xp| && j < |xp| && i != j
    ensures |r| == |xp| - 1
    ensures x > 0 && AllPositive(xp) ==> AllPositive(r)
  {
    xp[i := x][..j] + xp[i := x][j + 1..]
  }

  /** One pass of the loop of `get_y`; None is the early return on a denominator not above zero. */
  function WordStep(q: Quadratic, y: nat): Option<nat> {
    var sum, num := Cut(2 * y + q.b), Cut(y * y + q.c);
    if sum <= q.d then None else Some(Quotient(num, sum - q.d))
  }

  function WordRoot(q: Quadratic, y: nat, fuel: nat): Option<nat>
    decreases fuel
  {
    if fuel == 0 then Some(y % B128)
    else match WordStep(q, y)
      case None => None
      case Some(next) => if AbsDiff(next, y) <= 1 then Some(next % B128) else WordRoot(q, next, fuel - 1)
  }

  /** The quadratic `get_y` sets up; None when a balance it divides by, or Ann, is zero. */
  function WordEquation(d: nat, others: seq<nat>, n: nat, ann: nat): Option<Quadratic>
    requires n > 0
  {
    if !AllPositive(others) || ann == 0 then None
    else
      assert ann * n > 0 by { MulLe(1, n, ann); }
      var c := Quotient(Cut(WordChain(d, d, others, n, |others|) * d), ann * n);
      Some(Quadratic(Sum(others) % B128 + Quotient(d, ann), d, c))
  }

  function WordReserve(d: nat, others: seq<nat>, n: nat, ann: nat): Option<nat>
    requires n > 0
  {
    match WordEquation(d, others, n, ann)
    case None => None
    case Some(q) => WordRoot(q, d, 255)
  }

  /** `get_y`. */
  function WordY(pool: Pool, i: nat, j: nat, x: nat): (r: Option<nat>)
    requires pool.N() == 2 || pool.N() == 3
    ensures r.Some? ==> i != j && i < pool.N() && j < pool.N()
  {
    if i == j || i >= pool.N() || j >= pool.N() || WordD(pool).None? then None
    else
      WordReserve(WordD(pool).value, Others(pool.xs, i, j, x), pool.N(), pool.ann)
  }

  /** No word of any pass up to the exit wraps, and the result is a 128-bit word. */
  ghost predicate RootRunFits(q: Quadratic, y: nat, fuel: nat)
    decreases fuel
  {
    if fuel == 0 then y < B128
    else
      && y * y + q.c < B256 && 2 * y + q.b < B256
      && match q.Step(y)
         case None => true
         case Some(next) => if AbsDiff(next, y) <= 1 then next < B128 else RootRunFits(q, next, fuel - 1)
  }

  lemma StepExact(q: Quadratic, y: nat)
    requires y * y + q.c < B256 && 2 * y + q.b < B256
    ensures WordStep(q, y) == q.Step(y)
  {
    MulLe(0, y, y);
  }

  /** Without a wrap the word loop of `get_y` is the unbounded loop. */
  lemma {:induction false} RootExact(q: Quadratic, y: nat, fuel: nat)
    requires RootRunFits(q, y, fuel)
    ensures WordRoot(q, y, fuel) == q.Solve(y, fuel)
    decreases fuel
  {
    if fuel == 0 {
      ModSmall(y, B128);
    } else {
      StepExact(q, y);
      if q.Step(y).Some? {
        var next := q.Step(y).value;
        if AbsDiff(next, y) <= 1 { ModSmall(next, B128); } else { RootExact(q, next, fuel - 1); }
      }
    }
  }
}
