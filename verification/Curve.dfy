/** The Curve Stableswap pool over 256-bit arithmetic: `get_d`, `get_y` and the swap quote, each proved
    equal to the word recurrences of `WordSolver` on every input, and to the unbounded ones of
    `Stableswap` whenever a bound checkable up front holds. */
module Curve {
  import opened Bits
  import opened Wrappers
  import opened Uint256
  import opened Stableswap
  import opened WordSolver
  import Settling

  const H126: int := 0x4000_0000_0000_0000_0000_0000_0000_0000

  ghost predicate ChainFits(d: nat, others: seq<nat>, n: nat) {
    n > 0 && AllPositive(others) && forall k :: 0 <= k <= |others| ==> DProduct(d, d, others, n, k) * d < B256
  }

  /** What `get_y` sets up before its loop, and the bound that keeps the loop inside 256 bits. */
  datatype Swap = Swap(d: nat, others: seq<nat>, n: nat, ann: nat) {
    ghost predicate Valid() { n > 0 && ann > 0 && AllPositive(others) && d + Sum(others) > 0 }

    function Constant(): nat
      requires Valid()
    {
      MulLe(1, n, ann);
      DProduct(d, d, others, n, |others|) * d / (ann * n)
    }

    function Equation(): Quadratic
      requires Valid()
    {
      Quadratic(Sum(others) + d / ann, d, Constant())
    }

    /** Checkable before the loop: the constants and the first step. */
    ghost predicate Fits() {
      && Valid() && d < H126 && Sum(others) < B128
      && ChainFits(d, others, n)
      && Constant() < B256 / 4
      && Equation().Step(d).Some? && Equation().Step(d).value < H128
    }

    /** The reserve the loop settles on. */
    function Y(): (y: nat)
      requires Fits()
      ensures Equation().IsRoot(y)
    {
      PowHalf();
      SolveFindsRoot(Equation(), 127);
      Equation().Solve(d, 255).value
    }
  }

  ghost predicate SwapFits(pool: Pool, i: nat, j: nat, x: nat) {
    && pool.Valid() && i < pool.N() && j < pool.N() && i != j
    && Fits(pool, B256) && x > 0
    && SwapOf(pool, i, j, x).Fits()
  }

  function SwapOf(pool: Pool, i: nat, j: nat, x: nat): Swap
    requires pool.Valid() && i < pool.N() && j < pool.N() && i != j
  {
    Swap(pool.D(), Others(pool.xs, i, j, x), pool.N(), pool.ann)
  }

  /** For the same pool, paying in more of coin i never raises the new reserve of coin j by more than one. */
  lemma ReserveNearMonotone(pool: Pool, i: nat, j: nat, x1: nat, x2: nat)
    requires SwapFits(pool, i, j, x1) && SwapFits(pool, i, j, x2) && x1 <= x2
    ensures SwapOf(pool, i, j, x2).Y() <= SwapOf(pool, i, j, x1).Y() + 1
  {
    OthersMono(pool.xs, i, j, x1, x2);
    SwapNearMonotone(SwapOf(pool, i, j, x1), SwapOf(pool, i, j, x2));
  }

  lemma OthersMono(xs: seq<nat>, i: nat, j: nat, x1: nat, x2: nat)
    requires (|xs| == 2 || |xs| == 3) && i < |xs| && j < |xs| && i != j && x1 <= x2
    ensures var a, b := Others(xs, i, j, x1), Others(xs, i, j, x2);
      |a| == |b| && forall k :: 0 <= k < |a| ==> a[k] <= b[k]
  {
  }

  lemma SwapNearMonotone(s1: Swap, s2: Swap)
    requires s1.Fits() && s2.Fits() && s2 == s1.(others := s2.others) && |s1.others| == |s2.others|
    requires forall k :: 0 <= k < |s1.others| ==> s1.others[k] <= s2.others[k]
    ensures s2.Y() <= s1.Y() + 1
  {
    SumMono(s1.others, s2.others);
    ConstantAntitone(s1, s2);
    RootNearMonotone(s1.Equation(), s2.Equation(), s1.Y(), s2.Y());
  }

  lemma ConstantAntitone(s1: Swap, s2: Swap)
    requires s1.Valid() && s2.Valid() && s2 == s1.(others := s2.others) && |s1.others| == |s2.others|
    requires forall k :: 0 <= k < |s1.others| ==> s1.others[k] <= s2.others[k]
    ensures s2.Constant() <= s1.Constant()
  {
    var d, n := s1.d, s1.n;
    ProductAntitone(d, d, s1.others, s2.others, n, |s1.others|);
    MulLe(DProduct(d, d, s2.others, n, |s1.others|), DProduct(d, d, s1.others, n, |s1.others|), d);
    MulLe(1, n, s1.ann);
    QuotientMono(DProduct(d, d, s2.others, n, |s1.others|) * d, DProduct(d, d, s1.others, n, |s1.others|) * d,
                 s1.ann * n, s1.ann * n);
  }

  lemma {:induction false} SumMono(a: seq<nat>, b: seq<nat>)
    requires |a| == |b| && forall k :: 0 <= k < |a| ==> a[k] <= b[k]
    ensures Sum(a) <= Sum(b)
  {
    if |a| > 0 { SumMono(a[..|a| - 1], b[..|b| - 1]); }
  }

  // ---------------------------------------------------------------------------------------------
  // The pool
  // ---------------------------------------------------------------------------------------------

  const MAX_COINS: nat := 3

  datatype CurvePool = CurvePool(nCoins: nat, rawReserves: seq<U128>, multipliers: seq<U128>, a: U128, feeBps: nat) {

    ghost predicate Valid() {
      && (nCoins == 2 || nCoins == 3)
      && |rawReserves| == |multipliers| == MAX_COINS
      && feeBps < B16
    }

    function NPowN(): nat { if nCoins == 2 then 4 else 27 }

    /** The 128-bit product wraps, as every limb product and sum below. */
    function Ann(): U128 { a * NPowN() % B128 }

    /** Ann is A n^n. */
    lemma AnnIsPower()
      requires Valid()
      ensures Ann() == a * Power(nCoins, nCoins) % B128
    {
      PowerAtCoins(nCoins);
    }

    /** The solver's view of normalized balances. */
    function Balances(xp: seq<U128>): Pool
      requires |xp| >= nCoins
    {
      Pool(xp[..nCoins], Ann())
    }

    method NormalizedReserves() returns (xp: seq<U128>)
      requires Valid()
      ensures |xp| == MAX_COINS && forall k :: 0 <= k < MAX_COINS ==> xp[k] == Normalized(k)
    {
      xp := [0, 0, 0];
      for i := 0 to nCoins
        invariant |xp| == MAX_COINS
        invariant forall k :: 0 <= k < MAX_COINS ==> xp[k] == if k < i then Normalized(k) else 0
      {
        xp := xp[i := (rawReserves[i] as int) * multipliers[i] % B128];
      }
    }

    method GetD(xp: seq<U128>) returns (r: Option<U128>)
      requires Valid() && |xp| >= nCoins
      ensures r == WordD(Balances(xp))
    {
      var s: U128 := SumReserves(xp);
      if s == 0 {
        return Some(0);
      }
      r := SettleInvariant(xp, s, 255);
    }

    /** The Newton loop of `get_d`. */
    method SettleInvariant(xp: seq<U128>, s: U128, passes: nat) returns (r: Option<U128>)
      requires Valid() && |xp| >= nCoins && s == Balances(xp).S() % B128 && passes > 0
      ensures !AllPositive(xp[..nCoins]) ==> r == None
      ensures AllPositive(xp[..nCoins]) ==> r == WordSolve(Balances(xp), s, passes)
    {
      var annU, sU, nU := FromU128(Ann()), FromU128(s), FromU128(nCoins);
      ghost var pool := Balances(xp);
      var d := sU;
      var step := 0;
      while step < passes
        invariant 0 <= step <= passes
        invariant step > 0 ==> AllPositive(xp[..nCoins])
        invariant AllPositive(xp[..nCoins]) ==> WordSolve(pool, s, passes) == WordSolve(pool, d.Value(), passes - step)
      {
        var next := NewtonIteration(xp, d, annU, sU, nU);
        if next.None? {
          return None;
        }
        var close := Close(next.value, d);
        d := next.value;
        if close {
          LowLimb(d);
          return Some(d.lo);
        }
        step := step + 1;
      }
      LowLimb(d);
      return Some(d.lo);
    }

    /** One pass of the solver loop. */
    method NewtonIteration(xp: seq<U128>, d: U256, annU: U256, sU: U256, nU: U256) returns (r: Option<U256>)
      requires Valid() && |xp| >= nCoins
      requires annU.Value() == Ann() && sU.Value() == Balances(xp).S() % B128 && nU.Value() == nCoins
      ensures !AllPositive(xp[..nCoins]) ==> r.None?
      ensures AllPositive(xp[..nCoins]) ==> Valued(r) == WordNext(Balances(xp), d.Value())
    {
      var dP := ProductStep(xp, d, nU);
      if dP.None? {
        return None;
      }
      r := NewtonStep(d, dP.value, annU, sU, nU);
    }

    /** The inner loop: d_p = d_p * d / (x_i * n) for every coin, None on an empty balance. */
    method ProductStep(xp: seq<U128>, d: U256, nU: U256) returns (r: Option<U256>)
      requires Valid() && |xp| >= nCoins && nU.Value() == nCoins
      ensures r.None? <==> !AllPositive(xp[..nCoins])
      ensures r.Some? ==> r.value.Value() == WordChain(d.Value(), d.Value(), xp[..nCoins], nCoins, nCoins)
    {
      var dP := d;
      ghost var xs, dv: nat := xp[..nCoins], d.Value();
      for i := 0 to nCoins
        invariant forall k :: 0 <= k < i ==> xs[k] > 0
        invariant AllPositive(xs) ==> dP.Value() == WordChain(dv, dv, xs, nCoins, i)
      {
        var next := ChainStep(dP, d, xp[i], nU);
        if next.None? {
          assert xs[i] == 0;
          return None;
        }
        dP := next.value;
      }
      assert AllPositive(xs);
      return Some(dP);
    }

    static method NewtonStep(d: U256, dP: U256, annU: U256, sU: U256, nU: U256) returns (r: Option<U256>)
      requires nU.Value() <= 3
      ensures var den := WordDenominator(d.Value(), dP.Value(), annU.Value(), nU.Value());
        Valued(r) == if den == 0 then None
                     else Some(Quotient(Cut(DNumerator(d.Value(), dP.Value(), annU.Value(), sU.Value(), nU.Value())), den))
    {
      var numerator := annU.Mul(sU).Add(dP.Mul(nU)).Mul(d);
      var denominator := annU.Sub(One).Mul(d).Add(nU.Add(One).Mul(dP));
      NumeratorWord(annU, sU, nU, d, dP);
      DenominatorWord(annU, nU, d, dP);
      if denominator.IsZero() {
        return None;
      }
      var next := numerator.Div(denominator);
      return Some(next);
    }

    /** Solves for coin j's reserve when coin i's normalized balance becomes x. */
    method GetY(i: nat, j: nat, x: U128, xp: seq<U128>) returns (r: Option<U128>)
      requires Valid() && |xp| >= nCoins
      ensures r == WordY(Balances(xp), i, j, x)
    {
      if i == j || i >= nCoins || j >= nCoins {
        return None;
      }
      var dVal := GetD(xp);
      if dVal.None? {
        return None;
      }
      var d := FromU128(dVal.value);
      var annU, nU := FromU128(Ann()), FromU128(nCoins);
      ghost var others := Others(xp[..nCoins], i, j, x);
      OthersAt(xp[..nCoins], i, j, x);
      var prepared := Prepare(i, j, x, xp, d, nU, others);
      if prepared.None? {
        return None;
      }
      r := SettleReserve(d, annU, nU, prepared.value.0, prepared.value.1, others);
    }

    /** The sum of the other balances and the constant's multiply-divide chain over them. */
    method Prepare(i: nat, j: nat, x: U128, xp: seq<U128>, d: U256, nU: U256, ghost others: seq<nat>)
        returns (r: Option<(U128, U256)>)
      requires Valid() && |xp| >= nCoins && nU.Value() == nCoins
      requires i != j && i < nCoins && j < nCoins && |others| == nCoins - 1
      requires forall k :: 0 <= k < nCoins && k != j ==> others[WithoutCoin(j, k)] == if k == i then x else xp[k]
      ensures r.None? <==> !AllPositive(others)
      ensures r.Some? ==> r.value.0 == Sum(others) % B128
      ensures r.Some? ==> r.value.1.Value() == WordChain(d.Value(), d.Value(), others, nCoins, |others|)
    {
      var c := d;
      var s: U128 := 0;
      ghost var m := 0;
      for k := 0 to nCoins
        invariant m == WithoutCoin(j, k) && 0 <= m <= |others|
        invariant Gathered(s, c.Value(), d.Value(), others, nCoins, m)
      {
        if k != j {
          var xVal := if k == i then x else xp[k];
          var next := ChainStep(c, d, xVal, nU);
          if next.None? {
            return None;
          }
          Gather(s, c.Value(), d.Value(), others, nCoins, m, next.value.Value());
          s := (s + xVal) % B128;
          c := next.value;
          m := m + 1;
        }
      }
      assert others[..m] == others;
      return Some((s, c));
    }

    /** The quote of a swap, in coin j's own units. It never pays more than the pool holds, whatever
        wraps on the way. */
    method CalculateSwapOutput(i: nat, j: nat, dx: U128) returns (r: Option<U128>)
      requires Valid() && i < MAX_COINS && (j < MAX_COINS ==> multipliers[j] > 0)
      ensures r == SwapOutput(i, j, dx)
      ensures r.Some? ==> i != j && i < nCoins && j < nCoins && r.value <= rawReserves[j]
    {
      var xp := NormalizedReserves();
      var newX := PaidIn(xp[i], i, dx);
      BalancesAreNormal(this, xp);
      var newY := GetY(i, j, newX, xp);
      if newY.None? {
        return None;
      }
      r := Quote(xp[j], newY.value, multipliers[j]);
      SwapOutputWithinReserve(this, i, j, dx);
    }

    method PaidIn(balance: U128, i: nat, dx: U128) returns (newX: U128)
      requires Valid() && i < MAX_COINS && balance == Normalized(i)
      ensures newX == NewBalance(i, dx)
    {
      newX := (balance + (dx as int) * multipliers[i] % B128) % B128;
    }

    /** What `calculate_swap_output` quotes on words. */
    function SwapOutput(i: nat, j: nat, dx: U128): Option<nat>
      requires Valid() && i < MAX_COINS && (j < MAX_COINS ==> multipliers[j] > 0)
    {
      match WordY(NormalPool(), i, j, NewBalance(i, dx))
      case None => None
      case Some(y) => WordPayout(Normalized(j), y, feeBps, multipliers[j])
    }

    /** Coin i's normalized balance after paying in dx. */
    function NewBalance(i: nat, dx: U128): U128
      requires Valid() && i < MAX_COINS
    {
      (Normalized(i) + (dx as int) * multipliers[i] % B128) % B128
    }

    /** Fee and denormalization of the drop in coin j's reserve. */
    method Quote(xj: U128, newY: U128, multiplier: U128) returns (r: Option<U128>)
      requires multiplier > 0
      ensures r == WordPayout(xj, newY, feeBps, multiplier)
    {
      if xj > newY {
        var dyNetNorm := WithoutFee(xj - newY);
        DenormalizedAtMost(dyNetNorm, multiplier);
        return Some(dyNetNorm / multiplier);
      } else {
        return None;
      }
    }

    method WithoutFee(dyNorm: U128) returns (dyNetNorm: U128)
      ensures dyNetNorm == WordNet(dyNorm, feeBps)
    {
      var feeNorm := (dyNorm as int) * feeBps % B128 / 10000;
      dyNetNorm := if dyNorm >= feeNorm then dyNorm - feeNorm else 0;
    }

    /** raw_k * multiplier_k for a coin of the pool, zero for an unused slot. */
    function Normalized(k: nat): U128
      requires Valid() && k < MAX_COINS
    {
      if k < nCoins then (rawReserves[k] as int) * multipliers[k] % B128 else 0
    }

    function NormalPool(): Pool
      requires Valid()
    {
      Pool(if nCoins == 2 then [Normalized(0), Normalized(1)] else [Normalized(0), Normalized(1), Normalized(2)], Ann())
    }

    method SumReserves(xp: seq<U128>) returns (s: U128)
      requires |xp| >= nCoins
      ensures s == Sum(xp[..nCoins]) % B128
    {
      s := 0;
      for i := 0 to nCoins
        invariant s == Sum(xp[..i]) % B128
      {
        assert xp[..i + 1][..i] == xp[..i];
        WrapStepSum(Sum(xp[..i]), xp[i]);
        s := (s + xp[i]) % B128;
      }
    }
  }

  /** Wrapping at every addition is wrapping the sum once. */
  lemma WrapStepSum(sum: nat, x: U128)
    ensures (sum % B128 + x) % B128 == (sum + x) % B128
  {
    ModPlus(sum + x, sum % B128 + x, sum / B128, B128);
  }

  lemma WrappedAtMost(x: nat)
    ensures x % B128 <= x
  {
    if x < B128 { DivUnique(x, B128, 0, x); }
  }

  lemma LowLimb(u: U256)
    ensures u.lo == u.Value() % B128
  {
    DivUnique(u.Value(), B128, u.hi, u.lo);
  }

  /** What an optional word stands for. */
  ghost function Valued(r: Option<U256>): Option<nat> { if r.None? then None else Some(r.value.Value()) }

  lemma {:induction false} PrefixSum(xs: seq<nat>, i: nat, n: nat)
    requires i <= n <= |xs|
    ensures Sum(xs[..i]) <= Sum(xs[..n])
  {
    if i < n {
      assert xs[..n][..n - 1] == xs[..n - 1];
      PrefixSum(xs, i, n - 1);
    }
  }

  /** `x * n` as a 256-bit divisor; zero exactly for an empty balance. */
  function CoinDivisor(x: U128, nU: U256): (r: U256)
    requires 1 <= nU.Value() <= 3
    ensures r.Value() == x * nU.Value()
    ensures r.IsZero() <==> x == 0
  {
    MulLe(nU.Value(), 3, x);
    MulLe(1, nU.Value(), x);
    MulExact(FromU128(x), nU, x * nU.Value());
    FromU128(x).Mul(nU)
  }

  method MulDiv(a: U256, b: U256, d: U256) returns (r: U256)
    requires !d.IsZero()
    ensures r.Value() == Quotient(Cut(a.Value() * b.Value()), d.Value())
  {
    r := a.Mul(b).Div(d);
  }

  /** One multiply-divide by a balance, None when the balance is empty. */
  method ChainStep(c: U256, d: U256, x: U128, nU: U256) returns (r: Option<U256>)
    requires 1 <= nU.Value() <= 3
    ensures r.None? <==> x == 0
    ensures r.Some? ==>
      x * nU.Value() > 0 && r.value.Value() == Quotient(Cut(c.Value() * d.Value()), x * nU.Value())
  {
    var denom := CoinDivisor(x, nU);
    if denom.IsZero() {
      return None;
    }
    MulLe(1, nU.Value(), x);
    var q := MulDiv(c, d, denom);
    return Some(q);
  }

  /** The convergence test: the two iterates differ by at most one. */
  function Close(next: U256, prev: U256): (r: bool)
    ensures r <==> AbsDiff(next.Value(), prev.Value()) <= 1
  {
    LessIsValueOrder(prev, next);
    LessIsValueOrder(next, prev);
    if prev.Less(next) then
      SubExact(next, prev);
      !One.Less(next.Sub(prev))
    else
      SubExact(prev, next);
      !One.Less(prev.Sub(next))
  }

  /** Sum and chain over the first m balances, none of them zero. */
  ghost predicate Gathered(s: U128, c: nat, d: nat, others: seq<nat>, n: nat, m: nat)
    requires n > 0
  {
    && m <= |others| && s == Sum(others[..m]) % B128 && (forall t :: 0 <= t < m ==> others[t] > 0)
    && (AllPositive(others) ==> c == WordChain(d, d, others, n, m))
  }

  lemma Gather(s: U128, c: nat, d: nat, others: seq<nat>, n: nat, m: nat, next: nat)
    requires n > 0 && Gathered(s, c, d, others, n, m) && m < |others| && 0 < others[m] < B128
    requires others[m] * n > 0 && next == Quotient(Cut(c * d), others[m] * n)
    ensures Gathered((s + others[m]) % B128, next, d, others, n, m + 1)
  {
    SumStep(others, m);
    WrapStepSum(Sum(others[..m]), others[m]);
  }

  /** Wrapping after every operation is wrapping the whole expression once. */
  lemma NumeratorWord(ann: U256, s: U256, n: U256, d: U256, p: U256)
    ensures ann.Mul(s).Add(p.Mul(n)).Mul(d).Value()
         == DNumerator(d.Value(), p.Value(), ann.Value(), s.Value(), n.Value()) % B256
  {
    ModAdd(ann.Value() * s.Value(), p.Value() * n.Value(), B256);
    ModMul(ann.Value() * s.Value() + p.Value() * n.Value(), d.Value(), B256);
  }

  lemma DenominatorWord(ann: U256, n: U256, d: U256, p: U256)
    requires n.Value() <= 3
    ensures ann.Sub(One).Mul(d).Add(n.Add(One).Mul(p)).Value()
         == WordDenominator(d.Value(), p.Value(), ann.Value(), n.Value())
  {
    AddExact(n, One);
    WordSum(ann.Value() - 1, d.Value(), (n.Value() + 1) * p.Value());
  }

  lemma WordSum(x: int, d: int, y: int)
    ensures ((x % B256) * d % B256 + y % B256) % B256 == (x * d + y) % B256
  {
    ModMul(x, d, B256);
    ModAdd(x * d, y, B256);
  }

  /** Position of coin k once coin j is left out. */
  function WithoutCoin(j: nat, k: nat): nat {
    if k <= j then k else k - 1
  }

  lemma OthersAt(xp: seq<nat>, i: nat, j: nat, x: nat)
    requires (|xp| == 2 || |xp| == 3) && i < |xp| && j < |xp| && i != j
    ensures forall k :: 0 <= k < |xp| && k != j ==> Others(xp, i, j, x)[WithoutCoin(j, k)] == if k == i then x else xp[k]
  {
  }

  lemma SumStep(xs: seq<nat>, m: nat)
    requires m < |xs|
    ensures Sum(xs[..m + 1]) == Sum(xs[..m]) + xs[m] <= Sum(xs)
  {
    assert xs[..m + 1][..m] == xs[..m];
    PrefixSum(xs, m + 1, |xs|);
    assert xs[..|xs|] == xs;
  }

  /** What keeps the loop's words exact. */
  ghost predicate RootLimits(q: Quadratic) {
    && q.d < H128 && q.b < B256 / 2 && q.c < B256 / 4
    && q.Slope(q.d) > 0 && q.Step(q.d).value < H128
  }

  /** Between passes: the start, or a value above the root and no larger than the first step. */
  ghost predicate BetweenPasses(q: Quadratic, y: nat) {
    RootLimits(q) && y < H128 && (y == q.d || q.AboveRoot(y))
  }

  lemma RootPass(q: Quadratic, y: nat)
    requires BetweenPasses(q, y)
    ensures q.Slope(y) > 0 && q.Step(y).value < B128
    ensures AbsDiff(q.Step(y).value, y) > 1 ==> BetweenPasses(q, q.Step(y).value)
  {
    if q.AboveRoot(y) { StepAtMostNext(q, y); }
    if AbsDiff(q.Step(y).value, y) > 1 { StepKeepsSlope(q, y); }
  }

  /** Within these limits no pass wraps. */
  lemma {:induction false} LimitsRun(q: Quadratic, y: nat, fuel: nat)
    requires BetweenPasses(q, y)
    ensures RootRunFits(q, y, fuel)
    decreases fuel
  {
    if fuel > 0 {
      ProductAtMost(y, H128, y, H128);
      RootPass(q, y);
      if AbsDiff(q.Step(y).value, y) > 1 { LimitsRun(q, q.Step(y).value, fuel - 1); }
    }
  }

  lemma FitsRootLimits(swap: Swap)
    requires swap.Fits()
    ensures RootLimits(swap.Equation())
    ensures swap.Equation().Solve(swap.d, 255) == Some(swap.Y())
  {
    QuotientAtMost(swap.d, swap.ann, swap.d) by { MulLe(1, swap.ann, swap.d); }
    PowHalf();
    SolveFindsRoot(swap.Equation(), 127);
  }

  /** A fitting swap's words set up the exact quadratic ... */
  lemma FitsWordEquation(swap: Swap)
    requires swap.Fits()
    ensures WordEquation(swap.d, swap.others, swap.n, swap.ann) == Some(swap.Equation())
  {
    var d, others, n := swap.d, swap.others, swap.n;
    ChainExact(d, d, others, n, |others|);
    ModSmall(Sum(others), B128);
    var p := DProduct(d, d, others, n, |others|);
    assert p * d < B256;
    MulLe(0, d, p);
    ModSmall(p * d, B256);
  }

  /** ... and `get_y` returns the reserve it settles on. */
  lemma FitsWordY(pool: Pool, i: nat, j: nat, x: nat)
    requires SwapFits(pool, i, j, x)
    ensures WordY(pool, i, j, x) == Some(SwapOf(pool, i, j, x).Y())
  {
    var swap := SwapOf(pool, i, j, x);
    FitsWordD(pool);
    FitsWordEquation(swap);
    FitsRootLimits(swap);
    LimitsRun(swap.Equation(), swap.d, 255);
    RootExact(swap.Equation(), swap.d, 255);
  }

  /** c = chain d / (Ann n), None for Ann = 0. */
  method Constant(chain: U256, d: U256, annU: U256, nU: U256) returns (c: Option<U256>)
    requires annU.Value() < B128 && 1 <= nU.Value() <= 3
    ensures c.None? <==> annU.Value() == 0
    ensures c.Some? ==>
      annU.Value() * nU.Value() > 0
      && c.value.Value() == Quotient(Cut(chain.Value() * d.Value()), annU.Value() * nU.Value())
  {
    MulLe(nU.Value(), 3, annU.Value());
    MulLe(1, nU.Value(), annU.Value());
    MulExact(annU, nU, annU.Value() * nU.Value());
    var annN := annU.Mul(nU);
    if annN.IsZero() {
      return None;
    }
    var q := MulDiv(chain, d, annN);
    return Some(q);
  }

  /** b = s + d / Ann, which never wraps. */
  method Linear(d: U256, annU: U256, s: U128) returns (b: U256)
    requires annU.Value() > 0 && d.Value() < B128
    ensures b.Value() == s + Quotient(d.Value(), annU.Value())
  {
    var dOverAnn := d.Div(annU);
    QuotientAtMost(d.Value(), annU.Value(), d.Value()) by { MulLe(1, annU.Value(), d.Value()); }
    AddExact(FromU128(s), dOverAnn);
    b := FromU128(s).Add(dOverAnn);
  }

  /** The constants of the quadratic, then the loop. */
  method SettleReserve(d: U256, annU: U256, nU: U256, s: U128, chain: U256, ghost others: seq<nat>)
      returns (r: Option<U128>)
    requires annU.Value() < B128 && d.Value() < B128 && 1 <= nU.Value() <= 3 && AllPositive(others)
    requires s == Sum(others) % B128
    requires chain.Value() == WordChain(d.Value(), d.Value(), others, nU.Value(), |others|)
    ensures r == WordReserve(d.Value(), others, nU.Value(), annU.Value())
  {
    var terms := Terms(d, annU, nU, s, chain, others);
    if terms.None? {
      return None;
    }
    r := NewtonRoot(d, terms.value.0, terms.value.1, 255);
  }

  /** b and c of the quadratic. */
  method Terms(d: U256, annU: U256, nU: U256, s: U128, chain: U256, ghost others: seq<nat>)
      returns (r: Option<(U256, U256)>)
    requires annU.Value() < B128 && d.Value() < B128 && 1 <= nU.Value() <= 3 && AllPositive(others)
    requires s == Sum(others) % B128
    requires chain.Value() == WordChain(d.Value(), d.Value(), others, nU.Value(), |others|)
    ensures WordEquation(d.Value(), others, nU.Value(), annU.Value())
      == if r.None? then None else Some(Quadratic(r.value.0.Value(), d.Value(), r.value.1.Value()))
  {
    var c := Constant(chain, d, annU, nU);
    if c.None? {
      return None;
    }
    var b := Linear(d, annU, s);
    return Some((b, c.value));
  }

  /** The loop of `get_y`. */
  method NewtonRoot(d: U256, b: U256, c: U256, passes: nat) returns (r: Option<U128>)
    ensures r == WordRoot(Quadratic(b.Value(), d.Value(), c.Value()), d.Value(), passes)
  {
    ghost var q := Quadratic(b.Value(), d.Value(), c.Value());
    var y := d;
    var step := 0;
    while step < passes
      invariant 0 <= step <= passes
      invariant WordRoot(q, d.Value(), passes) == WordRoot(q, y.Value(), passes - step)
    {
      var next := RootStep(y, d, b, c, q);
      if next.None? {
        return None;
      }
      var close := Close(next.value, y);
      if close {
        LowLimb(next.value);
        return Some(next.value.lo);
      }
      y := next.value;
      step := step + 1;
    }
    LowLimb(y);
    return Some(y.lo);
  }

  /** One pass of the loop on 256-bit words. */
  method RootStep(y: U256, d: U256, b: U256, c: U256, ghost q: Quadratic) returns (r: Option<U256>)
    requires q.b == b.Value() && q.d == d.Value() && q.c == c.Value()
    ensures Valued(r) == WordStep(q, y.Value())
  {
    var numerator := SquarePlus(y, c);
    var denomSum := TwicePlus(y, b);
    LessIsValueOrder(d, denomSum);
    if !d.Less(denomSum) {
      return None;
    }
    SubExact(denomSum, d);
    var next := numerator.Div(denomSum.Sub(d));
    return Some(next);
  }

  method SquarePlus(y: U256, c: U256) returns (r: U256)
    ensures r.Value() == (y.Value() * y.Value() + c.Value()) % B256
  {
    ModSmall(c.Value(), B256);
    ModAdd(y.Value() * y.Value(), c.Value(), B256);
    r := y.Mul(y).Add(c);
  }

  method TwicePlus(y: U256, b: U256) returns (r: U256)
    ensures r.Value() == (2 * y.Value() + b.Value()) % B256
  {
    ModSmall(b.Value(), B256);
    ModAdd(2 * y.Value(), b.Value(), B256);
    r := FromU128(2).Mul(y).Add(b);
  }

  // ---------------------------------------------------------------------------------------------
  // What the quote pays
  // ---------------------------------------------------------------------------------------------

  /** The quote given coin j's old and new normalized reserve. */
  function Payout(xj: nat, newY: nat, feeBps: nat, multiplier: nat): Option<nat>
    requires multiplier > 0
  {
    if xj > newY then Some(NetOfFee(xj - newY, feeBps) / multiplier) else None
  }

  /** Fee in basis points, rounded down; the subtraction saturates for a fee above 100%. */
  function NetOfFee(dy: nat, feeBps: nat): (net: nat)
    ensures net <= dy
  {
    var fee := dy * feeBps / 10000;
    if dy >= fee then dy - fee else 0
  }

  /** A refused quote pays nothing. */
  function Paid(quote: Option<nat>): nat { if quote.None? then 0 else quote.value }

  /** Even a wrapped balance is at most the raw reserve times its multiplier. */
  lemma PaidWithinReserve(paid: nat, raw: nat, multiplier: nat, balance: nat)
    requires multiplier > 0 && paid * multiplier <= balance == raw * multiplier % B128
    ensures paid <= raw
  {
    MulLe(0, raw, multiplier);
    WrappedAtMost(raw * multiplier);
    CancelFactor(paid, raw, multiplier);
  }

  /** The quote on 128-bit words: only the fee product can wrap. */
  function WordPayout(xj: nat, newY: nat, feeBps: nat, multiplier: nat): Option<nat>
    requires multiplier > 0
  {
    if xj > newY then
      var dy := xj - newY;
      Some(WordNet(dy, feeBps) / multiplier)
    else None
  }

  function WordNet(dy: nat, feeBps: nat): (net: nat)
    ensures net <= dy
  {
    var fee := dy * feeBps % B128 / 10000;
    if dy >= fee then dy - fee else 0
  }

  lemma PayoutExact(xj: nat, newY: nat, feeBps: nat, multiplier: nat)
    requires multiplier > 0 && xj * feeBps < B128
    ensures WordPayout(xj, newY, feeBps, multiplier) == Payout(xj, newY, feeBps, multiplier)
  {
    if xj > newY { FeeExact(xj - newY, xj, feeBps); }
  }

  /** Whatever wraps on the way, no quote exceeds the raw reserve. */
  lemma SwapOutputWithinReserve(pool: CurvePool, i: nat, j: nat, dx: U128)
    requires pool.Valid() && i < MAX_COINS && (j < MAX_COINS ==> pool.multipliers[j] > 0)
    ensures pool.SwapOutput(i, j, dx).Some? ==>
      i != j && i < pool.nCoins && j < pool.nCoins && pool.SwapOutput(i, j, dx).value <= pool.rawReserves[j]
  {
    if pool.SwapOutput(i, j, dx).Some? {
      var y := WordY(pool.NormalPool(), i, j, pool.NewBalance(i, dx)).value;
      WordPayoutAtMost(pool.Normalized(j), y, pool.feeBps, pool.multipliers[j]);
      PaidWithinReserve(pool.SwapOutput(i, j, dx).value, pool.rawReserves[j], pool.multipliers[j], pool.Normalized(j));
    }
  }

  lemma WordPayoutAtMost(xj: nat, newY: nat, feeBps: nat, multiplier: nat)
    requires multiplier > 0
    ensures var r := WordPayout(xj, newY, feeBps, multiplier); r.Some? ==> r.value * multiplier <= xj
  {
    if xj > newY { DenormalizedAtMost(WordNet(xj - newY, feeBps), multiplier); }
  }

  /** A fitting swap is quoted exactly. */
  lemma SwapOutputExact(pool: CurvePool, i: nat, j: nat, dx: U128)
    requires pool.Valid() && i < MAX_COINS && j < MAX_COINS && pool.multipliers[j] > 0
    requires SwapFits(pool.NormalPool(), i, j, pool.NewBalance(i, dx)) && pool.Normalized(j) * pool.feeBps < B128
    ensures pool.SwapOutput(i, j, dx)
         == Payout(pool.Normalized(j), SwapOf(pool.NormalPool(), i, j, pool.NewBalance(i, dx)).Y(), pool.feeBps,
                   pool.multipliers[j])
  {
    var y := SwapOf(pool.NormalPool(), i, j, pool.NewBalance(i, dx)).Y();
    FitsWordY(pool.NormalPool(), i, j, pool.NewBalance(i, dx));
    PayoutExact(pool.Normalized(j), y, pool.feeBps, pool.multipliers[j]);
  }

  lemma FeeExact(dy: nat, xj: nat, feeBps: nat)
    requires dy <= xj && xj * feeBps < B128
    ensures dy * feeBps % B128 == dy * feeBps
  {
    MulLe(dy, xj, feeBps);
    MulLe(0, dy, feeBps);
    DivUnique(dy * feeBps, B128, 0, dy * feeBps);
  }

  lemma DenormalizedAtMost(net: nat, multiplier: nat)
    requires multiplier > 0
    ensures net / multiplier <= net && (net / multiplier) * multiplier <= net
  {
    QuotientBounds(net, multiplier);
    QuotientAtMost(net, multiplier, net) by { MulLe(1, multiplier, net); }
  }

  lemma PowerAtCoins(n: nat)
    requires n == 2 || n == 3
    ensures Power(n, n) == if n == 2 then 4 else 27
  {
    assert Power(n, 1) == n && Power(n, 2) == n * n && Power(n, 3) == n * (n * n) by { PowerAt(n); }
  }

  /** Paying dx raw units in: the balance is that of the reserve and the payment together. */
  lemma NewBalanceIsSum(pool: CurvePool, i: nat, dx: U128)
    requires pool.Valid() && i < pool.nCoins
    ensures pool.NewBalance(i, dx) == (pool.rawReserves[i] + dx) * pool.multipliers[i] % B128
  {
    var r, m := pool.rawReserves[i], pool.multipliers[i];
    ModAdd(r * m, dx * m, B128);
    assert (r + dx) * m == r * m + dx * m;
  }

  lemma BalancesAreNormal(pool: CurvePool, xp: seq<U128>)
    requires pool.Valid() && |xp| == MAX_COINS && forall k :: 0 <= k < MAX_COINS ==> xp[k] == pool.Normalized(k)
    ensures pool.Balances(xp) == pool.NormalPool()
  {
    assert xp[..pool.nCoins] == pool.NormalPool().xs;
  }

  /** A fee of 100% or more leaves nothing. */
  lemma NetOfFullFee(a: nat, feeBps: nat)
    requires feeBps >= 10000
    ensures NetOfFee(a, feeBps) == 0
  {
    MulLe(10000, feeBps, a);
  }

  lemma NetMonotone(a: nat, b: nat, feeBps: nat)
    requires a <= b && feeBps <= 10000
    ensures NetOfFee(a, feeBps) <= NetOfFee(b, feeBps)
  {
    MulLe(feeBps, 10000, a);
    MulLe(feeBps, 10000, b);
    MulLe(feeBps, 10000, b - a);
    assert b * feeBps == a * feeBps + (b - a) * feeBps;
  }

  /** A fee of at most 100% takes at most one more unit from one more unit. */
  lemma NetDropsSlowly(a: nat, feeBps: nat)
    requires a >= 1 && feeBps <= 10000
    ensures NetOfFee(a, feeBps) <= NetOfFee(a - 1, feeBps) + 1
  {
    MulLe(feeBps, 10000, a);
    assert a * feeBps == (a - 1) * feeBps + feeBps;
    MulLe(feeBps, 10000, a - 1);
  }

  /** A fee of at most 100% keeps the share it says: what is paid is the drop less the fee, in coin j's own
      units, rounded by less than one unit of either. */
  lemma PayoutShare(xj: nat, newY: nat, feeBps: nat, multiplier: nat)
    requires xj > newY && feeBps <= 10000 && multiplier > 0
    ensures var paid, share := Paid(Payout(xj, newY, feeBps, multiplier)), (xj - newY) * (10000 - feeBps);
      10000 * (paid * multiplier) < share + 10000 && share < 10000 * ((paid + 1) * multiplier)
  {
    var dy := xj - newY;
    var net := NetOfFee(dy, feeBps);
    NetShare(dy, feeBps);
    QuotientBounds(net, multiplier);
    assert (net / multiplier + 1) * multiplier == (net / multiplier) * multiplier + multiplier;
  }

  lemma NetShare(dy: nat, feeBps: nat)
    requires feeBps <= 10000
    ensures dy * (10000 - feeBps) <= 10000 * NetOfFee(dy, feeBps) < dy * (10000 - feeBps) + 10000
  {
    MulLe(feeBps, 10000, dy);
    MulLe(0, feeBps, dy);
    assert dy * (10000 - feeBps) == 10000 * dy - dy * feeBps;
  }

  /** Offering more of coin i never lowers the amount paid out by more than one unit of coin j. */
  lemma PayoutNearMonotone(pool: Pool, i: nat, j: nat, x1: nat, x2: nat, feeBps: nat, multiplier: nat)
    requires SwapFits(pool, i, j, x1) && SwapFits(pool, i, j, x2) && x1 <= x2
    requires multiplier > 0
    ensures Paid(Payout(pool.xs[j], SwapOf(pool, i, j, x1).Y(), feeBps, multiplier))
         <= Paid(Payout(pool.xs[j], SwapOf(pool, i, j, x2).Y(), feeBps, multiplier)) + 1
  {
    ReserveNearMonotone(pool, i, j, x1, x2);
    PaidNearMonotone(pool.xs[j], SwapOf(pool, i, j, x1).Y(), SwapOf(pool, i, j, x2).Y(), feeBps, multiplier);
  }

  lemma PaidNearMonotone(xj: nat, y1: nat, y2: nat, feeBps: nat, multiplier: nat)
    requires y2 <= y1 + 1 && multiplier > 0
    ensures Paid(Payout(xj, y1, feeBps, multiplier)) <= Paid(Payout(xj, y2, feeBps, multiplier)) + 1
  {
    if xj > y1 {
      var n2 := if xj > y2 then NetOfFee(xj - y2, feeBps) else 0;
      NetNearMonotone(xj - y1, if xj > y2 then xj - y2 else 0, feeBps);
      QuotientNearMonotone(NetOfFee(xj - y1, feeBps), n2, multiplier);
    }
  }

  lemma NetNearMonotone(a: nat, b: nat, feeBps: nat)
    requires a >= 1 && b >= a - 1
    ensures NetOfFee(a, feeBps) <= (if b > 0 then NetOfFee(b, feeBps) else 0) + 1
  {
    if feeBps > 10000 {
      NetOfFullFee(a, feeBps);
    } else {
      NetDropsSlowly(a, feeBps);
      NetMonotone(a - 1, b, feeBps);
    }
  }

  lemma QuotientNearMonotone(a: nat, b: nat, m: nat)
    requires a <= b + 1 && m > 0
    ensures a / m <= b / m + 1
  {
    QuotientBounds(b, m);
    QuotientAtMost(a, m, b / m + 1) by {
      assert (b / m + 1) * m == (b / m) * m + m;
    }
  }

  // ---------------------------------------------------------------------------------------------
  // How wide the bounds are
  // ---------------------------------------------------------------------------------------------

  const EVERYDAY_SUM: nat := 1_000_000_000_000_000_000_000_000_000_000

  /** A trillion tokens at eighteen decimals, A up to 37000 on three coins, no balance below a
      thousandth of the sum. */
  ghost predicate Everyday(pool: Pool) {
    && pool.Valid() && pool.ann <= 1_000_000 && pool.S() <= EVERYDAY_SUM
    && forall k :: 0 <= k < |pool.xs| ==> pool.S() <= 1000 * pool.xs[k]
  }

  lemma {:induction false} PowerBase(r: nat, bound: nat, k: nat)
    requires r <= bound
    ensures Power(r, k) <= Power(bound, k)
  {
    if k > 0 {
      PowerBase(r, bound, k - 1);
      ProductAtMost(r, bound, Power(r, k - 1), Power(bound, k - 1));
    }
  }

  lemma PowerAt(r: nat)
    ensures Power(r, 1) == r && Power(r, 2) == r * r && Power(r, 3) == r * (r * r)
  {
    assert Power(r, 1) == r * Power(r, 0);
  }

  lemma EverydaySkew(pool: Pool)
    requires Everyday(pool)
    ensures Skew(pool) <= 1001 && Power(Skew(pool), pool.N()) <= 1_003_003_001
  {
    var m := Smallest(pool.xs);
    MulLe(1, m, pool.N());
    MulLe(2, pool.N(), m);
    QuotientAtMost(2 * pool.S(), pool.N() * m, 1000) by { MulLe(2 * m, pool.N() * m, 1000); }
    PowerBase(Skew(pool), 1001, pool.N());
    PowerAt(1001);
  }

  /** Every such pool fits. */
  lemma EverydayPoolFits(pool: Pool)
    requires Everyday(pool)
    ensures Stableswap.Fits(pool, B256)
  {
    EverydaySkew(pool);
    EverydayWeight(pool.ann, pool.N(), Power(Skew(pool), pool.N()));
    EverydayProduct(pool.ann + 2 * pool.N() * Power(Skew(pool), pool.N()), pool.S());
  }

  lemma EverydayWeight(ann: nat, n: nat, rn: nat)
    requires ann <= 1_000_000 && n <= 3 && rn <= 1_003_003_001
    ensures ann + 2 * n * rn <= 10_000_000_000
  {
    ProductAtMost(2 * n, 6, rn, 1_003_003_001);
  }

  lemma EverydayProduct(w: nat, s: nat)
    requires w <= 10_000_000_000 && s <= EVERYDAY_SUM
    ensures w * (s * (2 * s)) < B256
  {
    ProductAtMost(s, EVERYDAY_SUM, 2 * s, 2 * EVERYDAY_SUM);
    ProductAtMost(w, 10_000_000_000, s * (2 * s), EVERYDAY_SUM * (2 * EVERYDAY_SUM));
  }

  lemma {:induction false} SumAtMost(xs: seq<nat>, m: nat)
    requires forall k :: 0 <= k < |xs| ==> xs[k] <= m
    ensures Sum(xs) <= |xs| * m
  {
    if xs != [] {
      SumAtMost(xs[..|xs| - 1], m);
      assert |xs| * m == (|xs| - 1) * m + m;
    }
  }

  lemma {:induction false} EachAtMostSum(xs: seq<nat>, k: nat)
    requires k < |xs|
    ensures xs[k] <= Sum(xs)
  {
    if k < |xs| - 1 { EachAtMostSum(xs[..|xs| - 1], k); }
  }

  /** The bounds on the balances the quadratic sees. */
  lemma EverydayOthers(pool: Pool, i: nat, j: nat, x: nat)
    requires Everyday(pool) && i < pool.N() && j < pool.N() && i != j && pool.xs[i] <= x <= 10 * EVERYDAY_SUM
    ensures var s := SwapOf(pool, i, j, x);
      && s.Valid() && 0 < s.d <= 2 * EVERYDAY_SUM && Sum(s.others) <= 20 * EVERYDAY_SUM
      && forall k :: 0 <= k < |s.others| ==> s.d <= 1000 * (s.others[k] * s.n)
  {
    var s := SwapOf(pool, i, j, x);
    AtMostTwiceSum(pool, s.d);
    forall k | 0 <= k < |s.others|
      ensures s.others[k] <= 10 * EVERYDAY_SUM && s.d <= 1000 * (s.others[k] * s.n)
    {
      EverydayOther(pool, i, j, x, k);
      MulLe(2, s.n, s.others[k]);
    }
    SumAtMost(s.others, 10 * EVERYDAY_SUM);
  }

  lemma EverydayOther(pool: Pool, i: nat, j: nat, x: nat, k: nat)
    requires Everyday(pool) && i < pool.N() && j < pool.N() && i != j && pool.xs[i] <= x <= 10 * EVERYDAY_SUM
    requires k < pool.N() - 1
    ensures var y := Others(pool.xs, i, j, x)[k];
      y <= 10 * EVERYDAY_SUM && pool.S() <= 1000 * y
  {
    var from := if k < j then k else k + 1;
    EachAtMostSum(pool.xs, from);
    assert Others(pool.xs, i, j, x)[k] == if from == i then x else pool.xs[from];
  }

  lemma EverydayChain(s: Swap, k: nat)
    requires s.Valid() && k <= |s.others| <= 2
    requires forall t :: 0 <= t < |s.others| ==> s.d <= 1000 * (s.others[t] * s.n)
    ensures DProduct(s.d, s.d, s.others, s.n, k) <= s.d * 1_000_000
  {
    ProductGrowth(s.d, s.others, s.n, k, 1000);
    PowerMono(1000, k, 2);
    PowerAt(1000);
    MulLe(Power(1000, k), 1_000_000, s.d);
  }

  lemma EverydayTerm(p: nat, d: nat)
    requires p <= d * 1_000_000 && d <= 2 * EVERYDAY_SUM
    ensures p * d < B256 / 4
  {
    ProductAtMost(p, 2 * EVERYDAY_SUM * 1_000_000, d, 2 * EVERYDAY_SUM);
  }

  /** The first Newton step overshoots the invariant by a factor of at most a million and one. */
  lemma FirstStepBound(q: Quadratic, p: nat)
    requires q.d > 0 && p <= q.d * 1_000_000 && q.c <= p * q.d
    ensures q.Slope(q.d) > 0 && q.Step(q.d).value <= q.d * 1_000_001
  {
    var d := q.d;
    MulLe(p, d * 1_000_000, d);
    assert (d * 1_000_000) * d == (d * d) * 1_000_000;
    MulLe(d, d + q.b, d * 1_000_001);
    assert (d * 1_000_001) * d == (d * d) * 1_000_001;
    QuotientAtMost(d * d + q.c, d + q.b, d * 1_000_001);
  }

  /** Every swap that pays into such a pool fits: there the quote is the exact payout, and the two
      near-monotonicity theorems apply without further conditions. */
  lemma EverydaySwapFits(pool: Pool, i: nat, j: nat, x: nat)
    requires Everyday(pool) && i < pool.N() && j < pool.N() && i != j && pool.xs[i] <= x <= 10 * EVERYDAY_SUM
    ensures SwapFits(pool, i, j, x)
  {
    EverydayPoolFits(pool);
    EverydayOthers(pool, i, j, x);
    var s := SwapOf(pool, i, j, x);
    forall k | 0 <= k <= |s.others| ensures DProduct(s.d, s.d, s.others, s.n, k) * s.d < B256 {
      EverydayChain(s, k);
      EverydayTerm(DProduct(s.d, s.d, s.others, s.n, k), s.d);
    }
    EverydayConstant(s);
  }

  lemma ConstantAtMost(s: Swap)
    requires s.Valid()
    ensures s.Constant() <= DProduct(s.d, s.d, s.others, s.n, |s.others|) * s.d
  {
    MulLe(1, s.n, s.ann);
    DenormalizedAtMost(DProduct(s.d, s.d, s.others, s.n, |s.others|) * s.d, s.ann * s.n);
  }

  lemma EverydayConstant(s: Swap)
    requires s.Valid() && |s.others| <= 2 && 0 < s.d <= 2 * EVERYDAY_SUM
    requires forall t :: 0 <= t < |s.others| ==> s.d <= 1000 * (s.others[t] * s.n)
    ensures s.Constant() < B256 / 4 && s.Equation().Step(s.d).Some? && s.Equation().Step(s.d).value < H128
  {
    EverydayChain(s, |s.others|);
    EverydayTerm(DProduct(s.d, s.d, s.others, s.n, |s.others|), s.d);
    ConstantAtMost(s);
    FirstStepBound(s.Equation(), DProduct(s.d, s.d, s.others, s.n, |s.others|));
  }

  /** For an everyday pool: paying in more never lowers the payout by more than one unit. */
  lemma EverydayPayout(pool: Pool, i: nat, j: nat, x1: nat, x2: nat, feeBps: nat, multiplier: nat)
    requires Everyday(pool) && i < pool.N() && j < pool.N() && i != j && multiplier > 0
    requires pool.xs[i] <= x1 <= x2 <= 10 * EVERYDAY_SUM
    ensures SwapFits(pool, i, j, x1) && SwapFits(pool, i, j, x2)
    ensures Paid(Payout(pool.xs[j], SwapOf(pool, i, j, x1).Y(), feeBps, multiplier))
         <= Paid(Payout(pool.xs[j], SwapOf(pool, i, j, x2).Y(), feeBps, multiplier)) + 1
  {
    EverydaySwapFits(pool, i, j, x1);
    EverydaySwapFits(pool, i, j, x2);
    PayoutNearMonotone(pool, i, j, x1, x2, feeBps, multiplier);
  }

  /** On a steady pool that fits, the word solver settles on the exact invariant rounded down or one
      more. */
  lemma SteadyWordD(pool: Pool)
    requires pool.Valid() && Settling.Steady(pool) && Stableswap.Fits(pool, B256)
    ensures WordD(pool) == Some(pool.D())
    ensures Settling.BalanceOf(pool).G(pool.D() - 1) <= 0 < Settling.BalanceOf(pool).G(pool.D() + 1)
  {
    StartInRange(pool);
    FitsWordD(pool);
    FitsInWord(pool, pool.S());
    Settling.SteadySettles(pool);
  }
}
