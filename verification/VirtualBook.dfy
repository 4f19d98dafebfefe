/** The constant-product pool's virtual order book: Newton's integer square root and the depth of each
    percentage band around the spot price. */
module VirtualBook {
  import opened Bits
  import opened DecimalText
  import opened FixedPoint
  import opened OrderBook
  import opened Wrappers

  const RATIO_SCALE: nat := 10_0000_0000
  const RATIO_SCALE_SQUARED: nat := 100_0000_0000_0000_0000
  const BPS: nat := 10_000

  // ---------------------------------------------------------------------------------------------
  // Integer square root
  // ---------------------------------------------------------------------------------------------

  predicate IsRoot(n: nat, r: nat) { r * r <= n < (r + 1) * (r + 1) }

  /** One Newton step: the mean of x and n / x, rounded down. */
  function Mean(n: nat, x: nat): nat
    requires x > 0
  {
    (x + n / x) / 2
  }

  /** The mean of any x and n / x is at least the root, rounded down. */
  lemma NewtonAbove(n: nat, x: nat)
    requires x > 0
    ensures (Mean(n, x) + 1) * (Mean(n, x) + 1) > n
  {
    var q := n / x;
    var s := (x + q) / 2 + 1;
    QuotientBounds(n, x);
    assert n < x * (q + 1);
    MeanAbove(x, q + 1, 2 * s);
    assert (2 * s) * (2 * s) == 4 * (s * s);
  }

  lemma MeanAbove(a: nat, b: nat, t: nat)
    requires t >= a + b
    ensures t * t >= 4 * (a * b)
  {
    SquareOfSum(a, b);
    SquareLe(a + b, t);
  }

  lemma SquareOfSum(a: nat, b: nat)
    ensures (a + b) * (a + b) >= 4 * (a * b)
  {
    var d := if a >= b then a - b else b - a;
    MulLe(0, d, d);
    assert d * d == (a - b) * (a - b) == a * a - 2 * (a * b) + b * b;
    assert (a + b) * (a + b) == a * a + 2 * (a * b) + b * b;
  }

  /** When the step no longer descends, the square is at most n. */
  lemma NewtonStopped(n: nat, x: nat)
    requires x > 0 && Mean(n, x) >= x
    ensures x * x <= n
  {
    QuotientBounds(n, x);
    MulLe(x, n / x, x);
  }

  lemma HalfAbove(n: nat)
    requires n >= 2
    ensures (n / 2 + 1) * (n / 2 + 1) > n
  {
    var h := n / 2;
    assert (h + 1) * (h + 1) == h * h + 2 * h + 1;
    MulLe(1, h, h);
  }

  method IntegerSqrt(n: nat) returns (r: nat)
    ensures IsRoot(n, r)
  {
    if n == 0 {
      return 0;
    }
    var x0 := n / 2;
    if x0 == 0 {
      return 1;
    }
    var x1 := (x0 + n / x0) / 2;
    HalfAbove(n);
    NewtonAbove(n, x0);
    while x1 < x0
      invariant x0 > 0 && x1 == Mean(n, x0)
      invariant (x0 + 1) * (x0 + 1) > n && (x1 + 1) * (x1 + 1) > n
      decreases x0
    {
      x0 := x1;
      PositiveRoot(n, x0);
      x1 := (x0 + n / x0) / 2;
      NewtonAbove(n, x0);
    }
    NewtonStopped(n, x0);
    r := x0;
  }

  lemma PositiveRoot(n: nat, x: nat)
    requires n >= 1 && (x + 1) * (x + 1) > n
    ensures x > 0
  {
  }

  /** Roots are unique and monotone. */
  lemma RootMonotone(n: nat, r: nat, m: nat, s: nat)
    requires IsRoot(n, r) && IsRoot(m, s) && n <= m
    ensures r <= s
  {
    if r > s {
      MulLe(s + 1, r, s + 1);
      MulLe(s + 1, r, r);
      assert false;
    }
  }

  ghost function Root(n: nat): (r: nat)
    ensures IsRoot(n, r)
  {
    RootExists(n);
    var r :| IsRoot(n, r);
    r
  }

  lemma {:induction false} RootExists(n: nat)
    ensures exists r: nat :: IsRoot(n, r)
  {
    if n == 0 {
      assert IsRoot(0, 0);
    } else {
      RootExists(n - 1);
      var r: nat :| IsRoot(n - 1, r);
      if n == (r + 1) * (r + 1) {
        NextSquare(r + 1);
        assert IsRoot(n, r + 1);
      } else {
        assert IsRoot(n, r);
      }
    }
  }

  lemma NextSquare(r: nat)
    ensures (r + 1) * (r + 1) > r * r
  {
  }

  lemma RootIs(n: nat, r: nat)
    requires IsRoot(n, r)
    ensures r == Root(n)
  {
    RootMonotone(n, r, n, Root(n));
    RootMonotone(n, Root(n), n, r);
  }

  // ---------------------------------------------------------------------------------------------
  // One band
  // ---------------------------------------------------------------------------------------------

  /** A 64-bit price read as an unsigned 128-bit word. */
  function AsU128(x: I64): nat { if x >= 0 then x else x + B128 }

  function BandStep(spot: I64, bps: nat): int { TruncDiv(Wrap(spot * bps), BPS) }

  /** A band whose price arithmetic stays inside 64 bits. */
  predicate PriceFits(spot: I64, bps: nat) {
    spot > 0 && spot * bps <= MAX_I64 && spot + spot * bps / BPS <= MAX_I64
  }

  lemma StepInRange(spot: I64, bps: nat)
    requires PriceFits(spot, bps)
    ensures BandStep(spot, bps) == spot * bps / BPS >= 0
  {
    MulLe(0, bps, spot);
    WrapSmall(spot * bps);
  }

  function AskTarget(spot: I64, bps: nat): (r: I64)
    ensures PriceFits(spot, bps) ==> spot <= r == spot + spot * bps / BPS
  {
    assert PriceFits(spot, bps) ==> Wrap(spot + BandStep(spot, bps)) == spot + spot * bps / BPS >= spot by {
      if PriceFits(spot, bps) {
        StepInRange(spot, bps);
        WrapSmall(spot + spot * bps / BPS);
      }
    }
    Wrap(spot + BandStep(spot, bps))
  }

  function BidTarget(spot: I64, bps: nat): (r: I64)
    ensures PriceFits(spot, bps) ==> r == spot - spot * bps / BPS <= spot
  {
    assert PriceFits(spot, bps) ==> BandStep(spot, bps) == spot * bps / BPS >= 0 by {
      if PriceFits(spot, bps) { StepInRange(spot, bps); }
    }
    Saturate(spot - BandStep(spot, bps))
  }

  function Saturate(x: int): I64 { if x > MAX_I64 then MAX_I64 else if x < MIN_I64 then MIN_I64 else x }

  function RatioSquared(spot: nat, target: nat): nat
    requires target > 0
  {
    spot * RATIO_SCALE_SQUARED / target
  }

  /** The base reserve left when the price has moved from spot to target. */
  ghost function TargetBase(reserve: nat, spot: nat, target: nat): nat
    requires target > 0
  {
    (reserve * Root(RatioSquared(spot, target)) % B128) / RATIO_SCALE
  }

  /** The one product that may exceed 128 bits. */
  ghost predicate Fits(reserve: nat, spot: nat, target: nat)
    requires target > 0
  {
    reserve * Root(RatioSquared(spot, target)) < B128
  }

  /** `ratio^2 * target <= spot * 10^18 < (ratio + 1)^2 * target`. */
  lemma RatioBrackets(spot: nat, target: nat)
    requires target > 0
    ensures var k := Root(RatioSquared(spot, target));
      k * k * target <= spot * RATIO_SCALE_SQUARED < (k + 1) * (k + 1) * target
  {
    var n, k := RatioSquared(spot, target), Root(RatioSquared(spot, target));
    Bracketed(spot * RATIO_SCALE_SQUARED, target, n, k * k, (k + 1) * (k + 1));
  }

  lemma Bracketed(x: nat, target: nat, n: nat, low: nat, high: nat)
    requires target > 0 && n == x / target && low <= n < high
    ensures low * target <= x < high * target
  {
    QuotientBounds(x, target);
    MulLe(low, n, target);
    MulLe(n + 1, high, target);
    assert (n + 1) * target == n * target + target;
  }

  lemma BaseBrackets(reserve: nat, spot: nat, target: nat)
    requires target > 0 && Fits(reserve, spot, target)
    ensures var k, b := Root(RatioSquared(spot, target)), TargetBase(reserve, spot, target);
      b * RATIO_SCALE <= reserve * k < (b + 1) * RATIO_SCALE
  {
    var k := Root(RatioSquared(spot, target));
    MulLe(0, k, reserve);
    DivUnique(reserve * k, B128, 0, reserve * k);
  }

  lemma SquareLe(x: nat, y: nat)
    requires x <= y
    ensures x * x <= y * y
  {
    MulLe(x, y, x);
    MulLe(x, y, y);
  }

  lemma SquareOfProduct(x: int, y: int)
    ensures (x * y) * (x * y) == (x * x) * (y * y)
  {
    assert (x * y) * (x * y) == x * (y * (x * y));
    assert y * (x * y) == x * (y * y);
    assert x * (x * (y * y)) == (x * x) * (y * y);
  }

  /** Rounding never overstates what remains: `base^2 * target <= reserve^2 * spot`. */
  lemma NeverAboveCurve(reserve: nat, spot: nat, target: nat)
    requires target > 0 && Fits(reserve, spot, target)
    ensures var b := TargetBase(reserve, spot, target); b * b * target <= reserve * reserve * spot
  {
    var k, b := Root(RatioSquared(spot, target)), TargetBase(reserve, spot, target);
    BaseBrackets(reserve, spot, target);
    RatioBrackets(spot, target);
    SquareLe(b * RATIO_SCALE, reserve * k);
    SquareOfProduct(b, RATIO_SCALE);
    SquareOfProduct(reserve, k);
    AboveChain(b * b, reserve * reserve, k * k, target, spot);
  }

  lemma AboveChain(bb: nat, rr: nat, kk: nat, target: nat, spot: nat)
    requires bb * RATIO_SCALE_SQUARED <= rr * kk && kk * target <= spot * RATIO_SCALE_SQUARED
    ensures bb * target <= rr * spot
  {
    MulLe(bb * RATIO_SCALE_SQUARED, rr * kk, target);
    MulLe(kk * target, spot * RATIO_SCALE_SQUARED, rr);
    assert (bb * RATIO_SCALE_SQUARED) * target == (bb * target) * RATIO_SCALE_SQUARED;
    assert (rr * kk) * target == rr * (kk * target);
    assert rr * (spot * RATIO_SCALE_SQUARED) == (rr * spot) * RATIO_SCALE_SQUARED;
    CancelFactor(bb * target, rr * spot, RATIO_SCALE_SQUARED);
  }

  /** And understates it by less than one unit plus the ratio's own last digit. */
  lemma CloseToCurve(reserve: nat, spot: nat, target: nat)
    requires target > 0 && reserve > 0 && Fits(reserve, spot, target)
    ensures var b := (TargetBase(reserve, spot, target) + 1) * RATIO_SCALE + reserve;
      b * b * target > reserve * reserve * (spot * RATIO_SCALE_SQUARED)
  {
    var k := Root(RatioSquared(spot, target));
    var b := (TargetBase(reserve, spot, target) + 1) * RATIO_SCALE + reserve;
    BaseBrackets(reserve, spot, target);
    RatioBrackets(spot, target);
    assert reserve * (k + 1) == reserve * k + reserve;
    SquareLe(reserve * (k + 1), b);
    SquareOfProduct(reserve, k + 1);
    CloseChain(b * b, reserve * reserve, (k + 1) * (k + 1), target, spot * RATIO_SCALE_SQUARED) by {
      MulLe(1, reserve, reserve);
    }
  }

  lemma CloseChain(bb: nat, rr: nat, kk: nat, target: nat, scaled: nat)
    requires rr > 0 && rr * kk <= bb && scaled < kk * target
    ensures rr * scaled < bb * target
  {
    MulLe(rr * kk, bb, target);
    MulLe(scaled + 1, kk * target, rr);
    assert (rr * kk) * target == rr * (kk * target);
    assert rr * (scaled + 1) == rr * scaled + rr;
  }

  lemma OneMore(x: nat, k: nat)
    ensures (x + 1) * k == x * k + k
  {
  }

  /** An ask band takes base out of the pool, never adds it. */
  lemma AskLeavesLess(reserve: nat, spot: nat, target: nat)
    requires 0 < spot <= target && Fits(reserve, spot, target)
    ensures TargetBase(reserve, spot, target) <= reserve
  {
    NeverAboveCurve(reserve, spot, target);
    var b := TargetBase(reserve, spot, target);
    if b > reserve {
      SquareLe(reserve + 1, b);
      assert (reserve + 1) * (reserve + 1) == reserve * reserve + 2 * reserve + 1;
      MulLe(reserve * reserve + 1, b * b, target);
      MulLe(spot, target, reserve * reserve);
      OneMore(reserve * reserve, target);
      assert false;
    }
  }

  /** A farther target leaves no more base behind. */
  lemma BaseAntitone(reserve: nat, spot: nat, near: nat, far: nat)
    requires 0 < near <= far && Fits(reserve, spot, near)
    ensures Fits(reserve, spot, far) && TargetBase(reserve, spot, far) <= TargetBase(reserve, spot, near)
  {
    var n, f := RatioSquared(spot, near), RatioSquared(spot, far);
    QuotientAntitone(spot * RATIO_SCALE_SQUARED, near, far);
    RootMonotone(f, Root(f), n, Root(n));
    MulLe(Root(f), Root(n), reserve);
    BaseBrackets(reserve, spot, near);
    BaseBrackets(reserve, spot, far);
  }

  lemma QuotientAntitone(x: nat, d: nat, e: nat)
    requires 0 < d <= e
    ensures x / e <= x / d
  {
    QuotientBounds(x, e);
    MulLe(d, e, x / e);
    QuotientAtLeast(x, d, x / e);
  }

  // ---------------------------------------------------------------------------------------------
  // The pool
  // ---------------------------------------------------------------------------------------------

  datatype UniswapV2Pool = UniswapV2Pool(reserveBase: nat, reserveQuote: nat, baseDecimals: nat, quoteDecimals: nat) {

    /** Powers of ten wrap to 128 bits; quantities are divided by this one. */
    predicate Usable() { reserveBase < B128 && Pow10(baseDecimals) % B128 > 0 }

    /** The spot price does not divide by zero either. */
    predicate SpotDefined() {
      baseDecimals >= quoteDecimals || reserveBase == 0
      || reserveBase * (Pow10(quoteDecimals - baseDecimals) % B128) % B128 > 0
    }

    /** The spot price at 10^8, cut from 128 bits to a signed 64-bit word. */
    function SpotPriceScaled(): I64
      requires SpotDefined()
    {
      if reserveBase == 0 then 0
      else if baseDecimals >= quoteDecimals then
        Wrap(reserveQuote * (Pow10(baseDecimals - quoteDecimals) % B128) % B128 * SCALE % B128 / reserveBase)
      else
        Wrap(reserveQuote * SCALE % B128 / (reserveBase * (Pow10(quoteDecimals - baseDecimals) % B128) % B128))
    }

    function QuantityScaled(delta: nat): nat
      requires Usable()
    {
      (delta * SCALE % B128) / (Pow10(baseDecimals) % B128) % B64
    }

    /** The level an ask band publishes, if it publishes one. */
    ghost function AskLevel(spot: I64, bps: nat, tsNs: nat): Option<Update>
      requires Usable() && spot > 0
    {
      var price := AskTarget(spot, bps);
      if AsU128(price) == 0 then None
      else
        var left := TargetBase(reserveBase, spot, AsU128(price));
        if reserveBase > left then Some(Update(price, QuantityScaled(reserveBase - left), 1, tsNs)) else None
    }

    ghost function BidLevel(spot: I64, bps: nat, tsNs: nat): Option<Update>
      requires Usable() && spot > 0
    {
      var price := BidTarget(spot, bps);
      if price <= 0 then None
      else
        var reached := TargetBase(reserveBase, spot, price);
        if reached > reserveBase then Some(Update(price, QuantityScaled(reached - reserveBase), 1, tsNs)) else None
    }

    method BaseAtTarget(spot: I64, target: nat) returns (base: nat)
      requires Usable() && spot > 0 && target > 0
      ensures base == TargetBase(reserveBase, spot, target)
    {
      var ratioSq := spot * RATIO_SCALE_SQUARED / target;
      var ratio := IntegerSqrt(ratioSq);
      RootIs(ratioSq, ratio);
      base := (reserveBase * ratio % B128) / RATIO_SCALE;
    }

    method PublishAsk(book: ContiguousOrderBook, spot: I64, bps: nat, tsNs: nat)
      requires Usable() && spot > 0 && book.Valid()
      modifies book`bestAskIdx, book.asks
      ensures book.Valid()
      ensures (book.asks[..], book.bestAskIdx)
        == AppliedTo(false, book.basePrice, old(book.asks[..]), old(book.bestAskIdx), AskLevel(spot, bps, tsNs))
    {
      var targetPrice := AskTarget(spot, bps);
      if AsU128(targetPrice) > 0 {
        var targetBase := BaseAtTarget(spot, AsU128(targetPrice));
        if reserveBase > targetBase {
          book.UpdateAsk(targetPrice, QuantityScaled(reserveBase - targetBase), 1, tsNs);
        }
      }
    }

    method PublishBid(book: ContiguousOrderBook, spot: I64, bps: nat, tsNs: nat)
      requires Usable() && spot > 0 && book.Valid()
      modifies book`bestBidIdx, book.bids
      ensures book.Valid()
      ensures (book.bids[..], book.bestBidIdx)
        == AppliedTo(true, book.basePrice, old(book.bids[..]), old(book.bestBidIdx), BidLevel(spot, bps, tsNs))
    {
      var targetPrice := BidTarget(spot, bps);
      if targetPrice > 0 {
        var targetBase := BaseAtTarget(spot, targetPrice);
        if targetBase > reserveBase {
          book.UpdateBid(targetPrice, QuantityScaled(targetBase - reserveBase), 1, tsNs);
        }
      }
    }

    /** Both ladders, band by band; nothing happens without a positive spot price. */
    method PopulateVirtualOrderBook(book: ContiguousOrderBook, bandsBps: seq<nat>, tsNs: nat)
      requires Usable() && SpotDefined() && book.Valid()
      modifies book`bestBidIdx, book`bestAskIdx, book.bids, book.asks
      ensures book.Valid()
      ensures var spot := SpotPriceScaled();
        spot > 0 ==>
        && (book.asks[..], book.bestAskIdx)
             == Ladder(false, spot, bandsBps, tsNs, book.basePrice, old(book.asks[..]), old(book.bestAskIdx))
        && (book.bids[..], book.bestBidIdx)
             == Ladder(true, spot, bandsBps, tsNs, book.basePrice, old(book.bids[..]), old(book.bestBidIdx))
      ensures SpotPriceScaled() <= 0 ==> book.asks[..] == old(book.asks[..]) && book.bids[..] == old(book.bids[..])
    {
      var spot := SpotPriceScaled();
      if spot <= 0 {
        return;
      }
      var i := 0;
      while i < |bandsBps|
        invariant i <= |bandsBps| && book.Valid()
        invariant (book.asks[..], book.bestAskIdx)
          == Ladder(false, spot, bandsBps[..i], tsNs, book.basePrice, old(book.asks[..]), old(book.bestAskIdx))
        invariant (book.bids[..], book.bestBidIdx)
          == Ladder(true, spot, bandsBps[..i], tsNs, book.basePrice, old(book.bids[..]), old(book.bestBidIdx))
      {
        LadderStep(false, spot, bandsBps, i, tsNs, book.basePrice, old(book.asks[..]), old(book.bestAskIdx));
        LadderStep(true, spot, bandsBps, i, tsNs, book.basePrice, old(book.bids[..]), old(book.bestBidIdx));
        PublishAsk(book, spot, bandsBps[i], tsNs);
        PublishBid(book, spot, bandsBps[i], tsNs);
        i := i + 1;
      }
      assert bandsBps[..i] == bandsBps;
    }

    ghost function Level(bid: bool, spot: I64, bps: nat, tsNs: nat): Option<Update>
      requires Usable() && spot > 0
    {
      if bid then BidLevel(spot, bps, tsNs) else AskLevel(spot, bps, tsNs)
    }

    /** One side of a book after all bands. */
    ghost function Ladder(bid: bool, spot: I64, bandsBps: seq<nat>, tsNs: nat, basePrice: I64,
                          levels: OrderBook.Levels, best: nat): (r: (OrderBook.Levels, nat))
      requires Usable() && spot > 0 && |levels| == PRICE_LEVELS_COUNT && best < PRICE_LEVELS_COUNT
      ensures |r.0| == PRICE_LEVELS_COUNT && r.1 < PRICE_LEVELS_COUNT
      decreases |bandsBps|
    {
      if bandsBps == [] then (levels, best)
      else
        var n := |bandsBps| - 1;
        var (next, best') := Ladder(bid, spot, bandsBps[..n], tsNs, basePrice, levels, best);
        AppliedTo(bid, basePrice, next, best', Level(bid, spot, bandsBps[n], tsNs))
    }

    lemma LadderStep(bid: bool, spot: I64, bandsBps: seq<nat>, i: nat, tsNs: nat, basePrice: I64,
                     levels: OrderBook.Levels, best: nat)
      requires Usable() && spot > 0 && |levels| == PRICE_LEVELS_COUNT && best < PRICE_LEVELS_COUNT && i < |bandsBps|
      ensures var (next, best') := Ladder(bid, spot, bandsBps[..i], tsNs, basePrice, levels, best);
        Ladder(bid, spot, bandsBps[..i + 1], tsNs, basePrice, levels, best)
          == AppliedTo(bid, basePrice, next, best',
                       if bid then BidLevel(spot, bandsBps[i], tsNs) else AskLevel(spot, bandsBps[i], tsNs))
    {
      assert bandsBps[..i + 1][..i] == bandsBps[..i];
    }
  }

  function AppliedTo(bid: bool, basePrice: I64, levels: OrderBook.Levels, best: nat, u: Option<Update>)
      : (r: (OrderBook.Levels, nat))
    requires |levels| == PRICE_LEVELS_COUNT && best < PRICE_LEVELS_COUNT
    ensures |r.0| == PRICE_LEVELS_COUNT && r.1 < PRICE_LEVELS_COUNT
  {
    if u.Some? then Applied(bid, basePrice, levels, best, u.value) else (levels, best)
  }

  // ---------------------------------------------------------------------------------------------
  // Depth across bands
  // ---------------------------------------------------------------------------------------------

  /** A quantity that neither the scaling nor the final cast truncates. */
  predicate QuantityFits(pool: UniswapV2Pool, delta: nat)
    requires pool.Usable()
  {
    delta * SCALE < B128 && delta * SCALE / (Pow10(pool.baseDecimals) % B128) < B64
  }

  /** The published quantity is the base amount scaled by 10^8 / 10^decimals, rounded down. */
  lemma QuantityBrackets(pool: UniswapV2Pool, delta: nat)
    requires pool.Usable() && Pow10(pool.baseDecimals) < B128 && QuantityFits(pool, delta)
    ensures var q, unit := pool.QuantityScaled(delta), Pow10(pool.baseDecimals);
      q * unit <= delta * 100_000_000 < (q + 1) * unit
  {
    var x, unit := delta * SCALE, Pow10(pool.baseDecimals);
    DivUnique(unit, B128, 0, unit);
    DivUnique(x, B128, 0, x);
    QuotientBounds(x, unit);
    QuotientAtLeast(x, unit, 0);
    DivUnique(x / unit, B64, 0, x / unit);
    assert (x / unit + 1) * unit == (x / unit) * unit + unit;
  }

  /** The words of the spot price hold their values. */
  ghost predicate SpotFits(pool: UniswapV2Pool) {
    var up, down := Pow10(pool.baseDecimals), Pow10(pool.quoteDecimals);
    && pool.SpotDefined() && pool.reserveBase > 0 && up < B128 && down < B128
    && if pool.baseDecimals >= pool.quoteDecimals then
         pool.reserveQuote * Pow10(pool.baseDecimals - pool.quoteDecimals) * SCALE < B128
         && pool.reserveQuote * Pow10(pool.baseDecimals - pool.quoteDecimals) * SCALE / pool.reserveBase <= MAX_I64
       else
         pool.reserveQuote * SCALE < B128 && pool.reserveBase * Pow10(pool.quoteDecimals - pool.baseDecimals) < B128
         && pool.reserveQuote * SCALE / (pool.reserveBase * Pow10(pool.quoteDecimals - pool.baseDecimals)) <= MAX_I64
  }

  /** The spot price is the ratio of the reserves in whole tokens, at 10^8, rounded down, whichever coin
      has more decimals. */
  lemma SpotBrackets(pool: UniswapV2Pool)
    requires SpotFits(pool)
    ensures Between(pool.SpotPriceScaled(), pool.reserveBase * Pow10(pool.quoteDecimals),
        pool.reserveQuote * Pow10(pool.baseDecimals) * SCALE)
  {
    if pool.baseDecimals >= pool.quoteDecimals {
      SpotWhole(pool);
    } else {
      SpotParts(pool);
    }
  }

  lemma SpotWhole(pool: UniswapV2Pool)
    requires SpotFits(pool) && pool.baseDecimals >= pool.quoteDecimals
    ensures Between(pool.SpotPriceScaled(), pool.reserveBase * Pow10(pool.quoteDecimals),
        pool.reserveQuote * Pow10(pool.baseDecimals) * SCALE)
  {
    var b, q, down, diff := pool.reserveBase, pool.reserveQuote, Pow10(pool.quoteDecimals),
      Pow10(pool.baseDecimals - pool.quoteDecimals);
    DiffBelow(pool.baseDecimals - pool.quoteDecimals, pool.quoteDecimals);
    SpotWide(b, q, diff);
    ScaledWide(b, q, diff, down, pool.SpotPriceScaled());
  }

  lemma SpotParts(pool: UniswapV2Pool)
    requires SpotFits(pool) && pool.baseDecimals < pool.quoteDecimals
    ensures Between(pool.SpotPriceScaled(), pool.reserveBase * Pow10(pool.quoteDecimals),
        pool.reserveQuote * Pow10(pool.baseDecimals) * SCALE)
  {
    var b, q, up, diff := pool.reserveBase, pool.reserveQuote, Pow10(pool.baseDecimals),
      Pow10(pool.quoteDecimals - pool.baseDecimals);
    DiffBelow(pool.quoteDecimals - pool.baseDecimals, pool.baseDecimals);
    MulLe(1, diff, b);
    SpotNarrow(b, q, diff);
    ScaledNarrow(b, q, diff, up, pool.SpotPriceScaled());
  }

  lemma DiffBelow(d: nat, low: nat)
    ensures Pow10(d) * Pow10(low) == Pow10(d + low) && Pow10(d) <= Pow10(d + low)
  {
    Pow10Add(d, low);
    MulLe(1, Pow10(low), Pow10(d));
  }

  /** `p` is `parts / whole` rounded down. */
  ghost predicate Between(p: int, whole: int, parts: int) {
    p >= 0 && p * whole <= parts < (p + 1) * whole
  }

  lemma ScaledWide(b: nat, q: nat, diff: nat, down: nat, p: int)
    requires b > 0 && down > 0 && p >= 0 && p * b <= q * diff * SCALE < p * b + b
    ensures Between(p, b * down, q * (diff * down) * SCALE)
  {
    ScaleBoth(q * diff * SCALE, b, p, down);
    Reordered(q, diff, down);
  }

  lemma ScaledNarrow(b: nat, q: nat, diff: nat, up: nat, p: int)
    requires b > 0 && up > 0 && p >= 0 && p * (b * diff) <= q * SCALE < p * (b * diff) + b * diff
    ensures Between(p, b * (diff * up), q * up * SCALE)
  {
    ScaleBoth(q * SCALE, b * diff, p, up);
    assert (b * diff) * up == b * (diff * up) && q * SCALE * up == q * up * SCALE;
  }

  lemma Reordered(q: int, x: int, y: int)
    ensures q * x * SCALE * y == q * (x * y) * SCALE
  {
    assert q * x * y == q * (x * y);
  }

  lemma SpotWide(b: nat, q: nat, diff: nat)
    requires b > 0 && 0 < diff < B128 && q * diff * SCALE < B128 && q * diff * SCALE / b <= MAX_I64
    ensures var p := Wrap(q * (diff % B128) % B128 * SCALE % B128 / b);
      p >= 0 && p * b <= q * diff * SCALE < p * b + b
  {
    MulLe(0, diff, q);
    DivUnique(diff, B128, 0, diff);
    DivUnique(q * diff, B128, 0, q * diff);
    DivUnique(q * diff * SCALE, B128, 0, q * diff * SCALE);
    SpotQuotient(q * diff * SCALE, b);
  }

  lemma SpotNarrow(b: nat, q: nat, diff: nat)
    requires b > 0 && 0 < diff < B128 && q * SCALE < B128 && 0 < b * diff < B128 && q * SCALE / (b * diff) <= MAX_I64
    ensures var p := Wrap(q * SCALE % B128 / (b * (diff % B128) % B128));
      p >= 0 && p * (b * diff) <= q * SCALE < p * (b * diff) + b * diff
  {
    DivUnique(diff, B128, 0, diff);
    DivUnique(b * diff, B128, 0, b * diff);
    DivUnique(q * SCALE, B128, 0, q * SCALE);
    SpotQuotient(q * SCALE, b * diff);
  }

  lemma SpotQuotient(x: nat, den: nat)
    requires den > 0 && x / den <= MAX_I64
    ensures Wrap(x / den) == x / den >= 0 && (x / den) * den <= x < (x / den) * den + den
  {
    QuotientBounds(x, den);
    QuotientAtLeast(x, den, 0);
    WrapSmall(x / den);
  }

  lemma ScaleBoth(x: int, den: int, p: int, k: nat)
    requires k > 0 && p * den <= x < p * den + den
    ensures p * (den * k) <= x * k < (p + 1) * (den * k)
  {
    MulLe(p * den, x, k);
    MulLe(x + 1, p * den + den, k);
    assert p * (den * k) == (p * den) * k && (p + 1) * (den * k) == (p * den + den) * k;
  }

  /** The band's prices lie that many basis points from spot, rounded toward it. */
  lemma BandBrackets(spot: I64, bps: nat)
    requires PriceFits(spot, bps)
    ensures var up, down := AskTarget(spot, bps) - spot, spot - BidTarget(spot, bps);
      up == down && 10_000 * up <= spot * bps < 10_000 * up + 10_000
  {
    MulLe(0, bps, spot);
    QuotientBounds(spot * bps, BPS);
  }

  lemma WiderBand(spot: I64, near: nat, far: nat)
    requires near <= far && PriceFits(spot, far)
    ensures PriceFits(spot, near)
    ensures AskTarget(spot, near) <= AskTarget(spot, far) && BidTarget(spot, far) <= BidTarget(spot, near)
  {
    MulLe(near, far, spot);
  }

  lemma QuantityMonotone(pool: UniswapV2Pool, less: nat, more: nat)
    requires pool.Usable() && less <= more && QuantityFits(pool, more)
    ensures QuantityFits(pool, less) && pool.QuantityScaled(less) <= pool.QuantityScaled(more)
  {
    ScaledMonotone(less * SCALE, more * SCALE, Pow10(pool.baseDecimals) % B128);
  }

  lemma ScaledMonotone(a: nat, b: nat, d: nat)
    requires 0 < d && a <= b < B128 && b / d < B64
    ensures a / d <= b / d
    ensures (a % B128) / d % B64 == a / d && (b % B128) / d % B64 == b / d
  {
    QuotientBounds(a, d);
    QuotientAtLeast(b, d, a / d);
    DivUnique(a, B128, 0, a);
    DivUnique(b, B128, 0, b);
    DivUnique(a / d, B64, 0, a / d);
    DivUnique(b / d, B64, 0, b / d);
  }

  lemma AskRemainder(reserve: nat, spot: nat, price: nat)
    requires 0 < spot <= price && Fits(reserve, spot, spot)
    ensures Fits(reserve, spot, price)
    ensures var left := TargetBase(reserve, spot, price); left <= reserve && left * left * price <= reserve * reserve * spot
  {
    BaseAntitone(reserve, spot, spot, price);
    NeverAboveCurve(reserve, spot, price);
    AskLeavesLess(reserve, spot, price);
  }

  /** The published ask price and depth sit on the constant-product curve: what remains in the pool
      squares, at the target price, to no more than the reserve does at spot. */
  lemma AskOnCurve(pool: UniswapV2Pool, spot: I64, bps: nat, tsNs: nat)
    requires pool.Usable() && PriceFits(spot, bps) && Fits(pool.reserveBase, spot, spot)
    ensures var price := AskTarget(spot, bps);
      var left := TargetBase(pool.reserveBase, spot, price);
      && left <= pool.reserveBase && left * left * price <= pool.reserveBase * pool.reserveBase * spot
      && pool.AskLevel(spot, bps, tsNs)
           == if left == pool.reserveBase then None
              else Some(Update(price, pool.QuantityScaled(pool.reserveBase - left), 1, tsNs))
  {
    AskRemainder(pool.reserveBase, spot, AskTarget(spot, bps));
    AskLevelIs(pool, spot, bps, tsNs);
  }

  /** The published bid price and depth sit on the curve too: what the pool would hold squares, at the
      target price, to no more than the reserve does at spot, and the bid is for the difference. */
  lemma BidOnCurve(pool: UniswapV2Pool, spot: I64, bps: nat, tsNs: nat)
    requires pool.Usable() && spot > 0 && BidTarget(spot, bps) > 0 && Fits(pool.reserveBase, spot, BidTarget(spot, bps))
    ensures var price := BidTarget(spot, bps);
      var reached, level := TargetBase(pool.reserveBase, spot, price), pool.BidLevel(spot, bps, tsNs);
      && reached * reached * price <= pool.reserveBase * pool.reserveBase * spot
      && (level.None? <==> reached <= pool.reserveBase)
      && (level.Some? ==>
            && level.value.price == price && level.value.quantity == pool.QuantityScaled(reached - pool.reserveBase)
            && level.value.orderCount == 1 && level.value.ts == tsNs)
  {
    NeverAboveCurve(pool.reserveBase, spot, BidTarget(spot, bps));
  }

  lemma AskLevelIs(pool: UniswapV2Pool, spot: I64, bps: nat, tsNs: nat)
    requires pool.Usable() && PriceFits(spot, bps) && TargetBase(pool.reserveBase, spot, AskTarget(spot, bps)) <= pool.reserveBase
    ensures var price := AskTarget(spot, bps);
      var left := TargetBase(pool.reserveBase, spot, price);
      pool.AskLevel(spot, bps, tsNs)
        == if left == pool.reserveBase then None
           else Some(Update(price, pool.QuantityScaled(pool.reserveBase - left), 1, tsNs))
  {
  }

  lemma FartherLeavesLess(reserve: nat, spot: nat, near: nat, far: nat)
    requires 0 < spot <= near <= far && Fits(reserve, spot, spot)
    ensures TargetBase(reserve, spot, far) <= TargetBase(reserve, spot, near) <= reserve
  {
    AskRemainder(reserve, spot, near);
    BaseAntitone(reserve, spot, near, far);
  }

  /** The less is left, the more is published. */
  lemma LessLeftIsMore(pool: UniswapV2Pool, less: nat, left: nat)
    requires pool.Usable() && less <= left <= pool.reserveBase && QuantityFits(pool, pool.reserveBase)
    ensures pool.QuantityScaled(pool.reserveBase - left) <= pool.QuantityScaled(pool.reserveBase - less)
  {
    QuantityMonotone(pool, pool.reserveBase - less, pool.reserveBase);
    QuantityMonotone(pool, pool.reserveBase - left, pool.reserveBase - less);
  }

  lemma AsksCompare(pool: UniswapV2Pool, spot: I64, near: nat, far: nat, tsNs: nat)
    requires pool.Usable() && PriceFits(spot, near) && PriceFits(spot, far) && AskTarget(spot, near) <= AskTarget(spot, far)
    requires TargetBase(pool.reserveBase, spot, AskTarget(spot, far))
          <= TargetBase(pool.reserveBase, spot, AskTarget(spot, near)) <= pool.reserveBase
    requires pool.QuantityScaled(pool.reserveBase - TargetBase(pool.reserveBase, spot, AskTarget(spot, near)))
          <= pool.QuantityScaled(pool.reserveBase - TargetBase(pool.reserveBase, spot, AskTarget(spot, far)))
    requires pool.AskLevel(spot, near, tsNs).Some?
    ensures var n, f := pool.AskLevel(spot, near, tsNs), pool.AskLevel(spot, far, tsNs);
      f.Some? && n.value.price <= f.value.price && n.value.quantity <= f.value.quantity
  {
    AskLevelIs(pool, spot, near, tsNs);
    AskLevelIs(pool, spot, far, tsNs);
  }

  /** A wider band asks at a price at least as high for at least as much. */
  lemma AskDepthMonotone(pool: UniswapV2Pool, spot: I64, near: nat, far: nat, tsNs: nat)
    requires pool.Usable() && near <= far && PriceFits(spot, far)
    requires Fits(pool.reserveBase, spot, spot) && QuantityFits(pool, pool.reserveBase)
    requires pool.AskLevel(spot, near, tsNs).Some?
    ensures var n, f := pool.AskLevel(spot, near, tsNs), pool.AskLevel(spot, far, tsNs);
      f.Some? && n.value.price <= f.value.price && n.value.quantity <= f.value.quantity
  {
    WiderBand(spot, near, far);
    FartherLeavesLess(pool.reserveBase, spot, AskTarget(spot, near), AskTarget(spot, far));
    LessLeftIsMore(pool, TargetBase(pool.reserveBase, spot, AskTarget(spot, far)),
                   TargetBase(pool.reserveBase, spot, AskTarget(spot, near)));
    AsksCompare(pool, spot, near, far, tsNs);
  }

  /** A wider band bids at a price at most as high for at least as much, while its price is positive. */
  lemma BidDepthMonotone(pool: UniswapV2Pool, spot: I64, near: nat, far: nat, tsNs: nat)
    requires pool.Usable() && near <= far && PriceFits(spot, far) && BidTarget(spot, far) > 0
    requires Fits(pool.reserveBase, spot, BidTarget(spot, far))
    requires QuantityFits(pool, TargetBase(pool.reserveBase, spot, BidTarget(spot, far)))
    requires pool.BidLevel(spot, near, tsNs).Some?
    ensures var n, f := pool.BidLevel(spot, near, tsNs), pool.BidLevel(spot, far, tsNs);
      f.Some? && f.value.price <= n.value.price && n.value.quantity <= f.value.quantity
  {
    WiderBand(spot, near, far);
    BaseAntitone(pool.reserveBase, spot, BidTarget(spot, far), BidTarget(spot, near));
    var reached := TargetBase(pool.reserveBase, spot, BidTarget(spot, near));
    var more := TargetBase(pool.reserveBase, spot, BidTarget(spot, far));
    QuantityMonotone(pool, more - pool.reserveBase, more);
    QuantityMonotone(pool, reached - pool.reserveBase, more - pool.reserveBase);
  }
}
