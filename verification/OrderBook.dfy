/** The flat-array order book with a cached best index per side. One set of specification functions
    serves both sides; `bid` says which way prices improve. */
module OrderBook {
  import opened Bits
  import opened FixedPoint
  import opened Wrappers

  const PRICE_LEVELS_COUNT: nat := 2048
  const TICK_SIZE: int := 100_000

  datatype PriceLevel = PriceLevel(price: I64, quantity: nat, orderCount: nat, lastUpdateTs: nat) {
    predicate Live() { quantity > 0 }
  }

  const EmptyLevel := PriceLevel(0, 0, 0, 0)

  /** The slot of a price: its wrapped 64-bit distance from the base, in ticks, either side of it. */
  function Slot(basePrice: I64, price: I64): (r: Option<nat>)
    ensures r.Some? ==> r.value < PRICE_LEVELS_COUNT
  {
    var diff := TruncDiv(if price >= basePrice then Wrap(price - basePrice) else Wrap(basePrice - price), TICK_SIZE);
    if 0 <= diff < PRICE_LEVELS_COUNT then Some(diff) else None
  }

  function Better(bid: bool, p: int, q: int): bool { if bid then p > q else p < q }

  /** The price a rescan starts from: no level at or beyond it can replace the default slot 0. */
  function Worst(bid: bool): I64 { if bid then 0 else MAX_I64 }

  type Levels = s: seq<PriceLevel> | |s| > 0
    witness [PriceLevel(0, 0, 0, 0)]

  /** Index and price of the best level among the first n, as the rescan loop tracks them. */
  function Rescan(bid: bool, levels: seq<PriceLevel>, n: nat): (r: (nat, I64))
    requires n <= |levels|
    ensures n > 0 ==> r.0 < n
    ensures n == 0 ==> r.0 == 0
  {
    if n == 0 then (0, Worst(bid))
    else
      var (idx, price) := Rescan(bid, levels, n - 1);
      var level := levels[n - 1];
      if level.Live() && Better(bid, level.price, price) then (n - 1, level.price) else (idx, price)
  }

  /** One side after an update of slot idx. */
  function Updated(bid: bool, levels: Levels, best: nat, idx: nat, level: PriceLevel): (r: (Levels, nat))
    requires idx < |levels| && best < |levels|
    ensures |r.0| == |levels| && r.1 < |levels|
  {
    var next := levels[idx := level];
    if level.Live() && (!next[best].Live() || Better(bid, level.price, next[best].price)) then (next, idx)
    else if !level.Live() && idx == best then (next, Rescan(bid, next, |next|).0)
    else (next, best)
  }

  // ---------------------------------------------------------------------------------------------
  // What the cache should say
  // ---------------------------------------------------------------------------------------------

  /** The cached slot is live unless no slot is, and no live level has a better price. */
  ghost predicate IsBest(bid: bool, levels: Levels, best: nat) {
    && best < |levels|
    && (levels[best].Live() || forall i :: 0 <= i < |levels| ==> !levels[i].Live())
    && forall i :: 0 <= i < |levels| && levels[i].Live() ==> !Better(bid, levels[i].price, levels[best].price)
  }

  /** A rescan can see every live level, or finds it by default in slot 0. */
  ghost predicate Visible(bid: bool, levels: Levels) {
    forall i :: 0 <= i < |levels| && levels[i].Live() ==>
      Better(bid, levels[i].price, Worst(bid)) || (i == 0 && levels[i].price == Worst(bid))
  }

  lemma {:induction false} RescanSees(bid: bool, levels: Levels, n: nat)
    requires n <= |levels|
    ensures var (idx, price) := Rescan(bid, levels, n);
      && ((price == Worst(bid) && idx == 0) || (idx < n && levels[idx].Live() && levels[idx].price == price && Better(bid, price, Worst(bid))))
      && (forall i :: 0 <= i < n && levels[i].Live() ==> !Better(bid, levels[i].price, price))
      && !Better(bid, Worst(bid), price)
  {
    if n == 0 {
    } else {
      RescanSees(bid, levels, n - 1);
    }
  }

  /** What a rescan cannot find: live levels, none of them better than the price it starts from, the
      best of them not in slot 0. */
  ghost predicate Unseen(bid: bool, levels: Levels) {
    && (exists i :: 0 <= i < |levels| && levels[i].Live())
    && (forall i :: 0 <= i < |levels| && levels[i].Live() ==> !Better(bid, levels[i].price, Worst(bid)))
    && !IsBest(bid, levels, 0)
  }

  lemma RescanIsBestIff(bid: bool, levels: Levels)
    ensures IsBest(bid, levels, Rescan(bid, levels, |levels|).0) <==> !Unseen(bid, levels)
  {
    RescanSees(bid, levels, |levels|);
  }

  lemma VisibleIsSeen(bid: bool, levels: Levels)
    requires Visible(bid, levels)
    ensures !Unseen(bid, levels)
  {
  }

  /** The one update that fools the cache: the best slot, live and rewritten live, ends up behind
      another live level. */
  ghost predicate Demoted(bid: bool, levels: Levels, best: nat, idx: nat, level: PriceLevel)
    requires idx < |levels|
  {
    level.Live() && idx == best
    && exists i :: 0 <= i < |levels| && i != idx && levels[i].Live() && Better(bid, levels[i].price, level.price)
  }

  /** From a correct cache, an update leaves it correct if and only if it neither demotes the best slot
      nor empties it and leaves only levels that the rescan cannot see. */
  lemma UpdateKeepsBestIff(bid: bool, levels: Levels, best: nat, idx: nat, level: PriceLevel)
    requires idx < |levels| && IsBest(bid, levels, best)
    ensures var (next, best') := Updated(bid, levels, best, idx, level);
      IsBest(bid, next, best') <==>
        !Demoted(bid, levels, best, idx, level) && !(!level.Live() && idx == best && Unseen(bid, next))
  {
    var next: Levels := levels[idx := level];
    if !level.Live() && idx == best {
      RescanIsBestIff(bid, next);
    } else if Demoted(bid, levels, best, idx, level) {
      var i :| 0 <= i < |levels| && i != idx && levels[i].Live() && Better(bid, levels[i].price, level.price);
      assert next[i] == levels[i] && next[best] == level;
    }
  }

  /** A slot that is dead, or already holds this price, cannot be demoted. */
  lemma SamePriceNeverDemotes(bid: bool, levels: Levels, best: nat, idx: nat, level: PriceLevel)
    requires idx < |levels| && IsBest(bid, levels, best)
    requires !levels[idx].Live() || levels[idx].price == level.price
    ensures !Demoted(bid, levels, best, idx, level)
  {
  }

  // ---------------------------------------------------------------------------------------------
  // The book
  // ---------------------------------------------------------------------------------------------

  class ContiguousOrderBook {
    const bids: array<PriceLevel>
    const asks: array<PriceLevel>
    var bestBidIdx: nat
    var bestAskIdx: nat
    const basePrice: I64

    ghost predicate Valid()
      reads this
    {
      && bids != asks && bids.Length == asks.Length == PRICE_LEVELS_COUNT
      && bestBidIdx < PRICE_LEVELS_COUNT && bestAskIdx < PRICE_LEVELS_COUNT
    }

    constructor (basePrice: I64)
      ensures Valid() && fresh(bids) && fresh(asks) && this.basePrice == basePrice
      ensures bestBidIdx == 0 && bestAskIdx == PRICE_LEVELS_COUNT - 1
      ensures forall i :: 0 <= i < PRICE_LEVELS_COUNT ==> bids[i] == EmptyLevel && asks[i] == EmptyLevel
    {
      bids := new PriceLevel[PRICE_LEVELS_COUNT](_ => EmptyLevel);
      asks := new PriceLevel[PRICE_LEVELS_COUNT](_ => EmptyLevel);
      bestBidIdx, bestAskIdx := 0, PRICE_LEVELS_COUNT - 1;
      this.basePrice := basePrice;
    }

    method UpdateBid(price: I64, quantity: nat, orderCount: nat, ts: nat)
      requires Valid()
      modifies this`bestBidIdx, bids
      ensures Valid()
      ensures (bids[..], bestBidIdx)
        == Applied(true, basePrice, old(bids[..]), old(bestBidIdx), Update(price, quantity, orderCount, ts))
    {
      var diff := TruncDiv(if price >= basePrice then Wrap(price - basePrice) else Wrap(basePrice - price), TICK_SIZE);
      if diff >= 0 && diff < PRICE_LEVELS_COUNT {
        var idx: nat := if diff < PRICE_LEVELS_COUNT - 1 then diff else PRICE_LEVELS_COUNT - 1;
        bids[idx] := PriceLevel(price, quantity, orderCount, ts);
        assert bids[..] == old(bids[..])[idx := PriceLevel(price, quantity, orderCount, ts)];
        if quantity > 0 && (bids[bestBidIdx].quantity == 0 || price > bids[bestBidIdx].price) {
          bestBidIdx := idx;
        } else if quantity == 0 && idx == bestBidIdx {
          RecalculateBestBid();
        }
      }
    }

    method UpdateAsk(price: I64, quantity: nat, orderCount: nat, ts: nat)
      requires Valid()
      modifies this`bestAskIdx, asks
      ensures Valid()
      ensures (asks[..], bestAskIdx)
        == Applied(false, basePrice, old(asks[..]), old(bestAskIdx), Update(price, quantity, orderCount, ts))
    {
      var diff := TruncDiv(if price >= basePrice then Wrap(price - basePrice) else Wrap(basePrice - price), TICK_SIZE);
      if diff >= 0 && diff < PRICE_LEVELS_COUNT {
        var idx: nat := if diff < PRICE_LEVELS_COUNT - 1 then diff else PRICE_LEVELS_COUNT - 1;
        asks[idx] := PriceLevel(price, quantity, orderCount, ts);
        assert asks[..] == old(asks[..])[idx := PriceLevel(price, quantity, orderCount, ts)];
        if quantity > 0 && (asks[bestAskIdx].quantity == 0 || price < asks[bestAskIdx].price) {
          bestAskIdx := idx;
        } else if quantity == 0 && idx == bestAskIdx {
          RecalculateBestAsk();
        }
      }
    }

    method RecalculateBestBid()
      requires Valid()
      modifies this`bestBidIdx
      ensures Valid() && bestBidIdx == Rescan(true, bids[..], PRICE_LEVELS_COUNT).0
    {
      var bestIdx: nat, bestPrice: I64 := 0, 0;
      for i := 0 to bids.Length
        invariant (bestIdx, bestPrice) == Rescan(true, bids[..], i)
      {
        if bids[i].quantity > 0 && bids[i].price > bestPrice {
          bestPrice := bids[i].price;
          bestIdx := i;
        }
      }
      bestBidIdx := bestIdx;
    }

    method RecalculateBestAsk()
      requires Valid()
      modifies this`bestAskIdx
      ensures Valid() && bestAskIdx == Rescan(false, asks[..], PRICE_LEVELS_COUNT).0
    {
      var bestIdx: nat, bestPrice: I64 := 0, MAX_I64;
      for i := 0 to asks.Length
        invariant (bestIdx, bestPrice) == Rescan(false, asks[..], i)
      {
        if asks[i].quantity > 0 && asks[i].price < bestPrice {
          bestPrice := asks[i].price;
          bestIdx := i;
        }
      }
      bestAskIdx := bestIdx;
    }

    method BboBid() returns (r: Option<PriceLevel>)
      requires Valid()
      ensures r == Bbo(bids[..], bestBidIdx)
    {
      var level := bids[bestBidIdx];
      if level.quantity > 0 { r := Some(level); } else { r := None; }
    }

    method BboAsk() returns (r: Option<PriceLevel>)
      requires Valid()
      ensures r == Bbo(asks[..], bestAskIdx)
    {
      var level := asks[bestAskIdx];
      if level.quantity > 0 { r := Some(level); } else { r := None; }
    }
  }

  function Bbo(levels: seq<PriceLevel>, best: nat): Option<PriceLevel>
    requires best < |levels|
  {
    if levels[best].Live() then Some(levels[best]) else None
  }

  datatype Update = Update(price: I64, quantity: nat, orderCount: nat, ts: nat) {
    function Level(): PriceLevel { PriceLevel(price, quantity, orderCount, ts) }
  }

  function Applied(bid: bool, basePrice: I64, levels: Levels, best: nat, u: Update): (r: (Levels, nat))
    requires |levels| == PRICE_LEVELS_COUNT && best < PRICE_LEVELS_COUNT
    ensures |r.0| == PRICE_LEVELS_COUNT && r.1 < PRICE_LEVELS_COUNT
  {
    match Slot(basePrice, u.price)
    case None => (levels, best)
    case Some(idx) => Updated(bid, levels, best, idx, u.Level())
  }

  // ---------------------------------------------------------------------------------------------
  // Whole runs on the price grid
  // ---------------------------------------------------------------------------------------------

  function EmptySide(): (r: Levels)
    ensures |r| == PRICE_LEVELS_COUNT && forall i :: 0 <= i < |r| ==> r[i] == EmptyLevel
  {
    seq(PRICE_LEVELS_COUNT, _ => EmptyLevel)
  }

  /** One side of a new book after a run of updates. */
  function SideAfter(bid: bool, basePrice: I64, updates: seq<Update>): (r: (Levels, nat))
    ensures |r.0| == PRICE_LEVELS_COUNT && r.1 < PRICE_LEVELS_COUNT
    decreases |updates|
  {
    if updates == [] then (EmptySide(), if bid then 0 else PRICE_LEVELS_COUNT - 1)
    else
      var (levels, best) := SideAfter(bid, basePrice, updates[..|updates| - 1]);
      Applied(bid, basePrice, levels, best, updates[|updates| - 1])
  }

  /** Tick-aligned prices at or above a non-negative base; asks stay below the largest price. */
  predicate OnGrid(bid: bool, basePrice: I64, price: I64) {
    0 <= basePrice <= price && (price - basePrice) % TICK_SIZE == 0 && (bid || price < MAX_I64)
  }

  predicate InWindow(basePrice: I64, price: I64) {
    basePrice <= price && (price - basePrice) / TICK_SIZE < PRICE_LEVELS_COUNT
  }

  function PriceOf(basePrice: I64, idx: nat): int { basePrice + idx * TICK_SIZE }

  lemma SlotOnGrid(bid: bool, basePrice: I64, price: I64)
    requires OnGrid(bid, basePrice, price)
    ensures Slot(basePrice, price).Some? <==> InWindow(basePrice, price)
    ensures Slot(basePrice, price).Some? ==> PriceOf(basePrice, Slot(basePrice, price).value) == price
  {
    WrapSmall(price - basePrice);
  }

  /** The last update of a price. */
  function LastUpdate(updates: seq<Update>, price: int): (r: Option<Update>)
    ensures r.Some? ==> r.value.price == price
    decreases |updates|
  {
    if updates == [] then None
    else if updates[|updates| - 1].price == price then Some(updates[|updates| - 1])
    else LastUpdate(updates[..|updates| - 1], price)
  }

  /** What the last update said a price holds. */
  function LastQuantity(updates: seq<Update>, price: int): nat {
    var last := LastUpdate(updates, price);
    if last.Some? then last.value.quantity else 0
  }

  /** The level holds exactly what the update reported. */
  predicate Holds(level: PriceLevel, u: Update) {
    && level.price == u.price && level.quantity == u.quantity && level.orderCount == u.orderCount
    && level.lastUpdateTs == u.ts
  }

  ghost predicate AllOnGrid(bid: bool, basePrice: I64, updates: seq<Update>) {
    forall i :: 0 <= i < |updates| ==> OnGrid(bid, basePrice, updates[i].price)
  }

  /** Every slot holds what was last reported for its price. */
  ghost predicate Mirrors(bid: bool, basePrice: I64, updates: seq<Update>, levels: Levels) {
    forall i :: 0 <= i < |levels| ==>
      && var last := LastUpdate(updates, PriceOf(basePrice, i));
      && (if last.Some? then Holds(levels[i], last.value) else levels[i] == EmptyLevel)
      && (levels[i].Live() ==> levels[i].price == PriceOf(basePrice, i) && (bid || levels[i].price < MAX_I64))
  }

  lemma {:induction false} SideMirrors(bid: bool, basePrice: I64, updates: seq<Update>)
    requires 0 <= basePrice && AllOnGrid(bid, basePrice, updates)
    ensures var (levels, best) := SideAfter(bid, basePrice, updates);
      Mirrors(bid, basePrice, updates, levels) && IsBest(bid, levels, best)
    decreases |updates|
  {
    if updates == [] {
    } else {
      var front, u := updates[..|updates| - 1], updates[|updates| - 1];
      SideMirrors(bid, basePrice, front);
      var (levels, best) := SideAfter(bid, basePrice, front);
      UpdateMirrors(bid, basePrice, updates, levels, best);
    }
  }

  lemma MirrorsVisible(bid: bool, basePrice: I64, updates: seq<Update>, levels: Levels)
    requires 0 <= basePrice && Mirrors(bid, basePrice, updates, levels)
    ensures Visible(bid, levels)
  {
  }

  lemma UpdateMirrors(bid: bool, basePrice: I64, updates: seq<Update>, levels: Levels, best: nat)
    requires updates != [] && AllOnGrid(bid, basePrice, updates) && 0 <= basePrice
    requires |levels| == PRICE_LEVELS_COUNT && Mirrors(bid, basePrice, updates[..|updates| - 1], levels)
    requires IsBest(bid, levels, best)
    ensures var (next, best') := Applied(bid, basePrice, levels, best, updates[|updates| - 1]);
      Mirrors(bid, basePrice, updates, next) && IsBest(bid, next, best')
  {
    var u := updates[|updates| - 1];
    SlotOnGrid(bid, basePrice, u.price);
    var slot := Slot(basePrice, u.price);
    forall i | 0 <= i < |levels| ensures PriceOf(basePrice, i) == u.price <==> slot == Some(i) {
      GridIndex(basePrice, u.price, i);
    }
    if slot.Some? {
      var next: Levels := levels[slot.value := u.Level()];
      assert Mirrors(bid, basePrice, updates, next);
      MirrorsVisible(bid, basePrice, updates, next);
      VisibleIsSeen(bid, next);
      SamePriceNeverDemotes(bid, levels, best, slot.value, u.Level());
      UpdateKeepsBestIff(bid, levels, best, slot.value, u.Level());
    }
  }

  lemma GridIndex(basePrice: I64, price: I64, i: nat)
    requires 0 <= basePrice <= price && (price - basePrice) % TICK_SIZE == 0 && i < PRICE_LEVELS_COUNT
    ensures PriceOf(basePrice, i) == price <==> Slot(basePrice, price) == Some(i)
  {
    WrapSmall(price - basePrice);
  }

  /** After any run of updates on the grid, the cached best is what a full scan of the reported
      quantities would give: None exactly when every price in the window is empty, otherwise the best
      priced live level, every field of it as last reported. */
  lemma BboIsFullScan(bid: bool, basePrice: I64, updates: seq<Update>)
    requires 0 <= basePrice && AllOnGrid(bid, basePrice, updates)
    ensures var (levels, best) := SideAfter(bid, basePrice, updates);
      match Bbo(levels, best)
      case None => forall i :: 0 <= i < PRICE_LEVELS_COUNT ==> LastQuantity(updates, PriceOf(basePrice, i)) == 0
      case Some(level) =>
        && level.quantity > 0 && LastUpdate(updates, level.price).Some?
        && Holds(level, LastUpdate(updates, level.price).value)
        && forall i :: 0 <= i < PRICE_LEVELS_COUNT && LastQuantity(updates, PriceOf(basePrice, i)) > 0 ==>
             !Better(bid, PriceOf(basePrice, i), level.price)
  {
    SideMirrors(bid, basePrice, updates);
  }

  // ---------------------------------------------------------------------------------------------
  // Off the grid
  // ---------------------------------------------------------------------------------------------

  /** Two aligned prices on either side of the base share a slot exactly when they mirror each other. */
  lemma MirrorPricesShareSlot(basePrice: I64, p: I64, q: I64)
    requires MIN_I64 <= p - basePrice <= MAX_I64 && MIN_I64 <= q - basePrice <= MAX_I64
    requires MIN_I64 < p - basePrice && MIN_I64 < q - basePrice
    requires (p - basePrice) % TICK_SIZE == 0 && (q - basePrice) % TICK_SIZE == 0
    requires Slot(basePrice, p).Some?
    ensures Slot(basePrice, p) == Slot(basePrice, q) <==> p == q || p + q == 2 * basePrice
  {
    AlignedSlot(basePrice, p);
    AlignedSlot(basePrice, q);
  }

  function Distance(basePrice: I64, price: I64): nat {
    if price >= basePrice then price - basePrice else basePrice - price
  }

  lemma AlignedSlot(basePrice: I64, price: I64)
    requires MIN_I64 < price - basePrice <= MAX_I64 && (price - basePrice) % TICK_SIZE == 0
    ensures var ticks := Distance(basePrice, price) / TICK_SIZE;
      && Distance(basePrice, price) == ticks * TICK_SIZE
      && Slot(basePrice, price) == if ticks < PRICE_LEVELS_COUNT then Some(ticks) else None
  {
    WrapSmall(Distance(basePrice, price));
  }

  /** With no two prices in one slot the cache can still go wrong: once the best bid is emptied, the
      rescan does not see a bid at price 0. */
  lemma UnseenBidFoolsCache(updates: seq<Update>)
    requires updates == [Update(0, 5, 1, 0), Update(100_000, 5, 1, 0), Update(100_000, 0, 1, 0)]
    ensures var (levels, best) := SideAfter(true, 100_000, updates); !IsBest(true, levels, best)
  {
    WrapSmall(100_000);
    WrapSmall(0);
    var first, second := updates[..1], updates[..2];
    assert updates[..2][..1] == first && first[..0] == [] && updates[..|updates| - 1] == second;
    assert second[|second| - 1] == updates[1] && first[0] == updates[0];
    var (l0, b0) := SideAfter(true, 100_000, []);
    var (l1, b1) := SideAfter(true, 100_000, first);
    assert (l1, b1) == (l0[1 := updates[0].Level()], 1);
    var (l2, b2) := SideAfter(true, 100_000, second);
    assert (l2, b2) == (l1[0 := updates[1].Level()], 0);
    var (l3, b3) := SideAfter(true, 100_000, updates);
    assert l3 == l2[0 := updates[2].Level()];
    RescanIsBestIff(true, l3);
    assert l3[1].Live() && !IsBest(true, l3, 0);
  }

  /** Below the base the cache can go wrong: three bids leave it on a level that is not the best. */
  lemma StraddlingFoolsCache(updates: seq<Update>)
    requires updates == [Update(1_200_000, 5, 1, 0), Update(1_100_000, 5, 1, 0), Update(800_000, 5, 1, 0)]
    ensures var (levels, best) := SideAfter(true, 1_000_000, updates); !IsBest(true, levels, best)
  {
    WrapSmall(200_000);
    WrapSmall(100_000);
    var first, second := updates[..1], updates[..2];
    assert updates[..2][..1] == first && first[..0] == [] && updates[..|updates| - 1] == second;
    assert second[|second| - 1] == updates[1] && first[0] == updates[0];
    var (l0, b0) := SideAfter(true, 1_000_000, []);
    var (l1, b1) := SideAfter(true, 1_000_000, first);
    assert (l1, b1) == (l0[2 := updates[0].Level()], 2);
    var (l2, b2) := SideAfter(true, 1_000_000, second);
    assert (l2, b2) == (l1[1 := updates[1].Level()], 2);
    var (l3, b3) := SideAfter(true, 1_000_000, updates);
    assert (l3, b3) == (l2[2 := updates[2].Level()], 2);
    assert l3[1].Live() && Better(true, l3[1].price, l3[2].price);
  }
}
