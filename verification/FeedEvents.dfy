/** What the feed session's events carry, over whole runs: every quote and every trade is the ticker's
    own, stamped with its product's market and its step's time. */
module FeedEvents {
  import opened Bits
  import opened FeedSession
  import opened MarketData
  import opened Sequences
  import opened Wrappers

  /** A parsed ticker and the time it was received. */
  datatype Arrival = Arrival(quote: Quote, t1Ns: nat)

  /** The step brings a well-formed ticker for product k, the first of its name. */
  predicate Brings(products: seq<Product>, step: Step, k: nat)
    requires k < |products|
  {
    && step.Received? && step.m.Ticker? && step.m.quote.Some? && step.m.product == Some(products[k].name)
    && forall i :: 0 <= i < k ==> products[i].name != products[k].name
  }

  function Brought(products: seq<Product>, step: Step, k: nat): seq<Arrival>
    requires k < |products|
  {
    if Brings(products, step, k) then [Arrival(step.m.quote.value, step.t1Ns)] else []
  }

  /** The tickers of product k in the order received, whatever else happened in between. */
  function Heard(products: seq<Product>, steps: seq<Step>, k: nat): seq<Arrival>
    requires k < |products|
    decreases |steps|
  {
    if steps == [] then []
    else Heard(products, Front(steps), k) + Brought(products, Last(steps), k)
  }

  /** Every field as parsed, except the market and the receive time. */
  predicate CarriesQuote(out: Bbo, b: Bbo, marketId: nat, t1Ns: nat) {
    && out.marketId == marketId && out.telemetry.t1IngestNicNs == t1Ns
    && out.telemetry.t0ExchangeNs == b.telemetry.t0ExchangeNs
    && out.telemetry.t2EngineProcNs == b.telemetry.t2EngineProcNs
    && out.telemetry.t3EgressNs == b.telemetry.t3EgressNs
    && out.venue == b.venue && out.chain == b.chain && out.sequence == b.sequence
    && out.bidPrice == b.bidPrice && out.bidQty == b.bidQty
    && out.askPrice == b.askPrice && out.askQty == b.askQty
    && out.spreadBps == b.spreadBps && out.flags == b.flags
  }

  /** One quote for each ticker, in order, each with its ticker's fields. */
  predicate AreQuotes(quotes: seq<Bbo>, heard: seq<Arrival>, marketId: nat) {
    && |quotes| == |heard|
    && forall i :: 0 <= i < |heard| ==> CarriesQuote(quotes[i], heard[i].quote.bbo, marketId, heard[i].t1Ns)
  }

  predicate CarriesTrade(out: Trade, t: Trade, marketId: nat, t1Ns: nat) {
    && out.marketId == marketId && out.telemetry.t1IngestNicNs == t1Ns
    && out.telemetry.t0ExchangeNs == t.telemetry.t0ExchangeNs
    && out.telemetry.t2EngineProcNs == t.telemetry.t2EngineProcNs
    && out.telemetry.t3EgressNs == t.telemetry.t3EgressNs
    && out.venue == t.venue && out.chain == t.chain && out.sequence == t.sequence && out.tradeId == t.tradeId
    && out.price == t.price && out.size == t.size && out.side == t.side && out.isLiquidation == t.isLiquidation
  }

  predicate AreTrades(trades: seq<Trade>, kept: seq<Arrival>, marketId: nat) {
    && |trades| == |kept|
    && forall i :: 0 <= i < |kept| ==> CarriesTrade(trades[i], kept[i].quote.trade, marketId, kept[i].t1Ns)
  }

  // ---------------------------------------------------------------------------------------------
  // The quotes and trades of one market
  // ---------------------------------------------------------------------------------------------

  function QuotesOf(events: seq<Event>, marketId: nat): seq<Bbo>
    decreases |events|
  {
    if events == [] then [] else QuotesOf(Front(events), marketId) + QuoteIn(Last(events), marketId)
  }

  function QuoteIn(e: Event, marketId: nat): seq<Bbo> {
    if e.BboEvent? && e.bbo.marketId == marketId then [e.bbo] else []
  }

  function TradesOf(events: seq<Event>, marketId: nat): seq<Trade>
    decreases |events|
  {
    if events == [] then [] else TradesOf(Front(events), marketId) + TradeIn(Last(events), marketId)
  }

  function TradeIn(e: Event, marketId: nat): seq<Trade> {
    if e.TradeEvent? && e.trade.marketId == marketId then [e.trade] else []
  }

  lemma {:induction false} QuotesAppend(a: seq<Event>, b: seq<Event>, marketId: nat)
    ensures QuotesOf(a + b, marketId) == QuotesOf(a, marketId) + QuotesOf(b, marketId)
    decreases |b|
  {
    if b == [] {
      assert a + b == a;
    } else {
      assert Front(a + b) == a + Front(b) && Last(a + b) == Last(b);
      QuotesAppend(a, Front(b), marketId);
      Regroup(QuotesOf(a, marketId), QuotesOf(Front(b), marketId), QuoteIn(Last(b), marketId));
    }
  }

  lemma {:induction false} TradesAppend(a: seq<Event>, b: seq<Event>, marketId: nat)
    ensures TradesOf(a + b, marketId) == TradesOf(a, marketId) + TradesOf(b, marketId)
    decreases |b|
  {
    if b == [] {
      assert a + b == a;
    } else {
      assert Front(a + b) == a + Front(b) && Last(a + b) == Last(b);
      TradesAppend(a, Front(b), marketId);
      Regroup(TradesOf(a, marketId), TradesOf(Front(b), marketId), TradeIn(Last(b), marketId));
    }
  }

  /** What one ticker's events hold for a market. */
  lemma ReadingSays(p: Product, q: Quote, t1Ns: nat, marketId: nat)
    ensures var quotes, trades :=
        QuotesOf(Events(p, Tick(q), t1Ns), marketId), TradesOf(Events(p, Tick(q), t1Ns), marketId);
      && (marketId != p.marketId ==> quotes == [] && trades == [])
      && (marketId == p.marketId ==>
            && |quotes| == 1 && CarriesQuote(quotes[0], q.bbo, marketId, t1Ns)
            && |trades| == (if q.trade.tradeId > p.maxEmittedTradeId then 1 else 0)
            && (trades != [] ==> CarriesTrade(trades[0], q.trade, marketId, t1Ns)))
  {
    var events := Events(p, Tick(q), t1Ns);
    var head := [events[0]];
    assert Front(head) == [] && QuotesOf(head, marketId) == QuoteIn(events[0], marketId) && TradesOf(head, marketId) == [];
    if |events| == 2 { assert Front(events) == head; } else { assert events == head; }
  }

  /** What one step says about product k's market: exactly what it brings. */
  lemma StepSays(products: seq<Product>, now: seq<Product>, step: Step, k: nat)
    requires k < |products| && DistinctMarkets(products) && SameNames(now, products)
    ensures var quotes, trades :=
        QuotesOf(SaidAt(now, step), products[k].marketId), TradesOf(SaidAt(now, step), products[k].marketId);
      if Brings(products, step, k) then
        var q, t1Ns := step.m.quote.value, step.t1Ns;
        && |quotes| == 1 && CarriesQuote(quotes[0], q.bbo, products[k].marketId, t1Ns)
        && |trades| == (if q.trade.tradeId > now[k].maxEmittedTradeId then 1 else 0)
        && (trades != [] ==> CarriesTrade(trades[0], q.trade, products[k].marketId, t1Ns))
      else quotes == [] && trades == []
  {
    if step.Received? {
      SameTarget(now, products, step.m);
      var target := Target(now, step.m);
      if step.m.Ticker? && step.m.quote.Some? && target.Some? {
        BringsIsTarget(products, step, k);
        ReadingSays(now[target.value], step.m.quote.value, step.t1Ns, products[k].marketId);
      }
    }
  }

  lemma BringsIsTarget(products: seq<Product>, step: Step, k: nat)
    requires k < |products| && step.Received? && step.m.Ticker? && step.m.quote.Some?
    ensures Brings(products, step, k) <==> Target(products, step.m) == Some(k)
  {
    if step.m.product.Some? && Brings(products, step, k) { FindIsFirst(products, step.m.product.value, k); }
  }

  // ---------------------------------------------------------------------------------------------
  // Whole runs
  // ---------------------------------------------------------------------------------------------

  /** Over a whole run, resets and actions included, the quotes of a product's market are its tickers in
      order, one for each, every field the ticker's own but the stamps. */
  lemma {:induction false} EmittedQuotesAreHeard(products: seq<Product>, steps: seq<Step>, k: nat)
    requires k < |products| && DistinctMarkets(products)
    ensures AreQuotes(QuotesOf(Emitted(products, steps), products[k].marketId), Heard(products, steps, k), products[k].marketId)
    decreases |steps|
  {
    if steps != [] {
      var front, now, step := Front(steps), After(products, Front(steps)), Last(steps);
      EmittedQuotesAreHeard(products, front, k);
      AfterKeepsNames(products, front);
      StepQuotes(products, now, step, k);
      QuotesAppend(Emitted(products, front), SaidAt(now, step), products[k].marketId);
      QuotesExtend(QuotesOf(Emitted(products, front), products[k].marketId), Heard(products, front, k),
                   QuotesOf(SaidAt(now, step), products[k].marketId), Brought(products, step, k), products[k].marketId);
    }
  }

  lemma StepQuotes(products: seq<Product>, now: seq<Product>, step: Step, k: nat)
    requires k < |products| && DistinctMarkets(products) && SameNames(now, products)
    ensures AreQuotes(QuotesOf(SaidAt(now, step), products[k].marketId), Brought(products, step, k), products[k].marketId)
  {
    StepSays(products, now, step, k);
  }

  lemma QuotesExtend(quotes: seq<Bbo>, heard: seq<Arrival>, more: seq<Bbo>, came: seq<Arrival>, marketId: nat)
    requires AreQuotes(quotes, heard, marketId) && AreQuotes(more, came, marketId)
    ensures AreQuotes(quotes + more, heard + came, marketId)
  {
  }

  function TopId(floor: nat, heard: seq<Arrival>): nat
    decreases |heard|
  {
    if heard == [] then floor
    else
      var top, id := TopId(floor, Front(heard)), Last(heard).quote.trade.tradeId;
      if id > top then id else top
  }

  /** The tickers whose trade id beats every earlier one. */
  function Fresh(floor: nat, heard: seq<Arrival>): seq<Arrival>
    decreases |heard|
  {
    if heard == [] then []
    else
      Fresh(floor, Front(heard))
      + if Last(heard).quote.trade.tradeId > TopId(floor, Front(heard)) then [Last(heard)] else []
  }

  lemma HeardSnoc(products: seq<Product>, steps: seq<Step>, k: nat)
    requires k < |products| && steps != []
    ensures var front, heard, floor := Heard(products, Front(steps), k), Heard(products, steps, k), products[k].maxEmittedTradeId;
      if Brings(products, Last(steps), k) then
        var a := Arrival(Last(steps).m.quote.value, Last(steps).t1Ns);
        var beats := a.quote.trade.tradeId > TopId(floor, front);
        && heard == front + [a] && Fresh(floor, heard) == Fresh(floor, front) + (if beats then [a] else [])
        && TopId(floor, heard) == if beats then a.quote.trade.tradeId else TopId(floor, front)
      else heard == front
  {
    if Brings(products, Last(steps), k) { assert Front(Heard(products, steps, k)) == Heard(products, Front(steps), k); }
  }

  lemma HighestMoves(products: seq<Product>, now: seq<Product>, step: Step, k: nat)
    requires k < |products| && SameNames(now, products) && step.Received?
    ensures var next := Handle(now, step.m)[k].maxEmittedTradeId;
      if Brings(products, step, k) && step.m.quote.value.trade.tradeId > now[k].maxEmittedTradeId
      then next == step.m.quote.value.trade.tradeId else next == now[k].maxEmittedTradeId
  {
    SameTarget(now, products, step.m);
    if step.m.Ticker? && step.m.quote.Some? { BringsIsTarget(products, step, k); }
  }

  lemma {:induction false} HighestIsTop(products: seq<Product>, steps: seq<Step>, k: nat)
    requires k < |products|
    ensures After(products, steps)[k].maxEmittedTradeId == TopId(products[k].maxEmittedTradeId, Heard(products, steps, k))
    decreases |steps|
  {
    if steps != [] {
      HighestIsTop(products, Front(steps), k);
      HeardSnoc(products, steps, k);
      AfterKeepsNames(products, Front(steps));
      if Last(steps).Received? { HighestMoves(products, After(products, Front(steps)), Last(steps), k); }
    }
  }

  /** And its trades are those of the tickers whose id beats every earlier one, field by field. */
  lemma {:induction false} EmittedTradesAreFresh(products: seq<Product>, steps: seq<Step>, k: nat)
    requires k < |products| && DistinctMarkets(products)
    ensures AreTrades(TradesOf(Emitted(products, steps), products[k].marketId),
                      Fresh(products[k].maxEmittedTradeId, Heard(products, steps, k)), products[k].marketId)
    decreases |steps|
  {
    if steps != [] {
      var front, now := Front(steps), After(products, Front(steps));
      EmittedTradesAreFresh(products, front, k);
      AfterKeepsNames(products, front);
      StepSays(products, now, Last(steps), k);
      HighestIsTop(products, front, k);
      HeardSnoc(products, steps, k);
      TradesAppend(Emitted(products, front), SaidAt(now, Last(steps)), products[k].marketId);
      var step, floor := Last(steps), products[k].maxEmittedTradeId;
      var beats := Brings(products, step, k) && step.m.quote.value.trade.tradeId > TopId(floor, Heard(products, front, k));
      TradesExtend(TradesOf(Emitted(products, front), products[k].marketId), Fresh(floor, Heard(products, front, k)),
                   TradesOf(SaidAt(now, step), products[k].marketId),
                   if beats then [Arrival(step.m.quote.value, step.t1Ns)] else [], products[k].marketId);
    }
  }

  lemma TradesExtend(trades: seq<Trade>, kept: seq<Arrival>, more: seq<Trade>, came: seq<Arrival>, marketId: nat)
    requires AreTrades(trades, kept, marketId) && AreTrades(more, came, marketId)
    ensures AreTrades(trades + more, kept + came, marketId)
  {
  }

  function Ticks(rs: seq<Reading>): seq<Quote>
    decreases |rs|
  {
    if rs == [] then [] else Ticks(Front(rs)) + if Last(rs).Tick? then [Last(rs).quote] else []
  }

  function Quotes(heard: seq<Arrival>): seq<Quote>
    decreases |heard|
  {
    if heard == [] then [] else Quotes(Front(heard)) + [Last(heard).quote]
  }

  /** The tickers heard are the tickers among the product's readings. */
  lemma {:induction false} HeardAreReadings(products: seq<Product>, steps: seq<Step>, k: nat)
    requires k < |products|
    ensures Quotes(Heard(products, steps, k)) == Ticks(Readings(products, steps, k))
    decreases |steps|
  {
    if steps != [] {
      HeardAreReadings(products, Front(steps), k);
      HeardSnoc(products, steps, k);
      if Last(steps).Received? { ReadingsSnoc(products, steps, k); }
      var step := Last(steps);
      if step.Received? && step.m.Ticker? && step.m.quote.Some? { BringsIsTarget(products, step, k); }
      QuotesSnoc(Heard(products, Front(steps), k), Heard(products, steps, k));
      TicksSnoc(Readings(products, Front(steps), k), Readings(products, steps, k));
    }
  }

  lemma QuotesSnoc(front: seq<Arrival>, heard: seq<Arrival>)
    requires heard == front || (|heard| == |front| + 1 && Front(heard) == front)
    ensures Quotes(heard) == if heard == front then Quotes(front) else Quotes(front) + [Last(heard).quote]
  {
  }

  lemma TicksSnoc(front: seq<Reading>, rs: seq<Reading>)
    requires rs == front || (|rs| == |front| + 1 && Front(rs) == front)
    ensures Ticks(rs)
      == if rs == front then Ticks(front) else Ticks(front) + if Last(rs).Tick? then [Last(rs).quote] else []
  {
  }

  // ---------------------------------------------------------------------------------------------
  // What a complaint names
  // ---------------------------------------------------------------------------------------------

  /** The highest sequence since the newest ticker, whose index is t. */
  ghost predicate TopSince(rs: seq<Reading>, t: nat, top: nat) {
    && (exists i :: t <= i < |rs| && rs[i].Seq() == top)
    && forall i :: t <= i < |rs| ==> rs[i].Seq() <= top
  }

  /** The action a reading deserves after the readings before it: nothing before the first ticker; a
      regression when its sequence is not above every one since the newest ticker, naming the highest;
      otherwise a gap when its trade is not the one after that ticker's, or, for a heartbeat, when the
      exchange has newer trades. */
  ghost predicate Deserves(rs: seq<Reading>, r: Reading, action: Option<Action>) {
    var t := LastTick(rs);
    if t < 0 then action == None
    else
      var ours := rs[t].quote.trade.tradeId;
      if exists i :: t <= i < |rs| && r.Seq() <= rs[i].Seq() then
        && action.Some? && action.value.Resubscribe? && action.value.reason.SequenceRegression?
        && TopSince(rs, t, action.value.reason.last) && action.value.reason.got == r.Seq()
      else if r.Tick? && r.quote.trade.tradeId != (ours + 1) % 0x1_0000_0000_0000_0000 then
        && action.Some? && action.value.Resubscribe? && action.value.reason.TradeIdGap?
        && action.value.reason.expected == (ours + 1) % 0x1_0000_0000_0000_0000
        && action.value.reason.got == r.quote.trade.tradeId
      else if r.Beat? && r.lastTrade > ours then
        && action.Some? && action.value.Resubscribe? && action.value.reason.HeartbeatBehindExchange?
        && action.value.reason.ours == ours && action.value.reason.exchange == r.lastTrade
      else action == None
  }

  /** After any stream, clean or not, the baseline is the newest ticker's trade and the highest sequence
      since that ticker. */
  lemma {:induction false} BaselineSinceTick(p: Product, rs: seq<Reading>)
    requires p.lastSeq.None? && p.lastTradeId.None?
    ensures var t, now := LastTick(rs), Settled(p, rs);
      if t < 0 then now.lastSeq.None? && now.lastTradeId.None?
      else now.lastTradeId == Some(rs[t].quote.trade.tradeId) && now.lastSeq.Some? && TopSince(rs, t, now.lastSeq.value)
    decreases |rs|
  {
    if rs != [] {
      BaselineSinceTick(p, Front(rs));
      var t, n := LastTick(Front(rs)), |rs| - 1;
      if Last(rs).Tick? {
        assert rs[n].Seq() == Settled(p, rs).lastSeq.value;
      } else if t >= 0 {
        TopMoves(rs, t, Settled(p, Front(rs)).lastSeq.value);
      }
    }
  }

  lemma TopMoves(rs: seq<Reading>, t: nat, top: nat)
    requires rs != [] && t < |rs| - 1 && TopSince(Front(rs), t, top)
    ensures TopSince(rs, t, if Last(rs).Seq() > top then Last(rs).Seq() else top)
  {
    var i :| t <= i < |rs| - 1 && Front(rs)[i].Seq() == top;
    assert rs[i] == Front(rs)[i] && rs[|rs| - 1] == Last(rs);
    forall j | t <= j < |rs| ensures j < |rs| - 1 ==> rs[j] == Front(rs)[j] {}
  }

  lemma ComplaintIsDeserved(p: Product, rs: seq<Reading>, r: Reading)
    requires p.lastSeq.None? && p.lastTradeId.None?
    ensures Deserves(rs, r, Complaint(Settled(p, rs), r))
  {
    BaselineSinceTick(p, rs);
  }

  /** Between two resets, whatever was complained of before, every well-formed message of a product gets
      the action its product's stream deserves. */
  lemma VerdictIsDeserved(products: seq<Product>, steps: seq<Step>, m: Message, k: nat)
    requires k < |products| && Unbroken(steps) && NoBaselines(products) && Reaches(products, m, k)
    ensures Deserves(Readings(products, steps, k), ReadingOf(m).value, Verdict(After(products, steps), m))
  {
    ProductSettles(products, steps, k);
    AfterKeepsNames(products, steps);
    SameTarget(After(products, steps), products, m);
    ComplaintIsDeserved(products[k], Readings(products, steps, k), ReadingOf(m).value);
  }

  // ---------------------------------------------------------------------------------------------
  // What the counters count
  // ---------------------------------------------------------------------------------------------

  /** How many calls of the run asked for an action with such a reason. */
  ghost function Asked(products: seq<Product>, steps: seq<Step>, such: Reason -> bool): nat
    decreases |steps|
  {
    if steps == [] then 0
    else
      var verdict := VerdictAt(After(products, Front(steps)), Last(steps));
      Asked(products, Front(steps), such) + Indicator(verdict.Some? && such(verdict.value.reason))
  }

  /** Each failure counter is the number of calls that named its reason. */
  lemma {:induction false} FailuresCounted(products: seq<Product>, steps: seq<Step>)
    ensures var stats := Counted(NoStats, products, steps);
      && stats.sequenceRegressions == Asked(products, steps, (r: Reason) => r.SequenceRegression?)
      && stats.tradeIdGaps == Asked(products, steps, (r: Reason) => r.TradeIdGap?)
      && stats.heartbeatBehind == Asked(products, steps, (r: Reason) => r.HeartbeatBehindExchange?)
    decreases |steps|
  {
    if steps != [] { FailuresCounted(products, Front(steps)); }
  }

  ghost function Count(steps: seq<Step>, such: Message -> bool): nat
    decreases |steps|
  {
    if steps == [] then 0
    else Count(Front(steps), such) + if Last(steps).Received? && such(Last(steps).m) then 1 else 0
  }

  predicate Watched(products: seq<Product>, name: string) {
    exists i :: 0 <= i < |products| && products[i].name == name
  }

  /** A frame of neither kind, one without a product name, or a watched product's ticker without its fields. */
  predicate Unreadable(products: seq<Product>, m: Message) {
    match m
    case Malformed => true
    case Ticker(product, quote) => product.None? || (quote.None? && Watched(products, product.value))
    case Heartbeat(product, _, _) => product.None?
    case _ => false
  }

  predicate Foreign(products: seq<Product>, m: Message) {
    (m.Ticker? || m.Heartbeat?) && m.product.Some? && !Watched(products, m.product.value)
  }

  lemma WatchedIsFound(products: seq<Product>, now: seq<Product>, m: Message)
    requires SameNames(now, products)
    ensures Addressee(m).Some? ==> (Target(now, m).Some? <==> Watched(products, Addressee(m).value))
  {
    SameTarget(now, products, m);
  }

  /** Every frame is counted by kind, and by what made it unusable. */
  lemma {:induction false} FramesCounted(products: seq<Product>, steps: seq<Step>)
    ensures var stats := Counted(NoStats, products, steps);
      && stats.messages == Count(steps, m => true)
      && stats.tickers == Count(steps, (m: Message) => m.Ticker?)
      && stats.heartbeats == Count(steps, (m: Message) => m.Heartbeat?)
      && stats.malformed == Count(steps, m => Unreadable(products, m))
      && stats.unknownProduct == Count(steps, m => Foreign(products, m))
    decreases |steps|
  {
    if steps != [] {
      FramesCounted(products, Front(steps));
      AfterKeepsNames(products, Front(steps));
      if Last(steps).Received? { WatchedIsFound(products, After(products, Front(steps)), Last(steps).m); }
    }
  }
}
