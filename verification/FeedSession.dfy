/** The message-level feed session: per-product baselines, integrity checks and trade deduplication.
    Frames arrive already parsed. */
module FeedSession {
  import opened Bits
  import opened MarketData
  import opened Sequences
  import opened Wrappers

  datatype Event = BboEvent(bbo: Bbo) | TradeEvent(trade: Trade)

  datatype Reason =
    | SequenceRegression(last: nat, got: nat)
    | TradeIdGap(expected: nat, got: nat)
    | HeartbeatBehindExchange(ours: nat, exchange: nat)
    | ServerError
    | Stale
    | Disconnected

  datatype Action = Resubscribe(reason: Reason) | Reconnect(reason: Reason)

  datatype Stats = Stats(
    messages: nat, tickers: nat, heartbeats: nat, eventsEmitted: nat, malformed: nat, unknownProduct: nat,
    sequenceRegressions: nat, tradeIdGaps: nat, heartbeatBehind: nat, resubscribes: nat, reconnects: nat)

  const NoStats := Stats(0, 0, 0, 0, 0, 0, 0, 0, 0, 0, 0)

  datatype Product = Product(
    name: string, marketId: nat, lastSeq: Option<nat>, lastTradeId: Option<nat>, maxEmittedTradeId: nat)

  /** A frame after parsing: a field that could not be extracted is None. */
  datatype Message =
    | Ticker(product: Option<string>, quote: Option<Quote>)
    | Heartbeat(product: Option<string>, sequence: Option<nat>, lastTrade: Option<nat>)
    | Error
    | Other
    | Malformed

  datatype Quote = Quote(bbo: Bbo, trade: Trade)

  // ---------------------------------------------------------------------------------------------
  // One product
  // ---------------------------------------------------------------------------------------------

  /** A well-formed message that reached its product. */
  datatype Reading = Tick(quote: Quote) | Beat(sequence: nat, lastTrade: nat) {
    function Seq(): nat { if Tick? then quote.bbo.sequence else sequence }
  }

  /** The id expected after one: a 64-bit increment, which wraps. */
  function NextId(id: nat): nat { (id + 1) % B64 }

  function Clear(p: Product): Product { p.(lastSeq := None, lastTradeId := None) }

  /** Why a reading contradicts the product's baseline, if it does. */
  function Complaint(p: Product, r: Reading): Option<Action> {
    if p.lastSeq.Some? && r.Seq() <= p.lastSeq.value then
      Some(Resubscribe(SequenceRegression(p.lastSeq.value, r.Seq())))
    else match (r, p.lastTradeId)
      case (Tick(q), Some(last)) =>
        if q.trade.tradeId == NextId(last) then None else Some(Resubscribe(TradeIdGap(NextId(last), q.trade.tradeId)))
      case (Beat(_, newest), Some(last)) =>
        if newest <= last then None else Some(Resubscribe(HeartbeatBehindExchange(last, newest)))
      case _ => None
  }

  /** A ticker always becomes the baseline; a heartbeat only moves an existing baseline forward. */
  function Next(p: Product, r: Reading): Product {
    match r
    case Tick(q) =>
      p.(lastSeq := Some(q.bbo.sequence), lastTradeId := Some(q.trade.tradeId),
         maxEmittedTradeId := if q.trade.tradeId > p.maxEmittedTradeId then q.trade.tradeId else p.maxEmittedTradeId)
    case Beat(s, _) =>
      if p.lastSeq.Some? && s > p.lastSeq.value then p.(lastSeq := Some(s)) else p
  }

  /** The quote of every ticker, and its trade unless an id at least as high was emitted before. */
  function Events(p: Product, r: Reading, t1Ns: nat): seq<Event> {
    if r.Beat? then []
    else [BboEvent(StampBbo(r.quote.bbo, p.marketId, t1Ns))]
         + if r.quote.trade.tradeId > p.maxEmittedTradeId
           then [TradeEvent(StampTrade(r.quote.trade, p.marketId, t1Ns))] else []
  }

  function StampBbo(b: Bbo, marketId: nat, t1Ns: nat): Bbo {
    b.(marketId := marketId, telemetry := b.telemetry.(t1IngestNicNs := t1Ns))
  }

  function StampTrade(t: Trade, marketId: nat, t1Ns: nat): Trade {
    t.(marketId := marketId, telemetry := t.telemetry.(t1IngestNicNs := t1Ns))
  }

  // ---------------------------------------------------------------------------------------------
  // One message
  // ---------------------------------------------------------------------------------------------

  function Find(products: seq<Product>, name: string): (r: Option<nat>)
    ensures r.Some? ==> r.value < |products| && products[r.value].name == name
    ensures r.Some? ==> forall i :: 0 <= i < r.value ==> products[i].name != name
    ensures r.None? ==> forall i :: 0 <= i < |products| ==> products[i].name != name
    decreases |products|
  {
    if products == [] then None
    else
      var n := |products| - 1;
      match Find(products[..n], name)
      case Some(i) => Some(i)
      case None => if products[n].name == name then Some(n) else None
  }

  function Addressee(m: Message): Option<string> {
    if m.Ticker? || m.Heartbeat? then m.product else None
  }

  function ReadingOf(m: Message): Option<Reading> {
    match m
    case Ticker(_, Some(quote)) => Some(Tick(quote))
    case Heartbeat(_, Some(s), Some(last)) => Some(Beat(s, last))
    case _ => None
  }

  function Target(products: seq<Product>, m: Message): (r: Option<nat>)
    ensures r.Some? ==> r.value < |products|
  {
    if Addressee(m).Some? then Find(products, Addressee(m).value) else None
  }

  predicate Reaches(products: seq<Product>, m: Message, k: nat) {
    ReadingOf(m).Some? && Target(products, m) == Some(k)
  }

  function Handle(products: seq<Product>, m: Message): (r: seq<Product>)
    ensures |r| == |products|
  {
    match (ReadingOf(m), Target(products, m))
    case (Some(reading), Some(k)) => products[k := Next(products[k], reading)]
    case _ => products
  }

  function Verdict(products: seq<Product>, m: Message): Option<Action> {
    if m.Error? then Some(Reconnect(ServerError))
    else match (ReadingOf(m), Target(products, m))
      case (Some(reading), Some(k)) => Complaint(products[k], reading)
      case _ => None
  }

  function Said(products: seq<Product>, m: Message, t1Ns: nat): seq<Event> {
    match (ReadingOf(m), Target(products, m))
    case (Some(reading), Some(k)) => Events(products[k], reading, t1Ns)
    case _ => []
  }

  /** Every counter one message moves. */
  function Tally(stats: Stats, products: seq<Product>, m: Message): Stats {
    var named := m.Ticker? || m.Heartbeat?;
    var verdict := Verdict(products, m);
    var reason := if verdict.Some? then verdict.value.reason else Disconnected;
    stats.(
      messages := stats.messages + 1,
      tickers := stats.tickers + Indicator(m.Ticker?),
      heartbeats := stats.heartbeats + Indicator(m.Heartbeat?),
      eventsEmitted := stats.eventsEmitted + |Said(products, m, 0)|,
      malformed := stats.malformed
        + Indicator(m.Malformed? || (named && m.product.None?) || (m.Ticker? && m.quote.None? && Target(products, m).Some?)),
      unknownProduct := stats.unknownProduct + Indicator(named && m.product.Some? && Target(products, m).None?),
      sequenceRegressions := stats.sequenceRegressions + Indicator(reason.SequenceRegression?),
      tradeIdGaps := stats.tradeIdGaps + Indicator(reason.TradeIdGap?),
      heartbeatBehind := stats.heartbeatBehind + Indicator(reason.HeartbeatBehindExchange?))
  }

  function Cleared(products: seq<Product>): (r: seq<Product>)
    ensures |r| == |products|
    ensures forall i :: 0 <= i < |r| ==> r[i] == Clear(products[i])
  {
    seq(|products|, i requires 0 <= i < |products| => Clear(products[i]))
  }

  // ---------------------------------------------------------------------------------------------
  // The session object
  // ---------------------------------------------------------------------------------------------

  class Session {
    var products: seq<Product>
    var lastMessageMs: nat
    const staleAfterMs: nat
    var stats: Stats

    constructor (names: seq<string>, staleAfterMs: nat)
      ensures |products| == |names| && lastMessageMs == 0 && this.staleAfterMs == staleAfterMs && stats == NoStats
      ensures forall i :: 0 <= i < |names| ==> products[i] == Product(names[i], i + 1, None, None, 0)
    {
      products := seq(|names|, i requires 0 <= i < |names| => Product(names[i], i + 1, None, None, 0));
      lastMessageMs := 0;
      this.staleAfterMs := staleAfterMs;
      stats := NoStats;
    }

    method OnConnected(nowMs: nat)
      modifies this`products, this`lastMessageMs
      ensures products == Cleared(old(products)) && lastMessageMs == nowMs
    {
      ResetBaselines();
      lastMessageMs := nowMs;
    }

    method ResetBaselines()
      modifies this`products
      ensures products == Cleared(old(products))
    {
      var i := 0;
      while i < |products|
        invariant 0 <= i <= |products| == |old(products)|
        invariant forall j :: 0 <= j < |products| ==>
          products[j] == if j < i then Clear(old(products)[j]) else old(products)[j]
      {
        products := products[i := products[i].(lastSeq := None, lastTradeId := None)];
        i := i + 1;
      }
    }

    method NoteActionTaken(action: Action)
      modifies this`products, this`stats
      ensures products == Cleared(old(products))
      ensures stats == if action.Resubscribe? then old(stats).(resubscribes := old(stats).resubscribes + 1)
                       else old(stats).(reconnects := old(stats).reconnects + 1)
    {
      match action {
        case Resubscribe(_) => stats := stats.(resubscribes := stats.resubscribes + 1);
        case Reconnect(_) => stats := stats.(reconnects := stats.reconnects + 1);
      }
      ResetBaselines();
    }

    /** The watchdog fires exactly when the silence is longer than allowed; a clock that went back never fires. */
    method OnTick(nowMs: nat) returns (action: Option<Action>)
      ensures action == if nowMs > lastMessageMs + staleAfterMs then Some(Reconnect(Stale)) else None
    {
      var silence := if nowMs >= lastMessageMs then nowMs - lastMessageMs else 0;
      if silence > staleAfterMs {
        action := Some(Reconnect(Stale));
      } else {
        action := None;
      }
    }

    method OnMessage(m: Message, t1Ns: nat, nowMs: nat, out: seq<Event>) returns (action: Option<Action>, out': seq<Event>)
      modifies this`products, this`lastMessageMs, this`stats
      ensures products == Handle(old(products), m) && lastMessageMs == nowMs
      ensures action == Verdict(old(products), m)
      ensures out' == out + Said(old(products), m, t1Ns)
      ensures stats == Tally(old(stats), old(products), m)
    {
      stats := stats.(messages := stats.messages + 1);
      lastMessageMs := nowMs;
      action, out' := None, out;
      match m {
        case Malformed => stats := stats.(malformed := stats.malformed + 1);
        case Ticker(product, quote) => action, out' := OnTicker(product, quote, t1Ns, out);
        case Heartbeat(product, sequence, lastTrade) => action := OnHeartbeat(product, sequence, lastTrade);
        case Error => action := Some(Reconnect(ServerError));
        case Other =>
      }
    }

    method ProductIndex(product: Option<string>) returns (idx: Option<nat>)
      modifies this`stats
      ensures idx == if product.Some? then Find(products, product.value) else None
      ensures stats == old(stats).(
                malformed := old(stats).malformed + Indicator(product.None?),
                unknownProduct := old(stats).unknownProduct + Indicator(product.Some? && idx.None?))
    {
      match product {
        case None =>
          stats := stats.(malformed := stats.malformed + 1);
          idx := None;
        case Some(name) =>
          var i := 0;
          while i < |products| && products[i].name != name
            invariant 0 <= i <= |products|
            invariant forall j :: 0 <= j < i ==> products[j].name != name
          {
            i := i + 1;
          }
          FindIsFirst(products, name, i);
          if i < |products| {
            idx := Some(i);
          } else {
            idx := None;
            stats := stats.(unknownProduct := stats.unknownProduct + 1);
          }
      }
    }

    method OnTicker(product: Option<string>, quote: Option<Quote>, t1Ns: nat, out: seq<Event>)
      returns (action: Option<Action>, out': seq<Event>)
      modifies this`products, this`stats
      ensures products == Handle(old(products), Ticker(product, quote))
      ensures action == Verdict(old(products), Ticker(product, quote))
      ensures out' == out + Said(old(products), Ticker(product, quote), t1Ns)
      ensures stats.(messages := stats.messages + 1) == Tally(old(stats), old(products), Ticker(product, quote))
    {
      action, out' := None, out;
      stats := stats.(tickers := stats.tickers + 1);
      var idx := ProductIndex(product);
      if idx.None? { return; }
      if quote.None? {
        stats := stats.(malformed := stats.malformed + 1);
        return;
      }
      var p := products[idx.value];
      var bbo, trade := StampBbo(quote.value.bbo, p.marketId, t1Ns), StampTrade(quote.value.trade, p.marketId, t1Ns);
      action := CheckTicker(p, bbo.sequence, trade.tradeId);
      p := p.(lastSeq := Some(bbo.sequence), lastTradeId := Some(trade.tradeId));
      out' := out' + [BboEvent(bbo)];
      stats := stats.(eventsEmitted := stats.eventsEmitted + 1);
      if trade.tradeId > p.maxEmittedTradeId {
        p := p.(maxEmittedTradeId := trade.tradeId);
        out' := out' + [TradeEvent(trade)];
        stats := stats.(eventsEmitted := stats.eventsEmitted + 1);
      }
      products := products[idx.value := p];
    }

    /** Both ticker checks: a regression hides a simultaneous gap. */
    method CheckTicker(p: Product, sequence: nat, tradeId: nat) returns (action: Option<Action>)
      modifies this`stats
      ensures forall q: Quote ::
        q.bbo.sequence == sequence && q.trade.tradeId == tradeId ==> action == Complaint(p, Tick(q))
      ensures stats == old(stats).(
                sequenceRegressions := old(stats).sequenceRegressions
                  + Indicator(action.Some? && action.value.reason.SequenceRegression?),
                tradeIdGaps := old(stats).tradeIdGaps + Indicator(action.Some? && action.value.reason.TradeIdGap?))
    {
      action := None;
      if p.lastSeq.Some? && sequence <= p.lastSeq.value {
        stats := stats.(sequenceRegressions := stats.sequenceRegressions + 1);
        action := Some(Resubscribe(SequenceRegression(p.lastSeq.value, sequence)));
      }
      if p.lastTradeId.Some? {
        var expected := (p.lastTradeId.value + 1) % B64;
        if tradeId != expected && action.None? {
          stats := stats.(tradeIdGaps := stats.tradeIdGaps + 1);
          action := Some(Resubscribe(TradeIdGap(expected, tradeId)));
        }
      }
    }

    method OnHeartbeat(product: Option<string>, sequence: Option<nat>, lastTrade: Option<nat>)
      returns (action: Option<Action>)
      modifies this`products, this`stats
      ensures products == Handle(old(products), Heartbeat(product, sequence, lastTrade))
      ensures action == Verdict(old(products), Heartbeat(product, sequence, lastTrade))
      ensures stats.(messages := stats.messages + 1)
           == Tally(old(stats), old(products), Heartbeat(product, sequence, lastTrade))
    {
      action := None;
      stats := stats.(heartbeats := stats.heartbeats + 1);
      var idx := ProductIndex(product);
      if idx.None? || sequence.None? || lastTrade.None? { return; }
      var p := products[idx.value];
      if p.lastSeq.Some? {
        var last := p.lastSeq.value;
        if sequence.value <= last {
          stats := stats.(sequenceRegressions := stats.sequenceRegressions + 1);
          return Some(Resubscribe(SequenceRegression(last, sequence.value)));
        }
        p := p.(lastSeq := Some(sequence.value));
        products := products[idx.value := p];
      }
      if p.lastTradeId.Some? {
        var ours := p.lastTradeId.value;
        if lastTrade.value > ours {
          stats := stats.(heartbeatBehind := stats.heartbeatBehind + 1);
          action := Some(Resubscribe(HeartbeatBehindExchange(ours, lastTrade.value)));
        }
      }
    }
  }

  lemma FindIsFirst(products: seq<Product>, name: string, i: nat)
    requires i <= |products|
    requires forall j :: 0 <= j < i ==> products[j].name != name
    requires i < |products| ==> products[i].name == name
    ensures Find(products, name) == if i < |products| then Some(i) else None
  {
    var r := Find(products, name);
    if r.Some? {
      if r.value < i { assert false; }
    }
  }

  // ---------------------------------------------------------------------------------------------
  // Whole runs
  // ---------------------------------------------------------------------------------------------

  datatype Step = Received(m: Message, t1Ns: nat) | Connected | ActionTaken(action: Action)

  function Front<T>(s: seq<T>): (r: seq<T>)
    requires s != []
    ensures |r| == |s| - 1
  {
    s[..|s| - 1]
  }

  function Last<T>(s: seq<T>): T
    requires s != []
  {
    s[|s| - 1]
  }

  lemma FrontThenLast<T>(s: seq<T>)
    requires s != []
    ensures Front(s) + [Last(s)] == s
  {
  }

  function After(products: seq<Product>, steps: seq<Step>): (r: seq<Product>)
    ensures |r| == |products|
    decreases |steps|
  {
    if steps == [] then products
    else match Last(steps)
      case Received(m, _) => Handle(After(products, Front(steps)), m)
      case _ => Cleared(After(products, Front(steps)))
  }

  function SaidAt(products: seq<Product>, step: Step): seq<Event> {
    if step.Received? then Said(products, step.m, step.t1Ns) else []
  }

  function VerdictAt(products: seq<Product>, step: Step): Option<Action> {
    if step.Received? then Verdict(products, step.m) else None
  }

  /** Everything the run appended to the event vector. */
  function Emitted(products: seq<Product>, steps: seq<Step>): seq<Event>
    decreases |steps|
  {
    if steps == [] then []
    else Emitted(products, Front(steps)) + SaidAt(After(products, Front(steps)), Last(steps))
  }

  /** No call of the run asked for an action. */
  predicate Quiet(products: seq<Product>, steps: seq<Step>)
    decreases |steps|
  {
    steps == [] || (Quiet(products, Front(steps)) && VerdictAt(After(products, Front(steps)), Last(steps)).None?)
  }

  /** The well-formed messages that reached product k. */
  function Readings(products: seq<Product>, steps: seq<Step>, k: nat): seq<Reading>
    decreases |steps|
  {
    if steps == [] then []
    else if Last(steps).Received? && Reaches(products, Last(steps).m, k) then
      Readings(products, Front(steps), k) + [ReadingOf(Last(steps).m).value]
    else Readings(products, Front(steps), k)
  }

  predicate SameNames(a: seq<Product>, b: seq<Product>) {
    |a| == |b| && forall i :: 0 <= i < |a| ==> a[i].name == b[i].name && a[i].marketId == b[i].marketId
  }

  lemma {:induction false} AfterKeepsNames(products: seq<Product>, steps: seq<Step>)
    ensures SameNames(After(products, steps), products)
    decreases |steps|
  {
    if steps != [] { AfterKeepsNames(products, Front(steps)); }
  }

  lemma SameTarget(a: seq<Product>, b: seq<Product>, m: Message)
    requires SameNames(a, b)
    ensures Target(a, m) == Target(b, m)
  {
    if Addressee(m).Some? {
      var name := Addressee(m).value;
      match Find(a, name)
      case Some(i) => FindIsFirst(b, name, i);
      case None => FindIsFirst(b, name, |b|);
    }
  }

  // ---------------------------------------------------------------------------------------------
  // Integrity between two resets: silence means a clean stream, and a clean stream means silence
  // ---------------------------------------------------------------------------------------------

  predicate Follows(tick: Quote, r: Reading) {
    match r
    case Tick(q) => q.trade.tradeId == NextId(tick.trade.tradeId)
    case Beat(_, newest) => newest <= tick.trade.tradeId
  }

  predicate OnlyBeats(rs: seq<Reading>, from: nat, to: nat)
    requires from <= to <= |rs|
  {
    forall i :: from <= i < to ==> rs[i].Beat?
  }

  /** From its first ticker on, the stream's sequence numbers strictly increase. */
  ghost predicate SequencesIncrease(rs: seq<Reading>) {
    forall b, i, j :: 0 <= b <= i < j < |rs| && rs[b].Tick? ==> rs[i].Seq() < rs[j].Seq()
  }

  /** Trade ids are consecutive 64-bit words from one ticker to the next, and no heartbeat in between is
      ahead. */
  ghost predicate TradesConsecutive(rs: seq<Reading>) {
    forall i, j :: 0 <= i < j < |rs| && rs[i].Tick? && OnlyBeats(rs, i + 1, j) ==> Follows(rs[i].quote, rs[j])
  }

  ghost predicate Clean(rs: seq<Reading>) {
    SequencesIncrease(rs) && TradesConsecutive(rs)
  }

  predicate NoErrors(steps: seq<Step>) {
    forall i :: 0 <= i < |steps| && steps[i].Received? ==> !steps[i].m.Error?
  }

  predicate Unbroken(steps: seq<Step>) {
    forall i :: 0 <= i < |steps| ==> steps[i].Received?
  }

  function Settled(p: Product, rs: seq<Reading>): Product
    decreases |rs|
  {
    if rs == [] then p else Next(Settled(p, Front(rs)), Last(rs))
  }

  predicate Calm(p: Product, rs: seq<Reading>)
    decreases |rs|
  {
    rs == [] || (Calm(p, Front(rs)) && Complaint(Settled(p, Front(rs)), Last(rs)).None?)
  }

  /** The newest ticker of a stream, or -1. */
  function LastTick(rs: seq<Reading>): (t: int)
    ensures -1 <= t < |rs|
    ensures t >= 0 ==> rs[t].Tick? && OnlyBeats(rs, t + 1, |rs|)
    ensures t < 0 ==> OnlyBeats(rs, 0, |rs|)
    decreases |rs|
  {
    if rs == [] then -1 else if Last(rs).Tick? then |rs| - 1 else LastTick(Front(rs))
  }

  /** After a quiet stream the baseline is the newest ticker's trade and the newest sequence. */
  lemma {:induction false} BaselineIsNewest(p: Product, rs: seq<Reading>)
    requires p.lastSeq.None? && p.lastTradeId.None? && Calm(p, rs)
    ensures var t, s := LastTick(rs), Settled(p, rs);
      if t < 0 then s.lastSeq.None? && s.lastTradeId.None?
      else s.lastSeq == Some(Last(rs).Seq()) && s.lastTradeId == Some(rs[t].quote.trade.tradeId)
    decreases |rs|
  {
    if rs != [] { BaselineIsNewest(p, Front(rs)); }
  }

  lemma SequencesSnoc(rs: seq<Reading>, r: Reading)
    ensures SequencesIncrease(rs + [r])
      <==> SequencesIncrease(rs) && (LastTick(rs) >= 0 ==> Last(rs).Seq() < r.Seq())
  {
    if SequencesIncrease(rs + [r]) { SequencesShrink(rs, r); }
    if SequencesIncrease(rs) && (LastTick(rs) >= 0 ==> Last(rs).Seq() < r.Seq()) { SequencesGrow(rs, r); }
  }

  lemma SequencesShrink(rs: seq<Reading>, r: Reading)
    requires SequencesIncrease(rs + [r])
    ensures SequencesIncrease(rs) && (LastTick(rs) >= 0 ==> Last(rs).Seq() < r.Seq())
  {
    var all, n, t := rs + [r], |rs|, LastTick(rs);
    forall b, i, j | 0 <= b <= i < j < n && rs[b].Tick? ensures rs[i].Seq() < rs[j].Seq() {
      assert all[b] == rs[b] && all[i] == rs[i] && all[j] == rs[j];
    }
    if t >= 0 { assert all[t].Tick? && all[n - 1] == Last(rs) && all[n] == r; }
  }

  lemma SequencesGrow(rs: seq<Reading>, r: Reading)
    requires SequencesIncrease(rs) && (LastTick(rs) >= 0 ==> Last(rs).Seq() < r.Seq())
    ensures SequencesIncrease(rs + [r])
  {
    var all, n := rs + [r], |rs|;
    forall b, i, j | 0 <= b <= i < j < |all| && all[b].Tick? ensures all[i].Seq() < all[j].Seq() {
      if j == n {
        assert all[i] == rs[i];
        if i < n - 1 { assert rs[b].Tick? && rs[i].Seq() < rs[n - 1].Seq(); }
      } else {
        assert rs[b].Tick? && all[i] == rs[i] && all[j] == rs[j];
      }
    }
  }

  lemma LastTickIs(rs: seq<Reading>, i: nat)
    requires i < |rs| && rs[i].Tick? && OnlyBeats(rs, i + 1, |rs|)
    ensures LastTick(rs) == i
  {
    var t := LastTick(rs);
    if t > i {
      assert false;
    } else if t < i {
      assert false;
    }
  }

  lemma BeatsInFront(rs: seq<Reading>, r: Reading, from: nat, to: nat)
    requires from <= to <= |rs|
    ensures OnlyBeats(rs + [r], from, to) <==> OnlyBeats(rs, from, to)
  {
    assert forall k :: from <= k < to ==> rs[k] == (rs + [r])[k];
  }

  lemma TradesSnoc(rs: seq<Reading>, r: Reading)
    ensures TradesConsecutive(rs + [r])
      <==> TradesConsecutive(rs) && (LastTick(rs) >= 0 ==> Follows(rs[LastTick(rs)].quote, r))
  {
    var all, n, t := rs + [r], |rs|, LastTick(rs);
    if TradesConsecutive(all) {
      forall i, j | 0 <= i < j < n && rs[i].Tick? && OnlyBeats(rs, i + 1, j) ensures Follows(rs[i].quote, rs[j]) {
        BeatsInFront(rs, r, i + 1, j);
        assert all[i] == rs[i] && all[j] == rs[j];
      }
      if t >= 0 {
        BeatsInFront(rs, r, t + 1, n);
        assert all[t] == rs[t] && all[n] == r;
      }
    }
    if TradesConsecutive(rs) && (t >= 0 ==> Follows(rs[t].quote, r)) {
      forall i, j | 0 <= i < j < |all| && all[i].Tick? && OnlyBeats(all, i + 1, j) ensures Follows(all[i].quote, all[j]) {
        assert all[i] == rs[i];
        BeatsInFront(rs, r, i + 1, j);
        if j == n { LastTickIs(rs, i); }
      }
    }
  }

  /** What the newest reading must satisfy for the stream to stay clean. */
  predicate Continues(rs: seq<Reading>, r: Reading) {
    var t := LastTick(rs);
    t >= 0 ==> Last(rs).Seq() < r.Seq() && Follows(rs[t].quote, r)
  }

  lemma CleanSnoc(rs: seq<Reading>, r: Reading)
    ensures Clean(rs + [r]) <==> Clean(rs) && Continues(rs, r)
  {
    SequencesSnoc(rs, r);
    TradesSnoc(rs, r);
  }

  lemma NoComplaintIffContinues(p: Product, rs: seq<Reading>, r: Reading)
    requires p.lastSeq.None? && p.lastTradeId.None? && Calm(p, rs)
    ensures Complaint(Settled(p, rs), r).None? <==> Continues(rs, r)
  {
    BaselineIsNewest(p, rs);
  }

  /** One product raises no complaint exactly when its stream is clean. */
  lemma {:induction false} CalmIffClean(p: Product, rs: seq<Reading>)
    requires p.lastSeq.None? && p.lastTradeId.None?
    ensures Calm(p, rs) <==> Clean(rs)
    decreases |rs|
  {
    if rs == [] {
    } else {
      CalmIffClean(p, Front(rs));
      CleanSnoc(Front(rs), Last(rs));
      FrontThenLast(rs);
      if Calm(p, Front(rs)) { NoComplaintIffContinues(p, Front(rs), Last(rs)); }
    }
  }

  lemma {:induction false} ProductSettles(products: seq<Product>, steps: seq<Step>, k: nat)
    requires k < |products| && Unbroken(steps)
    ensures After(products, steps)[k] == Settled(products[k], Readings(products, steps, k))
    decreases |steps|
  {
    if steps != [] {
      var front := Front(steps);
      ProductSettles(products, front, k);
      AfterKeepsNames(products, front);
      assert Last(steps).Received?;
      SameTarget(After(products, front), products, Last(steps).m);
      ReadingsSnoc(products, steps, k);
    }
  }

  lemma ReadingsSnoc(products: seq<Product>, steps: seq<Step>, k: nat)
    requires steps != [] && Last(steps).Received?
    ensures var front := Readings(products, Front(steps), k);
      if Reaches(products, Last(steps).m, k)
      then Readings(products, steps, k) != [] && Front(Readings(products, steps, k)) == front
           && Last(Readings(products, steps, k)) == ReadingOf(Last(steps).m).value
      else Readings(products, steps, k) == front
  {
  }

  ghost predicate AllCalm(products: seq<Product>, steps: seq<Step>) {
    forall k :: 0 <= k < |products| ==> Calm(products[k], Readings(products, steps, k))
  }

  lemma {:induction false} QuietIffCalm(products: seq<Product>, steps: seq<Step>)
    requires Unbroken(steps)
    ensures Quiet(products, steps) <==> NoErrors(steps) && AllCalm(products, steps)
    decreases |steps|
  {
    if steps != [] {
      var front, m := Front(steps), Last(steps).m;
      assert Unbroken(front);
      QuietIffCalm(products, front);
      NoErrorsSnoc(steps);
      AllCalmSnoc(products, steps);
    }
  }

  lemma NoErrorsSnoc(steps: seq<Step>)
    requires steps != [] && Last(steps).Received?
    ensures NoErrors(steps) <==> NoErrors(Front(steps)) && !Last(steps).m.Error?
  {
    forall i | 0 <= i < |steps| ensures i < |steps| - 1 ==> Front(steps)[i] == steps[i] {}
    if NoErrors(Front(steps)) && !Last(steps).m.Error? {
      forall i | 0 <= i < |steps| && steps[i].Received? ensures !steps[i].m.Error? {
        if i < |steps| - 1 { assert !Front(steps)[i].m.Error?; }
      }
    }
  }

  lemma AllCalmSnoc(products: seq<Product>, steps: seq<Step>)
    requires steps != [] && Unbroken(steps)
    ensures AllCalm(products, steps) && !Last(steps).m.Error?
      <==> AllCalm(products, Front(steps)) && VerdictAt(After(products, Front(steps)), Last(steps)).None?
  {
    var front, m := Front(steps), Last(steps).m;
    AfterKeepsNames(products, front);
    SameTarget(After(products, front), products, m);
    forall k | 0 <= k < |products|
      ensures Calm(products[k], Readings(products, steps, k))
        <==> Calm(products[k], Readings(products, front, k))
             && (Reaches(products, m, k) ==> Complaint(After(products, front)[k], ReadingOf(m).value).None?)
    {
      ProductSettles(products, front, k);
      ReadingsSnoc(products, steps, k);
    }
  }

  ghost predicate AllClean(products: seq<Product>, steps: seq<Step>) {
    forall k :: 0 <= k < |products| ==> Clean(Readings(products, steps, k))
  }

  predicate NoBaselines(products: seq<Product>) {
    forall k :: 0 <= k < |products| ==> products[k].lastSeq.None? && products[k].lastTradeId.None?
  }

  lemma AllCalmIffAllClean(products: seq<Product>, steps: seq<Step>)
    requires NoBaselines(products)
    ensures AllCalm(products, steps) <==> AllClean(products, steps)
  {
    forall k | 0 <= k < |products|
      ensures Calm(products[k], Readings(products, steps, k)) <==> Clean(Readings(products, steps, k))
    {
      CalmIffClean(products[k], Readings(products, steps, k));
    }
  }

  /** Between two resets, no call asks for an action if and only if no error message arrived and
      every product's stream is clean. */
  lemma QuietIffClean(products: seq<Product>, steps: seq<Step>)
    requires Unbroken(steps) && NoBaselines(products)
    ensures Quiet(products, steps) <==> NoErrors(steps) && AllClean(products, steps)
  {
    QuietIffCalm(products, steps);
    AllCalmIffAllClean(products, steps);
  }

  // ---------------------------------------------------------------------------------------------
  // Emitted trades, across resets
  // ---------------------------------------------------------------------------------------------

  function Highest(floor: nat, ids: seq<nat>): nat
    decreases |ids|
  {
    if ids == [] then floor
    else if Last(ids) > Highest(floor, Front(ids)) then Last(ids) else Highest(floor, Front(ids))
  }

  /** The ids higher than everything before them. */
  function Records(floor: nat, ids: seq<nat>): seq<nat>
    decreases |ids|
  {
    if ids == [] then []
    else Records(floor, Front(ids)) + if Last(ids) > Highest(floor, Front(ids)) then [Last(ids)] else []
  }

  function AcceptedIds(rs: seq<Reading>): seq<nat>
    decreases |rs|
  {
    if rs == [] then []
    else AcceptedIds(Front(rs)) + if Last(rs).Tick? then [Last(rs).quote.trade.tradeId] else []
  }

  /** The trade ids in an event vector that belong to one market. */
  function TradeIds(events: seq<Event>, marketId: nat): seq<nat>
    decreases |events|
  {
    if events == [] then []
    else TradeIds(Front(events), marketId) + IdOf(Last(events), marketId)
  }

  function IdOf(e: Event, marketId: nat): seq<nat> {
    if e.TradeEvent? && e.trade.marketId == marketId then [e.trade.tradeId] else []
  }

  lemma TradeIdsSnoc(events: seq<Event>, e: Event, marketId: nat)
    ensures TradeIds(events + [e], marketId) == TradeIds(events, marketId) + IdOf(e, marketId)
  {
    assert Front(events + [e]) == events;
  }

  lemma {:induction false} TradeIdsAppend(a: seq<Event>, b: seq<Event>, marketId: nat)
    ensures TradeIds(a + b, marketId) == TradeIds(a, marketId) + TradeIds(b, marketId)
    decreases |b|
  {
    if b == [] {
      assert a + b == a;
    } else {
      var front, e := b[..|b| - 1], b[|b| - 1];
      TradeIdsAppend(a, front, marketId);
      assert a + b == (a + front) + [e];
      AppendOne(a + b, a + front, a, b, front, e, marketId);
    }
  }

  lemma AppendOne(ab: seq<Event>, af: seq<Event>, a: seq<Event>, b: seq<Event>, front: seq<Event>, e: Event, marketId: nat)
    requires b == front + [e] && ab == af + [e] && TradeIds(af, marketId) == TradeIds(a, marketId) + TradeIds(front, marketId)
    ensures TradeIds(ab, marketId) == TradeIds(a, marketId) + TradeIds(b, marketId)
  {
    TradeIdsSnoc(af, e, marketId);
    TradeIdsSnoc(front, e, marketId);
    Regroup(TradeIds(a, marketId), TradeIds(front, marketId), IdOf(e, marketId));
  }

  predicate DistinctMarkets(products: seq<Product>) {
    forall i, j :: 0 <= i < j < |products| ==> products[i].marketId != products[j].marketId
  }

  lemma TradeIdsOfReading(p: Product, r: Reading, t1Ns: nat, marketId: nat)
    ensures TradeIds(Events(p, r, t1Ns), marketId)
      == if marketId == p.marketId && r.Tick? && r.quote.trade.tradeId > p.maxEmittedTradeId
         then [r.quote.trade.tradeId] else []
  {
    if r.Tick? {
      var events := Events(p, r, t1Ns);
      var head := [events[0]];
      assert Front(head) == [] && TradeIds(head, marketId) == [];
      if |events| == 2 { assert Front(events) == head; } else { assert events == head; }
    }
  }

  lemma {:induction false} EmittedAreRecords(products: seq<Product>, steps: seq<Step>, k: nat)
    requires k < |products| && DistinctMarkets(products)
    ensures var ids := AcceptedIds(Readings(products, steps, k));
      && After(products, steps)[k].maxEmittedTradeId == Highest(products[k].maxEmittedTradeId, ids)
      && TradeIds(Emitted(products, steps), products[k].marketId) == Records(products[k].maxEmittedTradeId, ids)
    decreases |steps|
  {
    if steps != [] {
      var front, step := Front(steps), Last(steps);
      var now := After(products, front);
      EmittedAreRecords(products, front, k);
      TradeIdsAppend(Emitted(products, front), SaidAt(now, step), products[k].marketId);
      if step.Received? {
        AfterKeepsNames(products, front);
        RecordStep(products, now, steps, k);
      }
    }
  }

  lemma RecordStep(products: seq<Product>, now: seq<Product>, steps: seq<Step>, k: nat)
    requires k < |products| && DistinctMarkets(products) && SameNames(now, products)
    requires steps != [] && Last(steps).Received?
    requires now[k].maxEmittedTradeId
      == Highest(products[k].maxEmittedTradeId, AcceptedIds(Readings(products, Front(steps), k)))
    ensures var front := AcceptedIds(Readings(products, Front(steps), k));
      var ids := AcceptedIds(Readings(products, steps, k));
      var floor := products[k].maxEmittedTradeId;
      && Handle(now, Last(steps).m)[k].maxEmittedTradeId == Highest(floor, ids)
      && Records(floor, ids) == Records(floor, front) + TradeIds(SaidAt(now, Last(steps)), products[k].marketId)
  {
    var m, t1Ns := Last(steps).m, Last(steps).t1Ns;
    ReadingsSnoc(products, steps, k);
    MessageTrades(now, m, t1Ns, k);
    ReachesAlike(now, products, m, k);
    if Reaches(products, m, k) {
      AcceptedSnoc(Readings(products, steps, k), products[k].maxEmittedTradeId);
    }
  }

  lemma ReachesAlike(a: seq<Product>, b: seq<Product>, m: Message, k: nat)
    requires SameNames(a, b) && k < |a|
    ensures Reaches(a, m, k) <==> Reaches(b, m, k)
    ensures Reaches(a, m, k) ==> ReadingOf(m).value.Tick? == m.Ticker?
    ensures Reaches(a, m, k) && m.Ticker? ==> m.quote.Some? && ReadingOf(m).value.quote == m.quote.value
  {
    SameTarget(a, b, m);
  }

  /** One message adds to product k's trades, and to its maximum, only if it reaches product k. */
  lemma MessageTrades(now: seq<Product>, m: Message, t1Ns: nat, k: nat)
    requires k < |now| && DistinctMarkets(now)
    ensures var trades, p := TradeIds(Said(now, m, t1Ns), now[k].marketId), Handle(now, m)[k];
      if Reaches(now, m, k) && m.Ticker? && m.quote.value.trade.tradeId > now[k].maxEmittedTradeId
      then trades == [m.quote.value.trade.tradeId] && p.maxEmittedTradeId == m.quote.value.trade.tradeId
      else trades == [] && p.maxEmittedTradeId == now[k].maxEmittedTradeId
  {
    var target := Target(now, m);
    if ReadingOf(m).Some? && target.Some? {
      TradeIdsOfReading(now[target.value], ReadingOf(m).value, t1Ns, now[k].marketId);
    }
  }

  lemma AcceptedSnoc(rs: seq<Reading>, floor: nat)
    requires rs != []
    ensures var front, ids := AcceptedIds(Front(rs)), AcceptedIds(rs);
      if Last(rs).Beat? then ids == front
      else var id := Last(rs).quote.trade.tradeId;
        && Highest(floor, ids) == (if id > Highest(floor, front) then id else Highest(floor, front))
        && Records(floor, ids) == Records(floor, front) + if id > Highest(floor, front) then [id] else []
  {
    if Last(rs).Tick? { assert Front(AcceptedIds(rs)) == AcceptedIds(Front(rs)); }
  }

  predicate Increasing(ids: seq<nat>) {
    forall i, j :: 0 <= i < j < |ids| ==> ids[i] < ids[j]
  }

  /** Records strictly increase, all lie above the floor, and none is skipped. */
  lemma {:induction false} RecordsIncrease(floor: nat, ids: seq<nat>)
    ensures Increasing(Records(floor, ids)) && Highest(floor, ids) >= floor
    ensures forall i :: 0 <= i < |Records(floor, ids)| ==> floor < Records(floor, ids)[i] <= Highest(floor, ids)
    ensures forall i :: 0 <= i < |ids| ==> ids[i] <= Highest(floor, ids)
    ensures Highest(floor, ids) > floor ==> Highest(floor, ids) in Records(floor, ids)
    decreases |ids|
  {
    if ids != [] { RecordsIncrease(floor, Front(ids)); }
  }

  /** Over a whole run, resets included, the trades emitted for a product are exactly the accepted
      tickers whose id beats every earlier one, so their ids strictly increase and none repeats. */
  lemma EmittedTradesIncrease(products: seq<Product>, steps: seq<Step>, k: nat)
    requires k < |products| && DistinctMarkets(products)
    ensures var emitted := TradeIds(Emitted(products, steps), products[k].marketId);
      && emitted == Records(products[k].maxEmittedTradeId, AcceptedIds(Readings(products, steps, k)))
      && Increasing(emitted)
  {
    EmittedAreRecords(products, steps, k);
    RecordsIncrease(products[k].maxEmittedTradeId, AcceptedIds(Readings(products, steps, k)));
  }

  // ---------------------------------------------------------------------------------------------
  // Product isolation
  // ---------------------------------------------------------------------------------------------

  datatype Output = Output(events: seq<Event>, action: Option<Action>)

  predicate DistinctNames(products: seq<Product>) {
    forall i, j :: 0 <= i < j < |products| ==> products[i].name != products[j].name
  }

  /** A reset, or a message addressed to the product. */
  predicate Concerns(step: Step, name: string) {
    step.Received? ==> Addressee(step.m) == Some(name)
  }

  function StepsFor(steps: seq<Step>, name: string): seq<Step>
    decreases |steps|
  {
    if steps == [] then []
    else if Concerns(Last(steps), name) then StepsFor(Front(steps), name) + [Last(steps)]
    else StepsFor(Front(steps), name)
  }

  /** The events and the action of every step that concerns the product. */
  function OutputsFor(products: seq<Product>, steps: seq<Step>, name: string): seq<Output>
    decreases |steps|
  {
    if steps == [] then []
    else if Concerns(Last(steps), name) then
      var now := After(products, Front(steps));
      OutputsFor(products, Front(steps), name) + [Output(SaidAt(now, Last(steps)), VerdictAt(now, Last(steps)))]
    else OutputsFor(products, Front(steps), name)
  }

  lemma TargetIsNamed(products: seq<Product>, m: Message, k: nat)
    requires k < |products| && DistinctNames(products)
    ensures Target(products, m) == Some(k) <==> Addressee(m) == Some(products[k].name)
  {
    if Addressee(m) == Some(products[k].name) { FindIsFirst(products, products[k].name, k); }
  }

  /** Two sessions that hold the same product treat a step that concerns it alike. */
  lemma SameStep(a: seq<Product>, k: nat, b: seq<Product>, l: nat, step: Step)
    requires k < |a| && l < |b| && a[k] == b[l] && DistinctNames(a) && DistinctNames(b)
    requires Concerns(step, a[k].name)
    ensures SaidAt(a, step) == SaidAt(b, step) && VerdictAt(a, step) == VerdictAt(b, step)
    ensures step.Received? ==> Handle(a, step.m)[k] == Handle(b, step.m)[l]
  {
    if step.Received? {
      TargetIsNamed(a, step.m, k);
      TargetIsNamed(b, step.m, l);
    }
  }

  lemma AfterFront(products: seq<Product>, steps: seq<Step>, step: Step)
    ensures After(products, steps + [step])
      == if step.Received? then Handle(After(products, steps), step.m) else Cleared(After(products, steps))
  {
    assert Front(steps + [step]) == steps;
  }

  lemma OutputsFront(products: seq<Product>, steps: seq<Step>, step: Step, name: string)
    requires Concerns(step, name)
    ensures var now := After(products, steps);
      OutputsFor(products, steps + [step], name)
        == OutputsFor(products, steps, name) + [Output(SaidAt(now, step), VerdictAt(now, step))]
  {
    assert Front(steps + [step]) == steps;
  }

  /** What a product yields in any interleaved stream is what a session of that product alone yields
      on its own messages and the common resets. */
  lemma {:induction false} ProductIsolation(products: seq<Product>, steps: seq<Step>, k: nat)
    requires k < |products| && DistinctNames(products)
    ensures var p := products[k];
      && After(products, steps)[k] == After([p], StepsFor(steps, p.name))[0]
      && OutputsFor(products, steps, p.name) == OutputsFor([p], StepsFor(steps, p.name), p.name)
    decreases |steps|
  {
    if steps == [] {
    } else {
      var p, front, step := products[k], Front(steps), Last(steps);
      var now, own := After(products, front), StepsFor(front, p.name);
      ProductIsolation(products, front, k);
      AfterKeepsNames(products, front);
      AfterKeepsNames([p], own);
      if Concerns(step, p.name) {
        SameStep(now, k, After([p], own), 0, step);
        AfterFront([p], own, step);
        OutputsFront([p], own, step, p.name);
      } else {
        TargetIsNamed(now, step.m, k);
      }
    }
  }

  // ---------------------------------------------------------------------------------------------
  // Counters
  // ---------------------------------------------------------------------------------------------

  function Counted(stats: Stats, products: seq<Product>, steps: seq<Step>): Stats
    decreases |steps|
  {
    if steps == [] then stats
    else
      var before := Counted(stats, products, Front(steps));
      match Last(steps)
      case Received(m, _) => Tally(before, After(products, Front(steps)), m)
      case Connected => before
      case ActionTaken(Resubscribe(_)) => before.(resubscribes := before.resubscribes + 1)
      case ActionTaken(Reconnect(_)) => before.(reconnects := before.reconnects + 1)
  }

  /** How many calls of the run asked for a resubscription. */
  function ResubscribesAsked(products: seq<Product>, steps: seq<Step>): nat
    decreases |steps|
  {
    if steps == [] then 0
    else
      var verdict := VerdictAt(After(products, Front(steps)), Last(steps));
      ResubscribesAsked(products, Front(steps)) + Indicator(verdict.Some? && verdict.value.Resubscribe?)
  }

  lemma TallyBalance(stats: Stats, now: seq<Product>, step: Step)
    requires step.Received?
    ensures var next, verdict := Tally(stats, now, step.m), VerdictAt(now, step);
      && next.eventsEmitted == stats.eventsEmitted + |SaidAt(now, step)|
      && next.sequenceRegressions + next.tradeIdGaps + next.heartbeatBehind
           == stats.sequenceRegressions + stats.tradeIdGaps + stats.heartbeatBehind
              + Indicator(verdict.Some? && verdict.value.Resubscribe?)
  {
    assert |Said(now, step.m, step.t1Ns)| == |Said(now, step.m, 0)|;
  }

  /** The event counter is the length of the output, and the three failure counters add up to the
      resubscriptions asked for. */
  lemma {:induction false} CountersBalance(products: seq<Product>, steps: seq<Step>)
    ensures var stats := Counted(NoStats, products, steps);
      && stats.eventsEmitted == |Emitted(products, steps)|
      && stats.sequenceRegressions + stats.tradeIdGaps + stats.heartbeatBehind == ResubscribesAsked(products, steps)
    decreases |steps|
  {
    if steps == [] {
    } else {
      CountersBalance(products, Front(steps));
      if Last(steps).Received? {
        TallyBalance(Counted(NoStats, products, Front(steps)), After(products, Front(steps)), Last(steps));
      }
    }
  }
}
