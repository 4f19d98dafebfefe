/** The inverted topic router: an index from topic keys to client bitmaps, and the fan-out of one
    event to every subscribed client that passes its filter and its rate limiter. Calls are taken
    whole; the locks around the two maps are not modelled. */
module Router {
  import opened Bits
  import opened ClientBitmap
  import opened MarketData
  import opened Wrappers
  import FastJson
  import JsonReader
  import JsonRoundTrip
  import TokenBucket

  // ---------------------------------------------------------------------------------------------
  // Topic keys
  // ---------------------------------------------------------------------------------------------

  const STREAM_TYPE_BBO: nat := 1
  const STREAM_TYPE_TRADE: nat := 3

  const TOTAL_SBE_BBO_LEN: nat := 92
  const TOTAL_SBE_TRADE_LEN: nat := 95

  /** `venue << 56 | (market & 0xFFFFFF) << 32 | stream << 24 | flags & 0xFFFFFF`. */
  function TopicKey(venueId: nat, marketId: nat, streamType: nat, flags: nat): nat {
    Or(Or(Or(venueId * B56, And(marketId, B24 - 1) * B32), streamType * B24), And(flags, B24 - 1))
  }

  lemma PowAtKey(k: nat)
    ensures k == 8 ==> Pow2(k) == B8
    ensures k == 24 ==> Pow2(k) == B24
    ensures k == 32 ==> Pow2(k) == B32
    ensures k == 56 ==> Pow2(k) == B56
  {
    if k == 8 || k == 24 || k == 32 || k == 56 {
      assert Pow2(8) == B8;
      Pow2Add(8, 8);
      Pow2Add(8, 16);
      Pow2Add(8, 24);
      Pow2Add(24, 32);
    }
  }

  /** Disjoint fields: oring a low part into a shifted high part adds it. */
  lemma {:induction false} OrShifted(high: nat, low: nat, k: nat)
    requires low < Pow2(k)
    ensures Or(high * Pow2(k), low) == high * Pow2(k) + low
  {
    var a := high * Pow2(k);
    if a == 0 {
    } else if k == 0 {
      OrZero(a);
    } else {
      var h := high * Pow2(k - 1);
      assert a == 2 * h;
      OrShifted(high, low / 2, k - 1);
    }
  }

  lemma OrField(word: nat, high: nat, low: nat, k: nat)
    requires word == high * Pow2(k) && low < Pow2(k)
    ensures Or(word, low) == word + low
  {
    OrShifted(high, low, k);
  }

  lemma KeyIsSum(venueId: nat, marketId: nat, streamType: nat, flags: nat)
    requires venueId < B8 && streamType < B8
    ensures TopicKey(venueId, marketId, streamType, flags)
      == venueId * B56 + (marketId % B24) * B32 + streamType * B24 + flags % B24
  {
    PowAtKey(24);
    MaskIsMod(marketId, 24);
    MaskIsMod(flags, 24);
    FieldsAdd(venueId, marketId % B24, streamType, flags % B24);
  }

  lemma FieldsAdd(v: nat, m: nat, s: nat, f: nat)
    requires v < B8 && m < B24 && s < B8 && f < B24
    ensures Or(Or(Or(v * B56, m * B32), s * B24), f) == v * B56 + m * B32 + s * B24 + f
  {
    PowAtKey(56);
    OrField(v * B56, v, m * B32, 56);
    PowAtKey(32);
    OrField(v * B56 + m * B32, v * B24 + m, s * B24, 32);
    PowAtKey(24);
    OrField(v * B56 + m * B32 + s * B24, v * B32 + m * B8 + s, f, 24);
  }

  lemma SameDigits(hi: nat, lo: nat, hi': nat, lo': nat, radix: nat)
    requires lo < radix && lo' < radix
    ensures radix * hi + lo == radix * hi' + lo' <==> hi == hi' && lo == lo'
  {
    DivUnique(radix * hi + lo, radix, hi, lo);
    DivUnique(radix * hi' + lo', radix, hi', lo');
  }

  /** Two keys agree exactly when stream, venue, and the low 24 bits of market and flags agree. */
  lemma KeysAgree(v: nat, m: nat, s: nat, f: nat, v': nat, m': nat, s': nat, f': nat)
    requires v < B8 && s < B8 && v' < B8 && s' < B8
    ensures TopicKey(v, m, s, f) == TopicKey(v', m', s', f')
      <==> v == v' && m % B24 == m' % B24 && s == s' && f % B24 == f' % B24
  {
    KeyIsSum(v, m, s, f);
    KeyIsSum(v', m', s', f');
    SumsAgree(v, m % B24, s, f % B24, v', m' % B24, s', f' % B24);
  }

  lemma SumsAgree(v: nat, m: nat, s: nat, f: nat, v': nat, m': nat, s': nat, f': nat)
    requires m < B24 && s < B8 && f < B24 && m' < B24 && s' < B8 && f' < B24
    ensures v * B56 + m * B32 + s * B24 + f == v' * B56 + m' * B32 + s' * B24 + f'
      <==> v == v' && m == m' && s == s' && f == f'
  {
    SameDigits(v * B32 + m * B8 + s, f, v' * B32 + m' * B8 + s', f', B24);
    SameDigits(v * B24 + m, s, v' * B24 + m', s', B8);
    SameDigits(v, m, v', m', B24);
  }

  // ---------------------------------------------------------------------------------------------
  // Sessions
  // ---------------------------------------------------------------------------------------------

  datatype WireProtocol = Sbe | Json

  datatype SessionState = Disconnected | Connected | Subscribed | Closed

  /** A 64-bit float as the filters see it: they only compare. */
  datatype Double = Finite(value: real) | Infinite(negative: bool) | NaN {

    /** The IEEE 754 `>=`: false as soon as either side is not a number. */
    predicate AtLeast(other: Double) {
      match (this, other)
      case (NaN, _) => false
      case (_, NaN) => false
      case (Finite(x), Finite(y)) => x >= y
      case (Infinite(negative), Finite(_)) => !negative
      case (Finite(_), Infinite(negative)) => negative
      case (Infinite(n), Infinite(m)) => !n || m
    }
  }

  datatype Filter = Filter(minNotionalUsd: Double, maxSpreadBps: nat)

  datatype ClientSession = ClientSession(
    id: nat, protocol: WireProtocol, state: SessionState, limits: TokenBucket.Limits, bucket: U64,
    filter: Filter, messagesSent: nat, bytesSent: nat, droppedRateLimit: nat)
  {
    predicate IsActive() { state == Connected || state == Subscribed }
  }

  datatype RouterError = ClientAlreadyExists(id: nat) | ClientNotFound(id: nat)

  // ---------------------------------------------------------------------------------------------
  // What one event does to one client
  // ---------------------------------------------------------------------------------------------

  /** An event with its two wire forms. The binary encoder is outside this model, so its frame is given. */
  datatype Dispatch = BboDispatch(bbo: Bbo, frame: string) | TradeDispatch(trade: Trade, notionalUsd: Double, frame: string) {

    predicate Fits() {
      match this
      case BboDispatch(bbo, _) => FastJson.BboFits(bbo)
      case TradeDispatch(trade, _, _) => FastJson.TradeFits(trade)
    }

    predicate Blocked(filter: Filter) {
      match this
      case BboDispatch(bbo, _) => filter.maxSpreadBps > 0 && bbo.spreadBps > filter.maxSpreadBps
      case TradeDispatch(_, notional, _) => !notional.AtLeast(filter.minNotionalUsd)
    }

    function JsonText(): string
      requires Fits()
    {
      match this
      case BboDispatch(bbo, _) => FastJson.BboJson(bbo)
      case TradeDispatch(trade, _, _) => FastJson.TradeJson(trade)
    }

    function Payload(protocol: WireProtocol): string
      requires Fits()
    {
      if protocol == Sbe then frame else JsonText()
    }
  }

  /** What a client's filter lets through: any quote without a spread limit or within it, and any trade
      whose notional and threshold are numbers and ordered. */
  predicate Admits(filter: Filter, e: Dispatch) {
    match e
    case BboDispatch(bbo, _) => filter.maxSpreadBps == 0 || bbo.spreadBps <= filter.maxSpreadBps
    case TradeDispatch(_, notional, _) =>
      var least := filter.minNotionalUsd;
      && !notional.NaN? && !least.NaN?
      && (notional == Infinite(false) || least == Infinite(true)
          || (notional.Finite? && least.Finite? && least.value <= notional.value))
  }

  datatype Outcome = Delivered | FilteredOut | RateLimited

  function Decide(s: ClientSession, e: Dispatch, nowMs: nat): Outcome {
    if e.Blocked(s.filter) then FilteredOut
    else if s.limits.Consume(s.bucket, 1, nowMs).None? then RateLimited
    else Delivered
  }

  /** The session after the event: only its limiter and its counters move. */
  function Charge(s: ClientSession, e: Dispatch, nowMs: nat): ClientSession
    requires e.Fits()
  {
    match Decide(s, e, nowMs)
    case FilteredOut => s
    case RateLimited => s.(droppedRateLimit := s.droppedRateLimit + 1)
    case Delivered =>
      s.(bucket := s.limits.Consume(s.bucket, 1, nowMs).value, messagesSent := s.messagesSent + 1,
         bytesSent := s.bytesSent + |e.Payload(s.protocol)|)
  }

  datatype Delivery = Delivery(clientId: nat, protocol: WireProtocol, payload: string)

  datatype DispatchMetrics = DispatchMetrics(
    matched: nat, delivered: nat, filtered: nat, rateLimited: nat, sbeBytes: nat, jsonBytes: nat)

  const NoMetrics := DispatchMetrics(0, 0, 0, 0, 0, 0)

  predicate AllKnown(ids: seq<nat>, clients: map<nat, ClientSession>) {
    forall i :: 0 <= i < |ids| ==> ids[i] in clients && clients[ids[i]].state == Subscribed
  }

  function Deliveries(s: ClientSession, id: nat, e: Dispatch, nowMs: nat): seq<Delivery>
    requires e.Fits()
  {
    if Decide(s, e, nowMs) == Delivered then [Delivery(id, s.protocol, e.Payload(s.protocol))] else []
  }

  /** What the sink receives for the matched ids, in their order. */
  function Sunk(ids: seq<nat>, clients: map<nat, ClientSession>, e: Dispatch, nowMs: nat): seq<Delivery>
    requires e.Fits() && AllKnown(ids, clients)
    decreases |ids|
  {
    if ids == [] then []
    else
      var id := ids[|ids| - 1];
      Sunk(ids[..|ids| - 1], clients, e, nowMs)
      + Deliveries(clients[id], id, e, nowMs)
  }

  function CountOf(ids: seq<nat>, clients: map<nat, ClientSession>, e: Dispatch, nowMs: nat, outcome: Outcome): nat
    requires AllKnown(ids, clients)
    decreases |ids|
  {
    if ids == [] then 0
    else CountOf(ids[..|ids| - 1], clients, e, nowMs, outcome)
         + if Decide(clients[ids[|ids| - 1]], e, nowMs) == outcome then 1 else 0
  }

  function BytesOf(deliveries: seq<Delivery>, protocol: WireProtocol): nat
    decreases |deliveries|
  {
    if deliveries == [] then 0
    else
      var d := deliveries[|deliveries| - 1];
      BytesOf(deliveries[..|deliveries| - 1], protocol) + if d.protocol == protocol then |d.payload| else 0
  }

  /** Every matched client is delivered to, filtered or rate limited: exactly one of the three. */
  lemma {:induction false} MatchedIsAccounted(ids: seq<nat>, clients: map<nat, ClientSession>, e: Dispatch, nowMs: nat)
    requires e.Fits() && AllKnown(ids, clients)
    ensures |ids| == CountOf(ids, clients, e, nowMs, Delivered) + CountOf(ids, clients, e, nowMs, FilteredOut)
                     + CountOf(ids, clients, e, nowMs, RateLimited)
    ensures |Sunk(ids, clients, e, nowMs)| == CountOf(ids, clients, e, nowMs, Delivered)
    decreases |ids|
  {
    if ids == [] {
    } else {
      MatchedIsAccounted(ids[..|ids| - 1], clients, e, nowMs);
    }
  }

  predicate AscendingIds(ds: seq<Delivery>) {
    forall i, j :: 0 <= i < j < |ds| ==> ds[i].clientId < ds[j].clientId
  }

  predicate Receives(ds: seq<Delivery>, id: nat) {
    exists i :: 0 <= i < |ds| && ds[i].clientId == id
  }

  /** A client that passed both gates, with its own protocol's payload. */
  predicate Rightful(d: Delivery, clients: map<nat, ClientSession>, e: Dispatch, nowMs: nat)
    requires e.Fits()
  {
    && d.clientId in clients && Decide(clients[d.clientId], e, nowMs) == Delivered
    && d.protocol == clients[d.clientId].protocol && d.payload == e.Payload(d.protocol)
  }

  ghost predicate SoundUpTo(ds: seq<Delivery>, bound: int, clients: map<nat, ClientSession>, e: Dispatch, nowMs: nat)
    requires e.Fits()
  {
    AscendingIds(ds) && forall i :: 0 <= i < |ds| ==> Rightful(ds[i], clients, e, nowMs) && ds[i].clientId <= bound
  }

  lemma SoundAppend(ds: seq<Delivery>, bound: int, id: nat, clients: map<nat, ClientSession>, e: Dispatch, nowMs: nat)
    requires e.Fits() && id in clients && bound < id && SoundUpTo(ds, bound, clients, e, nowMs)
    ensures SoundUpTo(ds + Deliveries(clients[id], id, e, nowMs), id, clients, e, nowMs)
  {
  }

  lemma {:induction false} SunkSound(ids: seq<nat>, clients: map<nat, ClientSession>, e: Dispatch, nowMs: nat)
    requires e.Fits() && AllKnown(ids, clients) && Ascending(ids)
    ensures SoundUpTo(Sunk(ids, clients, e, nowMs), if ids == [] then -1 else ids[|ids| - 1], clients, e, nowMs)
    decreases |ids|
  {
    if ids == [] {
    } else {
      var front, last := ids[..|ids| - 1], ids[|ids| - 1];
      SunkSound(front, clients, e, nowMs);
      SoundAppend(Sunk(front, clients, e, nowMs), if front == [] then -1 else front[|front| - 1], last, clients, e, nowMs);
    }
  }

  lemma {:induction false} SunkComplete(ids: seq<nat>, clients: map<nat, ClientSession>, e: Dispatch, nowMs: nat, k: nat)
    requires e.Fits() && AllKnown(ids, clients) && k < |ids| && Decide(clients[ids[k]], e, nowMs) == Delivered
    ensures Receives(Sunk(ids, clients, e, nowMs), ids[k])
    decreases |ids|
  {
    var n := |ids| - 1;
    var front, ds := Sunk(ids[..n], clients, e, nowMs), Sunk(ids, clients, e, nowMs);
    if k == n {
      assert ds[|front|].clientId == ids[k];
    } else {
      SunkComplete(ids[..n], clients, e, nowMs, k);
      var i :| 0 <= i < |front| && front[i].clientId == ids[k];
      assert ds[i] == front[i];
    }
  }

  /** The sink sees ids in ascending order, hence at most once, and exactly the matched clients that
      pass both gates, each with its own protocol's payload. */
  lemma SunkExactly(ids: seq<nat>, clients: map<nat, ClientSession>, e: Dispatch, nowMs: nat)
    requires e.Fits() && AllKnown(ids, clients) && Ascending(ids)
    ensures var ds := Sunk(ids, clients, e, nowMs);
      && AscendingIds(ds)
      && (forall i :: 0 <= i < |ds| ==> Rightful(ds[i], clients, e, nowMs))
      && (forall id :: id in ids ==> (Receives(ds, id) <==> Decide(clients[id], e, nowMs) == Delivered))
  {
    var ds := Sunk(ids, clients, e, nowMs);
    SunkSound(ids, clients, e, nowMs);
    forall id | id in ids ensures Receives(ds, id) <==> Decide(clients[id], e, nowMs) == Delivered {
      var k :| 0 <= k < |ids| && ids[k] == id;
      if Decide(clients[id], e, nowMs) == Delivered { SunkComplete(ids, clients, e, nowMs, k); }
      if Receives(ds, id) {
        var i :| 0 <= i < |ds| && ds[i].clientId == id;
        assert Rightful(ds[i], clients, e, nowMs);
      }
    }
  }

  /** Reading the text gives the event's record back, every field of it. */
  predicate Spells(text: string, e: Dispatch) {
    match e
    case BboDispatch(bbo, _) => JsonReader.SpellsBbo(text, bbo)
    case TradeDispatch(trade, _, _) => JsonReader.SpellsTrade(text, trade)
  }

  /** Whatever a JSON client receives reads back as the event's record. */
  lemma JsonReadsBack(ids: seq<nat>, clients: map<nat, ClientSession>, e: Dispatch, nowMs: nat)
    requires e.Fits() && AllKnown(ids, clients) && Ascending(ids)
    ensures forall d :: d in Sunk(ids, clients, e, nowMs) && d.protocol == Json ==> Spells(d.payload, e)
  {
    SunkExactly(ids, clients, e, nowMs);
    JsonTextSpells(e);
    var ds := Sunk(ids, clients, e, nowMs);
    forall d | d in ds && d.protocol == Json ensures Spells(d.payload, e) {
      var i :| 0 <= i < |ds| && ds[i] == d;
      assert Rightful(ds[i], clients, e, nowMs);
    }
  }

  lemma JsonTextSpells(e: Dispatch)
    requires e.Fits()
    ensures Spells(e.JsonText(), e)
  {
    match e
    case BboDispatch(bbo, _) => JsonRoundTrip.BboReadsBack(bbo);
    case TradeDispatch(trade, _, _) => JsonRoundTrip.TradeReadsBack(trade);
  }

  // ---------------------------------------------------------------------------------------------
  // One session over many events
  // ---------------------------------------------------------------------------------------------

  /** An event and the time it reaches a session. */
  datatype Arrival = Arrival(e: Dispatch, nowMs: nat)

  ghost predicate AllArrive(s: ClientSession, t0: nat, latest: nat, arrivals: seq<Arrival>) {
    forall i :: 0 <= i < |arrivals| ==>
      arrivals[i].e.Fits() && arrivals[i].nowMs <= latest && TokenBucket.InHorizon(s.limits, t0, arrivals[i].nowMs)
  }

  function Serve(s: ClientSession, arrivals: seq<Arrival>): ClientSession
    requires forall i :: 0 <= i < |arrivals| ==> arrivals[i].e.Fits()
    decreases |arrivals|
  {
    if arrivals == [] then s else Serve(Charge(s, arrivals[0].e, arrivals[0].nowMs), arrivals[1..])
  }

  /** However often a dispatch reaches it, a session with faithful limits is sent no more messages than
      its capacity plus rate times the time since its limiter was filled. */
  lemma SessionIsPaced(s: ClientSession, t0: nat, latest: nat, arrivals: seq<Arrival>)
    requires TokenBucket.Faithful(s.limits) && s.bucket == s.limits.New(t0) && t0 <= latest < B40
    requires AllArrive(s, t0, latest, arrivals)
    ensures 1000 * (Serve(s, arrivals).messagesSent - s.messagesSent)
         <= 1000 * s.limits.capacity + s.limits.rate * (latest - t0)
  {
    TokenBucket.StartInv(s.limits, t0);
    PacedFrom(s, t0, latest, arrivals, 0);
  }

  lemma {:induction false} PacedFrom(s: ClientSession, t0: nat, latest: nat, arrivals: seq<Arrival>, sent: nat)
    requires TokenBucket.Faithful(s.limits) && t0 <= latest < B40 && AllArrive(s, t0, latest, arrivals)
    requires TokenBucket.Paid(s.limits, t0, sent, TokenBucket.Time(s.bucket), TokenBucket.Tokens(s.bucket))
    requires TokenBucket.Tokens(s.bucket) <= s.limits.capacity && TokenBucket.Time(s.bucket) <= latest
    ensures 1000 * (sent + Serve(s, arrivals).messagesSent - s.messagesSent)
         <= 1000 * s.limits.capacity + s.limits.rate * (latest - t0)
    decreases |arrivals|
  {
    if arrivals == [] {
      MulLe(TokenBucket.Time(s.bucket) - t0, latest - t0, s.limits.rate);
    } else {
      var e, nowMs := arrivals[0].e, arrivals[0].nowMs;
      var delivered := Decide(s, e, nowMs) == Delivered;
      if delivered { TokenBucket.GrantPaid(s.limits, t0, sent, s.bucket, 1, nowMs, latest); }
      PacedFrom(Charge(s, e, nowMs), t0, latest, arrivals[1..], if delivered then sent + 1 else sent);
    }
  }

  /** What a session is sent as the events reach it one by one. */
  function Sent(s: ClientSession, arrivals: seq<Arrival>): seq<Delivery>
    requires forall i :: 0 <= i < |arrivals| ==> arrivals[i].e.Fits()
    decreases |arrivals|
  {
    if arrivals == [] then []
    else
      var e, nowMs := arrivals[0].e, arrivals[0].nowMs;
      Deliveries(s, s.id, e, nowMs) + Sent(Charge(s, e, nowMs), arrivals[1..])
  }

  function NotAdmitted(filter: Filter, arrivals: seq<Arrival>): nat
    decreases |arrivals|
  {
    if arrivals == [] then 0 else Indicator(!Admits(filter, arrivals[0].e)) + NotAdmitted(filter, arrivals[1..])
  }

  lemma {:induction false} BytesAppend(a: seq<Delivery>, b: seq<Delivery>, protocol: WireProtocol)
    ensures BytesOf(a + b, protocol) == BytesOf(a, protocol) + BytesOf(b, protocol)
    decreases |b|
  {
    if b == [] {
      assert a + b == a;
    } else {
      var front := b[..|b| - 1];
      assert (a + b)[..|a + b| - 1] == a + front;
      BytesAppend(a, front, protocol);
    }
  }

  /** A session's counters are its history: the messages and bytes it was sent, and, of the events its
      filter admits, those the limiter refused. Nothing else but the limiter's word changes. */
  lemma {:induction false} SessionIsAccounted(s: ClientSession, arrivals: seq<Arrival>)
    requires forall i :: 0 <= i < |arrivals| ==> arrivals[i].e.Fits()
    ensures var after, sent := Serve(s, arrivals), Sent(s, arrivals);
      && after.messagesSent == s.messagesSent + |sent|
      && after.bytesSent == s.bytesSent + BytesOf(sent, s.protocol)
      && |arrivals| == |sent| + NotAdmitted(s.filter, arrivals) + (after.droppedRateLimit - s.droppedRateLimit)
      && after.id == s.id && after.protocol == s.protocol && after.state == s.state && after.limits == s.limits
      && after.filter == s.filter
    decreases |arrivals|
  {
    if arrivals != [] {
      var e, nowMs := arrivals[0].e, arrivals[0].nowMs;
      var first, next := Deliveries(s, s.id, e, nowMs), Charge(s, e, nowMs);
      SessionIsAccounted(next, arrivals[1..]);
      ChargeAccounts(s, e, nowMs);
      BytesAppend(first, Sent(next, arrivals[1..]), s.protocol);
    }
  }

  lemma ChargeAccounts(s: ClientSession, e: Dispatch, nowMs: nat)
    requires e.Fits()
    ensures var first, next := Deliveries(s, s.id, e, nowMs), Charge(s, e, nowMs);
      && next.messagesSent == s.messagesSent + |first|
      && next.bytesSent == s.bytesSent + BytesOf(first, s.protocol)
      && 1 == |first| + Indicator(!Admits(s.filter, e)) + (next.droppedRateLimit - s.droppedRateLimit)
      && next == s.(bucket := next.bucket, messagesSent := next.messagesSent, bytesSent := next.bytesSent,
                    droppedRateLimit := next.droppedRateLimit)
  {
  }

  // ---------------------------------------------------------------------------------------------
  // The index and the subscription relation
  // ---------------------------------------------------------------------------------------------

  predicate Indexed(topics: map<nat, Words>, topic: nat, id: nat) {
    topic in topics && Member(topics[topic], id)
  }

  /** A bit is set exactly for a live subscription of a client the bitmap has room for. */
  ghost predicate IndexAgrees(topics: map<nat, Words>, subs: set<(nat, nat)>) {
    forall topic: nat, id: nat :: Indexed(topics, topic, id) <==> (id, topic) in subs && id < MAX_CLIENT_CAPACITY
  }

  function EntryOf(topics: map<nat, Words>, topic: nat): Words {
    if topic in topics then topics[topic] else NoClients
  }

  lemma EntryMember(topics: map<nat, Words>, topic: nat, id: nat)
    ensures Member(EntryOf(topics, topic), id) <==> Indexed(topics, topic, id)
  {
    if topic !in topics && id < MAX_CLIENT_CAPACITY { ZeroHasNoBits(id % WORD_BITS); }
  }

  class InvertedTopicRouter {
    var topics: map<nat, Words>
    var clients: map<nat, ClientSession>
    /** Which client is subscribed to which topic. */
    ghost var subs: set<(nat, nat)>

    ghost predicate Valid()
      reads this
    {
      && (forall id :: id in clients ==> clients[id].id == id)
      && (forall id: nat, topic: nat :: (id, topic) in subs ==> id in clients && clients[id].state == Subscribed)
      && IndexAgrees(topics, subs)
    }

    constructor ()
      ensures Valid() && clients == map[] && subs == {}
    {
      topics, clients, subs := map[], map[], {};
    }

    method RegisterClient(session: ClientSession) returns (r: Result<nat, RouterError>)
      requires Valid()
      modifies this`clients
      ensures Valid()
      ensures r == if session.id in old(clients) then Err(ClientAlreadyExists(session.id)) else Ok(session.id)
      ensures clients == if r.Ok? then old(clients)[session.id := session] else old(clients)
    {
      var id := session.id;
      if id in clients {
        return Err(ClientAlreadyExists(id));
      }
      clients := clients[id := session];
      r := Ok(id);
    }

    /** Removes the client and every subscription it held, and drops topics left without a client. */
    method UnregisterClient(clientId: nat) returns (r: Result<(), RouterError>)
      requires Valid()
      modifies this
      ensures Valid()
      ensures r == if clientId in old(clients) then Ok(()) else Err(ClientNotFound(clientId))
      ensures clients == old(clients) - {clientId}
      ensures forall id: nat, topic: nat :: (id, topic) in subs <==> (id, topic) in old(subs) && id != clientId
      ensures r.Ok? ==> forall topic :: topic in topics ==> exists id: nat :: Member(topics[topic], id)
    {
      if clientId !in clients {
        return Err(ClientNotFound(clientId));
      }
      clients := clients - {clientId};
      subs := set s | s in subs && s.0 != clientId;
      RemoveEverywhere(clientId);
      RetainNonEmpty();
      r := Ok(());
    }

    method RemoveEverywhere(clientId: nat)
      modifies this`topics
      ensures forall topic: nat, id: nat :: Indexed(topics, topic, id) <==> Indexed(old(topics), topic, id) && id != clientId
    {
      var keys := topics.Keys;
      while keys != {}
        invariant keys <= topics.Keys == old(topics).Keys
        invariant forall topic: nat, id: nat ::
          Indexed(topics, topic, id) <==> Indexed(old(topics), topic, id) && (topic in keys || id != clientId)
        decreases |keys|
      {
        var topic :| topic in keys;
        ghost var before := topics;
        var words := WithoutClient(topics[topic], clientId);
        topics := topics[topic := words];
        keys := keys - {topic};
        forall t: nat, id: nat ensures Indexed(topics, t, id) <==> Indexed(before, t, id) && (t != topic || id != clientId) {}
      }
    }

    static method WithoutClient(entry: Words, clientId: nat) returns (words: Words)
      ensures forall id: nat :: Member(words, id) <==> Member(entry, id) && id != clientId
    {
      var bitmap := new ClientBitmap.Copy(entry);
      var removed := bitmap.Remove(clientId);
      words := bitmap.words[..];
    }

    static method HoldsNoClient(entry: Words) returns (empty: bool)
      ensures empty <==> Nobody(entry)
    {
      var bitmap := new ClientBitmap.Copy(entry);
      empty := bitmap.IsEmpty();
      assert bitmap.Value() == entry;
    }

    method RetainNonEmpty()
      modifies this`topics
      ensures forall topic: nat, id: nat :: Indexed(topics, topic, id) <==> Indexed(old(topics), topic, id)
      ensures forall topic :: topic in topics ==> exists id: nat :: Member(topics[topic], id)
    {
      var keys, kept := topics.Keys, map[];
      while keys != {}
        invariant keys <= topics.Keys && topics == old(topics)
        invariant forall topic :: topic in kept ==>
          topic in topics && kept[topic] == topics[topic] && exists id: nat :: Member(topics[topic], id)
        invariant forall topic: nat, id: nat :: Indexed(topics, topic, id) ==> topic in keys || topic in kept
        decreases |keys|
      {
        var topic :| topic in keys;
        var empty := HoldsNoClient(topics[topic]);
        if !empty {
          kept := kept[topic := topics[topic]];
        }
        keys := keys - {topic};
      }
      topics := kept;
    }

    /** Any registered client becomes Subscribed, even when its id is beyond the bitmap's capacity. */
    method Subscribe(clientId: nat, topic: nat) returns (r: Result<(), RouterError>)
      requires Valid()
      modifies this
      ensures Valid()
      ensures r == if clientId in old(clients) then Ok(()) else Err(ClientNotFound(clientId))
      ensures subs == if r.Ok? then old(subs) + {(clientId, topic)} else old(subs)
      ensures clients == if r.Ok? then old(clients)[clientId := old(clients)[clientId].(state := Subscribed)] else old(clients)
    {
      if clientId !in clients {
        return Err(ClientNotFound(clientId));
      }
      clients := clients[clientId := clients[clientId].(state := Subscribed)];
      subs := subs + {(clientId, topic)};
      ghost var before := topics;
      var bitmap := new ClientBitmap.Copy(EntryOf(topics, topic));
      var added := bitmap.Insert(clientId);
      topics := topics[topic := bitmap.words[..]];
      forall t: nat, id: nat
        ensures Indexed(topics, t, id)
          <==> Indexed(before, t, id) || (t == topic && id == clientId && id < MAX_CLIENT_CAPACITY)
      {
        EntryMember(before, topic, id);
      }
      r := Ok(());
    }

    /** Never fails, and leaves the client's state as it was. */
    method Unsubscribe(clientId: nat, topic: nat) returns (r: Result<(), RouterError>)
      requires Valid()
      modifies this
      ensures Valid() && r == Ok(()) && clients == old(clients) && subs == old(subs) - {(clientId, topic)}
    {
      ghost var before := topics;
      subs := subs - {(clientId, topic)};
      if topic in topics {
        var words := WithoutClient(topics[topic], clientId);
        topics := topics[topic := words];
      }
      forall t: nat, id: nat
        ensures Indexed(topics, t, id) <==> Indexed(before, t, id) && !(t == topic && id == clientId)
      {
      }
      r := Ok(());
    }

    method UpdateFilter(clientId: nat, filter: Filter) returns (r: Result<(), RouterError>)
      requires Valid()
      modifies this`clients
      ensures Valid()
      ensures r == if clientId in old(clients) then Ok(()) else Err(ClientNotFound(clientId))
      ensures clients == if r.Ok? then old(clients)[clientId := old(clients)[clientId].(filter := filter)] else old(clients)
    {
      if clientId !in clients {
        return Err(ClientNotFound(clientId));
      }
      clients := clients[clientId := clients[clientId].(filter := filter)];
      r := Ok(());
    }

    // The two dispatch calls return what the sink closure was called with, in order.

    /** Clients on the exact topic of the quote's flags or on the flagless default topic. */
    method DispatchBbo(bbo: Bbo, frame: string, nowMs: nat)
      returns (metrics: DispatchMetrics, out: seq<Delivery>, ghost matched: seq<nat>)
      requires Valid() && FastJson.BboFits(bbo) && |frame| == TOTAL_SBE_BBO_LEN
      modifies this`clients
      ensures Valid() && Ascending(matched) && AllKnown(matched, old(clients))
      ensures forall id: nat ::
        id in matched <==>
          && id < MAX_CLIENT_CAPACITY
          && ((id, TopicKey(bbo.venue % B8, bbo.marketId, STREAM_TYPE_BBO, bbo.flags)) in subs
              || (id, TopicKey(bbo.venue % B8, bbo.marketId, STREAM_TYPE_BBO, 0)) in subs)
      ensures Served(matched, old(clients), clients, BboDispatch(bbo, frame), nowMs, metrics, out)
      ensures forall d :: d in out && d.protocol == Json ==> JsonReader.SpellsBbo(d.payload, bbo)
    {
      var exactTopic := TopicKey(bbo.venue % B8, bbo.marketId, STREAM_TYPE_BBO, bbo.flags);
      var defaultTopic := TopicKey(bbo.venue % B8, bbo.marketId, STREAM_TYPE_BBO, 0);
      var candidates := new ClientBitmap.Copy(EntryOf(topics, exactTopic));
      if exactTopic != defaultTopic {
        var defaultMatch := new ClientBitmap.Copy(EntryOf(topics, defaultTopic));
        candidates := candidates.Union(defaultMatch);
      }
      forall id: nat
        ensures Member(candidates.Value(), id) <==> Indexed(topics, exactTopic, id) || Indexed(topics, defaultTopic, id)
      {
        EntryMember(topics, exactTopic, id);
        EntryMember(topics, defaultTopic, id);
      }
      metrics, out, matched := FanOut(candidates, BboDispatch(bbo, frame), nowMs);
      JsonReadsBack(matched, old(clients), BboDispatch(bbo, frame), nowMs);
    }

    /** Trades have one topic: the flagless one. */
    method DispatchTrade(trade: Trade, notionalUsd: Double, frame: string, nowMs: nat)
      returns (metrics: DispatchMetrics, out: seq<Delivery>, ghost matched: seq<nat>)
      requires Valid() && FastJson.TradeFits(trade) && |frame| == TOTAL_SBE_TRADE_LEN
      modifies this`clients
      ensures Valid() && Ascending(matched) && AllKnown(matched, old(clients))
      ensures forall id: nat ::
        id in matched <==>
          && id < MAX_CLIENT_CAPACITY
          && (id, TopicKey(trade.venue % B8, trade.marketId, STREAM_TYPE_TRADE, 0)) in subs
      ensures Served(matched, old(clients), clients, TradeDispatch(trade, notionalUsd, frame), nowMs, metrics, out)
      ensures forall d :: d in out && d.protocol == Json ==> JsonReader.SpellsTrade(d.payload, trade)
    {
      var topic := TopicKey(trade.venue % B8, trade.marketId, STREAM_TYPE_TRADE, 0);
      var candidates := new ClientBitmap.Copy(EntryOf(topics, topic));
      forall id: nat
        ensures Member(candidates.Value(), id) <==> Indexed(topics, topic, id)
      {
        EntryMember(topics, topic, id);
      }
      metrics, out, matched := FanOut(candidates, TradeDispatch(trade, notionalUsd, frame), nowMs);
      JsonReadsBack(matched, old(clients), TradeDispatch(trade, notionalUsd, frame), nowMs);
    }

    /** The candidate loop both dispatch calls share. */
    method FanOut(candidates: ClientBitmap, e: Dispatch, nowMs: nat)
      returns (metrics: DispatchMetrics, out: seq<Delivery>, ghost matched: seq<nat>)
      requires candidates.Valid() && e.Fits()
      requires forall id: nat :: Member(candidates.Value(), id) ==> id in clients && clients[id].state == Subscribed
      modifies this`clients
      ensures SameStates(old(clients), clients) && Ascending(matched) && AllKnown(matched, old(clients))
      ensures forall id: nat :: id in matched <==> Member(candidates.Value(), id)
      ensures Served(matched, old(clients), clients, e, nowMs, metrics, out)
    {
      ghost var words := candidates.Value();
      metrics, out, matched := NoMetrics, [], Elements(words, 0);
      KnownElements(words, clients);
      var empty := candidates.IsEmpty();
      if empty {
        NoElements(words);
        ServedNone(clients, e, nowMs);
      } else {
        var ids := candidates.ForEach();
        metrics, out := VisitAll(ids, e, nowMs);
        assert candidates.Value() == words;
      }
    }

    method VisitAll(ids: seq<nat>, e: Dispatch, nowMs: nat) returns (metrics: DispatchMetrics, out: seq<Delivery>)
      requires e.Fits() && Ascending(ids) && AllKnown(ids, clients)
      modifies this`clients
      ensures Served(ids, old(clients), clients, e, nowMs, metrics, out)
      ensures SameStates(old(clients), clients)
    {
      metrics, out := NoMetrics, [];
      var json := new LazyJson();
      ghost var before := clients;
      var i := 0;
      while i < |ids|
        invariant i <= |ids| && json.Valid(e) && fresh(json) && fresh(json.buf)
        invariant Served(ids[..i], before, clients, e, nowMs, metrics, out)
        modifies this`clients, json, json.buf
      {
        ServedSnoc(ids, i, before, clients, e, nowMs, metrics, out);
        metrics, out := Visit(ids[i], e, nowMs, json, metrics, out);
        i := i + 1;
      }
      assert ids[..|ids|] == ids;
      ChargingKeepsStates(ids, before, clients, e, nowMs);
    }

    /** One call of the candidate closure. */
    method Visit(clientId: nat, e: Dispatch, nowMs: nat, json: LazyJson, metrics: DispatchMetrics, out: seq<Delivery>)
      returns (metrics': DispatchMetrics, out': seq<Delivery>)
      requires e.Fits() && json.Valid(e) && clientId in clients && clients[clientId].state == Subscribed
      modifies this`clients, json, json.buf
      ensures json.Valid(e)
      ensures var session := old(clients)[clientId];
        && clients == old(clients)[clientId := Charge(session, e, nowMs)]
        && metrics' == Note(metrics, session, e, nowMs)
        && out' == out + Deliveries(session, clientId, e, nowMs)
    {
      metrics', out' := metrics.(matched := metrics.matched + 1), out;
      if clientId in clients {
        var session := clients[clientId];
        if !session.IsActive() {
          return;
        }
        if e.Blocked(session.filter) {
          metrics' := metrics'.(filtered := metrics'.filtered + 1);
          return;
        }
        var allowed := TryConsumeToken(clientId, nowMs);
        if !allowed {
          metrics' := metrics'.(rateLimited := metrics'.rateLimited + 1);
          return;
        }
        metrics', out' := Send(clientId, session.protocol, e, json, metrics', out);
      }
    }

    method Send(clientId: nat, protocol: WireProtocol, e: Dispatch, json: LazyJson, metrics: DispatchMetrics,
                out: seq<Delivery>)
      returns (metrics': DispatchMetrics, out': seq<Delivery>)
      requires e.Fits() && json.Valid(e) && clientId in clients
      modifies this`clients, json, json.buf
      ensures json.Valid(e)
      ensures var s, size := old(clients)[clientId], |e.Payload(protocol)|;
        && clients == old(clients)[clientId := s.(messagesSent := s.messagesSent + 1, bytesSent := s.bytesSent + size)]
        && out' == out + [Delivery(clientId, protocol, e.Payload(protocol))]
        && metrics' == metrics.(
             delivered := metrics.delivered + 1,
             sbeBytes := metrics.sbeBytes + if protocol == Sbe then size else 0,
             jsonBytes := metrics.jsonBytes + if protocol == Json then size else 0)
    {
      match protocol {
        case Sbe =>
          out' := out + [Delivery(clientId, Sbe, e.frame)];
          RecordDelivery(clientId, |e.frame|);
          metrics' := metrics.(delivered := metrics.delivered + 1, sbeBytes := metrics.sbeBytes + |e.frame|);
        case Json =>
          var text := json.Get(e);
          out' := out + [Delivery(clientId, Json, text)];
          RecordDelivery(clientId, |text|);
          metrics' := metrics.(delivered := metrics.delivered + 1, jsonBytes := metrics.jsonBytes + |text|);
      }
    }

    method TryConsumeToken(clientId: nat, nowMs: nat) returns (allowed: bool)
      requires clientId in clients
      modifies this`clients
      ensures var s := old(clients)[clientId];
        var next := s.limits.Consume(s.bucket, 1, nowMs);
        && allowed == next.Some?
        && clients == old(clients)[clientId :=
             if allowed then s.(bucket := next.value) else s.(droppedRateLimit := s.droppedRateLimit + 1)]
    {
      var s := clients[clientId];
      var next := s.limits.Consume(s.bucket, 1, nowMs);
      allowed := next.Some?;
      s := if allowed then s.(bucket := next.value) else s.(droppedRateLimit := s.droppedRateLimit + 1);
      clients := clients[clientId := s];
    }

    method RecordDelivery(clientId: nat, bytes: nat)
      requires clientId in clients
      modifies this`clients
      ensures var s := old(clients)[clientId];
        clients == old(clients)[clientId := s.(messagesSent := s.messagesSent + 1, bytesSent := s.bytesSent + bytes)]
    {
      var s := clients[clientId];
      clients := clients[clientId := s.(messagesSent := s.messagesSent + 1, bytesSent := s.bytesSent + bytes)];
    }
  }

  /** The JSON buffer of one dispatch: serialized on first demand, then reused. */
  class LazyJson {
    const buf: array<char>
    var encoded: bool
    var len: nat

    ghost predicate Valid(e: Dispatch)
      requires e.Fits()
      reads this, buf
    {
      buf.Length == FastJson.JSON_BUFFER && (encoded ==> len <= buf.Length && buf[..len] == e.JsonText())
    }

    constructor ()
      ensures buf.Length == FastJson.JSON_BUFFER && fresh(buf) && !encoded
    {
      buf := new char[FastJson.JSON_BUFFER](_ => '\0');
      encoded, len := false, 0;
    }

    /** The serializer never fails on this buffer, so a JSON client is never skipped. */
    method Get(e: Dispatch) returns (text: string)
      requires e.Fits() && Valid(e)
      modifies this, buf
      ensures Valid(e) && text == e.JsonText()
    {
      if !encoded {
        var written;
        match e {
          case BboDispatch(bbo, _) => written := FastJson.SerializeBboJson(bbo, buf);
          case TradeDispatch(trade, _, _) => written := FastJson.SerializeTradeJson(trade, buf);
        }
        len, encoded := written.value, true;
      }
      text := buf[..len];
    }
  }

  function Note(m: DispatchMetrics, s: ClientSession, e: Dispatch, nowMs: nat): DispatchMetrics
    requires e.Fits()
  {
    var outcome := Decide(s, e, nowMs);
    var sent := if outcome == Delivered then |e.Payload(s.protocol)| else 0;
    DispatchMetrics(m.matched + 1, m.delivered + Indicator(outcome == Delivered), m.filtered + Indicator(outcome == FilteredOut),
                    m.rateLimited + Indicator(outcome == RateLimited), m.sbeBytes + if s.protocol == Sbe then sent else 0,
                    m.jsonBytes + if s.protocol == Json then sent else 0)
  }

  /** The counters of one dispatch. */
  ghost predicate Counted(ids: seq<nat>, before: map<nat, ClientSession>, e: Dispatch, nowMs: nat,
                          metrics: DispatchMetrics, out: seq<Delivery>)
    requires e.Fits() && AllKnown(ids, before)
  {
    && out == Sunk(ids, before, e, nowMs)
    && metrics == DispatchMetrics(
         |ids|, CountOf(ids, before, e, nowMs, Delivered), CountOf(ids, before, e, nowMs, FilteredOut),
         CountOf(ids, before, e, nowMs, RateLimited), BytesOf(out, Sbe), BytesOf(out, Json))
  }

  /** The sessions after one dispatch: a client's outcome depends only on its own state before it. */
  ghost predicate Charged(ids: seq<nat>, before: map<nat, ClientSession>, after: map<nat, ClientSession>, e: Dispatch,
                          nowMs: nat)
    requires e.Fits()
  {
    && after.Keys == before.Keys
    && forall id :: id in before ==> after[id] == if id in ids then Charge(before[id], e, nowMs) else before[id]
  }

  /** The whole effect of serving the matched ids in order. */
  ghost predicate Served(ids: seq<nat>, before: map<nat, ClientSession>, after: map<nat, ClientSession>, e: Dispatch,
                         nowMs: nat, metrics: DispatchMetrics, out: seq<Delivery>) {
    && e.Fits() && AllKnown(ids, before)
    && Counted(ids, before, e, nowMs, metrics, out) && Charged(ids, before, after, e, nowMs)
  }

  ghost predicate SameStates(before: map<nat, ClientSession>, after: map<nat, ClientSession>) {
    && before.Keys == after.Keys
    && forall id :: id in before ==> before[id].id == after[id].id && before[id].state == after[id].state
  }

  lemma ChargingKeepsStates(ids: seq<nat>, before: map<nat, ClientSession>, after: map<nat, ClientSession>, e: Dispatch,
                            nowMs: nat)
    requires e.Fits() && Charged(ids, before, after, e, nowMs)
    ensures SameStates(before, after)
  {
  }

  lemma ServedNone(clients: map<nat, ClientSession>, e: Dispatch, nowMs: nat)
    requires e.Fits()
    ensures Served([], clients, clients, e, nowMs, NoMetrics, []) && SameStates(clients, clients)
  {
  }

  lemma FirstIn(ids: seq<nat>)
    requires ids != []
    ensures ids[0] in ids
  {
  }

  lemma KnownElements(words: Words, clients: map<nat, ClientSession>)
    requires forall id: nat :: Member(words, id) ==> id in clients && clients[id].state == Subscribed
    ensures Ascending(Elements(words, 0)) && AllKnown(Elements(words, 0), clients)
    ensures forall id: nat :: id in Elements(words, 0) <==> Member(words, id)
  {
    ElementsExact(words);
    var ids := Elements(words, 0);
    forall i | 0 <= i < |ids| ensures ids[i] in clients && clients[ids[i]].state == Subscribed { assert ids[i] in ids; }
  }

  lemma NoElements(words: Words)
    requires Nobody(words)
    ensures Elements(words, 0) == []
  {
    ElementsExact(words);
    var ids := Elements(words, 0);
    if ids != [] {
      FirstIn(ids);
      assert false;
    }
  }

  lemma CountSnoc(front: seq<nat>, id: nat, clients: map<nat, ClientSession>, e: Dispatch, nowMs: nat, o: Outcome)
    requires AllKnown(front + [id], clients)
    ensures AllKnown(front, clients) && id in clients
    ensures CountOf(front + [id], clients, e, nowMs, o)
      == CountOf(front, clients, e, nowMs, o) + Indicator(Decide(clients[id], e, nowMs) == o)
  {
    var ids := front + [id];
    assert ids[|front|] == id && ids[..|front|] == front;
    forall i | 0 <= i < |front| ensures front[i] in clients && clients[front[i]].state == Subscribed {
      assert ids[i] == front[i];
    }
  }

  lemma SunkSnoc(front: seq<nat>, id: nat, clients: map<nat, ClientSession>, e: Dispatch, nowMs: nat)
    requires e.Fits() && AllKnown(front, clients) && AllKnown(front + [id], clients) && id in clients
    ensures Sunk(front + [id], clients, e, nowMs) == Sunk(front, clients, e, nowMs) + Deliveries(clients[id], id, e, nowMs)
  {
    assert (front + [id])[..|front|] == front;
  }

  lemma BytesSnoc(out: seq<Delivery>, s: ClientSession, id: nat, e: Dispatch, nowMs: nat, protocol: WireProtocol)
    requires e.Fits()
    ensures BytesOf(out + Deliveries(s, id, e, nowMs), protocol)
      == BytesOf(out, protocol)
         + if Decide(s, e, nowMs) == Delivered && s.protocol == protocol then |e.Payload(s.protocol)| else 0
  {
    var more := Deliveries(s, id, e, nowMs);
    if more == [] { assert out + more == out; } else { assert (out + more)[..|out|] == out; }
  }

  lemma CountedSnoc(front: seq<nat>, id: nat, clients: map<nat, ClientSession>, e: Dispatch, nowMs: nat,
                    metrics: DispatchMetrics, out: seq<Delivery>)
    requires e.Fits() && AllKnown(front, clients) && AllKnown(front + [id], clients) && id in clients
    requires Counted(front, clients, e, nowMs, metrics, out)
    ensures Counted(front + [id], clients, e, nowMs, Note(metrics, clients[id], e, nowMs),
                    out + Deliveries(clients[id], id, e, nowMs))
  {
    SunkSnoc(front, id, clients, e, nowMs);
    CountSnoc(front, id, clients, e, nowMs, Delivered);
    CountSnoc(front, id, clients, e, nowMs, FilteredOut);
    CountSnoc(front, id, clients, e, nowMs, RateLimited);
    BytesSnoc(out, clients[id], id, e, nowMs, Sbe);
    BytesSnoc(out, clients[id], id, e, nowMs, Json);
  }

  /** Serving one more id extends the effect by that client's outcome; it was not charged before. */
  lemma ServedSnoc(ids: seq<nat>, i: nat, before: map<nat, ClientSession>, after: map<nat, ClientSession>, e: Dispatch,
                   nowMs: nat, metrics: DispatchMetrics, out: seq<Delivery>)
    requires i < |ids| && Ascending(ids) && ids[i] in before && before[ids[i]].state == Subscribed
    requires Served(ids[..i], before, after, e, nowMs, metrics, out)
    ensures ids[i] in after && after[ids[i]] == before[ids[i]]
    ensures Served(ids[..i + 1], before, after[ids[i] := Charge(before[ids[i]], e, nowMs)], e, nowMs,
                   Note(metrics, before[ids[i]], e, nowMs), out + Deliveries(before[ids[i]], ids[i], e, nowMs))
  {
    var id, front := ids[i], ids[..i];
    assert id !in front;
    assert ids[..i + 1] == front + [id];
    CountedSnoc(front, id, before, e, nowMs, metrics, out);
  }

  /** Both dispatch calls at once: a client receives the event if and only if its id is below the
      bitmap's capacity, it subscribes to one of the two topics, and it passes filter and limiter; and
      the counters add up. Clients beyond the capacity are never reached, whatever they subscribe to. */
  lemma ReceivesIffEntitled(matched: seq<nat>, exact: nat, fallback: nat, subs: set<(nat, nat)>,
                            clients: map<nat, ClientSession>, e: Dispatch, nowMs: nat)
    requires e.Fits() && Ascending(matched) && AllKnown(matched, clients)
    requires forall id: nat ::
      id in matched <==> id < MAX_CLIENT_CAPACITY && ((id, exact) in subs || (id, fallback) in subs)
    ensures var out := Sunk(matched, clients, e, nowMs);
      && (forall id: nat ::
            Receives(out, id) <==>
              && id in matched && ((id, exact) in subs || (id, fallback) in subs) && id < MAX_CLIENT_CAPACITY
              && Admits(clients[id].filter, e) && clients[id].limits.Consume(clients[id].bucket, 1, nowMs).Some?)
      && |matched| == |out| + CountOf(matched, clients, e, nowMs, FilteredOut) + CountOf(matched, clients, e, nowMs, RateLimited)
  {
    SunkExactly(matched, clients, e, nowMs);
    MatchedIsAccounted(matched, clients, e, nowMs);
    var out := Sunk(matched, clients, e, nowMs);
    forall id: nat | Receives(out, id) ensures id in matched {
      SunkComesFrom(matched, clients, e, nowMs, id);
    }
  }

  lemma {:induction false} SunkComesFrom(ids: seq<nat>, clients: map<nat, ClientSession>, e: Dispatch, nowMs: nat, id: nat)
    requires e.Fits() && AllKnown(ids, clients) && Receives(Sunk(ids, clients, e, nowMs), id)
    ensures id in ids
    decreases |ids|
  {
    var out := Sunk(ids, clients, e, nowMs);
    var i :| 0 <= i < |out| && out[i].clientId == id;
    var n := |ids| - 1;
    var front := Sunk(ids[..n], clients, e, nowMs);
    if i < |front| {
      assert front[i].clientId == id;
      SunkComesFrom(ids[..n], clients, e, nowMs, id);
    } else {
      assert id == ids[n];
    }
  }
}
