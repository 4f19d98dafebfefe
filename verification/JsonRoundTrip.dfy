/** Both messages read back: a reader that looks up every field by its key recovers the whole record from
    the serializer's text. */
module JsonRoundTrip {
  import opened Bits
  import opened DecimalText
  import opened FastJson
  import opened FixedPoint
  import opened JsonReader
  import opened MarketData
  import opened Wrappers

  /** The text from field i on. */
  function From(fields: seq<Field>, i: nat): string
    requires i <= |fields|
    decreases |fields| - i
  {
    if i == |fields| then "" else FieldText(fields[i]) + From(fields, i + 1)
  }

  lemma {:induction false} TextFrom(fields: seq<Field>, i: nat)
    requires i <= |fields|
    ensures Text(fields) == Text(fields[..i]) + From(fields, i)
    decreases |fields| - i
  {
    if i == |fields| {
      assert fields[..i] == fields && Text(fields) + "" == Text(fields);
    } else {
      TextFrom(fields, i + 1);
      TextSnoc(fields, i);
      Regrouped(Text(fields[..i]), FieldText(fields[i]), From(fields, i + 1));
    }
  }

  lemma Regrouped(a: string, b: string, c: string)
    ensures (a + b) + c == a + (b + c)
  {
  }

  lemma TextIsFrom(fields: seq<Field>)
    ensures Text(fields) == From(fields, 0)
  {
    TextFrom(fields, 0);
    assert "" + From(fields, 0) == From(fields, 0);
  }

  // ---------------------------------------------------------------------------------------------
  // One field at a time, from the last
  // ---------------------------------------------------------------------------------------------

  /** What `pre` leaves open, a comma, and then members that read as given. */
  ghost predicate Reads(t: string, pre: string, members: seq<(string, Json)>, after: string) {
    exists rest :: t == pre + ("," + rest) && ParseMembers(rest) == Some((members, after))
  }

  lemma DigitsArePlain(v: nat)
    ensures Plain(Decimal(v)) && Decimal(v) != []
  {
    var text := Decimal(v);
    forall i | 0 <= i < |text| ensures text[i] !in "\",{}" { assert IsDigit(text[i]); }
  }

  lemma Fixed8IsPlain(v: I64)
    ensures Plain(Fixed8(v))
  {
    var text := Fixed8(v);
    forall i | 0 <= i < |text| ensures text[i] !in "\",{}" {
      assert IsDigit(text[i]) || text[i] == '.' || text[i] == '-' by { Fixed8Chars(v, i); }
    }
  }

  lemma Fixed8Chars(v: I64, i: nat)
    requires i < |Fixed8(v)|
    ensures IsDigit(Fixed8(v)[i]) || Fixed8(v)[i] == '.' || Fixed8(v)[i] == '-'
  {
  }

  lemma BareText(f: string, pre: string, key: string, text: string, more: string)
    requires f == pre + ",\"" + key + "\":"
    ensures (f + text) + more == pre + ("," + Member(key, text + more))
  {
    assert f == pre + (",\"" + key + "\":");
  }

  lemma BareReads(f: string, pre: string, key: string, text: string, tail: string, others: seq<(string, Json)>, after: string)
    requires f == pre + ",\"" + key + "\":" && Plain(key) && Plain(text) && text != []
    requires Reads(tail, "", others, after)
    ensures Reads((f + text) + tail, pre, [(key, Bare(text))] + others, after)
  {
    var rest :| tail == "" + ("," + rest) && ParseMembers(rest) == Some((others, after));
    assert tail == "," + rest;
    BareText(f, pre, key, text, tail);
    ReadMember(key, Bare(text), text, rest, others, after);
  }

  lemma QuotedText(f: string, pre: string, key: string, text: string, more: string)
    requires f == pre + ",\"" + key + "\":\""
    ensures (f + text) + ("\"" + more) == pre + ("," + Member(key, ("\"" + text + "\"") + more))
  {
    assert f == pre + (",\"" + key + "\":\"");
  }

  lemma QuotedReads(f: string, pre: string, key: string, text: string, tail: string, others: seq<(string, Json)>,
                    after: string)
    requires f == pre + ",\"" + key + "\":\"" && Plain(key) && Plain(text)
    requires Reads(tail, "\"", others, after)
    ensures Reads((f + text) + tail, pre, [(key, Quoted(text))] + others, after)
  {
    var rest :| tail == "\"" + ("," + rest) && ParseMembers(rest) == Some((others, after));
    QuotedText(f, pre, key, text, "," + rest);
    ReadMember(key, Quoted(text), "\"" + text + "\"", rest, others, after);
  }

  lemma LastReads(f: string, key: string, text: string, tail: string, after: string)
    requires f == "" + ",\"" + key + "\":" && Plain(key) && Plain(text) && text != [] && tail == "}" + after
    ensures Reads((f + text) + tail, "", [(key, Bare(text))], after)
  {
    BareText(f, "", key, text, tail);
    ReadLast(key, Bare(text), text, after);
  }

  lemma NestedText(f: string, pre: string, outer: string, key: string, text: string, more: string)
    requires f == pre + ",\"" + outer + "\":{\"" + key + "\":"
    ensures (f + text) + more == pre + ("," + Member(outer, "{" + Member(key, text + more)))
  {
    assert f == pre + (",\"" + outer + "\":{\"" + key + "\":");
  }

  lemma NestedReads(f: string, pre: string, outer: string, key: string, text: string, tail: string,
                    others: seq<(string, Json)>)
    requires f == pre + ",\"" + outer + "\":{\"" + key + "\":" && Plain(outer) && Plain(key) && Plain(text) && text != []
    requires Reads(tail, "", others, "}")
    ensures Reads((f + text) + tail, pre, [(outer, Object([(key, Bare(text))] + others))], "")
  {
    var rest :| tail == "" + ("," + rest) && ParseMembers(rest) == Some((others, "}"));
    assert tail == "," + rest && "}" + "" == "}";
    NestedText(f, pre, outer, key, text, tail);
    ReadMember(key, Bare(text), text, rest, others, "}");
    ReadNested(outer, Member(key, text + tail), [(key, Bare(text))] + others, "");
  }

  lemma FirstText(f: string, kind: string, key: string, text: string, more: string)
    requires f == "{\"type\":\"" + kind + "\",\"" + key + "\":"
    ensures (f + text) + more == "{" + Member("type", ("\"" + kind + "\"") + ("," + Member(key, text + more)))
  {
  }

  lemma FirstReads(f: string, kind: string, key: string, text: string, tail: string, others: seq<(string, Json)>)
    requires f == "{\"type\":\"" + kind + "\",\"" + key + "\":" && Plain(kind) && Plain(key) && Plain(text) && text != []
    requires Reads(tail, "", others, "")
    ensures Document((f + text) + tail) == [("type", Quoted(kind))] + ([(key, Bare(text))] + others)
  {
    var rest :| tail == "" + ("," + rest) && ParseMembers(rest) == Some((others, ""));
    assert tail == "," + rest;
    FirstText(f, kind, key, text, tail);
    ReadMember(key, Bare(text), text, rest, others, "");
    ReadKind(kind, Member(key, text + tail), [(key, Bare(text))] + others);
  }

  lemma ReadKind(kind: string, inside: string, members: seq<(string, Json)>)
    requires Plain(kind) && ParseMembers(inside) == Some((members, ""))
    ensures Document("{" + Member("type", ("\"" + kind + "\"") + ("," + inside))) == [("type", Quoted(kind))] + members
  {
    ReadMember("type", Quoted(kind), "\"" + kind + "\"", inside, members, "");
    ReadDocument(Member("type", ("\"" + kind + "\"") + ("," + inside)), [("type", Quoted(kind))] + members);
  }

  // ---------------------------------------------------------------------------------------------
  // The fields of the serializer, as steps
  // ---------------------------------------------------------------------------------------------

  function Cons(key: string, value: Json, others: seq<(string, Json)>): seq<(string, Json)> { [(key, value)] + others }

  lemma UintStep(fields: seq<Field>, i: nat, pre: string, key: string, v: U64, others: seq<(string, Json)>, after: string)
    requires i < |fields| && fields[i] == Uint(pre + ",\"" + key + "\":", v) && Plain(key)
    requires Reads(From(fields, i + 1), "", others, after)
    ensures Reads(From(fields, i), pre, Cons(key, Bare(Decimal(v)), others), after)
  {
    DigitsArePlain(v);
    BareReads(fields[i].key, pre, key, Decimal(v), From(fields, i + 1), others, after);
  }

  lemma FixedStep(fields: seq<Field>, i: nat, pre: string, key: string, v: I64, others: seq<(string, Json)>, after: string)
    requires i < |fields| && fields[i] == Fixed(pre + ",\"" + key + "\":\"", v) && Plain(key)
    requires Reads(From(fields, i + 1), "\"", others, after)
    ensures Reads(From(fields, i), pre, Cons(key, Quoted(Fixed8(v)), others), after)
  {
    Fixed8IsPlain(v);
    QuotedReads(fields[i].key, pre, key, Fixed8(v), From(fields, i + 1), others, after);
  }

  lemma WordStep(fields: seq<Field>, i: nat, pre: string, key: string, word: string, others: seq<(string, Json)>,
                 after: string)
    requires i < |fields| && fields[i] == Word(pre + ",\"" + key + "\":", word) && Plain(key) && Plain(word) && word != []
    requires Reads(From(fields, i + 1), "", others, after)
    ensures Reads(From(fields, i), pre, Cons(key, Bare(word), others), after)
  {
    BareReads(fields[i].key, pre, key, word, From(fields, i + 1), others, after);
  }

  function TelemetryTail(t: Telemetry): seq<(string, Json)>
    requires TelemetryFits(t)
  {
    Cons("t1", Bare(Decimal(t.t1IngestNicNs)),
    Cons("t2", Bare(Decimal(t.t2EngineProcNs)),
         [("t3", Bare(Decimal(t.t3EgressNs)))]))
  }

  function TelemetryMembers(t: Telemetry): seq<(string, Json)>
    requires TelemetryFits(t)
  {
    Cons("t0", Bare(Decimal(t.t0ExchangeNs)), TelemetryTail(t))
  }

  /** Both messages end with the same five fields. */
  ghost predicate EndsWithTelemetry(fields: seq<Field>, i: nat, t: Telemetry)
    requires TelemetryFits(t)
  {
    && |fields| == i + 5
    && fields[i] == Uint(",\"telemetry\":{\"t0\":", t.t0ExchangeNs)
    && fields[i + 1] == Uint(",\"t1\":", t.t1IngestNicNs)
    && fields[i + 2] == Uint(",\"t2\":", t.t2EngineProcNs)
    && fields[i + 3] == Uint(",\"t3\":", t.t3EgressNs)
    && fields[i + 4] == Word("}}", "")
  }

  lemma TelemetryKeys()
    ensures Plain("telemetry") && Plain("t0") && Plain("t1") && Plain("t2") && Plain("t3")
    ensures ",\"telemetry\":{\"t0\":" == "" + ",\"" + "telemetry" + "\":{\"" + "t0" + "\":"
    ensures ",\"t1\":" == "" + ",\"" + "t1" + "\":" && ",\"t2\":" == "" + ",\"" + "t2" + "\":"
    ensures ",\"t3\":" == "" + ",\"" + "t3" + "\":"
  {
  }

  lemma TailReads(fields: seq<Field>, i: nat, t: Telemetry)
    requires TelemetryFits(t) && EndsWithTelemetry(fields, i, t)
    ensures Reads(From(fields, i + 1), "", TelemetryTail(t), "}")
  {
    TelemetryKeys();
    var v := t.t3EgressNs;
    DigitsArePlain(v);
    ClosingText(fields, i + 4);
    LastReads(",\"t3\":", "t3", Decimal(v), From(fields, i + 4), "}");
    UintStep(fields, i + 2, "", "t2", t.t2EngineProcNs, [("t3", Bare(Decimal(v)))], "}");
    UintStep(fields, i + 1, "", "t1", t.t1IngestNicNs,
             Cons("t2", Bare(Decimal(t.t2EngineProcNs)), [("t3", Bare(Decimal(v)))]), "}");
  }

  lemma ClosingText(fields: seq<Field>, i: nat)
    requires |fields| == i + 1 && fields[i] == Word("}}", "")
    ensures From(fields, i) == "}" + "}"
  {
    assert From(fields, i + 1) == "";
  }

  lemma TelemetryReads(fields: seq<Field>, i: nat, t: Telemetry)
    requires TelemetryFits(t) && EndsWithTelemetry(fields, i, t)
    ensures Reads(From(fields, i), "", [("telemetry", Object(TelemetryMembers(t)))], "")
  {
    TelemetryKeys();
    TailReads(fields, i, t);
    DigitsArePlain(t.t0ExchangeNs);
    NestedReads(",\"telemetry\":{\"t0\":", "", "telemetry", "t0", Decimal(t.t0ExchangeNs), From(fields, i + 1),
                TelemetryTail(t));
  }

  // ---------------------------------------------------------------------------------------------
  // Looking fields up
  // ---------------------------------------------------------------------------------------------

  lemma LookupCons(key: string, value: Json, others: seq<(string, Json)>, k: string)
    ensures Lookup(Cons(key, value, others), k) == if key == k then Some(value) else Lookup(others, k)
  {
    assert Cons(key, value, others)[1..] == others;
  }

  /** Enough of a key to tell the messages' keys apart. */
  function Mark(key: string): int {
    if |key| < 3 then |key| else |key| * 100_000_000 + key[0] as int * 10_000 + key[2] as int
  }

  lemma LookupConses()
    ensures forall key: string, value: Json, others: seq<(string, Json)> :: Lookup(Cons(key, value, others), key) == Some(value)
    ensures forall key: string, value: Json, others: seq<(string, Json)>, k: string ::
      Mark(key) != Mark(k) ==> Lookup(Cons(key, value, others), k) == Lookup(others, k)
  {
    forall key: string, value: Json, others: seq<(string, Json)>, k: string
      ensures Lookup(Cons(key, value, others), k) == if key == k then Some(value) else Lookup(others, k)
    {
      LookupCons(key, value, others, k);
    }
  }

  lemma IntegerBack(members: seq<(string, Json)>, key: string, v: nat)
    requires Lookup(members, key) == Some(Bare(Decimal(v)))
    ensures IntegerAt(members, key) == Some(v)
  {
    NumberOfDecimal(v);
  }

  lemma PriceBack(members: seq<(string, Json)>, key: string, v: I64)
    requires Lookup(members, key) == Some(Quoted(Fixed8(v)))
    ensures PriceAt(members, key) == Some(v)
  {
    RoundTrip(v);
  }

  lemma QuantityBack(members: seq<(string, Json)>, key: string, q: U64)
    requires Lookup(members, key) == Some(Quoted(Fixed8(Wrap(q))))
    ensures QuantityAt(members, key) == Some(q)
  {
    QuantityRoundTrip(q);
  }

  lemma TelemetryBack(t: Telemetry)
    requires TelemetryFits(t)
    ensures SpellsTelemetry(TelemetryMembers(t), t)
  {
    var m3 := [("t3", Bare(Decimal(t.t3EgressNs)))];
    var m2 := Cons("t2", Bare(Decimal(t.t2EngineProcNs)), m3);
    var m1 := Cons("t1", Bare(Decimal(t.t1IngestNicNs)), m2);
    var m := Cons("t0", Bare(Decimal(t.t0ExchangeNs)), m1);
    assert "t0"[1] == '0' && "t1"[1] == '1' && "t2"[1] == '2' && "t3"[1] == '3';
    LookupCons("t0", Bare(Decimal(t.t0ExchangeNs)), m1, "t0");
    LookupCons("t0", Bare(Decimal(t.t0ExchangeNs)), m1, "t1");
    LookupCons("t1", Bare(Decimal(t.t1IngestNicNs)), m2, "t1");
    LookupCons("t0", Bare(Decimal(t.t0ExchangeNs)), m1, "t2");
    LookupCons("t1", Bare(Decimal(t.t1IngestNicNs)), m2, "t2");
    LookupCons("t2", Bare(Decimal(t.t2EngineProcNs)), m3, "t2");
    LookupCons("t0", Bare(Decimal(t.t0ExchangeNs)), m1, "t3");
    LookupCons("t1", Bare(Decimal(t.t1IngestNicNs)), m2, "t3");
    LookupCons("t2", Bare(Decimal(t.t2EngineProcNs)), m3, "t3");
    IntegerBack(m, "t0", t.t0ExchangeNs);
    IntegerBack(m, "t1", t.t1IngestNicNs);
    IntegerBack(m, "t2", t.t2EngineProcNs);
    IntegerBack(m, "t3", t.t3EgressNs);
  }

  // ---------------------------------------------------------------------------------------------
  // The quote message
  // ---------------------------------------------------------------------------------------------

  function BboEnd(b: Bbo): seq<(string, Json)>
    requires BboFits(b)
  {
    Cons("spread_bps", Bare(Decimal(b.spreadBps)),
    Cons("flags", Bare(Decimal(b.flags)),
         [("telemetry", Object(TelemetryMembers(b.telemetry)))]))
  }

  function BboSecondHalf(b: Bbo): seq<(string, Json)>
    requires BboFits(b)
  {
    Cons("ask_px", Quoted(Fixed8(b.askPrice)),
    Cons("ask_qty", Quoted(Fixed8(Wrap(b.askQty))),
         BboEnd(b)))
  }

  function BboFirstHalf(b: Bbo): seq<(string, Json)>
    requires BboFits(b)
  {
    Cons("venue", Bare(Decimal(b.venue)),
    Cons("chain", Bare(Decimal(b.chain)),
    Cons("sequence", Bare(Decimal(b.sequence)),
    Cons("bid_px", Quoted(Fixed8(b.bidPrice)),
    Cons("bid_qty", Quoted(Fixed8(Wrap(b.bidQty))),
         BboSecondHalf(b))))))
  }

  function BboMembers(b: Bbo): seq<(string, Json)>
    requires BboFits(b)
  {
    Cons("type", Quoted("bbo"), Cons("market_id", Bare(Decimal(b.marketId)), BboFirstHalf(b)))
  }

  lemma AskKeys()
    ensures Plain("ask_px") && Plain("ask_qty")
    ensures "\",\"ask_px\":\"" == "\"" + ",\"" + "ask_px" + "\":\""
    ensures "\",\"ask_qty\":\"" == "\"" + ",\"" + "ask_qty" + "\":\""
  {
  }

  lemma FlagKeys()
    ensures Plain("spread_bps") && Plain("flags")
    ensures "\",\"spread_bps\":" == "\"" + ",\"" + "spread_bps" + "\":"
    ensures ",\"flags\":" == "" + ",\"" + "flags" + "\":"
  {
  }

  lemma BidKeys()
    ensures Plain("bid_px") && Plain("bid_qty")
    ensures ",\"bid_px\":\"" == "" + ",\"" + "bid_px" + "\":\""
    ensures "\",\"bid_qty\":\"" == "\"" + ",\"" + "bid_qty" + "\":\""
  {
  }

  lemma HeaderKeys()
    ensures Plain("venue") && Plain("chain") && Plain("sequence")
    ensures ",\"venue\":" == "" + ",\"" + "venue" + "\":" && ",\"chain\":" == "" + ",\"" + "chain" + "\":"
    ensures ",\"sequence\":" == "" + ",\"" + "sequence" + "\":"
  {
  }

  lemma BboOpening()
    ensures Plain("bbo") && Plain("market_id")
    ensures "{\"type\":\"bbo\",\"market_id\":" == "{\"type\":\"" + "bbo" + "\",\"" + "market_id" + "\":"
  {
  }

  lemma TradeOpening()
    ensures Plain("trade") && Plain("market_id")
    ensures "{\"type\":\"trade\",\"market_id\":" == "{\"type\":\"" + "trade" + "\",\"" + "market_id" + "\":"
  {
  }

  lemma BboTelemetryReads(b: Bbo)
    requires BboFits(b)
    ensures Reads(From(BboFields(b), 10), "", [("telemetry", Object(TelemetryMembers(b.telemetry)))], "")
  {
    var f := BboFields(b);
    assert EndsWithTelemetry(f, 10, b.telemetry);
    TelemetryReads(f, 10, b.telemetry);
  }

  lemma FlagsRead(fields: seq<Field>, i: nat, spread: U64, flags: U64, others: seq<(string, Json)>)
    requires i + 1 < |fields| && fields[i] == Uint("\",\"spread_bps\":", spread) && fields[i + 1] == Uint(",\"flags\":", flags)
    requires Reads(From(fields, i + 2), "", others, "")
    ensures Reads(From(fields, i), "\"",
                  Cons("spread_bps", Bare(Decimal(spread)), Cons("flags", Bare(Decimal(flags)), others)), "")
  {
    FlagKeys();
    UintStep(fields, i + 1, "", "flags", flags, others, "");
    UintStep(fields, i, "\"", "spread_bps", spread, Cons("flags", Bare(Decimal(flags)), others), "");
  }

  lemma BboEndReads(b: Bbo)
    requires BboFits(b)
    ensures Reads(From(BboFields(b), 8), "\"", BboEnd(b), "")
  {
    BboTelemetryReads(b);
    FlagsRead(BboFields(b), 8, b.spreadBps, b.flags, [("telemetry", Object(TelemetryMembers(b.telemetry)))]);
  }

  lemma AsksRead(fields: seq<Field>, i: nat, price: I64, qty: I64, others: seq<(string, Json)>)
    requires i + 1 < |fields| && fields[i] == Fixed("\",\"ask_px\":\"", price) && fields[i + 1] == Fixed("\",\"ask_qty\":\"", qty)
    requires Reads(From(fields, i + 2), "\"", others, "")
    ensures Reads(From(fields, i), "\"",
                  Cons("ask_px", Quoted(Fixed8(price)), Cons("ask_qty", Quoted(Fixed8(qty)), others)), "")
  {
    AskKeys();
    FixedStep(fields, i + 1, "\"", "ask_qty", qty, others, "");
    FixedStep(fields, i, "\"", "ask_px", price, Cons("ask_qty", Quoted(Fixed8(qty)), others), "");
  }

  lemma BidsRead(fields: seq<Field>, i: nat, price: I64, qty: I64, others: seq<(string, Json)>)
    requires i + 1 < |fields| && fields[i] == Fixed(",\"bid_px\":\"", price) && fields[i + 1] == Fixed("\",\"bid_qty\":\"", qty)
    requires Reads(From(fields, i + 2), "\"", others, "")
    ensures Reads(From(fields, i), "",
                  Cons("bid_px", Quoted(Fixed8(price)), Cons("bid_qty", Quoted(Fixed8(qty)), others)), "")
  {
    BidKeys();
    FixedStep(fields, i + 1, "\"", "bid_qty", qty, others, "");
    FixedStep(fields, i, "", "bid_px", price, Cons("bid_qty", Quoted(Fixed8(qty)), others), "");
  }

  lemma BboAsks(b: Bbo)
    requires BboFits(b)
    ensures var fields := BboFields(b);
      |fields| > 8 && fields[6] == Fixed("\",\"ask_px\":\"", b.askPrice) && fields[7] == Fixed("\",\"ask_qty\":\"", Wrap(b.askQty))
  {
  }

  lemma BboSecondHalfReads(b: Bbo)
    requires BboFits(b)
    ensures Reads(From(BboFields(b), 6), "\"", BboSecondHalf(b), "")
  {
    BboEndReads(b);
    BboAsks(b);
    AsksRead(BboFields(b), 6, b.askPrice, Wrap(b.askQty), BboEnd(b));
  }

  lemma BboBids(b: Bbo)
    requires BboFits(b)
    ensures var fields := BboFields(b);
      |fields| > 6 && fields[4] == Fixed(",\"bid_px\":\"", b.bidPrice) && fields[5] == Fixed("\",\"bid_qty\":\"", Wrap(b.bidQty))
  {
  }

  lemma BboBidReads(b: Bbo)
    requires BboFits(b)
    ensures Reads(From(BboFields(b), 4), "",
                  Cons("bid_px", Quoted(Fixed8(b.bidPrice)), Cons("bid_qty", Quoted(Fixed8(Wrap(b.bidQty))), BboSecondHalf(b))), "")
  {
    BboSecondHalfReads(b);
    BboBids(b);
    BidsRead(BboFields(b), 4, b.bidPrice, Wrap(b.bidQty), BboSecondHalf(b));
  }

  /** Venue, chain and sequence, which both messages carry in fields 1 to 3. */
  lemma HeaderReads(fields: seq<Field>, venue: U64, chain: U64, sequence: U64, others: seq<(string, Json)>)
    requires |fields| > 4 && fields[1] == Uint(",\"venue\":", venue) && fields[2] == Uint(",\"chain\":", chain)
    requires fields[3] == Uint(",\"sequence\":", sequence) && Reads(From(fields, 4), "", others, "")
    ensures Reads(From(fields, 1), "",
                  Cons("venue", Bare(Decimal(venue)), Cons("chain", Bare(Decimal(chain)),
                  Cons("sequence", Bare(Decimal(sequence)), others))), "")
  {
    HeaderKeys();
    UintStep(fields, 3, "", "sequence", sequence, others, "");
    var m := Cons("sequence", Bare(Decimal(sequence)), others);
    UintStep(fields, 2, "", "chain", chain, m, "");
    UintStep(fields, 1, "", "venue", venue, Cons("chain", Bare(Decimal(chain)), m), "");
  }

  lemma BboFirstHalfReads(b: Bbo)
    requires BboFits(b)
    ensures Reads(From(BboFields(b), 1), "", BboFirstHalf(b), "")
  {
    BboBidReads(b);
    HeaderReads(BboFields(b), b.venue, b.chain, b.sequence,
                Cons("bid_px", Quoted(Fixed8(b.bidPrice)), Cons("bid_qty", Quoted(Fixed8(Wrap(b.bidQty))), BboSecondHalf(b))));
  }

  lemma BboDocument(b: Bbo)
    requires BboFits(b)
    ensures Document(BboJson(b)) == BboMembers(b)
  {
    var f := BboFields(b);
    BboOpening();
    BboFirstHalfReads(b);
    DigitsArePlain(b.marketId);
    FirstReads(f[0].key, "bbo", "market_id", Decimal(b.marketId), From(f, 1), BboFirstHalf(b));
    TextIsFrom(f);
    assert From(f, 0) == FieldText(f[0]) + From(f, 1);
  }

  lemma CommonMarks()
    ensures Mark("type") == 401_160_112
    ensures Mark("market_id") == 901_090_114
    ensures Mark("venue") == 501_180_110
    ensures Mark("chain") == 500_990_097
    ensures Mark("sequence") == 801_150_113
    ensures Mark("telemetry") == 901_160_108
  {
  }

  lemma BboMarks()
    ensures Mark("bid_px") == 600_980_100
    ensures Mark("bid_qty") == 700_980_100
    ensures Mark("ask_px") == 600_970_107
    ensures Mark("ask_qty") == 700_970_107
    ensures Mark("spread_bps") == 1_001_150_114
    ensures Mark("flags") == 501_020_097
  {
  }

  lemma TradeMarks()
    ensures Mark("trade_id") == 801_160_097
    ensures Mark("price") == 501_120_105
    ensures Mark("size") == 401_150_122
    ensures Mark("side") == 401_150_100
    ensures Mark("is_liquidation") == 1_401_050_095
  {
  }

  lemma BboLookups(b: Bbo)
    requires BboFits(b)
    ensures var m := BboMembers(b);
      && Lookup(m, "type") == Some(Quoted("bbo")) && Lookup(m, "market_id") == Some(Bare(Decimal(b.marketId)))
      && Lookup(m, "venue") == Some(Bare(Decimal(b.venue))) && Lookup(m, "chain") == Some(Bare(Decimal(b.chain)))
      && Lookup(m, "sequence") == Some(Bare(Decimal(b.sequence)))
      && Lookup(m, "bid_px") == Some(Quoted(Fixed8(b.bidPrice)))
      && Lookup(m, "bid_qty") == Some(Quoted(Fixed8(Wrap(b.bidQty))))
      && Lookup(m, "ask_px") == Some(Quoted(Fixed8(b.askPrice)))
      && Lookup(m, "ask_qty") == Some(Quoted(Fixed8(Wrap(b.askQty))))
      && Lookup(m, "spread_bps") == Some(Bare(Decimal(b.spreadBps))) && Lookup(m, "flags") == Some(Bare(Decimal(b.flags)))
      && Lookup(m, "telemetry") == Some(Object(TelemetryMembers(b.telemetry)))
  {
    LookupConses();
    CommonMarks();
    BboMarks();
  }

  lemma BboIntegersBack(b: Bbo)
    requires BboFits(b)
    ensures var m := BboMembers(b);
      && IntegerAt(m, "market_id") == Some(b.marketId) && IntegerAt(m, "venue") == Some(b.venue)
      && IntegerAt(m, "chain") == Some(b.chain) && IntegerAt(m, "sequence") == Some(b.sequence)
      && IntegerAt(m, "spread_bps") == Some(b.spreadBps) && IntegerAt(m, "flags") == Some(b.flags)
  {
    BboLookups(b);
    var m := BboMembers(b);
    IntegerBack(m, "market_id", b.marketId);
    IntegerBack(m, "venue", b.venue);
    IntegerBack(m, "chain", b.chain);
    IntegerBack(m, "sequence", b.sequence);
    IntegerBack(m, "spread_bps", b.spreadBps);
    IntegerBack(m, "flags", b.flags);
  }

  lemma BboPricesBack(b: Bbo)
    requires BboFits(b)
    ensures var m := BboMembers(b);
      && PriceAt(m, "bid_px") == Some(b.bidPrice) && QuantityAt(m, "bid_qty") == Some(b.bidQty)
      && PriceAt(m, "ask_px") == Some(b.askPrice) && QuantityAt(m, "ask_qty") == Some(b.askQty)
  {
    BboLookups(b);
    var m := BboMembers(b);
    PriceBack(m, "bid_px", b.bidPrice);
    QuantityBack(m, "bid_qty", b.bidQty);
    PriceBack(m, "ask_px", b.askPrice);
    QuantityBack(m, "ask_qty", b.askQty);
  }

  /** Reading the text of a quote gives every one of its fields back. */
  lemma BboReadsBack(b: Bbo)
    requires BboFits(b)
    ensures SpellsBbo(BboJson(b), b)
  {
    BboDocument(b);
    BboLookups(b);
    BboIntegersBack(b);
    BboPricesBack(b);
    TelemetryBack(b.telemetry);
  }

  // ---------------------------------------------------------------------------------------------
  // The trade message
  // ---------------------------------------------------------------------------------------------

  function FlagText(flag: bool): string { if flag then "true" else "false" }

  function TradeSecondHalf(t: Trade): seq<(string, Json)>
    requires TradeFits(t)
  {
    Cons("size", Quoted(Fixed8(Wrap(t.size))),
    Cons("side", Bare(Decimal(t.side)),
    Cons("is_liquidation", Bare(FlagText(t.isLiquidation)),
         [("telemetry", Object(TelemetryMembers(t.telemetry)))])))
  }

  function TradeFirstHalf(t: Trade): seq<(string, Json)>
    requires TradeFits(t)
  {
    Cons("venue", Bare(Decimal(t.venue)),
    Cons("chain", Bare(Decimal(t.chain)),
    Cons("sequence", Bare(Decimal(t.sequence)),
    Cons("trade_id", Bare(Decimal(t.tradeId)),
    Cons("price", Quoted(Fixed8(t.price)),
         TradeSecondHalf(t))))))
  }

  function TradeMembers(t: Trade): seq<(string, Json)>
    requires TradeFits(t)
  {
    Cons("type", Quoted("trade"), Cons("market_id", Bare(Decimal(t.marketId)), TradeFirstHalf(t)))
  }

  lemma PriceKeys()
    ensures Plain("trade_id") && Plain("price")
    ensures ",\"trade_id\":" == "" + ",\"" + "trade_id" + "\":" && ",\"price\":\"" == "" + ",\"" + "price" + "\":\""
  {
  }

  lemma SizeKeys()
    ensures Plain("size") && Plain("side")
    ensures "\",\"size\":\"" == "\"" + ",\"" + "size" + "\":\"" && "\",\"side\":" == "\"" + ",\"" + "side" + "\":"
  {
  }

  lemma LiquidationKey(flag: bool)
    ensures Plain("is_liquidation") && Plain(FlagText(flag)) && FlagText(flag) != []
    ensures ",\"is_liquidation\":" == "" + ",\"" + "is_liquidation" + "\":"
  {
  }

  lemma TradeEndReads(t: Trade)
    requires TradeFits(t)
    ensures Reads(From(TradeFields(t), 8), "",
                  Cons("is_liquidation", Bare(FlagText(t.isLiquidation)),
                       [("telemetry", Object(TelemetryMembers(t.telemetry)))]), "")
  {
    var f := TradeFields(t);
    LiquidationKey(t.isLiquidation);
    assert EndsWithTelemetry(f, 9, t.telemetry);
    TelemetryReads(f, 9, t.telemetry);
    WordStep(f, 8, "", "is_liquidation", FlagText(t.isLiquidation),
             [("telemetry", Object(TelemetryMembers(t.telemetry)))], "");
  }

  lemma SizesRead(fields: seq<Field>, i: nat, size: I64, side: U64, others: seq<(string, Json)>)
    requires i + 1 < |fields| && fields[i] == Fixed("\",\"size\":\"", size) && fields[i + 1] == Uint("\",\"side\":", side)
    requires Reads(From(fields, i + 2), "", others, "")
    ensures Reads(From(fields, i), "\"", Cons("size", Quoted(Fixed8(size)), Cons("side", Bare(Decimal(side)), others)), "")
  {
    SizeKeys();
    UintStep(fields, i + 1, "\"", "side", side, others, "");
    FixedStep(fields, i, "\"", "size", size, Cons("side", Bare(Decimal(side)), others), "");
  }

  lemma PricesRead(fields: seq<Field>, i: nat, id: U64, price: I64, others: seq<(string, Json)>)
    requires i + 1 < |fields| && fields[i] == Uint(",\"trade_id\":", id) && fields[i + 1] == Fixed(",\"price\":\"", price)
    requires Reads(From(fields, i + 2), "\"", others, "")
    ensures Reads(From(fields, i), "", Cons("trade_id", Bare(Decimal(id)), Cons("price", Quoted(Fixed8(price)), others)), "")
  {
    PriceKeys();
    FixedStep(fields, i + 1, "", "price", price, others, "");
    UintStep(fields, i, "", "trade_id", id, Cons("price", Quoted(Fixed8(price)), others), "");
  }

  lemma TradeSizes(t: Trade)
    requires TradeFits(t)
    ensures var fields := TradeFields(t);
      |fields| > 8 && fields[6] == Fixed("\",\"size\":\"", Wrap(t.size)) && fields[7] == Uint("\",\"side\":", t.side)
  {
  }

  lemma TradePrices(t: Trade)
    requires TradeFits(t)
    ensures var fields := TradeFields(t);
      |fields| > 6 && fields[4] == Uint(",\"trade_id\":", t.tradeId) && fields[5] == Fixed(",\"price\":\"", t.price)
  {
  }

  lemma TradeSecondHalfReads(t: Trade)
    requires TradeFits(t)
    ensures Reads(From(TradeFields(t), 6), "\"", TradeSecondHalf(t), "")
  {
    TradeEndReads(t);
    TradeSizes(t);
    SizesRead(TradeFields(t), 6, Wrap(t.size), t.side,
              Cons("is_liquidation", Bare(FlagText(t.isLiquidation)),
                   [("telemetry", Object(TelemetryMembers(t.telemetry)))]));
  }

  lemma TradePriceReads(t: Trade)
    requires TradeFits(t)
    ensures Reads(From(TradeFields(t), 4), "",
                  Cons("trade_id", Bare(Decimal(t.tradeId)), Cons("price", Quoted(Fixed8(t.price)), TradeSecondHalf(t))), "")
  {
    TradeSecondHalfReads(t);
    TradePrices(t);
    PricesRead(TradeFields(t), 4, t.tradeId, t.price, TradeSecondHalf(t));
  }

  lemma TradeFirstHalfReads(t: Trade)
    requires TradeFits(t)
    ensures Reads(From(TradeFields(t), 1), "", TradeFirstHalf(t), "")
  {
    TradePriceReads(t);
    HeaderReads(TradeFields(t), t.venue, t.chain, t.sequence,
                Cons("trade_id", Bare(Decimal(t.tradeId)), Cons("price", Quoted(Fixed8(t.price)), TradeSecondHalf(t))));
  }

  lemma TradeDocument(t: Trade)
    requires TradeFits(t)
    ensures Document(TradeJson(t)) == TradeMembers(t)
  {
    var f := TradeFields(t);
    TradeOpening();
    TradeFirstHalfReads(t);
    DigitsArePlain(t.marketId);
    FirstReads(f[0].key, "trade", "market_id", Decimal(t.marketId), From(f, 1), TradeFirstHalf(t));
    TextIsFrom(f);
    assert From(f, 0) == FieldText(f[0]) + From(f, 1);
  }

  lemma TradeLookups(t: Trade)
    requires TradeFits(t)
    ensures var m := TradeMembers(t);
      && Lookup(m, "type") == Some(Quoted("trade")) && Lookup(m, "market_id") == Some(Bare(Decimal(t.marketId)))
      && Lookup(m, "venue") == Some(Bare(Decimal(t.venue))) && Lookup(m, "chain") == Some(Bare(Decimal(t.chain)))
      && Lookup(m, "sequence") == Some(Bare(Decimal(t.sequence))) && Lookup(m, "trade_id") == Some(Bare(Decimal(t.tradeId)))
      && Lookup(m, "price") == Some(Quoted(Fixed8(t.price))) && Lookup(m, "size") == Some(Quoted(Fixed8(Wrap(t.size))))
      && Lookup(m, "side") == Some(Bare(Decimal(t.side)))
      && Lookup(m, "is_liquidation") == Some(Bare(FlagText(t.isLiquidation)))
      && Lookup(m, "telemetry") == Some(Object(TelemetryMembers(t.telemetry)))
  {
    LookupConses();
    CommonMarks();
    TradeMarks();
  }

  lemma TradeIntegersBack(t: Trade)
    requires TradeFits(t)
    ensures var m := TradeMembers(t);
      && IntegerAt(m, "market_id") == Some(t.marketId) && IntegerAt(m, "venue") == Some(t.venue)
      && IntegerAt(m, "chain") == Some(t.chain) && IntegerAt(m, "sequence") == Some(t.sequence)
      && IntegerAt(m, "trade_id") == Some(t.tradeId) && IntegerAt(m, "side") == Some(t.side)
  {
    TradeLookups(t);
    var m := TradeMembers(t);
    IntegerBack(m, "market_id", t.marketId);
    IntegerBack(m, "venue", t.venue);
    IntegerBack(m, "chain", t.chain);
    IntegerBack(m, "sequence", t.sequence);
    IntegerBack(m, "trade_id", t.tradeId);
    IntegerBack(m, "side", t.side);
  }

  /** Reading the text of a trade gives every one of its fields back. */
  lemma TradeReadsBack(t: Trade)
    requires TradeFits(t)
    ensures SpellsTrade(TradeJson(t), t)
  {
    TradeDocument(t);
    TradeLookups(t);
    TradeIntegersBack(t);
    PriceBack(TradeMembers(t), "price", t.price);
    QuantityBack(TradeMembers(t), "size", t.size);
    TelemetryBack(t.telemetry);
  }
}
