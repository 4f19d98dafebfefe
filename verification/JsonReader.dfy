/** A reader for the JSON the serializer writes: objects of quoted and bare values, without white space
    or escapes. It knows nothing of how the text was put together. */
module JsonReader {
  import opened DecimalText
  import opened FixedPoint
  import opened MarketData
  import opened Bits
  import opened Wrappers

  datatype Json = Bare(text: string) | Quoted(text: string) | Object(members: seq<(string, Json)>)

  /** Length of the longest prefix without any of the stop characters. */
  function Span(s: string, stops: string): (n: nat)
    ensures n <= |s| && forall i :: 0 <= i < n ==> s[i] !in stops
    ensures n < |s| ==> s[n] in stops
  {
    if s == [] || s[0] in stops then 0 else 1 + Span(s[1..], stops)
  }

  /** A value and the text after it. */
  function ParseValue(s: string): (r: Option<(Json, string)>)
    ensures r.Some? ==> |r.value.1| < |s|
    decreases |s|, 0
  {
    if s == [] then None
    else if s[0] == '"' then
      var n := Span(s[1..], "\"");
      if n + 1 == |s| then None else Some((Quoted(s[1..n + 1]), s[n + 2..]))
    else if s[0] == '{' then
      match ParseMembers(s[1..])
      case None => None
      case Some((members, rest)) => Some((Object(members), rest))
    else
      var n := Span(s, ",}");
      if n == 0 then None else Some((Bare(s[..n]), s[n..]))
  }

  /** Members up to and including the closing brace, and the text after it. */
  function ParseMembers(s: string): (r: Option<(seq<(string, Json)>, string)>)
    ensures r.Some? ==> |r.value.1| < |s|
    decreases |s|, 1
  {
    if s == [] || s[0] != '"' then None
    else
      var n := Span(s[1..], "\"");
      if n + 3 > |s| || s[n + 2] != ':' then None
      else
        match ParseValue(s[n + 3..])
        case None => None
        case Some((value, rest)) =>
          var first := [(s[1..n + 1], value)];
          if rest == [] then None
          else if rest[0] == '}' then Some((first, rest[1..]))
          else if rest[0] != ',' then None
          else match ParseMembers(rest[1..])
            case None => None
            case Some((others, after)) => Some((first + others, after))
  }

  /** The members of a text that is one object and nothing more; none for any other text. */
  function Document(s: string): seq<(string, Json)> {
    match ParseValue(s)
    case Some((Object(members), rest)) => if rest == [] then members else []
    case _ => []
  }

  /** The value of a key, the first of that name. */
  function Lookup(members: seq<(string, Json)>, key: string): Option<Json> {
    if members == [] then None
    else if members[0].0 == key then Some(members[0].1)
    else Lookup(members[1..], key)
  }

  function Inside(members: seq<(string, Json)>, key: string): seq<(string, Json)> {
    match Lookup(members, key)
    case Some(Object(inner)) => inner
    case _ => []
  }

  function IntegerAt(members: seq<(string, Json)>, key: string): Option<nat> {
    match Lookup(members, key)
    case Some(Bare(text)) => if text != [] && AllDigits(text) then Some(Number(text)) else None
    case _ => None
  }

  function PriceAt(members: seq<(string, Json)>, key: string): Option<int> {
    match Lookup(members, key)
    case Some(Quoted(text)) => Some(Parsed(text))
    case _ => None
  }

  /** An unsigned 64-bit quantity, cast back from its signed text. */
  function QuantityAt(members: seq<(string, Json)>, key: string): Option<nat> {
    match PriceAt(members, key)
    case Some(v) => Some(v % B64)
    case None => None
  }

  function FlagAt(members: seq<(string, Json)>, key: string): Option<bool> {
    match Lookup(members, key)
    case Some(Bare(text)) => if text == "true" then Some(true) else if text == "false" then Some(false) else None
    case _ => None
  }

  predicate SpellsTelemetry(members: seq<(string, Json)>, t: Telemetry) {
    && IntegerAt(members, "t0") == Some(t.t0ExchangeNs) && IntegerAt(members, "t1") == Some(t.t1IngestNicNs)
    && IntegerAt(members, "t2") == Some(t.t2EngineProcNs) && IntegerAt(members, "t3") == Some(t.t3EgressNs)
  }

  /** The text is a quote message, and reading it gives every field of b. */
  predicate SpellsBbo(s: string, b: Bbo) {
    var m := Document(s);
    && Lookup(m, "type") == Some(Quoted("bbo"))
    && IntegerAt(m, "market_id") == Some(b.marketId)
    && IntegerAt(m, "venue") == Some(b.venue) && IntegerAt(m, "chain") == Some(b.chain)
    && IntegerAt(m, "sequence") == Some(b.sequence)
    && PriceAt(m, "bid_px") == Some(b.bidPrice) && QuantityAt(m, "bid_qty") == Some(b.bidQty)
    && PriceAt(m, "ask_px") == Some(b.askPrice) && QuantityAt(m, "ask_qty") == Some(b.askQty)
    && IntegerAt(m, "spread_bps") == Some(b.spreadBps) && IntegerAt(m, "flags") == Some(b.flags)
    && SpellsTelemetry(Inside(m, "telemetry"), b.telemetry)
  }

  /** The text is a trade message, and reading it gives every field of t. */
  predicate SpellsTrade(s: string, t: Trade) {
    var m := Document(s);
    && Lookup(m, "type") == Some(Quoted("trade"))
    && IntegerAt(m, "market_id") == Some(t.marketId)
    && IntegerAt(m, "venue") == Some(t.venue) && IntegerAt(m, "chain") == Some(t.chain)
    && IntegerAt(m, "sequence") == Some(t.sequence) && IntegerAt(m, "trade_id") == Some(t.tradeId)
    && PriceAt(m, "price") == Some(t.price) && QuantityAt(m, "size") == Some(t.size)
    && IntegerAt(m, "side") == Some(t.side) && FlagAt(m, "is_liquidation") == Some(t.isLiquidation)
    && SpellsTelemetry(Inside(m, "telemetry"), t.telemetry)
  }

  // ---------------------------------------------------------------------------------------------
  // Reading one member at a time
  // ---------------------------------------------------------------------------------------------

  lemma {:induction false} SpanIs(s: string, front: string, stops: string)
    requires |front| < |s| && s[..|front|] == front && s[|front|] in stops
    requires forall i :: 0 <= i < |front| ==> front[i] !in stops
    ensures Span(s, stops) == |front|
    decreases |front|
  {
    if front != [] {
      assert s[0] == front[0];
      assert s[1..][..|front| - 1] == front[1..];
      SpanIs(s[1..], front[1..], stops);
    }
  }

  predicate Plain(text: string) { forall i :: 0 <= i < |text| ==> text[i] !in "\",{}" }

  /** What a member's value looks like in the text. */
  predicate Shows(value: Json, text: string) {
    match value
    case Bare(t) => text == t && t != [] && Plain(t)
    case Quoted(t) => text == "\"" + t + "\"" && Plain(t)
    case Object(_) => false
  }

  lemma ValueShown(value: Json, text: string, rest: string)
    requires Shows(value, text) && rest != [] && rest[0] in ",}"
    ensures ParseValue(text + rest) == Some((value, rest))
  {
    var s := text + rest;
    match value {
      case Bare(t) =>
        SpanIs(s, t, ",}");
        assert s[..|t|] == t && s[|t|..] == rest;
      case Quoted(t) =>
        assert s[1..] == t + ("\"" + rest);
        SpanIs(s[1..], t, "\"");
        assert s[1..|t| + 1] == t && s[|t| + 2..] == rest;
    }
  }

  function Member(key: string, text: string): string { "\"" + key + "\":" + text }

  lemma KeyRead(key: string, rest: string)
    requires Plain(key)
    ensures var s := Member(key, rest);
      && s != [] && s[0] == '"' && Span(s[1..], "\"") == |key| && s[1..|key| + 1] == key
      && |s| == |key| + 3 + |rest| && s[|key| + 2] == ':' && s[|key| + 3..] == rest
  {
    var s := Member(key, rest);
    assert s[1..] == key + ("\":" + rest);
    SpanIs(s[1..], key, "\"");
  }

  /** A member before others. */
  lemma ReadMember(key: string, value: Json, text: string, rest: string, others: seq<(string, Json)>, after: string)
    requires Plain(key) && Shows(value, text) && ParseMembers(rest) == Some((others, after))
    ensures ParseMembers(Member(key, text + ("," + rest))) == Some(([(key, value)] + others, after))
  {
    KeyRead(key, text + ("," + rest));
    ValueShown(value, text, "," + rest);
    assert ("," + rest)[1..] == rest;
  }

  /** The last member of an object. */
  lemma ReadLast(key: string, value: Json, text: string, after: string)
    requires Plain(key) && Shows(value, text)
    ensures ParseMembers(Member(key, text + ("}" + after))) == Some(([(key, value)], after))
  {
    KeyRead(key, text + ("}" + after));
    ValueShown(value, text, "}" + after);
    assert ("}" + after)[1..] == after;
  }

  /** An object as the last member of another. */
  lemma ReadNested(key: string, inside: string, inner: seq<(string, Json)>, after: string)
    requires Plain(key) && ParseMembers(inside) == Some((inner, "}" + after))
    ensures ParseMembers(Member(key, "{" + inside)) == Some(([(key, Object(inner))], after))
  {
    KeyRead(key, "{" + inside);
    assert ("{" + inside)[1..] == inside;
    assert ("}" + after)[1..] == after;
  }

  lemma ReadDocument(inside: string, members: seq<(string, Json)>)
    requires ParseMembers(inside) == Some((members, []))
    ensures Document("{" + inside) == members
  {
    assert ("{" + inside)[1..] == inside;
  }
}
