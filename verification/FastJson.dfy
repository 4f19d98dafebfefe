/** The zero-allocation JSON serializer: a cursor over a fixed buffer, and integer printing two digits
    at a time from a lookup table. Bytes are ASCII characters. */
module FastJson {
  import opened Bits
  import opened DecimalText
  import opened FixedPoint
  import opened MarketData
  import opened Sequences
  import opened Wrappers

  datatype JsonError = BufferTooSmall(required: nat, provided: nat)

  const U64_DIGITS: nat := 20

  /** The two-digit table, one row per tens digit. */
  const DEC_DIGITS_LUT: seq<string> := [
    "00010203040506070809",
    "10111213141516171819",
    "20212223242526272829",
    "30313233343536373839",
    "40414243444546474849",
    "50515253545556575859",
    "60616263646566676869",
    "70717273747576777879",
    "80818283848586878889",
    "90919293949596979899"]

  /** A row spells its tens digit before each ones digit. */
  function RowText(tens: char): string {
    [tens, '0', tens, '1', tens, '2', tens, '3', tens, '4', tens, '5', tens, '6', tens, '7', tens, '8', tens, '9']
  }

  lemma RowAt(tens: char, u: nat)
    requires u < 10
    ensures RowText(tens)[2 * u] == tens && RowText(tens)[2 * u + 1] == Digit(u)
  {
  }

  method TableRow(t: nat) returns (row: string)
    requires t < 10
    ensures row == RowText(Digit(t))
  {
    row := DEC_DIGITS_LUT[t];
  }

  /** `LUT[rem * 2]` and `LUT[rem * 2 + 1]`: row `rem / 10`, columns `2 * (rem % 10)` and the next. */
  method TwoDigits(rem: nat) returns (tens: char, ones: char)
    requires rem < 100
    ensures tens == Digit(rem / 10) && ones == Digit(rem % 10)
  {
    tens, ones := TableCell(rem / 10, rem % 10);
  }

  /** Both digits of `rem` into the scratch buffer. */
  method WritePair(temp: array<char>, idx: nat, rem: nat)
    requires rem < 100 && idx + 2 <= temp.Length
    modifies temp
    ensures temp[idx..] == [Digit(rem / 10), Digit(rem % 10)] + old(temp[idx + 2..])
    ensures forall i :: 0 <= i < idx ==> temp[i] == old(temp[i])
  {
    var tens, ones := TwoDigits(rem);
    temp[idx] := tens;
    temp[idx + 1] := ones;
  }

  method TableCell(t: nat, u: nat) returns (tens: char, ones: char)
    requires t < 10 && u < 10
    ensures tens == Digit(t) && ones == Digit(u)
  {
    var row := TableRow(t);
    RowAt(Digit(t), u);
    tens := row[2 * u];
    ones := row[2 * u + 1];
  }

  // ---------------------------------------------------------------------------------------------
  // Writing into the buffer
  // ---------------------------------------------------------------------------------------------

  /** What any write does: the whole text when it fits, otherwise an error that reports a size the
      buffer does not have, after at most a prefix. */
  ghost predicate Emits(before: string, after: string, text: string, r: Result<(), JsonError>, capacity: nat) {
    && (r.Ok? <==> |before| + |text| <= capacity)
    && (r.Ok? ==> after == before + text)
    && (r.Err? ==> before <= after <= before + text && r.error.provided == capacity < r.error.required <= |before| + |text|)
  }

  lemma EmitsMore(before: string, mid: string, after: string, first: string, second: string,
                  r: Result<(), JsonError>, capacity: nat)
    requires Emits(before, mid, first, Ok(()), capacity) && Emits(mid, after, second, r, capacity)
    ensures Emits(before, after, first + second, r, capacity)
  {
    assert before + (first + second) == mid + second;
  }

  lemma EmitsNoMore(before: string, after: string, first: string, whole: string, r: Result<(), JsonError>, capacity: nat)
    requires Emits(before, after, first, r, capacity) && r.Err? && first <= whole
    ensures Emits(before, after, whole, r, capacity)
  {
    assert before + first <= before + whole;
  }

  class FastJsonWriter {
    const buf: array<char>
    var pos: nat

    ghost predicate Valid()
      reads this
    {
      pos <= buf.Length
    }

    ghost function Written(): string
      reads this, buf
      requires Valid()
    {
      buf[..pos]
    }

    constructor (buf: array<char>)
      ensures Valid() && this.buf == buf && Written() == ""
    {
      this.buf := buf;
      pos := 0;
    }

    method WriteByte(b: char) returns (r: Result<(), JsonError>)
      requires Valid()
      modifies this, buf
      ensures Valid() && Emits(old(Written()), Written(), [b], r, buf.Length)
    {
      if pos >= buf.Length {
        return Err(BufferTooSmall(pos + 1, buf.Length));
      }
      buf[pos] := b;
      pos := pos + 1;
      r := Ok(());
    }

    method WriteBytes(bytes: string) returns (r: Result<(), JsonError>)
      requires Valid()
      modifies this, buf
      ensures Valid() && Emits(old(Written()), Written(), bytes, r, buf.Length)
    {
      var needed := pos + |bytes|;
      if needed > buf.Length {
        return Err(BufferTooSmall(needed, buf.Length));
      }
      var i := 0;
      while i < |bytes|
        invariant i <= |bytes| && pos == old(pos)
        invariant buf[..pos + i] == old(buf[..pos]) + bytes[..i]
      {
        buf[pos + i] := bytes[i];
        i := i + 1;
      }
      pos := needed;
      r := Ok(());
    }

    /** Two digits per step from the low end of a twenty-byte scratch buffer. */
    method WriteU64(value: U64) returns (r: Result<(), JsonError>)
      requires Valid()
      modifies this, buf
      ensures Valid() && Emits(old(Written()), Written(), Decimal(value), r, buf.Length)
    {
      if value == 0 {
        r := WriteByte('0');
        return;
      }
      var digits := Digits(value);
      r := WriteBytes(digits);
    }

    static method Digits(value: U64) returns (digits: string)
      requires value > 0
      ensures digits == Decimal(value)
    {
      var temp := new char[U64_DIGITS](_ => '\0');
      var val, idx: nat := value, U64_DIGITS;
      U64HasTwentyDigits(value, U64_DIGITS);
      while val >= 100
        invariant 0 < val && idx <= U64_DIGITS && val < Pow10(idx)
        invariant Decimal(val) + temp[idx..] == Decimal(value)
        decreases val
      {
        RoomForTwo(val, idx);
        PrependPair(val, temp[idx..]);
        idx := idx - 2;
        WritePair(temp, idx, val % 100);
        val := val / 100;
      }
      digits := LastDigits(temp, idx, val);
    }

    /** The one or two leading digits. */
    static method LastDigits(temp: array<char>, idx: nat, val: nat) returns (digits: string)
      requires temp.Length == U64_DIGITS && idx <= U64_DIGITS && 0 < val < 100 && val < Pow10(idx)
      modifies temp
      ensures digits == Decimal(val) + old(temp[idx..])
    {
      if val < 10 {
        temp[idx - 1] := '0' + (val as char);
        digits := temp[idx - 1..];
      } else {
        var tens, ones := TwoDigits(val);
        RoomForTwo(val, idx);
        temp[idx - 2] := tens;
        temp[idx - 1] := ones;
        digits := temp[idx - 2..];
      }
    }

    method WriteI64(val: I64) returns (r: Result<(), JsonError>)
      requires Valid()
      modifies this, buf
      ensures Valid() && Emits(old(Written()), Written(), SignedDecimal(val), r, buf.Length)
    {
      ghost var before := Written();
      if val < 0 {
        r := WriteByte('-');
        if r.Err? {
          EmitsNoMore(before, Written(), "-", SignedDecimal(val), r, buf.Length);
          return;
        }
        ghost var mid := Written();
        r := WriteU64(Magnitude(val));
        EmitsMore(before, mid, Written(), "-", Decimal(Magnitude(val)), r, buf.Length);
      } else {
        r := WriteU64(val);
        assert "" + Decimal(val) == Decimal(val);
      }
    }

    /** Sign, whole part, point, decimals: the text the fixed-point parser reads back. */
    method WriteFixedPoint8(val: I64) returns (r: Result<(), JsonError>)
      requires Valid()
      modifies this, buf
      ensures Valid() && Emits(old(Written()), Written(), Fixed8(val), r, buf.Length)
    {
      ghost var before := Written();
      var magnitude := Magnitude(val);
      r := WriteWhole(val < 0, magnitude / SCALE);
      ghost var head := Sign(val < 0) + Decimal(magnitude / SCALE);
      ghost var fraction := Padded(magnitude % SCALE, 8);
      assert Fixed8(val) == head + "." + fraction;
      if r.Err? {
        EmitsNoMore(before, Written(), head, Fixed8(val), r, buf.Length);
        return;
      }
      ghost var mid := Written();
      r := WriteByte('.');
      EmitsMore(before, mid, Written(), head, ".", r, buf.Length);
      if r.Err? {
        EmitsNoMore(before, Written(), head + ".", Fixed8(val), r, buf.Length);
        return;
      }
      mid := Written();
      Pow10At(8);
      var fracBuf := FractionDigits(magnitude % SCALE, 8);
      r := WriteBytes(fracBuf);
      EmitsMore(before, mid, Written(), head + ".", fraction, r, buf.Length);
    }

    method WriteWhole(negative: bool, whole: U64) returns (r: Result<(), JsonError>)
      requires Valid()
      modifies this, buf
      ensures Valid() && Emits(old(Written()), Written(), Sign(negative) + Decimal(whole), r, buf.Length)
    {
      ghost var before := Written();
      if negative {
        r := WriteByte('-');
        if r.Err? {
          EmitsNoMore(before, Written(), "-", "-" + Decimal(whole), r, buf.Length);
          return;
        }
      }
      ghost var mid := Written();
      assert mid == before + Sign(negative);
      r := WriteU64(whole);
      EmitsMore(before, mid, Written(), Sign(negative), Decimal(whole), r, buf.Length);
    }
  }

  lemma PrependPair(val: nat, tail: string)
    requires val >= 100
    ensures Decimal(val / 100) + ([Digit(val % 100 / 10), Digit(val % 100 % 10)] + tail) == Decimal(val) + tail
  {
    LastOfPair(val);
    DecimalByHundreds(val);
    Regroup(Decimal(val / 100), [Digit(val % 100 / 10), Digit(val % 10)], tail);
  }

  lemma RoomForTwo(val: nat, idx: nat)
    requires val >= 10 && val < Pow10(idx)
    ensures idx >= 2 && val / 100 < Pow10(idx - 2)
  {
    if idx == 0 {
      assert false;
    } else if idx == 1 {
      assert false;
    }
    assert Pow10(idx) == 10 * Pow10(idx - 1) && Pow10(idx - 1) == 10 * Pow10(idx - 2);
  }

  lemma U64HasTwentyDigits(v: U64, k: nat)
    requires k == U64_DIGITS
    ensures v < Pow10(k)
  {
    Pow10At(8);
    Pow10Add(8, 8);
    Pow10Add(16, 4);
    assert Pow10(4) == 10000;
  }

  function SignedDecimal(v: I64): string { Sign(v < 0) + Decimal(Magnitude(v)) }

  lemma {:induction false} PaddedZero(k: nat)
    ensures forall i :: 0 <= i < k ==> Padded(0, k)[i] == '0'
  {
    if k > 0 { PaddedZero(k - 1); }
  }

  /** Zero-padded decimals, two at a time into a buffer of zeros; at the even widths in use the
      odd-digit step after the loop can never apply. */
  method FractionDigits(fraction: nat, width: nat) returns (digits: string)
    requires width % 2 == 0 && fraction < Pow10(width)
    ensures digits == Padded(fraction, width)
  {
    var fracBuf := new char[width](_ => '0');
    var frac: nat, idx: nat := fraction, width;
    ghost var whole := Padded(fraction, width);
    while frac > 0 && idx >= 2
      invariant idx <= width && idx % 2 == 0 && ToWrite(fracBuf[..], frac, idx, whole)
      decreases frac
    {
      ghost var before := fracBuf[..];
      WritePair(fracBuf, idx - 2, frac % 100);
      FractionPass(before, fracBuf[..], frac, idx, whole);
      frac := frac / 100;
      idx := idx - 2;
    }
    if frac > 0 && idx == 1 {
      assert false;
    }
    digits := fracBuf[..];
    FractionDone(digits, frac, idx, whole);
  }

  /** The digits still to write complete those written, over a prefix of zeros. */
  ghost predicate ToWrite(buf: string, frac: nat, idx: nat, whole: string)
    requires idx <= |buf|
  {
    && frac < Pow10(idx) && Padded(frac, idx) + buf[idx..] == whole
    && forall i :: 0 <= i < idx ==> buf[i] == '0'
  }

  lemma FractionDone(digits: string, frac: nat, idx: nat, whole: string)
    requires idx <= |digits| && (frac == 0 || idx == 0) && ToWrite(digits, frac, idx, whole)
    ensures digits == whole
  {
    assert frac == 0;
    PaddedZero(idx);
    assert digits[..idx] == Padded(0, idx);
    assert digits == digits[..idx] + digits[idx..];
  }

  lemma FractionPass(before: string, after: string, frac: nat, idx: nat, whole: string)
    requires 2 <= idx <= |before| == |after| && ToWrite(before, frac, idx, whole)
    requires after[idx - 2..] == [Digit(frac % 100 / 10), Digit(frac % 100 % 10)] + before[idx..]
    requires forall i :: 0 <= i < idx - 2 ==> after[i] == before[i]
    ensures ToWrite(after, frac / 100, idx - 2, whole)
  {
    FractionStep(frac, idx);
    PrependPadded(frac, idx, before[idx..]);
  }

  lemma FractionStep(frac: nat, idx: nat)
    requires idx >= 2 && frac < Pow10(idx)
    ensures frac / 100 < Pow10(idx - 2)
  {
    assert Pow10(idx) == 10 * Pow10(idx - 1) && Pow10(idx - 1) == 10 * Pow10(idx - 2);
  }

  lemma PrependPadded(frac: nat, idx: nat, tail: string)
    requires idx >= 2
    ensures Padded(frac / 100, idx - 2) + ([Digit(frac % 100 / 10), Digit(frac % 100 % 10)] + tail) == Padded(frac, idx) + tail
  {
    LastOfPair(frac);
    PaddedByHundreds(frac, idx);
    Regroup(Padded(frac / 100, idx - 2), [Digit(frac % 100 / 10), Digit(frac % 10)], tail);
  }

  lemma LastOfPair(v: nat)
    ensures v % 100 % 10 == v % 10
  {
  }

  // ---------------------------------------------------------------------------------------------
  // The two messages
  // ---------------------------------------------------------------------------------------------

  /** A literal followed by one value. */
  datatype Field = Uint(key: string, v: U64) | Fixed(key: string, f: I64) | Word(key: string, word: string)

  function FieldText(f: Field): string {
    match f
    case Uint(key, v) => key + Decimal(v)
    case Fixed(key, v) => key + Fixed8(v)
    case Word(key, word) => key + word
  }

  function Text(fields: seq<Field>): string
    decreases |fields|
  {
    if fields == [] then "" else Text(fields[..|fields| - 1]) + FieldText(fields[|fields| - 1])
  }

  lemma TextSnoc(fields: seq<Field>, i: nat)
    requires i < |fields|
    ensures Text(fields[..i + 1]) == Text(fields[..i]) + FieldText(fields[i])
  {
    assert fields[..i + 1][..i] == fields[..i];
  }

  lemma {:induction false} TextPrefix(fields: seq<Field>, i: nat)
    requires i <= |fields|
    ensures Text(fields[..i]) <= Text(fields)
    decreases |fields| - i
  {
    if i == |fields| {
      assert fields[..i] == fields;
    } else {
      TextSnoc(fields, i);
      TextPrefix(fields, i + 1);
    }
  }

  /** The chain of writes, each stopping the serializer when it fails. */
  method WriteFields(w: FastJsonWriter, fields: seq<Field>) returns (r: Result<(), JsonError>)
    requires w.Valid()
    modifies w, w.buf
    ensures w.Valid() && Emits(old(w.Written()), w.Written(), Text(fields), r, w.buf.Length)
  {
    ghost var before := w.Written();
    r := Ok(());
    var i := 0;
    while i < |fields|
      invariant i <= |fields| && w.Valid() && r.Ok?
      invariant Emits(before, w.Written(), Text(fields[..i]), r, w.buf.Length)
    {
      ghost var mid := w.Written();
      r := WriteField(w, fields[i]);
      EmitsMore(before, mid, w.Written(), Text(fields[..i]), FieldText(fields[i]), r, w.buf.Length);
      TextSnoc(fields, i);
      if r.Err? {
        TextPrefix(fields, i + 1);
        EmitsNoMore(before, w.Written(), Text(fields[..i + 1]), Text(fields), r, w.buf.Length);
        return;
      }
      i := i + 1;
    }
    assert fields[..|fields|] == fields;
  }

  method WriteField(w: FastJsonWriter, f: Field) returns (r: Result<(), JsonError>)
    requires w.Valid()
    modifies w, w.buf
    ensures w.Valid() && Emits(old(w.Written()), w.Written(), FieldText(f), r, w.buf.Length)
  {
    ghost var before := w.Written();
    r := w.WriteBytes(f.key);
    if r.Err? {
      EmitsNoMore(before, w.Written(), f.key, FieldText(f), r, w.buf.Length);
      return;
    }
    ghost var mid := w.Written();
    r := WriteValue(w, f);
    EmitsMore(before, mid, w.Written(), f.key, ValueText(f), r, w.buf.Length);
  }

  function ValueText(f: Field): (t: string)
    ensures FieldText(f) == f.key + t
  {
    match f
    case Uint(_, v) => Decimal(v)
    case Fixed(_, v) => Fixed8(v)
    case Word(_, word) => word
  }

  method WriteValue(w: FastJsonWriter, f: Field) returns (r: Result<(), JsonError>)
    requires w.Valid()
    modifies w, w.buf
    ensures w.Valid() && Emits(old(w.Written()), w.Written(), ValueText(f), r, w.buf.Length)
  {
    match f {
      case Uint(_, v) => r := w.WriteU64(v);
      case Fixed(_, v) => r := w.WriteFixedPoint8(v);
      case Word(_, word) => r := w.WriteBytes(word);
    }
  }

  /** The field widths of the record types. */
  predicate TelemetryFits(t: Telemetry) {
    t.t0ExchangeNs < B64 && t.t1IngestNicNs < B64 && t.t2EngineProcNs < B64 && t.t3EgressNs < B64
  }

  predicate BboFits(b: Bbo) {
    && TelemetryFits(b.telemetry) && b.marketId < B32 && b.venue < B16 && b.chain < B16 && b.sequence < B64
    && MIN_I64 <= b.bidPrice <= MAX_I64 && b.bidQty < B64 && MIN_I64 <= b.askPrice <= MAX_I64 && b.askQty < B64
    && b.spreadBps < B16 && b.flags < B16
  }

  predicate TradeFits(t: Trade) {
    && TelemetryFits(t.telemetry) && t.marketId < B32 && t.venue < B16 && t.chain < B16 && t.sequence < B64
    && t.tradeId < B64 && MIN_I64 <= t.price <= MAX_I64 && t.size < B64 && t.side < 256
  }

  /** Quantities are cast to signed before printing. */
  function BboFields(b: Bbo): seq<Field>
    requires BboFits(b)
  {
    [ Uint("{\"type\":\"bbo\",\"market_id\":", b.marketId),
      Uint(",\"venue\":", b.venue),
      Uint(",\"chain\":", b.chain),
      Uint(",\"sequence\":", b.sequence),
      Fixed(",\"bid_px\":\"", b.bidPrice),
      Fixed("\",\"bid_qty\":\"", Wrap(b.bidQty)),
      Fixed("\",\"ask_px\":\"", b.askPrice),
      Fixed("\",\"ask_qty\":\"", Wrap(b.askQty)),
      Uint("\",\"spread_bps\":", b.spreadBps),
      Uint(",\"flags\":", b.flags),
      Uint(",\"telemetry\":{\"t0\":", b.telemetry.t0ExchangeNs),
      Uint(",\"t1\":", b.telemetry.t1IngestNicNs),
      Uint(",\"t2\":", b.telemetry.t2EngineProcNs),
      Uint(",\"t3\":", b.telemetry.t3EgressNs),
      Word("}}", "") ]
  }

  function TradeFields(t: Trade): seq<Field>
    requires TradeFits(t)
  {
    [ Uint("{\"type\":\"trade\",\"market_id\":", t.marketId),
      Uint(",\"venue\":", t.venue),
      Uint(",\"chain\":", t.chain),
      Uint(",\"sequence\":", t.sequence),
      Uint(",\"trade_id\":", t.tradeId),
      Fixed(",\"price\":\"", t.price),
      Fixed("\",\"size\":\"", Wrap(t.size)),
      Uint("\",\"side\":", t.side),
      Word(",\"is_liquidation\":", if t.isLiquidation then "true" else "false"),
      Uint(",\"telemetry\":{\"t0\":", t.telemetry.t0ExchangeNs),
      Uint(",\"t1\":", t.telemetry.t1IngestNicNs),
      Uint(",\"t2\":", t.telemetry.t2EngineProcNs),
      Uint(",\"t3\":", t.telemetry.t3EgressNs),
      Word("}}", "") ]
  }

  method Serialize(fields: seq<Field>, out: array<char>) returns (r: Result<nat, JsonError>)
    modifies out
    ensures r.Ok? <==> |Text(fields)| <= out.Length
    ensures r.Ok? ==> r.value == |Text(fields)| && out[..r.value] == Text(fields)
  {
    var writer := new FastJsonWriter(out);
    var written := WriteFields(writer, fields);
    assert "" + Text(fields) == Text(fields);
    r := match written case Ok(_) => Ok(writer.pos) case Err(e) => Err(e);
  }

  // ---------------------------------------------------------------------------------------------
  // Every message fits its buffer
  // ---------------------------------------------------------------------------------------------

  predicate AtMost(f: Field, size: nat) {
    |FieldText(f)| <= size
  }

  /** `ends[i]` bounds the length of the first i fields. */
  ghost predicate Bounded(fields: seq<Field>, ends: seq<nat>, i: nat)
    requires |ends| == |fields| + 1 && i < |fields|
  {
    ends[i] <= ends[i + 1] && AtMost(fields[i], ends[i + 1] - ends[i])
  }

  lemma {:induction false} TextAtMost(fields: seq<Field>, ends: seq<nat>)
    requires |ends| == |fields| + 1 && forall i :: 0 <= i < |fields| ==> Bounded(fields, ends, i)
    ensures |Text(fields)| <= ends[|fields|]
    decreases |fields|
  {
    if fields != [] {
      var n := |fields| - 1;
      assert Bounded(fields, ends, n);
      var front, frontEnds := fields[..n], ends[..n + 1];
      forall i | 0 <= i < n ensures Bounded(front, frontEnds, i) { assert Bounded(fields, ends, i); }
      TextAtMost(front, frontEnds);
    }
  }

  lemma UintAtMost(key: string, v: U64, digits: nat)
    requires digits > 0 && v < Pow10(digits)
    ensures AtMost(Uint(key, v), |key| + digits)
  {
    DecimalLength(v, digits);
  }

  /** A sign, eleven digits, a point and eight decimals at most. */
  lemma FixedAtMost(key: string, v: I64)
    ensures AtMost(Fixed(key, v), |key| + 21)
  {
    assert Pow10(3) == 1000;
    Pow10At(8);
    Pow10Add(3, 8);
    DecimalLength(Magnitude(v) / SCALE, 11);
  }

  lemma Widths(k: nat)
    ensures Pow10(3) == 1000 && Pow10(5) == 10_0000 && Pow10(10) == 100_0000_0000
    ensures k == U64_DIGITS ==> B64 <= Pow10(k)
  {
    assert Pow10(4) == 10000;
    Pow10Add(5, 5);
    if k == U64_DIGITS { U64HasTwentyDigits(B64 - 1, k); }
  }

  const BBO_ENDS: seq<nat> := [0, 36, 50, 64, 96, 128, 162, 195, 229, 249, 263, 302, 328, 354, 380, 382]

  const TRADE_ENDS: seq<nat> := [0, 38, 52, 66, 98, 130, 161, 192, 204, 227, 266, 292, 318, 344, 346]

  lemma BboFieldsBounded(b: Bbo, i: nat)
    requires BboFits(b) && i < |BboFields(b)|
    ensures |BBO_ENDS| == |BboFields(b)| + 1 && Bounded(BboFields(b), BBO_ENDS, i)
  {
    var f := BboFields(b)[i];
    Widths(U64_DIGITS);
    match f
    case Uint(key, v) =>
      if i == 0 { UintAtMost(key, v, 10); }
      else if i == 1 || i == 2 || i == 8 || i == 9 { UintAtMost(key, v, 5); }
      else { UintAtMost(key, v, U64_DIGITS); }
    case Fixed(key, v) => FixedAtMost(key, v);
    case Word(_, _) =>
  }

  lemma TradeFieldsBounded(t: Trade, i: nat)
    requires TradeFits(t) && i < |TradeFields(t)|
    ensures |TRADE_ENDS| == |TradeFields(t)| + 1 && Bounded(TradeFields(t), TRADE_ENDS, i)
  {
    var f := TradeFields(t)[i];
    Widths(U64_DIGITS);
    match f
    case Uint(key, v) =>
      if i == 0 { UintAtMost(key, v, 10); }
      else if i == 1 || i == 2 { UintAtMost(key, v, 5); }
      else if i == 7 { UintAtMost(key, v, 3); }
      else { UintAtMost(key, v, U64_DIGITS); }
    case Fixed(key, v) => FixedAtMost(key, v);
    case Word(_, _) =>
  }

  const JSON_BUFFER: nat := 512

  function BboJson(b: Bbo): string
    requires BboFits(b)
  {
    Text(BboFields(b))
  }

  function TradeJson(t: Trade): string
    requires TradeFits(t)
  {
    Text(TradeFields(t))
  }

  /** No record, whatever its values, serializes to more than the router's buffer holds. */
  lemma BboJsonFits(b: Bbo)
    requires BboFits(b)
    ensures |BboJson(b)| <= 382 < JSON_BUFFER
  {
    var fields := BboFields(b);
    assert |BBO_ENDS| == |fields| + 1 && BBO_ENDS[|fields|] == 382;
    forall i | 0 <= i < |fields| ensures Bounded(fields, BBO_ENDS, i) { BboFieldsBounded(b, i); }
    TextAtMost(fields, BBO_ENDS);
  }

  lemma TradeJsonFits(t: Trade)
    requires TradeFits(t)
    ensures |TradeJson(t)| <= 346 < JSON_BUFFER
  {
    var fields := TradeFields(t);
    assert |TRADE_ENDS| == |fields| + 1 && TRADE_ENDS[|fields|] == 346;
    forall i | 0 <= i < |fields| ensures Bounded(fields, TRADE_ENDS, i) { TradeFieldsBounded(t, i); }
    TextAtMost(fields, TRADE_ENDS);
  }

  method SerializeBboJson(b: Bbo, out: array<char>) returns (r: Result<nat, JsonError>)
    requires BboFits(b)
    modifies out
    ensures r.Ok? <==> |BboJson(b)| <= out.Length
    ensures r.Ok? ==> r.value == |BboJson(b)| && out[..r.value] == BboJson(b)
    ensures out.Length >= JSON_BUFFER ==> r.Ok?
  {
    BboJsonFits(b);
    r := Serialize(BboFields(b), out);
  }

  method SerializeTradeJson(t: Trade, out: array<char>) returns (r: Result<nat, JsonError>)
    requires TradeFits(t)
    modifies out
    ensures r.Ok? <==> |TradeJson(t)| <= out.Length
    ensures r.Ok? ==> r.value == |TradeJson(t)| && out[..r.value] == TradeJson(t)
    ensures out.Length >= JSON_BUFFER ==> r.Ok?
  {
    TradeJsonFits(t);
    r := Serialize(TradeFields(t), out);
  }

  /** Quantities print through a signed cast, yet parsing and casting back recovers all 64 bits. */
  lemma QuantityRoundTrip(q: U64)
    ensures Parsed(Fixed8(Wrap(q))) % B64 == q
  {
    RoundTrip(Wrap(q));
    if q <= MAX_I64 {
      WrapSmall(q);
      DivUnique(q, B64, 0, q);
    } else {
      WrapPeriod(q - B64, 1);
      WrapSmall(q - B64);
      DivUnique(q - B64, B64, -1, q);
    }
  }
}
