/** The 10^8 fixed-point scaler. Its 64-bit arithmetic wraps, as in the release profile, and its
    division truncates toward zero. */
module FixedPoint {
  import opened Bits
  import opened DecimalText

  const MIN_I64: int := -0x8000_0000_0000_0000
  const MAX_I64: int := 0x7FFF_FFFF_FFFF_FFFF
  const SCALE: nat := 1_0000_0000

  type I64 = x: int | MIN_I64 <= x <= MAX_I64

  function Wrap(x: int): I64 { (x - MIN_I64) % B64 + MIN_I64 }

  function Negated(x: int): I64 { Wrap(-x) }

  lemma WrapSmall(x: int)
    requires MIN_I64 <= x <= MAX_I64
    ensures Wrap(x) == x
  {
    DivUnique(x - MIN_I64, B64, 0, x - MIN_I64);
  }

  lemma WrapPeriod(x: int, k: int)
    ensures Wrap(x + k * B64) == Wrap(x)
  {
    var y := x - MIN_I64;
    DivUnique(y + k * B64, B64, y / B64 + k, y % B64) by { assert B64 * (y / B64 + k) == B64 * (y / B64) + k * B64; }
  }

  /** Wrapping early or late makes no difference to multiply-and-add. */
  lemma WrapStep(x: int, m: int, d: int)
    ensures Wrap(Wrap(x) * m + d) == Wrap(x * m + d)
  {
    var k := (x - MIN_I64) / B64;
    assert x == Wrap(x) + k * B64;
    assert x * m + d == Wrap(x) * m + d + (k * m) * B64 by {
      assert (k * B64) * m == (k * m) * B64;
      assert (Wrap(x) + k * B64) * m == Wrap(x) * m + (k * B64) * m;
    }
    WrapPeriod(Wrap(x) * m + d, k * m);
  }

  // ---------------------------------------------------------------------------------------------
  // What the parser computes
  // ---------------------------------------------------------------------------------------------

  /** Accumulated digits, and how many followed the last point; -1 before any point. */
  datatype Scan = Scan(value: I64, places: int)

  function ScanByte(s: Scan, c: char): Scan {
    if c == '.' then s.(places := 0)
    else if IsDigit(c) then
      Scan(Wrap(Wrap(s.value * 10) + DigitValue(c)), if s.places >= 0 then s.places + 1 else s.places)
    else s
  }

  function ScanText(s: Scan, text: string): Scan
    decreases |text|
  {
    if text == [] then s else ScanByte(ScanText(s, text[..|text| - 1]), text[|text| - 1])
  }

  function TimesTen(value: I64, n: nat): I64
    decreases n
  {
    if n == 0 then value else TimesTen(Wrap(value * 10), n - 1)
  }

  function OverTen(value: I64, n: nat): I64
    decreases n
  {
    if n == 0 then value else OverTen(TruncDiv(value, 10), n - 1)
  }

  function Rescale(s: Scan): I64 {
    var places := if s.places < 0 then 0 else s.places;
    if places <= 8 then TimesTen(s.value, 8 - places) else OverTen(s.value, places - 8)
  }

  function Parsed(text: string): I64 {
    var negative := text != [] && text[0] == '-';
    var r := Rescale(ScanText(Scan(0, -1), if negative then text[1..] else text));
    if negative then Negated(r) else r
  }

  /** Never fails: bytes that are neither digits nor points are skipped. */
  method ParseFixedPoint8(val: string) returns (r: I64)
    ensures r == Parsed(val)
  {
    var result: I64, decimalPlaces, isNegative, i := 0, -1, false, 0;
    if val != [] && val[0] == '-' {
      isNegative := true;
      i := 1;
    }
    ghost var start := i;
    while i < |val|
      invariant start <= i <= |val|
      invariant Scan(result, decimalPlaces) == ScanText(Scan(0, -1), val[start..i])
    {
      var byte := val[i];
      ghost var before := Scan(result, decimalPlaces);
      if byte == '.' {
        decimalPlaces := 0;
      } else if '0' <= byte <= '9' {
        result := Wrap(Wrap(result * 10) + (byte as int - 48));
        if decimalPlaces >= 0 {
          decimalPlaces := decimalPlaces + 1;
        }
      }
      ScanSnoc(val[start..i], byte);
      assert val[start..i + 1] == val[start..i] + [byte];
      i := i + 1;
    }
    assert val[start..|val|] == val[start..];
    assert val[0..] == val;
    r := Shift(result, decimalPlaces);
    if isNegative {
      r := Negated(r);
    }
  }

  lemma ScanSnoc(text: string, c: char)
    ensures ScanText(Scan(0, -1), text + [c]) == ScanByte(ScanText(Scan(0, -1), text), c)
  {
    assert (text + [c])[..|text|] == text;
  }

  /** Bring the digits to eight decimal places, one factor of ten at a time. */
  method Shift(value: I64, decimalPlaces: int) returns (r: I64)
    ensures r == Rescale(Scan(value, decimalPlaces))
  {
    r := value;
    var shift := 8 - if decimalPlaces < 0 then 0 else decimalPlaces;
    ghost var target := Rescale(Scan(value, decimalPlaces));
    while shift > 0
      invariant shift >= 0 ==> TimesTen(r, shift) == target
      invariant shift < 0 ==> OverTen(r, -shift) == target
    {
      r := Wrap(r * 10);
      shift := shift - 1;
    }
    while shift < 0
      invariant shift <= 0 && OverTen(r, -shift) == target
      decreases -shift
    {
      r := TruncDiv(r, 10);
      shift := shift + 1;
    }
  }

  // ---------------------------------------------------------------------------------------------
  // What the result means
  // ---------------------------------------------------------------------------------------------

  lemma {:induction false} ScanConcat(s: Scan, a: string, b: string)
    ensures ScanText(s, a + b) == ScanText(ScanText(s, a), b)
    decreases |b|
  {
    if b == [] {
      assert a + b == a;
    } else {
      assert (a + b)[..|a + b| - 1] == a + b[..|b| - 1];
      ScanConcat(s, a, b[..|b| - 1]);
    }
  }

  /** A run of digits shifts what was read before and adds the number it denotes, modulo 2^64. */
  lemma {:induction false} ScanDigits(before: int, places: int, digits: string)
    requires AllDigits(digits)
    ensures ScanText(Scan(Wrap(before), places), digits)
      == Scan(Wrap(before * Pow10(|digits|) + Number(digits)), if places >= 0 then places + |digits| else places)
    decreases |digits|
  {
    if digits == [] {
    } else {
      var front, d := digits[..|digits| - 1], DigitValue(digits[|digits| - 1]);
      ScanDigits(before, places, front);
      var x := before * Pow10(|front|) + Number(front);
      NextDigit(x, d);
      TenTimes(before, Pow10(|front|));
    }
  }

  lemma NextDigit(x: int, d: int)
    ensures Wrap(Wrap(Wrap(x) * 10) + d) == Wrap(x * 10 + d)
  {
    WrapStep(x, 10, 0);
    WrapStep(x * 10, 1, d);
  }

  lemma TenTimes(a: int, p: int)
    ensures a * (10 * p) == (a * p) * 10
  {
  }

  lemma {:induction false} TimesTenIsPower(x: int, n: nat)
    ensures TimesTen(Wrap(x), n) == Wrap(x * Pow10(n))
    decreases n
  {
    if n == 0 {
      assert x * Pow10(n) == x;
    } else {
      WrapStep(x, 10, 0);
      TimesTenIsPower(x * 10, n - 1);
      TenTimes(x, Pow10(n - 1));
      assert (x * 10) * Pow10(n - 1) == (x * Pow10(n - 1)) * 10;
    }
  }

  /** Dividing by ten n times is one division by 10^n, truncated like each of them. */
  lemma {:induction false} OverTenIsPower(x: I64, n: nat)
    ensures OverTen(x, n) == TruncDiv(x, Pow10(n))
    decreases n
  {
    if n > 0 {
      var y := TruncDiv(x, 10);
      OverTenIsPower(y, n - 1);
      TruncTwice(x, Pow10(n - 1));
    }
  }

  lemma TruncTwice(x: int, d: nat)
    requires d > 0
    ensures TruncDiv(TruncDiv(x, 10), d) == TruncDiv(x, 10 * d)
  {
    var m := if x >= 0 then x else -x;
    DivDiv(m, 10, d);
  }

  function Sign(negative: bool): string { if negative then "-" else "" }

  function Signed(negative: bool, m: int): int { if negative then -m else m }

  /** The digits of a numeral with a point, read as one number. */
  function Mantissa(whole: string, fraction: string): nat
    requires AllDigits(whole) && AllDigits(fraction)
  {
    Number(whole) * Pow10(|fraction|) + Number(fraction)
  }

  /** The whole part and the point. */
  lemma ScanWhole(whole: string)
    requires AllDigits(whole)
    ensures ScanText(Scan(0, -1), whole + ".") == Scan(Wrap(Number(whole)), 0)
  {
    WrapSmall(0);
    ScanDigits(0, -1, whole);
    assert 0 * Pow10(|whole|) == 0;
    ScanSnoc(whole, '.');
  }

  lemma ScanNumeral(whole: string, fraction: string)
    requires AllDigits(whole) && AllDigits(fraction)
    ensures ScanText(Scan(0, -1), whole + "." + fraction) == Scan(Wrap(Mantissa(whole, fraction)), |fraction|)
  {
    ScanWhole(whole);
    ScanConcat(Scan(0, -1), whole + ".", fraction);
    ScanDigits(Number(whole), 0, fraction);
  }

  lemma ScanPart(negative: bool, whole: string, fraction: string)
    requires AllDigits(whole)
    ensures var text := Sign(negative) + whole + "." + fraction;
      && (text != [] && text[0] == '-' <==> negative)
      && (if negative then text[1..] else text) == whole + "." + fraction
  {
    var body := whole + "." + fraction;
    assert Sign(negative) + whole + "." + fraction == Sign(negative) + body;
    if negative {
      assert ("-" + body)[1..] == body;
    } else {
      assert "" + body == body;
      if whole != [] { assert IsDigit(whole[0]) && body[0] == whole[0]; }
    }
  }

  lemma ParsedIsRescaled(negative: bool, whole: string, fraction: string)
    requires AllDigits(whole) && AllDigits(fraction)
    ensures var r := Rescale(Scan(Wrap(Mantissa(whole, fraction)), |fraction|));
      Parsed(Sign(negative) + whole + "." + fraction) == if negative then Negated(r) else r
  {
    ScanNumeral(whole, fraction);
    ScanPart(negative, whole, fraction);
  }

  lemma RescaleUp(negative: bool, m: nat, places: nat)
    requires places <= 8
    ensures var r := Rescale(Scan(Wrap(m), places));
      (if negative then Negated(r) else r) == Wrap(Signed(negative, m * Pow10(8 - places)))
  {
    TimesTenIsPower(m, 8 - places);
    WrapStep(m * Pow10(8 - places), -1, 0);
  }

  lemma RescaleDown(negative: bool, m: nat, places: nat)
    requires places > 8
    ensures var r := Rescale(Scan(Wrap(m), places));
      (if negative then Negated(r) else r) == Signed(negative, TruncDiv(Wrap(m), Pow10(places - 8)))
  {
    OverTenIsPower(Wrap(m), places - 8);
    TruncatedFits(Wrap(m), Pow10(places - 9));
    WrapSmall(-TruncDiv(Wrap(m), Pow10(places - 8)));
  }

  /** Dividing by ten or more leaves room to negate. */
  lemma TruncatedFits(x: I64, d: nat)
    requires d > 0
    ensures -MAX_I64 <= TruncDiv(x, 10 * d) <= MAX_I64
  {
    var m: int := if x >= 0 then x else 0 - x;
    DivDiv(m, 10, d);
    QuotientAtMost(m / 10, d, m / 10) by { MulLe(1, d, m / 10); }
  }

  /** What the parser returns for every numeral `[-]digits.digits` with at most eight decimals: the
      value scaled by 10^8, wrapped to 64 bits. */
  lemma ParsesNumeral(negative: bool, whole: string, fraction: string)
    requires AllDigits(whole) && AllDigits(fraction) && |fraction| <= 8
    ensures Parsed(Sign(negative) + whole + "." + fraction)
      == Wrap(Signed(negative, Mantissa(whole, fraction) * Pow10(8 - |fraction|)))
  {
    ParsedIsRescaled(negative, whole, fraction);
    RescaleUp(negative, Mantissa(whole, fraction), |fraction|);
  }

  /** And with more decimals: the wrapped digits with the extra ones cut off, which for digits that fit
      is the numeral cut at eight decimals. */
  lemma ParsesLongNumeral(negative: bool, whole: string, fraction: string)
    requires AllDigits(whole) && AllDigits(fraction) && |fraction| > 8
    ensures var m, d := Mantissa(whole, fraction), Pow10(|fraction| - 8);
      && Parsed(Sign(negative) + whole + "." + fraction) == Signed(negative, TruncDiv(Wrap(m), d))
      && (m <= MAX_I64 ==> TruncDiv(Wrap(m), d) == m / d)
  {
    var m := Mantissa(whole, fraction);
    ParsedIsRescaled(negative, whole, fraction);
    RescaleDown(negative, m, |fraction|);
    if m <= MAX_I64 { WrapSmall(m); }
  }

  // ---------------------------------------------------------------------------------------------
  // Round trip with the printer
  // ---------------------------------------------------------------------------------------------

  function Magnitude(v: int): nat { if v < 0 then -v else v }

  /** The fixed-point text of a value: sign, whole part, point, eight decimals. */
  function Fixed8(v: I64): string {
    Sign(v < 0) + Decimal(Magnitude(v) / SCALE) + "." + Padded(Magnitude(v) % SCALE, 8)
  }

  lemma Pow10At(k: nat)
    ensures k == 8 ==> Pow10(k) == SCALE
  {
    if k == 8 { assert Pow10(4) == 10000 && Pow10(8) == 10000 * Pow10(4); }
  }

  lemma MantissaOfFixed8(m: nat)
    ensures Mantissa(Decimal(m / SCALE), Padded(m % SCALE, 8)) == m
  {
    Pow10At(8);
    NumberOfDecimal(m / SCALE);
    NumberOfPadded(m % SCALE, 8);
  }

  /** Parsing what the printer emits gives the value back, for every 64-bit value. */
  lemma RoundTrip(v: I64)
    ensures Parsed(Fixed8(v)) == v
  {
    var m := Magnitude(v);
    ParsesNumeral(v < 0, Decimal(m / SCALE), Padded(m % SCALE, 8));
    MantissaOfFixed8(m);
    WrapSmall(v);
    assert m * Pow10(0) == m;
  }

  /** The digits read so far, were the accumulator unbounded. */
  function Unwrapped(text: string): nat
    decreases |text|
  {
    if text == [] then 0
    else
      var c, acc := text[|text| - 1], Unwrapped(text[..|text| - 1]);
      if IsDigit(c) then 10 * acc + DigitValue(c) else acc
  }

  /** No step of the accumulation leaves the 64-bit range, so a build with overflow checks agrees. */
  ghost predicate NeverOverflows(text: string) {
    forall i :: 0 <= i <= |text| ==> Unwrapped(text[..i]) <= MAX_I64
  }

  lemma {:induction false} PrefixesBelow(text: string)
    ensures NeverOverflows(text) <==> Unwrapped(text) <= MAX_I64
    decreases |text|
  {
    assert text[..|text|] == text;
    if text == [] {
    } else {
      var front := text[..|text| - 1];
      PrefixesBelow(front);
      assert Unwrapped(front) <= Unwrapped(text);
      forall i | 0 <= i <= |front| ensures text[..i] == front[..i] {}
    }
  }

  lemma {:induction false} UnwrappedDigits(before: string, digits: string)
    requires AllDigits(digits)
    ensures Unwrapped(before + digits) == Unwrapped(before) * Pow10(|digits|) + Number(digits)
    decreases |digits|
  {
    if digits == [] {
      assert before + digits == before;
    } else {
      var front := digits[..|digits| - 1];
      assert (before + digits)[..|before + digits| - 1] == before + front;
      UnwrappedDigits(before, front);
      TenTimes(Unwrapped(before), Pow10(|front|));
    }
  }

  /** The one value whose text overflows the accumulator is the smallest. */
  lemma OnlyMinimumOverflows(v: I64)
    ensures NeverOverflows(Fixed8(v)) <==> v != MIN_I64
  {
    var m := Magnitude(v);
    var whole, fraction := Decimal(m / SCALE), Padded(m % SCALE, 8);
    var head := Sign(v < 0) + whole;
    PrefixesBelow(Fixed8(v));
    assert Unwrapped(Sign(v < 0)) == 0;
    UnwrappedDigits(Sign(v < 0), whole);
    assert (head + ".")[..|head|] == head;
    UnwrappedDigits(head + ".", fraction);
    MantissaOfFixed8(m);
    assert 0 * Pow10(|whole|) == 0;
  }
}
