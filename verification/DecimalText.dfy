/** Decimal numerals as text: what the integer printers must emit and the fixed-point parser reads. */
module DecimalText {

  function Pow10(k: nat): (r: nat)
    ensures r >= 1
  {
    if k == 0 then 1 else 10 * Pow10(k - 1)
  }

  lemma Pow10Add(a: nat, b: nat)
    ensures Pow10(a + b) == Pow10(a) * Pow10(b)
    decreases a
  {
    if a > 0 {
      Pow10Add(a - 1, b);
      TenTimes(Pow10(a - 1), Pow10(b));
      assert Pow10(a) == 10 * Pow10(a - 1) && Pow10(a + b) == 10 * Pow10(a - 1 + b);
    }
  }

  lemma TenTimes(x: int, y: int)
    ensures 10 * (x * y) == (10 * x) * y
  {
  }

  function Digit(d: nat): char
    requires d < 10
  {
    (48 + d) as char
  }

  predicate IsDigit(c: char) { '0' <= c <= '9' }

  function DigitValue(c: char): (d: nat)
    requires IsDigit(c)
    ensures d < 10 && Digit(d) == c
  {
    c as int - 48
  }

  predicate AllDigits(s: string) {
    forall i :: 0 <= i < |s| ==> IsDigit(s[i])
  }

  /** The shortest numeral of v, one digit at a time. */
  function Decimal(v: nat): (s: string)
    ensures s != [] && AllDigits(s)
  {
    if v < 10 then [Digit(v)] else Decimal(v / 10) + [Digit(v % 10)]
  }

  /** The last k digits of v, zero padded. */
  function Padded(v: nat, k: nat): (s: string)
    ensures |s| == k && AllDigits(s)
  {
    if k == 0 then [] else Padded(v / 10, k - 1) + [Digit(v % 10)]
  }

  /** The number a digit string denotes. */
  function Number(s: string): nat
    requires AllDigits(s)
    decreases |s|
  {
    if s == [] then 0 else 10 * Number(s[..|s| - 1]) + DigitValue(s[|s| - 1])
  }

  lemma NumberSnoc(s: string, c: char)
    requires AllDigits(s) && IsDigit(c)
    ensures AllDigits(s + [c]) && Number(s + [c]) == 10 * Number(s) + DigitValue(c)
  {
    assert (s + [c])[..|s|] == s;
  }

  lemma {:induction false} NumberOfDecimal(v: nat)
    ensures Number(Decimal(v)) == v
  {
    if v < 10 {
      NumberSnoc([], Digit(v));
      assert [] + [Digit(v)] == [Digit(v)];
    } else {
      NumberOfDecimal(v / 10);
      NumberSnoc(Decimal(v / 10), Digit(v % 10));
    }
  }

  lemma NumberExtends(v: nat, q: nat, d: nat, s: string)
    requires AllDigits(s) && Number(s) == q && d < 10 && v == 10 * q + d
    ensures AllDigits(s + [Digit(d)]) && Number(s + [Digit(d)]) == v
  {
    NumberSnoc(s, Digit(d));
  }

  lemma TenthBelow(v: nat, k: nat)
    requires k > 0 && v < Pow10(k)
    ensures v / 10 < Pow10(k - 1) && v == 10 * (v / 10) + v % 10
  {
    assert Pow10(k) == 10 * Pow10(k - 1);
  }

  lemma {:induction false} NumberOfPadded(v: nat, k: nat)
    requires v < Pow10(k)
    ensures Number(Padded(v, k)) == v
  {
    if k > 0 {
      TenthBelow(v, k);
      NumberOfPadded(v / 10, k - 1);
      NumberExtends(v, v / 10, v % 10, Padded(v / 10, k - 1));
    }
  }

  /** Below 10^k a numeral has at most k digits. */
  lemma {:induction false} DecimalLength(v: nat, k: nat)
    requires k > 0 && v < Pow10(k)
    ensures |Decimal(v)| <= k
  {
    if v >= 10 { DecimalLength(v / 10, k - 1); }
  }

  /** Two digits at a time is the same numeral. */
  lemma DecimalByHundreds(v: nat)
    requires v >= 100
    ensures Decimal(v) == Decimal(v / 100) + [Digit(v % 100 / 10), Digit(v % 10)]
  {
    assert v / 10 / 10 == v / 100 && v / 10 % 10 == v % 100 / 10;
    assert Decimal(v) == Decimal(v / 10) + [Digit(v % 10)];
    assert Decimal(v / 10) == Decimal(v / 100) + [Digit(v % 100 / 10)];
  }

  lemma PaddedByHundreds(v: nat, k: nat)
    requires k >= 2
    ensures Padded(v, k) == Padded(v / 100, k - 2) + [Digit(v % 100 / 10), Digit(v % 10)]
  {
    assert v / 10 / 10 == v / 100 && v / 10 % 10 == v % 100 / 10;
    assert Padded(v / 10, k - 1) == Padded(v / 100, k - 2) + [Digit(v % 100 / 10)];
  }
}
