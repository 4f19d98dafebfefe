/** ISO-8601 UTC timestamps to nanoseconds since 1970-01-01: the closed-form day count against the
    calendar, and the text parser around it. */
module CivilDate {
  import opened Bits
  import opened DecimalText
  import opened Wrappers

  // ---------------------------------------------------------------------------------------------
  // The calendar
  // ---------------------------------------------------------------------------------------------

  predicate Leap(y: nat) { y % 4 == 0 && (y % 100 != 0 || y % 400 == 0) }

  function YearLength(y: nat): nat { if Leap(y) then 366 else 365 }

  function MonthLength(y: nat, m: nat): nat
    requires 1 <= m <= 12
  {
    if m == 2 then (if Leap(y) then 29 else 28)
    else if m == 4 || m == 6 || m == 9 || m == 11 then 30
    else 31
  }

  function DaysBeforeYear(y: nat): nat {
    if y == 0 then 0 else DaysBeforeYear(y - 1) + YearLength(y - 1)
  }

  function DaysBeforeMonth(y: nat, m: nat): nat
    requires 1 <= m <= 13
  {
    if m == 1 then 0 else DaysBeforeMonth(y, m - 1) + MonthLength(y, m - 1)
  }

  datatype Date = Date(year: nat, month: nat, day: nat) {

    predicate Valid() { 1 <= month <= 12 && 1 <= day <= MonthLength(year, month) }

    function Next(): Date
      requires Valid()
    {
      if day < MonthLength(year, month) then Date(year, month, day + 1)
      else if month < 12 then Date(year, month + 1, 1)
      else Date(year + 1, 1, 1)
    }

    predicate Before(other: Date) {
      year < other.year || (year == other.year && (month < other.month || (month == other.month && day < other.day)))
    }
  }

  /** Days since 1970-01-01, counted year by year and month by month. */
  function CountedDays(year: nat, month: nat, day: nat): int
    requires 1 <= month <= 12
  {
    DaysBeforeYear(year) + DaysBeforeMonth(year, month) + day - 1 - DaysBeforeYear(1970)
  }

  // ---------------------------------------------------------------------------------------------
  // The closed form
  // ---------------------------------------------------------------------------------------------

  /** Years counted from March, so that the leap day comes last. */
  function DaysFromCivil(year: nat, m: nat, d: nat): int
    requires 1 <= m <= 12
  {
    var y := if m <= 2 then year - 1 else year;
    var era := TruncDiv(if y >= 0 then y else y - 399, 400);
    var yoe := y - era * 400;
    var mp := (m + 9) % 12;
    var doy := (153 * mp + 2) / 5 + d - 1;
    var doe := yoe * 365 + yoe / 4 - yoe / 100 + doy;
    era * 146_097 + doe - 719_468
  }

  /** Days before March of year y, counted from March of year 0. */
  function MarchDays(y: int): int { 365 * y + y / 4 - y / 100 + y / 400 }

  lemma EraIsMarchDays(y: int, era: int, yoe: int)
    requires y >= -1 && era == TruncDiv(if y >= 0 then y else y - 399, 400) && yoe == y - era * 400
    ensures 0 <= yoe < 400
    ensures era * 146_097 + yoe * 365 + yoe / 4 - yoe / 100 == MarchDays(y)
  {
    assert y / 4 == era * 100 + yoe / 4;
    assert y / 100 == era * 4 + yoe / 100;
    assert y / 400 == era;
  }

  lemma {:induction false} YearsBeforeMarch(y: nat)
    ensures DaysBeforeYear(y) + DaysBeforeMonth(y, 3) == 60 + MarchDays(y)
  {
    FebruaryEnd(y);
    if y > 0 {
      YearsBeforeMarch(y - 1);
      FebruaryEnd(y - 1);
      LeapStep(y);
    }
  }

  lemma FebruaryEnd(y: nat)
    ensures DaysBeforeMonth(y, 2) == 31 && DaysBeforeMonth(y, 3) == if Leap(y) then 60 else 59
  {
    assert DaysBeforeMonth(y, 1) == 0;
  }

  lemma QuotientStep(y: int, k: nat)
    requires k > 1
    ensures y / k == (y - 1) / k + if y % k == 0 then 1 else 0
  {
    var q, r := y / k, y % k;
    if r == 0 {
      assert k * (q - 1) == k * q - k;
      DivUnique(y - 1, k, q - 1, k - 1);
    } else {
      DivUnique(y - 1, k, q, r - 1);
    }
  }

  lemma CenturiesAreFourfold(y: nat)
    ensures y % 400 == 0 ==> y % 100 == 0
    ensures y % 100 == 0 ==> y % 4 == 0
  {
    if y % 400 == 0 { DivUnique(y, 100, 4 * (y / 400), 0); }
    if y % 100 == 0 { DivUnique(y, 4, 25 * (y / 100), 0); }
  }

  lemma LeapStep(y: nat)
    ensures MarchDays(y) == MarchDays(y - 1) + if Leap(y) then 366 else 365
  {
    QuotientStep(y, 4);
    QuotientStep(y, 100);
    QuotientStep(y, 400);
    CenturiesAreFourfold(y);
  }

  /** From March on, month starts follow `(153 * mp + 2) / 5` whatever the year. */
  lemma MonthsFromMarch(y: nat, m: nat)
    requires 3 <= m <= 12
    ensures DaysBeforeMonth(y, m) == DaysBeforeMonth(y, 3) + (153 * (m - 3) + 2) / 5
    decreases m
  {
    if m > 3 { MonthsFromMarch(y, m - 1); }
  }

  lemma EpochYear(y: nat)
    requires y == 1970
    ensures DaysBeforeYear(y) == 719_528
  {
    YearsBeforeMarch(y);
    FebruaryEnd(y);
  }

  lemma EpochOffset(y: int, m: nat, d: nat, year: nat)
    requires 1 <= m <= 12 && y == (if m <= 2 then year - 1 else year)
    ensures DaysFromCivil(year, m, d) == MarchDays(y) + (153 * ((m + 9) % 12) + 2) / 5 + d - 1 - 719_468
  {
    var era := TruncDiv(if y >= 0 then y else y - 399, 400);
    EraIsMarchDays(y, era, y - era * 400);
  }

  lemma FirstOfMonth(year: nat, m: nat)
    requires 1 <= m <= 12
    ensures DaysBeforeYear(year) + DaysBeforeMonth(year, m)
      == 60 + MarchDays(if m <= 2 then year - 1 else year) + (153 * ((m + 9) % 12) + 2) / 5
  {
    FebruaryEnd(year);
    MarchMonth(m);
    if m >= 3 {
      YearsBeforeMarch(year);
      MonthsFromMarch(year, m);
    } else {
      PreviousMarch(year);
      assert m == 1 ==> DaysBeforeMonth(year, m) == 0;
    }
  }

  lemma MarchMonth(m: nat)
    requires 1 <= m <= 12
    ensures (m + 9) % 12 == if m >= 3 then m - 3 else m + 9
    ensures m <= 2 ==> (153 * ((m + 9) % 12) + 2) / 5 == if m == 1 then 306 else 337
  {
  }

  /** The closed form is the calendar count, for every year from 0 on and every day number: a day
      beyond its month's end counts into the next. */
  lemma DaysFromCivilIsCounted(year: nat, m: nat, d: nat)
    requires 1 <= m <= 12
    ensures DaysFromCivil(year, m, d) == CountedDays(year, m, d)
  {
    EpochOffset(if m <= 2 then year - 1 else year, m, d, year);
    FirstOfMonth(year, m);
    EpochYear(1970);
  }

  /** January and February belong to the year that began the March before. */
  lemma PreviousMarch(year: nat)
    ensures DaysBeforeYear(year) == 60 + MarchDays(year - 1) + 306
  {
    YearsBeforeMarch(year);
    FebruaryEnd(year);
    LeapStep(year);
  }

  /** The next calendar day is always exactly one more. */
  lemma NextDayIsOneMore(date: Date)
    requires date.Valid()
    ensures date.Next().Valid()
    ensures var next := date.Next();
      DaysFromCivil(next.year, next.month, next.day) == DaysFromCivil(date.year, date.month, date.day) + 1
  {
    var next := date.Next();
    DaysFromCivilIsCounted(date.year, date.month, date.day);
    DaysFromCivilIsCounted(next.year, next.month, next.day);
    CountedNext(date);
  }

  lemma CountedNext(date: Date)
    requires date.Valid()
    ensures var next := date.Next();
      CountedDays(next.year, next.month, next.day) == CountedDays(date.year, date.month, date.day) + 1
  {
    if date.day == MonthLength(date.year, date.month) {
      if date.month < 12 {
        MonthStep(date.year, date.month);
      } else {
        YearIsItsMonths(date.year);
        MonthStep(date.year, 12);
        assert DaysBeforeMonth(date.year + 1, 1) == 0;
      }
    }
  }

  lemma MonthStep(y: nat, m: nat)
    requires 1 <= m <= 12
    ensures DaysBeforeMonth(y, m + 1) == DaysBeforeMonth(y, m) + MonthLength(y, m)
  {
  }

  lemma YearIsItsMonths(y: nat)
    ensures DaysBeforeMonth(y, 13) == YearLength(y)
  {
    FebruaryEnd(y);
    MonthsFromMarch(y, 12);
  }

  lemma {:induction false} MonthStarts(y: nat, a: nat, b: nat)
    requires 1 <= a < b <= 13
    ensures DaysBeforeMonth(y, a) + MonthLength(y, a) <= DaysBeforeMonth(y, b)
    decreases b
  {
    if a + 1 < b { MonthStarts(y, a, b - 1); }
  }

  lemma {:induction false} YearStarts(a: nat, b: nat)
    requires a < b
    ensures DaysBeforeYear(a) + YearLength(a) <= DaysBeforeYear(b)
  {
    if a + 1 < b { YearStarts(a, b - 1); }
  }

  /** Calendar order is day-count order, so distinct dates never share a day. */
  lemma OrderPreserved(a: Date, b: Date)
    requires a.Valid() && b.Valid()
    ensures a.Before(b) <==> DaysFromCivil(a.year, a.month, a.day) < DaysFromCivil(b.year, b.month, b.day)
  {
    DaysFromCivilIsCounted(a.year, a.month, a.day);
    DaysFromCivilIsCounted(b.year, b.month, b.day);
    if a.Before(b) { EarlierIsLess(a, b); }
    if b.Before(a) { EarlierIsLess(b, a); }
  }

  lemma EarlierIsLess(a: Date, b: Date)
    requires a.Valid() && b.Valid() && a.Before(b)
    ensures CountedDays(a.year, a.month, a.day) < CountedDays(b.year, b.month, b.day)
  {
    if a.year == b.year {
      if a.month < b.month { MonthStarts(a.year, a.month, b.month); }
    } else {
      YearIsItsMonths(a.year);
      MonthStarts(a.year, a.month, 13);
      YearStarts(a.year, b.year);
    }
  }

  /** A day number past the month's end, which the parser accepts, is a day of the next month. */
  lemma RollsOver(year: nat, m: nat, d: nat)
    requires 1 <= m <= 11 && MonthLength(year, m) < d
    ensures DaysFromCivil(year, m, d) == DaysFromCivil(year, m + 1, d - MonthLength(year, m))
  {
    DaysFromCivilIsCounted(year, m, d);
    DaysFromCivilIsCounted(year, m + 1, d - MonthLength(year, m));
    MonthStep(year, m);
  }

  // ---------------------------------------------------------------------------------------------
  // The parser
  // ---------------------------------------------------------------------------------------------

  /** The fields of a timestamp; the fraction is in nanoseconds. */
  datatype Stamp = Stamp(year: nat, month: nat, day: nat, hour: nat, minute: nat, second: nat, fractionNs: nat) {

    /** Leap seconds and every day number up to 31 pass. */
    predicate InRange() {
      1 <= month <= 12 && 1 <= day <= 31 && hour <= 23 && minute <= 59 && second <= 60
    }

    function Nanoseconds(): int
      requires 1 <= month <= 12
    {
      (DaysFromCivil(year, month, day) * 86_400 + hour * 3600 + minute * 60 + second) * 1_000_000_000 + fractionNs
    }
  }

  predicate Punctuated(s: string) {
    |s| >= 20 && s[4] == '-' && s[7] == '-' && s[10] == 'T' && s[13] == ':' && s[16] == ':'
  }

  /** Where the first 'Z' at or after i stands, or the end. */
  function EndOfFraction(s: string, i: nat): (z: nat)
    requires i <= |s|
    ensures i <= z <= |s| && (z < |s| ==> s[z] == 'Z')
    ensures forall k :: i <= k < z ==> s[k] != 'Z'
    decreases |s| - i
  {
    if i == |s| || s[i] == 'Z' then i else EndOfFraction(s, i + 1)
  }

  function LeadingDigits(digits: string): nat
    requires AllDigits(digits)
  {
    Number(digits[..Min(9, |digits|)])
  }

  lemma NextFractionDigit(read: string, c: char, text: string)
    requires AllDigits(read) && IsDigit(c) && text == read + [c]
    ensures AllDigits(text)
    ensures LeadingDigits(text) == if |read| < 9 then LeadingDigits(read) * 10 + DigitValue(c) else LeadingDigits(read)
  {
    NumberSnoc(read, c);
    if |read| < 9 {
      assert text[..|text|] == text && read[..|read|] == read;
    } else {
      assert text[..9] == read[..9];
    }
  }

  /** The first nine digits, padded to nine. */
  function FractionNs(digits: string): nat
    requires AllDigits(digits)
  {
    LeadingDigits(digits) * Pow10(9 - Min(9, |digits|))
  }

  /** The fraction and the index after it, for a text with punctuation in place. */
  function Fraction(s: string): Option<(nat, nat)>
    requires |s| >= 20
  {
    if s[19] != '.' then Some((0, 19))
    else
      var z := EndOfFraction(s, 20);
      if AllDigits(s[20..z]) then Some((FractionNs(s[20..z]), z)) else None
  }

  /** The timestamp a text spells, before range checks. Text after the 'Z' is ignored. */
  function Fields(s: string): Option<Stamp> {
    if !Punctuated(s) then None
    else if !AllDigits(s[0..4]) || !AllDigits(s[5..7]) || !AllDigits(s[8..10]) then None
    else if !AllDigits(s[11..13]) || !AllDigits(s[14..16]) || !AllDigits(s[17..19]) then None
    else
      match Fraction(s)
      case None => None
      case Some((ns, z)) =>
        if z >= |s| || s[z] != 'Z' then None
        else Some(Stamp(Number(s[0..4]), Number(s[5..7]), Number(s[8..10]), Number(s[11..13]), Number(s[14..16]),
                        Number(s[17..19]), ns))
  }

  /** What the parser returns: the 64-bit word wraps for dates far enough out. */
  function Timestamp(s: string): Option<nat> {
    var stamp := Fields(s);
    if stamp.None? || !stamp.value.InRange() then None
    else if DaysFromCivil(stamp.value.year, stamp.value.month, stamp.value.day) < 0 then None
    else Some(stamp.value.Nanoseconds() % B64)
  }

  method Num(b: string) returns (r: Option<nat>)
    ensures r == if AllDigits(b) then Some(Number(b)) else None
  {
    var v := 0;
    var i := 0;
    while i < |b|
      invariant i <= |b| && AllDigits(b[..i]) && v == Number(b[..i])
    {
      if !IsDigit(b[i]) {
        return None;
      }
      NumberSnoc(b[..i], b[i]);
      assert b[..i + 1] == b[..i] + [b[i]];
      v := v * 10 + DigitValue(b[i]);
      i := i + 1;
    }
    assert b[..i] == b;
    r := Some(v);
  }

  /** Up to nine digits count; further ones must still be digits. */
  method ParseFraction(s: string) returns (r: Option<(nat, nat)>)
    requires |s| >= 20 && s[19] == '.'
    ensures r == Fraction(s)
  {
    var idx, digits, fracNs := 20, 0, 0;
    ghost var z := EndOfFraction(s, 20);
    while idx < |s| && s[idx] != 'Z'
      invariant 20 <= idx <= z && digits == Min(9, idx - 20)
      invariant AllDigits(s[20..idx]) && fracNs == LeadingDigits(s[20..idx])
    {
      if !IsDigit(s[idx]) {
        assert s[20..z][idx - 20] == s[idx];
        return None;
      }
      NextFractionDigit(s[20..idx], s[idx], s[20..idx + 1]);
      if digits < 9 {
        fracNs := fracNs * 10 + DigitValue(s[idx]);
        digits := digits + 1;
      }
      idx := idx + 1;
    }
    fracNs := PadFraction(fracNs, digits);
    r := Some((fracNs, idx));
  }

  method PadFraction(value: nat, count: nat) returns (fracNs: nat)
    requires count <= 9
    ensures fracNs == value * Pow10(9 - count)
  {
    var digits := count;
    fracNs := value;
    while digits < 9
      invariant digits <= 9 && fracNs * Pow10(9 - digits) == value * Pow10(9 - count)
    {
      PadStep(fracNs, 9 - digits - 1);
      fracNs := fracNs * 10;
      digits := digits + 1;
    }
    assert fracNs * Pow10(0) == fracNs;
  }

  lemma PadStep(v: nat, k: nat)
    ensures (v * 10) * Pow10(k) == v * Pow10(k + 1)
  {
    assert (v * 10) * Pow10(k) == v * (10 * Pow10(k));
  }

  method ParseIso8601UtcNs(s: string) returns (r: Option<nat>)
    ensures r == Timestamp(s)
  {
    var stamp := ParseFields(s);
    if stamp.None? || !stamp.value.InRange() {
      return None;
    }
    var st := stamp.value;
    var days := DaysFromCivil(st.year, st.month, st.day);
    if days < 0 {
      return None;
    }
    var secs := days * 86_400 + st.hour * 3600 + st.minute * 60 + st.second;
    r := Some((secs * 1_000_000_000 + st.fractionNs) % B64);
  }

  method ParseFields(s: string) returns (r: Option<Stamp>)
    ensures r == Fields(s)
  {
    if |s| < 20 || s[4] != '-' || s[7] != '-' || s[10] != 'T' || s[13] != ':' || s[16] != ':' {
      return None;
    }
    var y := Num(s[0..4]);
    var m := Num(s[5..7]);
    var d := Num(s[8..10]);
    var hh := Num(s[11..13]);
    var mm := Num(s[14..16]);
    var ss := Num(s[17..19]);
    if y.None? || m.None? || d.None? || hh.None? || mm.None? || ss.None? {
      return None;
    }
    var fraction := Some((0, 19));
    if s[19] == '.' {
      fraction := ParseFraction(s);
    }
    if fraction.None? || fraction.value.1 >= |s| || s[fraction.value.1] != 'Z' {
      return None;
    }
    r := Some(Stamp(y.value, m.value, d.value, hh.value, mm.value, ss.value, fraction.value.0));
  }

  // ---------------------------------------------------------------------------------------------
  // What the number means
  // ---------------------------------------------------------------------------------------------

  predicate EarlierInDay(a: Stamp, b: Stamp) {
    || a.hour < b.hour
    || (a.hour == b.hour && a.minute < b.minute)
    || (a.hour == b.hour && a.minute == b.minute && a.second < b.second)
    || (a.hour == b.hour && a.minute == b.minute && a.second == b.second && a.fractionNs < b.fractionNs)
  }

  function DateOf(s: Stamp): Date { Date(s.year, s.month, s.day) }

  predicate Regular(s: Stamp) {
    DateOf(s).Valid() && s.hour <= 23 && s.minute <= 59 && s.second <= 59 && s.fractionNs < 1_000_000_000
  }

  /** On real dates without leap seconds, the nanosecond count orders timestamps as the calendar and
      the clock do. */
  lemma NanosecondsOrder(a: Stamp, b: Stamp)
    requires Regular(a) && Regular(b)
    ensures a.Nanoseconds() < b.Nanoseconds()
      <==> DateOf(a).Before(DateOf(b)) || (DateOf(a) == DateOf(b) && EarlierInDay(a, b))
  {
    OrderPreserved(DateOf(a), DateOf(b));
    OrderPreserved(DateOf(b), DateOf(a));
    SecondsOrder(a, b);
    SecondsOrder(b, a);
  }

  lemma SecondsOrder(a: Stamp, b: Stamp)
    requires Regular(a) && Regular(b)
    ensures DaysFromCivil(a.year, a.month, a.day) < DaysFromCivil(b.year, b.month, b.day) ==>
      a.Nanoseconds() < b.Nanoseconds()
    ensures DaysFromCivil(a.year, a.month, a.day) == DaysFromCivil(b.year, b.month, b.day) ==>
      (a.Nanoseconds() < b.Nanoseconds() <==> EarlierInDay(a, b))
  {
  }

  const FirstWrapped := Stamp(2554, 7, 21, 23, 34, 33, 709_551_616)

  /** Before the instant the count reaches 2^64, by counted day and clock: leap seconds and day numbers
      past the month's end included. */
  predicate BeforeWrap(s: Stamp)
    requires 1 <= s.month <= 12
  {
    var days, last := DaysFromCivil(s.year, s.month, s.day), DaysFromCivil(2554, 7, 21);
    days < last || (days == last && EarlierInDay(s, FirstWrapped))
  }

  /** The count fits its 64-bit word exactly for timestamps before the year 2554 limit. */
  lemma ExactUntil2554(s: Stamp)
    requires s.InRange() && s.fractionNs < 1_000_000_000 && DaysFromCivil(s.year, s.month, s.day) >= 0
    ensures s.Nanoseconds() % B64 == s.Nanoseconds() <==> BeforeWrap(s)
  {
    var n := s.Nanoseconds();
    assert FirstWrapped.Nanoseconds() == B64;
    WrapOrder(s);
    if n < B64 { DivUnique(n, B64, 0, n); }
  }

  lemma WrapOrder(s: Stamp)
    requires s.InRange() && s.fractionNs < 1_000_000_000
    ensures s.Nanoseconds() < FirstWrapped.Nanoseconds() <==> BeforeWrap(s)
  {
    assert DaysFromCivil(2554, 7, 21) == 213_503;
  }

  lemma {:induction false} NumberBelow(s: string, k: nat)
    requires AllDigits(s) && |s| <= k
    ensures Number(s) < Pow10(k)
    decreases k
  {
    if k > 0 && s != [] { NumberBelow(s[..|s| - 1], k - 1); }
  }

  lemma FractionBelow(digits: string)
    requires AllDigits(digits)
    ensures FractionNs(digits) < 1_000_000_000
  {
    var m := Min(9, |digits|);
    NumberBelow(digits[..m], m);
    PaddedBelow(LeadingDigits(digits), m);
  }

  lemma PaddedBelow(v: nat, m: nat)
    requires m <= 9 && v < Pow10(m)
    ensures v * Pow10(9 - m) < 1_000_000_000
  {
    PowersTo9(m);
    MulLe(v + 1, Pow10(m), Pow10(9 - m));
  }

  lemma PowersTo9(m: nat)
    requires m <= 9
    ensures Pow10(m) * Pow10(9 - m) == 1_000_000_000
  {
    PowerOfTen(m);
    PowerOfTen(9 - m);
  }

  lemma {:induction false} PowerOfTen(m: nat)
    requires m <= 9
    ensures Pow10(m)
      == [1, 10, 100, 1000, 10_000, 100_000, 1_000_000, 10_000_000, 100_000_000, 1_000_000_000][m]
  {
    if m > 0 { PowerOfTen(m - 1); }
  }

  /** Whatever text is accepted, its timestamp is exact if and only if the date it spells lies before
      the limit. */
  lemma ParsedExactIff(s: string)
    requires Timestamp(s).Some?
    ensures var stamp := Fields(s).value;
      stamp.InRange() && (Timestamp(s) == Some(stamp.Nanoseconds() as nat) <==> BeforeWrap(stamp))
  {
    var stamp := Fields(s).value;
    if s[19] == '.' { FractionBelow(s[20..EndOfFraction(s, 20)]); }
    ExactUntil2554(stamp);
  }
}
