/** Timestamps as text: a printer written on its own, and the proof that the parser of `CivilDate` reads
    back what it prints and accepts nothing else. */
module DateText {
  import opened Bits
  import opened CivilDate
  import opened DecimalText
  import opened Wrappers

  /** What an ISO-8601 UTC text spells: a date, a clock, an optional fraction of any length, and whatever
      follows the `Z`. */
  datatype Written = Written(
    year: nat, month: nat, day: nat, hour: nat, minute: nat, second: nat, fraction: Option<string>, tail: string)
  {
    function Date(): (s: string)
      ensures |s| == 10
    {
      Padded(year, 4) + "-" + Padded(month, 2) + "-" + Padded(day, 2)
    }

    function Clock(): (s: string)
      ensures |s| == 8
    {
      Padded(hour, 2) + ":" + Padded(minute, 2) + ":" + Padded(second, 2)
    }

    function Rest(): string { (if fraction.Some? then "." + fraction.value else "") + "Z" + tail }

    function Text(): string { Date() + "T" + Clock() + Rest() }

    predicate Accepted() {
      && year < 10_000 && 1 <= month <= 12 && 1 <= day <= 31 && hour <= 23 && minute <= 59 && second <= 60
      && (fraction.Some? ==> AllDigits(fraction.value))
      && CountedDays(year, month, day) >= 0
    }

    /** The first nine digits of the fraction, zeros standing in for missing ones. */
    function Nanos(): nat
      requires fraction.Some? ==> AllDigits(fraction.value)
    {
      if fraction.Some? then Number((fraction.value + "000000000")[..9]) else 0
    }

    function InstantNs(): int
      requires Accepted()
    {
      (CountedDays(year, month, day) * 86_400 + hour * 3600 + minute * 60 + second) * 1_000_000_000 + Nanos()
    }
  }

  // ---------------------------------------------------------------------------------------------
  // Digits
  // ---------------------------------------------------------------------------------------------

  lemma TwoDigitsBack(v: nat)
    requires v < 100
    ensures Number(Padded(v, 2)) == v
  {
    PowerOfTen(2);
    NumberOfPadded(v, 2);
  }

  lemma FourDigitsBack(v: nat)
    requires v < 10_000
    ensures Number(Padded(v, 4)) == v
  {
    PowerOfTen(4);
    NumberOfPadded(v, 4);
  }

  lemma {:induction false} PaddedOfNumber(s: string, k: nat)
    requires AllDigits(s) && |s| == k
    ensures Padded(Number(s), k) == s
    decreases k
  {
    if k > 0 {
      PaddedOfNumber(s[..k - 1], k - 1);
      DivUnique(Number(s), 10, Number(s[..k - 1]), DigitValue(s[k - 1]));
      assert s == s[..k - 1] + [s[k - 1]];
    }
  }

  function Zeros(n: nat): (s: string)
    ensures |s| == n && AllDigits(s) && forall i :: 0 <= i < n ==> s[i] == '0'
  {
    if n == 0 then [] else Zeros(n - 1) + ['0']
  }

  /** Padding on the right with zeros is multiplying by the missing power of ten. */
  lemma {:induction false} ZerosAppend(s: string, n: nat)
    requires AllDigits(s)
    ensures AllDigits(s + Zeros(n)) && Number(s + Zeros(n)) == Number(s) * Pow10(n)
  {
    if n == 0 {
      assert s + Zeros(n) == s;
    } else {
      ZerosAppend(s, n - 1);
      assert s + Zeros(n) == (s + Zeros(n - 1)) + ['0'];
      NumberSnoc(s + Zeros(n - 1), '0');
      TenTimesPower(Number(s), Pow10(n - 1));
    }
  }

  lemma TenTimesPower(v: int, p: int)
    ensures 10 * (v * p) == v * (10 * p)
  {
  }

  lemma NanosIsFraction(digits: string)
    requires AllDigits(digits)
    ensures FractionNs(digits) == Number((digits + "000000000")[..9])
  {
    var m := Min(9, |digits|);
    ZerosAppend(digits[..m], 9 - m);
    assert (digits + "000000000")[..9] == digits[..m] + Zeros(9 - m);
  }

  // ---------------------------------------------------------------------------------------------
  // Where the printer puts each part
  // ---------------------------------------------------------------------------------------------

  lemma TextParts(s: string, date: string, clock: string, rest: string)
    requires |date| == 10 && |clock| == 8 && s == date + "T" + clock + rest
    ensures |s| == 19 + |rest| && s[0..10] == date && s[10] == 'T' && s[11..19] == clock && s[19..] == rest
  {
  }

  lemma DateParts(s: string, year: string, month: string, day: string)
    requires |s| >= 20 && |year| == 4 && |month| == |day| == 2 && s[0..10] == year + "-" + month + "-" + day
    ensures s[0..4] == year && s[5..7] == month && s[8..10] == day && s[4] == s[7] == '-'
  {
    var date := year + "-" + month + "-" + day;
    forall i | 0 <= i < 10 ensures s[i] == date[i] { assert s[0..10][i] == s[i]; }
    assert s[0..4] == date[0..4] && s[5..7] == date[5..7] && s[8..10] == date[8..10];
  }

  lemma ClockParts(s: string, hour: string, minute: string, second: string)
    requires |s| >= 20 && |hour| == |minute| == |second| == 2 && s[11..19] == hour + ":" + minute + ":" + second
    ensures s[11..13] == hour && s[14..16] == minute && s[17..19] == second && s[13] == s[16] == ':'
  {
    var clock := hour + ":" + minute + ":" + second;
    forall i | 0 <= i < 8 ensures s[11 + i] == clock[i] { assert s[11..19][i] == s[11 + i]; }
    assert s[11..13] == clock[0..2] && s[14..16] == clock[3..5] && s[17..19] == clock[6..8];
    assert s[13] == clock[2] && s[16] == clock[5];
  }

  lemma {:induction false} FractionEnds(s: string, i: nat, digits: string)
    requires AllDigits(digits) && i + |digits| < |s| && s[i..i + |digits|] == digits && s[i + |digits|] == 'Z'
    ensures EndOfFraction(s, i) == i + |digits|
    decreases |digits|
  {
    if digits != [] {
      assert s[i] == digits[0] && IsDigit(digits[0]);
      assert s[i + 1..i + |digits|] == digits[1..];
      FractionEnds(s, i + 1, digits[1..]);
    }
  }

  lemma FractionOfRest(s: string, w: Written)
    requires |s| >= 20 && s[19..] == w.Rest() && (w.fraction.Some? ==> AllDigits(w.fraction.value))
    ensures Fraction(s).Some? && Fraction(s).value.0 == w.Nanos()
    ensures Fraction(s).value.1 < |s| && s[Fraction(s).value.1] == 'Z'
  {
    assert s[19] == s[19..][0];
    match w.fraction {
      case None =>
      case Some(digits) =>
        DotAndDigits(s, digits, "Z" + w.tail);
        FractionEnds(s, 20, digits);
        NanosIsFraction(digits);
    }
  }

  lemma DotAndDigits(s: string, digits: string, rest: string)
    requires |s| >= 20 && rest != [] && s[19..] == "." + digits + rest
    ensures s[19] == '.' && 20 + |digits| < |s| && s[20..20 + |digits|] == digits && s[20 + |digits|] == rest[0]
  {
    assert s[19] == s[19..][0];
    assert s[20..] == s[19..][1..] == digits + rest;
    assert s[20..20 + |digits|] == s[20..][..|digits|] == digits;
    assert s[20 + |digits|] == s[20..][|digits|];
  }

  lemma FieldsAt(s: string)
    requires Punctuated(s)
    requires AllDigits(s[0..4]) && AllDigits(s[5..7]) && AllDigits(s[8..10])
    requires AllDigits(s[11..13]) && AllDigits(s[14..16]) && AllDigits(s[17..19])
    requires Fraction(s).Some? && Fraction(s).value.1 < |s| && s[Fraction(s).value.1] == 'Z'
    ensures Fields(s) == Some(Stamp(Number(s[0..4]), Number(s[5..7]), Number(s[8..10]), Number(s[11..13]),
                                    Number(s[14..16]), Number(s[17..19]), Fraction(s).value.0))
  {
  }

  lemma FieldsOfText(w: Written)
    requires w.Accepted()
    ensures Fields(w.Text()) == Some(Stamp(w.year, w.month, w.day, w.hour, w.minute, w.second, w.Nanos()))
  {
    var s := w.Text();
    TextParts(s, w.Date(), w.Clock(), w.Rest());
    DateParts(s, Padded(w.year, 4), Padded(w.month, 2), Padded(w.day, 2));
    ClockParts(s, Padded(w.hour, 2), Padded(w.minute, 2), Padded(w.second, 2));
    FractionOfRest(s, w);
    FieldsAt(s);
    NumbersBack(w);
  }

  lemma NumbersBack(w: Written)
    requires w.Accepted()
    ensures Number(Padded(w.year, 4)) == w.year && Number(Padded(w.month, 2)) == w.month
    ensures Number(Padded(w.day, 2)) == w.day && Number(Padded(w.hour, 2)) == w.hour
    ensures Number(Padded(w.minute, 2)) == w.minute && Number(Padded(w.second, 2)) == w.second
  {
    FourDigitsBack(w.year);
    TwoDigitsBack(w.month);
    TwoDigitsBack(w.day);
    TwoDigitsBack(w.hour);
    TwoDigitsBack(w.minute);
    TwoDigitsBack(w.second);
  }

  /** Whatever timestamp is printed, with a fraction of any length and any text behind it, is read back:
      its nanoseconds, wrapped to 64 bits. */
  lemma PrintedIsParsed(w: Written)
    requires w.Accepted()
    ensures Timestamp(w.Text()) == Some(w.InstantNs() % B64)
  {
    FieldsOfText(w);
    var stamp := Stamp(w.year, w.month, w.day, w.hour, w.minute, w.second, w.Nanos());
    assert stamp.InRange();
    InstantOfStamp(w, stamp);
    TimestampOf(w.Text(), stamp, w.InstantNs());
  }

  lemma InstantOfStamp(w: Written, stamp: Stamp)
    requires w.Accepted() && stamp == Stamp(w.year, w.month, w.day, w.hour, w.minute, w.second, w.Nanos())
    ensures DaysFromCivil(stamp.year, stamp.month, stamp.day) >= 0 && stamp.Nanoseconds() == w.InstantNs()
  {
    DaysFromCivilIsCounted(w.year, w.month, w.day);
  }

  lemma TimestampOf(s: string, stamp: Stamp, instant: int)
    requires Fields(s) == Some(stamp) && stamp.InRange() && DaysFromCivil(stamp.year, stamp.month, stamp.day) >= 0
    requires stamp.Nanoseconds() == instant
    ensures Timestamp(s) == Some(instant % B64)
  {
  }

  // ---------------------------------------------------------------------------------------------
  // Nothing else is accepted
  // ---------------------------------------------------------------------------------------------

  lemma DateIsPadded(s: string)
    requires Fields(s).Some?
    ensures var st := Fields(s).value;
      s[0..10] == Padded(st.year, 4) + "-" + Padded(st.month, 2) + "-" + Padded(st.day, 2) && st.year < 10_000
  {
    PaddedOfNumber(s[0..4], 4);
    PaddedOfNumber(s[5..7], 2);
    PaddedOfNumber(s[8..10], 2);
    NumberBelow(s[0..4], 4);
    PowerOfTen(4);
    DateSlices(s);
  }

  lemma DateSlices(s: string)
    requires Punctuated(s)
    ensures s[0..10] == s[0..4] + "-" + s[5..7] + "-" + s[8..10]
  {
  }

  lemma ClockIsPadded(s: string)
    requires Fields(s).Some?
    ensures var st := Fields(s).value;
      s[11..19] == Padded(st.hour, 2) + ":" + Padded(st.minute, 2) + ":" + Padded(st.second, 2)
  {
    PaddedOfNumber(s[11..13], 2);
    PaddedOfNumber(s[14..16], 2);
    PaddedOfNumber(s[17..19], 2);
    ClockSlices(s);
  }

  lemma ClockSlices(s: string)
    requires Punctuated(s)
    ensures s[11..19] == s[11..13] + ":" + s[14..16] + ":" + s[17..19]
  {
  }

  lemma RestIsPrinted(s: string) returns (fraction: Option<string>, tail: string)
    requires Fields(s).Some?
    ensures fraction.Some? ==> AllDigits(fraction.value)
    ensures s[19..] == (if fraction.Some? then "." + fraction.value else "") + "Z" + tail
  {
    var z := Fraction(s).value.1;
    if s[19] == '.' {
      fraction, tail := Some(s[20..z]), s[z + 1..];
      assert s[19..] == "." + s[20..z] + "Z" + tail;
    } else {
      fraction, tail := None, s[20..];
      assert s[19..] == "" + "Z" + tail;
    }
  }

  /** A text is accepted only if it is the text of a timestamp in range. */
  lemma AcceptedIsPrinted(s: string) returns (w: Written)
    requires Timestamp(s).Some?
    ensures w.Accepted() && s == w.Text()
  {
    var st := Fields(s).value;
    var fraction, tail := RestIsPrinted(s);
    w := Written(st.year, st.month, st.day, st.hour, st.minute, st.second, fraction, tail);
    DateIsPadded(s);
    ClockIsPadded(s);
    DaysFromCivilIsCounted(st.year, st.month, st.day);
    Rejoin(s, w.Date(), w.Clock(), w.Rest());
  }

  lemma Rejoin(s: string, date: string, clock: string, rest: string)
    requires Punctuated(s) && s[0..10] == date && s[11..19] == clock && s[19..] == rest
    ensures s == date + "T" + clock + rest
  {
    assert s == s[0..10] + "T" + s[11..19] + s[19..];
  }
}
