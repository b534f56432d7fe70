/**
 * Calendar dates as java.time.LocalDate holds them, their natural order
 * (LocalDate.compareTo), and LocalDate.parse, which reads the ISO 8601
 * calendar date in extended format (YYYY-MM-DD, section 4.1.2.2 of
 * ISO 8601:2004) with the rules of DateTimeFormatter.ISO_LOCAL_DATE.
 */
module Dates {
  import opened Wrappers
  import opened Digits

  /** A day of the proleptic Gregorian calendar. */
  datatype Date = Date(year: int, month: int, day: int)

  /** The year range of LocalDate. */
  const MinYear: int := -999_999_999
  const MaxYear: int := 999_999_999

  /** Java tests (year & 3) == 0 and year % 100 with truncating %; only whether
      each remainder is zero matters, and that is the same for Dafny's %. */
  predicate IsLeapYear(year: int) {
    year % 4 == 0 && (year % 100 != 0 || year % 400 == 0)
  }

  function MonthLength(year: int, month: int): (n: int)
    requires 1 <= month <= 12
    ensures 28 <= n <= 31
    ensures n == 29 <==> month == 2 && IsLeapYear(year)
  {
    if month == 2 then (if IsLeapYear(year) then 29 else 28)
    else if month == 4 || month == 6 || month == 9 || month == 11 then 30
    else 31
  }

  /** The dates LocalDate can represent. */
  predicate ValidDate(d: Date) {
    && MinYear <= d.year <= MaxYear
    && 1 <= d.month <= 12
    && 1 <= d.day <= MonthLength(d.year, d.month)
  }

  /** a is strictly earlier than b: LocalDate.compareTo compares the year,
      then the month, then the day. */
  predicate Before(a: Date, b: Date): (r: bool)
    ensures r ==> a != b
    ensures r ==> a.year <= b.year
    ensures a.year < b.year ==> r
  {
    || a.year < b.year
    || (a.year == b.year && a.month < b.month)
    || (a.year == b.year && a.month == b.month && a.day < b.day)
  }

  /** Before is a strict total order, so a TreeMap keyed by it keeps one
      entry per date. */
  lemma BeforeIsStrictTotalOrder(a: Date, b: Date, c: Date)
    ensures !Before(a, a)
    ensures Before(a, b) ==> !Before(b, a)
    ensures Before(a, b) && Before(b, c) ==> Before(a, c)
    ensures a == b || Before(a, b) || Before(b, a)
  {
  }

  /**
   * LocalDate.parse(s). The year is read as 4 to 10 digits (more than 10
   * leaves a digit where the '-' must be); without a sign exactly 4 digits
   * are allowed, a '+' is allowed only before more than 4, and a '-' before
   * zero is refused. Month and day are exactly two digits each, nothing may
   * follow the day, and the strict resolver then refuses out-of-range years,
   * months and days, including the 29th of February of a common year.
   */
  function ParseIsoDate(s: string): (r: Option<Date>)
    ensures r.Some? ==> ValidDate(r.value)
  {
    match ParseYear(s)
    case None => None
    case Some(yearAndEnd) => ParseMonthDay(yearAndEnd.0, s[yearAndEnd.1..])
  }

  /** The signed year at the start of s and the index just after its digits. */
  function ParseYear(s: string): (r: Option<(int, nat)>)
    ensures r.Some? ==> r.value.1 <= |s|
  {
    var signed := |s| > 0 && (s[0] == '+' || s[0] == '-');
    var start := if signed then 1 else 0;
    var n := DigitRun(s[start..]);
    if n < 4 || n > 10 then None
    else
      DigitRunIsLongest(s[start..]);
      assert s[start..][..n] == s[start..start + n];
      var magnitude: int := DigitsValue(s[start..start + n]);
      if signed && s[0] == '-' && magnitude == 0 then None
      else if signed && s[0] == '+' && n == 4 then None
      else if !signed && n > 4 then None
      else
        var year := if signed && s[0] == '-' then -magnitude else magnitude;
        Some((year, start + n))
  }

  /** "-MM-dd" after the year, with nothing after it, naming a real date. */
  function ParseMonthDay(year: int, rest: string): (r: Option<Date>)
    ensures r.Some? ==> ValidDate(r.value) && r.value.year == year
  {
    if !(&& |rest| == 6 && rest[0] == '-' && IsDigit(rest[1]) && IsDigit(rest[2])
         && rest[3] == '-' && IsDigit(rest[4]) && IsDigit(rest[5]))
    then None
    else
      var d := Date(year, DigitsValue(rest[1..3]), DigitsValue(rest[4..6]));
      if ValidDate(d) then Some(d) else None
  }

  /** The year as LocalDate.toString writes it: at least four digits, a '-'
      before negative years and a '+' before years above 9999. */
  function YearText(year: int): string {
    if year < 0 then "-" + NatToDigits(-year, 4)
    else if year > 9999 then "+" + NatToDigits(year, 4)
    else NatToDigits(year, 4)
  }

  /** LocalDate.toString: the ISO form that LocalDate.parse reads back. */
  function FormatIsoDate(d: Date): string
    requires 1 <= d.month && 1 <= d.day
  {
    YearText(d.year) + "-" + NatToDigits(d.month, 2) + "-" + NatToDigits(d.day, 2)
  }

  /** A string of k digits denotes a number below 10^k. */
  lemma {:induction false} DigitsValueBound(s: string)
    requires AllDigits(s)
    ensures DigitsValue(s) < Pow10(|s|)
  {
    if |s| > 0 {
      DigitsValueBound(s[..|s| - 1]);
    }
  }

  /** A two-digit field renders as exactly two digits. */
  lemma TwoDigitField(v: nat)
    requires v < 100
    ensures |NatToDigits(v, 2)| == 2
    ensures DigitsValue(NatToDigits(v, 2)) == v
  {
    NatToDigitsLength(v, 2, 2);
    NatToDigitsValue(v, 2);
  }

  /** ParseYear on '-', a non-zero run of 4 to 10 digits, and a non-digit. */
  lemma ParseYearMinus(digits: string, tail: string)
    requires AllDigits(digits) && 4 <= |digits| <= 10 && DigitsValue(digits) != 0
    requires |tail| > 0 && !IsDigit(tail[0])
    ensures ParseYear("-" + digits + tail) == Some((-(DigitsValue(digits) as int), 1 + |digits|))
  {
    var s := "-" + digits + tail;
    assert s[0] == '-';
    assert DigitRun(s[1..]) == |digits| by {
      assert s[1..] == digits + tail;
      DigitRunOfPrefix(digits, tail);
    }
    assert s[1..1 + |digits|] == digits;
  }

  /** ParseYear on '+', a run of 5 to 10 digits, and a non-digit. */
  lemma ParseYearPlus(digits: string, tail: string)
    requires AllDigits(digits) && 4 < |digits| <= 10
    requires |tail| > 0 && !IsDigit(tail[0])
    ensures ParseYear("+" + digits + tail) == Some((DigitsValue(digits) as int, 1 + |digits|))
  {
    var s := "+" + digits + tail;
    assert s[0] == '+';
    assert DigitRun(s[1..]) == |digits| by {
      assert s[1..] == digits + tail;
      DigitRunOfPrefix(digits, tail);
    }
    assert s[1..1 + |digits|] == digits;
  }

  /** ParseYear on exactly four digits and a non-digit. */
  lemma ParseYearUnsigned(digits: string, tail: string)
    requires AllDigits(digits) && |digits| == 4
    requires |tail| > 0 && !IsDigit(tail[0])
    ensures ParseYear(digits + tail) == Some((DigitsValue(digits) as int, 4))
  {
    var s := digits + tail;
    assert s[0..] == digits + tail;
    DigitRunOfPrefix(digits, tail);
    assert s[0..|digits|] == digits;
    assert s[0] == digits[0];
  }

  /** YearText writes the year so that ParseYear reads it back, whatever
      non-digit text follows. */
  lemma YearRoundTrip(year: int, tail: string)
    requires MinYear <= year <= MaxYear
    requires |tail| > 0 && !IsDigit(tail[0])
    ensures ParseYear(YearText(year) + tail) == Some((year, |YearText(year)|))
  {
    var magnitude: nat := if year < 0 then -year else year;
    var digits := NatToDigits(magnitude, 4);
    NatToDigitsValue(magnitude, 4);
    assert Pow10(9) == 1_000_000_000;
    NatToDigitsLength(magnitude, 4, 9);
    assert Pow10(4) == 10000;
    if year < 0 {
      ParseYearMinus(digits, tail);
    } else if year > 9999 {
      DigitsValueBound(digits);
      ParseYearPlus(digits, tail);
    } else {
      NatToDigitsLength(magnitude, 4, 4);
      ParseYearUnsigned(digits, tail);
    }
  }

  /** The month and day LocalDate.toString writes are read back. */
  lemma MonthDayRoundTrip(d: Date)
    requires ValidDate(d)
    ensures ParseMonthDay(d.year, "-" + NatToDigits(d.month, 2) + "-" + NatToDigits(d.day, 2)) == Some(d)
  {
    var mm := NatToDigits(d.month, 2);
    var dd := NatToDigits(d.day, 2);
    TwoDigitField(d.month);
    TwoDigitField(d.day);
    var rest := "-" + mm + "-" + dd;
    assert rest[1..3] == mm;
    assert rest[4..6] == dd;
  }

  /** Every date LocalDate can hold is read back from its own text. */
  lemma ParseFormatRoundTrip(d: Date)
    requires ValidDate(d)
    ensures ParseIsoDate(FormatIsoDate(d)) == Some(d)
  {
    var tail := "-" + NatToDigits(d.month, 2) + "-" + NatToDigits(d.day, 2);
    var s := FormatIsoDate(d);
    assert s == YearText(d.year) + tail;
    YearRoundTrip(d.year, tail);
    assert s[|YearText(d.year)|..] == tail;
    MonthDayRoundTrip(d);
  }

  /** The year text ParseYear accepts is the year's own text: exactly
      YearText without a sign, otherwise the sign and the magnitude
      zero-padded to the 4 to 10 digits written. */
  lemma ParseYearSound(s: string, year: int, end: nat)
    requires ParseYear(s) == Some((year, end))
    ensures 4 <= end <= 11 && end <= |s|
    ensures IsDigit(s[0]) ==> end == 4 && s[..end] == YearText(year)
    ensures s[0] == '-' ==> year < 0
    ensures s[0] == '+' ==> year >= 0
    ensures s[0] == '-' || s[0] == '+' ==>
      5 <= end && s[..end] == [s[0]] + NatToDigits(if year < 0 then -year else year, end - 1)
  {
    var signed := |s| > 0 && (s[0] == '+' || s[0] == '-');
    var start := if signed then 1 else 0;
    var n := DigitRun(s[start..]);
    DigitRunIsLongest(s[start..]);
    assert s[start..][..n] == s[start..start + n];
    var digits := s[start..start + n];
    DigitsValueText(digits);
    assert s[..end] == s[..start] + digits;
    if signed {
      assert s[..start] == [s[0]];
    } else {
      DigitsValueBound(digits);
      assert Pow10(4) == 10000;
      assert s[..start] + digits == digits;
    }
  }

  /** The month and day text ParseMonthDay accepts is their two-digit
      rendering. */
  lemma ParseMonthDaySound(year: int, rest: string, d: Date)
    requires ParseMonthDay(year, rest) == Some(d)
    ensures |rest| == 6
    ensures rest == "-" + NatToDigits(d.month, 2) + "-" + NatToDigits(d.day, 2)
  {
    DigitsValueText(rest[1..3]);
    DigitsValueText(rest[4..6]);
  }

  /** Regrouping a year text and the month-day text that follows it. */
  lemma DateTextSplits(year: string, mm: string, dd: string)
    ensures year + "-" + mm + "-" + dd == year + ("-" + mm + "-" + dd)
  {
  }

  /** The text of a date with an explicit sign: the sign, the magnitude of
      the year padded to width digits, and the two-digit month and day. */
  function SignedIsoDate(sign: char, d: Date, width: nat): string
    requires 1 <= d.month && 1 <= d.day
  {
    [sign] + NatToDigits(if d.year < 0 then -d.year else d.year, width)
      + "-" + NatToDigits(d.month, 2) + "-" + NatToDigits(d.day, 2)
  }

  /** A year text followed by a month-day text: unsigned it is the date's
      text; signed, the sign, the magnitude padded to the width written, and
      the month and day. */
  lemma AssembleDateText(s: string, end: nat, d: Date)
    requires 1 <= d.month && 1 <= d.day
    requires 4 <= end && end + 6 == |s|
    requires s == s[..end] + ("-" + NatToDigits(d.month, 2) + "-" + NatToDigits(d.day, 2))
    requires IsDigit(s[0]) ==> s[..end] == YearText(d.year)
    requires s[0] == '-' || s[0] == '+' ==>
      s[..end] == [s[0]] + NatToDigits(if d.year < 0 then -d.year else d.year, end - 1)
    ensures IsDigit(s[0]) ==> s == FormatIsoDate(d)
    ensures s[0] == '-' || s[0] == '+' ==> s == SignedIsoDate(s[0], d, |s| - 7)
  {
    DateTextSplits(s[..end], NatToDigits(d.month, 2), NatToDigits(d.day, 2));
  }

  /** Every text LocalDate.parse accepts is the text of the date it returns:
      without a sign it is exactly LocalDate.toString of that date; with a
      sign it is the sign, the year's magnitude zero-padded to the width
      written, and the two-digit month and day. */
  lemma ParseIsoDateSound(s: string, d: Date)
    requires ParseIsoDate(s) == Some(d)
    ensures 10 <= |s| <= 17
    ensures IsDigit(s[0]) ==> s == FormatIsoDate(d)
    ensures s[0] == '-' ==> d.year < 0
    ensures s[0] == '+' ==> d.year >= 0
    ensures s[0] == '-' || s[0] == '+' ==> s == SignedIsoDate(s[0], d, |s| - 7)
  {
    var end := ParseYear(s).value.1;
    assert ParseYear(s) == Some((d.year, end));
    ParseYearSound(s, d.year, end);
    ParseMonthDaySound(d.year, s[end..], d);
    assert s == s[..end] + s[end..];
    AssembleDateText(s, end, d);
  }

  /** The two dates of the parser's test data are read as those dates. */
  lemma IsoDateExamples()
    ensures ParseIsoDate("2023-06-04") == Some(Date(2023, 6, 4))
    ensures ParseIsoDate("2023-06-03") == Some(Date(2023, 6, 3))
  {
    Year2023();
    assert NatToDigits(6, 2) == "06" by {
      assert NatToDigits(0, 1) == "0";
    }
    assert NatToDigits(4, 2) == "04" by {
      assert NatToDigits(0, 1) == "0";
    }
    assert NatToDigits(3, 2) == "03" by {
      assert NatToDigits(0, 1) == "0";
    }
    assert FormatIsoDate(Date(2023, 6, 4)) == "2023-06-04";
    assert FormatIsoDate(Date(2023, 6, 3)) == "2023-06-03";
    ParseFormatRoundTrip(Date(2023, 6, 4));
    ParseFormatRoundTrip(Date(2023, 6, 3));
  }

  /** "2023" renders and reads as the year 2023. */
  lemma Year2023()
    ensures NatToDigits(2023, 4) == "2023"
  {
    assert NatToDigits(2, 1) == "2";
    assert NatToDigits(20, 2) == "20";
    assert NatToDigits(202, 3) == "202";
  }

  /** LocalDate.parse refuses the 29th of February of a common year. */
  lemma IsoDateRejectsCommonYearLeapDay()
    ensures ParseIsoDate("2023-02-29") == None
  {
    Year2023();
    ParseYearUnsigned("2023", "-02-29");
    assert "2023-02-29" == "2023" + "-02-29";
    assert "2023-02-29"[4..] == "-02-29";
    NoLeapDayIn2023();
  }

  /** "-02-29" after the common year 2023 names no date. */
  lemma NoLeapDayIn2023()
    ensures ParseMonthDay(2023, "-02-29") == None
  {
    var rest := "-02-29";
    assert rest[1..3] == "02" && rest[4..6] == "29";
    assert DigitsValue("02") == 2 by {
      assert "02"[..1] == "0";
    }
    assert DigitsValue("29") == 29 by {
      assert "29"[..1] == "2";
    }
    assert !IsLeapYear(2023);
  }

  /** LocalDate.parse refuses a one-digit month. */
  lemma IsoDateRejectsOneDigitMonth()
    ensures ParseIsoDate("2023-6-04") == None
  {
    Year2023();
    ParseYearUnsigned("2023", "-6-04");
    assert "2023-6-04" == "2023" + "-6-04";
    assert |"2023-6-04"[4..]| == 5;
  }
}
