/**
 * Calendar dates as the PHP code sees them through DateTime: a proleptic
 * Gregorian (year, month, day), its 'Y-m-d' text, the strict 'Y-m-d'
 * reading of a CSV cell, and the ISO-8601 week number of format 'W'
 * (ISO 8601:2004 section 3.2.2: weeks start on Monday, and week 1 of a
 * week-numbering year is the week holding that year's first Thursday).
 */
module Calendar {
  import opened Strings
  import opened Errors

  datatype Ymd = Ymd(year: int, month: int, day: int)

  predicate IsLeapYear(y: int) {
    y % 4 == 0 && (y % 100 != 0 || y % 400 == 0)
  }

  function DaysInMonth(y: int, m: int): (n: int)
    requires 1 <= m <= 12
    ensures 28 <= n <= 31
  {
    if m == 2 then (if IsLeapYear(y) then 29 else 28)
    else if m == 4 || m == 6 || m == 9 || m == 11 then 30
    else 31
  }

  predicate IsCalendarDate(d: Ymd) {
    1 <= d.month <= 12 && 1 <= d.day <= DaysInMonth(d.year, d.month)
  }

  /** A DateTime value: always a real calendar date. */
  type Date = d: Ymd | IsCalendarDate(d) witness Ymd(1970, 1, 1)

  /** Days from 0000-01-01 to January 1 of year `y`. */
  function DaysBeforeYear(y: int): int {
    365 * y + (y + 3) / 4 - (y + 99) / 100 + (y + 399) / 400
  }

  /** Days from January 1 to the first of month `m` of year `y`. */
  function DaysBeforeMonth(y: int, m: int): int
    requires 1 <= m <= 12
  {
    var cumulative := [0, 31, 59, 90, 120, 151, 181, 212, 243, 273, 304, 334];
    cumulative[m - 1] + (if m > 2 && IsLeapYear(y) then 1 else 0)
  }

  /** Days since 0000-01-01; what `strtotime` orders dates by. */
  function DayNumber(d: Date): int {
    DaysBeforeYear(d.year) + DaysBeforeMonth(d.year, d.month) + d.day - 1
  }

  lemma LeapStep4(y: int)
    ensures (y + 4) / 4 - (y + 3) / 4 == if y % 4 == 0 then 1 else 0
  {
  }

  lemma LeapStep100(y: int)
    ensures (y + 100) / 100 - (y + 99) / 100 == if y % 100 == 0 then 1 else 0
  {
  }

  lemma LeapStep400(y: int)
    ensures (y + 400) / 400 - (y + 399) / 400 == if y % 400 == 0 then 1 else 0
  {
  }

  /** A year has 366 days when it is a leap year and 365 otherwise. */
  lemma YearLength(y: int)
    ensures DaysBeforeYear(y + 1) - DaysBeforeYear(y) == if IsLeapYear(y) then 366 else 365
  {
    assert DaysBeforeYear(y + 1) == 365 * y + 365 + (y + 4) / 4 - (y + 100) / 100 + (y + 400) / 400;
    LeapStep4(y);
    LeapStep100(y);
    LeapStep400(y);
    CenturiesAreQuadrennial(y);
  }

  /** Every fourth century year is a century year, and every century year a fourth year. */
  lemma CenturiesAreQuadrennial(y: int)
    ensures y % 400 == 0 ==> y % 100 == 0
    ensures y % 100 == 0 ==> y % 4 == 0
  {
    if y % 400 == 0 {
      var q := y / 400;
      assert y == 100 * (4 * q);
    }
    if y % 100 == 0 {
      var q := y / 100;
      assert y == 4 * (25 * q);
    }
  }

  /** A date lies inside its own year. */
  lemma DayNumberWithinYear(d: Date)
    ensures DaysBeforeYear(d.year) <= DayNumber(d) < DaysBeforeYear(d.year + 1)
  {
    YearLength(d.year);
  }

  lemma {:induction false} DaysBeforeYearMonotone(a: int, b: int)
    requires a < b
    ensures DaysBeforeYear(a) + 365 <= DaysBeforeYear(b)
    decreases b - a
  {
    YearLength(a);
    if a + 1 < b {
      DaysBeforeYearMonotone(a + 1, b);
    }
  }

  /** Every day number belongs to exactly one year. */
  lemma YearOfDayUnique(t: int, y1: int, y2: int)
    requires DaysBeforeYear(y1) <= t < DaysBeforeYear(y1 + 1)
    requires DaysBeforeYear(y2) <= t < DaysBeforeYear(y2 + 1)
    ensures y1 == y2
  {
    if y1 < y2 {
      if y1 + 1 < y2 {
        DaysBeforeYearMonotone(y1 + 1, y2);
      }
    } else if y2 < y1 {
      if y2 + 1 < y1 {
        DaysBeforeYearMonotone(y2 + 1, y1);
      }
    }
  }

  /** ISO day of the week: 1 = Monday ... 7 = Sunday (0000-01-01 was a Saturday). */
  function Weekday(d: Date): (w: int)
    ensures 1 <= w <= 7
  {
    (DayNumber(d) + 5) % 7 + 1
  }

  /** Day number of the Thursday of the Monday-to-Sunday week holding `d`. */
  function ThursdayOf(d: Date): int {
    DayNumber(d) - Weekday(d) + 4
  }

  /**
   * The ISO week-numbering year of `d` (PHP format 'o'): the calendar year
   * of the Thursday of its week, which is the year of `d` or a neighbour.
   */
  function IsoWeekYear(d: Date): int {
    var t := ThursdayOf(d);
    if t < DaysBeforeYear(d.year) then d.year - 1
    else if t >= DaysBeforeYear(d.year + 1) then d.year + 1
    else d.year
  }

  /** The Thursday of a week is at most three days away from any day of it. */
  lemma ThursdayNear(d: Date)
    ensures DayNumber(d) - 3 <= ThursdayOf(d) <= DayNumber(d) + 3
  {
  }

  /** The ISO week-numbering year is the year the Thursday falls in. */
  lemma ThursdayInIsoWeekYear(d: Date)
    ensures DaysBeforeYear(IsoWeekYear(d)) <= ThursdayOf(d) < DaysBeforeYear(IsoWeekYear(d) + 1)
  {
    var t := ThursdayOf(d);
    ThursdayNear(d);
    DayNumberWithinYear(d);
    if t < DaysBeforeYear(d.year) {
      YearLength(d.year - 1);
      assert IsoWeekYear(d) == d.year - 1;
    } else if t >= DaysBeforeYear(d.year + 1) {
      YearLength(d.year + 1);
      assert IsoWeekYear(d) == d.year + 1;
    } else {
      assert IsoWeekYear(d) == d.year;
    }
  }

  /**
   * ISO week number (PHP format 'W'): one more than the number of earlier
   * Thursdays of the ISO week-numbering year, so week 1 is the week of the
   * year's first Thursday.
   */
  function IsoWeek(d: Date): (w: int)
    ensures 1 <= w <= 53
  {
    ThursdayInIsoWeekYear(d);
    YearLength(IsoWeekYear(d));
    (ThursdayOf(d) - DaysBeforeYear(IsoWeekYear(d))) / 7 + 1
  }

  /** Weeks run Monday to Sunday: two dates with the same Monday share ISO year and week. */
  lemma SameMondaySameIsoWeek(d1: Date, d2: Date)
    requires DayNumber(d1) - Weekday(d1) == DayNumber(d2) - Weekday(d2)
    ensures IsoWeekYear(d1) == IsoWeekYear(d2) && IsoWeek(d1) == IsoWeek(d2)
  {
    ThursdayInIsoWeekYear(d1);
    ThursdayInIsoWeekYear(d2);
    YearOfDayUnique(ThursdayOf(d1), IsoWeekYear(d1), IsoWeekYear(d2));
  }

  /** The first Thursday of a year lies in week 1 of that year. */
  lemma FirstThursdayInWeekOne(d: Date)
    requires Weekday(d) == 4 && d.month == 1 && d.day <= 7
    ensures IsoWeekYear(d) == d.year && IsoWeek(d) == 1
  {
    YearLength(d.year);
  }

  /** PHP format 'Y': at least four digits, a '-' before years BCE. */
  function FormatYear(y: int): string {
    if y < 0 then "-" + ZeroPad(NatToString(-y), 4) else ZeroPad(NatToString(y), 4)
  }

  /** DateTime::format('Y-m-d'), the text Operation::getDate returns. */
  function FormatDate(d: Date): string {
    FormatYear(d.year) + "-" + ZeroPad(NatToString(d.month), 2) + "-" + ZeroPad(NatToString(d.day), 2)
  }

  /** The regular expression /^\d{4}-\d{2}-\d{2}$/ of Operation::validateDate. */
  predicate MatchesDatePattern(s: string) {
    && |s| == 10
    && AllDigits(s[0..4]) && s[4] == '-'
    && AllDigits(s[5..7]) && s[7] == '-'
    && AllDigits(s[8..10])
  }

  /** Strict reading of a 'Y-m-d' cell (createFromFormat without its leniency). */
  function ParseDate(s: string): Option<Date> {
    if !MatchesDatePattern(s) then None
    else
      var ymd := Ymd(DigitsValue(s[0..4]), DigitsValue(s[5..7]), DigitsValue(s[8..10]));
      if IsCalendarDate(ymd) then Some(ymd) else None
  }

  lemma TwoDigitField(n: int)
    requires 1 <= n <= 31
    ensures |ZeroPad(NatToString(n), 2)| == 2
    ensures AllDigits(ZeroPad(NatToString(n), 2))
    ensures DigitsValue(ZeroPad(NatToString(n), 2)) == n
  {
    NatToStringLength(n, 2);
    ZeroPadValue(NatToString(n), 2);
    DigitsValueOfNatToString(n);
  }

  /** The year field of a date whose year has at most four digits. */
  lemma YearField(y: int)
    requires 0 <= y <= 9999
    ensures |FormatYear(y)| == 4 && AllDigits(FormatYear(y))
    ensures DigitsValue(FormatYear(y)) == y
  {
    NatToStringLength(y, 4);
    ZeroPadValue(NatToString(y), 4);
    DigitsValueOfNatToString(y);
  }

  /** Where the three fields sit in the text of a four-digit-year date. */
  lemma DateFields(d: Date)
    requires 0 <= d.year <= 9999
    ensures var s := FormatDate(d);
      && |s| == 10 && s[4] == '-' && s[7] == '-'
      && s[0..4] == FormatYear(d.year)
      && s[5..7] == ZeroPad(NatToString(d.month), 2)
      && s[8..10] == ZeroPad(NatToString(d.day), 2)
  {
    YearField(d.year);
    TwoDigitField(d.month);
    TwoDigitField(d.day);
    var y := FormatYear(d.year);
    var m := ZeroPad(NatToString(d.month), 2);
    var dd := ZeroPad(NatToString(d.day), 2);
    var s := FormatDate(d);
    assert s == y + "-" + m + "-" + dd;
  }

  /** validateDate accepts exactly the dates whose year has four digits. */
  lemma DatePatternIffFourDigitYear(d: Date)
    ensures MatchesDatePattern(FormatDate(d)) <==> 0 <= d.year <= 9999
  {
    var s := FormatDate(d);
    if d.year < 0 {
      assert s[0] == '-';
      assert |s| == 10 ==> !IsDigit(s[0..4][0]);
    } else if d.year <= 9999 {
      DateFields(d);
      YearField(d.year);
      TwoDigitField(d.month);
      TwoDigitField(d.day);
    } else {
      NatToStringLength(d.year, 4);
      TwoDigitField(d.month);
      TwoDigitField(d.day);
      assert |FormatYear(d.year)| > 4;
      assert s == FormatYear(d.year) + "-" + ZeroPad(NatToString(d.month), 2) + "-" + ZeroPad(NatToString(d.day), 2);
    }
  }

  /** Reading back the text of a four-digit-year date gives the date. */
  lemma ParseFormatDate(d: Date)
    requires 0 <= d.year <= 9999
    ensures ParseDate(FormatDate(d)) == Some(d)
  {
    DateFields(d);
    YearField(d.year);
    TwoDigitField(d.month);
    TwoDigitField(d.day);
  }

  /** Dates with four-digit years have distinct texts. */
  lemma FormatDateInjective(d1: Date, d2: Date)
    requires 0 <= d1.year <= 9999 && 0 <= d2.year <= 9999
    ensures FormatDate(d1) == FormatDate(d2) <==> d1 == d2
  {
    ParseFormatDate(d1);
    ParseFormatDate(d2);
  }

  lemma {:induction false} DigitsValueBound(t: string)
    requires AllDigits(t)
    ensures DigitsValue(t) < Pow10(|t|)
    decreases |t|
  {
    if t != [] {
      DigitsValueBound(t[..|t| - 1]);
    }
  }

  lemma {:induction false} ZeroValueIsZeros(t: string)
    requires AllDigits(t) && DigitsValue(t) == 0
    ensures t == Zeros(|t|)
    decreases |t|
  {
    if t != [] {
      ZeroValueIsZeros(t[..|t| - 1]);
      assert t == t[..|t| - 1] + [t[|t| - 1]];
    }
  }

  /** A digit string of width k is the k-wide zero padding of its value. */
  lemma {:induction false} CanonicalDigits(t: string)
    requires |t| >= 1 && AllDigits(t)
    ensures ZeroPad(NatToString(DigitsValue(t)), |t|) == t
    decreases |t|
  {
    var init, c := t[..|t| - 1], t[|t| - 1];
    assert t == init + [c];
    DigitsValueSnoc(init, c);
    var v := DigitsValue(t);
    if v < 10 {
      CanonicalFirstDigit(init, c);
    } else {
      CanonicalDigits(init);
      CanonicalLastDigit(init, c);
    }
  }

  /** The base case of CanonicalDigits: zeros followed by one digit. */
  lemma CanonicalFirstDigit(init: string, c: char)
    requires AllDigits(init) && IsDigit(c)
    requires DigitsValue(init + [c]) < 10
    ensures ZeroPad(NatToString(DigitsValue(init + [c])), |init| + 1) == init + [c]
  {
    DigitsValueSnoc(init, c);
    var d := DigitValue(c);
    assert DigitsValue(init) == 0;
    assert DigitsValue(init + [c]) == d;
    ZeroValueIsZeros(init);
    DigitCharOfValue(c);
    assert NatToString(d) == [c];
    assert ZeroPad([c], |init| + 1) == Zeros(|init|) + [c];
  }

  lemma LastDigitOf(x: nat, d: nat)
    requires d < 10
    ensures (x * 10 + d) / 10 == x && (x * 10 + d) % 10 == d
  {
  }

  /** The decimal text of a value with one more digit on the right. */
  lemma NatToStringSnoc(init: string, c: char)
    requires AllDigits(init) && IsDigit(c) && DigitsValue(init) > 0
    ensures AllDigits(init + [c])
    ensures NatToString(DigitsValue(init + [c])) == NatToString(DigitsValue(init)) + [c]
  {
    DigitsValueSnoc(init, c);
    LastDigitOf(DigitsValue(init), DigitValue(c));
    DigitCharOfValue(c);
  }

  /** Padding commutes with appending a digit on the right. */
  lemma ZeroPadSnoc(r: string, c: char, width: nat)
    requires |r| <= width
    ensures ZeroPad(r + [c], width + 1) == ZeroPad(r, width) + [c]
  {
    if |r| < width {
      var z := Zeros(width - |r|);
      assert z + (r + [c]) == (z + r) + [c];
    }
  }

  /** The inductive step of CanonicalDigits: one more digit on the right. */
  lemma CanonicalLastDigit(init: string, c: char)
    requires |init| >= 1 && AllDigits(init) && IsDigit(c)
    requires DigitsValue(init) > 0
    requires ZeroPad(NatToString(DigitsValue(init)), |init|) == init
    ensures AllDigits(init + [c])
    ensures ZeroPad(NatToString(DigitsValue(init + [c])), |init| + 1) == init + [c]
  {
    NatToStringSnoc(init, c);
    DigitsValueBound(init);
    NatToStringLength(DigitsValue(init), |init|);
    ZeroPadSnoc(NatToString(DigitsValue(init)), c, |init|);
  }

  /** Only the canonical text of a date is read as that date. */
  lemma FormatParseDate(s: string, d: Date)
    requires ParseDate(s) == Some(d)
    ensures FormatDate(d) == s && 0 <= d.year <= 9999
  {
    CanonicalDigits(s[0..4]);
    CanonicalDigits(s[5..7]);
    CanonicalDigits(s[8..10]);
    assert s == s[0..4] + "-" + s[5..7] + "-" + s[8..10];
    DigitsValueBound(s[0..4]);
  }
}
