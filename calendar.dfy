/**
 * Calendar dates and clock times as the scheduler reads and writes them:
 * strict `YYYY-MM-DD` and `HH:MM` fields, the proleptic Gregorian calendar
 * (leap years every fourth year, except centuries not divisible by 400),
 * and day numbers that make date comparison and `date + timedelta(days=n)`
 * arithmetic plain integer arithmetic. Beside the strict parsers, a lenient
 * reading of the same formats with one- or two-digit fields, as `strptime`
 * itself accepts them.
 */
module Calendar {
  import opened Text

  datatype Option<T> = None | Some(value: T)

  datatype Date = Date(year: int, month: int, day: int)

  predicate IsLeapYear(y: int) {
    y % 4 == 0 && (y % 100 != 0 || y % 400 == 0)
  }

  function DaysInMonth(y: int, m: int): int {
    if m == 2 then (if IsLeapYear(y) then 29 else 28)
    else if m == 4 || m == 6 || m == 9 || m == 11 then 30
    else 31
  }

  /** A real calendar date with a positive year, as `datetime.date` accepts. */
  predicate ValidDate(d: Date) {
    1 <= d.year && 1 <= d.month <= 12 && 1 <= d.day <= DaysInMonth(d.year, d.month)
  }

  /** Minutes since midnight. */
  type Minutes = m: nat | m < 24 * 60

  // ---------------------------------------------------------------------
  // Parsing and formatting
  // ---------------------------------------------------------------------

  /** `%Y-%m-%d`: four digits, '-', two digits, '-', two digits, a real date. */
  function ParseDate(s: string): (r: Option<Date>)
    ensures r.Some? ==> ValidDate(r.value) && r.value.year < 10000
  {
    if |s| == 10 && s[4] == '-' && s[7] == '-'
       && AllDigits(s[..4]) && AllDigits(s[5..7]) && AllDigits(s[8..])
    then
      var d := Date(Number(s[..4]), Number(s[5..7]), Number(s[8..]));
      if ValidDate(d) then Some(d) else None
    else None
  }

  /** `%H:%M`: two digits, ':', two digits, hour below 24, minute below 60. */
  function ParseTime(s: string): (r: Option<Minutes>)
  {
    if |s| == 5 && s[2] == ':' && AllDigits(s[..2]) && AllDigits(s[3..])
       && Number(s[..2]) < 24 && Number(s[3..]) < 60
    then Some(Number(s[..2]) * 60 + Number(s[3..]))
    else None
  }

  /** `date.strftime("%Y-%m-%d")`. */
  function FormatDate(d: Date): (s: string)
    requires ValidDate(d) && d.year < 10000
    ensures |s| == 10
  {
    Digits(d.year, 4) + "-" + Digits(d.month, 2) + "-" + Digits(d.day, 2)
  }

  /** The canonical `HH:MM` text of a minute of the day, the inverse of `ParseTime`. */
  function FormatTime(m: Minutes): (s: string)
    ensures |s| == 5
  {
    Digits(m / 60, 2) + ":" + Digits(m % 60, 2)
  }

  /** The pieces of a ten-character date string. */
  lemma DateFields(s: string)
    requires |s| == 10
    ensures s == s[..4] + ([s[4]] + (s[5..7] + ([s[7]] + s[8..])))
  {
  }

  lemma TimeFields(s: string)
    requires |s| == 5
    ensures s == s[..2] + ([s[2]] + s[3..])
  {
  }

  lemma {:induction false} ParseFormatDate(d: Date)
    requires ValidDate(d) && d.year < 10000
    ensures ParseDate(FormatDate(d)) == Some(d)
  {
    var s := FormatDate(d);
    assert s[..4] == Digits(d.year, 4);
    assert s[5..7] == Digits(d.month, 2);
    assert s[8..] == Digits(d.day, 2);
  }

  lemma {:induction false} FormatParseDate(s: string)
    requires ParseDate(s).Some?
    ensures FormatDate(ParseDate(s).value) == s
  {
    DigitsOfNumber(s[..4]);
    DigitsOfNumber(s[5..7]);
    DigitsOfNumber(s[8..]);
    DateFields(s);
  }

  lemma {:induction false} ParseFormatTime(m: Minutes)
    ensures ParseTime(FormatTime(m)) == Some(m)
  {
    var s := FormatTime(m);
    assert s[..2] == Digits(m / 60, 2);
    assert s[3..] == Digits(m % 60, 2);
  }

  lemma {:induction false} FormatParseTime(s: string)
    requires ParseTime(s).Some?
    ensures FormatTime(ParseTime(s).value) == s
  {
    DigitsOfNumber(s[..2]);
    DigitsOfNumber(s[3..]);
    var m := ParseTime(s).value;
    assert m / 60 == Number(s[..2]) && m % 60 == Number(s[3..]);
    TimeFields(s);
  }

  /** Two date strings that both parse are equal exactly when their dates are. */
  lemma DateStringsEqual(a: string, b: string)
    requires ParseDate(a).Some? && ParseDate(b).Some?
    ensures a == b <==> ParseDate(a) == ParseDate(b)
  {
    FormatParseDate(a);
    FormatParseDate(b);
  }

  // ---------------------------------------------------------------------
  // What `strptime` itself accepts
  // ---------------------------------------------------------------------

  /**
   * `strptime(s, "%Y-%m-%d")` on ASCII text: four year digits, then a month
   * and a day of one or two digits each, so "2025-3-5" names the same date as
   * "2025-03-05".
   */
  function LenientParseDate(s: string): (r: Option<Date>)
    ensures r.Some? ==> ValidDate(r.value)
  {
    if |s| >= 8 && s[4] == '-' && AllDigits(s[..4]) then
      var t := s[5..];
      var m := if t[1] == '-' then 1 else 2;
      if t[m] == '-' && AllDigits(t[..m]) && 1 <= |t| - m - 1 <= 2 && AllDigits(t[m + 1..]) then
        var d := Date(Number(s[..4]), Number(t[..m]), Number(t[m + 1..]));
        if ValidDate(d) then Some(d) else None
      else None
    else None
  }

  /** `strptime(s, "%H:%M")` on ASCII text: an hour and a minute of one or two digits each. */
  function LenientParseTime(s: string): (r: Option<Minutes>)
  {
    if |s| >= 3 then
      var h := if s[1] == ':' then 1 else 2;
      if s[h] == ':' && AllDigits(s[..h]) && 1 <= |s| - h - 1 <= 2 && AllDigits(s[h + 1..])
         && Number(s[..h]) < 24 && Number(s[h + 1..]) < 60
      then Some(Number(s[..h]) * 60 + Number(s[h + 1..]))
      else None
    else None
  }

  /** Every zero-padded date the model accepts is read the same way by `strptime`. */
  lemma StrictDateIsLenient(s: string)
    requires ParseDate(s).Some?
    ensures LenientParseDate(s) == ParseDate(s)
  {
    var t := s[5..];
    assert t[1] == s[6] && t[2] == s[7];
    assert t[..2] == s[5..7] && t[3..] == s[8..];
  }

  /** Every zero-padded time the model accepts is read the same way by `strptime`. */
  lemma StrictTimeIsLenient(s: string)
    requires ParseTime(s).Some?
    ensures LenientParseTime(s) == ParseTime(s)
  {
  }

  lemma {:induction false} YearDigits()
    ensures AllDigits("2025") && Number("2025") == 2025
  {
    assert "2025"[..3] == "202" && "202"[..2] == "20" && "20"[..1] == "2";
  }

  /**
   * `strptime` reads the unpadded "2025-3-5" and the padded "2025-03-05" as the
   * same date, though the strings differ; the strict parser refuses the first.
   */
  lemma {:induction false} UnpaddedDate()
    ensures LenientParseDate("2025-3-5") == LenientParseDate("2025-03-05") == Some(Date(2025, 3, 5))
    ensures ParseDate("2025-3-5").None?
  {
    YearDigits();
    assert "2025-3-5"[..4] == "2025" && "2025-3-5"[5..] == "3-5";
    assert "3-5"[..1] == "3" && "3-5"[2..] == "5";
    assert "2025-03-05"[..4] == "2025" && "2025-03-05"[5..] == "03-05";
    assert "03-05"[..2] == "03" && "03-05"[3..] == "05";
    assert "03"[..1] == "0" && "05"[..1] == "0";
  }

  /** Likewise "9:05" and "09:05" are the same time to `strptime`; the strict parser refuses the first. */
  lemma {:induction false} UnpaddedTime()
    ensures LenientParseTime("9:05") == LenientParseTime("09:05") == Some(9 * 60 + 5)
    ensures ParseTime("9:05").None?
  {
    assert "9:05"[..1] == "9" && "9:05"[2..] == "05";
    assert "09:05"[..2] == "09" && "09:05"[3..] == "05";
    assert "09"[..1] == "0" && "05"[..1] == "0";
  }

  // ---------------------------------------------------------------------
  // Day numbers
  // ---------------------------------------------------------------------

  /** Days in the months of year `y` that come before month `m`. */
  function DaysBeforeMonth(y: int, m: int): nat
    decreases m
  {
    if m <= 1 then 0 else DaysBeforeMonth(y, m - 1) + DaysInMonth(y, m - 1)
  }

  function DaysInYear(y: int): nat {
    if IsLeapYear(y) then 366 else 365
  }

  /** Days in the years from year 1 up to, not including, year `y`. */
  function DaysBeforeYear(y: int): nat
    decreases y
  {
    if y <= 1 then 0 else DaysBeforeYear(y - 1) + DaysInYear(y - 1)
  }

  /** The day number of a date, 1 for 0001-01-01 (Python's `date.toordinal`). */
  function Ordinal(d: Date): int {
    DaysBeforeYear(d.year) + DaysBeforeMonth(d.year, d.month) + d.day
  }

  /** The twelve month lengths add up to the length of the year. */
  lemma {:induction false} YearLength(y: int)
    ensures DaysBeforeMonth(y, 13) == DaysInYear(y)
  {
    assert DaysBeforeMonth(y, 2) == 31;
    assert DaysBeforeMonth(y, 3) == 31 + DaysInMonth(y, 2);
    assert DaysBeforeMonth(y, 4) == 62 + DaysInMonth(y, 2);
    assert DaysBeforeMonth(y, 5) == 92 + DaysInMonth(y, 2);
    assert DaysBeforeMonth(y, 6) == 123 + DaysInMonth(y, 2);
    assert DaysBeforeMonth(y, 7) == 153 + DaysInMonth(y, 2);
    assert DaysBeforeMonth(y, 8) == 184 + DaysInMonth(y, 2);
    assert DaysBeforeMonth(y, 9) == 215 + DaysInMonth(y, 2);
    assert DaysBeforeMonth(y, 10) == 245 + DaysInMonth(y, 2);
    assert DaysBeforeMonth(y, 11) == 276 + DaysInMonth(y, 2);
    assert DaysBeforeMonth(y, 12) == 306 + DaysInMonth(y, 2);
    assert DaysBeforeMonth(y, 13) == 337 + DaysInMonth(y, 2);
  }

  lemma {:induction false} DaysBeforeMonthMonotone(y: int, m: int, m': int)
    requires m <= m'
    ensures DaysBeforeMonth(y, m) <= DaysBeforeMonth(y, m')
    decreases m' - m
  {
    if m < m' {
      DaysBeforeMonthMonotone(y, m, m' - 1);
    }
  }

  lemma {:induction false} DaysBeforeYearMonotone(y: int, y': int)
    requires y <= y'
    ensures DaysBeforeYear(y) <= DaysBeforeYear(y')
    decreases y' - y
  {
    if y < y' {
      DaysBeforeYearMonotone(y, y' - 1);
    }
  }

  /** A valid date's day of the year is at most the length of its year. */
  lemma DayOfYearBound(d: Date)
    requires ValidDate(d)
    ensures DaysBeforeMonth(d.year, d.month) + d.day <= DaysInYear(d.year)
  {
    DaysBeforeMonthMonotone(d.year, d.month + 1, 13);
    YearLength(d.year);
  }

  /** Calendar order: by year, then month, then day. */
  predicate DateLt(d1: Date, d2: Date) {
    d1.year < d2.year
    || (d1.year == d2.year && d1.month < d2.month)
    || (d1.year == d2.year && d1.month == d2.month && d1.day < d2.day)
  }

  /** Every day of a year comes before every day of a later year. */
  lemma {:induction false} EarlierYear(d1: Date, d2: Date)
    requires ValidDate(d1) && ValidDate(d2) && d1.year < d2.year
    ensures Ordinal(d1) < Ordinal(d2)
  {
    var y := d1.year;
    DayOfYearBound(d1);
    assert DaysBeforeYear(y + 1) == DaysBeforeYear(y) + DaysInYear(y);
    DaysBeforeYearMonotone(y + 1, d2.year);
    assert Ordinal(d1) <= DaysBeforeYear(y + 1);
  }

  /** Within a year, every day of a month comes before every day of a later month. */
  lemma {:induction false} EarlierMonth(d1: Date, d2: Date)
    requires ValidDate(d1) && ValidDate(d2) && d1.year == d2.year && d1.month < d2.month
    ensures Ordinal(d1) < Ordinal(d2)
  {
    var y, m := d1.year, d1.month;
    assert DaysBeforeMonth(y, m + 1) == DaysBeforeMonth(y, m) + DaysInMonth(y, m);
    DaysBeforeMonthMonotone(y, m + 1, d2.month);
  }

  /** Later calendar dates have larger day numbers. */
  lemma OrdinalMonotone(d1: Date, d2: Date)
    requires ValidDate(d1) && ValidDate(d2) && DateLt(d1, d2)
    ensures Ordinal(d1) < Ordinal(d2)
  {
    if d1.year < d2.year {
      EarlierYear(d1, d2);
    } else if d1.month < d2.month {
      EarlierMonth(d1, d2);
    }
  }

  /** Day numbers order valid dates exactly as the calendar does. */
  lemma OrdinalOrder(d1: Date, d2: Date)
    requires ValidDate(d1) && ValidDate(d2)
    ensures Ordinal(d1) < Ordinal(d2) <==> DateLt(d1, d2)
    ensures Ordinal(d1) == Ordinal(d2) <==> d1 == d2
  {
    if DateLt(d1, d2) {
      OrdinalMonotone(d1, d2);
    } else if DateLt(d2, d1) {
      OrdinalMonotone(d2, d1);
    }
  }

  /** `d + timedelta(days=1)`, across month and year ends. */
  function NextDay(d: Date): (r: Date)
    requires ValidDate(d)
    ensures ValidDate(r) && Ordinal(r) == Ordinal(d) + 1
  {
    if d.day < DaysInMonth(d.year, d.month) then Date(d.year, d.month, d.day + 1)
    else if d.month < 12 then Date(d.year, d.month + 1, 1)
    else
      YearLength(d.year);
      assert DaysBeforeYear(d.year + 1) == DaysBeforeYear(d.year) + DaysInYear(d.year);
      Date(d.year + 1, 1, 1)
  }

  /** `d + timedelta(days=n)`. */
  function AddDays(d: Date, n: nat): (r: Date)
    requires ValidDate(d)
    ensures ValidDate(r) && Ordinal(r) == Ordinal(d) + n
    decreases n
  {
    if n == 0 then d else AddDays(NextDay(d), n - 1)
  }

  /**
   * The window `today <= d <= today + timedelta(days=7)` compared as real
   * dates holds exactly for the eight calendar days today, today + 1, ...,
   * today + 7, whatever month or year boundary lies between them.
   */
  lemma {:induction false} WeekWindow(today: Date, d: Date)
    requires ValidDate(today) && ValidDate(d)
    ensures Ordinal(today) <= Ordinal(d) <= Ordinal(AddDays(today, 7))
            <==> exists i :: 0 <= i <= 7 && d == AddDays(today, i)
  {
    if Ordinal(today) <= Ordinal(d) <= Ordinal(today) + 7 {
      var i := Ordinal(d) - Ordinal(today);
      OrdinalOrder(d, AddDays(today, i));
      assert d == AddDays(today, i);
    }
  }

  // ---------------------------------------------------------------------
  // Text order of the ISO fields
  // ---------------------------------------------------------------------

  /** ISO date strings compare as text exactly as their dates compare in time. */
  lemma {:induction false} DateTextOrder(a: string, b: string)
    requires ParseDate(a).Some? && ParseDate(b).Some?
    ensures StrLt(a, b) <==> Ordinal(ParseDate(a).value) < Ordinal(ParseDate(b).value)
  {
    DateFields(a);
    DateFields(b);
    var ra, rb := [a[4]] + (a[5..7] + ([a[7]] + a[8..])), [b[4]] + (b[5..7] + ([b[7]] + b[8..]));
    StrLtConcat(a[..4], ra, b[..4], rb);
    StrLtConcat([a[4]], a[5..7] + ([a[7]] + a[8..]), [b[4]], b[5..7] + ([b[7]] + b[8..]));
    StrLtIrreflexive([a[4]]);
    StrLtConcat(a[5..7], [a[7]] + a[8..], b[5..7], [b[7]] + b[8..]);
    StrLtConcat([a[7]], a[8..], [b[7]], b[8..]);
    StrLtIrreflexive([a[7]]);
    NumberOrder(a[..4], b[..4]);
    NumberOrder(a[5..7], b[5..7]);
    NumberOrder(a[8..], b[8..]);
    OrdinalOrder(ParseDate(a).value, ParseDate(b).value);
  }

  /** `HH:MM` strings compare as text exactly as their minutes compare. */
  lemma {:induction false} TimeTextOrder(a: string, b: string)
    requires ParseTime(a).Some? && ParseTime(b).Some?
    ensures StrLt(a, b) <==> ParseTime(a).value < ParseTime(b).value
    ensures a == b <==> ParseTime(a).value == ParseTime(b).value
  {
    TimeFields(a);
    TimeFields(b);
    StrLtConcat(a[..2], [a[2]] + a[3..], b[..2], [b[2]] + b[3..]);
    StrLtConcat([a[2]], a[3..], [b[2]], b[3..]);
    StrLtIrreflexive([a[2]]);
    NumberOrder(a[..2], b[..2]);
    NumberOrder(a[3..], b[3..]);
  }
}
