/** The slice of `java.time` the app uses: `LocalDate` on the proleptic Gregorian calendar with its
    ISO text form (`toString`, `LocalDate.parse`), `plusDays(1)`, `LocalTime` as "HH:mm" and
    "hh:mm a", and `LocalDateTime.minusMinutes`. */
module Calendar {
  import opened Base
  import opened Text

  const MinYear := -999_999_999
  const MaxYear := 999_999_999

  /** The Gregorian leap-year rule, extended to every year (year 0 is a leap year). */
  predicate IsLeap(y: int) {
    y % 4 == 0 && (y % 100 != 0 || y % 400 == 0)
  }

  function MonthLength(y: int, m: int): (n: int)
    requires 1 <= m <= 12
    ensures 28 <= n <= 31
  {
    if m == 2 then (if IsLeap(y) then 29 else 28)
    else if m == 4 || m == 6 || m == 9 || m == 11 then 30
    else 31
  }

  function YearLength(y: int): int {
    if IsLeap(y) then 366 else 365
  }

  datatype Date = Date(year: int, month: int, day: int) {
    /** What `LocalDate.of` accepts. */
    predicate Valid() {
      MinYear <= year <= MaxYear && 1 <= month <= 12 && 1 <= day <= MonthLength(year, month)
    }
  }

  const MinDate := Date(MinYear, 1, 1)
  const MaxDate := Date(MaxYear, 12, 31)

  /* ---------------- the day count, an independent measure of dates ---------------- */

  /** Days from 0000-01-01 to the first day of year `y` (negative for earlier years). */
  function DaysBeforeYear(y: int): int
    decreases if y < 0 then -y else y
  {
    if y == 0 then 0
    else if y > 0 then DaysBeforeYear(y - 1) + YearLength(y - 1)
    else DaysBeforeYear(y + 1) - YearLength(y)
  }

  lemma DaysBeforeNextYear(y: int)
    ensures DaysBeforeYear(y + 1) == DaysBeforeYear(y) + YearLength(y)
  {
  }

  /** Days from the first of January to the first of month `m`. */
  function DaysBeforeMonth(y: int, m: int): int
    requires 1 <= m <= 12
  {
    [0, 31, 59, 90, 120, 151, 181, 212, 243, 273, 304, 334][m - 1]
      + (if m > 2 && IsLeap(y) then 1 else 0)
  }

  lemma DaysBeforeNextMonth(y: int, m: int)
    requires 1 <= m < 12
    ensures DaysBeforeMonth(y, m + 1) == DaysBeforeMonth(y, m) + MonthLength(y, m)
  {
  }

  lemma DaysBeforeLaterMonth(y: int, m: int, m': int)
    requires 1 <= m < m' <= 12
    ensures DaysBeforeMonth(y, m) + MonthLength(y, m) <= DaysBeforeMonth(y, m')
  {
  }

  lemma DecemberEndsYear(y: int)
    ensures DaysBeforeMonth(y, 12) + MonthLength(y, 12) == YearLength(y)
  {
  }

  /** The date's position on the time line, counting 0000-01-01 as day 0. */
  function DayNumber(d: Date): int
    requires d.Valid()
  {
    DaysBeforeYear(d.year) + DaysBeforeMonth(d.year, d.month) + d.day - 1
  }

  /** Field-by-field order of dates: year, then month, then day. */
  predicate Before(a: Date, b: Date) {
    a.year < b.year || (a.year == b.year && (a.month < b.month || (a.month == b.month && a.day < b.day)))
  }

  lemma {:induction false} DaysBeforeYearGrows(y: int, y': int)
    requires y < y'
    ensures DaysBeforeYear(y) + YearLength(y) <= DaysBeforeYear(y')
    decreases y' - y
  {
    DaysBeforeNextYear(y);
    if y + 1 < y' {
      DaysBeforeYearGrows(y + 1, y');
    }
  }

  /** The day count orders dates exactly as their fields do. */
  lemma DayNumberOrder(a: Date, b: Date)
    requires a.Valid() && b.Valid()
    ensures Before(a, b) <==> DayNumber(a) < DayNumber(b)
    ensures a == b <==> DayNumber(a) == DayNumber(b)
  {
    if a.year < b.year {
      DayInYear(a);
      DaysBeforeYearGrows(a.year, b.year);
    } else if b.year < a.year {
      DayInYear(b);
      DaysBeforeYearGrows(b.year, a.year);
    } else if a.month < b.month {
      DaysBeforeLaterMonth(a.year, a.month, b.month);
    } else if b.month < a.month {
      DaysBeforeLaterMonth(a.year, b.month, a.month);
    }
  }

  lemma DayInYear(d: Date)
    requires d.Valid()
    ensures DaysBeforeYear(d.year) <= DayNumber(d) < DaysBeforeYear(d.year) + YearLength(d.year)
  {
    if d.month < 12 {
      DaysBeforeLaterMonth(d.year, d.month, 12);
    }
    DecemberEndsYear(d.year);
  }

  /** `LocalDate.plusDays(1)`; None where Java throws, past the last representable date. */
  function NextDay(d: Date): (r: Option<Date>)
    requires d.Valid()
    ensures r.None? <==> d == MaxDate
    ensures r.Some? ==> r.value.Valid() && DayNumber(r.value) == DayNumber(d) + 1
  {
    if d.day < MonthLength(d.year, d.month) then Some(Date(d.year, d.month, d.day + 1))
    else if d.month < 12 then
      DaysBeforeNextMonth(d.year, d.month);
      Some(Date(d.year, d.month + 1, 1))
    else if d.year < MaxYear then
      DaysBeforeNextYear(d.year);
      DecemberEndsYear(d.year);
      Some(Date(d.year + 1, 1, 1))
    else None
  }

  /** `LocalDate.plusDays(-1)`; None before the first representable date. */
  function PreviousDay(d: Date): (r: Option<Date>)
    requires d.Valid()
    ensures r.None? <==> d == MinDate
    ensures r.Some? ==> r.value.Valid() && DayNumber(r.value) == DayNumber(d) - 1
  {
    if d.day > 1 then Some(Date(d.year, d.month, d.day - 1))
    else if d.month > 1 then
      DaysBeforeNextMonth(d.year, d.month - 1);
      Some(Date(d.year, d.month - 1, MonthLength(d.year, d.month - 1)))
    else if d.year > MinYear then
      DaysBeforeNextYear(d.year - 1);
      DecemberEndsYear(d.year - 1);
      Some(Date(d.year - 1, 12, 31))
    else None
  }

  /** Stepping forward then back (or back then forward) returns to the same date. */
  lemma NextPreviousInverse(d: Date)
    requires d.Valid()
    ensures NextDay(d).Some? ==> PreviousDay(NextDay(d).value) == Some(d)
    ensures PreviousDay(d).Some? ==> NextDay(PreviousDay(d).value) == Some(d)
  {
    if NextDay(d).Some? {
      var n := NextDay(d).value;
      DayNumberOrder(PreviousDay(n).value, d);
    }
    if PreviousDay(d).Some? {
      var p := PreviousDay(d).value;
      DayNumberOrder(NextDay(p).value, d);
    }
  }

  /* ---------------- ISO text ---------------- */

  lemma Pow10Values()
    ensures Pow10(2) == 100 && Pow10(4) == 10_000 && Pow10(9) == 1_000_000_000
  {
    assert Pow10(1) == 10;
    assert Pow10(2) == 100;
    assert Pow10(3) == 1_000;
    assert Pow10(4) == 10_000;
    assert Pow10(5) == 100_000;
    assert Pow10(6) == 1_000_000;
    assert Pow10(7) == 10_000_000;
    assert Pow10(8) == 100_000_000;
  }

  /** The year as `LocalDate.toString` writes it: at least four digits, a '-' before negative
      years and a '+' before years past 9999. */
  function FormatYear(y: int): string {
    if y < 0 then "-" + Padded(-y, 4)
    else if y > 9999 then "+" + Padded(y, 4)
    else Padded(y, 4)
  }

  /** `LocalDate.toString()`: yyyy-MM-dd. */
  function FormatDate(d: Date): string
    requires d.Valid()
  {
    FormatYear(d.year) + "-" + Padded(d.month, 2) + "-" + Padded(d.day, 2)
  }

  /** The year field of `DateTimeFormatter.ISO_LOCAL_DATE` in strict mode: exactly four unsigned
      digits, or '+' and more than four digits, or '-' and at least four digits naming a non-zero
      value; at most ten digits, and within the supported year range. */
  function ParseYear(t: string): (r: Option<int>)
    ensures r.Some? ==> MinYear <= r.value <= MaxYear
  {
    if |t| > 0 && t[0] == '+' then
      var ds := t[1..];
      if 5 <= |ds| <= 10 && AllDigits(ds) && Value(ds) <= MaxYear then Some(Value(ds) as int) else None
    else if |t| > 0 && t[0] == '-' then
      var ds := t[1..];
      if 4 <= |ds| <= 10 && AllDigits(ds) && 0 < Value(ds) <= MaxYear then Some(-(Value(ds) as int)) else None
    else if |t| == 4 && AllDigits(t) then
      ValueBound(t);
      Pow10Values();
      Some(Value(t) as int)
    else None
  }

  /** `LocalDate.parse(s)`: year, '-', two-digit month, '-', two-digit day, nothing else, and the
      day must exist in that month (strict resolution rejects 2023-02-29). */
  function ParseDate(s: string): (r: Option<Date>)
    ensures r.Some? ==> r.value.Valid()
  {
    if |s| < 6 then None
    else
      var head, tail := s[..|s| - 6], s[|s| - 6..];
      if !(tail[0] == '-' && IsDigit(tail[1]) && IsDigit(tail[2]) && tail[3] == '-' && IsDigit(tail[4]) && IsDigit(tail[5])) then None
      else
        match ParseYear(head)
        case None => None
        case Some(y) =>
          var m, dd := Value(tail[1..3]), Value(tail[4..6]);
          if 1 <= m <= 12 && 1 <= dd <= MonthLength(y, m) then Some(Date(y, m, dd)) else None
  }

  lemma ParseFormatYear(y: int)
    requires MinYear <= y <= MaxYear
    ensures ParseYear(FormatYear(y)) == Some(y)
  {
    Pow10Values();
    var t := FormatYear(y);
    if y < 0 {
      DecimalLength(-y, 9);
      DecimalLength(-y, 4);
      assert t[1..] == Padded(-y, 4);
    } else if y > 9999 {
      DecimalLength(y, 9);
      DecimalLength(y, 4);
      assert t[1..] == Padded(y, 4);
    } else {
      assert IsDigit(t[0]);
    }
  }

  lemma DateTextShape(ys: string, mm: string, dd: string)
    requires |mm| == 2 && |dd| == 2
    ensures var s := ys + "-" + mm + "-" + dd;
      |s| >= 6 && s[..|s| - 6] == ys && s[|s| - 6..] == "-" + mm + "-" + dd
  {
    var s := ys + "-" + mm + "-" + dd;
    assert s == ys + ("-" + mm + "-" + dd);
  }

  /** Any year text that parses, followed by '-', two digits, '-' and two digits, is read as that
      year and the two two-digit values, when the day exists in that month. */
  lemma ParseDateText(ys: string, mm: string, dd: string, y: int)
    requires |mm| == 2 && |dd| == 2 && AllDigits(mm) && AllDigits(dd) && ParseYear(ys) == Some(y)
    requires 1 <= Value(mm) <= 12 && 1 <= Value(dd) <= MonthLength(y, Value(mm))
    ensures ParseDate(ys + "-" + mm + "-" + dd) == Some(Date(y, Value(mm), Value(dd)))
  {
    DateTextShape(ys, mm, dd);
    DateTailShape(mm, dd);
    ParseDateSplit(ys + "-" + mm + "-" + dd, ys, "-" + mm + "-" + dd, y);
  }

  /** The last six characters of a date text: "-MM-dd". */
  lemma DateTailShape(mm: string, dd: string)
    requires |mm| == 2 && |dd| == 2 && AllDigits(mm) && AllDigits(dd)
    ensures var t := "-" + mm + "-" + dd;
      |t| == 6 && t[0] == '-' && IsDigit(t[1]) && IsDigit(t[2]) && t[3] == '-' && IsDigit(t[4]) && IsDigit(t[5])
      && t[1..3] == mm && t[4..6] == dd
  {
    assert IsDigit(mm[0]) && IsDigit(mm[1]) && IsDigit(dd[0]) && IsDigit(dd[1]);
  }

  /** `ParseDate` reads the year from all but the last six characters and the month and day from those. */
  lemma ParseDateSplit(s: string, head: string, tail: string, y: int)
    requires |s| >= 6 && s[..|s| - 6] == head && s[|s| - 6..] == tail && ParseYear(head) == Some(y)
    requires tail[0] == '-' && IsDigit(tail[1]) && IsDigit(tail[2]) && tail[3] == '-' && IsDigit(tail[4]) && IsDigit(tail[5])
    requires 1 <= Value(tail[1..3]) <= 12 && 1 <= Value(tail[4..6]) <= MonthLength(y, Value(tail[1..3]))
    ensures ParseDate(s) == Some(Date(y, Value(tail[1..3]), Value(tail[4..6])))
  {
  }

  /** Reading back what `toString` wrote gives the same date. */
  lemma ParseFormatDate(d: Date)
    requires d.Valid()
    ensures ParseDate(FormatDate(d)) == Some(d)
  {
    Pow10Values();
    var mm, dd := Padded(d.month, 2), Padded(d.day, 2);
    ParseFormatYear(d.year);
    ParseDateText(FormatYear(d.year), mm, dd, d.year);
  }

  /* ---------------- wall-clock time ---------------- */

  datatype Time = Time(hour: int, minute: int) {
    /** What `LocalTime.of(hour, minute)` accepts. */
    predicate Valid() {
      0 <= hour <= 23 && 0 <= minute <= 59
    }
  }

  /** `format(DateTimeFormatter.ofPattern("HH:mm"))`: the stored form. */
  function FormatTime(t: Time): (s: string)
    requires t.Valid()
    ensures |s| == 5 && s[2] == ':' && AllDigits(s[..2]) && AllDigits(s[3..])
    ensures Value(s[..2]) == t.hour && Value(s[3..]) == t.minute
  {
    Pow10Values();
    var hh, mm := Padded(t.hour, 2), Padded(t.minute, 2);
    assert (hh + ":" + mm)[..2] == hh && (hh + ":" + mm)[3..] == mm;
    hh + ":" + mm
  }

  /** `LocalTime.parse(s, ofPattern("HH:mm"))`: two digits, ':', two digits. The default (smart)
      resolver also takes "24:00" and reads it as midnight. */
  function ParseTime(s: string): (r: Option<Time>)
    ensures r.Some? ==> r.value.Valid()
  {
    if |s| == 5 && IsDigit(s[0]) && IsDigit(s[1]) && s[2] == ':' && IsDigit(s[3]) && IsDigit(s[4]) then
      var h, m := Value(s[..2]), Value(s[3..]);
      if m > 59 then None
      else if h == 24 && m == 0 then Some(Time(0, 0))
      else if h <= 23 then Some(Time(h, m))
      else None
    else None
  }

  /** For years 0 to 9999 the stored date texts compare as strings exactly as the dates compare
      on the calendar, so comparing the text with today's text orders visits by day. */
  lemma FormatDateOrder(a: Date, b: Date)
    requires a.Valid() && b.Valid() && 0 <= a.year <= 9999 && 0 <= b.year <= 9999
    ensures Less(FormatDate(a), FormatDate(b)) <==> Before(a, b)
    ensures FormatDate(a) == FormatDate(b) <==> a == b
  {
    Pow10Values();
    var ya, ma, da := Padded(a.year, 4), Padded(a.month, 2), Padded(a.day, 2);
    var yb, mb, db := Padded(b.year, 4), Padded(b.month, 2), Padded(b.day, 2);
    FourDigitDateText(a);
    FourDigitDateText(b);
    FieldLess(ma, da, mb, db);
    DigitsLess(da, db);
    FieldLess(ya, ma + ("-" + da), yb, mb + ("-" + db));
  }

  /** The text of a date in years 0 to 9999: four year digits, '-', two month digits, '-', two
      day digits. */
  lemma FourDigitDateText(d: Date)
    requires d.Valid() && 0 <= d.year <= 9999
    ensures FormatDate(d) == Padded(d.year, 4) + ("-" + (Padded(d.month, 2) + ("-" + Padded(d.day, 2))))
  {
  }

  /** A digit field followed by '-' and a rest: the field decides unless it is equal. */
  lemma FieldLess(a: string, x: string, b: string, y: string)
    requires |a| == |b| && AllDigits(a) && AllDigits(b)
    ensures Less(a + ("-" + x), b + ("-" + y)) <==> Value(a) < Value(b) || (Value(a) == Value(b) && Less(x, y))
    ensures a + ("-" + x) == b + ("-" + y) <==> Value(a) == Value(b) && x == y
  {
    DigitsLess(a, b);
    LessConcat("-", x, "-", y);
    ConcatEqual("-", x, "-", y);
    LessConcat(a, "-" + x, b, "-" + y);
    ConcatEqual(a, "-" + x, b, "-" + y);
  }

  /** The stored "HH:mm" form loses nothing. */
  lemma ParseFormatTime(t: Time)
    requires t.Valid()
    ensures |FormatTime(t)| == 5
    ensures ParseTime(FormatTime(t)) == Some(t)
  {
    Pow10Values();
    var hh, mm := Padded(t.hour, 2), Padded(t.minute, 2);
    var s := FormatTime(t);
    assert s[..2] == hh && s[3..] == mm;
    assert IsDigit(hh[0]) && IsDigit(hh[1]) && IsDigit(mm[0]) && IsDigit(mm[1]);
  }

  function ClockHour(t: Time): int {
    if t.hour % 12 == 0 then 12 else t.hour % 12
  }

  /** `format(ofPattern("hh:mm a"))` with English AM/PM markers: the displayed form. */
  function FormatTime12(t: Time): (s: string)
    requires t.Valid()
    ensures |s| == 8 && s[2] == ':' && s[5] == ' ' && AllDigits(s[..2]) && AllDigits(s[3..5])
    ensures 1 <= Value(s[..2]) <= 12 && Value(s[..2]) == ClockHour(t) && Value(s[3..5]) == t.minute
    ensures s[6..] == if t.hour < 12 then "AM" else "PM"
  {
    Pow10Values();
    var hh, mm := Padded(ClockHour(t), 2), Padded(t.minute, 2);
    var s := hh + ":" + mm + " " + (if t.hour < 12 then "AM" else "PM");
    assert s[..2] == hh && s[3..5] == mm;
    assert s[6..] == if t.hour < 12 then "AM" else "PM";
    s
  }

  /** The clock hour and the AM/PM half together determine the hour. */
  lemma ClockHourHalf(a: Time, b: Time)
    requires a.Valid() && b.Valid() && ClockHour(a) == ClockHour(b) && (a.hour < 12 <==> b.hour < 12)
    ensures a.hour == b.hour
  {
  }

  /** The 12-hour display keeps every distinction the 24-hour value makes. */
  lemma FormatTime12Injective(a: Time, b: Time)
    requires a.Valid() && b.Valid()
    requires FormatTime12(a) == FormatTime12(b)
    ensures a == b
  {
    var s := FormatTime12(a);
    assert ClockHour(a) == Value(s[..2]) == ClockHour(b);
    assert (a.hour < 12 <==> s[6..] == "AM") && (b.hour < 12 <==> s[6..] == "AM");
    ClockHourHalf(a, b);
  }

  /** The arrival and departure cells of a visitor row: both in 12-hour form, or "--:--" for both
      when either stored value does not parse. */
  function DisplayTimes(arrival: string, departure: string): (r: (string, string))
    ensures (ParseTime(arrival).None? || ParseTime(departure).None?) <==> r == ("--:--", "--:--")
    ensures ParseTime(arrival).Some? && ParseTime(departure).Some? ==>
      r == (FormatTime12(ParseTime(arrival).value), FormatTime12(ParseTime(departure).value))
  {
    match (ParseTime(arrival), ParseTime(departure))
    case (Some(a), Some(d)) =>
      Pow10Values();
      assert |FormatTime12(a)| == 8;
      (FormatTime12(a), FormatTime12(d))
    case _ => ("--:--", "--:--")
  }

  /* ---------------- date and time together ---------------- */

  datatype DateTime = DateTime(date: Date, time: Time) {
    predicate Valid() {
      date.Valid() && time.Valid()
    }
  }

  function MinuteOfDay(t: Time): int {
    t.hour * 60 + t.minute
  }

  /** Minutes since 0000-01-01T00:00. */
  function Stamp(dt: DateTime): int
    requires dt.Valid()
  {
    DayNumber(dt.date) * 1440 + MinuteOfDay(dt.time)
  }

  lemma SameDay(d1: int, m1: int, d2: int, m2: int)
    requires 0 <= m1 < 1440 && 0 <= m2 < 1440 && d1 * 1440 + m1 == d2 * 1440 + m2
    ensures d1 == d2 && m1 == m2
  {
  }

  /** Different date-times have different stamps. */
  lemma StampInjective(a: DateTime, b: DateTime)
    requires a.Valid() && b.Valid()
    ensures Stamp(a) == Stamp(b) ==> a == b
  {
    if Stamp(a) == Stamp(b) {
      SameDay(DayNumber(a.date), MinuteOfDay(a.time), DayNumber(b.date), MinuteOfDay(b.time));
      DayNumberOrder(a.date, b.date);
    }
  }

  /** `LocalDateTime.minusMinutes(n)` for up to a day: the same date while the clock allows it,
      otherwise the previous date; None where Java throws (before the first representable date). */
  function MinusMinutes(dt: DateTime, n: int): (r: Option<DateTime>)
    requires dt.Valid() && 0 <= n <= 1440
    ensures r.None? <==> dt.date == MinDate && MinuteOfDay(dt.time) < n
    ensures r.Some? ==> r.value.Valid() && Stamp(r.value) == Stamp(dt) - n
  {
    var k := MinuteOfDay(dt.time) - n;
    if k >= 0 then Some(DateTime(dt.date, Time(k / 60, k % 60)))
    else
      match PreviousDay(dt.date)
      case None => None
      case Some(p) => Some(DateTime(p, Time((k + 1440) / 60, (k + 1440) % 60)))
  }
}
