/** Python's datetime arithmetic on the proleptic Gregorian calendar, as the
    views and template tags use it: dates (year, month, day), Python's
    ordinal day numbers (date(1, 1, 1).toordinal() == 1, a Monday), the
    weekday with Monday == 0, naive datetimes as a date plus the second of
    the day, and the month-name tables. */
module Calendar {
  import opened Common

  datatype Date = Date(year: int, month: int, day: int)

  /** A naive datetime: a date and the second within that day. */
  datatype Timestamp = Timestamp(date: Date, second: int)

  const SecondsPerDay: int := 86400
  const MaxYear: int := 9999

  predicate IsLeap(y: int) {
    y % 4 == 0 && (y % 100 != 0 || y % 400 == 0)
  }

  function DaysInMonth(y: int, m: int): int {
    if m == 2 then (if IsLeap(y) then 29 else 28)
    else if m == 4 || m == 6 || m == 9 || m == 11 then 30
    else 31
  }

  function DaysInYear(y: int): int {
    if IsLeap(y) then 366 else 365
  }

  /** What Python's date(y, m, d) accepts. */
  predicate ValidDate(d: Date) {
    1 <= d.year <= MaxYear && 1 <= d.month <= 12 && 1 <= d.day <= DaysInMonth(d.year, d.month)
  }

  predicate ValidTimestamp(t: Timestamp) {
    ValidDate(t.date) && 0 <= t.second < SecondsPerDay
  }

  function DaysBeforeYear(y: int): int {
    var p := y - 1;
    365 * p + p / 4 - p / 100 + p / 400
  }

  function DaysBeforeMonth(y: int, m: int): int {
    var leap := if m > 2 && IsLeap(y) then 1 else 0;
    leap +
    (if m <= 1 then 0 else if m == 2 then 31 else if m == 3 then 59
     else if m == 4 then 90 else if m == 5 then 120 else if m == 6 then 151
     else if m == 7 then 181 else if m == 8 then 212 else if m == 9 then 243
     else if m == 10 then 273 else if m == 11 then 304 else 334)
  }

  /** Python's date.toordinal(). */
  function Ordinal(d: Date): int {
    DaysBeforeYear(d.year) + DaysBeforeMonth(d.year, d.month) + d.day
  }

  /** Python's date.weekday() of the date with the given ordinal: Monday is 0. */
  function Weekday(ordinal: int): (w: int)
    ensures 0 <= w < 7
  {
    (ordinal + 6) % 7
  }

  /** Seconds since the start of ordinal day 0: the total order of datetimes. */
  function AbsSecond(t: Timestamp): int {
    Ordinal(t.date) * SecondsPerDay + t.second
  }

  /** A date used where a datetime is compared: its midnight. */
  function Midnight(d: Date): Timestamp {
    Timestamp(d, 0)
  }

  /** Python's tuple order on dates. */
  predicate DateBefore(a: Date, b: Date) {
    a.year < b.year || (a.year == b.year && (a.month < b.month || (a.month == b.month && a.day < b.day)))
  }

  /** The date one day later (date + timedelta(days=1)). */
  function NextDay(d: Date): Date {
    if d.day < DaysInMonth(d.year, d.month) then Date(d.year, d.month, d.day + 1)
    else if d.month < 12 then Date(d.year, d.month + 1, 1)
    else Date(d.year + 1, 1, 1)
  }

  // --- Arithmetic facts about the ordinal ---

  lemma DivStep4(y: int)
    ensures y / 4 - (y - 1) / 4 == if y % 4 == 0 then 1 else 0
  {
    var q := y / 4;
    assert y == 4 * q + y % 4;
  }

  lemma DivStep100(y: int)
    ensures y / 100 - (y - 1) / 100 == if y % 100 == 0 then 1 else 0
  {
    var q := y / 100;
    assert y == 100 * q + y % 100;
  }

  lemma DivStep400(y: int)
    ensures y / 400 - (y - 1) / 400 == if y % 400 == 0 then 1 else 0
  {
    var q := y / 400;
    assert y == 400 * q + y % 400;
  }

  lemma LeapDivisibility(y: int)
    ensures y % 400 == 0 ==> y % 100 == 0
    ensures y % 100 == 0 ==> y % 4 == 0
  {
    if y % 400 == 0 {
      var q := y / 400;
      assert y == 100 * (4 * q);
    }
    if y % 100 == 0 {
      var q := y / 100;
      assert y == 4 * (25 * q);
    }
  }

  lemma DaysBeforeYearStep(y: int)
    ensures DaysBeforeYear(y + 1) == DaysBeforeYear(y) + DaysInYear(y)
  {
    DivStep4(y);
    DivStep100(y);
    DivStep400(y);
    LeapDivisibility(y);
  }

  lemma {:induction false} DaysBeforeYearMonotone(a: int, b: int)
    requires a <= b
    ensures DaysBeforeYear(a) + (b - a) * 365 <= DaysBeforeYear(b)
    decreases b - a
  {
    if a < b {
      DaysBeforeYearMonotone(a, b - 1);
      DaysBeforeYearStep(b - 1);
    }
  }

  /** The days of a month follow the days before it. */
  lemma DaysBeforeMonthStep(y: int, m: int)
    requires 1 <= m <= 12
    ensures DaysBeforeMonth(y, m) + DaysInMonth(y, m) == if m < 12 then DaysBeforeMonth(y, m + 1) else DaysInYear(y)
  {
  }

  lemma {:induction false} DaysBeforeMonthMonotone(y: int, a: int, b: int)
    requires 1 <= a < b <= 12
    ensures DaysBeforeMonth(y, a) + DaysInMonth(y, a) <= DaysBeforeMonth(y, b)
    decreases b - a
  {
    DaysBeforeMonthStep(y, a);
    if a + 1 < b {
      DaysBeforeMonthMonotone(y, a + 1, b);
    }
  }

  /** A valid date lies within its year's block of ordinals. */
  lemma OrdinalInYear(d: Date)
    requires ValidDate(d)
    ensures DaysBeforeYear(d.year) < Ordinal(d) <= DaysBeforeYear(d.year) + DaysInYear(d.year)
  {
    DaysBeforeMonthStep(d.year, d.month);
    if d.month < 12 {
      DaysBeforeMonthMonotone(d.year, d.month, 12);
      DaysBeforeMonthStep(d.year, 12);
    }
  }

  /** The ordinal is strictly increasing in Python's date order. */
  lemma OrdinalMonotone(a: Date, b: Date)
    requires ValidDate(a) && ValidDate(b)
    requires DateBefore(a, b)
    ensures Ordinal(a) < Ordinal(b)
  {
    if a.year < b.year {
      OrdinalInYear(a);
      OrdinalInYear(b);
      DaysBeforeYearStep(a.year);
      DaysBeforeYearMonotone(a.year + 1, b.year);
    } else if a.month < b.month {
      DaysBeforeMonthMonotone(a.year, a.month, b.month);
    }
  }

  /** Comparing ordinals is comparing dates, in both directions. */
  lemma OrdinalOrder(a: Date, b: Date)
    requires ValidDate(a) && ValidDate(b)
    ensures DateBefore(a, b) <==> Ordinal(a) < Ordinal(b)
    ensures a == b <==> Ordinal(a) == Ordinal(b)
  {
    if DateBefore(a, b) {
      OrdinalMonotone(a, b);
    } else if DateBefore(b, a) {
      OrdinalMonotone(b, a);
    }
  }

  /** Comparing AbsSecond is Python's comparison of datetimes: by date, then time of day. */
  lemma TimestampOrder(a: Timestamp, b: Timestamp)
    requires ValidTimestamp(a) && ValidTimestamp(b)
    ensures AbsSecond(a) < AbsSecond(b) <==> DateBefore(a.date, b.date) || (a.date == b.date && a.second < b.second)
    ensures AbsSecond(a) == AbsSecond(b) <==> a == b
  {
    OrdinalOrder(a.date, b.date);
  }

  /** The ordinal of a timestamp's date is its AbsSecond divided by a day. */
  lemma AbsSecondDay(t: Timestamp)
    requires ValidTimestamp(t)
    ensures AbsSecond(t) / SecondsPerDay == Ordinal(t.date)
    ensures Ordinal(t.date) * SecondsPerDay <= AbsSecond(t) < (Ordinal(t.date) + 1) * SecondsPerDay
  {
  }

  /** NextDay is the date whose ordinal is one more. */
  lemma NextDayOrdinal(d: Date)
    requires ValidDate(d) && d != Date(MaxYear, 12, 31)
    ensures ValidDate(NextDay(d))
    ensures Ordinal(NextDay(d)) == Ordinal(d) + 1
  {
    DaysBeforeMonthStep(d.year, d.month);
    if d.day == DaysInMonth(d.year, d.month) && d.month == 12 {
      DaysBeforeYearStep(d.year);
    }
  }

  lemma OrdinalPositive(d: Date)
    requires ValidDate(d)
    ensures Ordinal(d) >= 1
  {
    DaysBeforeYearMonotone(1, d.year);
    OrdinalInYear(d);
  }

  /** The last valid date has the largest ordinal. */
  lemma OrdinalAtMostMax(d: Date)
    requires ValidDate(d)
    ensures Ordinal(d) <= Ordinal(Date(MaxYear, 12, 31))
    ensures Ordinal(d) == Ordinal(Date(MaxYear, 12, 31)) ==> d == Date(MaxYear, 12, 31)
  {
    OrdinalOrder(d, Date(MaxYear, 12, 31));
  }

  // --- Month names ---

  /** Python's calendar.month_name, in English: index 0 holds the empty string. */
  function EnglishMonthName(m: int): string
    requires 0 <= m <= 12
  {
    if m == 1 then "January" else if m == 2 then "February" else if m == 3 then "March"
    else if m == 4 then "April" else if m == 5 then "May" else if m == 6 then "June"
    else if m == 7 then "July" else if m == 8 then "August" else if m == 9 then "September"
    else if m == 10 then "October" else if m == 11 then "November" else if m == 12 then "December"
    else ""
  }

  /** The French translations of those names, as the month labels use them. */
  function FrenchMonthName(m: int): string
    requires 1 <= m <= 12
  {
    if m == 1 then "janvier" else if m == 2 then "février" else if m == 3 then "mars"
    else if m == 4 then "avril" else if m == 5 then "mai" else if m == 6 then "juin"
    else if m == 7 then "juillet" else if m == 8 then "août" else if m == 9 then "septembre"
    else if m == 10 then "octobre" else if m == 11 then "novembre" else "décembre"
  }

  /** time.strptime(name, '%B').tm_mon on the English month names. */
  function MonthFromName(name: string): (r: Option<int>)
    ensures r.Some? ==> 1 <= r.value <= 12 && EnglishMonthName(r.value) == name
  {
    if name == "January" then Some(1) else if name == "February" then Some(2)
    else if name == "March" then Some(3) else if name == "April" then Some(4)
    else if name == "May" then Some(5) else if name == "June" then Some(6)
    else if name == "July" then Some(7) else if name == "August" then Some(8)
    else if name == "September" then Some(9) else if name == "October" then Some(10)
    else if name == "November" then Some(11) else if name == "December" then Some(12)
    else None
  }

  /** Parsing an English month name gives back its number. */
  lemma MonthNameRoundTrip(m: int)
    requires 1 <= m <= 12
    ensures MonthFromName(EnglishMonthName(m)) == Some(m)
  {
  }

  /** No French month name holds a space. */
  lemma FrenchNameHasNoSpace(m: int)
    requires 1 <= m <= 12
    ensures ' ' !in FrenchMonthName(m)
  {
  }

  lemma FrenchNamesDistinct(a: int, b: int)
    requires 1 <= a <= 12 && 1 <= b <= 12
    requires FrenchMonthName(a) == FrenchMonthName(b)
    ensures a == b
  {
    var fa, fb := FrenchMonthName(a), FrenchMonthName(b);
    assert |fa| == |fb| && fa[0] == fb[0] && fa[|fa| - 1] == fb[|fb| - 1];
  }
}
