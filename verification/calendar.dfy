/** Calendar dates of the proleptic Gregorian calendar (section 3.2.1 of
    ISO 8601:2004) over the year range of Python's `datetime.date`, and the
    day numbering that `date` subtraction relies on. */
module Calendar {
  import opened Wrappers

  const MinYear: int := 1
  const MaxYear: int := 9999

  datatype Date = Date(year: int, month: int, day: int)

  /** The last date Python can represent, `date.max`. */
  const LastDate: Date := Date(MaxYear, 12, 31)

  /** Gregorian leap-year rule: divisible by 4, except centuries not divisible by 400. */
  predicate IsLeap(year: int) {
    year % 4 == 0 && (year % 100 != 0 || year % 400 == 0)
  }

  function DaysInYear(year: int): (n: int) {
    if IsLeap(year) then 366 else 365
  }

  /** Length of `month` in `year`; February has 29 days only in a leap year. */
  function DaysInMonth(year: int, month: int): (n: int)
    requires 1 <= month <= 12
    ensures 28 <= n <= 31
    ensures n == 29 <==> month == 2 && IsLeap(year)
  {
    if month == 2 then (if IsLeap(year) then 29 else 28)
    else if month == 4 || month == 6 || month == 9 || month == 11 then 30
    else 31
  }

  /** A real date Python's `date` can hold. */
  predicate ValidDate(d: Date) {
    && MinYear <= d.year <= MaxYear
    && 1 <= d.month <= 12
    && 1 <= d.day <= DaysInMonth(d.year, d.month)
  }

  /** A date Python can represent. */
  type Day = d: Date | ValidDate(d) witness Date(1, 1, 1)

  /** Lexicographic order on (year, month, day): `a` is strictly earlier than `b`. */
  predicate Before(a: Date, b: Date) {
    || a.year < b.year
    || (a.year == b.year && a.month < b.month)
    || (a.year == b.year && a.month == b.month && a.day < b.day)
  }

  // ---- Day numbering, in CPython's closed form --------------------------

  /** Days in the years before `year`, counted from 1 January of year 1. */
  function DaysBeforeYear(year: int): int
    requires year >= 1
  {
    var y := year - 1;
    y * 365 + y / 4 - y / 100 + y / 400
  }

  /** Days in `year` before the first of `month`, from the cumulative month table. */
  function DaysBeforeMonth(year: int, month: int): int
    requires 1 <= month <= 12
  {
    var table := [0, 31, 59, 90, 120, 151, 181, 212, 243, 273, 304, 334];
    table[month - 1] + (if month > 2 && IsLeap(year) then 1 else 0)
  }

  /** Day number of a date: 1 January of year 1 is day 1 (Python's `toordinal`). */
  function Ordinal(d: Date): int
    requires ValidDate(d)
  {
    DaysBeforeYear(d.year) + DaysBeforeMonth(d.year, d.month) + d.day
  }

  // ---- Reference counting, independent of the closed form ---------------

  /** Days before `year`, counted one whole year at a time. */
  function YearsLength(year: int): (n: int)
    requires year >= 1
    decreases year
  {
    if year == 1 then 0 else YearsLength(year - 1) + DaysInYear(year - 1)
  }

  /** Days before `month` of `year`, counted one whole month at a time. */
  function MonthsLength(year: int, month: int): (n: int)
    requires 1 <= month <= 12
    decreases month
  {
    if month == 1 then 0 else MonthsLength(year, month - 1) + DaysInMonth(year, month - 1)
  }

  /** Crossing a multiple of 4, 100 or 400: the quotient grows by one exactly
      when the next number is a multiple. */
  lemma DivStep(n: nat)
    ensures (n + 1) / 4 - n / 4 == if (n + 1) % 4 == 0 then 1 else 0
    ensures (n + 1) / 100 - n / 100 == if (n + 1) % 100 == 0 then 1 else 0
    ensures (n + 1) / 400 - n / 400 == if (n + 1) % 400 == 0 then 1 else 0
  {
  }

  lemma CenturyDivides(y: int)
    ensures y % 400 == 0 ==> y % 100 == 0
    ensures y % 100 == 0 ==> y % 4 == 0
  {
  }

  /** The closed form grows by exactly one year's length from one year to the next. */
  lemma DaysBeforeNextYear(year: int)
    requires year >= 1
    ensures DaysBeforeYear(year + 1) == DaysBeforeYear(year) + DaysInYear(year)
  {
    var n := year - 1;
    DivStep(n);
    CenturyDivides(year);
  }

  /** The closed form counts the same days as adding up year lengths. */
  lemma {:induction false} DaysBeforeYearCounts(year: int)
    requires year >= 1
    ensures DaysBeforeYear(year) == YearsLength(year)
    decreases year
  {
    if year > 1 {
      DaysBeforeYearCounts(year - 1);
      DaysBeforeNextYear(year - 1);
    }
  }

  /** The month table counts the same days as adding up month lengths. */
  lemma DaysBeforeMonthCounts(year: int, month: int)
    requires 1 <= month <= 12
    ensures DaysBeforeMonth(year, month) == MonthsLength(year, month)
  {
  }

  // ---- Order: day numbers follow the calendar order ---------------------

  /** Within a year, a valid date's day number lies between 1 and the year's length. */
  lemma DayOfYearBounds(d: Date)
    requires ValidDate(d)
    ensures 1 <= DaysBeforeMonth(d.year, d.month) + d.day <= DaysInYear(d.year)
  {
  }

  /** A month starts no earlier than every earlier month of the same year ends. */
  lemma {:induction false} MonthsInOrder(year: int, m1: int, m2: int)
    requires 1 <= m1 < m2 <= 12
    ensures DaysBeforeMonth(year, m1) + DaysInMonth(year, m1) <= DaysBeforeMonth(year, m2)
    decreases m2
  {
    DaysBeforeMonthCounts(year, m2);
    DaysBeforeMonthCounts(year, m2 - 1);
    if m1 < m2 - 1 {
      MonthsInOrder(year, m1, m2 - 1);
    }
  }

  /** A year starts no earlier than every earlier year ends. */
  lemma {:induction false} YearsInOrder(y1: int, y2: int)
    requires 1 <= y1 < y2
    ensures DaysBeforeYear(y1) + DaysInYear(y1) <= DaysBeforeYear(y2)
    decreases y2
  {
    DaysBeforeNextYear(y2 - 1);
    if y1 < y2 - 1 {
      YearsInOrder(y1, y2 - 1);
    }
  }

  /** An earlier date has a smaller day number. */
  lemma OrdinalMonotone(a: Date, b: Date)
    requires ValidDate(a) && ValidDate(b)
    requires Before(a, b)
    ensures Ordinal(a) < Ordinal(b)
  {
    DayOfYearBounds(a);
    DayOfYearBounds(b);
    if a.year < b.year {
      YearsInOrder(a.year, b.year);
    } else if a.month < b.month {
      MonthsInOrder(a.year, a.month, b.month);
    }
  }

  /** Day numbers compare as the dates do. */
  lemma OrdinalOrder(a: Date, b: Date)
    requires ValidDate(a) && ValidDate(b)
    ensures Ordinal(a) < Ordinal(b) <==> Before(a, b)
    ensures Ordinal(a) == Ordinal(b) <==> a == b
  {
    if Before(a, b) {
      OrdinalMonotone(a, b);
    } else if Before(b, a) {
      OrdinalMonotone(b, a);
    }
  }

  /** Whole days from `from` to `to`: Python's `(to - from).days`. Its sign
      tells the calendar order, and it is 0 exactly on the same date. */
  function DaysBetween(from: Date, to: Date): (n: int)
    requires ValidDate(from) && ValidDate(to)
    ensures n < 0 <==> Before(to, from)
    ensures n == 0 <==> to == from
    ensures n > 0 <==> Before(from, to)
  {
    OrdinalOrder(from, to);
    Ordinal(to) - Ordinal(from)
  }

  // ---- Stepping one day at a time ----------------------------------------

  /** The following calendar day (Python's `d + timedelta(days=1)`); none after
      `date.max`, where Python raises OverflowError. */
  function NextDay(d: Date): (r: Option<Date>)
    requires ValidDate(d)
    ensures r.None? <==> d == LastDate
    ensures r.Some? ==> ValidDate(r.value) && Ordinal(r.value) == Ordinal(d) + 1
  {
    if d.day < DaysInMonth(d.year, d.month) then
      Some(Date(d.year, d.month, d.day + 1))
    else if d.month < 12 then
      DaysBeforeMonthCounts(d.year, d.month + 1);
      DaysBeforeMonthCounts(d.year, d.month);
      Some(Date(d.year, d.month + 1, 1))
    else if d.year < MaxYear then
      DaysBeforeNextYear(d.year);
      Some(Date(d.year + 1, 1, 1))
    else
      None
  }

  /** The date `k` days after `d`, stepping one day at a time; none when the
      steps run past `date.max`. */
  function Advance(d: Date, k: nat): (r: Option<Date>)
    requires ValidDate(d)
    ensures r.Some? ==> ValidDate(r.value) && Ordinal(r.value) == Ordinal(d) + k
    decreases k
  {
    if k == 0 then Some(d)
    else
      match NextDay(d)
      case None => None
      case Some(e) => Advance(e, k - 1)
  }

  /** Every valid date is at or before `date.max`. */
  lemma LastDateIsLast(d: Date)
    requires ValidDate(d)
    ensures Ordinal(d) <= Ordinal(LastDate)
  {
    if d != LastDate {
      OrdinalMonotone(d, LastDate);
    }
  }

  /** `toordinal` counts days one at a time: the day number is the days of all
      earlier years, then of the earlier months of the year, then the day of the
      month; it runs from 1 on 1 January of year 1 to 3652059 on `LastDate`. */
  lemma OrdinalCounts(d: Date)
    requires ValidDate(d)
    ensures Ordinal(d) == YearsLength(d.year) + MonthsLength(d.year, d.month) + d.day
    ensures 1 <= Ordinal(d) <= 3652059
    ensures Ordinal(d) == 1 <==> d == Date(MinYear, 1, 1)
  {
    DaysBeforeYearCounts(d.year);
    DaysBeforeMonthCounts(d.year, d.month);
    LastDateIsLast(d);
    assert Ordinal(LastDate) == 3652059;
    if d != Date(MinYear, 1, 1) {
      OrdinalMonotone(Date(MinYear, 1, 1), d);
    }
  }

  /** The day difference counts calendar days: stepping `DaysBetween(from, to)`
      days forward from `from` lands on `to`. */
  lemma {:induction false} DaysBetweenCountsSteps(from: Date, to: Date)
    requires ValidDate(from) && ValidDate(to)
    requires !Before(to, from)
    ensures Advance(from, DaysBetween(from, to)) == Some(to)
    decreases Ordinal(to) - Ordinal(from)
  {
    var k := DaysBetween(from, to);
    if k == 0 {
    } else {
      LastDateIsLast(to);
      var next := NextDay(from);
      assert next.Some?;
      DaysBetweenCountsSteps(next.value, to);
    }
  }

  /** For a date before today, the day difference is minus the number of
      single-day steps from that date that reach today. */
  lemma PastDaysCountSteps(today: Date, d: Date)
    requires ValidDate(today) && ValidDate(d)
    requires Before(d, today)
    ensures DaysBetween(today, d) < 0
    ensures Advance(d, -DaysBetween(today, d)) == Some(today)
  {
    DaysBetweenSwap(today, d);
    DaysBetweenCountsSteps(d, today);
  }

  /** Counting from the other end negates the day difference. */
  lemma DaysBetweenSwap(a: Date, b: Date)
    requires ValidDate(a) && ValidDate(b)
    ensures DaysBetween(a, b) == -DaysBetween(b, a)
  {
  }
}
