/**
 * The proleptic Gregorian calendar used by the `trade_date` column of the
 * daily-and-longer candle tables ('YYYY-MM-DD' text) and by Python's
 * `datetime.date`: valid dates, their day number counted from 1970-01-01,
 * and the "same day next month" step used to resume monthly candles.
 */
module Calendar {
  import opened Common

  datatype Civil = Civil(year: int, month: int, day: int)

  predicate IsLeapYear(y: int)
  {
    y % 4 == 0 && (y % 100 != 0 || y % 400 == 0)
  }

  function DaysInMonth(y: int, m: int): (n: int)
    ensures 28 <= n <= 31
    ensures m == 2 ==> (n == 29 <==> IsLeapYear(y))
  {
    if m == 2 then (if IsLeapYear(y) then 29 else 28)
    else if m == 4 || m == 6 || m == 9 || m == 11 then 30
    else 31
  }

  /** The dates Python's `datetime.date` accepts: years 1 to 9999. */
  predicate ValidDate(c: Civil)
  {
    1 <= c.year <= 9999 && 1 <= c.month <= 12 && 1 <= c.day <= DaysInMonth(c.year, c.month)
  }

  type Date = c: Civil | ValidDate(c) witness Civil(1970, 1, 1)

  function DaysInYear(y: int): int
  {
    if IsLeapYear(y) then 366 else 365
  }

  /** Leap years among the years 1 .. y-1. */
  function LeapYearsBefore(y: int): int
  {
    (y - 1) / 4 - (y - 1) / 100 + (y - 1) / 400
  }

  /** Days from 1970-01-01 to January 1st of year y (negative before 1970). */
  function DaysBeforeYear(y: int): int
  {
    365 * (y - 1970) + LeapYearsBefore(y) - LeapYearsBefore(1970)
  }

  /** Days of year y before the first of month m. */
  function DaysBeforeMonth(y: int, m: int): (n: int)
    requires 1 <= m <= 12
    ensures 28 * (m - 1) <= n <= 31 * (m - 1)
  {
    if m == 1 then 0 else DaysBeforeMonth(y, m - 1) + DaysInMonth(y, m - 1)
  }

  /** Days since 1970-01-01 (the Unix epoch day of the date). */
  function DayNumber(d: Date): int
  {
    DaysBeforeYear(d.year) + DaysBeforeMonth(d.year, d.month) + d.day - 1
  }

  /** Calendar order on dates, field by field. */
  predicate Before(a: Date, b: Date)
  {
    a.year < b.year
    || (a.year == b.year && (a.month < b.month || (a.month == b.month && a.day < b.day)))
  }

  lemma DaysBeforeYearStep(y: int)
    ensures DaysBeforeYear(y + 1) == DaysBeforeYear(y) + DaysInYear(y)
  {
    var a, b, c := (y - 1) / 4, (y - 1) / 100, (y - 1) / 400;
    assert y / 4 == a + (if y % 4 == 0 then 1 else 0);
    assert y / 100 == b + (if y % 100 == 0 then 1 else 0);
    assert y / 400 == c + (if y % 400 == 0 then 1 else 0);
  }

  lemma {:induction false} DaysBeforeYearGrows(y1: int, y2: int)
    requires y1 < y2
    ensures DaysBeforeYear(y2) >= DaysBeforeYear(y1) + DaysInYear(y1)
    decreases y2 - y1
  {
    DaysBeforeYearStep(y1);
    if y1 + 1 < y2 {
      DaysBeforeYearGrows(y1 + 1, y2);
    }
  }

  lemma {:induction false} DaysBeforeMonthGrows(y: int, m1: int, m2: int)
    requires 1 <= m1 < m2 <= 12
    ensures DaysBeforeMonth(y, m2) >= DaysBeforeMonth(y, m1) + DaysInMonth(y, m1)
    decreases m2 - m1
  {
    if m1 + 1 < m2 {
      DaysBeforeMonthGrows(y, m1 + 1, m2);
    }
  }

  lemma DaysBeforeDecember(y: int)
    ensures DaysBeforeMonth(y, 12) + DaysInMonth(y, 12) == DaysInYear(y)
  {
    var feb := DaysInMonth(y, 2);
    assert DaysBeforeMonth(y, 2) == 31;
    assert DaysBeforeMonth(y, 3) == 31 + feb;
    assert DaysBeforeMonth(y, 4) == 62 + feb;
    assert DaysBeforeMonth(y, 5) == 92 + feb;
    assert DaysBeforeMonth(y, 6) == 123 + feb;
    assert DaysBeforeMonth(y, 7) == 153 + feb;
    assert DaysBeforeMonth(y, 8) == 184 + feb;
    assert DaysBeforeMonth(y, 9) == 215 + feb;
    assert DaysBeforeMonth(y, 10) == 245 + feb;
    assert DaysBeforeMonth(y, 11) == 276 + feb;
    assert DaysBeforeMonth(y, 12) == 306 + feb;
  }

  /** Every date of a year falls before the first day of the next one. */
  lemma DayOfYearBound(d: Date)
    ensures DaysBeforeMonth(d.year, d.month) + d.day - 1 < DaysInYear(d.year)
  {
    if d.month < 12 {
      DaysBeforeMonthGrows(d.year, d.month, 12);
    }
    DaysBeforeDecember(d.year);
  }

  /** The day number follows calendar order strictly, so it is also injective. */
  lemma DayNumberOrder(a: Date, b: Date)
    ensures Before(a, b) <==> DayNumber(a) < DayNumber(b)
    ensures DayNumber(a) == DayNumber(b) <==> a == b
  {
    DayOfYearBound(a);
    DayOfYearBound(b);
    if a.year < b.year {
      DaysBeforeYearGrows(a.year, b.year);
    } else if b.year < a.year {
      DaysBeforeYearGrows(b.year, a.year);
    } else if a.month < b.month {
      DaysBeforeMonthGrows(a.year, a.month, b.month);
    } else if b.month < a.month {
      DaysBeforeMonthGrows(a.year, b.month, a.month);
    }
  }

  /**
   * `date.replace(month=m+1)` (December: `replace(year=y+1, month=1)`), which
   * keeps the day of month; `None` when Python raises because that day does
   * not exist in the next month or the year passes 9999.
   */
  function NextMonth(d: Date): (r: Option<Date>)
    ensures r.Some? ==> r.value.day == d.day && Before(d, r.value)
    ensures r.Some? && d.month < 12 ==> r.value.year == d.year && r.value.month == d.month + 1
    ensures r.Some? && d.month == 12 ==> r.value.year == d.year + 1 && r.value.month == 1
    ensures r.None? <==> (d.month == 12 && d.year == 9999)
                         || d.day > DaysInMonth(if d.month == 12 then d.year + 1 else d.year,
                                                if d.month == 12 then 1 else d.month + 1)
  {
    var c := if d.month == 12 then Civil(d.year + 1, 1, d.day) else Civil(d.year, d.month + 1, d.day);
    if ValidDate(c) then Some(c) else None
  }

  /** The next-month step never lands more than 31 days later. */
  lemma NextMonthDistance(d: Date)
    requires NextMonth(d).Some?
    ensures DayNumber(d) < DayNumber(NextMonth(d).value) <= DayNumber(d) + 31
  {
    var n := NextMonth(d).value;
    DayNumberOrder(d, n);
    if d.month < 12 {
      assert DaysBeforeMonth(n.year, n.month) == DaysBeforeMonth(d.year, d.month) + DaysInMonth(d.year, d.month);
    } else {
      DaysBeforeYearStep(d.year);
      DaysBeforeDecember(d.year);
    }
  }

  /** Day numbers of 0001-01-01 and 9999-12-31, the range of `datetime.date`. */
  const MinDay: int := -719162
  const MaxDay: int := 2932896

  lemma DayNumberRange(d: Date)
    ensures MinDay <= DayNumber(d) <= MaxDay
  {
    DayOfYearBound(d);
    assert DaysBeforeYear(1) == MinDay;
    if 1 < d.year {
      DaysBeforeYearGrows(1, d.year);
    }
    DaysBeforeYearStep(9999);
    assert DaysBeforeYear(9999) + DaysInYear(9999) == MaxDay + 1;
    if d.year < 9999 {
      DaysBeforeYearGrows(d.year, 9999);
    }
  }

  /** 9999-12-31 is the only date with the largest day number. */
  lemma MaxDayIsLast(d: Date)
    ensures DayNumber(d) <= MaxDay
    ensures DayNumber(d) == MaxDay <==> d == Civil(9999, 12, 31)
  {
    var last: Date := Civil(9999, 12, 31);
    DaysBeforeYearStep(9999);
    DaysBeforeDecember(9999);
    assert DayNumber(last) == MaxDay;
    DayNumberOrder(d, last);
    DayNumberRange(d);
  }

  /** The following calendar day (`d + timedelta(days=1)`), absent after 9999-12-31. */
  function NextDay(d: Date): (r: Option<Date>)
    ensures r.Some? <==> DayNumber(d) < MaxDay
    ensures r.Some? ==> DayNumber(r.value) == DayNumber(d) + 1
  {
    if d.day < DaysInMonth(d.year, d.month) then
      DayNumberRange(Civil(d.year, d.month, d.day + 1));
      Some(Civil(d.year, d.month, d.day + 1))
    else if d.month < 12 then
      FirstOfNextMonth(d);
      Some(Civil(d.year, d.month + 1, 1))
    else if d.year < 9999 then
      FirstOfNextYear(d);
      Some(Civil(d.year + 1, 1, 1))
    else
      MaxDayIsLast(d);
      None
  }

  /** The day after the last of a month other than December is the first of the next month. */
  lemma FirstOfNextMonth(d: Date)
    requires d.day == DaysInMonth(d.year, d.month) && d.month < 12
    ensures DayNumber(Civil(d.year, d.month + 1, 1)) == DayNumber(d) + 1 < MaxDay + 1
  {
    assert DaysBeforeMonth(d.year, d.month + 1) == DaysBeforeMonth(d.year, d.month) + DaysInMonth(d.year, d.month);
    DayNumberRange(Civil(d.year, d.month + 1, 1));
  }

  /** The day after December 31st is January 1st of the next year. */
  lemma FirstOfNextYear(d: Date)
    requires d.day == 31 && d.month == 12 && d.year < 9999
    ensures DayNumber(Civil(d.year + 1, 1, 1)) == DayNumber(d) + 1 < MaxDay + 1
  {
    DaysBeforeYearStep(d.year);
    DaysBeforeDecember(d.year);
    DayNumberRange(Civil(d.year + 1, 1, 1));
  }

  /** The preceding calendar day, absent before 0001-01-01. */
  function PrevDay(d: Date): (r: Option<Date>)
    ensures r.Some? <==> MinDay < DayNumber(d)
    ensures r.Some? ==> DayNumber(r.value) == DayNumber(d) - 1
  {
    if d.day > 1 then
      DayNumberRange(Civil(d.year, d.month, d.day - 1));
      Some(Civil(d.year, d.month, d.day - 1))
    else if d.month > 1 then
      LastOfPrevMonth(d);
      Some(Civil(d.year, d.month - 1, DaysInMonth(d.year, d.month - 1)))
    else if d.year > 1 then
      LastOfPrevYear(d);
      Some(Civil(d.year - 1, 12, 31))
    else
      assert DaysBeforeYear(1) == MinDay;
      None
  }

  /** The day before the first of a month other than January is the last of the month before. */
  lemma LastOfPrevMonth(d: Date)
    requires d.day == 1 && d.month > 1
    ensures ValidDate(Civil(d.year, d.month - 1, DaysInMonth(d.year, d.month - 1)))
    ensures MinDay < DayNumber(d)
            && DayNumber(Civil(d.year, d.month - 1, DaysInMonth(d.year, d.month - 1))) == DayNumber(d) - 1
  {
    var m := d.month - 1;
    assert DaysBeforeMonth(d.year, d.month) == DaysBeforeMonth(d.year, m) + DaysInMonth(d.year, m);
    DayNumberRange(Civil(d.year, m, DaysInMonth(d.year, m)));
  }

  /** The day before January 1st is December 31st of the year before. */
  lemma LastOfPrevYear(d: Date)
    requires d.day == 1 && d.month == 1 && d.year > 1
    ensures MinDay < DayNumber(d) && DayNumber(Civil(d.year - 1, 12, 31)) == DayNumber(d) - 1
  {
    DaysBeforeYearStep(d.year - 1);
    DaysBeforeDecember(d.year - 1);
    DayNumberRange(Civil(d.year - 1, 12, 31));
  }

  /**
   * The date whose day number is n: what `datetime.fromtimestamp(t, utc).date()`
   * gives for a time t in day n.
   */
  function DateOfDay(n: int): (d: Date)
    requires MinDay <= n <= MaxDay
    ensures DayNumber(d) == n
    decreases if n < 0 then -n else n
  {
    if n == 0 then Civil(1970, 1, 1)
    else if n > 0 then
      var p := DateOfDay(n - 1);
      NextDay(p).value
    else
      var q := DateOfDay(n + 1);
      PrevDay(q).value
  }

  /** Formatting a date as its day number and reading it back gives the same date. */
  lemma DateOfDayNumber(d: Date)
    ensures MinDay <= DayNumber(d) <= MaxDay
    ensures DateOfDay(DayNumber(d)) == d
  {
    DayNumberRange(d);
    DayNumberOrder(d, DateOfDay(DayNumber(d)));
  }
}
