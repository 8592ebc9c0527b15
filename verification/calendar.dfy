/**
 * Gregorian calendar arithmetic as the analyzer uses it: the length of a month,
 * adding whole months with the day clamped to the end of the target month, and
 * adding days.  Dates follow Python's `datetime.date`: years 1 to 9999 only, so
 * stepping past 9999-12-31 is a failure rather than a date.
 */
module Calendar {
  import opened Outcomes

  const MinYear: int := 1
  const MaxYear: int := 9999

  /** Day number (Python's `toordinal`) of 9999-12-31, the last representable date. */
  const MaxOrdinal: int := 3652059

  datatype Date = Date(year: int, month: int, day: int)

  /** The Gregorian leap-year rule. */
  predicate IsLeap(year: int) {
    year % 4 == 0 && (year % 100 != 0 || year % 400 == 0)
  }

  function YearDays(year: int): int {
    if IsLeap(year) then 366 else 365
  }

  /** Number of days in a month (the second component of `calendar.monthrange`). */
  function DaysInMonth(year: int, month: int): (n: int)
    requires 1 <= month <= 12
    ensures 28 <= n <= 31
    ensures month == 2 ==> n == (if IsLeap(year) then 29 else 28)
    ensures month == 4 || month == 6 || month == 9 || month == 11 ==> n == 30
    ensures month != 2 ==> (n == 31 <==> month in {1, 3, 5, 7, 8, 10, 12})
  {
    if month == 2 then (if IsLeap(year) then 29 else 28)
    else if month == 4 || month == 6 || month == 9 || month == 11 then 30
    else 31
  }

  /** The dates `datetime.date` accepts. */
  predicate Valid(d: Date) {
    MinYear <= d.year <= MaxYear && 1 <= d.month <= 12 && 1 <= d.day <= DaysInMonth(d.year, d.month)
  }

  function Min(a: int, b: int): int {
    if a <= b then a else b
  }

  /** Months counted from year 0: consecutive calendar months have consecutive indices. */
  function MonthIndex(d: Date): int {
    d.year * 12 + d.month - 1
  }

  /** Days in the month of `d` (`get_month_days`). */
  function MonthDays(d: Date): (n: int)
    requires Valid(d)
    ensures 28 <= n <= 31 && d.day <= n
    ensures n == DaysInMonth(d.year, d.month)
  {
    DaysInMonth(d.year, d.month)
  }

  /**
   * `add_months`: moves `d` by `months` calendar months, carrying into the year,
   * and clamps the day to the last day of the target month.  Fails when the year
   * leaves the range `datetime.date` accepts.
   */
  function AddMonths(d: Date, months: int): (r: Option<Date>)
    requires Valid(d)
    ensures r.Some? <==> MinYear * 12 <= MonthIndex(d) + months < (MaxYear + 1) * 12
    ensures r.Some? ==> Valid(r.value) && MonthIndex(r.value) == MonthIndex(d) + months
    ensures r.Some? ==> r.value.day <= d.day
    ensures r.Some? ==> (r.value.day == d.day <==> d.day <= DaysInMonth(r.value.year, r.value.month))
    ensures r.Some? && r.value.day < d.day ==> r.value.day == DaysInMonth(r.value.year, r.value.month)
  {
    var m := d.month - 1 + months;
    var year := d.year + m / 12;
    var month := m % 12 + 1;
    assert year * 12 + month - 1 == MonthIndex(d) + months;
    if MinYear <= year <= MaxYear then
      Some(Date(year, month, Min(d.day, DaysInMonth(year, month))))
    else
      None
  }

  /**
   * `add_months(d, 1)`, the step the month loop takes, written without the
   * division by 12: the next month of the same year, or January of the next
   * year, with the day clamped.  `NextMonthIsAddMonths` shows it is `AddMonths(d, 1)`.
   */
  function NextMonth(d: Date): (r: Option<Date>)
    requires Valid(d)
    ensures r.None? <==> d.year == MaxYear && d.month == 12
    ensures r.Some? ==> Valid(r.value) && MonthIndex(r.value) == MonthIndex(d) + 1 && r.value.day <= d.day
  {
    if d.month < 12 then Some(Date(d.year, d.month + 1, Min(d.day, DaysInMonth(d.year, d.month + 1))))
    else if d.year < MaxYear then Some(Date(d.year + 1, 1, d.day))
    else None
  }

  lemma NextMonthIsAddMonths(d: Date)
    requires Valid(d)
    ensures NextMonth(d) == AddMonths(d, 1)
  {
    var r := AddMonths(d, 1);
    if r.Some? {
      if d.month < 12 {
        MonthIndexInjective(r.value, Date(d.year, d.month + 1, 1));
      } else {
        MonthIndexInjective(r.value, Date(d.year + 1, 1, 1));
      }
    }
  }

  /** Python's `_days_before_year`. */
  function DaysBeforeYear(year: int): int {
    var y := year - 1;
    y * 365 + y / 4 - y / 100 + y / 400
  }

  /** Python's `_days_before_month`. */
  function DaysBeforeMonth(year: int, month: int): int
    requires 1 <= month <= 12
  {
    (match month
     case 1 => 0 case 2 => 31 case 3 => 59 case 4 => 90 case 5 => 120 case 6 => 151
     case 7 => 181 case 8 => 212 case 9 => 243 case 10 => 273 case 11 => 304 case _ => 334)
      + (if month > 2 && IsLeap(year) then 1 else 0)
  }

  /** Python's `date.toordinal`: 0001-01-01 is day 1. */
  function Ordinal(d: Date): int
    requires 1 <= d.month <= 12
  {
    DaysBeforeYear(d.year) + DaysBeforeMonth(d.year, d.month) + d.day
  }

  lemma YearStep(year: int)
    requires year >= 1
    ensures DaysBeforeYear(year + 1) == DaysBeforeYear(year) + YearDays(year)
  {
    var y := year - 1;
    Div4Step(y);
    Div100Step(y);
    Div400Step(y);
  }

  lemma Div4Step(y: int)
    requires y >= 0
    ensures (y + 1) / 4 == y / 4 + (if (y + 1) % 4 == 0 then 1 else 0)
  {
  }

  lemma Div100Step(y: int)
    requires y >= 0
    ensures (y + 1) / 100 == y / 100 + (if (y + 1) % 100 == 0 then 1 else 0)
  {
  }

  lemma Div400Step(y: int)
    requires y >= 0
    ensures (y + 1) / 400 == y / 400 + (if (y + 1) % 400 == 0 then 1 else 0)
  {
  }

  lemma MonthStep(year: int, month: int)
    requires 1 <= month <= 12
    ensures month < 12 ==> DaysBeforeMonth(year, month + 1) == DaysBeforeMonth(year, month) + DaysInMonth(year, month)
    ensures month == 12 ==> DaysBeforeMonth(year, month) + DaysInMonth(year, month) == YearDays(year)
  {
  }

  lemma {:induction false} DaysBeforeYearMonotone(a: int, b: int)
    requires 1 <= a <= b
    ensures DaysBeforeYear(a) <= DaysBeforeYear(b)
    decreases b - a
  {
    if a < b {
      YearStep(a);
      DaysBeforeYearMonotone(a + 1, b);
    }
  }

  /** Every valid date has an ordinal in 1..MaxOrdinal, and only 9999-12-31 reaches the top. */
  lemma {:induction false} OrdinalRange(d: Date)
    requires Valid(d)
    ensures 1 <= Ordinal(d) <= MaxOrdinal
    ensures Ordinal(d) == MaxOrdinal <==> d == Date(MaxYear, 12, 31)
  {
    DaysBeforeYearMonotone(1, d.year);
    MonthStep(d.year, d.month);
    YearStep(d.year);
    DaysBeforeYearMonotone(d.year + 1, MaxYear + 1);
    assert DaysBeforeYear(MaxYear + 1) == MaxOrdinal;
    if d.month < 12 {
      MonthStep(d.year, 12);
      assert DaysBeforeMonth(d.year, d.month) + d.day < DaysBeforeMonth(d.year, 12) + 31;
    }
  }

  /** The day after `d`, or `None` when `d` is the last representable date. */
  function NextDay(d: Date): (r: Option<Date>)
    requires Valid(d)
    ensures r.None? <==> d == Date(MaxYear, 12, 31)
    ensures r.Some? ==> Valid(r.value)
  {
    if d.day < DaysInMonth(d.year, d.month) then Some(Date(d.year, d.month, d.day + 1))
    else if d.month < 12 then Some(Date(d.year, d.month + 1, 1))
    else if d.year < MaxYear then Some(Date(d.year + 1, 1, 1))
    else None
  }

  /** The next day is the date whose ordinal is one more. */
  lemma NextDayOrdinal(d: Date)
    requires Valid(d)
    ensures NextDay(d).Some? <==> Ordinal(d) < MaxOrdinal
    ensures NextDay(d).Some? ==> Ordinal(NextDay(d).value) == Ordinal(d) + 1
  {
    OrdinalRange(d);
    MonthStep(d.year, d.month);
    YearStep(d.year);
  }

  /**
   * `d + timedelta(days=k)`, one day at a time; `None` (Python's OverflowError)
   * when the result would pass 9999-12-31.  `AddDaysOrdinal` states what it is.
   */
  function AddDays(d: Date, k: nat): (r: Option<Date>)
    requires Valid(d)
    ensures r.Some? ==> Valid(r.value)
  {
    if k == 0 then Some(d)
    else
      match AddDays(d, k - 1)
      case None => None
      case Some(x) => NextDay(x)
  }

  /**
   * Adding `k` days yields the date whose ordinal is `k` more than that of `d`,
   * and fails exactly when that ordinal passes the last representable date,
   * as Python's date arithmetic does.
   */
  lemma {:induction false} AddDaysOrdinal(d: Date, k: nat)
    requires Valid(d)
    ensures AddDays(d, k).Some? <==> Ordinal(d) + k <= MaxOrdinal
    ensures AddDays(d, k).Some? ==> Ordinal(AddDays(d, k).value) == Ordinal(d) + k
  {
    if k == 0 {
      OrdinalRange(d);
    } else {
      AddDaysOrdinal(d, k - 1);
      AddDaysOneMore(d, k);
    }
  }

  /** One step of `AddDaysOrdinal`: the claim for `k - 1` days carries over to `k`. */
  lemma AddDaysOneMore(d: Date, k: nat)
    requires Valid(d) && k > 0
    requires AddDays(d, k - 1).Some? <==> Ordinal(d) + k - 1 <= MaxOrdinal
    requires AddDays(d, k - 1).Some? ==> Ordinal(AddDays(d, k - 1).value) == Ordinal(d) + k - 1
    ensures AddDays(d, k).Some? <==> Ordinal(d) + k <= MaxOrdinal
    ensures AddDays(d, k).Some? ==> Ordinal(AddDays(d, k).value) == Ordinal(d) + k
  {
    var prev := AddDays(d, k - 1);
    if prev.Some? {
      NextDayOrdinal(prev.value);
      assert AddDays(d, k) == NextDay(prev.value);
    } else {
      assert AddDays(d, k).None?;
    }
  }


  /**
   * Month-end clamping: a month added to 31 January lands on the last day of
   * February, and a second single-month step stays on that day in March,
   * whereas adding two months at once reaches 31 March.
   */
  lemma EndOfJanuary(year: int)
    requires MinYear <= year <= MaxYear
    ensures AddMonths(Date(year, 1, 31), 1) == Some(Date(year, 2, if IsLeap(year) then 29 else 28))
    ensures AddMonths(AddMonths(Date(year, 1, 31), 1).value, 1) == Some(Date(year, 3, if IsLeap(year) then 29 else 28))
    ensures AddMonths(Date(year, 1, 31), 2) == Some(Date(year, 3, 31))
  {
    var feb := AddMonths(Date(year, 1, 31), 1);
    assert MonthIndex(feb.value) == year * 12 + 1;
    assert feb.value.year == year && feb.value.month == 2;
    var mar := AddMonths(feb.value, 1);
    assert MonthIndex(mar.value) == year * 12 + 2;
    assert mar.value.year == year && mar.value.month == 3;
    var mar2 := AddMonths(Date(year, 1, 31), 2);
    assert MonthIndex(mar2.value) == year * 12 + 2;
    assert mar2.value.year == year && mar2.value.month == 3;
  }

  /**
   * A month before December 9999 has room for a whole month of days from any
   * of its dates: the last of them is still a representable date.
   */
  lemma MonthEndInRange(d: Date)
    requires Valid(d) && MonthIndex(d) < MaxYear * 12 + 11
    ensures Ordinal(d) + MonthDays(d) - 1 <= MaxOrdinal
  {
    MonthStep(d.year, d.month);
    YearStep(d.year);
    assert DaysBeforeYear(MaxYear + 1) == MaxOrdinal;
    if d.month < 12 {
      MonthStep(d.year, 12);
      assert DaysBeforeMonth(d.year, d.month) + MonthDays(d) <= DaysBeforeMonth(d.year, 12);
      DaysBeforeYearMonotone(d.year + 1, MaxYear + 1);
    } else {
      YearStep(d.year + 1);
      DaysBeforeYearMonotone(d.year + 2, MaxYear + 1);
    }
  }

  /** Two dates in the same calendar month have the same year and month. */
  lemma MonthIndexInjective(a: Date, b: Date)
    requires 1 <= a.month <= 12 && 1 <= b.month <= 12
    requires MonthIndex(a) == MonthIndex(b)
    ensures a.year == b.year && a.month == b.month
  {
  }

  /**
   * Month steps compose as long as the first step does not clamp the day:
   * `add_months(add_months(d, a), b) == add_months(d, a + b)`.
   */
  lemma {:induction false} AddMonthsCompose(d: Date, a: int, b: int)
    requires Valid(d) && AddMonths(d, a).Some?
    requires d.day == AddMonths(d, a).value.day
    ensures AddMonths(AddMonths(d, a).value, b) == AddMonths(d, a + b)
  {
    var mid := AddMonths(d, a).value;
    var lhs := AddMonths(mid, b);
    var rhs := AddMonths(d, a + b);
    assert lhs.Some? == rhs.Some?;
    if lhs.Some? {
      MonthIndexInjective(lhs.value, rhs.value);
    }
  }

  /**
   * Where the next settlement period starts relative to the current one: a
   * period starting on `d` accrues `MonthDays(d)` daily entries dated `d`,
   * `d + 1`, ..., and the next period starts `add_months(d, 1)`.  The next start
   * falls exactly one day after the last entry unless the day was clamped, in
   * which case it falls earlier by the number of days clamped away.
   */
  lemma {:induction false} NextPeriodStart(d: Date)
    requires Valid(d) && NextMonth(d).Some?
    ensures Ordinal(NextMonth(d).value) + (d.day - NextMonth(d).value.day) == Ordinal(d) + MonthDays(d)
  {
    MonthStep(d.year, d.month);
    if d.month == 12 {
      YearStep(d.year);
    }
  }
}
