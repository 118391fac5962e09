/** The proleptic Gregorian calendar as datetime counts it: day 1 is 1 January of year 1. */
module Calendar {

  datatype Date = Date(year: int, month: int, day: int)

  predicate IsLeap(y: int) {
    y % 4 == 0 && (y % 100 != 0 || y % 400 == 0)
  }

  /** Days of a month in a year that is not a leap year. */
  function CommonDays(month: int): int {
    if month == 2 then 28 else if month == 4 || month == 6 || month == 9 || month == 11 then 30 else 31
  }

  function DaysIn(year: int, month: int): int {
    if month == 2 && IsLeap(year) then 29 else CommonDays(month)
  }

  predicate IsDate(d: Date) {
    d.year >= 1 && 1 <= d.month <= 12 && 1 <= d.day <= DaysIn(d.year, d.month)
  }

  function NextDate(d: Date): Date {
    if d.day < DaysIn(d.year, d.month) then d.(day := d.day + 1)
    else if d.month < 12 then Date(d.year, d.month + 1, 1)
    else Date(d.year + 1, 1, 1)
  }

  function DaysBeforeYear(year: int): int {
    (year - 1) * 365 + (year - 1) / 4 - (year - 1) / 100 + (year - 1) / 400
  }

  function DaysBeforeMonth(year: int, month: int): int
    decreases month
  {
    if month <= 1 then 0 else DaysBeforeMonth(year, month - 1) + DaysIn(year, month - 1)
  }

  /** date.toordinal() */
  function Ordinal(d: Date): int {
    DaysBeforeYear(d.year) + DaysBeforeMonth(d.year, d.month) + d.day
  }

  /** date.fromordinal(n), as n - 1 days after 1 January of year 1. */
  function DateOf(n: int): Date
    decreases n
  {
    if n <= 1 then Date(1, 1, 1) else NextDate(DateOf(n - 1))
  }

  lemma YearLength(year: int)
    ensures DaysBeforeMonth(year, 12) + DaysIn(year, 12) == if IsLeap(year) then 366 else 365
    ensures DaysBeforeYear(year + 1) == DaysBeforeYear(year) + if IsLeap(year) then 366 else 365
  {
    LeapSteps(year);
    assert DaysBeforeMonth(year, 3) == DaysIn(year, 1) + DaysIn(year, 2);
    assert DaysBeforeMonth(year, 5) == DaysBeforeMonth(year, 3) + 61;
    assert DaysBeforeMonth(year, 7) == DaysBeforeMonth(year, 5) + 61;
    assert DaysBeforeMonth(year, 9) == DaysBeforeMonth(year, 7) + 62;
    assert DaysBeforeMonth(year, 11) == DaysBeforeMonth(year, 9) + 61;
  }

  lemma LeapSteps(year: int)
    ensures DaysBeforeYear(year + 1) == DaysBeforeYear(year) + if IsLeap(year) then 366 else 365
  {
    QuotientSteps(year, 4);
    QuotientSteps(year, 100);
    QuotientSteps(year, 400);
    CenturyIsFourth(year);
    FourthCenturyIsCentury(year);
    assert DaysBeforeYear(year + 1) - DaysBeforeYear(year)
        == 365 + (year / 4 - (year - 1) / 4) - (year / 100 - (year - 1) / 100) + (year / 400 - (year - 1) / 400);
  }

  lemma CenturyIsFourth(n: int)
    ensures n % 100 == 0 ==> n % 4 == 0
  {
    assert n == 100 * (n / 100) + n % 100;
  }

  lemma FourthCenturyIsCentury(n: int)
    ensures n % 400 == 0 ==> n % 100 == 0
  {
    assert n == 400 * (n / 400) + n % 400;
  }

  lemma QuotientSteps(n: int, k: int)
    requires k == 4 || k == 100 || k == 400
    ensures n / k == (n - 1) / k + if n % k == 0 then 1 else 0
  {
  }

  lemma NextDateOrdinal(d: Date)
    requires IsDate(d)
    ensures IsDate(NextDate(d)) && Ordinal(NextDate(d)) == Ordinal(d) + 1
  {
    YearLength(d.year);
  }

  /** Every ordinal is the ordinal of the date it denotes. */
  lemma {:induction false} OrdinalOfDate(n: int)
    requires n >= 1
    ensures IsDate(DateOf(n)) && Ordinal(DateOf(n)) == n
  {
    if n > 1 {
      OrdinalOfDate(n - 1);
      NextDateOrdinal(DateOf(n - 1));
    }
  }

  lemma {:induction false} YearStarts(y: int, z: int)
    requires y <= z
    ensures DaysBeforeYear(y) + 365 * (z - y) <= DaysBeforeYear(z) <= DaysBeforeYear(y) + 366 * (z - y)
    decreases z - y
  {
    if y < z {
      YearStarts(y, z - 1);
      YearLength(z - 1);
    }
  }

  lemma {:induction false} MonthStarts(year: int, m: int, n: int)
    requires 1 <= m < n <= 13
    ensures DaysBeforeMonth(year, m) + DaysIn(year, m) <= DaysBeforeMonth(year, n)
    decreases n - m
  {
    if m + 1 < n {
      MonthStarts(year, m, n - 1);
    }
  }

  lemma DayOfYear(d: Date)
    requires IsDate(d)
    ensures 1 <= Ordinal(d) - DaysBeforeYear(d.year) <= DaysBeforeYear(d.year + 1) - DaysBeforeYear(d.year)
  {
    YearLength(d.year);
    MonthStarts(d.year, d.month, 13);
    if d.month > 1 {
      MonthStarts(d.year, 1, d.month);
    }
  }

  /** Two dates with one ordinal are one date. */
  lemma OrdinalInjective(a: Date, b: Date)
    requires IsDate(a) && IsDate(b) && Ordinal(a) == Ordinal(b)
    ensures a == b
  {
    if a.year < b.year { EarlierYear(a, b); }
    if b.year < a.year { EarlierYear(b, a); }
    if a.year == b.year && a.month < b.month { EarlierMonth(a, b); }
    if a.year == b.year && b.month < a.month { EarlierMonth(b, a); }
  }

  lemma EarlierYear(a: Date, b: Date)
    requires IsDate(a) && IsDate(b) && a.year < b.year
    ensures Ordinal(a) < Ordinal(b)
  {
    DayOfYear(a);
    DayOfYear(b);
    YearStarts(a.year + 1, b.year);
  }

  lemma EarlierMonth(a: Date, b: Date)
    requires IsDate(a) && IsDate(b) && a.year == b.year && a.month < b.month
    ensures Ordinal(a) < Ordinal(b)
  {
    MonthStarts(a.year, a.month, b.month);
  }

  /** The calendar is a bijection between dates and ordinals. */
  lemma DateOfOrdinal(d: Date)
    requires IsDate(d)
    ensures Ordinal(d) >= 1 && DateOf(Ordinal(d)) == d
  {
    DayOfYear(d);
    YearStarts(1, d.year);
    OrdinalOfDate(Ordinal(d));
    OrdinalInjective(DateOf(Ordinal(d)), d);
  }

  /** The closed form: a day number from the year, the month and the day, without counting. */
  function DayNumber(d: Date): int {
    365 * (d.year - 1) + (d.year - 1) / 4 - (d.year - 1) / 100 + (d.year - 1) / 400
    + (367 * d.month - 362) / 12 - (if d.month <= 2 then 0 else if IsLeap(d.year) then 1 else 2) + d.day
  }

  lemma {:induction false} MonthsCounted(year: int, month: int)
    requires 1 <= month <= 12
    ensures DaysBeforeMonth(year, month)
      == (367 * month - 362) / 12 - if month <= 2 then 0 else if IsLeap(year) then 1 else 2
    decreases month
  {
    if month > 1 {
      MonthsCounted(year, month - 1);
    }
  }

  lemma SameNumber(d: Date)
    requires IsDate(d)
    ensures DayNumber(d) == Ordinal(d)
  {
    MonthsCounted(d.year, d.month);
  }

  /** The date found by counting days from 1 January of year 1 is the one whose day number, by the closed
      form, is the number of days counted. */
  lemma CountedDate(n: int)
    requires n >= 1
    ensures IsDate(DateOf(n)) && DayNumber(DateOf(n)) == n
  {
    OrdinalOfDate(n);
    SameNumber(DateOf(n));
  }
}
