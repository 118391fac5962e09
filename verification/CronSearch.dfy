/** When the five-year search for the next match succeeds. */
module CronSearch {
  import opened Decimal
  import opened Calendar
  import opened Cron
  import opened CronFields

  /** A day the date fields name in every year; a restricted weekday added to a restricted day of
      the month always names one. */
  ghost predicate Yearly(e: CronExpr) {
    e.dayUnion || exists m, d :: m in e.months && d in e.days && d <= CommonDays(m)
  }

  function At(d: Date, hour: int, minute: int): int {
    Ordinal(d) * 1440 + hour * 60 + minute
  }

  lemma ClockParts(day: int, hour: int, minute: int)
    requires 0 <= hour <= 23 && 0 <= minute <= 59
    ensures var t := day * 1440 + hour * 60 + minute;
      t / 1440 == day && t % 60 == minute && (t % 1440) / 60 == hour
  {
    var t := day * 1440 + hour * 60 + minute;
    assert t / 1440 == day && t % 1440 == hour * 60 + minute;
    assert t == 60 * (day * 24 + hour) + minute;
  }

  lemma AtParts(d: Date, hour: int, minute: int)
    requires IsDate(d) && 0 <= hour <= 23 && 0 <= minute <= 59
    ensures var t := At(d, hour, minute);
      t / 1440 == Ordinal(d) && DateAt(t) == d && t % 60 == minute && (t % 1440) / 60 == hour
  {
    ClockParts(Ordinal(d), hour, minute);
    assert DateOf(Ordinal(d)) == d by { DateOfOrdinal(d); }
    OnDay(At(d, hour, minute), Ordinal(d), d);
  }

  lemma OnDay(t: int, day: int, d: Date)
    requires t / 1440 == day && DateOf(day) == d
    ensures DateAt(t) == d
  {
  }

  predicate DateFits(e: CronExpr, d: Date) {
    var weekday := ((Ordinal(d) + 6) % 7 + 1) % 7;
    d.month in e.months
    && if e.dayUnion then d.day in e.days || weekday in e.weekdays else d.day in e.days && weekday in e.weekdays
  }

  /** A fitting date within the coming four years and a bit is found. */
  lemma FoundSoon(e: CronExpr, after: int, d: Date)
    requires WellFormed(e) && after >= FIRST && IsDate(d) && DateFits(e, d)
    requires DateAt(after).year < d.year <= DateAt(after).year + 4
    requires d.year == DateAt(after).year + 4 ==> d.month <= 2
    ensures NextMatch(e, after).Some?
  {
    var hour :| hour in e.hours;
    var minute :| minute in e.minutes;
    OrdinalOfDate(after / 1440);
    FitMatches(e, d, hour, minute);
    WithinWindow(after, DateAt(after), d, hour, minute);
    FoundIf(e, after, At(d, hour, minute));
  }

  lemma FitMatches(e: CronExpr, d: Date, hour: int, minute: int)
    requires WellFormed(e) && IsDate(d) && DateFits(e, d) && hour in e.hours && minute in e.minutes
    ensures Matches(e, At(d, hour, minute))
  {
    AtParts(d, hour, minute);
    PartsMatch(e, At(d, hour, minute), d, hour, minute);
  }

  lemma PartsMatch(e: CronExpr, t: int, d: Date, hour: int, minute: int)
    requires DateFits(e, d) && hour in e.hours && minute in e.minutes
    requires t / 1440 == Ordinal(d) && DateAt(t) == d && t % 60 == minute && (t % 1440) / 60 == hour
    ensures Matches(e, t)
  {
  }

  lemma FoundIf(e: CronExpr, after: int, t: int)
    requires after < t <= after + SEARCH && Matches(e, t)
    ensures NextMatch(e, after).Some?
  {
    NextMatchIsLeast(e, after);
  }

  lemma WithinWindow(after: int, today: Date, d: Date, hour: int, minute: int)
    requires IsDate(today) && IsDate(d) && Ordinal(today) == after / 1440
    requires 0 <= hour <= 23 && 0 <= minute <= 59
    requires today.year < d.year <= today.year + 4 && (d.year == today.year + 4 ==> d.month <= 2)
    ensures after < At(d, hour, minute) <= after + SEARCH
  {
    EarlierYear(today, d);
    DistanceBound(today, d);
    assert 1440 * (after / 1440) <= after < 1440 * (after / 1440) + 1440;
  }

  lemma DistanceBound(a: Date, b: Date)
    requires IsDate(a) && IsDate(b) && a.year < b.year <= a.year + 4
    requires b.year == a.year + 4 ==> b.month <= 2
    ensures Ordinal(b) - Ordinal(a) < 5 * 366 - 1
  {
    DayOfYear(a);
    DayOfYear(b);
    YearLength(b.year);
    YearStarts(a.year, b.year);
  }

  /** Every month holds every weekday in its first week. */
  lemma FirstWeek(year: int, month: int, weekday: int) returns (d: Date)
    requires year >= 1 && 1 <= month <= 12 && 0 <= weekday <= 6
    ensures IsDate(d) && d.year == year && d.month == month && ((Ordinal(d) + 6) % 7 + 1) % 7 == weekday
  {
    var first := Ordinal(Date(year, month, 1));
    var shift := (weekday - first) % 7;
    d := Date(year, month, 1 + shift);
    assert Ordinal(d) == first + shift;
    ShiftToWeekday(first, weekday, shift);
  }

  lemma ShiftToWeekday(first: int, weekday: int, shift: int)
    requires 0 <= weekday <= 6 && shift == (weekday - first) % 7
    ensures ((first + shift + 6) % 7 + 1) % 7 == weekday
  {
    var weeks := (weekday - first) / 7;
    assert weekday - first == 7 * weeks + shift;
    assert first + shift + 6 == 7 * -weeks + (weekday + 6);
    if weekday == 0 {
      assert (first + shift + 6) % 7 == 6;
    } else {
      assert first + shift + 6 == 7 * (1 - weeks) + (weekday - 1);
      assert (first + shift + 6) % 7 == weekday - 1;
    }
  }

  lemma WeekdayResolves(e: CronExpr, after: int, month: int, weekday: int)
    requires WellFormed(e) && after >= FIRST && (e.dayUnion || AnyDay(e))
    requires month in e.months && weekday in e.weekdays
    ensures NextMatch(e, after).Some?
  {
    OrdinalOfDate(after / 1440);
    var d := FirstWeek(DateAt(after).year + 1, month, weekday);
    FoundSoon(e, after, d);
  }

  lemma DateResolves(e: CronExpr, after: int, month: int, day: int)
    requires WellFormed(e) && after >= FIRST && !e.dayUnion && AnyWeekday(e)
    requires month in e.months && day in e.days && day <= CommonDays(month)
    ensures NextMatch(e, after).Some?
  {
    OrdinalOfDate(after / 1440);
    FoundSoon(e, after, Date(DateAt(after).year + 1, month, day));
  }

  lemma YearlyResolves(e: CronExpr, after: int)
    requires WellFormed(e) && Yearly(e) && after >= FIRST
    ensures NextMatch(e, after).Some?
  {
    if e.dayUnion || AnyDay(e) {
      var month :| month in e.months;
      var weekday :| weekday in e.weekdays;
      WeekdayResolves(e, after, month, weekday);
    } else {
      var month, day :| month in e.months && day in e.days && day <= CommonDays(month);
      DateResolves(e, after, month, day);
    }
  }

  /** Without such a day, every match is a leap day. */
  lemma OnlyLeapDays(e: CronExpr, t: int)
    requires WellFormed(e) && !Yearly(e) && t >= FIRST && Matches(e, t)
    ensures DateAt(t).month == 2 && DateAt(t).day == 29 && IsLeap(DateAt(t).year) && IsDate(DateAt(t))
  {
    OrdinalOfDate(t / 1440);
    assert DateAt(t).month in e.months && DateAt(t).day in e.days;
  }

  /** The last minute of 29 February 2096: the next leap day is eight years away. */
  const LAST_BEFORE_GAP := At(Date(2096, 3, 1), 0, 0) - 1

  /** The first minute of that day. */
  const LEAP_AFTER_GAP := At(Date(2104, 2, 29), 0, 0)

  lemma NoLeapDayInGap(d: Date)
    requires IsDate(d) && d.month == 2 && d.day == 29 && IsLeap(d.year)
    ensures Ordinal(d) < Ordinal(Date(2096, 3, 1)) || Ordinal(d) >= Ordinal(Date(2104, 2, 29))
  {
    var march := Date(2096, 3, 1);
    if d.year < 2096 {
      EarlierYear(d, march);
    } else if d.year == 2096 {
      EarlierMonth(d, march);
    } else {
      assert d.year >= 2104;
      DayOfYear(d);
      YearStarts(2104, d.year);
    }
  }

  /** In the gap no search finds anything, up to five years before the leap day that ends it. */
  lemma SearchFailsInGap(e: CronExpr, after: int)
    requires WellFormed(e) && !Yearly(e) && LAST_BEFORE_GAP <= after && after + SEARCH < LEAP_AFTER_GAP
    ensures NextMatch(e, after).None?
  {
    forall t | after < t <= after + SEARCH ensures !Matches(e, t) {
      if Matches(e, t) {
        OnlyLeapDays(e, t);
        NoLeapDayInGap(DateAt(t));
        OrdinalOfDate(t / 1440);
      }
    }
    NextMatchIsLeast(e, after);
  }

  lemma LeapDaysFail(e: CronExpr)
    requires WellFormed(e) && !Yearly(e)
    ensures LAST_BEFORE_GAP >= FIRST && NextMatch(e, LAST_BEFORE_GAP).None?
  {
    SearchFailsInGap(e, LAST_BEFORE_GAP);
  }

  /** A parsed expression resolves from every moment exactly when it names a day every year has. */
  lemma AlwaysResolvesExactly(e: CronExpr)
    requires WellFormed(e)
    ensures (forall after :: after >= FIRST ==> NextMatch(e, after).Some?) <==> Yearly(e)
  {
    if Yearly(e) {
      forall after | after >= FIRST ensures NextMatch(e, after).Some? {
        YearlyResolves(e, after);
      }
    } else {
      LeapDaysFail(e);
    }
  }

  /** A plain date at a plain time, on any weekday. */
  predicate PlainDate(f: seq<string>) {
    |f| == 5 && IsDigits(f[0]) && IsDigits(f[1]) && IsDigits(f[2]) && IsDigits(f[3]) && f[4] == "*"
    && ReadNat(f[0]) <= 59 && ReadNat(f[1]) <= 23 && 1 <= ReadNat(f[2]) <= 31 && 1 <= ReadNat(f[3]) <= 12
  }

  lemma PlainDateFields(f: seq<string>, raw: string)
    requires PlainDate(f)
    ensures ParseFields(f, raw).Some?
    ensures var e := ParseFields(f, raw).value; e.days == {ReadNat(f[2])} && e.months == {ReadNat(f[3])} && !e.dayUnion
  {
    DigitsField(f[0], 0, 59);
    DigitsField(f[1], 0, 23);
    DigitsField(f[2], 1, 31);
    DigitsField(f[3], 1, 12);
    StarField(0, 7);
  }

  /** A plain date always resolves exactly when every year has it. */
  lemma PlainDateExactly(f: seq<string>, raw: string)
    requires PlainDate(f)
    ensures ParseFields(f, raw).Some?
    ensures (forall after :: after >= FIRST ==> NextMatch(ParseFields(f, raw).value, after).Some?)
      <==> ReadNat(f[2]) <= CommonDays(ReadNat(f[3]))
  {
    PlainDateFields(f, raw);
    ParsedIsWellFormed(f, raw);
    AlwaysResolvesExactly(ParseFields(f, raw).value);
  }

  lemma LeapDayNumbers(day: string, month: string)
    requires day == "29" && month == "2"
    ensures IsDigits(day) && ReadNat(day) == 29 && IsDigits(month) && ReadNat(month) == 2
  {
    assert day[..1] == "2" && ReadNat("2") == 2;
  }

  lemma LeapDayLiteral(text: string)
    requires text == "0 0 29 2 *"
    ensures FiveFields("0", "0", "29", "2", "*") == text
  {
  }

  lemma LeapDaySplit(text: string, zero: string, day: string, month: string, star: string)
    requires zero == "0" && day == "29" && month == "2" && star == "*"
    requires text == FiveFields(zero, zero, day, month, star)
    ensures ParseCron(text) == ParseFields([zero, zero, day, month, star], text)
  {
    FieldsOfFive(zero, zero, day, month, star);
    ParsesPlainly(text);
  }

  /** The text "0 0 29 2 *" is accepted, and has no next time after the last minute before the gap. */
  lemma LeapDayText(text: string)
    requires text == "0 0 29 2 *"
    ensures ParseCron(text).Some? && !Yearly(ParseCron(text).value)
    ensures NextMatch(ParseCron(text).value, LAST_BEFORE_GAP).None?
  {
    LeapDayLiteral(text);
    LeapDaySplit(text, "0", "29", "2", "*");
    LeapDayNumbers("29", "2");
    var fields := ["0", "0", "29", "2", "*"];
    assert IsDigits("0") && ReadNat("0") == 0;
    PlainDateFields(fields, text);
    ParsedIsWellFormed(fields, text);
    LeapDaysFail(ParseCron(text).value);
  }

  /** A leap-day expression still resolves whenever one of the next four years is a leap year; 2096
      to 2099 are the years nearest to ours that have none. */
  lemma LeapDayResolves(e: CronExpr, after: int, leap: int)
    requires WellFormed(e) && !e.dayUnion && AnyWeekday(e) && 2 in e.months && 29 in e.days && after >= FIRST
    requires IsLeap(leap) && DateAt(after).year < leap <= DateAt(after).year + 4
    ensures NextMatch(e, after).Some?
  {
    OrdinalOfDate(after / 1440);
    FoundSoon(e, after, Date(leap, 2, 29));
  }
}
