/** Plain words and cron agree: a sentence means the minutes its cron text matches, and reading the
    sentence back gives the same schedule again. */
module PlainWords {
  import opened Decimal
  import opened Options
  import opened Strings
  import opened Calendar
  import opened Cron
  import opened CronFields
  import opened Phrases

  // ---- A list of days ----------------------------------------------------------------------

  lemma {:induction false} SplitDayList(dow: string)
    requires IsDayList(dow)
    ensures var words := Split(dow, ',');
      |words| == (|dow| + 1) / 2 && forall k :: 0 <= k < |words| ==> words[k] == [dow[2 * k]]
    decreases |dow|
  {
    if |dow| == 1 {
      assert Find(dow, ',') == 1;
    } else {
      assert dow[1] == ',' && dow[0] != ',';
      assert Find(dow, ',') == 1 && dow[..1] == [dow[0]];
      var rest := dow[2..];
      assert forall i :: 0 <= i < |rest| ==> rest[i] == dow[i + 2];
      SplitDayList(rest);
    }
  }

  function DayDigit(dow: string, k: nat): int
    requires 2 * k < |dow|
  {
    dow[2 * k] as int - '0' as int
  }

  lemma DayPart(c: char)
    requires '0' <= c <= '7'
    ensures ParsePart([c], 0, 7) == Some(Part(c as int - '0' as int, c as int - '0' as int, 1))
  {
    DigitsPart([c], 0, 7);
  }

  lemma ListedParts(dow: string)
    requires IsDayList(dow)
    ensures var parts := ParseParts(Split(dow, ','), 0, 7);
      |parts| == (|dow| + 1) / 2
      && forall k :: 0 <= k < |parts| ==> parts[k] == Some(Part(DayDigit(dow, k), DayDigit(dow, k), 1))
  {
    SplitDayList(dow);
    var words := Split(dow, ',');
    forall k | 0 <= k < |words| ensures ParsePart(words[k], 0, 7) == Some(Part(DayDigit(dow, k), DayDigit(dow, k), 1)) {
      ListedPart(dow, words[k], k);
    }
  }

  lemma ListedPart(dow: string, word: string, k: nat)
    requires IsDayList(dow) && 2 * k < |dow| && word == [dow[2 * k]]
    ensures ParsePart(word, 0, 7) == Some(Part(DayDigit(dow, k), DayDigit(dow, k), 1))
  {
    assert (2 * k) % 2 == 0;
    DayPart(dow[2 * k]);
  }

  lemma Single(n: int, d: int)
    ensures Denotes(Some(Part(d, d, 1)), n) <==> n == d
  {
  }

  /** A list of days denotes the days it lists, 7 being Sunday too. */
  lemma DayListField(dow: string)
    requires IsDayList(dow)
    ensures FieldSet(dow, 0, 7).Some? && SundayAsZero(FieldSet(dow, 0, 7).value) == ListedDays(dow)
  {
    var parts := ParseParts(Split(dow, ','), 0, 7);
    ListedParts(dow);
    FieldMeaning(dow, 0, 7);
    assert None !in parts;
    var days := FieldSet(dow, 0, 7).value;
    forall n ensures n in days <==> exists k :: 0 <= k < |parts| && DayDigit(dow, k) == n {
      ListedNumber(dow, parts, n);
    }
    DaysModulo(dow, days, |parts|);
  }

  lemma ListedNumber(dow: string, parts: seq<Option<Range>>, n: int)
    requires |parts| == (|dow| + 1) / 2 && IsDayList(dow)
    requires forall k :: 0 <= k < |parts| ==> parts[k] == Some(Part(DayDigit(dow, k), DayDigit(dow, k), 1))
    ensures (exists p :: p in parts && Denotes(p, n)) <==> exists k :: 0 <= k < |parts| && DayDigit(dow, k) == n
  {
    if p :| p in parts && Denotes(p, n) {
      var k :| 0 <= k < |parts| && parts[k] == p;
      Single(n, DayDigit(dow, k));
    }
    if k :| 0 <= k < |parts| && DayDigit(dow, k) == n {
      Single(n, n);
      assert parts[k] in parts;
    }
  }

  lemma DaysModulo(dow: string, days: set<int>, count: nat)
    requires IsDayList(dow) && count == (|dow| + 1) / 2
    requires forall n :: n in days <==> exists k :: 0 <= k < count && DayDigit(dow, k) == n
    ensures SundayAsZero(days) == ListedDays(dow)
  {
    forall d | d in SundayAsZero(days) ensures d in ListedDays(dow) {
      var n :| n in days && d == if n == 7 then 0 else n;
      var k :| 0 <= k < count && DayDigit(dow, k) == n;
      assert (2 * k) % 2 == 0 && '0' <= dow[2 * k] <= '7';
    }
    forall d | d in ListedDays(dow) ensures d in SundayAsZero(days) {
      var i :| 0 <= i < |dow| && i % 2 == 0 && d == (dow[i] as int - '0' as int) % 7;
      assert i == 2 * (i / 2) && '0' <= dow[i] <= '7';
      assert DayDigit(dow, i / 2) in days;
    }
  }

  // ---- What a sentence means ---------------------------------------------------------------

  function EveryWeekday(): set<int> {
    {0, 1, 2, 3, 4, 5, 6}
  }

  /** The days of the week a sentence speaks of, Sunday being 0. */
  function DaysOf(s: Sentence): set<int>
    requires !s.Custom?
  {
    match s
    case Hourly(_) => EveryWeekday()
    case Daily(_, _) => EveryWeekday()
    case Weekdays(_, _) => {1, 2, 3, 4, 5}
    case OnDays(days, _, _) => DaySet(days)
  }

  /** The sentence is true of the minute `t`. */
  predicate TrueOf(s: Sentence, t: int)
    requires !s.Custom?
  {
    if s.Hourly? then t % 60 == s.minute
    else t % 1440 == s.hour * 60 + s.minute && CronWeekday(t) in DaysOf(s)
  }

  /** The fields of a cron expression that says what the sentence says. */
  ghost predicate Says(e: CronExpr, s: Sentence)
    requires !s.Custom?
  {
    && e.minutes == {s.minute}
    && (if s.Hourly? then Full(e.hours, 0, 23) else e.hours == {s.hour} && 0 <= s.hour < 24)
    && Full(e.days, 1, 31) && Full(e.months, 1, 12) && e.weekdays == DaysOf(s)
    && !e.dayUnion && 0 <= s.minute < 60
  }

  lemma StarIsEveryWeekday()
    ensures FieldSet("*", 0, 7).Some? && SundayAsZero(FieldSet("*", 0, 7).value) == EveryWeekday()
  {
    StarField(0, 7);
    var days := FieldSet("*", 0, 7).value;
    forall d | d in EveryWeekday() ensures d in SundayAsZero(days) {
      assert d in days;
    }
  }

  /** The weekday field of a sentence. */
  predicate WeekField(dow: string, s: Sentence)
    requires !s.Custom?
  {
    match s
    case Hourly(_) => dow == "*"
    case Daily(_, _) => dow == "*"
    case Weekdays(_, _) => dow == "1-5" || dow == "1,2,3,4,5"
    case OnDays(days, _, _) => IsDayList(dow) && days == WeekFrom(1, ListedDays(dow), 0)
  }

  lemma OneToFive(dow: string)
    requires dow == "1,2,3,4,5"
    ensures IsDayList(dow) && ListedDays(dow) == {1, 2, 3, 4, 5}
  {
    assert |dow| == 9;
    assert dow[0] == '1' && dow[2] == '2' && dow[4] == '3' && dow[6] == '4' && dow[8] == '5';
    forall d ensures d in ListedDays(dow) <==> d in {1, 2, 3, 4, 5} {
      if d in {1, 2, 3, 4, 5} {
        assert 0 <= 2 * (d - 1) < |dow| && (2 * (d - 1)) % 2 == 0;
        assert dow[2 * (d - 1)] as int - '0' as int == d;
      }
    }
  }

  lemma InOrderSet(from: int, days: set<int>)
    requires 0 <= from <= 6 && forall d :: d in days ==> 0 <= d <= 6
    ensures DaySet(WeekFrom(from, days, 0)) == days
  {
    WeekFromWithin(from, days, 0);
    forall d | d in days ensures d in WeekFrom(from, days, 0) {
      WeekFromExactly(from, days, d);
    }
  }

  lemma WeekFieldDays(dow: string, s: Sentence)
    requires !s.Custom? && WeekField(dow, s)
    ensures FieldSet(dow, 0, 7).Some? && SundayAsZero(FieldSet(dow, 0, 7).value) == DaysOf(s)
  {
    match s
    case Hourly(_) => StarIsEveryWeekday();
    case Daily(_, _) => StarIsEveryWeekday();
    case Weekdays(_, _) =>
      if dow == "1-5" {
        RangeField(dow);
      } else {
        OneToFive(dow);
        DayListField(dow);
      }
    case OnDays(days, _, _) =>
      DayListField(dow);
      InOrderSet(1, ListedDays(dow));
  }

  lemma ReadingFields(f: seq<string>, raw: string)
    requires Fields(raw) == f && !Reading(raw).Custom?
    ensures |f| == 5 && f[2] == "*" && f[3] == "*" && WeekField(f[4], Reading(raw))
    ensures IsDigits(f[0]) && Reading(raw).minute == ReadNat(f[0])
    ensures if Reading(raw).Hourly? then f[1] == "*" else IsDigits(f[1]) && Reading(raw).hour == ReadNat(f[1])
  {
  }

  /** An accepted cron text whose sentence is not the custom one has exactly the fields the sentence
      speaks of; a text of that shape is accepted when its hour and minute exist. */
  lemma ReadingSays(f: seq<string>, raw: string)
    requires Fields(raw) == f && !Reading(raw).Custom?
    ensures ParseFields(f, raw).Some?
      <==> Reading(raw).minute < 60 && (Reading(raw).Hourly? || Reading(raw).hour < 24)
    ensures ParseFields(f, raw).Some? ==> Says(ParseFields(f, raw).value, Reading(raw))
  {
    ReadingFields(f, raw);
    DigitsField(f[0], 0, 59);
    if Reading(raw).Hourly? { StarField(0, 23); } else { DigitsField(f[1], 0, 23); }
    StarField(1, 31);
    StarField(1, 12);
    WeekFieldDays(f[4], Reading(raw));
  }

  lemma MinuteOfDay(t: int, hour: int, minute: int)
    requires 0 <= minute < 60
    ensures t % 60 == minute && (t % 1440) / 60 == hour <==> t % 1440 == hour * 60 + minute
  {
    MinuteInDay(t, t % 1440);
    HourAndMinute(t % 1440, hour, minute);
  }

  lemma MinuteInDay(t: int, clock: int)
    requires clock == t % 1440
    ensures t % 60 == clock % 60
  {
    assert t == 60 * (24 * (t / 1440) + clock / 60) + clock % 60;
    Remainder(t, 60, 24 * (t / 1440) + clock / 60, clock % 60);
  }

  lemma HourAndMinute(clock: int, hour: int, minute: int)
    requires 0 <= minute < 60
    ensures clock % 60 == minute && clock / 60 == hour <==> clock == hour * 60 + minute
  {
  }

  lemma AnyDate(e: CronExpr, t: int)
    requires Full(e.days, 1, 31) && Full(e.months, 1, 12) && !e.dayUnion && t >= FIRST
    ensures DateCouldMatch(e, t) <==> CronWeekday(t) in e.weekdays
  {
    OrdinalOfDate(t / 1440);
    assert IsDate(DateAt(t));
    assert DateAt(t).day in e.days && DateAt(t).month in e.months;
  }

  lemma HourInRange(t: int)
    ensures 0 <= (t % 1440) / 60 <= 23
  {
  }

  lemma WeekdayInRange(t: int)
    ensures CronWeekday(t) in EveryWeekday()
  {
  }

  lemma SaysMeaning(e: CronExpr, s: Sentence, t: int)
    requires !s.Custom? && Says(e, s) && t >= FIRST
    ensures Matches(e, t) <==> TrueOf(s, t)
  {
    AnyDate(e, t);
    if s.Hourly? {
      HourInRange(t);
      WeekdayInRange(t);
    } else {
      MinuteOfDay(t, s.hour, s.minute);
    }
  }

  lemma ParsedFromRaw(expression: string)
    requires ParseCron(expression).Some?
    ensures var e := ParseCron(expression).value; ParseFields(Fields(e.raw), e.raw) == Some(e)
  {
  }

  /** Any sentence but the custom one, for an accepted cron text, is true of exactly the minutes the
      cron text matches. */
  lemma SentenceIsTrue(expression: string, t: int)
    requires ParseCron(expression).Some? && t >= FIRST
    ensures var e := ParseCron(expression).value;
      !Reading(e.raw).Custom? ==> (Matches(e, t) <==> TrueOf(Reading(e.raw), t))
  {
    var e := ParseCron(expression).value;
    ParsedFromRaw(expression);
    if !Reading(e.raw).Custom? {
      ReadingSays(Fields(e.raw), e.raw);
      SaysMeaning(e, Reading(e.raw), t);
    }
  }

  // ---- Which cron texts have a sentence ----------------------------------------------------

  predicate AreDigits(days: seq<nat>) {
    forall i :: 0 <= i < |days| ==> days[i] <= 7
  }

  /** Single digits with commas between them. */
  function DigitList(days: seq<nat>): string
    requires days != [] && AreDigits(days)
  {
    if |days| == 1 then [Digit(days[0])] else [Digit(days[0]), ','] + DigitList(days[1..])
  }

  ghost predicate IsDigitList(dow: string) {
    exists days :: IsListOf(dow, days)
  }

  predicate IsListOf(dow: string, days: seq<nat>) {
    days != [] && AreDigits(days) && dow == DigitList(days)
  }

  lemma OneMoreDay(first: string, rest: string)
    requires |first| == 2 && '0' <= first[0] <= '7' && first[1] == ',' && IsDayList(rest)
    ensures IsDayList(first + rest)
  {
    var dow := first + rest;
    forall i | 0 <= i < |dow| ensures if i % 2 == 0 then '0' <= dow[i] <= '7' else dow[i] == ',' {
      if i >= 2 {
        assert dow[i] == rest[i - 2] && (i - 2) % 2 == i % 2;
      }
    }
  }

  lemma {:induction false} ListIsDayList(days: seq<nat>)
    requires days != [] && AreDigits(days)
    ensures IsDayList(DigitList(days))
  {
    if |days| > 1 {
      ListIsDayList(days[1..]);
      OneMoreDay([Digit(days[0]), ','], DigitList(days[1..]));
    }
  }

  lemma {:induction false} DayListIsList(dow: string) returns (days: seq<nat>)
    requires IsDayList(dow)
    ensures IsListOf(dow, days)
    decreases |dow|
  {
    var first: nat := dow[0] as int - '0' as int;
    if |dow| == 1 {
      days := [first];
      assert dow == [dow[0]];
    } else {
      assert forall i :: 0 <= i < |dow[2..]| ==> dow[2..][i] == dow[i + 2] && (i + 2) % 2 == i % 2;
      var rest := DayListIsList(dow[2..]);
      days := [first] + rest;
      assert days[1..] == rest && dow == [dow[0], dow[1]] + dow[2..];
    }
  }

  /** The five fields a sentence can be made for: any day and month, a plain minute, and either any hour
      of any day, or a plain hour of any day, of Monday to Friday, or of listed days. */
  ghost predicate HasSentence(f: seq<string>) {
    |f| == 5 && f[2] == "*" && f[3] == "*" && IsDigits(f[0])
    && ((f[1] == "*" && f[4] == "*") || (IsDigits(f[1]) && (f[4] == "*" || f[4] == "1-5" || IsDigitList(f[4]))))
  }

  /** A cron text is described as a custom schedule exactly when no sentence can be made for it. */
  lemma CustomExactly(raw: string)
    ensures Reading(raw).Custom? <==> !HasSentence(Fields(raw))
  {
    var f := Fields(raw);
    if |f| == 5 {
      ListsAgree(f[4]);
      CustomFields(raw, f, "1,2,3,4,5", "*");
    }
  }

  lemma ListsAgree(dow: string)
    ensures IsDigitList(dow) <==> IsDayList(dow)
  {
    if IsDayList(dow) {
      var days := DayListIsList(dow);
    }
    if IsDigitList(dow) {
      var days :| IsListOf(dow, days);
      ListIsDayList(days);
    }
  }

  lemma CustomFields(raw: string, f: seq<string>, week: string, star: string)
    requires f == Fields(raw) && |f| == 5 && (IsDigitList(f[4]) <==> IsDayList(f[4]))
    requires week == "1,2,3,4,5" && star == "*"
    ensures Reading(raw).Custom? <==> !HasSentence(f)
  {
    OneToFive(week);
    assert !IsDigits(star) by { assert !IsDigit(star[0]); }
  }
}
