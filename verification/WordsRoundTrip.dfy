/** From a choice to cron and back to a sentence, and from cron to a sentence and back to cron. */
module WordsRoundTrip {
  import opened Decimal
  import opened Options
  import opened Strings
  import opened Cron
  import opened CronFields
  import opened Phrases
  import opened PhraseText
  import opened PhraseWords
  import opened PhraseReading
  import opened PhraseDays
  import opened PlainWords

  // ---- Words -------------------------------------------------------------------------------

  lemma DigitsAreWord(s: string)
    requires IsDigits(s)
    ensures IsWord(s)
  {
  }

  lemma DayListIsWord(dow: string)
    requires IsDayList(dow)
    ensures IsWord(dow)
  {
  }

  // ---- A built list of days ----------------------------------------------------------------

  lemma {:induction false} JoinDigitsAt(days: seq<int>)
    requires days != [] && AreDays(days)
    ensures var s := JoinDigits(days);
      |s| == 2 * |days| - 1
      && (forall k :: 0 <= k < |days| ==> s[2 * k] == Digit(days[k]))
      && (forall k :: 0 <= k < |days| - 1 ==> s[2 * k + 1] == ',')
  {
    if |days| > 1 {
      var s, rest := JoinDigits(days), JoinDigits(days[1..]);
      JoinDigitsAt(days[1..]);
      assert s == [Digit(days[0]), ','] + rest;
      forall k | 0 <= k < |days| ensures s[2 * k] == Digit(days[k]) {
        if k > 0 { assert s[2 * k] == rest[2 * (k - 1)]; }
      }
      forall k | 0 <= k < |days| - 1 ensures s[2 * k + 1] == ',' {
        if k > 0 { assert s[2 * k + 1] == rest[2 * (k - 1) + 1]; }
      }
    }
  }

  lemma JoinDigitsIsList(days: seq<int>)
    requires days != [] && AreDays(days)
    ensures IsDayList(JoinDigits(days))
  {
    var s := JoinDigits(days);
    JoinDigitsAt(days);
    forall i | 0 <= i < |s| ensures if i % 2 == 0 then '0' <= s[i] <= '7' else s[i] == ',' {
      var k := i / 2;
      if i % 2 == 0 {
        assert i == 2 * k && s[2 * k] == Digit(days[k]);
      } else {
        assert i == 2 * k + 1 && s[2 * k + 1] == ',';
      }
    }
  }

  lemma DigitBack(d: int)
    requires 0 <= d <= 6
    ensures (Digit(d) as int - '0' as int) % 7 == d
  {
  }

  /** The text built for picked days lists exactly those days. */
  lemma JoinDigitsLists(days: seq<int>)
    requires days != [] && AreDays(days)
    ensures ListedDays(JoinDigits(days)) == DaySet(days)
  {
    var s := JoinDigits(days);
    JoinDigitsAt(days);
    forall d | d in ListedDays(s) ensures d in DaySet(days) {
      var i :| 0 <= i < |s| && i % 2 == 0 && d == (s[i] as int - '0' as int) % 7;
      var k := i / 2;
      assert i == 2 * k && s[2 * k] == Digit(days[k]);
      DigitBack(days[k]);
    }
    forall d | d in DaySet(days) ensures d in ListedDays(s) {
      var k :| 0 <= k < |days| && days[k] == d;
      DigitBack(d);
      assert s[2 * k] == Digit(d) && (2 * k) % 2 == 0;
    }
  }

  // ---- From a choice to its sentence -------------------------------------------------------

  function PickedSet(days: seq<int>): set<int> {
    set d | d in days :: d % 7
  }

  /** The sentence for what the person chose. */
  function Shown(c: Choice): Sentence
    requires 0 <= c.hour && 0 <= c.minute
  {
    match c.frequency
    case Day => Daily(c.hour, c.minute)
    case Weekday => Weekdays(c.hour, c.minute)
    case Hour => Hourly(c.minute)
    case Days =>
      var days := PickedSet(c.days);
      if days == {1, 2, 3, 4, 5} then Weekdays(c.hour, c.minute)
      else OnDays(WeekFrom(1, days, 0), c.hour, c.minute)
  }

  function HourWord(c: Choice): string {
    if c.frequency.Hour? then "*" else IntText(c.hour)
  }

  /** The weekday field build_cron writes. */
  predicate WroteDays(c: Choice, dow: string) {
    match c.frequency
    case Day => dow == "*"
    case Weekday => dow == "1-5"
    case Hour => dow == "*"
    case Days =>
      IsDayList(dow) && ListedDays(dow) == PickedSet(c.days)
      && (PickedSet(c.days) == {1, 2, 3, 4, 5} ==> dow == "1,2,3,4,5")
  }

  lemma PickedExactly(days: seq<int>)
    ensures AreDays(Picked(days)) && DaySet(Picked(days)) == PickedSet(days)
  {
    WeekFromWithin(0, PickedSet(days), 0);
    InOrderSet(0, PickedSet(days));
  }

  lemma Grouped(m: string, h: string, dow: string, tail: string)
    requires tail == " * * "
    ensures m + " " + h + tail + dow == CronText(m, h, dow)
  {
    assert tail == " " + ("*" + (" " + ("*" + " ")));
  }

  lemma GroupedTail(m: string, h: string, dow: string, tail: string)
    requires tail == " * * " + dow
    ensures m + " " + h + tail == CronText(m, h, dow)
  {
    Grouped(m, h, dow, " * * ");
    assert m + " " + h + tail == m + " " + h + " * * " + dow;
  }

  lemma GroupedHour(m: string, tail: string)
    requires tail == " * * * *"
    ensures m + tail == CronText(m, "*", "*")
  {
    assert tail == " " + ("*" + (" " + ("*" + (" " + ("*" + (" " + "*"))))));
  }

  lemma FiveDaysText(picked: seq<int>)
    requires picked == [1, 2, 3, 4, 5]
    ensures JoinDigits(picked) == "1,2,3,4,5"
  {
    JoinDigitsAt(picked);
    var s := JoinDigits(picked);
    assert s[2 * 0] == '1' && s[2 * 1] == '2' && s[2 * 2] == '3' && s[2 * 3] == '4' && s[2 * 4] == '5';
    assert s[2 * 0 + 1] == ',' && s[2 * 1 + 1] == ',' && s[2 * 2 + 1] == ',' && s[2 * 3 + 1] == ',';
    assert s == [s[0], s[1], s[2], s[3], s[4], s[5], s[6], s[7], s[8]];
  }

  lemma FiveDaysPicked(days: set<int>)
    requires days == {1, 2, 3, 4, 5}
    ensures WeekFrom(0, days, 0) == [1, 2, 3, 4, 5]
  {
    assert WeekFrom(0, days, 6) == [];
    assert WeekFrom(0, days, 5) == [5];
    assert WeekFrom(0, days, 4) == [4, 5];
    assert WeekFrom(0, days, 3) == [3, 4, 5];
    assert WeekFrom(0, days, 2) == [2, 3, 4, 5];
    assert WeekFrom(0, days, 1) == [1, 2, 3, 4, 5];
  }

  /** What build_cron writes; it refuses exactly an empty pick of days. */
  lemma BuildWrites(c: Choice) returns (dow: string)
    ensures BuildCron(c).None? <==> c.frequency.Days? && c.days == []
    ensures BuildCron(c).Some? ==>
      WroteDays(c, dow) && BuildCron(c).value == CronText(IntText(c.minute), HourWord(c), dow)
  {
    var m, h := IntText(c.minute), IntText(c.hour);
    dow := "";
    match c.frequency
    case Day =>
      dow := "*";
      GroupedTail(m, h, dow, " * * *");
    case Weekday =>
      dow := "1-5";
      GroupedTail(m, h, dow, " * * 1-5");
    case Hour =>
      dow := "*";
      GroupedHour(m, " * * * *");
    case Days =>
      var picked := Picked(c.days);
      PickedExactly(c.days);
      EmptyPick(c.days);
      if picked != [] {
        dow := JoinDigits(picked);
        JoinDigitsIsList(picked);
        JoinDigitsLists(picked);
        if PickedSet(c.days) == {1, 2, 3, 4, 5} {
          FiveDaysPicked(PickedSet(c.days));
          FiveDaysText(picked);
        }
        Grouped(m, h, dow, " * * ");
      }
  }

  lemma EmptyPick(days: seq<int>)
    ensures Picked(days) == [] <==> days == []
  {
    PickedExactly(days);
    if days != [] {
      var d := days[0];
      assert d in days;
      assert d % 7 in PickedSet(days);
    }
  }

  lemma IsFiveDays(dow: string)
    requires IsDayList(dow) && dow == "1,2,3,4,5"
    ensures ListedDays(dow) == {1, 2, 3, 4, 5}
  {
    OneToFive(dow);
  }

  lemma ListIsNoRange(dow: string)
    requires IsDayList(dow)
    ensures dow != "*" && dow != "1-5"
  {
    assert 0 % 2 == 0 && '0' <= dow[0] <= '7';
    assert |dow| > 1 ==> dow[1] == ',';
    assert "*"[0] == '*' && "1-5"[1] == '-';
  }

  lemma WrittenIsWord(c: Choice, dow: string)
    requires WroteDays(c, dow)
    ensures IsWord(dow)
  {
    if c.frequency.Days? { DayListIsWord(dow); }
  }

  /** The cron text build_cron writes is described as what was chosen. */
  lemma ReadsWritten(c: Choice, dow: string)
    requires 0 <= c.hour && 0 <= c.minute && WroteDays(c, dow)
    ensures var text := CronText(IntText(c.minute), HourWord(c), dow);
      Reading(text) == Shown(c) && Fields(text) == [IntText(c.minute), HourWord(c), "*", "*", dow]
  {
    var text := CronText(IntText(c.minute), HourWord(c), dow);
    WrittenIsWord(c, dow);
    DigitsAreWord(NatText(c.minute));
    DigitsAreWord(NatText(c.hour));
    ReadNatText(c.minute);
    ReadNatText(c.hour);
    FieldsOfCron(IntText(c.minute), HourWord(c), dow);
    if c.frequency.Days? {
      ListIsNoRange(dow);
      if dow == "1,2,3,4,5" { IsFiveDays(dow); }
    }
  }

  lemma CronTextEnds(minute: string, hour: string, dow: string)
    requires IsDigits(minute) && IsWord(dow)
    ensures var text := CronText(minute, hour, dow); text != "" && IsDigit(text[0]) && !IsSpace(text[|text| - 1])
  {
  }

  /** What the person chose is what the sentence says, and the scheduler accepts the text built for
      it and runs it at exactly that time. */
  lemma ChoiceIsShown(c: Choice)
    requires 0 <= c.hour < 24 && 0 <= c.minute < 60 && BuildCron(c).Some?
    ensures var text := BuildCron(c).value;
      Reading(text) == Shown(c) && ParseCron(text).Some? && Says(ParseCron(text).value, Shown(c))
  {
    var dow := BuildWrites(c);
    var text := BuildCron(c).value;
    ReadsWritten(c, dow);
    WrittenIsWord(c, dow);
    CronTextEnds(IntText(c.minute), HourWord(c), dow);
    ParsesPlainly(text);
    ReadingSays(Fields(text), text);
  }

  // ---- From cron to a sentence and back ----------------------------------------------------

  predicate SameFields(e: CronExpr, f: CronExpr) {
    e.minutes == f.minutes && e.hours == f.hours && e.days == f.days && e.months == f.months
    && e.weekdays == f.weekdays && e.dayUnion == f.dayUnion
  }

  lemma SameFull(a: set<int>, b: set<int>, low: int, high: int)
    requires Full(a, low, high) && Full(b, low, high)
    ensures a == b
  {
    assert forall n :: n in a <==> n in b;
  }

  lemma SaysTheSame(e: CronExpr, s: Sentence, f: CronExpr, r: Sentence)
    requires !s.Custom? && !r.Custom? && Says(e, s) && Says(f, r)
    requires s.minute == r.minute && DaysOf(s) == DaysOf(r)
    requires s.Hourly? == r.Hourly? && (s.Hourly? || s.hour == r.hour)
    ensures SameFields(e, f)
  {
    SameFull(e.days, f.days, 1, 31);
    SameFull(e.months, f.months, 1, 12);
    if s.Hourly? { SameFull(e.hours, f.hours, 0, 23); }
  }

  /** The choice a sentence is read back as. */
  function ReadAs(s: Sentence): Choice
    requires s.Daily? || s.Weekdays? || s.OnDays?
  {
    match s
    case Daily(hour, minute) => Choice(Day, hour, minute, [])
    case Weekdays(hour, minute) => Choice(Weekday, hour, minute, [])
    case OnDays(days, hour, minute) => Choice(Days, hour, minute, WeekFrom(0, DaySet(days), 0))
  }

  lemma SentenceIsReadAs(s: Sentence)
    requires NamesDays(s) && (s.Daily? || s.Weekdays? || s.OnDays?) && s.hour < 24 && s.minute < 60
    ensures ParsePhrase(Words(s)) == Some(ReadAs(s))
  {
    match s
    case Daily(hour, minute) => WordReadBack("day", Day, hour, minute);
    case Weekdays(hour, minute) => WordReadBack("weekday", Weekday, hour, minute);
    case OnDays(days, hour, minute) => DaysReadBack(days, hour, minute);
  }

  lemma ModuloDays(days: seq<int>)
    requires AreDays(days)
    ensures PickedSet(WeekFrom(0, DaySet(days), 0)) == DaySet(days)
  {
    var listed := WeekFrom(0, DaySet(days), 0);
    InOrderSet(0, DaySet(days));
    WeekFromWithin(0, DaySet(days), 0);
    AlreadyModulo(listed);
  }

  lemma AlreadyModulo(days: seq<int>)
    requires AreDays(days)
    ensures PickedSet(days) == DaySet(days)
  {
    forall d | d in days ensures d % 7 == d {
    }
    forall d | d in DaySet(days) ensures d in PickedSet(days) {
      assert d in days && d % 7 == d;
    }
  }

  /** What is read back speaks of the same days at the same time. */
  lemma ReadAsSame(s: Sentence)
    requires NamesDays(s) && (s.Daily? || s.Weekdays? || s.OnDays?)
    ensures var c := ReadAs(s);
      BuildCron(c).Some? && !Shown(c).Custom? && !Shown(c).Hourly? && DaysOf(Shown(c)) == DaysOf(s)
      && Shown(c).hour == s.hour && Shown(c).minute == s.minute
  {
    var c := ReadAs(s);
    var dow := BuildWrites(c);
    if s.OnDays? {
      ModuloDays(s.days);
      InOrderSet(1, DaySet(s.days));
      InOrderSet(0, DaySet(s.days));
      assert s.days[0] in DaySet(s.days);
    }
  }

  /** For every accepted cron text described as a daily, weekday or certain-days schedule, reading
      the sentence back and building cron from it gives the same schedule. */
  lemma WordsRoundTrip(expression: string)
    requires ParseCron(expression).Some?
    ensures var e := ParseCron(expression).value;
      var s := Reading(e.raw);
      s.Daily? || s.Weekdays? || s.OnDays? ==>
        var c := ParsePhrase(DescribeCron(e.raw));
        c.Some? && BuildCron(c.value).Some? && ParseCron(BuildCron(c.value).value).Some?
        && SameFields(ParseCron(BuildCron(c.value).value).value, e)
  {
    var e := ParseCron(expression).value;
    var s := Reading(e.raw);
    if s.Daily? || s.Weekdays? || s.OnDays? {
      ParsedFromRaw(expression);
      ReadingSays(Fields(e.raw), e.raw);
      ReadingNamesDays(e.raw);
      SentenceIsReadAs(s);
      ReadAsSame(s);
      ChoiceIsShown(ReadAs(s));
      SaysTheSame(ParseCron(BuildCron(ReadAs(s)).value).value, Shown(ReadAs(s)), e, s);
    }
  }

  // ---- Hourly sentences --------------------------------------------------------------------

  /** Nothing the parser replaces or takes for a time. */
  predicate Harmless(s: string) {
    'l' !in s && 'k' !in s && (forall i :: 0 <= i < |s| - 1 ==> !(s[i] == ' ' && s[i + 1] == 'a'))
  }

  lemma HarmlessStart(start: string)
    requires start == "hour, "
    ensures Harmless(start) && NoCapitals(start)
  {
  }

  lemma HarmlessEnd(end: string)
    requires end == " minutes past"
    ensures Harmless(end) && NoCapitals(end)
  {
  }

  lemma HarmlessPast(start: string, digits: string, end: string)
    requires Harmless(start) && Harmless(end) && IsDigits(digits) && start != "" && end != ""
    requires NoCapitals(start) && NoCapitals(end)
    ensures Harmless(start + digits + end) && NoCapitals(start + digits + end)
  {
  }

  lemma SpacedPast(hour: string, digits: string, minutes: string, past: string)
    requires hour == "hour," && minutes == "minutes" && past == "past" && IsDigits(digits)
    ensures OneSpaced(hour + ([' '] + (digits + ([' '] + (minutes + ([' '] + past))))))
  {
    assert OneSpaced(past) && OneSpaced(minutes) && OneSpaced(hour);
    SpacedAround(minutes, past);
    SpacedAround(digits, minutes + ([' '] + past));
    SpacedAround(hour, digits + ([' '] + (minutes + ([' '] + past))));
  }

  lemma PastText(digits: string, start: string, end: string, hour: string, minutes: string, past: string)
    requires start == "hour, " && end == " minutes past" && hour == "hour," && minutes == "minutes" && past == "past"
    ensures start + digits + end == hour + ([' '] + (digits + ([' '] + (minutes + ([' '] + past)))))
  {
    assert start == hour + [' '] && end == [' '] + (minutes + ([' '] + past));
  }

  lemma PastIsWhat(start: string, digits: string, end: string, daily: string, weekdays: string, at: string)
    requires start == "hour, " && end == " minutes past" && IsDigits(digits)
    requires daily == "daily" && weekdays == "weekdays" && at == " at "
    ensures IsWhat(start + digits + end) && NoCapitals(start + digits + end)
  {
    var what := start + digits + end;
    HarmlessStart(start);
    HarmlessEnd(end);
    HarmlessPast(start, digits, end);
    SpacedPast("hour,", digits, "minutes", "past");
    PastText(digits, start, end, "hour,", "minutes", "past");
    FreeOfBoth(what, daily, weekdays);
    FreePair(what + " ", at, 0);
  }

  lemma LowerHourly(start: string, low: string, what: string)
    requires start == "Every " && low == "every " && NoCapitals(what)
    ensures Lower(start + what) == LeadOff(false, what)
  {
    LowerStart(start, low);
    LowerFixed(what);
    LowerJoin(start, what);
    LeadText(low, what);
  }

  lemma LeadText(low: string, what: string)
    requires low == "every "
    ensures low + what == LeadOff(false, what)
  {
    assert low == "every" + [' '];
  }

  lemma PastTheHour(minute: nat)
    requires minute > 0
    ensures ParsePhrase(Words(Hourly(minute))) == None
  {
    var digits := NatText(minute);
    var what := "hour, " + digits + " minutes past";
    PastIsWhat("hour, ", digits, " minutes past", "daily", "weekdays", " at ");
    LowerHourly("Every ", "every ", what);
    HourlyText(minute, "Every hour, ", "Every ", "hour, ");
    LongerThanHour(what);
    NoTimeRefused("Every " + what, false, what);
  }

  lemma HourlyText(minute: nat, whole: string, start: string, hour: string)
    requires minute > 0 && whole == "Every hour, " && start == "Every " && hour == "hour, "
    ensures Words(Hourly(minute)) == start + (hour + NatText(minute) + " minutes past")
  {
    assert whole == start + hour;
  }

  lemma LongerThanHour(what: string)
    requires |what| > 4
    ensures what != "hour"
  {
  }

  lemma OnTheHour(word: string)
    requires word == "hour"
    ensures ParsePhrase("Every " + word) == Some(Choice(Hour, 0, 0, []))
  {
    LowerHourly("Every ", "every ", word);
    HourReadAlone("Every " + word, false);
  }

  lemma HourWords(start: string, word: string, whole: string)
    requires start == "Every " && word == "hour" && whole == "Every hour"
    ensures Words(Hourly(0)) == whole == start + word
  {
  }

  /** An hourly sentence is read back exactly when it runs on the hour: the sentence for any other
      minute is one the parser does not understand. */
  lemma HourlyReadBackExactly(minute: nat)
    ensures ParsePhrase(Words(Hourly(minute))).Some? <==> minute == 0
    ensures minute == 0 ==> ParsePhrase(Words(Hourly(minute))) == Some(Choice(Hour, 0, 0, []))
  {
    if minute == 0 {
      OnTheHour("hour");
      HourWords("Every ", "hour", "Every hour");
    } else {
      PastTheHour(minute);
    }
  }
}
