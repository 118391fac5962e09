/** Schedules in plain words: the sentence shown for a cron text, the choice read from a sentence,
    and the cron text built for a choice. */
module Phrases {
  import opened Decimal
  import opened Options
  import opened Strings

  datatype Frequency = Day | Weekday | Days | Hour

  datatype Choice = Choice(frequency: Frequency, hour: int, minute: int, days: seq<int>)

  // ---- The clock -------------------------------------------------------------------------

  function MinuteText(minute: nat): string {
    (if minute < 10 then "0" else "") + NatText(minute)
  }

  function ClockHour(hour: nat): nat {
    if hour % 12 == 0 then 12 else hour % 12
  }

  /** clock_words */
  function Clock(hour: nat, minute: nat): string {
    NatText(ClockHour(hour)) + ":" + MinuteText(minute) + (if hour < 12 then " AM" else " PM")
  }

  function SkipDigits(s: string, most: nat): (i: nat)
    ensures i <= |s| && i <= most && forall k :: 0 <= k < i ==> IsDigit(s[k])
  {
    if most == 0 || s == [] || !IsDigit(s[0]) then 0 else 1 + SkipDigits(s[1..], most - 1)
  }

  /** What follows the digits: spaces, then an optional a or p, dot, m and dot, and nothing else.
      None when it does not match; otherwise the a or p, if there was one. */
  function Meridiem(s: string): Option<Option<char>> {
    var t := LStrip(s);
    var half := if t != [] && (t[0] == 'a' || t[0] == 'p') then Some(t[0]) else None;
    var t1 := if half.Some? then t[1..] else t;
    var t2 := if t1 != [] && t1[0] == '.' then t1[1..] else t1;
    var t3 := if t2 != [] && t2[0] == 'm' then t2[1..] else t2;
    var t4 := if t3 != [] && t3[0] == '.' then t3[1..] else t3;
    if t4 == [] then Some(half) else None
  }

  /** The 24-hour time for what the pattern captured; an hour alone could be morning or afternoon. */
  function OnTheDay(hour: nat, minute: Option<nat>, half: Option<char>): Option<(int, int)> {
    var past := if minute.Some? then minute.value else 0;
    if past > 59 then None
    else if half.Some? then
      if !(1 <= hour <= 12) then None
      else Some((hour % 12 + if half.value == 'p' then 12 else 0, past))
    else if hour > 23 || minute.None? then None
    else Some((hour, past))
  }

  /** What follows the hour: an optional colon with two digits, then the half of the day. */
  function ReadAfterHour(hour: nat, rest: string): Option<(int, int)> {
    var minutes := |rest| >= 3 && rest[0] == ':' && IsDigit(rest[1]) && IsDigit(rest[2]);
    var half := Meridiem(if minutes then rest[3..] else rest);
    if half.None? then None
    else OnTheDay(hour, if minutes then Some(ReadNat(rest[1..3])) else None, half.value)
  }

  function ReadClock(cleaned: string): Option<(int, int)> {
    var h := SkipDigits(cleaned, 2);
    if |cleaned| > 16 || h == 0 then None else ReadAfterHour(ReadNat(cleaned[..h]), cleaned[h..])
  }

  /** parse_time; None is the ScheduleWordsError. */
  function ParseTime(text: string): Option<(int, int)> {
    ReadClock(Lower(Strip(text)))
  }

  // ---- Days ------------------------------------------------------------------------------

  function DayName(d: int): string
    requires 0 <= d <= 6
  {
    match d
    case 0 => "Sunday"
    case 1 => "Monday"
    case 2 => "Tuesday"
    case 3 => "Wednesday"
    case 4 => "Thursday"
    case 5 => "Friday"
    case _ => "Saturday"
  }

  /** _DAY_KEYS */
  function DayKey(key: string): Option<int> {
    if key == "sun" then Some(0)
    else if key == "mon" then Some(1)
    else if key == "tue" || key == "tues" then Some(2)
    else if key == "wed" || key == "weds" then Some(3)
    else if key == "thu" || key == "thur" || key == "thurs" then Some(4)
    else if key == "fri" then Some(5)
    else if key == "sat" then Some(6)
    else None
  }

  /** The days of `days` in week order, from day `from` on. */
  function WeekFrom(from: int, days: set<int>, n: nat): seq<int>
    requires n <= 7
    decreases 7 - n
  {
    if n == 7 then []
    else (if (from + n) % 7 in days then [(from + n) % 7] else []) + WeekFrom(from, days, n + 1)
  }

  /** sorted({d % 7 for d in days}) */
  function Picked(days: seq<int>): seq<int> {
    WeekFrom(0, set d | d in days :: d % 7, 0)
  }

  predicate AreDays(days: seq<int>) {
    forall i :: 0 <= i < |days| ==> 0 <= days[i] <= 6
  }

  function JoinDigits(days: seq<int>): string
    requires days != [] && AreDays(days)
  {
    if |days| == 1 then [Digit(days[0])] else [Digit(days[0]), ','] + JoinDigits(days[1..])
  }

  function JoinCommas(names: seq<string>): string
    requires names != []
  {
    if |names| == 1 then names[0] else names[0] + ", " + JoinCommas(names[1..])
  }

  /** _join_days */
  function JoinDays(names: seq<string>): string
    requires names != []
  {
    if |names| == 1 then names[0]
    else JoinCommas(names[..|names| - 1]) + " and " + names[|names| - 1]
  }

  // ---- From a choice to cron, and from cron to a sentence --------------------------------

  lemma {:induction false} WeekFromWithin(from: int, days: set<int>, n: nat)
    requires n <= 7
    ensures AreDays(WeekFrom(from, days, n)) && forall d :: d in WeekFrom(from, days, n) ==> d in days
    decreases 7 - n
  {
    if n < 7 {
      WeekFromWithin(from, days, n + 1);
    }
  }

  /** build_cron; None is the ScheduleWordsError for an empty pick. */
  function BuildCron(c: Choice): Option<string> {
    var clock := IntText(c.minute) + " " + IntText(c.hour);
    match c.frequency
    case Day => Some(clock + " * * *")
    case Weekday => Some(clock + " * * 1-5")
    case Hour => Some(IntText(c.minute) + " * * * *")
    case Days =>
      var picked := Picked(c.days);
      WeekFromWithin(0, set d | d in c.days :: d % 7, 0);
      if picked == [] then None else Some(clock + " * * " + JoinDigits(picked))
  }

  /** What describe_cron made of a cron text. */
  datatype Sentence =
    | Custom
    | Hourly(minute: nat)
    | Daily(hour: nat, minute: nat)
    | Weekdays(hour: nat, minute: nat)
    | OnDays(days: seq<int>, hour: nat, minute: nat)

  /** [0-7](,[0-7])* */
  predicate IsDayList(dow: string) {
    |dow| % 2 == 1
    && forall i :: 0 <= i < |dow| ==> if i % 2 == 0 then '0' <= dow[i] <= '7' else dow[i] == ','
  }

  function ListedDays(dow: string): set<int> {
    set i | 0 <= i < |dow| && i % 2 == 0 :: (dow[i] as int - '0' as int) % 7
  }

  function Reading(raw: string): Sentence {
    var f := Fields(raw);
    if |f| != 5 || f[2] != "*" || f[3] != "*" || !IsDigits(f[0]) then Custom
    else if f[1] == "*" then
      if f[4] == "*" then Hourly(ReadNat(f[0])) else Custom
    else if !IsDigits(f[1]) then Custom
    else if f[4] == "*" then Daily(ReadNat(f[1]), ReadNat(f[0]))
    else if f[4] == "1-5" || f[4] == "1,2,3,4,5" then Weekdays(ReadNat(f[1]), ReadNat(f[0]))
    else if IsDayList(f[4]) then OnDays(WeekFrom(1, ListedDays(f[4]), 0), ReadNat(f[1]), ReadNat(f[0]))
    else Custom
  }

  function Names(days: seq<int>): seq<string>
    requires AreDays(days)
  {
    seq(|days|, i requires 0 <= i < |days| => DayName(days[i]))
  }

  function EveryAt(what: string, hour: nat, minute: nat): string {
    "Every " + what + " at " + Clock(hour, minute)
  }

  predicate NamesDays(s: Sentence) {
    s.OnDays? ==> s.days != [] && AreDays(s.days)
  }

  function Words(s: Sentence): string
    requires NamesDays(s)
  {
    match s
    case Custom => "On a custom schedule"
    case Hourly(minute) =>
      if minute == 0 then "Every hour" else "Every hour, " + NatText(minute) + " minutes past"
    case Daily(hour, minute) => EveryAt("day", hour, minute)
    case Weekdays(hour, minute) => EveryAt("weekday", hour, minute)
    case OnDays(days, hour, minute) => EveryAt(JoinDays(Names(days)), hour, minute)
  }

  lemma {:induction false} WeekFromHas(from: int, days: set<int>, n: nat, k: nat)
    requires n <= k < 7 && (from + k) % 7 in days
    ensures (from + k) % 7 in WeekFrom(from, days, n)
    decreases k - n
  {
    if n < k {
      WeekFromHas(from, days, n + 1, k);
    }
  }

  function DaysUntil(from: int, d: int): (k: nat)
    requires 0 <= from <= 6 && 0 <= d <= 6
    ensures k < 7 && (from + k) % 7 == d
  {
    if d >= from then d - from else d + 7 - from
  }

  /** From any first day, the week order lists each of the days once over. */
  lemma WeekFromExactly(from: int, days: set<int>, d: int)
    requires 0 <= from <= 6 && 0 <= d <= 6
    ensures d in WeekFrom(from, days, 0) <==> d in days
  {
    WeekFromWithin(from, days, 0);
    if d in days {
      WeekFromHas(from, days, 0, DaysUntil(from, d));
    }
  }

  lemma SomeDay(dow: string)
    requires IsDayList(dow)
    ensures WeekFrom(1, ListedDays(dow), 0) != [] && AreDays(WeekFrom(1, ListedDays(dow), 0))
  {
    var days, d := ListedDays(dow), (dow[0] as int - '0' as int) % 7;
    WeekFromWithin(1, days, 0);
    assert d in days;
    WeekFromExactly(1, days, d);
  }

  lemma ReadingNamesDays(raw: string)
    ensures NamesDays(Reading(raw))
  {
    if Reading(raw).OnDays? {
      SomeDay(Fields(raw)[4]);
    }
  }

  /** describe_cron */
  function DescribeCron(raw: string): string {
    ReadingNamesDays(raw);
    Words(Reading(raw))
  }

  // ---- From a phrase to a choice ---------------------------------------------------------

  /** Every run of whitespace becomes one space. */
  function Squeeze(s: string): string
    decreases |s|
  {
    if s == [] then []
    else if IsSpace(s[0]) then [' '] + Squeeze(s[RunLength(s)..])
    else [s[0]] + Squeeze(s[1..])
  }

  function RunLength(s: string): (n: nat)
    ensures n <= |s| && (s != [] && IsSpace(s[0]) ==> n >= 1)
  {
    if s == [] || !IsSpace(s[0]) then 0 else 1 + RunLength(s[1..])
  }

  /** s.replace(p, q) */
  function Replace(s: string, p: string, q: string): string
    requires p != ""
    decreases |s|
  {
    if |s| < |p| then s
    else if s[..|p|] == p then q + Replace(s[|p|..], p, q)
    else [s[0]] + Replace(s[1..], p, q)
  }

  function ExpandDays(s: string): string {
    Replace(Replace(s, "daily", "every day"), "weekdays", "every weekday")
  }

  /** Where the first " at " with text on both sides starts, from position i on; |body| if nowhere. */
  function AtPosition(body: string, i: nat): (k: nat)
    ensures k <= |body| || k <= i
    ensures k < |body| ==> i <= k && k + 4 < |body| && body[k..k + 4] == " at "
    decreases |body| - i
  {
    if i + 4 >= |body| then |body| else if body[i..i + 4] == " at " then i else AtPosition(body, i + 1)
  }

  function SeparatorLength(s: string): (n: nat)
    ensures n <= |s|
  {
    if s != "" && (s[0] == ',' || s[0] == '&') then 1
    else if |s| >= 3 && s[0] == 'a' && s[1] == 'n' && s[2] == 'd' then 3
    else 0
  }

  /** The words between the separators; `word` is the one being read. */
  function SplitWords(word: string, s: string): seq<string>
    decreases |s|
  {
    var n := SeparatorLength(s);
    if s == "" then [word]
    else if n > 0 then [word] + SplitWords("", s[n..])
    else SplitWords(word + [s[0]], s[1..])
  }

  function RStripS(s: string): string {
    if s != "" && s[|s| - 1] == 's' then RStripS(s[..|s| - 1]) else s
  }

  function Take(s: string, n: nat): string {
    if n <= |s| then s[..n] else s
  }

  function WordDay(word: string): Option<int> {
    var w := Strip(word);
    var key := if DayKey(w).Some? then w else RStripS(w);
    DayKey(if DayKey(Take(key, 4)).Some? then Take(key, 4) else Take(key, 3))
  }

  function WordDays(words: seq<string>): Option<set<int>> {
    if words == [] then Some({})
    else
      match (WordDay(words[0]), WordDays(words[1..]))
      case (Some(d), Some(rest)) => Some({d} + rest)
      case _ => None
  }

  function DaySet(days: seq<int>): set<int> {
    set d | d in days
  }

  lemma PickOne(picked: seq<int>, rest: set<int>)
    ensures DaySet([]) + rest == rest
    ensures picked != [] ==>
      var n := |picked| - 1; DaySet(picked) + rest == DaySet(picked[..n]) + ({picked[n]} + rest)
  {
    if picked != [] {
      var n := |picked| - 1;
      assert picked == picked[..n] + [picked[n]];
    }
  }

  /** The loop of parse_phrase over the words that name days; the picked days are sorted at the end. */
  method PickDays(words: seq<string>) returns (r: Option<seq<int>>)
    ensures r == match WordDays(words) case None => None case Some(days) => Some(WeekFrom(0, days, 0))
  {
    var picked: seq<int>, i := [], 0;
    assert words[0..] == words;
    if WordDays(words).Some? { PickOne(picked, WordDays(words).value); }
    while i < |words|
      invariant i <= |words|
      invariant WordDays(words[i..]).None? ==> WordDays(words).None?
      invariant WordDays(words[i..]).Some? ==> WordDays(words) == Some(DaySet(picked) + WordDays(words[i..]).value)
    {
      var day := WordDay(words[i]);
      assert words[i..][0] == words[i] && words[i..][1..] == words[i + 1..];
      if day.None? { return None; }
      if WordDays(words[i + 1..]).Some? { PickOne(picked + [day.value], WordDays(words[i + 1..]).value); }
      picked := picked + [day.value];
      i := i + 1;
    }
    r := Some(WeekFrom(0, DaySet(picked), 0));
  }

  /** What the words before and after " at " choose. */
  function ReadChoice(what: string, at: Option<string>): Option<Choice> {
    if what == "hour" then
      if at.None? then Some(Choice(Hour, 0, 0, []))
      else
        var time := ParseTime(at.value);
        if time.None? then None else Some(Choice(Hour, 0, time.value.1, []))
    else if at.None? || ParseTime(at.value).None? then None
    else
      var (hour, minute) := ParseTime(at.value).value;
      if what == "day" then Some(Choice(Day, hour, minute, []))
      else if what == "weekday" then Some(Choice(Weekday, hour, minute, []))
      else
        var days := WordDays(SplitWords("", what));
        if days.None? then None else Some(Choice(Days, hour, minute, WeekFrom(0, days.value, 0)))
  }

  function ReadBody(body: string): Option<Choice> {
    var k := AtPosition(body, 1);
    if body == "" then None
    else if k < |body| then ReadChoice(body[..k], Some(body[k + 4..]))
    else ReadChoice(body, None)
  }

  function ReadLowered(s: string): Option<Choice> {
    if |s| >= 6 && s[..6] == "every " then ReadBody(s[6..])
    else if |s| >= 5 && s[..5] == "each " then ReadBody(s[5..])
    else None
  }

  /** parse_phrase; None is the ScheduleWordsError. */
  function ParsePhrase(text: string): Option<Choice> {
    ReadLowered(ExpandDays(Squeeze(Lower(Strip(text)))))
  }
}
