/** Which phrases are understood, and what each of them is read as. */
module PhraseReading {
  import opened Options
  import opened Strings
  import opened Phrases
  import opened PhraseText
  import opened PhraseWords

  // ---- Words that name days ----------------------------------------------------------------

  /** The day whose name starts with the word's first three letters. */
  function DayOf(word: string): Option<int> {
    if |word| < 3 then None
    else
      match (word[0], word[1], word[2])
      case ('s', 'u', 'n') => Some(0)
      case ('m', 'o', 'n') => Some(1)
      case ('t', 'u', 'e') => Some(2)
      case ('w', 'e', 'd') => Some(3)
      case ('t', 'h', 'u') => Some(4)
      case ('f', 'r', 'i') => Some(5)
      case ('s', 'a', 't') => Some(6)
      case _ => None
  }

  lemma ShortKey(k: string)
    requires |k| == 3
    ensures DayKey(k) == DayOf(k)
  {
    assert k == [k[0], k[1], k[2]];
  }

  lemma KeyLetters(k: string)
    requires DayKey(k).Some?
    ensures DayKey(k) == DayOf(k)
  {
  }

  lemma {:induction false} PluralDay(word: string)
    ensures DayOf(RStripS(word)) == DayOf(word)
  {
    if word != "" && word[|word| - 1] == 's' {
      PluralDay(word[..|word| - 1]);
    }
  }

  /** A word names a day exactly when its first three letters do; its length, the longer keys and a
      plural play no part. */
  lemma WordDayExactly(word: string)
    ensures WordDay(word) == DayOf(Strip(word))
  {
    var w := Strip(word);
    var key := if DayKey(w).Some? then w else RStripS(w);
    PluralDay(w);
    if DayKey(Take(key, 4)).Some? {
      KeyLetters(Take(key, 4));
    } else if |key| >= 3 {
      ShortKey(Take(key, 3));
    } else if DayKey(key).Some? {
      KeyLetters(key);
    }
  }

  // ---- Text in which something does not occur ----------------------------------------------

  predicate Occurs(p: string, s: string, i: nat) {
    i + |p| <= |s| && s[i..i + |p|] == p
  }

  predicate Free(s: string, p: string) {
    forall i: nat :: i <= |s| ==> !Occurs(p, s, i)
  }

  lemma {:induction false} ReplaceFree(s: string, p: string, q: string)
    requires p != "" && Free(s, p)
    ensures Replace(s, p, q) == s
  {
    if |s| >= |p| {
      assert !Occurs(p, s, 0);
      FreeTail(s, p);
      ReplaceFree(s[1..], p, q);
    }
  }

  lemma FreeTail(s: string, p: string)
    requires s != "" && Free(s, p)
    ensures Free(s[1..], p)
  {
    forall i: nat | i <= |s[1..]| && Occurs(p, s[1..], i) ensures false {
      assert s[i + 1..i + 1 + |p|] == p;
      assert Occurs(p, s, i + 1);
    }
  }

  /** Nothing that lacks the character between two texts runs across it. */
  lemma FreeAround(a: string, c: char, b: string, p: string)
    requires Free(a, p) && Free(b, p) && c !in p
    ensures Free(a + ([c] + b), p)
  {
    var s := a + ([c] + b);
    forall i: nat | i <= |s| ensures !Occurs(p, s, i) {
      if i + |p| <= |a| {
        assert s[i..i + |p|] == a[i..i + |p|];
        assert !Occurs(p, a, i);
      } else if i > |a| && i + |p| <= |s| {
        var j := i - |a| - 1;
        assert s[i..i + |p|] == b[j..j + |p|];
        assert !Occurs(p, b, j);
      } else if i + |p| <= |s| {
        assert s[i..i + |p|][|a| - i] == c && p[|a| - i] != c;
      }
    }
  }

  lemma FreePair(s: string, p: string, j: nat)
    requires j + 1 < |p| && forall i :: 0 <= i < |s| - 1 ==> !(s[i] == p[j] && s[i + 1] == p[j + 1])
    ensures Free(s, p)
  {
    forall i: nat | i <= |s| ensures !Occurs(p, s, i) {
      if i + |p| <= |s| {
        assert s[i..i + |p|][j] == s[i + j] && s[i..i + |p|][j + 1] == s[i + j + 1];
      }
    }
  }

  lemma FreeChar(s: string, p: string, j: nat)
    requires j < |p| && p[j] !in s
    ensures Free(s, p)
  {
    forall i: nat | i <= |s| ensures !Occurs(p, s, i) {
      if i + |p| <= |s| {
        assert s[i..i + |p|][j] == s[i + j];
      }
    }
  }

  // ---- The parts of a phrase ---------------------------------------------------------------

  /** What a phrase may say between its first word and the time: nothing that the parser replaces first,
      or takes for the start of the time. */
  predicate IsWhat(what: string) {
    what != "" && OneSpaced(what) && Free(what, "daily") && Free(what, "weekdays") && Free(what + " ", " at ")
  }

  function Lead(each: bool): string {
    if each then "each" else "every"
  }

  function At(what: string, time: string): string {
    what + ([' '] + ("at" + ([' '] + time)))
  }

  function LeadOff(each: bool, rest: string): string {
    Lead(each) + ([' '] + rest)
  }

  lemma SpacedAround(a: string, b: string)
    requires OneSpaced(a) && OneSpaced(b) && a != "" && b != ""
    ensures OneSpaced(a + ([' '] + b))
  {
  }

  lemma FreeWord(w: string, p: string)
    requires |w| < |p|
    ensures Free(w, p)
  {
  }

  /** Nothing is replaced in a time. */
  lemma FreeTime(t: Time, daily: string, weekdays: string)
    requires IsTime(t) && t.half.gap <= 1 && daily == "daily" && weekdays == "weekdays"
    ensures Free(TimeText(t), daily) && Free(TimeText(t), weekdays) && OneSpaced(TimeText(t)) && TimeText(t) != ""
  {
    HeadShape(t);
    HalfShape(t.half);
    PlainTime(TimeHead(t), HalfText(t.half), t.half.gap);
    FreeOfBoth(TimeText(t), daily, weekdays);
  }

  lemma FreeOfBoth(s: string, daily: string, weekdays: string)
    requires 'l' !in s && 'k' !in s && daily == "daily" && weekdays == "weekdays"
    ensures Free(s, daily) && Free(s, weekdays)
  {
    FreeChar(s, daily, 3);
    FreeChar(s, weekdays, 3);
  }

  lemma PlainTime(head: string, tail: string, gap: nat)
    requires IsHead(head) && IsTail(tail, gap) && gap <= 1
    ensures OneSpaced(head + tail) && 'l' !in head + tail && 'k' !in head + tail
  {
  }

  lemma FreeAt(what: string, t: Time, p: string, daily: string, weekdays: string)
    requires (p == daily || p == weekdays) && daily == "daily" && weekdays == "weekdays"
    requires Free(what, p) && IsTime(t) && t.half.gap <= 1
    ensures Free(At(what, TimeText(t)), p)
  {
    FreeTime(t, daily, weekdays);
    FreeLead(true, p, daily, weekdays);
    FreeWord("at", p);
    FreeAround("at", ' ', TimeText(t), p);
    FreeAround(what, ' ', "at" + ([' '] + TimeText(t)), p);
  }

  lemma FreeLed(each: bool, rest: string, p: string, daily: string, weekdays: string)
    requires (p == daily || p == weekdays) && daily == "daily" && weekdays == "weekdays" && Free(rest, p)
    ensures Free(LeadOff(each, rest), p)
  {
    FreeLead(each, p, daily, weekdays);
    FreeAround(Lead(each), ' ', rest, p);
  }

  lemma NothingReplaced(each: bool, rest: string, daily: string, weekdays: string)
    requires daily == "daily" && weekdays == "weekdays" && Free(rest, daily) && Free(rest, weekdays)
    ensures ExpandDays(LeadOff(each, rest)) == LeadOff(each, rest)
  {
    FreeLed(each, rest, daily, daily, weekdays);
    FreeLed(each, rest, weekdays, daily, weekdays);
    ReplaceFree(LeadOff(each, rest), daily, "every day");
    ReplaceFree(LeadOff(each, rest), weekdays, "every weekday");
  }

  lemma FreeLead(each: bool, p: string, daily: string, weekdays: string)
    requires (p == daily || p == weekdays) && daily == "daily" && weekdays == "weekdays"
    ensures Free(Lead(each), p) && ' ' !in p
  {
    if each || p == weekdays {
      FreeWord(Lead(each), p);
    } else {
      FreePair(Lead(each), p, 1);
    }
  }

  lemma Led(each: bool, rest: string, every: string, each': string)
    requires every == "every " && each' == "each "
    ensures ReadLowered(LeadOff(each, rest)) == ReadBody(rest)
  {
    var s := LeadOff(each, rest);
    if each {
      assert s[..5] == each' && s[5..] == rest && s[1] == 'a' && every[1] == 'v';
    } else {
      assert s[..6] == every && s[6..] == rest;
    }
  }

  /** The time starts after the first " at " that has text before it. */
  lemma {:induction false} AtFound(what: string, time: string, mark: string, i: nat)
    requires Free(what + " ", mark) && i <= |what| && time != "" && mark == " at "
    ensures AtPosition(At(what, time), i) == |what|
    decreases |what| - i
  {
    var body := At(what, time);
    assert body[|what|..|what| + 4] == mark;
    if i < |what| {
      assert !Occurs(mark, what + " ", i);
      if i + 4 <= |what| + 1 {
        assert body[i..i + 4] == (what + " ")[i..i + 4];
      } else {
        assert body[i..i + 4][|what| - i] == ' ' && mark[|what| - i] != ' ';
      }
      AtFound(what, time, mark, i + 1);
    }
  }

  lemma {:induction false} AtNowhere(what: string, mark: string, i: nat)
    requires Free(what + " ", mark) && mark == " at "
    ensures AtPosition(what, i) == |what|
    decreases |what| - i
  {
    if i + 4 < |what| {
      assert !Occurs(mark, what + " ", i);
      assert what[i..i + 4] == (what + " ")[i..i + 4];
      AtNowhere(what, mark, i + 1);
    }
  }

  lemma Halves(what: string, time: string)
    ensures At(what, time)[..|what|] == what && At(what, time)[|what| + 4..] == time
  {
  }

  // ---- What a phrase is read as ------------------------------------------------------------

  lemma PhraseReads(text: string, each: bool, what: string, t: Time)
    requires IsWhat(what) && IsTime(t) && t.half.gap <= 1
    requires Fields(Lower(text)) == Fields(LeadOff(each, At(what, TimeText(t))))
    ensures ParsePhrase(text) == ReadChoice(what, Some(TimeText(t)))
  {
    var time := TimeText(t);
    FreeTime(t, "daily", "weekdays");
    PhraseSpaced(each, what, time);
    ReadsWords(text, LeadOff(each, At(what, time)));
    FreeAt(what, t, "daily", "daily", "weekdays");
    FreeAt(what, t, "weekdays", "daily", "weekdays");
    NothingReplaced(each, At(what, time), "daily", "weekdays");
    BodyReads(each, what, time);
  }

  lemma BodyReads(each: bool, what: string, time: string)
    requires IsWhat(what) && time != ""
    ensures ReadLowered(LeadOff(each, At(what, time))) == ReadChoice(what, Some(time))
  {
    Led(each, At(what, time), "every ", "each ");
    AtFound(what, time, " at ", 1);
    Halves(what, time);
  }

  lemma PhraseSpaced(each: bool, what: string, time: string)
    requires OneSpaced(what) && OneSpaced(time) && what != "" && time != ""
    ensures OneSpaced(LeadOff(each, At(what, time))) && OneSpaced(LeadOff(each, what))
  {
    SpacedAround("at", time);
    SpacedAround(what, "at" + ([' '] + time));
    SpacedAround(Lead(each), At(what, time));
    SpacedAround(Lead(each), what);
  }

  lemma PhraseReadsAlone(text: string, each: bool, what: string)
    requires IsWhat(what) && Fields(Lower(text)) == Fields(LeadOff(each, what))
    ensures ParsePhrase(text) == ReadChoice(what, None)
  {
    PhraseSpaced(each, what, "x");
    ReadsWords(text, LeadOff(each, what));
    NothingReplaced(each, what, "daily", "weekdays");
    Led(each, what, "every ", "each ");
    AtNowhere(what, " at ", 1);
  }

  lemma ShortWhat(what: string, p: string, q: string, mark: string)
    requires (what == "hour" || what == "day" || what == "weekday") && p == "daily" && q == "weekdays" && mark == " at "
    ensures IsWhat(what)
  {
    assert forall i :: 0 <= i < |what| ==> 'a' <= what[i] <= 'z';
    FreePair(what, p, 1);
    FreeWord(what, q);
    FreePair(what + " ", mark, 0);
  }

  /** "every hour", and "every hour at" a time, of which the minutes count. */
  lemma HourRead(text: string, each: bool, t: Time)
    requires IsTime(t) && t.half.gap <= 1 && Fields(Lower(text)) == Fields(LeadOff(each, At("hour", TimeText(t))))
    ensures ParsePhrase(text) ==
      if TimeMeant(t).None? then None else Some(Choice(Hour, 0, TimeMeant(t).value.1, []))
  {
    ShortWhat("hour", "daily", "weekdays", " at ");
    PhraseReads(text, each, "hour", t);
    TimeReadExactly(t);
    ShortTime(t);
  }

  lemma HourReadAlone(text: string, each: bool)
    requires Fields(Lower(text)) == Fields(LeadOff(each, "hour"))
    ensures ParsePhrase(text) == Some(Choice(Hour, 0, 0, []))
  {
    ShortWhat("hour", "daily", "weekdays", " at ");
    PhraseReadsAlone(text, each, "hour");
  }

  /** What a phrase of a whole day, a weekday or listed days means at a time. */
  function Timed(frequency: Frequency, days: seq<int>, t: Time): Option<Choice>
    requires IsTime(t)
  {
    if TimeMeant(t).None? then None
    else Some(Choice(frequency, TimeMeant(t).value.0, TimeMeant(t).value.1, days))
  }

  lemma DayRead(text: string, each: bool, what: string, frequency: Frequency, t: Time)
    requires (what == "day" && frequency == Day) || (what == "weekday" && frequency == Weekday)
    requires IsTime(t) && t.half.gap <= 1 && Fields(Lower(text)) == Fields(LeadOff(each, At(what, TimeText(t))))
    ensures ParsePhrase(text) == Timed(frequency, [], t)
  {
    ShortWhat(what, "daily", "weekdays", " at ");
    PhraseReads(text, each, what, t);
    TimeReadExactly(t);
    ShortTime(t);
    OneDay(what, frequency, TimeText(t));
  }

  lemma OneDay(what: string, frequency: Frequency, time: string)
    requires (what == "day" && frequency == Day) || (what == "weekday" && frequency == Weekday)
    ensures ReadChoice(what, Some(time)) ==
      if ParseTime(time).None? then None
      else Some(Choice(frequency, ParseTime(time).value.0, ParseTime(time).value.1, []))
  {
    assert "hour"[0] == 'h' && "day"[0] == 'd' && "weekday"[0] == 'w';
  }

  /** Without a time only the hour is understood. */
  lemma NoTimeRefused(text: string, each: bool, what: string)
    requires IsWhat(what) && what != "hour" && Fields(Lower(text)) == Fields(LeadOff(each, what))
    ensures ParsePhrase(text) == None
  {
    PhraseReadsAlone(text, each, what);
  }

  // ---- "daily" and "weekdays" --------------------------------------------------------------

  lemma ReplaceFirst(p: string, r: string, q: string)
    requires p != "" && Free(r, p)
    ensures Replace(p + r, p, q) == q + r
  {
    assert (p + r)[..|p|] == p && (p + r)[|p|..] == r;
    ReplaceFree(r, p, q);
  }

  function AtTail(time: string): string {
    [' '] + ("at" + ([' '] + time))
  }

  lemma FullText(full: string, what: string, time: string)
    requires full == "every" + ([' '] + what)
    ensures full + AtTail(time) == LeadOff(false, At(what, time))
  {
  }

  lemma ShortText(word: string, time: string)
    ensures At(word, time) == word + AtTail(time) && At("", time) == AtTail(time)
  {
  }

  lemma DailyExpands(t: Time, daily: string, weekdays: string, day: string)
    requires daily == "daily" && weekdays == "weekdays" && day == "day" && IsTime(t) && t.half.gap <= 1
    ensures ExpandDays(At(daily, TimeText(t))) == LeadOff(false, At(day, TimeText(t)))
  {
    var time := TimeText(t);
    FreeAt("", t, daily, daily, weekdays);
    ShortText(daily, time);
    ReplaceFirst(daily, AtTail(time), "every" + ([' '] + day));
    FullText("every" + ([' '] + day), day, time);
    FreeWord(day, weekdays);
    FreeAt(day, t, weekdays, daily, weekdays);
    FreeLed(false, At(day, time), weekdays, daily, weekdays);
    ReplaceFree(LeadOff(false, At(day, time)), weekdays, "every" + ([' '] + "weekday"));
    Expansion(At(daily, time), daily, weekdays, "every" + ([' '] + day), "every" + ([' '] + "weekday"));
  }

  lemma WeekdaysExpands(t: Time, daily: string, weekdays: string, weekday: string)
    requires daily == "daily" && weekdays == "weekdays" && weekday == "weekday" && IsTime(t) && t.half.gap <= 1
    ensures ExpandDays(At(weekdays, TimeText(t))) == LeadOff(false, At(weekday, TimeText(t)))
  {
    var time := TimeText(t);
    FreeChar(weekdays, daily, 3);
    FreeAt(weekdays, t, daily, daily, weekdays);
    ReplaceFree(At(weekdays, time), daily, "every" + ([' '] + "day"));
    FreeAt("", t, weekdays, daily, weekdays);
    ShortText(weekdays, time);
    ReplaceFirst(weekdays, AtTail(time), "every" + ([' '] + weekday));
    FullText("every" + ([' '] + weekday), weekday, time);
    Expansion(At(weekdays, time), daily, weekdays, "every" + ([' '] + "day"), "every" + ([' '] + weekday));
  }

  lemma Expansion(s: string, daily: string, weekdays: string, day: string, weekday: string)
    requires daily == "daily" && weekdays == "weekdays"
    requires day == "every" + ([' '] + "day") && weekday == "every" + ([' '] + "weekday")
    ensures ExpandDays(s) == Replace(Replace(s, daily, day), weekdays, weekday)
  {
    assert day == "every day" && weekday == "every weekday";
  }

  /** "daily at" is short for "every day at", and "weekdays at" for "every weekday at". */
  lemma ShortRead(text: string, word: string, what: string, frequency: Frequency, t: Time)
    requires (word == "daily" && what == "day" && frequency == Day)
             || (word == "weekdays" && what == "weekday" && frequency == Weekday)
    requires IsTime(t) && t.half.gap <= 1 && Fields(Lower(text)) == Fields(At(word, TimeText(t)))
    ensures ParsePhrase(text) == Timed(frequency, [], t)
  {
    var time := TimeText(t);
    FreeTime(t, "daily", "weekdays");
    WordSpaced(word, time);
    ReadsWords(text, At(word, time));
    if frequency == Day {
      DailyExpands(t, "daily", "weekdays", "day");
    } else {
      WeekdaysExpands(t, "daily", "weekdays", "weekday");
    }
    ShortWhat(what, "daily", "weekdays", " at ");
    BodyReads(false, what, time);
    TimeReadExactly(t);
    ShortTime(t);
    OneDay(what, frequency, time);
  }

  lemma WordSpaced(word: string, time: string)
    requires (word == "daily" || word == "weekdays") && OneSpaced(time) && time != ""
    ensures OneSpaced(At(word, time))
  {
    SpacedAround("at", time);
    assert forall i :: 0 <= i < |word| ==> 'a' <= word[i] <= 'z';
    SpacedAround(word, "at" + ([' '] + time));
  }

  // ---- Lists of days -----------------------------------------------------------------------

  datatype Sign = Comma | Ampersand | And

  /** What stands between two items: one of three signs, with a space on either side or not. */
  datatype Mark = Mark(before: bool, sign: Sign, after: bool)

  function SignText(sign: Sign): string {
    match sign
    case Comma => ","
    case Ampersand => "&"
    case And => "and"
  }

  function Gap(there: bool): string {
    if there then [' '] else ""
  }

  function ListText(items: seq<string>, marks: seq<Mark>): string
    requires |items| == |marks| + 1
  {
    if marks == [] then items[0]
    else
      items[0]
      + (Gap(marks[0].before) + (SignText(marks[0].sign) + (Gap(marks[0].after) + ListText(items[1..], marks[1..]))))
  }

  /** No sign stands in the text. */
  predicate Uncut(s: string) {
    ',' !in s && '&' !in s && Free(s, "and")
  }

  predicate IsItem(item: string) {
    item != "" && !IsSpace(item[0]) && !IsSpace(item[|item| - 1]) && Uncut(item)
  }

  predicate AreItems(items: seq<string>) {
    forall i :: 0 <= i < |items| ==> IsItem(items[i])
  }

  /** The days that the items name; None when one of them names none. */
  function DaysNamed(items: seq<string>): Option<set<int>> {
    if exists i :: 0 <= i < |items| && DayOf(items[i]).None? then None
    else Some(set i | 0 <= i < |items| :: DayOf(items[i]).value)
  }

  lemma NamesStep(items: seq<string>)
    requires items != []
    ensures DaysNamed(items) ==
      match (DayOf(items[0]), DaysNamed(items[1..]))
      case (Some(d), Some(rest)) => Some({d} + rest)
      case _ => None
  {
    var rest := items[1..];
    assert forall i :: 0 < i < |items| ==> items[i] == rest[i - 1];
    assert forall i :: 0 <= i < |rest| ==> rest[i] == items[i + 1];
    if DaysNamed(items).Some? {
      assert DayOf(items[0]).Some?;
      assert DaysNamed(items).value == {DayOf(items[0]).value} + DaysNamed(rest).value;
    }
  }

  lemma NoItems(items: seq<string>)
    requires items == []
    ensures DaysNamed(items) == Some({})
  {
    assert DaysNamed(items).value == {};
  }

  lemma NoSeparator(p: string, s: string, mark: string)
    requires Uncut(p) && p != "" && mark == "and" && (s == "" || (s[0] != 'n' && s[0] != 'd'))
    ensures SeparatorLength(p + s) == 0 && Uncut(p[1..])
  {
    assert !Occurs(mark, p, 0);
    assert mark == ['a', 'n', 'd'];
    assert |p| >= 3 ==> p[0..3] == [p[0], p[1], p[2]];
    FreeTail(p, mark);
  }

  lemma {:induction false} SplitRun(word: string, p: string, s: string)
    requires Uncut(p) && (s == "" || (s[0] != 'n' && s[0] != 'd'))
    ensures SplitWords(word, p + s) == SplitWords(word + p, s)
    decreases |p|
  {
    if p == "" {
      assert p + s == s && word + p == word;
    } else {
      NoSeparator(p, s, "and");
      assert (p + s)[0] == p[0] && (p + s)[1..] == p[1..] + s;
      SplitRun(word + [p[0]], p[1..], s);
      assert word + [p[0]] + p[1..] == word + p;
    }
  }

  lemma SplitGap(word: string, there: bool, s: string)
    ensures SplitWords(word, Gap(there) + s) == SplitWords(word + Gap(there), s)
  {
    if there {
      assert ([' '] + s)[1..] == s;
    } else {
      assert "" + s == s && word + "" == word;
    }
  }

  lemma SplitSign(word: string, sign: Sign, text: string, s: string)
    requires text == SignText(sign)
    ensures SplitWords(word, text + s) == [word] + SplitWords("", s)
  {
    var t := text + s;
    assert t[0] == text[0] && t[|text|..] == s;
    assert sign == And ==> t[1] == text[1] && t[2] == text[2];
  }

  lemma Padded(before: bool, item: string, after: bool)
    requires item != "" && !IsSpace(item[0]) && !IsSpace(item[|item| - 1])
    ensures Strip(Gap(before) + item + Gap(after)) == item
  {
    StripNothing(item);
    var s := item + Gap(after);
    assert Gap(before) + item + Gap(after) == Gap(before) + s;
    assert before ==> (Gap(before) + s)[1..] == s;
    assert LStrip(Gap(before) + s) == s;
    assert after ==> s[..|s| - 1] == item;
    assert !after ==> s == item;
  }

  lemma ReadsOne(word: string, rest: seq<string>)
    ensures WordDays([word] + rest) ==
      match (WordDay(word), WordDays(rest))
      case (Some(d), Some(days)) => Some({d} + days)
      case _ => None
  {
    assert ([word] + rest)[1..] == rest;
  }

  /** The parser cuts a list at its signs, and nowhere else. */
  lemma CutsFirst(before: bool, item: string, mark: Mark, rest: string, sign: string)
    requires IsItem(item) && sign == SignText(mark.sign)
    ensures SplitWords(Gap(before), item + (Gap(mark.before) + (sign + (Gap(mark.after) + rest))))
      == [Gap(before) + item + Gap(mark.before)] + SplitWords(Gap(mark.after), rest)
  {
    var tail := sign + (Gap(mark.after) + rest);
    assert (Gap(mark.before) + tail)[0] == if mark.before then ' ' else sign[0];
    SplitRun(Gap(before), item, Gap(mark.before) + tail);
    SplitGap(Gap(before) + item, mark.before, tail);
    SplitSign(Gap(before) + item + Gap(mark.before), mark.sign, sign, Gap(mark.after) + rest);
    SplitGap("", mark.after, rest);
    assert "" + Gap(mark.after) == Gap(mark.after);
  }

  lemma {:induction false} ReadsItems(before: bool, items: seq<string>, marks: seq<Mark>)
    requires |items| == |marks| + 1 && AreItems(items)
    ensures WordDays(SplitWords(Gap(before), ListText(items, marks))) == DaysNamed(items)
    decreases |marks|
  {
    NamesStep(items);
    if marks == [] {
      ReadsLast(before, items[0]);
      NoItems(items[1..]);
      assert forall d: int :: {d} + {} == {d};
    } else {
      ReadsItems(marks[0].after, items[1..], marks[1..]);
      var rest := ListText(items[1..], marks[1..]);
      CutsFirst(before, items[0], marks[0], rest, SignText(marks[0].sign));
      var piece := Gap(before) + items[0] + Gap(marks[0].before);
      ReadsOne(piece, SplitWords(Gap(marks[0].after), rest));
      Padded(before, items[0], marks[0].before);
      WordDayExactly(piece);
    }
  }

  lemma ReadsLast(before: bool, item: string)
    requires IsItem(item)
    ensures WordDays(SplitWords(Gap(before), item))
      == if DayOf(item).None? then None else Some({DayOf(item).value})
  {
    SplitRun(Gap(before), item, "");
    assert item + "" == item && Gap(before) + item + Gap(false) == Gap(before) + item;
    Padded(before, item, false);
    WordDayExactly(Gap(before) + item);
    ReadsWord(Gap(before) + item);
  }

  lemma ReadsWord(word: string)
    ensures WordDays(SplitWords(word, "")) == if WordDay(word).None? then None else Some({WordDay(word).value})
  {
    assert SplitWords(word, "") == [word] && [word] + [] == [word];
    ReadsOne(word, []);
    assert forall d: int :: {d} + {} == {d};
  }

  /** The three words that are no list. */
  predicate IsSpecial(what: string) {
    what == "hour" || what == "day" || what == "weekday"
  }

  /** A list of items, cut by commas, ampersands and the word "and", is read as the days that the first
      three letters of the items name, or refused when one of them names none. */
  lemma ListRead(text: string, each: bool, what: string, items: seq<string>, marks: seq<Mark>, t: Time)
    requires |items| == |marks| + 1 && AreItems(items) && what == ListText(items, marks)
    requires IsWhat(what) && !IsSpecial(what) && IsTime(t) && t.half.gap <= 1
    requires Fields(Lower(text)) == Fields(LeadOff(each, At(what, TimeText(t))))
    ensures ParsePhrase(text) ==
      if DaysNamed(items).None? then None else Timed(Days, WeekFrom(0, DaysNamed(items).value, 0), t)
  {
    ReadsItems(false, items, marks);
    DaysRead(text, each, what, DaysNamed(items), t);
  }

  lemma DaysRead(text: string, each: bool, what: string, days: Option<set<int>>, t: Time)
    requires IsWhat(what) && !IsSpecial(what) && IsTime(t) && t.half.gap <= 1
    requires WordDays(SplitWords("", what)) == days
    requires Fields(Lower(text)) == Fields(LeadOff(each, At(what, TimeText(t))))
    ensures ParsePhrase(text) == if days.None? then None else Timed(Days, WeekFrom(0, days.value, 0), t)
  {
    PhraseReads(text, each, what, t);
    TimeReadExactly(t);
    ShortTime(t);
    ListChoice(what, TimeText(t));
  }

  lemma ListChoice(what: string, time: string)
    requires !IsSpecial(what)
    ensures ReadChoice(what, Some(time)) ==
      if ParseTime(time).None? || WordDays(SplitWords("", what)).None? then None
      else Some(Choice(Days, ParseTime(time).value.0, ParseTime(time).value.1,
                       WeekFrom(0, WordDays(SplitWords("", what)).value, 0)))
  {
  }

  // ---- What is refused, and what is taken for a day ----------------------------------------

  lemma SeparatorInside(a: string, comma: string, r: string)
    requires a != "" && comma == ","
    ensures SeparatorLength(a + (comma + r)) <= |a|
  {
    var s := a + (comma + r);
    assert s[|a|] == comma[0];
  }

  lemma CutBySign(word: string, s: string, more: seq<string>, rest: seq<string>)
    requires s != "" && SeparatorLength(s) > 0 && SplitWords("", s[SeparatorLength(s)..]) == more + rest
    ensures SplitWords(word, s) == [word] + more + rest
  {
    SplitBySign(word, s, SeparatorLength(s));
    Regrouped(word, more, rest);
  }

  lemma SplitBySign(word: string, s: string, n: nat)
    requires s != "" && n == SeparatorLength(s) && n > 0
    ensures SplitWords(word, s) == [word] + SplitWords("", s[n..])
  {
  }

  lemma Regrouped(word: string, more: seq<string>, rest: seq<string>)
    ensures [word] + (more + rest) == [word] + more + rest
  {
  }

  lemma CutByLetter(word: string, s: string, c: char, r: string)
    requires s == [c] + r && SeparatorLength(s) == 0
    ensures SplitWords(word, s) == SplitWords(word + [c], r)
  {
    assert s[1..] == r;
  }

  /** A comma always ends a word. */
  lemma {:induction false} CutAtComma(word: string, a: string, comma: string, r: string) returns (front: seq<string>)
    requires comma == ","
    ensures SplitWords(word, a + (comma + r)) == front + SplitWords("", r)
    decreases |a|
  {
    var s := a + (comma + r);
    if a == "" {
      front := [word];
      assert s == comma + r;
      SplitSign(word, Comma, comma, r);
    } else {
      SeparatorInside(a, comma, r);
      var n := SeparatorLength(s);
      if n > 0 {
        var more := CutAtComma("", a[n..], comma, r);
        assert s[n..] == a[n..] + (comma + r);
        front := [word] + more;
        CutBySign(word, s, more, SplitWords("", r));
      } else {
        assert s == [a[0]] + (a[1..] + (comma + r));
        CutByLetter(word, s, a[0], a[1..] + (comma + r));
        front := CutAtComma(word + [a[0]], a[1..], comma, r);
      }
    }
  }

  lemma {:induction false} OneRefuses(front: seq<string>, rest: seq<string>)
    requires WordDays(rest).None?
    ensures WordDays(front + rest).None?
  {
    if front == [] {
      assert front + rest == rest;
    } else {
      OneRefuses(front[1..], rest);
      assert (front + rest)[1..] == front[1..] + rest;
    }
  }

  lemma EmptyItem(b: string)
    ensures WordDays(SplitWords("", [' '] + ("and" + b))).None?
  {
    SplitGap("", true, "and" + b);
    assert "" + Gap(true) == [' '];
    SplitSign([' '], And, "and", b);
    WordDayExactly([' ']);
    assert LStrip([' ']) == "";
    ReadsOne([' '], SplitWords("", b));
  }

  /** A comma before the last "and" makes an empty item, so the phrase is refused. */
  lemma OxfordRefused(text: string, each: bool, what: string, a: string, b: string, t: Time)
    requires what == a + ("," + ([' '] + ("and" + b))) && IsWhat(what) && IsTime(t) && t.half.gap <= 1
    requires Fields(Lower(text)) == Fields(LeadOff(each, At(what, TimeText(t))))
    ensures ParsePhrase(text) == None
  {
    CommaAnd(what, a, b);
    DaysRead(text, each, what, None, t);
  }

  lemma CommaAnd(what: string, a: string, b: string)
    requires what == a + ("," + ([' '] + ("and" + b)))
    ensures WordDays(SplitWords("", what)).None? && !IsSpecial(what)
  {
    var front := CutAtComma("", a, ",", [' '] + ("and" + b));
    EmptyItem(b);
    OneRefuses(front, SplitWords("", [' '] + ("and" + b)));
    NotSpelled(what, |a|, ",");
  }

  lemma NotSpelled(what: string, i: nat, comma: string)
    requires i < |what| && comma == "," && what[i] == comma[0]
    ensures !IsSpecial(what)
  {
  }

  lemma {:induction false} OneDayWeek(d: int, n: nat)
    requires 0 <= d <= 6 && n <= 7
    ensures WeekFrom(0, {d}, n) == if n <= d then [d] else []
    decreases 7 - n
  {
    if n < 7 {
      OneDayWeek(d, n + 1);
    }
  }

  lemma OneDayRead(text: string, each: bool, what: string, d: int, t: Time)
    requires IsWhat(what) && !IsSpecial(what) && IsTime(t) && t.half.gap <= 1 && 0 <= d <= 6
    requires WordDays(SplitWords("", what)) == Some({d})
    requires Fields(Lower(text)) == Fields(LeadOff(each, At(what, TimeText(t))))
    ensures ParsePhrase(text) == Timed(Days, [d], t)
  {
    DaysRead(text, each, what, Some({d}), t);
    OneDayWeek(d, 0);
  }

  lemma OneRead(text: string, each: bool, what: string, d: Option<int>, t: Time)
    requires IsWhat(what) && !IsSpecial(what) && IsTime(t) && t.half.gap <= 1 && (d.Some? ==> 0 <= d.value <= 6)
    requires WordDays(SplitWords("", what)) == if d.None? then None else Some({d.value})
    requires Fields(Lower(text)) == Fields(LeadOff(each, At(what, TimeText(t))))
    ensures ParsePhrase(text) == if d.None? then None else Timed(Days, [d.value], t)
  {
    if d.None? {
      DaysRead(text, each, what, None, t);
    } else {
      OneDayRead(text, each, what, d.value, t);
    }
  }

  lemma DayRange(word: string)
    ensures DayOf(word).Some? ==> 0 <= DayOf(word).value <= 6
  {
  }

  /** An item on its own is read as the day that its first three letters name, whatever comes behind
      them. */
  lemma ItemRead(text: string, each: bool, item: string, t: Time)
    requires IsItem(item) && IsWhat(item) && !IsSpecial(item) && IsTime(t) && t.half.gap <= 1
    requires Fields(Lower(text)) == Fields(LeadOff(each, At(item, TimeText(t))))
    ensures ParsePhrase(text) == if DayOf(item).None? then None else Timed(Days, [DayOf(item).value], t)
  {
    ReadsLast(false, item);
    DayRange(item);
    OneRead(text, each, item, DayOf(item), t);
  }

  predicate NoDay(item: string) {
    item == "month" || item == "mon-fri" || item == "monday to friday"
  }

  lemma NoDayLetters(item: string)
    requires NoDay(item)
    ensures |item| >= 5 && item[0] == 'm' && item[1] == 'o' && item[2] == 'n'
    ensures forall i :: 0 <= i < |item| ==> item[i] != 'l' && item[i] != 'k' && item[i] != ',' && item[i] != '&'
    ensures item[|item| - 1] != ' ' && forall i :: 0 <= i < |item| && IsSpace(item[i]) ==> item[i] == ' '
  {
  }

  lemma NoDayPairs(item: string)
    requires NoDay(item)
    ensures forall i :: 0 <= i < |item| && item[i] == ' ' ==> i + 1 < |item| && item[i + 1] != 'a' && item[i + 1] != ' '
    ensures forall i :: 0 <= i < |item| && item[i] == 'a' ==> i + 1 < |item| && item[i + 1] != 'n'
  {
  }

  lemma NoDayIsItem(item: string, sign: string)
    requires NoDay(item) && sign == "and"
    ensures IsItem(item) && OneSpaced(item) && DayOf(item) == Some(1)
  {
    NoDayLetters(item);
    NoDayPairs(item);
    FreePair(item, sign, 0);
  }

  lemma NoDayIsWhat(item: string, daily: string, weekdays: string, at: string)
    requires NoDay(item) && OneSpaced(item) && daily == "daily" && weekdays == "weekdays" && at == " at "
    ensures IsWhat(item) && !IsSpecial(item)
  {
    NoDayLetters(item);
    NoDayPairs(item);
    FreeOfBoth(item, daily, weekdays);
    FreePair(item + " ", at, 0);
  }

  /** So "every month", "every mon-fri" and "every monday to friday" all mean Mondays. */
  lemma TakenForMonday(text: string, item: string, t: Time)
    requires NoDay(item) && IsTime(t) && t.half.gap <= 1
    requires Fields(Lower(text)) == Fields(LeadOff(false, At(item, TimeText(t))))
    ensures ParsePhrase(text) == Timed(Days, [1], t)
  {
    NoDayIsItem(item, "and");
    NoDayIsWhat(item, "daily", "weekdays", " at ");
    ItemRead(text, false, item, t);
  }
}
