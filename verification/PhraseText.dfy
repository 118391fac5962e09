/** Reading back the sentences that are shown: the text each parsing step of parse_phrase sees. */
module PhraseText {
  import opened Decimal
  import opened Options
  import opened Strings
  import opened Phrases

  // ---- The clock -------------------------------------------------------------------------

  function LowHalf(hour: nat): string {
    if hour < 12 then " am" else " pm"
  }

  /** The clock in lower case, as parse_phrase sees it. */
  function LowClock(hour: nat, minute: nat): string {
    NatText(ClockHour(hour)) + ":" + MinuteText(minute) + LowHalf(hour)
  }

  lemma LowerJoin(a: string, b: string)
    ensures Lower(a + b) == Lower(a) + Lower(b)
  {
    var l, r := Lower(a + b), Lower(a) + Lower(b);
    forall i | 0 <= i < |a + b| ensures l[i] == r[i] {
      assert l[i] == LowerChar((a + b)[i]);
      assert (a + b)[i] == if i < |a| then a[i] else b[i - |a|];
    }
    assert l == r;
  }

  predicate NoCapitals(s: string) {
    forall i :: 0 <= i < |s| ==> !('A' <= s[i] <= 'Z')
  }

  lemma LowerFixed(s: string)
    requires NoCapitals(s)
    ensures Lower(s) == s
  {
  }

  lemma MinuteDigits(minute: nat)
    requires minute < 60
    ensures var s := MinuteText(minute); |s| == 2 && IsDigits(s) && ReadNat(s) == minute
  {
    var s := MinuteText(minute);
    ReadNatText(minute);
    if minute < 10 {
      assert s[..1] == "0" && ReadNat("0") == 0;
    } else {
      assert |NatText(minute / 10)| == 1;
    }
  }

  lemma HourDigits(hour: nat)
    requires hour < 24
    ensures var s := NatText(ClockHour(hour)); 1 <= |s| <= 2 && IsDigits(s) && ReadNat(s) == ClockHour(hour)
  {
    ReadNatText(ClockHour(hour));
    if ClockHour(hour) >= 10 {
      assert |NatText(ClockHour(hour) / 10)| == 1;
    }
  }

  lemma LowerHalf(p: string, q: string)
    requires (p == " AM" && q == " am") || (p == " PM" && q == " pm")
    ensures Lower(p) == q
  {
    assert forall i :: 0 <= i < |p| ==> LowerChar(p[i]) == q[i];
  }

  lemma LowerClock(hour: nat, minute: nat)
    ensures Lower(Clock(hour, minute)) == LowClock(hour, minute)
  {
    var digits := NatText(ClockHour(hour)) + ":" + MinuteText(minute);
    LowerFixed(digits);
    if hour < 12 {
      LowerHalf(" AM", " am");
      LowerJoin(digits, " AM");
    } else {
      LowerHalf(" PM", " pm");
      LowerJoin(digits, " PM");
    }
  }

  lemma SkipsExactly(h: string, rest: string)
    requires IsDigits(h) && |h| <= 2 && (rest == [] || !IsDigit(rest[0]))
    ensures SkipDigits(h + rest, 2) == |h|
  {
    var s := h + rest;
    if |h| == 1 {
      assert s[1..] == rest;
    } else {
      assert s[1..][1..] == rest;
    }
  }

  lemma ReadsAfterHour(hour: nat, m: string, tail: string, half: Option<char>)
    requires IsDigits(m) && |m| == 2 && Meridiem(tail) == Some(half)
    ensures ReadAfterHour(hour, ":" + m + tail) == OnTheDay(hour, Some(ReadNat(m)), half)
  {
    CutMinutes(m, tail, ":" + m + tail);
  }

  lemma CutMinutes(m: string, tail: string, rest: string)
    requires rest == ":" + m + tail && |m| == 2
    ensures rest[0] == ':' && rest[1] == m[0] && rest[2] == m[1] && rest[1..3] == m && rest[3..] == tail
  {
  }

  lemma ReadsHour(cleaned: string, h: string, rest: string)
    requires cleaned == h + rest && |cleaned| <= 16 && IsDigits(h) && |h| <= 2 && (rest == "" || !IsDigit(rest[0]))
    ensures ReadClock(cleaned) == ReadAfterHour(ReadNat(h), rest)
  {
    SkipsExactly(h, rest);
    assert cleaned[..|h|] == h && cleaned[|h|..] == rest;
  }

  // ---- Every time of day -------------------------------------------------------------------

  /** What may stand behind the digits: spaces, a or p, a dot, an m and a dot, each of them or not. */
  datatype Half = Half(gap: nat, afternoon: Option<bool>, dot: bool, m: bool, point: bool)

  /** A time as it is written: an hour, perhaps minutes, perhaps the half of the day. */
  datatype Time = Time(hour: string, minutes: Option<string>, half: Half)

  predicate IsTime(t: Time) {
    IsDigits(t.hour) && |t.hour| <= 2 && (t.minutes.Some? ==> IsDigits(t.minutes.value) && |t.minutes.value| == 2)
    && (t.half.gap > 0 ==> HalfMark(t.half) != "")
  }

  function Spaces(n: nat): (s: string)
    ensures |s| == n && forall i :: 0 <= i < n ==> s[i] == ' '
  {
    if n == 0 then "" else [' '] + Spaces(n - 1)
  }

  function One(there: bool, c: char): string {
    if there then [c] else ""
  }

  function HalfMark(half: Half): string {
    HalfLetter(half) + (One(half.dot, '.') + (One(half.m, 'm') + One(half.point, '.')))
  }

  function HalfLetter(half: Half): string {
    if half.afternoon.None? then "" else if half.afternoon.value then ['p'] else ['a']
  }

  function HalfText(half: Half): string {
    Spaces(half.gap) + HalfMark(half)
  }

  function TimeTail(t: Time): string {
    if t.minutes.Some? then ":" + t.minutes.value + HalfText(t.half) else HalfText(t.half)
  }

  function TimeText(t: Time): string {
    t.hour + TimeTail(t)
  }

  /** The hour and minute on a 24-hour clock, if the time says them: twelve hours in either half of the
      day, or the 24-hour form, which needs its minutes. */
  function TimeMeant(t: Time): Option<(int, int)>
    requires IsTime(t)
  {
    var h, m := ReadNat(t.hour), if t.minutes.Some? then ReadNat(t.minutes.value) else 0;
    if m > 59 then None
    else if t.half.afternoon.None? then if t.minutes.Some? && h <= 23 then Some((h, m)) else None
    else if h < 1 || h > 12 then None
    else if t.half.afternoon.value then Some((if h == 12 then 12 else h + 12, m))
    else Some((if h == 12 then 0 else h, m))
  }

  function LetterOf(half: Half): Option<char> {
    if half.afternoon.None? then None else Some(if half.afternoon.value then 'p' else 'a')
  }

  lemma {:induction false} LStripGap(n: nat, s: string)
    requires s == "" || !IsSpace(s[0])
    ensures LStrip(Spaces(n) + s) == s
  {
    if n == 0 {
      assert Spaces(0) + s == s;
    } else {
      assert (Spaces(n) + s)[1..] == Spaces(n - 1) + s;
      LStripGap(n - 1, s);
    }
  }

  /** Dot, m and dot behind the letter, each of them or not. */
  lemma MarkReads(letter: string, dot: bool, m: bool, point: bool)
    requires letter == "" || letter == "a" || letter == "p"
    ensures Meridiem(letter + (One(dot, '.') + (One(m, 'm') + One(point, '.'))))
      == Some(if letter == "" then None else Some(letter[0]))
  {
    var rest := One(dot, '.') + (One(m, 'm') + One(point, '.'));
    var s := letter + rest;
    assert LStrip(s) == s;
    assert letter != "" ==> s[1..] == rest;
    DotsGone(dot, m, point);
  }

  function AfterMarks(t1: string): string {
    var t2 := if t1 != [] && t1[0] == '.' then t1[1..] else t1;
    var t3 := if t2 != [] && t2[0] == 'm' then t2[1..] else t2;
    if t3 != [] && t3[0] == '.' then t3[1..] else t3
  }

  lemma DotsGone(dot: bool, m: bool, point: bool)
    ensures AfterMarks(One(dot, '.') + (One(m, 'm') + One(point, '.'))) == ""
  {
    var last := One(point, '.');
    var two := One(m, 'm') + last;
    assert m ==> two[1..] == last;
    assert !m ==> two == last;
    assert dot ==> (One(dot, '.') + two)[1..] == two;
    assert !dot ==> One(dot, '.') + two == two;
    assert point ==> last[1..] == "";
  }

  lemma HalfReads(half: Half)
    ensures Meridiem(HalfText(half)) == Some(LetterOf(half))
  {
    LStripGap(half.gap, HalfMark(half));
    MarkReads(HalfLetter(half), half.dot, half.m, half.point);
    assert LStrip(HalfMark(half)) == HalfMark(half);
  }

  predicate IsMark(c: char) {
    c == 'a' || c == 'p' || c == '.' || c == 'm'
  }

  lemma MarkShape(half: Half)
    ensures forall i :: 0 <= i < |HalfMark(half)| ==> IsMark(HalfMark(half)[i])
    ensures |HalfMark(half)| <= 4
  {
  }

  predicate IsTail(s: string, gap: nat) {
    (forall i :: 0 <= i < |s| ==> IsMark(s[i]) || (s[i] == ' ' && i < gap)) && (s != "" ==> IsMark(s[|s| - 1]))
  }

  lemma HalfShape(half: Half)
    requires half.gap > 0 ==> HalfMark(half) != ""
    ensures IsTail(HalfText(half), half.gap)
  {
    MarkShape(half);
    var s := HalfText(half);
    assert forall i :: half.gap <= i < |s| ==> s[i] == HalfMark(half)[i - half.gap];
  }

  lemma BareHour(hour: nat, tail: string, half: Option<char>)
    requires Meridiem(tail) == Some(half) && (tail == "" || tail[0] != ':')
    ensures ReadAfterHour(hour, tail) == OnTheDay(hour, None, half)
  {
  }

  lemma DayMeant(t: Time)
    requires IsTime(t)
    ensures TimeMeant(t) ==
      OnTheDay(ReadNat(t.hour), if t.minutes.Some? then Some(ReadNat(t.minutes.value)) else None, LetterOf(t.half))
  {
  }

  lemma TailRead(t: Time)
    requires IsTime(t)
    ensures ReadAfterHour(ReadNat(t.hour), TimeTail(t)) == TimeMeant(t)
    ensures TimeTail(t) == "" || !IsDigit(TimeTail(t)[0])
  {
    DayMeant(t);
    HalfReads(t.half);
    HalfShape(t.half);
    if t.minutes.Some? {
      ReadsAfterHour(ReadNat(t.hour), t.minutes.value, HalfText(t.half), LetterOf(t.half));
    } else {
      BareHour(ReadNat(t.hour), HalfText(t.half), LetterOf(t.half));
    }
  }

  /** The digits of a time, with the colon. */
  function TimeHead(t: Time): string {
    if t.minutes.Some? then t.hour + (":" + t.minutes.value) else t.hour
  }

  predicate IsHead(s: string) {
    s != "" && IsDigit(s[0]) && IsDigit(s[|s| - 1]) && forall i :: 0 <= i < |s| ==> IsDigit(s[i]) || s[i] == ':'
  }

  lemma HeadShape(t: Time)
    requires IsTime(t)
    ensures TimeText(t) == TimeHead(t) + HalfText(t.half) && IsHead(TimeHead(t)) && |TimeHead(t)| <= 5
  {
    if t.minutes.Some? {
      var h, m, half := t.hour, t.minutes.value, HalfText(t.half);
      assert h + (":" + m + half) == h + (":" + m) + half;
    }
  }

  lemma HeadAndTail(head: string, tail: string, gap: nat)
    requires IsHead(head) && IsTail(tail, gap)
    ensures var s := head + tail;
      NoCapitals(s) && !IsSpace(s[0]) && !IsSpace(s[|s| - 1])
  {
  }

  lemma TimeIsClean(t: Time)
    requires IsTime(t)
    ensures Lower(Strip(TimeText(t))) == TimeText(t)
  {
    HeadShape(t);
    HalfShape(t.half);
    HeadAndTail(TimeHead(t), HalfText(t.half), t.half.gap);
    StripNothing(TimeText(t));
    LowerFixed(TimeText(t));
  }

  /** Every time written this way is read as what it means, unless it is longer than sixteen characters. */
  lemma TimeReadExactly(t: Time)
    requires IsTime(t)
    ensures ParseTime(TimeText(t)) == if |TimeText(t)| > 16 then None else TimeMeant(t)
  {
    TimeIsClean(t);
    if |TimeText(t)| <= 16 {
      TailRead(t);
      ReadsHour(TimeText(t), t.hour, TimeTail(t));
    }
  }

  lemma ShortTime(t: Time)
    requires IsTime(t) && t.half.gap <= 1
    ensures |TimeText(t)| <= 16
  {
    MarkShape(t.half);
  }

  // ---- The clock that is shown -------------------------------------------------------------

  function ClockTime(hour: nat, minute: nat): Time {
    Time(NatText(ClockHour(hour)), Some(MinuteText(minute)), Half(1, Some(hour >= 12), false, true, false))
  }

  lemma ClockIsTime(hour: nat, minute: nat)
    requires hour < 24 && minute < 60
    ensures IsTime(ClockTime(hour, minute)) && TimeMeant(ClockTime(hour, minute)) == Some((hour, minute))
  {
    HourDigits(hour);
    MinuteDigits(minute);
  }

  lemma ClockIsText(hour: nat, minute: nat)
    ensures LowClock(hour, minute) == TimeText(ClockTime(hour, minute))
  {
    var half := ClockTime(hour, minute).half;
    assert Spaces(1) == " ";
    HalfWords(hour, half, " am", " pm");
  }

  lemma HalfWords(hour: nat, half: Half, am: string, pm: string)
    requires half == Half(1, Some(hour >= 12), false, true, false) && am == " am" && pm == " pm"
    ensures LowHalf(hour) == HalfText(half)
  {
    assert Spaces(1) == [' '];
    assert am == [' ', 'a', 'm'] && pm == [' ', 'p', 'm'];
  }

  /** Every clock that is shown is read back as the same time. */
  lemma ClockReadBack(hour: nat, minute: nat)
    requires hour < 24 && minute < 60
    ensures ParseTime(LowClock(hour, minute)) == Some((hour, minute))
  {
    ClockIsTime(hour, minute);
    ClockIsText(hour, minute);
    ShortTime(ClockTime(hour, minute));
    TimeReadExactly(ClockTime(hour, minute));
  }

  // ---- Text the clean-up steps leave alone -------------------------------------------------

  predicate BadPair(a: char, b: char) {
    (a == ' ' && b == ' ') || (a == 'a' && b == 'i') || (a == 'y' && b == 's')
  }

  /** Only single spaces, and neither "daily" nor "weekdays" can occur. */
  predicate Tidy(s: string) {
    (forall i :: 0 <= i < |s| && IsSpace(s[i]) ==> s[i] == ' ')
    && forall i :: 0 <= i < |s| - 1 ==> !BadPair(s[i], s[i + 1])
  }

  lemma TidyJoin(a: string, b: string)
    requires Tidy(a) && Tidy(b) && (a == "" || b == "" || !BadPair(a[|a| - 1], b[0]))
    ensures Tidy(a + b)
  {
  }

  // ---- Where " at " is ---------------------------------------------------------------------

  predicate NoAt(s: string) {
    forall i :: 0 <= i < |s| && s[i] == ' ' ==> i + 2 < |s| && !(s[i + 1] == 'a' && s[i + 2] == 't')
  }

  lemma NoAtJoin(a: string, b: string)
    requires NoAt(a) && NoAt(b)
    ensures NoAt(a + b)
  {
  }

  lemma LowerSentence(shown: string, what: string, hour: nat, minute: nat, start: string, low: string, mark: string)
    requires Lower(shown) == what && start == "Every " && low == "every " && mark == " at "
    ensures Lower(start + shown + mark + Clock(hour, minute)) == low + (what + mark + LowClock(hour, minute))
  {
    LowerClock(hour, minute);
    LowerFixed(mark);
    LowerStart(start, low);
    LowerFour(start, shown, mark, Clock(hour, minute));
  }

  lemma LowerStart(start: string, low: string)
    requires start == "Every " && low == "every "
    ensures Lower(start) == low
  {
    assert forall i :: 0 <= i < |start| ==> LowerChar(start[i]) == low[i];
  }

  lemma LowerFour(a: string, b: string, c: string, d: string)
    ensures Lower(a + b + c + d) == Lower(a) + (Lower(b) + Lower(c) + Lower(d))
  {
    LowerJoin(a, b);
    LowerJoin(a + b, c);
    LowerJoin(a + b + c, d);
    Regroup(Lower(a), Lower(b), Lower(c), Lower(d));
  }

  lemma Regroup(a: string, b: string, c: string, d: string)
    ensures a + b + c + d == a + (b + c + d)
  {
  }

  // ---- Day names ---------------------------------------------------------------------------

  function LowName(d: int): string
    requires 0 <= d <= 6
  {
    match d
    case 0 => "sunday"
    case 1 => "monday"
    case 2 => "tuesday"
    case 3 => "wednesday"
    case 4 => "thursday"
    case 5 => "friday"
    case _ => "saturday"
  }

  lemma LowerName(d: int, shown: string, low: string)
    requires 0 <= d <= 6 && shown == DayName(d) && low == LowName(d)
    ensures Lower(shown) == low
  {
    if d <= 3 { LowerEarly(d, shown, low); } else { LowerLate(d, shown, low); }
  }

  lemma LowerEarly(d: int, shown: string, low: string)
    requires 0 <= d <= 3 && shown == DayName(d) && low == LowName(d)
    ensures Lower(shown) == low
  {
    assert forall i :: 0 <= i < |shown| ==> LowerChar(shown[i]) == low[i];
  }

  lemma LowerLate(d: int, shown: string, low: string)
    requires 4 <= d <= 6 && shown == DayName(d) && low == LowName(d)
    ensures Lower(shown) == low
  {
    assert forall i :: 0 <= i < |shown| ==> LowerChar(shown[i]) == low[i];
  }

  /** A name the word splitter cannot cut, and none of the clean-up steps touches. */
  predicate NameLike(p: string) {
    |p| >= 6 && p[0] != 'a' && p[|p| - 1] == 'y' && p[|p| - 2] == 'a'
    && (forall i :: 0 <= i < |p| ==> 'a' <= p[i] <= 'z')
    && (forall i :: 0 <= i < |p| && p[i] == 'a' ==> i + 1 < |p| && p[i + 1] != 'n' && p[i + 1] != 'i')
    && (forall i :: 0 <= i < |p| && p[i] == 'y' ==> i == |p| - 1)
    && (p[0] == 'w' ==> p[2] == 'd')
  }

  lemma NamesAreNameLike(d: int, p: string)
    requires 0 <= d <= 6 && p == LowName(d)
    ensures NameLike(p)
  {
    if d <= 3 { EarlyNameLike(d, p); } else { LateNameLike(d, p); }
  }

  lemma EarlyNameLike(d: int, p: string)
    requires 0 <= d <= 3 && p == LowName(d)
    ensures NameLike(p)
  {
  }

  lemma LateNameLike(d: int, p: string)
    requires 4 <= d <= 6 && p == LowName(d)
    ensures NameLike(p)
  {
  }
}
