/** Reading back the sentences that are shown. */
module PhraseDays {
  import opened Options
  import opened Strings
  import opened Phrases
  import opened PhraseText
  import opened PhraseReading

  // ---- The joined names in lower case ------------------------------------------------------

  function LowNames(days: seq<int>): seq<string>
    requires AreDays(days)
  {
    seq(|days|, i requires 0 <= i < |days| => LowName(days[i]))
  }

  predicate AllNameLike(names: seq<string>) {
    forall i :: 0 <= i < |names| ==> NameLike(names[i])
  }

  predicate LowersTo(names: seq<string>, lows: seq<string>) {
    |names| == |lows| && forall i :: 0 <= i < |names| ==> Lower(names[i]) == lows[i]
  }

  lemma LowerAround(a: string, mark: string, b: string)
    requires NoCapitals(mark)
    ensures Lower(a + mark + b) == Lower(a) + mark + Lower(b)
  {
    LowerJoin(a, mark);
    LowerJoin(a + mark, b);
    LowerFixed(mark);
  }

  lemma {:induction false} LowerCommas(names: seq<string>, lows: seq<string>)
    requires names != [] && LowersTo(names, lows)
    ensures Lower(JoinCommas(names)) == JoinCommas(lows)
  {
    if |names| > 1 {
      LowerCommas(names[1..], lows[1..]);
      LowerAround(names[0], ", ", JoinCommas(names[1..]));
    }
  }

  lemma LowerJoined(names: seq<string>, lows: seq<string>)
    requires names != [] && LowersTo(names, lows)
    ensures Lower(JoinDays(names)) == JoinDays(lows)
  {
    if |names| > 1 {
      var n := |names| - 1;
      LowerCommas(names[..n], lows[..n]);
      LowerAround(JoinCommas(names[..n]), " and ", names[n]);
    }
  }

  lemma LowerDays(days: seq<int>)
    requires days != [] && AreDays(days)
    ensures Lower(JoinDays(Names(days))) == JoinDays(LowNames(days)) && AllNameLike(LowNames(days))
  {
    forall i | 0 <= i < |days| ensures Lower(Names(days)[i]) == LowNames(days)[i] && NameLike(LowNames(days)[i]) {
      LowerName(days[i], DayName(days[i]), LowName(days[i]));
      NamesAreNameLike(days[i], LowName(days[i]));
    }
    LowerJoined(Names(days), LowNames(days));
  }

  /** Nothing the clean-up or the search for " at " reacts to, between two letters. */
  predicate Plainly(s: string) {
    |s| >= 2 && Tidy(s) && NoAt(s) && 'b' <= s[0] <= 'z' && s[|s| - 1] == 'y'
  }

  lemma NamePlainly(p: string)
    requires NameLike(p)
    ensures Plainly(p)
  {
  }

  lemma NoAtSpaced(s: string)
    requires Plainly(s)
    ensures NoAt([' '] + s) && Tidy([' '] + s)
  {
    TidyJoin([' '], s);
    var t := [' '] + s;
    assert forall i :: 0 < i < |t| ==> t[i] == s[i - 1];
  }

  lemma PlainlyAround(a: string, mark: string, b: string)
    requires Plainly(a) && Plainly(b) && (mark == "," || mark == " and")
    ensures Plainly(a + (mark + ([' '] + b)))
  {
    NoAtSpaced(b);
    TidyJoin(mark, [' '] + b);
    NoAtJoin(mark, [' '] + b);
    TidyJoin(a, mark + ([' '] + b));
    NoAtJoin(a, mark + ([' '] + b));
  }

  lemma Marks(a: string, b: string)
    ensures a + ", " + b == a + ("," + ([' '] + b))
    ensures a + " and " + b == a + (" and" + ([' '] + b))
  {
  }

  lemma {:induction false} PlainlyCommas(names: seq<string>)
    requires names != [] && AllNameLike(names)
    ensures Plainly(JoinCommas(names)) && names[0] <= JoinCommas(names)
  {
    NamePlainly(names[0]);
    if |names| > 1 {
      PlainlyCommas(names[1..]);
      PlainlyAround(names[0], ",", JoinCommas(names[1..]));
      Marks(names[0], JoinCommas(names[1..]));
    }
  }

  lemma PlainlyJoined(names: seq<string>)
    requires names != [] && AllNameLike(names)
    ensures Plainly(JoinDays(names)) && names[0] <= JoinDays(names)
  {
    if |names| == 1 {
      NamePlainly(names[0]);
    } else {
      var n := |names| - 1;
      PlainlyCommas(names[..n]);
      NamePlainly(names[n]);
      PlainlyAround(JoinCommas(names[..n]), " and", names[n]);
      Marks(JoinCommas(names[..n]), names[n]);
    }
  }

  lemma NoAtFree(what: string, at: string)
    requires NoAt(what) && at == " at "
    ensures Free(what + " ", at)
  {
    var s := what + " ";
    assert |at| == 4 && at[0] == ' ' && at[1] == 'a' && at[2] == 't';
    forall i: nat | i <= |s| ensures !Occurs(at, s, i) {
      if i + 4 <= |s| {
        assert s[i..i + 4][0] == what[i] && s[i..i + 4][1] == what[i + 1] && s[i..i + 4][2] == what[i + 2];
      }
    }
  }

  /** What is Tidy and has no " at " can stand between the first word and the time. */
  lemma PlainlyIsWhat(what: string, daily: string, weekdays: string, at: string)
    requires Plainly(what) && daily == "daily" && weekdays == "weekdays" && at == " at "
    ensures IsWhat(what)
  {
    FreePair(what, daily, 1);
    FreePair(what, weekdays, 6);
    NoAtFree(what, at);
  }

  function JoinMark(n: nat, i: nat): Mark {
    if i + 2 == n then Mark(true, And, true) else Mark(false, Comma, true)
  }

  function JoinMarks(n: nat): seq<Mark>
    requires n > 0
  {
    seq(n - 1, i requires 0 <= i < n - 1 => JoinMark(n, i))
  }

  lemma JoinStep(names: seq<string>)
    requires |names| > 2
    ensures JoinDays(names) == names[0] + ("," + ([' '] + JoinDays(names[1..])))
  {
    var n := |names| - 1;
    assert names[..n][1..] == names[1..][..n - 1] && names[1..][n - 1] == names[n];
    JoinShape(names[0], JoinCommas(names[1..][..n - 1]), names[n]);
  }

  lemma JoinShape(first: string, middle: string, last: string)
    ensures first + ", " + middle + " and " + last == first + ("," + ([' '] + (middle + " and " + last)))
    ensures first + " and " + last == first + ([' '] + ("and" + ([' '] + last)))
  {
  }

  lemma {:induction false} JoinIsList(names: seq<string>)
    requires names != []
    ensures JoinDays(names) == ListText(names, JoinMarks(|names|))
  {
    var n := |names|;
    if n == 2 {
      JoinShape(names[0], "", names[1]);
      assert JoinCommas(names[..1]) == names[0];
    } else if n > 2 {
      JoinIsList(names[1..]);
      JoinStep(names);
      assert JoinMarks(n)[1..] == JoinMarks(n - 1);
    }
  }

  lemma NameIsItem(name: string, d: int, sign: string)
    requires 0 <= d <= 6 && name == LowName(d) && sign == "and"
    ensures IsItem(name) && DayOf(name) == Some(d)
  {
    NamesAreNameLike(d, name);
    FreePair(name, sign, 0);
  }

  lemma NamesAreItems(days: seq<int>)
    requires AreDays(days)
    ensures AreItems(LowNames(days)) && DaysNamed(LowNames(days)) == Some(DaySet(days))
  {
    var names := LowNames(days);
    forall i | 0 <= i < |names| ensures IsItem(names[i]) && DayOf(names[i]) == Some(days[i]) {
      NameIsItem(names[i], days[i], "and");
    }
    assert DaysNamed(names).value == DaySet(days);
  }

  lemma NotSpecial(what: string, name: string)
    requires NameLike(name) && name <= what && what[|what| - 1] == 'y'
    ensures !IsSpecial(what)
  {
    assert name[0] == what[0] && name[2] == what[2];
  }

  lemma ShownText(shown: string, what: string, hour: nat, minute: nat)
    requires Lower(shown) == what
    ensures Lower(EveryAt(shown, hour, minute)) == LeadOff(false, At(what, TimeText(ClockTime(hour, minute))))
  {
    LowerSentence(shown, what, hour, minute, "Every ", "every ", " at ");
    ClockIsText(hour, minute);
    Sentence(what, LowClock(hour, minute), "every ", " at ");
  }

  lemma Sentence(what: string, clock: string, low: string, mark: string)
    requires low == "every " && mark == " at "
    ensures low + (what + mark + clock) == LeadOff(false, At(what, clock))
  {
    assert low == "every" + [' '] && mark == [' '] + ("at" + [' ']);
  }

  lemma NamesAreWhat(what: string, names: seq<string>)
    requires names != [] && AllNameLike(names) && what == JoinDays(names)
    ensures IsWhat(what)
  {
    PlainlyJoined(names);
    PlainlyIsWhat(what, "daily", "weekdays", " at ");
  }

  lemma NamesNotSpecial(what: string, names: seq<string>)
    requires names != [] && AllNameLike(names) && what == JoinDays(names)
    ensures !IsSpecial(what)
  {
    PlainlyJoined(names);
    NotSpecial(what, names[0]);
  }

  /** A sentence that lists days is read back as those days at that time. */
  lemma DaysReadBack(days: seq<int>, hour: nat, minute: nat)
    requires days != [] && AreDays(days) && hour < 24 && minute < 60
    ensures ParsePhrase(EveryAt(JoinDays(Names(days)), hour, minute))
      == Some(Choice(Days, hour, minute, WeekFrom(0, DaySet(days), 0)))
  {
    var what, names := JoinDays(LowNames(days)), LowNames(days);
    LowerDays(days);
    NamesAreWhat(what, names);
    NamesNotSpecial(what, names);
    JoinIsList(names);
    NamesAreItems(days);
    ShownText(JoinDays(Names(days)), what, hour, minute);
    ClockIsTime(hour, minute);
    var text := EveryAt(JoinDays(Names(days)), hour, minute);
    ListRead(text, false, what, names, JoinMarks(|names|), ClockTime(hour, minute));
  }

  /** So are the daily sentence and the weekday sentence. */
  lemma WordReadBack(word: string, frequency: Frequency, hour: nat, minute: nat)
    requires (word == "day" && frequency == Day) || (word == "weekday" && frequency == Weekday)
    requires hour < 24 && minute < 60
    ensures ParsePhrase(EveryAt(word, hour, minute)) == Some(Choice(frequency, hour, minute, []))
  {
    LowerFixed(word);
    ShownText(word, word, hour, minute);
    ClockIsTime(hour, minute);
    DayRead(EveryAt(word, hour, minute), false, word, frequency, ClockTime(hour, minute));
  }
}
