/** Which moments a cron text names, said of the calendar: the date, the weekday and the clock. */
module CronMatches {
  import opened Decimal
  import opened Options
  import opened Strings
  import opened Calendar
  import opened Cron
  import opened CronFields
  import opened CronParts
  import opened CronSearch

  /** Days of the week from Sunday on: 1 January of year 1 was a Monday. */
  function Weekday(d: Date): int {
    Ordinal(d) % 7
  }

  lemma NewYear2024WasMonday()
    ensures Weekday(Date(2024, 1, 1)) == 1
  {
  }

  /** A weekday field names a weekday by its number, and Sunday by 7 too. */
  predicate NamesWeekday(field: set<int>, weekday: int) {
    weekday in field || (weekday == 0 && 7 in field)
  }

  lemma SundayNamed(field: set<int>, weekday: int)
    requires 0 <= weekday <= 6
    ensures weekday in SundayAsZero(field) <==> NamesWeekday(field, weekday)
  {
    if weekday in SundayAsZero(field) {
      var n :| n in field && weekday == if n == 7 then 0 else n;
    }
    if weekday in field {
      assert weekday == if weekday == 7 then 0 else weekday;
    }
    if weekday == 0 && 7 in field {
      assert weekday == if 7 == 7 then 0 else 7;
    }
  }

  lemma WeekdayAt(d: Date, hour: int, minute: int)
    requires IsDate(d) && 0 <= hour <= 23 && 0 <= minute <= 59
    ensures CronWeekday(At(d, hour, minute)) == Weekday(d)
  {
    AtParts(d, hour, minute);
    WeekdayOn(At(d, hour, minute), Ordinal(d));
    WeekdayShift(Ordinal(d));
  }

  lemma WeekdayOn(t: int, day: int)
    requires t / 1440 == day
    ensures CronWeekday(t) == ((day + 6) % 7 + 1) % 7
  {
  }

  lemma WeekdayShift(n: int)
    ensures ((n + 6) % 7 + 1) % 7 == n % 7
  {
  }

  /** A parsed expression matches a moment exactly when its fields name the minute, the hour, the month,
      and the day: when both day fields are restricted one of them has to name it, otherwise both. */
  lemma ParsedMatches(f: seq<string>, raw: string, d: Date, hour: int, minute: int)
    requires ParseFields(f, raw).Some? && IsDate(d) && 0 <= hour <= 23 && 0 <= minute <= 59
    ensures var dayNamed := d.day in FieldSet(f[2], 1, 31).value;
      var weekdayNamed := NamesWeekday(FieldSet(f[4], 0, 7).value, Weekday(d));
      Matches(ParseFields(f, raw).value, At(d, hour, minute))
      <==> minute in FieldSet(f[0], 0, 59).value && hour in FieldSet(f[1], 0, 23).value
           && d.month in FieldSet(f[3], 1, 12).value
           && (if f[2] != "*" && f[4] != "*" then dayNamed || weekdayNamed else dayNamed && weekdayNamed)
  {
    AtParts(d, hour, minute);
    WeekdayAt(d, hour, minute);
    SundayNamed(FieldSet(f[4], 0, 7).value, Weekday(d));
  }

  // ---- Shortcuts -------------------------------------------------------------------------

  /** Minute, hour, day of the month and weekday are each a number or left open, and the month too. */
  lemma FieldNames(spec: string, low: int, high: int, n: int)
    requires spec == "*" || (IsDigits(spec) && low <= ReadNat(spec) <= high)
    requires low <= n <= high
    ensures FieldSet(spec, low, high).Some?
      && (n in FieldSet(spec, low, high).value <==> spec == "*" || n == ReadNat(spec))
  {
    if spec == "*" {
      StarField(low, high);
    } else {
      DigitsField(spec, low, high);
    }
  }

  predicate Open(spec: string, low: int, high: int) {
    spec == "*" || (IsDigits(spec) && low <= ReadNat(spec) <= high)
  }

  /** The number, or any when the field is left open. */
  predicate Fits(spec: string, n: int) {
    spec == "*" || (IsDigits(spec) && n == ReadNat(spec))
  }

  /** An expression of plain numbers and stars, with one of its day fields left open, matches exactly
      the moments that fit each field. */
  lemma PlainMatches(f: seq<string>, raw: string, d: Date, hour: int, minute: int)
    requires |f| == 5 && IsDate(d) && 0 <= hour <= 23 && 0 <= minute <= 59
    requires Open(f[0], 0, 59) && Open(f[1], 0, 23) && Open(f[2], 1, 31) && Open(f[3], 1, 12) && Open(f[4], 0, 6)
    requires f[2] == "*" || f[4] == "*"
    ensures ParseFields(f, raw).Some?
    ensures Matches(ParseFields(f, raw).value, At(d, hour, minute))
      <==> Fits(f[0], minute) && Fits(f[1], hour) && Fits(f[2], d.day) && Fits(f[3], d.month) && Fits(f[4], Weekday(d))
  {
    FieldNames(f[0], 0, 59, minute);
    FieldNames(f[1], 0, 23, hour);
    FieldNames(f[2], 1, 31, d.day);
    FieldNames(f[3], 1, 12, d.month);
    FieldNames(f[4], 0, 7, Weekday(d));
    FieldNames(f[4], 0, 7, 7);
    ParsedMatches(f, raw, d, hour, minute);
  }

  lemma ShortcutParses(text: string, full: string, f: seq<string>)
    requires text != "" && !IsSpace(text[0]) && !IsSpace(text[|text| - 1]) && Lower(text) == text
    requires Shortcut(text) == Some(full) && Fields(full) == f
    ensures ParseCron(text) == ParseFields(f, full)
  {
    StripNothing(text);
  }

  lemma LowerAlready(text: string)
    requires forall i :: 0 <= i < |text| ==> !('A' <= text[i] <= 'Z')
    ensures Lower(text) == text
  {
  }

  lemma ShortcutFields(text: string, full: string, minute: string, hour: string, dom: string, month: string,
                       dow: string)
    requires text != "" && !IsSpace(text[0]) && !IsSpace(text[|text| - 1])
    requires forall i :: 0 <= i < |text| ==> !('A' <= text[i] <= 'Z')
    requires Shortcut(text) == Some(full) && full == FiveFields(minute, hour, dom, month, dow)
    requires IsWord(minute) && IsWord(hour) && IsWord(dom) && IsWord(month) && IsWord(dow)
    ensures ParseCron(text) == ParseFields([minute, hour, dom, month, dow], full)
  {
    LowerAlready(text);
    FieldsOfFive(minute, hour, dom, month, dow);
    ShortcutParses(text, full, [minute, hour, dom, month, dow]);
  }

  lemma ShortcutLiterals(zero: string, one: string, star: string)
    requires zero == "0" && one == "1" && star == "*"
    ensures IsWord(zero) && IsWord(one) && IsWord(star) && IsDigits(zero) && IsDigits(one) && !IsDigits(star)
    ensures ReadNat(zero) == 0 && ReadNat(one) == 1 && zero != star && one != star
  {
    assert zero[0] == '0' && one[0] == '1' && star[0] == '*';
  }

  lemma ShortcutText(full: string, zero: string, hour: string, dom: string, month: string, dow: string)
    requires |full| == 9 && |zero| == |hour| == |dom| == |month| == |dow| == 1
    requires full[0] == zero[0] && full[2] == hour[0] && full[4] == dom[0] && full[6] == month[0] && full[8] == dow[0]
    requires full[1] == full[3] == full[5] == full[7] == ' '
    ensures FiveFields(zero, hour, dom, month, dow) == full
  {
    var built := FiveFields(zero, hour, dom, month, dow);
    assert built[0] == zero[0] && built[1] == ' ' && built[2] == hour[0] && built[3] == ' ' && built[4] == dom[0];
    assert built[5] == ' ' && built[6] == month[0] && built[7] == ' ' && built[8] == dow[0];
  }

  datatype Often = Yearly | Monthly | Weekly | Daily | Hourly

  predicate Says(text: string, often: Often) {
    match often
    case Yearly => text == "@yearly" || text == "@annually"
    case Monthly => text == "@monthly"
    case Weekly => text == "@weekly"
    case Daily => text == "@daily" || text == "@midnight"
    case Hourly => text == "@hourly"
  }

  function FieldsFor(often: Often, zero: string, one: string, star: string): seq<string> {
    match often
    case Yearly => [zero, zero, one, one, star]
    case Monthly => [zero, zero, one, star, star]
    case Weekly => [zero, zero, star, star, zero]
    case Daily => [zero, zero, star, star, star]
    case Hourly => [zero, star, star, star, star]
  }

  /** The first minute of the year, the month, the week, the day or the hour; weeks begin on Sunday. */
  predicate Begins(often: Often, d: Date, hour: int, minute: int) {
    minute == 0
    && (!often.Hourly? ==> hour == 0)
    && (often.Yearly? || often.Monthly? ==> d.day == 1)
    && (often.Yearly? ==> d.month == 1)
    && (often.Weekly? ==> Weekday(d) == 0)
  }

  lemma ShortcutShape(text: string, often: Often)
    requires Says(text, often)
    ensures text != "" && !IsSpace(text[0]) && !IsSpace(text[|text| - 1])
    ensures forall i :: 0 <= i < |text| ==> !('A' <= text[i] <= 'Z')
  {
  }

  lemma ShortcutFull(text: string, often: Often, zero: string, one: string, star: string)
    requires Says(text, often) && zero == "0" && one == "1" && star == "*"
    ensures var f := FieldsFor(often, zero, one, star);
      Shortcut(text) == Some(FiveFields(f[0], f[1], f[2], f[3], f[4]))
  {
    var f := FieldsFor(often, zero, one, star);
    ShortcutText(Shortcut(text).value, zero, f[1], f[2], f[3], f[4]);
  }

  lemma ShortcutIs(text: string, often: Often, f: seq<string>, zero: string, one: string, star: string)
    requires Says(text, often) && zero == "0" && one == "1" && star == "*" && f == FieldsFor(often, zero, one, star)
    ensures exists full :: ParseCron(text) == ParseFields(f, full)
  {
    ShortcutShape(text, often);
    ShortcutFull(text, often, zero, one, star);
    ShortcutLiterals(zero, one, star);
    var full := FiveFields(f[0], f[1], f[2], f[3], f[4]);
    ShortcutFields(text, full, f[0], f[1], f[2], f[3], f[4]);
    assert f == [f[0], f[1], f[2], f[3], f[4]];
  }

  /** Each shortcut is accepted and matches exactly the first minute of what it names. */
  lemma ShortcutMatches(text: string, often: Often, d: Date, hour: int, minute: int)
    requires Says(text, often) && IsDate(d) && 0 <= hour <= 23 && 0 <= minute <= 59
    ensures ParseCron(text).Some?
    ensures Matches(ParseCron(text).value, At(d, hour, minute)) <==> Begins(often, d, hour, minute)
  {
    var f := FieldsFor(often, "0", "1", "*");
    ShortcutIs(text, often, f, "0", "1", "*");
    var full :| ParseCron(text) == ParseFields(f, full);
    ShortcutBegins(often, f, full, "0", "1", "*", d, hour, minute);
  }

  lemma ShortcutBegins(often: Often, f: seq<string>, raw: string, zero: string, one: string, star: string,
                       d: Date, hour: int, minute: int)
    requires zero == "0" && one == "1" && star == "*" && f == FieldsFor(often, zero, one, star)
    requires IsDate(d) && 0 <= hour <= 23 && 0 <= minute <= 59
    ensures ParseFields(f, raw).Some?
    ensures Matches(ParseFields(f, raw).value, At(d, hour, minute)) <==> Begins(often, d, hour, minute)
  {
    ShortcutLiterals(zero, one, star);
    PlainMatches(f, raw, d, hour, minute);
  }

  // ---- Which expressions are accepted ------------------------------------------------------

  lemma {:induction false} WordsSpaceless(s: string)
    ensures forall i :: 0 <= i < |Fields(s)| ==> Spaceless(Fields(s)[i])
    decreases |s|
  {
    if s != "" {
      if IsSpace(s[0]) {
        WordsSpaceless(s[1..]);
      } else {
        WordsSpaceless(s[FindSpace(s)..]);
      }
    }
  }

  ghost predicate Readable(spec: string, low: int, high: int) {
    exists pieces :: WrittenAs(spec, pieces, low, high)
  }

  /** Five fields, each a list of numbers, ranges and stars within its range. */
  ghost predicate FieldsReadable(f: seq<string>) {
    |f| == 5 && Readable(f[0], 0, 59) && Readable(f[1], 0, 23) && Readable(f[2], 1, 31) && Readable(f[3], 1, 12)
    && Readable(f[4], 0, 7)
  }

  lemma FieldsReadableExactly(f: seq<string>, raw: string)
    requires forall i :: 0 <= i < |f| ==> Spaceless(f[i])
    ensures ParseFields(f, raw).Some? <==> FieldsReadable(f)
  {
    if |f| == 5 {
      AcceptedExactly(f[0], 0, 59);
      AcceptedExactly(f[1], 0, 23);
      AcceptedExactly(f[2], 1, 31);
      AcceptedExactly(f[3], 1, 12);
      AcceptedExactly(f[4], 0, 7);
    }
  }

  lemma ListStart(pieces: seq<Piece>)
    requires pieces != [] && ArePieces(pieces)
    ensures ListText(pieces) != "" && ListText(pieces)[0] != '@'
  {
    PieceStart(pieces[0]);
    assert PieceText(pieces[0]) <= ListText(pieces);
  }

  lemma PieceStart(p: Piece)
    requires IsPiece(p)
    ensures PieceText(p) != "" && PieceText(p)[0] != '@'
  {
    PieceShape(p);
    match p.body
    case Star => assert PieceText(p)[0] == '*';
    case Blank => assert PieceText(p)[0] == '/';
    case One(a) => assert PieceText(p)[0] == a[0];
    case Span(a, b) => assert PieceText(p)[0] == a[0];
  }

  ghost predicate IsShortcut(text: string) {
    exists often :: Says(text, often)
  }

  lemma ShortcutExactly(text: string)
    ensures Shortcut(text).Some? <==> IsShortcut(text)
  {
    if Shortcut(text).Some? {
      var often :=
        if text == "@yearly" || text == "@annually" then Yearly
        else if text == "@monthly" then Monthly
        else if text == "@weekly" then Weekly
        else if text == "@daily" || text == "@midnight" then Daily
        else Hourly;
      assert Says(text, often);
    }
  }

  lemma FullAccepted(full: string, often: Often, f: seq<string>, zero: string, one: string, star: string)
    requires zero == "0" && one == "1" && star == "*" && f == FieldsFor(often, zero, one, star)
    requires full == FiveFields(f[0], f[1], f[2], f[3], f[4])
    ensures ParseFields(Fields(full), full).Some?
  {
    ShortcutLiterals(zero, one, star);
    FieldsOfFive(f[0], f[1], f[2], f[3], f[4]);
    assert f == [f[0], f[1], f[2], f[3], f[4]];
    ShortcutBegins(often, f, full, zero, one, star, Date(1, 1, 1), 0, 0);
  }

  lemma ShortcutAccepted(text: string, often: Often, zero: string, one: string, star: string)
    requires Says(text, often) && zero == "0" && one == "1" && star == "*"
    ensures Shortcut(text).Some? && ParseFields(Fields(Shortcut(text).value), Shortcut(text).value).Some?
  {
    ShortcutFull(text, often, zero, one, star);
    FullAccepted(Shortcut(text).value, often, FieldsFor(often, zero, one, star), zero, one, star);
  }

  lemma AtSignRefused(text: string)
    requires text != "" && text[0] == '@'
    ensures !FieldsReadable(Fields(text))
  {
    var f := Fields(text);
    assert f[0] == text[..FindSpace(text)] && f[0][0] == '@';
    if FieldsReadable(f) {
      var pieces :| WrittenAs(f[0], pieces, 0, 59);
      ListStart(pieces);
    }
  }

  /** An expression is accepted exactly when it is one of the shortcuts, in capitals or not, or has five
      fields, each of them a list of numbers, ranges and stars within its range, with steps or without. */
  lemma CronAcceptedExactly(expression: string)
    ensures ParseCron(expression).Some?
      <==> IsShortcut(Lower(Strip(expression))) || FieldsReadable(Fields(Strip(expression)))
  {
    var text := Strip(expression);
    WordsSpaceless(text);
    ShortcutExactly(Lower(text));
    if often :| Says(Lower(text), often) {
      ShortcutAccepted(Lower(text), often, "0", "1", "*");
    } else {
      FieldsReadableExactly(Fields(text), text);
      if text != "" && Lower(text)[0] == '@' {
        AtSignRefused(text);
      }
    }
  }
}
