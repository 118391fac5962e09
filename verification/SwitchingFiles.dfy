/** Small schedules files that the edit of the switch goes wrong on, each one the parser accepts. */
module SwitchingFiles {
  import opened Options
  import opened Strings
  import opened Switching

  // ---- Lines -------------------------------------------------------------------------------

  function Line(n: nat, text: string): string {
    Spaces(n) + (text + "\n")
  }

  predicate Trimmed(text: string) {
    text != "" && !IsSpace(text[0]) && !IsSpace(text[|text| - 1])
  }

  lemma LineReads(n: nat, text: string)
    requires Trimmed(text)
    ensures Strip(Line(n, text)) == text && Indent(Line(n, text)) == n
  {
    LStripSpaces(n, text + "\n");
    RStripNewline(text);
  }

  /** A line that is neither a key alone, nor a comment, nor a switch. */
  predicate IsPlainLine(line: string, n: nat) {
    Indent(line) == n && IsContent(line) && !IsKey(line) && !IsSwitch(line)
  }

  predicate IsKeyOf(line: string, n: nat, word: string) {
    Indent(line) == n && IsContent(line) && IsKey(line) && RStripColons(Strip(line)) == word
  }

  lemma PlainLine(n: nat, text: string)
    requires Trimmed(text) && text[0] != 'e' && text[0] != '#' && text[|text| - 1] != ':'
    ensures IsPlainLine(Line(n, text), n)
  {
    LineReads(n, text);
  }

  /** A field other than the switch, with its value on the same line. */
  predicate IsFieldLine(line: string, n: nat) {
    IsPlainLine(line, n) && ItemOf(line).kind == OtherField
  }

  lemma FieldLine(n: nat, text: string, word: string, value: string)
    requires IsWordText(word) && word != "enabled" && word[0] != 'e' && Trimmed(value) && value[|value| - 1] != ':'
    requires text == word + (": " + value)
    ensures IsFieldLine(Line(n, text), n)
  {
    NamedField(text, word, value);
    assert text[0] == word[0] && text[|text| - 1] == value[|value| - 1];
    PlainLine(n, text);
    LineReads(n, text);
  }

  lemma LauncherLine(launcher: string)
    requires launcher == "launcher: a"
    ensures IsFieldLine(Line(4, launcher), 4)
  {
    FieldLine(4, launcher, "launcher", "a");
  }

  lemma CronLine(cron: string)
    requires cron == "cron: '@daily'"
    ensures IsFieldLine(Line(4, cron), 4)
  {
    FieldLine(4, cron, "cron", "'@daily'");
  }

  lemma OneColon(word: string)
    requires word != "" && word[|word| - 1] != ':'
    ensures RStripColons(word + ":") == word
  {
    assert (word + ":")[..|word|] == word;
  }

  lemma KeyLine(n: nat, word: string)
    requires Trimmed(word) && word[0] != '#' && word[|word| - 1] != ':'
    ensures IsKeyOf(Line(n, word + ":"), n, word) && (word[0] != 'e' ==> !IsSwitch(Line(n, word + ":")))
  {
    LineReads(n, word + ":");
    OneColon(word);
  }

  /** A word and a colon alone read as a field whose value is yet to come. */
  lemma KeyReads(n: nat, word: string)
    requires IsWordText(word)
    ensures var item := ItemOf(Line(n, word + ":"));
      item.kind == (if word == "enabled" then Enabled else OtherField) && item.value == None
  {
    var text := word + ":";
    assert forall i :: 0 <= i < |word| ==> text[i] == word[i];
    WordEnds(text, |word|);
    assert text[..|word|] == word && text[|word|..] == ":" && LStrip(":") == ":" && LStrip("") == "";
    LineReads(n, text);
  }

  // ---- Blocks ------------------------------------------------------------------------------

  /** A file that starts with the section and one entry of the given name. */
  predicate Starts(lines: Lines, section: string, name: string) {
    |lines| >= 2 && IsKeyOf(lines[0], 0, section) && (section == "schedules" || section == "loops")
    && IsKeyOf(lines[1], 2, name)
  }

  lemma StartsFound(lines: Lines, section: string, name: string)
    requires Starts(lines, section, name)
    ensures Entry(lines, name) == Some(1)
  {
    assert EntryFrom(lines, 1, Some(section), name) == Some(1);
  }

  /** Every line of the entry at line 1 up to line `stop` is a line of its own, and the entry ends
      there. */
  predicate EntryBlock(lines: Lines, stop: nat) {
    2 <= stop < |lines| && Indent(lines[1]) == 2
    && (forall i :: 2 <= i < stop ==> IsContent(lines[i]) && Indent(lines[i]) > 2)
    && IsContent(lines[stop]) && Indent(lines[stop]) <= 2
  }

  lemma {:induction false} BlockItems(lines: Lines, i: nat, stop: nat)
    requires EntryBlock(lines, stop) && 2 <= i <= stop
    ensures var items := ItemsFrom(lines[i..], 2);
      |items| == stop - i && forall j :: 0 <= j < |items| ==> items[j] == ItemOf(lines[i + j])
    decreases stop - i
  {
    if i < stop {
      BlockItems(lines, i + 1, stop);
      assert lines[i..][1..] == lines[i + 1..];
    }
  }

  lemma EntryItems(lines: Lines, stop: nat)
    requires EntryBlock(lines, stop)
    ensures var items := Items(lines, 1);
      |items| == stop - 2 && forall j :: 0 <= j < |items| ==> items[j] == ItemOf(lines[2 + j])
  {
    BlockItems(lines, 2, stop);
  }

  /** A block without a switch gives the new line the indentation of its last line. */
  lemma {:induction false} LastIndent(lines: Lines, j: nat, stop: nat, sofar: nat)
    requires j < stop <= |lines| && !IsBlank(lines[stop - 1])
    ensures FieldIndent(lines, j, stop, sofar) == Indent(lines[stop - 1])
    decreases stop - j
  {
    var next := if IsBlank(lines[j]) then sofar else Indent(lines[j]);
    if j + 1 < stop {
      LastIndent(lines, j + 1, stop, next);
    } else {
      assert FieldIndent(lines, stop, stop, next) == next;
    }
  }

  lemma StopsAt(lines: Lines, stop: nat)
    requires |lines| > stop > 2 && Indent(lines[1]) == 2 && !IsBlank(lines[stop - 1])
    requires EndsBlock(lines[stop], 2) && !IsSwitch(lines[stop])
    requires forall i :: 2 <= i < stop ==> !EndsBlock(lines[i], 2) && !IsSwitch(lines[i])
    ensures StopFrom(lines, 2, 2) == stop && WrittenIndent(lines, 1) == Indent(lines[stop - 1])
  {
    StopIs(lines, 2, 2, stop);
    LastIndent(lines, 2, stop, 4);
  }

  /** The rest of each file: the launcher its schedules use. */
  function Launchers(): Lines {
    [Line(0, "launchers:"), Line(2, "a:"), Line(4, "url: https://example.com")]
  }

  lemma LaunchersKey(word: string)
    requires word == "launchers"
    ensures IsKeyOf(Launchers()[0], 0, word) && !IsSwitch(Launchers()[0])
  {
    KeyLine(0, word);
    assert Launchers()[0] == Line(0, word + ":");
  }

  // ---- A value on a line of its own --------------------------------------------------------

  /** The last field of an entry without a switch has its value on a deeper line. */
  predicate DeepTail(lines: Lines) {
    EntryBlock(lines, 5) && IsFieldLine(lines[2], 4) && Indent(lines[3]) == 4 && !IsSwitch(lines[3])
    && ItemOf(lines[3]).kind == OtherField && IsPlainLine(lines[4], 6) && !IsSwitch(lines[5])
  }

  /** The new line goes above the fields at the indentation of that value, and the entry can no
      longer be read, whichever way the switch is turned. */
  lemma DeepTailBreaks(lines: Lines, on: bool)
    requires DeepTail(lines)
    ensures Readable(Items(lines, 1)) && Switched(lines, 1, on) == lines[..2] + [SwitchLine(6, on)] + lines[2..]
    ensures SwitchValue(Switched(lines, 1, on), 1) == None
  {
    StopsAt(lines, 5);
    EntryItems(lines, 5);
    EditedValue(lines, 1, on);
  }

  lemma DeepTailLines(launcher: string, cron: string, times: string)
    requires launcher == "launcher: a" && cron == "cron" && times == "'0 2 * * *'"
    ensures IsFieldLine(Line(4, launcher), 4) && IsPlainLine(Line(6, times), 6)
    ensures IsKeyLine(Line(4, cron + ":"), 4)
  {
    LauncherLine(launcher);
    KeyLine(4, cron);
    KeyReads(4, cron);
    PlainLine(6, times);
  }

  /** A field other than the switch, with its value on the next line. */
  predicate IsKeyLine(line: string, n: nat) {
    Indent(line) == n && IsContent(line) && !IsSwitch(line) && ItemOf(line).kind == OtherField
  }

  lemma DeepTailShape(lines: Lines)
    requires |lines| > 5 && IsFieldLine(lines[2], 4) && IsKeyLine(lines[3], 4) && IsPlainLine(lines[4], 6)
    requires Indent(lines[1]) == 2 && IsKeyOf(lines[5], 0, "launchers") && !IsSwitch(lines[5])
    ensures DeepTail(lines)
  {
  }

  /** A file of that kind: turning "nightly" off or on makes it one that cannot be loaded. */
  lemma BrokenFile(section: string, name: string, launcher: string, cron: string, times: string, lines: Lines)
    requires section == "schedules" && name == "nightly" && launcher == "launcher: a" && cron == "cron"
    requires times == "'0 2 * * *'"
    requires lines == [Line(0, section + ":"), Line(2, name + ":"), Line(4, launcher), Line(4, cron + ":"),
                       Line(6, times)] + Launchers()
    ensures Entry(lines, name) == Some(1) && forall on :: SwitchValue(Switched(lines, 1, on), 1) == None
  {
    StartsWith(lines, section, name);
    LaunchersKey("launchers");
    DeepTailLines(launcher, cron, times);
    DeepTailShape(lines);
    DeepTailBreaks(lines, true);
    DeepTailBreaks(lines, false);
  }

  lemma StartsWith(lines: Lines, section: string, name: string)
    requires section == "schedules" && Trimmed(name) && name[0] != '#' && name[|name| - 1] != ':'
    requires |lines| >= 2 && lines[0] == Line(0, section + ":") && lines[1] == Line(2, name + ":")
    ensures Entry(lines, name) == Some(1) && Indent(lines[1]) == 2
  {
    KeyLine(0, section);
    KeyLine(2, name);
    StartsFound(lines, section, name);
  }

  // ---- An entry named "enabled" ------------------------------------------------------------

  predicate NextIsSwitch(lines: Lines) {
    EntryBlock(lines, 4) && IsFieldLine(lines[2], 4) && IsFieldLine(lines[3], 4) && IsSwitch(lines[4])
  }

  lemma NextSwitchMissed(lines: Lines)
    requires NextIsSwitch(lines)
    ensures Missed(lines, 1) && forall on :: Switched(lines, 1, on) == lines
    ensures Readable(Items(lines, 1)) && SwitchValue(lines, 1) == None
  {
    StopIs(lines, 2, 2, 4);
    EntryItems(lines, 4);
  }

  /** The next entry is named "enabled", so turning "nightly" does nothing at all. */
  lemma MissedFile(section: string, name: string, launcher: string, cron: string, next: string, lines: Lines)
    requires section == "schedules" && name == "nightly" && launcher == "launcher: a" && cron == "cron: '@daily'"
    requires next == "enabled"
    requires lines == [Line(0, section + ":"), Line(2, name + ":"), Line(4, launcher), Line(4, cron),
                       Line(2, next + ":"), Line(4, launcher), Line(4, cron)] + Launchers()
    ensures Entry(lines, name) == Some(1) && Missed(lines, 1) && SwitchValue(lines, 1) == None
    ensures forall on :: Switched(lines, 1, on) == lines
  {
    StartsWith(lines, section, name);
    LauncherLine(launcher);
    CronLine(cron);
    KeyLine(2, next);
    LineReads(2, next + ":");
    NextSwitchMissed(lines);
  }

  // ---- A comment in the first column -------------------------------------------------------

  predicate HidesSwitch(lines: Lines) {
    |lines| > 6 && Indent(lines[1]) == 2 && IsFieldLine(lines[2], 4) && IsFieldLine(lines[3], 4)
    && IsComment(lines[4]) && Indent(lines[4]) == 0 && !IsSwitch(lines[4])
    && IsSwitch(lines[5]) && Indent(lines[5]) == 4 && ItemOf(lines[5]).kind == Enabled
    && ItemOf(lines[5]).value == Some(true)
    && IsContent(lines[6]) && Indent(lines[6]) == 0
  }

  lemma HiddenItems(lines: Lines)
    requires HidesSwitch(lines)
    ensures Items(lines, 1) == [ItemOf(lines[2]), ItemOf(lines[3]), ItemOf(lines[5])]
  {
    SwitchIsContent(lines[5]);
    assert lines[2..][1..] == lines[3..] && lines[3..][1..] == lines[4..] && lines[4..][1..] == lines[5..];
    assert lines[5..][1..] == lines[6..];
    assert ItemsFrom(lines[6..], 2) == [];
    assert ItemsFrom(lines[5..], 2) == [ItemOf(lines[5])];
    assert ItemsFrom(lines[4..], 2) == [ItemOf(lines[5])];
    assert ItemsFrom(lines[3..], 2) == [ItemOf(lines[3]), ItemOf(lines[5])];
  }

  lemma HiddenStops(lines: Lines)
    requires HidesSwitch(lines)
    ensures StopFrom(lines, 2, 2) == 4 && WrittenIndent(lines, 1) == 4
  {
    StopsAt(lines, 4);
  }

  /** A second switch is put above the fields, and the one below the comment goes on counting. */
  lemma HiddenSwitchCounts(lines: Lines, on: bool)
    requires HidesSwitch(lines)
    ensures 1 < |Switched(lines, 1, on)| && SwitchValue(Switched(lines, 1, on), 1) == Some(true)
  {
    HiddenItems(lines);
    HiddenStops(lines);
    var items := Items(lines, 1);
    assert LastSwitch(items, 4) == Some(2);
    EditedValue(lines, 1, on);
  }

  lemma HiddenLines(launcher: string, cron: string, comment: string, switch: string)
    requires launcher == "launcher: a" && cron == "cron: '@daily'" && comment == "# by hand"
    requires switch == SwitchText(true)
    ensures IsFieldLine(Line(4, launcher), 4) && IsFieldLine(Line(4, cron), 4) && IsSwitchKey(Line(4, switch))
    ensures IsRemark(Line(0, comment)) && ItemOf(Line(4, switch)).value == Some(true)
  {
    LauncherLine(launcher);
    CronLine(cron);
    LineReads(0, comment);
    TextIsSwitch(switch, true);
    LineReads(4, switch);
    SwitchItem(4, true);
    SwitchIsContent(SwitchLine(4, true));
    assert Line(4, switch) == SwitchLine(4, true);
  }

  /** A comment in the first column. */
  predicate IsRemark(line: string) {
    IsComment(line) && Indent(line) == 0 && !IsSwitch(line)
  }

  lemma HiddenShape(lines: Lines)
    requires |lines| > 6 && IsFieldLine(lines[2], 4) && IsFieldLine(lines[3], 4) && IsRemark(lines[4])
    requires IsSwitchKey(lines[5]) && ItemOf(lines[5]).value == Some(true)
    requires Indent(lines[1]) == 2 && IsKeyOf(lines[6], 0, "launchers")
    ensures HidesSwitch(lines)
  {
  }

  /** A comment in the first column parts the fields from their switch: "nightly" stays on however
      it is turned. */
  lemma HiddenFile(section: string, name: string, launcher: string, cron: string, comment: string, switch: string,
                   lines: Lines)
    requires section == "schedules" && name == "nightly" && launcher == "launcher: a" && cron == "cron: '@daily'"
    requires comment == "# by hand" && switch == SwitchText(true)
    requires lines == [Line(0, section + ":"), Line(2, name + ":"), Line(4, launcher), Line(4, cron),
                       Line(0, comment), Line(4, switch)] + Launchers()
    ensures Entry(lines, name) == Some(1)
    ensures forall on :: 1 < |Switched(lines, 1, on)| && SwitchValue(Switched(lines, 1, on), 1) == Some(true)
  {
    StartsWith(lines, section, name);
    LaunchersKey("launchers");
    HiddenLines(launcher, cron, comment, switch);
    HiddenShape(lines);
    HiddenSwitchCounts(lines, true);
    HiddenSwitchCounts(lines, false);
  }

  // ---- A switch whose value is on the next line --------------------------------------------

  predicate SplitSwitch(lines: Lines) {
    EntryBlock(lines, 6) && IsFieldLine(lines[2], 4) && IsFieldLine(lines[3], 4)
    && ItemOf(lines[4]).kind == Enabled && IsSwitch(lines[4]) && Indent(lines[4]) == 4 && IsPlainLine(lines[5], 6)
  }

  /** The old value goes on below the new one. */
  lemma SplitSwitchBreaks(lines: Lines, on: bool)
    requires SplitSwitch(lines)
    ensures 1 < |Switched(lines, 1, on)| && SwitchValue(Switched(lines, 1, on), 1) == None
  {
    StopIs(lines, 2, 2, 4);
    EntryItems(lines, 6);
    SplitItems(Items(lines, 1));
    EditedValue(lines, 1, on);
  }

  lemma SplitItems(items: seq<Item>)
    requires |items| == 4 && items[0].kind == OtherField && items[1].kind == OtherField && items[2].kind == Enabled
    requires forall i :: 0 <= i < 3 ==> items[i].indent == 4 && (items[i].switch <==> i == 2)
    requires items[3].indent == 6 && !items[3].switch
    ensures Keyed(items) && FirstIsOwn(items) && Continued(items, FirstSwitch(items))
  {
    assert FirstSwitch(items) == 2;
    assert items[..3][2] == items[2] && LastSwitch(items, 4) == Some(2);
  }

  lemma SplitLines(launcher: string, cron: string, switch: string, value: string)
    requires launcher == "launcher: a" && cron == "cron: '@daily'" && switch == "enabled" && value == "true"
    ensures IsFieldLine(Line(4, launcher), 4) && IsFieldLine(Line(4, cron), 4) && IsPlainLine(Line(6, value), 6)
    ensures IsSwitchKey(Line(4, switch + ":"))
  {
    LauncherLine(launcher);
    CronLine(cron);
    KeyLine(4, switch);
    LineReads(4, switch + ":");
    KeyReads(4, switch);
    PlainLine(6, value);
  }

  predicate IsSwitchKey(line: string) {
    Indent(line) == 4 && IsContent(line) && IsSwitch(line) && ItemOf(line).kind == Enabled
  }

  lemma SplitShape(lines: Lines)
    requires |lines| > 6 && IsFieldLine(lines[2], 4) && IsFieldLine(lines[3], 4) && IsSwitchKey(lines[4])
    requires IsPlainLine(lines[5], 6) && Indent(lines[1]) == 2 && IsKeyOf(lines[6], 0, "launchers")
    ensures SplitSwitch(lines)
  {
  }

  /** "nightly" has its switch on one line and the value on the next, and the value is left over. */
  lemma SplitFile(section: string, name: string, launcher: string, cron: string, switch: string, value: string,
                  lines: Lines)
    requires section == "schedules" && name == "nightly" && launcher == "launcher: a" && cron == "cron: '@daily'"
    requires switch == "enabled" && value == "true"
    requires lines == [Line(0, section + ":"), Line(2, name + ":"), Line(4, launcher), Line(4, cron),
                       Line(4, switch + ":"), Line(6, value)] + Launchers()
    ensures Entry(lines, name) == Some(1)
    ensures forall on :: 1 < |Switched(lines, 1, on)| && SwitchValue(Switched(lines, 1, on), 1) == None
  {
    StartsWith(lines, section, name);
    LaunchersKey("launchers");
    SplitLines(launcher, cron, switch, value);
    SplitShape(lines);
    SplitSwitchBreaks(lines, true);
    SplitSwitchBreaks(lines, false);
  }

  // ---- A body of another kind --------------------------------------------------------------

  /** The fields of the entry are one flow mapping on one line. */
  predicate FlowBody(lines: Lines) {
    EntryBlock(lines, 3) && IsPlainLine(lines[2], 4) && ItemOf(lines[2]).kind == Body && !IsSwitch(lines[3])
  }

  /** The new line goes above the flow mapping, and the entry can no longer be read. */
  lemma FlowBodyBreaks(lines: Lines, on: bool)
    requires FlowBody(lines)
    ensures Readable(Items(lines, 1)) && Switched(lines, 1, on) == lines[..2] + [SwitchLine(4, on)] + lines[2..]
    ensures SwitchValue(Switched(lines, 1, on), 1) == None
  {
    StopsAt(lines, 3);
    EntryItems(lines, 3);
    EditedValue(lines, 1, on);
  }

  lemma FlowLine(flow: string)
    requires flow == "{launcher: a, cron: '@daily'}"
    ensures IsPlainLine(Line(4, flow), 4) && ItemOf(Line(4, flow)).kind == Body
  {
    PlainLine(4, flow);
    LineReads(4, flow);
    assert flow[0] == '{' && WordLength(flow) == 0;
  }

  /** "nightly" is written as a flow mapping: turning it off or on makes the file one that cannot be
      loaded. */
  lemma FlowFile(section: string, name: string, flow: string, lines: Lines)
    requires section == "schedules" && name == "nightly" && flow == "{launcher: a, cron: '@daily'}"
    requires lines == [Line(0, section + ":"), Line(2, name + ":"), Line(4, flow)] + Launchers()
    ensures Entry(lines, name) == Some(1) && forall on :: SwitchValue(Switched(lines, 1, on), 1) == None
  {
    StartsWith(lines, section, name);
    LaunchersKey("launchers");
    FlowLine(flow);
    FlowBodyBreaks(lines, true);
    FlowBodyBreaks(lines, false);
  }

  // ---- A quoted switch ---------------------------------------------------------------------

  /** The last field is the switch, in a form the edit does not see. */
  predicate UnseenSwitch(lines: Lines) {
    EntryBlock(lines, 5) && IsFieldLine(lines[2], 4) && IsFieldLine(lines[3], 4) && IsPlainLine(lines[4], 4)
    && ItemOf(lines[4]).kind == Enabled && ItemOf(lines[4]).value == Some(false) && !IsSwitch(lines[5])
  }

  /** A second switch is put above the fields, and the unseen one goes on counting. */
  lemma UnseenSwitchCounts(lines: Lines, on: bool)
    requires UnseenSwitch(lines)
    ensures 1 < |Switched(lines, 1, on)| && SwitchValue(Switched(lines, 1, on), 1) == Some(false)
  {
    UnseenIdle(lines);
    EditedValue(lines, 1, on);
  }

  lemma UnseenIdle(lines: Lines)
    requires UnseenSwitch(lines)
    ensures Keyed(Items(lines, 1)) && SwitchValue(lines, 1) == Some(false)
    ensures Idle(lines, 1) && !Counts(lines, 1)
  {
    StopsAt(lines, 5);
    EntryItems(lines, 5);
    UnseenItems(Items(lines, 1));
  }

  lemma UnseenItems(items: seq<Item>)
    requires |items| == 3 && items[0].kind == OtherField && items[1].kind == OtherField && items[2].kind == Enabled
    requires forall i :: 0 <= i < 3 ==> items[i].indent == 4 && !items[i].switch
    ensures Keyed(items) && LastSwitch(items, 4) == Some(2) && ValueOf(items) == items[2].value
  {
  }

  lemma QuotedReads(quoted: string, word: string, value: string)
    requires IsWordText(word) && word == "enabled" && value == "false" && quoted == "'" + word + ("'" + (": " + value))
    ensures ReadField(quoted) == Some(Field(word, value))
  {
    var rest := quoted[1..];
    assert rest == word + ("'" + (": " + value));
    assert forall i :: 0 <= i < |word| ==> rest[i] == word[i];
    WordEnds(rest, |word|);
    ColonReads(word, value);
    assert quoted[1..|word| + 1] == word && quoted[|word| + 1] == '\'' && quoted[|word| + 2..] == ": " + value;
  }

  lemma QuotedLine(quoted: string, word: string)
    requires quoted == "'enabled': false" && word == "enabled"
    ensures IsPlainLine(Line(4, quoted), 4)
    ensures ItemOf(Line(4, quoted)).kind == Enabled && ItemOf(Line(4, quoted)).value == Some(false)
  {
    IsWord(word);
    QuotedReads(quoted, word, "false");
    PlainLine(4, quoted);
    LineReads(4, quoted);
  }

  lemma UnseenShape(lines: Lines)
    requires |lines| > 5 && IsFieldLine(lines[2], 4) && IsFieldLine(lines[3], 4) && IsPlainLine(lines[4], 4)
    requires ItemOf(lines[4]).kind == Enabled && ItemOf(lines[4]).value == Some(false)
    requires Indent(lines[1]) == 2 && IsKeyOf(lines[5], 0, "launchers") && !IsSwitch(lines[5])
    ensures UnseenSwitch(lines)
  {
  }

  /** "nightly" has its switch in quotes at the end: it stays off however it is turned. */
  lemma QuotedFile(section: string, name: string, launcher: string, cron: string, quoted: string, lines: Lines)
    requires section == "schedules" && name == "nightly" && launcher == "launcher: a" && cron == "cron: '@daily'"
    requires quoted == "'enabled': false"
    requires lines == [Line(0, section + ":"), Line(2, name + ":"), Line(4, launcher), Line(4, cron),
                       Line(4, quoted)] + Launchers()
    ensures Entry(lines, name) == Some(1)
    ensures forall on :: 1 < |Switched(lines, 1, on)| && SwitchValue(Switched(lines, 1, on), 1) == Some(false)
  {
    StartsWith(lines, section, name);
    LaunchersKey("launchers");
    LauncherLine(launcher);
    CronLine(cron);
    QuotedLine(quoted, "enabled");
    UnseenShape(lines);
    UnseenSwitchCounts(lines, true);
    UnseenSwitchCounts(lines, false);
  }

  // ---- A field taken for an entry ----------------------------------------------------------

  /** An entry named "cron" comes after one whose cron field has its value on the next line: the
      search takes the field for the entry. */
  lemma WrongEntryFile(section: string, name: string, launcher: string, cron: string, times: string, daily: string,
                       lines: Lines)
    requires section == "schedules" && name == "nightly" && launcher == "launcher: a" && cron == "cron"
    requires times == "'0 2 * * *'" && daily == "cron: '@daily'"
    requires lines == [Line(0, section + ":"), Line(2, name + ":"), Line(4, launcher), Line(4, cron + ":"),
                       Line(6, times), Line(2, cron + ":"), Line(4, launcher), Line(4, daily)] + Launchers()
    ensures EntryAt(lines, 5, cron) && Entry(lines, cron) == Some(3)
  {
    KeyLine(0, section);
    KeyLine(2, name);
    LauncherLine(launcher);
    KeyLine(4, cron);
    PlainLine(6, times);
    KeyLine(2, cron);
    FoundInField(lines, section, name, cron);
  }

  lemma FoundInField(lines: Lines, section: string, name: string, cron: string)
    requires |lines| > 5 && section == "schedules" && name != cron
    requires IsKeyOf(lines[0], 0, section) && IsKeyOf(lines[1], 2, name) && IsPlainLine(lines[2], 4)
    requires IsKeyOf(lines[3], 4, cron) && IsPlainLine(lines[4], 6) && IsKeyOf(lines[5], 2, cron)
    ensures EntryAt(lines, 5, cron) && Entry(lines, cron) == Some(3)
  {
    assert SectionBefore(lines, 1) == Some(section);
    assert SectionBefore(lines, 2) == Some(section);
    assert SectionBefore(lines, 3) == Some(section);
    assert SectionBefore(lines, 4) == Some(section);
    assert SectionBefore(lines, 5) == Some(section);
    FoundExactly(lines, cron, 3);
  }
}
