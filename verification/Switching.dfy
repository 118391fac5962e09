/** Turning one schedule on or off in the schedules file: the text is edited line by line, so that
    comments survive. */
module Switching {
  import opened Options
  import opened Strings

  type Lines = seq<string>

  function Indent(line: string): nat {
    LStripShorter(line);
    |line| - |LStrip(line)|
  }

  lemma {:induction false} LStripShorter(s: string)
    ensures |LStrip(s)| <= |s|
  {
    if s != [] && IsSpace(s[0]) {
      LStripShorter(s[1..]);
    }
  }

  predicate IsBlank(line: string) {
    Strip(line) == ""
  }

  predicate IsComment(line: string) {
    Strip(line) != "" && Strip(line)[0] == '#'
  }

  predicate IsKey(line: string) {
    Strip(line) != "" && Strip(line)[|Strip(line)| - 1] == ':'
  }

  function RStripColons(s: string): string {
    if s != "" && s[|s| - 1] == ':' then RStripColons(s[..|s| - 1]) else s
  }

  predicate IsSwitch(line: string) {
    "enabled:" <= Strip(line)
  }

  // ---- Finding the entry -------------------------------------------------------------------

  /** The section in force after a line; a line that starts in the first column opens a section or
      ends the one before. */
  function Section(line: string, section: Option<string>): Option<string> {
    if IsBlank(line) || IsComment(line) || Indent(line) > 0 then section
    else if IsKey(line) then Some(RStripColons(Strip(line)))
    else None
  }

  predicate IsEntry(line: string, section: Option<string>, name: string) {
    !IsBlank(line) && !IsComment(line) && Indent(line) > 0
    && (section == Some("schedules") || section == Some("loops"))
    && IsKey(line) && RStripColons(Strip(line)) == name
  }

  function EntryFrom(lines: Lines, i: nat, section: Option<string>, name: string): (k: Option<nat>)
    requires i <= |lines|
    ensures k.Some? ==> i <= k.value < |lines|
    decreases |lines| - i
  {
    if i == |lines| then None
    else if IsEntry(lines[i], section, name) then Some(i)
    else EntryFrom(lines, i + 1, Section(lines[i], section), name)
  }

  function Entry(lines: Lines, name: string): Option<nat> {
    EntryFrom(lines, 0, None, name)
  }

  lemma {:induction false} SameUpTo(lines: Lines, other: Lines, i: nat, section: Option<string>, name: string, k: nat)
    requires i <= |lines| && i <= |other| && EntryFrom(lines, i, section, name) == Some(k)
    requires k < |other| && other[..k + 1] == lines[..k + 1]
    ensures EntryFrom(other, i, section, name) == Some(k)
    decreases |lines| - i
  {
    assert other[..k + 1][i] == lines[..k + 1][i];
    if !IsEntry(lines[i], section, name) {
      SameUpTo(lines, other, i + 1, Section(lines[i], section), name, k);
    }
  }

  /** The section in force before line k. */
  function SectionBefore(lines: Lines, k: nat): Option<string>
    requires k <= |lines|
  {
    if k == 0 then None else Section(lines[k - 1], SectionBefore(lines, k - 1))
  }

  predicate EntryAt(lines: Lines, k: nat, name: string)
    requires k < |lines|
  {
    IsEntry(lines[k], SectionBefore(lines, k), name)
  }

  lemma {:induction false} EntryFromExactly(lines: Lines, i: nat, name: string, k: nat)
    requires i <= |lines| && i <= k < |lines|
    ensures EntryFrom(lines, i, SectionBefore(lines, i), name) == Some(k)
      <==> EntryAt(lines, k, name) && forall j: nat :: i <= j < k ==> !EntryAt(lines, j, name)
    decreases |lines| - i
  {
    if IsEntry(lines[i], SectionBefore(lines, i), name) {
      assert EntryAt(lines, i, name);
    } else if i < k {
      EntryFromExactly(lines, i + 1, name, k);
    }
  }

  /** The search settles on the first line in either section that is the name and a colon, at any
      depth; so a field of an earlier entry can be taken for the entry. */
  lemma FoundExactly(lines: Lines, name: string, k: nat)
    requires k < |lines|
    ensures Entry(lines, name) == Some(k)
      <==> EntryAt(lines, k, name) && forall j: nat :: j < k ==> !EntryAt(lines, j, name)
  {
    EntryFromExactly(lines, 0, name, k);
  }

  // ---- The entry's block -------------------------------------------------------------------

  predicate EndsBlock(line: string, indent: nat) {
    !IsBlank(line) && Indent(line) <= indent
  }

  /** The first line from j on that ends the block or is its switch; |lines| if neither comes. */
  function StopFrom(lines: Lines, j: nat, indent: nat): (k: nat)
    requires j <= |lines|
    ensures j <= k <= |lines|
    ensures k < |lines| ==> EndsBlock(lines[k], indent) || IsSwitch(lines[k])
    ensures forall i :: j <= i < k ==> !EndsBlock(lines[i], indent) && !IsSwitch(lines[i])
    decreases |lines| - j
  {
    if j == |lines| || EndsBlock(lines[j], indent) || IsSwitch(lines[j]) then j else StopFrom(lines, j + 1, indent)
  }

  /** The indentation of the last line that is not blank before `stop`. */
  function FieldIndent(lines: Lines, j: nat, stop: nat, sofar: nat): nat
    requires j <= stop <= |lines|
    decreases stop - j
  {
    if j == stop then sofar
    else FieldIndent(lines, j + 1, stop, if IsBlank(lines[j]) then sofar else Indent(lines[j]))
  }

  function Spaces(n: nat): string {
    if n == 0 then "" else " " + Spaces(n - 1)
  }

  function SwitchText(on: bool): string {
    if on then "enabled: true" else "enabled: false"
  }

  function SwitchLine(indent: nat, on: bool): string {
    Spaces(indent) + (SwitchText(on) + "\n")
  }

  /** The file with the switch of the entry at line k set. */
  function Switched(lines: Lines, k: nat, on: bool): Lines
    requires k < |lines|
  {
    var indent := Indent(lines[k]);
    var stop := StopFrom(lines, k + 1, indent);
    if stop < |lines| && IsSwitch(lines[stop]) then
      if EndsBlock(lines[stop], indent) then lines
      else lines[stop := SwitchLine(Indent(lines[stop]), on)]
    else
      lines[..k + 1] + [SwitchLine(FieldIndent(lines, k + 1, stop, indent + 2), on)] + lines[k + 1..]
  }

  method Locate(lines: Lines, name: string) returns (r: Option<nat>)
    ensures r == Entry(lines, name)
  {
    var section, index := None, 0;
    while index < |lines|
      invariant index <= |lines| && EntryFrom(lines, index, section, name) == Entry(lines, name)
    {
      if IsEntry(lines[index], section, name) { return Some(index); }
      section := Section(lines[index], section);
      index := index + 1;
    }
    r := None;
  }

  /** set_enabled on the lines of the file; None when the entry's line is not found. */
  method SetEnabled(lines: Lines, name: string, on: bool) returns (r: Option<Lines>)
    ensures r == match Entry(lines, name) case None => None case Some(k) => Some(Switched(lines, k, on))
  {
    var found := Locate(lines, name);
    if found.None? { return None; }
    var index, entryIndent := found.value, Indent(lines[found.value]);
    var fieldIndent, cursor := entryIndent + 2, index + 1;
    ghost var stop := StopFrom(lines, cursor, entryIndent);
    ghost var deepest := FieldIndent(lines, cursor, stop, fieldIndent);
    while cursor < |lines|
      invariant cursor <= stop && StopFrom(lines, cursor, entryIndent) == stop
      invariant FieldIndent(lines, cursor, stop, fieldIndent) == deepest
    {
      var line := lines[cursor];
      if !IsBlank(line) && Indent(line) <= entryIndent { break; }
      if IsSwitch(line) { return Some(lines[cursor := SwitchLine(Indent(line), on)]); }
      if !IsBlank(line) { fieldIndent := Indent(line); }
      cursor := cursor + 1;
    }
    if cursor < |lines| && IsSwitch(lines[cursor]) { return Some(lines); }
    r := Some(lines[..index + 1] + [SwitchLine(fieldIndent, on)] + lines[index + 1..]);
  }

  // ---- What the entry says ------------------------------------------------------------------

  predicate IsContent(line: string) {
    !IsBlank(line) && !IsComment(line)
  }

  predicate IsWordChar(c: char) {
    'a' <= c <= 'z' || 'A' <= c <= 'Z' || '0' <= c <= '9' || c == '_'
  }

  function WordLength(s: string): (n: nat)
    ensures n <= |s| && (forall i :: 0 <= i < n ==> IsWordChar(s[i])) && (n < |s| ==> !IsWordChar(s[n]))
  {
    if s == "" || !IsWordChar(s[0]) then 0 else 1 + WordLength(s[1..])
  }

  /** A field as YAML reads it: the key, and the value as far as it is on the key's line. */
  datatype Field = Field(key: string, value: string)

  /** The colon after a key may come after spaces, and a space or the end of the line follows it. */
  function WithKey(key: string, rest: string): Option<Field> {
    var colon := LStrip(rest);
    if colon != "" && colon[0] == ':' && (|colon| == 1 || IsSpace(colon[1])) then Some(Field(key, LStrip(colon[1..])))
    else None
  }

  /** A key is a word, bare or in quotes of either kind, or the merge key. */
  function ReadField(text: string): Option<Field> {
    if text == "" then None
    else if text[0] == '\'' || text[0] == '"' then
      var n := WordLength(text[1..]);
      if 0 < n < |text| - 1 && text[n + 1] == text[0] then WithKey(text[1..n + 1], text[n + 2..]) else None
    else if text[0] == '<' then
      if "<<" <= text then WithKey("<<", text[2..]) else None
    else if WordLength(text) == 0 then None
    else WithKey(text[..WordLength(text)], text[WordLength(text)..])
  }

  /** A flow mapping or an alias, which can stand for all the fields at once. */
  predicate IsBody(text: string) {
    text != "" && (text[0] == '{' || (text[0] == '*' && ':' !in text))
  }

  datatype Kind = Enabled | OtherField | Body | Unknown

  function KindOf(text: string): Kind {
    match ReadField(text)
    case Some(field) => if field.key == "enabled" then Enabled else OtherField
    case None => if IsBody(text) then Body else Unknown
  }

  function ValueIn(text: string): Option<bool> {
    match ReadField(text)
    case None => None
    case Some(field) =>
      if field.value == "true" then Some(true) else if field.value == "false" then Some(false) else None
  }

  /** What matters of a line: its indentation, whether the edit takes it for a switch, what YAML takes
      it for, and which way it is set. */
  datatype Item = Item(indent: nat, switch: bool, kind: Kind, value: Option<bool>)

  function ItemOf(line: string): Item {
    Item(Indent(line), IsSwitch(line), KindOf(Strip(line)), ValueIn(Strip(line)))
  }

  predicate IsField(item: Item) {
    item.kind.Enabled? || item.kind.OtherField?
  }

  lemma WordEnds(s: string, n: nat)
    requires n <= |s| && (forall i :: 0 <= i < n ==> IsWordChar(s[i])) && (n < |s| ==> !IsWordChar(s[n]))
    ensures WordLength(s) == n
  {
  }

  /** A line the edit takes for a switch is the field of that name, if it is a field at all. */
  lemma SwitchKind(line: string)
    requires IsSwitch(line) && IsField(ItemOf(line))
    ensures ItemOf(line).kind == Enabled
  {
    EnabledWord(Strip(line), "enabled");
  }

  lemma EnabledWord(text: string, word: string)
    requires word == "enabled" && word + ":" <= text
    ensures WordLength(text) == 7 && text[..7] == word && text[0] == 'e'
  {
    assert forall i :: 0 <= i < 7 ==> text[i] == word[i] && IsWordChar(word[i]);
    assert text[7] == ':';
    WordEnds(text, 7);
  }

  /** The lines of an entry that are neither blank nor comments: all up to the next such line that
      is not indented deeper than the entry. */
  function ItemsFrom(rest: Lines, base: nat): seq<Item> {
    if rest == [] || (IsContent(rest[0]) && Indent(rest[0]) <= base) then []
    else (if IsContent(rest[0]) then [ItemOf(rest[0])] else []) + ItemsFrom(rest[1..], base)
  }

  function Items(lines: Lines, k: nat): seq<Item>
    requires k < |lines|
  {
    ItemsFrom(lines[k + 1..], Indent(lines[k]))
  }

  /** The lines indented like the first one are where fields are; everything else is deeper. */
  predicate Aligned(items: seq<Item>) {
    forall i :: 0 <= i < |items| ==> items[i].indent >= items[0].indent
  }

  /** Every line there is a field. */
  predicate Keyed(items: seq<Item>) {
    Aligned(items) && forall i :: 0 <= i < |items| && items[i].indent == items[0].indent ==> IsField(items[i])
  }

  /** The forms of an entry that are read here: fields, or one line that stands for all of them. */
  predicate Readable(items: seq<Item>) {
    Keyed(items) || (|items| == 1 && items[0].kind.Body?)
  }

  predicate IsSwitchAt(item: Item, depth: nat) {
    item.kind.Enabled? && item.indent == depth
  }

  /** The switch that counts: of a key that is given twice the last one does. */
  function LastSwitch(items: seq<Item>, depth: nat): (s: Option<nat>)
    ensures s.Some? ==> s.value < |items| && IsSwitchAt(items[s.value], depth)
    ensures forall i :: (if s.Some? then s.value else -1) < i < |items| ==> !IsSwitchAt(items[i], depth)
  {
    if items == [] then None
    else
      var n := |items| - 1;
      if IsSwitchAt(items[n], depth) then Some(n) else LastSwitch(items[..n], depth)
  }

  /** A deeper line right below a field goes on with the field's value. */
  predicate Continued(items: seq<Item>, i: nat) {
    i + 1 < |items| && items[i + 1].indent > items[i].indent
  }

  function ValueOf(items: seq<Item>): Option<bool> {
    if items == [] || !Keyed(items) then None
    else
      match LastSwitch(items, items[0].indent)
      case None => None
      case Some(s) => if Continued(items, s) then None else items[s].value
  }

  /** What the entry at line k says about its switch: on, off, or neither in so many words. */
  function SwitchValue(lines: Lines, k: nat): Option<bool>
    requires k < |lines|
  {
    ValueOf(Items(lines, k))
  }

  // ---- What the edit achieves --------------------------------------------------------------

  /** The block holds no switch, and the line that ends it reads like one: the next entry is named
      "enabled". */
  predicate Missed(lines: Lines, k: nat)
    requires k < |lines|
  {
    var stop := StopFrom(lines, k + 1, Indent(lines[k]));
    stop < |lines| && IsSwitch(lines[stop]) && EndsBlock(lines[stop], Indent(lines[k]))
  }

  lemma {:induction false} LStripSpaces(n: nat, rest: string)
    requires rest != "" && !IsSpace(rest[0])
    ensures LStrip(Spaces(n) + rest) == rest && |Spaces(n)| == n
  {
    if n > 0 {
      assert (Spaces(n) + rest)[1..] == Spaces(n - 1) + rest;
      LStripSpaces(n - 1, rest);
    } else {
      assert Spaces(n) + rest == rest;
    }
  }

  lemma RStripNewline(text: string)
    requires text != "" && !IsSpace(text[|text| - 1])
    ensures RStrip(text + "\n") == text
  {
    assert (text + "\n")[..|text|] == text;
  }

  lemma TextIsSwitch(text: string, on: bool)
    requires text == SwitchText(on)
    ensures |text| >= 12 && "enabled:" <= text && !IsSpace(text[0]) && !IsSpace(text[|text| - 1])
  {
  }

  /** A written switch line is read as the switch it was written for, at its own indentation. */
  lemma SwitchLineReads(n: nat, on: bool)
    ensures var line := SwitchLine(n, on);
      Indent(line) == n && Strip(line) == SwitchText(on) && IsSwitch(line) && !IsBlank(line)
  {
    var text := SwitchText(on);
    TextIsSwitch(text, on);
    LStripSpaces(n, text + "\n");
    RStripNewline(text);
  }

  lemma {:induction false} StopIs(lines: Lines, j: nat, indent: nat, k: nat)
    requires j <= k < |lines| && (EndsBlock(lines[k], indent) || IsSwitch(lines[k]))
    requires forall i :: j <= i < k ==> !EndsBlock(lines[i], indent) && !IsSwitch(lines[i])
    ensures StopFrom(lines, j, indent) == k
    decreases k - j
  {
    if j < k {
      StopIs(lines, j + 1, indent, k);
    }
  }

  lemma {:induction false} FieldIndentDeeper(lines: Lines, j: nat, stop: nat, sofar: nat, indent: nat)
    requires j <= stop <= |lines| && sofar > indent
    requires forall i :: j <= i < stop ==> !EndsBlock(lines[i], indent)
    ensures FieldIndent(lines, j, stop, sofar) > indent
    decreases stop - j
  {
    if j < stop {
      FieldIndentDeeper(lines, j + 1, stop, if IsBlank(lines[j]) then sofar else Indent(lines[j]), indent);
    }
  }

  /** Where the switch is after the edit: in the place of the old one, or right below the entry. */
  function WrittenAt(lines: Lines, k: nat): (at: nat)
    requires k < |lines|
    ensures k < at <= |lines|
  {
    var stop := StopFrom(lines, k + 1, Indent(lines[k]));
    if stop < |lines| && IsSwitch(lines[stop]) then stop else k + 1
  }

  function WrittenIndent(lines: Lines, k: nat): nat
    requires k < |lines|
  {
    var base := Indent(lines[k]);
    var stop := StopFrom(lines, k + 1, base);
    if stop < |lines| && IsSwitch(lines[stop]) then Indent(lines[stop]) else FieldIndent(lines, k + 1, stop, base + 2)
  }

  lemma IndentedDeeper(lines: Lines, k: nat)
    requires k < |lines| && !Missed(lines, k)
    ensures WrittenIndent(lines, k) > Indent(lines[k])
  {
    var base := Indent(lines[k]);
    var stop := StopFrom(lines, k + 1, base);
    if stop == |lines| || !IsSwitch(lines[stop]) {
      FieldIndentDeeper(lines, k + 1, stop, base + 2, base);
    }
  }

  /** The edit writes one line inside the entry's block: it replaces the block's first switch, or
      goes right below the entry. Every other line stays. */
  lemma WritesOneLine(lines: Lines, k: nat, on: bool)
    requires k < |lines| && !Missed(lines, k)
    ensures var at, edited := WrittenAt(lines, k), Switched(lines, k, on);
      var line := SwitchLine(WrittenIndent(lines, k), on);
      at < |edited| && edited[at] == line && edited[k] == lines[k]
      && (if at < |lines| && IsSwitch(lines[at]) && at == StopFrom(lines, k + 1, Indent(lines[k]))
          then edited == lines[at := line] else edited == lines[..at] + [line] + lines[at..])
      && StopFrom(edited, k + 1, Indent(lines[k])) == at
  {
    var at, edited := WrittenAt(lines, k), Switched(lines, k, on);
    var line := SwitchLine(WrittenIndent(lines, k), on);
    var base := Indent(lines[k]);
    SwitchLineReads(WrittenIndent(lines, k), on);
    assert edited[at] == line;
    assert forall i :: k + 1 <= i < at ==> edited[i] == lines[i];
    StopIs(edited, k + 1, base, at);
  }

  lemma UpToEntry(lines: Lines, k: nat, on: bool)
    requires k < |lines|
    ensures k < |Switched(lines, k, on)| && Switched(lines, k, on)[..k + 1] == lines[..k + 1]
  {
  }

  /** The edit replaces a line: the search of the block came to a switch. */
  predicate Replaces(lines: Lines, k: nat)
    requires k < |lines|
  {
    var stop := StopFrom(lines, k + 1, Indent(lines[k]));
    stop < |lines| && IsSwitch(lines[stop]) && !EndsBlock(lines[stop], Indent(lines[k]))
  }

  /** The first switch at any depth, or |items|. */
  function FirstSwitch(items: seq<Item>): (i: nat)
    ensures i <= |items| && (i < |items| ==> items[i].switch)
    ensures forall j :: 0 <= j < i ==> !items[j].switch
  {
    if items == [] || items[0].switch then 0 else 1 + FirstSwitch(items[1..])
  }

  /** The first switch met is the field that counts. */
  predicate FirstIsOwn(items: seq<Item>) {
    items != [] && LastSwitch(items, items[0].indent) == Some(FirstSwitch(items))
  }

  /** The edited line is the field that counts. The entry is written field by field, and the first
      switch met is a field, no later field is one, and its value ends on its line; or no field is a
      switch, and the last line that is not blank is indented like the fields. */
  predicate Counts(lines: Lines, k: nat)
    requires k < |lines|
  {
    var items := Items(lines, k);
    if !Keyed(items) then false
    else if Replaces(lines, k) then FirstIsOwn(items) && !Continued(items, FirstSwitch(items))
    else
      !Missed(lines, k)
      && (items == []
          || (WrittenIndent(lines, k) == items[0].indent && LastSwitch(items, items[0].indent) == None))
  }

  /** The edit does not touch the field that counts: it does nothing, or it replaces another line, or
      the search missed the field, behind a comment in the first columns or written with quotes or a
      space before its colon, and the new line is put before it. */
  predicate Idle(lines: Lines, k: nat)
    requires k < |lines|
  {
    var items := Items(lines, k);
    if Replaces(lines, k) then !FirstIsOwn(items)
    else
      Missed(lines, k)
      || (items != [] && WrittenIndent(lines, k) == items[0].indent && LastSwitch(items, items[0].indent).Some?)
  }

  lemma SwitchIsContent(line: string)
    requires IsSwitch(line)
    ensures IsContent(line)
  {
    assert Strip(line)[0] == 'e';
  }

  lemma {:induction false} ItemsReplaced(rest: Lines, base: nat, p: nat, line: string)
    requires p < |rest| && IsSwitch(rest[p]) && IsSwitch(line) && Indent(line) == Indent(rest[p]) > base
    requires forall i :: 0 <= i < p ==> !EndsBlock(rest[i], base) && !IsSwitch(rest[i])
    ensures var items := ItemsFrom(rest, base);
      FirstSwitch(items) < |items| && items[FirstSwitch(items)] == ItemOf(rest[p])
      && ItemsFrom(rest[p := line], base) == items[FirstSwitch(items) := ItemOf(line)]
    decreases |rest|
  {
    SwitchIsContent(rest[p]);
    SwitchIsContent(line);
    var after, tail := rest[p := line], ItemsFrom(rest[1..], base);
    if p == 0 {
      assert after[1..] == rest[1..];
    } else {
      assert after[1..] == rest[1..][p - 1 := line];
      ItemsReplaced(rest[1..], base, p - 1, line);
      SwitchBehind(if IsContent(rest[0]) then [ItemOf(rest[0])] else [], tail, ItemOf(line));
    }
  }

  lemma SwitchBehind(head: seq<Item>, tail: seq<Item>, item: Item)
    requires |head| <= 1 && (head != [] ==> !head[0].switch) && FirstSwitch(tail) < |tail|
    ensures var all, q := head + tail, FirstSwitch(tail);
      FirstSwitch(all) == |head| + q && all[|head| + q] == tail[q] && all[|head| + q := item] == head + tail[q := item]
  {
    UpdateBehind(head, tail, FirstSwitch(tail), item);
    if head == [] {
      assert head + tail == tail;
    } else {
      assert (head + tail)[1..] == tail;
    }
  }

  lemma UpdateBehind(head: seq<Item>, tail: seq<Item>, q: nat, item: Item)
    requires q < |tail|
    ensures (head + tail)[|head| + q := item] == head + tail[q := item]
  {
  }

  lemma {:induction false} SameSwitches(items: seq<Item>, q: nat, item: Item, depth: nat)
    requires q < |items| && item.kind.Enabled? && item.indent == items[q].indent
    requires items[q].indent == depth ==> items[q].kind.Enabled?
    ensures LastSwitch(items[q := item], depth) == LastSwitch(items, depth)
  {
    var n := |items| - 1;
    if q == n {
      assert items[q := item][..n] == items[..n];
    } else {
      assert items[q := item][..n] == items[..n][q := item];
      SameSwitches(items[..n], q, item, depth);
    }
  }

  /** Replacing the first switch sets the value when that is the field that counts. */
  lemma ReplacedValue(items: seq<Item>, item: Item)
    requires FirstSwitch(items) < |items| && Keyed(items)
    requires item.kind.Enabled? && item.indent == items[FirstSwitch(items)].indent
    requires items[FirstSwitch(items)].indent == items[0].indent ==> items[FirstSwitch(items)].kind.Enabled?
    ensures var q := FirstSwitch(items);
      ValueOf(items[q := item]) ==
        if !FirstIsOwn(items) then ValueOf(items) else if Continued(items, q) then None else item.value
  {
    var q := FirstSwitch(items);
    SameSwitches(items, q, item, items[0].indent);
    assert forall i :: 0 <= i < |items| ==> items[q := item][i].indent == items[i].indent;
    assert Keyed(items[q := item]);
  }

  lemma {:induction false} LastSwitchBehind(item: Item, items: seq<Item>, depth: nat)
    ensures LastSwitch([item] + items, depth) ==
      match LastSwitch(items, depth)
      case Some(s) => Some(s + 1)
      case None => if IsSwitchAt(item, depth) then Some(0) else None
  {
    var all, n := [item] + items, |items|;
    if n == 0 {
      assert all[..0] == [] && all[0] == item;
    } else {
      assert all[n] == items[n - 1] && all[..n] == [item] + items[..n - 1];
      LastSwitchBehind(item, items[..n - 1], depth);
    }
  }

  lemma ValueAt(items: seq<Item>, s: nat)
    requires items != [] && Keyed(items) && LastSwitch(items, items[0].indent) == Some(s)
    ensures ValueOf(items) == if Continued(items, s) then None else items[s].value
  {
  }

  lemma ItemBehind(items: seq<Item>, item: Item, i: nat)
    requires i <= |items|
    ensures ([item] + items)[i] == if i == 0 then item else items[i - 1]
  {
  }

  lemma KeyedBehind(items: seq<Item>, item: Item)
    requires items != [] && item.kind.Enabled? && item.indent == items[0].indent
    ensures Keyed([item] + items) <==> Keyed(items)
  {
    var all := [item] + items;
    assert all[0] == item && forall i :: 0 <= i < |items| ==> all[i + 1] == items[i];
    if Keyed(all) {
      forall i | 0 <= i < |items|
        ensures items[i].indent >= items[0].indent && (items[i].indent == items[0].indent ==> IsField(items[i]))
      {
        assert all[i + 1].indent >= all[0].indent;
      }
    }
  }

  lemma ContinuedBehind(items: seq<Item>, item: Item, i: nat)
    requires items != [] && i <= |items| && item.indent == items[0].indent
    ensures Continued([item] + items, i) <==> i > 0 && Continued(items, i - 1)
  {
    ItemBehind(items, item, i);
    if i < |items| {
      ItemBehind(items, item, i + 1);
    }
  }

  /** Put before fields of its own indentation, a switch counts when none of them is one. */
  lemma InsertedFirst(items: seq<Item>, item: Item)
    requires items != [] && Keyed(items) && item.kind.Enabled? && item.indent == items[0].indent
    requires LastSwitch(items, item.indent).None?
    ensures ValueOf([item] + items) == item.value
  {
    LastSwitchBehind(item, items, item.indent);
    KeyedBehind(items, item);
    ValueAt([item] + items, 0);
    ContinuedBehind(items, item, 0);
  }

  /** Otherwise the last of them goes on counting. */
  lemma InsertedIdly(all: seq<Item>, items: seq<Item>, item: Item)
    requires items != [] && Keyed(items) && item.kind.Enabled? && item.indent == items[0].indent
    requires all == [item] + items && LastSwitch(items, items[0].indent).Some?
    ensures ValueOf(all) == ValueOf(items)
  {
    LastSwitchBehind(item, items, items[0].indent);
    KeyedBehind(items, item);
    ValueBehind(all, items, item, LastSwitch(items, items[0].indent).value);
  }

  lemma ValueBehind(all: seq<Item>, items: seq<Item>, item: Item, s: nat)
    requires items != [] && Keyed(items) && Keyed(all) && all == [item] + items && item.indent == items[0].indent
    requires LastSwitch(items, items[0].indent) == Some(s) && LastSwitch(all, all[0].indent) == Some(s + 1)
    ensures ValueOf(all) == ValueOf(items)
  {
    ContinuedBehind(items, item, s + 1);
    ItemBehind(items, item, s + 1);
  }

  /** Put before fields of another indentation, or before a line that stands for all the fields, it
      leaves an entry that cannot be read. */
  lemma InsertedMisfit(items: seq<Item>, item: Item)
    requires items != [] && Aligned(items) && item.kind.Enabled?
    requires item.indent != items[0].indent || !Keyed(items)
    ensures ValueOf([item] + items) == None
  {
    var all := [item] + items;
    assert all[1] == items[0];
    if item.indent == items[0].indent {
      KeyedBehind(items, item);
    } else if item.indent < items[0].indent {
      LastSwitchBehind(item, items, item.indent);
      assert LastSwitch(items, item.indent).None?;
      assert Continued(all, 0);
    }
  }

  lemma InsertedAlone(item: Item)
    requires item.kind.Enabled?
    ensures ValueOf([item] + []) == item.value
  {
    LastSwitchBehind(item, [], item.indent);
    assert [item] + [] == [item] && Keyed([item]);
  }

  lemma InsertedValue(items: seq<Item>, item: Item)
    requires Readable(items) && item.kind.Enabled?
    ensures ValueOf([item] + items) ==
      if items == [] then item.value
      else if item.indent != items[0].indent || !Keyed(items) then None
      else if LastSwitch(items, item.indent).None? then item.value
      else ValueOf(items)
  {
    if items == [] {
      InsertedAlone(item);
    } else if item.indent != items[0].indent || !Keyed(items) {
      InsertedMisfit(items, item);
    } else if LastSwitch(items, item.indent).None? {
      InsertedFirst(items, item);
    } else {
      InsertedIdly([item] + items, items, item);
    }
  }

  lemma InsertedItems(lines: Lines, k: nat, line: string)
    requires k < |lines| && IsSwitch(line) && Indent(line) > Indent(lines[k])
    ensures var edited := lines[..k + 1] + [line] + lines[k + 1..];
      Items(edited, k) == [ItemOf(line)] + Items(lines, k)
  {
    var edited := lines[..k + 1] + [line] + lines[k + 1..];
    SwitchIsContent(line);
    assert edited[k + 1..] == [line] + lines[k + 1..] && edited[k] == lines[k];
    assert ([line] + lines[k + 1..])[1..] == lines[k + 1..];
  }

  lemma ReplacedItems(lines: Lines, k: nat, p: nat, line: string)
    requires k < p < |lines| && IsSwitch(lines[p]) && IsSwitch(line)
    requires Indent(line) == Indent(lines[p]) > Indent(lines[k])
    requires forall i :: k < i < p ==> !EndsBlock(lines[i], Indent(lines[k])) && !IsSwitch(lines[i])
    ensures var items := Items(lines, k);
      FirstSwitch(items) < |items| && items[FirstSwitch(items)] == ItemOf(lines[p])
      && Items(lines[p := line], k) == items[FirstSwitch(items) := ItemOf(line)]
  {
    var rest := lines[k + 1..];
    assert lines[p := line][k + 1..] == rest[p - k - 1 := line];
    ItemsReplaced(rest, Indent(lines[k]), p - k - 1, line);
  }

  lemma SwitchItem(n: nat, on: bool)
    ensures ItemOf(SwitchLine(n, on)) == Item(n, true, Enabled, Some(on)) && IsSwitch(SwitchLine(n, on))
  {
    SwitchLineReads(n, on);
    IsWord("enabled");
    NamedField(SwitchText(on), "enabled", if on then "true" else "false");
  }

  predicate IsWordText(word: string) {
    word != "" && forall i :: 0 <= i < |word| ==> IsWordChar(word[i])
  }

  lemma IsWord(word: string)
    requires word == "enabled"
    ensures IsWordText(word)
  {
  }

  /** A bare word, a colon and a value read as that field. */
  lemma NamedField(text: string, word: string, value: string)
    requires IsWordText(word) && value != "" && !IsSpace(value[0]) && text == word + (": " + value)
    ensures ReadField(text) == Some(Field(word, value))
  {
    assert forall i :: 0 <= i < |word| ==> text[i] == word[i];
    WordEnds(text, |word|);
    ColonReads(word, value);
    assert text[..|word|] == word && text[|word|..] == ": " + value;
  }

  /** A colon, a space and the value after a key. */
  lemma ColonReads(key: string, value: string)
    requires value != "" && !IsSpace(value[0])
    ensures WithKey(key, ": " + value) == Some(Field(key, value))
  {
    var rest := ": " + value;
    assert rest[0] == ':' && rest[1] == ' ' && LStrip(rest) == rest;
    assert rest[1..] == " " + value && (" " + value)[1..] == value;
    assert LStrip(value) == value;
  }

  /** A field's switch among the items of an entry is the field of that name. */
  lemma {:induction false} FieldSwitchEnabled(rest: Lines, base: nat)
    ensures forall item :: item in ItemsFrom(rest, base) && item.switch && IsField(item) ==> item.kind.Enabled?
  {
    if rest != [] && !(IsContent(rest[0]) && Indent(rest[0]) <= base) {
      FieldSwitchEnabled(rest[1..], base);
      if IsSwitch(rest[0]) && IsField(ItemOf(rest[0])) {
        SwitchKind(rest[0]);
      }
    }
  }

  lemma ReplacingValue(lines: Lines, k: nat, on: bool)
    requires k < |lines| && Keyed(Items(lines, k)) && Replaces(lines, k)
    ensures k < |Switched(lines, k, on)|
    ensures SwitchValue(Switched(lines, k, on), k)
      == if Counts(lines, k) then Some(on) else if Idle(lines, k) then SwitchValue(lines, k) else None
  {
    var stop, w, items := StopFrom(lines, k + 1, Indent(lines[k])), WrittenIndent(lines, k), Items(lines, k);
    var line := SwitchLine(w, on);
    SwitchItem(w, on);
    SwitchLineReads(w, on);
    ReplacedItems(lines, k, stop, line);
    FieldSwitchEnabled(lines[k + 1..], Indent(lines[k]));
    assert items[FirstSwitch(items)] in items;
    ReplacedValue(items, ItemOf(line));
  }

  /** A line that stands for all the fields is no switch, so nothing is replaced. */
  lemma {:induction false} BodyIsNoSwitch(rest: Lines, base: nat)
    ensures forall item :: item in ItemsFrom(rest, base) && item.kind.Body? ==> !item.switch
  {
    if rest != [] && !(IsContent(rest[0]) && Indent(rest[0]) <= base) {
      BodyIsNoSwitch(rest[1..], base);
      if IsSwitch(rest[0]) {
        EnabledWord(Strip(rest[0]), "enabled");
      }
    }
  }

  lemma BodyInserts(lines: Lines, k: nat)
    requires k < |lines| && Readable(Items(lines, k)) && Replaces(lines, k)
    ensures Keyed(Items(lines, k))
  {
    var stop, items := StopFrom(lines, k + 1, Indent(lines[k])), Items(lines, k);
    BodyIsNoSwitch(lines[k + 1..], Indent(lines[k]));
    ReplacedItems(lines, k, stop, lines[stop]);
    assert items[FirstSwitch(items)] in items;
  }

  lemma InsertingValue(lines: Lines, k: nat, on: bool)
    requires k < |lines| && Readable(Items(lines, k)) && !Replaces(lines, k) && !Missed(lines, k)
    ensures k < |Switched(lines, k, on)|
    ensures SwitchValue(Switched(lines, k, on), k)
      == if Counts(lines, k) then Some(on) else if Idle(lines, k) then SwitchValue(lines, k) else None
  {
    var w := WrittenIndent(lines, k);
    SwitchItem(w, on);
    SwitchLineReads(w, on);
    IndentedDeeper(lines, k);
    InsertedItems(lines, k, SwitchLine(w, on));
    InsertedValue(Items(lines, k), ItemOf(SwitchLine(w, on)));
  }

  /** What the entry says after the edit: what was asked for, what it said before, or nothing that
      can be read; the entry was written as fields, or as one flow mapping or alias on a line. */
  lemma EditedValue(lines: Lines, k: nat, on: bool)
    requires k < |lines| && Readable(Items(lines, k))
    ensures k < |Switched(lines, k, on)|
    ensures SwitchValue(Switched(lines, k, on), k)
      == if Counts(lines, k) then Some(on) else if Idle(lines, k) then SwitchValue(lines, k) else None
  {
    if Replaces(lines, k) {
      BodyInserts(lines, k);
      ReplacingValue(lines, k, on);
    } else if !Missed(lines, k) {
      InsertingValue(lines, k, on);
    }
  }

  /** For an entry in one of those forms, the switch works, both on and off, if and only if the edited
      line is the field that counts; the entry is found where it was in any case. */
  lemma SwitchTakesExactly(lines: Lines, name: string, k: nat)
    requires Entry(lines, name) == Some(k) && Readable(Items(lines, k))
    ensures forall on :: k < |Switched(lines, k, on)| && Entry(Switched(lines, k, on), name) == Some(k)
    ensures (forall on :: SwitchValue(Switched(lines, k, on), k) == Some(on)) <==> Counts(lines, k)
  {
    forall on ensures k < |Switched(lines, k, on)| && Entry(Switched(lines, k, on), name) == Some(k) {
      UpToEntry(lines, k, on);
      SameUpTo(lines, Switched(lines, k, on), 0, None, name, k);
    }
    EditedValue(lines, k, true);
    EditedValue(lines, k, false);
  }

  lemma TurnedAgain(edited: Lines, k: nat, at: nat, indent: nat, on: bool)
    requires k < at < |edited| && StopFrom(edited, k + 1, Indent(edited[k])) == at
    requires IsSwitch(edited[at]) && Indent(edited[at]) == indent > Indent(edited[k])
    ensures Switched(edited, k, on) == edited[at := SwitchLine(indent, on)]
  {
  }

  /** However often the switch is turned, the file is the one the last turn alone would give. */
  lemma LastTurnWins(lines: Lines, k: nat, first: bool, last: bool)
    requires k < |lines|
    ensures k < |Switched(lines, k, first)|
    ensures Switched(Switched(lines, k, first), k, last) == Switched(lines, k, last)
  {
    UpToEntry(lines, k, first);
    if !Missed(lines, k) {
      var at, indent := WrittenAt(lines, k), WrittenIndent(lines, k);
      WritesOneLine(lines, k, first);
      IndentedDeeper(lines, k);
      SwitchLineReads(indent, first);
      TurnedAgain(Switched(lines, k, first), k, at, indent, last);
      WritesOneLine(lines, k, last);
    }
  }
}
