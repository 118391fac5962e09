/** The search and the edit of the schedules file, said of the characters of its lines. */
module SwitchingText {
  import opened Options
  import opened Strings
  import opened Switching

  // ---- Lines -------------------------------------------------------------------------------

  predicate White(s: string) {
    forall i :: 0 <= i < |s| ==> IsSpace(s[i])
  }

  /** The first character of the line that is not white stands in column i. */
  predicate StartsAt(line: string, i: nat) {
    i < |line| && !IsSpace(line[i]) && forall k :: 0 <= k < i ==> IsSpace(line[k])
  }

  lemma {:induction false} LStripStarts(line: string, i: nat)
    requires StartsAt(line, i)
    ensures LStrip(line) == line[i..]
  {
    if i > 0 {
      assert forall k :: 0 <= k < i - 1 ==> line[1..][k] == line[k + 1];
      LStripStarts(line[1..], i - 1);
    }
  }

  lemma {:induction false} LStripWhite(line: string)
    requires White(line)
    ensures LStrip(line) == ""
  {
    if line != "" {
      LStripWhite(line[1..]);
    }
  }

  /** A text is what stripping leaves of its end, and white space. */
  lemma {:induction false} RStripRest(s: string)
    ensures RStrip(s) <= s && White(s[|RStrip(s)|..])
    ensures RStrip(s) != "" ==> !IsSpace(RStrip(s)[|RStrip(s)| - 1])
  {
    if s != "" && IsSpace(s[|s| - 1]) {
      var front := s[..|s| - 1];
      RStripRest(front);
      var n := |RStrip(s)|;
      assert s[n..] == front[n..] + [s[|s| - 1]];
      assert RStrip(s) <= front <= s;
    }
  }

  lemma {:induction false} RStripEnds(s: string, w: string)
    requires White(w) && (s == "" || !IsSpace(s[|s| - 1]))
    ensures RStrip(s + w) == s
    decreases |w|
  {
    if w == "" {
      assert s + w == s;
    } else {
      assert (s + w)[..|s + w| - 1] == s + w[..|w| - 1];
      RStripEnds(s, w[..|w| - 1]);
    }
  }

  lemma StripStarts(line: string, i: nat)
    requires StartsAt(line, i)
    ensures Strip(line) == RStrip(line[i..]) != "" && Strip(line)[0] == line[i] && Indent(line) == i
  {
    LStripStarts(line, i);
    RStripRest(line[i..]);
    assert line[i..][0] == line[i];
  }

  lemma StartOf(line: string) returns (i: nat)
    requires !White(line)
    ensures StartsAt(line, i)
  {
    i := 0;
    while IsSpace(line[i])
      invariant i < |line| && forall k :: 0 <= k < i ==> IsSpace(line[k])
      decreases |line| - i
    {
      i := i + 1;
    }
  }

  lemma OneStart(line: string, i: nat, j: nat)
    requires StartsAt(line, i) && StartsAt(line, j)
    ensures i == j
  {
  }

  /** A line is blank exactly when it is white. */
  lemma BlankExactly(line: string)
    ensures IsBlank(line) <==> White(line)
  {
    if White(line) {
      LStripWhite(line);
    } else {
      var i := StartOf(line);
      StripStarts(line, i);
    }
  }

  // ---- Names with a colon ------------------------------------------------------------------

  /** The text is the name, n colons, and white space. */
  predicate SpellsWith(x: string, name: string, n: nat) {
    n >= 1 && |name| + n <= |x| && x[..|name|] == name
    && (forall k :: |name| <= k < |name| + n ==> x[k] == ':')
    && (forall k :: |name| + n <= k < |x| ==> IsSpace(x[k]))
    && (name == "" || name[|name| - 1] != ':')
  }

  /** From column i on the line is the name with a colon. */
  ghost predicate Spells(line: string, i: nat, name: string)
    requires i <= |line|
  {
    exists n: nat :: SpellsWith(line[i..], name, n)
  }

  lemma {:induction false} ColonTail(s: string)
    ensures var t := RStripColons(s);
      t <= s && (forall k :: |t| <= k < |s| ==> s[k] == ':') && (t == "" || t[|t| - 1] != ':')
  {
    if s != "" && s[|s| - 1] == ':' {
      ColonTail(s[..|s| - 1]);
      assert RStripColons(s) <= s[..|s| - 1] <= s;
    }
  }

  lemma {:induction false} ColonsOff(s: string, m: nat)
    requires m <= |s| && (forall k :: m <= k < |s| ==> s[k] == ':') && (m == 0 || s[m - 1] != ':')
    ensures RStripColons(s) == s[..m]
    decreases |s|
  {
    if m < |s| {
      assert s[..|s| - 1][..m] == s[..m];
      ColonsOff(s[..|s| - 1], m);
    } else {
      assert s[..m] == s;
    }
  }

  lemma Trimmed(x: string, m: nat)
    requires m <= |x| && (forall k :: m <= k < |x| ==> IsSpace(x[k])) && (m == 0 || !IsSpace(x[m - 1]))
    ensures RStrip(x) == x[..m]
  {
    assert x == x[..m] + x[m..];
    RStripEnds(x[..m], x[m..]);
  }

  lemma SpelledText(x: string, name: string, n: nat)
    requires SpellsWith(x, name, n)
    ensures var t := RStrip(x); t != "" && t[|t| - 1] == ':' && RStripColons(t) == name
  {
    var m := |name| + n;
    Trimmed(x, m);
    assert x[..m][..|name|] == x[..|name|];
    assert |name| > 0 ==> x[|name| - 1] == name[|name| - 1];
    ColonsOff(x[..m], |name|);
  }

  lemma TextSpells(x: string, name: string)
    requires RStrip(x) != "" && RStrip(x)[|RStrip(x)| - 1] == ':' && RStripColons(RStrip(x)) == name
    ensures exists n: nat :: SpellsWith(x, name, n)
  {
    var t := RStrip(x);
    RStripRest(x);
    ColonTail(t);
    assert t == x[..|t|];
    assert forall k :: |t| <= k < |x| ==> x[k] == x[|t|..][k - |t|];
    assert SpellsWith(x, name, |t| - |name|);
  }

  /** A line is a key of that name exactly when it spells it. */
  lemma KeyExactly(line: string, i: nat, name: string)
    requires StartsAt(line, i)
    ensures IsKey(line) && RStripColons(Strip(line)) == name <==> Spells(line, i, name)
  {
    StripStarts(line, i);
    if IsKey(line) && RStripColons(Strip(line)) == name {
      TextSpells(line[i..], name);
    }
    if n: nat :| SpellsWith(line[i..], name, n) {
      SpelledText(line[i..], name, n);
    }
  }

  // ---- The search --------------------------------------------------------------------------

  /** A line the sections look past: white, a comment, or not in the first column. */
  ghost predicate PassedOver(line: string) {
    White(line) || exists i: nat :: StartsAt(line, i) && (i > 0 || line[i] == '#')
  }

  /** The line stands in the first column and is a name with a colon. */
  ghost predicate Opens(line: string, name: string) {
    StartsAt(line, 0) && line[0] != '#' && Spells(line, 0, name)
  }

  /** The last line before k that is not passed over opens the section. */
  ghost predicate Under(lines: Lines, k: nat, name: string)
    requires k <= |lines|
  {
    exists j :: 0 <= j < k && Opens(lines[j], name) && forall i :: j < i < k ==> PassedOver(lines[i])
  }

  lemma SectionStep(line: string, section: Option<string>, name: string)
    ensures Section(line, section) == Some(name)
      <==> Opens(line, name) || (PassedOver(line) && section == Some(name))
  {
    BlankExactly(line);
    if !White(line) {
      var i := StartOf(line);
      StripStarts(line, i);
      KeyExactly(line, i, name);
      forall j: nat | StartsAt(line, j) ensures j == i {
        OneStart(line, i, j);
      }
    }
  }

  lemma {:induction false} SectionExactly(lines: Lines, k: nat, name: string)
    requires k <= |lines|
    ensures SectionBefore(lines, k) == Some(name) <==> Under(lines, k, name)
  {
    if k > 0 {
      SectionExactly(lines, k - 1, name);
      SectionStep(lines[k - 1], SectionBefore(lines, k - 1), name);
      UnderStep(lines, k, name);
    }
  }

  lemma UnderStep(lines: Lines, k: nat, name: string)
    requires 0 < k <= |lines|
    ensures Under(lines, k, name)
      <==> Opens(lines[k - 1], name) || (PassedOver(lines[k - 1]) && Under(lines, k - 1, name))
  {
    if Under(lines, k, name) {
      UnderBefore(lines, k, name);
    }
    if Opens(lines[k - 1], name) || (PassedOver(lines[k - 1]) && Under(lines, k - 1, name)) {
      UnderAfter(lines, k, name);
    }
  }

  lemma UnderBefore(lines: Lines, k: nat, name: string)
    requires 0 < k <= |lines| && Under(lines, k, name)
    ensures Opens(lines[k - 1], name) || (PassedOver(lines[k - 1]) && Under(lines, k - 1, name))
  {
    var j :| 0 <= j < k && Opens(lines[j], name) && forall i :: j < i < k ==> PassedOver(lines[i]);
    if j < k - 1 {
      assert PassedOver(lines[k - 1]);
      assert forall i :: j < i < k - 1 ==> PassedOver(lines[i]);
    }
  }

  lemma UnderAfter(lines: Lines, k: nat, name: string)
    requires 0 < k <= |lines|
    requires Opens(lines[k - 1], name) || (PassedOver(lines[k - 1]) && Under(lines, k - 1, name))
    ensures Under(lines, k, name)
  {
    if !Opens(lines[k - 1], name) {
      var j :| 0 <= j < k - 1 && Opens(lines[j], name) && forall i :: j < i < k - 1 ==> PassedOver(lines[i]);
      assert forall i :: j < i < k ==> PassedOver(lines[i]);
    }
  }

  /** Line k is the name and a colon, not in the first column and no comment, under "schedules:" or
      "loops:". */
  ghost predicate NamesEntry(lines: Lines, k: nat, name: string)
    requires k < |lines|
  {
    (exists i: nat :: StartsAt(lines[k], i) && i > 0 && lines[k][i] != '#' && Spells(lines[k], i, name))
    && (Under(lines, k, "schedules") || Under(lines, k, "loops"))
  }

  lemma EntryReads(lines: Lines, k: nat, name: string)
    requires k < |lines|
    ensures EntryAt(lines, k, name) <==> NamesEntry(lines, k, name)
  {
    var line := lines[k];
    SectionExactly(lines, k, "schedules");
    SectionExactly(lines, k, "loops");
    BlankExactly(line);
    if !White(line) {
      var i := StartOf(line);
      StripStarts(line, i);
      KeyExactly(line, i, name);
      forall j: nat | StartsAt(line, j) ensures j == i {
        OneStart(line, i, j);
      }
    }
  }

  /** The search settles on line k exactly when it is the first line of the file that names the entry. */
  lemma SearchExactly(lines: Lines, name: string, k: nat)
    requires k < |lines|
    ensures Entry(lines, name) == Some(k)
      <==> NamesEntry(lines, k, name) && forall j: nat :: j < k ==> !NamesEntry(lines, j, name)
  {
    FoundExactly(lines, name, k);
    forall j: nat | j <= k ensures EntryAt(lines, j, name) <==> NamesEntry(lines, j, name) {
      EntryReads(lines, j, name);
    }
  }

  // ---- The edit ----------------------------------------------------------------------------

  /** The line is a switch, from column i on. */
  predicate SwitchAt(line: string, i: nat) {
    StartsAt(line, i) && "enabled:" <= line[i..]
  }

  /** The line ends the block of an entry in column `base`. */
  ghost predicate Ends(line: string, base: nat) {
    exists i: nat :: StartsAt(line, i) && i <= base
  }

  lemma PrefixStays(p: string, x: string)
    requires p != "" && !IsSpace(p[|p| - 1])
    ensures p <= RStrip(x) <==> p <= x
  {
    RStripRest(x);
    var t := RStrip(x);
    forall k | |t| <= k < |x| ensures IsSpace(x[k]) {
      assert x[|t|..][k - |t|] == x[k];
    }
    assert t == x[..|t|];
  }

  lemma SwitchExactly(line: string, mark: string)
    requires mark == "enabled:"
    ensures IsSwitch(line) <==> exists i: nat :: SwitchAt(line, i)
  {
    if White(line) {
      LStripWhite(line);
    } else {
      var i := StartOf(line);
      StripStarts(line, i);
      PrefixStays(mark, line[i..]);
      forall j: nat | StartsAt(line, j) ensures j == i {
        OneStart(line, i, j);
      }
      assert IsSwitch(line) ==> SwitchAt(line, i);
    }
  }

  lemma EndsExactly(line: string, base: nat)
    ensures EndsBlock(line, base) <==> Ends(line, base)
  {
    BlankExactly(line);
    if !White(line) {
      var i := StartOf(line);
      StripStarts(line, i);
      forall j: nat | StartsAt(line, j) ensures j == i {
        OneStart(line, i, j);
      }
    }
  }

  /** The first line below k that ends the block or is a switch; |lines| if there is none. */
  ghost predicate StopsAt(lines: Lines, k: nat, base: nat, stop: nat) {
    k < stop <= |lines|
    && (stop < |lines| ==> Ends(lines[stop], base) || exists i: nat :: SwitchAt(lines[stop], i))
    && forall j :: k < j < stop ==> !Ends(lines[j], base) && forall i: nat :: !SwitchAt(lines[j], i)
  }

  lemma StopExactly(lines: Lines, k: nat, base: nat, stop: nat)
    requires k < |lines| && StopsAt(lines, k, base, stop)
    ensures StopFrom(lines, k + 1, base) == stop
  {
    forall j | k < j <= stop && j < |lines|
      ensures EndsBlock(lines[j], base) <==> Ends(lines[j], base)
      ensures IsSwitch(lines[j]) <==> exists i: nat :: SwitchAt(lines[j], i)
    {
      EndsExactly(lines[j], base);
      SwitchExactly(lines[j], "enabled:");
    }
  }

  /** The column of the last line between k and stop that is not white, or two behind the entry's. */
  ghost predicate FieldColumn(lines: Lines, k: nat, base: nat, stop: nat, column: nat)
    requires k < stop <= |lines|
  {
    ((forall j :: k < j < stop ==> White(lines[j])) && column == base + 2)
    || exists j :: k < j < stop && StartsAt(lines[j], column) && forall i :: j < i < stop ==> White(lines[i])
  }

  lemma {:induction false} FieldIndentExactly(lines: Lines, j: nat, stop: nat, sofar: nat)
    requires j <= stop <= |lines|
    ensures (forall i :: j <= i < stop ==> White(lines[i])) ==> FieldIndent(lines, j, stop, sofar) == sofar
    ensures forall i, column: nat ::
      j <= i < stop && StartsAt(lines[i], column) && (forall m :: i < m < stop ==> White(lines[m])) ==>
        FieldIndent(lines, j, stop, sofar) == column
    decreases stop - j
  {
    if j < stop {
      var next := if IsBlank(lines[j]) then sofar else Indent(lines[j]);
      BlankExactly(lines[j]);
      FieldIndentExactly(lines, j + 1, stop, next);
      forall i, column: nat |
        j <= i < stop && StartsAt(lines[i], column) && (forall m :: i < m < stop ==> White(lines[m]))
        ensures FieldIndent(lines, j, stop, sofar) == column
      {
        if i == j {
          StripStarts(lines[j], column);
        }
      }
    }
  }

  /** The whole edit, where the entry's name stands in column `base` of line k: a switch that is deeper than
      the entry and comes before anything else ends its block is rewritten in its own column; a switch that
      itself ends the block is left alone, and the file with it; otherwise a switch is put right below the
      entry, in the column of the last line of the block. */
  lemma EditExactly(lines: Lines, k: nat, on: bool, base: nat, stop: nat, column: nat)
    requires k < |lines| && StartsAt(lines[k], base) && StopsAt(lines, k, base, stop)
    requires if stop < |lines| && exists i: nat :: SwitchAt(lines[stop], i) then SwitchAt(lines[stop], column)
             else FieldColumn(lines, k, base, stop, column)
    ensures var line := Spaces(column) + ((if on then "enabled: true" else "enabled: false") + "\n");
      Switched(lines, k, on) ==
        if stop < |lines| && exists i: nat :: SwitchAt(lines[stop], i) then
          if column <= base then lines else lines[stop := line]
        else lines[..k + 1] + [line] + lines[k + 1..]
  {
    StripStarts(lines[k], base);
    StopExactly(lines, k, base, stop);
    if stop < |lines| {
      SwitchExactly(lines[stop], "enabled:");
      EndsExactly(lines[stop], base);
    }
    if stop < |lines| && exists i: nat :: SwitchAt(lines[stop], i) {
      StripStarts(lines[stop], column);
    } else {
      FieldIndentExactly(lines, k + 1, stop, base + 2);
    }
  }

  lemma {:induction false} StopOf(lines: Lines, k: nat, base: nat, from: nat) returns (stop: nat)
    requires k < from <= |lines|
    requires forall j :: k < j < from ==> !Ends(lines[j], base) && forall i: nat :: !SwitchAt(lines[j], i)
    ensures StopsAt(lines, k, base, stop)
    decreases |lines| - from
  {
    if from == |lines| || Ends(lines[from], base) || exists i: nat :: SwitchAt(lines[from], i) {
      stop := from;
    } else {
      stop := StopOf(lines, k, base, from + 1);
    }
  }

  lemma {:induction false} ColumnOf(lines: Lines, k: nat, base: nat, stop: nat, last: nat) returns (column: nat)
    requires k < last <= stop <= |lines| && forall j :: last <= j < stop ==> White(lines[j])
    ensures FieldColumn(lines, k, base, stop, column)
    decreases last
  {
    if last == k + 1 {
      column := base + 2;
    } else if White(lines[last - 1]) {
      column := ColumnOf(lines, k, base, stop, last - 1);
    } else {
      column := StartOf(lines[last - 1]);
    }
  }

  /** Every entry has such columns and such a line, so its edit is described. */
  lemma EditDescribed(lines: Lines, k: nat) returns (base: nat, stop: nat, column: nat)
    requires k < |lines| && !White(lines[k])
    ensures StartsAt(lines[k], base) && StopsAt(lines, k, base, stop)
    ensures if stop < |lines| && exists i: nat :: SwitchAt(lines[stop], i) then SwitchAt(lines[stop], column)
            else FieldColumn(lines, k, base, stop, column)
  {
    base := StartOf(lines[k]);
    stop := StopOf(lines, k, base, k + 1);
    if stop < |lines| && exists i: nat :: SwitchAt(lines[stop], i) {
      column :| SwitchAt(lines[stop], column);
    } else {
      column := ColumnOf(lines, k, base, stop, stop);
    }
  }
}
