/** Cron fields and texts of the plainest shapes: what they denote and how they are split. */
module CronFields {
  import opened Decimal
  import opened Options
  import opened Strings
  import opened Cron

  // ---- What single fields denote -----------------------------------------------------------

  lemma {:induction false} FindNothing(s: string, c: char)
    requires c !in s
    ensures Find(s, c) == |s|
  {
  }

  lemma SplitWhole(s: string)
    requires ',' !in s
    ensures Split(s, ',') == [s]
  {
    FindNothing(s, ',');
  }

  lemma OnePart(spec: string, low: int, high: int)
    requires ',' !in spec
    ensures FieldSet(spec, low, high)
      == match ParsePart(spec, low, high) case None => None case Some(p) => Some(Numbers(p))
  {
    SplitWhole(spec);
    var parts := [ParsePart(spec, low, high)];
    assert ParseParts(Split(spec, ','), low, high) == parts;
    assert parts[..|parts| - 1] == [] && UnionOf(parts[..|parts| - 1]) == Some({});
    if parts[0].Some? {
      assert {} + Numbers(parts[0].value) == Numbers(parts[0].value);
    }
  }

  lemma DigitsPart(s: string, low: int, high: int)
    requires IsDigits(s)
    ensures ParsePart(s, low, high)
      == if low <= ReadNat(s) <= high then Some(Part(ReadNat(s), ReadNat(s), 1)) else None
  {
    StripNothing(s);
    FindNothing(s, '/');
    assert '-' !in s && LStripDashes(s) == s && s[0] != '*';
    assert IsDigits("1") && ReadNat("1") == 1;
  }

  lemma JustOne(n: int)
    ensures RangeSet(n, n, 1) == {n}
  {
    assert RangeSet(n + 1, n, 1) == {} && {n} + {} == {n};
  }

  /** A plain number denotes itself, and is refused outside the field's range. */
  lemma DigitsField(s: string, low: int, high: int)
    requires IsDigits(s)
    ensures FieldSet(s, low, high) == if low <= ReadNat(s) <= high then Some({ReadNat(s)}) else None
  {
    OnePart(s, low, high);
    DigitsPart(s, low, high);
    JustOne(ReadNat(s));
  }

  lemma RangePart(spec: string)
    requires spec == "1-5"
    ensures ParsePart(spec, 0, 7) == Some(Part(1, 5, 1))
  {
    StripNothing(spec);
    FindNothing(spec, '/');
    assert LStripDashes(spec) == spec && spec[1] == '-' && spec != "*";
    assert Find(spec, '-') == 1 && spec[..1] == "1" && spec[2..] == "5";
    StripNothing("1");
    StripNothing("5");
    assert IsDigits("1") && ReadNat("1") == 1 && IsDigits("5") && ReadNat("5") == 5;
  }

  lemma RangeField(spec: string)
    requires spec == "1-5"
    ensures FieldSet(spec, 0, 7).Some? && SundayAsZero(FieldSet(spec, 0, 7).value) == {1, 2, 3, 4, 5}
  {
    OnePart(spec, 0, 7);
    RangePart(spec);
    OneToFiveNumbers(Numbers(Part(1, 5, 1)));
  }

  lemma OneToFiveNumbers(days: set<int>)
    requires days == Numbers(Part(1, 5, 1))
    ensures SundayAsZero(days) == {1, 2, 3, 4, 5}
  {
    forall n ensures n in days <==> 1 <= n <= 5 {
      PartMeaning(1, 5, 1, n);
    }
    SundayStays(days);
  }

  lemma SundayStays(days: set<int>)
    requires forall n :: n in days ==> n < 7
    ensures SundayAsZero(days) == days
  {
    forall n | n in days ensures n in SundayAsZero(days) {
      assert n == if n == 7 then 0 else n;
    }
  }

  /** The numbers from `low` to `high`, all of them. */
  ghost predicate Full(s: set<int>, low: int, high: int) {
    forall n :: n in s <==> low <= n <= high
  }

  lemma StarField(low: int, high: int)
    requires low <= high
    ensures FieldSet("*", low, high).Some? && Full(FieldSet("*", low, high).value, low, high)
  {
    StarIsAll(low, high, low);
    forall n | low <= n <= high ensures n in FieldSet("*", low, high).value {
      StarIsAll(low, high, n);
    }
    FieldInRange("*", low, high);
  }

  // ---- Fields of a text built from words ---------------------------------------------------

  predicate IsWord(w: string) {
    w != "" && forall i :: 0 <= i < |w| ==> !IsSpace(w[i])
  }

  lemma {:induction false} FindSpaceAfter(w: string, rest: string)
    requires forall i :: 0 <= i < |w| ==> !IsSpace(w[i])
    requires rest == "" || IsSpace(rest[0])
    ensures FindSpace(w + rest) == |w|
  {
    var s := w + rest;
    if w != "" {
      assert s[1..] == w[1..] + rest;
      FindSpaceAfter(w[1..], rest);
    }
  }

  lemma FieldsLast(w: string)
    requires IsWord(w)
    ensures Fields(w) == [w]
  {
    FindSpaceAfter(w, "");
    assert w + "" == w && w[..|w|] == w && w[|w|..] == "";
  }

  lemma FieldsCons(w: string, rest: string)
    requires IsWord(w)
    ensures Fields(w + (" " + rest)) == [w] + Fields(rest)
  {
    var s := w + (" " + rest);
    FindSpaceAfter(w, " " + rest);
    assert s[..|w|] == w && s[|w|..] == " " + rest;
    assert (" " + rest)[1..] == rest;
  }

  lemma FieldsOfTwo(a: string, b: string, rest: string)
    requires IsWord(a) && IsWord(b)
    ensures Fields(a + (" " + (b + (" " + rest)))) == [a, b] + Fields(rest)
  {
    FieldsCons(a, b + (" " + rest));
    FieldsCons(b, rest);
    assert [a] + ([b] + Fields(rest)) == [a, b] + Fields(rest);
  }

  /** Five fields as one text. */
  function FiveFields(minute: string, hour: string, dom: string, month: string, dow: string): string {
    minute + (" " + (hour + (" " + (dom + (" " + (month + (" " + dow)))))))
  }

  lemma FieldsOfFive(minute: string, hour: string, dom: string, month: string, dow: string)
    requires IsWord(minute) && IsWord(hour) && IsWord(dom) && IsWord(month) && IsWord(dow)
    ensures Fields(FiveFields(minute, hour, dom, month, dow)) == [minute, hour, dom, month, dow]
  {
    FieldsOfTwo(minute, hour, dom + (" " + (month + (" " + dow))));
    FieldsOfTwo(dom, month, dow);
    FieldsLast(dow);
  }

  /** A cron text that leaves the day of the month and the month open. */
  function CronText(minute: string, hour: string, dow: string): string {
    FiveFields(minute, hour, "*", "*", dow)
  }

  lemma FieldsOfCron(minute: string, hour: string, dow: string)
    requires IsWord(minute) && IsWord(hour) && IsWord(dow)
    ensures Fields(CronText(minute, hour, dow)) == [minute, hour, "*", "*", dow]
  {
    FieldsOfFive(minute, hour, "*", "*", dow);
  }

  lemma NotShortcut(text: string)
    requires text != "" && text[0] != '@'
    ensures Shortcut(text) == None
  {
  }

  /** A text that starts with a digit and ends in a word is parsed field by field. */
  lemma ParsesPlainly(text: string)
    requires text != "" && IsDigit(text[0]) && !IsSpace(text[|text| - 1])
    ensures ParseCron(text) == ParseFields(Fields(text), text)
  {
    StripNothing(text);
    NotShortcut(Lower(text));
  }
}
