/** What cron fields mean, on their texts: numbers, ranges and stars, with or without a step, and lists
    of them. */
module CronParts {
  import opened Decimal
  import opened Options
  import opened Strings
  import opened Cron
  import opened CronFields

  /** One part of a field as it is written; the texts are digits, and nothing before a step is a star. */
  datatype Body = Star | Blank | One(a: string) | Span(a: string, b: string)

  datatype Piece = Piece(body: Body, step: Option<string>)

  predicate IsBody(body: Body) {
    match body
    case Star => true
    case Blank => true
    case One(a) => IsDigits(a)
    case Span(a, b) => IsDigits(a) && IsDigits(b)
  }

  predicate IsPiece(p: Piece) {
    IsBody(p.body) && (if p.step.Some? then IsDigits(p.step.value) else !p.body.Blank?)
  }

  function BodyText(body: Body): string {
    match body
    case Star => "*"
    case Blank => ""
    case One(a) => a
    case Span(a, b) => a + ("-" + b)
  }

  function PieceText(p: Piece): string {
    if p.step.Some? then BodyText(p.body) + ("/" + p.step.value) else BodyText(p.body)
  }

  function First(body: Body, low: int): int
    requires IsBody(body)
  {
    match body
    case Star => low
    case Blank => low
    case One(a) => ReadNat(a)
    case Span(a, _) => ReadNat(a)
  }

  function Last(body: Body, high: int): int
    requires IsBody(body)
  {
    match body
    case Star => high
    case Blank => high
    case One(a) => ReadNat(a)
    case Span(_, b) => ReadNat(b)
  }

  function StepOf(p: Piece): nat
    requires IsPiece(p)
  {
    if p.step.Some? then ReadNat(p.step.value) else 1
  }

  /** The step is positive, and the numbers rise within the field's range. */
  predicate Accepted(p: Piece, low: int, high: int)
    requires IsPiece(p)
  {
    StepOf(p) >= 1 && low <= First(p.body, low) <= Last(p.body, high) <= high
  }

  /** From `first` on, every step-th number up to `last`. */
  predicate EveryStep(n: int, first: int, last: int, step: nat) {
    step >= 1 && first <= n <= last && (n - first) % step == 0
  }

  ghost predicate Steps(s: set<int>, first: int, last: int, step: nat) {
    forall n :: n in s <==> EveryStep(n, first, last, step)
  }

  predicate Names(p: Piece, low: int, high: int, n: int)
    requires IsPiece(p)
  {
    EveryStep(n, First(p.body, low), Last(p.body, high), StepOf(p))
  }

  // ---- One part --------------------------------------------------------------------------

  lemma FindAfter(a: string, c: char, rest: string)
    requires c !in a
    ensures Find(a + ([c] + rest), c) == |a|
  {
    var s := a + ([c] + rest);
    assert s[|a|] == c && forall i :: 0 <= i < |a| ==> s[i] == a[i];
  }

  lemma DigitsRead(a: string)
    requires IsDigits(a)
    ensures CronInt(a) == Some(ReadNat(a))
  {
    StripNothing(a);
  }

  lemma BodyBounds(body: Body, low: int, high: int)
    requires IsBody(body)
    ensures Bounds(if body.Blank? then "*" else BodyText(body), low, high) == Some((First(body, low), Last(body, high)))
  {
    match body
    case Star =>
    case Blank =>
    case One(a) =>
      assert LStripDashes(a) == a && a[0] != '*';
      DigitsRead(a);
    case Span(a, b) =>
      var s := a + ("-" + b);
      FindAfter(a, '-', b);
      assert s[0] == a[0] && LStripDashes(s) == s && s[|a|] == '-';
      assert s[..|a|] == a && s[|a| + 1..] == b;
      DigitsRead(a);
      DigitsRead(b);
  }

  /** The text of a body is empty, the star, or starts and ends in a digit; it holds no slash or comma. */
  lemma BodyShape(body: Body)
    requires IsBody(body)
    ensures var s := BodyText(body);
      '/' !in s && ',' !in s && (s == "" <==> body.Blank?) && (s != "" ==> !IsSpace(s[0]) && !IsSpace(s[|s| - 1]))
  {
    match body
    case Blank =>
    case Star => assert "*"[0] == '*';
    case One(a) =>
    case Span(a, b) =>
      var s := a + ("-" + b);
      assert s[0] == a[0] && s[|s| - 1] == b[|b| - 1];
      assert forall i :: 0 <= i < |s| ==> IsDigit(s[i]) || s[i] == '-';
  }

  lemma PieceShape(p: Piece)
    requires IsPiece(p)
    ensures var s := PieceText(p); s != "" && ',' !in s && !IsSpace(s[0]) && !IsSpace(s[|s| - 1])
  {
    BodyShape(p.body);
    if p.step.Some? {
      var s, body, k := PieceText(p), BodyText(p.body), p.step.value;
      assert s[0] == (if body == "" then '/' else body[0]) && s[|s| - 1] == k[|k| - 1];
      assert forall i :: 0 <= i < |s| ==>
        s[i] == (if i < |body| then body[i] else if i == |body| then '/' else k[i - |body| - 1]);
    }
  }

  /** Where the step is cut off. */
  lemma PieceCut(p: Piece)
    requires IsPiece(p)
    ensures var s := PieceText(p); var slash := Find(s, '/');
      slash == |BodyText(p.body)| && s[..slash] == BodyText(p.body)
      && (if p.step.Some? then slash < |s| && s[slash + 1..] == p.step.value else slash == |s|)
  {
    var s, body := PieceText(p), BodyText(p.body);
    BodyShape(p.body);
    if p.step.Some? {
      FindAfter(body, '/', p.step.value);
      assert s[..|body|] == body && s[|body| + 1..] == p.step.value;
    } else {
      FindNothing(body, '/');
    }
  }

  lemma PartIs(text: string, body: string, step: string, first: int, last: int, low: int, high: int)
    requires text != "" && Strip(text) == text && IsDigits(step) && Bounds(body, low, high) == Some((first, last))
    requires var slash := Find(text, '/');
      if slash < |text| then body == (if slash == 0 then "*" else text[..slash]) && step == text[slash + 1..]
      else body == text && step == "1"
    ensures ParsePart(text, low, high)
      == if ReadNat(step) >= 1 && low <= first <= last <= high then Some(Part(first, last, ReadNat(step))) else None
  {
  }

  lemma PiecePart(p: Piece, low: int, high: int)
    requires IsPiece(p)
    ensures ParsePart(PieceText(p), low, high)
      == if Accepted(p, low, high) then Some(Part(First(p.body, low), Last(p.body, high), StepOf(p))) else None
  {
    var text, step := PieceText(p), if p.step.Some? then p.step.value else "1";
    assert Strip(text) == text by { PieceShape(p); StripNothing(text); }
    assert text != "" by { PieceShape(p); }
    assert p.body.Blank? <==> |BodyText(p.body)| == 0 by { BodyShape(p.body); }
    assert IsDigits(step) && ReadNat(step) == StepOf(p) by { OneDigit("1"); }
    PieceCut(p);
    BodyBounds(p.body, low, high);
    PartIs(text, if p.body.Blank? then "*" else BodyText(p.body), step, First(p.body, low), Last(p.body, high), low,
           high);
  }

  lemma OneDigit(one: string)
    requires one == "1"
    ensures IsDigits(one) && ReadNat(one) == 1
  {
  }

  lemma PieceSet(p: Piece, low: int, high: int)
    requires IsPiece(p)
    ensures FieldSet(PieceText(p), low, high)
      == if Accepted(p, low, high) then Some(RangeSet(First(p.body, low), Last(p.body, high), StepOf(p))) else None
  {
    PieceShape(p);
    PiecePart(p, low, high);
    OnePart(PieceText(p), low, high);
  }

  lemma RangeSteps(first: int, last: int, step: nat)
    requires step >= 1
    ensures Steps(RangeSet(first, last, step), first, last, step)
  {
    forall n ensures n in RangeSet(first, last, step) <==> EveryStep(n, first, last, step) {
      PartMeaning(first, last, step, n);
    }
  }

  /** A number, a range or a star, with a step or without: the field is accepted exactly when the step
      is positive and the numbers rise within the range, and then it denotes from the first number on
      every step-th one up to the last. */
  lemma PieceField(p: Piece, low: int, high: int)
    requires IsPiece(p)
    ensures var field := FieldSet(PieceText(p), low, high);
      (field.Some? <==> Accepted(p, low, high))
      && (field.Some? ==> Steps(field.value, First(p.body, low), Last(p.body, high), StepOf(p)))
  {
    PieceSet(p, low, high);
    if Accepted(p, low, high) {
      RangeSteps(First(p.body, low), Last(p.body, high), StepOf(p));
    }
  }

  // ---- Lists -----------------------------------------------------------------------------

  /** The parts with commas between them. */
  function ListText(pieces: seq<Piece>): string
    requires pieces != []
  {
    if |pieces| == 1 then PieceText(pieces[0]) else PieceText(pieces[0]) + ("," + ListText(pieces[1..]))
  }

  function Texts(pieces: seq<Piece>): (texts: seq<string>)
    ensures |texts| == |pieces|
  {
    seq(|pieces|, i requires 0 <= i < |pieces| => PieceText(pieces[i]))
  }

  lemma SplitFirst(first: string, rest: string)
    requires ',' !in first
    ensures Split(first + ("," + rest), ',') == [first] + Split(rest, ',')
  {
    var s := first + ("," + rest);
    FindAfter(first, ',', rest);
    assert s[..|first|] == first && s[|first| + 1..] == rest;
  }

  lemma {:induction false} SplitList(pieces: seq<Piece>)
    requires pieces != [] && forall i :: 0 <= i < |pieces| ==> IsPiece(pieces[i])
    ensures Split(ListText(pieces), ',') == Texts(pieces)
  {
    PieceShape(pieces[0]);
    if |pieces| == 1 {
      SplitWhole(PieceText(pieces[0]));
    } else {
      SplitFirst(PieceText(pieces[0]), ListText(pieces[1..]));
      SplitList(pieces[1..]);
    }
    TextsFirst(pieces);
  }

  lemma TextsFirst(pieces: seq<Piece>)
    requires pieces != []
    ensures Texts(pieces) == [PieceText(pieces[0])] + Texts(pieces[1..])
  {
  }

  predicate ArePieces(pieces: seq<Piece>) {
    forall i :: 0 <= i < |pieces| ==> IsPiece(pieces[i])
  }

  /** Some accepted part of the list names the number. */
  predicate ListNames(pieces: seq<Piece>, low: int, high: int, n: int)
    requires ArePieces(pieces)
  {
    exists i :: 0 <= i < |pieces| && Accepted(pieces[i], low, high) && Names(pieces[i], low, high, n)
  }

  function PartOf(p: Piece, low: int, high: int): Option<Range>
    requires IsPiece(p)
  {
    if Accepted(p, low, high) then Some(Part(First(p.body, low), Last(p.body, high), StepOf(p))) else None
  }

  ghost predicate ArePartsOf(parts: seq<Option<Range>>, pieces: seq<Piece>, low: int, high: int)
    requires ArePieces(pieces)
  {
    |parts| == |pieces| && forall i :: 0 <= i < |pieces| ==> parts[i] == PartOf(pieces[i], low, high)
  }

  lemma PartsOfList(pieces: seq<Piece>, low: int, high: int)
    requires ArePieces(pieces)
    ensures ArePartsOf(ParseParts(Texts(pieces), low, high), pieces, low, high)
  {
    forall i | 0 <= i < |pieces| ensures ParseParts(Texts(pieces), low, high)[i] == PartOf(pieces[i], low, high) {
      PiecePart(pieces[i], low, high);
    }
  }

  /** A list is accepted exactly when each of its parts is, and denotes what any of them denotes. */
  lemma ListField(pieces: seq<Piece>, low: int, high: int)
    requires pieces != [] && ArePieces(pieces)
    ensures var field := FieldSet(ListText(pieces), low, high);
      (field.Some? <==> forall i :: 0 <= i < |pieces| ==> Accepted(pieces[i], low, high))
      && (field.Some? ==> forall n :: n in field.value <==> ListNames(pieces, low, high, n))
  {
    var parts := ParseParts(Texts(pieces), low, high);
    SplitList(pieces);
    FieldMeaning(ListText(pieces), low, high);
    PartsOfList(pieces, low, high);
    NoneAmong(pieces, parts, low, high);
    if FieldSet(ListText(pieces), low, high).Some? {
      forall n ensures n in FieldSet(ListText(pieces), low, high).value <==> ListNames(pieces, low, high, n) {
        PartsName(pieces, parts, low, high, n);
      }
    }
  }

  lemma PartsName(pieces: seq<Piece>, parts: seq<Option<Range>>, low: int, high: int, n: int)
    requires ArePieces(pieces) && ArePartsOf(parts, pieces, low, high)
    ensures (exists p :: p in parts && Denotes(p, n)) <==> ListNames(pieces, low, high, n)
  {
    if p :| p in parts && Denotes(p, n) {
      var i :| 0 <= i < |parts| && parts[i] == p;
      assert Accepted(pieces[i], low, high) && Names(pieces[i], low, high, n);
    }
    if i :| 0 <= i < |pieces| && Accepted(pieces[i], low, high) && Names(pieces[i], low, high, n) {
      assert parts[i] in parts && Denotes(parts[i], n);
    }
  }

  lemma NoneAmong(pieces: seq<Piece>, parts: seq<Option<Range>>, low: int, high: int)
    requires ArePieces(pieces) && ArePartsOf(parts, pieces, low, high)
    ensures None !in parts <==> forall i :: 0 <= i < |pieces| ==> Accepted(pieces[i], low, high)
  {
    if i :| 0 <= i < |pieces| && !Accepted(pieces[i], low, high) {
      assert parts[i] in parts;
    }
  }

  /** "a-b/k" */
  lemma SteppedRange(a: string, b: string, k: string, low: int, high: int)
    requires IsDigits(a) && IsDigits(b) && IsDigits(k)
    ensures var field := FieldSet(a + ("-" + b) + ("/" + k), low, high);
      (field.Some? <==> ReadNat(k) >= 1 && low <= ReadNat(a) <= ReadNat(b) <= high)
      && (field.Some? ==> Steps(field.value, ReadNat(a), ReadNat(b), ReadNat(k)))
  {
    PieceField(Piece(Span(a, b), Some(k)), low, high);
  }

  /** A star, a slash and k. */
  lemma SteppedStar(k: string, low: int, high: int)
    requires IsDigits(k) && low <= high
    ensures var field := FieldSet("*" + ("/" + k), low, high);
      (field.Some? <==> ReadNat(k) >= 1)
      && (field.Some? ==> Steps(field.value, low, high, ReadNat(k)))
  {
    PieceField(Piece(Star, Some(k)), low, high);
  }

  // ---- Nothing else is accepted ------------------------------------------------------------

  /** A field as cutting an expression at its white space leaves it. */
  predicate Spaceless(s: string) {
    forall i :: 0 <= i < |s| ==> !IsSpace(s[i])
  }

  lemma SpacelessInt(s: string)
    requires Spaceless(s) && CronInt(s).Some?
    ensures IsDigits(s)
  {
    if s != "" {
      StripNothing(s);
    }
  }

  lemma BodyOf(text: string, low: int, high: int) returns (body: Body)
    requires Spaceless(text) && text != "" && Bounds(text, low, high).Some?
    ensures IsBody(body) && !body.Blank? && BodyText(body) == text
  {
    if text == "*" {
      body := Star;
    } else if '-' in LStripDashes(text) {
      var i := Find(text, '-');
      SpacelessInt(text[..i]);
      SpacelessInt(if i < |text| then text[i + 1..] else "");
      body := Span(text[..i], text[i + 1..]);
      assert text[i..i + 1] == "-";
    } else {
      SpacelessInt(text);
      body := One(text);
    }
  }

  lemma CutAt(s: string, i: nat, mark: string)
    requires i < |s| && mark == [s[i]]
    ensures s == s[..i] + (mark + s[i + 1..])
  {
  }

  lemma PartSome(text: string, low: int, high: int, slash: nat)
    requires Strip(text) == text && ParsePart(text, low, high).Some? && slash == Find(text, '/')
    ensures text != "" && (slash < |text| ==> IsDigits(text[slash + 1..]))
  {
  }

  lemma PartBounds(text: string, low: int, high: int, slash: nat)
    requires Strip(text) == text && ParsePart(text, low, high).Some? && slash == Find(text, '/')
    ensures slash > 0 ==> Bounds(text[..slash], low, high).Some?
  {
    assert text[..|text|] == text;
  }

  lemma PieceOf(text: string, low: int, high: int) returns (p: Piece)
    requires Spaceless(text) && ParsePart(text, low, high).Some?
    ensures IsPiece(p) && PieceText(p) == text
  {
    if text != "" {
      StripNothing(text);
    }
    var slash := Find(text, '/');
    PartSome(text, low, high, slash);
    PartBounds(text, low, high, slash);
    var body := Blank;
    if slash > 0 {
      body := BodyOf(text[..slash], low, high);
    }
    assert BodyText(body) == text[..slash];
    if slash == |text| {
      p := Piece(body, None);
      assert text[..slash] == text;
    } else {
      p := Piece(body, Some(text[slash + 1..]));
      CutAt(text, slash, "/");
    }
  }

  lemma ListMore(p: Piece, rest: seq<Piece>)
    requires rest != []
    ensures ListText([p] + rest) == PieceText(p) + ("," + ListText(rest))
  {
    assert ([p] + rest)[1..] == rest;
  }

  lemma SplitMembers(spec: string, i: nat)
    requires i == Find(spec, ',')
    ensures spec[..i] in Split(spec, ',')
    ensures i < |spec| ==> forall word :: word in Split(spec[i + 1..], ',') ==> word in Split(spec, ',')
  {
    if i < |spec| {
      assert Split(spec, ',') == [spec[..i]] + Split(spec[i + 1..], ',');
    } else {
      assert spec[..i] == spec && Split(spec, ',') == [spec];
    }
  }

  lemma {:induction false} PiecesOf(spec: string, low: int, high: int) returns (pieces: seq<Piece>)
    requires Spaceless(spec) && forall word :: word in Split(spec, ',') ==> ParsePart(word, low, high).Some?
    ensures pieces != [] && ArePieces(pieces) && ListText(pieces) == spec
    decreases |spec|
  {
    var i := Find(spec, ',');
    SplitMembers(spec, i);
    var p := PieceOf(spec[..i], low, high);
    if i == |spec| {
      pieces := [p];
      assert spec[..i] == spec;
    } else {
      var rest := PiecesOf(spec[i + 1..], low, high);
      pieces := [p] + rest;
      ListMore(p, rest);
      CutAt(spec, i, ",");
    }
  }

  /** The field is written as this list, and each of its parts is accepted. */
  predicate WrittenAs(spec: string, pieces: seq<Piece>, low: int, high: int) {
    pieces != [] && ArePieces(pieces) && spec == ListText(pieces)
    && forall i :: 0 <= i < |pieces| ==> Accepted(pieces[i], low, high)
  }

  /** The texts a field accepts are exactly the lists whose parts are accepted. */
  lemma AcceptedExactly(spec: string, low: int, high: int)
    requires Spaceless(spec)
    ensures FieldSet(spec, low, high).Some? <==> exists pieces :: WrittenAs(spec, pieces, low, high)
  {
    if pieces :| WrittenAs(spec, pieces, low, high) {
      ListField(pieces, low, high);
    }
    if FieldSet(spec, low, high).Some? {
      FieldMeaning(spec, low, high);
      forall word | word in Split(spec, ',') ensures ParsePart(word, low, high).Some? {
        var k :| 0 <= k < |Split(spec, ',')| && Split(spec, ',')[k] == word;
        assert ParseParts(Split(spec, ','), low, high)[k] == ParsePart(word, low, high);
      }
      var pieces := PiecesOf(spec, low, high);
      ListField(pieces, low, high);
      assert WrittenAs(spec, pieces, low, high);
    }
  }
}
