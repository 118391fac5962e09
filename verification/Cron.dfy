/** Cron expressions: parsing, matching, and the day-skipping search for the next match. Time is
    wall-clock minutes; minute t lies on calendar day t / 1440. */
module Cron {
  import opened Decimal
  import opened Options
  import opened Strings
  import opened Calendar

  const SEARCH := 5 * 366 * 1440

  /** The first minute datetime can represent. */
  const FIRST := 1440

  // ---- Parsing ---------------------------------------------------------------------------

  /** One part of a field: every `step`-th number from `first` to `last`. */
  datatype Part = Part(first: int, last: int, step: int)
  type Range = p: Part | p.step >= 1 witness Part(0, 0, 1)

  /** range(first, last + 1, step) */
  function RangeSet(first: int, last: int, step: int): set<int>
    requires step >= 1
    decreases last - first
  {
    if first > last then {} else {first} + RangeSet(first + step, last, step)
  }

  function CronInt(text: string): Option<int> {
    var t := Strip(text);
    if IsDigits(t) then Some(ReadNat(t)) else None
  }

  function Bounds(body: string, low: int, high: int): Option<(int, int)> {
    if body == "*" then Some((low, high))
    else if '-' in LStripDashes(body) then
      var i := Find(body, '-');
      match (CronInt(body[..i]), CronInt(if i < |body| then body[i + 1..] else ""))
      case (Some(a), Some(b)) => Some((a, b))
      case _ => None
    else
      match CronInt(body)
      case Some(a) => Some((a, a))
      case None => None
  }

  /** One comma-separated part; None is the CronExpressionError. */
  function ParsePart(text: string, low: int, high: int): (p: Option<Range>)
    ensures p.Some? ==> low <= p.value.first <= p.value.last <= high
  {
    var part := Strip(text);
    if part == "" then None
    else
      var slash := Find(part, '/');
      var stepText := if slash < |part| then part[slash + 1..] else "1";
      if !IsDigits(stepText) || ReadNat(stepText) < 1 then None
      else
        var body := if slash == |part| then part else if slash == 0 then "*" else part[..slash];
        match Bounds(body, low, high)
        case None => None
        case Some((a, b)) =>
          if a < low || b > high || a > b then None else Some(Part(a, b, ReadNat(stepText)))
  }

  function Numbers(p: Range): set<int> {
    RangeSet(p.first, p.last, p.step)
  }

  function ParseParts(parts: seq<string>, low: int, high: int): seq<Option<Range>> {
    seq(|parts|, i requires 0 <= i < |parts| => ParsePart(parts[i], low, high))
  }

  /** The numbers the parts denote together; None when one of them did not parse. */
  function UnionOf(parts: seq<Option<Range>>): Option<set<int>> {
    if parts == [] then Some({})
    else
      match (UnionOf(parts[..|parts| - 1]), parts[|parts| - 1])
      case (Some(s), Some(p)) => Some(s + Numbers(p))
      case _ => None
  }

  function FieldSet(spec: string, low: int, high: int): Option<set<int>> {
    UnionOf(ParseParts(Split(spec, ','), low, high))
  }

  /** _parse_cron_field: the set is filled part by part. */
  method ParseField(spec: string, low: int, high: int) returns (r: Option<set<int>>)
    ensures r == FieldSet(spec, low, high)
  {
    var parts, allowed: set<int>, i := Split(spec, ','), {}, 0;
    ghost var parsed := ParseParts(parts, low, high);
    while i < |parts|
      invariant 0 <= i <= |parts| && UnionOf(parsed[..i]) == Some(allowed)
    {
      var part := ParsePart(parts[i], low, high);
      assert parsed[..i + 1][..i] == parsed[..i] && parsed[..i + 1][i] == part;
      if part.None? {
        StaysNone(parsed, i + 1);
        return None;
      }
      allowed := AddRange(allowed, part.value);
      i := i + 1;
    }
    assert parsed[..i] == parsed;
    r := Some(allowed);
  }

  /** allowed.update(range(start, end + 1, step)) */
  method AddRange(before: set<int>, p: Range) returns (allowed: set<int>)
    ensures allowed == before + Numbers(p)
  {
    allowed := before;
    var n := p.first;
    while n <= p.last
      invariant before + Numbers(p) == allowed + RangeSet(n, p.last, p.step)
      decreases p.last - n
    {
      allowed := allowed + {n};
      n := n + p.step;
    }
  }

  lemma {:induction false} StaysNone(parts: seq<Option<Range>>, n: nat)
    requires n <= |parts| && UnionOf(parts[..n]) == None
    ensures UnionOf(parts) == None
  {
    if n == |parts| {
      assert parts[..n] == parts;
    } else {
      assert parts[..|parts| - 1][..n] == parts[..n];
      StaysNone(parts[..|parts| - 1], n);
    }
  }

  // ---- What a field means ----------------------------------------------------------------

  lemma MultipleAtLeast(step: int, d: int)
    requires step >= 1 && d >= 1
    ensures step * d >= step
  {
  }

  lemma Opposite(step: int, d: int)
    ensures step * -d == -(step * d)
  {
  }

  lemma Remainder(k: int, step: int, q: int, r: int)
    requires step >= 1 && k == step * q + r && 0 <= r < step
    ensures k % step == r
  {
    var q', r' := k / step, k % step;
    assert k == step * q' + r';
    assert step * (q - q') == r' - r;
    if q > q' { MultipleAtLeast(step, q - q'); }
    if q' > q {
      MultipleAtLeast(step, q' - q);
      Opposite(step, q - q');
    }
    assert q == q' ==> step * (q - q') == 0;
  }

  lemma RemainderShift(k: int, step: int)
    requires step >= 1
    ensures (k - step) % step == k % step
  {
    assert k - step == step * (k / step - 1) + k % step;
    Remainder(k - step, step, k / step - 1, k % step);
  }

  /** A part denotes every step-th number from its first to its last. */
  lemma {:induction false} PartMeaning(first: int, last: int, step: int, n: int)
    requires step >= 1
    ensures n in RangeSet(first, last, step) <==> first <= n <= last && (n - first) % step == 0
    decreases last - first
  {
    if first <= last {
      PartMeaning(first + step, last, step, n);
      RemainderShift(n - first, step);
      assert n - first - step == n - (first + step);
      if first <= n < first + step {
        Remainder(n - first, step, 0, n - first);
      }
    }
  }

  ghost predicate Inhabited(s: set<int>) {
    exists n :: n in s
  }

  ghost predicate Denotes(p: Option<Range>, n: int) {
    p.Some? && p.value.first <= n <= p.value.last && (n - p.value.first) % p.value.step == 0
  }

  lemma {:induction false} UnionMeaning(parts: seq<Option<Range>>, n: int)
    ensures UnionOf(parts).None? <==> None in parts
    ensures UnionOf(parts).Some? ==> (n in UnionOf(parts).value <==> exists p :: p in parts && Denotes(p, n))
  {
    if parts != [] {
      var front, last := parts[..|parts| - 1], parts[|parts| - 1];
      UnionMeaning(front, n);
      MemberSplit(parts, n);
      if last.Some? {
        PartMeaning(last.value.first, last.value.last, last.value.step, n);
      }
    }
  }

  lemma MemberSplit(parts: seq<Option<Range>>, n: int)
    requires parts != []
    ensures
      var front, last := parts[..|parts| - 1], parts[|parts| - 1];
      (None in parts <==> None in front || last == None)
      && ((exists p :: p in parts && Denotes(p, n)) <==> (exists p :: p in front && Denotes(p, n)) || Denotes(last, n))
  {
    var front, last := parts[..|parts| - 1], parts[|parts| - 1];
    assert parts == front + [last];
    assert forall p :: p in parts <==> p in front || p == last;
  }

  lemma {:induction false} NonEmpty(parts: seq<Option<Range>>, low: int, high: int)
    requires UnionOf(parts).Some?
    requires forall p: Option<Range> :: p in parts && p.Some? ==> low <= p.value.first <= p.value.last <= high
    ensures parts != [] ==> Inhabited(UnionOf(parts).value)
    ensures forall n :: n in UnionOf(parts).value ==> low <= n <= high
  {
    if parts != [] {
      var p := parts[|parts| - 1].value;
      assert parts[|parts| - 1] in parts;
      NonEmpty(parts[..|parts| - 1], low, high);
      assert p.first in Numbers(p);
      forall n | n in Numbers(p) ensures low <= n <= high {
        PartMeaning(p.first, p.last, p.step, n);
      }
    }
  }

  /** A field is refused exactly when one of its comma-separated parts is; otherwise it denotes a
      non-empty set inside the field's range, of exactly the numbers its parts denote. */
  lemma FieldMeaning(spec: string, low: int, high: int)
    ensures var s, parts := FieldSet(spec, low, high), ParseParts(Split(spec, ','), low, high);
      (s.None? <==> None in parts)
      && (s.Some? ==>
            Inhabited(s.value)
            && (forall n :: n in s.value ==> low <= n <= high)
            && forall n :: n in s.value <==> exists p :: p in parts && Denotes(p, n))
  {
    var parts := ParseParts(Split(spec, ','), low, high);
    UnionMeaning(parts, 0);
    if FieldSet(spec, low, high).Some? {
      NonEmpty(parts, low, high);
      forall n ensures n in FieldSet(spec, low, high).value <==> exists p :: p in parts && Denotes(p, n) {
        UnionMeaning(parts, n);
      }
    }
  }

  datatype CronExpr = CronExpr(
    minutes: set<int>, hours: set<int>, days: set<int>, months: set<int>, weekdays: set<int>,
    raw: string, dayUnion: bool)

  function Shortcut(text: string): Option<string> {
    if text == "@yearly" || text == "@annually" then Some("0 0 1 1 *")
    else if text == "@monthly" then Some("0 0 1 * *")
    else if text == "@weekly" then Some("0 0 * * 0")
    else if text == "@daily" || text == "@midnight" then Some("0 0 * * *")
    else if text == "@hourly" then Some("0 * * * *")
    else None
  }

  /** 7 is Sunday too. */
  function SundayAsZero(days: set<int>): set<int> {
    set d | d in days :: if d == 7 then 0 else d
  }

  function ParseFields(f: seq<string>, raw: string): Option<CronExpr> {
    if |f| != 5 then None
    else
      match (FieldSet(f[0], 0, 59), FieldSet(f[1], 0, 23), FieldSet(f[2], 1, 31),
             FieldSet(f[3], 1, 12), FieldSet(f[4], 0, 7))
      case (Some(minutes), Some(hours), Some(days), Some(months), Some(weekdays)) =>
        Some(CronExpr(minutes, hours, days, months, SundayAsZero(weekdays), raw, f[2] != "*" && f[4] != "*"))
      case _ => None
  }

  /** parse_cron */
  function ParseCron(expression: string): Option<CronExpr> {
    var text := Strip(expression);
    var lowered := Lower(text);
    if text == "" then None
    else if Shortcut(lowered).Some? then
      var full := Shortcut(lowered).value;
      ParseFields(Fields(full), full)
    else if lowered[0] == '@' then None
    else ParseFields(Fields(text), text)
  }

  /** What every parsed expression satisfies. */
  ghost predicate WellFormed(e: CronExpr) {
    Within(e.minutes, 0, 59) && Within(e.hours, 0, 23) && Within(e.days, 1, 31)
    && Within(e.months, 1, 12) && Within(e.weekdays, 0, 6)
    && (e.dayUnion || AnyDay(e) || AnyWeekday(e))
  }

  ghost predicate AnyDay(e: CronExpr) {
    forall n :: 1 <= n <= 31 ==> n in e.days
  }

  ghost predicate AnyWeekday(e: CronExpr) {
    forall n :: 0 <= n <= 6 ==> n in e.weekdays
  }

  lemma StarPart(low: int, high: int)
    requires low <= high
    ensures Split("*", ',') == ["*"] && ParsePart("*", low, high) == Some(Part(low, high, 1))
  {
    assert Find("*", ',') == 1 && Find("*", '/') == 1;
    assert Strip("*") == "*" && ReadNat("1") == 1;
  }

  lemma StarIsAll(low: int, high: int, n: int)
    requires low <= n <= high
    ensures FieldSet("*", low, high).Some? && n in FieldSet("*", low, high).value
  {
    StarPart(low, high);
    var parts: seq<Option<Range>> := [Some(Part(low, high, 1))];
    assert ParseParts(Split("*", ','), low, high) == parts;
    assert parts[..|parts| - 1] == [] && UnionOf(parts) == Some({} + Numbers(Part(low, high, 1)));
    PartMeaning(low, high, 1, n);
  }

  lemma SundayInRange(days: set<int>)
    requires Within(days, 0, 7)
    ensures Within(SundayAsZero(days), 0, 6)
  {
    var d :| d in days;
    assert (if d == 7 then 0 else d) in SundayAsZero(days);
  }

  lemma StarWeekdays(n: int)
    requires 0 <= n <= 6
    ensures FieldSet("*", 0, 7).Some? && n in SundayAsZero(FieldSet("*", 0, 7).value)
  {
    StarIsAll(0, 7, n);
  }

  lemma FieldInRange(spec: string, low: int, high: int)
    requires FieldSet(spec, low, high).Some?
    ensures Within(FieldSet(spec, low, high).value, low, high)
  {
    FieldMeaning(spec, low, high);
  }

  ghost predicate Within(s: set<int>, low: int, high: int) {
    Inhabited(s) && forall n :: n in s ==> low <= n <= high
  }

  lemma ParsedIsWellFormed(f: seq<string>, raw: string)
    requires ParseFields(f, raw).Some?
    ensures WellFormed(ParseFields(f, raw).value)
  {
    var e := ParseFields(f, raw).value;
    FieldInRange(f[0], 0, 59);
    FieldInRange(f[1], 0, 23);
    FieldInRange(f[2], 1, 31);
    FieldInRange(f[3], 1, 12);
    FieldInRange(f[4], 0, 7);
    SundayInRange(FieldSet(f[4], 0, 7).value);
    if f[2] == "*" {
      EveryDay(e.days);
    } else if f[4] == "*" {
      EveryWeekday(e.weekdays);
    }
  }

  lemma EveryDay(days: set<int>)
    requires FieldSet("*", 1, 31) == Some(days)
    ensures forall n :: 1 <= n <= 31 ==> n in days
  {
    forall n | 1 <= n <= 31 ensures n in days { StarIsAll(1, 31, n); }
  }

  lemma EveryWeekday(days: set<int>)
    requires FieldSet("*", 0, 7).Some? && days == SundayAsZero(FieldSet("*", 0, 7).value)
    ensures forall n :: 0 <= n <= 6 ==> n in days
  {
    forall n | 0 <= n <= 6 ensures n in days { StarWeekdays(n); }
  }

  // ---- Matching --------------------------------------------------------------------------

  function DateAt(t: int): Date {
    DateOf(t / 1440)
  }

  /** datetime.weekday(): Monday is 0; cron counts from Sunday. */
  function CronWeekday(t: int): int {
    ((t / 1440 + 6) % 7 + 1) % 7
  }

  /** _date_could_match */
  predicate DateCouldMatch(e: CronExpr, t: int) {
    var d := DateAt(t);
    d.month in e.months
    && var domOk, dowOk := d.day in e.days, CronWeekday(t) in e.weekdays;
       if e.dayUnion then domOk || dowOk else domOk && dowOk
  }

  predicate Matches(e: CronExpr, t: int) {
    t % 60 in e.minutes && (t % 1440) / 60 in e.hours && DateCouldMatch(e, t)
  }

  // ---- The search ------------------------------------------------------------------------

  /** The plain search: the first match from `t` on, minute by minute, before `limit`. */
  function Scan(e: CronExpr, t: int, limit: int): Option<int>
    decreases limit - t
  {
    if t >= limit then None else if Matches(e, t) then Some(t) else Scan(e, t + 1, limit)
  }

  /** The least match after `after` within the search window. */
  function NextMatch(e: CronExpr, after: int): Option<int> {
    Scan(e, after + 1, after + 1 + SEARCH)
  }

  lemma {:induction false} ScanIsLeast(e: CronExpr, t: int, limit: int)
    ensures var r := Scan(e, t, limit);
      (r.Some? ==> t <= r.value < limit && Matches(e, r.value) && forall u :: t <= u < r.value ==> !Matches(e, u))
      && (r.None? ==> forall u :: t <= u < limit ==> !Matches(e, u))
    decreases limit - t
  {
    if t < limit && !Matches(e, t) {
      ScanIsLeast(e, t + 1, limit);
    }
  }

  /** next_cron_time gives the least later minute that matches, and raises exactly when the
      window holds none. */
  lemma NextMatchIsLeast(e: CronExpr, after: int)
    ensures var r := NextMatch(e, after);
      (r.Some? ==> after < r.value <= after + SEARCH && Matches(e, r.value)
                   && forall u :: after < u < r.value ==> !Matches(e, u))
      && (r.None? <==> forall u :: after < u <= after + SEARCH ==> !Matches(e, u))
  {
    ScanIsLeast(e, after + 1, after + 1 + SEARCH);
  }

  lemma {:induction false} ScanSkips(e: CronExpr, t: int, u: int, limit: int)
    requires t <= u && forall m :: t <= m < u && m < limit ==> !Matches(e, m)
    ensures Scan(e, t, limit) == Scan(e, u, limit)
    decreases u - t
  {
    if t < u && t < limit {
      ScanSkips(e, t + 1, u, limit);
    }
  }

  /** next_cron_time: whole days are skipped when the date cannot match. */
  method NextCronTime(e: CronExpr, after: int) returns (r: Option<int>)
    requires after >= FIRST
    ensures r == NextMatch(e, after)
  {
    var moment := after + 1;
    var limit := moment + SEARCH;
    while moment < limit
      invariant moment > after && Scan(e, after + 1, limit) == Scan(e, moment, limit)
      decreases limit - moment
    {
      if !DateCouldMatch(e, moment) {
        var midnight := (moment / 1440 + 1) * 1440;
        assert forall m :: moment <= m < midnight ==> m / 1440 == moment / 1440;
        ScanSkips(e, moment, midnight, limit);
        moment := midnight;
      } else if Matches(e, moment) {
        return Some(moment);
      } else {
        moment := moment + 1;
      }
    }
    r := None;
  }
}
