/** What a select returns, said without the comparisons both of its forms are built from: which rows
    pass the filters, and in what order they come. */
module SelectLaws {
  import opened Decimal
  import opened Options
  import opened Values
  import opened Select
  import opened Agreement

  // ---- Order -----------------------------------------------------------------------------

  /** The texts rise from row to row, or fall when the order is descending; equal texts keep the
      order in which the rows were stored. */
  ghost predicate InTextOrder(rows: Table, textOf: Row -> string, desc: bool) {
    forall i, j :: 0 <= i < j < |rows| ==>
      !(if desc then StrLt(textOf(rows[i]), textOf(rows[j])) else StrLt(textOf(rows[j]), textOf(rows[i])))
      && (textOf(rows[i]) == textOf(rows[j]) ==> rows[i].rowid < rows[j].rowid)
  }

  lemma OrderedTexts(rows: Table, key: SortKey, desc: bool)
    requires Ordered(rows, key, desc)
    ensures InTextOrder(rows, r => KeyOf(key, r), desc)
  {
    forall i, j | 0 <= i < j < |rows|
      ensures var a, b := KeyOf(key, rows[i]), KeyOf(key, rows[j]);
        !(if desc then StrLt(a, b) else StrLt(b, a)) && (a == b ==> rows[i].rowid < rows[j].rowid)
    {
      assert RowBefore(rows[i], rows[j], key, desc);
      StrLtTotal(KeyOf(key, rows[i]), KeyOf(key, rows[j]));
    }
  }

  lemma PartInOrder(rows: Table, lo: nat, hi: nat, textOf: Row -> string, desc: bool)
    requires InTextOrder(rows, textOf, desc) && lo <= hi <= |rows|
    ensures InTextOrder(rows[lo..hi], textOf, desc)
  {
    assert forall i :: 0 <= i < hi - lo ==> rows[lo..hi][i] == rows[lo + i];
  }

  /** The window of a sequence is a part of it. */
  lemma PyWindowPart(t: Table, limit: Option<int>, offset: nat) returns (lo: nat, hi: nat)
    ensures lo <= hi <= |t| && PyWindow(t, limit, offset) == t[lo..hi]
  {
    lo := if offset <= |t| then offset else |t|;
    hi := lo + |PyWindow(t, limit, offset)|;
  }

  lemma SqlWindowPart(t: Table, limit: Option<int>, offset: nat) returns (lo: nat, hi: nat)
    ensures lo <= hi <= |t| && SqlWindow(t, limit, offset) == t[lo..hi]
  {
    lo := if offset <= |t| then offset else |t|;
    hi := lo + |SqlWindow(t, limit, offset)|;
  }

  lemma {:induction false} PyFilterKeeps(t: Table, filters: seq<Filter>)
    requires PyFilter(t, filters).Rows? && RowidOrdered(t)
    ensures RowidOrdered(PyFilter(t, filters).rows)
    ensures forall r :: r in PyFilter(t, filters).rows ==> r in t
  {
    if t != [] {
      PyFilterKeeps(t[..|t| - 1], filters);
      assert t == t[..|t| - 1] + [t[|t| - 1]];
      forall r | r in PyFilter(t[..|t| - 1], filters).rows ensures r.rowid < t[|t| - 1].rowid {
        assert r in t[..|t| - 1];
      }
    }
  }

  /** The text a value is sorted by: str() of it, or nothing for a value that says nothing. */
  function OrderText(v: Json, text: Text): string {
    if SaysNothing(v) then ""
    else
      match v
      case Str(s) => s
      case Num(n) => IntText(n)
      case Bool(_) => "True"
      case _ => text.repr(v)
  }

  lemma OrderTexts(rows: Table, column: string, desc: bool, text: Text)
    requires InTextOrder(rows, r => PyOrderKey(r, column, text), desc)
    ensures InTextOrder(rows, (r: Row) => OrderText(Get(r.doc, column), text), desc)
  {
    forall r: Row ensures PyOrderKey(r, column, text) == OrderText(Get(r.doc, column), text) {
      TruthySays(Get(r.doc, column));
    }
  }

  /** The simple form returns rows in the order of their texts. */
  lemma PySelectInOrder(t: Table, q: Query, text: Text)
    requires RowidOrdered(t) && q.order.Some? && PySelect(t, q, text).Rows?
    ensures
      var column, desc := q.order.value.column, q.order.value.desc;
      InTextOrder(PySelect(t, q, text).rows, (r: Row) => OrderText(Get(r.doc, column), text), desc)
  {
    var o, key, desc := q.order.value, ByPython(q.order.value.column, text), q.order.value.desc;
    var rows := PyFilter(t, q.filters).rows;
    PyFilterKeeps(t, q.filters);
    SortOrders(rows, key, desc);
    OrderedTexts(PySort(rows, key, desc), key, desc);
    var lo, hi := PyWindowPart(PySort(rows, key, desc), q.limit, q.offset);
    PartInOrder(PySort(rows, key, desc), lo, hi, r => PyOrderKey(r, o.column, text), desc);
    OrderTexts(PySelect(t, q, text).rows, o.column, desc, text);
  }

  /** So does every answer SQLite may give, by the texts of its own cells. */
  lemma AnswerInOrder(t: Table, q: Query, text: Text, out: Selected)
    requires RowidOrdered(t) && q.order.Some? && PushesDown(q) && SelectAnswer(t, q, text, out) && out.Rows?
    ensures InTextOrder(out.rows, r => SqlOrderKey(r, q.order.value.column, text), q.order.value.desc)
  {
    var o, key, desc := q.order.value, BySql(q.order.value.column, text), q.order.value.desc;
    var rows := SqlFilter(t, q.filters, text);
    var ordered: Table :| IsOrdering(ordered, rows, key, desc) && out.rows == SqlWindow(ordered, q.limit, q.offset);
    OrderedTexts(ordered, key, desc);
    var lo, hi := SqlWindowPart(ordered, q.limit, q.offset);
    PartInOrder(ordered, lo, hi, r => SqlOrderKey(r, o.column, text), desc);
  }

  // ---- Filters ---------------------------------------------------------------------------

  /** True counts as 1 and False as 0. */
  function AsNumber(v: Json): Option<int> {
    match v
    case Num(n) => Some(n)
    case Bool(b) => Some(if b then 1 else 0)
    case _ => None
  }

  predicate SameJson(a: Json, b: Json) {
    a == b || (AsNumber(a).Some? && AsNumber(a) == AsNumber(b))
  }

  /** The cell a filter reads passes: it is the value, one of the values, or above the value. */
  predicate Passes(doc: Doc, f: Filter) {
    var have := Get(doc, f.column);
    match f
    case Eq(_, v) => SameJson(have, v)
    case In(_, vs) => exists i :: 0 <= i < |vs| && SameJson(have, vs[i])
    case Gt(_, v) =>
      (have.Str? && v.Str? && StrLt(v.s, have.s))
      || (AsNumber(have).Some? && AsNumber(v).Some? && AsNumber(have).value > AsNumber(v).value)
  }

  /** A cell that cannot be ordered against the value of a `gt` filter. */
  predicate Unlike(doc: Doc, f: Filter) {
    f.Gt?
    && (var have := Get(doc, f.column);
        have != Null && !(have.Str? && f.value.Str?) && (AsNumber(have).None? || AsNumber(f.value).None?))
  }

  lemma TestPasses(doc: Doc, f: Filter)
    ensures PyTest(doc, f).Hit? <==> Passes(doc, f)
    ensures PyTest(doc, f).Raises? <==> Unlike(doc, f)
  {
    if f.In? {
      assert forall i :: 0 <= i < |f.values| ==>
        (PyEq(Get(doc, f.column), f.values[i]) <==> SameJson(Get(doc, f.column), f.values[i]));
    }
  }

  lemma {:induction false} MatchesPasses(doc: Doc, filters: seq<Filter>)
    ensures PyMatches(doc, filters).Hit? <==> forall k :: 0 <= k < |filters| ==> Passes(doc, filters[k])
    ensures PyMatches(doc, filters).Raises? <==>
      exists k :: 0 <= k < |filters| && Unlike(doc, filters[k]) && forall j :: 0 <= j < k ==> Passes(doc, filters[j])
  {
    if filters != [] {
      TestPasses(doc, filters[0]);
      MatchesPasses(doc, filters[1..]);
      MatchesStep(doc, filters);
    }
  }

  lemma MatchesStep(doc: Doc, filters: seq<Filter>)
    requires filters != [] && (Unlike(doc, filters[0]) ==> !Passes(doc, filters[0]))
    ensures (forall k :: 0 <= k < |filters| ==> Passes(doc, filters[k]))
      <==> Passes(doc, filters[0]) && forall k :: 0 <= k < |filters[1..]| ==> Passes(doc, filters[1..][k])
    ensures
      (exists k :: 0 <= k < |filters| && Unlike(doc, filters[k]) && forall j :: 0 <= j < k ==> Passes(doc, filters[j]))
      == (Unlike(doc, filters[0])
          || (Passes(doc, filters[0])
              && exists k :: 0 <= k < |filters[1..]| && Unlike(doc, filters[1..][k])
                   && forall j :: 0 <= j < k ==> Passes(doc, filters[1..][j])))
  {
    var rest := filters[1..];
    assert forall k :: 0 < k < |filters| ==> filters[k] == rest[k - 1];
    if k :| 0 <= k < |filters| && Unlike(doc, filters[k]) && forall j :: 0 <= j < k ==> Passes(doc, filters[j]) {
      if k > 0 {
        assert Unlike(doc, rest[k - 1]);
        assert forall j :: 0 <= j < k - 1 ==> rest[j] == filters[j + 1];
      }
    }
    if k :| 0 <= k < |rest| && Unlike(doc, rest[k]) && forall j :: 0 <= j < k ==> Passes(doc, rest[j]) {
      assert Unlike(doc, filters[k + 1]);
      assert forall j :: 0 < j < k + 1 ==> filters[j] == rest[j - 1];
    }
  }

  ghost predicate PassesAll(doc: Doc, filters: seq<Filter>) {
    forall k :: 0 <= k < |filters| ==> Passes(doc, filters[k])
  }

  /** The simple form keeps exactly the rows that pass every filter, in their stored order. */
  lemma {:induction false} PyFilterExactly(t: Table, filters: seq<Filter>)
    requires PyFilter(t, filters).Rows?
    ensures forall r :: r in PyFilter(t, filters).rows <==> r in t && PassesAll(r.doc, filters)
  {
    if t != [] {
      PyFilterExactly(t[..|t| - 1], filters);
      MatchesPasses(t[|t| - 1].doc, filters);
      assert t == t[..|t| - 1] + [t[|t| - 1]];
    }
  }

  /** An unwindowed select of matching types returns exactly the rows that pass every filter, and
      without an order column in the order they are stored in. */
  lemma SelectsExactly(t: Table, q: Query, text: Text, out: Selected)
    requires RowidOrdered(t) && SelectAnswer(t, q, text, out) && out.Rows? && TypesMatch(t, q.filters, text)
    requires q.limit.None? && q.offset == 0
    ensures forall r :: r in out.rows <==> r in t && PassesAll(r.doc, q.filters)
    ensures q.order.None? ==> RowidOrdered(out.rows)
  {
    if PushesDown(q) {
      FilterRowsAgree(t, q.filters, text);
    }
    PyFilterExactly(t, q.filters);
    PyFilterKeeps(t, q.filters);
    if !PushesDown(q) && q.order.Some? {
      var rows := PyFilter(t, q.filters).rows;
      SortOrders(rows, ByPython(q.order.value.column, text), q.order.value.desc);
    }
  }

  // ---- Errors ----------------------------------------------------------------------------

  /** A filter meets a cell that it cannot be ordered against, and the filters before it pass. */
  ghost predicate Balks(doc: Doc, filters: seq<Filter>) {
    exists k :: 0 <= k < |filters| && Unlike(doc, filters[k]) && forall j :: 0 <= j < k ==> Passes(doc, filters[j])
  }

  lemma {:induction false} PyFilterRaises(t: Table, filters: seq<Filter>)
    ensures !PyFilter(t, filters).Overflow?
    ensures PyFilter(t, filters).TypeError? <==> exists r :: r in t && Balks(r.doc, filters)
  {
    if t != [] {
      PyFilterRaises(t[..|t| - 1], filters);
      MatchesPasses(t[|t| - 1].doc, filters);
      assert t == t[..|t| - 1] + [t[|t| - 1]];
    }
  }

  predicate IsLetter(c: char) {
    c == '_' || 'a' <= c <= 'z' || 'A' <= c <= 'Z'
  }

  /** A column whose name may stand in a statement: letters, digits and underscores, and no digit first. */
  predicate Spliceable(column: string) {
    column != "" && IsLetter(column[0]) && forall i :: 0 <= i < |column| ==> IsLetter(column[i]) || IsDigit(column[i])
  }

  /** The values a filter looks for. */
  function Wanted(f: Filter): seq<Json> {
    if f.In? then f.values else [f.value]
  }

  /** SQLite answers the query: every column may stand in a statement, no value looked for is a list or an
      object, and nothing is compared with None. */
  ghost predicate Sent(q: Query) {
    (forall i :: 0 <= i < |q.filters| ==> SentFilter(q.filters[i]))
    && (q.order.None? || Spliceable(q.order.value.column))
  }

  ghost predicate SentFilter(f: Filter) {
    Spliceable(f.column) && !(f.Gt? && f.value == Null)
    && forall v :: v in Wanted(f) ==> !v.Arr? && !v.Obj?
  }

  /** Some number of the query has more than 64 bits. */
  ghost predicate HasWideNumber(q: Query) {
    (exists i, v :: 0 <= i < |q.filters| && v in Wanted(q.filters[i]) && v.Num? && Wide(v.n))
    || (q.limit.Some? && Wide(q.limit.value)) || Wide(q.offset)
  }

  predicate Wide(n: int) {
    n < -0x8000_0000_0000_0000 || n > 0x7fff_ffff_ffff_ffff
  }

  lemma FilterSent(f: Filter)
    ensures Pushable(f) <==> SentFilter(f)
    ensures FilterBinds(f) <==> forall v :: v in Wanted(f) ==> !(v.Num? && Wide(v.n))
  {
    assert Pushable(f) && f.In? ==> Wanted(f) == f.values;
    assert !f.In? ==> f.value in Wanted(f);
  }

  /** A select fails exactly in two ways: the simple form meets a row that one of its filters balks at, or
      SQLite is sent a number that it does not have. */
  lemma SelectFailsExactly(t: Table, q: Query, text: Text, out: Selected)
    requires SelectAnswer(t, q, text, out)
    ensures out == TypeError <==> !Sent(q) && exists r :: r in t && Balks(r.doc, q.filters)
    ensures out == Overflow <==> Sent(q) && HasWideNumber(q)
  {
    forall i | 0 <= i < |q.filters|
      ensures Pushable(q.filters[i]) <==> SentFilter(q.filters[i])
      ensures FilterBinds(q.filters[i]) <==> forall v :: v in Wanted(q.filters[i]) ==> !(v.Num? && Wide(v.n))
    {
      FilterSent(q.filters[i]);
    }
    PyFilterRaises(t, q.filters);
  }
}
