/** The pushed-down select returns what the simple form returns, row for row and in order. */
module Agreement {
  import opened Decimal
  import opened Options
  import opened Values
  import opened Select

  // ---- Filtering -------------------------------------------------------------------------

  ghost predicate TypesMatch(t: Table, filters: seq<Filter>, text: Text) {
    forall i, k :: 0 <= i < |t| && 0 <= k < |filters| ==> MatchingType(t[i].doc, filters[k], text)
  }

  lemma {:induction false} MatchesAgree(doc: Doc, filters: seq<Filter>, text: Text)
    requires forall k :: 0 <= k < |filters| ==> Pushable(filters[k]) && MatchingType(doc, filters[k], text)
    ensures PyMatches(doc, filters) == if SqlMatches(doc, filters, text) then Hit else Miss
  {
    if filters != [] {
      FilterAgreement(doc, filters[0], text);
      MatchesAgree(doc, filters[1..], text);
      assert SqlMatches(doc, filters, text)
          <==> SqlTest(doc, filters[0], text) == True && SqlMatches(doc, filters[1..], text);
    }
  }

  lemma {:induction false} FilterRowsAgree(t: Table, filters: seq<Filter>, text: Text)
    requires forall k :: 0 <= k < |filters| ==> Pushable(filters[k])
    requires TypesMatch(t, filters, text)
    ensures PyFilter(t, filters) == Rows(SqlFilter(t, filters, text))
  {
    if t != [] {
      FilterRowsAgree(t[..|t| - 1], filters, text);
      MatchesAgree(t[|t| - 1].doc, filters, text);
    }
  }

  lemma {:induction false} FilterMembers(t: Table, filters: seq<Filter>, text: Text)
    ensures forall r :: r in SqlFilter(t, filters, text) <==> r in t && SqlMatches(r.doc, filters, text)
  {
    if t != [] {
      FilterMembers(t[..|t| - 1], filters, text);
      assert t == t[..|t| - 1] + [t[|t| - 1]];
    }
  }

  lemma {:induction false} FilterOrdered(t: Table, filters: seq<Filter>, text: Text)
    requires RowidOrdered(t)
    ensures RowidOrdered(SqlFilter(t, filters, text))
  {
    if t != [] {
      var front := t[..|t| - 1];
      FilterOrdered(front, filters, text);
      FilterMembers(front, filters, text);
      forall i | 0 <= i < |SqlFilter(front, filters, text)|
        ensures SqlFilter(front, filters, text)[i].rowid < t[|t| - 1].rowid
      {
        assert SqlFilter(front, filters, text)[i] in front;
      }
    }
  }

  lemma FilterKeeps(t: Table, filters: seq<Filter>, text: Text)
    ensures forall r :: r in SqlFilter(t, filters, text) <==> r in t && SqlMatches(r.doc, filters, text)
    ensures RowidOrdered(t) ==> RowidOrdered(SqlFilter(t, filters, text))
  {
    FilterMembers(t, filters, text);
    if RowidOrdered(t) {
      FilterOrdered(t, filters, text);
    }
  }

  // ---- Sorting ---------------------------------------------------------------------------

  lemma {:induction false} InsertOrders(r: Row, s: Table, key: SortKey, desc: bool)
    requires Ordered(s, key, desc)
    requires forall x :: x in s ==> x.rowid < r.rowid
    ensures IsOrdering(PyInsert(r, s, key, desc), s + [r], key, desc)
  {
    if s != [] {
      var last, front := s[|s| - 1], s[..|s| - 1];
      assert s == front + [last];
      if KeyBefore(KeyOf(key, r), KeyOf(key, last), desc) {
        InsertOrders(r, front, key, desc);
        OneAfter(PyInsert(r, front, key, desc), front + [r], last, key, desc);
        assert forall x :: x in front + [r] + [last] <==> x in s + [r];
      } else {
        LastAfter(r, s, key, desc);
        OneAfter(s, s, r, key, desc);
      }
    }
  }

  /** A row that follows every row of an ordering extends it. */
  lemma OneAfter(sorted: Table, rows: Table, last: Row, key: SortKey, desc: bool)
    requires IsOrdering(sorted, rows, key, desc) && forall x :: x in rows ==> RowBefore(x, last, key, desc)
    ensures IsOrdering(sorted + [last], rows + [last], key, desc)
  {
    assert forall x :: x in sorted + [last] <==> x in sorted || x == last;
    assert forall x :: x in rows + [last] <==> x in rows || x == last;
  }

  lemma LastAfter(r: Row, s: Table, key: SortKey, desc: bool)
    requires Ordered(s, key, desc) && s != [] && !KeyBefore(KeyOf(key, r), KeyOf(key, s[|s| - 1]), desc)
    requires forall x :: x in s ==> x.rowid < r.rowid
    ensures forall x :: x in s ==> RowBefore(x, r, key, desc)
  {
    var last := s[|s| - 1];
    StrLtTotal(KeyOf(key, r), KeyOf(key, last));
    forall x | x in s ensures RowBefore(x, r, key, desc) {
      if x != last {
        KeyChain(x, last, r, key, desc);
      }
    }
  }

  lemma KeyChain(x: Row, y: Row, z: Row, key: SortKey, desc: bool)
    requires RowBefore(x, y, key, desc) && !KeyBefore(KeyOf(key, z), KeyOf(key, y), desc) && x.rowid < z.rowid
    ensures RowBefore(x, z, key, desc)
  {
    var a, b, c := KeyOf(key, x), KeyOf(key, y), KeyOf(key, z);
    StrLtTotal(b, c);
    if a != b && b != c {
      if desc { StrLtTransitive(c, b, a); } else { StrLtTransitive(a, b, c); }
    }
  }

  /** Python's stable sort by key is an ordering by (key, rowid). */
  lemma {:induction false} SortOrders(t: Table, key: SortKey, desc: bool)
    requires RowidOrdered(t)
    ensures IsOrdering(PySort(t, key, desc), t, key, desc)
  {
    if t != [] {
      var front, last := t[..|t| - 1], t[|t| - 1];
      assert t == front + [last];
      SortOrders(front, key, desc);
      InsertOrders(last, PySort(front, key, desc), key, desc);
    }
  }

  lemma BeforeAsymmetric(x: Row, y: Row, key: SortKey, desc: bool)
    requires RowBefore(x, y, key, desc)
    ensures !RowBefore(y, x, key, desc)
  {
    StrLtTotal(KeyOf(key, x), KeyOf(key, y));
  }

  /** An ordering by (key, rowid) is unique, so SQLite has no freedom left. */
  lemma {:induction false} OrderingUnique(a: Table, b: Table, key: SortKey, desc: bool)
    requires Ordered(a, key, desc) && Ordered(b, key, desc) && (forall r :: r in a <==> r in b)
    ensures a == b
  {
    FirstIsMember(a);
    FirstIsMember(b);
    if a != [] {
      SameHead(a, b, key, desc);
      HeadOnce(a, key, desc);
      HeadOnce(b, key, desc);
      OrderingUnique(a[1..], b[1..], key, desc);
      assert a == [a[0]] + a[1..] && b == [b[0]] + b[1..];
    }
  }

  lemma FirstIsMember(a: Table)
    ensures a != [] ==> a[0] in a
  {
  }

  lemma SameHead(a: Table, b: Table, key: SortKey, desc: bool)
    requires Ordered(a, key, desc) && Ordered(b, key, desc)
    requires a != [] && b != [] && a[0] in b && b[0] in a
    ensures a[0] == b[0]
  {
    if a[0] != b[0] {
      assert RowBefore(a[0], b[0], key, desc) && RowBefore(b[0], a[0], key, desc);
      BeforeAsymmetric(a[0], b[0], key, desc);
    }
  }

  lemma HeadOnce(a: Table, key: SortKey, desc: bool)
    requires Ordered(a, key, desc) && a != []
    ensures forall r :: r in a[1..] <==> r in a && r != a[0]
  {
    assert a == [a[0]] + a[1..];
    if a[0] in a[1..] {
      assert RowBefore(a[0], a[0], key, desc);
      BeforeAsymmetric(a[0], a[0], key, desc);
    }
  }

  // ---- The agreement ---------------------------------------------------------------------

  /** A cell that both forms sort under the same key. */
  predicate SortsAlike(v: Json, text: Text) {
    match v
    case Null => true
    case Num(n) => n != 0 && Fits64(n)
    case Str(s) => ReadsBack(s, text)
    case _ => false
  }

  /** Order columns hold such cells in every row that passes the filters. */
  ghost predicate OrderCellsAlike(t: Table, q: Query, text: Text) {
    q.order.Some? ==>
      forall r :: r in SqlFilter(t, q.filters, text) ==> SortsAlike(Get(r.doc, q.order.value.column), text)
  }

  lemma WindowAgreement(t: Table, limit: Option<int>, offset: nat)
    ensures PyWindow(t, limit, offset) == SqlWindow(t, limit, offset)
        <==> limit.None? || limit.value >= 0 || |t| <= offset
  {
    if limit.Some? && limit.value < 0 && offset < |t| {
      assert |PyWindow(t, limit, offset)| < |SqlWindow(t, limit, offset)|;
    }
  }

  /** What SQLite may answer to a pushed-down select is what the simple form returns. */
  lemma PushDownAgrees(t: Table, q: Query, text: Text, out: Selected)
    requires RowidOrdered(t)
    requires SelectAnswer(t, q, text, out)
    requires TypesMatch(t, q.filters, text)
    requires OrderCellsAlike(t, q, text)
    requires q.limit.Some? ==> q.limit.value >= 0
    requires PushesDown(q) ==> Bindable(q)
    ensures out == PySelect(t, q, text)
  {
    if PushesDown(q) {
      FilterRowsAgree(t, q.filters, text);
      FilterKeeps(t, q.filters, text);
      var rows := SqlFilter(t, q.filters, text);
      match q.order
      case None =>
        WindowAgreement(rows, q.limit, q.offset);
      case Some(o) =>
        var ordered: Table :| IsOrdering(ordered, rows, BySql(o.column, text), o.desc)
                              && out.rows == SqlWindow(ordered, q.limit, q.offset);
        SqlOrderIsPyOrder(ordered, rows, o, text);
        SortOrders(rows, ByPython(o.column, text), o.desc);
        OrderingUnique(ordered, PySort(rows, ByPython(o.column, text), o.desc), ByPython(o.column, text), o.desc);
        WindowAgreement(ordered, q.limit, q.offset);
    }
  }

  lemma SqlOrderIsPyOrder(ordered: Table, rows: Table, o: Order, text: Text)
    requires IsOrdering(ordered, rows, BySql(o.column, text), o.desc)
    requires forall r :: r in rows ==> SortsAlike(Get(r.doc, o.column), text)
    ensures Ordered(ordered, ByPython(o.column, text), o.desc)
  {
    forall i, j | 0 <= i < j < |ordered|
      ensures RowBefore(ordered[i], ordered[j], ByPython(o.column, text), o.desc)
    {
      assert ordered[i] in rows && ordered[j] in rows;
      assert RowBefore(ordered[i], ordered[j], BySql(o.column, text), o.desc);
      OrderKeyAgreement(ordered[i], o.column, text);
      OrderKeyAgreement(ordered[j], o.column, text);
    }
  }

  /** SQLite always has an answer, so the agreement is never about nothing. */
  lemma AnswerExists(t: Table, q: Query, text: Text) returns (out: Selected)
    requires RowidOrdered(t)
    ensures SelectAnswer(t, q, text, out)
  {
    if !PushesDown(q) {
      out := PySelect(t, q, text);
    } else if !Bindable(q) {
      out := Overflow;
    } else {
      var rows := SqlFilter(t, q.filters, text);
      FilterKeeps(t, q.filters, text);
      match q.order
      case None => out := Rows(SqlWindow(rows, q.limit, q.offset));
      case Some(o) =>
        SortOrders(rows, BySql(o.column, text), o.desc);
        out := Rows(SqlWindow(PySort(rows, BySql(o.column, text), o.desc), q.limit, q.offset));
    }
  }

  // ---- Where they part -------------------------------------------------------------------

  /** On one cell the two order keys agree exactly for nothing, for text that reads back, and for
      numbers in the 64-bit range other than 0. */
  lemma OrderKeyAgreement(r: Row, column: string, text: Text)
    requires !Nested(Get(r.doc, column))
    ensures PyOrderKey(r, column, text) == SqlOrderKey(r, column, text) <==> SortsAlike(Get(r.doc, column), text)
  {
    KeyAgreement(Get(r.doc, column), text);
  }

  lemma KeyAgreement(v: Json, text: Text)
    requires !Nested(v)
    ensures PyKey(v, text) == SqlKey(Cell(v, text), text) <==> SortsAlike(v, text)
  {
    match v
    case Num(n) =>
      assert IntText(0) == "0";
      if !Fits64(n) {
        RealIsNoInteger(Near(n, text), n, text);
      }
    case Bool(b) => assert IntText(0) == "0" && IntText(1) == "1";
    case _ =>
  }

  /** The text of a double has a point or a letter where the text of an integer has digits. */
  lemma RealIsNoInteger(r: int, n: int, text: Text)
    ensures RealText(r, text) != IntText(n)
  {
    var i := if r < 0 then 2 else 1;
    assert RealText(r, text)[i] == 'n' || RealText(r, text)[i] == '.';
    assert forall k :: 0 <= k < |IntText(n)| ==> IsDigit(IntText(n)[k]) || IntText(n)[k] == '-';
  }

  function OneFilter(f: Filter): Query {
    Query([f], None, None, 0)
  }

  lemma OneRow(r: Row, filters: seq<Filter>, text: Text)
    ensures SqlFilter([r], filters, text) == if SqlMatches(r.doc, filters, text) then [r] else []
    ensures PyFilter([r], filters) ==
      match PyMatches(r.doc, filters) case Raises => TypeError case Hit => Rows([r]) case Miss => Rows([])
  {
    assert [r][..0] == [];
    assert [] + [r] == [r];
  }

  lemma OneTest(doc: Doc, f: Filter, text: Text)
    ensures SqlMatches(doc, [f], text) <==> SqlTest(doc, f, text) == True
    ensures PyMatches(doc, [f]) == PyTest(doc, f)
  {
    assert SqlMatches(doc, [f], text) <==> SqlTest(doc, [f][0], text) == True;
    assert [f][1..] == [];
  }

  /** A select of one row by one filter agrees exactly when the filter can be bound and the cell has
      a type it can be pushed down for. */
  lemma FilterSelectExactly(r: Row, f: Filter, text: Text, out: Selected)
    requires Pushable(f) && SelectAnswer([r], OneFilter(f), text, out)
    ensures out == PySelect([r], OneFilter(f), text) <==> MatchingType(r.doc, f, text)
  {
    FilterAgreement(r.doc, f, text);
    OneTest(r.doc, f, text);
    OneRow(r, [f], text);
    assert FilterBinds(f) <==> Bindable(OneFilter(f)) by {
      assert [f][0] == f;
    }
    if FilterBinds(f) {
      assert out == Rows(SqlFilter([r], [f], text));
    }
  }

  lemma {:induction false} NoFilters(t: Table, text: Text)
    ensures SqlFilter(t, [], text) == t && PyFilter(t, []) == Rows(t)
  {
    if t != [] {
      NoFilters(t[..|t| - 1], text);
      assert SqlMatches(t[|t| - 1].doc, [], text);
    }
  }

  /** A select of a window agrees exactly when its two numbers can be bound and the limit is absent,
      not negative, or of no effect. */
  lemma WindowSelectExactly(t: Table, limit: Option<int>, offset: nat, text: Text, out: Selected)
    requires SelectAnswer(t, Query([], None, limit, offset), text, out)
    ensures out == PySelect(t, Query([], None, limit, offset), text)
      <==> Fits64(offset) && (limit.Some? ==> Fits64(limit.value) && (limit.value >= 0 || |t| <= offset))
  {
    NoFilters(t, text);
    WindowAgreement(t, limit, offset);
  }

  function OrderBy(column: string, desc: bool): Query {
    Query([], Some(Order(column, desc)), None, 0)
  }

  /** An ordered select of a whole table answers with an ordering of it. */
  lemma OrderAnswer(t: Table, column: string, desc: bool, text: Text, out: Selected) returns (ordered: Table)
    requires IsIdentifier(column) && SelectAnswer(t, OrderBy(column, desc), text, out)
    ensures IsOrdering(ordered, t, BySql(column, text), desc) && out == Rows(ordered)
  {
    NoFilters(t, text);
    ordered :| IsOrdering(ordered, t, BySql(column, text), desc) && out.rows == SqlWindow(ordered, None, 0);
  }

  /** An ordered select agrees exactly when the two order keys put every two rows the same way. */
  lemma OrderSelectExactly(t: Table, column: string, desc: bool, text: Text, out: Selected)
    requires RowidOrdered(t) && IsIdentifier(column) && SelectAnswer(t, OrderBy(column, desc), text, out)
    ensures out == PySelect(t, OrderBy(column, desc), text)
      <==> forall x, y :: x in t && y in t ==>
             (RowBefore(x, y, ByPython(column, text), desc) <==> RowBefore(x, y, BySql(column, text), desc))
  {
    var py, sql := ByPython(column, text), BySql(column, text);
    NoFilters(t, text);
    SortOrders(t, py, desc);
    var ordered := OrderAnswer(t, column, desc, text, out);
    assert out == Rows(ordered) && PySelect(t, OrderBy(column, desc), text) == Rows(PySort(t, py, desc));
    if forall x, y :: x in t && y in t ==> (RowBefore(x, y, py, desc) <==> RowBefore(x, y, sql, desc)) {
      forall i, j | 0 <= i < j < |ordered| ensures RowBefore(ordered[i], ordered[j], py, desc) {
        assert ordered[i] in t && ordered[j] in t && RowBefore(ordered[i], ordered[j], sql, desc);
      }
      OrderingUnique(ordered, PySort(t, py, desc), py, desc);
    }
    if ordered == PySort(t, py, desc) {
      forall x, y | x in t && y in t ensures RowBefore(x, y, py, desc) <==> RowBefore(x, y, sql, desc) {
        SameWay(ordered, x, y, py, sql, desc);
      }
    }
  }

  lemma SameWay(ordered: Table, x: Row, y: Row, py: SortKey, sql: SortKey, desc: bool)
    requires Ordered(ordered, py, desc) && Ordered(ordered, sql, desc) && x in ordered && y in ordered
    ensures RowBefore(x, y, py, desc) <==> RowBefore(x, y, sql, desc)
  {
    var i :| 0 <= i < |ordered| && ordered[i] == x;
    var j :| 0 <= j < |ordered| && ordered[j] == y;
    if i < j {
      assert RowBefore(x, y, py, desc) && RowBefore(x, y, sql, desc);
    } else if j < i {
      BeforeAsymmetric(y, x, py, desc);
      BeforeAsymmetric(y, x, sql, desc);
    } else {
      StrLtTotal(KeyOf(py, x), KeyOf(py, x));
      StrLtTotal(KeyOf(sql, x), KeyOf(sql, x));
    }
  }

  /** In every table whose order cells are text that reads back, absent, or the value v, the forms
      agree. */
  ghost predicate AgreesOn(v: Json, column: string, text: Text) {
    forall t: Table, desc: bool, out: Selected ::
      RowidOrdered(t) && CellsAmong(t, column, v, text) && SelectAnswer(t, OrderBy(column, desc), text, out) ==>
        out == PySelect(t, OrderBy(column, desc), text)
  }

  predicate CellsAmong(t: Table, column: string, v: Json, text: Text) {
    forall r :: r in t ==>
      var cell := Get(r.doc, column);
      (cell.Str? && ReadsBack(cell.s, text)) || cell.Null? || cell == v
  }

  /** Of the values that are not nested, exactly the booleans, 0, integers outside the 64-bit range
      and texts cut at a NUL break the agreement of ordered selects. */
  lemma OrderValueExactly(v: Json, column: string, text: Text)
    requires !Nested(v) && IsIdentifier(column)
    ensures AgreesOn(v, column, text) <==> SortsAlike(v, text)
  {
    if SortsAlike(v, text) {
      forall t: Table, desc: bool, out: Selected
        | RowidOrdered(t) && CellsAmong(t, column, v, text) && SelectAnswer(t, OrderBy(column, desc), text, out)
        ensures out == PySelect(t, OrderBy(column, desc), text)
      {
        AlikeAgrees(v, t, column, desc, text, out);
      }
    } else {
      var out := PartingAnswer(v, column, text);
    }
  }

  lemma AlikeAgrees(v: Json, t: Table, column: string, desc: bool, text: Text, out: Selected)
    requires SortsAlike(v, text) && IsIdentifier(column) && RowidOrdered(t) && CellsAmong(t, column, v, text)
    requires SelectAnswer(t, OrderBy(column, desc), text, out)
    ensures out == PySelect(t, OrderBy(column, desc), text)
  {
    forall x, y | x in t && y in t
      ensures RowBefore(x, y, ByPython(column, text), desc) <==> RowBefore(x, y, BySql(column, text), desc)
    {
      OrderKeyAgreement(x, column, text);
      OrderKeyAgreement(y, column, text);
    }
    OrderSelectExactly(t, column, desc, text, out);
  }

  /** A text sorted under the key that v has in one of the two forms. */
  function Rival(v: Json, text: Text): string {
    if v.Str? then ReadText(v.s, text) else PyKey(v, text)
  }

  /** The key that v has in the other form. */
  function OtherKey(v: Json, text: Text): string {
    if v.Str? then PyKey(v, text) else SqlKey(Cell(v, text), text)
  }

  /** Two rows, one with v and one with its rival: they tie in one form, where the rowid decides, and
      the other form puts them the other way round. */
  function PartingTable(v: Json, column: string, text: Text): Table {
    var one, two := map[column := v], map[column := Str(Rival(v, text))];
    if StrLt(OtherKey(v, text), Rival(v, text)) then [Row(1, "a", two), Row(2, "b", one)]
    else [Row(1, "a", one), Row(2, "b", two)]
  }

  lemma RivalReadsBack(v: Json, text: Text)
    requires !Nested(v)
    ensures ReadsBack(Rival(v, text), text)
  {
    if v.Num? {
      IntTextPlain(v.n);
    }
  }

  lemma IntTextPlain(n: int)
    ensures Plain(IntText(n))
  {
    assert IsDigits(NatText(if n < 0 then -n else n));
  }

  lemma PartingKeys(v: Json, column: string, text: Text)
    requires !Nested(v) && !SortsAlike(v, text)
    ensures var x, y := PartingTable(v, column, text)[0], PartingTable(v, column, text)[1];
      RowBefore(x, y, ByPython(column, text), false) != RowBefore(x, y, BySql(column, text), false)
  {
    RivalReadsBack(v, text);
    KeyAgreement(v, text);
    KeyAgreement(Str(Rival(v, text)), text);
    StrLtTotal(OtherKey(v, text), Rival(v, text));
    StrLtTotal(Rival(v, text), Rival(v, text));
  }

  lemma PartingAnswer(v: Json, column: string, text: Text) returns (out: Selected)
    requires !Nested(v) && !SortsAlike(v, text) && IsIdentifier(column)
    ensures var t := PartingTable(v, column, text);
      RowidOrdered(t) && CellsAmong(t, column, v, text) && SelectAnswer(t, OrderBy(column, false), text, out)
      && out != PySelect(t, OrderBy(column, false), text)
  {
    RivalReadsBack(v, text);
    out := AnswerExists(PartingTable(v, column, text), OrderBy(column, false), text);
    OrderParts(v, column, text, out);
  }

  /** For such a value the select itself differs, whatever SQLite answers. */
  lemma OrderParts(v: Json, column: string, text: Text, out: Selected)
    requires !Nested(v) && !SortsAlike(v, text) && IsIdentifier(column)
    requires SelectAnswer(PartingTable(v, column, text), OrderBy(column, false), text, out)
    ensures out != PySelect(PartingTable(v, column, text), OrderBy(column, false), text)
  {
    var t := PartingTable(v, column, text);
    PartingKeys(v, column, text);
    OrderSelectExactly(t, column, false, text, out);
    assert t[0] in t && t[1] in t;
  }

  /** Ordered by a column that holds 0 in the first row and nothing in the second, the simple form
      leaves the rows as they are and SQLite swaps them. */
  lemma OrderByZeroSwaps(column: string, text: Text, out: Selected)
    requires IsIdentifier(column)
    requires SelectAnswer(ZeroFirst(column), OrderBy(column, false), text, out)
    ensures var t := ZeroFirst(column);
      PySelect(t, OrderBy(column, false), text) == Rows(t) && out == Rows([t[1], t[0]])
  {
    var t, sql := ZeroFirst(column), BySql(column, text);
    NoFilters(t, text);
    assert IsOrdering(t, t, ByPython(column, text), false);
    SortOrders(t, ByPython(column, text), false);
    OrderingUnique(t, PySort(t, ByPython(column, text), false), ByPython(column, text), false);
    assert IntText(0) == "0" && StrLt("", "0");
    var swapped: Table := [t[1], t[0]];
    assert IsOrdering(swapped, t, sql, false);
    var ordered := OrderAnswer(t, column, false, text, out);
    OrderingUnique(ordered, swapped, sql, false);
  }

  function ZeroFirst(column: string): Table {
    [Row(1, "a", map[column := Num(0)]), Row(2, "b", map[])]
  }

  // ---- Pages -----------------------------------------------------------------------------

  /** .range(start, end) */
  function Paged(q: Query, start: int, end: int): Query {
    var offset := if start > 0 then start else 0;
    q.(offset := offset, limit := Some(if end - offset + 1 > 0 then end - offset + 1 else 0))
  }

  function Unpaged(q: Query): Query {
    q.(offset := 0, limit := None)
  }

  function Sum(sizes: seq<nat>): nat {
    if sizes == [] then 0 else sizes[0] + Sum(sizes[1..])
  }

  /** The pages are answers to one query after another, from row `start` on, each with its own size. */
  ghost predicate PageAnswers(t: Table, q: Query, text: Text, start: nat, sizes: seq<nat>, pages: seq<Selected>)
    decreases |sizes|
  {
    |pages| == |sizes|
    && (sizes != [] ==>
          SelectAnswer(t, Paged(q, start, start + sizes[0] - 1), text, pages[0])
          && PageAnswers(t, q, text, start + sizes[0], sizes[1..], pages[1..]))
  }

  function Concatenated(pages: seq<Selected>): Selected {
    if pages == [] then Rows([]) else Join(pages[0], Concatenated(pages[1..]))
  }

  /** A page that raises ends the reading. */
  function Join(page: Selected, rest: Selected): Selected {
    if page.Rows? && rest.Rows? then Rows(page.rows + rest.rows) else if page.Rows? then rest else page
  }

  /** Each page's size and offset can be bound. */
  predicate PagesFit(start: nat, sizes: seq<nat>)
    decreases |sizes|
  {
    sizes == [] || (Fits64(start) && Fits64(sizes[0]) && PagesFit(start + sizes[0], sizes[1..]))
  }

  /** Rows start to stop, as far as the table reaches. */
  function Slice(t: Table, start: nat, stop: nat): Table
    requires start <= stop
  {
    if start >= |t| then [] else if stop <= |t| then t[start..stop] else t[start..]
  }

  /** The pages are consecutive slices of t, from row `start` on. */
  ghost predicate AreSlices(pages: seq<Selected>, t: Table, start: nat, sizes: seq<nat>)
    decreases |sizes|
  {
    |pages| == |sizes|
    && (sizes != [] ==>
          pages[0] == Rows(Slice(t, start, start + sizes[0]))
          && AreSlices(pages[1..], t, start + sizes[0], sizes[1..]))
  }

  lemma {:induction false} PagesAreSlices(t: Table, q: Query, text: Text, start: nat, sizes: seq<nat>,
                                          pages: seq<Selected>, whole: Selected)
    requires PageAnswers(t, q, text, start, sizes, pages)
    requires SelectAnswer(t, Unpaged(q), text, whole) && whole.Rows?
    requires PushesDown(q) ==> PagesFit(start, sizes)
    ensures AreSlices(pages, whole.rows, start, sizes)
    decreases |sizes|
  {
    if sizes != [] {
      PageIsSlice(t, q, text, start, sizes[0], pages[0], whole);
      PagesAreSlices(t, q, text, start + sizes[0], sizes[1..], pages[1..], whole);
    }
  }

  lemma {:induction false} SlicesConcatenate(pages: seq<Selected>, t: Table, start: nat, sizes: seq<nat>)
    requires AreSlices(pages, t, start, sizes)
    ensures Concatenated(pages) == Rows(Slice(t, start, start + Sum(sizes)))
    decreases |sizes|
  {
    if sizes != [] {
      var middle := start + sizes[0];
      SlicesConcatenate(pages[1..], t, middle, sizes[1..]);
      SlicesJoin(pages[0], Concatenated(pages[1..]), t, start, middle, middle + Sum(sizes[1..]));
    }
  }

  /** A page whose size or offset is outside the 64-bit range raises, and the reading with it. */
  lemma {:induction false} PagesOverflow(t: Table, q: Query, text: Text, start: nat, sizes: seq<nat>,
                                         pages: seq<Selected>, whole: Selected)
    requires PageAnswers(t, q, text, start, sizes, pages)
    requires SelectAnswer(t, Unpaged(q), text, whole) && whole.Rows?
    requires PushesDown(q) && !PagesFit(start, sizes)
    ensures Concatenated(pages) == Overflow
    decreases |sizes|
  {
    if Fits64(start) && Fits64(sizes[0]) {
      PageIsSlice(t, q, text, start, sizes[0], pages[0], whole);
      PagesOverflow(t, q, text, start + sizes[0], sizes[1..], pages[1..], whole);
    }
  }

  /** Whatever SQLite answers, consecutive pages of any sizes concatenate to a slice of the whole
      result, so none of its rows is skipped or repeated at a page boundary; only numbers that cannot
      be bound raise. */
  lemma PagesConcatenate(t: Table, q: Query, text: Text, start: nat, sizes: seq<nat>, pages: seq<Selected>,
                         whole: Selected)
    requires PageAnswers(t, q, text, start, sizes, pages)
    requires SelectAnswer(t, Unpaged(q), text, whole) && whole.Rows?
    ensures Concatenated(pages) ==
      if PushesDown(q) && !PagesFit(start, sizes) then Overflow
      else Rows(Slice(whole.rows, start, start + Sum(sizes)))
  {
    if PushesDown(q) && !PagesFit(start, sizes) {
      PagesOverflow(t, q, text, start, sizes, pages, whole);
    } else {
      PagesAreSlices(t, q, text, start, sizes, pages, whole);
      SlicesConcatenate(pages, whole.rows, start, sizes);
    }
  }

  lemma SlicesJoin(page: Selected, rest: Selected, t: Table, start: nat, middle: nat, stop: nat)
    requires start <= middle <= stop
    requires page == Rows(Slice(t, start, middle)) && rest == Rows(Slice(t, middle, stop))
    ensures Join(page, rest) == Rows(Slice(t, start, stop))
  {
  }

  /** Any answer to one page is that slice of any answer to the whole. */
  lemma PageIsSlice(t: Table, q: Query, text: Text, start: nat, size: nat, page: Selected, whole: Selected)
    requires SelectAnswer(t, Paged(q, start, start + size - 1), text, page)
    requires SelectAnswer(t, Unpaged(q), text, whole) && whole.Rows?
    requires PushesDown(q) ==> Fits64(start) && Fits64(size)
    ensures page == Rows(Slice(whole.rows, start, start + size))
  {
    if !PushesDown(q) {
      SimplePageIsSlice(t, q, text, start, size);
    } else if q.order.None? {
      WindowIsSlice(SqlFilter(t, q.filters, text), start, size);
    } else {
      var key, desc, rows := BySql(q.order.value.column, text), q.order.value.desc, SqlFilter(t, q.filters, text);
      var all: Table :| IsOrdering(all, rows, key, desc) && whole.rows == SqlWindow(all, None, 0);
      var some: Table :| IsOrdering(some, rows, key, desc) && page.rows == SqlWindow(some, Some(size), start);
      OrderingUnique(all, some, key, desc);
      WindowIsSlice(all, start, size);
    }
  }

  lemma WindowIsSlice(t: Table, start: nat, size: nat)
    ensures SqlWindow(t, Some(size), start) == Slice(SqlWindow(t, None, 0), start, start + size)
  {
  }

  lemma SimplePageIsSlice(t: Table, q: Query, text: Text, start: nat, size: nat)
    requires PySelect(t, Unpaged(q), text).Rows?
    ensures PySelect(t, Paged(q, start, start + size - 1), text)
         == Rows(Slice(PySelect(t, Unpaged(q), text).rows, start, start + size))
  {
  }
}
