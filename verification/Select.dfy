/** Reading a table twice over: the simple form, which decodes every row and filters, sorts and
    windows it in Python, and the form pushed down into SQLite. SQLite is a relation here (any
    answer its documentation allows), so the agreement theorem speaks of every such answer. */
module Select {
  import opened Decimal
  import opened Options
  import opened Values

  datatype Row = Row(rowid: nat, pk: string, doc: Doc)

  /** Rows in rowid order, which is the order a table scan returns them in. */
  type Table = seq<Row>

  datatype Filter =
    | Eq(column: string, value: Json)
    | In(column: string, values: seq<Json>)
    | Gt(column: string, value: Json)

  datatype Order = Order(column: string, desc: bool)

  datatype Query = Query(filters: seq<Filter>, order: Option<Order>, limit: Option<int>, offset: nat)

  /** The rows, or the error raised: comparing unlike values, or binding an integer that SQLite does
      not have. */
  datatype Selected = Rows(rows: Table) | TypeError | Overflow

  ghost predicate RowidOrdered(t: Table) {
    forall i, j :: 0 <= i < j < |t| ==> t[i].rowid < t[j].rowid
  }

  // ---- The simple form -------------------------------------------------------------------

  /** A filter's verdict on one row; comparing unlike values with `<=` raises. */
  datatype Verdict = Hit | Miss | Raises

  predicate Comparable(a: Json, b: Json) {
    (Norm(a).Num? && Norm(b).Num?) || (a.Str? && b.Str?)
  }

  predicate PyLess(a: Json, b: Json)
    requires Comparable(a, b)
  {
    if a.Str? then StrLt(a.s, b.s) else Norm(a).n < Norm(b).n
  }

  function PyTest(doc: Doc, f: Filter): Verdict {
    var have := Get(doc, f.column);
    match f
    case Eq(_, v) => if PyEq(have, v) then Hit else Miss
    case In(_, vs) => if exists i :: 0 <= i < |vs| && PyEq(have, vs[i]) then Hit else Miss
    case Gt(_, v) =>
      if have.Null? then Miss
      else if !Comparable(have, v) then Raises
      else if PyLess(v, have) then Hit else Miss
  }

  function PyMatches(doc: Doc, filters: seq<Filter>): Verdict {
    if filters == [] then Hit
    else if PyTest(doc, filters[0]).Hit? then PyMatches(doc, filters[1..])
    else PyTest(doc, filters[0])
  }

  function PyFilter(t: Table, filters: seq<Filter>): Selected {
    if t == [] then Rows([])
    else
      match (PyFilter(t[..|t| - 1], filters), PyMatches(t[|t| - 1].doc, filters))
      case (Rows(rows), Hit) => Rows(rows + [t[|t| - 1]])
      case (Rows(rows), Miss) => Rows(rows)
      case _ => TypeError
  }

  /** str(row.get(column) or "") */
  function PyOrderKey(row: Row, column: string, text: Text): string {
    PyKey(Get(row.doc, column), text)
  }

  function PyKey(v: Json, text: Text): string {
    if Truthy(v) then PyStr(v, text) else ""
  }

  /** CAST(COALESCE(json_extract(...), '') AS TEXT) */
  function SqlOrderKey(row: Row, column: string, text: Text): string {
    SqlKey(Extract(row.doc, column, text), text)
  }

  function SqlKey(cell: Sql, text: Text): string {
    match cell
    case SqlNull => ""
    case SqlInt(n) => IntText(n)
    case SqlReal(n) => RealText(n, text)
    case SqlText(s) => s
  }

  /** A double outside the 64-bit range as text, such as 9.2e+18. */
  function RealText(n: int, text: Text): string {
    (if n < 0 then "-" else "")
    + match text.digits(n)
      case Infinite => "Inf"
      case Scientific(lead, rest) => [lead] + "." + rest
  }

  datatype SortKey = ByPython(column: string, text: Text) | BySql(column: string, text: Text)

  function KeyOf(key: SortKey, row: Row): string {
    match key
    case ByPython(column, text) => PyOrderKey(row, column, text)
    case BySql(column, text) => SqlOrderKey(row, column, text)
  }

  predicate KeyBefore(a: string, b: string, desc: bool) {
    if desc then StrLt(b, a) else StrLt(a, b)
  }

  /** One step of a stable sort: a row goes after every row that is not strictly behind it. */
  function PyInsert(r: Row, s: Table, key: SortKey, desc: bool): Table {
    if s != [] && KeyBefore(KeyOf(key, r), KeyOf(key, s[|s| - 1]), desc)
    then PyInsert(r, s[..|s| - 1], key, desc) + [s[|s| - 1]]
    else s + [r]
  }

  function PySort(t: Table, key: SortKey, desc: bool): Table {
    if t == [] then [] else PyInsert(t[|t| - 1], PySort(t[..|t| - 1], key, desc), key, desc)
  }

  function PyWindow(t: Table, limit: Option<int>, offset: nat): Table {
    var rest := if offset <= |t| then t[offset..] else [];
    match limit
    case None => rest
    case Some(n) =>
      if n >= 0 then rest[..if n <= |rest| then n else |rest|]
      else rest[..if |rest| + n >= 0 then |rest| + n else 0]
  }

  function PySelect(t: Table, q: Query, text: Text): Selected {
    match PyFilter(t, q.filters)
    case TypeError => TypeError
    case Overflow => Overflow
    case Rows(rows) =>
      var ordered :=
        match q.order
        case None => rows
        case Some(o) => PySort(rows, ByPython(o.column, text), o.desc);
      Rows(PyWindow(ordered, q.limit, q.offset))
  }

  // ---- SQLite ----------------------------------------------------------------------------

  /** A real number stands for an integer outside the 64-bit range. */
  datatype Sql = SqlNull | SqlInt(n: int) | SqlReal(n: int) | SqlText(s: string)

  datatype Truth = True | False | Unknown

  /** A stored value as json_extract reads it. */
  function Cell(v: Json, text: Text): Sql {
    match v
    case Null => SqlNull
    case Bool(b) => SqlInt(if b then 1 else 0)
    case Num(n) => if Fits64(n) then SqlInt(n) else SqlReal(Near(n, text))
    case Str(s) => SqlText(ReadText(s, text))
    case _ => SqlText(text.render(v))
  }

  /** json_extract(data, '$."column"') */
  function Extract(doc: Doc, column: string, text: Text): Sql {
    Cell(Get(doc, column), text)
  }

  /** A parameter of a statement; binding an integer outside the 64-bit range raises. */
  predicate Binds(v: Json) {
    v.Num? ==> Fits64(v.n)
  }

  function Bind(v: Json, text: Text): Sql {
    if v.Str? then SqlText(v.s) else Cell(v, text)
  }

  predicate IsNumber(a: Sql) {
    a.SqlInt? || a.SqlReal?
  }

  predicate SameValue(a: Sql, b: Sql) {
    a == b || (IsNumber(a) && IsNumber(b) && a.n == b.n)
  }

  function SqlEq(a: Sql, b: Sql): Truth {
    if a.SqlNull? || b.SqlNull? then Unknown else if SameValue(a, b) then True else False
  }

  /** Every number sorts before every text. */
  function SqlLess(a: Sql, b: Sql): Truth {
    if a.SqlNull? || b.SqlNull? then Unknown
    else
      var less :=
        if IsNumber(a) && IsNumber(b) then a.n < b.n
        else if a.SqlText? && b.SqlText? then StrLt(a.s, b.s)
        else IsNumber(a);
      if less then True else False
  }

  function SqlIn(a: Sql, vs: seq<Json>, text: Text): Truth {
    if vs == [] then False
    else
      match (SqlEq(a, Bind(vs[0], text)), SqlIn(a, vs[1..], text))
      case (True, _) => True
      case (_, True) => True
      case (Unknown, _) => Unknown
      case (False, rest) => rest
  }

  function NonNull(vs: seq<Json>): seq<Json> {
    if vs == [] then [] else (if vs[0].Null? then [] else [vs[0]]) + NonNull(vs[1..])
  }

  /** The WHERE clause built for one filter; a row is kept only when it is True. */
  function SqlTest(doc: Doc, f: Filter, text: Text): Truth {
    var cell := Extract(doc, f.column, text);
    var isNull := if cell.SqlNull? then True else False;
    match f
    case Eq(_, v) => if v.Null? then isNull else SqlEq(cell, Bind(v, text))
    case Gt(_, v) => SqlLess(Bind(v, text), cell)
    case In(_, vs) =>
      var member := if NonNull(vs) == [] then False else SqlIn(cell, NonNull(vs), text);
      if Null !in vs then member
      else if member == True || isNull == True then True
      else member
  }

  predicate SqlMatches(doc: Doc, filters: seq<Filter>, text: Text) {
    forall i :: 0 <= i < |filters| ==> SqlTest(doc, filters[i], text) == True
  }

  function SqlFilter(t: Table, filters: seq<Filter>, text: Text): Table {
    if t == [] then []
    else
      SqlFilter(t[..|t| - 1], filters, text)
      + (if SqlMatches(t[|t| - 1].doc, filters, text) then [t[|t| - 1]] else [])
  }

  predicate IsIdentifier(column: string) {
    column != [] && !IsDigit(column[0])
    && forall i :: 0 <= i < |column| ==>
         IsDigit(column[i]) || 'a' <= column[i] <= 'z' || 'A' <= column[i] <= 'Z' || column[i] == '_'
  }

  /** Filters that become SQL; any other shape sends the whole query to the simple form. */
  predicate Pushable(f: Filter) {
    IsIdentifier(f.column)
    && match f
       case Eq(_, v) => !Nested(v)
       case In(_, vs) => forall v :: v in vs ==> !Nested(v)
       case Gt(_, v) => !Nested(v) && !v.Null?
  }

  predicate FilterBinds(f: Filter) {
    match f
    case Eq(_, v) => Binds(v)
    case In(_, vs) => forall v :: v in vs ==> Binds(v)
    case Gt(_, v) => Binds(v)
  }

  /** Every parameter of the statement can be bound. */
  predicate Bindable(q: Query) {
    (forall i :: 0 <= i < |q.filters| ==> FilterBinds(q.filters[i]))
    && (q.limit.Some? ==> Fits64(q.limit.value)) && Fits64(q.offset)
  }

  predicate PushesDown(q: Query) {
    (forall i :: 0 <= i < |q.filters| ==> Pushable(q.filters[i]))
    && (q.order.Some? ==> IsIdentifier(q.order.value.column))
  }

  /** ORDER BY key, rowid (or key DESC, rowid) */
  predicate RowBefore(x: Row, y: Row, key: SortKey, desc: bool) {
    KeyBefore(KeyOf(key, x), KeyOf(key, y), desc) || (KeyOf(key, x) == KeyOf(key, y) && x.rowid < y.rowid)
  }

  ghost predicate Ordered(t: Table, key: SortKey, desc: bool) {
    forall i, j :: 0 <= i < j < |t| ==> RowBefore(t[i], t[j], key, desc)
  }

  /** `out` holds the rows of `t`, each once because the order is strict, in order. */
  ghost predicate IsOrdering(out: Table, t: Table, key: SortKey, desc: bool) {
    (forall r :: r in out <==> r in t) && Ordered(out, key, desc)
  }

  /** A negative LIMIT means no limit. */
  function SqlWindow(t: Table, limit: Option<int>, offset: nat): Table {
    var rest := if offset <= |t| then t[offset..] else [];
    match limit
    case None => rest
    case Some(n) => if 0 <= n <= |rest| then rest[..n] else rest
  }

  /** What SQLite may return for the statement _select_rows builds. */
  ghost predicate SqlAnswer(t: Table, q: Query, text: Text, out: Table) {
    var rows := SqlFilter(t, q.filters, text);
    match q.order
    case None => out == SqlWindow(rows, q.limit, q.offset)
    case Some(o) =>
      exists ordered: Table ::
        IsOrdering(ordered, rows, BySql(o.column, text), o.desc)
        && out == SqlWindow(ordered, q.limit, q.offset)
  }

  /** _select_rows */
  ghost predicate SelectAnswer(t: Table, q: Query, text: Text, out: Selected) {
    if !PushesDown(q) then out == PySelect(t, q, text)
    else if !Bindable(q) then out == Overflow
    else out.Rows? && SqlAnswer(t, q, text, out.rows)
  }

  // ---- Where the two forms agree ---------------------------------------------------------

  /** The statement can be run, and its WHERE clause keeps the row exactly when Python does. */
  ghost predicate SameVerdict(doc: Doc, f: Filter, text: Text) {
    FilterBinds(f) && PyTest(doc, f) == if SqlTest(doc, f, text) == True then Hit else Miss
  }

  /** Among the values looked for, the cell is found or missed whichever way it is read: an integer
      outside the 64-bit range as its double, a text up to its NUL, a nested value as its text. */
  predicate FoundAlike(have: Json, vs: seq<Json>, text: Text) {
    match have
    case Num(n) => Fits64(n) || Num(Near(n, text)) !in vs
    case Str(s) => have in vs <==> Str(ReadText(s, text)) in vs
    case Arr(_) => Str(text.render(have)) !in vs
    case Obj(_) => Str(text.render(have)) !in vs
    case _ => true
  }

  /** The filter can be bound, and the cell it reads has a type it can be pushed down for: an ordering
      needs like types or None, and a text that compares the same way when it ends at its NUL. */
  predicate MatchingType(doc: Doc, f: Filter, text: Text) {
    var have := Get(doc, f.column);
    FilterBinds(f)
    && match f
       case Eq(_, v) => FoundAlike(have, [v], text)
       case In(_, vs) => FoundAlike(have, vs, text)
       case Gt(_, v) =>
         have.Null?
         || (Comparable(have, v)
             && (have.Str? ==> (StrLt(v.s, have.s) <==> StrLt(v.s, ReadText(have.s, text)))))
  }

  /** What a cell is compared as, put back into the values of Python. */
  function Seen(have: Json, text: Text): Json {
    match have
    case Num(n) => if Fits64(n) then have else Num(Near(n, text))
    case Str(s) => Str(ReadText(s, text))
    case Arr(_) => Str(text.render(have))
    case Obj(_) => Str(text.render(have))
    case _ => have
  }

  lemma CellSeen(have: Json, v: Json, text: Text)
    requires !Nested(v) && Binds(v)
    ensures SameValue(Bind(v, text), Cell(have, text)) <==> PyEq(Seen(have, text), v)
  {
  }

  /** Among values that can be bound, only those the cell is read as tell the two readings apart. */
  lemma FoundAlikeExactly(have: Json, vs: seq<Json>, text: Text)
    requires forall v :: v in vs ==> !Nested(v) && Binds(v)
    ensures FoundAlike(have, vs, text)
      <==> ((exists v :: v in vs && PyEq(have, v)) <==> exists v :: v in vs && PyEq(Seen(have, text), v))
  {
    if !have.Null? && !have.Bool? && Seen(have, text) != have {
      assert forall v :: v in vs ==> (PyEq(Seen(have, text), v) <==> v == Seen(have, text));
      assert forall v :: v in vs ==> (PyEq(have, v) <==> v == have);
    } else {
      assert Seen(have, text) == have;
    }
  }

  lemma {:induction false} SqlInMembership(a: Sql, vs: seq<Json>, text: Text)
    ensures SqlIn(a, vs, text) == True
        <==> !a.SqlNull? && exists v :: v in vs && !v.Null? && SameValue(Bind(v, text), a)
  {
    if vs != [] {
      SqlInMembership(a, vs[1..], text);
      assert forall v :: v in vs <==> v == vs[0] || v in vs[1..];
    }
  }

  lemma {:induction false} NonNullMembers(vs: seq<Json>, v: Json)
    ensures v in NonNull(vs) <==> v in vs && !v.Null?
  {
    if vs != [] {
      NonNullMembers(vs[1..], v);
    }
  }

  /** Three-valued SQL and Python agree on a row exactly when the filter can be bound and the types
      match. */
  lemma FilterAgreement(doc: Doc, f: Filter, text: Text)
    requires Pushable(f)
    ensures SameVerdict(doc, f, text) <==> MatchingType(doc, f, text)
  {
    match f
    case Eq(column, v) => if Binds(v) { EqAgreement(doc, column, v, text); }
    case In(column, vs) => if FilterBinds(f) { InAgreement(doc, column, vs, text); }
    case Gt(column, v) =>
  }

  lemma EqAgreement(doc: Doc, column: string, v: Json, text: Text)
    requires Pushable(Eq(column, v)) && Binds(v)
    ensures SameVerdict(doc, Eq(column, v), text) <==> FoundAlike(Get(doc, column), [v], text)
  {
    var have := Get(doc, column);
    CellSeen(have, v, text);
    FoundAlikeExactly(have, [v], text);
    assert v in [v];
  }

  lemma InAgreement(doc: Doc, column: string, vs: seq<Json>, text: Text)
    requires Pushable(In(column, vs)) && FilterBinds(In(column, vs))
    ensures SameVerdict(doc, In(column, vs), text) <==> FoundAlike(Get(doc, column), vs, text)
  {
    var have := Get(doc, column);
    FoundAlikeExactly(have, vs, text);
    SqlMember(have, vs, text);
    assert (exists i :: 0 <= i < |vs| && PyEq(have, vs[i])) <==> exists v :: v in vs && PyEq(have, v);
  }

  lemma SqlMember(have: Json, vs: seq<Json>, text: Text)
    requires forall v :: v in vs ==> !Nested(v) && Binds(v)
    ensures SqlIn(Cell(have, text), NonNull(vs), text) == True
      <==> !have.Null? && exists v :: v in vs && PyEq(Seen(have, text), v)
  {
    SqlInMembership(Cell(have, text), NonNull(vs), text);
    forall v ensures v in NonNull(vs) <==> v in vs && !v.Null? {
      NonNullMembers(vs, v);
    }
    forall v | v in vs ensures SameValue(Bind(v, text), Cell(have, text)) <==> PyEq(Seen(have, text), v) {
      CellSeen(have, v, text);
    }
  }
}
