/** What every write keeps: keys, unique constraints, history, and the evidence log. */
module StoreLaws {
  import opened Decimal
  import opened Options
  import opened Values
  import opened Select
  import opened Agreement
  import opened Store

  // ---- Finding is complete ---------------------------------------------------------------

  lemma {:induction false} EqFilterExact(t: Table, filters: seq<Filter>)
    requires forall i :: 0 <= i < |filters| ==> filters[i].Eq?
    ensures PyFilter(t, filters).Rows?
    ensures forall r :: r in PyFilter(t, filters).rows <==> r in t && PyMatches(r.doc, filters).Hit?
  {
    if t != [] {
      EqFilterExact(t[..|t| - 1], filters);
      EqNeverRaises(t[|t| - 1].doc, filters);
      assert t == t[..|t| - 1] + [t[|t| - 1]];
    }
  }

  lemma {:induction false} EqNeverRaises(doc: Doc, filters: seq<Filter>)
    requires forall i :: 0 <= i < |filters| ==> filters[i].Eq?
    ensures !PyMatches(doc, filters).Raises?
    ensures PyMatches(doc, filters).Hit?
        <==> forall i :: 0 <= i < |filters| ==> PyEq(Get(doc, filters[i].column), filters[i].value)
  {
    if filters != [] {
      EqNeverRaises(doc, filters[1..]);
      assert forall i :: 0 < i < |filters| ==> filters[i] == filters[1..][i - 1];
    }
  }

  /** A text looked up in SQLite that json_extract ends at its NUL: no stored cell reads as it. */
  predicate Hidden(row: Doc, columns: seq<string>, text: Text) {
    Searched(row, columns)
    && exists i :: 0 <= i < |columns| && Get(row, columns[i]).Str? && !ReadsBack(Get(row, columns[i]).s, text)
  }

  lemma EqualToPushed(row: Doc, columns: seq<string>)
    ensures var filters := EqualTo(row, columns);
      ((forall i :: 0 <= i < |filters| ==> Pushable(filters[i])) <==> Searched(row, columns))
      && ((forall i :: 0 <= i < |filters| ==> FilterBinds(filters[i]))
          <==> forall i :: 0 <= i < |columns| ==> Binds(Get(row, columns[i])))
  {
    var filters := EqualTo(row, columns);
    assert forall i :: 0 <= i < |columns| ==> filters[i] == Eq(columns[i], Get(row, columns[i]));
  }

  /** On a cell that is equal to the value looked for, SQLite finds it unless it ends at its NUL. */
  lemma EqualCellFound(doc: Doc, column: string, v: Json, text: Text)
    requires Pushable(Eq(column, v)) && Binds(v) && PyEq(Get(doc, column), v)
    ensures SqlTest(doc, Eq(column, v), text) == True <==> (v.Str? ==> ReadsBack(v.s, text))
  {
    EqAgreement(doc, column, v, text);
  }

  lemma EqualTupleFound(doc: Doc, row: Doc, columns: seq<string>, text: Text)
    requires Searched(row, columns) && !TooBig(row, columns) && SameTuple(doc, row, columns)
    ensures SqlMatches(doc, EqualTo(row, columns), text) <==> !Hidden(row, columns, text)
  {
    var filters := EqualTo(row, columns);
    forall i | 0 <= i < |columns|
      ensures SqlTest(doc, filters[i], text) == True
        <==> (Get(row, columns[i]).Str? ==> ReadsBack(Get(row, columns[i]).s, text))
    {
      EqualCellFound(doc, columns[i], Get(row, columns[i]), text);
    }
  }

  /** The lookup of a row's values raises exactly when one of them is an integer SQLite does not have;
      otherwise it finds stored rows only, and every row with equal values unless one is a text that
      json_extract ends at its NUL, and then none. */
  lemma FindIsComplete(t: Table, row: Doc, columns: seq<string>, text: Text)
    ensures var found := Find(t, EqualTo(row, columns), text);
      if TooBig(row, columns) then found == Overflow
      else
        found.Rows? && (forall r :: r in found.rows ==> r in t)
        && forall r :: r in t && SameTuple(r.doc, row, columns) ==>
             (r in found.rows <==> !Hidden(row, columns, text))
  {
    var filters := EqualTo(row, columns);
    EqualToPushed(row, columns);
    if !Searched(row, columns) {
      EqFilterExact(t, filters);
      forall r | r in t && SameTuple(r.doc, row, columns) ensures PyMatches(r.doc, filters).Hit? {
        EqNeverRaises(r.doc, filters);
      }
    } else if !TooBig(row, columns) {
      FilterKeeps(t, filters, text);
      forall r | r in t && SameTuple(r.doc, row, columns)
        ensures SqlMatches(r.doc, filters, text) <==> !Hidden(row, columns, text)
      {
        EqualTupleFound(r.doc, row, columns, text);
      }
    }
  }

  /** The indexed duplicate check finds a blocking row exactly when the table holds one, except that
      texts json_extract ends at their NUL are never found. */
  lemma TakenExact(t: Table, pk: string, columns: seq<string>, row: Doc, except: Option<string>, text: Text)
    requires !TooBig(row, columns)
    ensures Taken(t, pk, columns, row, except, text)
        <==> !Hidden(row, columns, text) && exists r :: r in t && Blocks(r.doc, pk, columns, row, except, text)
  {
    FindIsComplete(t, row, columns, text);
    if r :| r in t && Blocks(r.doc, pk, columns, row, except, text) {
      assert r in Find(t, EqualTo(row, columns), text).rows <==> !Hidden(row, columns, text);
    }
  }

  // ---- Defaults --------------------------------------------------------------------------

  function StampField(t: Name): string {
    if t.ScoreEvents? then "at" else "created_at"
  }

  /** Defaults fill gaps only: every value of the row stays, except a falsy key or time stamp. */
  lemma DefaultsRespectRow(db: Db, t: Name, row: Doc, env: Env, draw: nat, column: string)
    requires column in row && (column == PkField(t) || column == StampField(t) ==> Truthy(row[column]))
    ensures var full := ApplyDefaults(db, t, row, env, draw); column in full && full[column] == row[column]
  {
  }

  /** A row that has its defaults is left as it is by a second pass at any later time. */
  lemma DefaultsOnce(db: Db, t: Name, row: Doc, env: Env, draw: nat, later: Env, next: nat)
    requires env.now != "" && env.uuid(draw) != ""
    requires PkField(t) == "id" || PkField(t) == "run_id" || PkField(t) == "seq" || Truthy(Get(row, PkField(t)))
    ensures var full := ApplyDefaults(db, t, row, env, draw); ApplyDefaults(db, t, full, later, next) == full
  {
    var full := ApplyDefaults(db, t, row, env, draw);
    assert forall c :: c in ColumnDefaults(t) ==> c in full;
  }

  // ---- Keys ------------------------------------------------------------------------------

  ghost predicate DistinctPks(t: Table) {
    forall i, j :: 0 <= i < j < |t| ==> t[i].pk != t[j].pk
  }

  predicate Keyed(name: Name, pk: string, doc: Doc, text: Text) {
    PkField(name) in doc && pk == KeyText(name, doc, text)
  }

  ghost predicate TableOk(t: Table, name: Name, text: Text) {
    RowidOrdered(t)
    && DistinctPks(t)
    && (forall r :: r in t ==> Keyed(name, r.pk, r.doc, text))
  }

  /** Every stored row sits under the text of its own key, and no two rows share a key. */
  ghost predicate DbOk(db: Db, text: Text) {
    forall name :: TableOk(RowsOf(db, name), name, text)
  }

  lemma {:induction false} WithoutMembers(t: Table, pk: string)
    ensures forall r :: r in Without(t, pk) <==> r in t && r.pk != pk
  {
    if t != [] {
      WithoutMembers(t[..|t| - 1], pk);
      assert t == t[..|t| - 1] + [t[|t| - 1]];
    }
  }

  lemma {:induction false} WithoutNothing(t: Table, pk: string)
    requires forall r :: r in t ==> r.pk != pk
    ensures Without(t, pk) == t
  {
    if t != [] {
      WithoutNothing(t[..|t| - 1], pk);
    }
  }

  lemma {:induction false} WithoutOrdered(t: Table, pk: string)
    requires RowidOrdered(t) && DistinctPks(t)
    ensures RowidOrdered(Without(t, pk)) && DistinctPks(Without(t, pk))
  {
    if t != [] {
      var front, last := t[..|t| - 1], t[|t| - 1];
      WithoutOrdered(front, pk);
      WithoutMembers(front, pk);
      forall i | 0 <= i < |Without(front, pk)|
        ensures Without(front, pk)[i].rowid < last.rowid && Without(front, pk)[i].pk != last.pk
      {
        assert Without(front, pk)[i] in front;
      }
    }
  }

  function NextRowid(t: Table): nat {
    if t == [] then 1 else t[|t| - 1].rowid + 1
  }

  lemma PutOk(t: Table, name: Name, pk: string, doc: Doc, text: Text)
    requires TableOk(t, name, text) && Keyed(name, pk, doc, text)
    ensures TableOk(Put(t, pk, doc), name, text)
  {
    WithoutMembers(t, pk);
    WithoutOrdered(t, pk);
    var kept := Without(t, pk);
    forall i | 0 <= i < |kept| ensures kept[i].rowid < NextRowid(t) && kept[i].pk != pk {
      assert kept[i] in t;
    }
  }

  lemma PutRowOk(db: Db, t: Name, pk: string, doc: Doc, text: Text)
    requires DbOk(db, text) && Keyed(t, pk, doc, text)
    ensures DbOk(PutRow(db, t, pk, doc), text)
  {
    assert TableOk(RowsOf(db, t), t, text);
    PutOk(RowsOf(db, t), t, pk, doc, text);
    forall n ensures TableOk(RowsOf(PutRow(db, t, pk, doc), n), n, text) {
      assert TableOk(RowsOf(db, n), n, text);
    }
  }

  lemma DropRowOk(db: Db, t: Name, pk: string, text: Text)
    requires DbOk(db, text)
    ensures DbOk(DropRow(db, t, pk), text)
  {
    assert TableOk(RowsOf(db, t), t, text);
    WithoutMembers(RowsOf(db, t), pk);
    WithoutOrdered(RowsOf(db, t), pk);
    forall n ensures TableOk(RowsOf(DropRow(db, t, pk), n), n, text) {
      assert TableOk(RowsOf(db, n), n, text);
    }
  }

  // ---- Key texts -------------------------------------------------------------------------

  /** The text is how the value is written. */
  predicate Spells(s: string, v: Json) {
    match v
    case Null => s == "None"
    case Bool(b) => s == if b then "True" else "False"
    case Num(n) => s == IntText(n)
    case _ => false
  }

  lemma NumbersAreNoWords(n: int)
    ensures IntText(n) != "None" && IntText(n) != "True" && IntText(n) != "False"
  {
    assert IntText(n)[0] == '-' || IsDigit(IntText(n)[0]);
  }

  /** Two keys that are not nested are filed under one text exactly when they are the same, or one is the
      text the other is written as. */
  lemma SameKeyText(a: Json, b: Json, text: Text)
    requires !Nested(a) && !Nested(b)
    ensures PyStr(a, text) == PyStr(b, text)
      <==> a == b || (a.Str? && Spells(a.s, b)) || (b.Str? && Spells(b.s, a))
  {
    if a.Num? {
      NumbersAreNoWords(a.n);
    }
    if b.Num? {
      NumbersAreNoWords(b.n);
    }
    if a.Num? && b.Num? && IntText(a.n) == IntText(b.n) {
      IntTextInjective(a.n, b.n);
    }
  }
}
