/** Every operation, whole or cut short by an error, keeps the store's invariants: keys, the
    evidence log, and the histories that must never be rewritten. */
module History {
  import opened Decimal
  import opened Options
  import opened Values
  import opened Select
  import opened Agreement
  import opened SelectLaws
  import opened Store
  import opened StoreLaws
  import opened Ledger

  /** Keys of append-only tables: text, or a number for the event sequence. */
  predicate KeyKind(t: Name, key: Json) {
    if t.ScoreEvents? then key.Num? else key.Str?
  }

  ghost predicate KeysTyped(db: Db) {
    forall n, r :: AppendOnly(n) && r in RowsOf(db, n) ==> KeyKind(n, Get(r.doc, PkField(n)))
  }

  ghost predicate Inv(db: Db, text: Text) {
    DbOk(db, text) && LedgerOk(db, text) && KeysTyped(db)
  }

  /** Every append-only table still starts with exactly the rows it had. */
  ghost predicate Grown(db: Db, db': Db) {
    forall n :: AppendOnly(n) ==> RowsOf(db, n) <= RowsOf(db', n)
  }

  /** Nothing changed but the operation's own table and the outbox. */
  ghost predicate Confined(db: Db, db': Db, t: Name) {
    forall n :: n != t && n != AuditOutbox ==> RowsOf(db', n) == RowsOf(db, n)
  }

  /** A caller's insert into an append-only table leaves the key out or gives it the table's kind, as
      a text that is not cut at a NUL, and does not pose as the store's own evidence. */
  predicate Honest(op: Op, text: Text) {
    op.Insert? && AppendOnly(op.t) ==>
      var key := Get(op.payload, PkField(op.t));
      (!Truthy(key) || (KeyKind(op.t, key) && (key.Str? ==> ReadsBack(key.s, text))))
      && (op.t.AuditOutbox? ==> !IsEvidence(op.payload))
  }

  lemma TextOfKeyInjective(t: Name, a: Json, b: Json, text: Text)
    requires KeyKind(t, a) && KeyKind(t, b) && PyStr(a, text) == PyStr(b, text)
    ensures PyEq(a, b)
  {
    if t.ScoreEvents? {
      IntTextInjective(a.n, b.n);
    }
  }

  /** A written row is appended behind the rows stored so far, and replaces none of them, exactly
      when no stored row is filed under the same key text. */
  lemma AppendsExactly(t: Table, pk: string, doc: Doc)
    ensures t <= Put(t, pk, doc) <==> forall r :: r in t ==> r.pk != pk
  {
    if forall r :: r in t ==> r.pk != pk {
      WithoutNothing(t, pk);
    } else {
      WithoutShorter(t, pk);
      assert |Put(t, pk, doc)| <= |t|;
      assert Put(t, pk, doc)[|Put(t, pk, doc)| - 1].rowid == NextRowid(t);
    }
  }

  lemma {:induction false} WithoutShorter(t: Table, pk: string)
    ensures |Without(t, pk)| <= |t|
    ensures (exists r :: r in t && r.pk == pk) ==> |Without(t, pk)| < |t|
  {
    if t != [] {
      WithoutShorter(t[..|t| - 1], pk);
      if r :| r in t && r.pk == pk && r != t[|t| - 1] {
        assert r in t[..|t| - 1];
      }
    }
  }

  /** A new key of the table's kind has a text no stored row is filed under. */
  lemma TypedKeyIsNew(t: Table, name: Name, pk: string, row: Doc, text: Text)
    requires TableOk(t, name, text) && Keyed(name, pk, row, text) && KeyKind(name, row[PkField(name)])
    requires forall r :: r in t ==>
      KeyKind(name, Get(r.doc, PkField(name))) && !PyEq(Get(r.doc, PkField(name)), row[PkField(name)])
    ensures forall r :: r in t ==> r.pk != pk
  {
    forall r | r in t ensures r.pk != pk {
      assert Keyed(name, r.pk, r.doc, text);
      if r.pk == pk {
        TextOfKeyInjective(name, Get(r.doc, PkField(name)), row[PkField(name)], text);
      }
    }
  }

  /** What writing a row may assume: in an append-only table its key is new and of the right kind. */
  ghost predicate MayWrite(rows: Table, t: Name, row: Doc) {
    PkField(t) in row && !t.AgentJobs?
    && (AppendOnly(t) ==>
          KeyKind(t, row[PkField(t)])
          && forall r :: r in rows ==> !PyEq(Get(r.doc, PkField(t)), row[PkField(t)]))
    && (t.AuditOutbox? ==> !IsEvidence(row))
  }

  /** In an append-only table the written row comes behind the stored ones. */
  lemma WrittenBehind(rows: Table, t: Name, pk: string, row: Doc, text: Text)
    requires TableOk(rows, t, text) && Keyed(t, pk, row, text) && AppendOnly(t) && MayWrite(rows, t, row)
    requires forall r :: r in rows ==> KeyKind(t, Get(r.doc, PkField(t)))
    ensures Put(rows, pk, row) == rows + [Row(NextRowid(rows), pk, row)]
  {
    TypedKeyIsNew(rows, t, pk, row, text);
    WithoutNothing(rows, pk);
  }

  lemma PlainWriteTyped(db: Db, t: Name, pk: string, row: Doc)
    requires KeysTyped(db) && PkField(t) in row && (AppendOnly(t) ==> KeyKind(t, row[PkField(t)]))
    ensures KeysTyped(PutRow(db, t, pk, row))
  {
    var after := PutRow(db, t, pk, row);
    forall n, r | AppendOnly(n) && r in RowsOf(after, n) ensures KeyKind(n, Get(r.doc, PkField(n))) {
      if n == t {
        WithoutMembers(RowsOf(db, t), pk);
        assert r in RowsOf(db, t) || r.doc == row;
      } else {
        assert r in RowsOf(db, n);
      }
    }
  }

  lemma PlainWriteLedger(db: Db, t: Name, pk: string, row: Doc, text: Text)
    requires LedgerOk(db, text) && !t.AgentJobs?
    requires t.AuditOutbox? ==>
      !IsEvidence(row) && Put(RowsOf(db, t), pk, row) == RowsOf(db, t) + [Row(NextRowid(RowsOf(db, t)), pk, row)]
    ensures LedgerOk(PutRow(db, t, pk, row), text)
  {
    if t.AuditOutbox? {
      LogAppend(RowsOf(db, t), Row(NextRowid(RowsOf(db, t)), pk, row));
    }
  }

  lemma PlainWriteGrown(db: Db, t: Name, pk: string, row: Doc)
    requires AppendOnly(t) ==> RowsOf(db, t) <= Put(RowsOf(db, t), pk, row)
    ensures Grown(db, PutRow(db, t, pk, row))
  {
  }

  lemma PlainWriteGrows(db: Db, t: Name, pk: string, row: Doc, text: Text)
    requires TableOk(RowsOf(db, t), t, text) && KeysTyped(db) && LedgerOk(db, text)
    requires MayWrite(RowsOf(db, t), t, row) && Keyed(t, pk, row, text)
    ensures var after := PutRow(db, t, pk, row); Grown(db, after) && KeysTyped(after) && LedgerOk(after, text)
  {
    if AppendOnly(t) {
      WrittenBehind(RowsOf(db, t), t, pk, row, text);
    }
    PlainWriteTyped(db, t, pk, row);
    PlainWriteLedger(db, t, pk, row, text);
    PlainWriteGrown(db, t, pk, row);
  }

  lemma WriteKeeps(p: Progress, t: Name, row: Doc, env: Env)
    requires Inv(p.db, env.text) && MayWrite(RowsOf(p.db, t), t, row)
    ensures
      var q := Written(p, t, row, env);
      Inv(q.db, env.text) && Grown(p.db, q.db)
      && (!t.AuditOutbox? ==> RowsOf(q.db, AuditOutbox) == RowsOf(p.db, AuditOutbox))
  {
    var pk := KeyText(t, row, env.text);
    assert TableOk(RowsOf(p.db, t), t, env.text);
    PutRowOk(p.db, t, pk, row, env.text);
    PlainWriteGrows(p.db, t, pk, row, env.text);
  }

  lemma GrowsTyped(db: Db, db': Db)
    requires OnlyGrows(db, db', AgentJobs) && KeysTyped(db)
    ensures KeysTyped(db') && Grown(db, db')
  {
  }

  lemma WriteJobKeeps(p: Progress, row: Doc, env: Env)
    requires Inv(p.db, env.text) && Fresh(env, p.db, p.drawn) && "id" in row
    ensures
      var q := Written(p, AgentJobs, row, env);
      Inv(q.db, env.text) && Grown(p.db, q.db) && Confined(p.db, q.db, AgentJobs) && Fresh(env, q.db, p.drawn + 1)
  {
    WriteJobKeepsLedger(p.db, row, env, p.drawn);
    GrowsTyped(p.db, WriteRow(p.db, AgentJobs, row, env, p.drawn).value);
  }

  // ---- Whole operations ------------------------------------------------------------------

  ghost predicate Kept(db: Db, p: Progress, t: Name, env: Env) {
    Inv(p.db, env.text) && Grown(db, p.db) && Confined(db, p.db, t)
  }

  /** One row written into a table whose history may change. */
  lemma RewriteKeeps(db: Db, p: Progress, t: Name, row: Doc, env: Env)
    requires p.failure.None? && Kept(db, p, t, env) && Fresh(env, p.db, p.drawn)
    requires !AppendOnly(t)
    ensures
      var q := Written(p, t, row, env);
      Kept(db, q, t, env) && Fresh(env, q.db, q.drawn)
  {
    if PkField(t) in row {
      if t.AgentJobs? {
        WriteJobKeeps(p, row, env);
      } else {
        WriteKeeps(p, t, row, env);
      }
    }
  }

  lemma DefaultedKey(db: Db, t: Name, payload: Doc, env: Env)
    requires AppendOnly(t) && Honest(Insert(t, payload), env.text) && Plain(env.uuid(0))
    ensures
      var row := ApplyDefaults(db, t, payload, env, 0);
      PkField(t) in row && KeyKind(t, row[PkField(t)]) && (t.AuditOutbox? ==> !IsEvidence(row))
      && !Hidden(row, [PkField(t)], env.text)
  {
  }

  /** A row that passed the duplicate-key check may be appended. */
  lemma UntakenMayWrite(rows: Table, t: Name, row: Doc, text: Text)
    requires PkField(t) in row && !t.AgentJobs? && KeyRefusal(t, rows, row, text).None?
    requires AppendOnly(t) ==> KeyKind(t, row[PkField(t)]) && !Hidden(row, [PkField(t)], text)
    requires t.AuditOutbox? ==> !IsEvidence(row)
    ensures MayWrite(rows, t, row)
  {
    var pk := PkField(t);
    if AppendOnly(t) {
      TakenExact(rows, pk, [pk], row, None, text);
      forall r | r in rows ensures !PyEq(Get(r.doc, pk), row[pk]) {
        assert !Blocks(r.doc, pk, [pk], row, None, text);
      }
    }
  }

  lemma InsertCases(db: Db, t: Name, payload: Doc, env: Env)
    ensures
      var row, p := ApplyDefaults(db, t, payload, env, 0), InsertRow(db, t, payload, env);
      (p.db == db && p.failure.Some?)
      || (p == Written(Begin(db), t, row, env)
          && KeyRefusal(t, RowsOf(db, t), row, env.text).None?
          && UniqueRefusal(t, RowsOf(db, t), row, None, env.text).None?)
  {
  }

  lemma AppendRowKeeps(db: Db, t: Name, row: Doc, env: Env)
    requires Inv(db, env.text) && AppendOnly(t) && PkField(t) in row && KeyKind(t, row[PkField(t)])
    requires KeyRefusal(t, RowsOf(db, t), row, env.text).None? && !Hidden(row, [PkField(t)], env.text)
    requires t.AuditOutbox? ==> !IsEvidence(row)
    ensures Kept(db, Written(Begin(db), t, row, env), t, env)
  {
    UntakenMayWrite(RowsOf(db, t), t, row, env.text);
    WriteKeeps(Begin(db), t, row, env);
    WriteConfined(Begin(db), t, row, env);
  }

  lemma WriteConfined(p: Progress, t: Name, row: Doc, env: Env)
    requires !t.AgentJobs?
    ensures Confined(p.db, Written(p, t, row, env).db, t)
  {
  }

  lemma InsertKeeps(db: Db, t: Name, payload: Doc, env: Env)
    requires Inv(db, env.text) && Fresh(env, db, 1) && Honest(Insert(t, payload), env.text)
    ensures Kept(db, InsertRow(db, t, payload, env), t, env)
  {
    InsertCases(db, t, payload, env);
    if InsertRow(db, t, payload, env).failure.None? || InsertRow(db, t, payload, env).db != db {
      if AppendOnly(t) {
        DefaultedKey(db, t, payload, env);
        AppendRowKeeps(db, t, ApplyDefaults(db, t, payload, env, 0), env);
      } else {
        RewriteKeeps(db, Begin(db), t, ApplyDefaults(db, t, payload, env, 0), env);
      }
    }
  }

  lemma UpdateRowCases(p: Progress, r: Row, op: Op, env: Env)
    requires op.Update?
    ensures
      var q := UpdateRow(p, op.t, r, op, env);
      (q.db == p.db && q.drawn == p.drawn)
      || (p.failure.None? && q == Written(p, op.t, Completed(op.t, r.doc + op.payload, env), env))
  {
  }

  lemma UpdateRowKeeps(db: Db, p: Progress, r: Row, op: Op, env: Env)
    requires Kept(db, p, op.t, env) && Fresh(env, p.db, p.drawn) && op.Update? && !AppendOnly(op.t)
    ensures
      var q := UpdateRow(p, op.t, r, op, env);
      Kept(db, q, op.t, env) && Fresh(env, q.db, q.drawn)
  {
    UpdateRowCases(p, r, op, env);
    if p.failure.None? {
      RewriteKeeps(db, p, op.t, Completed(op.t, r.doc + op.payload, env), env);
    }
  }

  lemma {:induction false} UpdateKeeps(db: Db, found: Table, op: Op, env: Env)
    requires Inv(db, env.text) && Fresh(env, db, 1) && op.Update? && !AppendOnly(op.t)
    ensures
      var p := UpdateRows(Begin(db), found, op, env);
      Kept(db, p, op.t, env) && Fresh(env, p.db, p.drawn)
  {
    if found != [] {
      UpdateKeeps(db, found[..|found| - 1], op, env);
      UpdateRowKeeps(db, UpdateRows(Begin(db), found[..|found| - 1], op, env), found[|found| - 1], op, env);
    }
  }

  lemma DropKeeps(p: Progress, t: Name, r: Row, env: Env)
    requires Inv(p.db, env.text) && Fresh(env, p.db, p.drawn) && !AppendOnly(t) && r in RowsOf(p.db, t)
    ensures
      var q := DeleteRow(p, t, r, env);
      Inv(q.db, env.text) && Grown(p.db, q.db) && Confined(p.db, q.db, t) && Fresh(env, q.db, q.drawn)
      && RowsOf(q.db, t) == Without(RowsOf(p.db, t), r.pk)
  {
    assert TableOk(RowsOf(p.db, t), t, env.text);
    assert Keyed(t, r.pk, r.doc, env.text);
    if t.AgentJobs? {
      DeleteJobKeepsLedger(p, r, env);
      GrowsTyped(p.db, DeleteRow(p, t, r, env).db);
    } else {
      PlainDropKeeps(p.db, t, r.pk, env.text);
    }
  }

  lemma PlainDropKeeps(db: Db, t: Name, pk: string, text: Text)
    requires Inv(db, text) && !AppendOnly(t) && !t.AgentJobs?
    ensures var after := DropRow(db, t, pk); Inv(after, text) && Grown(db, after) && Confined(db, after, t)
  {
    DropRowOk(db, t, pk, text);
    forall n, r | AppendOnly(n) && r in RowsOf(DropRow(db, t, pk), n) ensures KeyKind(n, Get(r.doc, PkField(n))) {
      assert r in RowsOf(db, n);
    }
  }

  lemma {:induction false} DeleteKeeps(db: Db, removed: Table, all: Table, t: Name, env: Env)
    requires Inv(db, env.text) && Fresh(env, db, 1) && !AppendOnly(t)
    requires removed <= all && DistinctPks(all) && forall r :: r in all ==> r in RowsOf(db, t)
    ensures
      var p := DeleteRows(Begin(db), removed, t, env);
      Kept(db, p, t, env) && Fresh(env, p.db, p.drawn)
      && forall i :: |removed| <= i < |all| ==> all[i] in RowsOf(p.db, t)
  {
    if removed != [] {
      var front := removed[..|removed| - 1];
      DeleteKeeps(db, front, all, t, env);
      var p, r := DeleteRows(Begin(db), front, t, env), removed[|removed| - 1];
      assert r == all[|front|];
      DropKeeps(p, t, r, env);
      WithoutMembers(RowsOf(p.db, t), r.pk);
    }
  }

  lemma FoundDistinct(t: Table, filters: seq<Filter>, text: Text)
    requires RowidOrdered(t) && DistinctPks(t)
    ensures
      var found := Find(t, filters, text);
      found.Rows? ==>
        RowidOrdered(found.rows) && forall r :: r in found.rows ==> r in t
  {
    if forall i :: 0 <= i < |filters| ==> Pushable(filters[i]) {
      FilterKeeps(t, filters, text);
    } else if PyFilter(t, filters).Rows? {
      PyFilterKeeps(t, filters);
    }
  }

  lemma RemovedDistinct(t: Table, filters: seq<Filter>, text: Text)
    requires RowidOrdered(t) && DistinctPks(t)
    requires Find(t, filters, text).Rows? && PyFilter(Find(t, filters, text).rows, filters).Rows?
    ensures
      var removed := PyFilter(Find(t, filters, text).rows, filters).rows;
      DistinctPks(removed) && forall r :: r in removed ==> r in t
  {
    FoundDistinct(t, filters, text);
    PyFilterKeeps(Find(t, filters, text).rows, filters);
    var removed := PyFilter(Find(t, filters, text).rows, filters).rows;
    forall i, j | 0 <= i < j < |removed| ensures removed[i].pk != removed[j].pk {
      assert removed[i] in t && removed[j] in t && removed[i].rowid < removed[j].rowid;
    }
  }

  lemma UpsertCases(db: Db, t: Name, payload: Doc, env: Env)
    ensures
      var row, p := UpsertDoc(db, t, payload, env), UpsertRow(db, t, payload, env);
      (p.db == db && p.failure.Some?)
      || (p == Written(Begin(db), t, row, env)
          && UniqueRefusal(t, RowsOf(db, t), row, Some(KeyText(t, row, env.text)), env.text).None?)
  {
  }

  lemma UpsertKeeps(db: Db, t: Name, payload: Doc, env: Env)
    requires Inv(db, env.text) && Fresh(env, db, 1) && !AppendOnly(t)
    ensures Kept(db, UpsertRow(db, t, payload, env), t, env)
  {
    UpsertCases(db, t, payload, env);
    RewriteKeeps(db, Begin(db), t, UpsertDoc(db, t, payload, env), env);
  }

  lemma DeleteFoundKeeps(db: Db, t: Name, filters: seq<Filter>, env: Env)
    requires Inv(db, env.text) && Fresh(env, db, 1) && !AppendOnly(t)
    requires Find(RowsOf(db, t), filters, env.text).Rows?
    requires PyFilter(Find(RowsOf(db, t), filters, env.text).rows, filters).Rows?
    ensures
      var removed := PyFilter(Find(RowsOf(db, t), filters, env.text).rows, filters).rows;
      Kept(db, DeleteRows(Begin(db), removed, t, env), t, env)
  {
    var removed := PyFilter(Find(RowsOf(db, t), filters, env.text).rows, filters).rows;
    assert TableOk(RowsOf(db, t), t, env.text);
    RemovedDistinct(RowsOf(db, t), filters, env.text);
    DeleteKeeps(db, removed, removed, t, env);
  }

  /** Whatever one operation does, and however far it comes, the invariants hold, the append-only
      tables only grow, and no table changes but its own and the outbox. */
  lemma ApplyKeeps(db: Db, op: Op, env: Env)
    requires Inv(db, env.text) && Fresh(env, db, 1) && Honest(op, env.text)
    ensures Kept(db, Apply(db, op, env), op.t, env)
  {
    var t := op.t;
    if !AppendOnly(t) || op.Insert? {
      match op
      case Insert(_, payload) => InsertKeeps(db, t, payload, env);
      case Upsert(_, payload) => UpsertKeeps(db, t, payload, env);
      case Update(_, filters, _) =>
        var found := Find(RowsOf(db, t), filters, env.text);
        if found.Rows? {
          UpdateKeeps(db, found.rows, op, env);
        }
      case Delete(_, filters) =>
        var found := Find(RowsOf(db, t), filters, env.text);
        if found.Rows? && PyFilter(found.rows, filters).Rows? {
          DeleteFoundKeeps(db, t, filters, env);
        }
    }
  }
}
